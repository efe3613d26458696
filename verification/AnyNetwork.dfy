/**
 Client and server over a network that may lose, repeat and reorder packets in both directions:
 whatever has been sent may arrive at any later time, any number of times. What the server writes
 may then stop being a prefix of the source, and be removed for excess; a finished client may leave
 an incomplete server, whose file is removed by the early FIN. For each the exact file sizes are
 proved here. `KeptFiles` does the same for files that are kept but differ from the source.
 */
module AnyNetwork {
  import opened Packets
  import opened Chunks
  import opened Sender
  import Receiver

  /** `data` and `acks` hold everything sent so far; `created` counts the data packets made. */
  datatype Net = Net(client: Process, server: Receiver.State, data: set<Packet>, acks: set<Packet>, created: nat)

  datatype Step =
    | ClientLocal(l: Local)
    | ClientSend
    | ClientTake(reply: Packet)
    | ServerTake(packet: Packet)
    | ServerGiveUp

  /** The ACK for packet 1 that confirms the request may arrive again. */
  function Initial(file: seq<byte>): Net {
    Net(Process(Start(file), LoopHead), Receiver.Start(|file|), {}, {Ack(1)}, 0)
  }

  predicate Enabled(s: Net, step: Step) {
    match step
    case ClientLocal(l) => CanLocal(s.client, l)
    case ClientSend => CanSend(s.client)
    case ClientTake(p) => CanTake(s.client) && p in s.acks
    case ServerTake(p) => s.server.status.Running? && p in s.data
    case ServerGiveUp => s.server.status.Running?
  }

  function LocalStep(s: Net, l: Local): Net {
    var client := DoLocal(s.client, l);
    var made := |client.vars.window| - |s.client.vars.window|;
    s.(client := client, created := if made > 0 then s.created + made else s.created)
  }

  function SendStep(s: Net): Net
    requires CanSend(s.client)
  {
    s.(client := AfterSend(s.client), data := s.data + {Outgoing(s.client)})
  }

  function ClientTakeStep(s: Net, p: Packet): Net
    requires CanTake(s.client)
  {
    s.(client := AfterTake(s.client, p))
  }

  function ServerTakeStep(s: Net, p: Packet): Net {
    var (server, replies) := Receiver.Receive(s.server, p);
    s.(server := server, acks := s.acks + set r | r in replies)
  }

  function Apply(s: Net, step: Step): Net
    requires Enabled(s, step)
  {
    match step
    case ClientLocal(l) => LocalStep(s, l)
    case ClientSend => SendStep(s)
    case ClientTake(p) => ClientTakeStep(s, p)
    case ServerTake(p) => ServerTakeStep(s, p)
    case ServerGiveUp => s.(server := Receiver.GiveUp(s.server))
  }

  ghost predicate Next(s: Net, t: Net) {
    exists step :: Enabled(s, step) && t == Apply(s, step)
  }

  ghost predicate StepAt(run: seq<Net>, i: nat)
    requires i + 1 < |run|
  {
    Next(run[i], run[i + 1])
  }

  ghost predicate IsRun(file: seq<byte>, run: seq<Net>) {
    && |run| > 0 && run[0] == Initial(file)
    && forall i :: 0 <= i < |run| - 1 ==> StepAt(run, i)
  }

  ghost predicate Reachable(file: seq<byte>, s: Net) {
    exists run :: IsRun(file, run) && run[|run| - 1] == s
  }

  lemma ReachInitial(file: seq<byte>)
    ensures Reachable(file, Initial(file))
  {
    var run := [Initial(file)];
    assert IsRun(file, run) && run[|run| - 1] == Initial(file);
  }

  lemma ReachNext(file: seq<byte>, s: Net, t: Net)
    requires Reachable(file, s) && Next(s, t)
    ensures Reachable(file, t)
  {
    var run :| IsRun(file, run) && run[|run| - 1] == s;
    var longer := run + [t];
    forall i | 0 <= i < |longer| - 1 ensures StepAt(longer, i) {
      if i < |run| - 1 {
        assert StepAt(run, i);
      }
    }
    assert IsRun(file, longer) && longer[|longer| - 1] == t;
  }

  lemma ReachClientTake(file: seq<byte>, s: Net, p: Packet)
    requires Reachable(file, s) && CanTake(s.client) && p in s.acks
    ensures Reachable(file, ClientTakeStep(s, p))
  {
    assert Enabled(s, ClientTake(p)) && ClientTakeStep(s, p) == Apply(s, ClientTake(p));
    ReachNext(file, s, ClientTakeStep(s, p));
  }

  // ---- paths on which the client takes no reply ----

  ghost predicate Moves(s: Net, t: Net) {
    exists step :: Enabled(s, step) && !step.ClientTake? && t == Apply(s, step)
  }

  ghost predicate MovesAt(path: seq<Net>, i: nat)
    requires i + 1 < |path|
  {
    Moves(path[i], path[i + 1])
  }

  ghost predicate IsPath(path: seq<Net>) {
    |path| > 0 && forall i :: 0 <= i < |path| - 1 ==> MovesAt(path, i)
  }

  /** Some path leads from s to t. */
  ghost predicate Leads(s: Net, t: Net) {
    exists path :: IsPath(path) && path[0] == s && path[|path| - 1] == t
  }

  lemma LeadsNowhere(s: Net)
    ensures Leads(s, s)
  {
    assert IsPath([s]) && [s][0] == s;
  }

  lemma LeadsBy(s: Net, step: Step, t: Net)
    requires Enabled(s, step) && !step.ClientTake? && t == Apply(s, step)
    ensures Leads(s, t)
  {
    var path := [s, t];
    assert MovesAt(path, 0);
    assert IsPath(path) && path[0] == s && path[|path| - 1] == t;
  }

  lemma LeadsThrough(s: Net, m: Net, t: Net)
    requires Leads(s, m) && Leads(m, t)
    ensures Leads(s, t)
  {
    hide Moves;
    var p :| IsPath(p) && p[0] == s && p[|p| - 1] == m;
    var q :| IsPath(q) && q[0] == m && q[|q| - 1] == t;
    var path := p + q[1..];
    forall i | 0 <= i < |path| - 1 ensures MovesAt(path, i) {
      if i < |p| - 1 {
        assert MovesAt(p, i);
      } else {
        assert MovesAt(q, i - |p| + 1);
      }
    }
    assert IsPath(path) && path[0] == s && path[|path| - 1] == t;
  }

  lemma {:induction false} PathReaches(file: seq<byte>, path: seq<Net>, m: nat)
    requires IsPath(path) && m < |path| && Reachable(file, path[0])
    ensures Reachable(file, path[m])
  {
    if m > 0 {
      PathReaches(file, path, m - 1);
      assert MovesAt(path, m - 1);
      MoveIsNext(path[m - 1], path[m]);
      ReachNext(file, path[m - 1], path[m]);
    }
  }

  lemma MoveIsNext(s: Net, t: Net)
    requires Moves(s, t)
    ensures Next(s, t)
  {
  }

  lemma ReachLeads(file: seq<byte>, s: Net, t: Net)
    requires Reachable(file, s) && Leads(s, t)
    ensures Reachable(file, t)
  {
    var path :| IsPath(path) && path[0] == s && path[|path| - 1] == t;
    PathReaches(file, path, |path| - 1);
  }

  lemma ReachLocal(file: seq<byte>, s: Net, l: Local)
    requires Reachable(file, s) && CanLocal(s.client, l)
    ensures Reachable(file, LocalStep(s, l))
  {
    LeadsBy(s, ClientLocal(l), LocalStep(s, l));
    ReachLeads(file, s, LocalStep(s, l));
  }

  lemma ReachSend(file: seq<byte>, s: Net)
    requires Reachable(file, s) && CanSend(s.client)
    ensures Reachable(file, SendStep(s))
  {
    LeadsBy(s, ClientSend, SendStep(s));
    ReachLeads(file, s, SendStep(s));
  }

  lemma ReachServerTake(file: seq<byte>, s: Net, p: Packet)
    requires Reachable(file, s) && s.server.status.Running? && p in s.data
    ensures Reachable(file, ServerTakeStep(s, p))
  {
    LeadsBy(s, ServerTake(p), ServerTakeStep(s, p));
    ReachLeads(file, s, ServerTakeStep(s, p));
  }

  // ---- the invariant ----

  /** The server has accepted the packets 1, ..., e - 1 of the file. */
  ghost predicate ServerAt(server: Receiver.State, file: seq<byte>, e: nat) {
    && e >= 1
    && server.filesize == |file|
    && server.expected == Wrap(e)
    && server.data == file[..Covered(|file|, e - 1)]
    && server.read == |server.data|
    && (server.status.Kept? ==> server.data == file)
    && server.status != Receiver.Removed(Receiver.Excess)
  }

  /** The server has accepted e - 1 packets and holds `data`. */
  function Waiting(file: seq<byte>, e: nat, data: seq<byte>): Receiver.State {
    Receiver.State(|file|, Wrap(e), |data|, data, Receiver.Running)
  }

  ghost predicate IsDatum(file: seq<byte>, p: Packet, created: nat) {
    p == FIN || exists i :: 1 <= i <= created && p == DataPacket(file, i)
  }

  ghost predicate IsReply(p: Packet, e: nat) {
    p == FINACK || exists j :: 1 <= j <= e && p == Ack(Wrap(j))
  }

  ghost predicate ClientInv(file: seq<byte>, client: Process, created: nat, first: nat) {
    && client.vars.file == file
    && Tracks(client.vars, first)
    && created == first - 1 + |client.vars.window|
    && (client.phase.LoopHead? ==> client.vars.read <= 0)
    && (client.phase.Sending? ==> client.phase.next <= |client.vars.window|)
    && (HasLeft(client) ==> client.vars.written == |file|)
    && (client.phase.Sending? || client.phase.Listening? || client.phase.Failed? ==> file != [])
    && (client.phase.Failed? ==> client.phase.why.AckTimedOut?)
    && (created == 0 || (created - WINDOW_SIZE) * PAYLOAD_SIZE < |file|)
  }

  /** What holds as long as no two of the created packets share a number with each other or with 0. */
  ghost predicate ServerInv(file: seq<byte>, s: Net, first: nat, e: nat) {
    && ServerAt(s.server, file, e)
    && e <= s.created + 1
    && (first >= 2 ==> e >= 2)
    && (forall p :: p in s.acks ==> IsReply(p, e))
    && (s.server.status == Receiver.Removed(Receiver.Incomplete) ==> |file| > PAYLOAD_SIZE)
  }

  ghost predicate HasLeft(client: Process) { client.phase.Closing? || client.phase.Done? }

  ghost predicate Inv(file: seq<byte>, s: Net, first: nat, e: nat) {
    && ClientInv(file, s.client, s.created, first)
    && (forall p :: p in s.data ==> IsDatum(file, p, s.created))
    && (forall p :: p in s.acks ==> p == FINACK || p == Ack(p.number))
    && (FIN in s.data ==> HasLeft(s.client))
    && (FINACK in s.acks ==> s.server.status.Kept?)
    && (s.created <= 65535 ==> ServerInv(file, s, first, e))
  }

  lemma InitialInv(file: seq<byte>)
    ensures Inv(file, Initial(file), 1, 1)
  {
    assert IsReply(Ack(Wrap(1)), 1);
  }

  /** Local steps keep the client's invariant; a refill makes packets up to first + 49. */
  lemma LocalClient(file: seq<byte>, s: Net, first: nat, l: Local) returns (t: Net)
    requires ClientInv(file, s.client, s.created, first) && CanLocal(s.client, l)
    ensures t == LocalStep(s, l) == s.(client := t.client, created := t.created)
    ensures ClientInv(file, t.client, t.created, first) && (HasLeft(s.client) ==> HasLeft(t.client))
    ensures t.created == s.created || t.created == first - 1 + WINDOW_SIZE > s.created
  {
    t := LocalStep(s, l);
    if l.Head? && s.client.vars.written != |file| {
      RefillTracks(s.client.vars, first);
    }
  }

  lemma LocalInv(file: seq<byte>, s: Net, first: nat, e: nat, l: Local)
    requires Inv(file, s, first, e) && CanLocal(s.client, l)
    ensures Inv(file, LocalStep(s, l), first, e)
  {
    var t := LocalClient(file, s, first, l);
    DatumsGrow(file, s.data, s.created, t.created);
  }

  lemma DatumsGrow(file: seq<byte>, ps: set<Packet>, m: nat, n: nat)
    requires m <= n && forall p :: p in ps ==> IsDatum(file, p, m)
    ensures forall p :: p in ps ==> IsDatum(file, p, n)
  {
  }

  lemma OutgoingIsDatum(file: seq<byte>, s: Net, first: nat)
    requires ClientInv(file, s.client, s.created, first) && CanSend(s.client)
    ensures IsDatum(file, Outgoing(s.client), s.created)
    ensures ClientInv(file, AfterSend(s.client), s.created, first)
    ensures HasLeft(AfterSend(s.client)) <==> HasLeft(s.client)
    ensures Outgoing(s.client) == FIN ==> HasLeft(s.client)
  {
    if s.client.phase.Sending? {
      assert Outgoing(s.client) == DataPacket(file, first + s.client.phase.next);
    }
  }

  lemma SendInv(file: seq<byte>, s: Net, first: nat, e: nat)
    requires Inv(file, s, first, e) && CanSend(s.client)
    ensures Inv(file, SendStep(s), first, e)
  {
    OutgoingIsDatum(file, s, first);
  }

  lemma WindowMoves(file: seq<byte>, s: Net, t: Net, first: nat, k: nat)
    requires ClientInv(file, s.client, s.created, first) && s.client.phase.Listening? && t.client.phase.Listening?
    requires k <= |s.client.vars.window| && t.created == s.created
    requires Tracks(t.client.vars, first + k) && t.client.vars.file == file
    requires |t.client.vars.window| == |s.client.vars.window| - k
    ensures ClientInv(file, t.client, t.created, first + k)
  {
  }

  /** An acknowledgement advances the client by `Popped` packets. */
  lemma AckAdvances(file: seq<byte>, s: Net, first: nat, a: u16) returns (k: nat, t: Net)
    requires ClientInv(file, s.client, s.created, first) && s.client.phase.Listening?
    ensures t == ClientTakeStep(s, Ack(a))
    ensures k == Popped(|s.client.vars.window|, Wrap(first), a)
    ensures ClientInv(file, t.client, t.created, first + k) && t.client.phase.Listening?
    ensures |t.client.vars.window| == |s.client.vars.window| - k
  {
    t := ClientTakeStep(s, Ack(a));
    AfterTakeAck(s.client, a);
    var n, _ := PopLoopTracks(s.client.vars.(read := HEADER_SIZE), first, a);
    k := n;
    WindowMoves(file, s, t, first, k);
  }

  /** The server only acknowledges beyond packet 1 when it has accepted packet 1. */
  lemma AckBeyondFirst(e: nat, a: u16)
    requires IsReply(Ack(a), e) && a != Wrap(1)
    ensures e >= 2
  {
  }

  lemma OtherReply(file: seq<byte>, s: Net, first: nat, p: Packet)
    requires ClientInv(file, s.client, s.created, first) && CanTake(s.client)
    requires p == FINACK || s.client.phase.Closing?
    ensures ClientInv(file, ClientTakeStep(s, p).client, ClientTakeStep(s, p).created, first)
  {
  }

  lemma ClientMoves(file: seq<byte>, s: Net, t: Net, first: nat, first': nat, e: nat)
    requires Inv(file, s, first, e) && t == s.(client := t.client) && ClientInv(file, t.client, t.created, first')
    requires HasLeft(s.client) ==> HasLeft(t.client)
    requires s.created <= 65535 && first' >= 2 ==> e >= 2
    ensures Inv(file, t, first', e)
  {
  }

  lemma ClientTakeInv(file: seq<byte>, s: Net, first: nat, e: nat, p: Packet) returns (first': nat)
    requires Inv(file, s, first, e) && CanTake(s.client) && p in s.acks
    ensures Inv(file, ClientTakeStep(s, p), first', e)
  {
    hide Wrap, Covered, Popped;
    first' := first;
    if p == FINACK || s.client.phase.Closing? {
      OtherReply(file, s, first, p);
    } else {
      var k, _ := AckAdvances(file, s, first, p.number);
      AheadIsModular(Wrap(first), p.number);
      first' := first + k;
      if s.created <= 65535 && first == 1 && k > 0 {
        AckBeyondFirst(e, p.number);
      }
    }
    ClientMoves(file, s, ClientTakeStep(s, p), first, first', e);
  }

  /** A server that waits for packet e accepts it, and for any other number repeats its ACK. */
  lemma ReceiveDatum(file: seq<byte>, server: Receiver.State, e: nat, i: nat)
    requires ServerAt(server, file, e) && server.status.Running? && i >= 1
    requires i != e ==> Wrap(i) != Wrap(e)
    ensures var e' := if i == e then e + 1 else e;
            var (t, replies) := Receiver.Receive(server, DataPacket(file, i));
            ServerAt(t, file, e') && t.status.Running? && replies == [Ack(Wrap(e'))]
  {
    if i == e {
      WrapNext(e);
      assert server.data + Chunk(file, e) == file[..Covered(|file|, e)];
    }
  }

  /** Among at most 65535 created packets the server accepts only the one it waits for. */
  lemma ReceiveAt(file: seq<byte>, server: Receiver.State, e: nat, p: Packet, created: nat) returns (e': nat)
    requires ServerAt(server, file, e) && server.status.Running? && IsDatum(file, p, created)
    requires e <= created + 1 <= 65536
    ensures e <= e' <= created + 1
    ensures ServerAt(Receiver.Receive(server, p).0, file, e')
    ensures p != FIN ==> Receiver.Receive(server, p).1 == [Ack(Wrap(e'))]
    ensures forall r :: r in Receiver.Receive(server, p).1 ==> IsReply(r, e')
  {
    e' := e;
    if p != FIN {
      var i :| 1 <= i <= created && p == DataPacket(file, i);
      WrapInjective(i, e);
      ReceiveDatum(file, server, e, i);
      e' := if i == e then e + 1 else e;
      assert IsReply(Ack(Wrap(e')), e');
    }
  }

  lemma ReplyShape(server: Receiver.State, p: Packet)
    ensures forall r :: r in Receiver.Receive(server, p).1 ==> r == FINACK || r == Ack(r.number)
    ensures FINACK in Receiver.Receive(server, p).1 ==> Receiver.Receive(server, p).0.status.Kept?
  {
  }

  lemma ServerTakeInv(file: seq<byte>, s: Net, first: nat, e: nat, p: Packet) returns (e': nat)
    requires Inv(file, s, first, e) && s.server.status.Running? && p in s.data
    ensures Inv(file, ServerTakeStep(s, p), first, e')
    ensures e <= e' && (s.created <= 65535 && p != FIN ==> Receiver.Receive(s.server, p).1 == [Ack(Wrap(e'))])
  {
    e' := e;
    ReplyShape(s.server, p);
    if s.created <= 65535 {
      e' := ReceiveAt(file, s.server, e, p, s.created);
      RepliesGrow(s.acks, e, e');
      if p == FIN {
        FinAfterOneChunk(file, s, first, e);
      }
    }
  }

  /** A FIN for a file of one chunk finds that chunk accepted. */
  lemma FinAfterOneChunk(file: seq<byte>, s: Net, first: nat, e: nat)
    requires ClientInv(file, s.client, s.created, first) && ServerInv(file, s, first, e) && HasLeft(s.client)
    ensures |file| <= PAYLOAD_SIZE ==> s.server.data == file
  {
  }

  lemma RepliesGrow(ps: set<Packet>, m: nat, n: nat)
    requires m <= n && forall p :: p in ps ==> IsReply(p, m)
    ensures forall p :: p in ps ==> IsReply(p, n)
  {
  }

  lemma StepInv(file: seq<byte>, s: Net, first: nat, e: nat, step: Step) returns (first': nat, e': nat)
    requires Inv(file, s, first, e) && Enabled(s, step)
    ensures Inv(file, Apply(s, step), first', e')
  {
    first', e' := first, e;
    match step
    case ClientLocal(l) => LocalInv(file, s, first, e, l);
    case ClientSend => SendInv(file, s, first, e);
    case ClientTake(p) => first' := ClientTakeInv(file, s, first, e, p);
    case ServerTake(p) => e' := ServerTakeInv(file, s, first, e, p);
    case ServerGiveUp =>
  }

  lemma NextInv(file: seq<byte>, s: Net, t: Net, first: nat, e: nat) returns (first': nat, e': nat)
    requires Inv(file, s, first, e) && Next(s, t)
    ensures Inv(file, t, first', e')
  {
    var step :| Enabled(s, step) && t == Apply(s, step);
    first', e' := StepInv(file, s, first, e, step);
  }

  lemma {:induction false} RunInv(file: seq<byte>, run: seq<Net>, m: nat) returns (first: nat, e: nat)
    requires IsRun(file, run) && m < |run|
    ensures Inv(file, run[m], first, e)
  {
    if m == 0 {
      InitialInv(file);
      first, e := 1, 1;
    } else {
      first, e := RunInv(file, run, m - 1);
      assert StepAt(run, m - 1);
      first, e := NextInv(file, run[m - 1], run[m], first, e);
    }
  }

  /** The invariant holds in every reachable state. */
  lemma ReachableInv(file: seq<byte>, s: Net) returns (first: nat, e: nat)
    requires Reachable(file, s)
    ensures Inv(file, s, first, e)
  {
    var run :| IsRun(file, run) && run[|run| - 1] == s;
    first, e := RunInv(file, run, |run| - 1);
  }

  // ---- safety of the server's file ----

  /** Size up to which no run can create more than 65535 data packets, padding included. */
  const SAFE_SIZE: nat := 65486 * PAYLOAD_SIZE

  /** With at most 65535 packets created the file is a prefix, and a kept file is the source. */
  lemma PrefixSafety(file: seq<byte>, s: Net)
    requires Reachable(file, s) && s.created <= 65535
    ensures s.server.data <= file
    ensures s.server.status.Kept? ==> s.server.data == file
    ensures s.server.status != Receiver.Removed(Receiver.Excess)
  {
    var first, e := ReachableInv(file, s);
  }

  /** A run creates at most 49 packets more than the file needs. */
  lemma CreatedBound(file: seq<byte>, s: Net)
    requires Reachable(file, s)
    ensures s.created == 0 || (s.created - WINDOW_SIZE) * PAYLOAD_SIZE < |file|
    ensures |file| <= SAFE_SIZE ==> s.created <= 65535
  {
    var first, e := ReachableInv(file, s);
  }

  // ---- runs that lead outside ----

  /** The client listens with the full window that starts at `first`; 1 ... first + 49 are in the network. */
  ghost predicate Awaits(file: seq<byte>, s: Net, first: nat) {
    && ClientInv(file, s.client, s.created, first)
    && s.client.phase.Listening? && |s.client.vars.window| == WINDOW_SIZE
    && (forall i :: 1 <= i < first + WINDOW_SIZE ==> DataPacket(file, i) in s.data)
  }

  ghost predicate Listens(file: seq<byte>, s: Net, first: nat) { Reachable(file, s) && Awaits(file, s, first) }

  lemma {:induction false} SendRest(s: Net) returns (t: Net)
    requires s.client.phase.Sending? && s.client.phase.next <= |s.client.vars.window|
    ensures Leads(s, t) && s.data <= t.data
    ensures t == s.(client := s.client.(phase := Sending(|s.client.vars.window|)), data := t.data)
    ensures forall i :: s.client.phase.next <= i < |s.client.vars.window| ==> s.client.vars.window[i] in t.data
    decreases |s.client.vars.window| - s.client.phase.next
  {
    hide Leads;
    if s.client.phase.next == |s.client.vars.window| {
      t := s;
      LeadsNowhere(s);
    } else {
      var u := SendStep(s);
      LeadsBy(s, ClientSend, u);
      t := SendRest(u);
      LeadsThrough(s, u, t);
      assert s.client.vars.window[s.client.phase.next] in u.data;
    }
  }

  /** At the loop head with bytes missing: refill, send everything, listen. */
  lemma Transmission(file: seq<byte>, s: Net, first: nat) returns (t: Net)
    requires ClientInv(file, s.client, s.created, first) && s.client.phase.LoopHead?
    requires s.client.vars.written < |file|
    requires forall i :: 1 <= i < first + |s.client.vars.window| ==> DataPacket(file, i) in s.data
    ensures Leads(s, t) && Awaits(file, t, first)
    ensures t.server == s.server && t.acks == s.acks && s.data <= t.data
  {
    hide Leads, Wrap;
    RefillTracks(s.client.vars, first);
    var u := LocalStep(s, Head);
    LeadsBy(s, ClientLocal(Head), u);
    var v := SendRest(u);
    LeadsThrough(s, u, v);
    t := LocalStep(v, SentAll);
    LeadsBy(v, ClientLocal(SentAll), t);
    LeadsThrough(s, v, t);
    forall i | 1 <= i < first + WINDOW_SIZE ensures DataPacket(file, i) in t.data {
      if i >= first {
        assert u.client.vars.window[i - first] == DataPacket(file, i);
      }
    }
  }

  lemma Transmit(file: seq<byte>, s: Net, first: nat) returns (t: Net)
    requires Reachable(file, s) && ClientInv(file, s.client, s.created, first) && s.client.phase.LoopHead?
    requires s.client.vars.written < |file|
    requires forall i :: 1 <= i < first + |s.client.vars.window| ==> DataPacket(file, i) in s.data
    ensures Listens(file, t, first)
    ensures t.server == s.server && t.acks == s.acks && s.data <= t.data
  {
    t := Transmission(file, s, first);
    ReachLeads(file, s, t);
  }

  lemma QuietMoves(file: seq<byte>, s: Net, first: nat)
    requires ClientInv(file, s.client, s.created, first) && s.client.phase.Listening?
    ensures LocalStep(s, Quiet) == s.(client := Process(s.client.vars.(read := -1), LoopHead))
    ensures ClientInv(file, LocalStep(s, Quiet).client, LocalStep(s, Quiet).created, first)
  {
  }

  lemma TakeAck(file: seq<byte>, s: Net, first: nat, a: u16) returns (k: nat, t: Net)
    requires Reachable(file, s) && ClientInv(file, s.client, s.created, first)
    requires s.client.phase.Listening? && Ack(a) in s.acks
    ensures Reachable(file, t) && t == s.(client := t.client)
    ensures k == Popped(|s.client.vars.window|, Wrap(first), a)
    ensures ClientInv(file, t.client, t.created, first + k) && t.client.phase.Listening?
    ensures |t.client.vars.window| == |s.client.vars.window| - k
  {
    ReachClientTake(file, s, Ack(a));
    k, t := AckAdvances(file, s, first, a);
  }

  /** Take one acknowledgement and return to the loop head. */
  lemma TakeToHead(file: seq<byte>, s: Net, first: nat, a: u16) returns (t: Net, k: nat)
    requires Listens(file, s, first) && Ack(a) in s.acks
    ensures k == Popped(WINDOW_SIZE, Wrap(first), a)
    ensures Reachable(file, t) && t == s.(client := t.client)
    ensures ClientInv(file, t.client, t.created, first + k)
    ensures t.client.phase.LoopHead? && |t.client.vars.window| == WINDOW_SIZE - k
  {
    hide Reachable, Wrap, Popped, Covered;
    var n, u := TakeAck(file, s, first, a);
    k := n;
    ReachLocal(file, u, Quiet);
    QuietMoves(file, u, first + k);
    t := LocalStep(u, Quiet);
  }

  /** Take one acknowledgement, then go round the loop: on to the next window or out of the loop. */
  lemma TakeAndTransmit(file: seq<byte>, s: Net, first: nat, a: u16) returns (t: Net, k: nat)
    requires Listens(file, s, first) && Ack(a) in s.acks
    ensures k == Popped(WINDOW_SIZE, Wrap(first), a)
    ensures t.server == s.server && t.acks == s.acks && s.data <= t.data
    ensures Covered(|file|, first - 1 + k) < |file| ==> Listens(file, t, first + k)
    ensures Covered(|file|, first - 1 + k) == |file| ==> Reachable(file, t) && t.client.phase.Closing?
  {
    hide Reachable, Wrap, Popped;
    t, k := TakeToHead(file, s, first, a);
    if Covered(|file|, first - 1 + k) < |file| {
      t := Transmit(file, t, first + k);
    } else {
      ReachLocal(file, t, Head);
      t := LocalStep(t, Head);
    }
  }

  /** The client has sent its first window and listens. */
  lemma FirstWindow(file: seq<byte>) returns (t: Net)
    requires |file| > 0
    ensures Listens(file, t, 1) && t.server == Receiver.Start(|file|) && t.acks == {Ack(1)}
  {
    ReachInitial(file);
    t := Transmit(file, Initial(file), 1);
  }

  /** The server receives the packet it waits for. */
  lemma Accept(file: seq<byte>, s: Net, e: nat) returns (t: Net)
    requires Reachable(file, s) && ServerAt(s.server, file, e) && s.server.status.Running?
    requires DataPacket(file, e) in s.data
    ensures Reachable(file, t) && t == s.(server := t.server, acks := s.acks + {Ack(Wrap(e + 1))})
    ensures ServerAt(t.server, file, e + 1) && t.server.status.Running?
  {
    ReceiveDatum(file, s.server, e, e);
    ReachServerTake(file, s, DataPacket(file, e));
    t := ServerTakeStep(s, DataPacket(file, e));
  }

  // ---- the client can finish without the server ----

  /** One of the first two acknowledgements is never the one for `first`. */
  lemma StaleAck(first: nat) returns (a: u16)
    ensures (a == 1 || a == 2) && Popped(WINDOW_SIZE, Wrap(first), a) > 0
  {
    a := if Wrap(first) == 1 then 2 else 1;
    AheadIsModular(Wrap(first), a);
  }

  lemma NextAck(first: nat)
    ensures Popped(WINDOW_SIZE, Wrap(first), Wrap(first + 1)) == 1
  {
    WrapNext(first);
  }

  /** Every packet that carries bytes of the file is in the network. */
  ghost predicate AllSent(file: seq<byte>, data: set<Packet>) {
    forall i :: 1 <= i && (i - 1) * PAYLOAD_SIZE < |file| ==> DataPacket(file, i) in data
  }

  lemma LastWindowSent(file: seq<byte>, s: Net, data: set<Packet>, first: nat, k: nat)
    requires Listens(file, s, first) && s.data <= data && k <= WINDOW_SIZE
    requires Covered(|file|, first - 1 + k) == |file|
    ensures AllSent(file, data)
  {
  }

  lemma DrainOnce(file: seq<byte>, s: Net, first: nat) returns (t: Net, k: nat)
    requires Listens(file, s, first) && Ack(1) in s.acks && Ack(2) in s.acks
    ensures k > 0 && t.server == s.server && t.acks == s.acks && s.data <= t.data
    ensures Covered(|file|, first - 1 + k) < |file| ==> Listens(file, t, first + k)
    ensures Covered(|file|, first - 1 + k) == |file| ==>
              Reachable(file, t) && t.client.phase.Closing? && AllSent(file, t.data)
  {
    hide Reachable, Wrap, AllSent, Awaits;
    var a := StaleAck(first);
    t, k := TakeAndTransmit(file, s, first, a);
    if Covered(|file|, first - 1 + k) == |file| {
      LastWindowSent(file, s, t.data, first, k);
    }
  }

  /** Repeated old acknowledgements drain window after window. */
  lemma {:induction false} Drain(file: seq<byte>, s: Net, first: nat) returns (t: Net)
    requires Listens(file, s, first) && Ack(1) in s.acks && Ack(2) in s.acks
    requires Covered(|file|, first - 1) < |file|
    ensures Reachable(file, t) && t.client.phase.Closing? && t.server == s.server && s.data <= t.data
    ensures AllSent(file, t.data)
    decreases |file| + 1 - first
  {
    hide Reachable, Wrap, AllSent;
    var u, k := DrainOnce(file, s, first);
    if Covered(|file|, first - 1 + k) < |file| {
      t := Drain(file, u, first + k);
    } else {
      t := u;
    }
  }

  /** For every file of more than one chunk the client can leave its loop with only chunk 1 delivered. */
  lemma PrematureFinish(file: seq<byte>) returns (t: Net)
    requires |file| > PAYLOAD_SIZE
    ensures Reachable(file, t) && t.client.phase.Closing? && t.server.status.Running?
    ensures t.server.data == file[..PAYLOAD_SIZE] && t.server.read == PAYLOAD_SIZE && t.server.filesize == |file|
  {
    var s := FirstWindow(file);
    var u := Accept(file, s, 1);
    assert Listens(file, u, 1);
    t := Drain(file, u, 1);
  }

  lemma FinishedIsDelivered(file: seq<byte>, s: Net)
    requires Reachable(file, s) && |file| <= PAYLOAD_SIZE
    requires s.client.phase.Closing? || s.client.phase.Done?
    ensures s.server.data == file
  {
    var first, e := ReachableInv(file, s);
    assert s.created <= 65535;
  }

  /**
   When packets may be reordered, "the client has finished, so the server has everything" holds for
   exactly the files that fit into one packet.
   */
  lemma CompletionExact(file: seq<byte>)
    ensures (forall s :: Reachable(file, s) && (s.client.phase.Closing? || s.client.phase.Done?) ==>
               s.server.data == file)
            <==> |file| <= PAYLOAD_SIZE
  {
    if |file| <= PAYLOAD_SIZE {
      forall s | Reachable(file, s) && (s.client.phase.Closing? || s.client.phase.Done?)
        ensures s.server.data == file
      {
        FinishedIsDelivered(file, s);
      }
    } else {
      var s := PrematureFinish(file);
      assert |s.server.data| < |file|;
    }
  }

  /** The early FIN that follows makes the server remove the file. */
  lemma EarlyFin(file: seq<byte>) returns (t: Net)
    requires |file| > PAYLOAD_SIZE
    ensures Reachable(file, t) && t.server.status == Receiver.Removed(Receiver.Incomplete)
  {
    var s := PrematureFinish(file);
    ReachSend(file, s);
    var u := SendStep(s);
    ReachServerTake(file, u, FIN);
    t := ServerTakeStep(u, FIN);
  }

  /** A removal for an early FIN can happen for exactly the files of more than one packet. */
  lemma EarlyFinExact(file: seq<byte>)
    ensures (exists s :: Reachable(file, s) && s.server.status == Receiver.Removed(Receiver.Incomplete))
            <==> |file| > PAYLOAD_SIZE
  {
    if |file| <= PAYLOAD_SIZE {
      forall s | Reachable(file, s) ensures s.server.status != Receiver.Removed(Receiver.Incomplete) {
        CreatedBound(file, s);
        var first, e := ReachableInv(file, s);
      }
    } else {
      var s := EarlyFin(file);
    }
  }

  // ---- the server can accept an old packet again ----

  /** The server is one window ahead of the client, and everything needed is in the network. */
  ghost predicate Climbed(file: seq<byte>, s: Net, first: nat) {
    && Listens(file, s, first)
    && ServerAt(s.server, file, first + WINDOW_SIZE) && s.server.status.Running?
    && (forall i :: first < i <= first + WINDOW_SIZE ==> Ack(Wrap(i)) in s.acks)
  }

  lemma {:induction false} AcceptTo(file: seq<byte>, s: Net, e: nat, n: nat) returns (t: Net)
    requires Reachable(file, s) && ServerAt(s.server, file, e) && s.server.status.Running? && e <= n
    requires forall i :: e <= i < n ==> DataPacket(file, i) in s.data
    ensures Reachable(file, t) && t == s.(server := t.server, acks := t.acks) && s.acks <= t.acks
    ensures ServerAt(t.server, file, n) && t.server.status.Running?
    ensures forall i :: e < i <= n ==> Ack(Wrap(i)) in t.acks
    decreases n - e
  {
    if e == n {
      t := s;
    } else {
      t := Accept(file, s, e);
      t := AcceptTo(file, t, e + 1, n);
    }
  }

  lemma ClimbStep(file: seq<byte>, s: Net, first: nat) returns (t: Net)
    requires Climbed(file, s, first) && first * PAYLOAD_SIZE < |file|
    ensures Climbed(file, t, first + 1)
  {
    hide Reachable, Wrap;
    NextAck(first);
    var u, k := TakeAndTransmit(file, s, first, Wrap(first + 1));
    t := Accept(file, u, first + WINDOW_SIZE);
  }

  lemma ClimbStart(file: seq<byte>) returns (t: Net)
    requires |file| > 0
    ensures Climbed(file, t, 1)
  {
    var s := FirstWindow(file);
    t := AcceptTo(file, s, 1, WINDOW_SIZE + 1);
    assert Listens(file, t, 1);
  }

  lemma {:induction false} Climb(file: seq<byte>, target: nat) returns (t: Net)
    requires target >= 1 && (target - 1) * PAYLOAD_SIZE < |file|
    ensures Climbed(file, t, target)
  {
    hide *;
    if target == 1 {
      t := ClimbStart(file);
    } else {
      t := Climb(file, target - 1);
      t := ClimbStep(file, t, target - 1);
    }
  }

  /** The server may take more, and all 2^16 numbers are in the network. */
  ghost predicate AllNumbers(file: seq<byte>, s: Net) {
    && s.server.status.Running? && s.server.filesize == |file| && s.server.read == |s.server.data| <= |file|
    && (forall i :: 1 <= i <= 65536 ==> DataPacket(file, i) in s.data)
  }

  /** Packets until number 1 is expected. */
  function Distance(expected: u16): nat {
    if expected == 0 then 1 else if expected == 1 then 0 else 65537 - expected
  }

  /** With every number in the network, the server can be fed until it holds too much. */
  lemma {:induction false} Overrun(file: seq<byte>, s: Net) returns (t: Net)
    requires AllNumbers(file, s) && |file| >= PAYLOAD_SIZE
    ensures Leads(s, t) && t == s.(server := t.server, acks := t.acks)
    ensures t.server.status == Receiver.Removed(Receiver.Excess) && |t.server.data| > |file|
    decreases |file| - |s.server.data|, Distance(s.server.expected)
  {
    hide Leads;
    var i := if s.server.expected == 0 then 65536 else s.server.expected;
    var p := DataPacket(file, i);
    assert p.number == s.server.expected;
    var u := ServerTakeStep(s, p);
    LeadsBy(s, ServerTake(p), u);
    assert u.server.data == s.server.data + Chunk(file, i);
    if u.server.read > |file| {
      t := u;
    } else {
      t := Overrun(file, u);
      LeadsThrough(s, u, t);
    }
  }

  /** For every larger file a run in which the server writes too much and removes the file. */
  lemma BeyondSafeSize(file: seq<byte>) returns (t: Net)
    requires |file| > SAFE_SIZE
    ensures Reachable(file, t)
    ensures t.server.status == Receiver.Removed(Receiver.Excess) && |t.server.data| > |file|
  {
    var s := Climb(file, 65487);
    assert forall i :: 1 <= i < 65487 + WINDOW_SIZE ==> DataPacket(file, i) in s.data;
    t := Overrun(file, s);
    ReachLeads(file, s, t);
  }

  /**
   When packets may be repeated and reordered, "what the server has written is a prefix of the
   source" holds in all runs for exactly the files of at most 65486 * 2043 bytes. The write that
   breaks it may be the one that makes the server remove the file.
   */
  lemma PrefixExact(file: seq<byte>)
    ensures (forall s :: Reachable(file, s) ==> s.server.data <= file) <==> |file| <= SAFE_SIZE
  {
    if |file| <= SAFE_SIZE {
      forall s | Reachable(file, s) ensures s.server.data <= file {
        CreatedBound(file, s);
        PrefixSafety(file, s);
      }
    } else {
      var s := BeyondSafeSize(file);
    }
  }

  /** A removal for excess data can happen for exactly the files beyond that size. */
  lemma ExcessExact(file: seq<byte>)
    ensures (exists s :: Reachable(file, s) && s.server.status == Receiver.Removed(Receiver.Excess))
            <==> |file| > SAFE_SIZE
  {
    if |file| <= SAFE_SIZE {
      forall s | Reachable(file, s) ensures s.server.status != Receiver.Removed(Receiver.Excess) {
        CreatedBound(file, s);
        PrefixSafety(file, s);
      }
    } else {
      var s := BeyondSafeSize(file);
    }
  }
}
