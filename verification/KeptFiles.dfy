/**
 Files that the server keeps, over a network that loses, repeats and reorders. Up to 65500 * 2043
 bytes a kept file is the source, although the prefix property ends earlier; for every larger file
 there is a run in which the server keeps two chunks in each other's place.
 */
module KeptFiles {
  import opened Packets
  import opened Chunks
  import opened Sender
  import opened AnyNetwork
  import Receiver

  const KEPT_SIZE: nat := 65500 * PAYLOAD_SIZE

  // ---- up to the limit ----

  /**
   A client that only gets the first e acknowledgements moves in whole windows: its indices keep the
   remainders 1, ..., e modulo the window size.
   */
  ghost predicate OnGrid(x: int, e: nat) { 1 <= x % WINDOW_SIZE <= e }

  /** While the server waits for one of the first 13 packets, none of them has a namesake yet. */
  ghost predicate Behind(s: Net, first: nat, e: nat) {
    && OnGrid(first, e) && OnGrid(s.created + 1, e)
    && (forall p :: p in s.acks ==> IsReply(p, e))
  }

  ghost predicate KeptInv(file: seq<byte>, s: Net, first: nat, e: nat) {
    && ClientInv(file, s.client, s.created, first)
    && (forall p :: p in s.data ==> IsDatum(file, p, s.created))
    && (forall p :: p in s.acks ==> p == FINACK || p == Ack(p.number))
    && (s.server.status == Receiver.Removed(Receiver.Excess) || ServerAt(s.server, file, e))
    && (e <= 13 ==> Behind(s, first, e))
  }

  lemma KeptInitial(file: seq<byte>)
    ensures KeptInv(file, Initial(file), 1, 1)
  {
    assert IsReply(Ack(Wrap(1)), 1);
  }

  /** On the grid the last window that starts within 65500 chunks ends before packet 65537. */
  lemma NoNamesake(file: seq<byte>, s: Net, first: nat, e: nat)
    requires |file| <= KEPT_SIZE && ClientInv(file, s.client, s.created, first)
    ensures s.created <= 65549
    ensures e <= 13 && OnGrid(s.created + 1, e) ==> s.created <= 65512
  {
  }

  lemma NextWindowOnGrid(first: nat, e: nat)
    requires first >= 1
    ensures OnGrid(first, e) ==> OnGrid(first + WINDOW_SIZE, e)
  {
  }

  lemma KeptLocal(file: seq<byte>, s: Net, first: nat, e: nat, l: Local)
    requires KeptInv(file, s, first, e) && CanLocal(s.client, l)
    ensures KeptInv(file, LocalStep(s, l), first, e)
  {
    var t := LocalClient(file, s, first, l);
    DatumsGrow(file, s.data, s.created, t.created);
    NextWindowOnGrid(first, e);
  }

  lemma KeptSend(file: seq<byte>, s: Net, first: nat, e: nat)
    requires KeptInv(file, s, first, e) && CanSend(s.client)
    ensures KeptInv(file, SendStep(s), first, e)
  {
    OutgoingIsDatum(file, s, first);
  }

  /** An early acknowledgement moves a window on the grid to its end or to one of the first packets. */
  lemma GridAck(first: nat, n: nat, e: nat, j: nat)
    requires first >= 1 && n <= WINDOW_SIZE && first + n <= 65513 && 1 <= j <= e <= 13
    requires OnGrid(first, e) && OnGrid(first + n, e)
    ensures OnGrid(first + Popped(n, Wrap(first), Wrap(j)), e)
  {
  }

  lemma AckedOnGrid(file: seq<byte>, s: Net, first: nat, e: nat, p: Packet)
    requires |file| <= KEPT_SIZE && ClientInv(file, s.client, s.created, first) && Behind(s, first, e) && e <= 13
    requires p in s.acks && p != FINACK
    ensures OnGrid(first + Popped(|s.client.vars.window|, Wrap(first), p.number), e)
  {
    NoNamesake(file, s, first, e);
    assert IsReply(p, e);
    var j :| 1 <= j <= e && p == Ack(Wrap(j));
    GridAck(first, |s.client.vars.window|, e, j);
  }

  lemma KeptMoves(file: seq<byte>, s: Net, t: Net, first: nat, first': nat, e: nat)
    requires KeptInv(file, s, first, e) && t == s.(client := t.client) && ClientInv(file, t.client, t.created, first')
    requires e <= 13 ==> OnGrid(first', e)
    ensures KeptInv(file, t, first', e)
  {
  }

  lemma KeptClientTake(file: seq<byte>, s: Net, first: nat, e: nat, p: Packet) returns (first': nat)
    requires |file| <= KEPT_SIZE && KeptInv(file, s, first, e) && CanTake(s.client) && p in s.acks
    ensures KeptInv(file, ClientTakeStep(s, p), first', e)
  {
    hide Wrap, Covered, ServerAt, Popped, ClientInv, OnGrid;
    first' := first;
    if p == FINACK || s.client.phase.Closing? {
      OtherReply(file, s, first, p);
    } else {
      var k, _ := AckAdvances(file, s, first, p.number);
      first' := first + k;
      if e <= 13 {
        AckedOnGrid(file, s, first, e, p);
      }
    }
    KeptMoves(file, s, ClientTakeStep(s, p), first, first', e);
  }

  /** What a datum does to a server that has accepted 1, ..., e - 1. */
  lemma KeptReceive(file: seq<byte>, server: Receiver.State, e: nat, i: nat) returns (e': nat)
    requires |file| <= KEPT_SIZE && ServerAt(server, file, e) && server.status.Running?
    requires 1 <= i <= 65549 && (e <= 13 ==> i <= 65512)
    ensures e <= e' <= e + 1
    ensures var (t, replies) := Receiver.Receive(server, DataPacket(file, i));
            && (t.status == Receiver.Removed(Receiver.Excess) || ServerAt(t, file, e'))
            && replies == [Ack(Wrap(e'))]
  {
    if e <= 65536 {
      WrapInjective(i, e);
      ReceiveDatum(file, server, e, i);
      e' := if i == e then e + 1 else e;
    } else if Wrap(i) != Wrap(e) {
      ReceiveDatum(file, server, e, i);
      e' := e;
    } else {
      e' := e + 1;
      WrapNext(e);
      assert server.data == file;
    }
  }

  lemma KeptServerTake(file: seq<byte>, s: Net, first: nat, e: nat, p: Packet) returns (e': nat)
    requires |file| <= KEPT_SIZE && KeptInv(file, s, first, e) && s.server.status.Running? && p in s.data
    ensures KeptInv(file, ServerTakeStep(s, p), first, e')
  {
    hide Wrap, Covered, ClientInv;
    e' := e;
    ReplyShape(s.server, p);
    if p != FIN {
      var i :| 1 <= i <= s.created && p == DataPacket(file, i);
      NoNamesake(file, s, first, e);
      e' := KeptReceive(file, s.server, e, i);
      if e' <= 13 {
        RepliesGrow(s.acks, e, e');
        assert IsReply(Ack(Wrap(e')), e');
      }
    }
  }

  lemma KeptNext(file: seq<byte>, s: Net, t: Net, first: nat, e: nat) returns (first': nat, e': nat)
    requires |file| <= KEPT_SIZE && KeptInv(file, s, first, e) && Next(s, t)
    ensures KeptInv(file, t, first', e')
  {
    hide Wrap, Covered, ClientInv;
    var step :| Enabled(s, step) && t == Apply(s, step);
    first', e' := first, e;
    match step
    case ClientLocal(l) => KeptLocal(file, s, first, e, l);
    case ClientSend => KeptSend(file, s, first, e);
    case ClientTake(p) => first' := KeptClientTake(file, s, first, e, p);
    case ServerTake(p) => e' := KeptServerTake(file, s, first, e, p);
    case ServerGiveUp =>
  }

  lemma {:induction false} KeptRun(file: seq<byte>, run: seq<Net>, m: nat) returns (first: nat, e: nat)
    requires |file| <= KEPT_SIZE && IsRun(file, run) && m < |run|
    ensures KeptInv(file, run[m], first, e)
  {
    if m == 0 {
      KeptInitial(file);
      first, e := 1, 1;
    } else {
      first, e := KeptRun(file, run, m - 1);
      assert StepAt(run, m - 1);
      first, e := KeptNext(file, run[m - 1], run[m], first, e);
    }
  }

  /** Up to the limit a kept file is the source. */
  lemma KeptIsSource(file: seq<byte>, s: Net)
    requires |file| <= KEPT_SIZE && Reachable(file, s) && s.server.status.Kept?
    ensures s.server.data == file
  {
    var run :| IsRun(file, run) && run[|run| - 1] == s;
    var first, e := KeptRun(file, run, |run| - 1);
  }

  // ---- beyond the limit ----

  /** The file with chunk 2 and chunk 65538 in each other's place. */
  function Swapped(file: seq<byte>): seq<byte>
    requires |file| > KEPT_SIZE
  {
    FirstLap(file) + Chunk(file, 2) + file[Covered(|file|, 65538)..]
  }

  /** Two acknowledgements in one listening phase end the first window: the client is on the grid of 1. */
  lemma OntoGrid(file: seq<byte>, s: Net) returns (t: Net)
    requires Listens(file, s, 1) && Ack(1) in s.acks && Ack(2) in s.acks && |file| > KEPT_SIZE
    ensures Listens(file, t, 51) && t.server == s.server && t.acks == s.acks
  {
    var k, u := TakeAck(file, s, 1, 2);
    var n, v := TakeAck(file, u, 2, 1);
    ReachLocal(file, v, Quiet);
    QuietMoves(file, v, 51);
    t := Transmit(file, LocalStep(v, Quiet), 51);
  }

  /** The acknowledgement for packet 1 drains every window that does not reach packet 65537. */
  lemma WholeWindow(first: nat)
    requires 2 <= first <= 65451
    ensures Popped(WINDOW_SIZE, Wrap(first), 1) == WINDOW_SIZE
  {
  }

  lemma {:induction false} AlongGrid(file: seq<byte>, s: Net, first: nat, windows: nat, target: nat) returns (t: Net)
    requires Listens(file, s, first) && Ack(1) in s.acks && |file| > KEPT_SIZE
    requires first >= 2 && target == first + WINDOW_SIZE * windows <= 65501
    ensures Listens(file, t, target) && t.server == s.server && t.acks == s.acks
    decreases windows
  {
    hide Listens;
    if windows == 0 {
      t := s;
    } else {
      var u := NextOnGrid(file, s, first);
      t := AlongGrid(file, u, first + WINDOW_SIZE, windows - 1, target);
    }
  }

  lemma NextOnGrid(file: seq<byte>, s: Net, first: nat) returns (t: Net)
    requires Listens(file, s, first) && Ack(1) in s.acks && 2 <= first <= 65451 && |file| > KEPT_SIZE
    ensures Listens(file, t, first + WINDOW_SIZE) && t.server == s.server && t.acks == s.acks
  {
    hide Reachable, Wrap;
    WholeWindow(first);
    var u, k := TakeAndTransmit(file, s, first, 1);
    t := u;
  }

  /** The client has finished; the server waits for packet 2, and packet 65538 exists. */
  lemma FinishedOnGrid(file: seq<byte>) returns (t: Net)
    requires |file| > KEPT_SIZE
    ensures Reachable(file, t) && ServerAt(t.server, file, 2) && t.server.status.Running?
    ensures AllSent(file, t.data) && FIN in t.data && t.client.phase.Closing?
    ensures forall i :: 1 <= i <= 65550 ==> DataPacket(file, i) in t.data
  {
    hide Reachable;
    var s := FirstWindow(file);
    s := Accept(file, s, 1);
    assert Listens(file, s, 1);
    s := OntoGrid(file, s);
    s := AlongGrid(file, s, 51, 1309, 65501);
    assert forall i :: 1 <= i < 65501 + WINDOW_SIZE ==> DataPacket(file, i) in s.data;
    s := Drain(file, s, 65501);
    ReachSend(file, s);
    t := SendStep(s);
  }

  lemma Feed(file: seq<byte>, s: Net, e: nat, p: Packet, data: seq<byte>) returns (t: Net)
    requires Reachable(file, s) && s.server == Waiting(file, e, data)
    requires p in s.data && p.cmd == CMD_DATA && p.number == Wrap(e)
    requires |data| + |p.payload| <= |file|
    ensures Reachable(file, t) && t.data == s.data && t.client == s.client
    ensures t.server == Waiting(file, e + 1, data + p.payload)
  {
    WrapNext(e);
    ReachServerTake(file, s, p);
    t := ServerTakeStep(s, p);
  }

  /** The packets of `ps` may be taken one after the other by a server that waits for packet e. */
  ghost predicate InTurn(s: Net, e: nat, ps: seq<Packet>) {
    forall i :: 0 <= i < |ps| ==> ps[i] in s.data && ps[i].cmd == CMD_DATA && ps[i].number == Wrap(e + i)
  }

  lemma InTurnLast(s: Net, e: nat, ps: seq<Packet>, k: nat)
    requires InTurn(s, e, ps) && |ps| == k + 1
    ensures ps[k] in s.data && ps[k].cmd == CMD_DATA && ps[k].number == Wrap(e + k) && InTurn(s, e, ps[..k])
  {
  }

  lemma {:induction false} FeedAll(
    file: seq<byte>, s: Net, e: nat, ps: seq<Packet>, n: nat, data: seq<byte>, more: seq<byte>)
    returns (t: Net)
    requires Reachable(file, s) && s.server == Waiting(file, e, data) && InTurn(s, e, ps)
    requires n == e + |ps| && more == Bytes(ps) && |data + more| <= |file|
    ensures Reachable(file, t) && t.data == s.data && t.client == s.client
    ensures t.server == Waiting(file, n, data + more)
    decreases |ps|
  {
    hide Reachable, Wrap;
    if ps == [] {
      t := s;
      assert data + more == data;
    } else {
      var k := |ps| - 1;
      var p := ps[k];
      var before := Bytes(ps[..k]);
      InTurnLast(s, e, ps, k);
      t := FeedAll(file, s, e, ps[..k], n - 1, data, before);
      t := Feed(file, t, n - 1, p, data + before);
      assert data + before + p.payload == data + more;
    }
  }

  lemma ChunksInTurn(file: seq<byte>, s: Net, e: nat, count: nat)
    requires e >= 1 && forall i :: e <= i < e + count ==> DataPacket(file, i) in s.data
    ensures InTurn(s, e, DataPackets(file, e, count))
  {
  }

  lemma FeedTo(file: seq<byte>, s: Net, e: nat, n: nat, data: seq<byte>, more: seq<byte>) returns (t: Net)
    requires 1 <= e <= n && Reachable(file, s) && s.server == Waiting(file, e, data)
    requires forall i :: e <= i < n ==> DataPacket(file, i) in s.data
    requires more == file[Covered(|file|, e - 1)..Covered(|file|, n - 1)] && |data + more| <= |file|
    ensures Reachable(file, t) && t.data == s.data && t.client == s.client
    ensures t.server == Waiting(file, n, data + more)
  {
    hide Reachable, Wrap;
    var ps := DataPackets(file, e, n - e);
    ChunksInTurn(file, s, e, n - e);
    ConsecutiveBytes(file, e, n - e);
    t := FeedAll(file, s, e, ps, n, data, more);
  }

  /** Everything up to packet 65537, with packet 65538 taken for packet 2. */
  function FirstLap(file: seq<byte>): seq<byte> {
    Chunk(file, 1) + Chunk(file, 65538) + file[Covered(|file|, 2)..Covered(|file|, 65537)]
  }

  lemma FeedFirstLap(file: seq<byte>, s: Net) returns (t: Net)
    requires |file| > KEPT_SIZE && Reachable(file, s) && s.server == Waiting(file, 2, Chunk(file, 1))
    requires forall i :: 1 <= i <= 65550 ==> DataPacket(file, i) in s.data
    ensures Reachable(file, t) && t.data == s.data && t.client == s.client
    ensures t.server == Waiting(file, 65538, FirstLap(file))
  {
    var u := Feed(file, s, 2, DataPacket(file, 65538), Chunk(file, 1));
    var more := file[Covered(|file|, 2)..Covered(|file|, 65537)];
    t := FeedTo(file, u, 3, 65538, Chunk(file, 1) + Chunk(file, 65538), more);
  }

  /** Then packet 2 is taken for packet 65538, and the rest of the file follows. */
  lemma FeedSecondLap(file: seq<byte>, s: Net) returns (t: Net)
    requires |file| > KEPT_SIZE && Reachable(file, s) && s.server == Waiting(file, 65538, FirstLap(file))
    requires AllSent(file, s.data) && DataPacket(file, 2) in s.data
    ensures Reachable(file, t) && t.data == s.data && t.client == s.client
    ensures t.server == Waiting(file, PastLast(file), Swapped(file))
  {
    hide Reachable;
    var n := PastLast(file);
    var u := Feed(file, s, 65538, DataPacket(file, 2), FirstLap(file));
    TailSent(file, s.data);
    t := FeedTo(file, u, 65539, n, FirstLap(file) + Chunk(file, 2), file[Covered(|file|, 65538)..]);
  }

  /** The index after the last packet that carries bytes, but at least 65539. */
  function PastLast(file: seq<byte>): (n: nat)
    ensures n >= 65539 && Covered(|file|, n - 1) == |file|
    ensures n == 65539 || (n - 2) * PAYLOAD_SIZE < |file|
  {
    var n := (|file| + PAYLOAD_SIZE - 1) / PAYLOAD_SIZE + 1;
    if n < 65539 then 65539 else n
  }

  lemma TailSent(file: seq<byte>, data: set<Packet>)
    requires AllSent(file, data)
    ensures forall i :: 65539 <= i < PastLast(file) ==> DataPacket(file, i) in data
  {
    var n := PastLast(file);
    forall i | 65539 <= i < n ensures DataPacket(file, i) in data {
      assert (i - 1) * PAYLOAD_SIZE <= (n - 2) * PAYLOAD_SIZE;
    }
  }

  /**
   For every file beyond the limit: the client finishes, and the server keeps a file of the right
   length with chunk 2 and chunk 65538 swapped.
   */
  lemma KeptSwapped(file: seq<byte>) returns (t: Net)
    requires |file| > KEPT_SIZE
    ensures Reachable(file, t) && t.server.status.Kept? && t.client.phase.Closing? && FINACK in t.acks
    ensures t.server.data == Swapped(file) && |t.server.data| == |file|
  {
    hide Reachable, Wrap;
    var s := FinishedOnGrid(file);
    assert s.server == Waiting(file, 2, Chunk(file, 1));
    s := FeedFirstLap(file, s);
    s := FeedSecondLap(file, s);
    ReachServerTake(file, s, FIN);
    t := ServerTakeStep(s, FIN);
  }

  /** Zeros, except for the first byte of chunk 2. */
  function MarkedFile(size: nat): (file: seq<byte>)
    ensures |file| == size && forall i :: 0 <= i < size ==> file[i] == if i == PAYLOAD_SIZE then 1 else 0
  {
    seq(size, i => if i == PAYLOAD_SIZE then 1 else 0)
  }

  lemma MarkedIsNotSwapped(size: nat)
    requires size > KEPT_SIZE
    ensures Swapped(MarkedFile(size)) != MarkedFile(size)
  {
    var file := MarkedFile(size);
    assert Swapped(file)[PAYLOAD_SIZE] == 0;
  }

  /**
   When packets may be repeated and reordered, "a kept file is the source" holds for all files of a
   size and all runs exactly up to 65500 * 2043 bytes.
   */
  lemma KeptExact(size: nat)
    ensures (forall file: seq<byte>, s :: |file| == size && Reachable(file, s) && s.server.status.Kept? ==>
               s.server.data == file)
            <==> size <= KEPT_SIZE
  {
    if size <= KEPT_SIZE {
      forall file: seq<byte>, s | |file| == size && Reachable(file, s) && s.server.status.Kept?
        ensures s.server.data == file
      {
        KeptIsSource(file, s);
      }
    } else {
      var file := MarkedFile(size);
      var s := KeptSwapped(file);
      MarkedIsNotSwapped(size);
    }
  }
}
