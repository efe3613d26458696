/**
 Client and server joined by channels that may lose packets and may repeat a packet in place, but
 keep the order. The system with 16-bit numbers is proved to be the image of a system that works
 with unbounded packet indices, step by step, over runs of any length.
 */
module FifoNetwork {
  import opened Packets
  import opened Chunks
  import opened Sender
  import Receiver

  // ---- the system as programmed ----

  datatype Net = Net(client: Process, server: Receiver.State, data: seq<Packet>, acks: seq<Packet>)

  datatype Step =
    | ClientLocal(l: Local)
    | ClientSend
    | ClientTake
    | ServerTake
    | ServerGiveUp
    | LoseData(at: nat)
    | RepeatData(at: nat)
    | LoseAck(at: nat)
    | RepeatAck(at: nat)

  /** The server confirms the request with one or more ACKs for packet 1; `copies` are still queued. */
  function Initial(file: seq<byte>, copies: nat): Net {
    Net(Process(Start(file), LoopHead), Receiver.Start(|file|), [], seq(copies, _ => Ack(1)))
  }

  function Without<T>(s: seq<T>, at: nat): seq<T>
    requires at < |s|
  {
    s[..at] + s[at + 1..]
  }

  function Repeated<T>(s: seq<T>, at: nat): seq<T>
    requires at < |s|
  {
    s[..at + 1] + s[at..]
  }

  predicate Enabled(s: Net, step: Step) {
    match step
    case ClientLocal(l) => CanLocal(s.client, l)
    case ClientSend => CanSend(s.client)
    case ClientTake => CanTake(s.client) && s.acks != []
    case ServerTake => s.server.status.Running? && s.data != []
    case ServerGiveUp => s.server.status.Running?
    case LoseData(at) => at < |s.data|
    case RepeatData(at) => at < |s.data|
    case LoseAck(at) => at < |s.acks|
    case RepeatAck(at) => at < |s.acks|
  }

  function SendStep(s: Net): Net
    requires CanSend(s.client)
  {
    s.(client := AfterSend(s.client), data := s.data + [Outgoing(s.client)])
  }

  function ClientTakeStep(s: Net): Net
    requires CanTake(s.client) && s.acks != []
  {
    s.(client := AfterTake(s.client, s.acks[0]), acks := s.acks[1..])
  }

  function ServerTakeStep(s: Net): Net
    requires s.data != []
  {
    var (server, replies) := Receiver.Receive(s.server, s.data[0]);
    s.(server := server, data := s.data[1..], acks := s.acks + replies)
  }

  function Apply(s: Net, step: Step): Net
    requires Enabled(s, step)
  {
    match step
    case ClientLocal(l) => s.(client := DoLocal(s.client, l))
    case ClientSend => SendStep(s)
    case ClientTake => ClientTakeStep(s)
    case ServerTake => ServerTakeStep(s)
    case ServerGiveUp => s.(server := Receiver.GiveUp(s.server))
    case LoseData(at) => s.(data := Without(s.data, at))
    case RepeatData(at) => s.(data := Repeated(s.data, at))
    case LoseAck(at) => s.(acks := Without(s.acks, at))
    case RepeatAck(at) => s.(acks := Repeated(s.acks, at))
  }

  predicate CanRun(s: Net, steps: seq<Step>)
    decreases |steps|
  {
    steps == [] || (Enabled(s, steps[0]) && CanRun(Apply(s, steps[0]), steps[1..]))
  }

  function Run(s: Net, steps: seq<Step>): Net
    requires CanRun(s, steps)
    decreases |steps|
  {
    if steps == [] then s else Run(Apply(s, steps[0]), steps[1..])
  }

  ghost predicate Reachable(file: seq<byte>, s: Net) {
    exists copies: nat, steps: seq<Step> ::
      CanRun(Initial(file, copies), steps) && s == Run(Initial(file, copies), steps)
  }

  // ---- the same system on unbounded indices ----

  datatype Datum = Data(index: nat) | Fin
  datatype Reply = AckUpTo(index: nat) | FinAck

  /** The window is first, ..., first + count - 1; the server waits for `expected`. */
  datatype Indexed = Indexed(
    file: seq<byte>, phase: Phase, read: int, first: nat, count: nat,
    expected: nat, status: Receiver.Status, data: seq<Datum>, acks: seq<Reply>)

  function InitialIndexed(file: seq<byte>, copies: nat): Indexed {
    Indexed(file, LoopHead, 0, 1, 0, 1, Receiver.Running, [], seq(copies, _ => AckUpTo(1)))
  }

  /** How many window packets precede index a; all of them when a is not in the window. */
  function PoppedIndices(first: nat, count: nat, a: nat): nat {
    if first <= a <= first + count then a - first else count
  }

  predicate IndexedCanLocal(s: Indexed, l: Local) {
    match l
    case Head => s.phase.LoopHead?
    case SentAll => s.phase == Sending(s.count)
    case AckTimeout => s.phase == Sending(s.count)
    case Quiet => s.phase.Listening?
    case CloseTimeout => s.phase.Closing?
  }

  predicate IndexedEnabled(s: Indexed, step: Step) {
    match step
    case ClientLocal(l) => IndexedCanLocal(s, l)
    case ClientSend => s.phase.Closing? || (s.phase.Sending? && s.phase.next < s.count)
    case ClientTake => (s.phase.Listening? || s.phase.Closing?) && s.acks != []
    case ServerTake => s.status.Running? && s.data != []
    case ServerGiveUp => s.status.Running?
    case LoseData(at) => at < |s.data|
    case RepeatData(at) => at < |s.data|
    case LoseAck(at) => at < |s.acks|
    case RepeatAck(at) => at < |s.acks|
  }

  function IndexedHead(s: Indexed): Indexed {
    var size := |s.file|;
    if s.first >= 1 && Covered(size, s.first - 1) < size then
      s.(count := WINDOW_SIZE, phase := Sending(0),
         read := s.read + Covered(size, s.first - 1 + WINDOW_SIZE) - Covered(size, s.first - 1 + s.count))
    else s.(phase := Closing)
  }

  function IndexedLocal(s: Indexed, l: Local): Indexed {
    match l
    case Head => IndexedHead(s)
    case SentAll => s.(phase := Listening)
    case AckTimeout => s.(phase := Failed(AckTimedOut))
    case Quiet => s.(phase := LoopHead, read := -1)
    case CloseTimeout => s.(phase := Done)
  }

  function IndexedSend(s: Indexed): Indexed
    requires s.phase.Closing? || s.phase.Sending?
  {
    if s.phase.Closing? then s.(data := s.data + [Fin])
    else s.(data := s.data + [Data(s.first + s.phase.next)], phase := Sending(s.phase.next + 1))
  }

  function IndexedClientTake(s: Indexed): Indexed
    requires s.acks != []
  {
    var t := s.(acks := s.acks[1..]);
    if s.phase.Closing? then
      if s.acks[0].FinAck? then t.(phase := Done) else t
    else match s.acks[0]
      case AckUpTo(a) =>
        var k := PoppedIndices(s.first, s.count, a);
        t.(first := s.first + k, count := s.count - k, read := HEADER_SIZE)
      case FinAck => t.(read := HEADER_SIZE)
  }

  function IndexedServerTake(s: Indexed): Indexed
    requires s.data != []
  {
    var t := s.(data := s.data[1..]);
    match s.data[0]
    case Data(i) =>
      var next := if i == s.expected then s.expected + 1 else s.expected;
      t.(expected := next, acks := s.acks + [AckUpTo(next)])
    case Fin =>
      if s.expected >= 1 && Covered(|s.file|, s.expected - 1) == |s.file|
      then t.(status := Receiver.Kept, acks := s.acks + [FinAck])
      else t.(status := Receiver.Removed(Receiver.Incomplete))
  }

  function IndexedApply(s: Indexed, step: Step): Indexed
    requires IndexedEnabled(s, step)
  {
    match step
    case ClientLocal(l) => IndexedLocal(s, l)
    case ClientSend => IndexedSend(s)
    case ClientTake => IndexedClientTake(s)
    case ServerTake => IndexedServerTake(s)
    case ServerGiveUp => s.(status := Receiver.Removed(Receiver.TimedOut))
    case LoseData(at) => s.(data := Without(s.data, at))
    case RepeatData(at) => s.(data := Repeated(s.data, at))
    case LoseAck(at) => s.(acks := Without(s.acks, at))
    case RepeatAck(at) => s.(acks := Repeated(s.acks, at))
  }

  predicate IndexedCanRun(s: Indexed, steps: seq<Step>)
    decreases |steps|
  {
    steps == [] || (IndexedEnabled(s, steps[0]) && IndexedCanRun(IndexedApply(s, steps[0]), steps[1..]))
  }

  function IndexedRun(s: Indexed, steps: seq<Step>): Indexed
    requires IndexedCanRun(s, steps)
    decreases |steps|
  {
    if steps == [] then s else IndexedRun(IndexedApply(s, steps[0]), steps[1..])
  }

  // ---- the invariant ----

  /** Data in flight lies in [expected - 50, next), and falls back by at most 49 from one to a later one. */
  ghost predicate DataInv(data: seq<Datum>, expected: nat, next: nat) {
    && (forall i :: 0 <= i < |data| && data[i].Data? ==>
          data[i].index >= 1 && expected - WINDOW_SIZE <= data[i].index < next)
    && (forall i, j :: 0 <= i < j < |data| && data[i].Data? && data[j].Data? ==>
          data[i].index - WINDOW_SIZE + 1 <= data[j].index)
  }

  /** Acknowledgements in flight never decrease and lie in [first, expected]. */
  ghost predicate AcksInv(acks: seq<Reply>, first: nat, expected: nat) {
    && (forall i :: 0 <= i < |acks| && acks[i].AckUpTo? ==> first <= acks[i].index <= expected)
    && (forall i, j :: 0 <= i < j < |acks| && acks[i].AckUpTo? && acks[j].AckUpTo? ==>
          acks[i].index <= acks[j].index)
  }

  /** Everything in the file has been acknowledged. */
  predicate Finished(s: Indexed) { s.first >= 1 && Covered(|s.file|, s.first - 1) == |s.file| }

  ghost predicate Inv(s: Indexed) {
    && 1 <= s.first <= s.expected <= s.first + s.count
    && s.count <= WINDOW_SIZE
    && (s.phase.LoopHead? ==> s.read <= 0)
    && (s.phase.Sending? ==> s.phase.next <= s.count)
    && (s.status.Kept? || Fin in s.data ==> s.phase.Closing? || s.phase.Done?)
    && (s.phase.Closing? || s.phase.Done? ==> Finished(s))
    && (s.phase.Sending? || s.phase.Listening? || s.phase.Failed? ==> s.file != [])
    && (s.phase.Failed? ==> s.phase.why.AckTimedOut?)
    && (FinAck in s.acks ==> s.status.Kept?)
    && (s.status.Removed? ==> s.status.reason.TimedOut?)
    && DataInv(s.data, s.expected, s.first + s.count)
    && AcksInv(s.acks, s.first, s.expected)
  }

  lemma InitialInv(file: seq<byte>, copies: nat)
    ensures Inv(InitialIndexed(file, copies))
  {
  }

  /** A fault moves elements by at most one place and keeps their order. */
  lemma FaultMoves<T>(s: seq<T>, at: nat)
    requires at < |s|
    ensures forall i :: 0 <= i < |s| - 1 ==> Without(s, at)[i] == s[if i < at then i else i + 1]
    ensures forall i :: 0 <= i < |s| + 1 ==> Repeated(s, at)[i] == s[if i <= at then i else i - 1]
    ensures |Without(s, at)| == |s| - 1 && |Repeated(s, at)| == |s| + 1
  {
  }

  lemma DataFaultInv(data: seq<Datum>, at: nat, expected: nat, next: nat)
    requires at < |data| && DataInv(data, expected, next)
    ensures DataInv(Without(data, at), expected, next)
    ensures DataInv(Repeated(data, at), expected, next)
    ensures Fin in Without(data, at) || Fin in Repeated(data, at) ==> Fin in data
  {
    hide Without, Repeated;
    FaultMoves(data, at);
  }

  lemma AckFaultInv(acks: seq<Reply>, at: nat, first: nat, expected: nat)
    requires at < |acks| && AcksInv(acks, first, expected)
    ensures AcksInv(Without(acks, at), first, expected)
    ensures AcksInv(Repeated(acks, at), first, expected)
    ensures FinAck in Without(acks, at) || FinAck in Repeated(acks, at) ==> FinAck in acks
  {
    hide Without, Repeated;
    FaultMoves(acks, at);
  }

  lemma LocalInv(s: Indexed, l: Local)
    requires Inv(s) && IndexedCanLocal(s, l)
    ensures Inv(IndexedLocal(s, l))
  {
  }

  lemma SendInv(s: Indexed)
    requires Inv(s) && (s.phase.Closing? || (s.phase.Sending? && s.phase.next < s.count))
    ensures Inv(IndexedSend(s))
  {
  }

  lemma ClientTakeInv(s: Indexed)
    requires Inv(s) && (s.phase.Listening? || s.phase.Closing?) && s.acks != []
    ensures Inv(IndexedClientTake(s))
  {
    var t := IndexedClientTake(s);
    assert forall i :: 0 <= i < |t.acks| ==> t.acks[i] == s.acks[i + 1];
  }

  lemma ServerTakeInv(s: Indexed)
    requires Inv(s) && s.status.Running? && s.data != []
    ensures Inv(IndexedServerTake(s))
  {
    var t := IndexedServerTake(s);
    assert forall i :: 0 <= i < |t.data| ==> t.data[i] == s.data[i + 1];
    if s.data[0].Fin? {
      assert Fin in s.data;
    }
  }

  /** Every step keeps the invariant. */
  lemma StepInv(s: Indexed, step: Step)
    requires Inv(s) && IndexedEnabled(s, step)
    ensures Inv(IndexedApply(s, step))
  {
    hide Covered, DataInv, AcksInv;
    match step
    case ClientLocal(l) => LocalInv(s, l);
    case ClientSend => SendInv(s);
    case ClientTake => ClientTakeInv(s);
    case ServerTake => ServerTakeInv(s);
    case ServerGiveUp =>
    case LoseData(at) => DataFaultInv(s.data, at, s.expected, s.first + s.count);
    case RepeatData(at) => DataFaultInv(s.data, at, s.expected, s.first + s.count);
    case LoseAck(at) => AckFaultInv(s.acks, at, s.first, s.expected);
    case RepeatAck(at) => AckFaultInv(s.acks, at, s.first, s.expected);
  }

  // ---- from indices to 16-bit numbers ----

  function PacketOf(file: seq<byte>, d: Datum): Packet {
    match d
    case Data(i) => if i >= 1 then DataPacket(file, i) else FIN
    case Fin => FIN
  }

  function ReplyOf(r: Reply): Packet {
    match r
    case AckUpTo(i) => Ack(Wrap(i))
    case FinAck => FINACK
  }

  function VarsOf(s: Indexed): State
    requires s.first >= 1
  {
    State(s.file, Covered(|s.file|, s.first - 1), s.read, Covered(|s.file|, s.first - 1 + s.count),
          Wrap(s.first + s.count), DataPackets(s.file, s.first, s.count))
  }

  function ServerOf(s: Indexed): Receiver.State
    requires s.expected >= 1
  {
    var got := Covered(|s.file|, s.expected - 1);
    Receiver.State(|s.file|, Wrap(s.expected), got, s.file[..got], s.status)
  }

  function PacketsOf(file: seq<byte>, ds: seq<Datum>): (ps: seq<Packet>)
    ensures |ps| == |ds| && forall i :: 0 <= i < |ds| ==> ps[i] == PacketOf(file, ds[i])
  {
    seq(|ds|, i requires 0 <= i < |ds| => PacketOf(file, ds[i]))
  }

  function RepliesOf(rs: seq<Reply>): (ps: seq<Packet>)
    ensures |ps| == |rs| && forall i :: 0 <= i < |rs| ==> ps[i] == ReplyOf(rs[i])
  {
    seq(|rs|, i requires 0 <= i < |rs| => ReplyOf(rs[i]))
  }

  /** The 16-bit system state that an indexed state stands for. */
  function Image(s: Indexed): Net
    requires s.first >= 1 && s.expected >= 1
  {
    Net(Process(VarsOf(s), s.phase), ServerOf(s), PacketsOf(s.file, s.data), RepliesOf(s.acks))
  }

  // ---- every step of one system is the same step of the other ----

  lemma ImageTracks(s: Indexed)
    requires 1 <= s.first && s.count <= WINDOW_SIZE
    ensures Tracks(VarsOf(s), s.first)
  {
  }

  /** The client's variables are determined by the index they track. */
  lemma TrackedIsVars(vars: State, s: Indexed)
    requires 1 <= s.first && Tracks(vars, s.first)
    requires vars.file == s.file && |vars.window| == s.count && vars.read == s.read
    ensures vars == VarsOf(s)
  {
  }

  function ClientOf(s: Indexed): Process
    requires s.first >= 1
  {
    Process(VarsOf(s), s.phase)
  }

  lemma HeadCommutes(s: Indexed)
    requires 1 <= s.first && s.count <= WINDOW_SIZE && s.read <= 0 && !Finished(s)
    ensures Refill(VarsOf(s)) == VarsOf(IndexedHead(s))
  {
    ImageTracks(s);
    RefillTracks(VarsOf(s), s.first);
    TrackedIsVars(Refill(VarsOf(s)), IndexedHead(s));
  }

  lemma LocalCommutes(s: Indexed, l: Local)
    requires Inv(s)
    ensures CanLocal(ClientOf(s), l) <==> IndexedCanLocal(s, l)
    ensures IndexedCanLocal(s, l) ==> DoLocal(ClientOf(s), l) == ClientOf(IndexedLocal(s, l))
  {
    if l.Head? && s.phase.LoopHead? && !Finished(s) {
      HeadCommutes(s);
    }
  }

  lemma SendCommutes(s: Indexed)
    requires s.first >= 1 && s.expected >= 1 && CanSend(Image(s).client)
    ensures SendStep(Image(s)) == Image(IndexedSend(s))
  {
    hide Wrap, Covered;
    var t := IndexedSend(s);
    assert PacketsOf(s.file, t.data) == PacketsOf(s.file, s.data) + [Outgoing(Image(s).client)];
  }

  /** Inside the window the 16-bit pop loop stops at the same packet as on indices. */
  lemma PopCommutes(s: Indexed, a: nat)
    requires 1 <= s.first <= a <= s.first + s.count && s.count <= WINDOW_SIZE
    ensures PopLoop(VarsOf(s), Wrap(a)) == VarsOf(s.(first := a, count := s.first + s.count - a))
  {
    ImageTracks(s);
    var t := PopLoopTo(VarsOf(s), s.first, a);
    TrackedIsVars(t, s.(first := a, count := s.first + s.count - a));
  }

  lemma AfterAckCommutes(s: Indexed, a: nat)
    requires 1 <= s.first <= a <= s.first + s.count && s.count <= WINDOW_SIZE && s.phase.Listening?
    ensures AfterTake(ClientOf(s), Ack(Wrap(a)))
            == ClientOf(s.(first := a, count := s.first + s.count - a, read := HEADER_SIZE))
  {
    hide Wrap, Covered, PopLoop;
    AfterTakeAck(ClientOf(s), Wrap(a));
    PopCommutes(s.(read := HEADER_SIZE), a);
  }

  lemma AfterOtherCommutes(s: Indexed)
    requires s.first >= 1 && s.acks != []
    requires s.phase.Closing? || (s.phase.Listening? && s.acks[0].FinAck?)
    ensures AfterTake(ClientOf(s), ReplyOf(s.acks[0])) == ClientOf(IndexedClientTake(s))
  {
    hide Wrap, Covered, PopLoop;
  }

  lemma AfterTakeCommutes(s: Indexed)
    requires Inv(s) && (s.phase.Listening? || s.phase.Closing?) && s.acks != []
    ensures AfterTake(ClientOf(s), ReplyOf(s.acks[0])) == ClientOf(IndexedClientTake(s))
  {
    hide Wrap, Covered, DataInv, AfterTake;
    if s.phase.Closing? || s.acks[0].FinAck? {
      AfterOtherCommutes(s);
    } else {
      var a := s.acks[0].index;
      AfterAckCommutes(s, a);
      assert IndexedClientTake(s)
          == s.(acks := s.acks[1..], first := a, count := s.first + s.count - a, read := HEADER_SIZE);
    }
  }

  lemma ClientTakeCommutes(s: Indexed)
    requires Inv(s) && (s.phase.Listening? || s.phase.Closing?) && s.acks != []
    ensures ClientTakeStep(Image(s)) == Image(IndexedClientTake(s))
  {
    hide Wrap, Covered, Inv;
    AfterTakeCommutes(s);
    assert RepliesOf(s.acks[1..]) == RepliesOf(s.acks)[1..];
  }

  lemma RepliesOfAppend(rs: seq<Reply>, r: Reply)
    ensures RepliesOf(rs + [r]) == RepliesOf(rs) + [ReplyOf(r)]
  {
  }

  lemma ReceiveDataCommutes(s: Indexed, i: nat)
    requires s.expected >= 1 && s.data != [] && s.data[0] == Data(i) && i >= 1
    requires Wrap(i) == Wrap(s.expected) <==> i == s.expected
    ensures var next := if i == s.expected then s.expected + 1 else s.expected;
            Receiver.Receive(ServerOf(s), DataPacket(s.file, i)) == (ServerOf(IndexedServerTake(s)), [Ack(Wrap(next))])
  {
    hide Wrap;
    if i == s.expected {
      WrapNext(i);
      assert s.file[..Covered(|s.file|, i - 1)] + Chunk(s.file, i) == s.file[..Covered(|s.file|, i)];
    }
  }

  /** The server's 16-bit test accepts exactly the index it waits for. */
  lemma ReceiveCommutes(s: Indexed)
    requires Inv(s) && s.status.Running? && s.data != []
    ensures var (server, replies) := Receiver.Receive(ServerOf(s), PacketOf(s.file, s.data[0]));
            && server == ServerOf(IndexedServerTake(s))
            && RepliesOf(IndexedServerTake(s).acks) == RepliesOf(s.acks) + replies
  {
    hide Wrap, Covered;
    if s.data[0].Data? {
      var i := s.data[0].index;
      WrapInjective(i, s.expected);
      ReceiveDataCommutes(s, i);
      RepliesOfAppend(s.acks, AckUpTo(if i == s.expected then s.expected + 1 else s.expected));
    } else {
      FinCommutes(s);
    }
  }

  lemma FinCommutes(s: Indexed)
    requires Inv(s) && s.status.Running? && s.data != [] && s.data[0] == Fin
    ensures var (server, replies) := Receiver.Receive(ServerOf(s), FIN);
            && server == ServerOf(IndexedServerTake(s))
            && RepliesOf(IndexedServerTake(s).acks) == RepliesOf(s.acks) + replies
  {
    hide Wrap;
    RepliesOfAppend(s.acks, FinAck);
  }

  lemma ServerTakeCommutes(s: Indexed)
    requires Inv(s) && s.status.Running? && s.data != []
    ensures ServerTakeStep(Image(s)) == Image(IndexedServerTake(s))
  {
    hide Wrap, Covered, Receiver.Receive, Inv;
    ReceiveCommutes(s);
    assert PacketsOf(s.file, s.data[1..]) == PacketsOf(s.file, s.data)[1..];
  }

  lemma PacketsOfFault(file: seq<byte>, ds: seq<Datum>, at: nat)
    requires at < |ds|
    ensures PacketsOf(file, Without(ds, at)) == Without(PacketsOf(file, ds), at)
    ensures PacketsOf(file, Repeated(ds, at)) == Repeated(PacketsOf(file, ds), at)
  {
  }

  lemma RepliesOfFault(rs: seq<Reply>, at: nat)
    requires at < |rs|
    ensures RepliesOf(Without(rs, at)) == Without(RepliesOf(rs), at)
    ensures RepliesOf(Repeated(rs, at)) == Repeated(RepliesOf(rs), at)
  {
  }

  lemma EnabledAgrees(s: Indexed, step: Step)
    requires Inv(s)
    ensures Enabled(Image(s), step) <==> IndexedEnabled(s, step)
  {
    if step.ClientLocal? {
      LocalCommutes(s, step.l);
    }
  }

  lemma FaultAgrees(s: Indexed, step: Step)
    requires Inv(s) && Enabled(Image(s), step) && IndexedEnabled(s, step)
    requires step.LoseData? || step.RepeatData? || step.LoseAck? || step.RepeatAck?
    ensures Image(IndexedApply(s, step)) == Apply(Image(s), step)
  {
    hide Wrap, Covered, Inv;
    if step.LoseData? || step.RepeatData? {
      PacketsOfFault(s.file, s.data, step.at);
    } else {
      RepliesOfFault(s.acks, step.at);
    }
  }

  lemma ApplyAgrees(s: Indexed, step: Step)
    requires Inv(s) && Enabled(Image(s), step) && IndexedEnabled(s, step)
    requires Inv(IndexedApply(s, step))
    ensures Image(IndexedApply(s, step)) == Apply(Image(s), step)
  {
    hide Wrap, Covered;
    match step
    case ClientLocal(l) => LocalCommutes(s, l);
    case ClientSend => SendCommutes(s);
    case ClientTake => ClientTakeCommutes(s);
    case ServerTake => ServerTakeCommutes(s);
    case ServerGiveUp =>
    case LoseData(_) => FaultAgrees(s, step);
    case RepeatData(_) => FaultAgrees(s, step);
    case LoseAck(_) => FaultAgrees(s, step);
    case RepeatAck(_) => FaultAgrees(s, step);
  }

  /**
   Every step is possible in both systems or in neither, and in both it does the same: each
   16-bit comparison answers like the comparison of unbounded indices.
   */
  lemma StepCommutes(s: Indexed, step: Step)
    requires Inv(s)
    ensures Enabled(Image(s), step) <==> IndexedEnabled(s, step)
    ensures IndexedEnabled(s, step) ==>
              && Inv(IndexedApply(s, step))
              && Image(IndexedApply(s, step)) == Apply(Image(s), step)
  {
    hide Inv, Image, Enabled, Apply, IndexedEnabled, IndexedApply;
    EnabledAgrees(s, step);
    if IndexedEnabled(s, step) {
      StepInv(s, step);
      ApplyAgrees(s, step);
    }
  }

  lemma StepKeepsFile(s: Indexed, step: Step)
    requires IndexedEnabled(s, step)
    ensures IndexedApply(s, step).file == s.file
  {
  }

  lemma InitialImage(file: seq<byte>, copies: nat)
    ensures Image(InitialIndexed(file, copies)) == Initial(file, copies)
  {
  }

  /**
   Refinement over whole runs, from any related pair of states: the 16-bit system can run exactly
   the step sequences the indexed system can run, and it ends in the image of the indexed state.
   */
  lemma {:induction false} RunCommutes(s: Indexed, steps: seq<Step>)
    requires Inv(s)
    ensures CanRun(Image(s), steps) <==> IndexedCanRun(s, steps)
    ensures IndexedCanRun(s, steps) ==>
              && Inv(IndexedRun(s, steps))
              && IndexedRun(s, steps).file == s.file
              && Image(IndexedRun(s, steps)) == Run(Image(s), steps)
    decreases |steps|
  {
    hide Inv, Image, Enabled, Apply, IndexedEnabled, IndexedApply;
    if steps == [] {
    } else {
      StepCommutes(s, steps[0]);
      if IndexedEnabled(s, steps[0]) {
        StepKeepsFile(s, steps[0]);
        RunCommutes(IndexedApply(s, steps[0]), steps[1..]);
      }
    }
  }

  // ---- what holds in every reachable state ----

  /**
   Behind every reachable state there are unbounded indices with first <= expected <= first + count;
   data in flight lies in [expected - 50, expected + 49] and acknowledgements in flight never
   decrease and lie in [first, expected].
   */
  lemma ReachableIndices(file: seq<byte>, s: Net) returns (x: Indexed)
    requires Reachable(file, s)
    ensures Inv(x) && x.file == file && s == Image(x)
    ensures x.first <= x.expected <= x.first + x.count <= x.first + WINDOW_SIZE
    ensures forall i :: 0 <= i < |x.data| && x.data[i].Data? ==>
              x.expected - WINDOW_SIZE <= x.data[i].index <= x.expected + WINDOW_SIZE - 1
    ensures AcksInv(x.acks, x.first, x.expected)
  {
    var copies: nat, steps: seq<Step> :|
      CanRun(Initial(file, copies), steps) && s == Run(Initial(file, copies), steps);
    InitialInv(file, copies);
    InitialImage(file, copies);
    RunCommutes(InitialIndexed(file, copies), steps);
    x := IndexedRun(InitialIndexed(file, copies), steps);
  }

  /** So no comparison of 16-bit numbers is ever wrong, however often the numbers have wrapped. */
  lemma ComparisonsExact(x: Indexed)
    requires Inv(x)
    ensures forall i :: 0 <= i < |x.data| && x.data[i].Data? ==>
              (Wrap(x.data[i].index) == Wrap(x.expected) <==> x.data[i].index == x.expected)
    ensures forall i, h :: 0 <= i < |x.acks| && x.acks[i].AckUpTo? && x.first <= h <= x.first + x.count ==>
              (Wrap(x.acks[i].index) == Wrap(h) <==> x.acks[i].index == h)
  {
    forall i | 0 <= i < |x.data| && x.data[i].Data?
      ensures Wrap(x.data[i].index) == Wrap(x.expected) <==> x.data[i].index == x.expected
    {
      WrapInjective(x.data[i].index, x.expected);
    }
    forall i, h | 0 <= i < |x.acks| && x.acks[i].AckUpTo? && x.first <= h <= x.first + x.count
      ensures Wrap(x.acks[i].index) == Wrap(h) <==> x.acks[i].index == h
    {
      WrapInjective(x.acks[i].index, h);
    }
  }

  /**
   Delivery: the server's file is always a prefix of the source; once the client has left its data
   loop it is the whole source, so that the FIN is accepted; the file is never removed for excess
   data or an early FIN, and a kept file is the source.
   */
  lemma Delivery(file: seq<byte>, s: Net)
    requires Reachable(file, s)
    ensures s.server.data <= file && s.server.read == |s.server.data| && s.server.filesize == |file|
    ensures s.client.phase.Closing? || s.client.phase.Done? || FIN in s.data || s.server.status.Kept?
            ==> s.client.vars.written == |file| && s.server.data == file
    ensures FIN in s.data && s.server.status.Running? ==> Receiver.Receive(s.server, FIN).0.status.Kept?
    ensures s.server.status.Removed? ==> s.server.status.reason.TimedOut?
  {
    var x := ReachableIndices(file, s);
    if FIN in s.data {
      FinIsFin(x);
    }
    ImageDelivers(x);
  }

  lemma FinIsFin(x: Indexed)
    requires Inv(x) && FIN in PacketsOf(x.file, x.data)
    ensures Finished(x)
  {
    var i :| 0 <= i < |x.data| && PacketsOf(x.file, x.data)[i] == FIN;
    assert PacketOf(x.file, x.data[i]) == FIN;
    assert x.data[i] == Fin;
  }

  lemma ImageDelivers(x: Indexed)
    requires Inv(x)
    ensures ServerOf(x).data <= x.file && ServerOf(x).read == |ServerOf(x).data|
    ensures Finished(x) ==> VarsOf(x).written == |x.file| && ServerOf(x).data == x.file
  {
  }
}
