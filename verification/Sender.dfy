/**
 The sending side, client `copy_file` in ftpclient/ftpclient.c, as functions on its variables.
 `ClientProgram` holds the imperative form that is proved to compute these functions.
 */
module Sender {
  import opened Packets
  import opened Chunks

  /**
   The variables of the data loop. `offset` is the position of the FILE stream, `read` is the
   local that counts bytes while refilling and then receives the result of each receive call.
   */
  datatype State = State(
    file: seq<byte>, written: int, read: int, offset: nat, number: u16, window: seq<Packet>)

  function Start(file: seq<byte>): State { State(file, 0, 0, 0, 1, []) }

  /** `fread` of at most `request` bytes from a file that does not change. */
  function FRead(file: seq<byte>, offset: nat, request: nat): seq<byte> {
    if offset > |file| then [] else file[offset..offset + Min(request, |file| - offset)]
  }

  // ---- the refill loop ----

  /**
   `size - read` bytes but at most a payload. As a `size_t` a negative difference would exceed the
   size of every file, so that it asks for the whole file.
   */
  function Remaining(s: State): nat {
    var left := |s.file| - s.read;
    if left < 0 then |s.file| else Min(left, PAYLOAD_SIZE)
  }

  function AppendChunk(s: State): State {
    var chunk := FRead(s.file, s.offset, Remaining(s));
    s.(window := s.window + [Packet(CMD_DATA, s.number, chunk)],
       number := Wrap(s.number + 1),
       offset := s.offset + |chunk|,
       read := s.read + |chunk|)
  }

  function Refill(s: State): State
    decreases WINDOW_SIZE - |s.window|
  {
    if |s.window| < WINDOW_SIZE && s.written < |s.file| then Refill(AppendChunk(s)) else s
  }

  // ---- the pop loop ----

  /** The test meant to stop on acknowledgements outside the window [f, l]. */
  predicate Outside(a: u16, f: u16, l: u16) {
    (f <= l && a < f && a > l) || (!(f <= l) && a > f && a < l)
  }

  /** How many packets the pop loop removes from the front of the window. */
  function PopCount(window: seq<Packet>, a: u16): (k: nat)
    ensures k <= |window|
  {
    if window == [] then 0
    else if a == window[0].number then 0
    else if Outside(a, window[0].number, window[|window| - 1].number) then 0
    else 1 + PopCount(window[1..], a)
  }

  function PopLoop(s: State, a: u16): State {
    var k := PopCount(s.window, a);
    s.(written := s.written + Total(s.window[..k]), window := s.window[k..])
  }

  // ---- one received packet ----

  datatype Reaction = Listen | LeaveReceive | ServerClosed

  function Handle(s: State, received: int, p: Packet): (State, Reaction) {
    var r := s.(read := received);
    if p.cmd == CMD_ACK then (PopLoop(r, p.number), Listen)
    else if p.cmd == CMD_FIN then (r, if r.written < |r.file| then ServerClosed else LeaveReceive)
    else (r, Listen)
  }

  // ---- the whole data loop, for an arbitrary schedule of received packets ----

  /** The receive loop: packets until none is waiting, or until it is left because of a FIN. */
  function ReceiveAll(s: State, replies: seq<Packet>): (State, Reaction)
    decreases |replies|
  {
    if replies == [] then (s.(read := -1), LeaveReceive)
    else
      var (t, reaction) := Handle(s, HEADER_SIZE + |replies[0].payload|, replies[0]);
      if reaction.Listen? then ReceiveAll(t, replies[1..]) else (t, reaction)
  }

  datatype Result = AllWritten | AckTimedOut | ClosedByServer

  /** rounds[r] arrives in the r-th receive loop; after the last round the ACK timer expires. */
  function Session(s: State, rounds: seq<seq<Packet>>): (State, Result)
    decreases |rounds|
  {
    if s.written == |s.file| then (s, AllWritten)
    else if rounds == [] then (Refill(s), AckTimedOut)
    else
      var (t, reaction) := ReceiveAll(Refill(s), rounds[0]);
      if reaction.ServerClosed? then (t, ClosedByServer) else Session(t, rounds[1..])
  }

  /** The windows that the data loop sends, one per pass. */
  function Transmissions(s: State, rounds: seq<seq<Packet>>): seq<seq<Packet>>
    decreases |rounds|
  {
    if s.written == |s.file| then []
    else if rounds == [] then [Refill(s).window]
    else
      var (t, reaction) := ReceiveAll(Refill(s), rounds[0]);
      [Refill(s).window] + if reaction.ServerClosed? then [] else Transmissions(t, rounds[1..])
  }

  // ---- the client process: the loops above with their control points ----

  datatype Phase = LoopHead | Sending(next: nat) | Listening | Closing | Done | Failed(why: Result)
  datatype Process = Process(vars: State, phase: Phase)

  /** Steps that touch no channel; the last three stand for timers and empty receives. */
  datatype Local = Head | SentAll | AckTimeout | Quiet | CloseTimeout

  predicate CanLocal(p: Process, l: Local) {
    match l
    case Head => p.phase.LoopHead?
    case SentAll => p.phase == Sending(|p.vars.window|)
    case AckTimeout => p.phase == Sending(|p.vars.window|)
    case Quiet => p.phase.Listening?
    case CloseTimeout => p.phase.Closing?
  }

  function DoLocal(p: Process, l: Local): Process {
    match l
    case Head =>
      if p.vars.written != |p.vars.file| then Process(Refill(p.vars), Sending(0))
      else p.(phase := Closing)
    case SentAll => p.(phase := Listening)
    case AckTimeout => p.(phase := Failed(AckTimedOut))
    case Quiet => Process(p.vars.(read := -1), LoopHead)
    case CloseTimeout => p.(phase := Done)
  }

  predicate CanSend(p: Process) {
    p.phase.Closing? || (p.phase.Sending? && p.phase.next < |p.vars.window|)
  }

  function Outgoing(p: Process): Packet
    requires CanSend(p)
  {
    if p.phase.Closing? then FIN else p.vars.window[p.phase.next]
  }

  function AfterSend(p: Process): Process
    requires CanSend(p)
  {
    if p.phase.Closing? then p else p.(phase := Sending(p.phase.next + 1))
  }

  predicate CanTake(p: Process) { p.phase.Listening? || p.phase.Closing? }

  function AfterTake(p: Process, reply: Packet): Process
    requires CanTake(p)
  {
    if p.phase.Closing? then
      if reply.cmd == CMD_FINACK then p.(phase := Done) else p
    else
      var (vars, reaction) := Handle(p.vars, HEADER_SIZE + |reply.payload|, reply);
      Process(vars, match reaction
                    case Listen => Listening
                    case LeaveReceive => LoopHead
                    case ServerClosed => Failed(ClosedByServer))
  }

  lemma AfterTakeAck(p: Process, a: u16)
    requires p.phase.Listening?
    ensures AfterTake(p, Ack(a)) == Process(PopLoop(p.vars.(read := HEADER_SIZE), a), Listening)
  {
  }

  // ---- the unbounded index behind the variables ----

  /** What every refill relies on: `read` is never ahead of the file position. */
  predicate Refillable(s: State) { s.read <= s.offset <= |s.file| }

  /** The window holds the packets first, first + 1, ... and everything else follows from that. */
  ghost predicate Tracks(s: State, first: nat) {
    && CutFrom(s.file, s.window, first)
    && |s.window| <= WINDOW_SIZE
    && s.number == Wrap(first + |s.window|)
    && s.written == Covered(|s.file|, first - 1)
    && s.offset == Covered(|s.file|, first - 1 + |s.window|)
  }

  /** The stop test for acknowledgements outside the window is never true. */
  lemma OutsideNever(a: u16, f: u16, l: u16)
    ensures !Outside(a, f, l)
  {
  }

  /** How many packets an acknowledgement removes from n packets that start at number f. */
  function Popped(n: nat, f: u16, a: u16): nat { Min(n, Ahead(f, a)) }

  /** How far a is ahead of f, counting with wrap-around. */
  function Ahead(f: u16, a: u16): nat { if f <= a then a - f else a - f + 0x1_0000 }

  lemma AheadIsModular(f: u16, a: u16)
    ensures Ahead(f, a) == (a - f) % 0x1_0000
    ensures Ahead(f, a) == 0 <==> a == f
  {
  }

  /** The 16-bit numbers of the window count up from `base`, wrapping around. */
  ghost predicate Consecutive(window: seq<Packet>, base: nat) {
    forall i :: 0 <= i < |window| ==> window[i].number == Wrap(base + i)
  }

  lemma PoppedStep(n: nat, base: nat, a: u16)
    requires n > 0
    ensures a == Wrap(base) ==> Popped(n, Wrap(base), a) == 0
    ensures a != Wrap(base) ==> Popped(n, Wrap(base), a) == 1 + Popped(n - 1, Wrap(base + 1), a)
  {
    WrapNext(base);
  }

  /**
   For every window of consecutive 16-bit numbers and every 16-bit acknowledgement, the pop loop
   removes exactly min(n, (a - f) mod 2^16) packets from the front.
   */
  lemma {:induction false} PopCountExact(window: seq<Packet>, base: nat, a: u16)
    requires Consecutive(window, base)
    ensures PopCount(window, a) == Popped(|window|, Wrap(base), a)
  {
    if window == [] {
    } else {
      PoppedStep(|window|, base, a);
      assert window[0].number == Wrap(base + 0);
      if a != window[0].number {
        PopCountExact(window[1..], base + 1, a);
      }
    }
  }

  /** What the pop loop leaves counts on from where it stopped, up to the same last number. */
  lemma PopLeavesConsecutive(window: seq<Packet>, base: nat, a: u16)
    requires Consecutive(window, base)
    ensures var k := PopCount(window, a);
            k == Popped(|window|, Wrap(base), a) && Consecutive(window[k..], base + k)
  {
    PopCountExact(window, base, a);
  }

  /** As long as `read` is not ahead of the file position, `fread` yields a whole chunk. */
  lemma FReadIsChunk(s: State, i: nat)
    requires i >= 1 && s.offset == Covered(|s.file|, i - 1) && Refillable(s)
    ensures FRead(s.file, s.offset, Remaining(s)) == Chunk(s.file, i)
    ensures s.offset + |Chunk(s.file, i)| == Covered(|s.file|, i)
  {
  }

  /** A chunk appended to a tracked window is the next chunk of the file, whatever `read` holds. */
  lemma AppendChunkTracks(s: State, first: nat)
    requires Tracks(s, first) && Refillable(s) && |s.window| < WINDOW_SIZE
    ensures AppendChunk(s).window == s.window + [DataPacket(s.file, first + |s.window|)]
    ensures Tracks(AppendChunk(s), first) && Refillable(AppendChunk(s))
  {
    hide Wrap, FRead;
    var i := first + |s.window|;
    FReadIsChunk(s, i);
    WrapNext(i);
  }

  /** One pass of the refill loop. */
  lemma RefillStep(s: State, t: State)
    requires |s.window| < WINDOW_SIZE && s.written < |s.file| && Refillable(s) && t == AppendChunk(s)
    ensures Refill(s) == Refill(t) && Refillable(t)
    ensures |t.window| == |s.window| + 1 && s.window <= t.window && t.written == s.written && t.file == s.file
  {
  }

  lemma RefillEnd(s: State)
    requires |s.window| >= WINDOW_SIZE || s.written >= |s.file|
    ensures Refill(s) == s
  {
  }

  /** A refill keeps the window and, while bytes are missing, tops it up to WINDOW_SIZE packets. */
  lemma {:induction false} RefillTracks(s: State, first: nat)
    requires Tracks(s, first) && Refillable(s)
    ensures var t := Refill(s);
            && Tracks(t, first) && s.window <= t.window
            && (s.written < |s.file| ==> |t.window| == WINDOW_SIZE)
            && t.file == s.file && t.written == s.written
            && t.read - s.read == t.offset - s.offset
    decreases WINDOW_SIZE - |s.window|
  {
    if |s.window| < WINDOW_SIZE && s.written < |s.file| {
      AppendChunkTracks(s, first);
      RefillTracks(AppendChunk(s), first);
    }
  }

  lemma TrackedConsecutive(s: State, first: nat)
    requires Tracks(s, first)
    ensures Consecutive(s.window, first)
  {
    forall i | 0 <= i < |s.window| ensures s.window[i].number == Wrap(first + i) {
      assert s.window[i] == DataPacket(s.file, first + i);
    }
  }

  /** Dropping k packets from the front of a tracked window. */
  lemma DropTracks(s: State, first: nat, k: nat)
    requires Tracks(s, first) && k <= |s.window|
    ensures s.written + Total(s.window[..k]) == Covered(|s.file|, first - 1 + k)
    ensures Tracks(s.(written := Covered(|s.file|, first - 1 + k), window := s.window[k..]), first + k)
  {
    hide Wrap;
    ConsecutiveTotal(s.file, s.window[..k], first);
    assert first + k + (|s.window| - k) == first + |s.window|;
  }

  /** The pop loop moves the window forward over file bytes and leaves a tracked window. */
  lemma PopLoopMoves(s: State, first: nat, a: u16, k: nat) returns (t: State)
    requires Tracks(s, first) && k == PopCount(s.window, a)
    ensures t == PopLoop(s, a) == s.(written := Covered(|s.file|, first - 1 + k), window := s.window[k..])
    ensures Tracks(t, first + k)
  {
    t := PopLoop(s, a);
    DropTracks(s, first, k);
  }

  /** That holds for any acknowledgement, and the move is the distance to it, cut off at the window's end. */
  lemma PopLoopTracks(s: State, first: nat, a: u16) returns (k: nat, t: State)
    requires Tracks(s, first)
    ensures k == Popped(|s.window|, Wrap(first), a) && Tracks(t, first + k)
    ensures t == PopLoop(s, a) == s.(written := Covered(|s.file|, first - 1 + k), window := s.window[k..])
  {
    k := PopCount(s.window, a);
    t := PopLoopMoves(s, first, a, k);
    TrackedConsecutive(s, first);
    PopCountExact(s.window, first, a);
  }

  lemma PoppedInWindow(first: nat, count: nat, a: nat)
    requires first <= a <= first + count && count <= WINDOW_SIZE
    ensures Popped(count, Wrap(first), Wrap(a)) == a - first
  {
  }

  lemma PopCountTo(window: seq<Packet>, first: nat, a: nat)
    requires Consecutive(window, first) && first <= a <= first + |window| && |window| <= WINDOW_SIZE
    ensures PopCount(window, Wrap(a)) == a - first
  {
    PopCountExact(window, first, Wrap(a));
    PoppedInWindow(first, |window|, a);
  }

  /** An acknowledgement for an index in the window, or just after it, moves the window there. */
  lemma PopLoopTo(s: State, first: nat, a: nat) returns (t: State)
    requires Tracks(s, first) && first <= a <= first + |s.window|
    ensures t == PopLoop(s, Wrap(a)) && Tracks(t, a)
    ensures |t.window| == first + |s.window| - a && t.file == s.file && t.read == s.read
  {
    hide Wrap, Covered, PopCount, PopLoop;
    TrackedConsecutive(s, first);
    PopCountTo(s.window, first, a);
    t := PopLoopMoves(s, first, Wrap(a), a - first);
  }

  /** Bytes acknowledged plus bytes in the window are the bytes taken from the file so far. */
  lemma TrackedConservation(s: State, first: nat)
    requires Tracks(s, first)
    ensures s.written + Total(s.window) == s.offset <= |s.file|
    ensures s.written != |s.file| <==> s.written < |s.file|
  {
    ConsecutiveTotal(s.file, s.window, first);
  }

  // ---- every run of the data loop ----

  /** One pass of the pop loop. */
  lemma PopLoopStep(s: State, t: State, a: u16)
    requires s.window != [] && a != s.window[0].number
    requires !Outside(a, s.window[0].number, s.window[|s.window| - 1].number)
    requires t == s.(written := s.written + |s.window[0].payload|, window := s.window[1..])
    ensures PopLoop(s, a) == PopLoop(t, a)
  {
    var k := PopCount(s.window[1..], a);
    assert s.window[..k + 1][1..] == s.window[1..][..k];
    assert s.window[k + 1..] == s.window[1..][k..];
  }

  lemma PopLoopEnd(s: State, a: u16)
    requires s.window == [] || a == s.window[0].number
             || Outside(a, s.window[0].number, s.window[|s.window| - 1].number)
    ensures PopLoop(s, a) == s
  {
  }

  /** One pass of the data loop. */
  lemma SessionStep(s: State, t: State, reaction: Reaction, rounds: seq<seq<Packet>>)
    requires s.written != |s.file| && rounds != [] && (t, reaction) == ReceiveAll(Refill(s), rounds[0])
    ensures reaction.ServerClosed? ==> Session(s, rounds) == (t, ClosedByServer)
    ensures !reaction.ServerClosed? ==> Session(s, rounds) == Session(t, rounds[1..])
    ensures Transmissions(s, rounds)
            == [Refill(s).window] + if reaction.ServerClosed? then [] else Transmissions(t, rounds[1..])
  {
  }

  lemma SessionEnd(s: State, rounds: seq<seq<Packet>>)
    requires s.written == |s.file|
    ensures Session(s, rounds) == (s, AllWritten) && Transmissions(s, rounds) == []
  {
  }

  /** Loop heads: the window is tracked and the next refill, if there is one, is sound. */
  ghost predicate AtHead(s: State, first: nat) {
    Tracks(s, first) && (s.written < |s.file| ==> s.read <= s.offset)
  }

  lemma ReadIsFree(s: State, first: nat, read: int)
    requires Tracks(s, first)
    ensures Tracks(s.(read := read), first)
  {
  }

  /** Only an ACK moves the window, only a FIN ends the listening. */
  lemma HandleTracks(s: State, first: nat, received: int, p: Packet)
    returns (first': nat, t: State, reaction: Reaction)
    requires Tracks(s, first)
    ensures (t, reaction) == Handle(s, received, p)
    ensures Tracks(t, first') && t.file == s.file && first' + |t.window| == first + |s.window|
    ensures p.cmd != CMD_ACK ==> first' == first
    ensures reaction.Listen? <==> p.cmd != CMD_FIN
    ensures reaction.LeaveReceive? ==> t.written == |t.file|
    ensures reaction.ServerClosed? ==> t.written < |t.file|
  {
    hide Wrap, PopLoop;
    ReadIsFree(s, first, received);
    if p.cmd == CMD_ACK {
      var k, u := PopLoopTracks(s.(read := received), first, p.number);
      first', t, reaction := first + k, u, Listen;
    } else {
      first' := first;
      t, reaction := s.(read := received), Handle(s, received, p).1;
    }
  }

  lemma {:induction false} ReceiveAllTracks(s: State, first: nat, replies: seq<Packet>) returns (first': nat)
    requires Tracks(s, first)
    ensures var (t, reaction) := ReceiveAll(s, replies);
            && t.file == s.file && Tracks(t, first')
            && first' + |t.window| == first + |s.window|
            && (reaction.LeaveReceive? ==> AtHead(t, first'))
            && (reaction.ServerClosed? ==> t.written < |t.file|)
            && !reaction.Listen?
    decreases |replies|
  {
    hide Wrap, Covered, Handle;
    if replies == [] {
      first' := first;
    } else {
      var received := HEADER_SIZE + |replies[0].payload|;
      var m, t, reaction := HandleTracks(s, first, received, replies[0]);
      first' := m;
      if reaction.Listen? {
        first' := ReceiveAllTracks(t, first', replies[1..]);
      }
    }
  }

  lemma {:induction false} SessionTracks(s: State, first: nat, rounds: seq<seq<Packet>>) returns (first': nat)
    requires AtHead(s, first)
    ensures var (t, result) := Session(s, rounds);
            Tracks(t, first') && t.file == s.file && (result.AllWritten? <==> t.written == |t.file|)
    decreases |rounds|
  {
    hide Wrap;
    first' := first;
    if s.written != |s.file| {
      RefillTracks(s, first);
      if rounds != [] {
        first' := ReceiveAllTracks(Refill(s), first, rounds[0]);
        var (t, reaction) := ReceiveAll(Refill(s), rounds[0]);
        if !reaction.ServerClosed? {
          first' := SessionTracks(t, first', rounds[1..]);
        }
      }
    }
  }

  ghost predicate HasFin(replies: seq<Packet>) {
    exists i :: 0 <= i < |replies| && replies[i].cmd == CMD_FIN
  }

  /**
   A receive loop ends with an empty receive, which leaves -1 in `read`, unless a FIN arrives; then
   `read` is the length of the first FIN, and the bytes acknowledged decide what it means.
   */
  lemma {:induction false} ReceiveAllEnding(s: State, replies: seq<Packet>) returns (at: nat)
    ensures at <= |replies| && (forall i :: 0 <= i < at ==> replies[i].cmd != CMD_FIN)
    ensures at < |replies| ==> replies[at].cmd == CMD_FIN
    ensures var (t, reaction) := ReceiveAll(s, replies);
            && t.read == (if at == |replies| then -1 else HEADER_SIZE + |replies[at].payload|)
            && reaction == (if at < |replies| && t.written < |t.file| then ServerClosed else LeaveReceive)
    decreases |replies|
  {
    at := 0;
    if replies != [] {
      hide PopLoop;
      var (t, reaction) := Handle(s, HEADER_SIZE + |replies[0].payload|, replies[0]);
      if reaction.Listen? {
        at := ReceiveAllEnding(t, replies[1..]);
        at := at + 1;
      }
    }
  }

  lemma FinAt(replies: seq<Packet>, at: nat)
    requires at < |replies| && replies[at].cmd == CMD_FIN
    ensures HasFin(replies)
  {
  }

  /**
   How the data loop ends, for every schedule: by the timer exactly when it sends once more than there
   are rounds, by the server only with a FIN in the last round and bytes missing, else with all written.
   */
  lemma {:induction false} SessionEnding(s: State, rounds: seq<seq<Packet>>)
    ensures var (t, result) := Session(s, rounds);
            var passes := |Transmissions(s, rounds)|;
            && passes <= |rounds| + 1
            && (result.AckTimedOut? <==> passes == |rounds| + 1)
            && (result.ClosedByServer? ==> 1 <= passes <= |rounds| && HasFin(rounds[passes - 1]))
            && (result.ClosedByServer? ==> t.written < |t.file|)
            && (result.AllWritten? ==> t.written == |t.file|)
    decreases |rounds|
  {
    if s.written != |s.file| && rounds != [] {
      hide Refill, ReceiveAll, HasFin;
      var (t, reaction) := ReceiveAll(Refill(s), rounds[0]);
      var at := ReceiveAllEnding(Refill(s), rounds[0]);
      if reaction.ServerClosed? {
        assert HasFin(rounds[0]) by { FinAt(rounds[0], at); }
      } else {
        SessionEnding(t, rounds[1..]);
      }
    }
  }

  /** The windows sent are the 50 packets from `starts[r]` on, and these starts never decrease. */
  ghost predicate WindowsFrom(file: seq<byte>, sent: seq<seq<Packet>>, starts: seq<nat>, first: nat) {
    && |starts| == |sent|
    && (forall r :: 0 <= r < |sent| ==> starts[r] >= first >= 1 && sent[r] == DataPackets(file, starts[r], WINDOW_SIZE))
    && (forall q, r :: 0 <= q < r < |starts| ==> starts[q] <= starts[r])
  }

  lemma WindowBefore(file: seq<byte>, sent: seq<seq<Packet>>, starts: seq<nat>, first: nat, first': nat)
    requires WindowsFrom(file, sent, starts, first') && 1 <= first <= first'
    ensures WindowsFrom(file, [DataPackets(file, first, WINDOW_SIZE)] + sent, [first] + starts, first)
  {
  }

  /** A pass with bytes missing sends the 50 packets from the index on. */
  lemma PassSends(s: State, first: nat)
    requires AtHead(s, first) && s.written != |s.file|
    ensures Tracks(Refill(s), first) && Refill(s).file == s.file && first >= 1
    ensures Refill(s).window == DataPackets(s.file, first, WINDOW_SIZE)
  {
    RefillTracks(s, first);
  }

  /** For every schedule, each pass sends 50 consecutive packets of the file, never going back. */
  lemma {:induction false} TransmissionsAreWindows(s: State, first: nat, rounds: seq<seq<Packet>>)
    returns (starts: seq<nat>)
    requires AtHead(s, first)
    ensures WindowsFrom(s.file, Transmissions(s, rounds), starts, first)
    decreases |rounds|
  {
    starts := [];
    if s.written != |s.file| {
      PassSends(s, first);
      WindowBefore(s.file, [], [], first, first);
      starts := [first];
      if rounds != [] {
        var (t, reaction) := ReceiveAll(Refill(s), rounds[0]);
        var first' := ReceiveAllTracks(Refill(s), first, rounds[0]);
        if !reaction.ServerClosed? {
          var rest := TransmissionsAreWindows(t, first', rounds[1..]);
          WindowBefore(s.file, Transmissions(t, rounds[1..]), rest, first, first');
          starts := [first] + rest;
        }
      }
    }
  }

  /**
   For every file and every schedule of received packets whatsoever: no byte is counted twice or
   lost between `written`, the window and the file position, and `written` never overshoots.
   */
  lemma SessionConserves(file: seq<byte>, rounds: seq<seq<Packet>>)
    ensures var (t, result) := Session(Start(file), rounds);
            && t.written + Total(t.window) == t.offset <= |file|
            && (result.AllWritten? <==> t.written == |file|)
            && (!result.AllWritten? <==> t.written < |file|)
  {
    var first := SessionTracks(Start(file), 1, rounds);
    TrackedConservation(Session(Start(file), rounds).0, first);
  }
}
