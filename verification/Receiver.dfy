/**
 The receiving side, server `copy_file` in ftpclient/ftpserver.c from the point where the request
 has been accepted: a fold over the packets that arrive, and what that fold computes.
 */
module Receiver {
  import opened Packets
  import opened Chunks

  datatype Reason = TimedOut | Excess | Incomplete
  datatype Status = Running | Kept | Removed(reason: Reason)

  /** `data` is what has been written to the local file, whether or not it is unlinked later. */
  datatype State = State(filesize: nat, expected: u16, read: nat, data: seq<byte>, status: Status)

  function Start(filesize: nat): State { State(filesize, 1, 0, [], Running) }

  /** One pass of the receive loop: the new state and the replies sent. */
  function Receive(s: State, p: Packet): (State, seq<Packet>) {
    if p.cmd == CMD_DATA then
      if p.number != s.expected then (s, [Ack(s.expected)])
      else
        var t := s.(expected := Wrap(s.expected + 1),
                    read := s.read + |p.payload|,
                    data := s.data + p.payload);
        (if t.read > t.filesize then t.(status := Removed(Excess)) else t, [Ack(t.expected)])
    else if p.cmd == CMD_FIN then
      if s.read != s.filesize then (s.(status := Removed(Incomplete)), [])
      else (s.(status := Kept), [FINACK])
    else (s, [])
  }

  /** No packet within the time limit. */
  function GiveUp(s: State): State { s.(status := Removed(TimedOut)) }

  /** The state after the packets of a trace; packets after the end of the loop are not read. */
  function After(filesize: nat, trace: seq<Packet>): State {
    if trace == [] then Start(filesize)
    else
      var s := After(filesize, trace[..|trace| - 1]);
      if s.status.Running? then Receive(s, trace[|trace| - 1]).0 else s
  }

  function Replies(filesize: nat, trace: seq<Packet>): seq<Packet> {
    if trace == [] then []
    else
      var init := trace[..|trace| - 1];
      var s := After(filesize, init);
      Replies(filesize, init) + if s.status.Running? then Receive(s, trace[|trace| - 1]).1 else []
  }

  /** The whole loop on a trace that is followed by silence. */
  function Serve(filesize: nat, trace: seq<Packet>): State {
    var s := After(filesize, trace);
    if s.status.Running? then GiveUp(s) else s
  }

  // ---- which packets a receiver can accept at all ----

  /** A data packet is taken when it is the next one. */
  function Take(a: seq<Packet>, p: Packet): seq<Packet> {
    if p.cmd == CMD_DATA && p.number == Wrap(1 + |a|) then a + [p] else a
  }

  /** The greedy choice over a whole trace. */
  function Accepted(trace: seq<Packet>): (a: seq<Packet>)
    ensures |a| <= |trace|
  {
    if trace == [] then []
    else
      Take(Accepted(trace[..|trace| - 1]), trace[|trace| - 1])
  }

  /** `at` picks data packets numbered 1, 2, 3, ... (mod 2^16) out of the trace, in order. */
  ghost predicate Chain(trace: seq<Packet>, at: seq<nat>) {
    && (forall i :: 0 <= i < |at| ==>
          at[i] < |trace| && trace[at[i]].cmd == CMD_DATA && trace[at[i]].number == Wrap(1 + i))
    && (forall i, j :: 0 <= i < j < |at| ==> at[i] < at[j])
  }

  ghost predicate Embeds(trace: seq<Packet>, k: nat) {
    exists at: seq<nat> :: Chain(trace, at) && |at| == k
  }

  lemma {:induction false} ChainAtMostAccepted(trace: seq<Packet>, at: seq<nat>)
    requires Chain(trace, at)
    ensures |at| <= |Accepted(trace)|
    decreases |trace|
  {
    if at != [] {
      assert at[0] < |trace|;
      var init := trace[..|trace| - 1];
      var last := |at| - 1;
      if at[last] == |trace| - 1 {
        ChainAtMostAccepted(init, at[..last]);
      } else {
        assert forall i :: 0 <= i < |at| ==> at[i] <= at[last];
        ChainAtMostAccepted(init, at);
      }
    }
  }

  lemma ChainExtends(trace: seq<Packet>, at: seq<nat>, p: Packet)
    requires Chain(trace, at)
    ensures Chain(trace + [p], at)
    ensures p.cmd == CMD_DATA && p.number == Wrap(1 + |at|) ==> Chain(trace + [p], at + [|trace|])
  {
    var longer := trace + [p];
    assert forall i :: 0 <= i < |at| ==> longer[at[i]] == trace[at[i]];
  }

  lemma {:induction false} AcceptedIsChain(trace: seq<Packet>) returns (at: seq<nat>)
    ensures Chain(trace, at) && |at| == |Accepted(trace)|
  {
    if trace == [] {
      at := [];
    } else {
      var init, p := trace[..|trace| - 1], trace[|trace| - 1];
      assert trace == init + [p];
      at := AcceptedIsChain(init);
      ChainExtends(init, at, p);
      if p.cmd == CMD_DATA && p.number == Wrap(1 + |at|) {
        at := at + [|init|];
      }
    }
  }

  /** Greedy acceptance is optimal: it accepts k packets exactly when 1..k occur in order. */
  lemma GreedyOptimal(trace: seq<Packet>, k: nat)
    ensures Embeds(trace, k) <==> k <= |Accepted(trace)|
  {
    if Embeds(trace, k) {
      var at: seq<nat> :| Chain(trace, at) && |at| == k;
      ChainAtMostAccepted(trace, at);
    }
    if k <= |Accepted(trace)| {
      var at := AcceptedIsChain(trace);
      assert Chain(trace, at[..k]);
    }
  }

  // ---- what the loop computes ----

  /** How many packets of the trace the loop reads before it ends. */
  function Consumed(filesize: nat, trace: seq<Packet>): (m: nat)
    ensures m <= |trace|
    ensures After(filesize, trace).status.Running? ==> m == |trace|
  {
    if trace == [] then 0
    else
      var init := trace[..|trace| - 1];
      if After(filesize, init).status.Running? then |trace| else Consumed(filesize, init)
  }

  /** The running loop has accepted the packets a. */
  ghost predicate Holds(s: State, a: seq<Packet>) {
    s.data == Bytes(a) && s.read == |s.data| && s.expected == Wrap(1 + |a|)
  }

  lemma ReceiveHolds(s: State, a: seq<Packet>, p: Packet)
    requires Holds(s, a)
    ensures Holds(Receive(s, p).0, Take(a, p))
    ensures p.cmd == CMD_DATA ==> Receive(s, p).1 == [Ack(Wrap(1 + |Take(a, p)|))]
  {
    if p.cmd == CMD_DATA && p.number == s.expected {
      BytesAppend(a, p);
      WrapNext(1 + |a|);
    }
  }

  /**
   On every trace the file holds exactly the payloads of the accepted packets of the part that
   was read, and the expected number is one more than their count, modulo 2^16.
   */
  lemma {:induction false} FileIsAccepted(filesize: nat, trace: seq<Packet>)
    ensures var s := After(filesize, trace);
            && Holds(s, Accepted(trace[..Consumed(filesize, trace)]))
            && s.filesize == filesize
            && (s.status.Running? ==> s.read <= filesize)
            && (s.status.Kept? ==> s.read == filesize)
  {
    if trace == [] {
    } else {
      var init, p := trace[..|trace| - 1], trace[|trace| - 1];
      FileIsAccepted(filesize, init);
      var s, m := After(filesize, init), Consumed(filesize, init);
      if s.status.Running? {
        assert init[..|init|] == init && trace[..|trace|] == trace;
        ReceiveHolds(s, Accepted(init), p);
        assert Accepted(trace) == Take(Accepted(init), p);
      } else {
        assert trace[..m] == init[..m];
      }
    }
  }

  /** Every data packet read is answered with an ACK for 1 + the number accepted so far. */
  lemma AckIsCumulative(filesize: nat, init: seq<Packet>, p: Packet)
    requires After(filesize, init).status.Running? && p.cmd == CMD_DATA
    ensures Replies(filesize, init + [p])
            == Replies(filesize, init) + [Ack(Wrap(1 + |Accepted(init + [p])|))]
  {
    var trace := init + [p];
    assert trace[..|trace| - 1] == init;
    FileIsAccepted(filesize, init);
    assert init[..|init|] == init;
    ReceiveHolds(After(filesize, init), Accepted(init), p);
  }

  // ---- how the loop ends ----

  /** The part of the trace before the first FIN. */
  function BeforeFin(trace: seq<Packet>): (t: seq<Packet>)
    ensures t <= trace
    ensures forall i :: 0 <= i < |t| ==> t[i].cmd != CMD_FIN
    ensures |t| < |trace| ==> trace[|t|].cmd == CMD_FIN
  {
    if trace == [] then []
    else
      var init := trace[..|trace| - 1];
      var t := BeforeFin(init);
      if |t| < |init| || trace[|trace| - 1].cmd == CMD_FIN then t else trace
  }

  /** The number of acceptable bytes before the first FIN, and whether there is a FIN, decide. */
  function Outcome(filesize: nat, trace: seq<Packet>): Status {
    var total := |Bytes(Accepted(BeforeFin(trace)))|;
    if total > filesize then Removed(Excess)
    else if |BeforeFin(trace)| == |trace| then Removed(TimedOut)
    else if total == filesize then Kept
    else Removed(Incomplete)
  }

  lemma {:induction false} AfterWithoutFin(filesize: nat, trace: seq<Packet>)
    requires forall i :: 0 <= i < |trace| ==> trace[i].cmd != CMD_FIN
    ensures After(filesize, trace).status
            == if |Bytes(Accepted(trace))| > filesize then Removed(Excess) else Running
  {
    if trace == [] {
    } else {
      hide Wrap, Bytes;
      var init, p := trace[..|trace| - 1], trace[|trace| - 1];
      AfterWithoutFin(filesize, init);
      FileIsAccepted(filesize, init);
      assert init[..|init|] == init;
      BytesAppend(Accepted(init), p);
    }
  }

  lemma {:induction false} StaysEnded(filesize: nat, trace: seq<Packet>, m: nat)
    requires m <= |trace| && !After(filesize, trace[..m]).status.Running?
    ensures After(filesize, trace) == After(filesize, trace[..m])
    ensures Replies(filesize, trace) == Replies(filesize, trace[..m])
    decreases |trace|
  {
    if m == |trace| {
      assert trace[..m] == trace;
    } else {
      var init := trace[..|trace| - 1];
      assert init[..m] == trace[..m];
      StaysEnded(filesize, init, m);
    }
  }

  /** The first FIN decides by the bytes accepted before it. */
  lemma AfterFirstFin(filesize: nat, trace: seq<Packet>, p: Packet)
    requires After(filesize, trace).status.Running? && p.cmd == CMD_FIN
    ensures After(filesize, trace + [p]).status
            == if |Bytes(Accepted(trace))| == filesize then Kept else Removed(Incomplete)
  {
    hide Bytes, Accepted;
    FileIsAccepted(filesize, trace);
    assert trace[..|trace|] == trace && (trace + [p])[..|trace|] == trace;
  }

  /**
   For every peer and every trace: the file is kept exactly when the first FIN arrives with all
   bytes accepted; silence, excess data and an early FIN each remove it.
   */
  lemma OutcomeExact(filesize: nat, trace: seq<Packet>)
    ensures Serve(filesize, trace).status == Outcome(filesize, trace)
  {
    hide After, Bytes, Accepted, BeforeFin;
    var t := BeforeFin(trace);
    AfterWithoutFin(filesize, t);
    assert trace[..|t|] == t;
    if !After(filesize, t).status.Running? {
      StaysEnded(filesize, trace, |t|);
    } else if |t| < |trace| {
      AfterFirstFin(filesize, t, trace[|t|]);
      assert trace[..|t| + 1] == t + [trace[|t|]];
      StaysEnded(filesize, trace, |t| + 1);
    } else {
      assert t == trace;
    }
  }

  // ---- everything the server answers ----

  /** For each data packet of the trace an ACK with the number that follows those accepted so far. */
  function AckStream(trace: seq<Packet>): seq<Packet> {
    if trace == [] then []
    else
      AckStream(trace[..|trace| - 1])
      + if trace[|trace| - 1].cmd == CMD_DATA then [Ack(Wrap(1 + |Accepted(trace)|))] else []
  }

  function CountData(trace: seq<Packet>): nat {
    if trace == [] then 0
    else CountData(trace[..|trace| - 1]) + if trace[|trace| - 1].cmd == CMD_DATA then 1 else 0
  }

  lemma {:induction false} AckStreamShape(trace: seq<Packet>)
    ensures |AckStream(trace)| == CountData(trace) && FINACK !in AckStream(trace)
  {
    if trace != [] {
      AckStreamShape(trace[..|trace| - 1]);
    }
  }

  /** What one packet adds: an ACK for data, a FINACK for a FIN that completes the file, nothing else. */
  lemma ReplyTo(s: State, a: seq<Packet>, p: Packet)
    requires Holds(s, a) && s.status.Running?
    ensures var (t, replies) := Receive(s, p);
            replies == (if p.cmd == CMD_DATA then [Ack(Wrap(1 + |Take(a, p)|))] else [])
                       + if t.status.Kept? then [FINACK] else []
  {
    ReceiveHolds(s, a, p);
  }

  lemma RepliesStep(filesize: nat, init: seq<Packet>, p: Packet)
    requires After(filesize, init).status.Running? && Replies(filesize, init) == AckStream(init)
    ensures Replies(filesize, init + [p])
            == AckStream(init + [p]) + if After(filesize, init + [p]).status.Kept? then [FINACK] else []
  {
    hide Receive, Wrap, Bytes;
    var trace := init + [p];
    assert trace[..|trace| - 1] == init && init[..|init|] == init;
    FileIsAccepted(filesize, init);
    ReplyTo(After(filesize, init), Accepted(init), p);
  }

  lemma {:induction false} RepliesAre(filesize: nat, trace: seq<Packet>)
    ensures Replies(filesize, trace)
            == AckStream(trace[..Consumed(filesize, trace)])
               + if After(filesize, trace).status.Kept? then [FINACK] else []
  {
    if trace == [] {
    } else {
      hide Receive, Wrap, AckStream;
      var init, p := trace[..|trace| - 1], trace[|trace| - 1];
      RepliesAre(filesize, init);
      var m := Consumed(filesize, init);
      if After(filesize, init).status.Running? {
        assert init[..m] == init && trace[..|trace|] == trace == init + [p];
        RepliesStep(filesize, init, p);
      } else {
        assert trace[..m] == init[..m];
      }
    }
  }

  /** Waiting out the silence after a trace keeps no file and loses none. */
  lemma KeptBySilence(filesize: nat, trace: seq<Packet>)
    ensures After(filesize, trace).status.Kept? <==> Outcome(filesize, trace).Kept?
  {
    hide After, Outcome;
    OutcomeExact(filesize, trace);
  }

  /**
   On every trace the server answers exactly with the ACKs of the data packets it read, and with one
   FINACK at the end if and only if the file is kept.
   */
  lemma RepliesExact(filesize: nat, trace: seq<Packet>)
    ensures Replies(filesize, trace)
            == AckStream(trace[..Consumed(filesize, trace)])
               + if Outcome(filesize, trace).Kept? then [FINACK] else []
    ensures FINACK in Replies(filesize, trace) <==> Outcome(filesize, trace).Kept?
    ensures |Replies(filesize, trace)| == CountData(trace[..Consumed(filesize, trace)])
                                          + if Outcome(filesize, trace).Kept? then 1 else 0
  {
    hide After, Outcome, Replies, AckStream;
    RepliesAre(filesize, trace);
    KeptBySilence(filesize, trace);
    AckStreamShape(trace[..Consumed(filesize, trace)]);
  }
}
