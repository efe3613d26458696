/**
 Loss-free rounds: from any reachable state with the client at its loop head, a running server and
 empty channels, each round moves a full window, so the number of rounds that finish a transfer is
 known exactly.
 */
module Rounds {
  import opened Packets
  import opened Chunks
  import opened Sender
  import opened FifoNetwork
  import Receiver

  /** Refill, send the window, let the server handle it, process all acknowledgements. */
  function RoundSteps(): seq<Step> {
    ([ClientLocal(Head)] + Times(ClientSend, WINDOW_SIZE) + [ClientLocal(SentAll)])
    + Times(ServerTake, WINDOW_SIZE)
    + (Times(ClientTake, WINDOW_SIZE) + [ClientLocal(Quiet)])
  }

  function Times(step: Step, k: nat): seq<Step> { seq(k, _ => step) }

  function RoundsSteps(k: nat): seq<Step> {
    if k == 0 then [] else RoundSteps() + RoundsSteps(k - 1)
  }

  /** After the last round: leave the loop, then send FIN, accept it, take the FINACK. */
  const CLOSE_STEPS: seq<Step> := [ClientLocal(Head)] + FIN_STEPS
  const FIN_STEPS: seq<Step> := [ClientSend] + [ServerTake] + [ClientTake]

  ghost predicate StepTo(s: Indexed, step: Step, t: Indexed) {
    IndexedEnabled(s, step) && t == IndexedApply(s, step)
  }

  ghost predicate StepAt(path: seq<Indexed>, steps: seq<Step>, i: nat)
    requires i < |steps| && i + 1 < |path|
  {
    StepTo(path[i], steps[i], path[i + 1])
  }

  ghost predicate IsPath(path: seq<Indexed>, steps: seq<Step>) {
    |path| == |steps| + 1 && forall i :: 0 <= i < |steps| ==> StepAt(path, steps, i)
  }

  /** Running `steps` from s is possible and leads to t. */
  ghost predicate Leads(s: Indexed, steps: seq<Step>, t: Indexed) {
    exists path :: IsPath(path, steps) && path[0] == s && path[|steps|] == t
  }

  lemma {:induction false} PathRuns(path: seq<Indexed>, steps: seq<Step>)
    requires IsPath(path, steps)
    ensures IndexedCanRun(path[0], steps) && IndexedRun(path[0], steps) == path[|steps|]
    decreases |steps|
  {
    if steps == [] {
    } else {
      assert StepAt(path, steps, 0);
      forall i | 0 <= i < |steps| - 1 ensures StepAt(path[1..], steps[1..], i) {
        assert StepAt(path, steps, i + 1);
      }
      PathRuns(path[1..], steps[1..]);
    }
  }

  lemma LeadsRuns(s: Indexed, steps: seq<Step>, t: Indexed)
    requires Leads(s, steps, t)
    ensures IndexedCanRun(s, steps) && IndexedRun(s, steps) == t
  {
    var path :| IsPath(path, steps) && path[0] == s && path[|steps|] == t;
    PathRuns(path, steps);
  }

  lemma LeadsThrough(s: Indexed, first: seq<Step>, m: Indexed, second: seq<Step>, t: Indexed)
    requires Leads(s, first, m) && Leads(m, second, t)
    ensures Leads(s, first + second, t)
  {
    var p :| IsPath(p, first) && p[0] == s && p[|first|] == m;
    var q :| IsPath(q, second) && q[0] == m && q[|second|] == t;
    var path, steps := p + q[1..], first + second;
    forall i | 0 <= i < |steps| ensures StepAt(path, steps, i) {
      if i < |first| {
        assert StepAt(p, first, i);
        assert path[i] == p[i] && steps[i] == first[i] && path[i + 1] == p[i + 1];
      } else {
        var j := i - |first|;
        assert StepAt(q, second, j);
        assert path[i] == q[j] && steps[i] == second[j] && path[i + 1] == q[j + 1];
      }
    }
    assert IsPath(path, steps);
  }

  lemma LeadsThree(s: Indexed, a: seq<Step>, m: Indexed, b: seq<Step>, n: Indexed, c: seq<Step>, t: Indexed)
    requires Leads(s, a, m) && Leads(m, b, n) && Leads(n, c, t)
    ensures Leads(s, a + b + c, t)
  {
    LeadsThrough(s, a, m, b, n);
    LeadsThrough(s, a + b, n, c, t);
  }

  lemma LeadsNone(s: Indexed)
    ensures Leads(s, [], s)
  {
    assert IsPath([s], []);
  }

  lemma LeadsOne(s: Indexed, step: Step, t: Indexed)
    requires StepTo(s, step, t)
    ensures Leads(s, [step], t)
  {
    assert StepAt([s, t], [step], 0);
    assert IsPath([s, t], [step]);
  }

  lemma LeadsFirst(s: Indexed, step: Step, m: Indexed, k: nat, t: Indexed)
    requires k > 0 && StepTo(s, step, m) && Leads(m, Times(step, k - 1), t)
    ensures Leads(s, Times(step, k), t)
  {
    LeadsOne(s, step, m);
    LeadsThrough(s, [step], m, Times(step, k - 1), t);
    assert Times(step, k) == [step] + Times(step, k - 1);
  }

  // ---- the three phases of a round ----

  function Datas(i: nat, k: nat): (ds: seq<Datum>)
    ensures |ds| == k && forall j :: 0 <= j < k ==> ds[j] == Data(i + j)
  {
    seq(k, j requires 0 <= j < k => Data(i + j))
  }

  function Max(a: nat, b: nat): nat { if a < b then b else a }

  /** The acknowledgements for packets i, ..., i + k - 1 of a server that waits for e >= i. */
  function AcksFor(e: nat, i: nat, k: nat): (rs: seq<Reply>)
    ensures |rs| == k && forall j :: 0 <= j < k ==> rs[j] == AckUpTo(Max(e, i + j + 1))
  {
    seq(k, j requires 0 <= j < k => AckUpTo(Max(e, i + j + 1)))
  }

  lemma AcksForSplit(e: nat, i: nat, k: nat)
    requires k > 0
    ensures AcksFor(e, i, k) == [AckUpTo(Max(e, i + 1))] + AcksFor(Max(e, i + 1), i + 1, k - 1)
  {
  }

  lemma {:induction false} SendPhase(s: Indexed, n: nat, k: nat, t: Indexed)
    requires s.phase == Sending(n) && n + k <= s.count
    requires t == s.(phase := Sending(n + k), data := s.data + Datas(s.first + n, k))
    ensures Leads(s, Times(ClientSend, k), t)
    decreases k
  {
    if k == 0 {
      assert t == s;
      LeadsNone(s);
    } else {
      var m := s.(phase := Sending(n + 1), data := s.data + [Data(s.first + n)]);
      assert t.data == m.data + Datas(m.first + (n + 1), k - 1);
      SendPhase(m, n + 1, k - 1, t);
      LeadsFirst(s, ClientSend, m, k, t);
    }
  }

  lemma {:induction false} ServerPhase(s: Indexed, i: nat, k: nat, t: Indexed)
    requires s.data == Datas(i, k) && i <= s.expected && s.status.Running?
    requires t == s.(data := [], expected := Max(s.expected, i + k), acks := s.acks + AcksFor(s.expected, i, k))
    ensures Leads(s, Times(ServerTake, k), t)
    decreases k
  {
    if k == 0 {
      assert t == s;
      LeadsNone(s);
    } else {
      var e := Max(s.expected, i + 1);
      var m := s.(data := s.data[1..], expected := e, acks := s.acks + [AckUpTo(e)]);
      assert s.data[0] == Data(i) && m.data == Datas(i + 1, k - 1);
      AcksForSplit(s.expected, i, k);
      assert t.acks == m.acks + AcksFor(e, i + 1, k - 1);
      ServerPhase(m, i + 1, k - 1, t);
      LeadsFirst(s, ServerTake, m, k, t);
    }
  }

  lemma {:induction false} ClientPhase(s: Indexed, e: nat, i: nat, k: nat, t: Indexed)
    requires s.phase.Listening? && k > 0 && s.acks == AcksFor(e, i, k)
    requires s.first <= Max(e, i + 1) && Max(e, i + k) <= s.first + s.count
    requires t == s.(acks := [], first := Max(e, i + k), count := s.first + s.count - Max(e, i + k),
                     read := HEADER_SIZE)
    ensures Leads(s, Times(ClientTake, k), t)
    decreases k
  {
    var a := Max(e, i + 1);
    var m := s.(acks := s.acks[1..], first := a, count := s.first + s.count - a, read := HEADER_SIZE);
    assert s.acks[0] == AckUpTo(a);
    AcksForSplit(e, i, k);
    assert m.acks == AcksFor(a, i + 1, k - 1);
    if k == 1 {
      LeadsNone(t);
      assert m == t;
    } else {
      ClientPhase(m, a, i + 1, k - 1, t);
    }
    LeadsFirst(s, ClientTake, m, k, t);
  }

  // ---- whole rounds ----

  ghost predicate Ready(s: Indexed) {
    Inv(s) && s.phase.LoopHead? && s.status.Running? && s.data == [] && s.acks == []
  }

  /** The state after a loss-free round from s. */
  function RoundEnd(s: Indexed): Indexed {
    s.(first := s.first + WINDOW_SIZE, count := 0, expected := s.first + WINDOW_SIZE, read := -1)
  }

  /** The client has sent its window and listens. */
  function WindowSent(s: Indexed): Indexed {
    IndexedHead(s).(phase := Listening, data := Datas(s.first, WINDOW_SIZE))
  }

  /** The server has handled the window. */
  function WindowServed(s: Indexed): Indexed {
    WindowSent(s).(data := [], expected := s.first + WINDOW_SIZE, acks := AcksFor(s.expected, s.first, WINDOW_SIZE))
  }

  lemma SendHalf(s: Indexed)
    requires s.first >= 1 && s.phase.LoopHead? && s.data == [] && !Finished(s)
    ensures Leads(s, [ClientLocal(Head)] + Times(ClientSend, WINDOW_SIZE) + [ClientLocal(SentAll)], WindowSent(s))
  {
    var m := IndexedHead(s);
    var n := m.(phase := Sending(WINDOW_SIZE), data := Datas(s.first, WINDOW_SIZE));
    LeadsOne(s, ClientLocal(Head), m);
    assert m.data + Datas(s.first + 0, WINDOW_SIZE) == n.data;
    SendPhase(m, 0, WINDOW_SIZE, n);
    LeadsOne(n, ClientLocal(SentAll), WindowSent(s));
    LeadsThree(s, [ClientLocal(Head)], m, Times(ClientSend, WINDOW_SIZE), n, [ClientLocal(SentAll)], WindowSent(s));
  }

  lemma ServeHalf(s: Indexed)
    requires 1 <= s.first <= s.expected <= s.first + WINDOW_SIZE && s.status.Running? && s.acks == [] && !Finished(s)
    ensures Leads(WindowSent(s), Times(ServerTake, WINDOW_SIZE), WindowServed(s))
  {
    var t := WindowSent(s);
    assert t.acks + AcksFor(s.expected, s.first, WINDOW_SIZE) == WindowServed(s).acks;
    ServerPhase(t, s.first, WINDOW_SIZE, WindowServed(s));
  }

  lemma AckHalf(s: Indexed)
    requires 1 <= s.first <= s.expected <= s.first + WINDOW_SIZE && s.phase.LoopHead?
    requires s.data == [] && s.acks == [] && !Finished(s)
    ensures Leads(WindowServed(s), Times(ClientTake, WINDOW_SIZE) + [ClientLocal(Quiet)], RoundEnd(s))
  {
    var m := RoundEnd(s).(phase := Listening, read := HEADER_SIZE);
    ClientPhase(WindowServed(s), s.expected, s.first, WINDOW_SIZE, m);
    LeadsOne(m, ClientLocal(Quiet), RoundEnd(s));
    LeadsThrough(WindowServed(s), Times(ClientTake, WINDOW_SIZE), m, [ClientLocal(Quiet)], RoundEnd(s));
  }

  /** One loss-free round empties the window and moves the client and the server to first + 50. */
  lemma OneRound(s: Indexed)
    requires Ready(s) && !Finished(s)
    ensures Leads(s, RoundSteps(), RoundEnd(s)) && Ready(RoundEnd(s))
  {
    SendHalf(s);
    ServeHalf(s);
    AckHalf(s);
    var send := [ClientLocal(Head)] + Times(ClientSend, WINDOW_SIZE) + [ClientLocal(SentAll)];
    var ack := Times(ClientTake, WINDOW_SIZE) + [ClientLocal(Quiet)];
    LeadsThree(s, send, WindowSent(s), Times(ServerTake, WINDOW_SIZE), WindowServed(s), ack, RoundEnd(s));
  }

  /** Rounds that are needed for the bytes not yet acknowledged: the quotient rounded up. */
  function RoundsNeeded(bytes: int): nat {
    if bytes <= 0 then 0 else (bytes + WINDOW_SIZE * PAYLOAD_SIZE - 1) / (WINDOW_SIZE * PAYLOAD_SIZE)
  }

  function Missing(size: nat, first: nat): nat
    requires first >= 1
  {
    size - Covered(size, first - 1)
  }

  lemma RoundsNeededStep(size: nat, first: nat)
    requires first >= 1
    ensures RoundsNeeded(Missing(size, first)) == 0 <==> Missing(size, first) == 0
    ensures Missing(size, first) > 0 ==>
              RoundsNeeded(Missing(size, first)) == 1 + RoundsNeeded(Missing(size, first + WINDOW_SIZE))
  {
  }

  function AfterRounds(s: Indexed, k: nat): Indexed
    decreases k
  {
    if k == 0 then s else AfterRounds(RoundEnd(s), k - 1)
  }

  lemma {:induction false} ManyRounds(s: Indexed, k: nat)
    requires Ready(s) && k <= RoundsNeeded(Missing(|s.file|, s.first))
    ensures var t := AfterRounds(s, k);
            && Leads(s, RoundsSteps(k), t) && Ready(t) && t.file == s.file && (k > 0 ==> t.count == 0)
            && (Finished(t) <==> k == RoundsNeeded(Missing(|s.file|, s.first)))
    decreases k
  {
    RoundsNeededStep(|s.file|, s.first);
    if k == 0 {
      LeadsNone(s);
    } else {
      OneRound(s);
      ManyRounds(RoundEnd(s), k - 1);
      LeadsThrough(s, RoundSteps(), RoundEnd(s), RoundsSteps(k - 1), AfterRounds(s, k));
    }
  }

  /**
   From every reachable state with empty channels and a waiting server, k loss-free rounds can be
   run, and they finish the transfer exactly when k is ceil((size - written) / (50 * 2043)).
   */
  lemma ExactRounds(file: seq<byte>, s: Net, k: nat)
    requires Reachable(file, s)
    requires s.client.phase.LoopHead? && s.server.status.Running? && s.data == [] && s.acks == []
    requires k <= RoundsNeeded(|file| - s.client.vars.written)
    ensures CanRun(s, RoundsSteps(k))
    ensures var t := Run(s, RoundsSteps(k));
            && t.client.phase.LoopHead? && t.data == [] && t.acks == []
            && (k > 0 ==> t.client.vars.window == [])
            && (t.client.vars.written == |file| <==> k == RoundsNeeded(|file| - s.client.vars.written))
  {
    hide Leads, Reachable, RoundsNeeded, RoundsSteps, CanRun, Run;
    var x := ReachableIndices(file, s);
    ManyRounds(x, k);
    LeadsRuns(x, RoundsSteps(k), AfterRounds(x, k));
    RunCommutes(x, RoundsSteps(k));
  }

  /** After those rounds the closing exchange ends with the client done and the file kept. */
  lemma RoundsComplete(s: Indexed) returns (k: nat, t: Indexed)
    requires Ready(s)
    ensures k == RoundsNeeded(Missing(|s.file|, s.first))
    ensures Leads(s, RoundsSteps(k) + CLOSE_STEPS, t) && t.phase.Done? && t.status.Kept? && t.file == s.file
  {
    hide Leads, RoundsNeeded, Missing;
    k := RoundsNeeded(Missing(|s.file|, s.first));
    ManyRounds(s, k);
    var m := AfterRounds(s, k);
    t := m.(phase := Done, status := Receiver.Kept);
    ClosingLeads(m, t);
    LeadsThrough(s, RoundsSteps(k), m, CLOSE_STEPS, t);
  }

  /** So every such state can still be completed, in a number of rounds that is known exactly. */
  lemma TransferCompletes(file: seq<byte>, s: Net)
    requires Reachable(file, s)
    requires s.client.phase.LoopHead? && s.server.status.Running? && s.data == [] && s.acks == []
    ensures var steps := RoundsSteps(RoundsNeeded(|file| - s.client.vars.written)) + CLOSE_STEPS;
            && CanRun(s, steps)
            && Run(s, steps).client.phase.Done?
            && Run(s, steps).server.status.Kept?
            && Run(s, steps).server.data == file
  {
    hide Leads, Reachable, RoundsNeeded, RoundsSteps, CanRun, Run;
    var x := ReachableIndices(file, s);
    var k, t := RoundsComplete(x);
    var steps := RoundsSteps(k) + CLOSE_STEPS;
    LeadsRuns(x, steps, t);
    RunCommutes(x, steps);
    ImageDelivers(t);
  }

  lemma ClosingLeads(s: Indexed, t: Indexed)
    requires s.phase.LoopHead? && s.status.Running? && s.data == [] && s.acks == []
    requires Finished(s) && s.first <= s.expected && t == s.(phase := Done, status := Receiver.Kept)
    ensures Leads(s, CLOSE_STEPS, t)
  {
    hide Leads;
    var m := s.(phase := Closing);
    LeadsOne(s, ClientLocal(Head), m);
    FinExchange(m, t);
    LeadsThrough(s, [ClientLocal(Head)], m, FIN_STEPS, t);
  }

  lemma FinExchange(s: Indexed, t: Indexed)
    requires s.phase.Closing? && s.status.Running? && s.data == [] && s.acks == []
    requires Finished(s) && s.first <= s.expected && t == s.(phase := Done, status := Receiver.Kept)
    ensures Leads(s, FIN_STEPS, t)
  {
    hide Leads;
    var m := s.(data := [Fin]);
    var n := s.(status := Receiver.Kept, acks := [FinAck]);
    LeadsOne(s, ClientSend, m);
    LeadsOne(m, ServerTake, n);
    LeadsOne(n, ClientTake, t);
    LeadsThree(s, [ClientSend], m, [ServerTake], n, [ClientTake], t);
  }
}
