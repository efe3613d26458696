/**
 What the end of a client says about the server. A client is done when it has got a FINACK, or when
 it has waited long enough for one; it fails when nothing is acknowledged for too long. Over both
 networks a client that did not run out of patience is done only when the server has kept the file.
 */
module Endings {
  import opened Packets
  import opened Chunks
  import opened Sender
  import opened KeptFiles
  import opened Rounds
  import Fifo = FifoNetwork
  import Any = AnyNetwork
  import Receiver

  // ---- ordered channels ----

  lemma DoneStep(s: Fifo.Indexed, step: Fifo.Step)
    requires Fifo.Inv(s) && Fifo.IndexedEnabled(s, step) && step != Fifo.ClientLocal(CloseTimeout)
    requires s.phase.Done? ==> s.status.Kept?
    ensures Fifo.IndexedApply(s, step).phase.Done? ==> Fifo.IndexedApply(s, step).status.Kept?
  {
    hide Covered, Fifo.DataInv, Fifo.AcksInv;
    if step.ClientTake? && s.phase.Closing? && s.acks[0].FinAck? {
      assert Fifo.FinAck in s.acks;
    }
  }

  lemma {:induction false} DoneRun(s: Fifo.Indexed, steps: seq<Fifo.Step>)
    requires Fifo.Inv(s) && Fifo.IndexedCanRun(s, steps) && Fifo.ClientLocal(CloseTimeout) !in steps
    requires s.phase.Done? ==> s.status.Kept?
    ensures Fifo.IndexedRun(s, steps).phase.Done? ==> Fifo.IndexedRun(s, steps).status.Kept?
    decreases |steps|
  {
    if steps == [] {
    } else {
      hide Fifo.Inv, Fifo.IndexedEnabled, Fifo.IndexedApply;
      Fifo.StepInv(s, steps[0]);
      DoneStep(s, steps[0]);
      DoneRun(Fifo.IndexedApply(s, steps[0]), steps[1..]);
    }
  }

  /** Over ordered channels a client that is done without a timeout has its file kept, and it is the source. */
  lemma FifoDoneIsKept(file: seq<byte>, copies: nat, steps: seq<Fifo.Step>)
    requires Fifo.CanRun(Fifo.Initial(file, copies), steps) && Fifo.ClientLocal(CloseTimeout) !in steps
    ensures var s := Fifo.Run(Fifo.Initial(file, copies), steps);
            s.client.phase.Done? ==> s.server.status.Kept? && s.server.data == file
  {
    hide Fifo.CanRun, Fifo.Run, Fifo.IndexedRun, Fifo.IndexedCanRun;
    var x := Fifo.InitialIndexed(file, copies);
    Fifo.InitialInv(file, copies);
    Fifo.InitialImage(file, copies);
    Fifo.RunCommutes(x, steps);
    DoneRun(x, steps);
    Fifo.ImageDelivers(Fifo.IndexedRun(x, steps));
  }

  /** What the indexed system can run to is reachable. */
  lemma LeadsReachable(file: seq<byte>, steps: seq<Fifo.Step>, t: Fifo.Indexed)
    requires Leads(Fifo.InitialIndexed(file, 0), steps, t)
    ensures Fifo.Inv(t) && Fifo.Reachable(file, Fifo.Image(t))
  {
    hide Leads, Fifo.CanRun, Fifo.Run, Fifo.IndexedRun, Fifo.IndexedCanRun, Fifo.Inv, Fifo.Image;
    var x := Fifo.InitialIndexed(file, 0);
    Fifo.InitialInv(file, 0);
    ImageOfInitial(file);
    LeadsRuns(x, steps, t);
    Fifo.RunCommutes(x, steps);
    ImageOfInv(t);
  }

  lemma ImageOfInitial(file: seq<byte>)
    ensures Fifo.InitialIndexed(file, 0).first >= 1 && Fifo.InitialIndexed(file, 0).expected >= 1
    ensures Fifo.Image(Fifo.InitialIndexed(file, 0)) == Fifo.Initial(file, 0)
  {
    Fifo.InitialImage(file, 0);
  }

  lemma ImageOfInv(s: Fifo.Indexed)
    requires Fifo.Inv(s)
    ensures s.first >= 1 && s.expected >= 1
  {
  }

  /** The timeout does happen: for every file the FIN may be lost and the client done while the server waits. */
  lemma DoneUnconfirmed(file: seq<byte>) returns (s: Fifo.Net)
    ensures Fifo.Reachable(file, s) && s.client.phase.Done? && s.server.status.Running? && s.data == []
  {
    hide Leads, RoundsNeeded, Missing, Fifo.Reachable;
    var x := Fifo.InitialIndexed(file, 0);
    Fifo.InitialInv(file, 0);
    var k := RoundsNeeded(Missing(|file|, 1));
    ManyRounds(x, k);
    var m := AfterRounds(x, k);
    var t := m.(phase := Done);
    var close := FinLost(m, t);
    LeadsThrough(x, RoundsSteps(k), m, close, t);
    LeadsReachable(file, RoundsSteps(k) + close, t);
    s := Fifo.Image(t);
  }

  lemma FinLost(s: Fifo.Indexed, t: Fifo.Indexed) returns (steps: seq<Fifo.Step>)
    requires s.phase.LoopHead? && s.data == [] && Fifo.Finished(s) && t == s.(phase := Done)
    ensures Leads(s, steps, t)
  {
    hide Leads, Covered;
    var m := s.(phase := Closing);
    var n := m.(data := [Fifo.Fin]);
    LeadsOne(s, Fifo.ClientLocal(Head), m);
    LeadsOne(m, Fifo.ClientSend, n);
    assert Fifo.Without(n.data, 0) == [];
    LeadsOne(n, Fifo.LoseData(0), m);
    LeadsOne(m, Fifo.ClientLocal(CloseTimeout), t);
    steps := [Fifo.ClientLocal(Head)] + [Fifo.ClientSend] + [Fifo.LoseData(0)];
    LeadsThree(s, [Fifo.ClientLocal(Head)], m, [Fifo.ClientSend], n, [Fifo.LoseData(0)], m);
    LeadsThrough(s, steps, m, [Fifo.ClientLocal(CloseTimeout)], t);
    steps := steps + [Fifo.ClientLocal(CloseTimeout)];
  }

  lemma FifoFails(file: seq<byte>) returns (s: Fifo.Net)
    requires file != []
    ensures Fifo.Reachable(file, s) && s.client.phase == Failed(AckTimedOut)
  {
    hide Leads, Fifo.Reachable;
    var x := Fifo.InitialIndexed(file, 0);
    var m := Fifo.IndexedHead(x);
    var n := m.(phase := Sending(WINDOW_SIZE), data := Datas(1, WINDOW_SIZE));
    var t := n.(phase := Failed(AckTimedOut));
    LeadsOne(x, Fifo.ClientLocal(Head), m);
    assert m.data + Datas(m.first + 0, WINDOW_SIZE) == n.data;
    SendPhase(m, 0, WINDOW_SIZE, n);
    LeadsOne(n, Fifo.ClientLocal(AckTimeout), t);
    var send := Times(Fifo.ClientSend, WINDOW_SIZE);
    LeadsThree(x, [Fifo.ClientLocal(Head)], m, send, n, [Fifo.ClientLocal(AckTimeout)], t);
    LeadsReachable(file, [Fifo.ClientLocal(Head)] + send + [Fifo.ClientLocal(AckTimeout)], t);
    s := Fifo.Image(t);
  }

  /** A client can fail for exactly the files that are not empty, and only because nothing was acknowledged. */
  lemma FifoFailureExact(file: seq<byte>)
    ensures (exists s :: Fifo.Reachable(file, s) && s.client.phase.Failed?) <==> file != []
    ensures forall s :: Fifo.Reachable(file, s) && s.client.phase.Failed? ==> s.client.phase.why.AckTimedOut?
  {
    hide Fifo.Reachable;
    forall s | Fifo.Reachable(file, s) && s.client.phase.Failed?
      ensures file != [] && s.client.phase.why.AckTimedOut?
    {
      var x := Fifo.ReachableIndices(file, s);
    }
    if file != [] {
      var s := FifoFails(file);
    }
  }

  // ---- what the ordered channels and the timers may do ----

  lemma {:induction false} RunOneMore(s: Fifo.Net, steps: seq<Fifo.Step>, step: Fifo.Step)
    requires Fifo.CanRun(s, steps) && Fifo.Enabled(Fifo.Run(s, steps), step)
    ensures Fifo.CanRun(s, steps + [step])
    ensures Fifo.Run(s, steps + [step]) == Fifo.Apply(Fifo.Run(s, steps), step)
    decreases |steps|
  {
    hide Fifo.Enabled, Fifo.Apply;
    if steps == [] {
      assert [step][1..] == [] && steps + [step] == [step];
    } else {
      assert (steps + [step])[1..] == steps[1..] + [step];
      RunOneMore(Fifo.Apply(s, steps[0]), steps[1..], step);
    }
  }

  lemma FifoReachNext(file: seq<byte>, s: Fifo.Net, step: Fifo.Step)
    requires Fifo.Reachable(file, s) && Fifo.Enabled(s, step)
    ensures Fifo.Reachable(file, Fifo.Apply(s, step))
  {
    hide Fifo.Enabled, Fifo.Apply, Fifo.CanRun, Fifo.Run;
    var copies: nat, steps: seq<Fifo.Step> :|
      Fifo.CanRun(Fifo.Initial(file, copies), steps) && s == Fifo.Run(Fifo.Initial(file, copies), steps);
    RunOneMore(Fifo.Initial(file, copies), steps, step);
  }

  /**
   The reachable states are closed under loss and repetition of any packet in flight, in either
   direction, and a server that waits may time out.
   */
  lemma FaultsReachable(file: seq<byte>, s: Fifo.Net, at: nat)
    requires Fifo.Reachable(file, s)
    ensures at < |s.data| ==>
              && Fifo.Reachable(file, s.(data := s.data[..at] + s.data[at + 1..]))
              && Fifo.Reachable(file, s.(data := s.data[..at] + [s.data[at], s.data[at]] + s.data[at + 1..]))
    ensures at < |s.acks| ==>
              && Fifo.Reachable(file, s.(acks := s.acks[..at] + s.acks[at + 1..]))
              && Fifo.Reachable(file, s.(acks := s.acks[..at] + [s.acks[at], s.acks[at]] + s.acks[at + 1..]))
    ensures s.server.status.Running? ==>
              Fifo.Reachable(file, s.(server := s.server.(status := Receiver.Removed(Receiver.TimedOut))))
  {
    hide Fifo.Reachable;
    if at < |s.data| {
      FifoReachNext(file, s, Fifo.LoseData(at));
      FifoReachNext(file, s, Fifo.RepeatData(at));
      assert Fifo.Repeated(s.data, at) == s.data[..at] + [s.data[at], s.data[at]] + s.data[at + 1..];
    }
    if at < |s.acks| {
      FifoReachNext(file, s, Fifo.LoseAck(at));
      FifoReachNext(file, s, Fifo.RepeatAck(at));
      assert Fifo.Repeated(s.acks, at) == s.acks[..at] + [s.acks[at], s.acks[at]] + s.acks[at + 1..];
    }
    if s.server.status.Running? {
      FifoReachNext(file, s, Fifo.ServerGiveUp);
    }
  }

  // ---- any network ----

  ghost predicate PatientAt(run: seq<Any.Net>, i: nat)
    requires i + 1 < |run|
  {
    exists step :: Any.Enabled(run[i], step) && step != Any.ClientLocal(CloseTimeout)
                   && run[i + 1] == Any.Apply(run[i], step)
  }

  /** A run in which the client never stops waiting for the FINACK. */
  ghost predicate PatientRun(file: seq<byte>, run: seq<Any.Net>) {
    Any.IsRun(file, run) && forall i :: 0 <= i < |run| - 1 ==> PatientAt(run, i)
  }

  /** The client is done, and not because of a timeout. */
  ghost predicate Confirmed(file: seq<byte>, s: Any.Net) {
    s.client.phase.Done? && exists run :: PatientRun(file, run) && run[|run| - 1] == s
  }

  lemma DoneByReply(file: seq<byte>, s: Any.Net, t: Any.Net, step: Any.Step, first: nat, e: nat)
    requires Any.Inv(file, s, first, e) && Any.Enabled(s, step) && step != Any.ClientLocal(CloseTimeout)
    requires t == Any.Apply(s, step) && (s.client.phase.Done? ==> s.server.status.Kept?)
    ensures t.client.phase.Done? ==> t.server.status.Kept?
  {
    hide Wrap, Covered, Any.ClientInv, Any.ServerInv, Refill, PopLoop;
  }

  lemma {:induction false} PatientDone(file: seq<byte>, run: seq<Any.Net>, m: nat)
    requires PatientRun(file, run) && m < |run|
    ensures run[m].client.phase.Done? ==> run[m].server.status.Kept?
  {
    if m > 0 {
      hide Any.Inv, Any.Enabled, Any.Apply;
      PatientDone(file, run, m - 1);
      var first, e := Any.RunInv(file, run, m - 1);
      assert PatientAt(run, m - 1);
      var step :| Any.Enabled(run[m - 1], step) && step != Any.ClientLocal(CloseTimeout)
                  && run[m] == Any.Apply(run[m - 1], step);
      DoneByReply(file, run[m - 1], run[m], step, first, e);
    }
  }

  /** Over any network a client that is done without a timeout has its file kept. */
  lemma ConfirmedIsKept(file: seq<byte>, s: Any.Net)
    requires Confirmed(file, s)
    ensures Any.Reachable(file, s) && s.server.status.Kept?
  {
    var run :| PatientRun(file, run) && run[|run| - 1] == s;
    PatientDone(file, run, |run| - 1);
  }

  lemma {:induction false} DoneStays(file: seq<byte>, run: seq<Any.Net>, i: nat, j: nat)
    requires Any.IsRun(file, run) && i <= j < |run| && run[i].client.phase.Done?
    ensures run[j].client.phase.Done?
    decreases j
  {
    if i < j {
      DoneStays(file, run, i, j - 1);
      assert Any.StepAt(run, j - 1);
    }
  }

  /** Whoever is still closing has been patient so far. */
  lemma NotDoneIsPatient(file: seq<byte>, run: seq<Any.Net>)
    requires Any.IsRun(file, run) && !run[|run| - 1].client.phase.Done?
    ensures PatientRun(file, run)
  {
    forall i | 0 <= i < |run| - 1 ensures PatientAt(run, i) {
      assert Any.StepAt(run, i);
      var step :| Any.Enabled(run[i], step) && run[i + 1] == Any.Apply(run[i], step);
      if step == Any.ClientLocal(CloseTimeout) {
        DoneStays(file, run, i + 1, |run| - 1);
      }
    }
  }

  lemma TakeFinAck(file: seq<byte>, s: Any.Net) returns (t: Any.Net)
    requires Any.Reachable(file, s) && s.client.phase.Closing? && FINACK in s.acks
    ensures Confirmed(file, t) && t.server == s.server
  {
    var run :| Any.IsRun(file, run) && run[|run| - 1] == s;
    NotDoneIsPatient(file, run);
    t := Any.ClientTakeStep(s, FINACK);
    var step := Any.ClientTake(FINACK);
    assert Any.Enabled(s, step) && t == Any.Apply(s, step);
    OneMorePatient(file, run, t, step);
  }

  lemma OneMorePatient(file: seq<byte>, run: seq<Any.Net>, t: Any.Net, step: Any.Step)
    requires PatientRun(file, run) && step != Any.ClientLocal(CloseTimeout)
    requires Any.Enabled(run[|run| - 1], step) && t == Any.Apply(run[|run| - 1], step)
    ensures PatientRun(file, run + [t])
  {
    hide Any.Enabled, Any.Apply;
    var longer := run + [t];
    forall i | 0 <= i < |longer| - 1 ensures Any.StepAt(longer, i) && PatientAt(longer, i) {
      if i < |run| - 1 {
        assert Any.StepAt(run, i) && PatientAt(run, i);
      } else {
        assert Any.Enabled(longer[i], step) && longer[i + 1] == Any.Apply(longer[i], step);
      }
    }
  }

  /**
   What a confirmed end is worth when packets may be repeated and reordered: for all files of a size
   and all runs the server has kept exactly the source, if and only if the size is at most
   65500 * 2043 bytes.
   */
  lemma ConfirmedExact(size: nat)
    ensures (forall file: seq<byte>, s :: |file| == size && Confirmed(file, s) ==>
               s.server.status.Kept? && s.server.data == file)
            <==> size <= KEPT_SIZE
  {
    hide Confirmed, Any.Reachable, Swapped;
    if size <= KEPT_SIZE {
      forall file: seq<byte>, s | |file| == size && Confirmed(file, s)
        ensures s.server.status.Kept? && s.server.data == file
      {
        ConfirmedIsKept(file, s);
        KeptIsSource(file, s);
      }
    } else {
      var file := MarkedFile(size);
      var s := KeptSwapped(file);
      MarkedIsNotSwapped(size);
      var t := TakeFinAck(file, s);
      assert t.server.data != file;
    }
  }

  lemma AnyFails(file: seq<byte>) returns (s: Any.Net)
    requires file != []
    ensures Any.Reachable(file, s) && s.client.phase == Failed(AckTimedOut)
  {
    hide Any.Reachable, Any.Leads;
    var start := Any.Initial(file);
    Any.ReachInitial(file);
    RefillTracks(start.client.vars, 1);
    Any.ReachLocal(file, start, Head);
    var u := Any.LocalStep(start, Head);
    var v := Any.SendRest(u);
    Any.ReachLeads(file, u, v);
    Any.ReachLocal(file, v, AckTimeout);
    s := Any.LocalStep(v, AckTimeout);
  }

  /** The same limit over any network. */
  lemma AnyFailureExact(file: seq<byte>)
    ensures (exists s :: Any.Reachable(file, s) && s.client.phase.Failed?) <==> file != []
    ensures forall s :: Any.Reachable(file, s) && s.client.phase.Failed? ==> s.client.phase.why.AckTimedOut?
  {
    hide Any.Reachable;
    forall s | Any.Reachable(file, s) && s.client.phase.Failed?
      ensures file != [] && s.client.phase.why.AckTimedOut?
    {
      var first, e := Any.ReachableInv(file, s);
    }
    if file != [] {
      var s := AnyFails(file);
    }
  }

  // ---- nothing is skipped ----

  /** The index after the last packet that must have been sent. */
  function SentBelow(s: Any.Net): int {
    if s.client.phase.Sending? then s.created + 1 - |s.client.vars.window| + s.client.phase.next else s.created + 1
  }

  ghost predicate SentInv(file: seq<byte>, s: Any.Net) {
    forall i :: 1 <= i < SentBelow(s) ==> DataPacket(file, i) in s.data
  }

  lemma SentLocal(file: seq<byte>, s: Any.Net, l: Local, first: nat)
    requires Any.ClientInv(file, s.client, s.created, first) && SentInv(file, s) && CanLocal(s.client, l)
    ensures SentInv(file, Any.LocalStep(s, l))
  {
    hide Wrap, Covered;
    var t := Any.LocalClient(file, s, first, l);
    if l.Head? {
      assert SentBelow(t) <= SentBelow(s);
    }
  }

  lemma SentSend(file: seq<byte>, s: Any.Net, first: nat)
    requires Any.ClientInv(file, s.client, s.created, first) && SentInv(file, s) && CanSend(s.client)
    ensures SentInv(file, Any.SendStep(s))
  {
    hide Wrap, Covered;
    if s.client.phase.Sending? {
      assert Outgoing(s.client) == DataPacket(file, first + s.client.phase.next);
    }
  }

  lemma SentStep(file: seq<byte>, s: Any.Net, step: Any.Step, first: nat)
    requires Any.ClientInv(file, s.client, s.created, first) && SentInv(file, s) && Any.Enabled(s, step)
    ensures SentInv(file, Any.Apply(s, step))
  {
    hide Wrap, Covered, Any.ClientInv, PopLoop;
    match step
    case ClientLocal(l) => SentLocal(file, s, l, first);
    case ClientSend => SentSend(file, s, first);
    case ClientTake(_) =>
    case ServerTake(_) =>
    case ServerGiveUp =>
  }

  lemma {:induction false} SentRun(file: seq<byte>, run: seq<Any.Net>, m: nat)
    requires Any.IsRun(file, run) && m < |run|
    ensures SentInv(file, run[m])
  {
    if m > 0 {
      hide Any.ClientInv, Any.Enabled, Any.Apply, SentInv;
      SentRun(file, run, m - 1);
      var first, e := Any.RunInv(file, run, m - 1);
      assert Any.StepAt(run, m - 1);
      var step :| Any.Enabled(run[m - 1], step) && run[m] == Any.Apply(run[m - 1], step);
      SentStep(file, run[m - 1], step, first);
    }
  }

  /** A client listens, gives up or leaves its loop only when every packet it made has been sent. */
  lemma EverythingSent(file: seq<byte>, s: Any.Net)
    requires Any.Reachable(file, s) && !s.client.phase.Sending?
    ensures forall i :: 1 <= i <= s.created ==> DataPacket(file, i) in s.data
  {
    var run :| Any.IsRun(file, run) && run[|run| - 1] == s;
    SentRun(file, run, |run| - 1);
  }
}
