/**
 The networks include each other: every run over ordered channels is a run with ordered
 acknowledgements, and every such run is a run over any network.
 */
module Hierarchy {
  import opened Packets
  import opened Sender
  import opened AnyNetwork
  import opened OrderedAcks
  import Fifo = FifoNetwork
  import Receiver

  // ---- ordered channels are a special case ----

  /** The same programs and acknowledgements; whatever data is in flight there has been sent here. */
  ghost predicate Covers(s: Ordered, f: Fifo.Net) {
    && s.net.client == f.client && s.net.server == f.server && s.queue == f.acks
    && (forall i :: 0 <= i < |f.data| ==> f.data[i] in s.net.data)
    && (forall i :: 0 <= i < |f.acks| ==> f.acks[i] in s.net.acks)
  }

  lemma CoversFault(file: seq<byte>, s: Ordered, f: Fifo.Net, step: Fifo.Step) returns (t: Ordered)
    requires Occurs(file, s) && Covers(s, f) && Fifo.Enabled(f, step)
    requires step.LoseData? || step.RepeatData? || step.LoseAck? || step.RepeatAck?
    ensures Occurs(file, t) && Covers(t, Fifo.Apply(f, step))
  {
    hide Occurs, Fifo.Without, Fifo.Repeated;
    t := s;
    match step
    case LoseData(at) => Fifo.FaultMoves(f.data, at);
    case RepeatData(at) => Fifo.FaultMoves(f.data, at);
    case LoseAck(at) =>
      Fifo.FaultMoves(f.acks, at);
      t := Happen(s, LoseAck(at));
      FollowsBy(s, LoseAck(at), t);
      Continue(file, s, t);
    case RepeatAck(at) =>
      Fifo.FaultMoves(f.acks, at);
      t := Happen(s, RepeatAck(at));
      FollowsBy(s, RepeatAck(at), t);
      Continue(file, s, t);
  }

  lemma FollowsBy(s: Ordered, event: Event, t: Ordered)
    requires Possible(s, event) && t == Happen(s, event)
    ensures Follows(s, t)
  {
  }

  lemma CoversServe(file: seq<byte>, s: Ordered, f: Fifo.Net) returns (t: Ordered)
    requires Occurs(file, s) && Covers(s, f) && Fifo.Enabled(f, Fifo.ServerTake)
    ensures Occurs(file, t) && Covers(t, Fifo.ServerTakeStep(f))
  {
    hide Occurs, Receiver.Receive;
    t := ContinueBy(file, s, ServerTake(f.data[0]));
    var g := Fifo.ServerTakeStep(f);
    var replies := Receiver.Receive(f.server, f.data[0]).1;
    forall i | 0 <= i < |g.acks| ensures g.acks[i] in t.net.acks {
      if i >= |f.acks| {
        assert g.acks[i] == replies[i - |f.acks|];
      }
    }
  }

  lemma CoversStep(file: seq<byte>, s: Ordered, f: Fifo.Net, step: Fifo.Step) returns (t: Ordered)
    requires Occurs(file, s) && Covers(s, f) && Fifo.Enabled(f, step)
    ensures Occurs(file, t) && Covers(t, Fifo.Apply(f, step))
  {
    hide Occurs, Receiver.Receive, DoLocal, AfterTake;
    match step
    case ClientLocal(l) => t := ContinueBy(file, s, ClientLocal(l));
    case ClientSend => t := ContinueBy(file, s, ClientSend);
    case ClientTake => t := ContinueBy(file, s, ClientTake(f.acks[0]));
    case ServerTake => t := CoversServe(file, s, f);
    case ServerGiveUp => t := ContinueBy(file, s, ServerGiveUp);
    case LoseData(_) => t := CoversFault(file, s, f, step);
    case RepeatData(_) => t := CoversFault(file, s, f, step);
    case LoseAck(_) => t := CoversFault(file, s, f, step);
    case RepeatAck(_) => t := CoversFault(file, s, f, step);
  }

  lemma {:induction false} CoversRun(file: seq<byte>, s: Ordered, f: Fifo.Net, steps: seq<Fifo.Step>)
    returns (t: Ordered)
    requires Occurs(file, s) && Covers(s, f) && Fifo.CanRun(f, steps)
    ensures Occurs(file, t) && Covers(t, Fifo.Run(f, steps))
    decreases |steps|
  {
    hide Occurs, Covers, Fifo.Enabled, Fifo.Apply;
    if steps == [] {
      t := s;
    } else {
      var u := CoversStep(file, s, f, steps[0]);
      t := CoversRun(file, u, Fifo.Apply(f, steps[0]), steps[1..]);
    }
  }

  /**
   Every run over ordered channels is a run with ordered acknowledgements, and with it one over any
   network: same client, same server, same acknowledgements in flight.
   */
  lemma FifoOccurs(file: seq<byte>, f: Fifo.Net) returns (t: Ordered)
    requires Fifo.Reachable(file, f)
    ensures Occurs(file, t) && Covers(t, f) && Reachable(file, t.net)
  {
    hide Fifo.CanRun, Fifo.Run, Occurs, Reachable;
    var copies: nat, steps: seq<Fifo.Step> :|
      Fifo.CanRun(Fifo.Initial(file, copies), steps) && f == Fifo.Run(Fifo.Initial(file, copies), steps);
    var begin := Fifo.Initial(file, copies);
    var s := Ordered(Initial(file), begin.acks);
    OccursBegin(file, s);
    t := CoversRun(file, s, begin, steps);
    OccursReachable(file, t);
  }

  lemma {:induction false} HistoryReaches(file: seq<byte>, run: seq<Ordered>, m: nat)
    requires IsHistory(file, run) && m < |run|
    ensures Reachable(file, run[m].net)
  {
    if m == 0 {
      ReachInitial(file);
    } else {
      HistoryReaches(file, run, m - 1);
      assert FollowsAt(run, m - 1);
      var s, t := run[m - 1], run[m];
      var event :| Possible(s, event) && t == Happen(s, event);
      if event.Core? {
        assert Enabled(s.net, event.step) && t.net == Apply(s.net, event.step);
        ReachNext(file, s.net, t.net);
      }
    }
  }

  /** Every run with ordered acknowledgements is a run over any network. */
  lemma OccursReachable(file: seq<byte>, s: Ordered)
    requires Occurs(file, s)
    ensures Reachable(file, s.net)
  {
    var run :| IsHistory(file, run) && run[|run| - 1] == s;
    HistoryReaches(file, run, |run| - 1);
  }
}
