/**
 The client appears twice: as the data loop on a schedule of replies (`Session`, what the program
 computes) and as a process with control points (what the networks run). Here the two are joined:
 in every run of either network the client has done what the data loop does on the replies it took,
 grouped by listening phase.
 */
module ClientRuns {
  import opened Packets
  import opened Sender
  import Fifo = FifoNetwork
  import Any = AnyNetwork

  /** What the client does in a run. */
  datatype Event = Did(l: Local) | Sent | Took(reply: Packet)

  predicate Can(p: Process, event: Event) {
    match event
    case Did(l) => CanLocal(p, l)
    case Sent => CanSend(p)
    case Took(_) => CanTake(p)
  }

  function After(p: Process, event: Event): Process
    requires Can(p, event)
  {
    match event
    case Did(l) => DoLocal(p, l)
    case Sent => AfterSend(p)
    case Took(reply) => AfterTake(p, reply)
  }

  predicate CanAll(p: Process, events: seq<Event>)
    decreases |events|
  {
    events == [] || (Can(p, events[0]) && CanAll(After(p, events[0]), events[1..]))
  }

  function AfterAll(p: Process, events: seq<Event>): Process
    requires CanAll(p, events)
    decreases |events|
  {
    if events == [] then p else AfterAll(After(p, events[0]), events[1..])
  }

  /** The replies taken in each listening phase; the first group belongs to the current phase, if any. */
  function Groups(p: Process, events: seq<Event>): (rounds: seq<seq<Packet>>)
    requires CanAll(p, events)
    ensures p.phase.Listening? ==> rounds != []
    decreases |events|
  {
    if events == [] then
      if p.phase.Listening? then [[]] else []
    else
      var q := After(p, events[0]);
      var rest := Groups(q, events[1..]);
      if !p.phase.Listening? then rest
      else if events[0].Took? && q.phase.Listening? then [[events[0].reply] + rest[0]] + rest[1..]
      else if events[0].Took? then [[events[0].reply]] + rest
      else [[]] + rest
  }

  // ---- a process in the middle of the data loop ----

  function Finish(s: State, reaction: Reaction, rounds: seq<seq<Packet>>): (State, Result) {
    if reaction.ServerClosed? then (s, ClosedByServer) else Session(s, rounds)
  }

  /** How the data loop ends from a control point, on the replies still to come. */
  function Resume(p: Process, rounds: seq<seq<Packet>>): (State, Result) {
    match p.phase
    case LoopHead => Session(p.vars, rounds)
    case Sending(_) =>
      if rounds == [] then (p.vars, AckTimedOut)
      else var (s, reaction) := ReceiveAll(p.vars, rounds[0]); Finish(s, reaction, rounds[1..])
    case Listening =>
      if rounds == [] then (p.vars, AckTimedOut)
      else var (s, reaction) := ReceiveAll(p.vars, rounds[0]); Finish(s, reaction, rounds[1..])
    case Closing => (p.vars, AllWritten)
    case Done => (p.vars, AllWritten)
    case Failed(why) => (p.vars, why)
  }

  lemma TookStep(p: Process, reply: Packet, rounds: seq<seq<Packet>>)
    requires p.phase.Listening?
    ensures var q := AfterTake(p, reply);
            && (q.phase.Listening? && rounds != [] ==>
                  Resume(p, [[reply] + rounds[0]] + rounds[1..]) == Resume(q, rounds))
            && (!q.phase.Listening? ==> Resume(p, [[reply]] + rounds) == Resume(q, rounds))
  {
    var q := AfterTake(p, reply);
    var (t, reaction) := Handle(p.vars, HEADER_SIZE + |reply.payload|, reply);
    if q.phase.Listening? && rounds != [] {
      var group := [reply] + rounds[0];
      assert group[0] == reply && group[1..] == rounds[0];
      assert ReceiveAll(p.vars, group) == ReceiveAll(t, rounds[0]);
      assert ([group] + rounds[1..])[1..] == rounds[1..];
    } else if !q.phase.Listening? {
      assert ReceiveAll(p.vars, [reply]) == (t, reaction);
      assert ([[reply]] + rounds)[1..] == rounds;
    }
  }

  lemma DidStep(p: Process, l: Local, rounds: seq<seq<Packet>>)
    requires CanLocal(p, l) && (DoLocal(p, l).phase.Listening? ==> rounds != [])
    requires DoLocal(p, l).phase.Failed? ==> rounds == []
    ensures Resume(p, if p.phase.Listening? then [[]] + rounds else rounds) == Resume(DoLocal(p, l), rounds)
  {
    if p.phase.Listening? {
      assert ([[]] + rounds)[1..] == rounds;
    }
  }

  /** One event, and the groups it starts, leave the end of the loop unchanged. */
  lemma EventStep(p: Process, events: seq<Event>)
    requires CanAll(p, events) && events != []
    ensures Resume(p, Groups(p, events)) == Resume(After(p, events[0]), Groups(After(p, events[0]), events[1..]))
  {
    var q := After(p, events[0]);
    var rest := Groups(q, events[1..]);
    match events[0]
    case Did(l) => DidStep(p, l, rest);
    case Sent =>
    case Took(reply) =>
      if p.phase.Listening? {
        TookStep(p, reply, rest);
      }
  }

  ghost predicate Ended(p: Process) { p.phase.Closing? || p.phase.Done? || p.phase.Failed? }

  /** How the data loop ended, for a process that is past it. */
  function EndOf(p: Process): Result { if p.phase.Failed? then p.phase.why else AllWritten }

  lemma {:induction false} RunResumes(p: Process, events: seq<Event>)
    requires CanAll(p, events) && Ended(AfterAll(p, events))
    ensures Resume(p, Groups(p, events)) == (AfterAll(p, events).vars, EndOf(AfterAll(p, events)))
    decreases |events|
  {
    if events == [] {
    } else {
      EventStep(p, events);
      RunResumes(After(p, events[0]), events[1..]);
    }
  }

  /**
   Every run of the client process from its first loop head to the end of the data loop is the data
   loop on the replies it took, grouped by listening phase.
   */
  lemma ProcessIsSession(file: seq<byte>, events: seq<Event>)
    requires CanAll(Process(Start(file), LoopHead), events)
    requires Ended(AfterAll(Process(Start(file), LoopHead), events))
    ensures var p := Process(Start(file), LoopHead);
            Session(Start(file), Groups(p, events)) == (AfterAll(p, events).vars, EndOf(AfterAll(p, events)))
  {
    RunResumes(Process(Start(file), LoopHead), events);
  }

  /** The client's variables, and how its loop ended, are what the data loop computes from `rounds`. */
  ghost predicate IsSessionOn(file: seq<byte>, p: Process, rounds: seq<seq<Packet>>) {
    Session(Start(file), rounds) == (p.vars, EndOf(p))
  }

  // ---- the clients of the two networks ----

  function FifoEvents(s: Fifo.Net, steps: seq<Fifo.Step>): seq<Event>
    requires Fifo.CanRun(s, steps)
    decreases |steps|
  {
    if steps == [] then []
    else
      var rest := FifoEvents(Fifo.Apply(s, steps[0]), steps[1..]);
      match steps[0]
      case ClientLocal(l) => [Did(l)] + rest
      case ClientSend => [Sent] + rest
      case ClientTake => [Took(s.acks[0])] + rest
      case _ => rest
  }

  lemma {:induction false} FifoClientRuns(s: Fifo.Net, steps: seq<Fifo.Step>)
    requires Fifo.CanRun(s, steps)
    ensures CanAll(s.client, FifoEvents(s, steps))
    ensures AfterAll(s.client, FifoEvents(s, steps)) == Fifo.Run(s, steps).client
    decreases |steps|
  {
    if steps == [] {
    } else {
      var t := Fifo.Apply(s, steps[0]);
      FifoClientRuns(t, steps[1..]);
      var rest := FifoEvents(t, steps[1..]);
      match steps[0]
      case ClientLocal(l) => assert ([Did(l)] + rest)[1..] == rest;
      case ClientSend => assert ([Sent] + rest)[1..] == rest;
      case ClientTake => assert ([Took(s.acks[0])] + rest)[1..] == rest;
      case _ =>
    }
  }

  /** Over ordered channels, a client that has ended its loop has run the data loop on what it took. */
  lemma FifoClientIsSession(file: seq<byte>, copies: nat, steps: seq<Fifo.Step>)
    requires Fifo.CanRun(Fifo.Initial(file, copies), steps)
    requires Ended(Fifo.Run(Fifo.Initial(file, copies), steps).client)
    ensures var begin := Fifo.Initial(file, copies);
            var events := FifoEvents(begin, steps);
            && CanAll(begin.client, events)
            && IsSessionOn(file, Fifo.Run(begin, steps).client, Groups(begin.client, events))
  {
    var begin := Fifo.Initial(file, copies);
    FifoClientRuns(begin, steps);
    ProcessIsSession(file, FifoEvents(begin, steps));
  }

  lemma {:induction false} Appended(p: Process, events: seq<Event>, event: Event)
    requires CanAll(p, events) && Can(AfterAll(p, events), event)
    ensures CanAll(p, events + [event])
    ensures AfterAll(p, events + [event]) == After(AfterAll(p, events), event)
    decreases |events|
  {
    if events == [] {
      assert [event][1..] == [];
    } else {
      assert (events + [event])[1..] == events[1..] + [event];
      Appended(After(p, events[0]), events[1..], event);
    }
  }

  /** All replies that the events take are among `ps`. */
  ghost predicate TakenFrom(events: seq<Event>, ps: set<Packet>) {
    forall i :: 0 <= i < |events| && events[i].Took? ==> events[i].reply in ps
  }

  ghost predicate Within(rounds: seq<seq<Packet>>, ps: set<Packet>) {
    forall r, i :: 0 <= r < |rounds| && 0 <= i < |rounds[r]| ==> rounds[r][i] in ps
  }

  lemma {:induction false} GroupsWithin(p: Process, events: seq<Event>, ps: set<Packet>)
    requires CanAll(p, events) && TakenFrom(events, ps)
    ensures Within(Groups(p, events), ps)
    decreases |events|
  {
    if events != [] {
      GroupsWithin(After(p, events[0]), events[1..], ps);
    }
  }

  lemma {:induction false} AnyClientRuns(file: seq<byte>, run: seq<Any.Net>, m: nat) returns (events: seq<Event>)
    requires Any.IsRun(file, run) && m < |run|
    ensures CanAll(Process(Start(file), LoopHead), events) && TakenFrom(events, run[m].acks)
    ensures AfterAll(Process(Start(file), LoopHead), events) == run[m].client
  {
    if m == 0 {
      events := [];
    } else {
      events := AnyClientRuns(file, run, m - 1);
      assert Any.StepAt(run, m - 1);
      var s, t := run[m - 1], run[m];
      var step :| Any.Enabled(s, step) && t == Any.Apply(s, step);
      var event := if step.ClientLocal? then Did(step.l) else if step.ClientTake? then Took(step.reply) else Sent;
      if !step.ServerTake? && !step.ServerGiveUp? {
        Appended(Process(Start(file), LoopHead), events, event);
        events := events + [event];
      }
    }
  }

  /**
   Over any network, and with it over ordered acknowledgements, such a client has run the data loop
   on groups of replies that the server sent.
   */
  lemma AnyClientIsSession(file: seq<byte>, s: Any.Net) returns (rounds: seq<seq<Packet>>)
    requires Any.Reachable(file, s) && Ended(s.client)
    ensures IsSessionOn(file, s.client, rounds) && Within(rounds, s.acks)
  {
    var run :| Any.IsRun(file, run) && run[|run| - 1] == s;
    var events := AnyClientRuns(file, run, |run| - 1);
    ProcessIsSession(file, events);
    rounds := Groups(Process(Start(file), LoopHead), events);
    GroupsWithin(Process(Start(file), LoopHead), events, s.acks);
  }
}
