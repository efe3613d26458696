/**
 Which transfers can still succeed over ordered channels: a decision on the present state of client,
 server and network, proved for every reachable state.
 */
module Progress {
  import opened Packets
  import opened Chunks
  import opened Sender
  import opened FifoNetwork
  import opened Rounds
  import Receiver

  /** Neither side has given up, and a client that is done has left a FIN for a server that still waits. */
  predicate CanSucceed(s: Net) {
    && !s.client.phase.Failed? && !s.server.status.Removed?
    && (s.client.phase.Done? ==> s.server.status.Kept? || FIN in s.data)
  }

  ghost predicate Succeeded(file: seq<byte>, s: Net) {
    s.client.phase.Done? && s.server.status.Kept? && s.server.data == file
  }

  // ---- the same on indices ----

  predicate Hopeful(s: Indexed) {
    !s.phase.Failed? && !s.status.Removed? && (s.phase.Done? ==> s.status.Kept? || Fin in s.data)
  }

  predicate Complete(s: Indexed) { s.phase.Done? && s.status.Kept? }

  lemma HopefulImage(s: Indexed)
    requires Inv(s)
    ensures CanSucceed(Image(s)) <==> Hopeful(s)
  {
    var ps := PacketsOf(s.file, s.data);
    if Fin in s.data {
      var i :| 0 <= i < |s.data| && s.data[i] == Fin;
      assert ps[i] == FIN;
    }
    if FIN in ps {
      var i :| 0 <= i < |ps| && ps[i] == FIN;
      assert PacketOf(s.file, s.data[i]) == FIN;
      assert s.data[i] == Fin;
    }
  }

  lemma LeadsInv(s: Indexed, steps: seq<Step>, t: Indexed)
    requires Inv(s) && Leads(s, steps, t)
    ensures Inv(t) && t.file == s.file
  {
    hide Inv, Leads;
    LeadsRuns(s, steps, t);
    RunCommutes(s, steps);
  }

  // ---- what is lost stays lost ----

  lemma HopelessStep(s: Indexed, step: Step)
    requires !Hopeful(s) && IndexedEnabled(s, step)
    ensures !Hopeful(IndexedApply(s, step))
  {
  }

  lemma {:induction false} HopelessRun(s: Indexed, steps: seq<Step>)
    requires !Hopeful(s) && IndexedCanRun(s, steps)
    ensures !Hopeful(IndexedRun(s, steps))
    decreases |steps|
  {
    if steps == [] {
    } else {
      HopelessStep(s, steps[0]);
      HopelessRun(IndexedApply(s, steps[0]), steps[1..]);
    }
  }

  // ---- a way to the end ----

  /** The channel may lose the first k data packets. */
  lemma {:induction false} LoseSome(s: Indexed, k: nat)
    requires k <= |s.data|
    ensures Leads(s, Times(LoseData(0), k), s.(data := s.data[k..]))
    decreases k
  {
    hide Leads;
    if k == 0 {
      assert s == s.(data := s.data[0..]) && Times(LoseData(0), 0) == [];
      LeadsNone(s);
    } else {
      var m := s.(data := s.data[1..]);
      assert Without(s.data, 0) == s.data[1..];
      assert m.data[k - 1..] == s.data[k..];
      LoseSome(m, k - 1);
      LeadsFirst(s, LoseData(0), m, k, s.(data := s.data[k..]));
    }
  }

  lemma {:induction false} LoseReplies(s: Indexed)
    ensures Leads(s, Times(LoseAck(0), |s.acks|), s.(acks := []))
    decreases |s.acks|
  {
    hide Leads;
    if s.acks == [] {
      assert s == s.(acks := []) && Times(LoseAck(0), 0) == [];
      LeadsNone(s);
    } else {
      var m := s.(acks := s.acks[1..]);
      assert Without(s.acks, 0) == s.acks[1..];
      LoseReplies(m);
      LeadsFirst(s, LoseAck(0), m, |s.acks|, s.(acks := []));
    }
  }

  lemma LoseAll(s: Indexed) returns (steps: seq<Step>)
    ensures Leads(s, steps, s.(data := [], acks := []))
  {
    hide Leads;
    var m := s.(data := []);
    LoseSome(s, |s.data|);
    assert s.data[|s.data|..] == [];
    LoseReplies(m);
    steps := Times(LoseData(0), |s.data|) + Times(LoseAck(0), |s.acks|);
    LeadsThrough(s, Times(LoseData(0), |s.data|), m, Times(LoseAck(0), |s.acks|), s.(data := [], acks := []));
  }

  /** In the middle of the data loop: send what is left, hear nothing, and be at the loop head again. */
  lemma BackToHead(s: Indexed) returns (steps: seq<Step>, t: Indexed)
    requires Inv(s) && (s.phase.LoopHead? || s.phase.Sending? || s.phase.Listening?)
    ensures Leads(s, steps, t) && t.phase.LoopHead? && t.status == s.status
  {
    hide Leads, Inv;
    if s.phase.LoopHead? {
      steps, t := [], s;
      LeadsNone(s);
    } else if s.phase.Listening? {
      steps, t := [ClientLocal(Quiet)], s.(phase := LoopHead, read := -1);
      LeadsOne(s, ClientLocal(Quiet), t);
    } else {
      steps, t := FinishSending(s);
    }
  }

  lemma FinishSending(s: Indexed) returns (steps: seq<Step>, t: Indexed)
    requires Inv(s) && s.phase.Sending?
    ensures Leads(s, steps, t) && t.phase.LoopHead? && t.status == s.status
  {
    hide Leads;
    var n, k := s.phase.next, s.count - s.phase.next;
    var m := s.(phase := Sending(n + k), data := s.data + Datas(s.first + n, k));
    SendPhase(s, n, k, m);
    var u := m.(phase := Listening);
    t := u.(phase := LoopHead, read := -1);
    LeadsOne(m, ClientLocal(SentAll), u);
    LeadsOne(u, ClientLocal(Quiet), t);
    steps := Times(ClientSend, k) + [ClientLocal(SentAll)] + [ClientLocal(Quiet)];
    LeadsThree(s, Times(ClientSend, k), m, [ClientLocal(SentAll)], u, [ClientLocal(Quiet)], t);
  }

  lemma FromLoop(s: Indexed) returns (steps: seq<Step>, t: Indexed)
    requires Inv(s) && s.status.Running? && (s.phase.LoopHead? || s.phase.Sending? || s.phase.Listening?)
    ensures Leads(s, steps, t) && Complete(t)
  {
    hide Leads, Inv;
    var a, m := BackToHead(s);
    LeadsInv(s, a, m);
    var b := LoseAll(m);
    var n := m.(data := [], acks := []);
    LeadsInv(m, b, n);
    var k, end := RoundsComplete(n);
    var c := RoundsSteps(k) + CLOSE_STEPS;
    steps, t := a + b + c, end;
    LeadsThree(s, a, m, b, n, c, t);
  }

  /** While closing: lose everything, then one FIN and its FINACK. */
  lemma FromClosing(s: Indexed) returns (steps: seq<Step>, t: Indexed)
    requires Inv(s) && s.status.Running? && s.phase.Closing?
    ensures Leads(s, steps, t) && Complete(t)
  {
    hide Leads;
    var a := LoseAll(s);
    var m := s.(data := [], acks := []);
    t := m.(phase := Done, status := Receiver.Kept);
    FinExchange(m, t);
    steps := a + FIN_STEPS;
    LeadsThrough(s, a, m, FIN_STEPS, t);
  }

  /** The client is done, but a FIN of its is still under way. */
  lemma FromFin(s: Indexed) returns (steps: seq<Step>, t: Indexed)
    requires Inv(s) && s.status.Running? && s.phase.Done? && Fin in s.data
    ensures Leads(s, steps, t) && Complete(t)
  {
    hide Leads;
    var i :| 0 <= i < |s.data| && s.data[i] == Fin;
    var m := s.(data := s.data[i..]);
    LoseSome(s, i);
    t := IndexedServerTake(m);
    LeadsOne(m, ServerTake, t);
    steps := Times(LoseData(0), i) + [ServerTake];
    LeadsThrough(s, Times(LoseData(0), i), m, [ServerTake], t);
  }

  /** The server has kept the file; the client may stop at any time. */
  lemma FromKept(s: Indexed) returns (steps: seq<Step>, t: Indexed)
    requires Inv(s) && s.status.Kept?
    ensures Leads(s, steps, t) && Complete(t)
  {
    hide Leads;
    if s.phase.Done? {
      steps, t := [], s;
      LeadsNone(s);
    } else {
      steps, t := [ClientLocal(CloseTimeout)], s.(phase := Done);
      LeadsOne(s, ClientLocal(CloseTimeout), t);
    }
  }

  lemma WayToEnd(s: Indexed) returns (steps: seq<Step>, t: Indexed)
    requires Inv(s) && Hopeful(s)
    ensures Leads(s, steps, t) && Complete(t)
  {
    hide Leads, Inv;
    if s.status.Kept? {
      steps, t := FromKept(s);
    } else if s.phase.Done? {
      steps, t := FromFin(s);
    } else if s.phase.Closing? {
      steps, t := FromClosing(s);
    } else {
      steps, t := FromLoop(s);
    }
  }

  lemma SuccessFrom(file: seq<byte>, s: Net) returns (steps: seq<Step>)
    requires Reachable(file, s) && CanSucceed(s)
    ensures CanRun(s, steps) && Succeeded(file, Run(s, steps))
  {
    hide Reachable, Leads, CanSucceed;
    var x := ReachableIndices(file, s);
    HopefulImage(x);
    var way, t := WayToEnd(x);
    steps := way;
    LeadsRuns(x, steps, t);
    RunCommutes(x, steps);
    ImageDelivers(t);
  }

  lemma NoSuccessFrom(file: seq<byte>, s: Net, steps: seq<Step>)
    requires Reachable(file, s) && !CanSucceed(s) && CanRun(s, steps)
    ensures !Succeeded(file, Run(s, steps))
  {
    hide Reachable, CanSucceed;
    var x := ReachableIndices(file, s);
    HopefulImage(x);
    RunCommutes(x, steps);
    HopelessRun(x, steps);
  }

  /**
   In every reachable state, whatever has been lost or repeated so far: some continuation ends with
   the client done and the source kept by the server if and only if neither side has given up and a
   client that is done has its FIN accepted or still under way.
   */
  lemma SuccessExact(file: seq<byte>, s: Net)
    requires Reachable(file, s)
    ensures (exists steps :: CanRun(s, steps) && Succeeded(file, Run(s, steps))) <==> CanSucceed(s)
  {
    hide CanSucceed, Reachable;
    if CanSucceed(s) {
      var steps := SuccessFrom(file, s);
    } else {
      forall steps | CanRun(s, steps) ensures !Succeeded(file, Run(s, steps)) {
        NoSuccessFrom(file, s, steps);
      }
    }
  }
}
