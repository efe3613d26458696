/**
 The network of `AnyNetwork` with one restriction: acknowledgements keep their order (they may still
 be lost, or repeated in place), while data packets may be lost, repeated and reordered. The limit
 for "a finished client implies a complete server" then rises from one packet to 65486 * 2043 bytes,
 so it is the order of acknowledgements that the client depends on; no server is ever short, at any
 size, and kept files are the source up to the first full namesake (`OrderedLimits`).
 */
module OrderedAcks {
  import opened Packets
  import opened Chunks
  import opened Sender
  import opened AnyNetwork
  import Fifo = FifoNetwork
  import Receiver

  /** Where the server can first keep a file that differs from the source. */
  const ORDERED_SIZE: nat := 65537 * PAYLOAD_SIZE

  /** `queue` holds the acknowledgements in flight; `net.acks` still holds all that were ever sent. */
  datatype Ordered = Ordered(net: Net, queue: seq<Packet>)

  datatype Event = Core(step: Step) | LoseAck(at: nat) | RepeatAck(at: nat)

  /** Any number of copies of the ACK that confirms the request may still be queued. */
  ghost predicate Begins(file: seq<byte>, s: Ordered) {
    s.net == Initial(file) && forall i :: 0 <= i < |s.queue| ==> s.queue[i] == Ack(1)
  }

  predicate Possible(s: Ordered, event: Event) {
    match event
    case Core(step) => Enabled(s.net, step) && (step.ClientTake? ==> s.queue != [] && step.reply == s.queue[0])
    case LoseAck(at) => at < |s.queue|
    case RepeatAck(at) => at < |s.queue|
  }

  function QueueAfter(s: Ordered, step: Step): seq<Packet>
    requires Possible(s, Core(step))
  {
    match step
    case ClientTake(_) => s.queue[1..]
    case ServerTake(p) => s.queue + Receiver.Receive(s.net.server, p).1
    case _ => s.queue
  }

  function Happen(s: Ordered, event: Event): Ordered
    requires Possible(s, event)
  {
    match event
    case Core(step) => Ordered(Apply(s.net, step), QueueAfter(s, step))
    case LoseAck(at) => s.(queue := Fifo.Without(s.queue, at))
    case RepeatAck(at) => s.(queue := Fifo.Repeated(s.queue, at))
  }

  ghost predicate Follows(s: Ordered, t: Ordered) {
    exists event :: Possible(s, event) && t == Happen(s, event)
  }

  ghost predicate FollowsAt(run: seq<Ordered>, i: nat)
    requires i + 1 < |run|
  {
    Follows(run[i], run[i + 1])
  }

  ghost predicate IsHistory(file: seq<byte>, run: seq<Ordered>) {
    && |run| > 0 && Begins(file, run[0])
    && forall i :: 0 <= i < |run| - 1 ==> FollowsAt(run, i)
  }

  ghost predicate Occurs(file: seq<byte>, s: Ordered) {
    exists run :: IsHistory(file, run) && run[|run| - 1] == s
  }

  // ---- the invariant ----

  /** The acknowledgements in flight never decrease and lie between the client and the server. */
  ghost predicate QueueInv(queue: seq<Packet>, first: nat, e: nat, xs: seq<Fifo.Reply>) {
    first <= e && queue == Fifo.RepliesOf(xs) && Fifo.AcksInv(xs, first, e)
  }

  /** A server that has accepted e - 1 packets, whichever they were, holds at least the bytes of 1, ..., e - 1. */
  ghost predicate LengthInv(file: seq<byte>, server: Receiver.State, e: nat) {
    && e >= 1 && server.filesize == |file| && server.expected == Wrap(e)
    && server.read == |server.data| >= Covered(|file|, e - 1)
    && (server.status.Running? ==> server.read <= |file|)
    && (server.status.Kept? ==> server.read == |file|)
    && server.status != Receiver.Removed(Receiver.Incomplete)
  }

  /** The first namesake that the server can accept is packet 1, while it waits for packet 65537. */
  ghost predicate ContentInv(file: seq<byte>, server: Receiver.State, e: nat) {
    && (e <= 65537 ==> ServerAt(server, file, e))
    && (|file| < ORDERED_SIZE ==> server.status == Receiver.Removed(Receiver.Excess) || ServerAt(server, file, e))
  }

  ghost predicate OrderedInv(file: seq<byte>, s: Ordered, first: nat, e: nat, xs: seq<Fifo.Reply>) {
    && ClientInv(file, s.net.client, s.net.created, first)
    && (forall p :: p in s.net.data ==> IsDatum(file, p, s.net.created))
    && (FIN in s.net.data ==> HasLeft(s.net.client))
    && QueueInv(s.queue, first, e, xs)
    && LengthInv(file, s.net.server, e) && ContentInv(file, s.net.server, e)
    && (s.net.created <= 65535 ==> e <= s.net.created + 1)
  }

  lemma BeginInv(file: seq<byte>, s: Ordered) returns (xs: seq<Fifo.Reply>)
    requires Begins(file, s)
    ensures OrderedInv(file, s, 1, 1, xs)
  {
    xs := seq(|s.queue|, _ => Fifo.AckUpTo(1));
    assert Fifo.RepliesOf(xs) == s.queue;
  }

  lemma LocalOrdered(file: seq<byte>, s: Ordered, first: nat, e: nat, xs: seq<Fifo.Reply>, l: Local)
    requires OrderedInv(file, s, first, e, xs) && CanLocal(s.net.client, l)
    ensures OrderedInv(file, s.(net := LocalStep(s.net, l)), first, e, xs)
  {
    hide Wrap, Covered, ServerAt;
    var t := LocalClient(file, s.net, first, l);
    DatumsGrow(file, s.net.data, s.net.created, t.created);
  }

  lemma SendOrdered(file: seq<byte>, s: Ordered, first: nat, e: nat, xs: seq<Fifo.Reply>)
    requires OrderedInv(file, s, first, e, xs) && CanSend(s.net.client)
    ensures OrderedInv(file, s.(net := SendStep(s.net)), first, e, xs)
  {
    hide Wrap, Covered, ServerAt;
    OutgoingIsDatum(file, s.net, first);
  }

  lemma AckUpToIsAck(a: nat)
    ensures Fifo.ReplyOf(Fifo.AckUpTo(a)) == Ack(Wrap(a))
  {
  }

  /** An acknowledgement never moves the client beyond the index it acknowledges, however far that is. */
  lemma PoppedAtMost(first: nat, count: nat, a: nat)
    requires first <= a
    ensures Popped(count, Wrap(first), Wrap(a)) <= a - first
  {
    AheadIsModular(Wrap(first), Wrap(a));
  }

  lemma TakeAhead(file: seq<byte>, s: Net, first: nat, x: Fifo.Reply) returns (first': nat)
    requires ClientInv(file, s.client, s.created, first) && CanTake(s.client) && (x.AckUpTo? ==> first <= x.index)
    ensures var t := ClientTakeStep(s, Fifo.ReplyOf(x));
            && t == s.(client := t.client) && ClientInv(file, t.client, t.created, first')
            && (HasLeft(s.client) ==> HasLeft(t.client))
    ensures first <= first' && (if x.AckUpTo? then first' <= x.index else first' == first)
  {
    hide Wrap, Covered, Popped, Tracks;
    first' := first;
    if s.client.phase.Listening? && x.AckUpTo? {
      AckUpToIsAck(x.index);
      var k, u := AckAdvances(file, s, first, Wrap(x.index));
      PoppedAtMost(first, |s.client.vars.window|, x.index);
      first' := first + k;
    } else {
      OtherReply(file, s, first, Fifo.ReplyOf(x));
    }
  }

  /** The head of the queue moves the client no further than the rest of the queue. */
  lemma TakeOrdered(file: seq<byte>, s: Ordered, first: nat, e: nat, xs: seq<Fifo.Reply>)
    returns (first': nat, xs': seq<Fifo.Reply>)
    requires OrderedInv(file, s, first, e, xs) && CanTake(s.net.client) && s.queue != []
    ensures OrderedInv(file, Ordered(ClientTakeStep(s.net, s.queue[0]), s.queue[1..]), first', e, xs')
  {
    hide Wrap, Covered, ServerAt, ClientInv, Fifo.ReplyOf;
    first' := TakeAhead(file, s.net, first, xs[0]);
    xs' := xs[1..];
    assert s.queue[0] == Fifo.ReplyOf(xs[0]);
    assert s.queue[1..] == Fifo.RepliesOf(xs');
    assert forall i :: 0 <= i < |xs'| ==> xs'[i] == xs[i + 1];
  }

  /** Chunks never grow along the file. */
  lemma ChunksShrink(file: seq<byte>, i: nat, e: nat)
    requires 1 <= i <= e
    ensures |Chunk(file, i)| >= |Chunk(file, e)|
    ensures Covered(|file|, e) == Covered(|file|, e - 1) + |Chunk(file, e)|
  {
  }

  /** A namesake among the packets made is an earlier packet, at least 2^16 back. */
  lemma NamesakeIsOld(e: nat, i: nat)
    requires 1 <= i < e + WINDOW_SIZE && Wrap(i) == Wrap(e) && i != e
    ensures i + 65536 <= e
  {
  }

  lemma AcceptLength(file: seq<byte>, server: Receiver.State, e: nat, i: nat)
    requires LengthInv(file, server, e) && server.status.Running?
    requires 1 <= i < e + WINDOW_SIZE && Wrap(i) == Wrap(e)
    ensures var (t, replies) := Receiver.Receive(server, DataPacket(file, i));
            LengthInv(file, t, e + 1) && replies == [Ack(Wrap(e + 1))]
  {
    if i != e {
      NamesakeIsOld(e, i);
    }
    ChunksShrink(file, i, e);
    WrapNext(e);
  }

  /** Below the limit a namesake either brings too many bytes or none, to a file that is complete. */
  lemma AcceptNamesake(file: seq<byte>, server: Receiver.State, e: nat, i: nat)
    requires ServerAt(server, file, e) && server.status.Running? && |file| < ORDERED_SIZE
    requires 1 <= i && i + 65536 <= e && Wrap(i) == Wrap(e)
    ensures var t := Receiver.Receive(server, DataPacket(file, i)).0;
            t.status == Receiver.Removed(Receiver.Excess) || ServerAt(t, file, e + 1)
  {
    WrapNext(e);
    if Covered(|file|, e - 1) == |file| && Chunk(file, i) == [] {
      assert server.data + Chunk(file, i) == file[..Covered(|file|, e)];
    }
  }

  lemma AcceptContent(file: seq<byte>, server: Receiver.State, e: nat, i: nat)
    requires LengthInv(file, server, e) && ContentInv(file, server, e) && server.status.Running?
    requires 1 <= i < e + WINDOW_SIZE && Wrap(i) == Wrap(e)
    ensures ContentInv(file, Receiver.Receive(server, DataPacket(file, i)).0, e + 1)
    ensures e <= 65536 ==> i == e
  {
    hide Wrap, Covered, LengthInv;
    if i != e {
      NamesakeIsOld(e, i);
      if |file| < ORDERED_SIZE {
        AcceptNamesake(file, server, e, i);
      }
    } else if ServerAt(server, file, e) {
      ReceiveDatum(file, server, e, e);
    }
  }

  /** The server after a packet of the file; every such packet is answered with what it waits for then. */
  lemma ServeDatum(file: seq<byte>, server: Receiver.State, e: nat, i: nat) returns (e': nat)
    requires LengthInv(file, server, e) && ContentInv(file, server, e) && server.status.Running?
    requires 1 <= i < e + WINDOW_SIZE
    ensures var (t, replies) := Receiver.Receive(server, DataPacket(file, i));
            LengthInv(file, t, e') && ContentInv(file, t, e') && replies == [Ack(Wrap(e'))]
    ensures e' == e || (e' == e + 1 && (e <= 65536 ==> i == e))
  {
    hide Wrap, Covered, ServerAt, ContentInv;
    e' := e;
    if Wrap(i) == Wrap(e) {
      AcceptLength(file, server, e, i);
      AcceptContent(file, server, e, i);
      e' := e + 1;
    }
  }

  /** A client that has left its loop is not ahead of the server, so the server has at least everything. */
  lemma FinFindsAll(file: seq<byte>, s: Net, first: nat, e: nat)
    requires ClientInv(file, s.client, s.created, first) && LengthInv(file, s.server, e)
    requires first <= e && HasLeft(s.client)
    ensures s.server.read >= |file| && Covered(|file|, e - 1) == |file|
  {
  }

  lemma FinOrdered(file: seq<byte>, s: Net, first: nat, e: nat)
    requires ClientInv(file, s.client, s.created, first) && first <= e && HasLeft(s.client)
    requires LengthInv(file, s.server, e) && ContentInv(file, s.server, e) && s.server.status.Running?
    ensures var (t, replies) := Receiver.Receive(s.server, FIN);
            LengthInv(file, t, e) && ContentInv(file, t, e) && replies == [FINACK]
  {
    hide Wrap;
    FinFindsAll(file, s, first, e);
  }

  lemma AppendReply(queue: seq<Packet>, first: nat, e: nat, xs: seq<Fifo.Reply>, e': nat, x: Fifo.Reply)
    requires QueueInv(queue, first, e, xs) && e <= e' && (x == Fifo.FinAck || x == Fifo.AckUpTo(e'))
    ensures QueueInv(queue + [Fifo.ReplyOf(x)], first, e', xs + [x])
  {
    hide Fifo.ReplyOf;
    assert Fifo.RepliesOf(xs + [x]) == Fifo.RepliesOf(xs) + [Fifo.ReplyOf(x)];
  }

  lemma ServeOrdered(file: seq<byte>, s: Ordered, first: nat, e: nat, xs: seq<Fifo.Reply>, p: Packet)
    returns (e': nat, xs': seq<Fifo.Reply>)
    requires OrderedInv(file, s, first, e, xs) && s.net.server.status.Running? && p in s.net.data
    ensures OrderedInv(file, Ordered(ServerTakeStep(s.net, p), s.queue + Receiver.Receive(s.net.server, p).1),
                       first, e', xs')
  {
    hide Wrap, Covered, LengthInv, ContentInv, QueueInv;
    e' := e;
    var x := Fifo.FinAck;
    assert first <= e by { QueueBounds(s.queue, first, e, xs); }
    if p == FIN {
      FinOrdered(file, s.net, first, e);
    } else {
      var i :| 1 <= i <= s.net.created && p == DataPacket(file, i);
      e' := ServeDatum(file, s.net.server, e, i);
      x := Fifo.AckUpTo(e');
    }
    AppendReply(s.queue, first, e, xs, e', x);
    xs' := xs + [x];
  }

  lemma QueueBounds(queue: seq<Packet>, first: nat, e: nat, xs: seq<Fifo.Reply>)
    requires QueueInv(queue, first, e, xs)
    ensures first <= e
  {
  }

  lemma FaultOrdered(file: seq<byte>, s: Ordered, first: nat, e: nat, xs: seq<Fifo.Reply>, at: nat)
    requires OrderedInv(file, s, first, e, xs) && at < |s.queue|
    ensures OrderedInv(file, s.(queue := Fifo.Without(s.queue, at)), first, e, Fifo.Without(xs, at))
    ensures OrderedInv(file, s.(queue := Fifo.Repeated(s.queue, at)), first, e, Fifo.Repeated(xs, at))
  {
    Fifo.RepliesOfFault(xs, at);
    Fifo.AckFaultInv(xs, at, first, e);
  }

  lemma FollowsInv(file: seq<byte>, s: Ordered, t: Ordered, first: nat, e: nat, xs: seq<Fifo.Reply>)
    returns (first': nat, e': nat, xs': seq<Fifo.Reply>)
    requires OrderedInv(file, s, first, e, xs) && Follows(s, t)
    ensures OrderedInv(file, t, first', e', xs')
  {
    hide Wrap, Covered;
    var event :| Possible(s, event) && t == Happen(s, event);
    first', e', xs' := first, e, xs;
    match event
    case Core(ClientLocal(l)) => LocalOrdered(file, s, first, e, xs, l);
    case Core(ClientSend) => SendOrdered(file, s, first, e, xs);
    case Core(ClientTake(_)) => first', xs' := TakeOrdered(file, s, first, e, xs);
    case Core(ServerTake(p)) => e', xs' := ServeOrdered(file, s, first, e, xs, p);
    case Core(ServerGiveUp) =>
    case LoseAck(at) =>
      FaultOrdered(file, s, first, e, xs, at);
      xs' := Fifo.Without(xs, at);
    case RepeatAck(at) =>
      FaultOrdered(file, s, first, e, xs, at);
      xs' := Fifo.Repeated(xs, at);
  }

  lemma {:induction false} HistoryInv(file: seq<byte>, run: seq<Ordered>, m: nat)
    returns (first: nat, e: nat, xs: seq<Fifo.Reply>)
    requires IsHistory(file, run) && m < |run|
    ensures OrderedInv(file, run[m], first, e, xs)
  {
    if m == 0 {
      first, e := 1, 1;
      xs := BeginInv(file, run[0]);
    } else {
      first, e, xs := HistoryInv(file, run, m - 1);
      assert FollowsAt(run, m - 1);
      first, e, xs := FollowsInv(file, run[m - 1], run[m], first, e, xs);
    }
  }

  lemma OccursInv(file: seq<byte>, s: Ordered) returns (first: nat, e: nat, xs: seq<Fifo.Reply>)
    requires Occurs(file, s)
    ensures OrderedInv(file, s, first, e, xs)
  {
    var run :| IsHistory(file, run) && run[|run| - 1] == s;
    first, e, xs := HistoryInv(file, run, |run| - 1);
  }

  // ---- building runs ----

  lemma OccursBegin(file: seq<byte>, s: Ordered)
    requires Begins(file, s)
    ensures Occurs(file, s)
  {
    var run := [s];
    assert IsHistory(file, run) && run[|run| - 1] == s;
  }

  lemma Continue(file: seq<byte>, s: Ordered, t: Ordered)
    requires Occurs(file, s) && Follows(s, t)
    ensures Occurs(file, t)
  {
    var run :| IsHistory(file, run) && run[|run| - 1] == s;
    var longer := run + [t];
    forall i | 0 <= i < |longer| - 1 ensures FollowsAt(longer, i) {
      if i < |run| - 1 {
        assert FollowsAt(run, i);
      }
    }
    assert longer[0] == run[0];
    assert IsHistory(file, longer) && longer[|longer| - 1] == t;
  }

  lemma ContinueBy(file: seq<byte>, s: Ordered, step: Step) returns (t: Ordered)
    requires Occurs(file, s) && Possible(s, Core(step))
    ensures Occurs(file, t) && t == Ordered(Apply(s.net, step), QueueAfter(s, step))
  {
    t := Happen(s, Core(step));
    Continue(file, s, t);
  }

  /** A path on which the client takes no reply is possible here too, whatever becomes of the replies. */
  lemma {:induction false} ContinuePath(file: seq<byte>, s: Ordered, path: seq<Net>, m: nat) returns (t: Ordered)
    requires Occurs(file, s) && IsPath(path) && path[0] == s.net && m < |path|
    ensures Occurs(file, t) && t.net == path[m]
  {
    hide Occurs;
    if m == 0 {
      t := s;
    } else {
      var u := ContinuePath(file, s, path, m - 1);
      assert MovesAt(path, m - 1);
      var step :| Enabled(u.net, step) && !step.ClientTake? && path[m] == Apply(u.net, step);
      t := ContinueBy(file, u, step);
    }
  }

  lemma {:induction false} LoseAll(file: seq<byte>, s: Ordered)
    requires Occurs(file, s)
    ensures Occurs(file, s.(queue := []))
    decreases |s.queue|
  {
    if s.queue == [] {
      assert s == s.(queue := []);
    } else {
      var t := Happen(s, LoseAck(0));
      Continue(file, s, t);
      LoseAll(file, t);
    }
  }

  lemma Unheard(file: seq<byte>, s: Ordered, n: Net) returns (t: Ordered)
    requires Occurs(file, s) && Leads(s.net, n)
    ensures Occurs(file, t) && t == Ordered(n, [])
  {
    var path :| IsPath(path) && path[0] == s.net && path[|path| - 1] == n;
    t := ContinuePath(file, s, path, |path| - 1);
    LoseAll(file, t);
    t := t.(queue := []);
  }
}
