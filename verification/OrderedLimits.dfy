/**
 What ordered acknowledgements guarantee, and runs in which client and server move in step while the
 server is fed with packets of the right numbers. Together they give exact limits: for a finished
 client, and for a kept file.
 */
module OrderedLimits {
  import opened Packets
  import opened Chunks
  import opened Sender
  import opened AnyNetwork
  import opened OrderedAcks
  import Hierarchy
  import Receiver

  // ---- guarantees ----

  /**
   With ordered acknowledgements no server is ever short, whatever the file size: a finished client
   implies that at least as many bytes as the file has were written, and no FIN comes too early.
   */
  lemma NeverShort(file: seq<byte>, s: Ordered)
    requires Occurs(file, s)
    ensures HasLeft(s.net.client) ==> |s.net.server.data| >= |file|
    ensures (HasLeft(s.net.client) && s.net.server.status.Running?) || s.net.server.status.Kept? ==>
              |s.net.server.data| == |file|
    ensures s.net.server.status != Receiver.Removed(Receiver.Incomplete)
  {
    var first, e, xs := OccursInv(file, s);
    if HasLeft(s.net.client) {
      FinFindsAll(file, s.net, first, e);
    }
  }

  /**
   With at most 65535 packets made, everything that ordered channels guarantee still holds: a prefix
   always, the source once the client has left its loop, no removal for excess data, and a kept file
   is the source.
   */
  lemma OrderedDelivery(file: seq<byte>, s: Ordered)
    requires Occurs(file, s) && s.net.created <= 65535
    ensures s.net.server.data <= file
    ensures HasLeft(s.net.client) || s.net.server.status.Kept? ==> s.net.server.data == file
    ensures s.net.server.status.Removed? ==> s.net.server.status.reason.TimedOut?
  {
    var first, e, xs := OccursInv(file, s);
    if HasLeft(s.net.client) {
      FinFindsAll(file, s.net, first, e);
    }
  }

  /** Below the limit a kept file is the source. */
  lemma OrderedKept(file: seq<byte>, s: Ordered)
    requires |file| < ORDERED_SIZE && Occurs(file, s) && s.net.server.status.Kept?
    ensures s.net.server.data == file
  {
    var first, e, xs := OccursInv(file, s);
  }

  // ---- client and server in step, the server perhaps fed with a namesake ----

  /**
   `all` is cut like the file, and each of its chunks comes in a packet with the right number: the
   file's own chunk, or chunk 1 in the place of chunk 65537.
   */
  ghost predicate Offered(file: seq<byte>, all: seq<byte>) {
    |all| == |file| && forall e :: e >= 1 ==> OfferedAt(file, all, e)
  }

  ghost predicate OfferedAt(file: seq<byte>, all: seq<byte>, e: nat)
    requires e >= 1
  {
    Chunk(all, e) == Chunk(file, e) || (e == 65537 && Chunk(all, e) == Chunk(file, 1))
  }

  /** The client listens with a full window from `first`; the server waits for it with that much of `all`. */
  ghost predicate InStep(file: seq<byte>, s: Ordered, first: nat, all: seq<byte>) {
    && Occurs(file, s) && s.queue == [] && Awaits(file, s.net, first) && Offered(file, all)
    && s.net.server == Waiting(file, first, all[..Covered(|file|, first - 1)])
  }

  lemma AcceptChunk(file: seq<byte>, all: seq<byte>, e: nat, p: Packet)
    requires Offered(file, all) && e >= 1 && p == Packet(CMD_DATA, Wrap(e), Chunk(all, e))
    ensures Receiver.Receive(Waiting(file, e, all[..Covered(|file|, e - 1)]), p)
            == (Waiting(file, e + 1, all[..Covered(|file|, e)]), [Ack(Wrap(e + 1))])
  {
    WrapNext(e);
    assert all[..Covered(|file|, e - 1)] + Chunk(all, e) == all[..Covered(|file|, e)];
  }

  lemma OfferedPacket(file: seq<byte>, all: seq<byte>, e: nat) returns (i: nat)
    requires Offered(file, all) && e >= 1
    ensures 1 <= i <= e && DataPacket(file, i) == Packet(CMD_DATA, Wrap(e), Chunk(all, e))
  {
    assert OfferedAt(file, all, e);
    i := if Chunk(all, e) == Chunk(file, e) then e else 1;
  }

  lemma ServeNext(file: seq<byte>, s: Ordered, first: nat, all: seq<byte>) returns (t: Ordered)
    requires InStep(file, s, first, all) && first >= 1
    ensures Occurs(file, t) && t.queue == [Ack(Wrap(first + 1))] && Ack(Wrap(first + 1)) in t.net.acks
    ensures t.net == s.net.(server := t.net.server, acks := t.net.acks)
    ensures t.net.server == Waiting(file, first + 1, all[..Covered(|file|, first)])
  {
    hide Occurs, Wrap, Covered, ClientInv, Chunk;
    var i := OfferedPacket(file, all, first);
    var p := DataPacket(file, i);
    AcceptChunk(file, all, first, p);
    t := ContinueBy(file, s, ServerTake(p));
  }

  lemma TakeNext(file: seq<byte>, s: Ordered, first: nat) returns (t: Ordered)
    requires Occurs(file, s) && s.queue == [Ack(Wrap(first + 1))] && Ack(Wrap(first + 1)) in s.net.acks
    requires Awaits(file, s.net, first)
    ensures Occurs(file, t) && t.queue == [] && t.net == s.net.(client := t.net.client)
    ensures ClientInv(file, t.net.client, t.net.created, first + 1) && t.net.client.phase.Listening?
    ensures |t.net.client.vars.window| == WINDOW_SIZE - 1
  {
    hide Occurs, Wrap, Covered, Popped, Tracks;
    NextAck(first);
    var k, w := AckAdvances(file, s.net, first, Wrap(first + 1));
    t := ContinueBy(file, s, ClientTake(Ack(Wrap(first + 1))));
    assert t.net == w;
  }

  /** The server accepts one packet and the client takes its acknowledgement: back at the loop head. */
  lemma ServeOne(file: seq<byte>, s: Ordered, first: nat, all: seq<byte>) returns (t: Ordered)
    requires InStep(file, s, first, all) && first >= 1
    ensures Occurs(file, t) && t.queue == [] && t.net.data == s.net.data
    ensures ClientInv(file, t.net.client, t.net.created, first + 1) && t.net.client.phase.LoopHead?
    ensures |t.net.client.vars.window| == WINDOW_SIZE - 1
    ensures t.net.server == Waiting(file, first + 1, all[..Covered(|file|, first)])
  {
    hide Occurs, Wrap, Covered, Leads, Tracks, Offered;
    var u := ServeNext(file, s, first, all);
    var v := TakeNext(file, u, first);
    QuietMoves(file, v.net, first + 1);
    t := ContinueBy(file, v, ClientLocal(Quiet));
  }

  lemma OneStep(file: seq<byte>, s: Ordered, first: nat, all: seq<byte>) returns (t: Ordered)
    requires InStep(file, s, first, all) && 1 <= first && first * PAYLOAD_SIZE < |file|
    ensures InStep(file, t, first + 1, all)
  {
    hide Occurs, Wrap, Leads, Offered;
    var u := ServeOne(file, s, first, all);
    var n := Transmission(file, u.net, first + 1);
    t := Unheard(file, u, n);
  }

  /** The client has left its loop, everything it made is in the network, and the server holds `all`. */
  ghost predicate Over(file: seq<byte>, s: Ordered, all: seq<byte>) {
    && Occurs(file, s) && s.queue == [] && s.net.client.phase.Closing?
    && s.net.server.status.Running? && s.net.server.filesize == |file| == s.net.server.read
    && s.net.server.data == all && |all| == |file|
    && (forall i :: 1 <= i && (i - WINDOW_SIZE) * PAYLOAD_SIZE < |file| ==> DataPacket(file, i) in s.net.data)
  }

  lemma LastStep(file: seq<byte>, s: Ordered, first: nat, all: seq<byte>) returns (t: Ordered)
    requires InStep(file, s, first, all) && 1 <= first && first * PAYLOAD_SIZE >= |file|
    ensures Over(file, t, all)
  {
    hide Occurs, Wrap;
    var u := ServeOne(file, s, first, all);
    t := ContinueBy(file, u, ClientLocal(Head));
    assert all[..Covered(|file|, first)] == all;
  }

  /** In step to the end of the file. */
  lemma {:induction false} StepToEnd(file: seq<byte>, s: Ordered, first: nat, all: seq<byte>) returns (t: Ordered)
    requires InStep(file, s, first, all) && first >= 1
    ensures Over(file, t, all)
    decreases |file| - first
  {
    hide InStep, Over;
    if first * PAYLOAD_SIZE < |file| {
      var u := OneStep(file, s, first, all);
      t := StepToEnd(file, u, first + 1, all);
    } else {
      t := LastStep(file, s, first, all);
    }
  }

  /** For everything that can be offered there is a run that ends with it. */
  lemma Offers(file: seq<byte>, all: seq<byte>) returns (t: Ordered)
    requires |file| > 0 && Offered(file, all)
    ensures Over(file, t, all)
  {
    var s := Ordered(Initial(file), []);
    OccursBegin(file, s);
    var n := Transmission(file, s.net, 1);
    s := Unheard(file, s, n);
    assert all[..Covered(|file|, 0)] == [];
    t := StepToEnd(file, s, 1, all);
  }

  lemma OffersItself(file: seq<byte>)
    ensures Offered(file, file)
  {
  }

  /** Beyond the limit of the prefix property, a finished client can meet a server with too many bytes. */
  lemma TooMuch(file: seq<byte>) returns (t: Ordered)
    requires |file| > SAFE_SIZE
    ensures Occurs(file, t) && HasLeft(t.net.client) && |t.net.server.data| > |file|
  {
    assert Offered(file, file) by { OffersItself(file); }
    var s := Offers(file, file);
    var n := Overrun(file, s.net);
    t := Unheard(file, s, n);
  }

  /**
   When acknowledgements are ordered and data is not, "the client has finished, so the server has
   everything" holds for exactly the files of at most 65486 * 2043 bytes.
   */
  lemma OrderedExact(file: seq<byte>)
    ensures (forall s :: Occurs(file, s) && HasLeft(s.net.client) ==> s.net.server.data == file)
            <==> |file| <= SAFE_SIZE
  {
    if |file| <= SAFE_SIZE {
      forall s | Occurs(file, s) && HasLeft(s.net.client) ensures s.net.server.data == file {
        Hierarchy.OccursReachable(file, s);
        CreatedBound(file, s.net);
        OrderedDelivery(file, s);
      }
    } else {
      var s := TooMuch(file);
    }
  }

  // ---- kept files ----

  /** The file with chunk 1 in the place of chunk 65537. */
  function Replaced(file: seq<byte>): (all: seq<byte>)
    requires |file| >= ORDERED_SIZE
    ensures |all| == |file|
  {
    file[..65536 * PAYLOAD_SIZE] + file[..PAYLOAD_SIZE] + file[ORDERED_SIZE..]
  }

  lemma ReplacedOffered(file: seq<byte>)
    requires |file| >= ORDERED_SIZE
    ensures Offered(file, Replaced(file))
  {
    forall e | e >= 1 ensures OfferedAt(file, Replaced(file), e) {
      ReplacedChunk(file, e);
    }
  }

  lemma ReplacedChunk(file: seq<byte>, e: nat)
    requires |file| >= ORDERED_SIZE && e >= 1
    ensures Chunk(Replaced(file), e) == if e == 65537 then Chunk(file, 1) else Chunk(file, e)
  {
    var all := Replaced(file);
    if e < 65537 {
      assert Covered(|file|, e) <= 65536 * PAYLOAD_SIZE;
    } else if e > 65537 {
      assert Covered(|file|, e - 1) >= ORDERED_SIZE;
    }
  }

  /** For every file of at least 65537 chunks the server may keep it with chunk 1 instead of chunk 65537. */
  lemma KeptReplaced(file: seq<byte>) returns (t: Ordered)
    requires |file| >= ORDERED_SIZE
    ensures Occurs(file, t) && t.net.server.status.Kept? && HasLeft(t.net.client)
    ensures t.net.server.data == Replaced(file)
  {
    ReplacedOffered(file);
    var s := Offers(file, Replaced(file));
    s := ContinueBy(file, s, ClientSend);
    t := ContinueBy(file, s, ServerTake(FIN));
  }

  /** Zeros, except for the first byte. */
  function FirstByteMarked(size: nat): (file: seq<byte>)
    ensures |file| == size && forall i :: 0 <= i < size ==> file[i] == if i == 0 then 1 else 0
  {
    seq(size, i => if i == 0 then 1 else 0)
  }

  /**
   With ordered acknowledgements, "a kept file is the source" holds for all files of a size and all
   runs exactly below 65537 * 2043 bytes.
   */
  lemma OrderedKeptExact(size: nat)
    ensures (forall file: seq<byte>, s :: |file| == size && Occurs(file, s) && s.net.server.status.Kept? ==>
               s.net.server.data == file)
            <==> size < ORDERED_SIZE
  {
    if size < ORDERED_SIZE {
      forall file: seq<byte>, s | |file| == size && Occurs(file, s) && s.net.server.status.Kept?
        ensures s.net.server.data == file
      {
        OrderedKept(file, s);
      }
    } else {
      var file := FirstByteMarked(size);
      var s := KeptReplaced(file);
      assert Replaced(file)[65536 * PAYLOAD_SIZE] == 1;
    }
  }
}
