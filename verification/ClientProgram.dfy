/**
 The client's `copy_file` as the imperative program it is: locals updated in nested loops and a
 linked list of packets. Each method is proved to compute the function of module Sender.
 */
module ClientProgram {
  import opened Packets
  import opened Chunks
  import opened LinkedQueue
  import Sender

  /** Packet i of the log is chunk i of the file, and the window is the end of the log. */
  ghost predicate Logged(vars: Sender.State, log: seq<Packet>) {
    && |vars.window| <= |log| && vars.written <= |vars.file|
    && CutFrom(vars.file, log, 1)
    && Sender.Tracks(vars, 1 + |log| - |vars.window|)
  }

  /** So the payloads of the first k packets ever made join to the first min(k * 2043, size) bytes. */
  lemma LogIsFilePrefix(vars: Sender.State, log: seq<Packet>, k: nat)
    requires Logged(vars, log) && k <= |log|
    ensures Bytes(log[..k]) == vars.file[..Min(k * PAYLOAD_SIZE, |vars.file|)]
  {
    assert log[..k] == DataPackets(vars.file, 1, k);
    FirstPacketsBytes(vars.file, k);
  }

  lemma LogExtends(vars: Sender.State, t: Sender.State, log: seq<Packet>)
    requires Logged(vars, log) && vars.window <= t.window && t.file == vars.file
    requires Sender.Tracks(t, 1 + |log| - |vars.window|)
    ensures Logged(t, log + t.window[|vars.window|..])
  {
    hide Wrap, Covered;
    var n := |vars.window|;
    var longer := log + t.window[n..];
    forall i | 0 <= i < |longer| ensures longer[i] == DataPacket(t.file, 1 + i) {
      if i >= |log| {
        assert longer[i] == t.window[i - |log| + n];
      }
    }
  }

  lemma RefillLogged(vars: Sender.State, log: seq<Packet>)
    requires Logged(vars, log) && Sender.Refillable(vars)
    ensures vars.window <= Sender.Refill(vars).window && vars.written == Sender.Refill(vars).written
    ensures Logged(Sender.Refill(vars), log + Sender.Refill(vars).window[|vars.window|..])
  {
    Sender.RefillTracks(vars, 1 + |log| - |vars.window|);
    LogExtends(vars, Sender.Refill(vars), log);
  }

  class Client {
    const file: seq<byte>
    const packets: List<Packet>
    var written: int
    var read: int
    var offset: nat
    var number: u16
    ghost var created: seq<Packet>  // every data packet made so far

    ghost function Vars(): Sender.State
      reads this, packets
    {
      Sender.State(file, written, read, offset, number, packets.contents)
    }

    ghost predicate Valid()
      reads this, packets, packets.nodes
    {
      packets.Valid() && Logged(Vars(), created)
    }

    constructor (file: seq<byte>)
      ensures AtHead() && this.file == file && Vars() == Sender.Start(file) && created == []
      ensures fresh(packets) && fresh(packets.nodes)
    {
      this.file := file;
      packets := new List<Packet>();
      written, read, offset, number := 0, 0, 0, 1;
      created := [];
    }

    /** One pass of the refill loop: read a chunk and append its packet. */
    method AppendChunk()
      requires packets.Valid() && Sender.Refillable(Vars())
      modifies this, packets, packets.nodes
      ensures packets.Valid() && Vars() == Sender.AppendChunk(old(Vars()))
      ensures created == old(created) + [packets.contents[packets.size - 1]]
      ensures fresh(packets.nodes - old(packets.nodes))
    {
      var remaining := if |file| - read < PAYLOAD_SIZE then |file| - read else PAYLOAD_SIZE;
      var chunk := Sender.FRead(file, offset, remaining);
      packets.Add(Packet(CMD_DATA, number, chunk));
      number := Wrap(number + 1);
      offset := offset + |chunk|;
      read := read + |chunk|;
      created := created + [Packet(CMD_DATA, old(number), chunk)];
    }

    /** The refill loop. */
    method FillWindow()
      requires packets.Valid() && Sender.Refillable(Vars())
      modifies this, packets, packets.nodes
      ensures packets.Valid() && Vars() == Sender.Refill(old(Vars()))
      ensures |old(packets.contents)| <= |packets.contents|
      ensures created == old(created) + packets.contents[|old(packets.contents)|..]
      ensures fresh(packets.nodes - old(packets.nodes))
    {
      hide Sender.AppendChunk, Sender.Refill;
      while packets.size < WINDOW_SIZE && written < |file|
        invariant packets.Valid() && Sender.Refillable(Vars())
        invariant Sender.Refill(Vars()) == Sender.Refill(old(Vars()))
        invariant |old(packets.contents)| <= |packets.contents|
        invariant created == old(created) + packets.contents[|old(packets.contents)|..]
        invariant fresh(packets.nodes - old(packets.nodes))
        decreases WINDOW_SIZE - packets.size
      {
        ghost var s := Vars();
        AppendChunk();
        Sender.RefillStep(s, Vars());
      }
      Sender.RefillEnd(Vars());
    }

    /** A refill keeps the log: packet i of a run is chunk i of the file. */
    method Refill()
      requires Valid() && Sender.Refillable(Vars())
      modifies this, packets, packets.nodes
      ensures Valid() && Vars() == Sender.Refill(old(Vars()))
      ensures |old(created)| <= |created| && written == old(written)
      ensures fresh(packets.nodes - old(packets.nodes))
    {
      RefillLogged(Vars(), created);
      FillWindow();
    }

    /** `send_all`: walks the list and sends every packet in order. */
    method SendAll() returns (sent: seq<Packet>)
      requires packets.Valid()
      ensures sent == packets.contents
    {
      sent := [];
      var n := packets.head;
      while n != null
        invariant |sent| <= |packets.spine| && n == packets.NodeAt(|sent|)
        invariant sent == packets.contents[..|sent|]
        decreases |packets.spine| - |sent|
      {
        sent := sent + [n.data];
        n := n.next;
      }
    }

    /** One pass of the pop loop: count the first packet as written and drop it. */
    method PopOne()
      requires packets.Valid() && packets.contents != []
      modifies this, packets
      ensures packets.Valid() && packets.size == old(packets.size) - 1
      ensures Vars() == old(Vars()).(written := old(written) + |old(packets.contents[0].payload)|,
                                     window := old(packets.contents[1..]))
      ensures created == old(created) && packets.nodes == old(packets.nodes)
    {
      written := written + |packets.head.data.payload|;
      packets.RemoveFront();
    }

    /** The numbers at both ends of the list. */
    method Ends() returns (f: u16, l: u16)
      requires packets.Valid() && packets.contents != []
      ensures f == packets.contents[0].number && l == packets.contents[|packets.contents| - 1].number
    {
      f, l := packets.head.data.number, packets.tail.data.number;
    }

    /** The pop loop for one acknowledgement. */
    method PopAcked(acked: u16)
      requires packets.Valid()
      modifies this, packets
      ensures packets.Valid() && Vars() == Sender.PopLoop(old(Vars()), acked)
      ensures created == old(created)
      ensures packets.nodes == old(packets.nodes)
    {
      hide Sender.PopLoop;
      while packets.head != null
        invariant packets.Valid() && created == old(created)
        invariant Sender.PopLoop(Vars(), acked) == Sender.PopLoop(old(Vars()), acked)
        invariant packets.nodes == old(packets.nodes)
        decreases packets.size
      {
        var f, l := Ends();
        if acked == f {
          break;
        }
        if Sender.Outside(acked, f, l) {
          break;
        }
        ghost var s := Vars();
        PopOne();
        Sender.PopLoopStep(s, Vars(), acked);
      }
      Sender.PopLoopEnd(Vars(), acked);
    }

    /** One received packet. */
    method Handle(received: int, p: Packet) returns (reaction: Sender.Reaction)
      requires packets.Valid()
      modifies this, packets
      ensures packets.Valid() && (Vars(), reaction) == Sender.Handle(old(Vars()), received, p)
      ensures created == old(created)
      ensures packets.nodes == old(packets.nodes)
    {
      read := received;
      reaction := Sender.Listen;
      if p.cmd == CMD_ACK {
        PopAcked(p.number);
      } else if p.cmd == CMD_FIN {
        reaction := if written < |file| then Sender.ServerClosed else Sender.LeaveReceive;
      }
    }

    /** The receive loop. */
    method ReceiveAll(replies: seq<Packet>) returns (reaction: Sender.Reaction)
      requires packets.Valid()
      modifies this, packets
      ensures packets.Valid() && (Vars(), reaction) == Sender.ReceiveAll(old(Vars()), replies)
      ensures created == old(created)
      ensures packets.nodes == old(packets.nodes)
    {
      var k := 0;
      while k < |replies|
        invariant k <= |replies| && packets.Valid() && created == old(created)
        invariant Sender.ReceiveAll(Vars(), replies[k..]) == Sender.ReceiveAll(old(Vars()), replies)
        invariant packets.nodes == old(packets.nodes)
      {
        assert replies[k..][0] == replies[k] && replies[k..][1..] == replies[k + 1..];
        reaction := Handle(HEADER_SIZE + |replies[k].payload|, replies[k]);
        if !reaction.Listen? {
          return;
        }
        k := k + 1;
      }
      read := -1;
      reaction := Sender.LeaveReceive;
    }

    /** A receive loop keeps the log. */
    method ReceiveRound(replies: seq<Packet>) returns (reaction: Sender.Reaction)
      requires Valid()
      modifies this, packets
      ensures Valid() && (Vars(), reaction) == Sender.ReceiveAll(old(Vars()), replies)
      ensures !reaction.Listen? && (reaction.ServerClosed? ==> written < |file|)
      ensures reaction.LeaveReceive? && written < |file| ==> Sender.Refillable(Vars())
      ensures created == old(created)
      ensures packets.nodes == old(packets.nodes)
    {
      ghost var first := Sender.ReceiveAllTracks(Vars(), 1 + |created| - packets.size, replies);
      reaction := ReceiveAll(replies);
    }

    /** One pass of the data loop: refill, send the whole window, receive. */
    method Round(replies: seq<Packet>) returns (reaction: Sender.Reaction, sent: seq<Packet>)
      requires Valid() && Sender.Refillable(Vars())
      modifies this, packets, packets.nodes
      ensures sent == Sender.Refill(old(Vars())).window
      ensures Valid() && (Vars(), reaction) == Sender.ReceiveAll(Sender.Refill(old(Vars())), replies)
      ensures !reaction.Listen? && (reaction.ServerClosed? ==> written < |file|)
      ensures reaction.LeaveReceive? && written < |file| ==> Sender.Refillable(Vars())
      ensures |old(created)| <= |created|
      ensures fresh(packets.nodes - old(packets.nodes))
    {
      Refill();
      sent := SendAll();
      reaction := ReceiveRound(replies);
    }

    /** The program is at the head of its data loop. */
    ghost predicate AtHead()
      reads this, packets, packets.nodes
    {
      Valid() && (written < |file| ==> Sender.Refillable(Vars()))
    }

    /** One pass of the data loop on the rounds that are left; `ended` when the program exits in it. */
    method Pass(rounds: seq<seq<Packet>>) returns (ended: bool, result: Sender.Result, sent: seq<Packet>)
      requires AtHead() && written != |file|
      modifies this, packets, packets.nodes
      ensures ended ==> Valid() && (Vars(), result) == Sender.Session(old(Vars()), rounds)
      ensures ended ==> !result.AllWritten? && written != |file|
      ensures !ended ==> AtHead() && rounds != []
      ensures !ended ==> Sender.Session(Vars(), rounds[1..]) == Sender.Session(old(Vars()), rounds)
      ensures Sender.Transmissions(old(Vars()), rounds)
              == [sent] + if ended then [] else Sender.Transmissions(Vars(), rounds[1..])
      ensures |old(created)| <= |created| && fresh(packets.nodes - old(packets.nodes))
    {
      result := Sender.AckTimedOut;
      if rounds == [] {
        Refill();
        sent := SendAll();
        return true, result, sent;
      }
      ghost var s := Vars();
      var reaction, window := Round(rounds[0]);
      Sender.SessionStep(s, Vars(), reaction, rounds);
      sent := window;
      if reaction.ServerClosed? {
        return true, Sender.ClosedByServer, sent;
      }
      ended := false;
    }

    /**
     The data loop. Whatever arrives in which round, packet i of the run is chunk i of the file, and
     the loop is left through its test exactly when every byte has been acknowledged.
     */
    method CopyFile(rounds: seq<seq<Packet>>) returns (result: Sender.Result, sent: seq<seq<Packet>>)
      requires AtHead()
      modifies this, packets, packets.nodes
      ensures Valid() && |old(created)| <= |created|
      ensures (Vars(), result) == Sender.Session(old(Vars()), rounds)
      ensures sent == Sender.Transmissions(old(Vars()), rounds)
      ensures result.AllWritten? <==> written == |file|
    {
      hide Sender.Session, Sender.Transmissions, Logged;
      var left := rounds;
      sent := [];
      while written != |file|
        invariant AtHead() && |old(created)| <= |created| && fresh(packets.nodes - old(packets.nodes))
        invariant Sender.Session(Vars(), left) == Sender.Session(old(Vars()), rounds)
        invariant sent + Sender.Transmissions(Vars(), left) == Sender.Transmissions(old(Vars()), rounds)
        decreases |left|
      {
        var ended, ending, window := Pass(left);
        sent := sent + [window];
        if ended {
          result := ending;
          return;
        }
        left := left[1..];
      }
      result := Sender.AllWritten;
      Sender.SessionEnd(Vars(), left);
    }
  }
}
