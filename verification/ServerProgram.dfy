/**
 The server's receive loop as the imperative program it is, proved to compute the fold of module
 Receiver on every trace of packets.
 */
module ServerProgram {
  import opened Packets
  import Receiver

  class Server {
    const filesize: nat
    var expected: u16
    var read: nat
    var data: seq<byte>
    var status: Receiver.Status

    ghost function Vars(): Receiver.State
      reads this
    {
      Receiver.State(filesize, expected, read, data, status)
    }

    constructor (filesize: nat)
      ensures this.filesize == filesize && Vars() == Receiver.Start(filesize)
    {
      this.filesize := filesize;
      expected, read, data, status := 1, 0, [], Receiver.Running;
    }

    /** One pass of the loop. */
    method Receive(p: Packet) returns (replies: seq<Packet>)
      requires status.Running?
      modifies this
      ensures (Vars(), replies) == Receiver.Receive(old(Vars()), p)
    {
      replies := [];
      if p.cmd == CMD_DATA {
        if p.number != expected {
          return [Ack(expected)];
        }
        expected := Wrap(expected + 1);
        replies := [Ack(expected)];
        read := read + |p.payload|;
        data := data + p.payload;
        if read > filesize {
          status := Receiver.Removed(Receiver.Excess);
        }
      } else if p.cmd == CMD_FIN {
        if read != filesize {
          status := Receiver.Removed(Receiver.Incomplete);
        } else {
          replies := [FINACK];
          status := Receiver.Kept;
        }
      }
    }

    /** The loop on a trace of packets that is followed by silence. */
    method CopyFile(trace: seq<Packet>) returns (replies: seq<Packet>)
      requires Vars() == Receiver.Start(filesize)
      modifies this
      ensures Vars() == Receiver.Serve(filesize, trace)
      ensures status == Receiver.Outcome(filesize, trace)
      ensures replies == Receiver.Replies(filesize, trace)
    {
      hide Receiver.Outcome, Receiver.Receive;
      Receiver.OutcomeExact(filesize, trace);
      replies := [];
      var k := 0;
      while k < |trace|
        invariant k <= |trace| && status.Running?
        invariant Vars() == Receiver.After(filesize, trace[..k])
        invariant replies == Receiver.Replies(filesize, trace[..k])
      {
        assert trace[..k + 1][..k] == trace[..k];
        var sent := Receive(trace[k]);
        replies := replies + sent;
        k := k + 1;
        if !status.Running? {
          Receiver.StaysEnded(filesize, trace, k);
          return;
        }
      }
      assert trace[..k] == trace;
      status := Receiver.Removed(Receiver.TimedOut);
    }
  }
}
