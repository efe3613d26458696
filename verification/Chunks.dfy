/**
 How a file is cut into data packets. Packet indices are unbounded and start at 1; the wire
 only ever carries them modulo 2^16.
 */
module Chunks {
  import opened Packets

  function Min(a: int, b: int): int { if a < b then a else b }

  /** The number of file bytes carried by the packets 1..k. */
  function Covered(size: nat, k: nat): nat { Min(k * PAYLOAD_SIZE, size) }

  function Chunk(file: seq<byte>, i: nat): seq<byte>
    requires i >= 1
  {
    file[Covered(|file|, i - 1)..Covered(|file|, i)]
  }

  function DataPacket(file: seq<byte>, i: nat): Packet
    requires i >= 1
  {
    Packet(CMD_DATA, Wrap(i), Chunk(file, i))
  }

  /** The packets with indices first, first + 1, ..., first + count - 1. */
  function DataPackets(file: seq<byte>, first: nat, count: nat): (ps: seq<Packet>)
    requires first >= 1
    ensures |ps| == count
    ensures forall i :: 0 <= i < count ==> ps[i] == DataPacket(file, first + i)
  {
    seq(count, i requires 0 <= i < count => DataPacket(file, first + i))
  }

  /** The payloads of a packet sequence, joined; this is what a file of them contains. */
  function Bytes(ps: seq<Packet>): seq<byte> {
    if ps == [] then [] else Bytes(ps[..|ps| - 1]) + ps[|ps| - 1].payload
  }

  lemma BytesAppend(ps: seq<Packet>, p: Packet)
    ensures Bytes(ps + [p]) == Bytes(ps) + p.payload
  {
    assert (ps + [p])[..|ps|] == ps;
  }

  lemma ChunkFollows(file: seq<byte>, i: nat, k: nat)
    requires 1 <= i <= k
    ensures file[Covered(|file|, i - 1)..Covered(|file|, k - 1)] + Chunk(file, k)
            == file[Covered(|file|, i - 1)..Covered(|file|, k)]
  {
  }

  /** A full chunk fills a datagram of 2048 bytes exactly. */
  lemma FullChunkFillsDatagram(file: seq<byte>, i: nat)
    requires i >= 1 && i * PAYLOAD_SIZE <= |file|
    ensures |Chunk(file, i)| == PAYLOAD_SIZE == 2043
    ensures |Encode(DataPacket(file, i))| == PACKET_SIZE == 2048
  {
    assert PAYLOAD_SIZE == PACKET_SIZE - HEADER_SIZE;
  }

  /** Any run of consecutive packets carries exactly the file bytes between its ends. */
  lemma {:induction false} ConsecutiveBytes(file: seq<byte>, first: nat, count: nat)
    requires first >= 1
    ensures Bytes(DataPackets(file, first, count))
            == file[Covered(|file|, first - 1)..Covered(|file|, first - 1 + count)]
  {
    if count > 0 {
      hide Covered;
      var ps := DataPackets(file, first, count);
      assert ps[..count - 1] == DataPackets(file, first, count - 1);
      ConsecutiveBytes(file, first, count - 1);
      assert ps[count - 1].payload == Chunk(file, first + count - 1);
      ChunkFollows(file, first, first + count - 1);
    }
  }

  /** The number of payload bytes in a packet sequence. */
  function Total(ps: seq<Packet>): nat {
    if ps == [] then 0 else |ps[0].payload| + Total(ps[1..])
  }

  /** The packets ps are the ones with indices first, first + 1, ... */
  ghost predicate CutFrom(file: seq<byte>, ps: seq<Packet>, first: nat) {
    first >= 1 && forall i :: 0 <= i < |ps| ==> ps[i] == DataPacket(file, first + i)
  }

  lemma {:induction false} ConsecutiveTotal(file: seq<byte>, ps: seq<Packet>, first: nat)
    requires CutFrom(file, ps, first)
    ensures Covered(|file|, first - 1) + Total(ps) == Covered(|file|, first - 1 + |ps|)
  {
    if ps == [] {
    } else {
      assert ps[0] == DataPacket(file, first + 0);
      ConsecutiveTotal(file, ps[1..], first + 1);
    }
  }

  /** The first k payloads join to the first min(k * 2043, size) bytes: the whole file or a prefix. */
  lemma FirstPacketsBytes(file: seq<byte>, k: nat)
    ensures Bytes(DataPackets(file, 1, k)) == file[..Covered(|file|, k)]
    ensures Bytes(DataPackets(file, 1, k)) == file <==> |file| <= k * PAYLOAD_SIZE
  {
    ConsecutiveBytes(file, 1, k);
  }

  /** Every data packet fits a datagram, and its length survives the 16-bit length field. */
  lemma DataPacketFits(file: seq<byte>, i: nat, stale: seq<byte>)
    requires i >= 1
    ensures |DataPacket(file, i).payload| <= PAYLOAD_SIZE
    ensures |Encode(DataPacket(file, i))| <= PACKET_SIZE
    ensures Decode(Encode(DataPacket(file, i)) + stale) == Some(DataPacket(file, i))
  {
    DecodeEncode(DataPacket(file, i), stale);
  }
}
