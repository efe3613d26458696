/**
 The wire format of ftpclient/srtp_common.h: one command byte, a sequence number and a
 payload length in network order, then the payload.
 */
module Packets {

  type byte = x: int | 0 <= x < 0x100
  type u16 = x: int | 0 <= x < 0x1_0000

  const CMD_ACK: byte := 1
  const CMD_DATA: byte := 4
  const CMD_WRQ: byte := 5
  const CMD_FIN: byte := 6
  const CMD_FINACK: byte := 7

  const PACKET_SIZE: nat := 2048
  const HEADER_SIZE: nat := 5
  const PAYLOAD_SIZE: nat := 2043  // PACKET_SIZE - HEADER_SIZE
  const WINDOW_SIZE: nat := 50

  datatype Option<+T> = None | Some(value: T)

  /** A packet as the two programs see it; `GETLEN` of it is the length of the payload. */
  datatype Packet = Packet(cmd: byte, number: u16, payload: seq<byte>)

  /** The 16-bit sequence number of the packet with (unbounded) index i. */
  function Wrap(i: int): u16 { i % 0x1_0000 }

  lemma WrapNext(i: int)
    ensures Wrap(i + 1) == if Wrap(i) == 0xFFFF then 0 else Wrap(i) + 1
    ensures Wrap(i + 1) == Wrap(Wrap(i) + 1)
  {
  }

  /** Indices that are closer than 2^16 are told apart by their 16-bit numbers. */
  lemma WrapInjective(i: int, j: int)
    requires -0x1_0000 < i - j < 0x1_0000
    ensures Wrap(i) == Wrap(j) <==> i == j
  {
  }

  function Ack(number: u16): Packet { Packet(CMD_ACK, number, []) }
  const FIN: Packet := Packet(CMD_FIN, 0, [])
  const FINACK: Packet := Packet(CMD_FINACK, 0, [])

  // ---- bytes on the wire ----

  function Big16(n: u16): seq<byte> { [n / 0x100, n % 0x100] }

  function GetSeqNum(buffer: seq<byte>): u16
    requires |buffer| >= HEADER_SIZE
  {
    (buffer[1] as int) * 0x100 + buffer[2]
  }

  function GetLen(buffer: seq<byte>): u16
    requires |buffer| >= HEADER_SIZE
  {
    (buffer[3] as int) * 0x100 + buffer[4]
  }

  function Encode(p: Packet): seq<byte>
    requires |p.payload| < 0x1_0000
  {
    [p.cmd] + Big16(p.number) + Big16(|p.payload|) + p.payload
  }

  /** What a receiver reads from its buffer; None when the buffer is shorter than it claims. */
  function Decode(buffer: seq<byte>): Option<Packet> {
    if |buffer| < HEADER_SIZE || |buffer| < HEADER_SIZE + GetLen(buffer) then None
    else Some(Packet(buffer[0], GetSeqNum(buffer), buffer[HEADER_SIZE..HEADER_SIZE + GetLen(buffer)]))
  }

  /** A packet survives the wire, whatever stale bytes follow it in the receive buffer. */
  lemma DecodeEncode(p: Packet, stale: seq<byte>)
    requires |p.payload| < 0x1_0000
    ensures |Encode(p)| == HEADER_SIZE + |p.payload|
    ensures Decode(Encode(p) + stale) == Some(p)
  {
    var buffer := Encode(p) + stale;
    assert buffer[HEADER_SIZE..HEADER_SIZE + |p.payload|] == p.payload;
  }

  /** Every decodable buffer starts with the encoding of what it decodes to. */
  lemma EncodeDecode(buffer: seq<byte>)
    requires Decode(buffer).Some?
    ensures |Decode(buffer).value.payload| < 0x1_0000
    ensures Encode(Decode(buffer).value) <= buffer
  {
    var p := Decode(buffer).value;
    assert Encode(p) == buffer[..HEADER_SIZE + GetLen(buffer)];
  }

  /** Both 16-bit fields are in network order: the high byte comes first. */
  lemma NetworkOrder(cmd: byte, hi: byte, lo: byte, hiLen: byte, loLen: byte, payload: seq<byte>)
    requires |payload| == hiLen * 0x100 + loLen
    ensures Encode(Packet(cmd, hi * 0x100 + lo, payload)) == [cmd, hi, lo, hiLen, loLen] + payload
  {
  }

  /** One packet of every command, byte for byte. */
  lemma WireVectors()
    ensures Encode(Ack(1)) == [1, 0, 1, 0, 0]
    ensures Encode(Packet(CMD_DATA, 0x102, [9])) == [4, 1, 2, 0, 1, 9]
    ensures Encode(Packet(CMD_WRQ, 0, [97, 124, 53])) == [5, 0, 0, 0, 3, 97, 124, 53]
    ensures Encode(FIN) == [6, 0, 0, 0, 0]
    ensures Encode(FINACK) == [7, 0, 0, 0, 0]
  {
  }

  method SetSeqNum(buffer: array<byte>, number: u16)
    requires buffer.Length >= HEADER_SIZE
    modifies buffer
    ensures GetSeqNum(buffer[..]) == number
    ensures buffer[1] == number / 0x100 && buffer[2] == number % 0x100
    ensures forall i :: 0 <= i < buffer.Length && i != 1 && i != 2 ==> buffer[i] == old(buffer[i])
  {
    buffer[1] := number / 0x100;
    buffer[2] := number % 0x100;
  }

  method SetLen(buffer: array<byte>, len: u16)
    requires buffer.Length >= HEADER_SIZE
    modifies buffer
    ensures GetLen(buffer[..]) == len
    ensures buffer[3] == len / 0x100 && buffer[4] == len % 0x100
    ensures forall i :: 0 <= i < buffer.Length && i != 3 && i != 4 ==> buffer[i] == old(buffer[i])
  {
    buffer[3] := len / 0x100;
    buffer[4] := len % 0x100;
  }

  /** `create_packet`: without a payload pointer only the header bytes are determined. */
  method CreatePacket(cmd: byte, number: u16, payloadSize: u16, payload: array?<byte>)
    returns (buffer: array<byte>)
    requires payload != null ==> payloadSize <= payload.Length
    ensures fresh(buffer) && buffer.Length == HEADER_SIZE + payloadSize
    ensures buffer[0] == cmd && GetSeqNum(buffer[..]) == number && GetLen(buffer[..]) == payloadSize
    ensures payload != null ==> buffer[..] == Encode(Packet(cmd, number, payload[..payloadSize]))
    ensures payload != null ==> Decode(buffer[..]) == Some(Packet(cmd, number, payload[..payloadSize]))
    ensures payload == null && payloadSize == 0 ==> buffer[..] == Encode(Packet(cmd, number, []))
    ensures payload == null && payloadSize == 0 ==> Decode(buffer[..]) == Some(Packet(cmd, number, []))
  {
    hide Encode, Decode;
    buffer := new byte[HEADER_SIZE + payloadSize];
    buffer[0] := cmd;
    SetSeqNum(buffer, number);
    SetLen(buffer, payloadSize);
    if payload != null {
      for i := 0 to payloadSize
        invariant buffer[0] == cmd && GetSeqNum(buffer[..]) == number && GetLen(buffer[..]) == payloadSize
        invariant buffer[HEADER_SIZE..HEADER_SIZE + i] == payload[..i]
      {
        buffer[HEADER_SIZE + i] := payload[i];
      }
    }
    assert buffer[..][HEADER_SIZE..] == buffer[HEADER_SIZE..HEADER_SIZE + payloadSize];
    assert payloadSize == 0 ==> buffer[..][HEADER_SIZE..] == [];
    HeaderFixes(buffer[..]);
  }

  /** A buffer of exactly the length that it claims is the encoding of what it holds. */
  lemma HeaderFixes(buffer: seq<byte>)
    requires |buffer| >= HEADER_SIZE && |buffer| == HEADER_SIZE + GetLen(buffer)
    ensures var p := Packet(buffer[0], GetSeqNum(buffer), buffer[HEADER_SIZE..]);
            Decode(buffer) == Some(p) && |p.payload| < 0x1_0000 && buffer == Encode(p)
  {
    EncodeDecode(buffer);
    assert buffer[HEADER_SIZE..HEADER_SIZE + GetLen(buffer)] == buffer[HEADER_SIZE..];
  }
}
