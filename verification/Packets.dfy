/** Packet framing of db_proxy/mod.rs: a three-byte payload length, a sequence id, the payload. */
module Packets {
  import opened Bytes
  import opened Wrappers

  function Packet(seqId: byte, payload: seq<byte>): seq<byte> {
    ToLE(|payload|, 3) + [seqId] + payload
  }

  lemma ThreeBytes(v: nat)
    ensures ToLE(v, 3) == [v % 256, (v / 0x100) % 256, (v / 0x1_0000) % 256]
  {
    Powers();
    ByteOfLE(v, 3, 0);
    ByteOfLE(v, 3, 1);
    ByteOfLE(v, 3, 2);
    hide ToLE;
  }

  method BuildPacket(seqId: byte, payload: seq<byte>) returns (packet: seq<byte>)
    ensures packet == Packet(seqId, payload)
    ensures packet == [|payload| % 256, (|payload| / 0x100) % 256, (|payload| / 0x1_0000) % 256, seqId] + payload
  {
    var len := |payload|;
    packet := [];
    packet := packet + [len % 256];
    packet := packet + [(len / 0x100) % 256];
    packet := packet + [(len / 0x1_0000) % 256];
    packet := packet + [seqId];
    packet := packet + payload;
    hide ToLE;
    ThreeBytes(len);
  }

  /** A sequence id is a u8 that wraps. */
  function NextSeq(seqId: byte): byte {
    if seqId == 255 then 0 else seqId + 1
  }

  function SeqAfter(seqId: byte, n: nat): byte
    decreases n
  {
    if n == 0 then seqId else SeqAfter(NextSeq(seqId), n - 1)
  }

  lemma {:induction false} SeqAfterStep(seqId: byte, n: nat)
    ensures SeqAfter(seqId, n + 1) == NextSeq(SeqAfter(seqId, n))
    decreases n
  {
    if n > 0 {
      SeqAfterStep(NextSeq(seqId), n - 1);
    }
  }

  /** Sequence ids count the packets modulo 256. */
  lemma {:induction false} SeqAfterCountsModulo256(seqId: byte, n: nat)
    ensures SeqAfter(seqId, n) == (seqId + n) % 256
    decreases n
  {
    if n > 0 {
      SeqAfterCountsModulo256(NextSeq(seqId), n - 1);
    }
  }

  /** A client's reader: sequence id, payload and the bytes behind the packet. */
  function ReadPacket(stream: seq<byte>): (r: Option<(byte, seq<byte>, seq<byte>)>)
    ensures r.Some? ==> |r.value.2| < |stream|
  {
    if |stream| < 4 then None
    else
      var len := FromLE(stream[..3]);
      if |stream| < 4 + len then None
      else Some((stream[3], stream[4..4 + len], stream[4 + len..]))
  }

  /** A packet is read back, whatever follows it, exactly when its payload is shorter than 2^24 bytes. */
  lemma PacketRoundTrip(seqId: byte, payload: seq<byte>, rest: seq<byte>)
    ensures ReadPacket(Packet(seqId, payload) + rest) == Some((seqId, payload, rest)) <==> |payload| < TWO_24
  {
    var stream := Packet(seqId, payload) + rest;
    assert stream[..3] == ToLE(|payload|, 3);
    Powers();
    FromLEOfToLE(|payload|, 3);
    if |payload| < TWO_24 {
      RemainderIsUnique(|payload|, TWO_24, 0, |payload|);
      assert stream[4..4 + |payload|] == payload;
      assert stream[4 + |payload|..] == rest;
    }
  }

  /** Like ReadPacket, but refuses a packet out of order, as clients do. */
  function ReadNext(stream: seq<byte>, expected: byte): (r: Option<(seq<byte>, seq<byte>)>)
    ensures r.Some? ==> |r.value.1| < |stream|
  {
    match ReadPacket(stream)
    case None => None
    case Some((seqId, payload, rest)) => if seqId == expected then Some((payload, rest)) else None
  }

  lemma ReadNextOfPacket(seqId: byte, payload: seq<byte>, rest: seq<byte>)
    requires |payload| < TWO_24
    ensures ReadNext(Packet(seqId, payload) + rest, seqId) == Some((payload, rest))
  {
    PacketRoundTrip(seqId, payload, rest);
  }

  /** The length of a longer payload wraps, and the client takes less than was sent. */
  lemma LongPacketIsCut(seqId: byte, payload: seq<byte>, rest: seq<byte>)
    requires |payload| >= TWO_24
    ensures var r := ReadNext(Packet(seqId, payload) + rest, seqId); r.Some? ==> |r.value.0| < |payload|
  {
    var stream := Packet(seqId, payload) + rest;
    assert stream[..3] == ToLE(|payload|, 3);
    Powers();
    FromLEOfToLE(|payload|, 3);
  }
}
