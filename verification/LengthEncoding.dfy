/** Length-encoded integers and strings of the MySQL Client/Server Protocol (db_proxy/mod.rs). */
module LengthEncoding {
  import opened Bytes
  import opened Wrappers

  /** The first byte of a text row value that is NULL. */
  const NULL_MARK: byte := 0xfb
  const EOF_MARK: byte := 0xfe
  const ERR_MARK: byte := 0xff

  function LenencInt(v: u64): (s: seq<byte>) {
    if v < 251 then [v]
    else if v < 65536 then [0xfc] + ToLE(v, 2)
    else if v < 16777216 then [0xfd] + ToLE(v, 3)
    else [0xfe] + ToLE(v, 8)
  }

  function LenencStr(s: text): seq<byte> {
    LenencInt(AsU64(|s|)) + s
  }

  /** The four forms, byte by byte. */
  lemma LenencIntBytes(v: u64)
    ensures v < 251 ==> LenencInt(v) == [v]
    ensures 251 <= v < 0x1_0000 ==> LenencInt(v) == [0xfc, v % 256, (v / 0x100) % 256]
    ensures 0x1_0000 <= v < 0x100_0000 ==>
              LenencInt(v) == [0xfd, v % 256, (v / 0x100) % 256, (v / 0x1_0000) % 256]
    ensures v >= 0x100_0000 ==>
              && |LenencInt(v)| == 9 && LenencInt(v)[0] == 0xfe
              && forall k :: 0 <= k < 8 ==> LenencInt(v)[k + 1] == (v / Pow256(k)) % 256
  {
    Powers();
    var width := if v < 251 then 0 else if v < 0x1_0000 then 2 else if v < 0x100_0000 then 3 else 8;
    forall k | 0 <= k < width
      ensures ToLE(v, width)[k] == (v / Pow256(k)) % 256
    {
      ByteOfLE(v, width, k);
    }
    hide ToLE;
  }

  /** A client's reader: the value and the bytes left. Neither 0xfb nor 0xff starts an integer. */
  function DecodeInt(data: seq<byte>): Option<(nat, seq<byte>)> {
    if data == [] || data[0] == NULL_MARK || data[0] == ERR_MARK then None
    else if data[0] < 251 then Some((data[0], data[1..]))
    else
      var width := if data[0] == 0xfc then 2 else if data[0] == 0xfd then 3 else 8;
      if |data| < 1 + width then None
      else Some((FromLE(data[1..1 + width]), data[1 + width..]))
  }

  function DecodeStr(data: seq<byte>): Option<(text, seq<byte>)> {
    match DecodeInt(data)
    case None => None
    case Some((len, rest)) =>
      if |rest| < len then None else Some((rest[..len], rest[len..]))
  }

  /** Round trip with any bytes behind it, so no encoding is a prefix of another. */
  lemma DecodeIntOfLenencInt(v: u64, rest: seq<byte>)
    ensures DecodeInt(LenencInt(v) + rest) == Some((v, rest))
  {
    var data := LenencInt(v) + rest;
    if v < 251 {
      assert data[1..] == rest;
    } else {
      var width := if v < TWO_16 then 2 else if v < TWO_24 then 3 else 8;
      FixedWidthRoundTrip(v, width);
      assert data[1..1 + width] == ToLE(v, width);
      assert data[1 + width..] == rest;
    }
  }

  lemma DecodeStrOfLenencStr(s: text, rest: seq<byte>)
    requires |s| < TWO_64
    ensures DecodeStr(LenencStr(s) + rest) == Some((s, rest))
  {
    assert LenencStr(s) + rest == LenencInt(|s|) + (s + rest);
    DecodeIntOfLenencInt(|s|, s + rest);
  }

  /** A string whose own length fits a packet never starts with the NULL, EOF or ERR byte. */
  lemma FirstByteIsNoMarker(s: text)
    requires |s| < TWO_64
    ensures LenencStr(s)[0] != NULL_MARK && LenencStr(s)[0] != ERR_MARK
    ensures LenencStr(s)[0] == EOF_MARK <==> |s| >= TWO_24
  {
  }
}
