/**
 The binary parameters of COM_STMT_EXECUTE (db_proxy/mod.rs): the proxy's parser, the encoding a client
 sends, and which parameter lists survive the trip.
 */
module BinaryParameters {
  import opened Bytes
  import opened Decimal
  import opened LengthEncoding
  import opened Wrappers

  const NULL_TEXT: text := [0x4e, 0x55, 0x4c, 0x4c]
  const QUOTE: byte := 0x27

  const TINY_CODE: byte := 0x01
  const SHORT_CODE: byte := 0x02
  const LONG_CODE: byte := 0x03
  const NULL_CODE: byte := 0x06
  const LONGLONG_CODE: byte := 0x08
  const STRING_CODE: byte := 0xfd

  const UNSIGNED_FLAG: byte := 0x80

  // ----- SQL literals -----

  /** Every quote doubled. */
  function Doubled(s: text): (r: text)
    ensures |r| >= |s|
  {
    if s == [] then []
    else if s[0] == QUOTE then [QUOTE, QUOTE] + Doubled(s[1..])
    else [s[0]] + Doubled(s[1..])
  }

  function Quoted(s: text): text {
    [QUOTE] + Doubled(s) + [QUOTE]
  }

  /** Reads a literal whose opening quote is already consumed; a doubled quote stands for one. */
  function ReadQuoted(s: text): Option<(text, text)> {
    if s == [] then None
    else if s[0] != QUOTE then
      match ReadQuoted(s[1..])
      case None => None
      case Some((value, rest)) => Some(([s[0]] + value, rest))
    else if |s| > 1 && s[1] == QUOTE then
      match ReadQuoted(s[2..])
      case None => None
      case Some((value, rest)) => Some(([QUOTE] + value, rest))
    else Some(([], s[1..]))
  }

  lemma ReadQuotedStep(c: byte, inner: text, value: text, rest: text)
    requires ReadQuoted(inner) == Some((value, rest))
    ensures c == QUOTE ==> ReadQuoted([c, c] + inner) == Some(([c] + value, rest))
    ensures c != QUOTE ==> ReadQuoted([c] + inner) == Some(([c] + value, rest))
  {
    assert ([c, c] + inner)[2..] == inner;
    assert ([c] + inner)[1..] == inner;
  }

  lemma ReadQuotedEnd(rest: text)
    requires rest == [] || rest[0] != QUOTE
    ensures ReadQuoted([QUOTE] + rest) == Some(([], rest))
  {
    assert ([QUOTE] + rest)[1..] == rest;
  }

  lemma {:induction false} ReadDoubled(s: text, rest: text)
    requires rest == [] || rest[0] != QUOTE
    ensures ReadQuoted(Doubled(s) + ([QUOTE] + rest)) == Some((s, rest))
  {
    hide ReadQuoted;
    var tail := [QUOTE] + rest;
    if s == [] {
      ReadQuotedEnd(rest);
      assert Doubled(s) + tail == tail;
    } else {
      ReadDoubled(s[1..], rest);
      var inner := Doubled(s[1..]) + tail;
      ReadQuotedStep(s[0], inner, s[1..], rest);
      assert s == [s[0]] + s[1..];
      if s[0] == QUOTE {
        assert Doubled(s) + tail == [s[0], s[0]] + inner;
      } else {
        assert Doubled(s) + tail == [s[0]] + inner;
      }
    }
  }

  /** The literal put into the query denotes the parameter and ends where it should. */
  lemma QuotedRoundTrip(s: text, rest: text)
    requires rest == [] || rest[0] != QUOTE
    ensures (Quoted(s) + rest)[0] == 0x27
    ensures ReadQuoted((Quoted(s) + rest)[1..]) == Some((s, rest))
  {
    ReadDoubled(s, rest);
    assert (Quoted(s) + rest)[1..] == Doubled(s) + ([QUOTE] + rest);
  }

  // ----- The parser -----

  /** The text and the number of bytes used; a length the data cannot satisfy yields the empty text. */
  function ReadLenencStringSafe(data: seq<byte>): (r: (text, nat))
    ensures r.1 <= |data|
  {
    if data == [] then ([], 0)
    else if data[0] < 251 then TakeText(data, data[0], 1)
    else if data[0] == 0xfc && |data| >= 3 then TakeText(data, FromLE(data[1..3]), 3)
    else if data[0] == 0xfd && |data| >= 4 then TakeText(data, FromLE(data[1..4]), 4)
    else ([], 0)
  }

  function TakeText(data: seq<byte>, len: nat, offset: nat): (r: (text, nat))
    ensures r.1 <= |data|
  {
    if |data| < offset + len then ([], |data|) else (data[offset..offset + len], offset + len)
  }

  /** A parameter's declared type: its code, and whether an integer is unsigned. */
  datatype TypeEntry = TypeEntry(code: byte, unsigned: bool)

  /**
   AsWritten is the code. Intended adds a string's size to the offset, reads a SHORT as two bytes, heeds the
   unsigned flag, and when the client sends no types goes by those it remembers from an earlier execution.
   */
  datatype Reading = AsWritten | Intended(remembered: seq<TypeEntry>)

  function IntWidth(reading: Reading, code: byte): nat {
    if code == TINY_CODE then 1
    else if code == SHORT_CODE then (if reading == AsWritten then 4 else 2)
    else if code == LONG_CODE then 4
    else if code == LONGLONG_CODE then 8
    else 0
  }

  function IntValue(reading: Reading, entry: TypeEntry, bytes: seq<byte>): int {
    if reading.Intended? && entry.unsigned then FromLE(bytes) else SignedFromLE(bytes)
  }

  /** One non-NULL value: its SQL text and the offset of the next one. */
  function ReadValue(reading: Reading, payload: seq<byte>, offset: nat, entry: TypeEntry): (r: (text, nat))
    requires offset < |payload|
    ensures r.1 <= |payload|
  {
    var width := IntWidth(reading, entry.code);
    if width > 0 then
      if offset + width <= |payload| then
        (IntText(IntValue(reading, entry, payload[offset..offset + width])), offset + width)
      else
        (NULL_TEXT, offset)
    else
      var (value, used) := ReadLenencStringSafe(payload[offset..]);
      (Quoted(value), if reading == AsWritten then used else offset + used)
  }

  function PowerOfTwo(bit: nat): (p: nat)
    requires bit < 8
    ensures p > 0
  {
    if bit == 0 then 1 else if bit == 1 then 2 else if bit == 2 then 4 else if bit == 3 then 8
    else if bit == 4 then 16 else if bit == 5 then 32 else if bit == 6 then 64 else 128
  }

  predicate BitSet(v: byte, bit: nat)
    requires bit < 8
  {
    (v / PowerOfTwo(bit)) % 2 == 1
  }

  /** The bytes that n bits need. */
  function BitmapLength(n: nat): (r: nat)
    ensures 8 * r - 8 < n <= 8 * r || n == r == 0
  {
    (n + 7) / 8
  }

  lemma ByteOfBit(n: nat, i: nat)
    requires i < n
    ensures i / 8 < BitmapLength(n)
  {
  }

  predicate IsNull(bitmap: seq<byte>, i: nat)
    requires i / 8 < |bitmap|
  {
    BitSet(bitmap[i / 8], i % 8)
  }

  function NullsOf(bitmap: seq<byte>, n: nat): (r: seq<bool>)
    requires |bitmap| == BitmapLength(n)
    ensures |r| == n && forall i :: 0 <= i < n ==> r[i] == IsNull(bitmap, i)
  {
    seq(n, i requires 0 <= i < n => IsNull(bitmap, i))
  }

  function ReadValues(reading: Reading, payload: seq<byte>, nulls: seq<bool>, types: seq<TypeEntry>,
                      i: nat, offset: nat): (r: seq<text>)
    requires i <= |types| && |nulls| == |types|
    ensures |r| == |types| - i
    decreases |types| - i
  {
    if i == |types| then []
    else if nulls[i] || offset >= |payload| then
      [NULL_TEXT] + ReadValues(reading, payload, nulls, types, i + 1, offset)
    else
      var (value, next) := ReadValue(reading, payload, offset, types[i]);
      [value] + ReadValues(reading, payload, nulls, types, i + 1, next)
  }

  function Repeat(t: text, n: nat): seq<text> {
    seq(n, _ => t)
  }

  /** The types in use when the client sends none: the code takes a STRING for each. */
  function DefaultTypes(reading: Reading, n: nat): (types: seq<TypeEntry>)
    ensures |types| == n
  {
    if reading.Intended? && |reading.remembered| == n then reading.remembered
    else seq(n, _ => TypeEntry(STRING_CODE, false))
  }

  /** The type that stands at a place; the code drops its flag. */
  function EntryAt(reading: Reading, payload: seq<byte>, at: nat): TypeEntry
    requires at + 1 < |payload|
  {
    TypeEntry(payload[at], reading.Intended? && payload[at + 1] >= UNSIGNED_FLAG)
  }

  /** The types of the parameters and the offset behind them. */
  function ReadTypes(reading: Reading, payload: seq<byte>, n: nat, offset: nat): (r: (seq<TypeEntry>, nat))
    requires offset < |payload|
    ensures |r.0| == n
  {
    if payload[offset] == 1 && |payload| >= offset + 1 + 2 * n then
      (seq(n, k requires 0 <= k < n => EntryAt(reading, payload, offset + 1 + 2 * k)), offset + 1 + 2 * n)
    else
      (DefaultTypes(reading, n), offset + 1)
  }

  function ParseParameters(reading: Reading, payload: seq<byte>, n: nat): (r: seq<text>)
    ensures |r| == if n == 0 || |payload| < 6 then 0 else n
  {
    var values := 5 + BitmapLength(n);
    if n == 0 || |payload| < 6 then []
    else if |payload| <= values then Repeat(NULL_TEXT, n)
    else
      var (types, offset) := ReadTypes(reading, payload, n, values);
      ReadValues(reading, payload, NullsOf(payload[5..values], n), types, 0, offset)
  }

  lemma ReadValuesStep(reading: Reading, payload: seq<byte>, nulls: seq<bool>, types: seq<TypeEntry>,
                       i: nat, offset: nat)
    requires i < |types| && |nulls| == |types|
    ensures nulls[i] || offset >= |payload| ==>
              ReadValues(reading, payload, nulls, types, i, offset)
              == [NULL_TEXT] + ReadValues(reading, payload, nulls, types, i + 1, offset)
    ensures !nulls[i] && offset < |payload| ==>
              var r := ReadValue(reading, payload, offset, types[i]);
              ReadValues(reading, payload, nulls, types, i, offset)
              == [r.0] + ReadValues(reading, payload, nulls, types, i + 1, r.1)
  {
  }

  /** What the code knows of types: codes only. */
  function Entries(codes: seq<byte>): (types: seq<TypeEntry>)
    ensures |types| == |codes| && forall k :: 0 <= k < |codes| ==> types[k] == TypeEntry(codes[k], false)
  {
    seq(|codes|, k requires 0 <= k < |codes| => TypeEntry(codes[k], false))
  }

  method ReadParameterTypes(payload: seq<byte>, numParams: nat, flag: nat) returns (types: seq<byte>, offset: nat)
    requires flag < |payload|
    ensures (Entries(types), offset) == ReadTypes(AsWritten, payload, numParams, flag)
  {
    var newParamsBound := payload[flag] == 1;
    offset := flag + 1;
    types := seq(numParams, _ => STRING_CODE);
    if newParamsBound && |payload| >= offset + numParams * 2 {
      for i := 0 to numParams
        invariant |types| == numParams
        invariant forall k :: 0 <= k < i ==> types[k] == payload[offset + k * 2]
      {
        types := types[i := payload[offset + i * 2]];
      }
      offset := offset + numParams * 2;
    }
    assert Entries(types) == ReadTypes(AsWritten, payload, numParams, flag).0;
  }

  method ReadParameter(payload: seq<byte>, start: nat, paramType: byte) returns (value: text, offset: nat)
    requires start < |payload|
    ensures (value, offset) == ReadValue(AsWritten, payload, start, TypeEntry(paramType, false))
  {
    offset := start;
    value := NULL_TEXT;
    if paramType == 0x01 {
      value := IntText(SignedFromLE(payload[offset..offset + 1]));
      offset := offset + 1;
    } else if paramType == 0x02 || paramType == 0x03 {
      if offset + 4 <= |payload| {
        value := IntText(SignedFromLE(payload[offset..offset + 4]));
        offset := offset + 4;
      }
    } else if paramType == 0x08 {
      if offset + 8 <= |payload| {
        value := IntText(SignedFromLE(payload[offset..offset + 8]));
        offset := offset + 8;
      }
    } else {
      var (s, newOffset) := ReadLenencStringSafe(payload[offset..]);
      value := Quoted(s);
      offset := newOffset;
    }
  }

  method ReadParameters(payload: seq<byte>, nullBitmap: seq<byte>, types: seq<byte>, start: nat)
    returns (params: seq<text>)
    requires |nullBitmap| == BitmapLength(|types|)
    ensures params == ReadValues(AsWritten, payload, NullsOf(nullBitmap, |types|), Entries(types), 0, start)
  {
    hide ReadValue, ReadValues, BitSet, BitmapLength;
    params := [];
    var offset: nat := start;
    ghost var nulls := NullsOf(nullBitmap, |types|);
    ghost var all := ReadValues(AsWritten, payload, nulls, Entries(types), 0, start);
    for i := 0 to |types|
      invariant all == params + ReadValues(AsWritten, payload, nulls, Entries(types), i, offset)
    {
      ReadValuesStep(AsWritten, payload, nulls, Entries(types), i, offset);
      ByteOfBit(|types|, i);
      var value := NULL_TEXT;
      if !BitSet(nullBitmap[i / 8], i % 8) && offset < |payload| {
        value, offset := ReadParameter(payload, offset, types[i]);
      }
      params := params + [value];
    }
  }

  /**
   parse_binary_parameters_safe. Every index is in bounds for every payload, although a string moves the
   offset to its own size, which can be behind where it was.
   */
  method ParseBinaryParametersSafe(payload: seq<byte>, numParams: nat) returns (params: seq<text>)
    ensures params == ParseParameters(AsWritten, payload, numParams)
    ensures |params| == if numParams == 0 || |payload| < 6 then 0 else numParams
  {
    hide ReadTypes, ReadValues, NullsOf;
    if numParams == 0 || |payload| < 6 {
      return [];
    }
    var offset: nat := 5;
    var bitmapLen := BitmapLength(numParams);
    if |payload| < offset + bitmapLen {
      return Repeat(NULL_TEXT, numParams);
    }
    var nullBitmap := payload[offset..offset + bitmapLen];
    offset := offset + bitmapLen;
    if |payload| <= offset {
      return Repeat(NULL_TEXT, numParams);
    }
    var types: seq<byte>;
    types, offset := ReadParameterTypes(payload, numParams, offset);
    params := ReadParameters(payload, nullBitmap, types, offset);
  }

  // ----- Payloads no client should send -----

  /** A string that is announced longer than the data, or not announced properly, is read as the empty text. */
  lemma UnreadableStringIsEmpty(data: seq<byte>)
    ensures data == [] || data[0] in {251, 254, 255} ==> ReadLenencStringSafe(data) == ([], 0)
    ensures data != [] && data[0] == 252 && |data| < 3 ==> ReadLenencStringSafe(data) == ([], 0)
    ensures data != [] && data[0] == 253 && |data| < 4 ==> ReadLenencStringSafe(data) == ([], 0)
    ensures data != [] && data[0] < 251 && |data| <= data[0] ==> ReadLenencStringSafe(data) == ([], |data|)
    ensures |data| >= 3 && data[0] == 252 && |data| < 3 + FromLE(data[1..3]) ==>
              ReadLenencStringSafe(data) == ([], |data|)
    ensures |data| >= 4 && data[0] == 253 && |data| < 4 + FromLE(data[1..4]) ==>
              ReadLenencStringSafe(data) == ([], |data|)
  {
    hide FromLE;
  }

  /** The bytes as the code takes them for an integer: one, four or eight, signed; cut off, they give NULL. */
  lemma IntegerOfBytes(payload: seq<byte>, offset: nat, code: byte)
    requires offset < |payload| && code in {1, 2, 3, 8}
    ensures var width := if code == 1 then 1 else if code == 8 then 8 else 4;
            ReadValue(AsWritten, payload, offset, TypeEntry(code, false))
            == if |payload| < offset + width then ([0x4e, 0x55, 0x4c, 0x4c], offset)
               else (IntText(SignedFromLE(payload[offset..offset + width])), offset + width)
  {
    hide IntText, SignedFromLE;
  }

  /** Every other type is taken for a string; the next value is looked for at the size of this one. */
  lemma StringOfBytes(payload: seq<byte>, offset: nat, code: byte)
    requires offset < |payload| && code !in {1, 2, 3, 8}
    ensures var (s, size) := ReadLenencStringSafe(payload[offset..]);
            ReadValue(AsWritten, payload, offset, TypeEntry(code, false)) == (Quoted(s), size)
  {
    hide Quoted, ReadLenencStringSafe;
  }

  /** A payload that ends within the bitmap gives NULLs only, and one without a bitmap nothing. */
  lemma PayloadWithoutValues(payload: seq<byte>, n: nat)
    ensures n == 0 || |payload| < 6 ==> ParseParameters(AsWritten, payload, n) == []
    ensures n > 0 && |payload| >= 6 && 8 * (|payload| - 5) <= n + 7 ==>
              forall k :: 0 <= k < n ==> ParseParameters(AsWritten, payload, n)[k] == [0x4e, 0x55, 0x4c, 0x4c]
  {
    hide ReadTypes, ReadValues;
  }

  /** Types cut off, or not sent, count as strings, and the values start behind the flag. */
  lemma MissingTypesAreStrings(payload: seq<byte>, n: nat, flag: nat)
    requires flag < |payload| && (payload[flag] != 1 || |payload| < flag + 1 + 2 * n)
    ensures ReadTypes(AsWritten, payload, n, flag).1 == flag + 1
    ensures forall k :: 0 <= k < n ==> ReadTypes(AsWritten, payload, n, flag).0[k] == TypeEntry(253, false)
  {
  }

  // ----- What a client sends -----

  datatype Width = One | Two | Four | Eight

  function Size(w: Width): (n: nat)
    ensures n > 0
  {
    match w
    case One => 1
    case Two => 2
    case Four => 4
    case Eight => 8
  }

  datatype AnyParam = Null | Int(width: Width, unsigned: bool, i: int) | Str(s: text)

  /** An integer fits the width and signedness it is declared with. */
  predicate InRange(p: AnyParam) {
    p.Int? ==>
      var limit := Pow256(Size(p.width));
      if p.unsigned then 0 <= p.i < limit else -(limit as int) <= 2 * p.i < limit
  }

  type Param = p: AnyParam | InRange(p) witness Null

  /** An integer wraps if it is so large that its bytes, read as signed, are negative. */
  predicate Wraps(p: Param) {
    p.Int? && 2 * p.i >= Pow256(Size(p.width))
  }

  datatype Kind = NullKind | IntKind(width: Width, wraps: bool) | StrKind

  function KindOf(p: Param): Kind {
    match p
    case Null => NullKind
    case Int(width, _, _) => IntKind(width, Wraps(p))
    case Str(_) => StrKind
  }

  function WidthCode(w: Width): byte {
    match w
    case One => TINY_CODE
    case Two => SHORT_CODE
    case Four => LONG_CODE
    case Eight => LONGLONG_CODE
  }

  function EntryOf(p: Param): TypeEntry {
    match p
    case Null => TypeEntry(NULL_CODE, false)
    case Int(width, unsigned, _) => TypeEntry(WidthCode(width), unsigned)
    case Str(_) => TypeEntry(STRING_CODE, false)
  }

  /** Two's complement for a negative integer. */
  function Unsigned(p: Param): (v: nat)
    requires p.Int?
    ensures v < Pow256(Size(p.width))
  {
    if p.i < 0 then p.i + Pow256(Size(p.width)) else p.i
  }

  function ParamBytes(p: Param): seq<byte> {
    match p
    case Null => []
    case Int(width, _, _) => ToLE(Unsigned(p), Size(width))
    case Str(s) => LenencStr(s)
  }

  /** The SQL text a parameter stands for. */
  function Literal(p: Param): text {
    match p
    case Null => NULL_TEXT
    case Int(_, _, i) => IntText(i)
    case Str(s) => Quoted(s)
  }

  function Literals(ps: seq<Param>): (r: seq<text>)
    ensures |r| == |ps|
  {
    if ps == [] then [] else [Literal(ps[0])] + Literals(ps[1..])
  }

  lemma {:induction false} LiteralAt(ps: seq<Param>, k: nat)
    requires k < |ps|
    ensures Literals(ps)[k] == Literal(ps[k])
  {
    if k > 0 {
      LiteralAt(ps[1..], k - 1);
    }
  }

  function ValueBytes(ps: seq<Param>): seq<byte> {
    if ps == [] then [] else ParamBytes(ps[0]) + ValueBytes(ps[1..])
  }

  function NullBit(ps: seq<Param>, i: nat): (b: nat)
    ensures b < 2
  {
    if i < |ps| && ps[i] == Null then 1 else 0
  }

  function BitmapByte(ps: seq<Param>, from: nat): byte {
    NullBit(ps, from) + 2 * NullBit(ps, from + 1) + 4 * NullBit(ps, from + 2) + 8 * NullBit(ps, from + 3) +
    16 * NullBit(ps, from + 4) + 32 * NullBit(ps, from + 5) + 64 * NullBit(ps, from + 6) + 128 * NullBit(ps, from + 7)
  }

  function Bitmap(ps: seq<Param>): (r: seq<byte>)
    ensures |r| == BitmapLength(|ps|)
  {
    seq(BitmapLength(|ps|), k requires 0 <= k => BitmapByte(ps, 8 * k))
  }

  function TypeBytes(ps: seq<Param>): (r: seq<byte>)
    ensures |r| == 2 * |ps|
    ensures forall k :: 0 <= k < |ps| ==>
              r[2 * k] == EntryOf(ps[k]).code && r[2 * k + 1] == if EntryOf(ps[k]).unsigned then UNSIGNED_FLAG else 0
  {
    seq(2 * |ps|, k requires 0 <= k < 2 * |ps| =>
      var entry := EntryOf(ps[k / 2]);
      if k % 2 == 0 then entry.code else if entry.unsigned then UNSIGNED_FLAG else 0)
  }

  /**
   Flags 0, iteration count 1; with parameters, the null bitmap, whether types are sent, the types if so, and the
   values. A client may leave the types out when it executes a statement again with parameters of the same types.
   */
  function ExecutePayload(bound: bool, ps: seq<Param>): seq<byte> {
    if ps == [] then [0, 1, 0, 0, 0]
    else
      [0, 1, 0, 0, 0] + Bitmap(ps) + [if bound then 1 else 0] + (if bound then TypeBytes(ps) else []) + ValueBytes(ps)
  }

  predicate Sendable(p: Param) {
    p.Str? ==> |p.s| < TWO_24
  }

  // ----- Reading one parameter -----

  lemma BitmapByteBit(ps: seq<Param>, from: nat, bit: nat)
    requires bit < 8
    ensures BitSet(BitmapByte(ps, from), bit) <==> NullBit(ps, from + bit) == 1
  {
    hide BitSet, NullBit;
    BitOfSum(NullBit(ps, from), NullBit(ps, from + 1), NullBit(ps, from + 2), NullBit(ps, from + 3),
             NullBit(ps, from + 4), NullBit(ps, from + 5), NullBit(ps, from + 6), NullBit(ps, from + 7), bit);
  }

  lemma BitmapBit(ps: seq<Param>, i: nat)
    requires i < |ps|
    ensures IsNull(Bitmap(ps), i) <==> ps[i] == Null
  {
    hide BitSet, BitmapByte;
    assert i == 8 * (i / 8) + i % 8;
    assert Bitmap(ps)[i / 8] == BitmapByte(ps, 8 * (i / 8));
    BitmapByteBit(ps, 8 * (i / 8), i % 8);
  }

  /** The binary digit above the low digits and below the high ones. */
  lemma DigitAt(v: byte, bit: nat, low: nat, digit: nat, high: nat)
    requires bit < 8 && low < PowerOfTwo(bit) && digit < 2
    requires v == low + PowerOfTwo(bit) * (digit + 2 * high)
    ensures BitSet(v, bit) <==> digit == 1
  {
    QuotientIsUnique(v, PowerOfTwo(bit), digit + 2 * high, low);
  }

  lemma BitOfSum(b0: nat, b1: nat, b2: nat, b3: nat, b4: nat, b5: nat, b6: nat, b7: nat, bit: nat)
    requires b0 < 2 && b1 < 2 && b2 < 2 && b3 < 2 && b4 < 2 && b5 < 2 && b6 < 2 && b7 < 2 && bit < 8
    ensures BitSet(b0 + 2 * b1 + 4 * b2 + 8 * b3 + 16 * b4 + 32 * b5 + 64 * b6 + 128 * b7, bit)
            <==> (bit == 0 && b0 == 1) || (bit == 1 && b1 == 1) || (bit == 2 && b2 == 1) || (bit == 3 && b3 == 1) ||
                 (bit == 4 && b4 == 1) || (bit == 5 && b5 == 1) || (bit == 6 && b6 == 1) || (bit == 7 && b7 == 1)
  {
    hide BitSet;
    var v := b0 + 2 * b1 + 4 * b2 + 8 * b3 + 16 * b4 + 32 * b5 + 64 * b6 + 128 * b7;
    if bit == 0 {
      DigitAt(v, 0, 0, b0, b1 + 2 * b2 + 4 * b3 + 8 * b4 + 16 * b5 + 32 * b6 + 64 * b7);
    } else if bit == 1 {
      DigitAt(v, 1, b0, b1, b2 + 2 * b3 + 4 * b4 + 8 * b5 + 16 * b6 + 32 * b7);
    } else if bit == 2 {
      DigitAt(v, 2, b0 + 2 * b1, b2, b3 + 2 * b4 + 4 * b5 + 8 * b6 + 16 * b7);
    } else if bit == 3 {
      DigitAt(v, 3, b0 + 2 * b1 + 4 * b2, b3, b4 + 2 * b5 + 4 * b6 + 8 * b7);
    } else if bit == 4 {
      DigitAt(v, 4, b0 + 2 * b1 + 4 * b2 + 8 * b3, b4, b5 + 2 * b6 + 4 * b7);
    } else if bit == 5 {
      DigitAt(v, 5, b0 + 2 * b1 + 4 * b2 + 8 * b3 + 16 * b4, b5, b6 + 2 * b7);
    } else if bit == 6 {
      DigitAt(v, 6, b0 + 2 * b1 + 4 * b2 + 8 * b3 + 16 * b4 + 32 * b5, b6, b7);
    } else {
      DigitAt(v, 7, b0 + 2 * b1 + 4 * b2 + 8 * b3 + 16 * b4 + 32 * b5 + 64 * b6, b7, 0);
    }
  }

  lemma ReadLenencStringOfStr(s: text, rest: seq<byte>)
    requires |s| < TWO_24
    ensures ReadLenencStringSafe(LenencStr(s) + rest) == (s, |LenencStr(s)|)
  {
    var data := LenencStr(s) + rest;
    var start := |LenencInt(|s|)|;
    if |s| >= 251 {
      FixedWidthRoundTrip(|s|, start - 1);
      assert data[1..start] == ToLE(|s|, start - 1);
    }
    assert data[start..start + |s|] == s;
  }

  predicate At(payload: seq<byte>, offset: nat, bytes: seq<byte>) {
    offset + |bytes| <= |payload| && payload[offset..offset + |bytes|] == bytes
  }

  /** The reading takes this parameter and moves on by its size. */
  predicate ReadsExactly(reading: Reading, bound: bool, p: Param) {
    Sendable(p) && (reading == AsWritten && p != Null ==> bound && p.Int? && p.width != Two && !Wraps(p))
  }

  /** The type by which a reading goes for a parameter. */
  function TypeSeen(reading: Reading, bound: bool, p: Param): TypeEntry {
    if reading.Intended? then EntryOf(p)
    else if bound then TypeEntry(EntryOf(p).code, false)
    else TypeEntry(STRING_CODE, false)
  }

  lemma ReadValueOfInt(reading: Reading, bound: bool, payload: seq<byte>, offset: nat, p: Param)
    requires p.Int? && ReadsExactly(reading, bound, p) && At(payload, offset, ParamBytes(p))
    ensures offset < |payload|
    ensures ReadValue(reading, payload, offset, TypeSeen(reading, bound, p)) == (IntText(p.i), offset + Size(p.width))
  {
    hide IntText, ToLE, FromLE, Pow256, ReadLenencStringSafe;
    LERoundTrip(Unsigned(p), Size(p.width));
  }

  lemma ReadValueOfStr(reading: Reading, payload: seq<byte>, offset: nat, s: text)
    requires |s| < TWO_24 && At(payload, offset, LenencStr(s))
    ensures offset < |payload|
    ensures ReadValue(reading, payload, offset, TypeEntry(STRING_CODE, false))
            == (Quoted(s), if reading == AsWritten then |LenencStr(s)| else offset + |LenencStr(s)|)
  {
    var size := |LenencStr(s)|;
    ReadLenencStringOfStr(s, payload[offset + size..]);
    assert payload[offset..] == payload[offset..offset + size] + payload[offset + size..];
  }

  lemma ReadValueOfParam(reading: Reading, bound: bool, payload: seq<byte>, offset: nat, p: Param)
    requires p != Null && ReadsExactly(reading, bound, p) && At(payload, offset, ParamBytes(p))
    ensures offset < |payload|
    ensures ReadValue(reading, payload, offset, TypeSeen(reading, bound, p)) == (Literal(p), offset + |ParamBytes(p)|)
  {
    hide IntText, Quoted, LenencStr, ReadValue, At;
    if p.Int? {
      ReadValueOfInt(reading, bound, payload, offset, p);
    } else {
      ReadValueOfStr(reading, payload, offset, p.s);
    }
  }

  // ----- Reading a list -----

  function Nulls(ps: seq<Param>): (r: seq<bool>)
    ensures |r| == |ps| && forall i :: 0 <= i < |ps| ==> r[i] == (ps[i] == Null)
  {
    seq(|ps|, i requires 0 <= i < |ps| => ps[i] == Null)
  }

  /** What an earlier execution taught the server fits the parameters now sent without types. */
  predicate Remembers(reading: Reading, bound: bool, ps: seq<Param>) {
    reading.Intended? && !bound ==>
      && |reading.remembered| == |ps|
      && forall i :: 0 <= i < |ps| && ps[i] != Null ==> reading.remembered[i] == EntryOf(ps[i])
  }

  function Types(reading: Reading, bound: bool, ps: seq<Param>): (types: seq<TypeEntry>)
    requires Remembers(reading, bound, ps)
    ensures |types| == |ps|
    ensures forall i :: 0 <= i < |ps| && ps[i] != Null ==> types[i] == TypeSeen(reading, bound, ps[i])
  {
    if bound then seq(|ps|, i requires 0 <= i < |ps| => TypeSeen(reading, bound, ps[i]))
    else DefaultTypes(reading, |ps|)
  }

  /** What the parser makes of parameters i onwards when it stands at offset. */
  function ReadFrom(reading: Reading, bound: bool, payload: seq<byte>, ps: seq<Param>, i: nat, offset: nat)
    : (r: seq<text>)
    requires i <= |ps| && Remembers(reading, bound, ps)
    ensures |r| == |ps| - i
  {
    ReadValues(reading, payload, Nulls(ps), Types(reading, bound, ps), i, offset)
  }

  lemma AtSplit(payload: seq<byte>, offset: nat, a: seq<byte>, b: seq<byte>)
    requires At(payload, offset, a + b)
    ensures At(payload, offset, a) && At(payload, offset + |a|, b)
  {
    var ab := payload[offset..offset + |a + b|];
    assert ab[..|a|] == a && ab[|a|..] == b;
  }

  lemma ReadOne(reading: Reading, bound: bool, payload: seq<byte>, ps: seq<Param>, i: nat, offset: nat)
    requires i < |ps| && Remembers(reading, bound, ps)
    requires ReadsExactly(reading, bound, ps[i]) && At(payload, offset, ParamBytes(ps[i]))
    ensures ReadFrom(reading, bound, payload, ps, i, offset)
            == [Literal(ps[i])] + ReadFrom(reading, bound, payload, ps, i + 1, offset + |ParamBytes(ps[i])|)
  {
    hide ReadValue, ReadValues, IntText, LenencStr, Quoted, ReadsExactly, At, Types, TypeSeen, Remembers;
    ReadValuesStep(reading, payload, Nulls(ps), Types(reading, bound, ps), i, offset);
    if ps[i] != Null {
      ReadValueOfParam(reading, bound, payload, offset, ps[i]);
    }
  }

  lemma SliceStep(ps: seq<Param>, i: nat, k: nat)
    requires i < k <= |ps|
    ensures Literals(ps[i..k]) == [Literal(ps[i])] + Literals(ps[i + 1..k])
    ensures ValueBytes(ps[i..k]) == ParamBytes(ps[i]) + ValueBytes(ps[i + 1..k])
  {
    assert ps[i..k][1..] == ps[i + 1..k];
  }

  lemma EmptySlice(ps: seq<Param>, i: nat)
    requires i <= |ps|
    ensures Literals(ps[i..i]) == [] && ValueBytes(ps[i..i]) == []
  {
  }

  /** Parameters i to k, each read exactly, come out as their literals. */
  lemma {:induction false} ReadRun(reading: Reading, bound: bool, payload: seq<byte>, ps: seq<Param>,
                                   i: nat, k: nat, offset: nat)
    requires i <= k <= |ps| && Remembers(reading, bound, ps)
    requires forall m :: i <= m < k ==> ReadsExactly(reading, bound, ps[m])
    requires At(payload, offset, ValueBytes(ps[i..k]))
    ensures ReadFrom(reading, bound, payload, ps, i, offset)
            == Literals(ps[i..k]) + ReadFrom(reading, bound, payload, ps, k, offset + |ValueBytes(ps[i..k])|)
    decreases k - i
  {
    hide *;
    if i < k {
      var next := offset + |ParamBytes(ps[i])|;
      SliceStep(ps, i, k);
      AtSplit(payload, offset, ParamBytes(ps[i]), ValueBytes(ps[i + 1..k]));
      ReadOne(reading, bound, payload, ps, i, offset);
      ReadRun(reading, bound, payload, ps, i + 1, k, next);
    } else {
      EmptySlice(ps, i);
    }
  }

  lemma {:induction false} NullsHaveNoBytes(ps: seq<Param>)
    requires forall m :: 0 <= m < |ps| ==> ps[m] == Null
    ensures ValueBytes(ps) == []
  {
    if ps != [] {
      NullsHaveNoBytes(ps[1..]);
    }
  }

  lemma {:induction false} Split(ps: seq<Param>, k: nat)
    requires k <= |ps|
    ensures ValueBytes(ps) == ValueBytes(ps[..k]) + ValueBytes(ps[k..])
    ensures Literals(ps) == Literals(ps[..k]) + Literals(ps[k..])
  {
    hide ParamBytes, Literal;
    if k > 0 {
      Split(ps[1..], k - 1);
      assert ps[..k][1..] == ps[1..][..k - 1];
      assert ps[k..] == ps[1..][k - 1..];
    } else {
      assert ps[..0] == [] && ps[0..] == ps;
    }
  }

  lemma FiveParts(a: seq<byte>, b: seq<byte>, c: seq<byte>, d: seq<byte>, e: seq<byte>)
    requires |a| == 5 && |c| == 1
    ensures
      var s, flag := a + b + c + d + e, 5 + |b|;
      && |s| == flag + 1 + |d| + |e| && s[..5] == a && s[5..flag] == b && s[flag] == c[0]
      && s[flag + 1..flag + 1 + |d|] == d && s[flag + 1 + |d|..] == e
  {
  }

  function FlagAt(n: nat): nat {
    5 + BitmapLength(n)
  }

  function ValuesStart(bound: bool, n: nat): nat {
    FlagAt(n) + 1 + (if bound then 2 * n else 0)
  }

  /** Bitmap, flag, types if sent, and values stand where they should in the payload. */
  predicate LaidOut(bound: bool, ps: seq<Param>, payload: seq<byte>) {
    var flag, start := FlagAt(|ps|), ValuesStart(bound, |ps|);
    && start <= |payload| && payload[5..flag] == Bitmap(ps) && payload[flag] == (if bound then 1 else 0)
    && (bound ==> payload[flag + 1..start] == TypeBytes(ps))
  }

  lemma PayloadLayout(bound: bool, ps: seq<Param>)
    requires ps != []
    ensures var payload, start := ExecutePayload(bound, ps), ValuesStart(bound, |ps|);
            LaidOut(bound, ps, payload) && |payload| == start + |ValueBytes(ps)| && At(payload, start, ValueBytes(ps))
    ensures ExecutePayload(bound, ps)[..5] == [0, 1, 0, 0, 0]
  {
    hide Bitmap, TypeBytes, ValueBytes, BitmapLength;
    FiveParts([0, 1, 0, 0, 0], Bitmap(ps), [if bound then 1 else 0], if bound then TypeBytes(ps) else [],
              ValueBytes(ps));
  }

  lemma EntryIsFound(reading: Reading, payload: seq<byte>, start: nat, ps: seq<Param>, i: nat)
    requires i < |ps| && start + 2 * |ps| <= |payload| && payload[start..start + 2 * |ps|] == TypeBytes(ps)
    ensures EntryAt(reading, payload, start + 2 * i) == TypeSeen(reading, true, ps[i])
  {
    hide EntryOf, TypeBytes;
    assert payload[start..start + 2 * |ps|][2 * i] == TypeBytes(ps)[2 * i];
    assert payload[start..start + 2 * |ps|][2 * i + 1] == TypeBytes(ps)[2 * i + 1];
  }

  lemma TypesAreFound(reading: Reading, bound: bool, payload: seq<byte>, flag: nat, ps: seq<Param>)
    requires Remembers(reading, bound, ps) && flag < |payload| && payload[flag] == if bound then 1 else 0
    requires bound ==>
               && flag + 1 + 2 * |ps| <= |payload|
               && payload[flag + 1..flag + 1 + 2 * |ps|] == TypeBytes(ps)
    ensures ReadTypes(reading, payload, |ps|, flag)
            == (Types(reading, bound, ps), flag + 1 + (if bound then 2 * |ps| else 0))
  {
    hide EntryAt, TypeSeen, TypeBytes, DefaultTypes;
    if bound {
      var types := ReadTypes(reading, payload, |ps|, flag).0;
      forall i | 0 <= i < |ps|
        ensures types[i] == Types(reading, bound, ps)[i]
      {
        EntryIsFound(reading, payload, flag + 1, ps, i);
      }
      assert types == Types(reading, bound, ps);
    }
  }

  lemma NullsAreFound(ps: seq<Param>)
    ensures NullsOf(Bitmap(ps), |ps|) == Nulls(ps)
  {
    forall i | 0 <= i < |ps|
      ensures NullsOf(Bitmap(ps), |ps|)[i] == Nulls(ps)[i]
    {
      BitmapBit(ps, i);
    }
  }

  lemma ParseParametersOf(reading: Reading, payload: seq<byte>, n: nat, bitmap: seq<byte>, types: seq<TypeEntry>,
                          start: nat)
    requires n > 0 && |bitmap| == BitmapLength(n) && |types| == n
    requires |payload| > 5 + |bitmap| && payload[5..5 + |bitmap|] == bitmap
    requires ReadTypes(reading, payload, n, 5 + |bitmap|) == (types, start)
    ensures ParseParameters(reading, payload, n)
            == ReadValues(reading, payload, NullsOf(bitmap, n), types, 0, start)
  {
    hide ReadTypes, ReadValues, NullsOf;
  }

  lemma ParserReadsLayout(reading: Reading, bound: bool, ps: seq<Param>, payload: seq<byte>)
    requires ps != [] && Remembers(reading, bound, ps) && LaidOut(bound, ps, payload)
    ensures ParseParameters(reading, payload, |ps|)
            == ReadFrom(reading, bound, payload, ps, 0, ValuesStart(bound, |ps|))
  {
    hide ReadValues, ReadTypes, NullsOf, Bitmap, Nulls, Types, TypeBytes, BitmapLength, ParseParameters, Remembers,
      TypeSeen, EntryOf, IsNull;
    TypesAreFound(reading, bound, payload, FlagAt(|ps|), ps);
    NullsAreFound(ps);
    ParseParametersOf(reading, payload, |ps|, Bitmap(ps), Types(reading, bound, ps), ValuesStart(bound, |ps|));
  }

  /** The parser finds the bitmap, the types and the values where the client put them. */
  lemma ParserFindsValues(reading: Reading, bound: bool, ps: seq<Param>)
    requires ps != [] && Remembers(reading, bound, ps)
    ensures At(ExecutePayload(bound, ps), ValuesStart(bound, |ps|), ValueBytes(ps))
    ensures ParseParameters(reading, ExecutePayload(bound, ps), |ps|)
            == ReadFrom(reading, bound, ExecutePayload(bound, ps), ps, 0, ValuesStart(bound, |ps|))
  {
    hide *;
    PayloadLayout(bound, ps);
    ParserReadsLayout(reading, bound, ps, ExecutePayload(bound, ps));
  }

  predicate AllSendable(ps: seq<Param>) {
    forall m :: 0 <= m < |ps| ==> Sendable(ps[m])
  }

  /** The parser recovers exactly the parameters the client sent. */
  predicate Survives(reading: Reading, bound: bool, ps: seq<Param>) {
    ParseParameters(reading, ExecutePayload(bound, ps), |ps|) == Literals(ps)
  }

  /**
   In the intended reading every list in every order comes back, sent with its types or, types remembered,
   without them.
   */
  lemma IntendedRoundTrip(bound: bool, remembered: seq<TypeEntry>, ps: seq<Param>)
    requires AllSendable(ps) && Remembers(Intended(remembered), bound, ps)
    ensures Survives(Intended(remembered), bound, ps)
  {
    hide ExecutePayload, ValueBytes, Literals, ReadFrom, ParseParameters, ValuesStart, At, Remembers;
    if ps != [] {
      var reading := Intended(remembered);
      ParserFindsValues(reading, bound, ps);
      assert ps[0..|ps|] == ps;
      ReadRun(reading, bound, ExecutePayload(bound, ps), ps, 0, |ps|, ValuesStart(bound, |ps|));
    } else {
      NothingSent(Intended(remembered), bound);
    }
  }

  lemma NothingSent(reading: Reading, bound: bool)
    ensures Survives(reading, bound, [])
  {
  }

  // ----- The code as written -----

  /**
   What puts the parser off: a SHORT, an integer that wraps, any integer sent without types; and a string with a
   non-NULL parameter behind it.
   */
  predicate Faulty(bound: bool, kinds: seq<Kind>, f: nat)
    requires f < |kinds|
  {
    || (kinds[f].IntKind? && (!bound || kinds[f].width == Two || kinds[f].wraps))
    || (kinds[f] == StrKind && exists j :: f < j < |kinds| && kinds[j] != NullKind)
  }

  predicate Safe(bound: bool, kinds: seq<Kind>) {
    forall f :: 0 <= f < |kinds| ==> !Faulty(bound, kinds, f)
  }

  function Shape(ps: seq<Param>): (kinds: seq<Kind>)
    ensures |kinds| == |ps| && forall k :: 0 <= k < |ps| ==> kinds[k] == KindOf(ps[k])
  {
    seq(|ps|, k requires 0 <= k < |ps| => KindOf(ps[k]))
  }

  lemma NoFaultMeansExact(bound: bool, ps: seq<Param>, f: nat, m: nat)
    requires m < f < |ps| && !Faulty(bound, Shape(ps), m) && ps[f] != Null && Sendable(ps[m])
    ensures ReadsExactly(AsWritten, bound, ps[m])
  {
    assert Shape(ps)[f] != NullKind;
  }

  function OffsetOf(bound: bool, ps: seq<Param>, f: nat): nat
    requires f <= |ps|
  {
    ValuesStart(bound, |ps|) + |ValueBytes(ps[..f])|
  }

  lemma NothingToRemember(bound: bool, ps: seq<Param>)
    ensures Remembers(AsWritten, bound, ps)
  {
  }

  /** Up to the first fault the code reads every parameter exactly, since a string there has only NULLs behind. */
  lemma ReadUpTo(bound: bool, ps: seq<Param>, f: nat)
    requires f < |ps| && (forall m :: 0 <= m < f ==> !Faulty(bound, Shape(ps), m)) && ps[f] != Null
    requires AllSendable(ps)
    ensures At(ExecutePayload(bound, ps), OffsetOf(bound, ps, f), ValueBytes(ps[f..]))
    ensures OffsetOf(bound, ps, f) + |ValueBytes(ps[f..])| == |ExecutePayload(bound, ps)|
    ensures ParseParameters(AsWritten, ExecutePayload(bound, ps), |ps|)
            == Literals(ps[..f]) + ReadFrom(AsWritten, bound, ExecutePayload(bound, ps), ps, f, OffsetOf(bound, ps, f))
  {
    hide ExecutePayload, ReadFrom, ParseParameters, ValuesStart, At, Faulty, ReadsExactly, ValueBytes, Literals,
      LaidOut, Shape, Sendable, InRange, Remembers;
    assert Remembers(AsWritten, bound, ps) by { NothingToRemember(bound, ps); }
    ParserFindsValues(AsWritten, bound, ps);
    forall m | 0 <= m < f
      ensures ReadsExactly(AsWritten, bound, ps[m])
    {
      NoFaultMeansExact(bound, ps, f, m);
    }
    Split(ps, f);
    PayloadLayout(bound, ps);
    AtSplit(ExecutePayload(bound, ps), ValuesStart(bound, |ps|), ValueBytes(ps[..f]), ValueBytes(ps[f..]));
    assert ps[0..f] == ps[..f];
    ReadRun(AsWritten, bound, ExecutePayload(bound, ps), ps, 0, f, ValuesStart(bound, |ps|));
  }

  /** NULLs need no offset. */
  lemma ReadNulls(bound: bool, payload: seq<byte>, ps: seq<Param>, i: nat, k: nat, offset: nat)
    requires i <= k <= |ps| && offset <= |payload|
    requires forall m :: i <= m < k ==> ps[m] == Null
    ensures ReadFrom(AsWritten, bound, payload, ps, i, offset)
            == Literals(ps[i..k]) + ReadFrom(AsWritten, bound, payload, ps, k, offset)
  {
    NullsHaveNoBytes(ps[i..k]);
    ReadRun(AsWritten, bound, payload, ps, i, k, offset);
  }

  lemma LastNonNull(ps: seq<Param>) returns (last: int)
    ensures -1 <= last < |ps|
    ensures forall m :: last < m < |ps| ==> ps[m] == Null
    ensures last >= 0 ==> ps[last] != Null
  {
    last := |ps| - 1;
    while last >= 0 && ps[last] == Null
      invariant -1 <= last < |ps|
      invariant forall m :: last < m < |ps| ==> ps[m] == Null
    {
      last := last - 1;
    }
  }

  lemma FirstRead(reading: Reading, bound: bool, payload: seq<byte>, ps: seq<Param>, i: nat, offset: nat)
    requires i < |ps| && ps[i] != Null && offset < |payload| && Remembers(reading, bound, ps)
    ensures var r := ReadValue(reading, payload, offset, TypeSeen(reading, bound, ps[i]));
            ReadFrom(reading, bound, payload, ps, i, offset)
            == [r.0] + ReadFrom(reading, bound, payload, ps, i + 1, r.1)
  {
    hide ReadValue, TypeSeen, Types, Remembers;
    ReadValuesStep(reading, payload, Nulls(ps), Types(reading, bound, ps), i, offset);
  }

  /** The last non-NULL parameter, and the NULLs behind it; a string is welcome here, with or without types. */
  lemma ReadLast(bound: bool, payload: seq<byte>, ps: seq<Param>, last: nat, offset: nat)
    requires last < |ps| && ps[last] != Null && Sendable(ps[last])
    requires ps[last].Str? || ReadsExactly(AsWritten, bound, ps[last])
    requires forall m :: last < m < |ps| ==> ps[m] == Null
    requires At(payload, offset, ValueBytes(ps[last..]))
    ensures ReadFrom(AsWritten, bound, payload, ps, last, offset) == Literals(ps[last..])
  {
    hide ReadValue, ReadValues, ReadFrom, IntText, LenencStr, Quoted, At, Types;
    var p := ps[last];
    assert ps[last..|ps|] == ps[last..] && ps[last + 1..|ps|] == ps[last + 1..];
    SliceStep(ps, last, |ps|);
    AtSplit(payload, offset, ParamBytes(p), ValueBytes(ps[last + 1..]));
    if p.Str? {
      ReadValueOfStr(AsWritten, payload, offset, p.s);
    } else {
      ReadValueOfParam(AsWritten, bound, payload, offset, p);
    }
    FirstRead(AsWritten, bound, payload, ps, last, offset);
    var next := ReadValue(AsWritten, payload, offset, TypeSeen(AsWritten, bound, p)).1;
    ReadNulls(bound, payload, ps, last + 1, |ps|, next);
    NothingLeft(bound, payload, ps, next);
  }

  lemma NothingLeft(bound: bool, payload: seq<byte>, ps: seq<Param>, offset: nat)
    ensures ReadFrom(AsWritten, bound, payload, ps, |ps|, offset) == []
  {
  }

  lemma OnlyNulls(bound: bool, ps: seq<Param>)
    requires ps != [] && forall m :: 0 <= m < |ps| ==> ps[m] == Null
    ensures Survives(AsWritten, bound, ps)
  {
    hide ExecutePayload, At, ValueBytes, ParseParameters, Literals, ReadFrom;
    var payload := ExecutePayload(bound, ps);
    ParserFindsValues(AsWritten, bound, ps);
    PayloadLayout(bound, ps);
    ReadNulls(bound, payload, ps, 0, |ps|, ValuesStart(bound, |ps|));
    assert ps[0..|ps|] == ps;
    NothingLeft(bound, payload, ps, ValuesStart(bound, |ps|));
  }

  lemma AsWrittenRoundTrip(bound: bool, ps: seq<Param>)
    requires AllSendable(ps) && Safe(bound, Shape(ps))
    ensures Survives(AsWritten, bound, ps)
  {
    hide ExecutePayload, ReadFrom, At, ValueBytes, ParseParameters, OffsetOf, ValuesStart, Literals;
    var last := LastNonNull(ps);
    if last >= 0 {
      ReadUpTo(bound, ps, last);
      assert !Faulty(bound, Shape(ps), last);
      ReadLast(bound, ExecutePayload(bound, ps), ps, last, OffsetOf(bound, ps, last));
      Split(ps, last);
    } else if ps != [] {
      OnlyNulls(bound, ps);
    } else {
      NothingSent(AsWritten, bound);
    }
  }
}
