/** Which parameter lists the parser of db_proxy/mod.rs, as written, does not recover. */
module BinaryParameterFaults {
  import opened Bytes
  import opened Decimal
  import opened BinaryParameters

  /**
   A parameter of the given kind for a list that is misread: an integer has all its bits set, except that a SHORT
   below the sign bit is 0 at the fault; a string is "a", and empty at the fault.
   */
  function Sample(kind: Kind, atFault: bool): (p: Param)
    ensures KindOf(p) == kind && Sendable(p)
  {
    match kind
    case NullKind => Null
    case StrKind => Str(if atFault then [] else [0x61])
    case IntKind(width, wraps) =>
      if wraps then Int(width, true, Pow256(Size(width)) - 1)
      else if atFault && width == Two then Int(Two, false, 0)
      else Int(width, false, -1)
  }

  function Samples(kinds: seq<Kind>, f: nat): (ps: seq<Param>)
    ensures |ps| == |kinds| && forall k :: 0 <= k < |kinds| ==> ps[k] == Sample(kinds[k], k == f)
  {
    seq(|kinds|, k requires 0 <= k < |kinds| => Sample(kinds[k], k == f))
  }

  lemma FirstByte(v: nat, n: nat)
    requires n > 0
    ensures ToLE(v, n)[0] == v % 256
  {
  }

  lemma LowByteOfAllOnes(n: nat)
    requires n > 0
    ensures (Pow256(n) - 1) % 256 == 255
  {
    RemainderIsUnique(Pow256(n) - 1, 256, Pow256(n - 1) - 1, 255);
  }

  lemma SampleStartsNonzero(kind: Kind)
    requires kind != NullKind
    ensures var bytes := ParamBytes(Sample(kind, false)); bytes != [] && bytes[0] != 0
  {
    hide FromLE, Pow256, ToLE;
    if kind.IntKind? {
      var n := Size(kind.width);
      FirstByte(Pow256(n) - 1, n);
      LowByteOfAllOnes(n);
    }
  }

  lemma {:induction false} ValuesStartNonzero(ps: seq<Param>)
    requires forall k :: 0 <= k < |ps| ==> ps[k] == Sample(KindOf(ps[k]), false)
    ensures ValueBytes(ps) == [] || ValueBytes(ps)[0] != 0
  {
    hide ParamBytes, Sample;
    if ps != [] {
      if ps[0] == Null {
        assert ParamBytes(ps[0]) == [] by { NullHasNoBytes(); }
        ValuesStartNonzero(ps[1..]);
      } else {
        SampleStartsNonzero(KindOf(ps[0]));
      }
    }
  }

  lemma NullHasNoBytes()
    ensures ParamBytes(Null) == []
  {
  }

  lemma FirstFault(bound: bool, kinds: seq<Kind>) returns (f: nat)
    requires !Safe(bound, kinds)
    ensures f < |kinds| && Faulty(bound, kinds, f) && forall m :: 0 <= m < f ==> !Faulty(bound, kinds, m)
  {
    f := 0;
    while !Faulty(bound, kinds, f)
      invariant f < |kinds| && forall m :: 0 <= m < f ==> !Faulty(bound, kinds, m)
      decreases |kinds| - f
    {
      f := f + 1;
    }
  }

  lemma DistinctText(i: int, j: int)
    requires i != j
    ensures IntText(i) != IntText(j)
  {
    IntRoundTrip(i);
    IntRoundTrip(j);
  }

  /** A SHORT is read as four bytes, and a value cut short reads as NULL. */
  lemma ShortIsMisread(payload: seq<byte>, offset: nat, b: byte, behind: seq<byte>)
    requires offset + 2 + |behind| == |payload|
    requires payload[offset] == payload[offset + 1] == b && payload[offset + 2..] == behind
    requires behind == [] || behind[0] != 0
    ensures ReadValue(AsWritten, payload, offset, TypeEntry(SHORT_CODE, false)).0 != IntText(257 * b)
  {
    if |behind| >= 2 {
      var four := payload[offset..offset + 4];
      assert payload[offset + 2] == behind[0] && payload[offset + 3] == behind[1];
      assert four == [b, b, behind[0], behind[1]];
      FourBytes(b, b, behind[0], behind[1]);
      Powers();
      DistinctText(SignedFromLE(four), 257 * b);
    }
  }

  lemma ShortBytes(wraps: bool)
    ensures var b := if wraps then 255 else 0;
            ParamBytes(Sample(IntKind(Two, wraps), true)) == [b, b] && Sample(IntKind(Two, wraps), true).i == 257 * b
  {
    var b: nat := if wraps then 255 else 0;
    Powers();
    assert ToLE(b, 1) == [b] + ToLE(0, 0);
    assert ToLE(257 * b, 2) == [b] + ToLE(b, 1);
  }

  lemma ShortSampleIsMisread(payload: seq<byte>, offset: nat, wraps: bool, behind: seq<byte>)
    requires At(payload, offset, ParamBytes(Sample(IntKind(Two, wraps), true)) + behind)
    requires offset + |ParamBytes(Sample(IntKind(Two, wraps), true)) + behind| == |payload|
    requires behind == [] || behind[0] != 0
    ensures offset < |payload|
    ensures ReadValue(AsWritten, payload, offset, TypeEntry(SHORT_CODE, false)).0
            != Literal(Sample(IntKind(Two, wraps), true))
  {
    hide ReadValue, ParamBytes, Sample, IntText;
    var b := if wraps then 255 else 0;
    ShortBytes(wraps);
    var bytes := payload[offset..];
    assert bytes == [b, b] + behind;
    assert payload[offset] == bytes[0] && payload[offset + 1] == bytes[1] && payload[offset + 2..] == bytes[2..];
    ShortIsMisread(payload, offset, b, behind);
  }

  /** An integer that wraps is read as a negative number. */
  lemma WrappingSampleIsMisread(payload: seq<byte>, offset: nat, width: Width)
    requires width != Two && At(payload, offset, ParamBytes(Sample(IntKind(width, true), true)))
    ensures offset < |payload|
    ensures ReadValue(AsWritten, payload, offset, TypeEntry(WidthCode(width), false)).0
            != Literal(Sample(IntKind(width, true), true))
  {
    hide IntText, ToLE, FromLE, Pow256, ReadLenencStringSafe;
    var n := Size(width);
    var all := Pow256(n) - 1;
    assert Sample(IntKind(width, true), true) == Int(width, true, all);
    hide Sample;
    assert ParamBytes(Int(width, true, all)) == ToLE(all, n);
    assert IntWidth(AsWritten, WidthCode(width)) == n;
    LERoundTrip(all, n);
    DistinctText(-1, all);
  }

  /** Without types an integer is read as a string, and its literal has no quote. */
  lemma IntIsNoString(payload: seq<byte>, offset: nat, p: Param)
    requires offset < |payload| && p.Int?
    ensures ReadValue(AsWritten, payload, offset, TypeEntry(STRING_CODE, false)).0 != Literal(p)
  {
  }

  /** The sample of a faulty integer kind is misread wherever it stands. */
  lemma IntIsMisread(bound: bool, payload: seq<byte>, offset: nat, kind: Kind, behind: seq<byte>)
    requires kind.IntKind? && (!bound || kind.width == Two || kind.wraps)
    requires At(payload, offset, ParamBytes(Sample(kind, true)) + behind)
    requires offset + |ParamBytes(Sample(kind, true)) + behind| == |payload|
    requires behind == [] || behind[0] != 0
    ensures offset < |payload|
    ensures var p := Sample(kind, true);
            ReadValue(AsWritten, payload, offset, TypeSeen(AsWritten, bound, p)).0 != Literal(p)
  {
    hide ReadValue, Sample, Literal, At;
    AtSplit(payload, offset, ParamBytes(Sample(kind, true)), behind);
    if !bound {
      IntIsNoString(payload, offset, Sample(kind, true));
    } else if kind.width == Two {
      ShortSampleIsMisread(payload, offset, kind.wraps, behind);
    } else {
      WrappingSampleIsMisread(payload, offset, kind.width);
    }
  }

  lemma StringAtOne(payload: seq<byte>)
    requires |payload| >= 9 && payload[1] == 1 && payload[2] == 0
    ensures ReadValue(AsWritten, payload, 1, TypeEntry(STRING_CODE, false)).0 != Quoted([0x61])
  {
    assert payload[1..][1..2] == [0];
    assert Doubled([0]) == [0] + Doubled([]) && Doubled([0x61]) == [0x61] + Doubled([]);
    assert Quoted([0])[1] == 0 && Quoted([0x61])[1] == 0x61;
  }

  /** A number whose low byte is 1 is none with all bits set. */
  lemma LowByteOne(s: seq<byte>, n: nat)
    requires s != [] && s[0] == 1 && n > 0
    ensures SignedFromLE(s) != -1 && SignedFromLE(s) != Pow256(n) - 1
  {
    FromLEStep(s);
    assert Pow256(|s|) == 256 * Pow256(|s| - 1) && Pow256(n) == 256 * Pow256(n - 1);
  }

  lemma IntAtOne(payload: seq<byte>, kind: Kind)
    requires |payload| >= 9 && payload[1] == 1 && kind.IntKind?
    ensures ReadValue(AsWritten, payload, 1, TypeEntry(WidthCode(kind.width), false)).0 != Literal(Sample(kind, false))
  {
    hide IntText, SignedFromLE, Pow256, ReadLenencStringSafe;
    var s := payload[1..1 + IntWidth(AsWritten, WidthCode(kind.width))];
    LowByteOne(s, Size(kind.width));
    DistinctText(SignedFromLE(s), Sample(kind, false).i);
  }

  /** At offset 1 stands the iteration count 1, which is no number with all bits set and no "a". */
  lemma MisreadAtOne(bound: bool, payload: seq<byte>, kind: Kind)
    requires |payload| >= 9 && payload[1] == 1 && payload[2] == 0 && kind != NullKind
    ensures var p := Sample(kind, false);
            ReadValue(AsWritten, payload, 1, TypeSeen(AsWritten, bound, p)).0 != Literal(p)
  {
    hide ReadValue, Quoted, IntText;
    if kind == StrKind {
      StringAtOne(payload);
    } else if bound {
      IntAtOne(payload, kind);
    } else {
      IntIsNoString(payload, 1, Sample(kind, false));
    }
  }

  /** A text that differs from its parameter's literal makes the whole list differ. */
  lemma WrongAt(ps: seq<Param>, f: nat, read: seq<text>, i: nat)
    requires f + i < |ps| && |read| == |ps| - f && read[i] != Literal(ps[f + i])
    ensures Literals(ps[..f]) + read != Literals(ps)
  {
    hide *;
    LiteralAt(ps, f + i);
    assert (Literals(ps[..f]) + read)[f + i] == read[i];
  }

  lemma IntFault(bound: bool, kinds: seq<Kind>, f: nat)
    requires f < |kinds| && kinds[f].IntKind? && (!bound || kinds[f].width == Two || kinds[f].wraps)
    requires forall m :: 0 <= m < f ==> !Faulty(bound, kinds, m)
    ensures !Survives(AsWritten, bound, Samples(kinds, f))
  {
    hide Faulty, ReadFrom, ExecutePayload, ParseParameters, OffsetOf, ValuesStart, IntText, ReadValue, ParamBytes, At,
      ValueBytes, TypeSeen, Remembers;
    var ps := Samples(kinds, f);
    var payload, offset := ExecutePayload(bound, ps), OffsetOf(bound, ps, f);
    assert Shape(ps) == kinds;
    ReadUpTo(bound, ps, f);
    ValuesStartNonzero(ps[f + 1..]);
    SliceStep(ps, f, |ps|);
    assert ps[f..|ps|] == ps[f..] && ps[f + 1..|ps|] == ps[f + 1..];
    IntIsMisread(bound, payload, offset, kinds[f], ValueBytes(ps[f + 1..]));
    NothingToRemember(bound, ps);
    FirstRead(AsWritten, bound, payload, ps, f, offset);
    WrongAt(ps, f, ReadFrom(AsWritten, bound, payload, ps, f, offset), 0);
  }

  /** Behind the string the code stands at offset 1, the string's own size. */
  lemma StringFault(bound: bool, kinds: seq<Kind>, f: nat, j: nat)
    requires f < j < |kinds| && kinds[f] == StrKind && (forall m :: 0 <= m < f ==> !Faulty(bound, kinds, m))
    requires kinds[j] != NullKind && forall m :: f < m < j ==> kinds[m] == NullKind
    ensures !Survives(AsWritten, bound, Samples(kinds, f))
  {
    hide Faulty, ReadFrom, ExecutePayload, ParseParameters, OffsetOf, IntText, ReadValue, ParamBytes, At, ValueBytes,
      TypeSeen, Remembers, Literal;
    var ps := Samples(kinds, f);
    var payload, offset := ExecutePayload(bound, ps), OffsetOf(bound, ps, f);
    assert Shape(ps) == kinds;
    ReadUpTo(bound, ps, f);
    NothingToRemember(bound, ps);
    StringBytes(bound, payload, ps, f, offset);
    FirstRead(AsWritten, bound, payload, ps, f, offset);
    ReadNulls(bound, payload, ps, f + 1, j, 1);
    FirstRead(AsWritten, bound, payload, ps, j, 1);
    PayloadIsLong(bound, ps, f, j);
    MisreadAtOne(bound, payload, kinds[j]);
    var read := ReadFrom(AsWritten, bound, payload, ps, f, offset);
    assert |Literals(ps[f + 1..j])| == j - f - 1;
    WrongAt(ps, f, read, j - f);
  }

  lemma PayloadIsLong(bound: bool, ps: seq<Param>, f: nat, j: nat)
    requires f < j < |ps| && ps[f].Str? && ps[j] == Sample(KindOf(ps[j]), false) && ps[j] != Null
    ensures var payload := ExecutePayload(bound, ps); |payload| >= 9 && payload[1] == 1 && payload[2] == 0
  {
    hide ExecutePayload, ParamBytes, ValueBytes, Sample, Literals, At, LaidOut;
    PayloadLayout(bound, ps);
    var payload := ExecutePayload(bound, ps);
    assert payload[1] == payload[..5][1] && payload[2] == payload[..5][2];
    Split(ps, f);
    SliceStep(ps, f, |ps|);
    assert ps[f..|ps|] == ps[f..] && ps[f + 1..|ps|] == ps[f + 1..];
    assert |ParamBytes(ps[f])| >= 1 by { StrHasBytes(ps[f]); }
    Split(ps[f + 1..], j - f - 1);
    assert ps[f + 1..][j - f - 1..] == ps[j..];
    SliceStep(ps, j, |ps|);
    assert ps[j..|ps|] == ps[j..];
    SampleStartsNonzero(KindOf(ps[j]));
  }

  lemma StrHasBytes(p: Param)
    requires p.Str?
    ensures ParamBytes(p) != []
  {
  }

  lemma StringBytes(bound: bool, payload: seq<byte>, ps: seq<Param>, f: nat, offset: nat)
    requires f < |ps| && ps[f] == Str([]) && At(payload, offset, ValueBytes(ps[f..]))
    ensures offset < |payload|
    ensures ReadValue(AsWritten, payload, offset, TypeSeen(AsWritten, bound, ps[f])) == (Quoted([]), 1)
  {
    AtSplit(payload, offset, ParamBytes(ps[f]), ValueBytes(ps[f..][1..]));
    ReadValueOfStr(AsWritten, payload, offset, []);
  }

  lemma NextNonNull(kinds: seq<Kind>, f: nat) returns (j: nat)
    requires f < |kinds| && exists k :: f < k < |kinds| && kinds[k] != NullKind
    ensures f < j < |kinds| && kinds[j] != NullKind && forall m :: f < m < j ==> kinds[m] == NullKind
  {
    j := f + 1;
    while kinds[j] == NullKind
      invariant f < j < |kinds| && forall m :: f < m < j ==> kinds[m] == NullKind
      decreases |kinds| - j
    {
      j := j + 1;
    }
  }

  lemma SampleDoesNotSurvive(bound: bool, kinds: seq<Kind>) returns (ps: seq<Param>)
    requires !Safe(bound, kinds)
    ensures Shape(ps) == kinds && AllSendable(ps) && !Survives(AsWritten, bound, ps)
  {
    hide Survives, Sample;
    var f := FirstFault(bound, kinds);
    ps := Samples(kinds, f);
    assert Shape(ps) == kinds;
    if kinds[f].IntKind? {
      IntFault(bound, kinds, f);
    } else {
      var j := NextNonNull(kinds, f);
      StringFault(bound, kinds, f, j);
    }
  }

  /**
   The kinds of a statement's parameters can be trusted to the parser as written exactly when no string has a
   non-NULL parameter behind it and, if the types are sent, every integer is below the sign bit of its width and no
   SHORT, or, if they are not, there is no integer at all.
   */
  lemma AsWrittenExactly(bound: bool, kinds: seq<Kind>)
    ensures Safe(bound, kinds) <==>
            forall ps :: Shape(ps) == kinds && AllSendable(ps) ==> Survives(AsWritten, bound, ps)
  {
    hide Survives;
    if Safe(bound, kinds) {
      forall ps | Shape(ps) == kinds && AllSendable(ps)
        ensures Survives(AsWritten, bound, ps)
      {
        AsWrittenRoundTrip(bound, ps);
      }
    } else {
      var ps := SampleDoesNotSurvive(bound, kinds);
    }
  }

  lemma {:induction false} StringOrNull(payload: seq<byte>, nulls: seq<bool>, types: seq<TypeEntry>,
                                        i: nat, k: nat, offset: nat)
    requires i <= k < |types| && |nulls| == |types| && types[k] == TypeEntry(STRING_CODE, false)
    ensures var read := ReadValues(AsWritten, payload, nulls, types, i, offset)[k - i];
            read != [] && (read[0] == NULL_TEXT[0] || read[0] == QUOTE)
    decreases k - i
  {
    hide ReadValues, ReadLenencStringSafe, IntText;
    ReadValuesStep(AsWritten, payload, nulls, types, i, offset);
    if i < k {
      var skipped := nulls[i] || offset >= |payload|;
      StringOrNull(payload, nulls, types, i + 1, k,
                   if skipped then offset else ReadValue(AsWritten, payload, offset, types[i]).1);
    }
  }

  /** Executed again without types, a statement with an integer among its parameters never gets them right. */
  lemma NoIntegerWithoutTypes(ps: seq<Param>, k: nat)
    requires k < |ps| && ps[k].Int?
    ensures !Survives(AsWritten, false, ps)
  {
    hide ReadValues, ParseParameters, ExecutePayload, IntText, ValueBytes, At, Types, ValuesStart, Nulls;
    ParserFindsValues(AsWritten, false, ps);
    StringOrNull(ExecutePayload(false, ps), Nulls(ps), Types(AsWritten, false, ps), 0, k, ValuesStart(false, |ps|));
    LiteralAt(ps, k);
  }
}
