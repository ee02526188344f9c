/** The decimal text Rust's to_string gives an integer, and a reference reader for it. */
module Decimal {
  import opened Bytes
  import opened Wrappers

  const MINUS: byte := 0x2d
  const ZERO: byte := 0x30

  predicate IsDigit(b: byte) {
    ZERO <= b < ZERO + 10
  }

  function NatText(n: nat): (s: text)
    ensures s != [] && forall k :: 0 <= k < |s| ==> IsDigit(s[k])
  {
    if n < 10 then [ZERO + n] else NatText(n / 10) + [ZERO + n % 10]
  }

  function IntText(i: int): (s: text)
    ensures s != [] && (s[0] == MINUS || IsDigit(s[0]))
    ensures forall k :: 0 < k < |s| ==> IsDigit(s[k])
  {
    if i < 0 then [MINUS] + NatText(-i) else NatText(i)
  }

  function ReadNat(s: text): Option<nat> {
    if s == [] then None
    else
      var last := s[|s| - 1];
      if !IsDigit(last) then None
      else if |s| == 1 then Some(last - ZERO)
      else match ReadNat(s[..|s| - 1])
        case None => None
        case Some(high) => Some(10 * high + (last - ZERO))
  }

  function ReadInt(s: text): Option<int> {
    if s != [] && s[0] == MINUS then
      var r := ReadNat(s[1..]);
      if r == None then None else Some(0 - r.value)
    else
      ReadNat(s)
  }

  lemma {:induction false} NatRoundTrip(n: nat)
    ensures ReadNat(NatText(n)) == Some(n)
  {
    if n >= 10 {
      NatRoundTrip(n / 10);
      assert NatText(n)[..|NatText(n)| - 1] == NatText(n / 10);
    }
  }

  /** The digits and the sign as ASCII has them: the last digit is the remainder by ten. */
  lemma AsciiDigits(n: nat)
    ensures var t := NatText(n); t[|t| - 1] == 0x30 + n % 10
    ensures n > 0 ==> IntText(-(n as int)) == [0x2d] + NatText(n)
    ensures n < 10 ==> IntText(n) == [0x30 + n]
  {
  }

  /** The text has no superfluous leading zero. */
  lemma {:induction false} NoLeadingZero(n: nat)
    ensures |NatText(n)| > 1 ==> NatText(n)[0] != 0x30
  {
    if n >= 10 {
      NoLeadingZero(n / 10);
      if n / 10 < 10 {
        assert NatText(n / 10) == [ZERO + n / 10];
      }
    }
  }

  /** A decimal text of the integer: signed only if negative, and without a superfluous leading zero. */
  predicate IsTextOf(t: text, i: int) {
    && ReadInt(t) == Some(i) && (t != [] && t[0] == 0x2d ==> i < 0)
    && forall k :: 0 <= k < |t| - 1 && t[k] == 0x30 && (k == 0 || t[k - 1] == 0x2d) ==> false
  }

  lemma IntTextIsTextOf(i: int)
    ensures IsTextOf(IntText(i), i)
  {
    IntRoundTrip(i);
    NoLeadingZero(if i < 0 then -i else i);
    if i < 0 {
      assert IntText(i)[1..] == NatText(-i);
    }
  }

  /** Decimal text determines the integer, so two integers with equal text are equal. */
  lemma IntRoundTrip(i: int)
    ensures ReadInt(IntText(i)) == Some(i)
  {
    if i < 0 {
      NatRoundTrip(-i);
      assert IntText(i)[1..] == NatText(-i);
    } else {
      NatRoundTrip(i);
    }
  }
}
