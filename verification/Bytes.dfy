/** Bytes and little-endian integers. A shift or mask of the source is written as a division or remainder. */
module Bytes {
  type byte = x: int | 0 <= x < 256
  type text = seq<byte>

  const TWO_16: nat := 0x1_0000
  const TWO_24: nat := 0x100_0000
  const TWO_32: nat := 0x1_0000_0000
  const TWO_64: nat := 0x1_0000_0000_0000_0000

  type u16 = x: int | 0 <= x < 0x1_0000
  type u32 = x: int | 0 <= x < 0x1_0000_0000
  type u64 = x: int | 0 <= x < 0x1_0000_0000_0000_0000
  type i64 = x: int | -0x8000_0000_0000_0000 <= x < 0x8000_0000_0000_0000

  /** Rust's `as u64` of a length. */
  function AsU64(n: nat): (v: u64)
    ensures n < 0x1_0000_0000_0000_0000 ==> v == n
  {
    if n < TWO_64 then n else n % TWO_64
  }

  function Pow256(n: nat): (p: nat)
    ensures p > 0
  {
    if n == 0 then 1 else 256 * Pow256(n - 1)
  }

  /** The n low-order bytes of v, least significant first. */
  function ToLE(v: nat, n: nat): (s: seq<byte>)
    ensures |s| == n
  {
    if n == 0 then [] else [v % 256] + ToLE(v / 256, n - 1)
  }

  function FromLE(s: seq<byte>): nat {
    if s == [] then 0 else s[0] + 256 * FromLE(s[1..])
  }

  lemma FromLEStep(s: seq<byte>)
    requires s != []
    ensures FromLE(s) == s[0] + 256 * FromLE(s[1..])
  {
  }

  lemma TwoBytes(a: byte, b: byte)
    ensures FromLE([a, b]) == a + 256 * b
  {
    FromLEStep([a, b]);
    FromLEStep([b]);
    assert [a, b][1..] == [b] && [b][1..] == [];
  }

  lemma FourBytes(a: byte, b: byte, c: byte, d: byte)
    ensures FromLE([a, b, c, d]) == a + 0x100 * b + 0x1_0000 * c + 0x100_0000 * d
  {
    FromLEStep([a, b, c, d]);
    FromLEStep([b, c, d]);
    assert [a, b, c, d][1..] == [b, c, d] && [b, c, d][1..] == [c, d];
    TwoBytes(c, d);
  }

  lemma MultipleIsLarge(d: int, k: int)
    requires d > 0
    ensures k >= 1 ==> d * k >= d
    ensures k <= -1 ==> d * k <= -d
  {
  }

  lemma QuotientIsUnique(v: int, d: int, q: int, r: int)
    requires d > 0 && 0 <= r < d && v == d * q + r
    ensures v / d == q && v % d == r
  {
    var q', r' := v / d, v % d;
    assert v == d * q' + r';
    assert d * (q' - q) == d * q' - d * q;
    MultipleIsLarge(d, q' - q);
  }

  lemma RemainderIsUnique(v: int, d: int, q: int, r: int)
    requires d > 0 && 0 <= r < d && v == d * q + r
    ensures v % d == r
  {
    QuotientIsUnique(v, d, q, r);
  }

  lemma RemainderOfDigits(v: nat, p: nat)
    requires p > 0
    ensures v % (256 * p) == v % 256 + 256 * ((v / 256) % p)
  {
    var k, m := (v / 256) / p, (v / 256) % p;
    assert v / 256 == p * k + m;
    assert 256 * (p * k) == (256 * p) * k;
    RemainderIsUnique(v, 256 * p, k, 256 * m + v % 256);
  }

  /** Reading back n little-endian bytes gives the number modulo 256^n. */
  lemma {:induction false} FromLEOfToLE(v: nat, n: nat)
    ensures FromLE(ToLE(v, n)) == v % Pow256(n)
  {
    if n > 0 {
      FromLEOfToLE(v / 256, n - 1);
      assert ToLE(v, n)[1..] == ToLE(v / 256, n - 1);
      RemainderOfDigits(v, Pow256(n - 1));
    }
  }

  lemma DigitOfQuotient(v: nat, p: nat)
    requires p > 0
    ensures v / 256 / p == v / (256 * p)
  {
    var q, r := v / 256 / p, (v / 256) % p;
    assert v / 256 == p * q + r;
    assert 256 * (p * q) == (256 * p) * q;
    QuotientIsUnique(v, 256 * p, q, 256 * r + v % 256);
  }

  /** Little-endian: byte k has the weight 256^k. */
  lemma {:induction false} ByteOfLE(v: nat, n: nat, k: nat)
    requires k < n
    ensures ToLE(v, n)[k] == (v / Pow256(k)) % 256
  {
    if k > 0 {
      ByteOfLE(v / 256, n - 1, k - 1);
      DigitOfQuotient(v, Pow256(k - 1));
    }
  }

  lemma Powers()
    ensures Pow256(1) == 256 && Pow256(2) == TWO_16 && Pow256(3) == TWO_24 && Pow256(4) == TWO_32
    ensures Pow256(8) == TWO_64
  {
    assert Pow256(1) == 256 * Pow256(0);
    assert Pow256(2) == 256 * Pow256(1);
    assert Pow256(3) == 256 * Pow256(2);
    assert Pow256(4) == 256 * Pow256(3);
    assert Pow256(5) == 256 * Pow256(4);
    assert Pow256(6) == 256 * Pow256(5);
    assert Pow256(7) == 256 * Pow256(6);
    assert Pow256(8) == 256 * Pow256(7);
  }

  lemma FixedWidthRoundTrip(v: nat, n: nat)
    requires n in {1, 2, 3, 4, 8}
    requires n == 2 ==> v < TWO_16
    requires n == 3 ==> v < TWO_24
    requires n == 4 ==> v < TWO_32
    requires n == 8 ==> v < TWO_64
    requires n == 1 ==> v < 256
    ensures FromLE(ToLE(v, n)) == v
  {
    Powers();
    FromLEOfToLE(v, n);
    RemainderIsUnique(v, Pow256(n), 0, v);
  }

  /** The value Rust's from_le_bytes gives the signed type of |s| bytes. */
  function SignedFromLE(s: seq<byte>): int {
    var v := FromLE(s);
    if 2 * v < Pow256(|s|) then v else v - Pow256(|s|)
  }

  /** The same bytes read as an unsigned and as a signed number. */
  lemma LERoundTrip(v: nat, n: nat)
    requires v < Pow256(n)
    ensures FromLE(ToLE(v, n)) == v
    ensures SignedFromLE(ToLE(v, n)) == if 2 * v < Pow256(n) then v else v - Pow256(n)
  {
    FromLEOfToLE(v, n);
    RemainderIsUnique(v, Pow256(n), 0, v);
  }
}
