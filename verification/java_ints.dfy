/** Java's fixed-width integers as far as the signature model needs them:
    `int` wrap-around, the polynomial hash mixing of `java.util.Arrays` and
    `java.util.List`, `Long.hashCode` and `Long.toString`. */
module JavaInts {
  import opened Wrappers

  const TWO_32: int := 0x1_0000_0000
  const TWO_64: int := 0x1_0000_0000_0000_0000

  /** A Java `int`. */
  type Int32 = x: int | -0x8000_0000 <= x < 0x8000_0000

  /** A Java `long`. */
  type Int64 = x: int | -0x8000_0000_0000_0000 <= x < 0x8000_0000_0000_0000

  /** The `int` that Java arithmetic produces for the mathematical value `x`:
      the unique two's-complement value congruent to `x` modulo 2^32. */
  function Wrap32(x: int): (r: Int32)
    ensures (x - r) % TWO_32 == 0
    ensures -0x8000_0000 <= x < 0x8000_0000 ==> r == x
  {
    var m := x % TWO_32;
    if m < 0x8000_0000 then m else m - TWO_32
  }

  /** One step `31 * h + e` of every Java polynomial hash. */
  function HashStep(h: Int32, e: Int32): Int32 {
    Wrap32(31 * h + e)
  }

  /** Adding a multiple of 2^32 does not change the wrapped `int`. */
  lemma Wrap32Shift(y: int, q: int)
    ensures Wrap32(y + 0x1_0000_0000 * q) == Wrap32(y)
  {
    assert (y + 0x1_0000_0000 * q) % 0x1_0000_0000 == y % 0x1_0000_0000;
  }

  /** One hash step on the wrapped value wraps to the same `int` as the
      step on the exact value. */
  lemma HashStepOfWrapped(exact: int, e: Int32)
    ensures HashStep(Wrap32(exact), e) == Wrap32(31 * exact + e)
  {
    var w := Wrap32(exact);
    var q := (exact - w) / 0x1_0000_0000;
    assert exact == w + 0x1_0000_0000 * q by {
      assert (exact - w) % 0x1_0000_0000 == 0;
    }
    assert 31 * exact + e == (31 * w + e) + 0x1_0000_0000 * (31 * q);
    Wrap32Shift(31 * w + e, 31 * q);
  }

  /** The polynomial `31^n + 31^(n-1) * hs[0] + ... + hs[n-1]` computed
      without overflow. */
  function Polynomial(hs: seq<int>): int {
    if |hs| == 0 then 1 else 31 * Polynomial(hs[..|hs| - 1]) + hs[|hs| - 1]
  }

  /** The hash of an ordered collection whose elements hash to `hs`, as both
      `Arrays.hashCode(Object[])` and `List.hashCode()` define it: seed 1, then
      one `HashStep` per element in order. Wrapping after every step gives the
      same `int` as wrapping the exact polynomial once. */
  function ListHash(hs: seq<Int32>): (h: Int32)
    ensures h == Wrap32(Polynomial(hs))
  {
    if |hs| == 0 then 1
    else
      HashStepOfWrapped(Polynomial(hs[..|hs| - 1]), hs[|hs| - 1]);
      HashStep(ListHash(hs[..|hs| - 1]), hs[|hs| - 1])
  }

  /** `Objects.hashCode` of one and of three values, written out. */
  lemma ListHashOfOne(a: Int32)
    ensures ListHash([a]) == Wrap32(31 + a)
  {
    assert [a][..0] == [];
  }

  lemma ListHashOfThree(a: Int32, b: Int32, c: Int32)
    ensures ListHash([a, b, c]) == Wrap32(29791 + 961 * a + 31 * b + c)
  {
    assert [a, b, c][..2] == [a, b];
    assert [a, b][..1] == [a];
    assert [a][..0] == [];
    assert Polynomial([a]) == 31 + a;
    assert Polynomial([a, b]) == 961 + 31 * a + b;
    assert Polynomial([a, b, c]) == 29791 + 961 * a + 31 * b + c;
  }

  /** `Long.hashCode`: the low 32 bits of `value ^ (value >>> 32)`. */
  function LongHash(v: Int64): Int32 {
    var u := (if v < 0 then v + TWO_64 else v) as bv64;
    var folded := u ^ (u >> 32);
    Wrap32((folded & 0xFFFF_FFFF) as int)
  }

  predicate IsDigit(c: char) {
    '0' <= c <= '9'
  }

  predicate AllDigits(s: string) {
    forall i :: 0 <= i < |s| ==> IsDigit(s[i])
  }

  function DigitChar(d: int): (c: char)
    requires 0 <= d < 10
    ensures IsDigit(c)
  {
    ('0' as int + d) as char
  }

  /** The base-10 digits of `n`, most significant first, without leading zeros. */
  function NatToString(n: nat): (r: string)
    ensures |r| > 0 && AllDigits(r)
    ensures n >= 10 ==> r[0] != '0'
    decreases n
  {
    if n < 10 then [DigitChar(n)] else NatToString(n / 10) + [DigitChar(n % 10)]
  }

  /** `Long.toString(v)`: base 10 with a leading `-` for negative values. */
  function LongToString(v: Int64): string {
    if v < 0 then "-" + NatToString(-(v as int)) else NatToString(v)
  }

  /** The number a non-empty run of decimal digits denotes. */
  function DigitsValue(s: string): nat
    requires AllDigits(s)
  {
    if |s| == 0 then 0 else DigitsValue(s[..|s| - 1]) * 10 + (s[|s| - 1] as int - '0' as int)
  }

  /** A reader for the decimal notation `LongToString` writes: an optional `-`
      followed by one or more digits. */
  function ParseDecimal(s: string): Option<int> {
    if |s| > 1 && s[0] == '-' && AllDigits(s[1..]) then Some(-(DigitsValue(s[1..]) as int))
    else if |s| > 0 && AllDigits(s) then Some(DigitsValue(s))
    else None
  }

  lemma {:induction false} NatToStringValue(n: nat)
    ensures DigitsValue(NatToString(n)) == n
    decreases n
  {
    if n >= 10 {
      var s := NatToString(n);
      NatToStringValue(n / 10);
      assert s[..|s| - 1] == NatToString(n / 10);
    }
  }

  /** The decimal rendering of a long reads back as the same number. */
  lemma LongToStringRoundTrip(v: Int64)
    ensures ParseDecimal(LongToString(v)) == Some(v)
  {
    if v < 0 {
      NatToStringValue(-(v as int));
      assert LongToString(v)[1..] == NatToString(-(v as int));
    } else {
      NatToStringValue(v);
    }
  }
}
