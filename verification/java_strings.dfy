/** The parts of `java.lang.String` the signature model relies on: line
    terminators as `java.util.regex` sees them, English lower-casing,
    `String.hashCode` over UTF-16 code units, and joining with a separator. */
module JavaStrings {
  import opened JavaInts

  /** The characters that `.` in a `java.util.regex.Pattern` compiled without
      DOTALL or UNIX_LINES refuses to match. */
  predicate IsLineTerminator(c: char) {
    c == '\n' || c == '\r' || c == '\U{85}' || c == '\U{2028}' || c == '\U{2029}'
  }

  predicate IsAsciiUpper(c: char) {
    'A' <= c <= 'Z'
  }

  function LowerChar(c: char): (r: char)
    ensures !IsAsciiUpper(r)
    ensures IsAsciiUpper(c) ==> r as int == c as int + 32
    ensures !IsAsciiUpper(c) ==> r == c
  {
    if IsAsciiUpper(c) then (c as int + 32) as char else c
  }

  /** `String.toLowerCase(Locale.ENGLISH)` on the ASCII letters; every other
      character is kept. */
  function Lower(s: string): (r: string)
    ensures |r| == |s|
    ensures forall i :: 0 <= i < |s| ==> r[i] == LowerChar(s[i])
  {
    seq(|s|, i requires 0 <= i < |s| => LowerChar(s[i]))
  }

  /** Lower-casing twice is lower-casing once. */
  lemma LowerIdempotent(s: string)
    ensures Lower(Lower(s)) == Lower(s)
  {
  }

  /** The UTF-16 code units Java stores for one character. */
  function Utf16(c: char): (units: seq<int>)
    ensures 1 <= |units| <= 2
    ensures forall i :: 0 <= i < |units| ==> 0 <= units[i] < 0x1_0000
  {
    if c as int < 0x1_0000 then [c as int]
    else
      var v := c as int - 0x1_0000;
      [0xD800 + v / 0x400, 0xDC00 + v % 0x400]
  }

  function Utf16String(s: string): (units: seq<int>)
    ensures forall i :: 0 <= i < |units| ==> 0 <= units[i] < 0x1_0000
  {
    if |s| == 0 then [] else Utf16String(s[..|s| - 1]) + Utf16(s[|s| - 1])
  }

  /** `h = 31 * h + unit` over the code units, from 0, in `int` arithmetic. */
  function UnitsHash(units: seq<int>): Int32
    requires forall i :: 0 <= i < |units| ==> 0 <= units[i] < 0x1_0000
  {
    if |units| == 0 then 0 else HashStep(UnitsHash(units[..|units| - 1]), units[|units| - 1])
  }

  /** `String.hashCode`. */
  function StringHash(s: string): Int32 {
    UnitsHash(Utf16String(s))
  }

  /** The parts in order with `sep` between neighbours, the way a
      `StringBuilder` loop with a `first` flag writes them. */
  function Join(parts: seq<string>, sep: string): string {
    if |parts| == 0 then ""
    else if |parts| == 1 then parts[0]
    else Join(parts[..|parts| - 1], sep) + sep + parts[|parts| - 1]
  }

  /** Extending a prefix of `parts` by one part puts one separator before
      it, unless it is the first. */
  lemma JoinPrefixStep(parts: seq<string>, k: nat, sep: string)
    requires k < |parts|
    ensures Join(parts[..k + 1], sep) == if k == 0 then parts[0] else Join(parts[..k], sep) + sep + parts[k]
  {
    assert parts[..k + 1][..k] == parts[..k];
  }
}
