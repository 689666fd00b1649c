/** `ClientTypeSignature.equals` and `hashCode`: identity that ignores the
    letter case of raw types at every level of the tree and nothing else. */
module Equality {
  import opened JavaInts
  import opened JavaStrings
  import opened Literals
  import opened ClientTypeSignatures
  import opened Rendering
  import TypeLiteralCalculations

  /** `equals`: the raw types agree after English lower-casing, the type
      arguments agree pairwise and in order by this same rule, and the literal
      lists agree element by element, where a string never equals a long. */
  predicate Equal(a: ClientTypeSignature, b: ClientTypeSignature)
    decreases a
  {
    && Lower(a.rawType) == Lower(b.rawType)
    && |a.typeArguments| == |b.typeArguments|
    && (forall i :: 0 <= i < |a.typeArguments| ==> Equal(a.typeArguments[i], b.typeArguments[i]))
    && a.literalArguments == b.literalArguments
  }

  /** The case-folded form: every raw type in the tree lower-cased, everything
      else kept. */
  function Canonical(s: ClientTypeSignature): ClientTypeSignature
    decreases s, 1
  {
    ClientTypeSignature(Lower(s.rawType), CanonicalArguments(s), s.literalArguments)
  }

  function CanonicalArguments(s: ClientTypeSignature): (args: seq<ClientTypeSignature>)
    ensures |args| == |s.typeArguments|
    decreases s, 0
  {
    seq(|s.typeArguments|, i requires 0 <= i < |s.typeArguments| => Canonical(s.typeArguments[i]))
  }

  /** `hashCode`: `Objects.hashCode` of the lower-cased raw type, the type
      argument list and the literal list, which is
      `31^3 + 31^2 * h(raw) + 31 * h(arguments) + h(literals)` as an `int`. */
  function HashCode(s: ClientTypeSignature): (h: Int32)
    ensures h == Wrap32(29791 + 961 * StringHash(Lower(s.rawType))
      + 31 * ListHash(ArgumentHashes(s)) + ListHash(LiteralHashes(s.literalArguments)))
    decreases s, 1
  {
    ListHashOfThree(StringHash(Lower(s.rawType)), ListHash(ArgumentHashes(s)), ListHash(LiteralHashes(s.literalArguments)));
    ListHash([StringHash(Lower(s.rawType)), ListHash(ArgumentHashes(s)), ListHash(LiteralHashes(s.literalArguments))])
  }

  /** `hashCode` of each type argument, in order. */
  function ArgumentHashes(s: ClientTypeSignature): (hs: seq<Int32>)
    ensures |hs| == |s.typeArguments|
    decreases s, 0
  {
    seq(|s.typeArguments|, i requires 0 <= i < |s.typeArguments| => HashCode(s.typeArguments[i]))
  }

  function LiteralHashes(lits: seq<Literal>): seq<Int32> {
    seq(|lits|, i requires 0 <= i < |lits| => LiteralHash(lits[i]))
  }

  /** Two signatures are equal exactly when their case-folded forms are
      identical. */
  lemma {:induction false} EqualIffSameCanonical(a: ClientTypeSignature, b: ClientTypeSignature)
    ensures Equal(a, b) <==> Canonical(a) == Canonical(b)
    decreases a
  {
    forall i | 0 <= i < |a.typeArguments| && i < |b.typeArguments| {
      EqualIffSameCanonical(a.typeArguments[i], b.typeArguments[i]);
    }
    if Equal(a, b) {
      assert CanonicalArguments(a) == CanonicalArguments(b);
    }
    if Canonical(a) == Canonical(b) {
      assert |a.typeArguments| == |b.typeArguments| by {
        assert |CanonicalArguments(a)| == |CanonicalArguments(b)|;
      }
      forall i | 0 <= i < |a.typeArguments|
        ensures Equal(a.typeArguments[i], b.typeArguments[i])
      {
        assert CanonicalArguments(a)[i] == CanonicalArguments(b)[i];
      }
    }
  }

  /** `equals` is reflexive, symmetric and transitive. */
  lemma EqualIsEquivalence(a: ClientTypeSignature, b: ClientTypeSignature, c: ClientTypeSignature)
    ensures Equal(a, a)
    ensures Equal(a, b) ==> Equal(b, a)
    ensures Equal(a, b) && Equal(b, c) ==> Equal(a, c)
  {
    EqualIffSameCanonical(a, a);
    EqualIffSameCanonical(a, b);
    EqualIffSameCanonical(b, a);
    EqualIffSameCanonical(b, c);
    EqualIffSameCanonical(a, c);
  }

  /** The hash sees a signature only through its case-folded form. */
  lemma {:induction false} HashCodeOfCanonical(s: ClientTypeSignature)
    ensures HashCode(Canonical(s)) == HashCode(s)
    decreases s
  {
    LowerIdempotent(s.rawType);
    forall i | 0 <= i < |s.typeArguments| {
      HashCodeOfCanonical(s.typeArguments[i]);
    }
    assert ArgumentHashes(Canonical(s)) == ArgumentHashes(s);
  }

  /** Equal signatures have equal hashes. */
  lemma EqualImpliesSameHashCode(a: ClientTypeSignature, b: ClientTypeSignature)
    requires Equal(a, b)
    ensures HashCode(a) == HashCode(b)
  {
    EqualIffSameCanonical(a, b);
    HashCodeOfCanonical(a);
    HashCodeOfCanonical(b);
  }

  /** A raw type and its lower-cased spelling, e.g. `VARCHAR` and `varchar`,
      give equal signatures with equal hashes, yet each renders with its own
      spelling. A `TypeLiteralCalculation` makes no such allowance. */
  lemma CaseIsIgnoredOnlyByEquality(raw: string, args: seq<ClientTypeSignature>, lits: seq<Literal>, k: nat)
    requires k < |raw| && IsAsciiUpper(raw[k])
    ensures var upper := ClientTypeSignature(raw, args, lits);
            var lower := ClientTypeSignature(Lower(raw), args, lits);
            && Equal(upper, lower)
            && HashCode(upper) == HashCode(lower)
            && Render(upper) != Render(lower)
    ensures !TypeLiteralCalculations.Equals(
      TypeLiteralCalculations.TypeLiteralCalculation(raw),
      TypeLiteralCalculations.TypeLiteralCalculation(Lower(raw)))
  {
    var upper := ClientTypeSignature(raw, args, lits);
    var lower := ClientTypeSignature(Lower(raw), args, lits);
    LowerIdempotent(raw);
    forall i | 0 <= i < |args| {
      EqualIsEquivalence(args[i], args[i], args[i]);
    }
    assert Equal(upper, lower);
    EqualImpliesSameHashCode(upper, lower);
    assert Render(upper)[k] != Render(lower)[k] by {
      RenderStartsWithRawType(upper);
      RenderStartsWithRawType(lower);
    }
    TypeLiteralCalculations.EqualsIsCaseSensitive(raw, k);
  }

  /** A string literal never equals a long literal, whatever they spell. */
  lemma StringLiteralNeverEqualsLong(raw: string, text: string, v: Int64)
    ensures !Equal(ClientTypeSignature(raw, [], [StringLiteral(text)]), ClientTypeSignature(raw, [], [LongLiteral(v)]))
  {
  }
}
