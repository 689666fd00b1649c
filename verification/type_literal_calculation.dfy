/** `TypeLiteralCalculation`: an immutable wrapper around the text of a literal
    calculation such as `x + 1`. Unlike a type signature's raw type, its text is
    compared and hashed exactly, letter case included. */
module TypeLiteralCalculations {
  import opened Wrappers
  import opened JavaInts
  import opened JavaStrings

  datatype TypeLiteralCalculation = TypeLiteralCalculation(calculation: string)

  /** The `NullPointerException` that `checkNotNull` throws, with its message. */
  datatype NullPointer = NullPointer(message: string)

  /** The constructor: a null calculation is refused, any string is kept as given. */
  function Create(calculation: Option<string>): (r: Result<TypeLiteralCalculation, NullPointer>)
    ensures r.Success? <==> calculation.Some?
    ensures r.Success? ==> r.value.calculation == calculation.value
    ensures r.Failure? ==> r.error == NullPointer("calculation is null")
  {
    match calculation
    case None => Failure(NullPointer("calculation is null"))
    case Some(c) => Success(TypeLiteralCalculation(c))
  }

  /** `getCalculation`: the text that, given to the constructor, rebuilds `t`. */
  function GetCalculation(t: TypeLiteralCalculation): (c: string)
    ensures Create(Some(c)) == Success(t)
  {
    t.calculation
  }

  /** `toString`: the calculation itself, not decorated. */
  function ToString(t: TypeLiteralCalculation): (text: string)
    ensures text == GetCalculation(t)
    ensures Create(Some(text)) == Success(t)
  {
    t.calculation
  }

  /** `equals`: the two calculation strings are the same, character for character. */
  predicate Equals(a: TypeLiteralCalculation, b: TypeLiteralCalculation)
    ensures Equals(a, b) <==> a == b
    ensures Equals(a, b) ==> HashCode(a) == HashCode(b)
  {
    a.calculation == b.calculation
  }

  /** `hashCode`: `Objects.hashCode(calculation)`, the array hash of a
      one-element array, which is `31 + calculation.hashCode()` as an `int`. */
  function HashCode(t: TypeLiteralCalculation): (h: Int32)
    ensures h == Wrap32(31 + StringHash(t.calculation))
  {
    ListHashOfOne(StringHash(t.calculation));
    ListHash([StringHash(t.calculation)])
  }

  /** Feeding `toString` back to the constructor rebuilds the same value, and
      both accessors return what the constructor was given. */
  lemma ToStringRoundTrip(t: TypeLiteralCalculation, c: string)
    ensures Create(Some(ToString(t))) == Success(t)
    ensures Create(Some(c)).Success? && ToString(Create(Some(c)).value) == c
  {
  }

  /** Equality is identity of the whole value: no normalisation happens. */
  lemma EqualsIsIdentity(a: TypeLiteralCalculation, b: TypeLiteralCalculation)
    ensures Equals(a, b) <==> a == b
  {
  }

  /** Equal values have equal hashes. */
  lemma EqualsConsistentWithHashCode(a: TypeLiteralCalculation, b: TypeLiteralCalculation)
    requires Equals(a, b)
    ensures HashCode(a) == HashCode(b)
  {
  }

  /** Two calculations that differ only in letter case are different. */
  lemma EqualsIsCaseSensitive(c: string, i: nat)
    requires i < |c| && IsAsciiUpper(c[i])
    ensures !Equals(TypeLiteralCalculation(c), TypeLiteralCalculation(Lower(c)))
  {
    assert Lower(c)[i] != c[i];
  }
}
