/** `ClientTypeSignature`: the client-side description of a data type such as
    `varchar`, `array<varchar>` or `decimal(10,2)`, its validating constructor,
    its three accessors, and the three-field wire record it is read from. */
module ClientTypeSignatures {
  import opened Wrappers
  import opened JavaStrings
  import opened Literals

  datatype ClientTypeSignature = ClientTypeSignature(
    rawType: string,
    typeArguments: seq<ClientTypeSignature>,
    literalArguments: seq<Literal>)

  /** Why construction failed. All but `NullLiteral` are the
      `IllegalArgumentException`s of `checkArgument`; `NullLiteral` is the
      `NullPointerException` that `literal.getClass()` throws for a null element. */
  datatype ConstructionError =
    | RawTypeIsNull
    | RawTypeIsEmpty
    | BadCharacters(rawType: string)
    | TypeArgumentsIsNull
    | LiteralArgumentsIsNull
    | UnsupportedLiteral(className: string)
    | NullLiteral

  // ----- the delimiter check -----

  predicate IsDelimiter(c: char) {
    c == '<' || c == '>' || c == ','
  }

  /** `.*` matches the whole of `s`: no character of it is a line terminator. */
  ghost predicate DotStarMatches(s: string) {
    forall i :: 0 <= i < |s| ==> !IsLineTerminator(s[i])
  }

  /** `Pattern.matches(".*[<>,].*", s)`: `s` splits into a prefix matched by
      `.*`, one delimiter, and a suffix matched by `.*`. */
  ghost predicate PatternMatches(s: string) {
    exists i :: 0 <= i < |s| && IsDelimiter(s[i]) && DotStarMatches(s[..i]) && DotStarMatches(s[i + 1..])
  }

  /** The check as the constructor runs it: a delimiter is present and no line
      terminator is, because one line terminator anywhere defeats the match. */
  predicate HasBadCharacters(s: string) {
    && (exists i :: 0 <= i < |s| && IsDelimiter(s[i]))
    && (forall i :: 0 <= i < |s| ==> !IsLineTerminator(s[i]))
  }

  lemma BadCharactersIffPatternMatches(s: string)
    ensures HasBadCharacters(s) <==> PatternMatches(s)
  {
    if HasBadCharacters(s) {
      var i :| 0 <= i < |s| && IsDelimiter(s[i]);
      assert DotStarMatches(s[..i]) by {
        forall j | 0 <= j < i ensures !IsLineTerminator(s[..i][j]) {
          assert s[..i][j] == s[j];
        }
      }
      var suffix := s[i + 1..];
      assert DotStarMatches(suffix) by {
        forall j | 0 <= j < |suffix| ensures !IsLineTerminator(suffix[j]) {
          assert suffix[j] == s[i + 1 + j];
        }
      }
    }
    if PatternMatches(s) {
      var i :| 0 <= i < |s| && IsDelimiter(s[i]) && DotStarMatches(s[..i]) && DotStarMatches(s[i + 1..]);
      forall j | 0 <= j < |s| ensures !IsLineTerminator(s[j]) {
        if j < i {
          assert s[j] == s[..i][j];
        } else if j > i {
          assert s[j] == s[i + 1..][j - i - 1];
        }
      }
    }
  }

  /** A raw type the constructor accepts. */
  predicate ValidRawType(s: string) {
    |s| > 0 && !HasBadCharacters(s)
  }

  /** The invariant every constructed value keeps, down the whole tree. */
  predicate WellFormed(s: ClientTypeSignature)
    decreases s
  {
    && ValidRawType(s.rawType)
    && forall i :: 0 <= i < |s.typeArguments| ==> WellFormed(s.typeArguments[i])
  }

  // ----- the constructor -----

  function LiteralError(o: JavaObject): ConstructionError {
    if o.Null? then NullLiteral else UnsupportedLiteral(ClassName(o))
  }

  /** The loop over the literal list: the first unsupported element, in order,
      decides the error; otherwise every element is kept as a literal. */
  function CheckLiterals(objs: seq<JavaObject>): (r: Result<seq<Literal>, ConstructionError>)
    ensures r.Success? <==> forall i :: 0 <= i < |objs| ==> Supported(objs[i])
    ensures r.Success? ==> |r.value| == |objs| && forall i :: 0 <= i < |objs| ==> ToObject(r.value[i]) == objs[i]
    ensures r.Failure? ==> exists i ::
      && 0 <= i < |objs| && !Supported(objs[i])
      && (forall j :: 0 <= j < i ==> Supported(objs[j]))
      && r.error == LiteralError(objs[i])
  {
    if |objs| == 0 then Success([])
    else
      match FromObject(objs[0])
      case None => Failure(LiteralError(objs[0]))
      case Some(l) =>
        match CheckLiterals(objs[1..])
        case Failure(e) =>
          ghost var k :| 0 <= k < |objs[1..]| && !Supported(objs[1..][k])
            && (forall j :: 0 <= j < k ==> Supported(objs[1..][j])) && e == LiteralError(objs[1..][k]);
          assert objs[k + 1] == objs[1..][k];
          assert forall j :: 1 <= j < k + 1 ==> objs[j] == objs[1..][j - 1];
          Failure(e)
        case Success(ls) =>
          assert forall i :: 1 <= i < |objs| ==> objs[i] == objs[1..][i - 1];
          Success([l] + ls)
  }

  /** The `@JsonCreator` constructor. Its checks run in the source's order;
      the first one that fails decides the error. */
  function Create(
    rawType: Option<string>,
    typeArguments: Option<seq<ClientTypeSignature>>,
    literalArguments: Option<seq<JavaObject>>
  ): (r: Result<ClientTypeSignature, ConstructionError>)
    ensures r.Success? <==>
      && rawType.Some? && |rawType.value| > 0 && !PatternMatches(rawType.value)
      && typeArguments.Some? && literalArguments.Some?
      && forall i :: 0 <= i < |literalArguments.value| ==> Supported(literalArguments.value[i])
    ensures r.Success? ==>
      && GetRawType(r.value) == rawType.value
      && GetTypeArguments(r.value) == typeArguments.value
      && GetLiteralArguments(r.value) == literalArguments.value
    ensures r.Success? ==>
      (WellFormed(r.value) <==> forall i :: 0 <= i < |typeArguments.value| ==> WellFormed(typeArguments.value[i]))
    ensures rawType.None? ==> r == Failure(RawTypeIsNull)
    ensures rawType == Some("") ==> r == Failure(RawTypeIsEmpty)
    ensures rawType.Some? && PatternMatches(rawType.value) ==> r == Failure(BadCharacters(rawType.value))
    ensures rawType.Some? && ValidRawType(rawType.value) && typeArguments.None? ==> r == Failure(TypeArgumentsIsNull)
    ensures rawType.Some? && ValidRawType(rawType.value) && typeArguments.Some? && literalArguments.None?
      ==> r == Failure(LiteralArgumentsIsNull)
    ensures rawType.Some? && ValidRawType(rawType.value) && typeArguments.Some? && literalArguments.Some? && r.Failure?
      ==> exists i ::
        && 0 <= i < |literalArguments.value| && !Supported(literalArguments.value[i])
        && (forall j :: 0 <= j < i ==> Supported(literalArguments.value[j]))
        && r.error == LiteralError(literalArguments.value[i])
  {
    if rawType.None? then Failure(RawTypeIsNull)
    else if |rawType.value| == 0 then Failure(RawTypeIsEmpty)
    else if (BadCharactersIffPatternMatches(rawType.value); HasBadCharacters(rawType.value)) then
      Failure(BadCharacters(rawType.value))
    else if typeArguments.None? then Failure(TypeArgumentsIsNull)
    else if literalArguments.None? then Failure(LiteralArgumentsIsNull)
    else
      match CheckLiterals(literalArguments.value)
      case Failure(e) => Failure(e)
      case Success(literals) =>
        var s := ClientTypeSignature(rawType.value, typeArguments.value, literals);
        assert GetLiteralArguments(s) == literalArguments.value;
        Success(s)
  }

  /** The constructor never looks inside the type-argument list: building
      with `args` is building with an empty list and then swapping `args` in. */
  lemma CreateIgnoresArgumentContents(rawType: string, args: seq<ClientTypeSignature>, literals: seq<JavaObject>)
    ensures var bare := Create(Some(rawType), Some([]), Some(literals));
            Create(Some(rawType), Some(args), Some(literals))
              == if bare.Failure? then Failure(bare.error) else Success(bare.value.(typeArguments := args))
  {
  }

  // ----- the accessors -----

  /** `getRawType`: case preserved; on a constructed value, a name the
      delimiter pattern does not match. */
  function GetRawType(s: ClientTypeSignature): (raw: string)
    ensures WellFormed(s) ==> |raw| > 0 && !PatternMatches(raw)
  {
    BadCharactersIffPatternMatches(s.rawType);
    s.rawType
  }

  /** `getTypeArguments`: on a constructed value, every argument handed out is
      itself a constructed value. */
  function GetTypeArguments(s: ClientTypeSignature): (args: seq<ClientTypeSignature>)
    ensures |args| == |s.typeArguments|
    ensures WellFormed(s) ==> forall i :: 0 <= i < |args| ==> WellFormed(args[i])
  {
    s.typeArguments
  }

  /** The literal list as the `List<Object>` the getter returns: only `String`
      and `Long` objects, each of which reads back as the literal kept. */
  function GetLiteralArguments(s: ClientTypeSignature): (objs: seq<JavaObject>)
    ensures |objs| == |s.literalArguments|
    ensures forall i :: 0 <= i < |objs| ==> Supported(objs[i]) && FromObject(objs[i]) == Some(s.literalArguments[i])
  {
    seq(|s.literalArguments|, i requires 0 <= i < |s.literalArguments| => ToObject(s.literalArguments[i]))
  }

  // ----- the wire record -----

  /** The three `@JsonProperty` fields; a field may be absent (null). */
  datatype WireRecord = WireRecord(
    rawType: Option<string>,
    typeArguments: Option<seq<ClientTypeSignature>>,
    literalArguments: Option<seq<JavaObject>>)

  /** The record the three getters write: no field is null, and the record
      of a constructed value is one the constructor accepts. */
  function Serialize(s: ClientTypeSignature): (w: WireRecord)
    ensures w.rawType.Some? && w.typeArguments.Some? && w.literalArguments.Some?
    ensures WellFormed(s) ==> Create(w.rawType, w.typeArguments, w.literalArguments).Success?
  {
    WireRecord(Some(GetRawType(s)), Some(GetTypeArguments(s)), Some(GetLiteralArguments(s)))
  }

  /** Reading a record runs the full constructor: it succeeds exactly when
      every field is present, the name is non-empty and free of the delimiter
      pattern, and every literal is a `String` or a `Long`. */
  function Deserialize(w: WireRecord): (r: Result<ClientTypeSignature, ConstructionError>)
    ensures r.Success? <==>
      && w.rawType.Some? && ValidRawType(w.rawType.value)
      && w.typeArguments.Some? && w.literalArguments.Some?
      && forall i :: 0 <= i < |w.literalArguments.value| ==> Supported(w.literalArguments.value[i])
    ensures r.Success? ==> r.value.rawType == w.rawType.value && r.value.typeArguments == w.typeArguments.value
  {
    BadCharactersIffPatternMatches(if w.rawType.Some? then w.rawType.value else "");
    Create(w.rawType, w.typeArguments, w.literalArguments)
  }

  /** Every constructed value survives a trip through its record unchanged. */
  lemma SerializeRoundTrip(s: ClientTypeSignature)
    requires WellFormed(s)
    ensures Deserialize(Serialize(s)) == Success(s)
  {
    BadCharactersIffPatternMatches(s.rawType);
    var r := Deserialize(Serialize(s));
    assert r.Success?;
    assert r.value.literalArguments == s.literalArguments by {
      forall i | 0 <= i < |s.literalArguments|
        ensures r.value.literalArguments[i] == s.literalArguments[i]
      {
        FromObjectToObject(s.literalArguments[i]);
        assert FromObject(ToObject(r.value.literalArguments[i])) == Some(r.value.literalArguments[i]);
      }
    }
  }

  /** Every record that is read successfully is written back exactly. */
  lemma DeserializeRoundTrip(w: WireRecord)
    requires Deserialize(w).Success?
    ensures Serialize(Deserialize(w).value) == w
  {
  }

  /** A delimiter in the raw type is refused, unless a line terminator also
      occurs, in which case the pattern cannot match and the name is kept. */
  lemma DelimiterRule(prefix: string, d: char, suffix: string)
    requires IsDelimiter(d)
    ensures !DotStarMatches(prefix + [d] + suffix) ==>
      Create(Some(prefix + [d] + suffix), Some([]), Some([])).Success?
    ensures DotStarMatches(prefix + [d] + suffix) ==>
      Create(Some(prefix + [d] + suffix), Some([]), Some([])) == Failure(BadCharacters(prefix + [d] + suffix))
  {
    var s := prefix + [d] + suffix;
    assert IsDelimiter(s[|prefix|]);
    BadCharactersIffPatternMatches(s);
  }

  /** Only `String` and `Long` literals are kept: an `Integer`, a
      `TypeLiteralCalculation` or any other object fails construction, and
      so does a null element. */
  lemma UnsupportedLiteralRejected(rawType: string, args: seq<ClientTypeSignature>, literals: seq<JavaObject>, k: nat)
    requires k < |literals| && !Supported(literals[k])
    ensures Create(Some(rawType), Some(args), Some(literals)).Failure?
    ensures ValidRawType(rawType) && (forall j :: 0 <= j < k ==> Supported(literals[j])) ==>
      Create(Some(rawType), Some(args), Some(literals)) == Failure(LiteralError(literals[k]))
  {
    var r := Create(Some(rawType), Some(args), Some(literals));
    if ValidRawType(rawType) && (forall j :: 0 <= j < k ==> Supported(literals[j])) {
      BadCharactersIffPatternMatches(rawType);
      var i :| 0 <= i < |literals| && !Supported(literals[i])
        && (forall j :: 0 <= j < i ==> Supported(literals[j])) && r.error == LiteralError(literals[i]);
      assert i == k;
    }
  }
}
