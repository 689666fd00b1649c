/** `ClientTypeSignature.toString`: the canonical text of a signature, e.g.
    `map<varchar,bigint>` or `decimal(10,2)`. */
module Rendering {
  import opened Wrappers
  import opened JavaInts
  import opened JavaStrings
  import opened Literals
  import opened ClientTypeSignatures

  /** A string literal in single quotes with nothing escaped; a long in decimal. */
  function RenderLiteral(l: Literal): string {
    match l
    case StringLiteral(s) => "'" + s + "'"
    case LongLiteral(v) => LongToString(v)
  }

  /** The rendering of each literal, in order. */
  function LiteralParts(lits: seq<Literal>): seq<string> {
    seq(|lits|, i requires 0 <= i < |lits| => RenderLiteral(lits[i]))
  }

  /** The reference rendering: the raw type as stored, then `<`, the nested
      renderings joined by `,`, `>` when there are type arguments, then `(`,
      the literals joined by `,`, `)` when there are literals. */
  function Render(s: ClientTypeSignature): string
    decreases s, 1
  {
    s.rawType
    + (if |s.typeArguments| == 0 then "" else "<" + Join(ArgumentParts(s), ",") + ">")
    + (if |s.literalArguments| == 0 then ""
       else "(" + Join(LiteralParts(s.literalArguments), ",") + ")")
  }

  /** The rendering of each type argument of `s`, in order. */
  function ArgumentParts(s: ClientTypeSignature): (parts: seq<string>)
    ensures |parts| == |s.typeArguments|
    decreases s, 0
  {
    seq(|s.typeArguments|, i requires 0 <= i < |s.typeArguments| => Render(s.typeArguments[i]))
  }

  /** The `toString` algorithm: one `StringBuilder` holding the raw type, then
      the type-argument loop, then the literal loop. */
  method ToString(s: ClientTypeSignature) returns (typeName: string)
    ensures typeName == Render(s)
    decreases s, 1
  {
    typeName := s.rawType;
    if |s.typeArguments| > 0 {
      var arguments := WriteTypeArguments(s);
      typeName := typeName + arguments;
    }
    if |s.literalArguments| > 0 {
      var literals := WriteLiterals(s.literalArguments);
      typeName := typeName + literals;
    }
  }

  /** The first loop of `toString`: `<`, each argument's own `toString` with a
      comma before all but the first, `>`. */
  method WriteTypeArguments(s: ClientTypeSignature) returns (text: string)
    requires |s.typeArguments| > 0
    ensures text == "<" + Join(ArgumentParts(s), ",") + ">"
    decreases s, 0
  {
    var args := s.typeArguments;
    ghost var parts := ArgumentParts(s);
    text := "<";
    var first := true;
    var k := 0;
    while k < |args|
      invariant 0 <= k <= |args|
      invariant first <==> k == 0
      invariant text == "<" + Join(parts[..k], ",")
    {
      if !first {
        text := text + ",";
      }
      first := false;
      var argument := ToString(args[k]);
      text := text + argument;
      JoinPrefixStep(parts, k, ",");
      if k > 0 {
        assert "<" + Join(parts[..k], ",") + "," + parts[k] == "<" + (Join(parts[..k], ",") + "," + parts[k]);
      }
      k := k + 1;
    }
    assert parts[..k] == parts;
    text := text + ">";
  }

  /** The second loop of `toString`: `(`, each literal with a comma before
      all but the first, `)`. */
  method WriteLiterals(lits: seq<Literal>) returns (text: string)
    requires |lits| > 0
    ensures text == "(" + Join(LiteralParts(lits), ",") + ")"
  {
    ghost var parts := LiteralParts(lits);
    text := "(";
    var first := true;
    var k := 0;
    while k < |lits|
      invariant 0 <= k <= |lits|
      invariant first <==> k == 0
      invariant text == "(" + Join(parts[..k], ",")
    {
      if !first {
        text := text + ",";
      }
      first := false;
      var literal := WriteLiteral(lits[k]);
      text := text + literal;
      JoinPrefixStep(parts, k, ",");
      if k > 0 {
        assert "(" + Join(parts[..k], ",") + "," + parts[k] == "(" + (Join(parts[..k], ",") + "," + parts[k]);
      }
      k := k + 1;
    }
    assert parts[..k] == parts;
    text := text + ")";
  }

  /** One literal as the loop writes it: a string between single quotes, a
      long through its `toString`. */
  method WriteLiteral(parameter: Literal) returns (text: string)
    ensures text == RenderLiteral(parameter)
  {
    if parameter.StringLiteral? {
      text := "'" + parameter.text + "'";
    } else {
      text := LongToString(parameter.value);
    }
  }

  /** The rendering starts with the raw type, letter case preserved. */
  lemma RenderStartsWithRawType(s: ClientTypeSignature)
    ensures s.rawType <= Render(s)
  {
  }

  /** A signature with no arguments renders as its raw type alone. */
  lemma RenderBare(s: ClientTypeSignature)
    requires |s.typeArguments| == 0 && |s.literalArguments| == 0
    ensures Render(s) == s.rawType
  {
  }

  /** The brackets frame the rendering: `<` follows the raw type when there
      are type arguments and `(` when there are only literals; the text ends
      with `)` when there are literals and with `>` when there are only type
      arguments; without either it is the raw type alone. */
  lemma RenderShape(s: ClientTypeSignature)
    ensures var text := Render(s);
            && |s.rawType| <= |text|
            && (|text| == |s.rawType| <==> |s.typeArguments| == 0 && |s.literalArguments| == 0)
            && (|s.typeArguments| > 0 ==> text[|s.rawType|] == '<')
            && (|s.typeArguments| == 0 && |s.literalArguments| > 0 ==> text[|s.rawType|] == '(')
            && (|s.literalArguments| > 0 ==> text[|text| - 1] == ')')
            && (|s.literalArguments| == 0 && |s.typeArguments| > 0 ==> text[|text| - 1] == '>')
  {
  }

  /** A long literal renders as text that reads back as the same number. */
  lemma LongLiteralRendersInDecimal(v: Int64)
    ensures ParseDecimal(RenderLiteral(LongLiteral(v))) == Some(v)
  {
    LongToStringRoundTrip(v);
  }

  /** `decimal` with the literals 10 and 2 renders as `decimal(10,2)`. */
  lemma RenderDecimalExample()
    ensures Render(ClientTypeSignature("decimal", [], [LongLiteral(10), LongLiteral(2)])) == "decimal(10,2)"
  {
    assert LongToString(10) == "10" by {
      assert NatToString(10) == NatToString(1) + [DigitChar(0)];
    }
    assert LongToString(2) == "2";
    var parts := LiteralParts([LongLiteral(10), LongLiteral(2)]);
    assert parts == ["10", "2"];
    JoinPrefixStep(parts, 1, ",");
    assert parts[..2] == parts && parts[..1] == ["10"];
  }

  /** One nested argument renders inside angle brackets: `array<varchar>`. */
  lemma RenderArrayExample()
    ensures Render(ClientTypeSignature("array", [ClientTypeSignature("varchar", [], [])], [])) == "array<varchar>"
  {
    var varchar := ClientTypeSignature("varchar", [], []);
    RenderBare(varchar);
    assert ArgumentParts(ClientTypeSignature("array", [varchar], [])) == ["varchar"];
  }

  /** Several nested arguments are separated by bare commas: `map<varchar,bigint>`. */
  lemma RenderMapExample()
    ensures Render(ClientTypeSignature("map",
      [ClientTypeSignature("varchar", [], []), ClientTypeSignature("bigint", [], [])], [])) == "map<varchar,bigint>"
  {
    var varchar := ClientTypeSignature("varchar", [], []);
    var bigint := ClientTypeSignature("bigint", [], []);
    RenderBare(varchar);
    RenderBare(bigint);
    var parts := ArgumentParts(ClientTypeSignature("map", [varchar, bigint], []));
    assert parts == ["varchar", "bigint"];
    JoinPrefixStep(parts, 1, ",");
    assert parts[..2] == parts && parts[..1] == ["varchar"];
  }

  /** A string literal is quoted and not escaped: `'abc'`. */
  lemma RenderStringLiteralExample()
    ensures Render(ClientTypeSignature("foo", [], [StringLiteral("abc")])) == "foo('abc')"
  {
    assert RenderLiteral(StringLiteral("abc")) == "'abc'";
    assert LiteralParts([StringLiteral("abc")]) == ["'abc'"];
  }

  /** The rendering does not identify a signature: a string literal holding
      `','` renders like two literals, so two different, well-formed and
      unequal-in-every-sense signatures share one text. */
  lemma RenderIsNotInjective()
    ensures var a := ClientTypeSignature("t", [], [StringLiteral("a"), StringLiteral("b")]);
            var b := ClientTypeSignature("t", [], [StringLiteral("a','b")]);
            WellFormed(a) && WellFormed(b) && a != b && Render(a) == Render(b)
  {
    var a := ClientTypeSignature("t", [], [StringLiteral("a"), StringLiteral("b")]);
    var b := ClientTypeSignature("t", [], [StringLiteral("a','b")]);
    assert !HasBadCharacters("t");
    assert RenderLiteral(StringLiteral("a")) == "'a'";
    assert RenderLiteral(StringLiteral("b")) == "'b'";
    assert RenderLiteral(StringLiteral("a','b")) == "'a','b'";
    var pa := LiteralParts(a.literalArguments);
    assert pa == ["'a'", "'b'"];
    JoinPrefixStep(pa, 1, ",");
    assert pa[..2] == pa && pa[..1] == ["'a'"];
    assert Join(pa, ",") == "'a','b'";
    var pb := LiteralParts(b.literalArguments);
    assert pb == ["'a','b'"];
    assert Join(pb, ",") == "'a','b'";
  }
}
