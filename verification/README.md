# ClientTypeSignature in Dafny

A model of the client-side type signature of the Presto JDBC driver. A signature
describes a data type such as `varchar`, `array<varchar>` or `decimal(10,2)`. It
is a tree: a raw type name, nested type arguments, and literal arguments that
are strings or longs. The model covers:

- the validating constructor, which reads the three-field wire record;
- the converting constructor from the server-side `TypeSignature`;
- the three accessors and the canonical `toString`;
- `equals` and `hashCode`, which ignore the letter case of raw type names;
- the small `TypeLiteralCalculation` value type. Unlike the signature, it
  compares its text with case.

Files, one module each:

| file | module | models |
|---|---|---|
| `wrappers.dfy` | `Wrappers` | `Option` stands for a nullable reference; `Result` for a constructor that may throw |
| `java_ints.dfy` | `JavaInts` | `int`/`long` ranges, `int` wrap-around, the `31 * h + e` hash mixing, `Long.hashCode`, `Long.toString` |
| `java_strings.dfy` | `JavaStrings` | regex line terminators, English lower-casing, `String.hashCode` over UTF-16 units, joining with a separator |
| `type_literal_calculation.dfy` | `TypeLiteralCalculations` | `TypeLiteralCalculation` |
| `literals.dfy` | `Literals` | the objects a literal list may hold, and the two kinds a signature keeps |
| `client_type_signature.dfy` | `ClientTypeSignatures` | the data type, the delimiter pattern, the validating constructor, the accessors, the wire record |
| `rendering.dfy` | `Rendering` | `toString` |
| `parsing.dfy` | `RenderParsing` | a reader that inverts `toString` on signatures without literals or line terminators |
| `equality.dfy` | `Equality` | `equals`, `hashCode` |
| `conversion.dfy` | `Conversion` | the constructor from `TypeSignature` |

Points where the model is precise:

- **Delimiter pattern.** The check uses the regular expression `.*[<>,].*`
  with `Pattern.matches`. Here `.` matches no line terminator (`\n`, `\r`,
  U+0085, U+2028, U+2029). `PatternMatches` states the regex meaning: the name
  splits into a prefix, one delimiter and a suffix, and neither the prefix nor
  the suffix holds a line terminator. `HasBadCharacters` is the executable
  form: the name holds a delimiter and holds no line terminator. The two are
  proved equivalent. As a result, a name such as `"a<b\n"` is accepted.
- **No widening.** Only `String` and `Long` literals are accepted. An
  `Integer` is refused, and so is a `TypeLiteralCalculation` or any other
  object. A null element fails too: `literal.getClass()` throws a
  `NullPointerException`.
- **Error order.** The checks run in the source's order, and the first one
  that fails decides the error.
- **Lazy conversion.** The converting constructor passes its parameters
  through `Lists.transform`, which is lazy. So a node's own checks run before
  any of its parameters is converted. The parameters are converted left to
  right when the view is copied.
- **Hashes.** Hashes follow Java's arithmetic: `String.hashCode` over UTF-16
  code units, `Long.hashCode`, and the `Arrays`/`List` hash, all with 32-bit
  wrap-around. `ListHash` is proved equal to the exact polynomial
  `31^n + 31^(n-1) * h0 + ... + h(n-1)` reduced to an `int`. Two limits apply,
  both listed under "Left out": lower-casing is modelled for ASCII letters
  only (`JavaStrings.Lower`), and strings cannot hold unpaired surrogates.

- **Text is not an identity key.** The rendering does not escape string
  literals, so two different signatures can render alike
  (`RenderIsNotInjective`). If a tree has no literals and no line terminator
  in any name, its rendering can be read back (`ParseRenderRoundTrip`): the
  delimiter check guarantees that every name ends at a `<`, `,` or `>`. A
  line terminator switches the check off, and then a name such as `a<b\n>`
  renders like the signature `a` with the argument `b\n`
  (`LineTerminatorDefeatsRecovery`).

The specification of this system asks for 32-bit integer literals to be
widened to 64 bits before validation. The code does not widen them. It refuses
an `Integer` literal at ClientTypeSignature.java line 70. The model follows the
code (`UnsupportedLiteralRejected`).

## Model

| member | source | states |
|---|---|---|
| `ClientTypeSignatures.Create` | src/main/java/com/facebook/presto/jdbc/client/ClientTypeSignature.java:57-74 | Construction succeeds exactly when all of these hold: the raw type is non-null and non-empty, the delimiter pattern does not match it, both lists are non-null, and every literal is a String or a Long. On success the accessors return the inputs unchanged. On failure the error is the first failed check, in the source's order. |
| `ClientTypeSignatures.CheckLiterals` | src/main/java/com/facebook/presto/jdbc/client/ClientTypeSignature.java:69-71 | The literal loop succeeds exactly when every element is a String or a Long. It then keeps each element as given. Otherwise the first unsupported element, in list order, decides the error. |
| `ClientTypeSignatures.BadCharactersIffPatternMatches` | src/main/java/com/facebook/presto/jdbc/client/ClientTypeSignature.java:37 | The full-string match of `.*[<>,].*` holds exactly when the name has a delimiter and has no line terminator. |
| `ClientTypeSignatures.DelimiterRule` | src/main/java/com/facebook/presto/jdbc/client/ClientTypeSignature.java:66 | A name with `<`, `>` or `,` anywhere, the first character included, is refused with the bad-characters error. If a line terminator also occurs, the name is accepted. |
| `ClientTypeSignatures.CreateIgnoresArgumentContents` | src/main/java/com/facebook/presto/jdbc/client/ClientTypeSignature.java:67-72 | The constructor checks only that the type-argument list is non-null. Building with a list gives the outcome of building with an empty list, with that list then swapped in. |
| `ClientTypeSignatures.GetRawType` | src/main/java/com/facebook/presto/jdbc/client/ClientTypeSignature.java:76-80 | The getter returns the name as stored. On a constructed value it is non-empty, and the delimiter pattern does not match it. |
| `ClientTypeSignatures.GetTypeArguments` | src/main/java/com/facebook/presto/jdbc/client/ClientTypeSignature.java:82-86 | The getter returns one entry per stored argument. On a constructed value each entry is itself a constructed value. |
| `ClientTypeSignatures.GetLiteralArguments` | src/main/java/com/facebook/presto/jdbc/client/ClientTypeSignature.java:88-92 | The getter returns one object per stored literal. Each object is a String or a Long and reads back as that literal. |
| `ClientTypeSignatures.Serialize` | src/main/java/com/facebook/presto/jdbc/client/ClientTypeSignature.java:76-92 | The record the three getters write has no null field. For a constructed value, the constructor accepts that record. |
| `ClientTypeSignatures.Deserialize` | src/main/java/com/facebook/presto/jdbc/client/ClientTypeSignature.java:57-74 | Reading a record succeeds exactly when all three fields are present, the name is valid (non-empty, not matched by the delimiter pattern), and every literal is a String or a Long. A successful read keeps the name and the argument list. |
| `ClientTypeSignatures.UnsupportedLiteralRejected` | src/main/java/com/facebook/presto/jdbc/client/ClientTypeSignature.java:69-71 | Any literal that is not a String or a Long makes construction fail. This includes an Integer, a TypeLiteralCalculation and null. When it is the first such literal and the name is valid, it decides the error. |
| `ClientTypeSignatures.SerializeRoundTrip` | src/main/java/com/facebook/presto/jdbc/client/ClientTypeSignature.java:57-92 | Take any well-formed value. Write its three accessors into a record and run the constructor on that record. The result is the same value. |
| `ClientTypeSignatures.DeserializeRoundTrip` | src/main/java/com/facebook/presto/jdbc/client/ClientTypeSignature.java:76-92 | A record the constructor accepts is written back by the accessors field for field. |
| `Rendering.Render` | src/main/java/com/facebook/presto/jdbc/client/ClientTypeSignature.java:94-129 | The reference text of `toString`, a definition with no contract of its own: the raw type, then `<` with the nested texts joined by commas and `>` if there are type arguments, then `(` with the literals joined by commas and `)` if there are literals. `ToString`, `RenderShape` and `ParseRenderRoundTrip` state what it means. |
| `Rendering.RenderShape` | src/main/java/com/facebook/presto/jdbc/client/ClientTypeSignature.java:97-126 | The text is longer than the raw type exactly when there are type arguments or literals. A `<` follows the name when there are type arguments; a `(` follows it when there are only literals. The text ends with `)` when there are literals, and with `>` when there are only type arguments. |
| `Rendering.WriteLiteral` | src/main/java/com/facebook/presto/jdbc/client/ClientTypeSignature.java:118-123 | One literal as the loop writes it: a String between single quotes with nothing escaped, a Long through `Long.toString`. This equals the reference `RenderLiteral`. |
| `Rendering.ToString` | src/main/java/com/facebook/presto/jdbc/client/ClientTypeSignature.java:94-129 | The StringBuilder algorithm, with its `first` flags, produces the reference rendering `Render`. |
| `Rendering.WriteTypeArguments` | src/main/java/com/facebook/presto/jdbc/client/ClientTypeSignature.java:98-109 | The type-argument loop writes `<`, then each nested rendering with a comma before every element but the first, then `>`. |
| `Rendering.WriteLiterals` | src/main/java/com/facebook/presto/jdbc/client/ClientTypeSignature.java:110-126 | The literal loop writes `(`, then each literal with a comma before every element but the first, then `)`. A string is quoted and not escaped; a long is written in decimal. |
| `Rendering.RenderStartsWithRawType` | src/main/java/com/facebook/presto/jdbc/client/ClientTypeSignature.java:97 | The rendering begins with the raw type exactly as stored, case included. |
| `Rendering.RenderBare` | src/main/java/com/facebook/presto/jdbc/client/ClientTypeSignature.java:97-128 | A signature with neither type arguments nor literals renders as its raw type alone. |
| `Rendering.LongLiteralRendersInDecimal` | src/main/java/com/facebook/presto/jdbc/client/ClientTypeSignature.java:121-123 | A long literal renders as decimal text that reads back as the same number. |
| `Rendering.RenderDecimalExample` | src/main/java/com/facebook/presto/jdbc/client/ClientTypeSignature.java:110-126 | `decimal` with literals 10 and 2 renders as `decimal(10,2)`. |
| `Rendering.RenderArrayExample` | src/main/java/com/facebook/presto/jdbc/client/ClientTypeSignature.java:98-109 | `array` with the one argument `varchar` renders as `array<varchar>`. |
| `Rendering.RenderMapExample` | src/main/java/com/facebook/presto/jdbc/client/ClientTypeSignature.java:98-109 | `map` with the arguments `varchar` and `bigint` renders as `map<varchar,bigint>`, with a comma between the arguments and no space. |
| `Rendering.RenderStringLiteralExample` | src/main/java/com/facebook/presto/jdbc/client/ClientTypeSignature.java:118-120 | The string literal `abc` renders as `'abc'`. |
| `Rendering.RenderIsNotInjective` | src/main/java/com/facebook/presto/jdbc/client/ClientTypeSignature.java:113-125 | Two different well-formed signatures can render to the same text. One has the literals `a` and `b`; the other has the one literal `a','b`. So the text does not identify a value. |
| `RenderParsing.ParseTypeOfRender` | src/main/java/com/facebook/presto/jdbc/client/ClientTypeSignature.java:97-109 | Take a signature with no literals and no line terminator in any name, followed by a comma, a `>` or nothing. Reading its rendering gives back the signature and leaves the rest unread. |
| `RenderParsing.ParseRenderRoundTrip` | src/main/java/com/facebook/presto/jdbc/client/ClientTypeSignature.java:94-129 | For a constructed signature with no literals and no line terminator in any name, the rendering reads back as the same signature. |
| `RenderParsing.RenderInjectiveWhenRecoverable` | src/main/java/com/facebook/presto/jdbc/client/ClientTypeSignature.java:94-129 | Two such signatures with the same rendering are identical. |
| `RenderParsing.LineTerminatorDefeatsRecovery` | src/main/java/com/facebook/presto/jdbc/client/ClientTypeSignature.java:66 | The name `a<b\n>` passes the delimiter check because it holds a line terminator. It renders exactly like the signature `a` with the argument `b\n`, and both are constructed values. |
| `Equality.Equal` | src/main/java/com/facebook/presto/jdbc/client/ClientTypeSignature.java:141-145 | `equals` as a definition with no contract of its own: the lower-cased raw types agree, the type-argument lists agree element by element under this same rule, and the literal lists agree. `EqualIffSameCanonical`, `EqualIsEquivalence` and `EqualImpliesSameHashCode` state what it means. |
| `Equality.HashCode` | src/main/java/com/facebook/presto/jdbc/client/ClientTypeSignature.java:151 | `hashCode` is `31^3 + 31^2 * h(lower-cased raw type) + 31 * h(type arguments) + h(literals)` reduced to an `int`, as `Objects.hashCode` of three values defines it. |
| `Equality.EqualIffSameCanonical` | src/main/java/com/facebook/presto/jdbc/client/ClientTypeSignature.java:141-145 | `equals` holds exactly when two values are identical after every raw type in both trees is lower-cased. |
| `Equality.EqualIsEquivalence` | src/main/java/com/facebook/presto/jdbc/client/ClientTypeSignature.java:131-146 | `equals` is reflexive, symmetric and transitive. |
| `Equality.HashCodeOfCanonical` | src/main/java/com/facebook/presto/jdbc/client/ClientTypeSignature.java:151 | The hash depends only on the lower-cased form of the tree. |
| `Equality.EqualImpliesSameHashCode` | src/main/java/com/facebook/presto/jdbc/client/ClientTypeSignature.java:148-152 | Equal signatures have equal hashes. |
| `Equality.CaseIsIgnoredOnlyByEquality` | src/main/java/com/facebook/presto/jdbc/client/ClientTypeSignature.java:143 | Compare a raw type such as `VARCHAR` with its lower-case spelling. The two signatures are equal and hash alike, but they render differently. A TypeLiteralCalculation with the same two spellings is not equal. |
| `Equality.StringLiteralNeverEqualsLong` | src/main/java/com/facebook/presto/jdbc/client/ClientTypeSignature.java:145 | A string literal never equals a long literal. |
| `Conversion.FromTypeSignature` | src/main/java/com/facebook/presto/jdbc/client/ClientTypeSignature.java:42-55 | Conversion succeeds exactly when every node of the source tree passes the constructor's checks. On success the result mirrors the source tree (`Mirrors`): at every node the same base name and literal objects, and the parameters converted in order. The result is well-formed. A failed check on the root decides the error before any parameter is converted. |
| `Conversion.ConvertParameters` | src/main/java/com/facebook/presto/jdbc/client/ClientTypeSignature.java:46-53 | The parameters are converted left to right. On success the list holds each parameter's conversion in order. Otherwise the first one that fails decides the error. |
| `Conversion.ConversionIsConstruction` | src/main/java/com/facebook/presto/jdbc/client/ClientTypeSignature.java:42-55 | Converting a tree gives the same outcome as the validating constructor applied to the base name, the converted parameters and the literals. |
| `Conversion.CalculationLiteralRejected` | src/main/java/com/facebook/presto/jdbc/client/ClientTypeSignature.java:54-70 | A TypeLiteralCalculation among the literal parameters, at any depth, makes the whole conversion fail. |
| `Literals.FromObject` | src/main/java/com/facebook/presto/jdbc/client/ClientTypeSignature.java:70 | An object becomes a literal exactly when it is a String or a Long, and it converts back to the same object. |
| `TypeLiteralCalculations.Create` | src/main/java/com/facebook/presto/jdbc/spi/type/TypeLiteralCalculation.java:24-32 | A null calculation throws, with the message "calculation is null". Any other string is kept, and `getCalculation` returns it. |
| `TypeLiteralCalculations.GetCalculation` | src/main/java/com/facebook/presto/jdbc/spi/type/TypeLiteralCalculation.java:29-32 | The getter returns the text that, given to the constructor, rebuilds the same value. |
| `TypeLiteralCalculations.ToString` | src/main/java/com/facebook/presto/jdbc/spi/type/TypeLiteralCalculation.java:34-38 | `toString` returns the same text as `getCalculation`, undecorated, and that text rebuilds the value. |
| `TypeLiteralCalculations.Equals` | src/main/java/com/facebook/presto/jdbc/spi/type/TypeLiteralCalculation.java:40-51 | `equals` holds exactly when the two values are identical. Equal values have equal hashes. |
| `TypeLiteralCalculations.HashCode` | src/main/java/com/facebook/presto/jdbc/spi/type/TypeLiteralCalculation.java:53-57 | `Objects.hashCode(calculation)` is `31 + calculation.hashCode()` reduced to an `int`. |
| `TypeLiteralCalculations.ToStringRoundTrip` | src/main/java/com/facebook/presto/jdbc/spi/type/TypeLiteralCalculation.java:26-38 | `toString` returns the calculation exactly as given. Constructing from it gives back the same value. |
| `TypeLiteralCalculations.EqualsIsIdentity` | src/main/java/com/facebook/presto/jdbc/spi/type/TypeLiteralCalculation.java:40-51 | `equals` holds exactly when the two values are identical. |
| `TypeLiteralCalculations.EqualsConsistentWithHashCode` | src/main/java/com/facebook/presto/jdbc/spi/type/TypeLiteralCalculation.java:50-57 | Equal calculations have equal hashes. |
| `TypeLiteralCalculations.EqualsIsCaseSensitive` | src/main/java/com/facebook/presto/jdbc/spi/type/TypeLiteralCalculation.java:50 | A calculation with an upper-case letter is not equal to its lower-cased spelling. |

## Left out

- JavaStrings.Lower: lower-cases only the ASCII letters A–Z. `String.toLowerCase(Locale.ENGLISH)` also lower-cases non-ASCII letters, and for a few of them the length changes. Equality and hashing of names with non-ASCII upper-case letters are therefore not modelled exactly. The equivalence and hash-consistency proofs use only two facts: `Lower` is a function, and it is idempotent.
- Null elements inside the type-argument list: the source constructor does not check them. A null is kept, and `toString` later throws on it. The model's argument lists cannot hold null.
- JSON binding: Jackson annotations, nested record decoding and ignoring unknown fields are not modelled. The wire record is a plain three-field value passed to the constructor. Its nested arguments are signatures that were already constructed.
- Object plumbing in `equals`: the reference-equality shortcut and the `getClass()` test are not modelled. Equality is stated between two signatures, or between two calculations.
- Defensive copies and `unmodifiableList`: Dafny sequences are immutable values, so there is nothing to copy.
- `TypeSignature` is not part of this model. Only its shape is assumed: a base name, nested parameters and literal parameters, none of them null.
- Strings with unpaired UTF-16 surrogates: a Dafny `string` is a sequence of Unicode scalar values, so it cannot hold a lone surrogate. A Java `String` can, as a raw type, a string literal or a calculation. The constructor would accept such a string and `String.hashCode` would hash its code units; the model covers only strings of whole characters.
- Exception messages: errors are kinds, not text. The bad-characters error carries the name. The unsupported-literal error carries the class name, where Java formats it as `class <name>`.
