/** An inverse for the rendering on the signatures it can be inverted on. The
    delimiter check keeps `<`, `>` and `,` out of raw types, so a tree
    without literals, whose names hold no line terminator, can be read back
    from its text. */
module RenderParsing {
  import opened Wrappers
  import opened JavaStrings
  import opened ClientTypeSignatures
  import opened Rendering

  /** A constructed signature whose text determines it: no literals anywhere,
      and no line terminator in any raw type. */
  predicate TextRecoverable(x: ClientTypeSignature)
    decreases x
  {
    && ValidRawType(x.rawType)
    && (forall i :: 0 <= i < |x.rawType| ==> !IsLineTerminator(x.rawType[i]))
    && |x.literalArguments| == 0
    && forall i :: 0 <= i < |x.typeArguments| ==> TextRecoverable(x.typeArguments[i])
  }

  predicate NoDelimiter(s: string) {
    forall i :: 0 <= i < |s| ==> !IsDelimiter(s[i])
  }

  /** The length of the longest prefix of `s` free of delimiters. */
  function NameLength(s: string): (n: nat)
    ensures n <= |s|
    ensures forall i :: 0 <= i < n ==> !IsDelimiter(s[i])
    ensures n == |s| || IsDelimiter(s[n])
  {
    if |s| == 0 || IsDelimiter(s[0]) then 0 else 1 + NameLength(s[1..])
  }

  /** Reads one signature from the front of `s`: a name, then optionally `<`,
      a comma-separated list of signatures, and `>`. Returns what is left. */
  function ParseType(s: string): (r: Option<(ClientTypeSignature, string)>)
    ensures r.Some? ==> |r.value.1| < |s|
    decreases |s|, 1
  {
    var n := NameLength(s);
    if n == 0 then None
    else if n < |s| && s[n] == '<' then CloseArguments(s[..n], ParseArguments(s[n + 1..]), |s|)
    else Some((ClientTypeSignature(s[..n], [], []), s[n..]))
  }

  /** After the argument list, a `>` must follow. */
  function CloseArguments(name: string, parsed: Option<(seq<ClientTypeSignature>, string)>, bound: nat)
    : (r: Option<(ClientTypeSignature, string)>)
    requires parsed.Some? ==> |parsed.value.1| < bound
    ensures r.Some? ==> |r.value.1| < bound
  {
    match parsed
    case None => None
    case Some((args, after)) =>
      if |after| > 0 && after[0] == '>' then Some((ClientTypeSignature(name, args, []), after[1..]))
      else None
  }

  /** Reads one or more signatures separated by commas. */
  function ParseArguments(s: string): (r: Option<(seq<ClientTypeSignature>, string)>)
    ensures r.Some? ==> |r.value.1| < |s|
    decreases |s|, 2
  {
    match ParseType(s)
    case None => None
    case Some((t, rest)) =>
      if |rest| > 0 && rest[0] == ',' then
        match ParseArguments(rest[1..])
        case None => None
        case Some((ts, after)) => Some(([t] + ts, after))
      else Some(([t], rest))
  }

  /** The whole text is exactly one signature. */
  function Parse(s: string): Option<ClientTypeSignature> {
    match ParseType(s)
    case Some((t, rest)) => if |rest| == 0 then Some(t) else None
    case None => None
  }

  lemma JoinCons(parts: seq<string>, sep: string)
    requires |parts| >= 2
    ensures Join(parts, sep) == parts[0] + sep + Join(parts[1..], sep)
    decreases |parts|
  {
    if |parts| > 2 {
      var init := parts[..|parts| - 1];
      JoinCons(init, sep);
      assert init[1..] == parts[1..][..|parts[1..]| - 1];
    } else {
      assert parts[..1] == [parts[0]];
      assert parts[1..] == [parts[1]];
    }
  }

  /** The name comes off the front of a name followed by a delimiter or nothing. */
  lemma {:induction false} NameLengthOf(name: string, rest: string)
    requires NoDelimiter(name)
    requires |rest| == 0 || IsDelimiter(rest[0])
    ensures NameLength(name + rest) == |name|
    decreases |name|
  {
    var s := name + rest;
    if |name| > 0 {
      assert s[1..] == name[1..] + rest;
      NameLengthOf(name[1..], rest);
    } else if |rest| > 0 {
      assert s[0] == rest[0];
    }
  }

  /** A raw type the constructor accepts and that has no line terminator
      holds no delimiter. */
  lemma RecoverableNameHasNoDelimiter(x: ClientTypeSignature)
    requires TextRecoverable(x)
    ensures NoDelimiter(x.rawType)
  {
  }

  /** A bare name followed by a comma, a `>` or nothing reads as a signature
      without arguments. */
  lemma ParseTypeBare(name: string, rest: string)
    requires |name| > 0 && NoDelimiter(name)
    requires |rest| == 0 || rest[0] == ',' || rest[0] == '>'
    ensures ParseType(name + rest) == Some((ClientTypeSignature(name, [], []), rest))
  {
    var s := name + rest;
    NameLengthOf(name, rest);
    assert s[..|name|] == name && s[|name|..] == rest;
  }

  /** A name, `<`, a list that reads back as `args`, and `>` read as a
      signature with those arguments. */
  lemma ParseTypeNested(name: string, joined: string, args: seq<ClientTypeSignature>, rest: string)
    requires |name| > 0 && NoDelimiter(name)
    requires ParseArguments(joined + (">" + rest)) == Some((args, ">" + rest))
    ensures ParseType(name + "<" + joined + ">" + rest) == Some((ClientTypeSignature(name, args, []), rest))
  {
    NestedSlices(name, joined, rest);
    assert (">" + rest)[1..] == rest;
  }

  /** Where a nested rendering splits: its name, the `<`, and the list with
      what follows it. */
  lemma NestedSlices(name: string, joined: string, rest: string)
    requires NoDelimiter(name)
    ensures var s := name + "<" + joined + ">" + rest;
            && NameLength(s) == |name|
            && s[..|name|] == name
            && |name| < |s| && s[|name|] == '<'
            && s[|name| + 1..] == joined + (">" + rest)
  {
    var s := name + "<" + joined + ">" + rest;
    assert s == name + ("<" + joined + ">" + rest);
    NameLengthOf(name, "<" + joined + ">" + rest);
  }

  /** Reading the rendering of a recoverable signature, followed by a comma,
      a `>` or nothing, gives back the signature and the rest. */
  lemma {:induction false} ParseTypeOfRender(x: ClientTypeSignature, rest: string)
    requires TextRecoverable(x)
    requires |rest| == 0 || rest[0] == ',' || rest[0] == '>'
    ensures ParseType(Render(x) + rest) == Some((x, rest))
    decreases x, |x.typeArguments| + 1
  {
    RecoverableNameHasNoDelimiter(x);
    var args := x.typeArguments;
    if |args| == 0 {
      RenderBare(x);
      ParseTypeBare(x.rawType, rest);
    } else {
      var joined := Join(ArgumentParts(x), ",");
      assert Render(x) == x.rawType + "<" + joined + ">";
      assert ArgumentParts(x)[0..] == ArgumentParts(x);
      assert args[0..] == args;
      ParseArgumentsOfRender(x, 0, ">" + rest);
      ParseTypeNested(x.rawType, joined, args, rest);
    }
  }

  /** Splitting a comma-separated continuation after its first element. */
  lemma CommaRegroup(first: string, more: string, rest: string)
    ensures first + "," + more + rest == first + ("," + more + rest)
    ensures ("," + more + rest)[1..] == more + rest
  {
  }

  /** One signature followed by something other than a comma is a list of one. */
  lemma ParseArgumentsLast(s: string, t: ClientTypeSignature, rest: string)
    requires ParseType(s) == Some((t, rest))
    requires |rest| > 0 && rest[0] == '>'
    ensures ParseArguments(s) == Some(([t], rest))
  {
  }

  /** One signature, a comma, and a list make a longer list. */
  lemma ParseArgumentsCons(s: string, t: ClientTypeSignature, after: string, ts: seq<ClientTypeSignature>, rest: string)
    requires ParseType(s) == Some((t, after))
    requires |after| > 0 && after[0] == ','
    requires ParseArguments(after[1..]) == Some((ts, rest))
    ensures ParseArguments(s) == Some(([t] + ts, rest))
  {
  }

  /** Reading the renderings of the type arguments of `x` from position `k`
      on, joined by commas and followed by `>`, gives back those arguments. */
  lemma {:induction false} ParseArgumentsOfRender(x: ClientTypeSignature, k: nat, rest: string)
    requires TextRecoverable(x)
    requires k < |x.typeArguments|
    requires |rest| > 0 && rest[0] == '>'
    ensures ParseArguments(Join(ArgumentParts(x)[k..], ",") + rest) == Some((x.typeArguments[k..], rest))
    decreases x, |x.typeArguments| - k
  {
    var arg := x.typeArguments[k];
    ArgumentSlices(x, k);
    if k + 1 == |x.typeArguments| {
      ParseTypeOfRender(arg, rest);
      ParseArgumentsLast(Render(arg) + rest, arg, rest);
    } else {
      var more := Join(ArgumentParts(x)[k + 1..], ",");
      var after := "," + more + rest;
      CommaRegroup(Render(arg), more, rest);
      ParseTypeOfRender(arg, after);
      ParseArgumentsOfRender(x, k + 1, rest);
      ParseArgumentsCons(Render(arg) + after, arg, after, x.typeArguments[k + 1..], rest);
    }
  }

  /** A list joined from position `k` on is its part at `k`, then, if more
      follow, the separator and the rest joined. */
  lemma JoinFrom(parts: seq<string>, k: nat, sep: string)
    requires k < |parts|
    ensures k + 1 == |parts| ==> Join(parts[k..], sep) == parts[k]
    ensures k + 1 < |parts| ==> Join(parts[k..], sep) == parts[k] + sep + Join(parts[k + 1..], sep)
  {
    var suffix := parts[k..];
    if k + 1 < |parts| {
      JoinCons(suffix, sep);
      assert suffix[1..] == parts[k + 1..];
    } else {
      assert suffix == [parts[k]];
    }
  }

  /** How the argument renderings from position `k` on split into the first
      one and the others. */
  lemma ArgumentSlices(x: ClientTypeSignature, k: nat)
    requires k < |x.typeArguments|
    ensures var parts := ArgumentParts(x)[k..];
            && x.typeArguments[k..] == [x.typeArguments[k]] + x.typeArguments[k + 1..]
            && (k + 1 == |x.typeArguments| ==>
                 Join(parts, ",") == Render(x.typeArguments[k]) && x.typeArguments[k..] == [x.typeArguments[k]])
            && (k + 1 < |x.typeArguments| ==>
                 Join(parts, ",") == Render(x.typeArguments[k]) + "," + Join(ArgumentParts(x)[k + 1..], ","))
  {
    var parts := ArgumentParts(x);
    JoinFrom(parts, k, ",");
    assert parts[k] == Render(x.typeArguments[k]);
    assert x.typeArguments[k..] == [x.typeArguments[k]] + x.typeArguments[k + 1..];
  }

  /** The rendering of a recoverable signature reads back as that signature. */
  lemma ParseRenderRoundTrip(x: ClientTypeSignature)
    requires TextRecoverable(x)
    ensures Parse(Render(x)) == Some(x)
  {
    ParseTypeOfRender(x, "");
    assert Render(x) + "" == Render(x);
  }

  /** Two recoverable signatures with the same text are the same signature. */
  lemma RenderInjectiveWhenRecoverable(a: ClientTypeSignature, b: ClientTypeSignature)
    requires TextRecoverable(a) && TextRecoverable(b)
    requires Render(a) == Render(b)
    ensures a == b
  {
    ParseRenderRoundTrip(a);
    ParseRenderRoundTrip(b);
  }

  /** A line terminator lets a delimiter through the check, and then a raw
      type can spell out a nested signature: `a` with argument `b\n` and the
      bare name `a<b\n>` are both constructed and render alike. */
  lemma LineTerminatorDefeatsRecovery()
    ensures var nested := ClientTypeSignature("a", [ClientTypeSignature("b\n", [], [])], []);
            var flat := ClientTypeSignature("a<b\n>", [], []);
            && WellFormed(nested) && WellFormed(flat)
            && nested != flat
            && Render(nested) == Render(flat)
  {
    var inner := ClientTypeSignature("b\n", [], []);
    var nested := ClientTypeSignature("a", [inner], []);
    assert IsLineTerminator("b\n"[1]);
    assert IsLineTerminator("a<b\n>"[3]);
    assert !HasBadCharacters("a");
    RenderBare(inner);
    assert ArgumentParts(nested) == ["b\n"];
  }
}
