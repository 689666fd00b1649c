/** The converting constructor `ClientTypeSignature(TypeSignature)`. The
    server-side `TypeSignature` is not part of this model beyond its shape: a
    base name, nested parameters and literal parameters. */
module Conversion {
  import opened Wrappers
  import opened Literals
  import opened ClientTypeSignatures

  datatype TypeSignature = TypeSignature(
    base: string,
    parameters: seq<TypeSignature>,
    literalParameters: seq<JavaObject>)

  /** The constructor's own checks on one node: they look at the base name and
      the literals, never at the nested parameters. */
  ghost predicate NodeValid(t: TypeSignature) {
    && |t.base| > 0 && !PatternMatches(t.base)
    && forall i :: 0 <= i < |t.literalParameters| ==> Supported(t.literalParameters[i])
  }

  /** Every node of the tree passes the constructor's checks. */
  ghost predicate TreeValid(t: TypeSignature)
    decreases t
  {
    NodeValid(t) && forall i :: 0 <= i < |t.parameters| ==> TreeValid(t.parameters[i])
  }

  /** `s` has the shape of `t`: at every node the same name, the same
      literal objects, and the same number of nested arguments, in order. */
  ghost predicate Mirrors(t: TypeSignature, s: ClientTypeSignature)
    decreases t
  {
    && s.rawType == t.base
    && GetLiteralArguments(s) == t.literalParameters
    && |s.typeArguments| == |t.parameters|
    && forall i :: 0 <= i < |t.parameters| ==> Mirrors(t.parameters[i], s.typeArguments[i])
  }

  /** The conversion. The parameters go through `Lists.transform`, a lazy view,
      so the constructor checks this node first and the parameters are only
      converted, left to right, when that view is copied. */
  function FromTypeSignature(t: TypeSignature): (r: Result<ClientTypeSignature, ConstructionError>)
    ensures r.Success? <==> TreeValid(t)
    ensures r.Success? ==> Mirrors(t, r.value) && WellFormed(r.value)
    ensures !NodeValid(t) ==> r == Create(Some(t.base), Some([]), Some(t.literalParameters))
    decreases t, |t.parameters| + 1
  {
    match Create(Some(t.base), Some([]), Some(t.literalParameters))
    case Failure(e) => Failure(e)
    case Success(node) =>
      match ConvertParameters(t, |t.parameters|)
      case Failure(e) => Failure(e)
      case Success(args) => Success(node.(typeArguments := args))
  }

  /** The first `k` parameters of `t`, converted in order; the first one that
      fails decides the error. */
  function ConvertParameters(t: TypeSignature, k: nat): (r: Result<seq<ClientTypeSignature>, ConstructionError>)
    requires k <= |t.parameters|
    ensures r.Success? <==> forall i :: 0 <= i < k ==> TreeValid(t.parameters[i])
    ensures r.Success? ==> |r.value| == k && forall i :: 0 <= i < k ==>
      FromTypeSignature(t.parameters[i]) == Success(r.value[i]) && WellFormed(r.value[i])
    ensures r.Failure? ==> exists i ::
      && 0 <= i < k
      && (forall j :: 0 <= j < i ==> TreeValid(t.parameters[j]))
      && FromTypeSignature(t.parameters[i]) == Failure(r.error)
    decreases t, k
  {
    if k == 0 then Success([])
    else
      match ConvertParameters(t, k - 1)
      case Failure(e) => Failure(e)
      case Success(prefix) =>
        match FromTypeSignature(t.parameters[k - 1])
        case Failure(e) =>
          assert forall j :: 0 <= j < k - 1 ==> TreeValid(t.parameters[j]);
          Failure(e)
        case Success(c) =>
          var converted := prefix + [c];
          assert forall i :: 0 <= i < k - 1 ==> converted[i] == prefix[i];
          assert converted[k - 1] == c && WellFormed(c);
          assert forall i :: 0 <= i < k - 1 ==>
            FromTypeSignature(t.parameters[i]) == Success(converted[i]) && WellFormed(converted[i]);
          Success(converted)
  }

  /** Converting a tree is constructing its root from the converted
      parameters: the same name, the same literals, the same outcome. */
  lemma ConversionIsConstruction(t: TypeSignature, args: seq<ClientTypeSignature>)
    requires |args| == |t.parameters|
    requires forall i :: 0 <= i < |args| ==> FromTypeSignature(t.parameters[i]) == Success(args[i])
    ensures FromTypeSignature(t) == Create(Some(t.base), Some(args), Some(t.literalParameters))
  {
    var r := ConvertParameters(t, |t.parameters|);
    assert r.Success? by {
      forall i | 0 <= i < |t.parameters| ensures TreeValid(t.parameters[i]) {
        assert FromTypeSignature(t.parameters[i]).Success?;
      }
    }
    assert r.value == args by {
      forall i | 0 <= i < |args| ensures r.value[i] == args[i] {
        assert FromTypeSignature(t.parameters[i]) == Success(r.value[i]);
      }
    }
    CreateIgnoresArgumentContents(t.base, args, t.literalParameters);
  }

  /** A `TypeLiteralCalculation` among the literal parameters, at any depth,
      makes the whole conversion fail. */
  lemma {:induction false} CalculationLiteralRejected(t: TypeSignature, path: seq<nat>, k: nat)
    requires PathValid(t, path)
    requires k < |Subtree(t, path).literalParameters|
    requires Subtree(t, path).literalParameters[k].JCalculation?
    ensures FromTypeSignature(t).Failure?
    decreases path
  {
    if |path| > 0 {
      CalculationLiteralRejected(t.parameters[path[0]], path[1..], k);
    }
  }

  /** `path` is a sequence of parameter positions that exists in `t`. */
  predicate PathValid(t: TypeSignature, path: seq<nat>)
    decreases path
  {
    |path| == 0 || (path[0] < |t.parameters| && PathValid(t.parameters[path[0]], path[1..]))
  }

  /** The node that `path` leads to. */
  function Subtree(t: TypeSignature, path: seq<nat>): TypeSignature
    requires PathValid(t, path)
    decreases path
  {
    if |path| == 0 then t else Subtree(t.parameters[path[0]], path[1..])
  }
}
