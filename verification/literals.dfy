/** The objects a caller may place in a literal-argument list, and the two
    kinds a type signature keeps. */
module Literals {
  import opened Wrappers
  import opened JavaInts
  import opened JavaStrings
  import TypeLiteralCalculations

  /** An element of a `List<Object>` as it reaches the constructor. */
  datatype JavaObject =
    | Null
    | JString(text: string)
    | JLong(longValue: Int64)
    | JInteger(intValue: Int32)
    | JCalculation(calculation: TypeLiteralCalculations.TypeLiteralCalculation)
    | JOther(className: string)

  /** A literal argument a signature holds: a `String` or a `Long`. */
  datatype Literal = StringLiteral(text: string) | LongLiteral(value: Int64)

  /** `literal instanceof String || literal instanceof Long`. */
  predicate Supported(o: JavaObject) {
    o.JString? || o.JLong?
  }

  /** The fully qualified name of the object's class. */
  function ClassName(o: JavaObject): string
    requires !o.Null?
  {
    match o
    case JString(_) => "java.lang.String"
    case JLong(_) => "java.lang.Long"
    case JInteger(_) => "java.lang.Integer"
    case JCalculation(_) => "com.facebook.presto.jdbc.spi.type.TypeLiteralCalculation"
    case JOther(name) => name
  }

  /** The object a literal is when handed back through `List<Object>`. */
  function ToObject(l: Literal): (o: JavaObject)
    ensures Supported(o)
  {
    match l
    case StringLiteral(s) => JString(s)
    case LongLiteral(v) => JLong(v)
  }

  /** The literal an accepted object denotes; none for any other object. */
  function FromObject(o: JavaObject): (r: Option<Literal>)
    ensures r.Some? <==> Supported(o)
    ensures r.Some? ==> ToObject(r.value) == o
  {
    match o
    case JString(s) => Some(StringLiteral(s))
    case JLong(v) => Some(LongLiteral(v))
    case _ => None
  }

  /** Every literal comes back from its object form unchanged. */
  lemma FromObjectToObject(l: Literal)
    ensures FromObject(ToObject(l)) == Some(l)
  {
  }

  /** `hashCode` of the literal: `String.hashCode` or `Long.hashCode`. */
  function LiteralHash(l: Literal): Int32 {
    match l
    case StringLiteral(s) => StringHash(s)
    case LongLiteral(v) => LongHash(v)
  }
}
