/** The `name` field of a POST /participants request body, as JavaScript sees it
    after JSON decoding, and the handler's input guard. */
module Body {

  /** The value at key `name` of the decoded body. `Missing` is `undefined` (the key
      is absent); arrays and objects are kept only by kind, since the guard looks at
      nothing inside them. JSON numbers are finite, so NaN does not arise. */
  datatype Value =
    | Missing
    | Null
    | Bool(b: bool)
    | Number(x: real)
    | Str(s: string)
    | Array
    | Object

  /** JavaScript truthiness: `!v` is `!Truthy(v)`. */
  predicate Truthy(v: Value)
  {
    match v
    case Missing => false
    case Null => false
    case Bool(b) => b
    case Number(x) => x != 0.0
    case Str(s) => s != ""
    case Array => true
    case Object => true
  }

  /** The result of JavaScript's `typeof v`. */
  function TypeOf(v: Value): (t: string)
    ensures t == "string" <==> v.Str?
  {
    match v
    case Missing => "undefined"
    case Null => "object"
    case Bool(_) => "boolean"
    case Number(_) => "number"
    case Str(_) => "string"
    case Array => "object"
    case Object => "object"
  }

  /** The guard `!name || typeof(name) !== "string"`, which answers 422. */
  predicate Rejected(v: Value)
  {
    !Truthy(v) || TypeOf(v) != "string"
  }

  /** A name the handler accepts: a non-empty string. */
  predicate IsName(v: Value)
  {
    v.Str? && v.s != ""
  }

  /** The guard rejects exactly the values that are not non-empty strings. */
  lemma RejectedIff(v: Value)
    ensures Rejected(v) <==> !IsName(v)
  {
  }
}
