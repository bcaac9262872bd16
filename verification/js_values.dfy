/**
 The JavaScript values the request gates inspect: fields of a JSON request
 body and of a decoded token payload, and the result of `parseInt`.
 */
module JsValues {

  /** `None` stands for a missing value; for `parseInt` it stands for NaN. */
  datatype Option<+T> = None | Some(value: T)

  /**
   A JSON-decoded JavaScript value. Numbers are exact reals: JSON cannot
   carry NaN, an overflowing literal such as `1e999` (which `JSON.parse`
   reads as `Infinity`) stands for a huge real, which is truthy and matches
   no key, and no gate depends on floating-point rounding. Objects and arrays are `Composite`: no gate looks inside them.
   */
  datatype JsVal =
    | Undefined
    | Null
    | Bool(b: bool)
    | Num(x: real)
    | Str(s: string)
    | Composite

  /** JavaScript truthiness, the ToBoolean conversion of section 7.1.2 of ECMA-262. */
  predicate Truthy(v: JsVal)
  {
    match v
    case Undefined => false
    case Null => false
    case Bool(b) => b
    case Num(x) => x != 0.0
    case Str(s) => s != ""
    case Composite => true
  }

  /** The five falsy values a JSON body can carry; everything else passes a presence check. */
  lemma FalsyValues(v: JsVal)
    ensures !Truthy(v) <==> v in {Undefined, Null, Bool(false), Num(0.0), Str("")}
  {
  }

  /** `typeof v === "string"` */
  predicate IsString(v: JsVal)
  {
    v.Str?
  }

  /**
   `v === n`, where `n` is a number produced by `parseInt` (`None` for NaN).
   Strict equality never converts: only a number equal to `n` matches, and
   NaN matches nothing.
   */
  predicate StrictEqualsParsed(v: JsVal, n: Option<int>)
    ensures StrictEqualsParsed(v, n) ==> v.Num? && n.Some?
    ensures v.Num? && n.Some? && v.x == n.value as real ==> StrictEqualsParsed(v, n)
  {
    match n
    case None => false
    case Some(k) => v == Num(k as real)
  }
}
