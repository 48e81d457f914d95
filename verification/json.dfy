/** A JSON document as a value tree, and the single-token reads of Moshi's
    `JsonReader` that the adapter uses. Byte-level lexing and writing are not
    part of this model: a document is already a tree. */
module Json {
  import opened Int32
  import opened Results

  datatype Value =
    | JNull
    | JBool(b: bool)
    | JInt(i: int)        // an integer token, written without a fraction or exponent
    | JFraction(n: real)  // a number with a fractional part
    | JString(s: string)
    | JArray(items: seq<Value>)
    | JObject(members: seq<Member>)

  /** One `"name": value` pair of an object, in document order. */
  datatype Member = Member(name: string, value: Value)

  /** The number a `JsonWriter.value(Long)` call writes for an `Int`. */
  function Num(x: i32): Value {
    JInt(x as int)
  }

  /** `nextInt()`: an integral number that fits an `Int`; anything else
      throws. */
  function NextInt(v: Value): (r: Option<i32>)
    ensures r.Some? <==> v.JInt? && InRange(v.i)
    ensures r.Some? ==> v == Num(r.value)
  {
    if v.JInt? && InRange(v.i) then Some(v.i as i32) else None
  }

  /** `nextString()` */
  function NextString(v: Value): (r: Option<string>)
    ensures r.Some? <==> v.JString?
    ensures r.Some? ==> v == JString(r.value)
  {
    if v.JString? then Some(v.s) else None
  }

  /** `nextBoolean()` */
  function NextBoolean(v: Value): (r: Option<bool>)
    ensures r.Some? <==> v.JBool?
    ensures r.Some? ==> v == JBool(r.value)
  {
    if v.JBool? then Some(v.b) else None
  }

  /** `nextDouble()`: any number. */
  function NextDouble(v: Value): (r: Option<real>)
    ensures r.Some? <==> v.JInt? || v.JFraction?
    ensures v.JInt? ==> r == Some(v.i as real)
    ensures v.JFraction? ==> r == Some(v.n)
  {
    match v
    case JInt(i) => Some(i as real)
    case JFraction(n) => Some(n)
    case _ => None
  }

  /** Reading back what was written for an `Int` gives that `Int`. */
  lemma NextIntNum(x: i32)
    ensures NextInt(Num(x)) == Some(x)
  {
  }
}
