/** Request bodies as JSON values, JavaScript truthiness, and the field
    checks the route schemas are built from (required non-empty string,
    optional string, optional number, optional string array). A field that is
    `None` is absent from the object, i.e. `undefined`. Numbers are kept as
    integers. */
module Json {
  import opened Base

  datatype Json =
    | JNull
    | JBool(b: bool)
    | JNumber(n: int)
    | JString(s: string)
    | JArray(items: seq<Json>)
    | JObject(fields: map<string, Json>)

  /** Reading a property of a parsed body; only objects have properties. */
  function Get(body: Json, key: string): Option<Json> {
    if body.JObject? && key in body.fields then Some(body.fields[key]) else None
  }

  /** JavaScript truthiness; `undefined` is `None` and falsy. */
  predicate Truthy(v: Option<Json>) {
    match v
    case None => false
    case Some(JNull) => false
    case Some(JBool(b)) => b
    case Some(JNumber(n)) => n != 0
    case Some(JString(s)) => s != ""
    case Some(_) => true
  }

  /** Why `safeParse` failed: the body is not an object, or these fields
      (the keys of `error.flatten().fieldErrors`) are invalid. */
  datatype ParseError = NotAnObject | InvalidFields(fields: set<string>)

  /** What a create handler answers, and what it passed to `create`. */
  datatype Body<D> = Invalid(error: ParseError) | Created(record: D) | ServerError(message: string)
  datatype Reply<D> = Reply(status: nat, body: Body<D>)

  /** `z.string().min(1)`. */
  function RequiredText(v: Option<Json>): (r: Result<string, ()>)
    ensures r.Ok? <==> v.Some? && v.value.JString? && v.value.s != ""
    ensures r.Ok? ==> v == Some(JString(r.value))
  {
    if v.Some? && v.value.JString? && v.value.s != "" then Ok(v.value.s) else Err(())
  }

  /** `z.string().optional()`: absent, or a string (so `null` is refused). */
  function OptionalText(v: Option<Json>): (r: Result<Option<string>, ()>)
    ensures r.Ok? <==> v.None? || v.value.JString?
    ensures r.Ok? ==> (r.value.None? <==> v.None?) && (v.Some? ==> v == Some(JString(r.value.value)))
  {
    match v
    case None => Ok(None)
    case Some(JString(s)) => Ok(Some(s))
    case Some(_) => Err(())
  }

  /** `z.number().optional()`. */
  function OptionalNumber(v: Option<Json>): (r: Result<Option<int>, ()>)
    ensures r.Ok? <==> v.None? || v.value.JNumber?
    ensures r.Ok? ==> (r.value.None? <==> v.None?) && (v.Some? ==> v == Some(JNumber(r.value.value)))
  {
    match v
    case None => Ok(None)
    case Some(JNumber(n)) => Ok(Some(n))
    case Some(_) => Err(())
  }

  predicate AllStrings(items: seq<Json>) {
    forall k :: 0 <= k < |items| ==> items[k].JString?
  }

  function Texts(items: seq<Json>): (r: seq<string>)
    requires AllStrings(items)
    ensures |r| == |items| && forall k :: 0 <= k < |items| ==> items[k] == JString(r[k])
  {
    seq(|items|, k requires 0 <= k < |items| => items[k].s)
  }

  /** `z.array(z.string()).optional()`. */
  function OptionalTextArray(v: Option<Json>): (r: Result<Option<seq<string>>, ()>)
    ensures r.Ok? <==> v.None? || (v.value.JArray? && AllStrings(v.value.items))
    ensures r.Ok? ==> (r.value.None? <==> v.None?)
    ensures r.Ok? && v.Some? ==>
      (|r.value.value| == |v.value.items|
       && forall k :: 0 <= k < |v.value.items| ==> v.value.items[k] == JString(r.value.value[k]))
  {
    match v
    case None => Ok(None)
    case Some(JArray(items)) =>
      if AllStrings(items) then
        Ok(Some(Texts(items)))
      else Err(())
    case Some(_) => Err(())
  }

  /** A parsed optional string field matches the body's field of that name:
      absent stays absent, a string is kept as it is. */
  predicate Same(body: Json, key: string, field: Option<string>) {
    match field
    case None => Get(body, key).None?
    case Some(s) => Get(body, key) == Some(JString(s))
  }

  /** The name of a field when its check failed, to collect every failing
      field the way zod reports all issues at once. */
  function FailedAs<T>(r: Result<T, ()>, name: string): set<string> {
    if r.Err? then {name} else {}
  }
}
