/** The values `response.json()` and `json.loads` produce (numbers are
    integers only), Python's `str()` of them, and the three ways the
    extraction code reaches into them: `x.get(k, default)`, `x[i]` and
    `x[k]`, each with the exception Python raises when it cannot. */
module Json {
  import opened Wrappers
  import opened Text
  import opened Dicts

  datatype Json =
    | JNull
    | JBool(b: bool)
    | JInt(i: int)
    | JString(s: string)
    | JArray(items: seq<Json>)
    | JObject(fields: seq<(string, Json)>)

  /** `type(v).__name__`. */
  function TypeName(v: Json): string {
    match v
    case JNull => "NoneType"
    case JBool(_) => "bool"
    case JInt(_) => "int"
    case JString(_) => "str"
    case JArray(_) => "list"
    case JObject(_) => "dict"
  }

  /** `bool(v)`. */
  predicate Truthy(v: Json) {
    match v
    case JNull => false
    case JBool(b) => b
    case JInt(i) => i != 0
    case JString(s) => |s| > 0
    case JArray(xs) => |xs| > 0
    case JObject(fs) => |fs| > 0
  }

  function Quote(s: string): string {
    "'" + s + "'"
  }

  /** `str(v)`; inside a container a string shows quoted, as `repr` does
      (the model always uses single quotes and escapes nothing). */
  function Show(v: Json): string
    decreases v, 1, 0
  {
    match v
    case JNull => "None"
    case JBool(b) => if b then "True" else "False"
    case JInt(i) => IntToString(i)
    case JString(s) => s
    case JArray(xs) => "[" + ShowItems(xs) + "]"
    case JObject(fs) => "{" + ShowFields(fs, v) + "}"
  }

  /** The items of a list, separated by ", ". */
  function ShowItems(xs: seq<Json>): string
    decreases xs, 0, 0
  {
    if |xs| == 0 then ""
    else
      (if xs[0].JString? then Quote(xs[0].s) else Show(xs[0]))
      + (if |xs| == 1 then "" else ", " + ShowItems(xs[1..]))
  }

  /** The `key: value` pairs of an object, separated by ", "; `fs` is
      a suffix of the pairs of the object `whole`. */
  function ShowFields(fs: seq<(string, Json)>, ghost whole: Json): string
    requires whole.JObject? && forall i :: 0 <= i < |fs| ==> fs[i] in whole.fields
    decreases whole, 0, |fs|
  {
    if |fs| == 0 then ""
    else
      assert fs[0] in whole.fields;
      Quote(fs[0].0) + ": " + (if fs[0].1.JString? then Quote(fs[0].1.s) else Show(fs[0].1))
      + (if |fs| == 1 then "" else ", " + ShowFields(fs[1..], whole))
  }

  /** `repr(v)` under the same simplification. */
  function Repr(v: Json): string {
    if v.JString? then Quote(v.s) else Show(v)
  }

  /** The exceptions the access paths can raise. */
  datatype Fault =
    | NoAttribute(typeName: string, attr: string)   // AttributeError
    | IndexOutOfRange(typeName: string)              // IndexError
    | MissingKey(key: Json)                          // KeyError
    | NotSubscriptable(typeName: string)             // TypeError
    | NotIterable(typeName: string)                  // TypeError

  /** `str(e)` for each of them. */
  function Message(f: Fault): string {
    match f
    case NoAttribute(t, a) => Quote(t) + " object has no attribute " + Quote(a)
    case IndexOutOfRange(t) => t + " index out of range"
    case MissingKey(k) => Repr(k)
    case NotSubscriptable(t) => Quote(t) + " object is not subscriptable"
    case NotIterable(t) => Quote(t) + " object is not iterable"
  }

  /** `v.get(k, dflt)`. A missing key (`None`) is never bound in a
      decoded JSON object, whose keys are all strings. */
  function Get(v: Json, k: Option<string>, dflt: Json): (r: Result<Json, Fault>)
    ensures r.Ok? <==> v.JObject?
    ensures r.Err? ==> r.error == NoAttribute(TypeName(v), "get")
  {
    match v
    case JObject(fs) =>
      if k.Some? && Lookup(fs, k.value).Some? then Ok(Lookup(fs, k.value).value) else Ok(dflt)
    case _ => Err(NoAttribute(TypeName(v), "get"))
  }

  /** `v[i]` for a non-negative integer index. A decoded JSON object has
      string keys only, so an integer subscript is always a `KeyError`. */
  function At(v: Json, i: nat): (r: Result<Json, Fault>)
    ensures r.Ok? <==> (v.JArray? && i < |v.items|) || (v.JString? && i < |v.s|)
  {
    match v
    case JArray(xs) => if i < |xs| then Ok(xs[i]) else Err(IndexOutOfRange("list"))
    case JString(s) => if i < |s| then Ok(JString([s[i]])) else Err(IndexOutOfRange("string"))
    case JObject(_) => Err(MissingKey(JInt(i)))
    case _ => Err(NotSubscriptable(TypeName(v)))
  }

  /** `d[k]` for a dictionary `d`. */
  function Member(d: seq<(string, Json)>, k: string): (r: Result<Json, Fault>)
    ensures r.Ok? <==> k in Keys(d)
    ensures r.Ok? ==> Lookup(d, k) == Some(r.value)
  {
    match Lookup(d, k)
    case Some(x) => Ok(x)
    case None => Err(MissingKey(JString(k)))
  }
}
