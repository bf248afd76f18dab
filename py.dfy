/** Values and failures of the Python runtime that the scraper service is
    written against: an optional value, a result that is either a value or a
    raised exception, the exception kinds the core can raise, and the JSON-like
    values that the session table stores in its dictionaries. */
module Py {

  datatype Option<+T> = None | Some(value: T)

  /** The outcome of a Python call: a returned value or a raised exception. */
  datatype Result<+T> = Ok(value: T) | Err(error: Error)

  /** The exceptions the modelled code raises or lets propagate. */
  datatype Error =
    | KeyError(key: string)                     // d[k] on a missing key
    | TypeError(detail: string)                 // an operation on a value of the wrong type
    | AttributeError(typeName: string, attr: string)  // obj.attr on an object without it
    | ValueError(detail: string)                // e.g. float("abc"), min() of an empty sequence
    | EngineError(message: string)              // any fault raised by the browser engine
    | ValidationError(field: string)            // a request field that fails schema validation
    | HttpError(status: int, detail: string)    // an HTTPException raised by an endpoint

  /** `str(e)` for each exception kind, as the registry of scraping jobs stores it. */
  function Str(e: Error): (s: string)
    ensures e.EngineError? ==> s == e.message
  {
    match e
    case KeyError(k) => "'" + k + "'"
    case TypeError(d) => d
    case AttributeError(t, a) => "'" + t + "' object has no attribute '" + a + "'"
    case ValueError(d) => d
    case EngineError(m) => m
    case ValidationError(f) => f + ": field required"
    case HttpError(_, d) => d
  }

  /** A value stored in one of the session table's dictionaries. Python's
      floats are not modelled: the clock values are integers. */
  datatype Json =
    | JNull
    | JBool(b: bool)
    | JNum(n: int)
    | JStr(s: string)
    | JList(items: seq<Json>)
    | JObj(fields: map<string, Json>)

  /** The value Python arithmetic sees: bool is a subclass of int. */
  function AsNumber(j: Json): (r: Option<int>)
    ensures r.Some? <==> (j.JNum? || j.JBool?)
  {
    match j
    case JNum(n) => Some(n)
    case JBool(b) => Some(if b then 1 else 0)
    case _ => None
  }

  /** `len(j)`: defined for str, list and dict; a TypeError otherwise. */
  function Len(j: Json): (r: Result<nat>)
    ensures j.JObj? ==> r == Ok(|j.fields|)
    ensures r.Err? <==> !(j.JObj? || j.JStr? || j.JList?)
  {
    match j
    case JStr(s) => Ok(|s|)
    case JList(xs) => Ok(|xs|)
    case JObj(m) => Ok(|m|)
    case _ => Err(TypeError("object of type '" + TypeName(j) + "' has no len()"))
  }

  /** `type(j).__name__` */
  function TypeName(j: Json): string
  {
    match j
    case JNull => "NoneType"
    case JBool(_) => "bool"
    case JNum(_) => "int"
    case JStr(_) => "str"
    case JList(_) => "list"
    case JObj(_) => "dict"
  }

  /** `t` occurs in `s` as a contiguous substring. */
  predicate IsSubstring(t: string, s: string)
  {
    StartsWith(s, t) || (s != [] && IsSubstring(t, s[1..]))
  }

  /** `key in container` for a string key. */
  function Contains(container: Json, key: string): (r: Result<bool>)
    ensures container.JObj? ==> r == Ok(key in container.fields)
    ensures r.Err? <==> container.JNull? || container.JBool? || container.JNum?
  {
    match container
    case JObj(m) => Ok(key in m)
    case JStr(s) => Ok(IsSubstring(key, s))
    case JList(xs) => Ok(JStr(key) in xs)
    case _ => Err(TypeError("argument of type '" + TypeName(container) + "' is not iterable"))
  }

  /** `container[key]` for a string key. */
  function GetItem(container: Json, key: string): (r: Result<Json>)
    ensures r.Ok? <==> container.JObj? && key in container.fields
    ensures r.Ok? ==> r.value == container.fields[key]
  {
    match container
    case JObj(m) => if key in m then Ok(m[key]) else Err(KeyError(key))
    case JStr(_) => Err(TypeError("string indices must be integers, not 'str'"))
    case JList(_) => Err(TypeError("list indices must be integers or slices, not str"))
    case _ => Err(TypeError("'" + TypeName(container) + "' object is not subscriptable"))
  }

  /** The exception `container[key] = value` raises when `container` is not a dict. */
  function SetItemError(container: Json): Error
  {
    if container.JList? then TypeError("list indices must be integers or slices, not str")
    else TypeError("'" + TypeName(container) + "' object does not support item assignment")
  }

  /** `container[key] = value`: the updated container, or the exception. */
  function SetItem(container: Json, key: string, value: Json): (r: Result<Json>)
    ensures r.Ok? <==> container.JObj?
    ensures r.Ok? ==> r.value == JObj(container.fields[key := value])
    ensures r.Err? ==> r.error == SetItemError(container)
  {
    match container
    case JObj(m) => Ok(JObj(m[key := value]))
    case _ => Err(SetItemError(container))
  }

  /** `container.get(key)`: only dicts have it. */
  function Get(container: Json, key: string): (r: Result<Option<Json>>)
    ensures r.Err? <==> !container.JObj?
    ensures container.JObj? ==> r == Ok(if key in container.fields then Some(container.fields[key]) else None)
  {
    match container
    case JObj(m) => Ok(if key in m then Some(m[key]) else None)
    case _ => Err(AttributeError(TypeName(container), "get"))
  }

  /** The first index of `c` in `s`, or |s| when `c` does not occur. */
  function IndexOf(s: string, c: char): (i: nat)
    ensures i <= |s|
    ensures i < |s| ==> s[i] == c
    ensures forall j :: 0 <= j < i ==> s[j] != c
  {
    if s == [] then 0
    else if s[0] == c then 0
    else 1 + IndexOf(s[1..], c)
  }

  predicate StartsWith(s: string, prefix: string)
  {
    |prefix| <= |s| && s[..|prefix|] == prefix
  }
}
