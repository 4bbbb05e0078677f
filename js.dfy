/** JSON values as the page scripts receive them from `res.json()`, the JavaScript coercions
    they apply to them (`String(v)`, truthiness, `v == null`, property reads), and the
    exceptions those scripts catch. */
module Js {
  import opened Text

  datatype Option<T> = None | Some(value: T)

  /** An exception that reaches one of the scripts' `catch` handlers. */
  datatype Failure =
    | Thrown(message: string)   // an Error from the network layer, the JSON parser or the script itself
    | ReadOfNullish(key: string) // TypeError: reading property `key` of null or undefined
    | NotAFunction(name: string) // TypeError: calling a method the value does not have

  datatype Result<T> = Ok(value: T) | Err(error: Failure) {
    predicate IsFailure() {
      Err?
    }

    function PropagateFailure<U>(): Result<U>
      requires Err?
    {
      Err(error)
    }

    function Extract(): T
      requires Ok?
    {
      value
    }
  }

  /** A JSON value. `Undefined` is what reading a missing property yields. Numbers are integral. */
  datatype Json =
    | Undefined
    | Null
    | Bool(b: bool)
    | Num(n: int)
    | Str(s: string)
    | Arr(items: seq<Json>)
    | Obj(fields: map<string, Json>)

  /** What `fetch` resolves to: the `ok` flag, the status code, and what `res.json()` yields. */
  datatype Response = Response(ok: bool, status: int, json: Result<Json>)

  /** `v == null`: true of null and undefined only. */
  predicate Nullish(v: Json) {
    v.Undefined? || v.Null?
  }

  /** `Boolean(v)`: the falsy JSON values are null, undefined, false, 0 and "". */
  predicate Truthy(v: Json) {
    match v
    case Undefined => false
    case Null => false
    case Bool(b) => b
    case Num(n) => n != 0
    case Str(s) => s != ""
    case Arr(_) => true
    case Obj(_) => true
  }

  /** `a || b`: one of its operands, truthy exactly when either operand is, and the left one
      whenever that one is truthy (short-circuit). */
  function Or(a: Json, b: Json): (r: Json)
    ensures r == a || r == b
    ensures Truthy(r) <==> Truthy(a) || Truthy(b)
    ensures Truthy(a) ==> r == a
    ensures !Truthy(a) ==> r == b
  {
    if Truthy(a) then a else b
  }

  /** What `v[key]` reads from a value that is not null or undefined: the member of an object,
      undefined for a missing key. None of the keys the scripts read names a property of a
      built-in prototype, so strings, numbers, booleans and arrays read as undefined too. */
  function Field(v: Json, key: string): Json {
    if v.Obj? && key in v.fields then v.fields[key] else Undefined
  }

  /** `v[key]`, which throws a TypeError on null and undefined. */
  function Prop(v: Json, key: string): (r: Result<Json>)
    ensures r.Err? <==> Nullish(v)
    ensures r.Err? ==> r.error == ReadOfNullish(key)
    ensures v.Obj? && key in v.fields ==> r == Ok(v.fields[key])
    ensures r.Ok? && r.value != Undefined ==> v.Obj? && key in v.fields
    ensures !Nullish(v) && !(v.Obj? && key in v.fields) ==> r == Ok(Undefined)
  {
    if Nullish(v) then Err(ReadOfNullish(key)) else Ok(Field(v, key))
  }

  /** `String(v)`. An array is the comma-join of its elements, null and undefined elements
      contributing nothing, as `Array.prototype.toString` does. */
  function ToStr(v: Json): string
    decreases v
  {
    match v
    case Undefined => "undefined"
    case Null => "null"
    case Bool(b) => if b then "true" else "false"
    case Num(n) => IntToString(n)
    case Str(s) => s
    case Arr(items) => JoinItems(items)
    case Obj(_) => "[object Object]"
  }

  function JoinItems(items: seq<Json>): string
    decreases items
  {
    if items == [] then ""
    else
      var head := if Nullish(items[0]) then "" else ToStr(items[0]);
      if |items| == 1 then head else head + "," + JoinItems(items[1..])
  }

  /** `formatDate(iso)` of both renderers: the locale rendering of the date (`localeFormat`
      stands for `new Date(iso).toLocaleDateString(...)` with the renderer's options), or the raw
      string when it is not a valid date (`localeFormat` gives None). */
  function FormatDate(localeFormat: string -> Option<string>, iso: string): (r: string)
    ensures r == iso <==> localeFormat(iso).None? || localeFormat(iso) == Some(iso)
    ensures r != iso ==> localeFormat(iso) == Some(r)
  {
    match localeFormat(iso)
    case Some(text) => text
    case None => iso
  }

  /** `items.map(f)` where `f` may throw: the elements are visited left to right and the first
      exception ends the map. */
  function MapAll<T>(items: seq<Json>, f: Json -> Result<T>): (r: Result<seq<T>>)
    ensures r.Ok? <==> forall i :: 0 <= i < |items| ==> f(items[i]).Ok?
    ensures r.Ok? ==> |r.value| == |items|
                      && forall i :: 0 <= i < |items| ==> r.value[i] == f(items[i]).value
    ensures r.Err? ==> exists i :: 0 <= i < |items| && f(items[i]) == Err(r.error)
                                   && forall j :: 0 <= j < i ==> f(items[j]).Ok?
  {
    if items == [] then Ok([])
    else
      match f(items[0])
      case Err(e) => Err(e)
      case Ok(x) =>
        match MapAll(items[1..], f)
        case Err(e) =>
          assert forall i :: 1 <= i < |items| ==> items[i] == items[1..][i - 1];
          Err(e)
        case Ok(xs) => Ok([x] + xs)
  }
}
