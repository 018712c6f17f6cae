/**
 The slice of JavaScript's value semantics the front end relies on: JSON-shaped
 values, truthiness (`||`, `!`), optional property reads (`?.`), indexing with
 `[k]`, and `String(v)` / `Array.prototype.join` text conversion.
 Numbers are integers or NaN: the fractional arithmetic of prices is not part
 of this model.
 */
module JsValues {
  import Text

  datatype Option<T> = None | Some(value: T)

  datatype Number = Int(i: int) | NaN

  datatype Value =
    | Undefined
    | Null
    | Bool(b: bool)
    | Num(n: Number)
    | Str(s: string)
    | Arr(items: seq<Value>)
    | Obj(fields: map<string, Value>)

  /** JavaScript truthiness: false, 0, NaN, "", null and undefined are falsy. */
  predicate Truthy(v: Value) {
    match v
    case Undefined => false
    case Null => false
    case Bool(b) => b
    case Num(n) => n.Int? && n.i != 0
    case Str(s) => s != ""
    case Arr(_) => true
    case Obj(_) => true
  }

  /** `v == null`: true exactly for null and undefined. */
  predicate Nullish(v: Value) {
    v.Undefined? || v.Null?
  }

  /** `a || b`. */
  function Or(a: Value, b: Value): (r: Value)
    ensures Truthy(a) ==> r == a
    ensures !Truthy(a) ==> r == b
  {
    if Truthy(a) then a else b
  }

  /** `v?.key` for the record keys this front end reads; only objects carry them. */
  function Property(v: Value, key: string): Value {
    if v.Obj? && key in v.fields then v.fields[key] else Undefined
  }

  datatype Access = Got(value: Value) | TypeError

  /** `v[k]`: arrays and strings by position, objects by key, null and undefined throw. */
  function Index(v: Value, k: nat): (r: Access)
    ensures r.TypeError? <==> Nullish(v)
    ensures v.Arr? && k < |v.items| ==> r == Got(v.items[k])
    ensures v.Arr? && k >= |v.items| ==> r == Got(Undefined)
  {
    match v
    case Undefined => TypeError
    case Null => TypeError
    case Arr(items) => Got(if k < |items| then items[k] else Undefined)
    case Str(s) => Got(if k < |s| then Str([s[k]]) else Undefined)
    case Obj(fields) =>
      var key := Text.NatToString(k);
      Got(if key in fields then fields[key] else Undefined)
    case _ => Got(Undefined)
  }

  function NumberText(n: Number): string {
    match n
    case Int(i) => Text.IntToString(i)
    case NaN => "NaN"
  }

  /** `String(v)`, as a template literal `${v}` renders it. */
  function ToText(v: Value): string
    decreases v, 1
  {
    match v
    case Undefined => "undefined"
    case Null => "null"
    case Bool(b) => if b then "true" else "false"
    case Num(n) => NumberText(n)
    case Str(s) => s
    case Arr(items) => JoinValues(items, v)
    case Obj(_) => "[object Object]"
  }

  /** How `Array.prototype.join` renders one element: null and undefined become "". */
  function CellText(v: Value): (t: string)
    ensures Nullish(v) ==> t == ""
    ensures v.Str? ==> t == v.s
    decreases v, 2
  {
    if Nullish(v) then "" else ToText(v)
  }

  /** `items.join(',')` for the items of the array `whole`. */
  function JoinValues(items: seq<Value>, ghost whole: Value): string
    requires forall k :: 0 <= k < |items| ==> items[k] < whole
    decreases whole, 0, |items|
  {
    if |items| == 0 then ""
    else if |items| == 1 then CellText(items[0])
    else CellText(items[0]) + "," + JoinValues(items[1..], whole)
  }
}

/** The constants of the front end's configuration that the model uses. */
module Config {
  /** Rows per page in the records view. */
  const PageSize: nat := 10
  /** Most products that can be selected in the records filter at once. */
  const MaxProductFilters: nat := 3
  /** Two pending sales closer than this many milliseconds are near-duplicates. */
  const DuplicateWindowMs: int := 60000
  /** The spreadsheet script the proxy forwards to. */
  const GasUrl: string := "https://script.google.com/macros/s/AKfycbxZIPBOwj9LXVThkQkhYJcsTYEFccgEJlsOH3UyrgMg64axY3mFLU3qVxVXMiJI2zt4IQ/exec"
  /** The proxy every data request goes through. */
  const ProxyUrl: string := "https://proxy-gas.srbyyeah.workers.dev/"
  /** The reachability probe's endpoint. */
  const ConnectionCheckUrl: string := "https://httpbin.org/get"
  /** The localStorage key of the pending-sales list. */
  const PendingKey: string := "pendingVentas"
}

/** The user-visible notifications (the bottom-corner alert banner) the core emits. */
module Ui {
  datatype AlertKind = Success | Warning | Error | Info

  datatype Alert = Alert(message: string, kind: AlertKind)
}
