/**
 * JavaScript values as the library sees them. Plain objects and Immutable.js
 * maps are one constructor, `Obj`, keyed by values (Immutable keeps a numeric
 * key numeric); arrays and Immutable lists are `Arr`. Numbers are integers.
 */
module Values {
  import Text

  datatype Value =
    | Undefined
    | Null
    | Bool(b: bool)
    | Num(n: int)
    | Str(s: string)
    | Arr(items: seq<Value>)
    | Obj(fields: map<Value, Value>)

  /** JavaScript truthiness: `undefined`, `null`, `false`, `0` and `""` are falsy. */
  predicate Truthy(v: Value) {
    match v
    case Undefined => false
    case Null => false
    case Bool(b) => b
    case Num(n) => n != 0
    case Str(s) => s != ""
    case Arr(_) => true
    case Obj(_) => true
  }

  /** Property read `v[key]`; anything that is not an object has no such property. */
  function Prop(v: Value, key: string): Value {
    if v.Obj? && Str(key) in v.fields then v.fields[Str(key)] else Undefined
  }

  /** Lookup of a key of any kind in an object (an Immutable `get`). */
  function Get(v: Value, key: Value): Value {
    if v.Obj? && key in v.fields then v.fields[key] else Undefined
  }

  /** Element read `v[i]` on an array; `undefined` out of range or on a non-array. */
  function Index(v: Value, i: nat): Value {
    if v.Arr? && i < |v.items| then v.items[i] else Undefined
  }

  /** An object literal with string keys; a later entry overrides an earlier one. */
  function Record(entries: seq<(string, Value)>): (r: Value)
    ensures r.Obj?
    decreases |entries|
  {
    if |entries| == 0 then Obj(map[])
    else
      var last := entries[|entries| - 1];
      Obj(Record(entries[..|entries| - 1]).fields[Str(last.0) := last.1])
  }

  /** Decimal text of an integer, as `String(n)` gives it. */
  function IntToText(n: int): string {
    if n < 0 then "-" + NatToText(-n) else NatToText(n)
  }

  function NatToText(n: nat): string
    decreases n
  {
    var d := ['0', '1', '2', '3', '4', '5', '6', '7', '8', '9'];
    if n < 10 then [d[n]] else NatToText(n / 10) + [d[n % 10]]
  }

  /**
   * `String(v)`: the text a value becomes when it is spliced into a string.
   * Arrays join their elements with ",", writing null and undefined as "".
   */
  function ToText(v: Value): string
    decreases v
  {
    match v
    case Undefined => "undefined"
    case Null => "null"
    case Bool(b) => if b then "true" else "false"
    case Num(n) => IntToText(n)
    case Str(s) => s
    case Arr(items) => JoinValues(items, ',')
    case Obj(_) => "[object Object]"
  }

  /** `items.join(sep)`: each element as `String` gives it, null and undefined as "". */
  function JoinValues(items: seq<Value>, sep: char): string
    decreases items
  {
    Text.Join(seq(|items|, i requires 0 <= i < |items| =>
      if items[i].Undefined? || items[i].Null? then "" else ToText(items[i])), sep)
  }

  /** The exceptions the modelled code throws. */
  datatype Error =
    | MissingPayload(actionType: string)
    | MissingIdAttribute(actionType: string)
    | MissingResult(actionType: string)
    | MissingEntity(actionType: string, id: Value)
    | NotDestructurable
    | InvalidKeyPath
    | NotAList
    | NotAFunction
    | NotConvertible      // `.toJS()` called on undefined or on a primitive
    | UnsupportedValue
    | HandlerNotFound(verb: string)
    | ActionRequired(suffix: string, verb: string)
    | ActionsRequired
    | UnknownStatus(status: string)
    | OptionRequired(key: string)
    | InvalidIdPath
    | UrlKeyMissing(key: string, actionType: string)
    | MethodMissing
}
