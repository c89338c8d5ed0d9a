/** `serde_json::Value` and the accessors the connectors read payloads with. */
module Json {
  import opened Prelude
  import Text

  const I64_MIN: int := -0x8000_0000_0000_0000
  const I64_MAX: int := 0x7fff_ffff_ffff_ffff
  const U64_MAX: int := 0xffff_ffff_ffff_ffff

  /** An integer in the range of `i64` or `u64`, or a float, kept as its printed text. */
  datatype Number =
    | Int(n: int)
    | Float(text: string)
  {
    predicate Valid() {
      match this
      case Int(n) => I64_MIN <= n <= U64_MAX
      case Float(text) => text != ""
    }

    /** `Number::to_string`. */
    function Print(): string {
      match this
      case Int(n) => Text.Decimal(n)
      case Float(text) => text
    }
  }

  type ValidNumber = x: Number | x.Valid() witness Int(0)

  datatype Value =
    | Null
    | Bool(b: bool)
    | Num(number: ValidNumber)
    | Str(s: string)
    | Arr(items: seq<Value>)
    | Obj(fields: map<string, Value>)
  {
    /** `Value::get` with a key. */
    function Get(key: string): Option<Value> {
      if Obj? && key in fields then Some(fields[key]) else None
    }
  }

  /** `.and_then(|v| v.get(key))`. */
  function Then(v: Option<Value>, key: string): Option<Value> {
    match v
    case Some(value) => value.Get(key)
    case None => None
  }

  /** `.and_then(|v| v.as_str())`. */
  function AsStr(v: Option<Value>): Option<string> {
    match v
    case Some(Str(s)) => Some(s)
    case _ => None
  }

  /** `.and_then(|v| v.as_i64())`. */
  function AsI64(v: Option<Value>): Option<int> {
    match v
    case Some(Num(Int(n))) => if n <= I64_MAX then Some(n) else None
    case _ => None
  }

  /** `.or_else(|| other)`. */
  function Or<T>(v: Option<T>, other: Option<T>): Option<T> {
    if v.Some? then v else other
  }

  // ---------------------------------------------------------------- fields, stated outright

  predicate HasField(v: Value, key: string) {
    v.Obj? && key in v.fields
  }

  /** `v` is an object whose field `key` is `x`. */
  predicate FieldIs(v: Value, key: string, x: Value) {
    HasField(v, key) && v.fields[key] == x
  }

  /** The same, one level down. */
  predicate InnerFieldIs(v: Value, outer: string, key: string, x: Value) {
    HasField(v, outer) && FieldIs(v.fields[outer], key, x)
  }

  /** A field that is a string, or the empty string when there is none. */
  predicate TextOfField(v: Value, key: string, text: string) {
    if HasField(v, key) && v.fields[key].Str? then FieldIs(v, key, Str(text)) else text == ""
  }

  /** A number in the range of `i64`. */
  predicate IsI64(x: Value) {
    x.Num? && x.number.Int? && -0x8000_0000_0000_0000 <= x.number.n <= 0x7fff_ffff_ffff_ffff
  }
}
