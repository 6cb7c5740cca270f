/** JSON values as trees, read the way serde_json's `Value` is. */
module Json {
  import opened Prelude

  datatype Value =
    | Null
    | Bool(b: bool)
    | Integer(n: int)
    | Float(r: real)
    | String(s: string)
    | Array(items: seq<Value>)
    | Object(fields: map<string, Value>)
  {
    /** `self[key]`: a missing key, or a value that is no object, reads as null. */
    function At(key: string): Value {
      if Object? && key in fields then fields[key] else Null
    }

    function AsString(): Option<string> {
      if String? then Some(s) else None
    }

    function StringOr(default: string): string {
      if String? then s else default
    }

    function AsI64(): Option<int> {
      if Integer? && -0x8000_0000_0000_0000 <= n < 0x8000_0000_0000_0000 then Some(n) else None
    }

    function AsU64(): Option<int> {
      if Integer? && 0 <= n < 0x1_0000_0000_0000_0000 then Some(n) else None
    }

    function AsF64(): Option<real> {
      if Integer? then Some(n as real) else if Float? then Some(r) else None
    }

    /** The items of an array; nothing for any other value. */
    function Items(): seq<Value> {
      if Array? then items else []
    }
  }
}
