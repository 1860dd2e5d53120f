/** JSON values as Python's `json` module hands them over; `true` is not the number 1 here, as the code insists. */
module Json {
  datatype Json =
    | Null
    | Bool(b: bool)
    | Int(n: int)
    | Float(r: real)
    | Infinite                       // `Infinity`, `-Infinity`, and literals such as `1e999`
    | NotANumber
    | Str(s: string)
    | Arr(items: seq<Json>)
    | Obj(fields: map<string, Json>)

  /** `x.get(name)` on an object, and null on anything that is not one. */
  function Get(x: Json, name: string): (v: Json) {
    if x.Obj? && name in x.fields then x.fields[name] else Null
  }
}
