/** JSON values as serde_json holds them, and the option type shared by the model. */
module Json {

  datatype Option<+T> = None | Some(value: T)

  /** A parsed JSON document. Numbers keep their literal text, because equality of two
      numbers is equality of their text; `value` is the number the text denotes. */
  datatype Json =
    | Null
    | Bool(b: bool)
    | Num(literal: string, value: real)
    | Str(s: string)
    | Arr(items: seq<Json>)
    | Obj(fields: map<string, Json>)

  function Get(o: map<string, Json>, key: string): Option<Json> {
    if key in o then Some(o[key]) else None
  }

  function AsReal(j: Option<Json>): Option<real> {
    if j.Some? && j.value.Num? then Some(j.value.value) else None
  }

  /** The string members of a JSON array. */
  function Strings(xs: seq<Json>): set<string> {
    set i | 0 <= i < |xs| && xs[i].Str? :: xs[i].s
  }
}
