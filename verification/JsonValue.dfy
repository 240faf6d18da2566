/** JSON values as the JSON library presents them: objects are finite maps. */
module JsonValue {
  import opened Common

  predicate IsNumberChar(c: char) {
    '0' <= c <= '9' || c == '-' || c == '+' || c == '.' || c == 'e' || c == 'E'
  }

  // The printed form of a number.
  type NumberText = s: string | forall i :: 0 <= i < |s| ==> IsNumberChar(s[i]) witness "0"

  datatype Value =
    | Null
    | Bool(b: bool)
    | Number(n: NumberText)
    | String(s: string)
    | Array(items: seq<Value>)
    | Object(fields: map<string, Value>)

  /** A field of an object; nothing on any other value. */
  function Get(v: Value, key: string): Option<Value> {
    if v.Object? && key in v.fields then Some(v.fields[key]) else None
  }
}
