/** Decoded JSON values: the comparison reads member names as characters, log selection as bytes. */
module JsonValues {

  /** `Null` is Go's nil: a JSON null, an absent member, or an element past the end. */
  datatype Value<Text(==)> =
    | Null
    | Bool(b: bool)
    | Num(n: real)
    | Str(s: Text)
    | Arr(elems: seq<Value<Text>>)
    | Obj(members: map<Text, Value<Text>>)
}
