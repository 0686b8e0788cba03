/** JSON values. Object members are looked up by key; their order never matters here. */
module JsonValues {
  datatype Json =
    | Null
    | Bool(truth: bool)
    | Num(number: real)
    | Str(text: string)
    | Arr(items: seq<Json>)
    | Obj(fields: map<string, Json>)
  {
    predicate Scalar() { !Arr? && !Obj? }
  }
}
