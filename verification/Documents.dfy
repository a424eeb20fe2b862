/** Parsed configuration documents: JSON values, and YAML ones that JSON can express. */
module Documents {

  datatype Value =
    | Null
    | Bool(b: bool)
    | Num(n: real)
    | Str(s: string)
    | Arr(items: seq<Value>)
    | Obj(fields: map<string, Value>)

  type Object = map<string, Value>
}
