/** JSON values as Python holds them: booleans, integers and floats kept apart. */
module JsonValue {

  datatype Json =
    | Null
    | Bool(flag: bool)
    | Int(whole: int)
    | Real(number: real)
    | Str(text: string)
    | Arr(items: seq<Json>)
    | Obj(fields: map<string, Json>)
}
