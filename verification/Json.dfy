/** JSON values as the page script returns them. */
module Json {
  import opened Common

  datatype Value =
    | Null
    | Bool(b: bool)
    | Number(n: real)
    | Str(s: string)
    | Array(items: seq<Value>)
    | Object(fields: map<string, Value>)

  function Field(v: Value, name: string): Option<Value> {
    if v.Object? && name in v.fields then Some(v.fields[name]) else None
  }

  function StringField(v: Value, name: string): Option<string> {
    match Field(v, name)
    case Some(Str(s)) => Some(s)
    case _ => None
  }

  function TextField(v: Value, name: string): string {
    match StringField(v, name)
    case Some(s) => s
    case None => ""
  }

  function BoolField(v: Value, name: string, default: bool): bool {
    match Field(v, name)
    case Some(Bool(b)) => b
    case _ => default
  }
}
