/** JSON values as the programs decode them: numbers keep their text and an object is a map. */
module Json {
  datatype Json = Null | Bool(b: bool) | Num(text: string) | Str(s: string) | Arr(items: seq<Json>) | Obj(members: Object)

  type Object = map<string, Json>
}
