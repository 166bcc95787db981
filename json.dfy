/** JSON values as they cross the HTTP boundary between client and server.
    Objects are maps from key to value: a key that is absent is what
    JavaScript reads as `undefined`. */
module Json {
  import opened Wrappers

  datatype Json =
    | JNull
    | JBool(b: bool)
    | JInt(i: int)
    | JStr(s: string)
    | JArr(items: seq<Json>)
    | JObj(fields: map<string, Json>)

  /** `obj[key]` read as an integer: anything but a present integer is `undefined`. */
  function IntField(obj: map<string, Json>, key: string): (r: Option<int>)
    ensures r.Some? <==> key in obj && obj[key].JInt?
    ensures r.Some? ==> obj[key] == JInt(r.value)
  {
    if key in obj && obj[key].JInt? then Some(obj[key].i) else None
  }

  /** `obj[key]` read as a string: anything but a present string is `undefined`. */
  function StrField(obj: map<string, Json>, key: string): (r: Option<string>)
    ensures r.Some? <==> key in obj && obj[key].JStr?
    ensures r.Some? ==> obj[key] == JStr(r.value)
  {
    if key in obj && obj[key].JStr? then Some(obj[key].s) else None
  }
}
