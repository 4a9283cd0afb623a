/** JSON-shaped values as the server builds and sends them. `Oid` is a MongoDB
    ObjectId, written on the wire as its hexadecimal string. A property that is
    `undefined` is simply absent from an object. */
module Json {
  import opened Wrappers

  datatype Value =
    | Null
    | Bool(b: bool)
    | Num(n: int)
    | Str(s: string)
    | Oid(hex: string)
    | Arr(items: seq<Value>)
    | Obj(fields: map<string, Value>)

  /** Sets `k` when `v` is defined and leaves it absent otherwise, as
      `JSON.stringify` drops `undefined` properties. */
  function Put(m: map<string, Value>, k: string, v: Option<Value>): (r: map<string, Value>)
    ensures v.Some? ==> r == m[k := v.value]
    ensures v.None? ==> r == m
  {
    match v
    case None => m
    case Some(x) => m[k := x]
  }

  function StrOf(s: Option<string>): Option<Value> {
    match s
    case None => None
    case Some(x) => Some(Str(x))
  }

  function NumOf(n: Option<int>): Option<Value> {
    match n
    case None => None
    case Some(x) => Some(Num(x))
  }

  function OidOf(h: Option<string>): Option<Value> {
    match h
    case None => None
    case Some(x) => Some(Oid(x))
  }

  /** The string stored under `k`, if there is one. */
  function StrField(m: map<string, Value>, k: string): Option<string> {
    if k in m && m[k].Str? then Some(m[k].s) else None
  }

  function NumField(m: map<string, Value>, k: string): Option<int> {
    if k in m && m[k].Num? then Some(m[k].n) else None
  }

  function OidField(m: map<string, Value>, k: string): Option<string> {
    if k in m && m[k].Oid? then Some(m[k].hex) else None
  }

  /** `{ error: msg }` */
  function ErrorBody(msg: string): Value {
    Obj(map["error" := Str(msg)])
  }

  /** `{ message: msg }` */
  function MessageBody(msg: string): Value {
    Obj(map["message" := Str(msg)])
  }
}
