/** Decoded JSON values and the partial reads the admission code makes of them. */
module Json {
  import opened Wrappers

  datatype Value =
    | Null
    | Bool(b: bool)
    | Number(n: int)
    | Str(s: string)
    | Arr(items: seq<Value>)
    | Obj(members: seq<Member>)

  datatype Member = Member(key: string, value: Value)

  /** The member of an object, or nothing for any other value. */
  function Get(v: Value, key: string): (r: Option<Value>)
    ensures r.Some? ==> v.Obj? && r.value < v
  {
    if v.Obj? then Find(v.members, key) else None
  }

  function Find(members: seq<Member>, key: string): (r: Option<Value>)
    ensures r.Some? ==> Member(key, r.value) in members
  {
    if members == [] then None
    else if members[0].key == key then Some(members[0].value)
    else Find(members[1..], key)
  }

  function AsStr(v: Option<Value>): Option<string> {
    match v
    case Some(Str(s)) => Some(s)
    case _ => None
  }

  function AsArray(v: Option<Value>): (r: Option<seq<Value>>)
    ensures r.Some? ==> v.Some? && v.value == Arr(r.value)
  {
    match v
    case Some(Arr(items)) => Some(items)
    case _ => None
  }

  function AsBool(v: Option<Value>, otherwise: bool): bool {
    match v
    case Some(Bool(b)) => b
    case _ => otherwise
  }

  function GetStr(v: Value, key: string): Option<string> {
    AsStr(Get(v, key))
  }

  function GetArray(v: Value, key: string): Option<seq<Value>> {
    AsArray(Get(v, key))
  }

  /** Present and not null. */
  predicate Present(v: Value, key: string) {
    Get(v, key).Some? && Get(v, key) != Some(Null)
  }
}
