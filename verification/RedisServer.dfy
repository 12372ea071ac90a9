/** The Redis commands the stores issue, over a keyspace of typed values. */
module RedisServer {
  import opened Basics
  import opened Decimal

  type Bytes = string

  datatype Value = Hash(h: map<string, Bytes>) | Members(s: set<string>) | Str(v: Bytes)

  type Keyspace = map<string, Value>

  /** A command's reply: a value, redis.Nil, or an error such as WRONGTYPE. */
  datatype Reply<+T> = Ok(value: T) | Nil | Err

  predicate HashKey(ks: Keyspace, key: string) { key !in ks || ks[key].Hash? }
  predicate SetKey(ks: Keyspace, key: string) { key !in ks || ks[key].Members? }

  /** The fields of a hash; a missing key is an empty hash. */
  function Fields(ks: Keyspace, key: string): map<string, Bytes> {
    if key in ks && ks[key].Hash? then ks[key].h else map[]
  }

  /** The members of a set; a missing key is an empty set. */
  function Elements(ks: Keyspace, key: string): set<string> {
    if key in ks && ks[key].Members? then ks[key].s else {}
  }

  function HSet(ks: Keyspace, key: string, fields: map<string, Bytes>): (Keyspace, Reply<()>) {
    if HashKey(ks, key) then (ks[key := Hash(Fields(ks, key) + fields)], Ok(())) else (ks, Err)
  }

  function HGet(ks: Keyspace, key: string, field: string): Reply<Bytes> {
    if !HashKey(ks, key) then Err
    else if field in Fields(ks, key) then Ok(Fields(ks, key)[field])
    else Nil
  }

  function HGetAll(ks: Keyspace, key: string): Reply<map<string, Bytes>> {
    if HashKey(ks, key) then Ok(Fields(ks, key)) else Err
  }

  /** HMGET: one answer per requested field, nil where the hash lacks it. */
  function HMGet(ks: Keyspace, key: string, fields: seq<string>): (r: Reply<seq<Option<Bytes>>>)
    ensures r.Ok? ==> |r.value| == |fields|
  {
    if HashKey(ks, key)
    then Ok(seq(|fields|, i requires 0 <= i < |fields| =>
              if fields[i] in Fields(ks, key) then Some(Fields(ks, key)[fields[i]]) else None))
    else Err
  }

  /** HDEL; a hash that loses its last field disappears. */
  function HDel(ks: Keyspace, key: string, fields: set<string>): (Keyspace, Reply<()>) {
    if !HashKey(ks, key) then (ks, Err)
    else if key !in ks then (ks, Ok(()))
    else if Fields(ks, key) - fields == map[] then (ks - {key}, Ok(()))
    else (ks[key := Hash(Fields(ks, key) - fields)], Ok(()))
  }

  function SAdd(ks: Keyspace, key: string, members: set<string>): (Keyspace, Reply<()>) {
    if SetKey(ks, key) then (ks[key := Members(Elements(ks, key) + members)], Ok(())) else (ks, Err)
  }

  /** SREM; a set that loses its last member disappears. */
  function SRem(ks: Keyspace, key: string, member: string): (Keyspace, Reply<()>) {
    if !SetKey(ks, key) then (ks, Err)
    else if key !in ks then (ks, Ok(()))
    else if Elements(ks, key) - {member} == {} then (ks - {key}, Ok(()))
    else (ks[key := Members(Elements(ks, key) - {member})], Ok(()))
  }

  function SMembers(ks: Keyspace, key: string): Reply<set<string>> {
    if SetKey(ks, key) then Ok(Elements(ks, key)) else Err
  }

  function Get(ks: Keyspace, key: string): Reply<Bytes> {
    if key !in ks then Nil else if ks[key].Str? then Ok(ks[key].v) else Err
  }

  function Set(ks: Keyspace, key: string, v: Bytes): Keyspace { ks[key := Str(v)] }

  function Incr(ks: Keyspace, key: string): (Keyspace, Reply<int>) {
    match Get(ks, key)
    case Nil => (ks[key := Str(FormatInt(1))], Ok(1))
    case Err => (ks, Err)
    case Ok(v) =>
      var p := ParseInt(v);
      if p.ok && p.value < INT64_MAX then (ks[key := Str(FormatInt(p.value + 1))], Ok(p.value + 1)) else (ks, Err)
  }
}
