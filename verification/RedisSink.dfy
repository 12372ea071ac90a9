/**
 producer/redis/redis.go: the hash at `hashKey` maps info hashes to torrent names, and a second hash per
 name records the hashes stored for it, so that the next Send can take them out again.
 */
module RedisSink {
  import opened Basics
  import opened HashIndex
  import R = RedisServer

  const V1_FIELD := "v1"
  const V2_FIELD := "v2"
  const HYBRID_FIELD := "v2to1"
  const RECORD_FIELDS := [V1_FIELD, V2_FIELD, HYBRID_FIELD]

  datatype Settings = Settings(hashKey: string, nameKeyPrefix: string, calculateV2: bool, hasher: Hasher) {
    function NameKey(name: string): string { nameKeyPrefix + name }

    /** The record of `name` does not sit on the hash map itself. */
    predicate Apart(name: string) { NameKey(name) != hashKey }

    function HashesOf(data: Bytes): (r: Option<Hashes>)
      ensures r.Some? ==> r.value.Valid() && (r.value.v2 == "" <==> !calculateV2)
    {
      Generate(hasher, data, calculateV2)
    }
  }

  /** Which of the four commands of a Send reach the server; one that does not is an error and has no effect. */
  datatype Net = Net(hmget: bool, hdel: bool, hsetHashes: bool, hsetRecord: bool)

  const ALL_UP := Net(true, true, true, true)

  /** HSET's argument list: fields and values in turn; of two values for a field the later one stays. */
  function Pairs(values: seq<Bytes>): map<Bytes, Bytes>
    requires |values| % 2 == 0
  {
    if values == [] then map[] else map[values[0] := values[1]] + Pairs(values[2..])
  }

  function Names(hs: Hashes, name: string): map<Bytes, Bytes>
    requires hs.Valid()
  {
    map h | h in hs.Codes() :: name
  }

  function Record(hs: Hashes): map<Bytes, Bytes>
    requires hs.Valid()
  {
    if hs.v2 == "" then map[V1_FIELD := hs.v1]
    else map[V1_FIELD := hs.v1, V2_FIELD := hs.v2, HYBRID_FIELD := hs.v2[..SHA1_SIZE]]
  }

  /** The hashes in a record. */
  function InRecord(fields: map<Bytes, Bytes>): set<Bytes> {
    set f | f in RECORD_FIELDS && f in fields :: fields[f]
  }

  /** The hashes that the record of `name` lists. */
  function Listed(c: Settings, ks: R.Keyspace, name: string): set<Bytes> { InRecord(R.Fields(ks, c.NameKey(name))) }

  function HashMap(c: Settings, ks: R.Keyspace): map<Bytes, Bytes> { R.Fields(ks, c.hashKey) }

  function Rel(c: Settings, ks: R.Keyspace): Relation {
    set h | h in HashMap(c, ks) :: (h, HashMap(c, ks)[h])
  }

  /** The hashes mapped to `name`. */
  function Mapped(c: Settings, ks: R.Keyspace, name: string): set<Bytes> {
    set h | h in HashMap(c, ks) && HashMap(c, ks)[h] == name
  }

  // ----- The effect of one Send

  function Purged(c: Settings, ks: R.Keyspace, name: string, net: Net): R.Keyspace {
    if net.hmget && R.HashKey(ks, c.NameKey(name)) && net.hdel && Listed(c, ks, name) != {}
    then R.HDel(ks, c.hashKey, Listed(c, ks, name)).0 else ks
  }

  function Stored(c: Settings, ks: R.Keyspace, name: string, hs: Hashes, net: Net): R.Keyspace
    requires hs.Valid()
  {
    if net.hsetHashes && R.HashKey(ks, c.hashKey) then
      var k := R.HSet(ks, c.hashKey, Names(hs, name)).0;
      if net.hsetRecord then R.HSet(k, c.NameKey(name), Record(hs)).0 else k
    else ks
  }

  function Sent(c: Settings, ks: R.Keyspace, s: Send, net: Net): R.Keyspace {
    var k := if s.isNew then ks else Purged(c, ks, s.name, net);
    var hs := c.HashesOf(s.data);
    if hs.Some? then Stored(c, k, s.name, hs.value, net) else k
  }

  class Notifier {
    const c: Settings
    var ks: R.Keyspace

    constructor (c: Settings, ks: R.Keyspace)
      ensures this.c == c && this.ks == ks
    {
      this.c := c;
      this.ks := ks;
    }

    /** The non-nil answers. */
    static method Collect(prevHashes: seq<Option<Bytes>>) returns (fields: seq<Bytes>)
      ensures forall f :: f in fields <==> Some(f) in prevHashes
    {
      fields := [];
      for i := 0 to |prevHashes|
        invariant forall f :: f in fields <==> Some(f) in prevHashes[..i]
      {
        assert prevHashes[..i + 1] == prevHashes[..i] + [prevHashes[i]];
        if prevHashes[i].Some? { fields := fields + [prevHashes[i].value]; }
      }
      assert prevHashes[..|prevHashes|] == prevHashes;
    }

    /** The argument list for the hash map, rewritten in place into the one for the record. */
    static method Rewrite(values: array<Bytes>, v2: bool)
      requires values.Length == if v2 then 6 else 2
      modifies values
      ensures !v2 ==> values[..] == [V1_FIELD, old(values[0])]
      ensures v2 ==> values[..] == [V1_FIELD, old(values[0]), V2_FIELD, old(values[2]), HYBRID_FIELD, old(values[4])]
    {
      values[0], values[1] := V1_FIELD, values[0];
      if v2 {
        values[2], values[3] := V2_FIELD, values[2];
        values[4], values[5] := HYBRID_FIELD, values[4];
      }
    }

    /** First half of Send: what the record lists is taken out of the hash map. */
    method Forget(name: string, net: Net)
      modifies this`ks
      ensures ks == Purged(c, old(ks), name, net)
    {
      var prevHashes := R.HMGet(ks, c.NameKey(name), RECORD_FIELDS);
      if net.hmget && prevHashes.Ok? {
        var fields := Collect(prevHashes.value);
        Asked(c, ks, name, fields);
        if |fields| > 0 && net.hdel {
          ks := R.HDel(ks, c.hashKey, set f | f in fields).0;
        }
      }
    }

    /** Second half: the new hashes go into the hash map and, if that worked, into the record. */
    method Remember(name: string, hs: Hashes, net: Net)
      requires hs.Valid() && (hs.v2 == "" <==> !c.calculateV2)
      modifies this`ks
      ensures ks == Stored(c, old(ks), name, hs, net)
    {
      hide Pairs, Names, Record;
      var h1, h2 := hs.v1, hs.v2;
      ArgumentLists(hs, name);
      var values := new Bytes[if c.calculateV2 then 6 else 2] (_ => "");
      values[0], values[1] := h1, name;
      if c.calculateV2 {
        values[2], values[3] := h2, name;
        values[4], values[5] := h2[..SHA1_SIZE], name;
      }
      assert values[..] == if c.calculateV2 then [h1, name, h2, name, h2[..SHA1_SIZE], name] else [h1, name];
      var reply := R.HSet(ks, c.hashKey, Pairs(values[..]));
      if net.hsetHashes && reply.1.Ok? {
        ks := reply.0;
        Rewrite(values, c.calculateV2);
        if net.hsetRecord { ks := R.HSet(ks, c.NameKey(name), Pairs(values[..])).0; }
      }
    }

    method Send(s: Send, net: Net)
      modifies this`ks
      ensures ks == Sent(c, old(ks), s, net)
    {
      if !s.isNew { Forget(s.name, net); }
      var hs := Generate(c.hasher, s.data, c.calculateV2);
      if hs.Some? { Remember(s.name, hs.value, net); }
    }
  }

  lemma Asked(c: Settings, ks: R.Keyspace, name: string, fields: seq<Bytes>)
    requires var r := R.HMGet(ks, c.NameKey(name), RECORD_FIELDS);
             r.Ok? && forall f :: f in fields <==> Some(f) in r.value
    ensures (set f | f in fields) == Listed(c, ks, name)
    ensures |fields| > 0 <==> Listed(c, ks, name) != {}
  {
    var r := R.HMGet(ks, c.NameKey(name), RECORD_FIELDS).value;
    var have := R.Fields(ks, c.NameKey(name));
    forall h ensures h in fields <==> h in Listed(c, ks, name) {
      if h in Listed(c, ks, name) {
        var i :| 0 <= i < 3 && RECORD_FIELDS[i] in have && have[RECORD_FIELDS[i]] == h;
        assert r[i] == Some(h);
      }
    }
    if |fields| > 0 { assert fields[0] in Listed(c, ks, name); }
  }

  lemma ArgumentLists(hs: Hashes, name: string)
    requires hs.Valid()
    ensures hs.v2 == "" ==> Pairs([hs.v1, name]) == Names(hs, name) && Pairs([V1_FIELD, hs.v1]) == Record(hs)
    ensures hs.v2 != "" ==>
              var cut := hs.v2[..SHA1_SIZE];
              && Pairs([hs.v1, name, hs.v2, name, cut, name]) == Names(hs, name)
              && Pairs([V1_FIELD, hs.v1, V2_FIELD, hs.v2, HYBRID_FIELD, cut]) == Record(hs)
  {
    Two(hs.v1, name);
    Two(V1_FIELD, hs.v1);
    if hs.v2 != "" {
      var cut := hs.v2[..SHA1_SIZE];
      Six(hs.v1, name, hs.v2, name, cut, name);
      Six(V1_FIELD, hs.v1, V2_FIELD, hs.v2, HYBRID_FIELD, cut);
    }
  }

  lemma Two(a: Bytes, x: Bytes)
    ensures Pairs([a, x]) == map[a := x]
  {
    assert [a, x][2..] == [];
  }

  lemma Six(a: Bytes, x: Bytes, b: Bytes, y: Bytes, d: Bytes, z: Bytes)
    ensures Pairs([a, x, b, y, d, z]) == map[a := x, b := y, d := z]
  {
    assert [a, x, b, y, d, z][2..] == [b, y, d, z];
    assert [b, y, d, z][2..] == [d, z];
    Two(d, z);
  }
}
