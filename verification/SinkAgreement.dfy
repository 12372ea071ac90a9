/** The three hash producers, told the same and with every call getting through, hold the same relation. */
module SinkAgreement {
  import opened HashIndex
  import opened RedisSink
  import opened RedisIndex
  import Sql = SqlSink
  import Lmdb = LmdbSink
  import R = RedisServer

  function SqlSent(c: Settings, rows: Relation, s: Send): Relation {
    var hs := c.HashesOf(s.data);
    if hs.Some? then Sql.Replaced(rows, s.name, hs.value) else rows
  }

  function LmdbSent(c: Settings, prefix: Bytes, kv: Lmdb.Index, s: Send): Lmdb.Index {
    var hs := c.HashesOf(s.data);
    if hs.Some? then kv + Lmdb.Keyed(prefix, hs.value, s.name) else kv
  }

  // ----- One Send

  lemma InRel(c: Settings, ks: R.Keyspace, h: Bytes, n: string)
    ensures (h, n) in Rel(c, ks) <==> h in Mapped(c, ks, n)
  {
  }

  function CodesOf(c: Settings, s: Send): set<Bytes> {
    var hs := c.HashesOf(s.data);
    if hs.Some? then hs.value.Codes() else {}
  }

  /** The Send finds all previous hashes of its name, and touches no hash that belongs to another name. If
      its data does not decode, it must touch nothing at all. */
  predicate Careful(c: Settings, ks: R.Keyspace, s: Send) {
    var gone := Removed(c, ks, s, ALL_UP) + CodesOf(c, s);
    && (c.HashesOf(s.data).Some? ==> Mapped(c, ks, s.name) <= gone)
    && forall p :: p in Rel(c, ks) && (c.HashesOf(s.data).Some? ==> p.1 != s.name) ==> p.0 !in gone
  }

  /** The Redis map after a Send, pair by pair. */
  lemma RedisPairs(c: Settings, ks: R.Keyspace, s: Send, h: Bytes, n: string)
    requires Inv(c, ks) && c.Apart(s.name)
    ensures (h, n) in Rel(c, Sent(c, ks, s, ALL_UP)) <==>
            if h in CodesOf(c, s) then n == s.name else (h, n) in Rel(c, ks) && h !in Removed(c, ks, s, ALL_UP)
  {
    hide Sent, Removed, Listed, NextListed, Shape, Names, Rel, Settings.HashesOf;
    SendEffect(c, ks, s, ALL_UP);
    InRel(c, ks, h, n);
    InRel(c, Sent(c, ks, s, ALL_UP), h, n);
    if c.HashesOf(s.data).Some? { NamesAre(c.HashesOf(s.data).value, s.name); }
  }

  lemma SqlPairs(c: Settings, rows: Relation, s: Send, h: Bytes, n: string)
    ensures (h, n) in SqlSent(c, rows, s) <==>
            if c.HashesOf(s.data).Some? && n == s.name then h in CodesOf(c, s) else (h, n) in rows
  {
  }

  /** Two agreeing databases agree after the same Send exactly if it was careful. */
  lemma SendAgreesExactly(c: Settings, ks: R.Keyspace, rows: Relation, s: Send)
    requires Inv(c, ks) && c.Apart(s.name) && Rel(c, ks) == rows
    ensures Rel(c, Sent(c, ks, s, ALL_UP)) == SqlSent(c, rows, s) <==> Careful(c, ks, s)
  {
    hide Sent, SqlSent, Removed, Inv, CodesOf, Settings.HashesOf;
    var a, b := Rel(c, Sent(c, ks, s, ALL_UP)), SqlSent(c, rows, s);
    forall h, n
      ensures (h, n) in a
              <==> if h in CodesOf(c, s) then n == s.name else (h, n) in rows && h !in Removed(c, ks, s, ALL_UP)
      ensures (h, n) in b <==> if c.HashesOf(s.data).Some? && n == s.name then h in CodesOf(c, s) else (h, n) in rows
      ensures (h, n) in rows <==> h in Mapped(c, ks, n)
    {
      RedisPairs(c, ks, s, h, n);
      SqlPairs(c, rows, s, h, n);
      InRel(c, ks, h, n);
    }
    NoCodes(c, s);
    hide Rel, Mapped;
    if Careful(c, ks, s) {
      forall p ensures p in a <==> p in b {
        var (h, n) := p;
        assert (h, n) in rows <==> h in Mapped(c, ks, n);
      }
    }
    if a == b {
      forall p | p in rows && (c.HashesOf(s.data).Some? ==> p.1 != s.name)
        ensures p.0 !in Removed(c, ks, s, ALL_UP) && p.0 !in CodesOf(c, s)
      {
        assert (p.0, p.1) in b;
        assert (p.0, p.1) in a;
      }
      if c.HashesOf(s.data).Some? {
        forall h | h in Mapped(c, ks, s.name) ensures h in Removed(c, ks, s, ALL_UP) + CodesOf(c, s) {
          assert (h, s.name) in rows;
        }
      }
    }
  }

  lemma NoCodes(c: Settings, s: Send)
    ensures c.HashesOf(s.data).None? ==> CodesOf(c, s) == {}
  {
  }

  // ----- Runs

  function RedisRun(c: Settings, ss: seq<Send>): R.Keyspace {
    if ss == [] then map[] else Sent(c, RedisRun(c, ss[..|ss| - 1]), ss[|ss| - 1], ALL_UP)
  }

  function SqlRun(c: Settings, ss: seq<Send>): Relation {
    if ss == [] then {} else SqlSent(c, SqlRun(c, ss[..|ss| - 1]), ss[|ss| - 1])
  }

  function LmdbRun(c: Settings, prefix: Bytes, ss: seq<Send>): Lmdb.Index {
    if ss == [] then map[] else LmdbSent(c, prefix, LmdbRun(c, prefix, ss[..|ss| - 1]), ss[|ss| - 1])
  }

  /** Send `i` carries hash `h` of `n`. */
  predicate CarriedBy(c: Settings, ss: seq<Send>, i: nat, n: string, h: Bytes) {
    i < |ss| && ss[i].name == n && h in CodesOf(c, ss[i])
  }

  /** No name's record sits on the hash map, only the first Send of a name is new, and hashes of different
      names never collide. */
  ghost predicate Tidy(c: Settings, ss: seq<Send>) {
    && (forall i :: 0 <= i < |ss| ==> c.HashesOf(ss[i].data).Some? && c.Apart(ss[i].name))
    && (forall i, j :: 0 <= j < i < |ss| && ss[i].isNew ==> ss[j].name != ss[i].name)
    && (forall i, j :: 0 <= i < |ss| && 0 <= j < |ss| && ss[i].name != ss[j].name ==>
        CodesOf(c, ss[i]) !! CodesOf(c, ss[j]))
  }

  lemma TidyPrefix(c: Settings, ss: seq<Send>, k: nat)
    requires Tidy(c, ss) && k <= |ss|
    ensures Tidy(c, ss[..k])
  {
    hide CodesOf, Settings.HashesOf, Settings.Apart;
  }

  /** A record lists only hashes its name carried. */
  ghost predicate OnlyCarried(c: Settings, ks: R.Keyspace, ss: seq<Send>) {
    forall n, h :: c.Apart(n) && h in Listed(c, ks, n) ==> exists i: nat :: CarriedBy(c, ss, i, n, h)
  }

  lemma TidyIsCareful(c: Settings, ks: R.Keyspace, ss: seq<Send>)
    requires ss != [] && Tidy(c, ss) && Inv(c, ks) && OnlyCarried(c, ks, ss[..|ss| - 1])
    ensures Careful(c, ks, ss[|ss| - 1])
  {
    hide Listed, CodesOf, Settings.HashesOf, Shape;
    var k := |ss| - 1;
    var s, before := ss[k], ss[..k];
    forall h, n | h in Mapped(c, ks, n) ensures s.isNew ==> n != s.name {
      var i: nat :| CarriedBy(c, before, i, n, h);
      assert ss[i].name == n;
    }
    forall p | p in Rel(c, ks) && p.1 != s.name ensures p.0 !in Removed(c, ks, s, ALL_UP) && p.0 !in CodesOf(c, s) {
      var (h, n) := p;
      assert h in Listed(c, ks, n);
      var i: nat :| CarriedBy(c, before, i, n, h);
      assert ss[i].name == n && h in CodesOf(c, ss[i]);
      forall j: nat ensures !CarriedBy(c, before, j, s.name, h) {
        if j < k && ss[j].name == s.name { assert CodesOf(c, ss[i]) !! CodesOf(c, ss[j]); }
      }
    }
  }

  lemma CarriedOneMore(c: Settings, ks: R.Keyspace, ss: seq<Send>)
    requires ss != [] && Tidy(c, ss) && Inv(c, ks) && OnlyCarried(c, ks, ss[..|ss| - 1])
    ensures OnlyCarried(c, Sent(c, ks, ss[|ss| - 1], ALL_UP), ss)
  {
    hide Sent, Listed, NextListed, Settings.HashesOf, Shape, Names;
    var k := |ss| - 1;
    var s := ss[k];
    SendEffect(c, ks, s, ALL_UP);
    NextListedBounds(c, ks, s.name, c.HashesOf(s.data).value);
    forall n, h | c.Apart(n) && h in Listed(c, Sent(c, ks, s, ALL_UP), n)
      ensures exists i: nat :: CarriedBy(c, ss, i, n, h)
    {
      if n == s.name && h in CodesOf(c, s) {
        assert CarriedBy(c, ss, k, n, h);
      } else {
        var i: nat :| CarriedBy(c, ss[..k], i, n, h);
        assert CarriedBy(c, ss, i, n, h);
      }
    }
  }

  /** From empty stores, any tidy run: the Redis map and the SQL table hold the same pairs, and every
      mapped hash can be found through its name's record. */
  lemma {:induction false} SinksAgree(c: Settings, ss: seq<Send>)
    requires Tidy(c, ss)
    ensures Rel(c, RedisRun(c, ss)) == SqlRun(c, ss)
    ensures Inv(c, RedisRun(c, ss)) && OnlyCarried(c, RedisRun(c, ss), ss)
    decreases |ss|
  {
    if ss != [] {
      hide Listed, Sent, SqlSent, Settings.HashesOf, Shape, Tidy, OnlyCarried, Careful, Rel;
      var k := |ss| - 1;
      var ks := RedisRun(c, ss[..k]);
      TidyPrefix(c, ss, k);
      SinksAgree(c, ss[..k]);
      TidyIsCareful(c, ks, ss);
      TidyLast(c, ss);
      SendAgreesExactly(c, ks, SqlRun(c, ss[..k]), ss[k]);
      CarriedOneMore(c, ks, ss);
      CarefulKeeps(c, ks, ss[k]);
    }
  }

  lemma TidyLast(c: Settings, ss: seq<Send>)
    requires Tidy(c, ss) && ss != []
    ensures c.HashesOf(ss[|ss| - 1].data).Some? && c.Apart(ss[|ss| - 1].name)
  {
  }

  lemma CarefulKeeps(c: Settings, ks: R.Keyspace, s: Send)
    requires Inv(c, ks) && c.Apart(s.name) && Careful(c, ks, s)
    ensures Inv(c, Sent(c, ks, s, ALL_UP))
  {
    hide Listed, Sent, NextListed, Settings.HashesOf, Shape;
    var hs := c.HashesOf(s.data);
    if hs.Some? { NextListsCodes(c, ks, s.name, hs.value); }
    KeepsListedExactly(c, ks, s, ALL_UP);
  }

  ghost predicate AgreeThroughout(c: Settings, ss: seq<Send>) {
    forall k :: 0 <= k <= |ss| ==> Rel(c, RedisRun(c, ss[..k])) == SqlRun(c, ss[..k])
  }

  ghost predicate CarefulThroughout(c: Settings, ss: seq<Send>) {
    forall i :: 0 <= i < |ss| ==> Careful(c, RedisRun(c, ss[..i]), ss[i])
  }

  lemma OneMoreSend(c: Settings, ss: seq<Send>, k: nat)
    requires k < |ss| && c.Apart(ss[k].name) && Inv(c, RedisRun(c, ss[..k]))
             && Rel(c, RedisRun(c, ss[..k])) == SqlRun(c, ss[..k])
    ensures Rel(c, RedisRun(c, ss[..k + 1])) == SqlRun(c, ss[..k + 1]) <==> Careful(c, RedisRun(c, ss[..k]), ss[k])
    ensures Careful(c, RedisRun(c, ss[..k]), ss[k]) ==> Inv(c, RedisRun(c, ss[..k + 1]))
  {
    hide Sent, SqlSent, Rel, Inv, Careful, Settings.Apart;
    assert ss[..k + 1][..k] == ss[..k] && ss[..k + 1][k] == ss[k];
    SendAgreesExactly(c, RedisRun(c, ss[..k]), SqlRun(c, ss[..k]), ss[k]);
    if Careful(c, RedisRun(c, ss[..k]), ss[k]) { CarefulKeeps(c, RedisRun(c, ss[..k]), ss[k]); }
  }

  lemma NothingSent(c: Settings)
    ensures Inv(c, RedisRun(c, [])) && Rel(c, RedisRun(c, [])) == SqlRun(c, [])
  {
  }

  /** From empty stores: the Redis map and the SQL table hold the same pairs after every send of a run exactly
      when every send is careful on the map it meets. */
  lemma AgreeExactly(c: Settings, ss: seq<Send>)
    requires forall i :: 0 <= i < |ss| ==> c.Apart(ss[i].name)
    ensures AgreeThroughout(c, ss) <==> CarefulThroughout(c, ss)
  {
    hide Inv, Rel, Careful, RedisRun, SqlRun, Settings.Apart;
    assert ss[..0] == [];
    NothingSent(c);
    if CarefulThroughout(c, ss) {
      for k := 0 to |ss|
        invariant forall j :: 0 <= j <= k ==> Rel(c, RedisRun(c, ss[..j])) == SqlRun(c, ss[..j])
        invariant Inv(c, RedisRun(c, ss[..k]))
      {
        OneMoreSend(c, ss, k);
      }
    }
    if AgreeThroughout(c, ss) {
      for k := 0 to |ss|
        invariant forall j :: 0 <= j < k ==> Careful(c, RedisRun(c, ss[..j]), ss[j])
        invariant Inv(c, RedisRun(c, ss[..k]))
      {
        assert Rel(c, RedisRun(c, ss[..k])) == SqlRun(c, ss[..k])
               && Rel(c, RedisRun(c, ss[..k + 1])) == SqlRun(c, ss[..k + 1]);
        OneMoreSend(c, ss, k);
      }
    }
  }

  /** Send `i` is the last one of its name. */
  ghost predicate Latest(ss: seq<Send>, i: nat) {
    i < |ss| && forall j :: i < j < |ss| ==> ss[j].name != ss[i].name
  }

  /** The table holds exactly the hashes of the last Send of every name. */
  lemma {:induction false} TableIsLatest(c: Settings, ss: seq<Send>, n: string, h: Bytes)
    requires forall i :: 0 <= i < |ss| ==> c.HashesOf(ss[i].data).Some?
    ensures (h, n) in SqlRun(c, ss) <==> exists i: nat :: Latest(ss, i) && CarriedBy(c, ss, i, n, h)
    decreases |ss|
  {
    if ss != [] {
      hide CodesOf, SqlSent, Settings.HashesOf;
      var k := |ss| - 1;
      TableIsLatest(c, ss[..k], n, h);
      SqlPairs(c, SqlRun(c, ss[..k]), ss[k], h, n);
      if i: nat :| Latest(ss, i) && CarriedBy(c, ss, i, n, h) {
        if i < k { assert Latest(ss[..k], i) && CarriedBy(c, ss[..k], i, n, h) && ss[k].name != n; }
      }
      if ss[k].name == n {
        assert Latest(ss, k);
        assert h in CodesOf(c, ss[k]) ==> CarriedBy(c, ss, k, n, h);
      } else if i: nat :| Latest(ss[..k], i) && CarriedBy(c, ss[..k], i, n, h) {
        assert Latest(ss, i) && CarriedBy(c, ss, i, n, h);
      }
    }
  }

  /** The LMDB index holds every hash that was ever sent, under prefix and hash, with the name it belongs to. */
  lemma {:induction false} IndexHasAll(c: Settings, prefix: Bytes, ss: seq<Send>, i: nat, h: Bytes)
    requires Tidy(c, ss) && i < |ss| && h in CodesOf(c, ss[i])
    ensures prefix + h in LmdbRun(c, prefix, ss) && LmdbRun(c, prefix, ss)[prefix + h] == ss[i].name
    decreases |ss|
  {
    hide Settings.HashesOf, CodesOf, LmdbSent;
    var k := |ss| - 1;
    LmdbKeys(c, prefix, LmdbRun(c, prefix, ss[..k]), ss[k], h);
    if i < k {
      TidyPrefix(c, ss, k);
      IndexHasAll(c, prefix, ss[..k], i, h);
      assert ss[k].name != ss[i].name ==> h !in CodesOf(c, ss[k]);
    }
  }

  /** And nothing else: its keys are prefix and hash, whole, for hashes that were sent. */
  lemma {:induction false} IndexHasOnly(c: Settings, prefix: Bytes, ss: seq<Send>, key: Bytes)
    returns (i: nat, h: Bytes)
    requires key in LmdbRun(c, prefix, ss)
    ensures i < |ss| && h in CodesOf(c, ss[i]) && key == prefix + h
    decreases |ss|
  {
    var k := |ss| - 1;
    if key in LmdbRun(c, prefix, ss[..k]) {
      i, h := IndexHasOnly(c, prefix, ss[..k], key);
    } else {
      i := k;
      h :| h in CodesOf(c, ss[k]) && key == prefix + h;
    }
  }

  /** So the index contains the relation of the other two. */
  lemma IndexContains(c: Settings, prefix: Bytes, ss: seq<Send>, h: Bytes, n: string)
    requires Tidy(c, ss) && (h, n) in Rel(c, RedisRun(c, ss))
    ensures prefix + h in LmdbRun(c, prefix, ss) && LmdbRun(c, prefix, ss)[prefix + h] == n
  {
    SinksAgree(c, ss);
    TableIsLatest(c, ss, n, h);
    var i: nat :| Latest(ss, i) && CarriedBy(c, ss, i, n, h);
    IndexHasAll(c, prefix, ss, i, h);
  }

  lemma LmdbKeys(c: Settings, prefix: Bytes, kv: Lmdb.Index, s: Send, h: Bytes)
    ensures var t := LmdbSent(c, prefix, kv, s);
            && (prefix + h in t <==> prefix + h in kv || h in CodesOf(c, s))
            && (h in CodesOf(c, s) ==> t[prefix + h] == s.name)
            && (h !in CodesOf(c, s) && prefix + h in kv ==> t[prefix + h] == kv[prefix + h])
  {
    assert (prefix + h)[|prefix|..] == h;
    forall g | prefix + g == prefix + h ensures g == h { assert (prefix + g)[|prefix|..] == g; }
  }
}
