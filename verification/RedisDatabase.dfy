/** The database type of shared/redis/db.go: methods that issue one command after another. */
module RedisDatabase {
  import opened Basics
  import opened Decimal
  import R = RedisServer
  import Spec = RedisStore
  import S = Store

  /** The members of a set in some order: replies and Go maps fix none. */
  method Enumerate(s: set<string>) returns (q: seq<string>)
    ensures S.ToSet(q) == s
    ensures forall i, j :: 0 <= i < j < |q| ==> q[i] != q[j]
  {
    q := [];
    var rest := s;
    while rest != {}
      invariant rest <= s && S.ToSet(q) == s - rest
      invariant forall i, j :: 0 <= i < j < |q| ==> q[i] != q[j]
      decreases rest
    {
      var x :| x in rest;
      assert x !in S.ToSet(q);
      assert S.ToSet(q + [x]) == S.ToSet(q) + {x};
      q, rest := q + [x], rest - {x};
    }
  }

  class Database {
    var ks: R.Keyspace

    constructor (ks: R.Keyspace)
      ensures this.ks == ks
    {
      this.ks := ks;
    }

    /** HSET; the error tells a key of another type. */
    method HSet(key: string, fields: map<string, R.Bytes>) returns (failed: bool)
      modifies this
      ensures ks == R.HSet(old(ks), key, fields).0
      ensures failed <==> !R.HashKey(old(ks), key)
    {
      failed := !R.HashKey(ks, key);
      ks := R.HSet(ks, key, fields).0;
    }

    /** SADD of the slice copied into ifs. */
    method SAddAll(key: string, files: seq<string>) returns (failed: bool)
      modifies this
      ensures ks == R.SAdd(old(ks), key, S.ToSet(files)).0
      ensures failed <==> !R.SetKey(old(ks), key)
    {
      var ifs := new string[|files|](_ => "");
      for i := 0 to |files|
        invariant forall j :: 0 <= j < i ==> ifs[j] == files[j]
        invariant ks == old(ks)
      {
        ifs[i] := files[i];
      }
      assert ifs[..] == files;
      failed := !R.SetKey(ks, key);
      ks := R.SAdd(ks, key, S.ToSet(ifs[..])).0;
    }

    /** The commands run one by one, so a failure keeps what came before it; the id is then invalid. */
    method AddTorrent(name: string, data: R.Bytes, files: seq<string>) returns (id: int, failed: bool)
      modifies this
      ensures ks == Spec.AddTorrent(old(ks), name, data, files).0
      ensures Spec.AddTorrent(old(ks), name, data, files).1 == if failed then S.Failed else S.Id(id)
      ensures failed ==> id == INVALID_DB_ID
    {
      hide FormatInt, ParseInt, Spec.TorrentKey, Spec.FilesKey;
      id := 0;
      var key := Spec.TorrentKey(name);
      failed := HSet(key, map["name" := name, "data" := data]);
      if !failed {
        var r := R.HGet(ks, key, "idx");
        failed := r.Err?;
        if !failed {
          var sid := Spec.Text(r);
          if sid == "" {
            var (k, n) := R.Incr(ks, Spec.COUNTER);
            ks, failed := k, !n.Ok?;
            if !failed {
              id := n.value;
              sid := FormatInt(id);
              failed := HSet(key, map["idx" := sid]);
              if !failed {
                failed := HSet(Spec.IDS, map[sid := key]);
              }
            }
          } else {
            id, failed := ParseInt(sid).value, !ParseInt(sid).ok;
          }
          if !failed && |files| > 0 {
            failed := SAddAll(Spec.FilesKey(sid), files);
          }
        }
      }
      if failed { id := INVALID_DB_ID; }
    }

    method AddTorrentImage(id: Int64, image: R.Bytes) returns (outcome: S.Answer)
      modifies this
      ensures (ks, outcome) == Spec.AddTorrentImage(old(ks), id, image)
    {
      outcome := S.Done;
      if |image| > 0 {
        var r := R.HGet(ks, Spec.IDS, FormatInt(id));
        if r.Err? {
          outcome := S.Failed;
        } else if |Spec.Text(r)| > 0 {
          var failed := HSet(Spec.Text(r), map["img" := image]);
          if failed { outcome := S.Failed; }
        } else {
          outcome := S.NotFound;
        }
      }
    }

    method AddTorrentMeta(id: Int64, meta: map<string, string>) returns (failed: bool)
      modifies this
      ensures ks == Spec.AddTorrentMeta(old(ks), id, meta).0
      ensures Spec.AddTorrentMeta(old(ks), id, meta).1 == if failed then S.Failed else S.Done
    {
      failed := false;
      if |meta| > 0 {
        failed := HSet(Spec.MetaKey(FormatInt(id)), meta);
      }
    }

    method GetTorrent(name: string) returns (id: int, failed: bool)
      ensures Spec.GetTorrent(ks, name) == if failed then S.Failed else S.Id(id)
    {
      id := INVALID_DB_ID;
      match R.HGet(ks, Spec.TorrentKey(name), "idx")
      case Ok(sid) => id, failed := ParseInt(sid).value, !ParseInt(sid).ok;
      case Nil => failed := false;
      case Err => failed := true;
    }

    /** getIntList over the reply in whatever order it comes. */
    method GetIntList(key: string) returns (out: seq<int>, failed: bool)
      ensures Spec.GetIntList(ks, key) == if failed then S.Failed else S.Members(set x | x in out)
    {
      out := [];
      match R.SMembers(ks, key)
      case Ok(members) =>
        failed := false;
        var ints := Enumerate(members);
        for i := 0 to |ints|
          invariant out == seq(i, j requires 0 <= j < i => ParseInt(ints[j]).value)
        {
          out := out + [ParseInt(ints[i]).value];
        }
        assert forall a :: a in members <==> a in S.ToSet(ints);
        forall x ensures x in out <==> x in set a | a in members :: ParseInt(a).value {
          if a :| a in members && ParseInt(a).value == x {
            var j :| 0 <= j < |ints| && ints[j] == a;
            assert out[j] == x;
          }
        }
      case _ => failed := true;
    }

    /** MGetTorrents reads the index and then each record, in whatever order the index comes. */
    method MGetTorrents() returns (tt: seq<S.DBTorrent>, failed: bool)
      ensures Spec.MGetTorrents(ks) == if failed then S.Failed else S.All(set t | t in tt)
    {
      hide FormatInt, ParseInt;
      tt, failed := [], !R.HashKey(ks, Spec.IDS);
      if !failed {
        var tMap := R.Fields(ks, Spec.IDS);
        var sids := Enumerate(tMap.Keys);
        var i := 0;
        while i < |sids| && !failed
          invariant 0 <= i <= |sids| && forall sid :: sid in sids ==> sid in tMap
          invariant failed ==> exists sid :: sid in tMap && !R.HashKey(ks, tMap[sid])
          invariant !failed ==> |tt| == i
          invariant !failed ==> forall j :: 0 <= j < i ==>
                      R.HashKey(ks, tMap[sids[j]]) && tt[j] == Spec.ReadRecord(ks, sids[j], tMap[sids[j]])
        {
          var key := tMap[sids[i]];
          if R.HGet(ks, key, "name").Err? {
            failed := true;
          } else {
            tt := tt + [Spec.ReadRecord(ks, sids[i], key)];
          }
          i := i + 1;
        }
        Collected(sids, tMap, tt, failed);
      }
    }

    lemma Collected(sids: seq<string>, tMap: map<string, R.Bytes>, tt: seq<S.DBTorrent>, failed: bool)
      requires S.ToSet(sids) == tMap.Keys && R.HashKey(ks, Spec.IDS) && tMap == R.Fields(ks, Spec.IDS)
      requires failed ==> exists sid :: sid in tMap && !R.HashKey(ks, tMap[sid])
      requires !failed ==> |tt| == |sids|
      requires !failed ==> forall j :: 0 <= j < |sids| ==>
                 sids[j] in tMap && R.HashKey(ks, tMap[sids[j]]) && tt[j] == Spec.ReadRecord(ks, sids[j], tMap[sids[j]])
      ensures Spec.MGetTorrents(ks) == if failed then S.Failed else S.All(set t | t in tt)
    {
      hide FormatInt, ParseInt, Spec.ReadRecord;
      if !failed {
        forall sid | sid in tMap ensures R.HashKey(ks, tMap[sid]) && Spec.ReadRecord(ks, sid, tMap[sid]) in tt {
          assert sid in S.ToSet(sids);
          var j :| 0 <= j < |sids| && sids[j] == sid;
          assert tt[j] in tt;
        }
        forall t | t in tt ensures t in set sid | sid in tMap :: Spec.ReadRecord(ks, sid, tMap[sid]) {
          var j :| 0 <= j < |tt| && tt[j] == t;
          assert sids[j] in tMap;
        }
        assert (set t | t in tt) == set sid | sid in tMap :: Spec.ReadRecord(ks, sid, tMap[sid]);
      }
    }

    method MPutTorrent(t: S.DBTorrent, files: seq<string>) returns (failed: bool)
      modifies this
      ensures ks == Spec.MPutTorrent(old(ks), t, files).0
      ensures Spec.MPutTorrent(old(ks), t, files).1 == if failed then S.Failed else S.Done
    {
      hide FormatInt, Spec.TorrentKey, Spec.FilesKey;
      var key := Spec.TorrentKey(t.name);
      failed := HSet(key, map["name" := t.name, "data" := t.data, "img" := t.image]);
      if !failed {
        var sid := FormatInt(t.id);
        if |files| > 0 {
          failed := SAddAll(Spec.FilesKey(sid), files);
        }
        if !failed {
          failed := HSet(Spec.IDS, map[sid := key]);
          if !failed {
            ks := R.Set(ks, Spec.COUNTER, sid);
          }
        }
      }
    }

    method UpdateCrawlOffset(offset: nat)
      modifies this
      ensures (ks, S.Done) == Spec.UpdateCrawlOffset(old(ks), offset)
    {
      ks := R.Set(ks, Spec.OFFSET, FormatNat(offset));
    }
  }
}
