/** The database type of shared/sqldb/db.go: methods that execute one statement after another. */
module SqlDatabase {
  import opened Basics
  import Q = SqlStore
  import S = Store

  class Database {
    var db: Q.Db

    /** The UNIQUE constraint on TT_TORRENT.NAME. */
    ghost predicate Valid() reads this {
      forall i, j :: i in db.torrents && j in db.torrents && db.torrents[i].name == db.torrents[j].name ==> i == j
    }

    constructor (db: Q.Db)
      ensures this.db == db
    {
      this.db := db;
    }

    method GetTorrent(name: string) returns (id: int)
      requires Valid()
      ensures id == Q.SelectId(db, name)
    {
      id := INVALID_DB_ID;
      if Q.HasName(db, name) {
        id :| id in db.torrents && db.torrents[id].name == name;
      }
    }

    /** INSERT ... ON CONFLICT(NAME) DO UPDATE SET DATA = EXCLUDED.DATA. */
    method UpsertTorrent(name: string, data: S.Bytes, newId: int)
      requires Valid() && newId !in db.torrents
      modifies this
      ensures Valid() && db == Q.UpsertTorrent(old(db), name, data, newId)
      ensures Q.HasName(db, name)
    {
      if Q.HasName(db, name) {
        var id := GetTorrent(name);
        db := db.(torrents := db.torrents[id := db.torrents[id].(data := data)]);
        assert db.torrents[id].name == name;
      } else {
        db := db.(torrents := db.torrents[newId := Q.Row(name, data, "")]);
        assert db.torrents[newId].name == name;
      }
    }

    /** `works[i]` tells whether the insert of files[i] succeeds. Each insert overwrites the error of the one
        before, so only the last one is reported, and the files that failed are lost without a word. If the id
        cannot be read back, the row stays and no file is stored. */
    method AddTorrent(name: string, data: S.Bytes, files: seq<string>, newId: int, upsertWorks: bool, lookupWorks: bool,
                      works: seq<bool>)
      returns (id: int, failed: bool)
      requires Valid() && newId !in db.torrents && |works| == |files|
      modifies this
      ensures Valid()
      ensures !upsertWorks ==> db == old(db) && failed && id == 0
      ensures upsertWorks && !lookupWorks ==>
                db == Q.UpsertTorrent(old(db), name, data, newId) && failed && id == INVALID_DB_ID
      ensures upsertWorks && lookupWorks ==>
                var d := Q.UpsertTorrent(old(db), name, data, newId);
                && id == Q.SelectId(d, name)
                && db == Q.WithFiles(d, id, set i | 0 <= i < |files| && works[i] :: files[i])
                && (failed <==> files != [] && !works[|files| - 1])
    {
      id, failed := 0, !upsertWorks;
      if !failed {
        UpsertTorrent(name, data, newId);
        ghost var d := db;
        if !lookupWorks {
          id, failed := INVALID_DB_ID, true;
          return;
        }
        id := GetTorrent(name);
        for k := 0 to |files|
          invariant d.torrents == db.torrents
          invariant db == Q.WithFiles(d, id, set i | 0 <= i < k && works[i] :: files[i])
          invariant failed <==> k > 0 && !works[k - 1]
        {
          if works[k] { db := Q.InsertFile(db, id, files[k]); }
          failed := !works[k];
          assert (set i | 0 <= i < k + 1 && works[i] :: files[i])
              == (set i | 0 <= i < k && works[i] :: files[i]) + if works[k] then {files[k]} else {};
          Extend(d, id, set i | 0 <= i < k && works[i] :: files[i], files[k]);
        }
      }
    }

    lemma Extend(d: Q.Db, id: int, files: set<string>, file: string)
      ensures Q.InsertFile(Q.WithFiles(d, id, files), id, file) == Q.WithFiles(d, id, files + {file})
      ensures Q.WithFiles(d, id, files + {}) == Q.WithFiles(d, id, files)
    {
      assert files + {} == files;
      assert (set f | f in files + {file} :: (id, f)) == (set f | f in files :: (id, f)) + {(id, file)};
    }

    /** AddTorrentMeta stops at the first upsert that fails; `works` tells for which names they succeed. What
        was written before stays. */
    method AddTorrentMeta(id: int, meta: map<string, string>, works: set<string>)
      returns (failed: bool, ghost done: set<string>)
      modifies this
      ensures failed <==> !(meta.Keys <= works)
      ensures done <= meta.Keys * works && (!failed ==> done == meta.Keys)
      ensures db == WithPart(old(db), id, meta, done) && db.torrents == old(db).torrents
    {
      hide WithPart, Q.UpsertMeta;
      failed, done := false, {};
      var rest := meta.Keys;
      Nothing(db, id, meta);
      while rest != {} && !failed
        invariant rest + done == meta.Keys && rest * done == {} && done <= works
        invariant failed ==> rest - works != {}
        invariant db == WithPart(old(db), id, meta, done)
        invariant db.torrents == old(db).torrents
        decreases rest, !failed
      {
        var n :| n in rest;
        if n in works {
          OneMore(old(db), id, meta, done, n);
          SameTorrents(db, id, n, meta[n]);
          db := Q.UpsertMeta(db, id, n, meta[n]);
          rest, done := rest - {n}, done + {n};
        } else {
          failed := true;
        }
      }
    }

    /** The row and then the files, one by one up to the first that fails; what was written before stays.
        `rowWorks` and `works` tell of failures beyond a taken id or name. */
    method MPutTorrent(t: S.DBTorrent, files: seq<string>, rowWorks: bool, works: seq<bool>) returns (failed: bool)
      requires Valid() && |works| == |files|
      modifies this
      ensures Valid()
      ensures failed <==> !rowWorks || Q.MPutTorrent(old(db), t, files).1 == S.Failed || false in works
      ensures !failed ==> db == Q.MPutTorrent(old(db), t, files).0
      ensures failed ==>
                db == old(db)
                  || (exists k :: 0 <= k < |files| && !works[k] && db == Q.MPutTorrent(old(db), t, files[..k]).0)
    {
      failed := !rowWorks || t.id in db.torrents || Q.HasName(db, t.name);
      if !failed {
        db := db.(torrents := db.torrents[t.id := Q.Row(t.name, t.data, t.image)]);
        ghost var d := db;
        var k := 0;
        while k < |files| && !failed
          invariant 0 <= k <= |files| && d.torrents == db.torrents && db == Q.WithFiles(d, t.id, S.ToSet(files[..k]))
          invariant failed ==> k < |files| && !works[k]
          invariant forall j :: 0 <= j < k ==> works[j]
          decreases |files| - k, !failed
        {
          if works[k] {
            db := Q.InsertFile(db, t.id, files[k]);
            Extend(d, t.id, S.ToSet(files[..k]), files[k]);
            assert files[..k + 1] == files[..k] + [files[k]];
            assert S.ToSet(files[..k + 1]) == S.ToSet(files[..k]) + {files[k]};
            k := k + 1;
          } else {
            failed := true;
          }
        }
        assert files[..|files|] == files;
      }
    }

    /** AddChat and AddAdmin: insert what is not there yet. */
    method AddMember(r: S.Roster, x: int)
      modifies this
      ensures db == Q.WithRoster(old(db), r, Q.MembersOf(old(db), r) + {x})
    {
      if x !in Q.MembersOf(db, r) {
        db := Q.WithRoster(db, r, Q.MembersOf(db, r) + {x});
      } else {
        assert Q.MembersOf(db, r) + {x} == Q.MembersOf(db, r);
      }
    }
  }

  /** The metadata rows of the names in `done` upserted. */
  ghost function WithPart(d: Q.Db, id: int, meta: map<string, string>, done: set<string>): Q.Db
    requires done <= meta.Keys
  {
    d.(meta := d.meta + Part(id, meta, done))
  }

  ghost function Part(id: int, meta: map<string, string>, done: set<string>): map<(int, string), string>
    requires done <= meta.Keys
  {
    map n | n in done :: (id, n) := meta[n]
  }

  lemma Nothing(d: Q.Db, id: int, meta: map<string, string>)
    ensures WithPart(d, id, meta, {}) == d
  {
    assert d.meta + Part(id, meta, {}) == d.meta;
  }

  lemma OneMore(d: Q.Db, id: int, meta: map<string, string>, done: set<string>, n: string)
    requires done <= meta.Keys && n in meta
    ensures Q.UpsertMeta(WithPart(d, id, meta, done), id, n, meta[n]) == WithPart(d, id, meta, done + {n})
  {
    assert Part(id, meta, done + {n}) == Part(id, meta, done)[(id, n) := meta[n]];
    assert (d.meta + Part(id, meta, done))[(id, n) := meta[n]] == d.meta + Part(id, meta, done)[(id, n) := meta[n]];
  }

  lemma SameTorrents(d: Q.Db, id: int, n: string, value: string)
    ensures Q.UpsertMeta(d, id, n, value).torrents == d.torrents
  {
  }

  /** The rows that got through are AddTorrentMeta of just these names. */
  lemma SomeDone(d: Q.Db, id: int, meta: map<string, string>, done: set<string>)
    requires done <= meta.Keys
    ensures WithPart(d, id, meta, done) == Q.WithMeta(d, id, map n | n in meta && n in done :: meta[n])
  {
    var some := map n | n in meta && n in done :: meta[n];
    assert Part(id, meta, done) == map n | n in some :: (id, n) := some[n];
  }

  /** All names done is AddTorrentMeta of the store's refinement. */
  lemma AllDone(d: Q.Db, id: int, meta: map<string, string>)
    ensures WithPart(d, id, meta, meta.Keys) == Q.WithMeta(d, id, meta)
  {
    assert Part(id, meta, meta.Keys) == map n | n in meta :: (id, n) := meta[n];
  }
}
