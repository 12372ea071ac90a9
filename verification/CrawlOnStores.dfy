/**
 The crawler over either database: the calls one check makes, in their order and decided by the answers it
 gets, take the keyspace or the tables exactly where the crawl model says.
 */
module CrawlOnStores {
  import opened Basics
  import opened Decimal
  import opened Observer
  import opened ObserverRuns
  import S = Store
  import R = RedisStore
  import RS = RedisServer
  import Q = SqlStore

  /** A database as the crawler sees it: a call, and the id it would give a new torrent, to a new state and an
      answer. */
  type Database<!D> = (D, S.Call, int) -> (D, S.Answer)

  ghost function Redis(): Database<RS.Keyspace> { (ks, c, newId) => R.Do(ks, c) }

  ghost function Sql(): Database<Q.Db> { (db, c, newId) => Q.Do(db, c, newId) }

  function AsMeta(a: S.Answer): map<string, string> { if a.Meta? then a.meta else map[] }

  function AsImage(a: S.Answer): S.Bytes { if a.Image? then a.image else "" }

  /** The files CheckTorrent reads back for a name. */
  ghost function FilesRead<D>(call: Database<D>, db: D, name: string): set<string> {
    var id := call(db, S.GetTorrent(name), 0).1;
    if id.Id? && INT64_MIN <= id.id <= INT64_MAX then
      var files := call(db, S.GetTorrentFiles(id.id), 0).1;
      if files.Files? then files.files else {}
    else {}
  }

  /** The second part of a check: metadata read, then written, as far as it gets through, then the image read and
      written. */
  ghost function NotifyOn<D>(call: Database<D>, db: D, site: Site, id: Int64, w: Weather): D {
    var meta := AsMeta(call(db, S.GetTorrentMeta(id), 0).1);
    var up := Wrote(site, w);
    var db2 := if up != map[] then call(db, S.AddTorrentMeta(id, up), 0).0 else db;
    var image := AsImage(call(db2, S.GetTorrentImage(id), 0).1);
    var p := Wanted(site, S.Entry("", image, {}, meta), w);
    if p.Some? && w.fetchPoster && w.writeImage then call(db2, S.AddTorrentImage(id, p.value), 0).0 else db2
  }

  /** One check of a sighting; `files` are its new files in some order. */
  ghost function CheckOn<D>(call: Database<D>, db: D, site: Site, v: Visit, files: seq<string>): D {
    var (db1, a) := call(db, S.AddTorrent(v.x.name, v.x.data, files), v.newId);
    if a.Id? && INT64_MIN <= a.id <= INT64_MAX then NotifyOn(call, db1, site, a.id, v.w) else db1
  }

  // ----- On the store itself

  /** Adding only the files that were not stored records the whole sighting. */
  lemma AddIsRecorded(s: S.Catalog, x: Sighting, files: seq<string>, newId: int)
    requires s.Valid() && S.FreshFor(s, newId) && S.ToSet(files) == NewFiles(s, x, NO_FAULTS)
    ensures var r := Recorded(s, x, newId);
            && r.Valid()
            && S.Step(s, S.AddTorrent(x.name, x.data, files), newId) == (r, S.Id(r.IdOf(x.name)))
            && r.IdOf(x.name) in r.names && r.names[r.IdOf(x.name)] == x.name
  {
    RecordedValid(s, x, newId);
    var r := Recorded(s, x, newId);
    if s.Known(x.name) {
      var e := s.EntryOf(s.IdOf(x.name));
      assert e.files + S.ToSet(files) == e.files + x.files;
      assert r.names[s.IdOf(x.name)] == x.name;
    } else {
      assert S.ToSet(files) == x.files;
      assert r.names[newId] == x.name;
    }
  }

  /** What a poster is wanted for depends on the stored image and metadata alone. */
  lemma WantedBy(site: Site, e: S.Entry, w: Weather)
    ensures Wanted(site, S.Entry("", e.image, {}, e.meta), w) == Wanted(site, e, w)
  {
  }

  lemma ImageIsPut(s: S.Catalog, id: Int64, image: S.Bytes)
    requires s.Valid() && id in s.names
    ensures s.names[id] in s.torrents
    ensures S.Step(s, S.AddTorrentImage(id, image), 0).0 == s.Put(id, WithImage(s.EntryOf(id), image))
  {
  }

  lemma MetaIsPut(s: S.Catalog, site: Site, id: Int64, w: Weather)
    requires s.Valid() && id in s.names
    ensures AfterMeta(s, site, id, w) == if Wrote(site, w) != map[]
                                         then S.Step(s, S.AddTorrentMeta(id, Wrote(site, w)), 0).0 else s
  {
    hide Wrote;
    MetaWritten(s, site, id, w);
  }

  // ----- On Redis

  lemma NotifyOnRedis(ks: RS.Keyspace, s: S.Catalog, site: Site, id: Int64, w: Weather)
    requires R.Represents(ks, s) && s.Valid() && id in s.names && Honest(site)
    ensures Noted(s, site, id, w).Valid() && R.Represents(NotifyOn(Redis(), ks, site, id, w), Noted(s, site, id, w))
  {
    hide R.Represents, R.Do, S.Catalog.Valid, Noted, AfterMeta, Wrote, Wanted, S.Step, WithImage, Honest;
    NotedInSteps(s, site, id, w);
    MetaIsPut(s, site, id, w);
    var t := AfterMeta(s, site, id, w);
    var up := Wrote(site, w);
    RedisReads(ks, s, id);
    var ks2 := if up != map[] then R.Do(ks, S.AddTorrentMeta(id, up)).0 else ks;
    if up != map[] { RedisMeta(ks, s, id, up); }
    assert R.Represents(ks2, t);
    RedisReads(ks2, t, id);
    WantedBy(site, s.EntryOf(id), w);
    var p := Wanted(site, s.EntryOf(id), w);
    if p.Some? {
      SomePoster(site, s.EntryOf(id), w);
      RedisImage(ks2, t, id, p.value);
      ImageIsPut(t, id, p.value);
    }
    NotedValid(s, site, id, w);
  }

  lemma SomePoster(site: Site, e: S.Entry, w: Weather)
    requires Honest(site) && Wanted(site, e, w).Some?
    ensures Wanted(site, e, w).value != ""
  {
  }

  lemma RedisReads(ks: RS.Keyspace, s: S.Catalog, id: Int64)
    requires R.Represents(ks, s) && s.Valid() && id in s.names
    ensures s.names[id] in s.torrents
    ensures R.Do(ks, S.GetTorrentMeta(id)).1 == S.Meta(s.EntryOf(id).meta)
    ensures R.Do(ks, S.GetTorrentImage(id)).1 == S.Image(s.EntryOf(id).image)
  {
    hide R.Represents, R.GetTorrentImage, R.GetTorrentMeta;
    R.ReadsRefine(ks, s, S.GetTorrentMeta(id));
    R.ImageReadRefines(ks, s, id);
  }

  lemma RedisMeta(ks: RS.Keyspace, s: S.Catalog, id: Int64, meta: map<string, string>)
    requires R.Represents(ks, s) && s.Valid() && id in s.names
    ensures R.Represents(R.Do(ks, S.AddTorrentMeta(id, meta)).0, S.Step(s, S.AddTorrentMeta(id, meta), 0).0)
  {
    hide R.Represents, R.AddTorrentMeta;
    R.MetaRefines(ks, s, id, meta);
  }

  lemma RedisImage(ks: RS.Keyspace, s: S.Catalog, id: Int64, image: S.Bytes)
    requires R.Represents(ks, s) && s.Valid() && id in s.names && image != ""
    ensures R.Represents(R.Do(ks, S.AddTorrentImage(id, image)).0, S.Step(s, S.AddTorrentImage(id, image), 0).0)
  {
    hide R.Represents, R.AddTorrentImage;
    R.ImageRefines(ks, s, id, image);
  }

  /** A check over a Redis database that lays out `s` leaves one that lays out the checked `s`. Its id for a
      new torrent is the next number. */
  lemma CheckOnRedis(ks: RS.Keyspace, s: S.Catalog, site: Site, v: Visit, files: seq<string>)
    requires R.Represents(ks, s) && s.Valid() && S.FreshFor(s, v.newId) && |s.names| < INT64_MAX
    requires s.Known(v.x.name) || v.newId == |s.names| + 1
    requires R.Safe(v.x.name) && Honest(site)
    requires S.ToSet(files) == v.x.files - FilesRead(Redis(), ks, v.x.name)
    ensures Visited(s, site, v).Valid() && R.Represents(CheckOn(Redis(), ks, site, v, files), Visited(s, site, v))
  {
    hide R.Represents, R.Do, S.Catalog.Valid, S.Step, Recorded, NotifyOn, R.Safe, Honest, StoredFiles, FilesRead;
    RedisFiles(ks, s, v.x.name);
    AddIsRecorded(s, v.x, files, v.newId);
    RedisAdd(ks, s, v.x, files, v.newId);
    var r := Recorded(s, v.x, v.newId);
    var id := r.IdOf(v.x.name);
    var k := R.Do(ks, S.AddTorrent(v.x.name, v.x.data, files)).0;
    R.EntryHeld(k, r, id);
    NotifyOnRedis(k, r, site, id, v.w);
  }

  lemma RedisFiles(ks: RS.Keyspace, s: S.Catalog, name: string)
    requires R.Represents(ks, s) && s.Valid() && R.Safe(name) && |s.names| < INT64_MAX
    ensures FilesRead(Redis(), ks, name) == StoredFiles(s, name)
  {
    hide R.Represents, R.GetTorrent, R.GetTorrentFiles, R.Safe;
    R.LookupRefines(ks, s, name);
    if s.Known(name) { R.EntryHeld(ks, s, s.IdOf(name)); }
    if INT64_MIN <= s.IdOf(name) <= INT64_MAX { R.ReadsRefine(ks, s, S.GetTorrentFiles(s.IdOf(name))); }
  }

  lemma RedisAdd(ks: RS.Keyspace, s: S.Catalog, x: Sighting, files: seq<string>, newId: int)
    requires R.Represents(ks, s) && s.Valid() && S.FreshFor(s, newId) && |s.names| < INT64_MAX
    requires s.Known(x.name) || newId == |s.names| + 1
    requires R.Safe(x.name)
    ensures var (k, a) := R.Do(ks, S.AddTorrent(x.name, x.data, files));
            var (t, b) := S.Step(s, S.AddTorrent(x.name, x.data, files), newId);
            a == b && R.Represents(k, t)
  {
    hide R.Represents, R.AddTorrent, R.Safe;
    R.CallRefines(ks, s, S.AddTorrent(x.name, x.data, files));
  }

  // ----- On SQL

  lemma NotifyOnSql(db: Q.Db, s: S.Catalog, site: Site, id: Int64, w: Weather)
    requires Q.Represents(db, s) && s.Valid() && id in s.names
    ensures Noted(s, site, id, w).Valid() && Q.Represents(NotifyOn(Sql(), db, site, id, w), Noted(s, site, id, w))
  {
    hide Q.Represents, Q.Do, S.Catalog.Valid, Noted, AfterMeta, Wrote, Wanted, S.Step, WithImage;
    NotedInSteps(s, site, id, w);
    MetaIsPut(s, site, id, w);
    var t := AfterMeta(s, site, id, w);
    var up := Wrote(site, w);
    SqlReads(db, s, id);
    var db2 := if up != map[] then Q.Do(db, S.AddTorrentMeta(id, up), 0).0 else db;
    if up != map[] { SqlMeta(db, s, id, up); }
    assert Q.Represents(db2, t);
    SqlReads(db2, t, id);
    WantedBy(site, s.EntryOf(id), w);
    var p := Wanted(site, s.EntryOf(id), w);
    if p.Some? {
      SqlImage(db2, t, id, p.value);
      ImageIsPut(t, id, p.value);
    }
    NotedValid(s, site, id, w);
  }

  lemma SqlReads(db: Q.Db, s: S.Catalog, id: Int64)
    requires Q.Represents(db, s) && s.Valid() && id in s.names
    ensures s.names[id] in s.torrents
    ensures Q.Do(db, S.GetTorrentMeta(id), 0).1 == S.Meta(s.EntryOf(id).meta)
    ensures Q.Do(db, S.GetTorrentImage(id), 0).1 == S.Image(s.EntryOf(id).image)
  {
    hide Q.OffsetIs, Q.FilesAre, Q.MetaIs, Q.FilesOf, Q.MetaOf;
    Q.ReadsRefine(db, s, id);
  }

  lemma SqlMeta(db: Q.Db, s: S.Catalog, id: Int64, meta: map<string, string>)
    requires Q.Represents(db, s) && s.Valid() && id in s.names
    ensures Q.Represents(Q.Do(db, S.AddTorrentMeta(id, meta), 0).0, S.Step(s, S.AddTorrentMeta(id, meta), 0).0)
  {
    hide Q.Represents, Q.WithMeta;
    Q.MetaRefines(db, s, id, meta);
  }

  lemma SqlImage(db: Q.Db, s: S.Catalog, id: Int64, image: S.Bytes)
    requires Q.Represents(db, s) && s.Valid() && id in s.names
    ensures Q.Represents(Q.Do(db, S.AddTorrentImage(id, image), 0).0, S.Step(s, S.AddTorrentImage(id, image), 0).0)
  {
    hide Q.Represents, Q.AddTorrentImage;
    Q.ImageRefines(db, s, id, image);
  }

  /** The same over an SQL database, with whatever new id it draws. */
  lemma CheckOnSql(db: Q.Db, s: S.Catalog, site: Site, v: Visit, files: seq<string>)
    requires Q.Represents(db, s) && s.Valid() && S.FreshFor(s, v.newId) && v.newId <= INT64_MAX
    requires forall i :: i in s.names ==> i <= INT64_MAX
    requires S.ToSet(files) == v.x.files - FilesRead(Sql(), db, v.x.name)
    ensures Visited(s, site, v).Valid() && Q.Represents(CheckOn(Sql(), db, site, v, files), Visited(s, site, v))
  {
    hide Q.Represents, Q.Do, S.Catalog.Valid, S.Step, NotifyOn, StoredFiles, FilesRead, Recorded;
    SqlFiles(db, s, v.x.name);
    AddIsRecorded(s, v.x, files, v.newId);
    SqlAdd(db, s, v.x, files, v.newId);
    var r := Recorded(s, v.x, v.newId);
    RecordedValid(s, v.x, v.newId);
    var id := r.IdOf(v.x.name);
    PositiveIds(r, id);
    NotifyOnSql(Q.Do(db, S.AddTorrent(v.x.name, v.x.data, files), v.newId).0, r, site, id, v.w);
  }

  lemma PositiveIds(s: S.Catalog, id: int)
    requires s.Valid() && id in s.names
    ensures id > 0
  {
  }

  lemma SqlFiles(db: Q.Db, s: S.Catalog, name: string)
    requires Q.Represents(db, s) && s.Valid() && forall i :: i in s.names ==> i <= INT64_MAX
    ensures FilesRead(Sql(), db, name) == StoredFiles(s, name)
  {
    hide Q.OffsetIs, Q.FilesAre, Q.MetaIs, Q.FilesOf, Q.MetaOf, Q.SelectId;
    Q.NamesAgree(db, s, name);
    Q.ReadsRefine(db, s, s.IdOf(name));
  }

  lemma SqlAdd(db: Q.Db, s: S.Catalog, x: Sighting, files: seq<string>, newId: int)
    requires Q.Represents(db, s) && s.Valid() && S.FreshFor(s, newId)
    ensures var (d, a) := Q.Do(db, S.AddTorrent(x.name, x.data, files), newId);
            var (t, b) := S.Step(s, S.AddTorrent(x.name, x.data, files), newId);
            a == b && Q.Represents(d, t)
  {
    hide Q.Represents, Q.AddTorrent;
    Q.CallRefines(db, s, S.AddTorrent(x.name, x.data, files), newId);
  }

  // ----- Whole runs

  ghost function RunOn<D>(call: Database<D>, db: D, site: Site, vs: seq<Visit>, fs: seq<seq<string>>): D
    requires |fs| == |vs|
    decreases |vs|
  {
    if vs == [] then db
    else
      var k := |vs| - 1;
      CheckOn(call, RunOn(call, db, site, vs[..k], fs[..k]), site, vs[k], fs[k])
  }

  /** Each check was given the files it saw minus those it read back. */
  ghost predicate Compared<D>(call: Database<D>, db: D, site: Site, vs: seq<Visit>, fs: seq<seq<string>>)
    requires |fs| == |vs|
    decreases |vs|
  {
    vs == [] ||
    var k := |vs| - 1;
    && Compared(call, db, site, vs[..k], fs[..k])
    && S.ToSet(fs[k]) == vs[k].x.files - FilesRead(call, RunOn(call, db, site, vs[..k], fs[..k]), vs[k].x.name)
  }

  /** Redis numbers new torrents 1, 2, 3, ..., and does not run out of numbers. */
  ghost predicate Numbered(s: S.Catalog, site: Site, vs: seq<Visit>)
    requires s.Valid() && NewIdsFor(s, vs)
    decreases |vs|
  {
    vs == [] ||
    var k := |vs| - 1;
    var t := After(s, site, vs[..k]);
    && Numbered(s, site, vs[..k])
    && |t.names| < INT64_MAX && (t.Known(vs[k].x.name) || vs[k].newId == |t.names| + 1)
  }

  lemma {:induction false} RunOnRedis(ks: RS.Keyspace, s: S.Catalog, site: Site, vs: seq<Visit>, fs: seq<seq<string>>)
    requires R.Represents(ks, s) && s.Valid() && NewIdsFor(s, vs) && Honest(site) && |fs| == |vs|
    requires Numbered(s, site, vs) && Compared(Redis(), ks, site, vs, fs)
    requires forall i :: 0 <= i < |vs| ==> R.Safe(vs[i].x.name)
    ensures R.Represents(RunOn(Redis(), ks, site, vs, fs), After(s, site, vs))
    decreases |vs|
  {
    hide R.Represents, S.Catalog.Valid, Visited, CheckOn, FilesRead, Honest, R.Safe;
    if vs != [] {
      var k := |vs| - 1;
      RunOnRedis(ks, s, site, vs[..k], fs[..k]);
      var t := After(s, site, vs[..k]);
      StaysFresh(s, site, vs, k);
      CheckOnRedis(RunOn(Redis(), ks, site, vs[..k], fs[..k]), t, site, vs[k], fs[k]);
    }
  }

  /** After any run of the crawler over a Redis database, reading a torrent's files returns those it had and
      all that were ever seen for it; and reading its id returns one exactly if it was stored or seen. */
  lemma RedisHoldsUnion(ks: RS.Keyspace, s: S.Catalog, site: Site, vs: seq<Visit>, fs: seq<seq<string>>, name: string)
    requires R.Represents(ks, s) && s.Valid() && NewIdsFor(s, vs) && Honest(site) && |fs| == |vs|
    requires Numbered(s, site, vs) && Compared(Redis(), ks, site, vs, fs)
    requires forall i :: 0 <= i < |vs| ==> R.Safe(vs[i].x.name)
    requires R.Safe(name) && |After(s, site, vs).names| < INT64_MAX
    ensures var end := RunOn(Redis(), ks, site, vs, fs);
            && (forall f ::
                  f in FilesRead(Redis(), end, name) <==> f in StoredFiles(s, name) || FileSeenIn(vs, name, f))
            && R.GetTorrent(end, name).Id?
            && (R.GetTorrent(end, name).id != INVALID_DB_ID <==> s.Known(name) || SeenIn(vs, name))
  {
    hide R.Represents, S.Catalog.Valid, FilesRead, StoredFiles, RunOn, After, R.Safe, R.GetTorrent, Honest, Numbered,
         Compared;
    RunOnRedis(ks, s, site, vs, fs);
    var end, t := RunOn(Redis(), ks, site, vs, fs), After(s, site, vs);
    StoredIsUnion(s, site, vs, name);
    RedisFiles(end, t, name);
    R.LookupRefines(end, t, name);
    if t.Known(name) { PositiveIds(t, t.IdOf(name)); }
  }

  lemma {:induction false} RunOnSql(db: Q.Db, s: S.Catalog, site: Site, vs: seq<Visit>, fs: seq<seq<string>>)
    requires Q.Represents(db, s) && s.Valid() && NewIdsFor(s, vs) && |fs| == |vs|
    requires Compared(Sql(), db, site, vs, fs)
    requires forall i :: i in s.names ==> i <= INT64_MAX
    requires forall i :: 0 <= i < |vs| ==> vs[i].newId <= INT64_MAX
    ensures Q.Represents(RunOn(Sql(), db, site, vs, fs), After(s, site, vs))
    decreases |vs|
  {
    hide Q.Represents, S.Catalog.Valid, Visited, CheckOn, FilesRead;
    if vs != [] {
      var k := |vs| - 1;
      RunOnSql(db, s, site, vs[..k], fs[..k]);
      var t := After(s, site, vs[..k]);
      StaysFresh(s, site, vs, k);
      forall i | i in t.names ensures i <= INT64_MAX {
        assert i in s.names || exists j :: 0 <= j < k && vs[..k][j].newId == i;
      }
      CheckOnSql(RunOn(Sql(), db, site, vs[..k], fs[..k]), t, site, vs[k], fs[k]);
    }
  }

  /** And over an SQL database. */
  lemma SqlHoldsUnion(db: Q.Db, s: S.Catalog, site: Site, vs: seq<Visit>, fs: seq<seq<string>>, name: string)
    requires Q.Represents(db, s) && s.Valid() && NewIdsFor(s, vs) && |fs| == |vs|
    requires Compared(Sql(), db, site, vs, fs)
    requires forall i :: i in s.names ==> i <= INT64_MAX
    requires forall i :: 0 <= i < |vs| ==> vs[i].newId <= INT64_MAX
    ensures var end := RunOn(Sql(), db, site, vs, fs);
            && (forall f ::
                  f in Q.FilesOf(end, Q.SelectId(end, name)) <==> f in StoredFiles(s, name) || FileSeenIn(vs, name, f))
            && (Q.SelectId(end, name) != INVALID_DB_ID <==> s.Known(name) || SeenIn(vs, name))
  {
    hide Q.Represents, S.Catalog.Valid, FilesRead, StoredFiles, RunOn, After, Compared, Q.FilesOf, Q.SelectId;
    RunOnSql(db, s, site, vs, fs);
    StoredIsUnion(s, site, vs, name);
    SqlNameReads(RunOn(Sql(), db, site, vs, fs), After(s, site, vs), name);
  }

  lemma SqlNameReads(db: Q.Db, s: S.Catalog, name: string)
    requires Q.Represents(db, s) && s.Valid()
    ensures Q.FilesOf(db, Q.SelectId(db, name)) == StoredFiles(s, name)
    ensures Q.SelectId(db, name) != INVALID_DB_ID <==> s.Known(name)
  {
    hide Q.OffsetIs, Q.FilesAre, Q.MetaIs, Q.FilesOf;
    Q.NamesAgree(db, s, name);
    Q.ReadsRefine(db, s, s.IdOf(name));
  }
}
