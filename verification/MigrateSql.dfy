/** Migration into the SQL database: the new tables lay out the very store that the old database laid out. */
module MigrateSql {
  import opened Decimal
  import opened Migration
  import S = Store
  import Q = SqlStore
  import D = SqlDatabase
  import R = RedisStore
  import RedisServer

  /** One winner: the row and files, then the metadata; false if the row's id or name is taken. */
  function CopyOne(db: Q.Db, src: Source, t: S.DBTorrent): (Q.Db, bool) {
    var (d, a) := Q.MPutTorrent(db, t, src.FilesOf(t.id));
    if a == S.Done then (Q.WithMeta(d, t.id, src.MetaOf(t.id)), true) else (d, false)
  }

  function CopyAll(db: Q.Db, src: Source, order: Listing): (Q.Db, bool) {
    if order == [] then (db, true)
    else
      var (d, ok) := CopyAll(db, src, order[..|order| - 1]);
      if ok then CopyOne(d, src, order[|order| - 1]) else (d, false)
  }

  /** Which statements get through while one torrent is copied. */
  datatype Luck = Luck(row: bool, files: seq<bool>, meta: set<string>) {
    predicate Fits(src: Source, t: S.DBTorrent) { |files| == |src.FilesOf(t.id)| }

    predicate Holds(src: Source, t: S.DBTorrent) { row && false !in files && src.MetaOf(t.id).Keys <= meta }
  }

  /** What a copy that failed may leave of a torrent: nothing, its row with some first files, or its row with all
      files and some metadata. */
  ghost predicate Partly(db: Q.Db, d: Q.Db, src: Source, t: S.DBTorrent) {
    || d == db
    || (exists k :: 0 <= k < |src.FilesOf(t.id)| && d == Q.MPutTorrent(db, t, src.FilesOf(t.id)[..k]).0)
    || (exists done :: done < src.MetaOf(t.id).Keys
         && d == D.WithPart(Q.MPutTorrent(db, t, src.FilesOf(t.id)).0, t.id, src.MetaOf(t.id), done))
  }

  /** One torrent: complete, or partly there and reported. */
  method MigrateOne(src: Source, t: S.DBTorrent, l: Luck, newDb: D.Database) returns (ok: bool)
    requires newDb.Valid() && l.Fits(src, t)
    modifies newDb
    ensures newDb.Valid()
    ensures ok <==> l.Holds(src, t) && CopyOne(old(newDb.db), src, t).1
    ensures if ok then newDb.db == CopyOne(old(newDb.db), src, t).0 else Partly(old(newDb.db), newDb.db, src, t)
  {
    hide Q.MPutTorrent, Q.WithMeta, D.WithPart;
    var failed := newDb.MPutTorrent(t, src.FilesOf(t.id), l.row, l.files);
    if !failed {
      var meta := src.MetaOf(t.id);
      D.AllDone(newDb.db, t.id, meta);
      ghost var done;
      failed, done := newDb.AddTorrentMeta(t.id, meta, l.meta);
      assert failed ==> done != meta.Keys;
    }
    ok := !failed;
    PutAnswers(old(newDb.db), t, src.FilesOf(t.id));
  }

  lemma PutAnswers(db: Q.Db, t: S.DBTorrent, files: seq<string>)
    ensures Q.MPutTorrent(db, t, files).1 == S.Done || Q.MPutTorrent(db, t, files).1 == S.Failed
  {
  }

  /** All of them in turn; the first failure ends the migration, with that torrent partly there. */
  method Migrate(src: Source, order: Listing, lucks: seq<Luck>, newDb: D.Database) returns (ok: bool)
    requires newDb.Valid() && |lucks| == |order| && forall i :: 0 <= i < |order| ==> lucks[i].Fits(src, order[i])
    modifies newDb
    ensures newDb.Valid()
    ensures ok <==>
            CopyAll(old(newDb.db), src, order).1 && forall i :: 0 <= i < |order| ==> lucks[i].Holds(src, order[i])
    ensures ok ==> newDb.db == CopyAll(old(newDb.db), src, order).0
    ensures !ok ==> exists i :: 0 <= i < |order| && CopyAll(old(newDb.db), src, order[..i]).1
                      && Partly(CopyAll(old(newDb.db), src, order[..i]).0, newDb.db, src, order[i])
  {
    hide CopyOne, Partly, Luck.Holds;
    ok := true;
    var i := 0;
    while i < |order| && ok
      invariant 0 <= i <= |order| && newDb.Valid()
      invariant ok ==> CopyAll(old(newDb.db), src, order[..i]) == (newDb.db, true)
      invariant forall j :: 0 <= j < (if ok then i else i - 1) ==> lucks[j].Holds(src, order[j])
      invariant !ok ==> i > 0 && CopyAll(old(newDb.db), src, order[..i - 1]).1
                        && Partly(CopyAll(old(newDb.db), src, order[..i - 1]).0, newDb.db, src, order[i - 1])
                        && (!lucks[i - 1].Holds(src, order[i - 1]) || !CopyAll(old(newDb.db), src, order[..i]).1)
    {
      ok := MigrateOne(src, order[i], lucks[i], newDb);
      assert order[..i + 1][..i] == order[..i];
      i := i + 1;
    }
    if ok {
      assert order[..i] == order;
    } else if !CopyAll(old(newDb.db), src, order[..i]).1 {
      Stops(old(newDb.db), src, order, i);
    }
  }

  lemma {:induction false} Stops(db: Q.Db, src: Source, order: Listing, i: nat)
    requires i <= |order| && !CopyAll(db, src, order[..i]).1
    ensures CopyAll(db, src, order) == CopyAll(db, src, order[..i])
    decreases |order|
  {
    hide CopyOne;
    if i < |order| {
      var k := |order| - 1;
      assert order[..k][..i] == order[..i];
      Stops(db, src, order[..k], i);
    } else {
      assert order[..i] == order;
    }
  }

  // ----- The store that is built up

  ghost function Built(s: S.Catalog, src: Source, order: Listing): S.Catalog {
    if order == [] then s
    else
      var t := order[|order| - 1];
      S.Extended(Built(s, src, order[..|order| - 1]), t.id, t.name, src.EntryOf(t))
  }

  /** The names and torrents of `b` are those of `order`. */
  ghost predicate MadeOf(b: S.Catalog, src: Source, order: Listing) {
    && (forall t :: t in order ==> t.id in b.names && b.names[t.id] == t.name)
    && (forall t :: t in order ==> t.name in b.torrents && b.torrents[t.name] == src.EntryOf(t))
    && (forall i :: i in b.names ==> exists t :: t in order && t.id == i)
    && (forall n :: n in b.torrents ==> exists t :: t in order && t.name == n)
  }

  lemma OneMoreTorrent(b: S.Catalog, src: Source, order: Listing, t: S.DBTorrent)
    requires MadeOf(b, src, order) && forall u :: u in order ==> u.name != t.name && u.id != t.id
    ensures MadeOf(S.Extended(b, t.id, t.name, src.EntryOf(t)), src, order + [t])
  {
    hide Source.EntryOf;
    var b', all := S.Extended(b, t.id, t.name, src.EntryOf(t)), order + [t];
    forall i | i in b'.names ensures exists u :: u in all && u.id == i {
      if i == t.id {
        assert t in all;
      } else {
        var u :| u in order && u.id == i;
        assert u in all;
      }
    }
    forall n | n in b'.torrents ensures exists u :: u in all && u.name == n {
      if n == t.name {
        assert t in all;
      } else {
        var u :| u in order && u.name == n;
        assert u in all;
      }
    }
  }

  lemma Earlier(order: Listing, k: nat)
    requires AllDistinct(order) && k < |order|
    ensures forall u :: u in order[..k] ==> u.name != order[k].name && u.id != order[k].id
  {
    forall u | u in order[..k] ensures u.name != order[k].name && u.id != order[k].id {
      var i :| 0 <= i < k && order[..k][i] == u;
      assert order[i] == u;
    }
  }

  lemma {:induction false} BuiltIs(s: S.Catalog, src: Source, order: Listing)
    requires AllDistinct(order) && s.names == map[] && s.torrents == map[]
    ensures var b := Built(s, src, order);
            MadeOf(b, src, order) && b == s.(names := b.names, torrents := b.torrents)
    decreases |order|
  {
    hide MadeOf, Source.EntryOf;
    if order == [] {
      assert MadeOf(s, src, order) by { Empty(s, src); }
    } else {
      var k := |order| - 1;
      assert order == order[..k] + [order[k]];
      BuiltIs(s, src, order[..k]);
      Earlier(order, k);
      OneMoreTorrent(Built(s, src, order[..k]), src, order[..k], order[k]);
    }
  }

  lemma Empty(s: S.Catalog, src: Source)
    requires s.names == map[] && s.torrents == map[]
    ensures MadeOf(s, src, [])
  {
  }

  /** A new name and id: the copied torrent extends the store. */
  lemma CopyRefines(db: Q.Db, s: S.Catalog, src: Source, t: S.DBTorrent)
    requires Q.Represents(db, s) && S.FreshFor(s, t.id) && !s.Known(t.name)
    ensures var (d, ok) := CopyOne(db, src, t);
            var b := S.Extended(s, t.id, t.name, src.EntryOf(t));
            ok && b.Valid() && Q.Represents(d, b)
  {
    hide Q.OffsetIs, Q.ExtrasPut, Q.WithFiles, Q.WithMeta;
    var e := src.EntryOf(t);
    Q.NamesAgree(db, s, t.name);
    var d0 := db.(torrents := db.torrents[t.id := Q.Row(t.name, t.data, t.image)]);
    var d1 := Q.WithFiles(d0, t.id, e.files);
    var d := Q.WithMeta(d1, t.id, e.meta);
    assert CopyOne(db, src, t) == (d, true);
    Extras(db, s, d0, d1, d, t.id, e);
    Q.ExtendRefines(db, s, d, t.id, t.name, e);
  }

  lemma Extras(db: Q.Db, s: S.Catalog, d0: Q.Db, d1: Q.Db, d: Q.Db, id: int, e: S.Entry)
    requires s.Valid() && Q.FilesAre(db, s) && Q.MetaIs(db, s) && id !in s.names
    requires d0 == db.(torrents := d0.torrents) && d1 == Q.WithFiles(d0, id, e.files) && d == Q.WithMeta(d1, id, e.meta)
    ensures Q.ExtrasPut(db, d, id, e) && Q.RestSame(db, d) && d.torrents == d0.torrents
  {
  }

  lemma {:induction false} CopiesRefine(db: Q.Db, s: S.Catalog, src: Source, order: Listing)
    requires Q.Represents(db, s) && s.names == map[] && s.torrents == map[]
    requires AllDistinct(order) && forall t :: t in order ==> t.id > 0
    ensures CopyAll(db, src, order).1 && Q.Represents(CopyAll(db, src, order).0, Built(s, src, order))
    decreases |order|
  {
    hide CopyOne, Q.Represents, S.Extended, S.FreshFor, S.Catalog.Known, MadeOf;
    if order != [] {
      var k := |order| - 1;
      CopiesRefine(db, s, src, order[..k]);
      var b := Built(s, src, order[..k]);
      BuiltIs(s, src, order[..k]);
      assert order[k] in order;
      Fresh(b, src, order, k);
      CopyRefines(CopyAll(db, src, order[..k]).0, b, src, order[k]);
    }
  }

  lemma Fresh(b: S.Catalog, src: Source, order: Listing, k: nat)
    requires k < |order| && AllDistinct(order) && order[k].id > 0 && MadeOf(b, src, order[..k])
    ensures S.FreshFor(b, order[k].id) && !b.Known(order[k].name)
  {
    Earlier(order, k);
    forall i | i in b.names ensures b.names[i] != order[k].name && i != order[k].id {
      var t :| t in order[..k] && t.id == i;
    }
  }

  /** One copied torrent, read back from tables that lay out what was copied. */
  lemma ReadsBack(d: Q.Db, b: S.Catalog, src: Source, order: Listing, t: S.DBTorrent)
    requires Q.Represents(d, b) && MadeOf(b, src, order) && t in order
    ensures Q.FilesOf(d, t.id) == S.ToSet(src.FilesOf(t.id)) && Q.MetaOf(d, t.id) == src.MetaOf(t.id)
    ensures Q.GetTorrentImage(d, t.id) == S.Image(t.image) && Q.SelectId(d, t.name) == t.id
    ensures t in Q.MGetTorrents(d)
  {
    hide Q.OffsetIs, Q.FilesAre, Q.MetaIs, Q.FilesOf, Q.MetaOf, Q.SelectId;
    Q.ReadsRefine(d, b, t.id);
    Q.NamesAgree(d, b, t.name);
    assert b.Known(t.name);
  }

  lemma ListsOnly(d: Q.Db, b: S.Catalog, src: Source, order: Listing, t: S.DBTorrent)
    requires Q.Represents(d, b) && MadeOf(b, src, order) && t in Q.MGetTorrents(d)
    ensures t in order
  {
    hide Q.OffsetIs, Q.FilesAre, Q.MetaIs;
    var u :| u in order && u.id == t.id;
    assert b.EntryOf(t.id) == src.EntryOf(u);
  }

  /** The rows of one torrent, by what the old database answers. */
  lemma RowsAre(d: Q.Db, src: Source, id: int, x: string)
    requires Q.FilesOf(d, id) == S.ToSet(src.FilesOf(id)) && Q.MetaOf(d, id) == src.MetaOf(id)
    ensures (id, x) in d.files <==> id in src.files && x in src.files[id]
    ensures (id, x) in d.meta <==> id in src.meta && x in src.meta[id]
    ensures (id, x) in d.meta ==> d.meta[(id, x)] == src.meta[id][x]
  {
    assert x in Q.FilesOf(d, id) <==> (id, x) in d.files;
    assert x in Q.MetaOf(d, id) <==> (id, x) in d.meta;
  }

  /** The whole migration: from any listing with distinct ids, names listed more than once included, and any
      sort and walk order, exactly the record with the greatest id of each name arrives, with its files,
      metadata and image, and is found by name; and the new tables lay out the store of these records. */
  lemma MigrationExactly(db: Q.Db, s: S.Catalog, src: Source, unq: map<string, S.DBTorrent>, order: Listing)
    requires Q.Represents(db, s) && s.names == map[] && s.torrents == map[]
    requires IdsDistinct(src.torrents) && forall t :: t in src.torrents ==> t.id > 0
    requires Winners(src.torrents, unq) && Walks(unq, order)
    ensures var (d, ok) := CopyAll(db, src, order);
            && ok
            && Q.Represents(d, Built(s, src, order)) && MadeOf(Built(s, src, order), src, order)
            && Q.MGetTorrents(d) == (set t | t in src.torrents && Wins(src.torrents, t))
            && (forall t :: Wins(src.torrents, t) ==>
                  && Q.FilesOf(d, t.id) == S.ToSet(src.FilesOf(t.id))
                  && Q.MetaOf(d, t.id) == src.MetaOf(t.id)
                  && Q.GetTorrentImage(d, t.id) == S.Image(t.image)
                  && Q.SelectId(d, t.name) == t.id)
            && (forall t, p :: Wins(src.torrents, t) ==>
                  ((t.id, p) in d.files <==> t.id in src.files && p in src.files[t.id]))
            && (forall t, k :: Wins(src.torrents, t) ==>
                  ((t.id, k) in d.meta <==> t.id in src.meta && k in src.meta[t.id]))
            && (forall t, k :: Wins(src.torrents, t) && (t.id, k) in d.meta ==>
                  t.id in src.meta && k in src.meta[t.id] && d.meta[(t.id, k)] == src.meta[t.id][k])
  {
    hide Q.Represents, Q.FilesOf, Q.MetaOf, Q.GetTorrentImage, Q.SelectId, Q.MGetTorrents, CopyAll, Built, MadeOf,
         AllDistinct;
    WalkIsWinners(src.torrents, unq, order);
    BuiltIs(s, src, order);
    CopiesRefine(db, s, src, order);
    var d, b := CopyAll(db, src, order).0, Built(s, src, order);
    forall t | Wins(src.torrents, t)
      ensures Q.FilesOf(d, t.id) == S.ToSet(src.FilesOf(t.id)) && Q.MetaOf(d, t.id) == src.MetaOf(t.id)
      ensures Q.GetTorrentImage(d, t.id) == S.Image(t.image) && Q.SelectId(d, t.name) == t.id && t in Q.MGetTorrents(d)
    {
      ReadsBack(d, b, src, order, t);
    }
    forall t, x | Wins(src.torrents, t)
      ensures (t.id, x) in d.files <==> t.id in src.files && x in src.files[t.id]
      ensures (t.id, x) in d.meta <==> t.id in src.meta && x in src.meta[t.id]
      ensures (t.id, x) in d.meta ==> d.meta[(t.id, x)] == src.meta[t.id][x]
    {
      RowsAre(d, src, t.id, x);
    }
    forall t | t in Q.MGetTorrents(d) ensures Wins(src.torrents, t) { ListsOnly(d, b, src, order, t); }
    assert Q.MGetTorrents(d) == set t | t in src.torrents && Wins(src.torrents, t);
  }

  // ----- An old database without doubled names

  /** The old database answers like the store `s`. */
  ghost predicate Describes(src: Source, s: S.Catalog)
    requires s.Valid()
  {
    && (set t | t in src.torrents) == S.Listing(s)
    && forall id :: id in s.names ==>
         S.ToSet(src.FilesOf(id)) == s.EntryOf(id).files && src.MetaOf(id) == s.EntryOf(id).meta
  }

  /** The store without its torrents: what the migration of offset, chats and admins leaves behind. */
  function Settled(s: S.Catalog): S.Catalog { s.(names := map[], torrents := map[]) }

  lemma ListedOnce(src: Source, s: S.Catalog)
    requires s.Valid() && Describes(src, s)
    ensures IdsDistinct(src.torrents)
    ensures forall t ::
              t in src.torrents <==>
              t.id in s.names && t == S.DBTorrent(t.id, s.names[t.id], s.EntryOf(t.id).data, s.EntryOf(t.id).image)
    ensures forall t :: t in src.torrents ==> Wins(src.torrents, t) && t.id > 0
  {
    forall t ensures t in src.torrents <==> t in S.Listing(s) {
      assert t in src.torrents <==> t in set u | u in src.torrents;
    }
  }

  /** The record of one torrent of the old database. */
  lemma RecordFound(src: Source, s: S.Catalog, n: string) returns (t: S.DBTorrent)
    requires s.Valid() && Describes(src, s) && n in s.torrents
    ensures t in src.torrents && t.name == n && src.EntryOf(t) == s.torrents[n]
  {
    ListedOnce(src, s);
    var i := s.IdOf(n);
    assert s.Known(n);
    t := S.DBTorrent(i, n, s.EntryOf(i).data, s.EntryOf(i).image);
  }

  lemma IdFound(src: Source, s: S.Catalog, i: int) returns (t: S.DBTorrent)
    requires s.Valid() && Describes(src, s) && i in s.names
    ensures t in src.torrents && t.id == i && t.name == s.names[i]
  {
    ListedOnce(src, s);
    t := S.DBTorrent(i, s.names[i], s.EntryOf(i).data, s.EntryOf(i).image);
  }

  lemma ListedInStore(src: Source, s: S.Catalog, t: S.DBTorrent)
    requires s.Valid() && Describes(src, s) && t in src.torrents
    ensures t.id in s.names && s.names[t.id] == t.name && t.name in s.torrents
  {
    ListedOnce(src, s);
  }

  lemma BuiltIsOld(src: Source, s: S.Catalog, order: Listing)
    requires s.Valid() && Describes(src, s) && AllDistinct(order) && forall t :: t in order <==> t in src.torrents
    ensures Built(Settled(s), src, order) == s
  {
    hide S.Catalog.Valid, Describes, Built, Source.EntryOf, AllDistinct;
    BuiltIs(Settled(s), src, order);
    var b := Built(Settled(s), src, order);
    forall i | i in s.names ensures i in b.names && b.names[i] == s.names[i] { var t := IdFound(src, s, i); }
    forall n | n in s.torrents ensures n in b.torrents && b.torrents[n] == s.torrents[n] {
      var t := RecordFound(src, s, n);
    }
    forall i | i in b.names ensures i in s.names {
      var t :| t in order && t.id == i;
      ListedInStore(src, s, t);
    }
    forall n | n in b.torrents ensures n in s.torrents {
      var t :| t in order && t.name == n;
      ListedInStore(src, s, t);
    }
    assert b.names == s.names && b.torrents == s.torrents;
  }

  /** Whatever the sort and the walk order, the new tables lay out the store of the old database: with
      everything either promises about it, every later call answers as it would have there. */
  lemma MigrationPreserves(db: Q.Db, s: S.Catalog, src: Source, unq: map<string, S.DBTorrent>, order: Listing)
    requires s.Valid() && Q.Represents(db, Settled(s)) && Describes(src, s)
    requires Winners(src.torrents, unq) && Walks(unq, order)
    ensures CopyAll(db, src, order).1 && Q.Represents(CopyAll(db, src, order).0, s)
  {
    hide Q.Represents, S.Catalog.Valid, Describes, Built, CopyAll, S.Listing;
    ListedOnce(src, s);
    WalkIsWinners(src.torrents, unq, order);
    BuiltIsOld(src, s, order);
    CopiesRefine(db, Settled(s), src, order);
  }

  /** `src` is what a Redis database answers to the calls of the migration. */
  ghost predicate ReadFromRedis(ks: RedisServer.Keyspace, src: Source) {
    && R.MGetTorrents(ks) == S.All(set t | t in src.torrents)
    && forall t :: t in src.torrents ==>
         && R.GetTorrentFiles(ks, t.id) == S.Files(S.ToSet(src.FilesOf(t.id)))
         && R.GetTorrentMeta(ks, t.id) == S.Meta(src.MetaOf(t.id))
  }

  /** From Redis to SQL nothing is lost. */
  lemma RedisToSql(ks: RedisServer.Keyspace, db: Q.Db, s: S.Catalog, src: Source, unq: map<string, S.DBTorrent>,
                   order: Listing)
    requires R.Represents(ks, s) && ReadFromRedis(ks, src) && |s.names| < INT64_MAX
    requires Q.Represents(db, Settled(s)) && Winners(src.torrents, unq) && Walks(unq, order)
    ensures CopyAll(db, src, order).1 && Q.Represents(CopyAll(db, src, order).0, s)
  {
    hide R.MGetTorrents, R.GetTorrentFiles, R.GetTorrentMeta, Q.Represents, CopyAll, Winners, Walks;
    RedisDescribes(ks, s, src);
    MigrationPreserves(db, s, src, unq, order);
  }

  lemma RedisDescribes(ks: RedisServer.Keyspace, s: S.Catalog, src: Source)
    requires R.Represents(ks, s) && ReadFromRedis(ks, src) && |s.names| < INT64_MAX
    ensures s.Valid() && Describes(src, s)
  {
    hide R.MGetTorrents, R.GetTorrentFiles, R.GetTorrentMeta, R.Represents;
    assert s.Valid() by { IsValid(ks, s); }
    R.ListingRefines(ks, s);
    forall id | id in s.names
      ensures S.ToSet(src.FilesOf(id)) == s.EntryOf(id).files && src.MetaOf(id) == s.EntryOf(id).meta
    {
      R.EntryHeld(ks, s, id);
      R.ReadsRefine(ks, s, S.GetTorrentFiles(id));
      R.ReadsRefine(ks, s, S.GetTorrentMeta(id));
      var t := S.DBTorrent(id, s.names[id], s.EntryOf(id).data, s.EntryOf(id).image);
      assert t in S.Listing(s);
      assert t in set u | u in src.torrents;
    }
  }

  lemma IsValid(ks: RedisServer.Keyspace, s: S.Catalog)
    requires R.Represents(ks, s)
    ensures s.Valid()
  {
  }
}
