/**
 shared/sqldb/db.go: the calls as statements over tables, and the proof that they implement Store. The
 tables have the keys the statements rely on: TT_TORRENT by id with unique names, files and metadata unique
 per torrent and name. A row inserted without an id gets a new one from the database.
 */
module SqlStore {
  import opened Basics
  import opened Decimal
  import S = Store

  datatype Row = Row(name: string, data: S.Bytes, image: S.Bytes)

  datatype Db = Db(torrents: map<int, Row>, files: set<(int, string)>, meta: map<(int, string), string>,
                   config: map<string, string>, chats: set<int>, admins: set<int>)

  const EMPTY := Db(map[], {}, map[], map[], {}, {})

  const CRAWL_OFFSET := "CRAWL_OFFSET"

  predicate HasName(db: Db, name: string) { exists id :: id in db.torrents && db.torrents[id].name == name }

  /** SELECT ID FROM TT_TORRENT WHERE NAME = $1, or the invalid id if no row comes back. */
  ghost function SelectId(db: Db, name: string): (id: int)
    ensures HasName(db, name) ==> id in db.torrents && db.torrents[id].name == name
    ensures !HasName(db, name) ==> id == INVALID_DB_ID
  {
    if HasName(db, name) then var id :| id in db.torrents && db.torrents[id].name == name; id else INVALID_DB_ID
  }

  /** INSERT ... ON CONFLICT(NAME) DO UPDATE SET DATA. */
  ghost function UpsertTorrent(db: Db, name: string, data: S.Bytes, newId: int): Db {
    if HasName(db, name) then
      var id := SelectId(db, name);
      db.(torrents := db.torrents[id := db.torrents[id].(data := data)])
    else
      db.(torrents := db.torrents[newId := Row(name, data, "")])
  }

  function InsertFile(db: Db, id: int, file: string): Db { db.(files := db.files + {(id, file)}) }

  function WithFiles(db: Db, id: int, files: set<string>): Db {
    db.(files := db.files + set f | f in files :: (id, f))
  }

  function UpsertMeta(db: Db, id: int, name: string, value: string): Db { db.(meta := db.meta[(id, name) := value]) }

  function WithMeta(db: Db, id: int, meta: map<string, string>): Db {
    db.(meta := db.meta + map n | n in meta :: (id, n) := meta[n])
  }

  function FilesOf(db: Db, id: int): set<string> { set r | r in db.files && r.0 == id :: r.1 }

  function MetaOf(db: Db, id: int): map<string, string> {
    map k | k in db.meta && k.0 == id :: k.1 := db.meta[k]
  }

  ghost function AddTorrent(db: Db, name: string, data: S.Bytes, files: seq<string>, newId: int): (Db, S.Answer) {
    var d := UpsertTorrent(db, name, data, newId);
    var id := SelectId(d, name);
    (WithFiles(d, id, S.ToSet(files)), S.Id(id))
  }

  function AddTorrentImage(db: Db, id: int, image: S.Bytes): (Db, S.Answer) {
    (if id in db.torrents then db.(torrents := db.torrents[id := db.torrents[id].(image := image)]) else db, S.Done)
  }

  function GetTorrentImage(db: Db, id: int): S.Answer {
    S.Image(if id in db.torrents then db.torrents[id].image else "")
  }

  function MGetTorrents(db: Db): set<S.DBTorrent> {
    set id | id in db.torrents :: S.DBTorrent(id, db.torrents[id].name, db.torrents[id].data, db.torrents[id].image)
  }

  /** A missing row leaves the value empty, and the empty string is not a number. */
  function GetCrawlOffset(db: Db): S.Answer {
    var v := if CRAWL_OFFSET in db.config then db.config[CRAWL_OFFSET] else "";
    if ParseUint(v).ok && ParseUint(v).value >= 0 then S.Offset(ParseUint(v).value) else S.Failed
  }

  function UpdateCrawlOffset(db: Db, offset: nat): Db { db.(config := db.config[CRAWL_OFFSET := FormatNat(offset)]) }

  function MembersOf(db: Db, r: S.Roster): set<int> { if r.Chats? then db.chats else db.admins }

  function WithRoster(db: Db, r: S.Roster, xs: set<int>): Db {
    if r.Chats? then db.(chats := xs) else db.(admins := xs)
  }

  /** INSERT with the id given; the row's id and name must both be new. */
  function MPutTorrent(db: Db, t: S.DBTorrent, files: seq<string>): (Db, S.Answer) {
    if t.id in db.torrents || HasName(db, t.name) then (db, S.Failed)
    else (WithFiles(db.(torrents := db.torrents[t.id := Row(t.name, t.data, t.image)]), t.id, S.ToSet(files)), S.Done)
  }

  ghost function Do(db: Db, c: S.Call, newId: int): (Db, S.Answer) {
    match c
    case AddTorrent(name, data, files) => AddTorrent(db, name, data, files, newId)
    case AddTorrentImage(id, image) => AddTorrentImage(db, id, image)
    case AddTorrentMeta(id, meta) => (WithMeta(db, id, meta), S.Done)
    case CheckTorrent(id) => (db, S.Flag(id in db.torrents))
    case GetTorrent(name) => (db, S.Id(SelectId(db, name)))
    case GetTorrentFiles(id) => (db, S.Files(FilesOf(db, id)))
    case GetTorrentImage(id) => (db, GetTorrentImage(db, id))
    case GetTorrentMeta(id) => (db, S.Meta(MetaOf(db, id)))
    case MGetTorrents => (db, S.All(MGetTorrents(db)))
    case GetCrawlOffset => (db, GetCrawlOffset(db))
    case UpdateCrawlOffset(offset) => (UpdateCrawlOffset(db, offset), S.Done)
    case AddMember(r, x) => (WithRoster(db, r, MembersOf(db, r) + {x}), S.Done)
    case DelMember(r, x) => (WithRoster(db, r, MembersOf(db, r) - {x}), S.Done)
    case GetMemberExist(r, x) => (db, S.Flag(x in MembersOf(db, r)))
    case GetMembers(r) => (db, S.Members(MembersOf(db, r)))
  }

  // ----- The representation

  ghost predicate TorrentsAre(db: Db, s: S.Catalog)
    requires s.Valid()
  {
    && db.torrents.Keys == s.names.Keys
    && forall id :: id in s.names ==>
         db.torrents[id] == Row(s.names[id], s.EntryOf(id).data, s.EntryOf(id).image)
  }

  ghost predicate FilesAre(db: Db, s: S.Catalog)
    requires s.Valid()
  {
    forall id: int, f: string :: (id, f) in db.files <==> id in s.names && f in s.EntryOf(id).files
  }

  ghost predicate MetaIs(db: Db, s: S.Catalog)
    requires s.Valid()
  {
    && (forall id: int, n: string :: (id, n) in db.meta <==> id in s.names && n in s.EntryOf(id).meta)
    && (forall id: int, n: string :: id in s.names && n in s.EntryOf(id).meta ==>
        db.meta[(id, n)] == s.EntryOf(id).meta[n])
  }

  ghost predicate OffsetIs(db: Db, offset: Option<nat>) {
    if CRAWL_OFFSET in db.config
    then offset.Some? && offset.value <= UINT64_MAX && db.config[CRAWL_OFFSET] == FormatNat(offset.value)
    else offset.None?
  }

  ghost predicate Represents(db: Db, s: S.Catalog) {
    && s.Valid() && TorrentsAre(db, s) && FilesAre(db, s) && MetaIs(db, s)
    && db.chats == s.chats && db.admins == s.admins && OffsetIs(db, s.offset)
  }

  lemma EmptyRepresents()
    ensures Represents(EMPTY, S.EMPTY)
  {
  }

  // ----- Refinement

  lemma NamesAgree(db: Db, s: S.Catalog, name: string)
    requires s.Valid() && TorrentsAre(db, s)
    ensures HasName(db, name) <==> s.Known(name)
    ensures SelectId(db, name) == s.IdOf(name)
  {
    if s.Known(name) {
      var id :| id in s.names && s.names[id] == name;
      assert id in db.torrents && db.torrents[id].name == name;
    }
    if HasName(db, name) {
      var id :| id in db.torrents && db.torrents[id].name == name;
      assert s.names[id] == name;
    }
  }

  /** The files and metadata of one torrent replaced by those of `e`. */
  ghost predicate ExtrasPut(db: Db, d: Db, id: int, e: S.Entry) {
    && (forall i: int, f: string :: (i, f) in d.files <==> if i == id then f in e.files else (i, f) in db.files)
    && (forall i: int, n: string :: (i, n) in d.meta <==> if i == id then n in e.meta else (i, n) in db.meta)
    && (forall i: int, n: string :: (i, n) in d.meta ==>
        d.meta[(i, n)] == if i == id then e.meta[n] else db.meta[(i, n)])
  }

  ghost predicate RestSame(db: Db, d: Db) { d.config == db.config && d.chats == db.chats && d.admins == db.admins }

  lemma RowsPut(db: Db, s: S.Catalog, d: Db, id: int, e: S.Entry)
    requires s.Valid() && TorrentsAre(db, s) && id in s.names
             && d.torrents == db.torrents[id := Row(s.names[id], e.data, e.image)]
    ensures s.Put(id, e).Valid() && TorrentsAre(d, s.Put(id, e))
  {
    hide S.Catalog.Valid;
    S.PutValid(s, id, e);
  }

  lemma ExtrasArePut(db: Db, s: S.Catalog, d: Db, id: int, e: S.Entry)
    requires s.Valid() && FilesAre(db, s) && MetaIs(db, s) && id in s.names && ExtrasPut(db, d, id, e)
    ensures s.Put(id, e).Valid() && FilesAre(d, s.Put(id, e)) && MetaIs(d, s.Put(id, e))
  {
    hide S.Catalog.Valid;
    S.PutValid(s, id, e);
  }

  /** Rewriting the row, files and metadata of one torrent is a Put on the store. */
  lemma PutRefines(db: Db, s: S.Catalog, d: Db, id: int, e: S.Entry)
    requires Represents(db, s) && id in s.names
    requires d.torrents == db.torrents[id := Row(s.names[id], e.data, e.image)] && ExtrasPut(db, d, id, e)
             && RestSame(db, d)
    ensures s.Put(id, e).Valid() && Represents(d, s.Put(id, e))
  {
    hide S.Catalog.Valid, OffsetIs, TorrentsAre, FilesAre, MetaIs, ExtrasPut;
    RowsPut(db, s, d, id, e);
    ExtrasArePut(db, s, d, id, e);
    SameConfig(db, d, s.offset);
  }

  lemma SameConfig(db: Db, d: Db, offset: Option<nat>)
    requires OffsetIs(db, offset) && d.config == db.config
    ensures OffsetIs(d, offset)
  {
  }

  lemma RowsExtended(db: Db, s: S.Catalog, d: Db, id: int, name: string, e: S.Entry)
    requires s.Valid() && TorrentsAre(db, s) && S.FreshFor(s, id) && !s.Known(name)
    requires d.torrents == db.torrents[id := Row(name, e.data, e.image)]
    ensures S.Extended(s, id, name, e).Valid() && TorrentsAre(d, S.Extended(s, id, name, e))
  {
    hide S.Catalog.Valid;
    S.ExtendedValid(s, id, name, e);
  }

  lemma ExtrasExtended(db: Db, s: S.Catalog, d: Db, id: int, name: string, e: S.Entry)
    requires s.Valid() && FilesAre(db, s) && MetaIs(db, s) && S.FreshFor(s, id) && !s.Known(name)
             && ExtrasPut(db, d, id, e)
    ensures var t := S.Extended(s, id, name, e); t.Valid() && FilesAre(d, t) && MetaIs(d, t)
  {
    hide S.Catalog.Valid;
    S.ExtendedValid(s, id, name, e);
  }

  lemma ExtendRefines(db: Db, s: S.Catalog, d: Db, id: int, name: string, e: S.Entry)
    requires Represents(db, s) && S.FreshFor(s, id) && !s.Known(name)
    requires d.torrents == db.torrents[id := Row(name, e.data, e.image)] && ExtrasPut(db, d, id, e) && RestSame(db, d)
    ensures S.Extended(s, id, name, e).Valid() && Represents(d, S.Extended(s, id, name, e))
  {
    hide S.Catalog.Valid, OffsetIs, TorrentsAre, FilesAre, MetaIs, ExtrasPut, S.Catalog.Known;
    RowsExtended(db, s, d, id, name, e);
    ExtrasExtended(db, s, d, id, name, e);
    SameConfig(db, d, s.offset);
  }

  lemma FilesAdded(db: Db, d: Db, id: int, e: S.Entry, files: set<string>, e': S.Entry)
    requires forall f: string :: (id, f) in db.files <==> f in e.files
    requires forall n: string :: (id, n) in db.meta <==> n in e.meta
    requires forall n: string :: n in e.meta ==> db.meta[(id, n)] == e.meta[n]
    requires d == WithFiles(db, id, files) && e'.files == e.files + files && e'.meta == e.meta
    ensures ExtrasPut(db, d, id, e')
  {
  }

  lemma AddKnownRefines(db: Db, s: S.Catalog, name: string, data: S.Bytes, files: seq<string>, newId: int)
    requires Represents(db, s) && s.Known(name)
    ensures var (d, a) := AddTorrent(db, name, data, files, newId);
            var (t, b) := S.Step(s, S.AddTorrent(name, data, files), newId);
            a == b && t.Valid() && Represents(d, t)
  {
    hide OffsetIs, WithFiles, ExtrasPut;
    NamesAgree(db, s, name);
    var id, e := s.IdOf(name), s.EntryOf(s.IdOf(name));
    var e1 := e.(data := data, files := e.files + S.ToSet(files));
    var d1 := UpsertTorrent(db, name, data, newId);
    assert d1.torrents[id] == Row(name, data, e.image);
    OneName(d1, id, name);
    FilesAdded(d1, WithFiles(d1, id, S.ToSet(files)), id, e, S.ToSet(files), e1);
    TorrentsElsewhere(db, d1, WithFiles(d1, id, S.ToSet(files)), id, S.ToSet(files), e1);
    PutRefines(db, s, WithFiles(d1, id, S.ToSet(files)), id, e1);
  }

  lemma TorrentsElsewhere(db: Db, d1: Db, d: Db, id: int, files: set<string>, e: S.Entry)
    requires d == WithFiles(d1, id, files) && ExtrasPut(d1, d, id, e)
    requires d1.files == db.files && d1.meta == db.meta && RestSame(db, d1)
    ensures ExtrasPut(db, d, id, e) && d.torrents == d1.torrents && RestSame(db, d)
  {
  }

  /** The row found for a name that occurs once. */
  lemma OneName(db: Db, id: int, name: string)
    requires id in db.torrents && db.torrents[id].name == name
    requires forall i :: i in db.torrents && i != id ==> db.torrents[i].name != name
    ensures SelectId(db, name) == id
  {
  }

  lemma AddNewRefines(db: Db, s: S.Catalog, name: string, data: S.Bytes, files: seq<string>, newId: int)
    requires Represents(db, s) && !s.Known(name) && S.FreshFor(s, newId)
    ensures var (d, a) := AddTorrent(db, name, data, files, newId);
            var (t, b) := S.Step(s, S.AddTorrent(name, data, files), newId);
            a == b && t.Valid() && Represents(d, t)
  {
    hide OffsetIs, WithFiles, ExtrasPut;
    NamesAgree(db, s, name);
    var e0, e1 := S.Entry(data, "", {}, map[]), S.Entry(data, "", S.ToSet(files), map[]);
    var d1 := UpsertTorrent(db, name, data, newId);
    assert d1.torrents == db.torrents[newId := Row(name, data, "")];
    OneName(d1, newId, name);
    FilesAdded(d1, WithFiles(d1, newId, S.ToSet(files)), newId, e0, S.ToSet(files), e1);
    TorrentsElsewhere(db, d1, WithFiles(d1, newId, S.ToSet(files)), newId, S.ToSet(files), e1);
    ExtendRefines(db, s, WithFiles(d1, newId, S.ToSet(files)), newId, name, e1);
  }

  lemma ImageRefines(db: Db, s: S.Catalog, id: Int64, image: S.Bytes)
    requires Represents(db, s) && id in s.names
    ensures var (d, a) := AddTorrentImage(db, id, image);
            var (t, b) := S.Step(s, S.AddTorrentImage(id, image), 0);
            a == b && t.Valid() && Represents(d, t)
  {
    hide OffsetIs;
    PutRefines(db, s, AddTorrentImage(db, id, image).0, id, s.EntryOf(id).(image := image));
  }

  lemma MetaAdded(db: Db, id: int, e: S.Entry, meta: map<string, string>)
    requires forall f: string :: (id, f) in db.files <==> f in e.files
    requires forall n: string :: (id, n) in db.meta <==> n in e.meta
    requires forall n: string :: n in e.meta ==> db.meta[(id, n)] == e.meta[n]
    ensures ExtrasPut(db, WithMeta(db, id, meta), id, e.(meta := e.meta + meta))
  {
  }

  /** The tables' part of one torrent. */
  lemma RowOf(db: Db, s: S.Catalog, id: int)
    requires Represents(db, s) && id in s.names
    ensures s.names[id] in s.torrents
            && db.torrents[id := Row(s.names[id], s.EntryOf(id).data, s.EntryOf(id).image)] == db.torrents
    ensures forall f: string :: (id, f) in db.files <==> f in s.EntryOf(id).files
    ensures forall n: string :: (id, n) in db.meta <==> n in s.EntryOf(id).meta
    ensures forall n: string :: n in s.EntryOf(id).meta ==> db.meta[(id, n)] == s.EntryOf(id).meta[n]
  {
    hide OffsetIs;
  }

  lemma OnlyMeta(db: Db, id: int, meta: map<string, string>)
    ensures WithMeta(db, id, meta).torrents == db.torrents && RestSame(db, WithMeta(db, id, meta))
  {
  }

  lemma MetaRefines(db: Db, s: S.Catalog, id: Int64, meta: map<string, string>)
    requires Represents(db, s) && id in s.names
    ensures var (t, b) := S.Step(s, S.AddTorrentMeta(id, meta), 0);
            b == S.Done && t.Valid() && Represents(WithMeta(db, id, meta), t)
  {
    hide Represents, ExtrasPut, WithMeta, S.Catalog.Valid;
    RowOf(db, s, id);
    ValidOf(db, s);
    var e := s.EntryOf(id);
    MetaAdded(db, id, e, meta);
    OnlyMeta(db, id, meta);
    PutRefines(db, s, WithMeta(db, id, meta), id, e.(meta := e.meta + meta));
  }

  lemma ValidOf(db: Db, s: S.Catalog)
    requires Represents(db, s)
    ensures s.Valid()
  {
  }

  lemma ReadsRefine(db: Db, s: S.Catalog, id: int)
    requires Represents(db, s)
    ensures FilesOf(db, id) == if id in s.names then s.EntryOf(id).files else {}
    ensures MetaOf(db, id) == if id in s.names then s.EntryOf(id).meta else map[]
  {
    hide OffsetIs;
    var files := if id in s.names then s.EntryOf(id).files else {};
    forall f ensures f in FilesOf(db, id) <==> f in files {
      assert f in files <==> (id, f) in db.files;
    }
    var meta := if id in s.names then s.EntryOf(id).meta else map[];
    forall n ensures n in MetaOf(db, id) <==> n in meta {
      assert n in meta <==> (id, n) in db.meta;
    }
    assert MetaOf(db, id) == meta;
  }

  lemma ListingRefines(db: Db, s: S.Catalog)
    requires Represents(db, s)
    ensures MGetTorrents(db) == S.Listing(s)
  {
  }

  /** Each call answers as the store does, with whatever new id the database draws. */
  lemma CallRefines(db: Db, s: S.Catalog, c: S.Call, newId: int)
    requires Represents(db, s) && S.Common(s, c) && S.FreshFor(s, newId)
    ensures var (d, a) := Do(db, c, newId);
            var (t, b) := S.Step(s, c, newId);
            a == b && t.Valid() && Represents(d, t)
  {
    hide FormatNat, ParseUint, AddTorrent, AddTorrentImage, FilesAre, MetaIs, WithMeta, S.Catalog.Valid, FilesOf,
         MetaOf, MGetTorrents;
    match c
    case AddTorrent(name, data, files) =>
      if s.Known(name) {
        AddKnownRefines(db, s, name, data, files, newId);
      } else {
        AddNewRefines(db, s, name, data, files, newId);
      }
    case AddTorrentImage(id, image) => ImageRefines(db, s, id, image);
    case AddTorrentMeta(id, meta) => MetaRefines(db, s, id, meta);
    case GetTorrent(name) => NamesAgree(db, s, name);
    case GetTorrentFiles(id) => ReadsRefine(db, s, id);
    case GetTorrentMeta(id) => ReadsRefine(db, s, id);
    case MGetTorrents => ListingRefines(db, s);
    case GetCrawlOffset => OffsetReads(db, s.offset);
    case UpdateCrawlOffset(offset) => PlainRefines(db, Do(db, c, newId).0, s, S.Step(s, c, newId).0);
    case AddMember(_, _) => PlainRefines(db, Do(db, c, newId).0, s, S.Step(s, c, newId).0);
    case DelMember(_, _) => PlainRefines(db, Do(db, c, newId).0, s, S.Step(s, c, newId).0);
    case _ =>
  }

  lemma OffsetReads(db: Db, offset: Option<nat>)
    requires OffsetIs(db, offset)
    ensures GetCrawlOffset(db) == if offset.Some? then S.Offset(offset.value) else S.Failed
  {
    if offset.Some? { FormatUintRoundTrip(offset.value); }
    hide FormatNat;
  }

  lemma PlainRefines(db: Db, d: Db, s: S.Catalog, t: S.Catalog)
    requires Represents(db, s) && t.names == s.names && t.torrents == s.torrents
    requires d.torrents == db.torrents && d.files == db.files && d.meta == db.meta
    ensures t.Valid() && TorrentsAre(d, t) && FilesAre(d, t) && MetaIs(d, t)
  {
    S.StillValid(s, t);
  }
}
