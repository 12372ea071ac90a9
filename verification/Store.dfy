/** What both databases promise through shared/database.go, without regard to how they lay it out. */
module Store {
  import opened Basics
  import opened Decimal

  type Bytes = string

  datatype Entry = Entry(data: Bytes, image: Bytes, files: set<string>, meta: map<string, string>)

  datatype DBTorrent = DBTorrent(id: int, name: string, data: Bytes, image: Bytes)

  datatype Roster = Chats | Admins

  /** `names` says which torrent an id stands for; it is one-to-one. */
  datatype Catalog = Catalog(names: map<int, string>, torrents: map<string, Entry>,
                         chats: set<int>, admins: set<int>, offset: Option<nat>)
  {
    ghost predicate Valid() {
      && (forall i, j :: i in names && j in names && names[i] == names[j] ==> i == j)
      && (forall i :: i in names ==> i > 0 && names[i] in torrents)
      && (forall n :: n in torrents ==> Known(n))
    }

    ghost predicate Known(name: string) { exists i :: i in names && names[i] == name }

    ghost function IdOf(name: string): (id: int)
      ensures Known(name) ==> id in names && names[id] == name
      ensures !Known(name) ==> id == INVALID_DB_ID
    {
      if Known(name) then var i :| i in names && names[i] == name; i else INVALID_DB_ID
    }

    function MembersOf(r: Roster): set<int> { if r.Chats? then chats else admins }

    function WithRoster(r: Roster, xs: set<int>): Catalog {
      if r.Chats? then this.(chats := xs) else this.(admins := xs)
    }

    /** Entry `id` replaced by `e`. */
    function Put(id: int, e: Entry): Catalog
      requires id in names
    {
      this.(torrents := torrents[names[id] := e])
    }

    function EntryOf(id: int): Entry
      requires id in names && names[id] in torrents
    {
      torrents[names[id]]
    }
  }

  const EMPTY := Catalog(map[], map[], {}, {}, None)

  datatype Call =
    | AddTorrent(name: string, data: Bytes, files: seq<string>)
    | AddTorrentImage(id: Int64, image: Bytes)
    | AddTorrentMeta(id: Int64, meta: map<string, string>)
    | CheckTorrent(id: Int64)
    | GetTorrent(name: string)
    | GetTorrentFiles(id: Int64)
    | GetTorrentImage(id: Int64)
    | GetTorrentMeta(id: Int64)
    | MGetTorrents
    | GetCrawlOffset
    | UpdateCrawlOffset(offset: nat)
    | AddMember(roster: Roster, x: Int64)
    | DelMember(roster: Roster, x: Int64)
    | GetMemberExist(roster: Roster, x: Int64)
    | GetMembers(roster: Roster)

  /** Lists are answered as sets: neither database fixes an order. */
  datatype Answer =
    | Id(id: int) | Done | Flag(b: bool) | Files(files: set<string>) | Image(image: Bytes)
    | Meta(meta: map<string, string>) | All(all: set<DBTorrent>) | Offset(offset: nat) | Members(xs: set<int>)
    | NotFound | Failed

  function ToSet(xs: seq<string>): set<string> { set x | x in xs }

  ghost function Listing(s: Catalog): set<DBTorrent>
    requires s.Valid()
  {
    set i | i in s.names :: DBTorrent(i, s.names[i], s.EntryOf(i).data, s.EntryOf(i).image)
  }

  /** One call; a torrent stored for the first time gets the id `newId`. */
  ghost function Step(s: Catalog, c: Call, newId: int): (Catalog, Answer)
    requires s.Valid()
  {
    match c
    case AddTorrent(name, data, files) =>
      if s.Known(name) then
        var id := s.IdOf(name);
        var e := s.EntryOf(id);
        (s.Put(id, e.(data := data, files := e.files + ToSet(files))), Id(id))
      else
        (s.(names := s.names[newId := name], torrents := s.torrents[name := Entry(data, "", ToSet(files), map[])]),
         Id(newId))
    case AddTorrentImage(id, image) =>
      if id in s.names then (s.Put(id, s.EntryOf(id).(image := image)), Done) else (s, NotFound)
    case AddTorrentMeta(id, meta) =>
      if id in s.names then (s.Put(id, s.EntryOf(id).(meta := s.EntryOf(id).meta + meta)), Done) else (s, NotFound)
    case CheckTorrent(id) => (s, Flag(id in s.names))
    case GetTorrent(name) => (s, Id(s.IdOf(name)))
    case GetTorrentFiles(id) => (s, Files(if id in s.names then s.EntryOf(id).files else {}))
    case GetTorrentImage(id) => (s, if id in s.names then Image(s.EntryOf(id).image) else NotFound)
    case GetTorrentMeta(id) => (s, Meta(if id in s.names then s.EntryOf(id).meta else map[]))
    case MGetTorrents => (s, All(Listing(s)))
    case GetCrawlOffset => (s, if s.offset.Some? then Offset(s.offset.value) else Failed)
    case UpdateCrawlOffset(offset) => (s.(offset := Some(offset)), Done)
    case AddMember(r, x) => (s.WithRoster(r, s.MembersOf(r) + {x}), Done)
    case DelMember(r, x) => (s.WithRoster(r, s.MembersOf(r) - {x}), Done)
    case GetMemberExist(r, x) => (s, Flag(x in s.MembersOf(r)))
    case GetMembers(r) => (s, Members(s.MembersOf(r)))
  }

  /** The calls on which both databases keep the promise: existing ids (a read of files or meta may also
      name no torrent), non-empty images, a crawl offset that was stored before and fits its machine word. */
  ghost predicate Common(s: Catalog, c: Call) {
    match c
    case AddTorrentImage(id, image) => id in s.names && image != ""
    case AddTorrentMeta(id, _) => id in s.names
    case GetTorrentImage(id) => id in s.names
    case GetCrawlOffset => s.offset.Some?
    case UpdateCrawlOffset(offset) => offset <= UINT64_MAX
    case _ => true
  }

  /** An id may be handed out if it is positive and stands for nothing yet. */
  ghost predicate FreshFor(s: Catalog, newId: int) { newId > 0 && newId !in s.names }

  lemma StillValid(s: Catalog, t: Catalog)
    requires s.Valid() && t.names == s.names && t.torrents.Keys == s.torrents.Keys
    ensures t.Valid()
  {
    forall n | n in t.torrents ensures t.Known(n) {
      assert s.Known(n);
      var i :| i in s.names && s.names[i] == n;
      assert t.names[i] == n;
    }
  }

  lemma AddedValid(s: Catalog, t: Catalog, newId: int, name: string)
    requires s.Valid() && FreshFor(s, newId) && !s.Known(name)
    requires t.names == s.names[newId := name] && t.torrents.Keys == s.torrents.Keys + {name}
    ensures t.Valid()
  {
    forall n | n in t.torrents ensures t.Known(n) {
      if n == name {
        assert t.names[newId] == n;
      } else {
        assert s.Known(n);
        var i :| i in s.names && s.names[i] == n;
        assert t.names[i] == n;
      }
    }
  }

  /** A call keeps the ids one-to-one and never takes an id away or lets it stand for another torrent. */
  lemma StepValid(s: Catalog, c: Call, newId: int)
    requires s.Valid() && FreshFor(s, newId)
    ensures Step(s, c, newId).0.Valid()
    ensures forall i :: i in s.names ==> i in Step(s, c, newId).0.names && Step(s, c, newId).0.names[i] == s.names[i]
  {
    var t := Step(s, c, newId).0;
    if c.AddTorrent? && !s.Known(c.name) {
      AddedValid(s, t, newId, c.name);
    } else {
      StillValid(s, t);
    }
  }

  // ----- What was written is read back

  /** A member is there after it was added and gone after it was deleted; nothing else changes in either list. */
  lemma MembersReadBack(s: Catalog, r: Roster, x: Int64, q: Roster, y: Int64)
    requires s.Valid()
    ensures var t := Step(s, AddMember(r, x), 0).0;
            && t.Valid()
            && Step(t, GetMemberExist(q, y), 0).1 == Flag(y in s.MembersOf(q) || (q == r && y == x))
            && Step(t, GetMembers(q), 0).1 == Members(s.MembersOf(q) + if q == r then {x} else {})
    ensures var t := Step(s, DelMember(r, x), 0).0;
            && t.Valid()
            && Step(t, GetMemberExist(q, y), 0).1 == Flag(y in s.MembersOf(q) && !(q == r && y == x))
            && Step(t, GetMembers(q), 0).1 == Members(s.MembersOf(q) - if q == r then {x} else {})
  {
    StillValid(s, Step(s, AddMember(r, x), 0).0);
    StillValid(s, Step(s, DelMember(r, x), 0).0);
  }

  lemma OffsetReadBack(s: Catalog, offset: nat)
    requires s.Valid()
    ensures var t := Step(s, UpdateCrawlOffset(offset), 0).0;
            t.Valid() && Step(t, GetCrawlOffset, 0).1 == Offset(offset) && t.(offset := s.offset) == s
  {
    StillValid(s, Step(s, UpdateCrawlOffset(offset), 0).0);
  }

  /** After AddTorrent its name is found under the id it answered; the files there are those given and, if the name
      was known, those it had; every other name is found as before. */
  lemma TorrentReadBack(s: Catalog, name: string, data: Bytes, files: seq<string>, newId: Int64, n: string)
    requires s.Valid() && FreshFor(s, newId) && forall i :: i in s.names ==> INT64_MIN <= i <= INT64_MAX
    ensures var (t, a) := Step(s, AddTorrent(name, data, files), newId);
            && t.Valid() && a.Id? && INT64_MIN <= a.id <= INT64_MAX
            && Step(t, GetTorrent(name), 0).1 == a
            && (n != name ==> Step(t, GetTorrent(n), 0).1 == Step(s, GetTorrent(n), 0).1)
            && Step(t, CheckTorrent(a.id), 0).1 == Flag(true)
            && (s.Known(name) ==> Step(s, GetTorrent(name), 0).1 == a)
            && Step(t, GetTorrentFiles(a.id), 0).1
               == Files((if s.Known(name) then s.EntryOf(s.IdOf(name)).files else {}) + ToSet(files))
            && DBTorrent(a.id, name, data, if s.Known(name) then s.EntryOf(s.IdOf(name)).image else "") in Listing(t)
  {
    StepValid(s, AddTorrent(name, data, files), newId);
    var (t, a) := Step(s, AddTorrent(name, data, files), newId);
    if n != name { OthersFound(s, name, data, files, newId, n); }
    assert a.id in t.names && t.names[a.id] == name;
    assert {} + ToSet(files) == ToSet(files);
  }

  lemma OthersFound(s: Catalog, name: string, data: Bytes, files: seq<string>, newId: int, n: string)
    requires s.Valid() && FreshFor(s, newId) && n != name
    ensures Step(s, AddTorrent(name, data, files), newId).0.IdOf(n) == s.IdOf(n)
  {
    var t := Step(s, AddTorrent(name, data, files), newId).0;
    StepValid(s, AddTorrent(name, data, files), newId);
    if s.Known(n) { assert t.names[s.IdOf(n)] == n; }
    if t.Known(n) { assert s.names[t.IdOf(n)] == n; }
  }

  /** What is read of a torrent by its id. */
  lemma Reads(s: Catalog, id: Int64)
    requires s.Valid() && id in s.names
    ensures s.names[id] in s.torrents
    ensures Step(s, GetTorrentImage(id), 0).1 == Image(s.EntryOf(id).image)
    ensures Step(s, GetTorrentMeta(id), 0).1 == Meta(s.EntryOf(id).meta)
    ensures Step(s, GetTorrentFiles(id), 0).1 == Files(s.EntryOf(id).files)
  {
  }

  lemma ImageReadBack(s: Catalog, id: Int64, image: Bytes)
    requires s.Valid() && id in s.names
    ensures s.names[id] in s.torrents
    ensures var t := Step(s, AddTorrentImage(id, image), 0).0;
            && t.Valid() && Step(t, GetTorrentImage(id), 0).1 == Image(image)
            && Step(t, GetTorrentMeta(id), 0).1 == Meta(s.EntryOf(id).meta)
            && Step(t, GetTorrentFiles(id), 0).1 == Files(s.EntryOf(id).files)
  {
    Reads(s, id);
    var e := s.EntryOf(id).(image := image);
    PutValid(s, id, e);
    assert Step(s, AddTorrentImage(id, image), 0).0 == s.Put(id, e);
    hide Step, Catalog.Valid;
    Reads(s.Put(id, e), id);
  }

  /** The metadata given is merged over what was there. */
  lemma MetaReadBack(s: Catalog, id: Int64, meta: map<string, string>)
    requires s.Valid() && id in s.names
    ensures s.names[id] in s.torrents
    ensures var t := Step(s, AddTorrentMeta(id, meta), 0).0;
            && t.Valid() && Step(t, GetTorrentMeta(id), 0).1 == Meta(s.EntryOf(id).meta + meta)
            && Step(t, GetTorrentImage(id), 0).1 == Image(s.EntryOf(id).image)
            && Step(t, GetTorrentFiles(id), 0).1 == Files(s.EntryOf(id).files)
  {
    Reads(s, id);
    var e := s.EntryOf(id).(meta := s.EntryOf(id).meta + meta);
    PutValid(s, id, e);
    assert Step(s, AddTorrentMeta(id, meta), 0).0 == s.Put(id, e);
    hide Step, Catalog.Valid;
    Reads(s.Put(id, e), id);
  }

  // ----- Replacing and adding one torrent

  lemma PutValid(s: Catalog, id: int, e: Entry)
    requires s.Valid() && id in s.names
    ensures s.Put(id, e).Valid()
    ensures forall i :: i in s.names ==>
              s.names[i] in s.torrents && s.Put(id, e).EntryOf(i) == if i == id then e else s.EntryOf(i)
  {
    var t := s.Put(id, e);
    forall n | n in t.torrents ensures t.Known(n) {
      assert s.Known(n);
      var i :| i in s.names && s.names[i] == n;
      assert t.names[i] == n;
    }
  }

  ghost function Extended(s: Catalog, id: int, name: string, e: Entry): Catalog {
    s.(names := s.names[id := name], torrents := s.torrents[name := e])
  }

  lemma ExtendedValid(s: Catalog, id: int, name: string, e: Entry)
    requires s.Valid() && id > 0 && id !in s.names && !s.Known(name)
    ensures Extended(s, id, name, e).Valid()
    ensures forall i :: i in s.names ==> s.names[i] != name && Extended(s, id, name, e).EntryOf(i) == s.EntryOf(i)
  {
    var t := Extended(s, id, name, e);
    forall n | n in t.torrents ensures t.Known(n) {
      if n == name {
        assert t.names[id] == n;
      } else {
        assert s.Known(n);
        var i :| i in s.names && s.names[i] == n;
        assert t.names[i] == n;
      }
    }
  }
}
