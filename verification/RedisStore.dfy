/** shared/redis/db.go: the calls as commands over a flat keyspace, and the proof that they implement Store. */
module RedisStore {
  import opened Basics
  import opened Decimal
  import opened RedisServer
  import S = Store

  const CHATS := "tt_chat"
  const ADMINS := "tt_adm"
  const OFFSET := "tt_offset"
  const COUNTER := "tt_idx"
  const IDS := "tt_ti"

  function TorrentKey(name: string): string { "tt_t_" + name }
  function FilesKey(sid: string): string { "tt_t_f_" + sid }
  function MetaKey(sid: string): string { "tt_t_m_" + sid }
  function RosterKey(r: S.Roster): string { if r.Chats? then CHATS else ADMINS }

  function Text(r: Reply<Bytes>): Bytes { if r.Ok? then r.value else "" }

  // ----- The calls

  /** AddTorrent, once the id is settled: SADD of the files. */
  function AddFiles(ks: Keyspace, id: int, sid: string, files: seq<string>): (Keyspace, S.Answer) {
    if files == [] then (ks, S.Id(id))
    else match SAdd(ks, FilesKey(sid), S.ToSet(files))
      case (k, Ok(_)) => (k, S.Id(id))
      case (k, _) => (k, S.Failed)
  }

  /** AddTorrent for a name without an id: INCR, then both directions of the index. */
  function AssignId(ks: Keyspace, key: string, files: seq<string>): (Keyspace, S.Answer) {
    match Incr(ks, COUNTER)
    case (k1, Ok(id)) =>
      (match HSet(k1, key, map["idx" := FormatInt(id)])
       case (k2, Ok(_)) =>
         (match HSet(k2, IDS, map[FormatInt(id) := key])
          case (k3, Ok(_)) => AddFiles(k3, id, FormatInt(id), files)
          case (k3, _) => (k3, S.Failed))
       case (k2, _) => (k2, S.Failed))
    case (k1, _) => (k1, S.Failed)
  }

  function AddTorrent(ks: Keyspace, name: string, data: Bytes, files: seq<string>): (Keyspace, S.Answer) {
    var key := TorrentKey(name);
    match HSet(ks, key, map["name" := name, "data" := data])
    case (k1, Ok(_)) =>
      var r := HGet(k1, key, "idx");
      if r.Err? then (k1, S.Failed)
      else if Text(r) == "" then AssignId(k1, key, files)
      else
        var p := ParseInt(Text(r));
        if p.ok then AddFiles(k1, p.value, Text(r), files) else (k1, S.Failed)
    case (k1, _) => (k1, S.Failed)
  }

  function AddTorrentImage(ks: Keyspace, id: int, image: Bytes): (Keyspace, S.Answer) {
    if image == "" then (ks, S.Done)
    else
      var r := HGet(ks, IDS, FormatInt(id));
      if r.Err? then (ks, S.Failed)
      else if Text(r) == "" then (ks, S.NotFound)
      else match HSet(ks, Text(r), map["img" := image])
        case (k, Ok(_)) => (k, S.Done)
        case (k, _) => (k, S.Failed)
  }

  function AddTorrentMeta(ks: Keyspace, id: int, meta: map<string, string>): (Keyspace, S.Answer) {
    if meta == map[] then (ks, S.Done)
    else match HSet(ks, MetaKey(FormatInt(id)), meta)
      case (k, Ok(_)) => (k, S.Done)
      case (k, _) => (k, S.Failed)
  }

  function CheckTorrent(ks: Keyspace, id: int): S.Answer {
    if HashKey(ks, IDS) then S.Flag(FormatInt(id) in Fields(ks, IDS)) else S.Failed
  }

  function GetTorrent(ks: Keyspace, name: string): S.Answer {
    match HGet(ks, TorrentKey(name), "idx")
    case Ok(sid) => if ParseInt(sid).ok then S.Id(ParseInt(sid).value) else S.Failed
    case Nil => S.Id(INVALID_DB_ID)
    case Err => S.Failed
  }

  function GetTorrentFiles(ks: Keyspace, id: int): S.Answer {
    match SMembers(ks, FilesKey(FormatInt(id)))
    case Ok(files) => S.Files(files)
    case _ => S.Failed
  }

  function GetTorrentImage(ks: Keyspace, id: int): S.Answer {
    var r := HGet(ks, IDS, FormatInt(id));
    if r.Err? then S.Failed
    else if Text(r) == "" then S.NotFound
    else if HGet(ks, Text(r), "img").Err? then S.Failed
    else S.Image(Text(HGet(ks, Text(r), "img")))
  }

  function GetTorrentMeta(ks: Keyspace, id: int): S.Answer {
    match HGetAll(ks, MetaKey(FormatInt(id)))
    case Ok(meta) => S.Meta(meta)
    case _ => S.Failed
  }

  /** One record of MGetTorrents, read through the index entry `sid`. */
  function ReadRecord(ks: Keyspace, sid: string, key: string): S.DBTorrent {
    S.DBTorrent(ParseInt(sid).value, Text(HGet(ks, key, "name")), Text(HGet(ks, key, "data")),
                Text(HGet(ks, key, "img")))
  }

  function MGetTorrents(ks: Keyspace): S.Answer {
    var ids := Fields(ks, IDS);
    if !HashKey(ks, IDS) || exists sid :: sid in ids && !HashKey(ks, ids[sid]) then S.Failed
    else S.All(set sid | sid in ids :: ReadRecord(ks, sid, ids[sid]))
  }

  function GetCrawlOffset(ks: Keyspace): S.Answer {
    match Get(ks, OFFSET)
    case Nil => S.Offset(0)
    case Ok(v) => if ParseUint(v).ok && ParseUint(v).value >= 0 then S.Offset(ParseUint(v).value) else S.Failed
    case Err => S.Failed
  }

  function UpdateCrawlOffset(ks: Keyspace, offset: nat): (Keyspace, S.Answer) {
    (Set(ks, OFFSET, FormatNat(offset)), S.Done)
  }

  function AddMember(ks: Keyspace, key: string, x: int): (Keyspace, S.Answer) {
    match SAdd(ks, key, {FormatInt(x)})
    case (k, Ok(_)) => (k, S.Done)
    case (k, _) => (k, S.Failed)
  }

  function DelMember(ks: Keyspace, key: string, x: int): (Keyspace, S.Answer) {
    match SRem(ks, key, FormatInt(x))
    case (k, Ok(_)) => (k, S.Done)
    case (k, _) => (k, S.Failed)
  }

  function GetMemberExist(ks: Keyspace, key: string, x: int): S.Answer {
    if SetKey(ks, key) then S.Flag(FormatInt(x) in Elements(ks, key)) else S.Failed
  }

  /** getIntList looks at the outer error, so an entry that is not a number is listed with ParseInt's value. */
  function GetIntList(ks: Keyspace, key: string): S.Answer {
    match SMembers(ks, key)
    case Ok(ints) => S.Members(set a | a in ints :: ParseInt(a).value)
    case _ => S.Failed
  }

  /** MPutTorrent: the record under the id it already has. It writes no idx field, and sets the counter to
      this id whatever it was before. */
  function MPutTorrent(ks: Keyspace, t: S.DBTorrent, files: seq<string>): (Keyspace, S.Answer) {
    var key, sid := TorrentKey(t.name), FormatInt(t.id);
    match HSet(ks, key, map["name" := t.name, "data" := t.data, "img" := t.image])
    case (k1, Ok(_)) =>
      (match AddFiles(k1, t.id, sid, files)
       case (k2, Id(_)) =>
         (match HSet(k2, IDS, map[sid := key])
          case (k3, Ok(_)) => (Set(k3, COUNTER, sid), S.Done)
          case (k3, _) => (k3, S.Failed))
       case (k2, _) => (k2, S.Failed))
    case (k1, _) => (k1, S.Failed)
  }

  function Do(ks: Keyspace, c: S.Call): (Keyspace, S.Answer) {
    match c
    case AddTorrent(name, data, files) => AddTorrent(ks, name, data, files)
    case AddTorrentImage(id, image) => AddTorrentImage(ks, id, image)
    case AddTorrentMeta(id, meta) => AddTorrentMeta(ks, id, meta)
    case CheckTorrent(id) => (ks, CheckTorrent(ks, id))
    case GetTorrent(name) => (ks, GetTorrent(ks, name))
    case GetTorrentFiles(id) => (ks, GetTorrentFiles(ks, id))
    case GetTorrentImage(id) => (ks, GetTorrentImage(ks, id))
    case GetTorrentMeta(id) => (ks, GetTorrentMeta(ks, id))
    case MGetTorrents => (ks, MGetTorrents(ks))
    case GetCrawlOffset => (ks, GetCrawlOffset(ks))
    case UpdateCrawlOffset(offset) => UpdateCrawlOffset(ks, offset)
    case AddMember(r, x) => AddMember(ks, RosterKey(r), x)
    case DelMember(r, x) => DelMember(ks, RosterKey(r), x)
    case GetMemberExist(r, x) => (ks, GetMemberExist(ks, RosterKey(r), x))
    case GetMembers(r) => (ks, GetIntList(ks, RosterKey(r)))
  }

  // ----- Key families

  /** A torrent's key is not the files or metadata key of some id. */
  ghost predicate Safe(name: string) {
    forall id: Int64 :: name != "f_" + FormatInt(id) && name != "m_" + FormatInt(id)
  }

  ghost predicate FixedKey(key: string) {
    key in {"tt_chat", "tt_adm", "tt_offset", "tt_idx", "tt_ti"}
  }

  lemma TorrentKeyApart(name: string, other: string)
    ensures TorrentKey(name) == TorrentKey(other) ==> name == other
    ensures !FixedKey(TorrentKey(name))
    ensures TorrentKey(name) == FilesKey(other) <==> name == "f_" + other
    ensures TorrentKey(name) == MetaKey(other) <==> name == "m_" + other
  {
    assert TorrentKey(name)[5..] == name && TorrentKey(other)[5..] == other;
    assert FilesKey(other)[5..] == "f_" + other && MetaKey(other)[5..] == "m_" + other;
    assert FilesKey(other) == "tt_t_" + ("f_" + other) && MetaKey(other) == "tt_t_" + ("m_" + other);
    assert TorrentKey(name)[4] == '_' && TorrentKey(name)[3] == 't';
  }

  lemma IdKeysApart(a: string, b: string)
    ensures FilesKey(a) == FilesKey(b) ==> a == b
    ensures MetaKey(a) == MetaKey(b) ==> a == b
    ensures FilesKey(a) != MetaKey(b) && !FixedKey(FilesKey(a)) && !FixedKey(MetaKey(a))
  {
    assert FilesKey(a)[7..] == a && FilesKey(b)[7..] == b && MetaKey(a)[7..] == a && MetaKey(b)[7..] == b;
    assert FilesKey(a)[5] == 'f' && MetaKey(b)[5] == 'm' && MetaKey(a)[4] == '_' && FilesKey(a)[4] == '_';
    assert MetaKey(a)[3] == 't' && FilesKey(a)[3] == 't';
  }

  lemma IdsApart()
    ensures forall i: int, j: int :: FormatInt(i) == FormatInt(j) ==> i == j
  {
    forall i: int, j: int ensures FormatInt(i) == FormatInt(j) ==> i == j {
      if FormatInt(i) == FormatInt(j) { FormatIntInjective(i, j); }
    }
  }

  /** The families of keys are disjoint, and each key belongs to one name or one id, as long as the name
      does not itself look like a files or metadata key. */
  lemma FamiliesDisjoint(name: string, id: Int64)
    ensures forall n :: TorrentKey(name) == TorrentKey(n) ==> n == name
    ensures !FixedKey(TorrentKey(name)) && !FixedKey(FilesKey(FormatInt(id))) && !FixedKey(MetaKey(FormatInt(id)))
    ensures forall i: Int64 :: FilesKey(FormatInt(id)) == FilesKey(FormatInt(i)) ==> i == id
    ensures forall i: Int64 :: MetaKey(FormatInt(id)) == MetaKey(FormatInt(i)) ==> i == id
    ensures forall i: Int64 ::
              FilesKey(FormatInt(id)) != MetaKey(FormatInt(i)) && FilesKey(FormatInt(i)) != MetaKey(FormatInt(id))
    ensures Safe(name) ==>
              forall i: Int64 :: TorrentKey(name) != FilesKey(FormatInt(i)) && TorrentKey(name) != MetaKey(FormatInt(i))
    ensures forall n :: Safe(n) ==> TorrentKey(n) != FilesKey(FormatInt(id)) && TorrentKey(n) != MetaKey(FormatInt(id))
  {
    forall n ensures TorrentKey(name) == TorrentKey(n) ==> n == name { TorrentKeyApart(n, name); }
    TorrentKeyApart(name, "");
    IdKeysApart(FormatInt(id), "");
    forall i: Int64
      ensures FilesKey(FormatInt(id)) == FilesKey(FormatInt(i)) ==> i == id
      ensures MetaKey(FormatInt(id)) == MetaKey(FormatInt(i)) ==> i == id
      ensures FilesKey(FormatInt(id)) != MetaKey(FormatInt(i)) && FilesKey(FormatInt(i)) != MetaKey(FormatInt(id))
      ensures Safe(name) ==> TorrentKey(name) != FilesKey(FormatInt(i)) && TorrentKey(name) != MetaKey(FormatInt(i))
    {
      OneIdApart(name, id, i);
    }
    forall n ensures Safe(n) ==> TorrentKey(n) != FilesKey(FormatInt(id)) && TorrentKey(n) != MetaKey(FormatInt(id)) {
      TorrentKeyApart(n, FormatInt(id));
    }
  }

  lemma OneIdApart(name: string, id: Int64, i: Int64)
    ensures FilesKey(FormatInt(id)) == FilesKey(FormatInt(i)) ==> i == id
    ensures MetaKey(FormatInt(id)) == MetaKey(FormatInt(i)) ==> i == id
    ensures FilesKey(FormatInt(id)) != MetaKey(FormatInt(i)) && FilesKey(FormatInt(i)) != MetaKey(FormatInt(id))
    ensures Safe(name) ==> TorrentKey(name) != FilesKey(FormatInt(i)) && TorrentKey(name) != MetaKey(FormatInt(i))
  {
    IdKeysApart(FormatInt(id), FormatInt(i));
    IdKeysApart(FormatInt(i), FormatInt(id));
    TorrentKeyApart(name, FormatInt(i));
    if FormatInt(i) == FormatInt(id) { FormatIntInjective(i, id); }
  }

  // ----- The representation

  /** The counter key holds `n`, the number of ids handed out. */
  ghost predicate CounterIs(ks: Keyspace, n: nat) {
    if COUNTER in ks then ks[COUNTER] == Str(FormatInt(n)) else n == 0
  }

  /** tt_ti: exactly the ids of the store, each leading to its torrent's key. */
  ghost predicate IndexIs(ks: Keyspace, names: map<int, string>) {
    && HashKey(ks, IDS)
    && (forall id: int :: FormatInt(id) in Fields(ks, IDS) <==> id in names)
    && (forall id: int :: id in names ==> Fields(ks, IDS)[FormatInt(id)] == TorrentKey(names[id]))
    && (forall sid :: sid in Fields(ks, IDS) ==> exists id: int :: id in names && sid == FormatInt(id))
  }

  /** The record of a torrent, with its id: the other direction of the index. */
  ghost predicate RecordIs(f: map<string, Bytes>, id: int, name: string, e: S.Entry) {
    && "name" in f && f["name"] == name
    && "data" in f && f["data"] == e.data
    && "idx" in f && f["idx"] == FormatInt(id)
    && (if "img" in f then f["img"] else "") == e.image
  }

  ghost predicate RecordsAre(ks: Keyspace, s: S.Catalog)
    requires s.Valid()
  {
    && (forall n :: Safe(n) ==> HashKey(ks, TorrentKey(n)) && (n in s.torrents || TorrentKey(n) !in ks))
    && (forall n :: n in s.torrents ==> Safe(n))
    && (forall id: int :: id in s.names ==>
        RecordIs(Fields(ks, TorrentKey(s.names[id])), id, s.names[id], s.EntryOf(id)))
  }

  ghost predicate FilesAre(ks: Keyspace, s: S.Catalog)
    requires s.Valid()
  {
    forall id: Int64 :: SetKey(ks, FilesKey(FormatInt(id))) &&
      Elements(ks, FilesKey(FormatInt(id))) == if id in s.names then s.EntryOf(id).files else {}
  }

  ghost predicate MetaIs(ks: Keyspace, s: S.Catalog)
    requires s.Valid()
  {
    forall id: Int64 :: HashKey(ks, MetaKey(FormatInt(id))) &&
      Fields(ks, MetaKey(FormatInt(id))) == if id in s.names then s.EntryOf(id).meta else map[]
  }

  ghost predicate RosterIs(ks: Keyspace, key: string, xs: set<int>) {
    && SetKey(ks, key)
    && (forall x: int :: FormatInt(x) in Elements(ks, key) <==> x in xs)
    && (forall a :: a in Elements(ks, key) ==> exists x: int :: x in xs && a == FormatInt(x))
    && (forall x :: x in xs ==> INT64_MIN <= x <= INT64_MAX)
  }

  ghost predicate OffsetIs(ks: Keyspace, offset: Option<nat>) {
    if OFFSET in ks then offset.Some? && offset.value <= UINT64_MAX && ks[OFFSET] == Str(FormatNat(offset.value))
    else offset.None?
  }

  /** The keyspace lays out the store: the families are disjoint, name-to-id and id-to-name agree, and the
      counter bounds every id. */
  ghost predicate Represents(ks: Keyspace, s: S.Catalog) {
    && s.Valid()
    && CounterIs(ks, |s.names|) && |s.names| <= INT64_MAX && (forall id :: id in s.names ==> 1 <= id <= |s.names|)
    && IndexIs(ks, s.names) && RecordsAre(ks, s) && FilesAre(ks, s) && MetaIs(ks, s)
    && RosterIs(ks, CHATS, s.chats) && RosterIs(ks, ADMINS, s.admins)
    && OffsetIs(ks, s.offset)
  }

  // ----- Frames: what a change of a few keys does to the representation

  ghost predicate Same(ks: Keyspace, k: Keyspace, key: string) {
    (key in ks <==> key in k) && (key in ks ==> ks[key] == k[key])
  }

  ghost predicate SameBut(ks: Keyspace, k: Keyspace, keys: set<string>) {
    forall key :: key !in keys ==> Same(ks, k, key)
  }

  ghost predicate HoldsEntry(k: Keyspace, id: int, name: string, e: S.Entry) {
    var sid := FormatInt(id);
    && HashKey(k, TorrentKey(name)) && RecordIs(Fields(k, TorrentKey(name)), id, name, e)
    && SetKey(k, FilesKey(sid)) && Elements(k, FilesKey(sid)) == e.files
    && HashKey(k, MetaKey(sid)) && Fields(k, MetaKey(sid)) == e.meta
  }

  lemma NameSafe(ks: Keyspace, s: S.Catalog, id: int)
    requires s.Valid() && RecordsAre(ks, s) && id in s.names
    ensures Safe(s.names[id])
  {
  }

  lemma PutRecords(ks: Keyspace, s: S.Catalog, k: Keyspace, id: Int64, e: S.Entry)
    requires s.Valid() && RecordsAre(ks, s) && id in s.names && HoldsEntry(k, id, s.names[id], e)
    requires SameBut(ks, k, {TorrentKey(s.names[id]), FilesKey(FormatInt(id)), MetaKey(FormatInt(id))})
    ensures s.Put(id, e).Valid() && RecordsAre(k, s.Put(id, e))
  {
    hide FormatInt, TorrentKey, FilesKey, MetaKey, Safe, FixedKey, RecordIs, S.Catalog.Valid;
    S.PutValid(s, id, e);
    FamiliesDisjoint(s.names[id], id);
    var t := s.Put(id, e);
    assert t.names == s.names && t.torrents.Keys == s.torrents.Keys;
    forall n | Safe(n) ensures HashKey(k, TorrentKey(n)) && (n in t.torrents || TorrentKey(n) !in k) {
      if n != s.names[id] { assert Same(ks, k, TorrentKey(n)); }
    }
    forall i: int | i in t.names ensures RecordIs(Fields(k, TorrentKey(t.names[i])), i, t.names[i], t.EntryOf(i)) {
      if i != id { assert Same(ks, k, TorrentKey(s.names[i])); }
    }
  }

  lemma PutFiles(ks: Keyspace, s: S.Catalog, k: Keyspace, id: Int64, e: S.Entry)
    requires s.Valid() && FilesAre(ks, s) && id in s.names && HoldsEntry(k, id, s.names[id], e) && Safe(s.names[id])
    requires SameBut(ks, k, {TorrentKey(s.names[id]), FilesKey(FormatInt(id)), MetaKey(FormatInt(id))})
    ensures s.Put(id, e).Valid() && FilesAre(k, s.Put(id, e))
  {
    hide FormatInt, TorrentKey, FilesKey, MetaKey, Safe, FixedKey, RecordIs, S.Catalog.Valid;
    S.PutValid(s, id, e);
    FamiliesDisjoint(s.names[id], id);
    var t := s.Put(id, e);
    forall i: Int64
      ensures SetKey(k, FilesKey(FormatInt(i)))
      ensures Elements(k, FilesKey(FormatInt(i))) == if i in t.names then t.EntryOf(i).files else {}
    {
      if i != id { assert Same(ks, k, FilesKey(FormatInt(i))); }
    }
  }

  lemma PutMeta(ks: Keyspace, s: S.Catalog, k: Keyspace, id: Int64, e: S.Entry)
    requires s.Valid() && MetaIs(ks, s) && id in s.names && HoldsEntry(k, id, s.names[id], e) && Safe(s.names[id])
    requires SameBut(ks, k, {TorrentKey(s.names[id]), FilesKey(FormatInt(id)), MetaKey(FormatInt(id))})
    ensures s.Put(id, e).Valid() && MetaIs(k, s.Put(id, e))
  {
    hide FormatInt, TorrentKey, FilesKey, MetaKey, Safe, FixedKey, RecordIs, S.Catalog.Valid;
    S.PutValid(s, id, e);
    FamiliesDisjoint(s.names[id], id);
    var t := s.Put(id, e);
    forall i: Int64
      ensures HashKey(k, MetaKey(FormatInt(i)))
      ensures Fields(k, MetaKey(FormatInt(i))) == if i in t.names then t.EntryOf(i).meta else map[]
    {
      if i != id { assert Same(ks, k, MetaKey(FormatInt(i))); }
    }
  }

  /** Rewriting the record, files and metadata of one torrent is a Put on the store. */
  lemma PutRefines(ks: Keyspace, s: S.Catalog, k: Keyspace, id: Int64, e: S.Entry)
    requires Represents(ks, s) && id in s.names && HoldsEntry(k, id, s.names[id], e)
    requires SameBut(ks, k, {TorrentKey(s.names[id]), FilesKey(FormatInt(id)), MetaKey(FormatInt(id))})
    ensures s.Put(id, e).Valid() && Represents(k, s.Put(id, e))
  {
    hide FormatInt, TorrentKey, FilesKey, MetaKey, Safe, HoldsEntry, RecordsAre, FilesAre, MetaIs, S.Catalog.Valid;
    NameSafe(ks, s, id);
    PutRecords(ks, s, k, id, e);
    PutFiles(ks, s, k, id, e);
    PutMeta(ks, s, k, id, e);
    FamiliesDisjoint(s.names[id], id);
    assert Same(ks, k, IDS) && Same(ks, k, COUNTER) && Same(ks, k, OFFSET) && Same(ks, k, CHATS) && Same(ks, k, ADMINS);
  }

  lemma NewIndex(ks: Keyspace, names: map<int, string>, k: Keyspace, id: int, name: string)
    requires IndexIs(ks, names) && id !in names
    requires IDS in k && k[IDS] == Hash(Fields(ks, IDS)[FormatInt(id) := TorrentKey(name)])
    ensures IndexIs(k, names[id := name])
  {
    hide FormatInt, TorrentKey;
    IdsApart();
    var t := names[id := name];
    forall sid | sid in Fields(k, IDS) ensures exists i: int :: i in t && sid == FormatInt(i) {
      if sid == FormatInt(id) {
        assert id in t;
      } else {
        var i: int :| i in names && sid == FormatInt(i);
        assert i in t;
      }
    }
  }

  lemma ExtendedRecords(ks: Keyspace, s: S.Catalog, k: Keyspace, id: Int64, name: string, e: S.Entry)
    requires s.Valid() && RecordsAre(ks, s) && id > 0 && id !in s.names && !s.Known(name) && Safe(name)
    requires HoldsEntry(k, id, name, e)
    requires SameBut(ks, k, {TorrentKey(name), FilesKey(FormatInt(id)), MetaKey(FormatInt(id)), IDS, COUNTER})
    ensures S.Extended(s, id, name, e).Valid() && RecordsAre(k, S.Extended(s, id, name, e))
  {
    hide FormatInt, TorrentKey, FilesKey, MetaKey, Safe, RecordIs, S.Catalog.Valid;
    S.ExtendedValid(s, id, name, e);
    FamiliesDisjoint(name, id);
    forall n ensures !FixedKey(TorrentKey(n)) { TorrentKeyApart(n, ""); }
    var t := S.Extended(s, id, name, e);
    forall n | Safe(n) ensures HashKey(k, TorrentKey(n)) && (n in t.torrents || TorrentKey(n) !in k) {
      if n != name { assert Same(ks, k, TorrentKey(n)); }
    }
    forall i: int | i in t.names ensures RecordIs(Fields(k, TorrentKey(t.names[i])), i, t.names[i], t.EntryOf(i)) {
      if i != id {
        assert s.names[i] in s.torrents;
        assert Same(ks, k, TorrentKey(s.names[i]));
      }
    }
  }

  lemma ExtendedFiles(ks: Keyspace, s: S.Catalog, k: Keyspace, id: Int64, name: string, e: S.Entry)
    requires s.Valid() && FilesAre(ks, s) && MetaIs(ks, s) && id > 0 && id !in s.names && !s.Known(name) && Safe(name)
    requires HoldsEntry(k, id, name, e)
    requires SameBut(ks, k, {TorrentKey(name), FilesKey(FormatInt(id)), MetaKey(FormatInt(id)), IDS, COUNTER})
    ensures S.Extended(s, id, name, e).Valid() && FilesAre(k, S.Extended(s, id, name, e))
            && MetaIs(k, S.Extended(s, id, name, e))
  {
    hide FormatInt, TorrentKey, FilesKey, MetaKey, Safe, RecordIs, S.Catalog.Valid;
    S.ExtendedValid(s, id, name, e);
    FamiliesDisjoint(name, id);
    forall i: Int64 ensures !FixedKey(FilesKey(FormatInt(i))) && !FixedKey(MetaKey(FormatInt(i))) {
      IdKeysApart(FormatInt(i), "");
    }
    var t := S.Extended(s, id, name, e);
    forall i: Int64
      ensures SetKey(k, FilesKey(FormatInt(i))) && HashKey(k, MetaKey(FormatInt(i)))
      ensures Elements(k, FilesKey(FormatInt(i))) == if i in t.names then t.EntryOf(i).files else {}
      ensures Fields(k, MetaKey(FormatInt(i))) == if i in t.names then t.EntryOf(i).meta else map[]
    {
      if i != id {
        assert Same(ks, k, FilesKey(FormatInt(i)));
        assert Same(ks, k, MetaKey(FormatInt(i)));
      }
    }
  }

  /** Writing a new torrent under the next id extends the store by it. */
  lemma ExtendRefines(ks: Keyspace, s: S.Catalog, k: Keyspace, name: string, e: S.Entry)
    requires Represents(ks, s) && !s.Known(name) && Safe(name) && |s.names| < INT64_MAX
    requires HoldsEntry(k, |s.names| + 1, name, e)
    requires IDS in k && k[IDS] == Hash(Fields(ks, IDS)[FormatInt(|s.names| + 1) := TorrentKey(name)])
    requires COUNTER in k && k[COUNTER] == Str(FormatInt(|s.names| + 1))
    requires var sid := FormatInt(|s.names| + 1);
             SameBut(ks, k, {TorrentKey(name), FilesKey(sid), MetaKey(sid), IDS, COUNTER})
    ensures S.Extended(s, |s.names| + 1, name, e).Valid() && Represents(k, S.Extended(s, |s.names| + 1, name, e))
  {
    hide FormatInt, TorrentKey, FilesKey, MetaKey, Safe, HoldsEntry, RecordsAre, FilesAre, MetaIs, IndexIs,
         S.Catalog.Valid;
    var id := |s.names| + 1;
    assert id !in s.names;
    ExtendedRecords(ks, s, k, id, name, e);
    ExtendedFiles(ks, s, k, id, name, e);
    NewIndex(ks, s.names, k, id, name);
    FamiliesDisjoint(name, id);
    assert Same(ks, k, OFFSET) && Same(ks, k, CHATS) && Same(ks, k, ADMINS);
    assert |s.names[id := name]| == |s.names| + 1;
  }

  /** Changing one of the plain keys leaves the torrents as they are. */
  lemma FixedRefines(ks: Keyspace, s: S.Catalog, k: Keyspace, t: S.Catalog, key: string)
    requires Represents(ks, s) && FixedKey(key) && key != IDS && key != COUNTER && SameBut(ks, k, {key})
    requires t.names == s.names && t.torrents == s.torrents
    ensures t.Valid() && CounterIs(k, |t.names|) && IndexIs(k, t.names) && RecordsAre(k, t) && FilesAre(k, t)
            && MetaIs(k, t)
  {
    hide FormatInt, TorrentKey, FilesKey, MetaKey, Safe, RecordsAre, FilesAre, MetaIs, S.Catalog.Valid;
    SameTorrentsValid(s, t);
    FixedTorrents(ks, s, k, t, key);
    FixedFiles(ks, s, k, t, key);
    assert Same(ks, k, IDS) && Same(ks, k, COUNTER);
  }

  lemma SameTorrentsValid(s: S.Catalog, t: S.Catalog)
    requires s.Valid() && t.names == s.names && t.torrents == s.torrents
    ensures t.Valid() && forall i :: i in s.names ==> s.names[i] in s.torrents
  {
    forall n | n in t.torrents ensures t.Known(n) {
      assert s.Known(n);
      var i :| i in s.names && s.names[i] == n;
      assert t.names[i] == n;
    }
  }

  lemma FixedTorrents(ks: Keyspace, s: S.Catalog, k: Keyspace, t: S.Catalog, key: string)
    requires s.Valid() && t.Valid() && RecordsAre(ks, s) && FixedKey(key) && SameBut(ks, k, {key})
    requires t.names == s.names && t.torrents == s.torrents
    ensures RecordsAre(k, t)
  {
    hide FormatInt, TorrentKey, FilesKey, MetaKey, Safe, FixedKey, RecordIs, S.Catalog.Valid;
    SameTorrentsValid(s, t);
    forall n ensures Same(ks, k, TorrentKey(n)) { TorrentKeyApart(n, ""); }
    forall i: int | i in t.names ensures RecordIs(Fields(k, TorrentKey(t.names[i])), i, t.names[i], t.EntryOf(i)) {
      assert Same(ks, k, TorrentKey(s.names[i]));
    }
  }

  lemma FixedFiles(ks: Keyspace, s: S.Catalog, k: Keyspace, t: S.Catalog, key: string)
    requires s.Valid() && t.Valid() && FilesAre(ks, s) && MetaIs(ks, s) && FixedKey(key) && SameBut(ks, k, {key})
    requires t.names == s.names && t.torrents == s.torrents
    ensures FilesAre(k, t) && MetaIs(k, t)
  {
    hide FormatInt, TorrentKey, FilesKey, MetaKey, Safe, FixedKey, S.Catalog.Valid;
    forall i: Int64
      ensures Same(ks, k, FilesKey(FormatInt(i))) && Same(ks, k, MetaKey(FormatInt(i)))
    {
      IdKeysApart(FormatInt(i), "");
    }
    SameTorrentsValid(s, t);
  }

  // ----- Refinement, call by call

  lemma IdParses(ks: Keyspace, s: S.Catalog, id: int)
    requires Represents(ks, s) && id in s.names
    ensures ParseInt(FormatInt(id)) == Parsed(id, true) && FormatInt(id) != ""
  {
    FormatIntRoundTrip(id);
  }

  /** What Represents says of one torrent. */
  lemma EntryHeld(ks: Keyspace, s: S.Catalog, id: int)
    requires Represents(ks, s) && id in s.names
    ensures INT64_MIN <= id <= INT64_MAX && s.names[id] in s.torrents && Safe(s.names[id])
            && HoldsEntry(ks, id, s.names[id], s.EntryOf(id))
    ensures HashKey(ks, IDS) && FormatInt(id) in Fields(ks, IDS)
            && Fields(ks, IDS)[FormatInt(id)] == TorrentKey(s.names[id])
    ensures TorrentKey(s.names[id]) != ""
  {
    hide FormatInt, FilesKey, MetaKey;
  }

  lemma AddKnown(ks: Keyspace, id: Int64, name: string, e: S.Entry, data: Bytes, files: seq<string>)
    requires HoldsEntry(ks, id, name, e) && Safe(name) && ParseInt(FormatInt(id)) == Parsed(id, true)
             && FormatInt(id) != ""
    ensures var (k, a) := AddTorrent(ks, name, data, files);
            && a == S.Id(id) && SameBut(ks, k, {TorrentKey(name), FilesKey(FormatInt(id)), MetaKey(FormatInt(id))})
            && HoldsEntry(k, id, name, e.(data := data, files := e.files + S.ToSet(files)))
  {
    hide FormatInt, TorrentKey, FilesKey, MetaKey, Safe, FixedKey, ParseInt;
    FamiliesDisjoint(name, id);
    assert files == [] ==> S.ToSet(files) == {};
    var f := Fields(ks, TorrentKey(name)) + map["name" := name, "data" := data];
    assert HGet(HSet(ks, TorrentKey(name), map["name" := name, "data" := data]).0, TorrentKey(name), "idx")
           == Ok(FormatInt(id));
  }

  /** AddTorrent of a known name: the record's data and the id's files change, nothing else. */
  lemma AddKnownRefines(ks: Keyspace, s: S.Catalog, name: string, data: Bytes, files: seq<string>, newId: int)
    requires Represents(ks, s) && s.Known(name)
    ensures var (k, a) := AddTorrent(ks, name, data, files);
            var (t, b) := S.Step(s, S.AddTorrent(name, data, files), newId);
            a == b && t.Valid() && Represents(k, t)
  {
    hide FormatInt, TorrentKey, FilesKey, MetaKey, ParseInt, Represents, HoldsEntry, AddTorrent, SameBut;
    var id := s.IdOf(name);
    EntryHeld(ks, s, id);
    IdParses(ks, s, id);
    var e := s.EntryOf(id);
    AddKnown(ks, id, name, e, data, files);
    PutRefines(ks, s, AddTorrent(ks, name, data, files).0, id, e.(data := data, files := e.files + S.ToSet(files)));
  }

  lemma CounterNext(ks: Keyspace, n: nat)
    requires CounterIs(ks, n) && n < INT64_MAX
    ensures Incr(ks, COUNTER) == (ks[COUNTER := Str(FormatInt(n + 1))], Ok(n + 1))
  {
    hide FormatInt, ParseInt;
    FormatIntRoundTrip(n);
  }

  ghost function FreshFields(sid: string, name: string, data: Bytes): map<string, Bytes> {
    map["name" := name, "data" := data, "idx" := sid]
  }

  ghost function StartFields(name: string, data: Bytes): map<string, Bytes> { map["name" := name, "data" := data] }

  /** AssignId up to the files: the next id and both index directions. */
  lemma Assign(k1: Keyspace, key: string, name: string, data: Bytes, files: seq<string>, n: nat)
    requires CounterIs(k1, n) && n < INT64_MAX && HashKey(k1, IDS) && !FixedKey(key)
    requires key in k1 && k1[key] == Hash(StartFields(name, data))
    ensures var sid := FormatInt(n + 1);
            var ids := Hash(Fields(k1, IDS)[sid := key]);
            var k4 := k1[COUNTER := Str(sid)][key := Hash(FreshFields(sid, name, data))][IDS := ids];
            AssignId(k1, key, files) == AddFiles(k4, n + 1, sid, files)
  {
    hide FormatInt, ParseInt, Incr, AddFiles;
    var sid := FormatInt(n + 1);
    CounterNext(k1, n);
    var k2 := k1[COUNTER := Str(sid)];
    assert StartFields(name, data) + map["idx" := sid] == FreshFields(sid, name, data);
    var k3 := k2[key := Hash(FreshFields(sid, name, data))];
    assert HSet(k2, key, map["idx" := sid]) == (k3, Ok(()));
    assert Fields(k1, IDS) + map[sid := key] == Fields(k1, IDS)[sid := key];
    assert HSet(k3, IDS, map[sid := key]) == (k3[IDS := Hash(Fields(k1, IDS)[sid := key])], Ok(()));
  }

  lemma StartNew(ks: Keyspace, name: string, data: Bytes, files: seq<string>)
    requires TorrentKey(name) !in ks
    ensures AddTorrent(ks, name, data, files)
         == AssignId(ks[TorrentKey(name) := Hash(StartFields(name, data))], TorrentKey(name), files)
  {
    hide TorrentKey, AssignId, ParseInt;
    assert map[] + StartFields(name, data) == StartFields(name, data);
  }

  lemma AddNew(ks: Keyspace, name: string, data: Bytes, files: seq<string>, n: nat)
    requires CounterIs(ks, n) && n < INT64_MAX && HashKey(ks, IDS) && Safe(name) && TorrentKey(name) !in ks
    requires var sid := FormatInt(n + 1);
             SetKey(ks, FilesKey(sid)) && Elements(ks, FilesKey(sid)) == {} &&
             HashKey(ks, MetaKey(sid)) && Fields(ks, MetaKey(sid)) == map[]
    ensures var (k, a) := AddTorrent(ks, name, data, files);
            var sid := FormatInt(n + 1);
            && a == S.Id(n + 1) && HoldsEntry(k, n + 1, name, S.Entry(data, "", S.ToSet(files), map[]))
            && IDS in k && k[IDS] == Hash(Fields(ks, IDS)[sid := TorrentKey(name)])
            && COUNTER in k && k[COUNTER] == Str(sid)
            && SameBut(ks, k, {TorrentKey(name), FilesKey(sid), MetaKey(sid), IDS, COUNTER})
  {
    hide FormatInt, TorrentKey, FilesKey, MetaKey, Safe, AddTorrent, AssignId, RecordIs, FreshFields;
    FamiliesDisjoint(name, n + 1);
    StartNew(ks, name, data, files);
    Assign(ks[TorrentKey(name) := Hash(StartFields(name, data))], TorrentKey(name), name, data, files, n);
    assert files == [] ==> S.ToSet(files) == {};
    FreshRecord(n + 1, name, data, files);
  }

  lemma FreshRecord(id: int, name: string, data: Bytes, files: seq<string>)
    ensures RecordIs(FreshFields(FormatInt(id), name, data), id, name, S.Entry(data, "", S.ToSet(files), map[]))
  {
    hide FormatInt;
  }

  /** What Represents says of a name and an id that are not in use. */
  lemma Unused(ks: Keyspace, s: S.Catalog, name: string)
    requires Represents(ks, s) && Safe(name) && !s.Known(name) && |s.names| < INT64_MAX
    ensures |s.names| + 1 !in s.names && TorrentKey(name) !in ks && HashKey(ks, IDS) && CounterIs(ks, |s.names|)
    ensures var sid := FormatInt(|s.names| + 1);
            SetKey(ks, FilesKey(sid)) && Elements(ks, FilesKey(sid)) == {} &&
            HashKey(ks, MetaKey(sid)) && Fields(ks, MetaKey(sid)) == map[]
  {
    hide FormatInt, TorrentKey, FilesKey, MetaKey, Safe;
    var id: Int64 := |s.names| + 1;
    assert id !in s.names;
  }

  lemma AddNewRefines(ks: Keyspace, s: S.Catalog, name: string, data: Bytes, files: seq<string>)
    requires Represents(ks, s) && Safe(name) && !s.Known(name) && |s.names| < INT64_MAX
    ensures var (k, a) := AddTorrent(ks, name, data, files);
            var (t, b) := S.Step(s, S.AddTorrent(name, data, files), |s.names| + 1);
            a == b && t.Valid() && Represents(k, t)
  {
    hide FormatInt, TorrentKey, FilesKey, MetaKey, ParseInt, Represents, HoldsEntry, AddTorrent, SameBut, CounterIs;
    Unused(ks, s, name);
    AddNew(ks, name, data, files, |s.names|);
    ExtendRefines(ks, s, AddTorrent(ks, name, data, files).0, name, S.Entry(data, "", S.ToSet(files), map[]));
  }

  lemma SetImage(ks: Keyspace, id: Int64, name: string, e: S.Entry, image: Bytes)
    requires HoldsEntry(ks, id, name, e) && Safe(name) && image != "" && TorrentKey(name) != ""
    requires HashKey(ks, IDS) && FormatInt(id) in Fields(ks, IDS) && Fields(ks, IDS)[FormatInt(id)] == TorrentKey(name)
    ensures var (k, a) := AddTorrentImage(ks, id, image);
            && a == S.Done && SameBut(ks, k, {TorrentKey(name), FilesKey(FormatInt(id)), MetaKey(FormatInt(id))})
            && HoldsEntry(k, id, name, e.(image := image))
  {
    hide FormatInt, TorrentKey, FilesKey, MetaKey, Safe;
    FamiliesDisjoint(name, id);
  }

  lemma ImageRefines(ks: Keyspace, s: S.Catalog, id: Int64, image: Bytes)
    requires Represents(ks, s) && id in s.names && image != ""
    ensures var (k, a) := AddTorrentImage(ks, id, image);
            var (t, b) := S.Step(s, S.AddTorrentImage(id, image), 0);
            a == b && t.Valid() && Represents(k, t)
  {
    hide FormatInt, TorrentKey, FilesKey, MetaKey, Represents, HoldsEntry, AddTorrentImage, SameBut;
    EntryHeld(ks, s, id);
    SetImage(ks, id, s.names[id], s.EntryOf(id), image);
    PutRefines(ks, s, AddTorrentImage(ks, id, image).0, id, s.EntryOf(id).(image := image));
  }

  lemma SetMeta(ks: Keyspace, id: Int64, name: string, e: S.Entry, meta: map<string, string>)
    requires HoldsEntry(ks, id, name, e) && Safe(name)
    ensures var (k, a) := AddTorrentMeta(ks, id, meta);
            && a == S.Done && SameBut(ks, k, {TorrentKey(name), FilesKey(FormatInt(id)), MetaKey(FormatInt(id))})
            && HoldsEntry(k, id, name, e.(meta := e.meta + meta))
  {
    hide FormatInt, TorrentKey, FilesKey, MetaKey, Safe, RecordIs;
    FamiliesDisjoint(name, id);
    assert meta == map[] ==> e.meta + meta == e.meta;
    SameRecord(Fields(ks, TorrentKey(name)), id, name, e, e.(meta := e.meta + meta));
  }

  lemma SameRecord(f: map<string, Bytes>, id: int, name: string, e: S.Entry, e': S.Entry)
    requires RecordIs(f, id, name, e) && e.data == e'.data && e.image == e'.image
    ensures RecordIs(f, id, name, e')
  {
    hide FormatInt;
  }

  lemma MetaRefines(ks: Keyspace, s: S.Catalog, id: Int64, meta: map<string, string>)
    requires Represents(ks, s) && id in s.names
    ensures var (k, a) := AddTorrentMeta(ks, id, meta);
            var (t, b) := S.Step(s, S.AddTorrentMeta(id, meta), 0);
            a == b && t.Valid() && Represents(k, t)
  {
    hide FormatInt, TorrentKey, FilesKey, MetaKey, Represents, HoldsEntry, AddTorrentMeta, SameBut;
    EntryHeld(ks, s, id);
    SetMeta(ks, id, s.names[id], s.EntryOf(id), meta);
    PutRefines(ks, s, AddTorrentMeta(ks, id, meta).0, id, s.EntryOf(id).(meta := s.EntryOf(id).meta + meta));
  }

  lemma RosterRefines(ks: Keyspace, key: string, xs: set<int>, x: int)
    requires RosterIs(ks, key, xs) && INT64_MIN <= x <= INT64_MAX
    ensures var (k, a) := AddMember(ks, key, x);
            a == S.Done && RosterIs(k, key, xs + {x}) && SameBut(ks, k, {key})
    ensures var (k, a) := DelMember(ks, key, x);
            a == S.Done && RosterIs(k, key, xs - {x}) && SameBut(ks, k, {key})
    ensures GetMemberExist(ks, key, x) == S.Flag(x in xs)
  {
    hide FormatInt, ParseInt;
    IdsApart();
    var e := Elements(ks, key);
    var k := AddMember(ks, key, x).0;
    assert Elements(k, key) == e + {FormatInt(x)};
    forall a | a in Elements(k, key) ensures exists y: int :: y in xs + {x} && a == FormatInt(y) {
      if a == FormatInt(x) { assert x in xs + {x}; }
    }
    var d := DelMember(ks, key, x).0;
    assert Elements(d, key) == e - {FormatInt(x)};
    forall a | a in Elements(d, key) ensures exists y: int :: y in xs - {x} && a == FormatInt(y) {
      var y: int :| y in xs && a == FormatInt(y);
      assert y in xs - {x};
    }
  }

  lemma ListRefines(ks: Keyspace, key: string, xs: set<int>)
    requires RosterIs(ks, key, xs)
    ensures GetIntList(ks, key) == S.Members(xs)
  {
    var out := set a | a in Elements(ks, key) :: ParseInt(a).value;
    forall x: int ensures x in out <==> x in xs {
      if x in xs {
        FormatIntRoundTrip(x);
        assert FormatInt(x) in Elements(ks, key);
      }
      if x in out {
        var a :| a in Elements(ks, key) && ParseInt(a).value == x;
        var y: int :| y in xs && a == FormatInt(y);
        FormatIntRoundTrip(y);
      }
    }
  }

  lemma MemberRefines(ks: Keyspace, s: S.Catalog, c: S.Call)
    requires Represents(ks, s) && S.Common(s, c)
    requires c.AddMember? || c.DelMember? || c.GetMemberExist?
    ensures var (t, b) := S.Step(s, c, 0);
            Do(ks, c).1 == b && t.Valid() && Represents(Do(ks, c).0, t)
  {
    hide FormatInt, FixedKey, RecordsAre, FilesAre, MetaIs, IndexIs, CounterIs, RosterIs, S.Catalog.Valid, AddMember,
         DelMember, GetMemberExist;
    var key, xs := RosterKey(c.roster), s.MembersOf(c.roster);
    var t := S.Step(s, c, 0).0;
    var k := Do(ks, c).0;
    RosterRefines(ks, key, xs, c.x);
    OneRoster(ks, s, k, c.roster, t.MembersOf(c.roster));
  }

  /** Changing one roster. */
  lemma OneRoster(ks: Keyspace, s: S.Catalog, k: Keyspace, r: S.Roster, xs: set<int>)
    requires Represents(ks, s) && SameBut(ks, k, {RosterKey(r)}) && RosterIs(k, RosterKey(r), xs)
    ensures s.WithRoster(r, xs).Valid() && Represents(k, s.WithRoster(r, xs))
  {
    hide FormatInt, RecordsAre, FilesAre, MetaIs, IndexIs, CounterIs, S.Catalog.Valid;
    var key, other := RosterKey(r), if r.Chats? then ADMINS else CHATS;
    assert FixedKey(key) && other != key && OFFSET != key && key != IDS && key != COUNTER;
    FixedRefines(ks, s, k, s.WithRoster(r, xs), key);
    assert Same(ks, k, OFFSET) && Same(ks, k, other);
    assert Elements(k, other) == Elements(ks, other);
  }

  lemma ReadsRefine(ks: Keyspace, s: S.Catalog, c: S.Call)
    requires Represents(ks, s) && S.Common(s, c)
    requires c.CheckTorrent? || c.GetTorrentFiles? || c.GetTorrentMeta?
    ensures Do(ks, c) == (ks, S.Step(s, c, 0).1) && S.Step(s, c, 0).0 == s
  {
    hide FormatInt, TorrentKey, FilesKey, MetaKey, Safe, CounterIs, RosterIs, OffsetIs;
  }

  lemma LookupRefines(ks: Keyspace, s: S.Catalog, name: string)
    requires Represents(ks, s) && Safe(name) && |s.names| < INT64_MAX
    ensures GetTorrent(ks, name) == S.Id(s.IdOf(name))
  {
    hide FormatInt, TorrentKey, FilesKey, MetaKey, Safe, ParseInt, Represents, CounterIs;
    if s.Known(name) {
      IdParses(ks, s, s.IdOf(name));
      EntryHeld(ks, s, s.IdOf(name));
    } else {
      Unused(ks, s, name);
    }
  }

  lemma ImageReadRefines(ks: Keyspace, s: S.Catalog, id: int)
    requires Represents(ks, s) && id in s.names
    ensures s.names[id] in s.torrents && GetTorrentImage(ks, id) == S.Image(s.EntryOf(id).image)
  {
    hide FormatInt, TorrentKey, FilesKey, MetaKey, Safe, Represents;
    EntryHeld(ks, s, id);
  }

  lemma OffsetReadRefines(ks: Keyspace, offset: Option<nat>)
    requires OffsetIs(ks, offset)
    ensures GetCrawlOffset(ks) == S.Offset(if offset.Some? then offset.value else 0)
  {
    hide FormatNat, ParseUint;
    if offset.Some? { FormatUintRoundTrip(offset.value); }
  }

  lemma OneRead(ks: Keyspace, s: S.Catalog, id: int)
    requires Represents(ks, s) && id in s.names
    ensures s.names[id] in s.torrents
    ensures HashKey(ks, TorrentKey(s.names[id])) && FormatInt(id) in Fields(ks, IDS)
    ensures Fields(ks, IDS)[FormatInt(id)] == TorrentKey(s.names[id])
    ensures ReadRecord(ks, FormatInt(id), TorrentKey(s.names[id]))
         == S.DBTorrent(id, s.names[id], s.EntryOf(id).data, s.EntryOf(id).image)
  {
    hide FormatInt, TorrentKey, FilesKey, MetaKey, Safe, Represents, ParseInt;
    IdParses(ks, s, id);
    EntryHeld(ks, s, id);
  }

  lemma ListingRefines(ks: Keyspace, s: S.Catalog)
    requires Represents(ks, s)
    ensures MGetTorrents(ks) == S.All(S.Listing(s))
  {
    hide FormatInt, ParseInt, TorrentKey, FilesKey, MetaKey, Safe, ReadRecord, RecordsAre, FilesAre, MetaIs, CounterIs,
         RosterIs, OffsetIs;
    var ids := Fields(ks, IDS);
    var out := set sid | sid in ids :: ReadRecord(ks, sid, ids[sid]);
    forall sid | sid in ids ensures HashKey(ks, ids[sid]) && ReadRecord(ks, sid, ids[sid]) in S.Listing(s) {
      var id: int :| id in s.names && sid == FormatInt(id);
      OneRead(ks, s, id);
    }
    forall id: int | id in s.names
      ensures s.names[id] in s.torrents && S.DBTorrent(id, s.names[id], s.EntryOf(id).data, s.EntryOf(id).image) in out
    {
      OneRead(ks, s, id);
    }
    assert out == S.Listing(s);
  }

  /** The names a call mentions do not run into another key family. */
  ghost predicate Harmless(c: S.Call) {
    match c
    case AddTorrent(name, _, _) => Safe(name)
    case GetTorrent(name) => Safe(name)
    case _ => true
  }

  lemma OffsetRefines(ks: Keyspace, s: S.Catalog, offset: nat)
    requires Represents(ks, s) && offset <= UINT64_MAX
    ensures var (k, a) := UpdateCrawlOffset(ks, offset);
            var (t, b) := S.Step(s, S.UpdateCrawlOffset(offset), 0);
            a == b && t.Valid() && Represents(k, t)
  {
    hide FormatNat, FormatInt, RecordsAre, FilesAre, MetaIs, IndexIs, CounterIs, S.Catalog.Valid;
    var k := UpdateCrawlOffset(ks, offset).0;
    assert SameBut(ks, k, {OFFSET});
    FixedRefines(ks, s, k, S.Step(s, S.UpdateCrawlOffset(offset), 0).0, OFFSET);
    assert Same(ks, k, CHATS) && Same(ks, k, ADMINS);
    assert Elements(k, CHATS) == Elements(ks, CHATS) && Elements(k, ADMINS) == Elements(ks, ADMINS);
  }

  /** Each call answers as the store does and leaves the keyspace laying out the store's new state. */
  lemma CallRefines(ks: Keyspace, s: S.Catalog, c: S.Call)
    requires Represents(ks, s) && S.Common(s, c) && Harmless(c) && |s.names| < INT64_MAX
    ensures var (k, a) := Do(ks, c);
            var (t, b) := S.Step(s, c, |s.names| + 1);
            a == b && t.Valid() && Represents(k, t)
  {
    hide AddTorrent, AddTorrentImage, AddTorrentMeta, AddMember, DelMember, UpdateCrawlOffset;
    hide FormatInt, RecordsAre, FilesAre, MetaIs, IndexIs, CounterIs, RosterIs, OffsetIs, S.Catalog.Valid;
    match c
    case AddTorrent(name, data, files) =>
      if s.Known(name) { AddKnownRefines(ks, s, name, data, files, |s.names| + 1); }
      else { AddNewRefines(ks, s, name, data, files); }
    case AddTorrentImage(id, image) => ImageRefines(ks, s, id, image);
    case AddTorrentMeta(id, meta) => MetaRefines(ks, s, id, meta);
    case GetTorrent(name) => LookupRefines(ks, s, name);
    case GetTorrentImage(id) => ImageReadRefines(ks, s, id);
    case GetCrawlOffset => OffsetReadRefines(ks, s.offset);
    case MGetTorrents => ListingRefines(ks, s);
    case UpdateCrawlOffset(offset) => OffsetRefines(ks, s, offset);
    case AddMember(_, _) => MemberRefines(ks, s, c);
    case DelMember(_, _) => MemberRefines(ks, s, c);
    case GetMemberExist(_, _) => MemberRefines(ks, s, c);
    case GetMembers(r) => ListRefines(ks, RosterKey(r), s.MembersOf(r));
    case _ => ReadsRefine(ks, s, c);
  }
}
