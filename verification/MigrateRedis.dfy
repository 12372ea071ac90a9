/** Migration into the Redis database: what the copied keyspace answers, and what it has lost. */
module MigrateRedis {
  import opened Basics
  import opened Decimal
  import opened RedisServer
  import opened RedisStore
  import opened Migration
  import S = Store
  import D = RedisDatabase

  // ----- The copying loop

  /** One winner: the record and files, then the metadata; false if a call failed. */
  function CopyOne(ks: Keyspace, src: Source, t: S.DBTorrent): (Keyspace, bool) {
    match MPutTorrent(ks, t, src.FilesOf(t.id))
    case (k, Done) =>
      var (k2, a) := AddTorrentMeta(k, t.id, src.MetaOf(t.id));
      (k2, a == S.Done)
    case (k, _) => (k, false)
  }

  /** All of them in turn; the first failure ends the migration. */
  function CopyAll(ks: Keyspace, src: Source, order: Listing): (Keyspace, bool) {
    if order == [] then (ks, true)
    else
      var (k, ok) := CopyAll(ks, src, order[..|order| - 1]);
      if ok then CopyOne(k, src, order[|order| - 1]) else (k, false)
  }

  predicate IdsFit(order: Listing) { forall t :: t in order ==> INT64_MIN <= t.id <= INT64_MAX }

  method Migrate(src: Source, order: Listing, newDb: D.Database) returns (ok: bool)
    requires IdsFit(order)
    modifies newDb
    ensures (newDb.ks, ok) == CopyAll(old(newDb.ks), src, order)
  {
    hide AddTorrentMeta, MPutTorrent;
    ok := true;
    var i := 0;
    while i < |order| && ok
      invariant 0 <= i <= |order|
      invariant (newDb.ks, ok) == CopyAll(old(newDb.ks), src, order[..i])
    {
      var t := order[i];
      assert t in order;
      var failed := newDb.MPutTorrent(t, src.FilesOf(t.id));
      if !failed {
        failed := newDb.AddTorrentMeta(t.id, src.MetaOf(t.id));
      }
      ok := !failed;
      i := i + 1;
      assert order[..i][..i - 1] == order[..i - 1];
    }
    if ok {
      assert order[..i] == order;
    } else {
      Stops(old(newDb.ks), src, order, i);
    }
  }

  lemma {:induction false} Stops(ks: Keyspace, src: Source, order: Listing, i: nat)
    requires i <= |order| && !CopyAll(ks, src, order[..i]).1
    ensures CopyAll(ks, src, order) == CopyAll(ks, src, order[..i])
    decreases |order|
  {
    if i < |order| {
      var k := |order| - 1;
      assert order[..k][..i] == order[..i];
      Stops(ks, src, order[..k], i);
    } else {
      assert order[..i] == order;
    }
  }

  // ----- What holds while copying

  /** The keyspace has no torrents yet. */
  ghost predicate NoTorrents(ks: Keyspace) {
    IDS !in ks && forall n :: TorrentKey(n) !in ks
  }

  function RecordOf(t: S.DBTorrent): map<string, Bytes> {
    map["name" := t.name, "data" := t.data, "img" := t.image]
  }

  ghost predicate Within(a: map<string, Bytes>, b: map<string, Bytes>) { forall f :: f in a ==> f in b && b[f] == a[f] }

  /** `t` shares no key with the files and metadata of `u`, or says nothing there that the metadata does not. */
  ghost predicate ClearOf(src: Source, t: S.DBTorrent, u: S.DBTorrent) {
    && t.name != "f_" + FormatInt(u.id)
    && (t.name == "m_" + FormatInt(u.id) ==> Within(RecordOf(t), src.MetaOf(u.id)))
  }

  ghost predicate Clear(src: Source, ts: Listing) { forall t, u :: t in ts && u in ts ==> ClearOf(src, t, u) }

  /** Record, files and metadata are in place. */
  ghost predicate Copied(ks: Keyspace, src: Source, t: S.DBTorrent) {
    var sid := FormatInt(t.id);
    && HashKey(ks, TorrentKey(t.name)) && Within(RecordOf(t), Fields(ks, TorrentKey(t.name)))
    && SetKey(ks, FilesKey(sid)) && Elements(ks, FilesKey(sid)) == S.ToSet(src.FilesOf(t.id))
    && HashKey(ks, MetaKey(sid)) && Fields(ks, MetaKey(sid)) == src.MetaOf(t.id)
  }

  /** A key after the tt_t_ prefix that belongs to `t`. */
  ghost predicate Owns(t: S.DBTorrent, n: string) {
    n == t.name || n == "f_" + FormatInt(t.id) || n == "m_" + FormatInt(t.id)
  }

  ghost predicate IsMeta(ts: Listing, n: string) { exists u :: u in ts && n == "m_" + FormatInt(u.id) }

  ghost predicate Indexed(ks: Keyspace, done: Listing) {
    && HashKey(ks, IDS)
    && (forall t :: t in done ==>
        FormatInt(t.id) in Fields(ks, IDS) && Fields(ks, IDS)[FormatInt(t.id)] == TorrentKey(t.name))
    && (forall sid :: sid in Fields(ks, IDS) ==> exists t :: t in done && sid == FormatInt(t.id))
  }

  /** Every key belongs to a copied torrent; a record that is nobody's metadata holds nothing else, and no idx. */
  ghost predicate Owned(ks: Keyspace, done: Listing) {
    && (forall n :: TorrentKey(n) in ks ==> exists t :: t in done && Owns(t, n))
    && (forall t :: t in done && !IsMeta(done, t.name) ==> Fields(ks, TorrentKey(t.name)) == RecordOf(t))
  }

  ghost predicate Inv(ks: Keyspace, src: Source, done: Listing) {
    && Indexed(ks, done)
    && (forall t :: t in done ==> Copied(ks, src, t))
    && Owned(ks, done)
    && (done != [] ==> COUNTER in ks && ks[COUNTER] == Str(FormatInt(done[|done| - 1].id)))
  }

  predicate Walkable(order: Listing) { AllDistinct(order) && IdsFit(order) }

  lemma KeyNames(sid: string)
    ensures FilesKey(sid) == TorrentKey("f_" + sid) && MetaKey(sid) == TorrentKey("m_" + sid)
  {
  }

  /** The next torrent meets keys of the copied ones only where it repeats what they say. */
  lemma Meets(ks: Keyspace, src: Source, done: Listing, t: S.DBTorrent)
    requires Inv(ks, src, done) && Walkable(done + [t]) && Clear(src, done + [t])
    ensures var key, sid := TorrentKey(t.name), FormatInt(t.id);
            && FilesKey(sid) !in ks && key != FilesKey(sid)
            && HashKey(ks, key) && (key in ks ==> IsMeta(done, t.name) && Within(RecordOf(t), Fields(ks, key)))
            && HashKey(ks, MetaKey(sid)) && Within(Fields(ks, MetaKey(sid)), src.MetaOf(t.id))
  {
    hide FormatInt, TorrentKey, FilesKey, MetaKey, Indexed, Copied, Owned, ClearOf, RecordOf;
    Apart(src, done, t);
    FilesFree(ks, src, done, t);
    RecordMeets(ks, src, done, t);
    MetaMeets(ks, src, done, t);
  }

  lemma Apart(src: Source, done: Listing, t: S.DBTorrent)
    requires Walkable(done + [t]) && Clear(src, done + [t])
    ensures forall u :: u in done ==>
      u.name != t.name && FormatInt(u.id) != FormatInt(t.id) && ClearOf(src, u, t) && ClearOf(src, t, u)
    ensures ClearOf(src, t, t) && INT64_MIN <= t.id <= INT64_MAX
  {
    IdsApart();
    hide ClearOf, FormatInt;
    var all := done + [t];
    assert all[|done|] == t;
    forall u | u in done
      ensures u.name != t.name && FormatInt(u.id) != FormatInt(t.id) && ClearOf(src, u, t) && ClearOf(src, t, u)
    {
      var i :| 0 <= i < |done| && done[i] == u;
      assert all[i] == u && u in all;
    }
  }

  lemma FilesFree(ks: Keyspace, src: Source, done: Listing, t: S.DBTorrent)
    requires Owned(ks, done) && ClearOf(src, t, t)
    requires forall u :: u in done ==> FormatInt(u.id) != FormatInt(t.id) && ClearOf(src, u, t)
    ensures FilesKey(FormatInt(t.id)) !in ks && TorrentKey(t.name) != FilesKey(FormatInt(t.id))
  {
    hide FormatInt, TorrentKey, FilesKey, MetaKey, RecordOf;
    var sid := FormatInt(t.id);
    KeyNames(sid);
    TorrentKeyApart(t.name, sid);
    forall u | u in done ensures !Owns(u, "f_" + sid) { Prefixes(FormatInt(u.id), sid); }
  }

  lemma Prefixes(a: string, b: string)
    ensures "f_" + a == "f_" + b <==> a == b
    ensures "m_" + a == "m_" + b <==> a == b
    ensures "f_" + a != "m_" + b
  {
    assert ("f_" + a)[2..] == a && ("f_" + b)[2..] == b && ("m_" + a)[2..] == a && ("m_" + b)[2..] == b;
    assert ("f_" + a)[0] == 'f' && ("m_" + b)[0] == 'm';
  }

  lemma RecordMeets(ks: Keyspace, src: Source, done: Listing, t: S.DBTorrent)
    requires Owned(ks, done) && forall u :: u in done ==> Copied(ks, src, u) && u.name != t.name && ClearOf(src, t, u)
    ensures var key := TorrentKey(t.name);
            HashKey(ks, key) && (key in ks ==> IsMeta(done, t.name) && Within(RecordOf(t), Fields(ks, key)))
  {
    hide FormatInt, TorrentKey, FilesKey, MetaKey, RecordOf;
    if TorrentKey(t.name) in ks {
      var u :| u in done && Owns(u, t.name);
      KeyNames(FormatInt(u.id));
    }
  }

  lemma MetaMeets(ks: Keyspace, src: Source, done: Listing, t: S.DBTorrent)
    requires Owned(ks, done)
    requires forall u :: u in done ==> Copied(ks, src, u) && FormatInt(u.id) != FormatInt(t.id) && ClearOf(src, u, t)
    ensures var mk := MetaKey(FormatInt(t.id)); HashKey(ks, mk) && Within(Fields(ks, mk), src.MetaOf(t.id))
  {
    hide FormatInt, TorrentKey, FilesKey, MetaKey, RecordOf;
    var sid := FormatInt(t.id);
    KeyNames(sid);
    if MetaKey(sid) in ks {
      forall u: S.DBTorrent ensures "m_" + sid == "m_" + FormatInt(u.id) <==> sid == FormatInt(u.id) {
        Prefixes(sid, FormatInt(u.id));
      }
      var u :| u in done && Owns(u, "m_" + sid);
      Prefixes(FormatInt(u.id), sid);
      assert u.name == "m_" + sid && !IsMeta(done, u.name);
    }
  }

  /** The keyspace after MPutTorrent, key by key. */
  lemma PutShape(ks: Keyspace, t: S.DBTorrent, files: seq<string>)
    requires HashKey(ks, IDS) && HashKey(ks, TorrentKey(t.name)) && FilesKey(FormatInt(t.id)) !in ks
    requires TorrentKey(t.name) != FilesKey(FormatInt(t.id))
    ensures var key, sid := TorrentKey(t.name), FormatInt(t.id);
            var k1 := ks[key := Hash(Fields(ks, key) + RecordOf(t))];
            var k2 := if files == [] then k1 else k1[FilesKey(sid) := Members(S.ToSet(files))];
            MPutTorrent(ks, t, files) == (k2[IDS := Hash(Fields(ks, IDS)[sid := key])][COUNTER := Str(sid)], S.Done)
  {
    hide FormatInt, TorrentKey, FilesKey, MetaKey, AddFiles;
    var key, sid := TorrentKey(t.name), FormatInt(t.id);
    TorrentKeyApart(t.name, "");
    IdKeysApart(sid, "");
    var k1 := ks[key := Hash(Fields(ks, key) + RecordOf(t))];
    assert HSet(ks, key, map["name" := t.name, "data" := t.data, "img" := t.image]) == (k1, Ok(()));
    NewFiles(k1, t.id, sid, files);
    assert Fields(ks, IDS) + map[sid := key] == Fields(ks, IDS)[sid := key];
  }

  lemma NewFiles(k1: Keyspace, id: int, sid: string, files: seq<string>)
    requires FilesKey(sid) !in k1
    ensures AddFiles(k1, id, sid, files)
         == (if files == [] then k1 else k1[FilesKey(sid) := Members(S.ToSet(files))], S.Id(id))
  {
    assert {} + S.ToSet(files) == S.ToSet(files);
  }

  lemma PutFields(ks: Keyspace, t: S.DBTorrent, files: seq<string>)
    requires HashKey(ks, IDS) && HashKey(ks, TorrentKey(t.name)) && FilesKey(FormatInt(t.id)) !in ks
    requires TorrentKey(t.name) != FilesKey(FormatInt(t.id))
    ensures var (k, a) := MPutTorrent(ks, t, files);
            var key, sid := TorrentKey(t.name), FormatInt(t.id);
            && a == S.Done
            && key in k && k[key] == Hash(Fields(ks, key) + RecordOf(t))
            && SetKey(k, FilesKey(sid)) && Elements(k, FilesKey(sid)) == S.ToSet(files)
            && IDS in k && k[IDS] == Hash(Fields(ks, IDS)[sid := key])
            && COUNTER in k && k[COUNTER] == Str(sid)
            && SameBut(ks, k, {key, FilesKey(sid), IDS, COUNTER})
  {
    hide FormatInt, TorrentKey, FilesKey, RecordOf, MPutTorrent;
    PutShape(ks, t, files);
    TorrentKeyApart(t.name, "");
    IdKeysApart(FormatInt(t.id), "");
    assert files == [] ==> S.ToSet(files) == {};
  }

  lemma MetaFields(ks: Keyspace, id: int, meta: map<string, string>)
    requires HashKey(ks, MetaKey(FormatInt(id)))
    ensures var (k, a) := AddTorrentMeta(ks, id, meta);
            var mk := MetaKey(FormatInt(id));
            a == S.Done && HashKey(k, mk) && Fields(k, mk) == Fields(ks, mk) + meta && SameBut(ks, k, {mk})
            && (mk in ks ==> mk in k && k[mk].Hash?)
  {
    hide FormatInt, MetaKey;
    NoFields(Fields(ks, MetaKey(FormatInt(id))));
  }

  lemma PutSteps(ks: Keyspace, src: Source, t: S.DBTorrent)
    requires HashKey(ks, IDS) && HashKey(ks, TorrentKey(t.name)) && FilesKey(FormatInt(t.id)) !in ks
    requires TorrentKey(t.name) != FilesKey(FormatInt(t.id)) && HashKey(ks, MetaKey(FormatInt(t.id)))
    ensures var (k, ok) := CopyOne(ks, src, t);
            var key, sid := TorrentKey(t.name), FormatInt(t.id);
            var written := Fields(ks, key) + RecordOf(t);
            && ok
            && key in k && k[key].Hash? && (key != MetaKey(sid) ==> Fields(k, key) == written)
            && SetKey(k, FilesKey(sid)) && Elements(k, FilesKey(sid)) == S.ToSet(src.FilesOf(t.id))
            && HashKey(k, MetaKey(sid))
            && Fields(k, MetaKey(sid)) == (if key == MetaKey(sid) then written else Fields(ks, MetaKey(sid)))
               + src.MetaOf(t.id)
            && IDS in k && k[IDS] == Hash(Fields(ks, IDS)[sid := key])
            && COUNTER in k && k[COUNTER] == Str(sid)
            && SameBut(ks, k, {key, FilesKey(sid), MetaKey(sid), IDS, COUNTER})
  {
    hide FormatInt, TorrentKey, FilesKey, MetaKey, RecordOf, MPutTorrent, AddTorrentMeta, SameBut, FixedKey;
    var key, sid := TorrentKey(t.name), FormatInt(t.id);
    var k1, mk := MPutTorrent(ks, t, src.FilesOf(t.id)).0, MetaKey(sid);
    PutFields(ks, t, src.FilesOf(t.id));
    IdKeysApart(sid, sid);
    NotFixed(mk);
    Widened(ks, k1, {key, FilesKey(sid), IDS, COUNTER}, {key, FilesKey(sid), mk, IDS, COUNTER});
    if mk != key { StaysPut(ks, k1, mk, {key, FilesKey(sid), IDS, COUNTER}); }
    MetaFields(k1, t.id, src.MetaOf(t.id));
    var k := CopyOne(ks, src, t).0;
    Widened(k1, k, {mk}, {key, FilesKey(sid), mk, IDS, COUNTER});
    StaysPut(k1, k, FilesKey(sid), {mk});
    StaysPut(k1, k, IDS, {mk});
    StaysPut(k1, k, COUNTER, {mk});
    if mk != key { StaysPut(k1, k, key, {mk}); }
    Chained(ks, k1, k, {key, FilesKey(sid), mk, IDS, COUNTER});
  }

  lemma Widened(ks: Keyspace, k: Keyspace, few: set<string>, many: set<string>)
    requires SameBut(ks, k, few) && few <= many
    ensures SameBut(ks, k, many)
  {
  }

  lemma StaysPut(ks: Keyspace, k: Keyspace, key: string, changed: set<string>)
    requires SameBut(ks, k, changed) && key !in changed
    ensures Same(ks, k, key)
  {
  }

  lemma Chained(ks: Keyspace, k1: Keyspace, k: Keyspace, changed: set<string>)
    requires SameBut(ks, k1, changed) && SameBut(k1, k, changed)
    ensures SameBut(ks, k, changed)
  {
  }

  lemma NoFields(m: map<string, Bytes>)
    ensures m + map[] == m
  {
  }

  lemma Absorbed(a: map<string, Bytes>, b: map<string, Bytes>)
    requires Within(a, b)
    ensures a + b == b && b + a == b
  {
  }

  /** What copying `t` made of its own keys; everything else but index and counter is as before. */
  ghost predicate Put(ks: Keyspace, k: Keyspace, src: Source, t: S.DBTorrent) {
    var key, sid := TorrentKey(t.name), FormatInt(t.id);
    && HashKey(k, key)
    && (key in ks ==> Same(ks, k, key))
    && (key !in ks && key != MetaKey(sid) ==> Fields(k, key) == RecordOf(t))
    && SetKey(k, FilesKey(sid)) && Elements(k, FilesKey(sid)) == S.ToSet(src.FilesOf(t.id))
    && HashKey(k, MetaKey(sid)) && Fields(k, MetaKey(sid)) == src.MetaOf(t.id)
    && SameBut(ks, k, {key, FilesKey(sid), MetaKey(sid), IDS, COUNTER})
  }

  lemma OwnMeta(src: Source, done: Listing, t: S.DBTorrent)
    requires IsMeta(done, t.name) && forall u :: u in done ==> FormatInt(u.id) != FormatInt(t.id)
    ensures TorrentKey(t.name) != MetaKey(FormatInt(t.id))
  {
    hide FormatInt, TorrentKey, MetaKey;
    var u :| u in done && t.name == "m_" + FormatInt(u.id);
    Prefixes(FormatInt(u.id), FormatInt(t.id));
    TorrentKeyApart(t.name, FormatInt(t.id));
  }

  lemma PutDone(ks: Keyspace, src: Source, done: Listing, t: S.DBTorrent)
    requires Inv(ks, src, done) && Walkable(done + [t]) && Clear(src, done + [t])
    ensures CopyOne(ks, src, t).1 && Put(ks, CopyOne(ks, src, t).0, src, t)
    ensures var k := CopyOne(ks, src, t).0;
            && IDS in k && k[IDS] == Hash(Fields(ks, IDS)[FormatInt(t.id) := TorrentKey(t.name)])
            && COUNTER in k && k[COUNTER] == Str(FormatInt(t.id))
            && (TorrentKey(t.name) in ks ==> IsMeta(done, t.name))
  {
    hide FormatInt, TorrentKey, FilesKey, MetaKey, Indexed, Copied, Owned, CopyOne, RecordOf, SameBut;
    NeedsIndex(ks, done);
    Meets(ks, src, done, t);
    PutSteps(ks, src, t);
    Apart(src, done, t);
    hide Walkable, Clear, IsMeta;
    var key, sid := TorrentKey(t.name), FormatInt(t.id);
    if key in ks {
      OwnMeta(src, done, t);
      Absorbed(RecordOf(t), Fields(ks, key));
    } else {
      Absorbed(map[], RecordOf(t));
    }
    TorrentKeyApart(t.name, sid);
    if key == MetaKey(sid) {
      Absorbed(RecordOf(t), src.MetaOf(t.id));
    } else {
      Absorbed(Fields(ks, MetaKey(sid)), src.MetaOf(t.id));
    }
  }

  lemma IndexedStep(ks: Keyspace, k: Keyspace, done: Listing, t: S.DBTorrent)
    requires Indexed(ks, done) && forall u :: u in done ==> FormatInt(u.id) != FormatInt(t.id)
    requires HashKey(k, IDS) && Fields(k, IDS) == Fields(ks, IDS)[FormatInt(t.id) := TorrentKey(t.name)]
    ensures Indexed(k, done + [t])
  {
    hide FormatInt, TorrentKey;
    IdsApart();
    forall sid | sid in Fields(k, IDS) ensures exists u :: u in done + [t] && sid == FormatInt(u.id) {
      if sid == FormatInt(t.id) {
        assert t in done + [t];
      } else {
        var u :| u in done && sid == FormatInt(u.id);
        assert u in done + [t];
      }
    }
  }

  lemma CopiedNow(ks: Keyspace, k: Keyspace, src: Source, done: Listing, t: S.DBTorrent)
    requires Put(ks, k, src, t) && ClearOf(src, t, t) && (TorrentKey(t.name) in ks ==> HashKey(ks, TorrentKey(t.name)))
    requires TorrentKey(t.name) in ks ==> Within(RecordOf(t), Fields(ks, TorrentKey(t.name)))
    ensures Copied(k, src, t)
  {
    hide FormatInt, TorrentKey, FilesKey, MetaKey, RecordOf, SameBut;
    TorrentKeyApart(t.name, FormatInt(t.id));
  }

  /** An earlier torrent stays in place. */
  lemma CopiedStays(ks: Keyspace, k: Keyspace, src: Source, u: S.DBTorrent, t: S.DBTorrent)
    requires Copied(ks, src, u) && u.name != t.name && FormatInt(u.id) != FormatInt(t.id)
    requires ClearOf(src, u, t) && ClearOf(src, t, u) && Put(ks, k, src, t)
    ensures Copied(k, src, u)
  {
    hide FormatInt, TorrentKey, FilesKey, MetaKey;
    var sid, uid := FormatInt(t.id), FormatInt(u.id);
    TorrentKeyApart(u.name, t.name);
    TorrentKeyApart(u.name, sid);
    TorrentKeyApart(t.name, uid);
    IdKeysApart(uid, sid);
    IdKeysApart(sid, uid);
    assert TorrentKey(u.name) != MetaKey(sid) ==> Same(ks, k, TorrentKey(u.name));
    assert Same(ks, k, FilesKey(uid));
    if TorrentKey(t.name) == MetaKey(uid) { assert "name" in RecordOf(t); }
    assert Same(ks, k, MetaKey(uid));
  }

  lemma OwnedStep(ks: Keyspace, k: Keyspace, src: Source, done: Listing, t: S.DBTorrent)
    requires Owned(ks, done) && Put(ks, k, src, t) && (TorrentKey(t.name) in ks ==> IsMeta(done, t.name))
    requires forall u :: u in done ==> u.name != t.name && ClearOf(src, u, t)
    ensures Owned(k, done + [t])
  {
    hide FormatInt, TorrentKey, FilesKey, MetaKey, Owns, RecordOf, IsMeta;
    forall n | TorrentKey(n) in k ensures exists u :: u in done + [t] && Owns(u, n) {
      OwnerOf(n, t);
      if TorrentKey(n) in ks {
        var u :| u in done && Owns(u, n);
        assert u in done + [t];
      } else {
        assert !Same(ks, k, TorrentKey(n));
        assert t in done + [t] && Owns(t, n);
      }
    }
    forall u | u in done + [t] && !IsMeta(done + [t], u.name) ensures Fields(k, TorrentKey(u.name)) == RecordOf(u) {
      Unmeant(done, t, u);
      TorrentKeyApart(u.name, t.name);
      TorrentKeyApart(u.name, FormatInt(t.id));
      if u in done { assert Same(ks, k, TorrentKey(u.name)); }
    }
  }

  lemma Unmeant(done: Listing, t: S.DBTorrent, u: S.DBTorrent)
    requires !IsMeta(done + [t], u.name)
    ensures !IsMeta(done, u.name) && u.name != "m_" + FormatInt(t.id)
  {
    hide FormatInt;
    assert t in done + [t];
  }

  lemma OwnerOf(n: string, t: S.DBTorrent)
    ensures var sid := FormatInt(t.id);
            TorrentKey(n) in {TorrentKey(t.name), FilesKey(sid), MetaKey(sid), IDS, COUNTER} ==> Owns(t, n)
  {
    hide FormatInt;
    TorrentKeyApart(n, t.name);
    TorrentKeyApart(n, FormatInt(t.id));
  }

  lemma InvStep(ks: Keyspace, src: Source, done: Listing, t: S.DBTorrent)
    requires Inv(ks, src, done) && Walkable(done + [t]) && Clear(src, done + [t])
    ensures CopyOne(ks, src, t).1 && Inv(CopyOne(ks, src, t).0, src, done + [t])
    ensures RestSame(ks, CopyOne(ks, src, t).0)
  {
    hide FormatInt, TorrentKey, FilesKey, MetaKey, Indexed, Copied, CopyOne, Owned, SameBut, Put, ClearOf, IsMeta,
         RecordOf;
    var k := CopyOne(ks, src, t).0;
    PutDone(ks, src, done, t);
    Meets(ks, src, done, t);
    Apart(src, done, t);
    hide Walkable, Clear;
    IndexedStep(ks, k, done, t);
    OwnedStep(ks, k, src, done, t);
    CopiedNow(ks, k, src, done, t);
    forall u | u in done ensures Copied(k, src, u) {
      CopiedStays(ks, k, src, u, t);
    }
    OthersSame(ks, k, src, t);
  }

  lemma NeedsIndex(ks: Keyspace, done: Listing)
    requires Indexed(ks, done)
    ensures HashKey(ks, IDS)
  {
  }

  /** Offset, chats and admins. */
  ghost predicate RestSame(ks: Keyspace, k: Keyspace) {
    Same(ks, k, OFFSET) && Same(ks, k, CHATS) && Same(ks, k, ADMINS)
  }

  lemma OthersSame(ks: Keyspace, k: Keyspace, src: Source, t: S.DBTorrent)
    requires Put(ks, k, src, t)
    ensures RestSame(ks, k)
  {
    hide FormatInt, TorrentKey, FilesKey, MetaKey, RecordOf;
    TorrentKeyApart(t.name, "");
    IdKeysApart(FormatInt(t.id), "");
  }

  lemma {:induction false} InvAll(ks: Keyspace, src: Source, order: Listing)
    requires NoTorrents(ks) && Walkable(order) && Clear(src, order)
    ensures CopyAll(ks, src, order).1 && Inv(CopyAll(ks, src, order).0, src, order)
    ensures RestSame(ks, CopyAll(ks, src, order).0)
    decreases |order|
  {
    hide FormatInt, TorrentKey, CopyOne, Inv, NoTorrents, Walkable, Clear;
    if order == [] {
      NothingCopied(ks, src);
    } else {
      var k := |order| - 1;
      assert order == order[..k] + [order[k]];
      Prefix(src, order, k);
      InvAll(ks, src, order[..k]);
      InvStep(CopyAll(ks, src, order[..k]).0, src, order[..k], order[k]);
    }
  }

  lemma NothingCopied(ks: Keyspace, src: Source)
    requires NoTorrents(ks)
    ensures Inv(ks, src, [])
  {
    hide FormatInt, TorrentKey;
  }

  lemma Prefix(src: Source, order: Listing, k: nat)
    requires Walkable(order) && k <= |order|
    ensures Walkable(order[..k]) && (Clear(src, order) ==> Clear(src, order[..k]))
  {
    hide ClearOf;
  }

  // ----- What the new database answers

  /** The torrents `ts` and no others are listed, and read back by id with files, metadata and image. */
  ghost predicate Arrived(ks: Keyspace, src: Source, ts: set<S.DBTorrent>) {
    && MGetTorrents(ks) == S.All(ts)
    && forall t :: t in ts ==>
         && GetTorrentFiles(ks, t.id) == S.Files(set p | t.id in src.files && p in src.files[t.id])
         && GetTorrentMeta(ks, t.id) == S.Meta(if t.id in src.meta then src.meta[t.id] else map[])
         && GetTorrentImage(ks, t.id) == S.Image(t.image)
  }

  lemma AsAsked(src: Source, id: int)
    ensures S.ToSet(src.FilesOf(id)) == set p | id in src.files && p in src.files[id]
    ensures src.MetaOf(id) == if id in src.meta then src.meta[id] else map[]
  {
  }

  lemma OneRead(ks: Keyspace, src: Source, t: S.DBTorrent)
    requires Copied(ks, src, t) && INT64_MIN <= t.id <= INT64_MAX
    ensures HashKey(ks, TorrentKey(t.name)) && ReadRecord(ks, FormatInt(t.id), TorrentKey(t.name)) == t
  {
    hide TorrentKey, FilesKey, MetaKey, ParseInt;
    FormatIntRoundTrip(t.id);
    hide FormatInt;
    var r := RecordOf(t);
    assert "name" in r && "data" in r && "img" in r;
  }

  lemma ListsDone(ks: Keyspace, src: Source, done: Listing)
    requires Indexed(ks, done) && IdsFit(done) && forall t :: t in done ==> Copied(ks, src, t)
    ensures MGetTorrents(ks) == S.All(set t | t in done)
  {
    hide FormatInt, TorrentKey, Copied, ReadRecord, MGetTorrents, Indexed, HashKey;
    forall t | t in done
      ensures HashKey(ks, TorrentKey(t.name)) && ReadRecord(ks, FormatInt(t.id), TorrentKey(t.name)) == t
    {
      OneRead(ks, src, t);
    }
    ListsIndexed(ks, done);
  }

  lemma ListsIndexed(ks: Keyspace, done: Listing)
    requires Indexed(ks, done)
    requires forall t :: t in done ==>
               HashKey(ks, TorrentKey(t.name)) && ReadRecord(ks, FormatInt(t.id), TorrentKey(t.name)) == t
    ensures MGetTorrents(ks) == S.All(set t | t in done)
  {
    hide FormatInt, TorrentKey, ReadRecord, HashKey;
    var ids := Fields(ks, IDS);
    var out := set sid | sid in ids :: ReadRecord(ks, sid, ids[sid]);
    forall sid | sid in ids ensures HashKey(ks, ids[sid]) && ReadRecord(ks, sid, ids[sid]) in done {
      var t :| t in done && sid == FormatInt(t.id);
    }
    forall t | t in done ensures t in out {
      assert FormatInt(t.id) in ids;
    }
    assert out == set t | t in done;
  }

  /** After a migration in whatever order, the new database lists exactly the copied torrents and has their
      files, metadata and images; but it finds none of them by name. */
  lemma MigratedReads(ks: Keyspace, src: Source, order: Listing)
    requires NoTorrents(ks) && Walkable(order) && Clear(src, order)
    ensures var (k, ok) := CopyAll(ks, src, order);
            && ok && Arrived(k, src, set t | t in order)
            && forall t :: t in order && !IsMeta(order, t.name) ==> GetTorrent(k, t.name) == S.Id(INVALID_DB_ID)
  {
    hide FormatInt, MGetTorrents, GetTorrentFiles, GetTorrentMeta, GetTorrentImage, GetTorrent, CopyAll, Copied,
         Indexed;
    hide NoTorrents, Clear, RecordOf, Fields, IsMeta;
    InvAll(ks, src, order);
    var k := CopyAll(ks, src, order).0;
    ListsDone(k, src, order);
    forall t | t in order
      ensures GetTorrentFiles(k, t.id) == S.Files(set p | t.id in src.files && p in src.files[t.id])
      ensures GetTorrentMeta(k, t.id) == S.Meta(if t.id in src.meta then src.meta[t.id] else map[])
      ensures GetTorrentImage(k, t.id) == S.Image(t.image)
      ensures !IsMeta(order, t.name) ==> GetTorrent(k, t.name) == S.Id(INVALID_DB_ID)
    {
      CopiedReads(k, src, order, t);
      AsAsked(src, t.id);
    }
  }

  lemma CopiedReads(ks: Keyspace, src: Source, done: Listing, t: S.DBTorrent)
    requires Copied(ks, src, t) && Indexed(ks, done) && t in done
    ensures GetTorrentFiles(ks, t.id) == S.Files(S.ToSet(src.FilesOf(t.id)))
    ensures GetTorrentMeta(ks, t.id) == S.Meta(src.MetaOf(t.id))
    ensures GetTorrentImage(ks, t.id) == S.Image(t.image)
    ensures Fields(ks, TorrentKey(t.name)) == RecordOf(t) ==> GetTorrent(ks, t.name) == S.Id(INVALID_DB_ID)
  {
    hide FormatInt, TorrentKey, FilesKey, MetaKey;
    KeyNotEmpty(t.name);
    assert "idx" !in RecordOf(t) && "img" in RecordOf(t);
  }

  lemma KeyNotEmpty(name: string)
    ensures TorrentKey(name) != ""
  {
  }

  // ----- What a migration that got through has written in any case

  /** Ids and record fields are there, whatever the names. */
  ghost predicate Kept(ks: Keyspace, done: Listing) {
    Indexed(ks, done) && forall t :: t in done ==> IsRecord(ks, t.name)
  }

  ghost predicate IsRecord(ks: Keyspace, n: string) {
    TorrentKey(n) in ks && ks[TorrentKey(n)].Hash? && {"name", "data", "img"} <= Fields(ks, TorrentKey(n)).Keys
  }

  lemma HashKeeps(ks: Keyspace, key: string, fields: map<string, Bytes>)
    requires HSet(ks, key, fields).1.Ok?
    ensures forall n :: IsRecord(ks, n) ==> IsRecord(HSet(ks, key, fields).0, n)
  {
    hide TorrentKey;
  }

  /** A set is not written over a record. */
  lemma FilesKeep(ks: Keyspace, id: int, sid: string, files: seq<string>)
    requires AddFiles(ks, id, sid, files).1.Id?
    ensures Same(ks, AddFiles(ks, id, sid, files).0, IDS)
    ensures forall n :: IsRecord(ks, n) ==> IsRecord(AddFiles(ks, id, sid, files).0, n)
  {
    hide TorrentKey, FilesKey;
    IdKeysApart(sid, "");
  }

  lemma CounterKeeps(ks: Keyspace, v: Bytes)
    ensures Same(ks, Set(ks, COUNTER, v), IDS)
    ensures forall n :: IsRecord(ks, n) ==> IsRecord(Set(ks, COUNTER, v), n)
  {
    hide TorrentKey;
    forall n ensures TorrentKey(n) != COUNTER { TorrentKeyApart(n, ""); }
  }

  lemma PutKeeps(ks: Keyspace, t: S.DBTorrent, files: seq<string>)
    requires MPutTorrent(ks, t, files).1 == S.Done && HashKey(ks, IDS)
    ensures var k := MPutTorrent(ks, t, files).0;
            && HashKey(k, IDS) && Fields(k, IDS) == Fields(ks, IDS)[FormatInt(t.id) := TorrentKey(t.name)]
            && IsRecord(k, t.name) && forall n :: IsRecord(ks, n) ==> IsRecord(k, n)
  {
    hide FormatInt, TorrentKey, AddFiles;
    var key, sid := TorrentKey(t.name), FormatInt(t.id);
    var fields := map["name" := t.name, "data" := t.data, "img" := t.image];
    TorrentKeyApart(t.name, "");
    var k1 := HSet(ks, key, fields).0;
    HashKeeps(ks, key, fields);
    assert Same(ks, k1, IDS) && IsRecord(k1, t.name);
    var k2 := AddFiles(k1, t.id, sid, files).0;
    FilesKeep(k1, t.id, sid, files);
    var k3 := HSet(k2, IDS, map[sid := key]).0;
    HashKeeps(k2, IDS, map[sid := key]);
    CounterKeeps(k3, sid);
    assert Fields(ks, IDS) + map[sid := key] == Fields(ks, IDS)[sid := key];
    hide IsRecord;
    assert MPutTorrent(ks, t, files).0 == Set(k3, COUNTER, sid);
  }

  lemma MetaKeeps(ks: Keyspace, id: int, meta: map<string, string>)
    ensures var k := AddTorrentMeta(ks, id, meta).0;
            Same(ks, k, IDS) && forall n :: IsRecord(ks, n) ==> IsRecord(k, n)
  {
    hide FormatInt, TorrentKey, MetaKey;
    IdKeysApart(FormatInt(id), "");
  }

  lemma KeptStep(ks: Keyspace, src: Source, done: Listing, t: S.DBTorrent)
    requires Kept(ks, done) && Walkable(done + [t]) && CopyOne(ks, src, t).1
    ensures Kept(CopyOne(ks, src, t).0, done + [t])
  {
    hide FormatInt, TorrentKey, IsRecord, MPutTorrent, AddTorrentMeta, Indexed;
    NeedsIndex(ks, done);
    var k1 := MPutTorrent(ks, t, src.FilesOf(t.id)).0;
    PutKeeps(ks, t, src.FilesOf(t.id));
    MetaKeeps(k1, t.id, src.MetaOf(t.id));
    Numbers(done, t);
    var k := CopyOne(ks, src, t).0;
    IndexedStep(ks, k, done, t);
  }

  lemma Numbers(done: Listing, t: S.DBTorrent)
    requires Walkable(done + [t])
    ensures forall u :: u in done ==> FormatInt(u.id) != FormatInt(t.id)
  {
    IdsApart();
    hide FormatInt;
    var all := done + [t];
    assert all[|done|] == t;
    forall u | u in done ensures u.id != t.id {
      var i :| 0 <= i < |done| && done[i] == u;
      assert all[i] == u && u in all;
    }
  }

  lemma NothingKept(ks: Keyspace)
    requires NoTorrents(ks)
    ensures Kept(ks, [])
  {
    hide FormatInt, TorrentKey;
  }

  lemma {:induction false} KeptAll(ks: Keyspace, src: Source, order: Listing)
    requires NoTorrents(ks) && Walkable(order) && CopyAll(ks, src, order).1
    ensures Kept(CopyAll(ks, src, order).0, order)
    decreases |order|
  {
    hide FormatInt, TorrentKey, CopyOne, Kept, Walkable;
    if order == [] {
      NothingKept(ks);
    } else {
      var k := |order| - 1;
      assert order == order[..k] + [order[k]];
      Prefix(src, order, k);
      KeptAll(ks, src, order[..k]);
      KeptStep(CopyAll(ks, src, order[..k]).0, src, order[..k], order[k]);
    }
  }

  /** If everything reads back, no record stood in the way of files or metadata. */
  lemma ArrivedClear(ks: Keyspace, src: Source, order: Listing, t: S.DBTorrent, u: S.DBTorrent)
    requires Kept(ks, order) && Walkable(order) && Arrived(ks, src, set x | x in order) && t in order && u in order
    ensures ClearOf(src, t, u)
  {
    hide FormatInt, TorrentKey, FilesKey, MetaKey, MGetTorrents, Indexed, Walkable, GetTorrentImage;
    KeyNames(FormatInt(u.id));
    AsAsked(src, u.id);
    assert GetTorrentFiles(ks, u.id) == S.Files(S.ToSet(src.FilesOf(u.id)));
    assert GetTorrentMeta(ks, u.id) == S.Meta(src.MetaOf(u.id));
    assert IsRecord(ks, t.name);
    RecordRead(ks, order, t);
  }

  lemma WalkableIds(order: Listing)
    requires Walkable(order)
    ensures IdsFit(order) && forall t, u :: t in order && u in order && t.id == u.id ==> t == u
  {
  }

  lemma RecordRead(ks: Keyspace, order: Listing, t: S.DBTorrent)
    requires Kept(ks, order) && Walkable(order) && MGetTorrents(ks) == S.All(set x | x in order) && t in order
    ensures Within(RecordOf(t), Fields(ks, TorrentKey(t.name)))
  {
    hide FormatInt, TorrentKey, ParseInt;
    hide Walkable;
    WalkableIds(order);
    var ids := Fields(ks, IDS);
    var read := set sid | sid in ids :: ReadRecord(ks, sid, ids[sid]);
    assert MGetTorrents(ks) == S.All(read) && t in read;
    var sid :| sid in ids && ReadRecord(ks, sid, ids[sid]) == t;
    var v :| v in order && sid == FormatInt(v.id);
    FormatIntRoundTrip(v.id);
    assert v == t;
    assert IsRecord(ks, t.name);
  }

  lemma WinnersWalkable(src: Source, unq: map<string, S.DBTorrent>, order: Listing)
    requires IdsDistinct(src.torrents) && Winners(src.torrents, unq) && Walks(unq, order) && IdsFit(src.torrents)
    ensures Walkable(order) && forall t :: t in order <==> Wins(src.torrents, t)
    ensures (set t | t in order) == set t | t in src.torrents && Wins(src.torrents, t)
  {
    WalkIsWinners(src.torrents, unq, order);
  }

  lemma MigrationClear(ks: Keyspace, src: Source, unq: map<string, S.DBTorrent>, order: Listing)
    requires NoTorrents(ks) && IdsDistinct(src.torrents) && Winners(src.torrents, unq) && Walks(unq, order)
    requires IdsFit(src.torrents)
    ensures var (k, ok) := CopyAll(ks, src, order);
            ok && Arrived(k, src, set t | t in src.torrents && Wins(src.torrents, t))
            <==> forall t, u :: Wins(src.torrents, t) && Wins(src.torrents, u) ==> ClearOf(src, t, u)
  {
    hide CopyAll, Winners, Walks, Wins, Walkable, Arrived, ClearOf, Kept, NoTorrents, IdsDistinct, IdsFit;
    WinnersWalkable(src, unq, order);
    var (k, ok) := CopyAll(ks, src, order);
    if Clear(src, order) { MigratedReads(ks, src, order); }
    if ok && Arrived(k, src, set t | t in order) {
      KeptAll(ks, src, order);
      forall t, u | t in order && u in order ensures ClearOf(src, t, u) { ArrivedClear(k, src, order, t, u); }
    }
  }

  lemma ClearMeans(src: Source, t: S.DBTorrent, u: S.DBTorrent)
    ensures ClearOf(src, t, u) <==>
            && t.name != "f_" + FormatInt(u.id)
            && (t.name == "m_" + FormatInt(u.id) ==>
                  u.id in src.meta && Within(map["name" := t.name, "data" := t.data, "img" := t.image], src.meta[u.id]))
  {
    hide FormatInt;
    assert "name" in RecordOf(t);
  }

  /** The whole migration, from any listing with distinct ids and with any sort and walk order: exactly the record
      with the greatest id of each name arrives, if and only if no winner's name is f_ and the id of a winner, or
      m_ and such an id whose metadata does not repeat the record. */
  lemma MigrationExactly(ks: Keyspace, src: Source, unq: map<string, S.DBTorrent>, order: Listing)
    requires NoTorrents(ks) && IdsDistinct(src.torrents) && Winners(src.torrents, unq) && Walks(unq, order)
    requires IdsFit(src.torrents)
    ensures var (k, ok) := CopyAll(ks, src, order);
            ok && Arrived(k, src, set t | t in src.torrents && Wins(src.torrents, t))
            <==> forall t, u :: Wins(src.torrents, t) && Wins(src.torrents, u) ==>
                   && t.name != "f_" + FormatInt(u.id)
                   && (t.name == "m_" + FormatInt(u.id) ==>
                         u.id in src.meta
                           && Within(map["name" := t.name, "data" := t.data, "img" := t.image], src.meta[u.id]))
  {
    hide CopyAll, Winners, Walks, Arrived, ClearOf, Within, NoTorrents, IdsDistinct, IdsFit, Wins, FormatInt;
    MigrationClear(ks, src, unq, order);
    forall t: S.DBTorrent, u: S.DBTorrent { ClearMeans(src, t, u); }
  }

  /** A lone torrent named like the files key of its own id, with a file, does not even get copied. */
  lemma OwnFilesKey(ks: Keyspace, t: S.DBTorrent, files: seq<string>)
    requires t.name == "f_" + FormatInt(t.id) && files != []
    ensures MPutTorrent(ks, t, files).1 == S.Failed
  {
    hide FormatInt;
    KeyNames(FormatInt(t.id));
  }

  // ----- The first torrent added afterwards

  /** AssignId whatever the record holds otherwise: the id after the counter, indexed under it. */
  lemma AssignNext(ks: Keyspace, key: string, files: seq<string>, n: nat)
    requires CounterIs(ks, n) && n < INT64_MAX && HashKey(ks, IDS) && !FixedKey(key) && HashKey(ks, key)
    requires FilesKey(FormatInt(n + 1)) != key && SetKey(ks, FilesKey(FormatInt(n + 1)))
    ensures var (k, a) := AssignId(ks, key, files);
            && a == S.Id(n + 1)
            && Fields(k, IDS) == Fields(ks, IDS)[FormatInt(n + 1) := key]
  {
    hide FormatInt, FilesKey, Incr, AddFiles;
    var sid := FormatInt(n + 1);
    CounterNext(ks, n);
    var k1 := ks[COUNTER := Str(sid)];
    var k2 := k1[key := Hash(Fields(ks, key) + map["idx" := sid])];
    assert HSet(k1, key, map["idx" := sid]) == (k2, Ok(()));
    assert Fields(ks, IDS) + map[sid := key] == Fields(ks, IDS)[sid := key];
    var k3 := k2[IDS := Hash(Fields(ks, IDS)[sid := key])];
    assert HSet(k2, IDS, map[sid := key]) == (k3, Ok(()));
    FilesApart(sid);
    FilesKeepIndex(k3, n + 1, sid, files);
  }

  lemma FilesApart(sid: string)
    ensures FilesKey(sid) != IDS && FilesKey(sid) != COUNTER
  {
    IdKeysApart(sid, "");
  }

  lemma FilesKeepIndex(ks: Keyspace, id: int, sid: string, files: seq<string>)
    requires FilesKey(sid) != IDS && SetKey(ks, FilesKey(sid))
    ensures AddFiles(ks, id, sid, files).1 == S.Id(id) && Fields(AddFiles(ks, id, sid, files).0, IDS) == Fields(ks, IDS)
  {
  }

  /** Every name keeps clear of the files and metadata keys of all ids. */
  ghost predicate Copyable(order: Listing) { Walkable(order) && forall t :: t in order ==> Safe(t.name) }

  lemma CopyableClear(src: Source, order: Listing)
    requires Copyable(order)
    ensures Walkable(order) && Clear(src, order)
  {
    hide FormatInt, Safe, RecordOf;
    forall t, u | t in order && u in order ensures ClearOf(src, t, u) {
      var id: Int64 := u.id;
      SafeApart(t.name, id);
    }
  }

  lemma SafeApart(name: string, id: Int64)
    requires Safe(name)
    ensures name != "f_" + FormatInt(id) && name != "m_" + FormatInt(id)
  {
    hide FormatInt;
  }

  /** The record of a name is a hash without an id, or nothing. */
  lemma RecordKind(ks: Keyspace, src: Source, done: Listing, name: string)
    requires Inv(ks, src, done) && IdsFit(done) && Safe(name)
    ensures HashKey(ks, TorrentKey(name)) && "idx" !in Fields(ks, TorrentKey(name))
  {
    hide FormatInt, TorrentKey, FilesKey, MetaKey, Indexed, Safe;
    forall u | u in done ensures name != "f_" + FormatInt(u.id) && name != "m_" + FormatInt(u.id) {
      SafeApart(name, u.id);
    }
    if TorrentKey(name) in ks {
      var u :| u in done && Owns(u, name);
      assert u.name == name && Copied(ks, src, u) && !IsMeta(done, name);
    }
  }

  lemma FilesKind(ks: Keyspace, src: Source, done: Listing, id: Int64)
    requires Inv(ks, src, done) && Copyable(done)
    ensures SetKey(ks, FilesKey(FormatInt(id)))
  {
    hide TorrentKey, FilesKey, MetaKey, Indexed, FormatInt;
    KeyNames(FormatInt(id));
    if FilesKey(FormatInt(id)) in ks {
      var u :| u in done && Owns(u, "f_" + FormatInt(id));
      assert Copied(ks, src, u);
      SameId(u, id);
    }
  }

  lemma SameId(u: S.DBTorrent, id: Int64)
    requires Owns(u, "f_" + FormatInt(id)) && Safe(u.name)
    ensures FormatInt(u.id) == FormatInt(id)
  {
    hide FormatInt;
    assert ("f_" + FormatInt(id))[0] == 'f' && ("m_" + FormatInt(u.id))[0] == 'm';
    assert ("f_" + FormatInt(id))[2..] == FormatInt(id) && ("f_" + FormatInt(u.id))[2..] == FormatInt(u.id);
  }

  /** The first AddTorrent after a migration does not know any copied name and takes the id after the last one
      copied, even if that id or that name is already in use. */
  lemma NextId(ks: Keyspace, src: Source, done: Listing, name: string, data: Bytes, files: seq<string>)
    requires Inv(ks, src, done) && Copyable(done) && done != [] && Safe(name)
    requires 0 <= done[|done| - 1].id < INT64_MAX
    ensures var (k, a) := AddTorrent(ks, name, data, files);
            var id := done[|done| - 1].id + 1;
            && a == S.Id(id)
            && Fields(k, IDS) == Fields(ks, IDS)[FormatInt(id) := TorrentKey(name)]
  {
    hide FormatInt, TorrentKey, FilesKey, MetaKey, Safe, Indexed, Copied, AssignId, FixedKey;
    var last: nat := done[|done| - 1].id;
    var key := TorrentKey(name);
    RecordKind(ks, src, done, name);
    FilesKind(ks, src, done, last + 1);
    NeedsIndex(ks, done);
    TorrentKeyApart(name, FormatInt(last + 1));
    FamiliesDisjoint(name, last + 1);
    Stamped(ks, src, done, name, data, files);
    var k1 := ks[key := Hash(Fields(ks, key) + map["name" := name, "data" := data])];
    assert IDS != key && COUNTER != key by { NotFixed(key); }
    AssignNext(k1, key, files, last);
  }

  lemma NotFixed(key: string)
    requires !FixedKey(key)
    ensures IDS != key && COUNTER != key
  {
  }

  lemma Stamped(ks: Keyspace, src: Source, done: Listing, name: string, data: Bytes, files: seq<string>)
    requires HashKey(ks, TorrentKey(name)) && "idx" !in Fields(ks, TorrentKey(name))
    ensures var k1 := ks[TorrentKey(name) := Hash(Fields(ks, TorrentKey(name)) + map["name" := name, "data" := data])];
            AddTorrent(ks, name, data, files) == AssignId(k1, TorrentKey(name), files)
  {
    hide TorrentKey, AssignId, FormatInt, ParseInt;
  }

  /** Every torrent of `ts` is found under its own id. */
  ghost predicate AllIndexed(ks: Keyspace, ts: Listing) {
    forall t :: t in ts ==> FormatInt(t.id) in Fields(ks, IDS) && Fields(ks, IDS)[FormatInt(t.id)] == TorrentKey(t.name)
  }

  /** The index before and after the first torrent that is added. */
  lemma FirstAdded(ks: Keyspace, src: Source, order: Listing, name: string, data: Bytes, files: seq<string>)
    requires NoTorrents(ks) && Copyable(order) && order != [] && Safe(name)
    requires 0 <= order[|order| - 1].id < INT64_MAX
    ensures var k0 := CopyAll(ks, src, order).0;
            var (k, a) := AddTorrent(k0, name, data, files);
            var id := order[|order| - 1].id + 1;
            && AllIndexed(k0, order) && a == S.Id(id)
            && Fields(k, IDS) == Fields(k0, IDS)[FormatInt(id) := TorrentKey(name)]
  {
    hide FormatInt, TorrentKey, Safe, AddTorrent, CopyAll, Inv, Copyable, Walkable, Clear, AllIndexed, Fields,
         NoTorrents;
    CopyableClear(src, order);
    InvAll(ks, src, order);
    InvIndexes(CopyAll(ks, src, order).0, src, order);
    NextId(CopyAll(ks, src, order).0, src, order, name, data, files);
  }

  lemma InvIndexes(ks: Keyspace, src: Source, done: Listing)
    requires Inv(ks, src, done)
    ensures AllIndexed(ks, done)
  {
    hide FormatInt, TorrentKey, Copied, Owned;
  }

  /** The first torrent added after a migration leaves every copied one under its id exactly if the id after
      the last one copied is free, or its own. So it depends on the order the map was walked in. */
  lemma NextIdExactly(ks: Keyspace, src: Source, order: Listing, name: string, data: Bytes, files: seq<string>)
    requires NoTorrents(ks) && Copyable(order) && order != [] && Safe(name)
    requires 0 <= order[|order| - 1].id < INT64_MAX
    ensures AllIndexed(AddTorrent(CopyAll(ks, src, order).0, name, data, files).0, order)
            <==> forall t :: t in order && t.id == order[|order| - 1].id + 1 ==> t.name == name
  {
    hide FormatInt, TorrentKey, Safe, AddTorrent, CopyAll, Copyable, NoTorrents, Fields;
    FirstAdded(ks, src, order, name, data, files);
    IdsApart();
    forall t | t in order ensures TorrentKey(t.name) == TorrentKey(name) <==> t.name == name {
      TorrentKeyApart(t.name, name);
    }
  }

  lemma NamesSafe(order: Listing, t: S.DBTorrent)
    requires Copyable(order) && t in order
    ensures Safe(t.name)
  {
  }

  /** A copied name that is added again is taken for a new one. It keeps its id only if that is the one after the
      last id copied; otherwise it ends up under two. */
  lemma AddedAgain(ks: Keyspace, src: Source, order: Listing, t: S.DBTorrent, data: Bytes, files: seq<string>)
    requires NoTorrents(ks) && Copyable(order) && t in order && 0 <= order[|order| - 1].id < INT64_MAX
    ensures var (k, a) := AddTorrent(CopyAll(ks, src, order).0, t.name, data, files);
            var id := order[|order| - 1].id + 1;
            && a == S.Id(id) && AllIndexed(k, [t, t.(id := id)])
            && (a == S.Id(t.id) <==> t.id == id)
  {
    hide FormatInt, TorrentKey, Safe, AddTorrent, CopyAll, Copyable, NoTorrents, Fields;
    NamesSafe(order, t);
    FirstAdded(ks, src, order, t.name, data, files);
    IdsApart();
  }
}
