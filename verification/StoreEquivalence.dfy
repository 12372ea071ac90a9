/**
 The Redis and the SQL database side by side: the same calls, with each database's own ids, are answered
 alike. The pairing of ids is built from the answers alone.
 */
module StoreEquivalence {
  import opened Basics
  import opened Decimal
  import S = Store
  import R = RedisStore
  import RS = RedisServer
  import Q = SqlStore
  import RedisRuns

  /** Redis id to SQL id, for every torrent AddTorrent has answered with so far. */
  type Pairs = map<int, int>

  predicate Related(pairs: Pairs, i: int, j: int) {
    (i in pairs && pairs[i] == j) || (i == INVALID_DB_ID && j == INVALID_DB_ID)
  }

  predicate Reached(pairs: Pairs, j: int) { exists i :: i in pairs && pairs[i] == j }

  predicate OneToOne(pairs: Pairs) {
    forall i, j :: i in pairs && j in pairs && pairs[i] == pairs[j] ==> i == j
  }

  /** The same call, up to the ids. */
  predicate RelatedCalls(pairs: Pairs, c: S.Call, d: S.Call) {
    match (c, d)
    case (AddTorrentImage(i, x), AddTorrentImage(j, y)) => Related(pairs, i, j) && x == y
    case (AddTorrentMeta(i, x), AddTorrentMeta(j, y)) => Related(pairs, i, j) && x == y
    case (CheckTorrent(i), CheckTorrent(j)) => Related(pairs, i, j)
    case (GetTorrentFiles(i), GetTorrentFiles(j)) => Related(pairs, i, j)
    case (GetTorrentImage(i), GetTorrentImage(j)) => Related(pairs, i, j)
    case (GetTorrentMeta(i), GetTorrentMeta(j)) => Related(pairs, i, j)
    case _ => c == d && !HasId(c)
  }

  predicate HasId(c: S.Call) {
    c.AddTorrentImage? || c.AddTorrentMeta? || c.CheckTorrent? || c.GetTorrentFiles? || c.GetTorrentImage?
      || c.GetTorrentMeta?
  }

  /** The same answer, up to the ids. */
  ghost predicate RelatedAnswers(pairs: Pairs, a: S.Answer, b: S.Answer) {
    match (a, b)
    case (Id(i), Id(j)) => Related(pairs, i, j)
    case (All(x), All(y)) =>
      && (forall r :: r in x ==> r.id in pairs && r.(id := pairs[r.id]) in y)
      && (forall r :: r in y ==> exists q :: q in x && q.id in pairs && r == q.(id := pairs[q.id]))
    case _ => a == b && !a.Id? && !a.All? && !a.Failed? && !a.NotFound?
  }

  /** Calls both databases keep their promise on, as a client can tell: ids it was given (or the invalid id
      for reading files and metadata), images with content, an offset stored before, harmless names. */
  ghost predicate Allowed(pairs: Pairs, offsetKnown: bool, c: S.Call) {
    match c
    case AddTorrent(name, _, _) => R.Safe(name)
    case GetTorrent(name) => R.Safe(name)
    case AddTorrentImage(id, image) => id in pairs && image != ""
    case AddTorrentMeta(id, _) => id in pairs
    case GetTorrentImage(id) => id in pairs
    case GetCrawlOffset => offsetKnown
    case UpdateCrawlOffset(offset) => offset <= UINT64_MAX
    case _ => true
  }

  function Learn(pairs: Pairs, c: S.Call, a: S.Answer, b: S.Answer): Pairs {
    if c.AddTorrent? && a.Id? && b.Id? then pairs[a.id := b.id] else pairs
  }

  /** One call to each database; `newId` is what the SQL database draws if it inserts a row. */
  datatype Turn = Turn(c: S.Call, d: S.Call, newId: int)

  /** As long as the calls are allowed and correspond, so do the answers, and no two ids are ever mixed up. */
  ghost predicate Agree(ks: RS.Keyspace, db: Q.Db, pairs: Pairs, offsetKnown: bool, script: seq<Turn>)
    decreases |script|
  {
    if script == [] then true
    else
      var Turn(c, d, newId) := script[0];
      var (k, a) := R.Do(ks, c);
      var (e, b) := Q.Do(db, d, newId);
      var learned := Learn(pairs, c, a, b);
      Allowed(pairs, offsetKnown, c) && RelatedCalls(pairs, c, d) && |pairs| < INT64_MAX
      && newId > 0 && !Reached(pairs, newId) ==>
        && RelatedAnswers(learned, a, b) && OneToOne(learned)
        && Agree(k, e, learned, offsetKnown || c.UpdateCrawlOffset?, script[1..])
  }

  // ----- The proof, through the store both of them implement

  /** The same store under two numberings. */
  ghost predicate SameBut(s: S.Catalog, t: S.Catalog, pairs: Pairs) {
    && s.Valid() && t.Valid()
    && pairs.Keys == s.names.Keys && (forall i :: i in pairs ==> pairs[i] in t.names && t.names[pairs[i]] == s.names[i])
    && (forall j :: j in t.names ==> Reached(pairs, j))
    && t.torrents == s.torrents && t.chats == s.chats && t.admins == s.admins && t.offset == s.offset
  }

  lemma SameIsOneToOne(s: S.Catalog, t: S.Catalog, pairs: Pairs)
    requires SameBut(s, t, pairs)
    ensures OneToOne(pairs)
  {
  }

  /** The same torrent in both numberings. */
  lemma Counterpart(s: S.Catalog, t: S.Catalog, pairs: Pairs, i: int, j: int)
    requires SameBut(s, t, pairs) && Related(pairs, i, j)
    ensures i in s.names <==> j in t.names
    ensures i in s.names ==> s.names[i] == t.names[j] && s.names[i] in s.torrents && s.EntryOf(i) == t.EntryOf(j)
  {
  }

  lemma SameIdOf(s: S.Catalog, t: S.Catalog, pairs: Pairs, name: string)
    requires SameBut(s, t, pairs)
    ensures s.Known(name) <==> t.Known(name)
    ensures Related(pairs, s.IdOf(name), t.IdOf(name))
  {
    if s.Known(name) {
      assert t.names[pairs[s.IdOf(name)]] == name;
    }
    if t.Known(name) {
      var j := t.IdOf(name);
      assert Reached(pairs, j);
      var i :| i in pairs && pairs[i] == j;
      assert s.names[i] == name;
    }
  }

  lemma SamePut(s: S.Catalog, t: S.Catalog, pairs: Pairs, i: int, j: int, e: S.Entry)
    requires SameBut(s, t, pairs) && i in s.names && Related(pairs, i, j)
    ensures j in t.names && SameBut(s.Put(i, e), t.Put(j, e), pairs)
  {
    Counterpart(s, t, pairs, i, j);
    S.PutValid(s, i, e);
    S.PutValid(t, j, e);
  }

  lemma PairedToo(names: map<int, string>, more: map<int, string>, pairs: Pairs, learned: Pairs, f: int, g: int)
    requires forall j :: j in names ==> Reached(pairs, j)
    requires f !in pairs && learned == pairs[f := g] && more.Keys == names.Keys + {g}
    ensures forall j :: j in more ==> Reached(learned, j)
  {
    forall j | j in more ensures Reached(learned, j) {
      if j == g {
        assert learned[f] == j;
      } else {
        assert Reached(pairs, j);
        var i :| i in pairs && pairs[i] == j;
        assert learned[i] == j;
      }
    }
  }

  lemma SameExtended(s: S.Catalog, t: S.Catalog, pairs: Pairs, f: int, g: int, name: string, e: S.Entry)
    requires SameBut(s, t, pairs) && S.FreshFor(s, f) && S.FreshFor(t, g) && !s.Known(name) && !t.Known(name)
    ensures SameBut(S.Extended(s, f, name, e), S.Extended(t, g, name, e), pairs[f := g])
  {
    hide S.Catalog.Valid, Reached, S.Catalog.Known;
    S.ExtendedValid(s, f, name, e);
    S.ExtendedValid(t, g, name, e);
    PairedToo(t.names, t.names[g := name], pairs, pairs[f := g], f, g);
  }

  /** AddTorrent of a known name, and of a new one. */
  lemma AddKnownStep(s: S.Catalog, c: S.Call, f: int)
    requires s.Valid() && c.AddTorrent? && s.Known(c.name)
    ensures var id := s.IdOf(c.name);
            && id in s.names && s.names[id] in s.torrents
            && var e := s.EntryOf(id);
               S.Step(s, c, f) == (s.Put(id, e.(data := c.data, files := e.files + S.ToSet(c.files))), S.Id(id))
  {
  }

  lemma AddNewStep(s: S.Catalog, c: S.Call, f: int)
    requires s.Valid() && c.AddTorrent? && !s.Known(c.name)
    ensures S.Step(s, c, f) == (S.Extended(s, f, c.name, S.Entry(c.data, "", S.ToSet(c.files), map[])), S.Id(f))
  {
  }

  lemma AddAgrees(s: S.Catalog, t: S.Catalog, pairs: Pairs, c: S.Call, f: int, g: int)
    requires SameBut(s, t, pairs) && c.AddTorrent? && S.FreshFor(s, f) && S.FreshFor(t, g)
    ensures var (s1, a) := S.Step(s, c, f);
            var (t1, b) := S.Step(t, c, g);
            var learned := Learn(pairs, c, a, b);
            RelatedAnswers(learned, a, b) && SameBut(s1, t1, learned)
  {
    hide SameBut, S.Step, S.Catalog.Valid, S.Catalog.Known;
    Hold(s, t, pairs);
    SameIdOf(s, t, pairs, c.name);
    if s.Known(c.name) {
      var i, j := s.IdOf(c.name), t.IdOf(c.name);
      AddKnownStep(s, c, f);
      AddKnownStep(t, c, g);
      Counterpart(s, t, pairs, i, j);
      var e := s.EntryOf(i);
      SamePut(s, t, pairs, i, j, e.(data := c.data, files := e.files + S.ToSet(c.files)));
      PairedAlready(s, pairs, i, j);
    } else {
      AddNewStep(s, c, f);
      AddNewStep(t, c, g);
      SameExtended(s, t, pairs, f, g, c.name, S.Entry(c.data, "", S.ToSet(c.files), map[]));
    }
  }

  lemma PairedAlready(s: S.Catalog, pairs: Pairs, i: int, j: int)
    requires s.Valid() && i in s.names && Related(pairs, i, j)
    ensures pairs[i := j] == pairs && i in pairs && pairs[i] == j
  {
  }

  lemma Hold(s: S.Catalog, t: S.Catalog, pairs: Pairs)
    requires SameBut(s, t, pairs)
    ensures s.Valid() && t.Valid() && pairs.Keys == s.names.Keys && (forall j :: Reached(pairs, j) <==> j in t.names)
            && |pairs| == |s.names|
  {
    assert |pairs| == |pairs.Keys| && |s.names| == |s.names.Keys|;
  }

  lemma WriteStep(s: S.Catalog, c: S.Call, f: int)
    requires s.Valid() && (c.AddTorrentImage? || c.AddTorrentMeta?) && c.id in s.names
    ensures s.names[c.id] in s.torrents
    ensures var e := s.EntryOf(c.id);
            S.Step(s, c, f)
              == (s.Put(c.id, if c.AddTorrentImage? then e.(image := c.image) else e.(meta := e.meta + c.meta)), S.Done)
  {
  }

  lemma WriteAgrees(s: S.Catalog, t: S.Catalog, pairs: Pairs, c: S.Call, d: S.Call, f: int, g: int)
    requires SameBut(s, t, pairs) && RelatedCalls(pairs, c, d) && S.Common(s, c)
    requires c.AddTorrentImage? || c.AddTorrentMeta?
    ensures var (s1, a) := S.Step(s, c, f);
            var (t1, b) := S.Step(t, d, g);
            RelatedAnswers(pairs, a, b) && SameBut(s1, t1, pairs)
  {
    hide SameBut, S.Step, S.Catalog.Valid;
    Hold(s, t, pairs);
    Counterpart(s, t, pairs, c.id, d.id);
    WriteStep(s, c, f);
    WriteStep(t, d, g);
    var e := s.EntryOf(c.id);
    SamePut(s, t, pairs, c.id, d.id, if c.AddTorrentImage? then e.(image := c.image) else e.(meta := e.meta + c.meta));
  }

  lemma ReadAgrees(s: S.Catalog, t: S.Catalog, pairs: Pairs, c: S.Call, d: S.Call, f: int, g: int)
    requires SameBut(s, t, pairs) && RelatedCalls(pairs, c, d) && S.Common(s, c)
    requires c.CheckTorrent? || c.GetTorrentFiles? || c.GetTorrentImage? || c.GetTorrentMeta?
    ensures var (s1, a) := S.Step(s, c, f);
            var (t1, b) := S.Step(t, d, g);
            RelatedAnswers(pairs, a, b) && SameBut(s1, t1, pairs)
  {
    hide SameBut, S.Catalog.Valid;
    Hold(s, t, pairs);
    Counterpart(s, t, pairs, c.id, d.id);
  }

  lemma LookupAgrees(s: S.Catalog, t: S.Catalog, pairs: Pairs, name: string, f: int, g: int)
    requires SameBut(s, t, pairs)
    ensures var (s1, a) := S.Step(s, S.GetTorrent(name), f);
            var (t1, b) := S.Step(t, S.GetTorrent(name), g);
            RelatedAnswers(pairs, a, b) && SameBut(s1, t1, pairs)
  {
    hide SameBut, S.Catalog.Valid;
    Hold(s, t, pairs);
    SameIdOf(s, t, pairs, name);
  }

  lemma ListingAgrees(s: S.Catalog, t: S.Catalog, pairs: Pairs)
    requires SameBut(s, t, pairs)
    ensures s.Valid() && t.Valid() && RelatedAnswers(pairs, S.All(S.Listing(s)), S.All(S.Listing(t)))
  {
    forall r | r in S.Listing(s) ensures r.id in pairs && r.(id := pairs[r.id]) in S.Listing(t) {
      Counterpart(s, t, pairs, r.id, pairs[r.id]);
    }
    forall r | r in S.Listing(t) ensures exists q :: q in S.Listing(s) && q.id in pairs && r == q.(id := pairs[q.id]) {
      assert Reached(pairs, r.id);
      var i :| i in pairs && pairs[i] == r.id;
      Counterpart(s, t, pairs, i, r.id);
      var q := S.DBTorrent(i, s.names[i], s.EntryOf(i).data, s.EntryOf(i).image);
      assert q in S.Listing(s) && r == q.(id := pairs[q.id]);
    }
  }

  lemma PlainKeeps(s: S.Catalog, t: S.Catalog, pairs: Pairs, s1: S.Catalog, t1: S.Catalog)
    requires SameBut(s, t, pairs) && s1.names == s.names && s1.torrents == s.torrents && t1.names == t.names
             && t1.torrents == t.torrents
    requires s1.chats == t1.chats && s1.admins == t1.admins && s1.offset == t1.offset
    ensures SameBut(s1, t1, pairs)
  {
    S.StillValid(s, s1);
    S.StillValid(t, t1);
  }

  lemma PlainAgrees(s: S.Catalog, t: S.Catalog, pairs: Pairs, c: S.Call, f: int, g: int)
    requires SameBut(s, t, pairs) && S.Common(s, c) && !HasId(c)
    requires c.GetCrawlOffset? || c.UpdateCrawlOffset? || c.AddMember? || c.DelMember? || c.GetMemberExist?
             || c.GetMembers?
    ensures var (s1, a) := S.Step(s, c, f);
            var (t1, b) := S.Step(t, c, g);
            RelatedAnswers(pairs, a, b) && SameBut(s1, t1, pairs)
  {
    hide SameBut, S.Catalog.Valid;
    SamePlain(s, t, pairs);
    PlainKeeps(s, t, pairs, S.Step(s, c, f).0, S.Step(t, c, g).0);
  }

  lemma SamePlain(s: S.Catalog, t: S.Catalog, pairs: Pairs)
    requires SameBut(s, t, pairs)
    ensures s.Valid() && t.Valid() && s.chats == t.chats && s.admins == t.admins && s.offset == t.offset
  {
  }

  /** Corresponding calls on the same store under two numberings have corresponding answers. */
  lemma StepAgrees(s: S.Catalog, t: S.Catalog, pairs: Pairs, c: S.Call, d: S.Call, f: int, g: int)
    requires SameBut(s, t, pairs) && RelatedCalls(pairs, c, d) && S.Common(s, c) && S.FreshFor(s, f) && S.FreshFor(t, g)
    ensures var (s1, a) := S.Step(s, c, f);
            var (t1, b) := S.Step(t, d, g);
            var learned := Learn(pairs, c, a, b);
            RelatedAnswers(learned, a, b) && SameBut(s1, t1, learned)
  {
    hide SameBut, S.Step, RelatedAnswers, S.Common;
    match c
    case AddTorrent(_, _, _) => AddAgrees(s, t, pairs, c, f, g);
    case AddTorrentImage(_, _) => WriteAgrees(s, t, pairs, c, d, f, g);
    case AddTorrentMeta(_, _) => WriteAgrees(s, t, pairs, c, d, f, g);
    case MGetTorrents => ListingAgrees(s, t, pairs); ListingIsStep(s, f); ListingIsStep(t, g);
    case GetCrawlOffset => PlainAgrees(s, t, pairs, c, f, g);
    case UpdateCrawlOffset(_) => PlainAgrees(s, t, pairs, c, f, g);
    case AddMember(_, _) => PlainAgrees(s, t, pairs, c, f, g);
    case DelMember(_, _) => PlainAgrees(s, t, pairs, c, f, g);
    case GetMemberExist(_, _) => PlainAgrees(s, t, pairs, c, f, g);
    case GetMembers(_) => PlainAgrees(s, t, pairs, c, f, g);
    case GetTorrent(name) => LookupAgrees(s, t, pairs, name, f, g);
    case _ => ReadAgrees(s, t, pairs, c, d, f, g);
  }

  lemma ListingIsStep(s: S.Catalog, f: int)
    requires s.Valid()
    ensures S.Step(s, S.MGetTorrents, f) == (s, S.All(S.Listing(s)))
  {
  }

  /** What a client may call is what both databases promise. */
  lemma AllowedIsCommon(s: S.Catalog, t: S.Catalog, pairs: Pairs, known: bool, c: S.Call, d: S.Call)
    requires SameBut(s, t, pairs) && Allowed(pairs, known, c) && RelatedCalls(pairs, c, d) && (known ==> s.offset.Some?)
    ensures S.Common(s, c) && S.Common(t, d) && R.Harmless(c)
  {
    hide R.Safe;
  }

  /** The step both databases take together. */
  lemma TurnAgrees(ks: RS.Keyspace, db: Q.Db, s: S.Catalog, t: S.Catalog, pairs: Pairs, known: bool, turn: Turn)
    requires R.Represents(ks, s) && Q.Represents(db, t) && SameBut(s, t, pairs) && (known ==> s.offset.Some?)
    requires Allowed(pairs, known, turn.c) && RelatedCalls(pairs, turn.c, turn.d) && |pairs| < INT64_MAX
    requires turn.newId > 0 && !Reached(pairs, turn.newId)
    ensures s.Valid() && t.Valid()
    ensures var (k, a) := R.Do(ks, turn.c);
            var (e, b) := Q.Do(db, turn.d, turn.newId);
            var s1 := S.Step(s, turn.c, |s.names| + 1).0;
            var t1 := S.Step(t, turn.d, turn.newId).0;
            var learned := Learn(pairs, turn.c, a, b);
            && R.Represents(k, s1) && Q.Represents(e, t1) && SameBut(s1, t1, learned)
            && RelatedAnswers(learned, a, b) && OneToOne(learned)
            && (known || turn.c.UpdateCrawlOffset? ==> s1.offset.Some?)
  {
    hide R.Represents, Q.Represents, SameBut, S.Step, R.Do, Q.Do, RelatedAnswers, Allowed, S.Common, R.Harmless,
         OneToOne;
    Hold(s, t, pairs);
    RedisIds(ks, s);
    AllowedIsCommon(s, t, pairs, known, turn.c, turn.d);
    R.CallRefines(ks, s, turn.c);
    Q.CallRefines(db, t, turn.d, turn.newId);
    StepAgrees(s, t, pairs, turn.c, turn.d, |s.names| + 1, turn.newId);
    OffsetKept(s, turn.c, |s.names| + 1);
    SameIsOneToOne(S.Step(s, turn.c, |s.names| + 1).0, S.Step(t, turn.d, turn.newId).0,
                   Learn(pairs, turn.c, R.Do(ks, turn.c).1, Q.Do(db, turn.d, turn.newId).1));
  }

  lemma RedisIds(ks: RS.Keyspace, s: S.Catalog)
    requires R.Represents(ks, s)
    ensures s.Valid() && S.FreshFor(s, |s.names| + 1)
  {
    hide FormatInt, R.IndexIs, R.RecordsAre, R.FilesAre, R.MetaIs, R.RosterIs;
  }

  lemma OffsetKept(s: S.Catalog, c: S.Call, f: int)
    requires s.Valid()
    ensures s.offset.Some? || c.UpdateCrawlOffset? ==> S.Step(s, c, f).0.offset.Some?
  {
  }

  lemma {:induction false} AgreeFrom(ks: RS.Keyspace, db: Q.Db, s: S.Catalog, t: S.Catalog, pairs: Pairs, known: bool,
                                     script: seq<Turn>)
    requires R.Represents(ks, s) && Q.Represents(db, t) && SameBut(s, t, pairs) && (known ==> s.offset.Some?)
    ensures Agree(ks, db, pairs, known, script)
    decreases |script|
  {
    hide R.Represents, Q.Represents, SameBut, S.Step, R.Do, Q.Do, RelatedAnswers, RelatedCalls, Allowed, OneToOne,
         Learn;
    if script != [] {
      var Turn(c, d, newId) := script[0];
      if Allowed(pairs, known, c) && RelatedCalls(pairs, c, d) && |pairs| < INT64_MAX && newId > 0
        && !Reached(pairs, newId) {
        TurnAgrees(ks, db, s, t, pairs, known, script[0]);
        var (k, a) := R.Do(ks, c);
        var (e, b) := Q.Do(db, d, newId);
        AgreeFrom(k, e, S.Step(s, c, |s.names| + 1).0, S.Step(t, d, newId).0, Learn(pairs, c, a, b),
                  known || c.UpdateCrawlOffset?, script[1..]);
      }
    }
  }

  /** Two empty databases answer every client alike, up to a one-to-one renaming of ids, for any sequence of
      allowed calls and whatever ids the SQL database draws. */
  lemma ObservationallyEqual(script: seq<Turn>)
    ensures Agree(map[], Q.EMPTY, map[], false, script)
  {
    hide FormatInt, R.Represents, Q.Represents, Agree;
    RedisRuns.EmptyRepresents();
    Q.EmptyRepresents();
    assert SameBut(S.EMPTY, S.EMPTY, map[]);
    AgreeFrom(map[], Q.EMPTY, S.EMPTY, S.EMPTY, map[], false, script);
  }

  // ----- Where they part

  /** Reading the crawl offset agrees exactly when one was stored: Redis takes 0 for granted, SQL fails. */
  lemma OffsetAgreesExactly(ks: RS.Keyspace, db: Q.Db, offset: Option<nat>)
    requires R.OffsetIs(ks, offset) && Q.OffsetIs(db, offset)
    ensures R.GetCrawlOffset(ks) == Q.GetCrawlOffset(db) <==> offset.Some?
  {
    R.OffsetReadRefines(ks, offset);
    Q.OffsetReads(db, offset);
    hide FormatNat, ParseUint, R.GetCrawlOffset, Q.GetCrawlOffset;
  }

  /** Storing an image: the answers agree exactly for known ids and empty images, and then both databases
      hold the same image exactly if it is not an empty one replacing another. */
  lemma ImageAgreesExactly(ks: RS.Keyspace, db: Q.Db, s: S.Catalog, t: S.Catalog, pairs: Pairs, i: Int64, j: Int64,
                           image: S.Bytes)
    requires R.Represents(ks, s) && Q.Represents(db, t) && SameBut(s, t, pairs)
    requires if i in s.names then Related(pairs, i, j) else j !in t.names
    ensures R.AddTorrentImage(ks, i, image).1 == Q.AddTorrentImage(db, j, image).1 <==> i in s.names || image == ""
    ensures i in s.names ==> s.names[i] in s.torrents
    ensures i in s.names ==>
              (R.GetTorrentImage(R.AddTorrentImage(ks, i, image).0, i)
               == Q.GetTorrentImage(Q.AddTorrentImage(db, j, image).0, j)
               <==> image != "" || s.EntryOf(i).image == "")
  {
    hide FormatInt, R.Represents, Q.Represents, SameBut;
    if i in s.names {
      R.EntryHeld(ks, s, i);
      Counterpart(s, t, pairs, i, j);
      if image == "" {
        hide R.GetTorrentImage;
        R.ImageReadRefines(ks, s, i);
        SqlImage(db, t, j);
      } else {
        BothImages(ks, db, s, t, pairs, i, j, image);
      }
    } else {
      NoImage(ks, s, i, image);
    }
  }

  /** Reading an image agrees exactly for known ids. For others Redis reports that there is no such torrent, also when
      an image is to be stored, and SQL answers an empty image. */
  lemma ImageReadAgreesExactly(ks: RS.Keyspace, db: Q.Db, s: S.Catalog, t: S.Catalog, pairs: Pairs, i: Int64,
                               j: Int64, image: S.Bytes)
    requires R.Represents(ks, s) && Q.Represents(db, t) && SameBut(s, t, pairs) && image != ""
    requires if i in s.names then Related(pairs, i, j) else j !in t.names
    ensures R.GetTorrentImage(ks, i) == Q.GetTorrentImage(db, j) <==> i in s.names
    ensures i !in s.names ==> R.GetTorrentImage(ks, i) == S.NotFound && Q.GetTorrentImage(db, j) == S.Image("")
    ensures i !in s.names ==>
              R.AddTorrentImage(ks, i, image) == (ks, S.NotFound) && Q.AddTorrentImage(db, j, image).0 == db
  {
    if i in s.names {
      hide R.Represents, R.GetTorrentImage, R.AddTorrentImage;
      R.ImageReadRefines(ks, s, i);
      Counterpart(s, t, pairs, i, j);
      SqlImage(db, t, j);
    } else {
      hide FormatInt, R.RecordsAre, R.FilesAre, R.MetaIs, R.RosterIs, R.OffsetIs;
    }
  }

  lemma SqlImage(db: Q.Db, t: S.Catalog, j: int)
    requires Q.Represents(db, t) && j in t.names
    ensures j in db.torrents && t.names[j] in t.torrents && db.torrents[j].image == t.EntryOf(j).image
  {
  }

  lemma BothImages(ks: RS.Keyspace, db: Q.Db, s: S.Catalog, t: S.Catalog, pairs: Pairs, i: Int64, j: Int64,
                   image: S.Bytes)
    requires R.Represents(ks, s) && Q.Represents(db, t) && SameBut(s, t, pairs) && i in s.names && Related(pairs, i, j)
             && image != ""
    ensures R.AddTorrentImage(ks, i, image).1 == Q.AddTorrentImage(db, j, image).1 == S.Done
    ensures R.GetTorrentImage(R.AddTorrentImage(ks, i, image).0, i)
            == Q.GetTorrentImage(Q.AddTorrentImage(db, j, image).0, j)
  {
    hide FormatInt, R.Represents, Q.Represents, SameBut, R.GetTorrentImage, R.AddTorrentImage;
    Hold(s, t, pairs);
    Counterpart(s, t, pairs, i, j);
    R.ImageRefines(ks, s, i, image);
    SqlImage(db, t, j);
    S.PutValid(s, i, s.EntryOf(i).(image := image));
    R.ImageReadRefines(R.AddTorrentImage(ks, i, image).0, s.Put(i, s.EntryOf(i).(image := image)), i);
  }

  lemma NoImage(ks: RS.Keyspace, s: S.Catalog, i: Int64, image: S.Bytes)
    requires R.Represents(ks, s) && i !in s.names
    ensures R.AddTorrentImage(ks, i, image) == (ks, if image == "" then S.Done else S.NotFound)
  {
    hide FormatInt, R.TorrentKey, R.FilesKey, R.MetaKey, R.Safe, R.CounterIs, R.RosterIs, R.OffsetIs, R.RecordsAre,
         R.FilesAre, R.MetaIs;
  }
}
