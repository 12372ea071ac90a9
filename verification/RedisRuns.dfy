/** Whole runs of the Redis store, and exactly which torrent names it can be trusted with. */
module RedisRuns {
  import opened Decimal
  import opened RedisServer
  import opened RedisStore
  import S = Store

  function Run(ks: Keyspace, calls: seq<S.Call>): (Keyspace, seq<S.Answer>)
    decreases |calls|
  {
    if calls == [] then (ks, [])
    else
      var (k, a) := Do(ks, calls[0]);
      var (last, rest) := Run(k, calls[1..]);
      (last, [a] + rest)
  }

  /** The same calls on the abstract store, which hands out ids 1, 2, 3, ... */
  ghost function SpecRun(s: S.Catalog, calls: seq<S.Call>): (S.Catalog, seq<S.Answer>)
    decreases |calls|
  {
    if calls == [] || !s.Valid() then (s, [])
    else
      var (t, a) := S.Step(s, calls[0], |s.names| + 1);
      var (last, rest) := SpecRun(t, calls[1..]);
      (last, [a] + rest)
  }

  /** Every call of the run is one the databases keep their promise on, and ids do not run out. */
  ghost predicate CommonRun(s: S.Catalog, calls: seq<S.Call>)
    decreases |calls|
  {
    calls == [] ||
    (s.Valid() && S.Common(s, calls[0]) && |s.names| < INT64_MAX &&
     CommonRun(S.Step(s, calls[0], |s.names| + 1).0, calls[1..]))
  }

  /** From any state that lays out a store, every run answers as the store does, call by call. */
  lemma {:induction false} RunRefines(ks: Keyspace, s: S.Catalog, calls: seq<S.Call>)
    requires Represents(ks, s) && CommonRun(s, calls) && forall c :: c in calls ==> Harmless(c)
    ensures Run(ks, calls).1 == SpecRun(s, calls).1
    ensures Represents(Run(ks, calls).0, SpecRun(s, calls).0)
    decreases |calls|
  {
    hide Represents, Do, S.Step, Harmless, S.Common;
    if calls != [] {
      assert calls[0] in calls && forall c :: c in calls[1..] ==> c in calls;
      Laid(ks, s);
      CallRefines(ks, s, calls[0]);
      RunRefines(Do(ks, calls[0]).0, S.Step(s, calls[0], |s.names| + 1).0, calls[1..]);
    }
  }

  lemma Laid(ks: Keyspace, s: S.Catalog)
    requires Represents(ks, s)
    ensures s.Valid()
  {
  }

  lemma EmptyTorrents()
    ensures S.EMPTY.Valid() && IndexIs(map[], map[]) && RecordsAre(map[], S.EMPTY)
  {
    hide FormatInt, TorrentKey, FilesKey, MetaKey, Safe;
  }

  lemma EmptyExtras()
    ensures S.EMPTY.Valid() && FilesAre(map[], S.EMPTY) && MetaIs(map[], S.EMPTY)
    ensures RosterIs(map[], CHATS, {}) && RosterIs(map[], ADMINS, {})
  {
    hide FormatInt, TorrentKey, FilesKey, MetaKey, Safe;
  }

  lemma EmptyRepresents()
    ensures Represents(map[], S.EMPTY)
  {
    hide FormatInt, TorrentKey, FilesKey, MetaKey, Safe, FilesAre, MetaIs, RosterIs, IndexIs, RecordsAre,
         S.Catalog.Valid;
    EmptyTorrents();
    EmptyExtras();
  }

  /** Calls that bring in no other doubtful name than `name`. */
  ghost predicate OnlyDoubt(calls: seq<S.Call>, name: string) {
    forall c :: c in calls && (c.AddTorrent? || c.GetTorrent?) ==> c.name == name || Safe(c.name)
  }

  /** A database that starts empty may be given this name: it answers every such run as the store does. */
  ghost predicate Usable(name: string) {
    forall calls :: OnlyDoubt(calls, name) && CommonRun(S.EMPTY, calls) ==>
        Run(map[], calls).1 == SpecRun(S.EMPTY, calls).1
  }

  lemma AddAlone(name: string)
    ensures var k4 := map[TorrentKey(name) := Hash(FreshFields(FormatInt(1), name, ""))];
            var (k, a) := AddTorrent(map[], name, "", []);
            a == S.Id(1) && TorrentKey(name) in k && k[TorrentKey(name)] == k4[TorrentKey(name)]
  {
    hide FormatInt, TorrentKey, ParseInt;
    TorrentKeyApart(name, name);
    StartNew(map[], name, "", []);
    Assign(map[][TorrentKey(name) := Hash(StartFields(name, ""))], TorrentKey(name), name, "", [], 0);
  }

  lemma FirstOfTwo(name: string)
    ensures S.EMPTY.Valid()
    ensures var (t, a) := S.Step(S.EMPTY, S.AddTorrent(name, "", []), 1);
            a == S.Id(1) && t.Valid() && t.names == map[1 := name]
              && t.torrents == map[name := S.Entry("", "", {}, map[])]
  {
    assert !S.EMPTY.Known(name);
    S.StepValid(S.EMPTY, S.AddTorrent(name, "", []), 1);
    assert S.ToSet([]) == {};
  }

  lemma AddIsCommon(name: string)
    ensures S.Common(S.EMPTY, S.AddTorrent(name, "", []))
  {
  }

  lemma ReadOfOne(s: S.Catalog, name: string, c: S.Call)
    requires s.Valid() && s.names == map[1 := name] && s.torrents == map[name := S.Entry("", "", {}, map[])]
    requires c.GetTorrentFiles? || c.GetTorrentMeta?
    ensures S.Common(s, c)
    ensures S.Step(s, c, 2) == (s, if c.GetTorrentFiles? then S.Files({}) else S.Meta(map[]))
  {
  }

  lemma SpecOfTwo(name: string, c: S.Call)
    requires c.GetTorrentFiles? || c.GetTorrentMeta?
    ensures var calls := [S.AddTorrent(name, "", []), c];
            && CommonRun(S.EMPTY, calls)
            && SpecRun(S.EMPTY, calls).1 == [S.Id(1), if c.GetTorrentFiles? then S.Files({}) else S.Meta(map[])]
  {
    hide S.Catalog.Valid, S.Step, S.Common;
    var first := S.AddTorrent(name, "", []);
    FirstOfTwo(name);
    AddIsCommon(name);
    var s1 := S.Step(S.EMPTY, first, 1).0;
    ReadOfOne(s1, name, c);
    assert [first, c][1..] == [c] && [c][1..] == [];
    assert |s1.names| == |{1}|;
    assert SpecRun(s1, [c]).1 == [S.Step(s1, c, 2).1];
    assert CommonRun(s1, [c]);
  }

  lemma RunOfTwo(name: string, c: S.Call)
    ensures Run(map[], [S.AddTorrent(name, "", []), c]).1
         == [AddTorrent(map[], name, "", []).1, Do(AddTorrent(map[], name, "", []).0, c).1]
  {
    hide AddTorrent;
    var first := S.AddTorrent(name, "", []);
    assert [first, c][1..] == [c] && [c][1..] == [];
    assert Run(Do(map[], first).0, [c]).1 == [Do(Do(map[], first).0, c).1];
  }

  /** Reading the files or metadata key of `id` when it holds a torrent's record instead. */
  lemma ReadsRecord(k: Keyspace, name: string, id: Int64)
    requires TorrentKey(name) in k && k[TorrentKey(name)] == Hash(FreshFields(FormatInt(1), name, ""))
    ensures TorrentKey(name) == FilesKey(FormatInt(id)) ==> GetTorrentFiles(k, id) == S.Failed
    ensures TorrentKey(name) == MetaKey(FormatInt(id)) ==>
              GetTorrentMeta(k, id) == S.Meta(FreshFields(FormatInt(1), name, ""))
                && GetTorrentMeta(k, id) != S.Meta(map[])
  {
    hide FormatInt, TorrentKey, FilesKey, MetaKey;
    assert "name" in FreshFields(FormatInt(1), name, "");
  }

  /** A name that looks like a files or metadata key is served wrongly after two calls. */
  lemma DoubtfulNameBreaks(name: string, id: Int64)
    requires name == "f_" + FormatInt(id) || name == "m_" + FormatInt(id)
    ensures !Usable(name)
  {
    hide FormatInt, CommonRun, SpecRun, Run, AddTorrent, GetTorrentFiles, GetTorrentMeta;
    var files := name == "f_" + FormatInt(id);
    var c := if files then S.GetTorrentFiles(id) else S.GetTorrentMeta(id);
    SpecOfTwo(name, c);
    RunOfTwo(name, c);
    AddAlone(name);
    TorrentKeyApart(name, FormatInt(id));
    ReadsRecord(AddTorrent(map[], name, "", []).0, name, id);
    var calls := [S.AddTorrent(name, "", []), c];
    assert OnlyDoubt(calls, name);
    assert Run(map[], calls).1[1] != SpecRun(S.EMPTY, calls).1[1];
  }

  lemma SafeIsUsable(name: string)
    requires Safe(name)
    ensures Usable(name)
  {
    hide Safe, Represents, CommonRun, SpecRun, Run;
    forall calls | OnlyDoubt(calls, name) && CommonRun(S.EMPTY, calls)
      ensures Run(map[], calls).1 == SpecRun(S.EMPTY, calls).1
    {
      forall c | c in calls ensures Harmless(c) {}
      EmptyRepresents();
      RunRefines(map[], S.EMPTY, calls);
    }
  }

  /** The Redis database serves a torrent name as the store promises in every run exactly when the name is
      not f_ or m_ followed by the decimal form of an int64. */
  lemma UsableExactly(name: string)
    ensures Usable(name) <==> Safe(name)
  {
    hide Usable, FormatInt;
    if Safe(name) {
      SafeIsUsable(name);
    } else {
      var id: Int64 :| name == "f_" + FormatInt(id) || name == "m_" + FormatInt(id);
      DoubtfulNameBreaks(name, id);
    }
  }
}
