/** Whole runs of the crawl over one database: what is announced as new, and whether stored posters match. */
module ObserverRuns {
  import opened Basics
  import opened Observer
  import S = Store

  /** One successful check: what was found, the weather of its notification, and the id a new torrent gets. */
  datatype Visit = Visit(x: Sighting, w: Weather, newId: int)

  /** CheckTorrent without database faults in the check itself: record, then notify. */
  ghost function Visited(s: S.Catalog, site: Site, v: Visit): S.Catalog
    requires s.Valid() && S.FreshFor(s, v.newId)
  {
    RecordedValid(s, v.x, v.newId);
    var r := Recorded(s, v.x, v.newId);
    Noted(r, site, r.IdOf(v.x.name), v.w)
  }

  lemma NotedFiles(s: S.Catalog, site: Site, id: int, w: Weather)
    requires s.Valid()
    ensures Noted(s, site, id, w).Valid() && Noted(s, site, id, w).names == s.names
    ensures forall n :: Noted(s, site, id, w).Known(n) <==> s.Known(n)
    ensures forall n :: StoredFiles(Noted(s, site, id, w), n) == StoredFiles(s, n)
  {
    NotedValid(s, site, id, w);
    if id in s.names {
      var e := Refreshed(site, s.EntryOf(id), w);
      S.PutValid(s, id, e);
      var r := s.Put(id, e);
      forall n ensures StoredFiles(r, n) == StoredFiles(s, n) {
        if s.Known(n) { assert r.Known(n) && r.IdOf(n) == s.IdOf(n); }
      }
    }
  }

  /** A visit adds the files it saw to those of its torrent, and touches no other torrent. */
  lemma VisitFiles(s: S.Catalog, site: Site, v: Visit)
    requires s.Valid() && S.FreshFor(s, v.newId)
    ensures var t := Visited(s, site, v);
            && t.Valid() && t.names.Keys <= s.names.Keys + {v.newId}
            && (forall n :: t.Known(n) <==> s.Known(n) || n == v.x.name)
            && (forall n :: StoredFiles(t, n) == StoredFiles(s, n) + if n == v.x.name then v.x.files else {})
  {
    hide S.Catalog.Valid, Recorded, Noted, StoredFiles;
    RecordedValid(s, v.x, v.newId);
    var r := Recorded(s, v.x, v.newId);
    NotedFiles(r, site, r.IdOf(v.x.name), v.w);
  }

  ghost predicate NewIdsFor(s: S.Catalog, vs: seq<Visit>) {
    && (forall i :: 0 <= i < |vs| ==> S.FreshFor(s, vs[i].newId))
    && (forall i, j :: 0 <= i < j < |vs| ==> vs[i].newId != vs[j].newId)
  }

  /** The store after a run of visits. */
  ghost function After(s: S.Catalog, site: Site, vs: seq<Visit>): (t: S.Catalog)
    requires s.Valid() && NewIdsFor(s, vs)
    ensures t.Valid()
    ensures forall id :: id in t.names ==> id in s.names || exists i :: 0 <= i < |vs| && vs[i].newId == id
    decreases |vs|
  {
    if vs == [] then s
    else
      var k := |vs| - 1;
      var t := After(s, site, vs[..k]);
      VisitFiles(t, site, vs[k]);
      Visited(t, site, vs[k])
  }

  predicate SeenIn(vs: seq<Visit>, name: string) { exists i :: 0 <= i < |vs| && vs[i].x.name == name }

  predicate FileSeenIn(vs: seq<Visit>, name: string, file: string) {
    exists i :: 0 <= i < |vs| && vs[i].x.name == name && file in vs[i].x.files
  }

  /** The stored files of every torrent are those it started with and all that were ever seen for it. */
  lemma {:induction false} StoredIsUnion(s: S.Catalog, site: Site, vs: seq<Visit>, name: string)
    requires s.Valid() && NewIdsFor(s, vs)
    ensures After(s, site, vs).Known(name) <==> s.Known(name) || SeenIn(vs, name)
    ensures forall f ::
              f in StoredFiles(After(s, site, vs), name) <==> f in StoredFiles(s, name) || FileSeenIn(vs, name, f)
    decreases |vs|
  {
    hide S.Catalog.Valid, Visited, StoredFiles;
    if vs != [] {
      var k := |vs| - 1;
      StoredIsUnion(s, site, vs[..k], name);
      VisitFiles(After(s, site, vs[..k]), site, vs[k]);
      assert SeenIn(vs, name) <==> SeenIn(vs[..k], name) || vs[k].x.name == name by { LastSeen(vs, name); }
      forall f
        ensures FileSeenIn(vs, name, f)
                <==> FileSeenIn(vs[..k], name, f) || (vs[k].x.name == name && f in vs[k].x.files)
      {
        LastFileSeen(vs, name, f);
      }
    }
  }

  lemma LastSeen(vs: seq<Visit>, name: string)
    requires vs != []
    ensures SeenIn(vs, name) <==> SeenIn(vs[..|vs| - 1], name) || vs[|vs| - 1].x.name == name
  {
    var k := |vs| - 1;
    if SeenIn(vs[..k], name) {
      var i :| 0 <= i < k && vs[..k][i].x.name == name;
      assert vs[i].x.name == name;
    }
    if SeenIn(vs, name) && vs[k].x.name != name {
      var i :| 0 <= i < |vs| && vs[i].x.name == name;
      assert vs[..k][i].x.name == name;
    }
  }

  lemma LastFileSeen(vs: seq<Visit>, name: string, f: string)
    requires vs != []
    ensures FileSeenIn(vs, name, f) <==>
            FileSeenIn(vs[..|vs| - 1], name, f) || (vs[|vs| - 1].x.name == name && f in vs[|vs| - 1].x.files)
  {
    var k := |vs| - 1;
    if FileSeenIn(vs[..k], name, f) {
      var i :| 0 <= i < k && vs[..k][i].x.name == name && f in vs[..k][i].x.files;
      assert vs[i].x.name == name;
    }
    if FileSeenIn(vs, name, f) && !(vs[k].x.name == name && f in vs[k].x.files) {
      var i :| 0 <= i < |vs| && vs[i].x.name == name && f in vs[i].x.files;
      assert vs[..k][i].x.name == name;
    }
  }

  /** Visit `i` announces `file` of its torrent as new. */
  ghost predicate Flags(s: S.Catalog, site: Site, vs: seq<Visit>, i: nat, file: string)
    requires s.Valid() && NewIdsFor(s, vs) && i < |vs|
  {
    file in NewFiles(After(s, site, vs[..i]), vs[i].x, NO_FAULTS)
  }

  /** A visit flags exactly the files that nobody saw before it; and its torrent counts as new exactly if
      nobody saw it before. */
  lemma FlagsExactly(s: S.Catalog, site: Site, vs: seq<Visit>, i: nat, file: string)
    requires s.Valid() && NewIdsFor(s, vs) && i < |vs|
    ensures Flags(s, site, vs, i, file) <==>
            file in vs[i].x.files && file !in StoredFiles(s, vs[i].x.name) && !FileSeenIn(vs[..i], vs[i].x.name, file)
    ensures !After(s, site, vs[..i]).Known(vs[i].x.name) <==> !s.Known(vs[i].x.name) && !SeenIn(vs[..i], vs[i].x.name)
  {
    StoredIsUnion(s, site, vs[..i], vs[i].x.name);
  }

  /** Over a whole run every file of every torrent is flagged new in exactly one notification, unless it was
      stored before the run. */
  lemma FlaggedOnce(s: S.Catalog, site: Site, vs: seq<Visit>, name: string, file: string) returns (i: nat)
    requires s.Valid() && NewIdsFor(s, vs) && FileSeenIn(vs, name, file) && file !in StoredFiles(s, name)
    ensures i < |vs| && vs[i].x.name == name && Flags(s, site, vs, i, file)
    ensures forall j :: 0 <= j < |vs| && vs[j].x.name == name && Flags(s, site, vs, j, file) ==> j == i
  {
    hide S.Catalog.Valid, After, StoredFiles;
    var w: nat :| w < |vs| && vs[w].x.name == name && file in vs[w].x.files;
    i := 0;
    while !(vs[i].x.name == name && file in vs[i].x.files)
      invariant i <= w
      invariant forall j :: 0 <= j < i ==> !(vs[j].x.name == name && file in vs[j].x.files)
      decreases w - i
    {
      i := i + 1;
    }
    FlagsExactly(s, site, vs, i, file);
    forall j | 0 <= j < |vs| && vs[j].x.name == name && j != i ensures !Flags(s, site, vs, j, file) {
      FlagsExactly(s, site, vs, j, file);
      if i < j { EarlierSeen(vs, i, j, file); }
    }
  }

  /** Visit `i` announces its torrent as new. */
  ghost predicate IsNew(s: S.Catalog, site: Site, vs: seq<Visit>, i: nat)
    requires s.Valid() && NewIdsFor(s, vs) && i < |vs|
  {
    !After(s, site, vs[..i]).Known(vs[i].x.name)
  }

  /** Over a whole run every name that was not stored before it is announced as new exactly once: the first
      time it is seen. A name that was stored before never is. */
  lemma NewOnce(s: S.Catalog, site: Site, vs: seq<Visit>, i: nat)
    requires s.Valid() && NewIdsFor(s, vs) && i < |vs|
    ensures IsNew(s, site, vs, i) <==>
            !s.Known(vs[i].x.name) && forall j :: 0 <= j < i ==> vs[j].x.name != vs[i].x.name
  {
    hide After;
    StoredIsUnion(s, site, vs[..i], vs[i].x.name);
    if j :| 0 <= j < i && vs[j].x.name == vs[i].x.name { assert vs[..i][j].x.name == vs[i].x.name; }
    if SeenIn(vs[..i], vs[i].x.name) {
      var j :| 0 <= j < i && vs[..i][j].x.name == vs[i].x.name;
      assert vs[j].x.name == vs[i].x.name;
    }
  }

  lemma EarlierSeen(vs: seq<Visit>, i: nat, j: nat, file: string)
    requires i < j <= |vs| && file in vs[i].x.files
    ensures FileSeenIn(vs[..j], vs[i].x.name, file)
  {
    assert vs[..j][i] == vs[i];
  }

  lemma StaysFresh(s: S.Catalog, site: Site, vs: seq<Visit>, k: nat)
    requires s.Valid() && NewIdsFor(s, vs) && k < |vs|
    ensures S.FreshFor(After(s, site, vs[..k]), vs[k].newId)
  {
    hide After;
  }

  // ----- A tick is a run of visits

  /** The hits of a window, as visits. */
  function VisitsOf(ps: seq<Probe>): seq<Visit> {
    if ps == [] then []
    else
      var p := ps[|ps| - 1];
      VisitsOf(ps[..|ps| - 1]) + if p.fetch.Hit() then [Visit(p.fetch.t, p.weather, p.newId)] else []
  }

  /** The notice of a visit that finds the store `t`. */
  ghost function TagOfVisit(t: S.Catalog, v: Visit): Tag
    requires t.Valid()
  {
    Tag(v.x.name, !t.Known(v.x.name), NewFiles(t, v.x, NO_FAULTS))
  }

  /** What the visits of a run announce. */
  ghost function RunTags(s: S.Catalog, site: Site, vs: seq<Visit>): (tags: seq<Tag>)
    requires s.Valid() && NewIdsFor(s, vs)
    ensures |tags| == |vs|
    decreases |vs|
  {
    if vs == [] then []
    else
      var k := |vs| - 1;
      RunTags(s, site, vs[..k]) + [TagOfVisit(After(s, site, vs[..k]), vs[k])]
  }

  /** Each notice of a run carries the flags that FlagsExactly and NewOnce speak of. */
  lemma {:induction false} TagsCarryFlags(s: S.Catalog, site: Site, vs: seq<Visit>, i: nat)
    requires s.Valid() && NewIdsFor(s, vs) && i < |vs|
    ensures var tag := RunTags(s, site, vs)[i];
            && tag.name == vs[i].x.name
            && (tag.isNew <==> IsNew(s, site, vs, i))
            && (forall f :: f in tag.newFiles <==> Flags(s, site, vs, i, f))
    decreases |vs|
  {
    hide S.Catalog.Valid, S.Catalog.Known, After, NewFiles, S.FreshFor;
    var k := |vs| - 1;
    if i < k {
      TagsCarryFlags(s, site, vs[..k], i);
      assert vs[..k][..i] == vs[..i];
    }
  }

  ghost predicate Undisturbed(ps: seq<Probe>) { forall i :: 0 <= i < |ps| ==> ps[i].faults == NO_FAULTS }

  lemma {:induction false} VisitIds(names: map<int, string>, s: S.Catalog, ps: seq<Probe>)
    requires s.names == names && NewIds(names, ps, 0)
    ensures NewIdsFor(s, VisitsOf(ps))
    ensures forall v :: v in VisitsOf(ps) ==> exists i :: 0 <= i < |ps| && ps[i].newId == v.newId
    decreases |ps|
  {
    if ps != [] {
      var k := |ps| - 1;
      FirstOfWindow(names, ps, k);
      VisitIds(names, s, ps[..k]);
      var vs := VisitsOf(ps[..k]);
      forall v | v in vs ensures v.newId != ps[k].newId {
        var i :| 0 <= i < k && ps[..k][i].newId == v.newId;
        assert ps[i].newId == v.newId;
      }
      forall v | v in VisitsOf(ps) ensures exists i :: 0 <= i < |ps| && ps[i].newId == v.newId {
        if v in vs {
          var i :| 0 <= i < k && ps[..k][i].newId == v.newId;
          assert ps[i].newId == v.newId;
        } else {
          assert ps[k].newId == v.newId;
        }
      }
    }
  }

  lemma WorkedIsVisited(s: S.Catalog, site: Site, p: Probe)
    requires s.Valid() && S.FreshFor(s, p.newId) && p.fetch.Hit() && p.faults == NO_FAULTS
    ensures var v := Visit(p.fetch.t, p.weather, p.newId);
            Worked(s, site, p) == Visited(s, site, v) && TagOf(s, p) == TagOfVisit(s, v)
  {
    hide Recorded, Noted, NewFiles;
    assert Arrived(p.fetch.t, Added({})) == p.fetch.t;
  }

  lemma LastVisit(s: S.Catalog, site: Site, vs: seq<Visit>, v: Visit)
    requires s.Valid() && NewIdsFor(s, vs) && NewIdsFor(s, vs + [v]) && S.FreshFor(After(s, site, vs), v.newId)
    ensures After(s, site, vs + [v]) == Visited(After(s, site, vs), site, v)
    ensures RunTags(s, site, vs + [v]) == RunTags(s, site, vs) + [TagOfVisit(After(s, site, vs), v)]
  {
    hide Visited, TagOfVisit, S.Catalog.Valid, NewIdsFor, S.FreshFor;
    assert (vs + [v])[..|vs|] == vs;
  }

  /** A window without database faults leaves the store its hits leave as a run of visits, apart from the offset,
      and announces exactly what that run does. So what is proved of runs is proved of ticks. */
  lemma {:induction false} TickIsRun(s: S.Catalog, site: Site, ps: seq<Probe>)
    requires s.Valid() && NewIds(s.names, ps, 0) && Undisturbed(ps)
    ensures NewIdsFor(s, VisitsOf(ps))
    ensures WorkedAll(s, site, ps) == After(s, site, VisitsOf(ps))
    ensures Told(s, site, ps) == RunTags(s, site, VisitsOf(ps))
    decreases |ps|
  {
    hide S.Catalog.Valid, Worked, TagOf, Visited, TagOfVisit, After, RunTags, WorkedAll, Told, S.FreshFor, NewIds,
         NewIdsFor;
    VisitIds(s.names, s, ps);
    if ps == [] {
      EmptyWindow(s, site, ps, 0, 1);
      NothingVisited(s, site);
      assert ps[..0] == ps;
    } else {
      var k := |ps| - 1;
      FirstOfWindow(s.names, ps, k);
      TickIsRun(s, site, ps[..k]);
      OneMoreWorked(s, site, ps, k);
      assert ps[..k + 1] == ps;
      if ps[k].fetch.Hit() {
        WorkedIsVisited(WorkedAll(s, site, ps[..k]), site, ps[k]);
        LastVisit(s, site, VisitsOf(ps[..k]), Visit(ps[k].fetch.t, ps[k].weather, ps[k].newId));
      } else {
        Missed(WorkedAll(s, site, ps[..k]), site, ps[k]);
        assert VisitsOf(ps) == VisitsOf(ps[..k]);
        assert Told(s, site, ps[..k]) + [] == Told(s, site, ps[..k]);
      }
    }
  }

  lemma NothingVisited(s: S.Catalog, site: Site)
    requires s.Valid()
    ensures NewIdsFor(s, []) && After(s, site, []) == s && RunTags(s, site, []) == []
  {
  }

  lemma Missed(s: S.Catalog, site: Site, p: Probe)
    requires s.Valid() && S.FreshFor(s, p.newId) && !p.fetch.Hit()
    ensures Worked(s, site, p) == s
  {
  }

  // ----- Ticks in a row

  /** The offset plays no part in what a probe does. */
  lemma WorkedAside(s: S.Catalog, site: Site, p: Probe, o: Option<nat>)
    requires s.Valid() && S.FreshFor(s, p.newId)
    ensures var t := s.(offset := o);
            && t.Valid() && S.FreshFor(t, p.newId)
            && Worked(t, site, p) == Worked(s, site, p).(offset := o)
            && (p.fetch.Hit() ==> TagOf(t, p) == TagOf(s, p))
  {
    var t := s.(offset := o);
    S.StillValid(s, t);
    SameNames(s, t);
    if p.fetch.Hit() {
      AddedAside(s, t, p.fetch.t, p.faults.add, p.newId, o);
      var a, b := AddedTo(s, p.fetch.t, p.faults.add, p.newId), AddedTo(t, p.fetch.t, p.faults.add, p.newId);
      hide AddedTo, Refreshed, S.Catalog.Valid, S.Catalog.Known;
      SameNames(a, b);
      SameFiles(s, t, p.fetch.t.name);
    }
  }

  lemma SameNames(s: S.Catalog, t: S.Catalog)
    requires s.Valid() && t.Valid() && t.names == s.names
    ensures forall n :: t.Known(n) <==> s.Known(n)
    ensures forall n :: t.IdOf(n) == s.IdOf(n)
  {
    forall n ensures (t.Known(n) <==> s.Known(n)) && t.IdOf(n) == s.IdOf(n) {
      if s.Known(n) { assert t.names[s.IdOf(n)] == n; }
      if t.Known(n) { assert s.names[t.IdOf(n)] == n; }
    }
  }

  lemma SameFiles(s: S.Catalog, t: S.Catalog, name: string)
    requires s.Valid() && t.Valid() && t.names == s.names && t.torrents == s.torrents
    ensures StoredFiles(t, name) == StoredFiles(s, name)
  {
    SameNames(s, t);
  }

  lemma AddedAside(s: S.Catalog, t: S.Catalog, x: Sighting, add: Add, newId: int, o: Option<nat>)
    requires s.Valid() && t.Valid() && S.FreshFor(s, newId) && S.FreshFor(t, newId) && t == s.(offset := o)
    ensures AddedTo(t, x, add, newId) == AddedTo(s, x, add, newId).(offset := o)
  {
    SameNames(s, t);
  }

  lemma {:induction false} WorkedAllAside(s: S.Catalog, site: Site, ps: seq<Probe>, o: Option<nat>)
    requires s.Valid() && NewIds(s.names, ps, 0)
    ensures var t := s.(offset := o);
            && t.Valid()
            && WorkedAll(t, site, ps) == WorkedAll(s, site, ps).(offset := o)
            && Told(t, site, ps) == Told(s, site, ps)
    decreases |ps|
  {
    hide S.Catalog.Valid, Worked, TagOf, S.FreshFor, NewIds, WorkedAll, Told;
    S.StillValid(s, s.(offset := o));
    if ps == [] {
      EmptyWindow(s, site, ps, 0, 1);
      EmptyWindow(s.(offset := o), site, ps, 0, 1);
      assert ps[..0] == ps;
    } else {
      var k := |ps| - 1;
      FirstOfWindow(s.names, ps, k);
      WorkedAllAside(s, site, ps[..k], o);
      OneMoreWorked(s, site, ps, k);
      OneMoreWorked(s.(offset := o), site, ps, k);
      assert ps[..k + 1] == ps;
      WorkedAside(WorkedAll(s, site, ps[..k]), site, ps[k], o);
    }
  }

  lemma SplitIds(names: map<int, string>, more: map<int, string>, ps: seq<Probe>, qs: seq<Probe>)
    requires NewIds(names, ps + qs, 0)
    requires forall id :: id in more ==> id in names || exists i :: 0 <= i < |ps| && ps[i].newId == id
    ensures NewIds(names, ps, 0) && NewIds(more, qs, 0)
  {
    assert forall i :: 0 <= i < |ps| ==> (ps + qs)[i] == ps[i];
    assert forall i :: 0 <= i < |qs| ==> (ps + qs)[|ps| + i] == qs[i];
  }

  /** A window in two parts. */
  lemma {:induction false} WorkedThen(s: S.Catalog, site: Site, ps: seq<Probe>, qs: seq<Probe>)
    requires s.Valid() && NewIds(s.names, ps + qs, 0)
    ensures NewIds(s.names, ps, 0) && NewIds(WorkedAll(s, site, ps).names, qs, 0)
    ensures WorkedAll(s, site, ps + qs) == WorkedAll(WorkedAll(s, site, ps), site, qs)
    ensures Told(s, site, ps + qs) == Told(s, site, ps) + Told(WorkedAll(s, site, ps), site, qs)
    decreases |qs|
  {
    hide S.Catalog.Valid, Worked, TagOf, S.FreshFor, NewIds, WorkedAll, Told;
    SplitIds(s.names, s.names, ps, qs);
    var t := WorkedAll(s, site, ps);
    SplitIds(s.names, t.names, ps, qs);
    if qs == [] {
      EmptyWindow(t, site, qs, 0, 1);
      assert qs[..0] == qs && ps + qs == ps;
    } else {
      var k := |qs| - 1;
      var all := ps + qs;
      assert all[..|ps| + k] == ps + qs[..k] && all[|ps| + k] == qs[k];
      FirstOfWindow(s.names, all, |ps| + k);
      WorkedThen(s, site, ps, qs[..k]);
      OneMoreWorked(s, site, all, |ps| + k);
      OneMoreWorked(t, site, qs, k);
      assert all[..|ps| + k + 1] == all && qs[..k + 1] == qs;
    }
  }

  /** The probes of several windows, one after the other. */
  function Flat(ws: seq<seq<Probe>>): seq<Probe> {
    if ws == [] then [] else Flat(ws[..|ws| - 1]) + ws[|ws| - 1]
  }

  /** The store after a tick, as Tick states it. */
  ghost function Ticked(s: S.Catalog, site: Site, ps: seq<Probe>, saved: bool): (t: S.Catalog)
    requires s.Valid() && NewIds(s.names, ps, 0)
  {
    OffsetMoved(WorkedAll(s, site, ps), Base(s), Hits(ps), saved)
  }

  /** Several ticks; `t` is the store and `told` what was announced. */
  ghost predicate Ticks(s: S.Catalog, site: Site, ws: seq<seq<Probe>>, saves: seq<bool>, t: S.Catalog, told: seq<Tag>)
    requires |ws| == |saves|
    decreases |ws|
  {
    if ws == [] then t == s && told == []
    else
      var k := |ws| - 1;
      exists m, before ::
        && Ticks(s, site, ws[..k], saves[..k], m, before)
        && m.Valid() && NewIds(m.names, ws[k], 0)
        && t == Ticked(m, site, ws[k], saves[k]) && told == before + Told(m, site, ws[k])
  }

  /** Any number of ticks, whatever the database fails at: but for the offset the store, and all that is
      announced, are those of one long window. So what is proved of a window is proved of a whole crawl. And the
      offset never goes back. */
  lemma {:induction false} TicksAreOneWindow(s: S.Catalog, site: Site, ws: seq<seq<Probe>>, saves: seq<bool>,
                                             t: S.Catalog, told: seq<Tag>)
    requires s.Valid() && NewIds(s.names, Flat(ws), 0) && |ws| == |saves| && Ticks(s, site, ws, saves, t, told)
    ensures t == WorkedAll(s, site, Flat(ws)).(offset := t.offset) && told == Told(s, site, Flat(ws))
    ensures Base(s) <= Base(t)
    decreases |ws|
  {
    hide S.Catalog.Valid, S.FreshFor, NewIds, WorkedAll, Told, Top, Hits;
    if ws == [] {
      var none: seq<Probe> := [];
      EmptyWindow(s, site, none, 0, 1);
      assert Flat(ws) == none[..0];
    } else {
      var k := |ws| - 1;
      var m, before :|
        && Ticks(s, site, ws[..k], saves[..k], m, before)
        && m.Valid() && NewIds(m.names, ws[k], 0)
        && t == Ticked(m, site, ws[k], saves[k]) && told == before + Told(m, site, ws[k]);
      WorkedThen(s, site, Flat(ws[..k]), ws[k]);
      TicksAreOneWindow(s, site, ws[..k], saves[..k], m, before);
      WorkedAllAside(WorkedAll(s, site, Flat(ws[..k])), site, ws[k], m.offset);
      TopBounds(Base(m), Hits(ws[k]));
    }
  }

  /** A whole crawl without database faults is, but for the offset, a run of visits. */
  lemma CrawlIsRun(s: S.Catalog, site: Site, ws: seq<seq<Probe>>, saves: seq<bool>, t: S.Catalog, told: seq<Tag>)
    requires s.Valid() && NewIds(s.names, Flat(ws), 0) && |ws| == |saves| && Ticks(s, site, ws, saves, t, told)
    requires Undisturbed(Flat(ws))
    ensures NewIdsFor(s, VisitsOf(Flat(ws)))
    ensures t == After(s, site, VisitsOf(Flat(ws))).(offset := t.offset) && told == RunTags(s, site, VisitsOf(Flat(ws)))
  {
    hide S.Catalog.Valid, NewIds, NewIdsFor, WorkedAll, Told, After, RunTags, Ticks;
    TicksAreOneWindow(s, site, ws, saves, t, told);
    TickIsRun(s, site, Flat(ws));
  }

  // ----- Posters

  /** The stored image is the poster of the recorded URL. */
  predicate Coherent(site: Site, e: S.Entry) {
    site.Url(e.meta) != "" ==> e.image == site.Poster(site.Url(e.meta))
  }

  ghost predicate Honest(site: Site) { forall url :: site.Poster(url) != "" }

  function NewUrl(site: Site, w: Weather): string { site.Url(Upstream(site, w)) }

  lemma MergedUrl(site: Site, old': map<string, string>, up: map<string, string>)
    ensures site.Url(old' + up) == if site.imageField in up then site.Url(up) else site.Url(old')
  {
  }

  /** The poster was wanted, fetched and written. */
  predicate Stored(site: Site, e: S.Entry, w: Weather) { Wanted(site, e, w).Some? && w.fetchPoster && w.writeImage }

  /** The row of the image URL is among the metadata that got through. */
  predicate UrlWritten(site: Site, w: Weather) { site.imageField in Wrote(site, w) }

  /** What breaks the match: a poster stored over one whose URL stays recorded, or a URL recorded without its
      poster. */
  predicate Spoils(site: Site, e: S.Entry, w: Weather) {
    var url, recorded := NewUrl(site, w), site.Url(e.meta);
    if Stored(site, e, w) then !UrlWritten(site, w) && recorded != "" && site.Poster(url) != site.Poster(recorded)
    else UrlWritten(site, w) && url != "" && e.image != site.Poster(url)
  }

  /** What restores it: the poster and its URL stored together, or a URL recorded that the image happens to fit. */
  predicate Repairs(site: Site, e: S.Entry, w: Weather) {
    var url := NewUrl(site, w);
    if Stored(site, e, w) then UrlWritten(site, w) || site.Poster(url) == site.Poster(site.Url(e.meta))
    else UrlWritten(site, w) && (url == "" || e.image == site.Poster(url))
  }

  /** A notification keeps a coherent entry coherent exactly when it does not spoil it, whatever failed. */
  lemma CoherentExactly(site: Site, e: S.Entry, w: Weather)
    requires Honest(site) && Coherent(site, e)
    ensures Coherent(site, Refreshed(site, e, w)) <==> !Spoils(site, e, w)
  {
    MergedUrl(site, e.meta, Wrote(site, w));
    assert site.Poster(NewUrl(site, w)) != "" && site.Poster(site.Url(e.meta)) != "";
  }

  /** And it makes an incoherent one coherent exactly when it repairs it. */
  lemma RepairedExactly(site: Site, e: S.Entry, w: Weather)
    requires Honest(site) && !Coherent(site, e)
    ensures Coherent(site, Refreshed(site, e, w)) <==> Repairs(site, e, w)
  {
    MergedUrl(site, e.meta, Wrote(site, w));
    assert site.Poster(NewUrl(site, w)) != "";
  }

  lemma FairSpoilsNothing(site: Site, e: S.Entry, w: Weather)
    requires Coherent(site, e) && Fair(site, w)
    ensures !Spoils(site, e, w)
  {
  }

  /** A wrong poster is never repaired while upstream keeps naming the recorded URL, however fair the weather. */
  lemma StaleStays(site: Site, e: S.Entry, w: Weather)
    requires !Coherent(site, e) && e.image != "" && w.readMeta && NewUrl(site, w) == site.Url(e.meta)
    ensures !Coherent(site, Refreshed(site, e, w)) && Refreshed(site, e, w).image == e.image
  {
    MergedUrl(site, e.meta, Wrote(site, w));
  }

  ghost predicate AllCoherent(s: S.Catalog, site: Site) {
    forall n :: n in s.torrents ==> Coherent(site, s.torrents[n])
  }

  /** The entry the notification of a hit starts from. */
  ghost function EntryFound(s: S.Catalog, p: Probe): S.Entry
    requires s.Valid() && S.FreshFor(s, p.newId) && p.fetch.Hit() && p.faults.add.Added?
  {
    var r := AddedTo(s, p.fetch.t, p.faults.add, p.newId);
    r.EntryOf(r.IdOf(p.fetch.t.name))
  }

  /** A probe spoils a poster: the torrent got an id, and its notification breaks the match. */
  ghost predicate Disturbs(s: S.Catalog, site: Site, p: Probe)
    requires s.Valid() && S.FreshFor(s, p.newId)
  {
    p.fetch.Hit() && p.faults.add.Added? && Spoils(site, EntryFound(s, p), p.weather)
  }

  lemma RecordedCoherent(s: S.Catalog, site: Site, x: Sighting, newId: int)
    requires s.Valid() && S.FreshFor(s, newId) && AllCoherent(s, site)
    ensures AllCoherent(Recorded(s, x, newId), site)
  {
    var r := Recorded(s, x, newId);
    forall n | n in r.torrents ensures Coherent(site, r.torrents[n]) {
      if n in s.torrents { assert Coherent(site, s.torrents[n]); }
    }
  }

  lemma AddedCoherent(s: S.Catalog, site: Site, x: Sighting, add: Add, newId: int)
    requires s.Valid() && S.FreshFor(s, newId) && AllCoherent(s, site)
    ensures AllCoherent(AddedTo(s, x, add, newId), site)
  {
    hide Recorded, AllCoherent, S.Catalog.Valid;
    RecordedCoherent(s, site, Arrived(x, add), newId);
  }

  /** A notification keeps all posters in step exactly when it does not spoil its own torrent's. */
  lemma NotedCoherentExactly(r: S.Catalog, site: Site, id: int, w: Weather)
    requires r.Valid() && id in r.names && AllCoherent(r, site) && Honest(site)
    ensures r.names[id] in r.torrents
    ensures AllCoherent(Noted(r, site, id, w), site) <==> !Spoils(site, r.EntryOf(id), w)
  {
    hide Refreshed, Coherent, Spoils, Honest;
    CoherentExactly(site, r.EntryOf(id), w);
    var t := r.Put(id, Refreshed(site, r.EntryOf(id), w));
    assert t.torrents[r.names[id]] == Refreshed(site, r.EntryOf(id), w);
  }

  /** Whatever the database fails at, one check keeps all posters in step exactly when it does not spoil its own
      torrent's. */
  lemma CheckCoherentExactly(s: S.Catalog, site: Site, p: Probe)
    requires s.Valid() && S.FreshFor(s, p.newId) && AllCoherent(s, site) && Honest(site)
    ensures AllCoherent(Worked(s, site, p), site) <==> !Disturbs(s, site, p)
  {
    hide AddedTo, Coherent, Spoils, Honest, AllCoherent, Noted;
    if p.fetch.Hit() {
      AddedCoherent(s, site, p.fetch.t, p.faults.add, p.newId);
      var r := AddedTo(s, p.fetch.t, p.faults.add, p.newId);
      if p.faults.add.Added? { NotedCoherentExactly(r, site, r.IdOf(p.fetch.t.name), p.weather); }
    }
  }

  /** The store after the first `k` probes. */
  ghost function Upto(s: S.Catalog, site: Site, ps: seq<Probe>, k: nat): (t: S.Catalog)
    requires s.Valid() && NewIds(s.names, ps, 0) && k <= |ps|
    ensures t.Valid() && (k < |ps| ==> S.FreshFor(t, ps[k].newId))
    ensures k == 0 ==> t == s
    ensures k == |ps| ==> t == WorkedAll(s, site, ps)
  {
    assert ps[..|ps|] == ps && ps[..0] == [];
    FirstOfWindow(s.names, ps, k);
    assert k < |ps| ==> S.FreshFor(WorkedAll(s, site, ps[..k]), ps[k].newId) by {
      if k < |ps| { OneMoreWorked(s, site, ps, k); }
    }
    WorkedAll(s, site, ps[..k])
  }

  ghost predicate CoherentThroughout(s: S.Catalog, site: Site, ps: seq<Probe>)
    requires s.Valid() && NewIds(s.names, ps, 0)
  {
    forall k :: 0 <= k <= |ps| ==> AllCoherent(Upto(s, site, ps, k), site)
  }

  lemma OneMoreCheck(s: S.Catalog, site: Site, ps: seq<Probe>, k: nat)
    requires s.Valid() && NewIds(s.names, ps, 0) && k < |ps| && AllCoherent(Upto(s, site, ps, k), site) && Honest(site)
    ensures AllCoherent(Upto(s, site, ps, k + 1), site) <==> !Disturbs(Upto(s, site, ps, k), site, ps[k])
  {
    hide Disturbs, Honest, AllCoherent, Worked, WorkedAll, S.Catalog.Valid, NewIds, S.FreshFor;
    OneMoreWorked(s, site, ps, k);
    CheckCoherentExactly(Upto(s, site, ps, k), site, ps[k]);
  }

  /** Every stored poster of every torrent matches its recorded URL after every check of a run, whatever the
      database fails at, exactly when no check of the run spoils one. */
  lemma ThroughoutExactly(s: S.Catalog, site: Site, ps: seq<Probe>)
    requires s.Valid() && NewIds(s.names, ps, 0) && AllCoherent(s, site) && Honest(site)
    ensures CoherentThroughout(s, site, ps) <==>
            forall i :: 0 <= i < |ps| ==> !Disturbs(Upto(s, site, ps, i), site, ps[i])
  {
    hide AllCoherent, Disturbs, S.Catalog.Valid, Honest, NewIds, Upto, S.FreshFor;
    if CoherentThroughout(s, site, ps) {
      forall i | 0 <= i < |ps| ensures !Disturbs(Upto(s, site, ps, i), site, ps[i]) {
        assert AllCoherent(Upto(s, site, ps, i), site) && AllCoherent(Upto(s, site, ps, i + 1), site);
        OneMoreCheck(s, site, ps, i);
      }
    }
    if forall i :: 0 <= i < |ps| ==> !Disturbs(Upto(s, site, ps, i), site, ps[i]) {
      for k := 0 to |ps|
        invariant forall j :: 0 <= j <= k ==> AllCoherent(Upto(s, site, ps, j), site)
      {
        OneMoreCheck(s, site, ps, k);
      }
    }
  }

  lemma VisitCoherent(s: S.Catalog, site: Site, v: Visit)
    requires s.Valid() && S.FreshFor(s, v.newId) && AllCoherent(s, site) && Honest(site) && Fair(site, v.w)
    ensures AllCoherent(Visited(s, site, v), site)
  {
    hide Recorded, Spoils, Coherent, Honest, Noted, Fair;
    RecordedValid(s, v.x, v.newId);
    RecordedCoherent(s, site, v.x, v.newId);
    var r := Recorded(s, v.x, v.newId);
    var id := r.IdOf(v.x.name);
    NotedCoherentExactly(r, site, id, v.w);
    assert Coherent(site, r.torrents[r.names[id]]);
    FairSpoilsNothing(site, r.EntryOf(id), v.w);
  }

  /** In fair weather every stored poster of every torrent matches its recorded URL, after any run. */
  lemma {:induction false} PostersCoherent(s: S.Catalog, site: Site, vs: seq<Visit>)
    requires s.Valid() && NewIdsFor(s, vs) && AllCoherent(s, site) && Honest(site)
    requires forall i :: 0 <= i < |vs| ==> Fair(site, vs[i].w)
    ensures AllCoherent(After(s, site, vs), site)
    decreases |vs|
  {
    hide S.Catalog.Valid, Visited, AllCoherent, Fair, Honest;
    if vs != [] {
      var k := |vs| - 1;
      PostersCoherent(s, site, vs[..k]);
      StaysFresh(s, site, vs, k);
      VisitCoherent(After(s, site, vs[..k]), site, vs[k]);
    }
  }
}
