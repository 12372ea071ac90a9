/**
 observer.go: the crawl tick, the check of one id, and the notification with its metadata and poster cache,
 over a database that keeps the promise of Store. What the site answers and which database calls fail are
 parameters.
 */
module Observer {
  import opened Basics
  import S = Store

  /** The torrent file found at an id: its decoded name, raw data, file paths and total length. */
  datatype Sighting = Sighting(name: string, data: S.Bytes, files: set<string>, length: nat)

  /** GetTorrent finds a torrent, finds nothing (a status of 400 or more), or fails. */
  datatype Fetch = Found(t: Sighting) | Nothing | FetchError {
    predicate Hit() { Found? && t.length > 0 }
  }

  /** What came of AddTorrent: an id, with the files in `lost` not stored (SQL reports at most the last of
      them); or an error, after which the torrent may still have been stored, but none of its files. */
  datatype Add = Added(lost: set<string>) | Refused(kept: bool)

  /** GetTorrent answers, or errs: with the invalid id, or with the one Redis returns beside the error for an idx
      that is no number. Only the first makes the torrent look new. */
  datatype Lookup = Answers | Errs(looksNew: bool)

  /** How the database calls fare while an id is checked. */
  datatype Faults = Faults(lookup: Lookup, getFiles: bool, add: Add)

  const NO_FAULTS := Faults(Answers, false, Added({}))

  /** The site and the configuration: `clean` unescapes and trims a metadata value, `resolve` makes an image
      URL absolute, `poster` is the thumbnail of the image at a URL. */
  datatype Site = Site(imageField: string, clean: string -> string, resolve: string -> string,
                       poster: string -> S.Bytes) {
    function Upstream(raw: map<string, S.Bytes>): map<string, string> {
      map k | k in raw && k != "" :: clean(raw[k])
    }

    function Poster(url: string): S.Bytes { poster(resolve(url)) }

    /** The image URL recorded in some metadata; a missing field reads as the empty string. */
    function Url(meta: map<string, string>): string { if imageField in meta then meta[imageField] else "" }
  }

  /** What happens around one notification: the extracted metadata (on the first try or after the retry; None
      if both failed or were empty), which reads succeed, and what of the writes reaches the database, whatever
      error they report: the metadata under the names in `written`, and the image. */
  datatype Weather = Weather(raw: Option<map<string, S.Bytes>>, readMeta: bool, written: set<string>, readImage: bool,
                             fetchPoster: bool, writeImage: bool)

  /** Nothing fails. */
  predicate Fair(site: Site, w: Weather) {
    w.readMeta && Upstream(site, w).Keys <= w.written && w.readImage && w.fetchPoster && w.writeImage
  }

  /** One id of a tick's window: what the site answers, which calls fail, and the id a new torrent would get. */
  datatype Probe = Probe(fetch: Fetch, faults: Faults, weather: Weather, newId: int)

  function Hits(ps: seq<Probe>): seq<bool> { seq(|ps|, i requires 0 <= i < |ps| => ps[i].fetch.Hit()) }

  /** The names announced, and the ids celebrated, in a window. */
  function Announced(ps: seq<Probe>): seq<string> {
    if ps == [] then []
    else
      var p := ps[|ps| - 1];
      Announced(ps[..|ps| - 1]) + if p.fetch.Hit() then [p.fetch.t.name] else []
  }

  function Milestones(base: nat, ps: seq<Probe>, every: nat): seq<nat>
    requires every > 0
  {
    if ps == [] then []
    else
      var k := |ps| - 1;
      Milestones(base, ps[..k], every) +
      if ps[k].fetch.Hit() && base + k > 0 && (base + k) % every == 0 then [base + k] else []
  }

  /** The ids set aside for the probes from `k` on are positive, unused and distinct. */
  predicate NewIds(names: map<int, string>, ps: seq<Probe>, k: nat) {
    && (forall i :: k <= i < |ps| ==> ps[i].newId > 0 && ps[i].newId !in names)
    && (forall i, j :: k <= i < j < |ps| ==> ps[i].newId != ps[j].newId)
  }

  /** What one more probe adds to a window. */
  lemma OneMore(ps: seq<Probe>, k: nat, base: nat, every: nat)
    requires k < |ps| && every > 0
    ensures Top(base, Hits(ps[..k + 1])) == if ps[k].fetch.Hit() then base + k + 1 else Top(base, Hits(ps[..k]))
    ensures Milestones(base, ps[..k + 1], every) == Milestones(base, ps[..k], every) +
              if ps[k].fetch.Hit() && base + k > 0 && (base + k) % every == 0 then [base + k] else []
  {
    assert ps[..k + 1][..k] == ps[..k] && Hits(ps[..k + 1])[..k] == Hits(ps[..k]);
  }

  lemma EmptyWindow(s: S.Catalog, site: Site, ps: seq<Probe>, base: nat, every: nat)
    requires every > 0 && s.Valid()
    ensures Top(base, Hits(ps[..0])) == base && Milestones(base, ps[..0], every) == []
    ensures NewIds(s.names, ps[..0], 0) && WorkedAll(s, site, ps[..0]) == s && Told(s, site, ps[..0]) == []
  {
  }

  datatype Notice = Notice(name: string, isNew: bool, newFiles: set<string>, meta: map<string, string>, image: S.Bytes)

  /** What a notice says is new. */
  datatype Tag = Tag(name: string, isNew: bool, newFiles: set<string>)

  function Tags(ns: seq<Notice>): seq<Tag> {
    seq(|ns|, i requires 0 <= i < |ns| => Tag(ns[i].name, ns[i].isNew, ns[i].newFiles))
  }

  lemma OneMoreTag(before: seq<Notice>, after: seq<Notice>)
    requires |after| == |before| + 1 && after[..|before|] == before
    ensures var n := after[|before|]; Tags(after) == Tags(before) + [Tag(n.name, n.isNew, n.newFiles)]
  {
  }

  // ----- What a check does to the store

  ghost function StoredFiles(s: S.Catalog, name: string): set<string>
    requires s.Valid()
  {
    if s.Known(name) then s.EntryOf(s.IdOf(name)).files else {}
  }

  ghost function NewFiles(s: S.Catalog, x: Sighting, f: Faults): set<string>
    requires s.Valid()
  {
    if f.lookup.Errs? || f.getFiles then x.files else x.files - StoredFiles(s, x.name)
  }

  /** What isNew becomes. */
  ghost predicate LooksNew(s: S.Catalog, name: string, lookup: Lookup) {
    if lookup.Errs? then lookup.looksNew else !s.Known(name)
  }

  /** The torrent stored: its latest data, and every file ever seen for it. */
  ghost function Recorded(s: S.Catalog, x: Sighting, newId: int): S.Catalog
    requires s.Valid()
  {
    if s.Known(x.name) then
      var id := s.IdOf(x.name);
      s.Put(id, s.EntryOf(id).(data := x.data, files := s.EntryOf(id).files + x.files))
    else S.Extended(s, newId, x.name, S.Entry(x.data, "", x.files, map[]))
  }

  lemma RecordedValid(s: S.Catalog, x: Sighting, newId: int)
    requires s.Valid() && S.FreshFor(s, newId)
    ensures Recorded(s, x, newId).Valid() && Recorded(s, x, newId).Known(x.name)
    ensures Recorded(s, x, newId).names.Keys <= s.names.Keys + {newId}
    ensures var r := Recorded(s, x, newId);
            && (forall n :: r.Known(n) <==> s.Known(n) || n == x.name)
            && (forall n :: StoredFiles(r, n) == StoredFiles(s, n) + if n == x.name then x.files else {})
  {
    var r := Recorded(s, x, newId);
    if s.Known(x.name) {
      var id := s.IdOf(x.name);
      S.PutValid(s, id, s.EntryOf(id).(data := x.data, files := s.EntryOf(id).files + x.files));
      forall n ensures r.Known(n) <==> s.Known(n) {}
      forall n ensures StoredFiles(r, n) == StoredFiles(s, n) + if n == x.name then x.files else {} {
        if s.Known(n) { assert r.IdOf(n) == s.IdOf(n); }
      }
    } else {
      ExtendedFiles(s, x, newId);
    }
  }

  lemma ExtendedFiles(s: S.Catalog, x: Sighting, newId: int)
    requires s.Valid() && S.FreshFor(s, newId) && !s.Known(x.name)
    ensures var r := S.Extended(s, newId, x.name, S.Entry(x.data, "", x.files, map[]));
            && r.Valid() && r.Known(x.name)
            && (forall n :: r.Known(n) <==> s.Known(n) || n == x.name)
            && (forall n :: StoredFiles(r, n) == StoredFiles(s, n) + if n == x.name then x.files else {})
  {
    var e := S.Entry(x.data, "", x.files, map[]);
    S.ExtendedValid(s, newId, x.name, e);
    var r := S.Extended(s, newId, x.name, e);
    assert r.names[newId] == x.name;
    forall n ensures r.Known(n) <==> s.Known(n) || n == x.name {
      if s.Known(n) {
        var i :| i in s.names && s.names[i] == n;
        assert r.names[i] == n;
      }
    }
    forall n ensures StoredFiles(r, n) == StoredFiles(s, n) + if n == x.name then x.files else {} {
      if n == x.name {
        assert r.IdOf(n) == newId;
      } else if s.Known(n) {
        assert r.names[s.IdOf(n)] == n;
        assert r.IdOf(n) == s.IdOf(n);
      }
    }
  }

  /** What of a sighting reached the database. */
  function Arrived(x: Sighting, add: Add): Sighting {
    x.(files := if add.Added? then x.files - add.lost else {})
  }

  /** The store after AddTorrent. */
  ghost function AddedTo(s: S.Catalog, x: Sighting, add: Add, newId: int): (r: S.Catalog)
    requires s.Valid() && S.FreshFor(s, newId)
    ensures r.Valid() && r.names.Keys <= s.names.Keys + {newId} && r.offset == s.offset
    ensures add.Added? ==> r.Known(x.name)
  {
    RecordedValid(s, Arrived(x, add), newId);
    if add == Refused(false) then s else Recorded(s, Arrived(x, add), newId)
  }

  function Upstream(site: Site, w: Weather): map<string, string> {
    if w.raw.Some? then site.Upstream(w.raw.value) else map[]
  }

  /** The metadata that gets recorded: SQL writes name by name up to the first failure. */
  function Wrote(site: Site, w: Weather): map<string, string> {
    map k | k in Upstream(site, w) && k in w.written :: Upstream(site, w)[k]
  }

  /** The poster a notification goes for: when there is no image yet, or the URL differs from the recorded one. */
  function Wanted(site: Site, e: S.Entry, w: Weather): Option<S.Bytes> {
    var url, recorded := site.Url(Upstream(site, w)), site.Url(if w.readMeta then e.meta else map[]);
    if w.readImage && url != "" && (e.image == "" || recorded != url) then Some(site.Poster(url)) else None
  }

  /** What a notice shows: the metadata read upstream, or the recorded one if there was none; and the poster, or
      nothing if it could not be fetched. */
  function ShownMeta(site: Site, e: S.Entry, w: Weather): map<string, string> {
    if Upstream(site, w) != map[] then Upstream(site, w) else if w.readMeta then e.meta else map[]
  }

  function ShownImage(site: Site, e: S.Entry, w: Weather): S.Bytes {
    var p := Wanted(site, e, w);
    if p.Some? then (if w.fetchPoster then p.value else "") else if w.readImage then e.image else ""
  }

  const BLANK := S.Entry("", "", {}, map[])

  /** What is known of a name before it is checked. */
  function EntryBefore(s: S.Catalog, name: string): S.Entry { if name in s.torrents then s.torrents[name] else BLANK }

  /** The metadata upstream: every named field, cleaned. Of it, that is recorded which got through. */
  lemma UpstreamExactly(site: Site, w: Weather, k: string)
    ensures k in Upstream(site, w) <==> w.raw.Some? && k in w.raw.value && k != ""
    ensures k in Upstream(site, w) ==> Upstream(site, w)[k] == site.clean(w.raw.value[k])
    ensures k in Wrote(site, w) <==> w.raw.Some? && k in w.raw.value && k != "" && k in w.written
    ensures k in Wrote(site, w) ==> Wrote(site, w)[k] == site.clean(w.raw.value[k])
  {
  }

  /** The poster is fetched when upstream names one and there is none yet, or the recorded URL is another one. */
  lemma WantedExactly(site: Site, e: S.Entry, w: Weather)
    ensures var f := site.imageField;
            var url := if w.raw.Some? && f in w.raw.value && f != "" then site.clean(w.raw.value[f]) else "";
            var recorded := if w.readMeta && f in e.meta then e.meta[f] else "";
            Wanted(site, e, w) == if w.readImage && url != "" && (e.image == "" || recorded != url)
                                  then Some(site.poster(site.resolve(url))) else None
  {
  }

  /** A notice shows the upstream metadata if there is any, or else what could be read of the recorded; and a poster
      just fetched, none if fetching it failed, or else the one that could be read. */
  lemma ShownExactly(site: Site, e: S.Entry, w: Weather)
    ensures ShownMeta(site, e, w) == if exists k :: w.raw.Some? && k in w.raw.value && k != "" then Upstream(site, w)
                                     else if w.readMeta then e.meta else map[]
    ensures var f := site.imageField;
            var url := if w.raw.Some? && f in w.raw.value && f != "" then site.clean(w.raw.value[f]) else "";
            var recorded := if w.readMeta && f in e.meta then e.meta[f] else "";
            ShownImage(site, e, w) == if !w.readImage then ""
                                      else if url == "" || (e.image != "" && recorded == url) then e.image
                                      else if w.fetchPoster then site.poster(site.resolve(url)) else ""
  {
    WantedExactly(site, e, w);
    if k :| w.raw.Some? && k in w.raw.value && k != "" { assert k in Upstream(site, w); }
  }

  /** The entry after a notification. */
  function Refreshed(site: Site, e: S.Entry, w: Weather): S.Entry {
    var p := Wanted(site, e, w);
    e.(meta := e.meta + Wrote(site, w),
       image := if p.Some? && w.fetchPoster && w.writeImage then p.value else e.image)
  }

  ghost function Noted(s: S.Catalog, site: Site, id: int, w: Weather): S.Catalog
    requires s.Valid()
  {
    if id in s.names then s.Put(id, Refreshed(site, s.EntryOf(id), w)) else s
  }

  /** The store between the two writes of a notification. */
  ghost function AfterMeta(s: S.Catalog, site: Site, id: int, w: Weather): S.Catalog
    requires s.Valid()
  {
    if id in s.names then s.Put(id, s.EntryOf(id).(meta := s.EntryOf(id).meta + Wrote(site, w))) else s
  }

  lemma MetaWritten(s: S.Catalog, site: Site, id: int, w: Weather)
    requires s.Valid()
    ensures Wrote(site, w) == map[] ==> AfterMeta(s, site, id, w) == s
    ensures Upstream(site, w) == map[] ==> Wrote(site, w) == map[]
  {
    if id in s.names && Wrote(site, w) == map[] {
      var e := s.EntryOf(id);
      assert e.meta + map[] == e.meta;
      assert s.torrents[s.names[id] := e] == s.torrents;
    }
  }

  function WithImage(e: S.Entry, image: S.Bytes): S.Entry { e.(image := image) }

  lemma PutPut(s: S.Catalog, id: int, e: S.Entry, e': S.Entry)
    requires s.Valid() && id in s.names
    ensures s.Put(id, e).Valid() && s.Put(id, e).names == s.names
    ensures s.Put(id, e).EntryOf(id) == e && s.Put(id, e).Put(id, e') == s.Put(id, e')
    ensures e == s.EntryOf(id) ==> s.Put(id, e) == s
  {
    hide S.Catalog.Valid;
    S.PutValid(s, id, e);
    var n := s.names[id];
    assert s.torrents[n := e][n := e'] == s.torrents[n := e'];
    assert s.torrents[n := s.EntryOf(id)] == s.torrents;
  }

  /** A notification seen as its two writes. */
  lemma NotedInSteps(s: S.Catalog, site: Site, id: int, w: Weather)
    requires s.Valid()
    ensures var t := AfterMeta(s, site, id, w);
            && t.Valid() && t.names == s.names
            && (id !in s.names ==> Noted(s, site, id, w) == t)
            && (id in s.names ==>
                  var p := Wanted(site, s.EntryOf(id), w);
                  && t.EntryOf(id).image == s.EntryOf(id).image
                  && Noted(s, site, id, w) ==
                     if p.Some? && w.fetchPoster && w.writeImage then t.Put(id, WithImage(t.EntryOf(id), p.value))
                     else t)
  {
    hide Wanted, Upstream, Wrote, S.Catalog.Put;
    if id in s.names {
      var e := s.EntryOf(id);
      var e1 := e.(meta := e.meta + Wrote(site, w));
      PutPut(s, id, e1, Refreshed(site, e, w));
    }
  }

  lemma NotedValid(s: S.Catalog, site: Site, id: int, w: Weather)
    requires s.Valid()
    ensures Noted(s, site, id, w).Valid() && Noted(s, site, id, w).names == s.names
    ensures id in s.names ==> s.names[id] in s.torrents
    ensures id in s.names ==> Noted(s, site, id, w).EntryOf(id) == Refreshed(site, s.EntryOf(id), w)
  {
    if id in s.names { PutPut(s, id, Refreshed(site, s.EntryOf(id), w), Refreshed(site, s.EntryOf(id), w)); }
  }

  // ----- What a window does to the store

  /** The store after one probe, whatever failed. */
  ghost function Worked(s: S.Catalog, site: Site, p: Probe): (t: S.Catalog)
    requires s.Valid() && S.FreshFor(s, p.newId)
    ensures t.Valid() && t.names.Keys <= s.names.Keys + {p.newId} && t.offset == s.offset
  {
    if p.fetch.Hit() then Informed(s, site, p.fetch.t, p.faults.add, p.weather, p.newId) else s
  }

  /** Recorded, and then notified about if it has an id. */
  ghost function Informed(s: S.Catalog, site: Site, x: Sighting, add: Add, w: Weather, newId: int): (t: S.Catalog)
    requires s.Valid() && S.FreshFor(s, newId)
    ensures t.Valid() && t.names.Keys <= s.names.Keys + {newId} && t.offset == s.offset
  {
    var r := AddedTo(s, x, add, newId);
    NotedValid(r, site, r.IdOf(x.name), w);
    if add.Added? then Noted(r, site, r.IdOf(x.name), w) else r
  }

  /** The notice of a hit, given the store it was checked against: everything the database did not say it knew. */
  ghost function TagOf(s: S.Catalog, p: Probe): Tag
    requires s.Valid() && p.fetch.Hit()
  {
    Tag(p.fetch.t.name, LooksNew(s, p.fetch.t.name, p.faults.lookup), NewFiles(s, p.fetch.t, p.faults))
  }

  ghost function WorkedAll(s: S.Catalog, site: Site, ps: seq<Probe>): (t: S.Catalog)
    requires s.Valid() && NewIds(s.names, ps, 0)
    ensures t.Valid() && t.offset == s.offset
    ensures forall id :: id in t.names ==> id in s.names || exists i :: 0 <= i < |ps| && ps[i].newId == id
    decreases |ps|
  {
    if ps == [] then s
    else
      var k := |ps| - 1;
      var t := WorkedAll(s, site, ps[..k]);
      Worked(t, site, ps[k])
  }

  ghost function Told(s: S.Catalog, site: Site, ps: seq<Probe>): seq<Tag>
    requires s.Valid() && NewIds(s.names, ps, 0)
    decreases |ps|
  {
    if ps == [] then []
    else
      var k := |ps| - 1;
      Told(s, site, ps[..k]) + if ps[k].fetch.Hit() then [TagOf(WorkedAll(s, site, ps[..k]), ps[k])] else []
  }

  lemma FirstOfWindow(names: map<int, string>, ps: seq<Probe>, k: nat)
    requires NewIds(names, ps, 0) && k <= |ps|
    ensures NewIds(names, ps[..k], 0)
  {
  }

  lemma OneMoreWorked(s: S.Catalog, site: Site, ps: seq<Probe>, k: nat)
    requires s.Valid() && NewIds(s.names, ps, 0) && k < |ps|
    ensures NewIds(s.names, ps[..k], 0) && NewIds(s.names, ps[..k + 1], 0)
    ensures var t := WorkedAll(s, site, ps[..k]);
            && S.FreshFor(t, ps[k].newId)
            && WorkedAll(s, site, ps[..k + 1]) == Worked(t, site, ps[k])
            && Told(s, site, ps[..k + 1])
               == Told(s, site, ps[..k]) + if ps[k].fetch.Hit() then [TagOf(t, ps[k])] else []
  {
    hide Worked, TagOf, S.Catalog.Valid;
    assert ps[..k + 1][..k] == ps[..k];
    assert ps[..k + 1][k] == ps[k];
  }

  lemma {:induction false} ToldNames(s: S.Catalog, site: Site, ps: seq<Probe>)
    requires s.Valid() && NewIds(s.names, ps, 0)
    ensures NamesOf(Told(s, site, ps)) == Announced(ps)
    decreases |ps|
  {
    hide WorkedAll, S.Catalog.Valid;
    if ps != [] {
      FirstOfWindow(s.names, ps, |ps| - 1);
      ToldNames(s, site, ps[..|ps| - 1]);
    }
  }

  function NamesOf(ts: seq<Tag>): seq<string> { seq(|ts|, i requires 0 <= i < |ts| => ts[i].name) }

  /** Where a tick stands after the probes `ps` of its window: the store, the next offset, what was announced and
      celebrated. */
  ghost predicate Progress(site: Site, every: nat, before: S.Catalog, base: nat, ps: seq<Probe>,
                           now: S.Catalog, top: nat, tags: seq<Tag>, celebrated: seq<nat>)
  {
    && every > 0 && before.Valid() && NewIds(before.names, ps, 0)
    && now == WorkedAll(before, site, ps) && top == Top(base, Hits(ps))
    && tags == Told(before, site, ps) && celebrated == Milestones(base, ps, every)
  }

  lemma ProgressStarts(site: Site, every: nat, before: S.Catalog, base: nat, ps: seq<Probe>)
    requires every > 0 && before.Valid()
    ensures Progress(site, every, before, base, ps[..0], before, base, [], [])
  {
    EmptyWindow(before, site, ps, base, every);
  }

  /** One more probe. */
  lemma ProgressGoesOn(site: Site, every: nat, before: S.Catalog, base: nat, ps: seq<Probe>, k: nat,
                       now: S.Catalog, top: nat, tags: seq<Tag>, celebrated: seq<nat>)
    requires k < |ps| && NewIds(before.names, ps, 0)
             && Progress(site, every, before, base, ps[..k], now, top, tags, celebrated)
    ensures every > 0 && now.Valid() && S.FreshFor(now, ps[k].newId)
    ensures var hit, id := ps[k].fetch.Hit(), base + k;
            Progress(site, every, before, base, ps[..k + 1], Worked(now, site, ps[k]), if hit then id + 1 else top,
                     tags + (if hit then [TagOf(now, ps[k])] else []),
                     celebrated + if hit && id > 0 && id % every == 0 then [id] else [])
  {
    hide WorkedAll, Worked, TagOf, Told, Top, Hits, Milestones, S.Catalog.Valid, S.FreshFor, NewIds;
    OneMoreWorked(before, site, ps, k);
    OneMore(ps, k, base, every);
  }

  /** The offset a tick starts from. */
  function Base(s: S.Catalog): nat { if s.offset.Some? then s.offset.value else 0 }

  /** The offset past the last hit, if there was one and it could be stored. */
  function OffsetMoved(s: S.Catalog, base: nat, hits: seq<bool>, saved: bool): S.Catalog {
    if saved && Top(base, hits) > base then s.(offset := Some(Top(base, hits))) else s
  }

  /** The offset after a window, by what was found there: past every torrent that has any content, if it can be
      stored, and moved only to right after one of them. */
  lemma OffsetExactly(s: S.Catalog, site: Site, ps: seq<Probe>, saved: bool, t: S.Catalog, base: nat)
    requires s.Valid() && NewIds(s.names, ps, 0) && base == Base(s)
    requires t == OffsetMoved(WorkedAll(s, site, ps), base, Hits(ps), saved)
    ensures t.(offset := s.offset) == WorkedAll(s, site, ps)
    ensures saved ==>
              forall k :: 0 <= k < |ps| && ps[k].fetch.Found? && ps[k].fetch.t.length > 0 ==>
                t.offset.Some? && t.offset.value > base + k
    ensures t.offset != s.offset ==>
              && saved
              && exists k :: 0 <= k < |ps| && ps[k].fetch.Found? && ps[k].fetch.t.length > 0
                             && t.offset == Some(base + k + 1)
  {
    hide WorkedAll, Top, S.Catalog.Valid;
    var hits := Hits(ps);
    TopBounds(Base(s), hits);
    forall j | 0 <= j < |ps| ensures hits[j] <==> ps[j].fetch.Found? && ps[j].fetch.t.length > 0 {}
    if t.offset != s.offset { assert hits[Top(base, hits) - base - 1]; }
  }

  /** In a valid store the names known are those with an entry. */
  lemma KnownNames(s: S.Catalog)
    requires s.Valid()
    ensures forall n :: s.Known(n) <==> n in s.torrents
    ensures forall n :: s.Known(n) ==> s.EntryOf(s.IdOf(n)) == s.torrents[n]
  {
  }

  /** What is new about a sighting, by what the database answers. */
  lemma News(s: S.Catalog, x: Sighting, f: Faults)
    requires s.Valid()
    ensures LooksNew(s, x.name, f.lookup) <==> if f.lookup.Errs? then f.lookup.looksNew else x.name !in s.torrents
    ensures forall p :: p in NewFiles(s, x, f) <==>
              p in x.files
              && (f.lookup.Errs? || f.getFiles || x.name !in s.torrents || p !in s.torrents[x.name].files)
  {
    KnownNames(s);
  }

  lemma InformedNames(s: S.Catalog, site: Site, x: Sighting, add: Add, w: Weather, newId: int)
    requires s.Valid() && S.FreshFor(s, newId)
    ensures Informed(s, site, x, add, w, newId).torrents.Keys
         == s.torrents.Keys + if add != Refused(false) then {x.name} else {}
  {
    hide Refreshed, EntryAdded, AddedTo, S.Catalog.Valid, S.Catalog.Known;
    if add == Refused(false) { NotAdded(s, x, newId); } else { AddedExactly(s, x, add, newId); }
  }

  /** The ids asked for so far: `n` of them, from `base` on. */
  ghost predicate Walked(was: seq<nat>, now: seq<nat>, base: nat, n: nat) {
    |now| == |was| + n && now[..|was|] == was && forall i :: |was| <= i < |now| ==> now[i] == base + (i - |was|)
  }

  lemma WalkedStarts(was: seq<nat>, base: nat)
    ensures Walked(was, was, base, 0)
  {
  }

  lemma WalkedOn(was: seq<nat>, now: seq<nat>, base: nat, n: nat)
    requires Walked(was, now, base, n)
    ensures Walked(was, now + [base + n], base, n + 1)
  {
  }

  lemma WalkedIs(was: seq<nat>, now: seq<nat>, base: nat, n: nat)
    requires Walked(was, now, base, n)
    ensures |now| == |was| + n && now[..|was|] == was
    ensures forall i :: |was| <= i < |now| ==> now[i] == base + (i - |was|)
  {
  }

  /** What a tick stores in the end. */
  lemma OffsetSaved(s: S.Catalog, site: Site, ps: seq<Probe>, top: nat, saved: bool)
    requires s.Valid() && NewIds(s.names, ps, 0) && top == Top(Base(s), Hits(ps))
    ensures OffsetMoved(WorkedAll(s, site, ps), Base(s), Hits(ps), saved)
         == if saved && top > Base(s) then WorkedAll(s, site, ps).(offset := Some(top)) else WorkedAll(s, site, ps)
  {
  }

  /** AddTorrent replaces data, adds the files that got through, and leaves metadata and image as they were. */
  lemma AddedExactly(s: S.Catalog, x: Sighting, add: Add, newId: int)
    requires s.Valid() && S.FreshFor(s, newId) && add != Refused(false)
    ensures var e := EntryBefore(s, x.name);
            var r := AddedTo(s, x, add, newId);
            && r == s.(torrents := s.torrents[x.name := EntryAdded(e, x, add)],
                       names := if x.name in s.torrents then s.names else s.names[newId := x.name])
            && r.Known(x.name) && r.EntryOf(r.IdOf(x.name)) == EntryAdded(e, x, add)
  {
    KnownNames(s);
    KnownNames(AddedTo(s, x, add, newId));
    hide S.Catalog.Valid;
    assert {} + Arrived(x, add).files == Arrived(x, add).files;
    RecordedValid(s, Arrived(x, add), newId);
  }

  function EntryAdded(e: S.Entry, x: Sighting, add: Add): S.Entry {
    e.(data := x.data, files := e.files + if add.Added? then x.files - add.lost else {})
  }

  lemma NotAdded(s: S.Catalog, x: Sighting, newId: int)
    requires s.Valid() && S.FreshFor(s, newId)
    ensures AddedTo(s, x, Refused(false), newId) == s
  {
  }

  /** Data and files play no part in a notification. */
  lemma SameNews(site: Site, e: S.Entry, x: Sighting, add: Add, w: Weather)
    ensures var f := EntryAdded(e, x, add);
            && Wanted(site, f, w) == Wanted(site, e, w)
            && ShownMeta(site, f, w) == ShownMeta(site, e, w) && ShownImage(site, f, w) == ShownImage(site, e, w)
  {
    hide Upstream, Site.Url;
  }

  /** What a check makes of the store, by what was found: nothing, if that has no content; otherwise the name's entry
      alone is replaced. Its data is the new one, its files are those it had and those that got through; metadata
      and poster are those of the notification, if AddTorrent gave an id. */
  lemma WorkedExactly(s: S.Catalog, site: Site, p: Probe)
    requires s.Valid() && S.FreshFor(s, p.newId)
    ensures var t, x, w, add := Worked(s, site, p), p.fetch, p.weather, p.faults.add;
            if x.Found? && x.t.length > 0 && add != Refused(false) then
              var name, e0 := x.t.name, EntryBefore(s, x.t.name);
              && name in t.torrents
              && t == s.(torrents := s.torrents[name := t.torrents[name]],
                         names := if name in s.torrents then s.names else s.names[p.newId := name])
              && var e := t.torrents[name];
                 && e.data == x.t.data
                 && e.files == e0.files + (if add.Added? then x.t.files - add.lost else {})
                 && (add.Refused? ==> e.meta == e0.meta && e.image == e0.image)
                 && (add.Added? ==>
                       && e.meta == e0.meta + Wrote(site, w)
                       && var q := Wanted(site, e0, w);
                          e.image == if q.Some? && w.fetchPoster && w.writeImage then q.value else e0.image)
            else t == s
  {
    hide Wanted, Wrote, AddedTo, EntryBefore, S.Catalog.Valid, ShownMeta, ShownImage;
    var x, add := p.fetch, p.faults.add;
    if x.Found? && add == Refused(false) { NotAdded(s, x.t, p.newId); }
    if x.Found? && x.t.length > 0 && add != Refused(false) {
      var e0 := EntryBefore(s, x.t.name);
      AddedExactly(s, x.t, add, p.newId);
      SameNews(site, e0, x.t, add, p.weather);
      var r := AddedTo(s, x.t, add, p.newId);
      if add.Added? {
        var id, name := r.IdOf(x.t.name), x.t.name;
        assert r.names[id] == name;
        var e := Refreshed(site, EntryAdded(e0, x.t, add), p.weather);
        assert s.torrents[name := EntryAdded(e0, x.t, add)][name := e] == s.torrents[name := e];
      }
    }
  }

  /** A window makes known exactly the names found with any content, unless AddTorrent stored nothing. */
  lemma {:induction false} WindowKnows(s: S.Catalog, site: Site, ps: seq<Probe>, n: string)
    requires s.Valid() && NewIds(s.names, ps, 0)
    ensures n in WorkedAll(s, site, ps).torrents <==>
            n in s.torrents ||
            exists k :: 0 <= k < |ps| && ps[k].fetch.Found? && ps[k].fetch.t.length > 0 && ps[k].fetch.t.name == n &&
                        ps[k].faults.add != Refused(false)
    decreases |ps|
  {
    hide Worked, WorkedAll, S.Catalog.Valid, S.FreshFor, Wanted, Wrote, NewIds;
    if ps == [] {
      EmptyWindow(s, site, ps, 0, 1);
      assert ps[..0] == ps;
    } else {
      var k := |ps| - 1;
      FirstOfWindow(s.names, ps, k);
      WindowKnows(s, site, ps[..k], n);
      OneMoreWorked(s, site, ps, k);
      assert ps[..k + 1] == ps;
      WorkedExactly(WorkedAll(s, site, ps[..k]), site, ps[k]);
    }
  }

  /** It announces exactly the names found with any content. */
  lemma {:induction false} WindowTells(ps: seq<Probe>, n: string)
    ensures n in Announced(ps) <==>
            exists k :: 0 <= k < |ps| && ps[k].fetch.Found? && ps[k].fetch.t.length > 0 && ps[k].fetch.t.name == n
    decreases |ps|
  {
    if ps != [] { WindowTells(ps[..|ps| - 1], n); }
  }

  predicate Increasing(ns: seq<nat>) { forall i, j :: 0 <= i < j < |ns| ==> ns[i] < ns[j] }

  lemma StillIncreasing(ns: seq<nat>, n: nat)
    requires Increasing(ns) && forall i :: 0 <= i < |ns| ==> ns[i] < n
    ensures Increasing(ns + [n])
  {
  }

  /** Celebrated are exactly the ids found with any content that are positive multiples of `every`, in order. */
  lemma {:induction false} MilestonesExactly(base: nat, ps: seq<Probe>, every: nat)
    requires every > 0
    ensures forall x :: x in Milestones(base, ps, every) <==>
              base <= x < base + |ps| && ps[x - base].fetch.Found? && ps[x - base].fetch.t.length > 0 &&
              x > 0 && x % every == 0
    ensures Increasing(Milestones(base, ps, every))
    decreases |ps|
  {
    if ps != [] {
      var k := |ps| - 1;
      MilestonesExactly(base, ps[..k], every);
      var before := Milestones(base, ps[..k], every);
      forall i | 0 <= i < |before| ensures before[i] < base + k { assert before[i] in before; }
      StillIncreasing(before, base + k);
    }
  }

  /** A check after AddTorrent, and what its notice will show. */
  lemma Outcome(s: S.Catalog, site: Site, x: Sighting, add: Add, w: Weather, newId: int)
    requires s.Valid() && S.FreshFor(s, newId)
    ensures var r, t := AddedTo(s, x, add, newId), Informed(s, site, x, add, w, newId);
            && t.torrents.Keys == s.torrents.Keys + (if add != Refused(false) then {x.name} else {})
            && (add.Added? ==>
                  var id, e := r.IdOf(x.name), EntryBefore(s, x.name);
                  && id in r.names && r.names[id] in r.torrents && t == Noted(r, site, id, w)
                  && ShownMeta(site, r.EntryOf(id), w) == ShownMeta(site, e, w)
                  && ShownImage(site, r.EntryOf(id), w) == ShownImage(site, e, w))
            && (add.Refused? ==> t == r)
  {
    hide ShownMeta, ShownImage, Noted, EntryAdded;
    InformedNames(s, site, x, add, w, newId);
    if add.Added? {
      AddedExactly(s, x, add, newId);
      SameNews(site, EntryBefore(s, x.name), x, add, w);
    }
  }

  /** Nothing is noted under the invalid id. */
  lemma NothingNoted(s: S.Catalog, site: Site, w: Weather)
    requires s.Valid()
    ensures INVALID_DB_ID !in s.names && Noted(s, site, INVALID_DB_ID, w) == s
  {
  }

  class Observer {
    const site: Site
    const threshold: nat
    const anniversary: nat
    // Redis reads an offset that was never stored as 0, SQL fails.
    const zeroByDefault: bool
    var s: S.Catalog
    // the ids whose page was asked for
    var fetched: seq<nat>
    var notices: seq<Notice>
    var anniversaries: seq<nat>

    ghost predicate Valid() reads this { anniversary > 0 && s.Valid() }

    constructor (site: Site, threshold: nat, anniversary: nat, zeroByDefault: bool, s: S.Catalog)
      requires anniversary > 0 && s.Valid()
      ensures Valid() && this.s == s && this.site == site && this.threshold == threshold
      ensures this.anniversary == anniversary && this.zeroByDefault == zeroByDefault
      ensures notices == [] && anniversaries == [] && fetched == []
    {
      this.site, this.threshold, this.anniversary, this.s := site, threshold, anniversary, s;
      this.zeroByDefault := zeroByDefault;
      notices, anniversaries, fetched := [], [], [];
    }

    /** The database's GetTorrent. */
    method DbGetTorrent(name: string) returns (id: int)
      requires s.Valid()
      ensures id == s.IdOf(name)
    {
      id := INVALID_DB_ID;
      if exists i :: i in s.names && s.names[i] == name {
        id :| id in s.names && s.names[id] == name;
      }
    }

    /** The database's AddTorrent, on a slice of files in whatever order. */
    method DbAddTorrent(name: string, data: S.Bytes, files: set<string>, newId: int) returns (id: int)
      requires s.Valid() && S.FreshFor(s, newId)
      modifies this`s
      ensures s.Valid()
      ensures id in s.names && s.names[id] == name
      ensures old(s).Known(name) ==>
                id == old(s).IdOf(name)
                && s == old(s).Put(id, old(s).EntryOf(id).(data := data, files := old(s).EntryOf(id).files + files))
      ensures !old(s).Known(name) ==>
                id == newId && s == S.Extended(old(s), newId, name, S.Entry(data, "", files, map[]))
    {
      id := DbGetTorrent(name);
      if id in s.names {
        var e := s.torrents[name];
        S.PutValid(s, id, e.(data := data, files := e.files + files));
        s := s.(torrents := s.torrents[name := e.(data := data, files := e.files + files)]);
      } else {
        id := newId;
        S.ExtendedValid(s, newId, name, S.Entry(data, "", files, map[]));
        s := s.(names := s.names[newId := name], torrents := s.torrents[name := S.Entry(data, "", files, map[])]);
      }
    }

    /** AddTorrent with the files not stored yet, whatever comes of it. */
    method Record(t: Sighting, unseen: set<string>, add: Add, newId: int) returns (torrentId: int)
      requires s.Valid() && S.FreshFor(s, newId)
      requires t.files - StoredFiles(s, t.name) <= unseen <= t.files
      modifies this`s
      ensures s == AddedTo(old(s), t, add, newId)
      ensures torrentId == if add.Added? then s.IdOf(t.name) else INVALID_DB_ID
      ensures s.Valid() && INVALID_DB_ID !in s.names
    {
      ghost var before := s;
      if add != Refused(false) {
        torrentId := DbAddTorrent(t.name, t.data, if add.Added? then unseen - add.lost else {}, newId);
        Covered(before, Arrived(t, add), if add.Added? then unseen - add.lost else {}, newId);
        assert s.IdOf(t.name) == torrentId;
      }
      if add.Refused? { torrentId := INVALID_DB_ID; }
    }

    /** What the database knows of a torrent: whether it looks new, and which of its files do. */
    method Compare(t: Sighting, f: Faults) returns (isNew: bool, unseen: set<string>)
      requires s.Valid()
      ensures (isNew <==> LooksNew(s, t.name, f.lookup)) && unseen == NewFiles(s, t, f)
      ensures t.files - StoredFiles(s, t.name) <= unseen <= t.files
      ensures isNew <==> if f.lookup.Errs? then f.lookup.looksNew else t.name !in s.torrents
      ensures forall p :: p in unseen <==>
                p in t.files
                && (f.lookup.Errs? || f.getFiles || t.name !in s.torrents || p !in s.torrents[t.name].files)
    {
      // torrent.Files: every path is new until the database says otherwise
      unseen := t.files;
      var torrentId := if f.lookup == Errs(false) then 0 else INVALID_DB_ID;
      if f.lookup.Answers? {
        torrentId := DbGetTorrent(t.name);
        if !f.getFiles && torrentId in s.names {
          unseen := unseen - s.torrents[t.name].files;
        }
      }
      isNew := torrentId == INVALID_DB_ID;
      KnownNames(s);
      News(s, t, f);
    }

    /** Checks one id. A hit is recorded, as far as the database lets it, and announced with exactly the files not
        stored before; the torrent counts as new if its name is unknown, or if looking it up failed with the
        invalid id. */
    method CheckTorrent(offset: nat, fetch: Fetch, f: Faults, w: Weather, newId: int) returns (hit: bool)
      requires Valid() && S.FreshFor(s, newId)
      modifies this`s, this`notices, this`anniversaries, this`fetched
      ensures Valid() && fetched == old(fetched) + [offset]
      ensures hit <==> fetch.Found? && fetch.t.length > 0
      ensures !hit ==> s == old(s) && notices == old(notices) && anniversaries == old(anniversaries)
      ensures hit ==> |notices| == |old(notices)| + 1 && notices[..|old(notices)|] == old(notices)
      ensures hit ==>
                var n, name := notices[|old(notices)|], fetch.t.name;
                && n.name == name
                && (n.isNew <==> if f.lookup.Errs? then f.lookup.looksNew else name !in old(s).torrents)
                && n.newFiles == NewFiles(old(s), fetch.t, f)
                && forall p :: p in n.newFiles <==>
                     p in fetch.t.files
                     && (f.lookup.Errs? || f.getFiles || name !in old(s).torrents || p !in old(s).torrents[name].files)
      ensures hit ==>
                var n, e := notices[|old(notices)|], EntryBefore(old(s), fetch.t.name);
                if f.add.Added? then n.meta == ShownMeta(site, e, w) && n.image == ShownImage(site, e, w)
                else n.meta == Upstream(site, w) && n.image == ""
      ensures hit ==>
                s.torrents.Keys == old(s).torrents.Keys + if f.add != Refused(false) then {fetch.t.name} else {}
      ensures s.offset == old(s).offset && s.names.Keys <= old(s).names.Keys + {newId}
      ensures hit ==> s == Informed(old(s), site, fetch.t, f.add, w, newId)
      ensures hit ==>
                anniversaries == old(anniversaries) + if offset > 0 && offset % anniversary == 0 then [offset] else []
    {
      hide Refreshed, Wanted, Upstream, AddedTo, Recorded, ShownMeta, ShownImage, LooksNew, NewFiles, StoredFiles,
           EntryBefore, S.Catalog.Valid, S.Catalog.Put, S.FreshFor, Noted, Informed, S.Catalog.Known;
      hit := false;
      fetched := fetched + [offset];
      if fetch.Found? {
        var t := fetch.t;
        if t.length > 0 {
          var isNew, unseen := Compare(t, f);
          var torrentId := Record(t, unseen, f.add, newId);
          Outcome(old(s), site, t, f.add, w, newId);
          NothingNoted(s, site, w);
          Notify(torrentId, t.name, isNew, unseen, w);
          if offset > 0 && offset % anniversary == 0 {
            anniversaries := anniversaries + [offset];
          }
          hit := true;
        }
      }
    }

    /** One tick of Engage. The window starts at the stored offset; the offset moves past the last hit if
        storing it works; the hits are recorded and announced in order, each told new against the store that
        the ones before it left. Without an offset to read the crawl ends. */
    method Tick(ps: seq<Probe>, saveWorks: bool) returns (alive: bool)
      requires Valid() && |ps| == threshold && NewIds(s.names, ps, 0)
      modifies this`s, this`notices, this`anniversaries, this`fetched
      ensures Valid() && (alive <==> old(s).offset.Some? || zeroByDefault)
      ensures !alive ==> s == old(s) && notices == old(notices) && anniversaries == old(anniversaries)
      ensures !alive ==> fetched == old(fetched)
      ensures alive ==>
                var base := if old(s).offset.Some? then old(s).offset.value else 0;
                && |fetched| == |old(fetched)| + threshold && fetched[..|old(fetched)|] == old(fetched)
                && (forall i :: |old(fetched)| <= i < |fetched| ==> fetched[i] == base + (i - |old(fetched)|))
      ensures alive ==> s.(offset := old(s).offset) == WorkedAll(old(s), site, ps)
      ensures alive && saveWorks ==>
                var base := if old(s).offset.Some? then old(s).offset.value else 0;
                forall k :: 0 <= k < |ps| && ps[k].fetch.Found? && ps[k].fetch.t.length > 0 ==>
                  s.offset.Some? && s.offset.value > base + k
      ensures s.offset != old(s).offset ==>
                var base := if old(s).offset.Some? then old(s).offset.value else 0;
                && saveWorks
                && exists k :: 0 <= k < |ps| && ps[k].fetch.Found? && ps[k].fetch.t.length > 0
                               && s.offset == Some(base + k + 1)
      ensures alive ==>
                var base := Base(old(s));
                && s == OffsetMoved(WorkedAll(old(s), site, ps), base, Hits(ps), saveWorks)
                && Tags(notices) == Tags(old(notices)) + Told(old(s), site, ps)
                && NamesOf(Told(old(s), site, ps)) == Announced(ps)
                && anniversaries == old(anniversaries) + Milestones(base, ps, anniversary)
    {
      hide Top, Hits, Announced, Milestones, Tags, Told, WorkedAll, Worked, TagOf, NamesOf, S.Catalog.Valid, NewIds,
           S.FreshFor, Progress, OffsetMoved, Walked;
      alive := s.offset.Some? || zeroByDefault;
      if !alive { return; }
      ghost var before := s;
      ghost var tags: seq<Tag>, celebrated: seq<nat> := [], [];
      var nextOffset := if s.offset.Some? then s.offset.value else 0;
      var newNextOffset: nat := nextOffset;
      var offsetToCheck: nat := nextOffset;
      ProgressStarts(site, anniversary, s, nextOffset, ps);
      WalkedStarts(fetched, nextOffset);
      while offsetToCheck < nextOffset + threshold
        invariant nextOffset <= offsetToCheck <= nextOffset + threshold && Valid()
        invariant Progress(site, anniversary, before, nextOffset, ps[..offsetToCheck - nextOffset], s, newNextOffset,
                           tags, celebrated)
        invariant Tags(notices) == Tags(old(notices)) + tags && anniversaries == old(anniversaries) + celebrated
        invariant Walked(old(fetched), fetched, nextOffset, offsetToCheck - nextOffset)
      {
        ghost var k := offsetToCheck - nextOffset;
        var p := ps[offsetToCheck - nextOffset];
        ProgressGoesOn(site, anniversary, before, nextOffset, ps, k, s, newNextOffset, tags, celebrated);
        tags := tags + if p.fetch.Hit() then [TagOf(s, p)] else [];
        celebrated := celebrated +
          if p.fetch.Hit() && offsetToCheck > 0 && offsetToCheck % anniversary == 0 then [offsetToCheck] else [];
        ghost var asked := fetched;
        var hit := Check(offsetToCheck, p);
        WalkedOn(old(fetched), asked, nextOffset, k);
        if hit {
          newNextOffset := offsetToCheck + 1;
        }
        offsetToCheck := offsetToCheck + 1;
      }
      assert ps[..threshold] == ps;
      ProgressEnds(before, nextOffset, ps, newNextOffset, tags, celebrated);
      OffsetSaved(before, site, ps, newNextOffset, saveWorks);
      if newNextOffset > nextOffset && saveWorks {
        SaveOffset(newNextOffset);
      }
      OffsetExactly(before, site, ps, saveWorks, s, nextOffset);
      WalkedIs(old(fetched), fetched, nextOffset, threshold);
    }

    lemma ProgressEnds(before: S.Catalog, base: nat, ps: seq<Probe>, top: nat, tags: seq<Tag>, celebrated: seq<nat>)
      requires Progress(site, anniversary, before, base, ps, s, top, tags, celebrated)
      ensures before.Valid() && NewIds(before.names, ps, 0) && s == WorkedAll(before, site, ps)
              && s.offset == before.offset
      ensures top == Top(base, Hits(ps)) >= base && tags == Told(before, site, ps) && NamesOf(tags) == Announced(ps)
      ensures celebrated == Milestones(base, ps, anniversary)
    {
      hide Top, Hits, Announced, Milestones, Told, Worked, TagOf, NamesOf, S.Catalog.Valid, NewIds;
      TopBounds(base, Hits(ps));
      ToldNames(before, site, ps);
    }

    /** CheckTorrent on a probe, in the terms of the window. */
    method Check(offset: nat, p: Probe) returns (hit: bool)
      requires Valid() && S.FreshFor(s, p.newId)
      modifies this`s, this`notices, this`anniversaries, this`fetched
      ensures fetched == old(fetched) + [offset]
      ensures Valid() && hit == p.fetch.Hit() && s == Worked(old(s), site, p)
      ensures Tags(notices) == Tags(old(notices)) + if hit then [TagOf(old(s), p)] else []
      ensures anniversaries
              == old(anniversaries) + if hit && offset > 0 && offset % anniversary == 0 then [offset] else []
    {
      hide Recorded, Noted, NewFiles, Tags, S.Catalog.Valid;
      KnownNames(s);
      hit := CheckTorrent(offset, p.fetch, p.faults, p.weather, p.newId);
      if hit { OneMoreTag(old(notices), notices); }
    }

    method SaveOffset(offset: nat)
      requires s.Valid()
      modifies this`s
      ensures s == old(s).(offset := Some(offset)) && s.Valid()
    {
      S.StillValid(s, s.(offset := Some(offset)));
      s := s.(offset := Some(offset));
    }

    /** Adding only the files not stored yet stores them all. */
    static lemma Covered(s: S.Catalog, x: Sighting, added: set<string>, newId: int)
      requires s.Valid() && x.files - StoredFiles(s, x.name) <= added <= x.files
      ensures s.Known(x.name) ==> s.EntryOf(s.IdOf(x.name)).files + added == s.EntryOf(s.IdOf(x.name)).files + x.files
      ensures !s.Known(x.name) ==> added == x.files
    {
    }

    /** The first half of notify: new metadata is merged into the recorded one. */
    method RefreshMeta(id: int, w: Weather)
      returns (upstreamMeta: map<string, string>, existingMeta: map<string, string>, announced: map<string, string>)
      requires s.Valid()
      modifies this`s
      ensures s.Valid() && s == AfterMeta(old(s), site, id, w)
      ensures upstreamMeta == Upstream(site, w)
      ensures existingMeta == if w.readMeta && id in old(s).names then old(s).EntryOf(id).meta else map[]
      ensures announced == if Upstream(site, w) != map[] then Upstream(site, w) else existingMeta
    {
      upstreamMeta, existingMeta := map[], map[];
      if w.raw.Some? { upstreamMeta := site.Upstream(w.raw.value); }
      if w.readMeta && id in s.names { existingMeta := s.torrents[s.names[id]].meta; }
      announced := existingMeta;
      MetaWritten(s, site, id, w);
      if |upstreamMeta| > 0 {
        announced := upstreamMeta;
        DbPut(id, Wrote(site, w), None);
      }
    }

    /** The second half of notify: the poster is fetched if there is none or its URL changed. */
    method RefreshImage(id: int, imageUrl: string, existingUrl: string, w: Weather) returns (torrentImage: S.Bytes)
      requires s.Valid()
      modifies this`s
      ensures s.Valid()
      ensures var known := id in old(s).names && w.readImage;
              var reload := known && imageUrl != "" && (old(s).EntryOf(id).image == "" || existingUrl != imageUrl);
              && s.names == old(s).names
              && (reload && w.fetchPoster && w.writeImage ==>
                    s == old(s).Put(id, WithImage(old(s).EntryOf(id), site.Poster(imageUrl))))
              && (!(reload && w.fetchPoster && w.writeImage) ==> s == old(s))
              && torrentImage == if reload then (if w.fetchPoster then site.Poster(imageUrl) else "")
                                 else if known then old(s).EntryOf(id).image else ""
    {
      torrentImage := "";
      if w.readImage && id in s.names {
        torrentImage := s.torrents[s.names[id]].image;
        if |torrentImage| == 0 || existingUrl != imageUrl {
          if |imageUrl| > 0 {
            torrentImage := "";
            if w.fetchPoster {
              torrentImage := site.Poster(imageUrl);
              if w.writeImage { DbPut(id, map[], Some(torrentImage)); }
            }
          }
        }
      }
    }

    /** Metadata and poster are refreshed, then the producers are told what was read upstream, or the metadata
        recorded before if upstream had none, and the image. */
    method Notify(id: int, name: string, isNew: bool, newFiles: set<string>, w: Weather)
      requires s.Valid()
      modifies this`s, this`notices
      ensures s.Valid() && s == Noted(old(s), site, id, w)
      ensures |notices| == |old(notices)| + 1 && notices[..|old(notices)|] == old(notices)
      ensures var n := notices[|old(notices)|];
              && n.name == name && n.isNew == isNew && n.newFiles == newFiles
              && (id in old(s).names ==>
                    n.meta == ShownMeta(site, old(s).EntryOf(id), w)
                      && n.image == ShownImage(site, old(s).EntryOf(id), w))
              && (id !in old(s).names ==> n.image == "")
              && n.meta == (if Upstream(site, w) != map[] then Upstream(site, w)
                            else if w.readMeta && id in old(s).names then old(s).EntryOf(id).meta else map[])
              && (id in old(s).names && Fair(site, w) ==> n.image == s.EntryOf(id).image)
    {
      hide AfterMeta, Noted, Upstream, Wrote, Site.Url, S.Catalog.Valid;
      ghost var before := s;
      NotedInSteps(s, site, id, w);
      NotedValid(s, site, id, w);
      var upstreamMeta, existingMeta, announced := RefreshMeta(id, w);
      var torrentImage := RefreshImage(id, site.Url(upstreamMeta), site.Url(existingMeta), w);
      notices := notices + [Notice(name, isNew, newFiles, announced, torrentImage)];
    }

    /** The database's AddTorrentMeta or AddTorrentImage. */
    method DbPut(id: int, meta: map<string, string>, image: Option<S.Bytes>)
      requires s.Valid()
      modifies this`s
      ensures s.Valid()
      ensures s == if id in old(s).names
                   then old(s).Put(id, old(s).EntryOf(id).(meta := old(s).EntryOf(id).meta + meta,
                                                           image := if image.Some? then image.value
                                                                    else old(s).EntryOf(id).image))
                   else old(s)
      ensures id in old(s).names && meta == map[] && image.Some? ==>
                s == old(s).Put(id, WithImage(old(s).EntryOf(id), image.value))
    {
      if id in s.names {
        var e := s.torrents[s.names[id]];
        var e' := e.(meta := e.meta + meta, image := if image.Some? then image.value else e.image);
        S.PutValid(s, id, e');
        assert e.meta + map[] == e.meta;
        s := s.(torrents := s.torrents[s.names[id] := e']);
      }
    }
  }
}
