/**
 AddTorrent of shared/redis/db.go as it really runs: its commands go out on the plain connection, not on
 the pipeline it opens, so any number of calls interleave command by command, and any of them may be cut
 off between two commands. Names are arbitrary: also those that run into another key family.
 */
module RedisRace {
  import opened Basics
  import opened Decimal
  import opened RedisServer
  import opened RedisStore
  import S = Store

  /** The command a call sends next. */
  datatype Stage =
    | Begin | Lookup | Allocate | WriteIdx(id: int) | WriteRev(id: int) | WriteFiles(id: int, sid: string)
    | Finished(id: int) | Aborted

  datatype Task = Task(name: string, data: Bytes, files: seq<string>, stage: Stage) {
    predicate InFlight() { !stage.Finished? && !stage.Aborted? }

    /** The call works with an id that was drawn for its name. */
    ghost predicate Owns(owners: map<int, string>) {
      match stage
      case WriteIdx(id) => id in owners && owners[id] == name
      case WriteRev(id) => id in owners && owners[id] == name
      case WriteFiles(id, sid) => id in owners && owners[id] == name && sid == FormatInt(id)
      case Finished(id) => id in owners && owners[id] == name
      case _ => true
    }

    function To(s: Stage): Task { this.(stage := s) }

    function Settled(id: int, sid: string): Task { To(if files == [] then Finished(id) else WriteFiles(id, sid)) }
  }

  /** One command and the decision that follows it. */
  function Command(ks: Keyspace, t: Task): (Keyspace, Task) {
    var key := TorrentKey(t.name);
    match t.stage
    case Begin =>
      var (k, r) := HSet(ks, key, map["name" := t.name, "data" := t.data]);
      (k, t.To(if r.Ok? then Lookup else Aborted))
    case Lookup =>
      var r := HGet(ks, key, "idx");
      if r.Err? then (ks, t.To(Aborted))
      else if Text(r) == "" then (ks, t.To(Allocate))
      else if ParseInt(Text(r)).ok then (ks, t.Settled(ParseInt(Text(r)).value, Text(r)))
      else (ks, t.To(Aborted))
    case Allocate =>
      var (k, r) := Incr(ks, COUNTER);
      (k, t.To(if r.Ok? then WriteIdx(r.value) else Aborted))
    case WriteIdx(id) =>
      var (k, r) := HSet(ks, key, map["idx" := FormatInt(id)]);
      (k, t.To(if r.Ok? then WriteRev(id) else Aborted))
    case WriteRev(id) =>
      var (k, r) := HSet(ks, IDS, map[FormatInt(id) := key]);
      (k, if r.Ok? then t.Settled(id, FormatInt(id)) else t.To(Aborted))
    case WriteFiles(id, sid) =>
      var (k, r) := SAdd(ks, FilesKey(sid), S.ToSet(t.files));
      (k, t.To(if r.Ok? then Finished(id) else Aborted))
    case _ => (ks, t)
  }

  /** A call that is left alone. */
  function Solo(ks: Keyspace, t: Task, commands: nat): (Keyspace, Task)
    decreases commands
  {
    if commands == 0 then (ks, t)
    else
      var (k, u) := Command(ks, t);
      Solo(k, u, commands - 1)
  }

  /** `owners` and `lost` are history: the name each id was drawn for, and the ids whose call was cut off
      after idx and before the reverse entry. */
  datatype State = State(ks: Keyspace, tasks: map<nat, Task>, owners: map<int, string>, lost: set<int>)

  datatype Event = Arrive(c: nat, name: string, data: Bytes, files: seq<string>) | Send(c: nat) | Cut(c: nat)

  predicate Enabled(s: State, e: Event) {
    match e
    case Arrive(c, _, _, _) => c !in s.tasks
    case Send(c) => c in s.tasks && s.tasks[c].InFlight()
    case Cut(c) => c in s.tasks && s.tasks[c].InFlight()
  }

  function Apply(s: State, e: Event): State
    requires Enabled(s, e)
  {
    match e
    case Arrive(c, name, data, files) => s.(tasks := s.tasks[c := Task(name, data, files, Begin)])
    case Send(c) =>
      var (k, u) := Command(s.ks, s.tasks[c]);
      var owners := if s.tasks[c].stage.Allocate? && u.stage.WriteIdx? then s.owners[u.stage.id := u.name]
        else s.owners;
      s.(ks := k, tasks := s.tasks[c := u], owners := owners)
    case Cut(c) =>
      var lost := if s.tasks[c].stage.WriteRev? then s.lost + {s.tasks[c].stage.id} else s.lost;
      s.(tasks := s.tasks[c := s.tasks[c].To(Aborted)], lost := lost)
  }

  function Exec(s: State, es: seq<Event>): Option<State>
    decreases |es|
  {
    if es == [] then Some(s)
    else if Enabled(s, es[0]) then Exec(Apply(s, es[0]), es[1..])
    else None
  }

  /** The id a name's record carries, as text. */
  function Idx(ks: Keyspace, name: string): Option<Bytes> {
    var f := Fields(ks, TorrentKey(name));
    if "idx" in f then Some(f["idx"]) else None
  }

  function Rev(ks: Keyspace, id: int): Option<Bytes> {
    var f := Fields(ks, IDS);
    if FormatInt(id) in f then Some(f[FormatInt(id)]) else None
  }

  // ----- The invariant

  ghost predicate Counted(s: State) {
    && CounterIs(s.ks, |s.owners|) && |s.owners| <= INT64_MAX
    && forall id :: id in s.owners <==> 1 <= id <= |s.owners|
  }

  /** Both directions of the index, and every call at work, respect what the id was drawn for. */
  ghost predicate Bound(s: State) {
    && HashKey(s.ks, IDS)
    && (forall id: int :: Rev(s.ks, id).Some? ==> id in s.owners && Rev(s.ks, id).value == TorrentKey(s.owners[id]))
    && (forall n :: Idx(s.ks, n).Some? ==>
        exists id :: id in s.owners && s.owners[id] == n && Idx(s.ks, n).value == FormatInt(id))
    && (forall c :: c in s.tasks ==> s.tasks[c].Owns(s.owners))
  }

  ghost predicate Writing(s: State, id: int) { exists c :: c in s.tasks && s.tasks[c].stage == WriteRev(id) }

  /** An idx leads back to its own record, except while its call is about to write the way back. */
  ghost predicate Resolves(s: State) {
    forall n, id: int :: Idx(s.ks, n) == Some(FormatInt(id)) ==>
      Rev(s.ks, id) == Some(TorrentKey(n)) || id in s.lost || Writing(s, id)
  }

  ghost predicate Inv(s: State) { Counted(s) && Bound(s) && Resolves(s) }

  /** A step that leaves the counter and both index directions as they read before. */
  lemma Untouched(s: State, t: State, c: nat)
    requires Inv(s) && t.owners == s.owners && s.lost <= t.lost
    requires Same(s.ks, t.ks, COUNTER) && HashKey(t.ks, IDS)
    requires forall n :: Idx(t.ks, n) == Idx(s.ks, n)
    requires forall id: int :: Rev(t.ks, id) == Rev(s.ks, id)
    requires c in t.tasks && t.tasks == s.tasks[c := t.tasks[c]] && t.tasks[c].Owns(t.owners)
    requires c in s.tasks && s.tasks[c].stage.WriteRev? ==> s.tasks[c].stage.id in t.lost
    ensures Inv(t)
  {
    hide FormatInt, TorrentKey, Idx, Rev;
    forall n, id: int | Idx(t.ks, n) == Some(FormatInt(id))
      ensures Rev(t.ks, id) == Some(TorrentKey(n)) || id in t.lost || Writing(t, id)
    {
      assert Idx(s.ks, n) == Some(FormatInt(id));
      if Writing(s, id) {
        var w :| w in s.tasks && s.tasks[w].stage == WriteRev(id);
        assert w == c || t.tasks[w].stage == WriteRev(id);
      }
    }
  }

  /** Writing one torrent record key, without touching its idx, keeps the index. */
  lemma IndexKept(ks: Keyspace, k: Keyspace, key: string)
    requires !FixedKey(key) && SameBut(ks, k, {key})
    requires forall n :: TorrentKey(n) == key ==> Idx(k, n) == Idx(ks, n)
    ensures Same(ks, k, COUNTER) && Same(ks, k, IDS)
    ensures forall n :: Idx(k, n) == Idx(ks, n)
    ensures forall id: int :: Rev(k, id) == Rev(ks, id)
  {
    hide FormatInt, TorrentKey;
    assert Same(ks, k, COUNTER) && Same(ks, k, IDS);
    forall n ensures Idx(k, n) == Idx(ks, n) {
      if TorrentKey(n) != key { assert Same(ks, k, TorrentKey(n)); }
    }
  }

  lemma NameWritten(ks: Keyspace, name: string, data: Bytes)
    requires HashKey(ks, TorrentKey(name))
    ensures var k := HSet(ks, TorrentKey(name), map["name" := name, "data" := data]).0;
            && TorrentKey(name) in k && k[TorrentKey(name)].Hash?
            && Same(ks, k, COUNTER) && Same(ks, k, IDS)
            && (forall n :: Idx(k, n) == Idx(ks, n))
            && (forall id: int :: Rev(k, id) == Rev(ks, id))
  {
    hide FormatInt, TorrentKey;
    TorrentKeyApart(name, "");
    IndexKept(ks, HSet(ks, TorrentKey(name), map["name" := name, "data" := data]).0, TorrentKey(name));
  }

  lemma BeginStep(s: State, c: nat)
    requires Inv(s) && Enabled(s, Send(c)) && s.tasks[c].stage.Begin?
    ensures Inv(Apply(s, Send(c)))
  {
    hide FormatInt, TorrentKey, Idx, Rev;
    var u := s.tasks[c];
    if HashKey(s.ks, TorrentKey(u.name)) { NameWritten(s.ks, u.name, u.data); }
    Untouched(s, Apply(s, Send(c)), c);
  }

  lemma LookupStep(s: State, c: nat)
    requires Inv(s) && Enabled(s, Send(c)) && s.tasks[c].stage.Lookup?
    ensures Inv(Apply(s, Send(c)))
  {
    hide FormatInt, TorrentKey, ParseInt;
    var t := Apply(s, Send(c));
    var n := s.tasks[c].name;
    if Idx(s.ks, n).Some? {
      var id :| id in s.owners && s.owners[id] == n && Idx(s.ks, n).value == FormatInt(id);
      FormatIntRoundTrip(id);
    }
    Untouched(s, t, c);
  }

  lemma FilesStep(s: State, c: nat)
    requires Inv(s) && Enabled(s, Send(c)) && s.tasks[c].stage.WriteFiles?
    ensures Inv(Apply(s, Send(c)))
  {
    hide FormatInt, TorrentKey, FilesKey;
    var t := Apply(s, Send(c));
    IdKeysApart(s.tasks[c].stage.sid, "");
    assert s.tasks[c].Owns(s.owners);
    IndexKept(s.ks, t.ks, FilesKey(s.tasks[c].stage.sid));
    Untouched(s, t, c);
  }

  lemma AllocateStep(s: State, c: nat)
    requires Inv(s) && Enabled(s, Send(c)) && s.tasks[c].stage.Allocate?
    ensures Inv(Apply(s, Send(c)))
  {
    hide FormatInt, TorrentKey, ParseInt, Incr;
    var t := Apply(s, Send(c));
    var n := |s.owners|;
    if n < INT64_MAX {
      CounterNext(s.ks, n);
      IndexKeptByCounter(s.ks, t.ks);
      assert n + 1 !in s.owners;
      assert |t.owners| == n + 1;
      Drawn(s, t, c, n + 1);
    } else {
      CounterFull(s.ks, n);
      Untouched(s, t, c);
    }
  }

  lemma CounterFull(ks: Keyspace, n: nat)
    requires CounterIs(ks, n) && n == INT64_MAX
    ensures Incr(ks, COUNTER) == (ks, Err)
  {
    FormatIntRoundTrip(n);
    hide FormatInt, ParseInt;
  }

  lemma IndexKeptByCounter(ks: Keyspace, k: Keyspace)
    requires SameBut(ks, k, {COUNTER})
    ensures Same(ks, k, IDS)
    ensures forall n :: Idx(k, n) == Idx(ks, n)
    ensures forall id: int :: Rev(k, id) == Rev(ks, id)
  {
    hide FormatInt, TorrentKey;
    assert Same(ks, k, IDS);
    forall n ensures Idx(k, n) == Idx(ks, n) {
      TorrentKeyApart(n, "");
      assert Same(ks, k, TorrentKey(n));
    }
  }

  /** A new id is drawn: nothing in the index mentions it yet. */
  lemma Drawn(s: State, t: State, c: nat, id: int)
    requires Inv(s) && Counted(t) && c in s.tasks && s.tasks[c].stage.Allocate? && id !in s.owners && t.lost == s.lost
    requires t.owners == s.owners[id := s.tasks[c].name] && t.tasks == s.tasks[c := s.tasks[c].To(WriteIdx(id))]
    requires Same(s.ks, t.ks, IDS)
    requires forall n :: Idx(t.ks, n) == Idx(s.ks, n)
    requires forall i: int :: Rev(t.ks, i) == Rev(s.ks, i)
    ensures Inv(t)
  {
    hide FormatInt, TorrentKey, Idx, Rev;
    forall n | Idx(t.ks, n).Some?
      ensures exists i :: i in t.owners && t.owners[i] == n && Idx(t.ks, n).value == FormatInt(i)
    {
      var i :| i in s.owners && s.owners[i] == n && Idx(s.ks, n).value == FormatInt(i);
      assert i in t.owners && t.owners[i] == n;
    }
    forall d | d in t.tasks ensures t.tasks[d].Owns(t.owners) {
      assert d != c ==> s.tasks[d].Owns(s.owners);
    }
    forall n, i: int | Idx(t.ks, n) == Some(FormatInt(i))
      ensures Rev(t.ks, i) == Some(TorrentKey(n)) || i in t.lost || Writing(t, i)
    {
      assert Idx(s.ks, n) == Some(FormatInt(i));
      if Writing(s, i) {
        var w :| w in s.tasks && s.tasks[w].stage == WriteRev(i);
        assert t.tasks[w].stage == WriteRev(i);
      }
    }
  }

  lemma IdxStep(s: State, c: nat)
    requires Inv(s) && Enabled(s, Send(c)) && s.tasks[c].stage.WriteIdx?
    ensures Inv(Apply(s, Send(c)))
  {
    hide FormatInt, TorrentKey;
    var t := Apply(s, Send(c));
    var name, id := s.tasks[c].name, s.tasks[c].stage.id;
    assert s.tasks[c].Owns(s.owners);
    TorrentKeyApart(name, "");
    if HashKey(s.ks, TorrentKey(name)) {
      IdxWritten(s.ks, t.ks, name, id);
      IdxBound(s, t, c, id);
    } else {
      Untouched(s, t, c);
    }
  }

  lemma IdxWritten(ks: Keyspace, k: Keyspace, name: string, id: int)
    requires HashKey(ks, TorrentKey(name)) && k == HSet(ks, TorrentKey(name), map["idx" := FormatInt(id)]).0
    ensures Same(ks, k, COUNTER) && Same(ks, k, IDS)
    ensures forall n :: Idx(k, n) == if n == name then Some(FormatInt(id)) else Idx(ks, n)
    ensures forall i: int :: Rev(k, i) == Rev(ks, i)
  {
    TorrentKeyApart(name, "");
    forall n ensures TorrentKey(n) == TorrentKey(name) ==> n == name { TorrentKeyApart(n, name); }
    hide FormatInt, TorrentKey;
  }

  lemma IdxBound(s: State, t: State, c: nat, id: int)
    requires Inv(s) && c in s.tasks && s.tasks[c].stage == WriteIdx(id) && t.owners == s.owners && t.lost == s.lost
    requires t.tasks == s.tasks[c := s.tasks[c].To(WriteRev(id))]
    requires Same(s.ks, t.ks, COUNTER) && Same(s.ks, t.ks, IDS)
    requires forall n :: Idx(t.ks, n) == if n == s.tasks[c].name then Some(FormatInt(id)) else Idx(s.ks, n)
    requires forall i: int :: Rev(t.ks, i) == Rev(s.ks, i)
    ensures Inv(t)
  {
    IdsApart();
    hide FormatInt, TorrentKey, Idx, Rev;
    assert s.tasks[c].Owns(s.owners);
    assert t.tasks[c].stage == WriteRev(id);
    assert Writing(t, id);
    forall n | Idx(t.ks, n).Some?
      ensures exists i :: i in t.owners && t.owners[i] == n && Idx(t.ks, n).value == FormatInt(i)
    {
      if n != s.tasks[c].name {
        assert Idx(s.ks, n).Some?;
      }
    }
    forall n, i: int | Idx(t.ks, n) == Some(FormatInt(i))
      ensures Rev(t.ks, i) == Some(TorrentKey(n)) || i in t.lost || Writing(t, i)
    {
      if n == s.tasks[c].name {
        assert i == id;
      } else {
        assert Idx(s.ks, n) == Some(FormatInt(i));
        if Writing(s, i) {
          var w :| w in s.tasks && s.tasks[w].stage == WriteRev(i);
          assert t.tasks[w].stage == WriteRev(i);
        }
      }
    }
  }

  lemma RevStep(s: State, c: nat)
    requires Inv(s) && Enabled(s, Send(c)) && s.tasks[c].stage.WriteRev?
    ensures Inv(Apply(s, Send(c)))
  {
    hide FormatInt, TorrentKey;
    var t := Apply(s, Send(c));
    var name, id := s.tasks[c].name, s.tasks[c].stage.id;
    RevWritten(s.ks, t.ks, name, id);
    RevBound(s, t, c, id);
  }

  lemma RevWritten(ks: Keyspace, k: Keyspace, name: string, id: int)
    requires HashKey(ks, IDS) && k == HSet(ks, IDS, map[FormatInt(id) := TorrentKey(name)]).0
    ensures Same(ks, k, COUNTER) && HashKey(k, IDS)
    ensures forall n :: Idx(k, n) == Idx(ks, n)
    ensures forall i: int :: Rev(k, i) == if i == id then Some(TorrentKey(name)) else Rev(ks, i)
  {
    IdsApart();
    forall n ensures !FixedKey(TorrentKey(n)) { TorrentKeyApart(n, ""); }
    hide FormatInt, TorrentKey;
  }

  lemma RevBound(s: State, t: State, c: nat, id: int)
    requires Inv(s) && c in s.tasks && s.tasks[c].stage == WriteRev(id) && t.owners == s.owners && t.lost == s.lost
    requires t.tasks == s.tasks[c := s.tasks[c].Settled(id, FormatInt(id))]
    requires Same(s.ks, t.ks, COUNTER) && HashKey(t.ks, IDS)
    requires forall n :: Idx(t.ks, n) == Idx(s.ks, n)
    requires forall i: int :: Rev(t.ks, i) == if i == id then Some(TorrentKey(s.tasks[c].name)) else Rev(s.ks, i)
    ensures Inv(t)
  {
    IdsApart();
    hide FormatInt, TorrentKey, Idx, Rev;
    assert s.tasks[c].Owns(s.owners);
    forall n, i: int | Idx(t.ks, n) == Some(FormatInt(i))
      ensures Rev(t.ks, i) == Some(TorrentKey(n)) || i in t.lost || Writing(t, i)
    {
      assert Idx(s.ks, n) == Some(FormatInt(i));
      var j :| j in s.owners && s.owners[j] == n && Idx(s.ks, n).value == FormatInt(j);
      assert j == i;
      if i != id && Writing(s, i) {
        var w :| w in s.tasks && s.tasks[w].stage == WriteRev(i);
        assert t.tasks[w].stage == WriteRev(i);
      }
    }
  }

  lemma InvStep(s: State, e: Event)
    requires Inv(s) && Enabled(s, e)
    ensures Inv(Apply(s, e))
    ensures forall id :: id in s.owners ==> id in Apply(s, e).owners && Apply(s, e).owners[id] == s.owners[id]
  {
    match e
    case Arrive(c, _, _, _) => Untouched(s, Apply(s, e), c);
    case Cut(c) => Untouched(s, Apply(s, e), c);
    case Send(c) =>
      match s.tasks[c].stage {
        case Begin => BeginStep(s, c);
        case Lookup => LookupStep(s, c);
        case Allocate => AllocateStep(s, c); NewlyDrawn(s, c);
        case WriteIdx(_) => IdxStep(s, c);
        case WriteRev(_) => RevStep(s, c);
        case WriteFiles(_, _) => FilesStep(s, c);
      }
  }

  lemma NewlyDrawn(s: State, c: nat)
    requires Inv(s) && Enabled(s, Send(c)) && s.tasks[c].stage.Allocate?
    ensures forall id :: id in s.owners ==>
              id in Apply(s, Send(c)).owners && Apply(s, Send(c)).owners[id] == s.owners[id]
  {
    hide FormatInt, ParseInt, Incr;
    if |s.owners| < INT64_MAX { CounterNext(s.ks, |s.owners|); } else { CounterFull(s.ks, |s.owners|); }
  }

  // ----- Whole runs

  const INIT := State(map[], map[], map[], {})

  lemma InitInv()
    ensures Inv(INIT)
  {
    hide FormatInt, TorrentKey;
  }

  /** The reverse entry of an id never disappears. */
  lemma RevStays(s: State, e: Event, id: int)
    requires Inv(s) && Enabled(s, e) && Rev(s.ks, id).Some?
    ensures Rev(Apply(s, e).ks, id).Some?
  {
    hide FormatInt, TorrentKey, FilesKey, ParseInt, Incr;
    if e.Send? {
      var t := s.tasks[e.c];
      TorrentKeyApart(t.name, "");
      if t.stage.WriteFiles? { IdKeysApart(t.stage.sid, ""); }
      if t.stage.Allocate? {
        if |s.owners| < INT64_MAX { CounterNext(s.ks, |s.owners|); } else { CounterFull(s.ks, |s.owners|); }
      }
      assert t.stage.WriteRev? || Same(s.ks, Apply(s, e).ks, IDS);
    }
  }

  /** Along any run ids keep their owners and their reverse entries. */
  lemma {:induction false} Along(s: State, es: seq<Event>)
    requires Inv(s) && Exec(s, es).Some?
    ensures Inv(Exec(s, es).value)
    ensures forall id: int :: Rev(s.ks, id).Some? ==> Rev(Exec(s, es).value.ks, id) == Rev(s.ks, id)
    decreases |es|
  {
    hide FormatInt, TorrentKey, Rev, Enabled, Apply, Inv;
    if es != [] {
      InvStep(s, es[0]);
      Along(Apply(s, es[0]), es[1..]);
      forall id: int | Rev(s.ks, id).Some? ensures Rev(Apply(s, es[0]).ks, id) == Rev(s.ks, id) {
        RevSame(s, es[0], id);
      }
    }
  }

  lemma RevSame(s: State, e: Event, id: int)
    requires Inv(s) && Enabled(s, e) && Rev(s.ks, id).Some?
    ensures Rev(Apply(s, e).ks, id) == Rev(s.ks, id)
  {
    hide FormatInt, TorrentKey, Apply, Rev;
    RevStays(s, e, id);
    InvStep(s, e);
  }

  // ----- What one command does, call by call

  /** The record of a name exists. */
  ghost predicate Recorded(ks: Keyspace, name: string) { TorrentKey(name) in ks && ks[TorrentKey(name)].Hash? }

  /** A call that got past its first command can rely on the record. */
  ghost predicate Ready(s: State) {
    forall c :: c in s.tasks ==>
      var u := s.tasks[c];
      u.stage.Lookup? || u.stage.Allocate? || u.stage.WriteIdx? ==> Recorded(s.ks, u.name)
  }

  predicate Over(stage: Stage) { stage.WriteFiles? || stage.Finished? }

  ghost predicate SameIndex(s: State, t: State) {
    (forall n :: Idx(t.ks, n) == Idx(s.ks, n)) && (forall id: int :: Rev(t.ks, id) == Rev(s.ks, id))
  }

  /** Call `c` sent its command: where it stands now, and what became of the ids and both index directions.
      It can only be aborted by its first command, by the last id, or by its files. */
  ghost predicate Moved(s: State, t: State, c: nat) {
    && c in s.tasks && c in t.tasks && t.tasks == s.tasks[c := t.tasks[c]] && t.lost == s.lost
    && var u, v := s.tasks[c], t.tasks[c];
    && v == u.To(v.stage)
    && match u.stage
       case Begin =>
         && t.owners == s.owners && SameIndex(s, t)
         && v.stage == if HashKey(s.ks, TorrentKey(u.name)) then Lookup else Aborted
       case Lookup =>
         && t.owners == s.owners && SameIndex(s, t)
         && if Idx(s.ks, u.name).None? then v.stage == Allocate else Over(v.stage)
       case Allocate =>
         var id := |s.owners| + 1;
         && SameIndex(s, t)
         && if id <= INT64_MAX then id !in s.owners && v.stage == WriteIdx(id) && t.owners == s.owners[id := u.name]
            else v.stage == Aborted && t.owners == s.owners
       case WriteIdx(id) =>
         && t.owners == s.owners && v.stage == WriteRev(id)
         && (forall n :: Idx(t.ks, n) == if n == u.name then Some(FormatInt(id)) else Idx(s.ks, n))
         && (forall i: int :: Rev(t.ks, i) == Rev(s.ks, i))
       case WriteRev(id) =>
         && t.owners == s.owners && v == u.Settled(id, FormatInt(id))
         && (forall n :: Idx(t.ks, n) == Idx(s.ks, n))
         && (forall i: int :: Rev(t.ks, i) == if i == id then Some(TorrentKey(u.name)) else Rev(s.ks, i))
       case WriteFiles(id, _) =>
         t.owners == s.owners && SameIndex(s, t) && (v.stage == Finished(id) || v.stage == Aborted)
       case _ => false
  }

  /** A hash stays a hash, whatever the command. */
  lemma RecordsStay(ks: Keyspace, t: Task, n: string)
    requires Recorded(ks, n) && (COUNTER !in ks || ks[COUNTER].Str?)
    ensures Recorded(Command(ks, t).0, n)
  {
    hide FormatInt, TorrentKey, FilesKey, ParseInt;
    TorrentKeyApart(n, "");
  }

  lemma BeginMoves(s: State, c: nat)
    requires Inv(s) && Enabled(s, Send(c)) && s.tasks[c].stage.Begin?
    ensures Moved(s, Apply(s, Send(c)), c)
    ensures Apply(s, Send(c)).tasks[c].stage.Lookup? ==> Recorded(Apply(s, Send(c)).ks, s.tasks[c].name)
  {
    hide FormatInt, TorrentKey, Idx, Rev, Counted, Bound, Resolves;
    var u := s.tasks[c];
    if HashKey(s.ks, TorrentKey(u.name)) { NameWritten(s.ks, u.name, u.data); }
  }

  lemma NonEmpty(id: int)
    ensures FormatInt(id) != ""
  {
  }

  lemma LookupMoves(s: State, c: nat)
    requires Inv(s) && Ready(s) && Enabled(s, Send(c)) && s.tasks[c].stage.Lookup?
    ensures Moved(s, Apply(s, Send(c)), c)
  {
    hide FormatInt, TorrentKey, ParseInt;
    var n := s.tasks[c].name;
    if Idx(s.ks, n).Some? {
      var id :| id in s.owners && s.owners[id] == n && Idx(s.ks, n).value == FormatInt(id);
      NonEmpty(id);
      FormatIntRoundTrip(id);
    }
  }

  lemma AllocateMoves(s: State, c: nat)
    requires Inv(s) && Enabled(s, Send(c)) && s.tasks[c].stage.Allocate?
    ensures Moved(s, Apply(s, Send(c)), c)
  {
    hide FormatInt, TorrentKey, ParseInt, Incr, Bound, Resolves;
    var n := |s.owners|;
    if n < INT64_MAX { CounterNext(s.ks, n); } else { CounterFull(s.ks, n); }
    IndexKeptByCounter(s.ks, Apply(s, Send(c)).ks);
  }

  lemma IdxMoves(s: State, c: nat)
    requires Inv(s) && Ready(s) && Enabled(s, Send(c)) && s.tasks[c].stage.WriteIdx?
    ensures Moved(s, Apply(s, Send(c)), c)
  {
    hide FormatInt, TorrentKey, Idx, Rev, Counted, Bound, Resolves;
    IdxWritten(s.ks, Apply(s, Send(c)).ks, s.tasks[c].name, s.tasks[c].stage.id);
  }

  lemma RevMoves(s: State, c: nat)
    requires Inv(s) && Enabled(s, Send(c)) && s.tasks[c].stage.WriteRev?
    ensures Moved(s, Apply(s, Send(c)), c)
  {
    hide FormatInt, TorrentKey, Idx, Rev, Counted, Resolves;
    RevWritten(s.ks, Apply(s, Send(c)).ks, s.tasks[c].name, s.tasks[c].stage.id);
  }

  lemma FilesMoves(s: State, c: nat)
    requires Inv(s) && Enabled(s, Send(c)) && s.tasks[c].stage.WriteFiles?
    ensures Moved(s, Apply(s, Send(c)), c)
  {
    hide FormatInt, TorrentKey, FilesKey, Counted, Bound, Resolves;
    IdKeysApart(s.tasks[c].stage.sid, "");
    IndexKept(s.ks, Apply(s, Send(c)).ks, FilesKey(s.tasks[c].stage.sid));
  }

  lemma SendMoves(s: State, c: nat)
    requires Inv(s) && Ready(s) && Enabled(s, Send(c))
    ensures Moved(s, Apply(s, Send(c)), c)
    ensures Apply(s, Send(c)).tasks[c].stage.Lookup? ==> Recorded(Apply(s, Send(c)).ks, s.tasks[c].name)
  {
    hide Moved, Recorded, FormatInt, TorrentKey, Inv, Ready, Command;
    match s.tasks[c].stage {
      case Begin => BeginMoves(s, c);
      case Lookup => LookupMoves(s, c); NotLookup(s, c);
      case Allocate => AllocateMoves(s, c); NotLookup(s, c);
      case WriteIdx(_) => IdxMoves(s, c); NotLookup(s, c);
      case WriteRev(_) => RevMoves(s, c); NotLookup(s, c);
      case WriteFiles(_, _) => FilesMoves(s, c); NotLookup(s, c);
    }
  }

  lemma NotLookup(s: State, c: nat)
    requires Enabled(s, Send(c)) && !s.tasks[c].stage.Begin?
    ensures !Apply(s, Send(c)).tasks[c].stage.Lookup?
  {
    hide FormatInt, TorrentKey, FilesKey, ParseInt, Incr;
  }

  lemma ReadyStep(s: State, e: Event)
    requires Inv(s) && Ready(s) && Enabled(s, e)
    ensures Ready(Apply(s, e))
  {
    if e.Send? {
      hide Apply, Recorded, FormatInt, TorrentKey;
      var t := Apply(s, e);
      SendMoves(s, e.c);
      forall n | Recorded(s.ks, n) ensures Recorded(t.ks, n) { StaysRecorded(s, e.c, n); }
    }
  }

  lemma StaysRecorded(s: State, c: nat, n: string)
    requires Inv(s) && Enabled(s, Send(c)) && Recorded(s.ks, n)
    ensures Recorded(Apply(s, Send(c)).ks, n)
  {
    hide FormatInt, TorrentKey, Command, Recorded, Bound, Resolves;
    RecordsStay(s.ks, s.tasks[c], n);
  }

  // ----- Each id is in one call's hands

  function Holding(t: Task): Option<int> {
    match t.stage
    case WriteIdx(id) => Some(id)
    case WriteRev(id) => Some(id)
    case _ => None
  }

  ghost predicate OneHolder(s: State) {
    forall c, d ::
      c in s.tasks && d in s.tasks && Holding(s.tasks[c]).Some? && Holding(s.tasks[c]) == Holding(s.tasks[d]) ==> c == d
  }

  ghost predicate HeldFree(s: State) {
    forall c :: c in s.tasks && Holding(s.tasks[c]).Some? ==>
      var id := Holding(s.tasks[c]).value;
      id in s.owners && s.owners[id] == s.tasks[c].name && Rev(s.ks, id).None? && id !in s.lost
  }

  ghost predicate LostFree(s: State) { forall id :: id in s.lost ==> id in s.owners && Rev(s.ks, id).None? }

  /** An id on its way has one call only and no reverse entry yet; a lost one never gets it. */
  ghost predicate InHand(s: State) { OneHolder(s) && HeldFree(s) && LostFree(s) }

  ghost predicate Invs(s: State) { Inv(s) && Ready(s) && InHand(s) }

  /** What a command leaves in a call's hands: what it held, or a new id, or nothing. */
  lemma HoldingMoved(s: State, t: State, c: nat)
    requires Moved(s, t, c)
    requires Holding(s.tasks[c]).Some? ==> Holding(s.tasks[c]).value in s.owners
    ensures t.tasks.Keys == s.tasks.Keys && t.lost == s.lost
    ensures forall d :: d in s.tasks && d != c ==> t.tasks[d] == s.tasks[d]
    ensures forall id :: id in s.owners ==> id in t.owners && t.owners[id] == s.owners[id]
    ensures Holding(t.tasks[c]).Some? ==>
              var id := Holding(t.tasks[c]).value;
              && id in t.owners && !s.tasks[c].stage.WriteRev?
              && (Holding(s.tasks[c]) == Some(id)
                  || (id !in s.owners && t.owners[id] == s.tasks[c].name && !s.tasks[c].stage.WriteIdx?))
  {
    hide FormatInt, TorrentKey, Idx, Rev, HashKey, SameIndex;
  }

  lemma HeldFreeMoved(s: State, t: State, c: nat)
    requires InHand(s) && Moved(s, t, c) && forall id: int :: id !in s.owners ==> Rev(s.ks, id).None?
    ensures HeldFree(t)
  {
    HoldingMoved(s, t, c);
    RevsMoved(s, t, c);
    hide Moved, FormatInt, TorrentKey, Idx, Rev, Holding, OneHolder;
    assert OneHolder(s);
    forall d | d in t.tasks && Holding(t.tasks[d]).Some?
      ensures var id := Holding(t.tasks[d]).value;
              id in t.owners && t.owners[id] == t.tasks[d].name && Rev(t.ks, id).None? && id !in t.lost
    {
      if d != c { OnlyHolder(s, c, d); }
    }
  }

  lemma OnlyHolder(s: State, c: nat, d: nat)
    requires OneHolder(s) && c in s.tasks && d in s.tasks && c != d && Holding(s.tasks[d]).Some?
    ensures Holding(s.tasks[c]) != Holding(s.tasks[d])
  {
  }

  /** Only the reverse entry of an id in the call's hands can have changed. */
  lemma RevsMoved(s: State, t: State, c: nat)
    requires Moved(s, t, c)
    ensures t.tasks[c].name == s.tasks[c].name
    ensures forall id: int :: Holding(s.tasks[c]) == Some(id) || Rev(t.ks, id) == Rev(s.ks, id)
    ensures !s.tasks[c].stage.WriteRev? ==> forall id: int :: Rev(t.ks, id) == Rev(s.ks, id)
  {
    hide FormatInt, TorrentKey, Idx, Rev;
    forall id: int
      ensures !(s.tasks[c].stage.WriteRev? && s.tasks[c].stage.id == id) ==> Rev(t.ks, id) == Rev(s.ks, id)
    {
      RevMoved(s, t, c, id);
    }
  }

  lemma OneHolderMoved(s: State, t: State, c: nat)
    requires InHand(s) && Moved(s, t, c)
    ensures OneHolder(t)
  {
    HoldingMoved(s, t, c);
    hide Moved, FormatInt, TorrentKey, Idx, Rev, Holding, LostFree;
  }

  lemma LostFreeMoved(s: State, t: State, c: nat)
    requires InHand(s) && Moved(s, t, c)
    ensures LostFree(t)
  {
    HoldingMoved(s, t, c);
    RevsMoved(s, t, c);
    hide Moved, FormatInt, TorrentKey, Idx, Rev, Holding, OneHolder;
  }

  lemma InHandMoved(s: State, t: State, c: nat)
    requires InHand(s) && Moved(s, t, c) && forall id: int :: id !in s.owners ==> Rev(s.ks, id).None?
    ensures InHand(t)
  {
    hide Moved, HeldFree, OneHolder, LostFree;
    HeldFreeMoved(s, t, c);
    OneHolderMoved(s, t, c);
    LostFreeMoved(s, t, c);
  }

  lemma RevMoved(s: State, t: State, c: nat, id: int)
    requires Moved(s, t, c)
    ensures !(s.tasks[c].stage.WriteRev? && s.tasks[c].stage.id == id) ==> Rev(t.ks, id) == Rev(s.ks, id)
  {
    hide FormatInt, TorrentKey, Idx, Rev, HashKey;
  }

  lemma InHandSend(s: State, c: nat)
    requires Inv(s) && Ready(s) && InHand(s) && Enabled(s, Send(c))
    ensures InHand(Apply(s, Send(c)))
  {
    hide Apply, Inv, Ready, Moved;
    SendMoves(s, c);
    NewIdUnbound(s);
    InHandMoved(s, Apply(s, Send(c)), c);
  }

  /** An id that was not drawn yet has no reverse entry. */
  lemma NewIdUnbound(s: State)
    requires Inv(s)
    ensures forall id: int :: id !in s.owners ==> Rev(s.ks, id).None?
  {
    hide Counted, Resolves, FormatInt, TorrentKey, Rev;
  }

  lemma InvsStep(s: State, e: Event)
    requires Invs(s) && Enabled(s, e)
    ensures Invs(Apply(s, e))
    ensures forall id :: id in s.owners ==> id in Apply(s, e).owners && Apply(s, e).owners[id] == s.owners[id]
  {
    hide Inv, Ready, Command;
    InvStep(s, e);
    ReadyStep(s, e);
    if e.Send? { InHandSend(s, e.c); }
  }

  lemma {:induction false} InvsAlong(s: State, es: seq<Event>)
    requires Invs(s) && Exec(s, es).Some?
    ensures Invs(Exec(s, es).value)
    decreases |es|
  {
    hide Invs, Enabled, Apply;
    if es != [] {
      InvsStep(s, es[0]);
      InvsAlong(Apply(s, es[0]), es[1..]);
    }
  }

  ghost predicate Reachable(s: State) { exists es :: Exec(INIT, es) == Some(s) }

  lemma ReachableInv(s: State)
    requires Reachable(s)
    ensures Inv(s) && Invs(s)
  {
    var es :| Exec(INIT, es) == Some(s);
    InitInv();
    InvsAlong(INIT, es);
  }

  /** Whatever the interleaving and wherever calls are cut off: no two names carry the same id, and the
      counter bounds every id in either direction of the index. */
  lemma IdsNeverShared(s: State, m: string, n: string)
    requires Reachable(s) && Idx(s.ks, m).Some? && Idx(s.ks, m) == Idx(s.ks, n)
    ensures m == n
  {
    ReachableInv(s);
    IdsApart();
    hide FormatInt, TorrentKey, Idx, Rev;
  }

  lemma IdsCounted(s: State, id: int)
    requires Reachable(s) && (Rev(s.ks, id).Some? || exists n :: Idx(s.ks, n) == Some(FormatInt(id)))
    ensures 1 <= id <= |s.owners| && COUNTER in s.ks && s.ks[COUNTER] == Str(FormatInt(|s.owners|))
  {
    ReachableInv(s);
    IdsApart();
    hide FormatInt, TorrentKey, Idx, Rev;
    if Rev(s.ks, id).None? {
      var n :| Idx(s.ks, n) == Some(FormatInt(id));
      var i :| i in s.owners && s.owners[i] == n && Idx(s.ks, n).value == FormatInt(i);
    }
  }

  /** An id once bound to a record's key stays bound to that key for good. */
  lemma NeverRebound(s: State, es: seq<Event>, id: int)
    requires Reachable(s) && Exec(s, es).Some? && Rev(s.ks, id).Some?
    ensures Rev(Exec(s, es).value.ks, id) == Rev(s.ks, id)
  {
    ReachableInv(s);
    Along(s, es);
  }

  ghost predicate Quiet(s: State) { forall c :: c in s.tasks ==> !s.tasks[c].InFlight() }

  /** When no call is at work, the id in a record leads back to that record exactly if its call was not cut off
      between its two index writes. */
  lemma RestExactly(s: State, n: string, id: int)
    requires Reachable(s) && Quiet(s) && Idx(s.ks, n) == Some(FormatInt(id))
    ensures Rev(s.ks, id) == Some(TorrentKey(n)) <==> id !in s.lost
  {
    ReachableInv(s);
    hide FormatInt, TorrentKey, Idx, Rev;
    assert !Writing(s, id);
  }

  /** So with no call cut off there, every record's id leads back to it. */
  lemma QuietResolves(s: State, n: string)
    requires Reachable(s) && Quiet(s) && s.lost == {} && Idx(s.ks, n).Some?
    ensures exists id: int :: Idx(s.ks, n) == Some(FormatInt(id)) && Rev(s.ks, id) == Some(TorrentKey(n))
  {
    ReachableInv(s);
    hide FormatInt, TorrentKey, Idx, Rev;
    var id :| id in s.owners && s.owners[id] == n && Idx(s.ks, n).value == FormatInt(id);
    RestExactly(s, n, id);
  }

  // ----- One id per name

  /** A name's record and the reverse entries agree: at most one id, in both directions. */
  ghost predicate OneToOne(ks: Keyspace, n: string) {
    forall id: int :: Idx(ks, n) == Some(FormatInt(id)) <==> Rev(ks, id) == Some(TorrentKey(n))
  }

  /** Between its own miss and its idx write. */
  predicate Choosing(t: Task) { t.stage.Allocate? || t.stage.WriteIdx? }

  /** Call `c` is about to miss the id of `n` while another call for `n` is choosing one. */
  ghost predicate MissesBeside(s: State, c: nat, n: string) {
    && c in s.tasks && s.tasks[c].name == n && s.tasks[c].stage.Lookup? && Idx(s.ks, n).None?
    && exists d :: d in s.tasks && d != c && s.tasks[d].name == n && Choosing(s.tasks[d])
  }

  /** Somewhere along the run that happens. */
  ghost predicate Raced(s: State, es: seq<Event>, n: string)
    decreases |es|
  {
    es != [] && Enabled(s, es[0]) &&
    ((es[0].Send? && MissesBeside(s, es[0].c, n)) || Raced(Apply(s, es[0]), es[1..], n))
  }

  predicate NoCuts(es: seq<Event>) { forall e :: e in es ==> !e.Cut? }

  ghost predicate OneChooses(s: State, n: string) {
    forall c, d :: c in s.tasks && d in s.tasks && s.tasks[c].name == n && s.tasks[d].name == n ==>
      Choosing(s.tasks[c]) && Choosing(s.tasks[d]) ==> c == d
  }

  ghost predicate OneDrawn(s: State, n: string) {
    && (forall i, j :: i in s.owners && j in s.owners && s.owners[i] == n && s.owners[j] == n ==> i == j)
    && (forall c, i :: Wants(s, c, n) && i in s.owners ==> s.owners[i] != n)
  }

  ghost predicate Placed(s: State, n: string) {
    forall i :: i in s.owners && s.owners[i] == n ==> Idx(s.ks, n) == Some(FormatInt(i)) || Announcing(s, i)
  }

  /** No race for `n` so far: one call chooses, or one id is drawn, but never two in all. */
  ghost predicate AtMostOne(s: State, n: string) { OneChooses(s, n) && OneDrawn(s, n) && Placed(s, n) }

  ghost predicate Announcing(s: State, id: int) { exists c :: c in s.tasks && s.tasks[c].stage == WriteIdx(id) }

  /** Two ids of `n` drawn or about to be. */
  ghost predicate AtLeastTwo(s: State, n: string) {
    || (exists c, d :: c in s.tasks && d in s.tasks && c != d && Wants(s, c, n) && Wants(s, d, n))
    || (exists c, i :: c in s.tasks && Wants(s, c, n) && i in s.owners && s.owners[i] == n)
    || (exists i, j :: i in s.owners && j in s.owners && i != j && s.owners[i] == n && s.owners[j] == n)
  }

  ghost predicate Wants(s: State, c: nat, n: string) {
    c in s.tasks && s.tasks[c].name == n && s.tasks[c].stage.Allocate?
  }

  /** Every id drawn has its reverse entry, or a call that will write it. */
  ghost predicate Landed(s: State) {
    forall i :: i in s.owners ==> Rev(s.ks, i) == Some(TorrentKey(s.owners[i])) || Held(s, i)
  }

  ghost predicate Held(s: State, i: int) { exists c :: c in s.tasks && Holding(s.tasks[c]) == Some(i) }

  lemma LandedStep(s: State, e: Event)
    requires Invs(s) && Landed(s) && Enabled(s, e) && !e.Cut?
    ensures Landed(Apply(s, e))
  {
    var t := Apply(s, e);
    if e.Send? { SendMoves(s, e.c); }
    hide Inv, Ready, FormatInt, TorrentKey, Idx, Rev, Command, HashKey;
    forall i | i in t.owners ensures Rev(t.ks, i) == Some(TorrentKey(t.owners[i])) || Held(t, i) {
      if i in s.owners && Held(s, i) {
        var c :| c in s.tasks && Holding(s.tasks[c]) == Some(i);
        assert (e.Send? && c == e.c) || Holding(t.tasks[c]) == Some(i);
      } else if i !in s.owners {
        assert Holding(t.tasks[e.c]) == Some(i);
      }
    }
  }

  /** A miss is the first choice for its name: nobody chooses, and no id is drawn yet. */
  lemma FirstMiss(s: State, c: nat, n: string)
    requires InHand(s) && AtMostOne(s, n) && !MissesBeside(s, c, n)
    requires c in s.tasks && s.tasks[c].name == n && s.tasks[c].stage.Lookup? && Idx(s.ks, n).None?
    ensures forall d :: d in s.tasks && s.tasks[d].name == n ==> !Choosing(s.tasks[d])
    ensures forall i :: i in s.owners ==> s.owners[i] != n
  {
    hide FormatInt, TorrentKey, Idx, Rev;
    forall i | i in s.owners ensures s.owners[i] != n {
      if Announcing(s, i) {
        var d :| d in s.tasks && s.tasks[d].stage == WriteIdx(i);
        assert Holding(s.tasks[d]) == Some(i);
      }
    }
  }

  lemma OneChoosesStays(s: State, t: State, c: nat, n: string)
    requires InHand(s) && AtMostOne(s, n) && Moved(s, t, c) && !MissesBeside(s, c, n)
    ensures OneChooses(t, n)
  {
    if s.tasks[c].name == n && s.tasks[c].stage.Lookup? && Idx(s.ks, n).None? { FirstMiss(s, c, n); }
    hide FormatInt, TorrentKey, Idx, Rev, HashKey, InHand, SameIndex, OneDrawn, Placed, MissesBeside;
  }

  lemma OneDrawnStays(s: State, t: State, c: nat, n: string)
    requires InHand(s) && AtMostOne(s, n) && Moved(s, t, c) && !MissesBeside(s, c, n)
    ensures OneDrawn(t, n)
  {
    if s.tasks[c].name == n && s.tasks[c].stage.Lookup? && Idx(s.ks, n).None? { FirstMiss(s, c, n); }
    hide FormatInt, TorrentKey, Idx, Rev, HashKey, InHand, SameIndex, Placed, MissesBeside;
    assert s.tasks[c].stage.Allocate? ==> Wants(s, c, s.tasks[c].name);
    forall d | Wants(t, d, n) && d != c ensures Wants(s, d, n) {}
  }

  lemma PlacedStays(s: State, t: State, c: nat, n: string)
    requires InHand(s) && Placed(s, n) && OneDrawn(s, n) && Moved(s, t, c)
    ensures Placed(t, n)
  {
    hide FormatInt, TorrentKey, Idx, Rev, HashKey;
    assert s.tasks[c].stage.WriteIdx? ==> Holding(s.tasks[c]) == Some(s.tasks[c].stage.id);
    forall i | i in t.owners && t.owners[i] == n ensures Idx(t.ks, n) == Some(FormatInt(i)) || Announcing(t, i) {
      if i !in s.owners {
        assert t.tasks[c].stage == WriteIdx(i);
      } else if Announcing(s, i) {
        var d :| d in s.tasks && s.tasks[d].stage == WriteIdx(i);
        assert Holding(s.tasks[d]) == Some(i);
        assert d == c || t.tasks[d].stage == WriteIdx(i);
      }
    }
  }

  lemma OneStays(s: State, e: Event, n: string)
    requires Invs(s) && AtMostOne(s, n) && Enabled(s, e) && !e.Cut? && !(e.Send? && MissesBeside(s, e.c, n))
    ensures AtMostOne(Apply(s, e), n)
  {
    hide Inv, Ready, InHand, Moved, FormatInt, TorrentKey, Idx, Rev, Command;
    if e.Send? {
      hide AtMostOne, Apply;
      SendMoves(s, e.c);
      OneChoosesStays(s, Apply(s, e), e.c, n);
      OneDrawnStays(s, Apply(s, e), e.c, n);
      Parts(s, n);
      PlacedStays(s, Apply(s, e), e.c, n);
      Whole(Apply(s, e), n);
    } else {
      ArrivalHarmless(s, e, n);
    }
  }

  lemma Parts(s: State, n: string)
    requires AtMostOne(s, n)
    ensures OneDrawn(s, n) && Placed(s, n)
  {
  }

  lemma Whole(s: State, n: string)
    requires OneChooses(s, n) && OneDrawn(s, n) && Placed(s, n)
    ensures AtMostOne(s, n)
  {
  }

  lemma ArrivalHarmless(s: State, e: Event, n: string)
    requires AtMostOne(s, n) && Enabled(s, e) && e.Arrive?
    ensures AtMostOne(Apply(s, e), n)
  {
    hide FormatInt, TorrentKey, Idx;
    var t := Apply(s, e);
    forall i | i in t.owners && t.owners[i] == n ensures Idx(t.ks, n) == Some(FormatInt(i)) || Announcing(t, i) {
      if Announcing(s, i) {
        var d :| d in s.tasks && s.tasks[d].stage == WriteIdx(i);
        assert t.tasks[d].stage == WriteIdx(i);
      }
    }
    forall d | Wants(t, d, n) ensures Wants(s, d, n) {}
  }

  lemma RaceBegins(s: State, c: nat, n: string)
    requires Invs(s) && Enabled(s, Send(c)) && MissesBeside(s, c, n)
    ensures AtLeastTwo(Apply(s, Send(c)), n)
  {
    SendMoves(s, c);
    hide Inv, Ready, FormatInt, TorrentKey, Idx, Rev, Command, HashKey;
    var t := Apply(s, Send(c));
    var d :| d in s.tasks && d != c && s.tasks[d].name == n && Choosing(s.tasks[d]);
    assert Wants(t, c, n);
    if s.tasks[d].stage.Allocate? {
      assert Wants(t, d, n);
    } else {
      assert Holding(s.tasks[d]).Some?;
    }
  }

  lemma TwoStays(s: State, e: Event, n: string)
    requires Invs(s) && AtLeastTwo(s, n) && Enabled(s, e) && !e.Cut? && |s.owners| < INT64_MAX
    ensures AtLeastTwo(Apply(s, e), n)
  {
    hide Inv, Ready, InHand, Moved, Command;
    var t := Apply(s, e);
    if e.Send? {
      hide Apply;
      SendMoves(s, e.c);
      WantsBecome(s, t, e.c, n);
    } else {
      forall d | Wants(s, d, n) ensures Wants(t, d, n) {}
    }
  }

  lemma WantsBecome(s: State, t: State, c: nat, n: string)
    requires Moved(s, t, c) && |s.owners| < INT64_MAX
    ensures forall i :: i in s.owners ==> i in t.owners && t.owners[i] == s.owners[i]
    ensures forall d :: Wants(s, d, n) && d != c ==> Wants(t, d, n)
    ensures Wants(s, c, n) ==>
              |s.owners| + 1 !in s.owners && |s.owners| + 1 in t.owners && t.owners[|s.owners| + 1] == n
  {
    hide FormatInt, TorrentKey, Idx, Rev, SameIndex;
  }

  lemma OwnersGrow(s: State, e: Event)
    requires Invs(s) && Enabled(s, e)
    ensures |s.owners| <= |Apply(s, e).owners|
  {
    hide Apply, Ready, InHand, Bound, Resolves, Enabled;
    InvsStep(s, e);
    if |s.owners| > 0 { assert |s.owners| in s.owners; }
  }

  lemma {:induction false} OwnersGrowAlong(s: State, es: seq<Event>)
    requires Invs(s) && Exec(s, es).Some?
    ensures |s.owners| <= |Exec(s, es).value.owners|
    decreases |es|
  {
    hide Apply, Invs, Enabled;
    if es != [] {
      InvsStep(s, es[0]);
      OwnersGrow(s, es[0]);
      OwnersGrowAlong(Apply(s, es[0]), es[1..]);
    }
  }

  lemma {:induction false} TwoAlong(s: State, es: seq<Event>, n: string)
    requires Invs(s) && AtLeastTwo(s, n) && Exec(s, es).Some? && NoCuts(es) && |Exec(s, es).value.owners| < INT64_MAX
    ensures AtLeastTwo(Exec(s, es).value, n)
    decreases |es|
  {
    hide Apply, Invs, Enabled, AtLeastTwo;
    if es != [] {
      assert es[0] in es && forall e :: e in es[1..] ==> e in es;
      OwnersGrowAlong(s, es);
      InvsStep(s, es[0]);
      TwoStays(s, es[0], n);
      TwoAlong(Apply(s, es[0]), es[1..], n);
    }
  }

  lemma {:induction false} RaceAlong(s: State, es: seq<Event>, n: string)
    requires Invs(s) && Landed(s) && s.lost == {} && AtMostOne(s, n) && Exec(s, es).Some? && NoCuts(es)
    ensures var end := Exec(s, es).value;
            && Invs(end) && Landed(end) && end.lost == {}
            && (!Raced(s, es, n) ==> AtMostOne(end, n))
            && (Raced(s, es, n) && |end.owners| < INT64_MAX ==> AtLeastTwo(end, n))
    decreases |es|
  {
    if es != [] {
      hide Apply, Invs, Enabled, AtLeastTwo, AtMostOne, Landed, MissesBeside;
      assert es[0] in es && forall e :: e in es[1..] ==> e in es;
      InvsStep(s, es[0]);
      LandedStep(s, es[0]);
      NothingLost(s, es[0]);
      if es[0].Send? && MissesBeside(s, es[0].c, n) {
        RaceBegins(s, es[0].c, n);
        LandedAlong(Apply(s, es[0]), es[1..]);
        if |Exec(s, es).value.owners| < INT64_MAX { TwoAlong(Apply(s, es[0]), es[1..], n); }
      } else {
        OneStays(s, es[0], n);
        RaceAlong(Apply(s, es[0]), es[1..], n);
      }
    }
  }

  lemma NothingLost(s: State, e: Event)
    requires Enabled(s, e) && !e.Cut?
    ensures Apply(s, e).lost == s.lost
  {
    hide Command;
  }

  lemma {:induction false} LandedAlong(s: State, es: seq<Event>)
    requires Invs(s) && Landed(s) && s.lost == {} && Exec(s, es).Some? && NoCuts(es)
    ensures var end := Exec(s, es).value; Invs(end) && Landed(end) && end.lost == {}
    decreases |es|
  {
    hide Apply, Invs, Enabled, Landed;
    if es != [] {
      assert es[0] in es && forall e :: e in es[1..] ==> e in es;
      InvsStep(s, es[0]);
      LandedStep(s, es[0]);
      NothingLost(s, es[0]);
      LandedAlong(Apply(s, es[0]), es[1..]);
    }
  }

  lemma OwnerOfRev(s: State, n: string, id: int)
    requires Inv(s) && Rev(s.ks, id) == Some(TorrentKey(n))
    ensures id in s.owners && s.owners[id] == n
  {
    hide FormatInt, Counted, Resolves, Idx, Rev;
    TorrentKeyApart(s.owners[id], n);
  }

  lemma RestOne(s: State, n: string)
    requires Invs(s) && Quiet(s) && s.lost == {} && AtMostOne(s, n)
    ensures OneToOne(s.ks, n)
  {
    hide FormatInt, TorrentKey, Idx, Rev, Ready, InHand, Counted, Bound;
    forall id: int ensures Idx(s.ks, n) == Some(FormatInt(id)) <==> Rev(s.ks, id) == Some(TorrentKey(n)) {
      assert !Writing(s, id) && !Announcing(s, id);
      if Rev(s.ks, id) == Some(TorrentKey(n)) { OwnerOfRev(s, n, id); }
    }
  }

  lemma RestTwo(s: State, n: string)
    requires Quiet(s) && Landed(s) && AtLeastTwo(s, n)
    ensures !OneToOne(s.ks, n)
  {
    IdsApart();
    hide FormatInt, TorrentKey, Idx, Rev;
    var i, j :| i in s.owners && j in s.owners && i != j && s.owners[i] == n && s.owners[j] == n;
    assert !Held(s, i) && !Held(s, j);
    assert Rev(s.ks, i) == Rev(s.ks, j) == Some(TorrentKey(n));
  }

  lemma InitInvs(n: string)
    ensures Invs(INIT) && Landed(INIT) && AtMostOne(INIT, n)
  {
    InitInv();
  }

  /** In any interleaving without cut-offs that came to rest, a name has one id, the same in both directions of
      the index, exactly if no call missed it while another call for that name was between its own miss and
      its idx write. Overlapping calls are otherwise harmless. */
  lemma RaceExactly(es: seq<Event>, n: string)
    requires Exec(INIT, es).Some? && NoCuts(es) && Quiet(Exec(INIT, es).value)
    requires |Exec(INIT, es).value.owners| < INT64_MAX
    ensures OneToOne(Exec(INIT, es).value.ks, n) <==> !Raced(INIT, es, n)
  {
    hide Invs, Landed, AtMostOne, AtLeastTwo, Raced, Exec, OneToOne, Quiet;
    InitInvs(n);
    RaceAlong(INIT, es, n);
    if Raced(INIT, es, n) { RestTwo(Exec(INIT, es).value, n); } else { RestOne(Exec(INIT, es).value, n); }
  }

  // ----- With cut-offs

  /** What the next command of a call adds to the ids written for `n`. */
  function NowWritten(t: Task, n: string): seq<int> { if t.name == n && t.stage.WriteIdx? then [t.stage.id] else [] }

  function WrittenBy(s: State, e: Event, n: string): seq<int>
    requires Enabled(s, e)
  {
    if e.Send? then NowWritten(s.tasks[e.c], n) else []
  }

  /** The ids whose idx was written for `n` along a run, in order. */
  function Written(s: State, es: seq<Event>, n: string): seq<int>
    decreases |es|
  {
    if es == [] || !Enabled(s, es[0]) then [] else WrittenBy(s, es[0], n) + Written(Apply(s, es[0]), es[1..], n)
  }

  ghost predicate LastIs(s: State, n: string, ws: seq<int>) {
    Idx(s.ks, n) == if ws == [] then None else Some(FormatInt(ws[|ws| - 1]))
  }

  ghost predicate OncePassed(s: State, n: string, ws: seq<int>) {
    && (forall i, j :: 0 <= i < j < |ws| ==> ws[i] != ws[j])
    && (forall i :: 0 <= i < |ws| ==> ws[i] in s.owners && s.owners[ws[i]] == n && !Announcing(s, ws[i]))
  }

  ghost predicate WaysBack(s: State, ws: seq<int>) {
    forall i :: 0 <= i < |ws| ==> Rev(s.ks, ws[i]).Some? || ws[i] in s.lost || Writing(s, ws[i])
  }

  ghost predicate NoOthers(s: State, n: string, ws: seq<int>) {
    && (forall id: int :: Rev(s.ks, id) == Some(TorrentKey(n)) ==> id in ws)
    && (forall c :: c in s.tasks && s.tasks[c].name == n && s.tasks[c].stage.WriteRev? ==> s.tasks[c].stage.id in ws)
  }

  /** What is known of `n` once the ids `ws` were written for it. */
  ghost predicate Traced(s: State, n: string, ws: seq<int>) {
    LastIs(s, n, ws) && OncePassed(s, n, ws) && WaysBack(s, ws) && NoOthers(s, n, ws)
  }

  /** With every call at rest, cut off or not: the record of a name and the reverse entries agree exactly when of
      all the ids whose idx was written for it the last one alone was not cut off before its reverse entry. */
  lemma RestOneToOneExactly(es: seq<Event>, n: string)
    requires Exec(INIT, es).Some? && Quiet(Exec(INIT, es).value)
    ensures var s, ws := Exec(INIT, es).value, Written(INIT, es, n);
            OneToOne(s.ks, n) <==> forall i :: 0 <= i < |ws| ==> (ws[i] in s.lost <==> i != |ws| - 1)
  {
    hide Invs, Exec, Written, Traced, Quiet, OneToOne;
    InitInvs(n);
    assert Traced(INIT, n, []) by { NothingWritten(n); }
    TracedAlong(INIT, es, n, []);
    assert [] + Written(INIT, es, n) == Written(INIT, es, n);
    AtRest(Exec(INIT, es).value, n, Written(INIT, es, n));
  }

  lemma NothingWritten(n: string)
    ensures Traced(INIT, n, [])
  {
    hide FormatInt, TorrentKey;
  }

  lemma AtRest(s: State, n: string, ws: seq<int>)
    requires Invs(s) && Quiet(s) && Traced(s, n, ws)
    ensures OneToOne(s.ks, n) <==> forall i :: 0 <= i < |ws| ==> (ws[i] in s.lost <==> i != |ws| - 1)
  {
    IdsApart();
    hide FormatInt, TorrentKey, Idx, Rev, Ready, Counted;
    forall i | 0 <= i < |ws| ensures Rev(s.ks, ws[i]) == Some(TorrentKey(n)) <==> ws[i] !in s.lost {
      assert !Writing(s, ws[i]);
    }
    if forall i :: 0 <= i < |ws| ==> (ws[i] in s.lost <==> i != |ws| - 1) {
      forall id: int ensures Idx(s.ks, n) == Some(FormatInt(id)) <==> Rev(s.ks, id) == Some(TorrentKey(n)) {}
    }
    if OneToOne(s.ks, n) {
      forall i | 0 <= i < |ws| ensures ws[i] in s.lost <==> i != |ws| - 1 {
        assert Idx(s.ks, n) == Some(FormatInt(ws[i])) <==> Rev(s.ks, ws[i]) == Some(TorrentKey(n));
      }
    }
  }

  lemma {:induction false} TracedAlong(s: State, es: seq<Event>, n: string, ws: seq<int>)
    requires Invs(s) && Traced(s, n, ws) && Exec(s, es).Some?
    ensures Invs(Exec(s, es).value) && Traced(Exec(s, es).value, n, ws + Written(s, es, n))
    decreases |es|
  {
    hide Apply, Invs, Enabled, Traced;
    if es == [] {
      assert ws + [] == ws;
    } else {
      InvsStep(s, es[0]);
      var w := WrittenBy(s, es[0], n);
      TracedStep(s, es[0], n, ws);
      TracedAlong(Apply(s, es[0]), es[1..], n, ws + w);
      assert ws + w + Written(Apply(s, es[0]), es[1..], n) == ws + (w + Written(Apply(s, es[0]), es[1..], n));
    }
  }

  lemma TracedStep(s: State, e: Event, n: string, ws: seq<int>)
    requires Invs(s) && Traced(s, n, ws) && Enabled(s, e)
    ensures Traced(Apply(s, e), n, ws + WrittenBy(s, e, n))
  {
    if e.Send? {
      hide Apply, Inv, Ready, Moved, Traced;
      SendMoves(s, e.c);
      RevOwners(s);
      TracedMoved(s, Apply(s, e), e.c, n, ws);
    } else {
      hide Inv, Ready;
      assert ws + [] == ws;
      TracedStill(s, e, n, ws);
    }
  }

  /** A reverse entry that leads to a name's record belongs to an id of that name. */
  lemma RevOwners(s: State)
    requires Inv(s)
    ensures forall id: int :: Rev(s.ks, id).Some? ==> id in s.owners && Rev(s.ks, id) == Some(TorrentKey(s.owners[id]))
  {
    hide Counted, Resolves, FormatInt, TorrentKey, Rev, Idx;
  }

  lemma TracedStill(s: State, e: Event, n: string, ws: seq<int>)
    requires InHand(s) && Traced(s, n, ws) && Enabled(s, e) && !e.Send?
    ensures Traced(Apply(s, e), n, ws)
  {
    hide FormatInt, TorrentKey, Idx, Rev, InHand;
    var t := Apply(s, e);
    forall i | 0 <= i < |ws| ensures Rev(t.ks, ws[i]).Some? || ws[i] in t.lost || Writing(t, ws[i]) {
      if Writing(s, ws[i]) {
        var c :| c in s.tasks && s.tasks[c].stage == WriteRev(ws[i]);
        assert c == e.c || t.tasks[c].stage == WriteRev(ws[i]);
      }
    }
    forall i | 0 <= i < |ws| ensures !Announcing(t, ws[i]) {
      var id := ws[i];
      assert !Announcing(s, id);
      forall c | c in t.tasks ensures t.tasks[c].stage != WriteIdx(id) {
        assert c in s.tasks ==> s.tasks[c].stage != WriteIdx(id);
      }
    }
  }

  lemma TracedMoved(s: State, t: State, c: nat, n: string, ws: seq<int>)
    requires InHand(s) && Traced(s, n, ws) && Moved(s, t, c)
    requires forall id: int :: Rev(s.ks, id).Some? ==> id in s.owners && Rev(s.ks, id) == Some(TorrentKey(s.owners[id]))
    ensures Traced(t, n, ws + NowWritten(s.tasks[c], n))
  {
    hide Moved, InHand, LastIs, OncePassed, WaysBack, NoOthers;
    LastMoved(s, t, c, n, ws);
    OnceMoved(s, t, c, n, ws);
    WaysMoved(s, t, c, n, ws);
    NoOthersMoved(s, t, c, n, ws);
  }

  lemma LastMoved(s: State, t: State, c: nat, n: string, ws: seq<int>)
    requires LastIs(s, n, ws) && Moved(s, t, c)
    ensures LastIs(t, n, ws + NowWritten(s.tasks[c], n))
  {
    hide FormatInt, TorrentKey, Idx, Rev, HashKey;
    if NowWritten(s.tasks[c], n) == [] { assert ws + [] == ws; }
  }

  /** An id that was written is not announced by anyone, and one in a call's hands was not written before. */
  lemma OnceMoved(s: State, t: State, c: nat, n: string, ws: seq<int>)
    requires InHand(s) && OncePassed(s, n, ws) && Moved(s, t, c)
    ensures OncePassed(t, n, ws + NowWritten(s.tasks[c], n))
  {
    HoldingMoved(s, t, c);
    var vs := ws + NowWritten(s.tasks[c], n);
    assert s.tasks[c].stage.WriteIdx? ==> Announcing(s, s.tasks[c].stage.id) && s.tasks[c].stage.id in s.owners by {
      assert s.tasks[c].stage.WriteIdx? ==> Holding(s.tasks[c]) == Some(s.tasks[c].stage.id);
    }
    hide FormatInt, TorrentKey, Idx, Rev, LostFree, SameIndex, HashKey;
    forall i | 0 <= i < |vs| ensures vs[i] in t.owners && t.owners[vs[i]] == n && !Announcing(t, vs[i]) {
      forall d | d in t.tasks ensures t.tasks[d].stage != WriteIdx(vs[i]) {
        if d != c && i == |ws| && Holding(s.tasks[d]).Some? { OnlyHolder(s, c, d); }
      }
    }
  }

  lemma WaysMoved(s: State, t: State, c: nat, n: string, ws: seq<int>)
    requires InHand(s) && WaysBack(s, ws) && Moved(s, t, c)
    ensures WaysBack(t, ws + NowWritten(s.tasks[c], n))
  {
    RevsMoved(s, t, c);
    HoldingMoved(s, t, c);
    hide FormatInt, TorrentKey, Idx, Rev, HashKey, SameIndex, LostFree, OneHolder;
    var vs := ws + NowWritten(s.tasks[c], n);
    forall i | 0 <= i < |vs| ensures Rev(t.ks, vs[i]).Some? || vs[i] in t.lost || Writing(t, vs[i]) {
      if i == |ws| {
        assert t.tasks[c].stage == WriteRev(vs[i]);
      } else if Writing(s, ws[i]) {
        var d :| d in s.tasks && s.tasks[d].stage == WriteRev(ws[i]);
        assert d == c || t.tasks[d].stage == WriteRev(ws[i]);
      }
    }
  }

  lemma NoOthersMoved(s: State, t: State, c: nat, n: string, ws: seq<int>)
    requires NoOthers(s, n, ws) && Moved(s, t, c)
    ensures NoOthers(t, n, ws + NowWritten(s.tasks[c], n))
  {
    TorrentKeyApart(s.tasks[c].name, n);
    hide FormatInt, TorrentKey, Idx, Rev, HashKey;
  }

  // ----- Calls for the same name that do not overlap

  /** No call is cut off, and none arrives while another one for the same name is at work. */
  ghost predicate Apart(s: State, e: Event) {
    match e
    case Arrive(_, name, _, _) => forall c :: c in s.tasks && s.tasks[c].InFlight() ==> s.tasks[c].name != name
    case Send(_) => true
    case Cut(_) => false
  }

  ghost predicate ApartRun(s: State, es: seq<Event>)
    decreases |es|
  {
    es == [] || (Enabled(s, es[0]) && Apart(s, es[0]) && ApartRun(Apply(s, es[0]), es[1..]))
  }

  ghost predicate Alone(s: State) {
    forall c, d :: c in s.tasks && d in s.tasks && s.tasks[c].InFlight() && s.tasks[d].InFlight() && c != d ==>
      s.tasks[c].name != s.tasks[d].name
  }

  lemma AloneStep(s: State, e: Event)
    requires Alone(s) && Enabled(s, e) && Apart(s, e)
    ensures Alone(Apply(s, e))
  {
    if e.Send? { SameName(s.ks, s.tasks[e.c]); }
    hide Command;
  }

  lemma SameName(ks: Keyspace, t: Task)
    ensures Command(ks, t).1.name == t.name
  {
    hide FormatInt, TorrentKey, FilesKey, ParseInt, Incr;
  }

  lemma {:induction false} ApartNeverRaces(s: State, es: seq<Event>, n: string)
    requires Alone(s) && ApartRun(s, es)
    ensures !Raced(s, es, n) && NoCuts(es) && Exec(s, es).Some?
    decreases |es|
  {
    hide Apply, Enabled;
    if es != [] {
      assert es == [es[0]] + es[1..];
      AloneStep(s, es[0]);
      ApartNeverRaces(Apply(s, es[0]), es[1..], n);
    }
  }

  /** So if calls for one name never overlap and none is cut off, every name has at most one id at rest and
      every id exactly one name. */
  lemma ApartIsOneToOne(es: seq<Event>, n: string, id: int)
    requires ApartRun(INIT, es) && Exec(INIT, es).Some? && Quiet(Exec(INIT, es).value)
    ensures var ks := Exec(INIT, es).value.ks;
            Idx(ks, n) == Some(FormatInt(id)) <==> Rev(ks, id) == Some(TorrentKey(n))
  {
    hide Invs, Landed, AtMostOne, AtLeastTwo, Raced, Exec, Quiet, ApartRun, FormatInt, TorrentKey, Idx, Rev;
    ApartNeverRaces(INIT, es, n);
    InitInvs(n);
    RaceAlong(INIT, es, n);
    RestOne(Exec(INIT, es).value, n);
  }

  // ----- A race, from the start

  lemma {:induction false} ExecThen(s: State, es: seq<Event>, fs: seq<Event>)
    requires Exec(s, es).Some?
    ensures Exec(s, es + fs) == Exec(Exec(s, es).value, fs)
    decreases |es|
  {
    if es == [] {
      assert es + fs == fs;
    } else {
      assert (es + fs)[1..] == es[1..] + fs;
      ExecThen(Apply(s, es[0]), es[1..], fs);
    }
  }

  lemma Next(s: State, es: seq<Event>, e: Event)
    requires Exec(s, es).Some? && Enabled(Exec(s, es).value, e)
    ensures Exec(s, es + [e]) == Some(Apply(Exec(s, es).value, e))
  {
    ExecThen(s, es, [e]);
    assert [e][1..] == [];
  }

  /** One more command of a run. */
  lemma Sends(s0: State, es: seq<Event>, s: State, c: nat) returns (fs: seq<Event>, t: State)
    requires Exec(s0, es) == Some(s) && Invs(s) && Enabled(s, Send(c))
    ensures fs == es + [Send(c)] && Exec(s0, fs) == Some(t) && Invs(t) && Moved(s, t, c)
    ensures t.tasks[c].stage.Lookup? ==> Recorded(t.ks, s.tasks[c].name)
  {
    hide Exec, Apply, Enabled, Moved, InHand, Inv, Ready, Recorded;
    Next(s0, es, Send(c));
    InvsStep(s, Send(c));
    SendMoves(s, c);
    fs, t := es + [Send(c)], Apply(s, Send(c));
  }

  lemma Draws(s: State, t: State, c: nat)
    requires Moved(s, t, c) && s.tasks[c].stage.Allocate? && |s.owners| < INT64_MAX
    ensures t.tasks == s.tasks[c := s.tasks[c].To(WriteIdx(|s.owners| + 1))] && |t.owners| == |s.owners| + 1
  {
    hide FormatInt, TorrentKey, Idx, Rev;
  }

  lemma Numbers(s: State, t: State, c: nat, id: int)
    requires Moved(s, t, c) && s.tasks[c].stage == WriteIdx(id)
    ensures t.tasks == s.tasks[c := s.tasks[c].To(WriteRev(id))] && Idx(t.ks, s.tasks[c].name) == Some(FormatInt(id))
  {
    hide FormatInt, TorrentKey, Idx, Rev;
  }

  lemma PointsBack(s: State, t: State, c: nat, id: int)
    requires Moved(s, t, c) && s.tasks[c].stage == WriteRev(id)
    ensures t.tasks == s.tasks[c := s.tasks[c].Settled(id, FormatInt(id))]
    ensures forall n :: Idx(t.ks, n) == Idx(s.ks, n)
    ensures forall i: int :: Rev(t.ks, i) == if i == id then Some(TorrentKey(s.tasks[c].name)) else Rev(s.ks, i)
  {
    hide FormatInt, TorrentKey, Idx, Rev;
  }

  lemma Begins(s: State, t: State, c: nat)
    requires Moved(s, t, c) && s.tasks[c].stage.Begin? && HashKey(s.ks, TorrentKey(s.tasks[c].name))
    ensures t.tasks == s.tasks[c := s.tasks[c].To(Lookup)] && t.owners == s.owners
            && forall n :: Idx(t.ks, n) == Idx(s.ks, n)
  {
    hide FormatInt, TorrentKey, Idx, Rev;
  }

  lemma Misses(s: State, t: State, c: nat)
    requires Moved(s, t, c) && s.tasks[c].stage.Lookup? && Idx(s.ks, s.tasks[c].name).None?
    ensures t.tasks == s.tasks[c := s.tasks[c].To(Allocate)] && t.owners == s.owners
            && forall n :: Idx(t.ks, n) == Idx(s.ks, n)
  {
    hide FormatInt, TorrentKey, Idx, Rev;
  }

  /** Two calls for one name that have both looked and found no id: if they now run on, the name has two ids
      for good, and each call goes on with its own. */
  lemma OverlapDoubles(s: State, c: nat, d: nat) returns (end: State)
    requires Invs(s) && c in s.tasks && d in s.tasks && c != d && s.tasks[c].name == s.tasks[d].name
    requires s.tasks[c].stage.Allocate? && s.tasks[d].stage.Allocate? && |s.owners| + 2 <= INT64_MAX
    ensures Exec(s, [Send(c), Send(d), Send(c), Send(d), Send(c), Send(d)]) == Some(end) && Invs(end)
    ensures var i, j := |s.owners| + 1, |s.owners| + 2;
            && c in end.tasks && d in end.tasks
            && end.tasks[c] == s.tasks[c].Settled(i, FormatInt(i))
            && end.tasks[d] == s.tasks[d].Settled(j, FormatInt(j))
            && Rev(end.ks, i) == Rev(end.ks, j) == Some(TorrentKey(s.tasks[c].name))
            && Idx(end.ks, s.tasks[c].name) == Some(FormatInt(j))
  {
    hide FormatInt, TorrentKey, Idx, Rev, Exec, Invs, Moved;
    Nothing(s);
    var i, j := |s.owners| + 1, |s.owners| + 2;
    var e1, s1 := Sends(s, [], s, c);
    Draws(s, s1, c);
    var e2, s2 := Sends(s, e1, s1, d);
    Draws(s1, s2, d);
    var e3, s3 := Sends(s, e2, s2, c);
    Numbers(s2, s3, c, i);
    var e4, s4 := Sends(s, e3, s3, d);
    Numbers(s3, s4, d, j);
    var e5, s5 := Sends(s, e4, s4, c);
    PointsBack(s4, s5, c, i);
    var e6, s6 := Sends(s, e5, s5, d);
    PointsBack(s5, s6, d, j);
    assert e6 == [Send(c), Send(d), Send(c), Send(d), Send(c), Send(d)];
    end := s6;
  }

  lemma Nothing(s: State)
    ensures Exec(s, []) == Some(s)
  {
  }

  /** From an empty database, for every name, data and files: two calls that overlap in this way leave the name
      under the ids 1 and 2. */
  lemma DoubledFromStart(n: string, data: Bytes, data': Bytes, files: seq<string>, files': seq<string>)
    returns (es: seq<Event>, end: State)
    ensures Exec(INIT, es) == Some(end) && NoCuts(es)
    ensures Rev(end.ks, 1) == Rev(end.ks, 2) == Some(TorrentKey(n)) && Idx(end.ks, n) == Some(FormatInt(2))
  {
    hide FormatInt, TorrentKey, Idx, Rev, Exec, Invs, Landed, AtMostOne;
    InitInvs(n);
    Nothing(INIT);
    var a, b := Arrive(0, n, data, files), Arrive(1, n, data', files');
    Next(INIT, [], a);
    var s1 := Apply(INIT, a);
    InvsStep(INIT, a);
    Next(INIT, [] + [a], b);
    var s2 := Apply(s1, b);
    InvsStep(s1, b);
    var e6, s6 := BothMiss(s2, [] + [a] + [b], n, 0, 1);
    end := OverlapDoubles(s6, 0, 1);
    es := e6 + [Send(0), Send(1), Send(0), Send(1), Send(0), Send(1)];
    ExecThen(INIT, e6, [Send(0), Send(1), Send(0), Send(1), Send(0), Send(1)]);
  }

  /** Two fresh calls for a name without a record, up to the point where both have found no id. */
  lemma BothMiss(s: State, es: seq<Event>, n: string, c: nat, d: nat) returns (fs: seq<Event>, t: State)
    requires Exec(INIT, es) == Some(s) && NoCuts(es) && Invs(s) && c in s.tasks && d in s.tasks && c != d
    requires s.tasks[c].stage.Begin? && s.tasks[d].stage.Begin? && s.tasks[c].name == s.tasks[d].name == n
    requires TorrentKey(n) !in s.ks
    ensures Exec(INIT, fs) == Some(t) && NoCuts(fs) && Invs(t) && t.owners == s.owners && c in t.tasks && d in t.tasks
    ensures t.tasks[c] == s.tasks[c].To(Allocate) && t.tasks[d] == s.tasks[d].To(Allocate)
  {
    hide FormatInt, TorrentKey, Rev, Exec, Invs, Moved, Apply;
    var e1, s1 := Sends(INIT, es, s, c);
    Begins(s, s1, c);
    var e2, s2 := Sends(INIT, e1, s1, d);
    Begins(s1, s2, d);
    var e3, s3 := Sends(INIT, e2, s2, c);
    Misses(s2, s3, c);
    var e4, s4 := Sends(INIT, e3, s3, d);
    Misses(s3, s4, d);
    fs, t := e4, s4;
  }

  // ----- A call that runs alone

  lemma {:induction false} Stopped(ks: Keyspace, t: Task, commands: nat)
    requires !t.InFlight()
    ensures Solo(ks, t, commands) == (ks, t)
    decreases commands
  {
    if commands > 0 { Stopped(ks, t, commands - 1); }
  }

  /** The stage in which a call ends, for each answer it can give. */
  predicate Ends(stage: Stage, a: S.Answer) {
    match a
    case Id(id) => stage == Finished(id)
    case _ => stage == Aborted
  }

  lemma SoloSettled(ks: Keyspace, t: Task, id: int, sid: string, commands: nat)
    requires t == t.Settled(id, sid) && commands > 0
    ensures var (k, u) := Solo(ks, t, commands);
            k == AddFiles(ks, id, sid, t.files).0 && Ends(u.stage, AddFiles(ks, id, sid, t.files).1)
  {
    hide FilesKey;
    var (k, u) := Command(ks, t);
    Stopped(k, u, commands - 1);
  }

  lemma SoloRev(ks: Keyspace, t: Task, id: int, commands: nat)
    requires t.stage == WriteRev(id) && commands > 1
    ensures var (k, u) := Solo(ks, t, commands);
            var (k3, r) := HSet(ks, IDS, map[FormatInt(id) := TorrentKey(t.name)]);
            var (k4, a) := if r.Ok? then AddFiles(k3, id, FormatInt(id), t.files) else (k3, S.Failed);
            k == k4 && Ends(u.stage, a)
  {
    hide FormatInt, TorrentKey, FilesKey, AddFiles;
    var (k, u) := Command(ks, t);
    if u.stage.Aborted? {
      Stopped(k, u, commands - 1);
    } else {
      SoloSettled(k, u, id, FormatInt(id), commands - 1);
    }
  }

  lemma SoloAssign(ks: Keyspace, t: Task)
    requires t.stage.Allocate?
    ensures var (k, u) := Solo(ks, t, 4);
            k == AssignId(ks, TorrentKey(t.name), t.files).0
              && Ends(u.stage, AssignId(ks, TorrentKey(t.name), t.files).1)
  {
    hide FormatInt, TorrentKey, FilesKey, AddFiles, Incr;
    var (k1, u1) := Command(ks, t);
    assert Solo(ks, t, 4) == Solo(k1, u1, 3);
    if u1.stage.Aborted? {
      Stopped(k1, u1, 3);
    } else {
      var (k2, u2) := Command(k1, u1);
      assert Solo(k1, u1, 3) == Solo(k2, u2, 2);
      if u2.stage.Aborted? { Stopped(k2, u2, 2); } else { SoloRev(k2, u2, u1.stage.id, 2); }
    }
  }

  /** Left alone, the commands add up to the AddTorrent that refines the store. */
  lemma SoloIsAddTorrent(ks: Keyspace, name: string, data: Bytes, files: seq<string>)
    ensures var (k, u) := Solo(ks, Task(name, data, files, Begin), 6);
            var (l, a) := AddTorrent(ks, name, data, files);
            k == l && Ends(u.stage, a)
  {
    hide FormatInt, ParseInt, TorrentKey, FilesKey, AssignId;
    var t := Task(name, data, files, Begin);
    var (k1, u1) := Command(ks, t);
    assert Solo(ks, t, 6) == Solo(k1, u1, 5);
    if u1.stage.Aborted? {
      Stopped(k1, u1, 5);
    } else {
      var (k2, u2) := Command(k1, u1);
      assert Solo(k1, u1, 5) == Solo(k2, u2, 4);
      match u2.stage {
        case Allocate => SoloAssign(k2, u2);
        case Aborted => Stopped(k2, u2, 4);
        case WriteFiles(id, sid) => SoloSettled(k2, u2, id, sid, 4);
        case Finished(id) => SoloSettled(k2, u2, id, "", 4);
      }
    }
  }
}
