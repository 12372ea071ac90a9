/**
 The crawl across failovers: the election of cluster.go composed with the tick of observer.go (Engage),
 which the elected node runs against the offset stored in the shared database.

 A tick reads the stored offset, checks the ids of its window one by one and, if any of them was a hit,
 stores the id after the last hit. A node that crashes makes no further database calls, and its tick counts
 as failed, like one whose store failed. A node that is detached, stopped or cut off from the broker, goes
 on ticking for as long as it stays in StartFn: nothing tells it to stop. Reconnecting changes none of that.
 */
module Failover {
  import opened Basics
  import E = Election

  type Node = E.Node

  /** With `handover`, no process enters StartFn while another one that was detached is still in it. */
  datatype Config = Config(election: E.Config, threshold: nat, handover: bool)

  /** A tick in progress: its number, the offset it read, the next id to check, and newNextOffset. */
  datatype Tick = Tick(no: nat, base: nat, next: nat, top: nat)

  /** One checked id. A hit is announced. */
  datatype Probe = Probe(id: nat, hit: bool, tick: nat)

  datatype State = State(e: E.State, offset: nat, ticks: map<Node, Tick>, probes: seq<Probe>, failed: set<nat>,
                         count: nat)

  datatype Event = Vote(v: E.Event) | Begin(n: Node) | Check(n: Node, hit: bool) | Finish(n: Node, saved: bool)

  /** In StartFn, whether detached or not. */
  ghost predicate Working(s: State, n: Node) { n in s.e.nodes && s.e.nodes[n].pc.Master? }

  ghost predicate Enabled(c: Config, s: State, ev: Event) {
    match ev
    case Vote(v) =>
      && E.Enabled(c.election, s.e, v)
      && (v.StartFnReturns? ==> v.n !in s.ticks)
      && (v.SubscribeMaster? && c.handover ==> E.NoStray(s.e))
    case Begin(n) => Working(s, n) && n !in s.ticks
    case Check(n, _) => Working(s, n) && n in s.ticks && s.ticks[n].next < s.ticks[n].base + c.threshold
    case Finish(n, _) => Working(s, n) && n in s.ticks && s.ticks[n].next >= s.ticks[n].base + c.threshold
  }

  ghost function Apply(c: Config, s: State, ev: Event): State
    requires Enabled(c, s, ev)
  {
    match ev
    case Vote(v) =>
      var t := s.(e := E.Apply(c.election, s.e, v));
      if v.Crash? && v.n in s.ticks
      then t.(ticks := s.ticks - {v.n}, failed := s.failed + {s.ticks[v.n].no})
      else t
    case Begin(n) =>
      s.(ticks := s.ticks[n := Tick(s.count, s.offset, s.offset, s.offset)], count := s.count + 1)
    case Check(n, hit) =>
      var t := s.ticks[n];
      s.(ticks := s.ticks[n := t.(next := t.next + 1, top := if hit then t.next + 1 else t.top)],
         probes := s.probes + [Probe(t.next, hit, t.no)])
    case Finish(n, saved) =>
      var t := s.ticks[n];
      if t.top > t.base && saved then s.(ticks := s.ticks - {n}, offset := t.top)
      else if t.top > t.base then s.(ticks := s.ticks - {n}, failed := s.failed + {t.no})
      else s.(ticks := s.ticks - {n})
  }

  ghost function Init(c: Config, start: nat): State {
    State(E.Init(c.election), start, map[], [], {}, 0)
  }

  ghost function Exec(c: Config, s: State, es: seq<Event>): Option<State>
    decreases |es|
  {
    if es == [] then Some(s)
    else if Enabled(c, s, es[0]) then Exec(c, Apply(c, s, es[0]), es[1..])
    else None
  }

  /** The election is steady, and a detached master leaves before the next one enters. A lone node needs neither. */
  ghost predicate Orderly(c: Config) {
    E.Steady(c.election) && forall a, b :: a in c.election.ids && b in c.election.ids && a != b ==> c.handover
  }

  // ----- The invariant

  ghost predicate OneMaster(e: E.State) {
    forall a, b :: a in e.nodes && b in e.nodes && e.nodes[a].pc.Master? && e.nodes[b].pc.Master? ==> a == b
  }

  ghost predicate Current(s: State, no: nat) { exists n :: n in s.ticks && s.ticks[n].no == no }

  ghost predicate Probed(s: State, id: nat) { exists i :: 0 <= i < |s.probes| && s.probes[i].id == id }

  /** A tick in progress still sees the offset it read, and is the latest one. */
  ghost predicate TicksInv(s: State) {
    && (forall n :: n in s.ticks ==>
          && Working(s, n)
          && s.ticks[n].base == s.offset <= s.ticks[n].top <= s.ticks[n].next
          && s.ticks[n].no + 1 == s.count && s.ticks[n].no !in s.failed)
    && (forall k :: k in s.failed ==> k < s.count)
  }

  ghost predicate ProbeInv(s: State, p: Probe) {
    && p.tick < s.count
    && (forall n :: n in s.ticks && s.ticks[n].no == p.tick ==>
          s.offset <= p.id < s.ticks[n].next && (p.hit ==> p.id < s.ticks[n].top))
    && (p.hit && p.tick !in s.failed && !Current(s, p.tick) ==> p.id < s.offset)
  }

  /** An announced id is replayed later only if the tick that announced it failed. */
  ghost predicate Ordered(s: State) {
    forall i, j :: 0 <= i < j < |s.probes| ==>
      && (s.probes[i].hit && s.probes[i].tick !in s.failed ==> s.probes[i].id < s.probes[j].id)
      && (s.probes[i].tick == s.probes[j].tick ==> s.probes[i].id < s.probes[j].id)
  }

  ghost predicate Covered(s: State, start: nat) {
    && start <= s.offset
    && (forall id :: start <= id < s.offset ==> Probed(s, id))
    && (forall n, id :: n in s.ticks && s.offset <= id < s.ticks[n].next ==> Probed(s, id))
  }

  ghost predicate Inv(c: Config, s: State, start: nat) {
    && E.Inv(c.election, s.e) && OneMaster(s.e)
    && TicksInv(s) && Ordered(s) && Covered(s, start)
    && forall i :: 0 <= i < |s.probes| ==> ProbeInv(s, s.probes[i])
  }

  /** Nobody else works while `n` does. */
  lemma OnlyOne(s: State, n: Node)
    requires OneMaster(s.e) && TicksInv(s) && Working(s, n)
    ensures forall m :: m in s.ticks ==> m == n
  {
  }

  /** Whoever is in StartFn was there before, or has just entered. */
  lemma WasMaster(c: Config, s: State, v: E.Event, m: Node)
    requires Enabled(c, s, Vote(v)) && m in s.e.nodes
    ensures var t := E.Apply(c.election, s.e, v);
            m in t.nodes && (t.nodes[m].pc.Master? ==> s.e.nodes[m].pc.Master? || (m == v.n && v.SubscribeMaster?))
  {
    E.Moves(c.election, s.e, v, m);
  }

  /** Of those who were not detached the election lets only one in; a detached one has left. */
  lemma EntersAlone(c: Config, s: State, v: E.Event, m: Node)
    requires Orderly(c) && E.Inv(c.election, s.e) && Enabled(c, s, Vote(v)) && v.SubscribeMaster?
    requires m in s.e.nodes && s.e.nodes[m].pc.Master?
    ensures m == v.n
  {
    hide E.Met;
    E.InvExcludes(c.election, s.e);
    assert c.handover || m == v.n;
    assert E.Rules(s.e.nodes[v.n]);
    assert E.Rules(s.e.nodes[m]) || E.Stray(s.e, m);
  }

  lemma SameNodes(c: Config, s: State, v: E.Event)
    requires Enabled(c, s, Vote(v))
    ensures E.Apply(c.election, s.e, v).nodes.Keys == s.e.nodes.Keys
  {
  }

  lemma OneMasterStep(c: Config, s: State, v: E.Event)
    requires Orderly(c) && E.Inv(c.election, s.e) && OneMaster(s.e) && Enabled(c, s, Vote(v))
    ensures OneMaster(E.Apply(c.election, s.e, v))
  {
    hide E.Enabled, E.Apply, E.Inv, Orderly;
    var t := E.Apply(c.election, s.e, v);
    SameNodes(c, s, v);
    forall m | m in t.nodes && t.nodes[m].pc.Master?
      ensures m in s.e.nodes && (s.e.nodes[m].pc.Master? || (m == v.n && v.SubscribeMaster?))
    {
      WasMaster(c, s, v, m);
    }
    if v.SubscribeMaster? {
      forall m | m in s.e.nodes && s.e.nodes[m].pc.Master? ensures m == v.n { EntersAlone(c, s, v, m); }
    }
  }

  /** A vote leaves every tick in progress alone, unless it takes away the node that runs it. */
  lemma WorkersStay(c: Config, s: State, v: E.Event, n: Node)
    requires Enabled(c, s, Vote(v)) && Working(s, n) && n in s.ticks && !(v.n == n && v.Crash?)
    ensures Working(Apply(c, s, Vote(v)), n)
  {
  }

  lemma VoteStep(c: Config, s: State, start: nat, v: E.Event)
    requires Orderly(c) && Inv(c, s, start) && Enabled(c, s, Vote(v))
    ensures Inv(c, Apply(c, s, Vote(v)), start)
  {
    E.InvStep(c.election, s.e, v);
    OneMasterStep(c, s, v);
    var t := Apply(c, s, Vote(v));
    forall n | n in t.ticks ensures Working(t, n) && t.ticks[n] == s.ticks[n] {
      WorkersStay(c, s, v, n);
    }
    if t.ticks == s.ticks {
      SameTicks(c, s, start, v);
    } else {
      DroppedTick(c, s, start, v);
    }
  }

  lemma SameTicks(c: Config, s: State, start: nat, v: E.Event)
    requires Inv(c, s, start) && Enabled(c, s, Vote(v)) && Apply(c, s, Vote(v)).ticks == s.ticks
    requires forall n :: n in s.ticks ==> Working(Apply(c, s, Vote(v)), n)
    requires E.Inv(c.election, Apply(c, s, Vote(v)).e) && OneMaster(Apply(c, s, Vote(v)).e)
    ensures Inv(c, Apply(c, s, Vote(v)), start)
  {
    var t := Apply(c, s, Vote(v));
    assert t == s.(e := t.e) by {
      if v.n in s.ticks { assert v.n in t.ticks; }
    }
    forall id | Probed(s, id) ensures Probed(t, id) {}
    forall i | 0 <= i < |t.probes| ensures ProbeInv(t, t.probes[i]) {
      assert ProbeInv(s, s.probes[i]);
      assert Current(s, t.probes[i].tick) ==> Current(t, t.probes[i].tick);
    }
  }

  lemma DroppedTick(c: Config, s: State, start: nat, v: E.Event)
    requires Inv(c, s, start) && Enabled(c, s, Vote(v)) && Apply(c, s, Vote(v)).ticks != s.ticks
    requires E.Inv(c.election, Apply(c, s, Vote(v)).e) && OneMaster(Apply(c, s, Vote(v)).e)
    ensures Inv(c, Apply(c, s, Vote(v)), start)
  {
    OnlyOne(s, v.n);
    var t := Apply(c, s, Vote(v));
    assert t.ticks == map[];
    forall id | Probed(s, id) ensures Probed(t, id) {}
    forall i | 0 <= i < |t.probes| ensures ProbeInv(t, t.probes[i]) {
      assert ProbeInv(s, s.probes[i]);
      if Current(s, t.probes[i].tick) { assert s.ticks[v.n].no == t.probes[i].tick; }
    }
  }

  lemma BeginStep(c: Config, s: State, start: nat, n: Node)
    requires Inv(c, s, start) && Enabled(c, s, Begin(n))
    ensures Inv(c, Apply(c, s, Begin(n)), start)
  {
    OnlyOne(s, n);
    var t := Apply(c, s, Begin(n));
    forall id | Probed(s, id) ensures Probed(t, id) {}
    forall i | 0 <= i < |t.probes| ensures ProbeInv(t, t.probes[i]) {
      assert ProbeInv(s, s.probes[i]);
      assert !Current(s, t.probes[i].tick);
    }
  }

  lemma CheckProbes(c: Config, s: State, start: nat, n: Node, hit: bool)
    requires Inv(c, s, start) && Enabled(c, s, Check(n, hit)) && forall m :: m in s.ticks ==> m == n
    ensures forall i :: 0 <= i <= |s.probes| ==>
              ProbeInv(Apply(c, s, Check(n, hit)), Apply(c, s, Check(n, hit)).probes[i])
  {
    hide E.Inv, Ordered, Covered;
    var t := Apply(c, s, Check(n, hit));
    assert t.ticks[n].no == s.ticks[n].no;
    forall i | 0 <= i <= |s.probes| ensures ProbeInv(t, t.probes[i]) {
      if i < |s.probes| {
        assert t.probes[i] == s.probes[i] && ProbeInv(s, s.probes[i]);
        if Current(s, t.probes[i].tick) { assert t.ticks[n].no == t.probes[i].tick; }
      } else {
        assert t.ticks[n].no == t.probes[i].tick;
      }
    }
  }

  lemma CheckCovered(c: Config, s: State, start: nat, n: Node, hit: bool)
    requires Inv(c, s, start) && Enabled(c, s, Check(n, hit)) && forall m :: m in s.ticks ==> m == n
    ensures Covered(Apply(c, s, Check(n, hit)), start)
  {
    hide E.Inv, Ordered, ProbeInv;
    var t := Apply(c, s, Check(n, hit));
    assert t.probes[|s.probes|].id == s.ticks[n].next;
    forall id | Probed(s, id) ensures Probed(t, id) {
      var i :| 0 <= i < |s.probes| && s.probes[i].id == id;
      assert t.probes[i].id == id;
    }
  }

  lemma CheckStep(c: Config, s: State, start: nat, n: Node, hit: bool)
    requires Inv(c, s, start) && Enabled(c, s, Check(n, hit))
    ensures Inv(c, Apply(c, s, Check(n, hit)), start)
  {
    hide E.Inv, Covered;
    OnlyOne(s, n);
    CheckProbes(c, s, start, n, hit);
    CheckCovered(c, s, start, n, hit);
    var t := Apply(c, s, Check(n, hit));
    forall i | 0 <= i < |s.probes| ensures t.probes[i] == s.probes[i] && ProbeInv(s, s.probes[i]) {}
    forall i | 0 <= i < |s.probes| ensures
      && (s.probes[i].hit && s.probes[i].tick !in s.failed ==> s.probes[i].id < s.ticks[n].next)
      && (s.probes[i].tick == s.ticks[n].no ==> s.probes[i].id < s.ticks[n].next)
    {
      if Current(s, s.probes[i].tick) { assert s.ticks[n].no == s.probes[i].tick; }
    }
    assert Ordered(t);
  }

  lemma FinishStep(c: Config, s: State, start: nat, n: Node, saved: bool)
    requires Inv(c, s, start) && Enabled(c, s, Finish(n, saved))
    ensures Inv(c, Apply(c, s, Finish(n, saved)), start)
  {
    OnlyOne(s, n);
    var t := Apply(c, s, Finish(n, saved));
    assert t.ticks == map[];
    forall id | Probed(s, id) ensures Probed(t, id) {}
    forall i | 0 <= i < |t.probes| ensures ProbeInv(t, t.probes[i]) {
      assert ProbeInv(s, s.probes[i]);
      if Current(s, t.probes[i].tick) { assert s.ticks[n].no == t.probes[i].tick; }
    }
  }

  lemma InvStep(c: Config, s: State, start: nat, ev: Event)
    requires Orderly(c) && Inv(c, s, start) && Enabled(c, s, ev)
    ensures Inv(c, Apply(c, s, ev), start) && s.offset <= Apply(c, s, ev).offset
  {
    match ev
    case Vote(v) => VoteStep(c, s, start, v);
    case Begin(n) => BeginStep(c, s, start, n);
    case Check(n, hit) => CheckStep(c, s, start, n, hit);
    case Finish(n, saved) => FinishStep(c, s, start, n, saved);
  }

  lemma {:induction false} InvAlong(c: Config, s: State, start: nat, es: seq<Event>)
    requires Orderly(c) && Inv(c, s, start) && Exec(c, s, es).Some?
    ensures Inv(c, Exec(c, s, es).value, start) && s.offset <= Exec(c, s, es).value.offset
    decreases |es|
  {
    if es != [] {
      InvStep(c, s, start, es[0]);
      InvAlong(c, Apply(c, s, es[0]), start, es[1..]);
    }
  }

  // ----- Whole runs

  lemma {:induction false} ExecThen(c: Config, s: State, es: seq<Event>, fs: seq<Event>)
    requires Exec(c, s, es).Some?
    ensures Exec(c, s, es + fs) == Exec(c, Exec(c, s, es).value, fs)
    decreases |es|
  {
    if es == [] {
      assert es + fs == fs;
    } else {
      assert (es + fs)[1..] == es[1..] + fs;
      ExecThen(c, Apply(c, s, es[0]), es[1..], fs);
    }
  }

  /** Over any orderly run of any number of nodes: an announced id is announced or checked again only after the tick
      that announced it failed, every other announcement is followed by greater ids only, and every id
      below the stored offset was checked. */
  lemma AnnouncementsAdvance(c: Config, start: nat, es: seq<Event>)
    requires Orderly(c) && Exec(c, Init(c, start), es).Some?
    ensures var t := Exec(c, Init(c, start), es).value;
            && (forall i, j :: 0 <= i < j < |t.probes| && t.probes[i].hit && t.probes[i].tick !in t.failed ==>
                  t.probes[i].id < t.probes[j].id)
            && (forall id :: start <= id < t.offset ==> Probed(t, id))
  {
    InvAlong(c, Init(c, start), start, es);
  }

  /** If no tick failed, the announced ids of the whole multi-node run are strictly increasing: no id is
      announced, or celebrated as an anniversary, twice. */
  lemma NoFailureNoReplay(c: Config, start: nat, es: seq<Event>, i: nat, j: nat)
    requires Orderly(c) && Exec(c, Init(c, start), es).Some?
    requires Exec(c, Init(c, start), es).value.failed == {}
    requires i < j < |Exec(c, Init(c, start), es).value.probes|
    requires Exec(c, Init(c, start), es).value.probes[i].hit
    ensures Exec(c, Init(c, start), es).value.probes[i].id < Exec(c, Init(c, start), es).value.probes[j].id
  {
    AnnouncementsAdvance(c, start, es);
  }

  /** An id below the stored offset is never checked again, by any node, at any later point. */
  lemma NothingBelowOffset(c: Config, start: nat, es: seq<Event>, fs: seq<Event>, n: Node, hit: bool)
    requires Orderly(c) && Exec(c, Init(c, start), es).Some?
    requires Exec(c, Exec(c, Init(c, start), es).value, fs).Some?
    requires var t := Exec(c, Exec(c, Init(c, start), es).value, fs).value; Enabled(c, t, Check(n, hit))
    ensures var t := Exec(c, Exec(c, Init(c, start), es).value, fs).value;
            Exec(c, Init(c, start), es).value.offset <= t.ticks[n].next
  {
    InvAlong(c, Init(c, start), start, es);
    InvAlong(c, Exec(c, Init(c, start), es).value, start, fs);
  }

  /** No step of any run lowers the stored offset. */
  ghost predicate NeverRegresses(c: Config) {
    forall start: nat, es, ev ::
      Exec(c, Init(c, start), es).Some? && Enabled(c, Exec(c, Init(c, start), es).value, ev) ==>
        Exec(c, Init(c, start), es).value.offset <= Apply(c, Exec(c, Init(c, start), es).value, ev).offset
  }

  // ----- The converse: an unsound election lets the offset go back

  function Votes(vs: seq<E.Event>): seq<Event> {
    if vs == [] then [] else [Vote(vs[0])] + Votes(vs[1..])
  }

  /** An election run happens unchanged while nobody is in a tick; if detached masters have to leave first,
      then provided they do. */
  lemma {:induction false} Lift(c: Config, s: State, vs: seq<E.Event>)
    requires s.ticks == map[] && E.Exec(c.election, s.e, vs).Some?
    requires c.handover ==> E.HandsOver(c.election, s.e, vs)
    ensures Exec(c, s, Votes(vs)) == Some(s.(e := E.Exec(c.election, s.e, vs).value))
    decreases |vs|
  {
    hide E.Enabled, E.Apply, E.NoStray;
    if vs != [] {
      assert Votes(vs)[1..] == Votes(vs[1..]);
      Lift(c, Apply(c, s, Vote(vs[0])), vs[1..]);
    }
  }

  /** `n` finishes its tick: the next id is a hit or not, all later ones are misses. */
  lemma {:induction false} Scan(c: Config, s: State, n: Node, hit: bool) returns (es: seq<Event>)
    requires Working(s, n) && n in s.ticks && s.ticks[n].next <= s.ticks[n].base + c.threshold
    requires s.ticks[n].top > s.ticks[n].base || (hit && s.ticks[n].next < s.ticks[n].base + c.threshold)
    requires s.ticks[n].base <= s.ticks[n].next
    ensures Exec(c, s, es).Some?
    ensures var t := Exec(c, s, es).value;
            && t.e == s.e && t.ticks == s.ticks - {n} && t.count == s.count
            && t.offset == if hit && s.ticks[n].next < s.ticks[n].base + c.threshold then s.ticks[n].next + 1
                           else s.ticks[n].top
    decreases c.threshold + s.ticks[n].base - s.ticks[n].next
  {
    if s.ticks[n].next == s.ticks[n].base + c.threshold {
      es := [Finish(n, true)];
      assert es[1..] == [];
    } else {
      var t := Apply(c, s, Check(n, hit));
      var rest := Scan(c, t, n, false);
      es := [Check(n, hit)] + rest;
      assert es[1..] == rest;
      assert t.ticks - {n} == s.ticks - {n};
    }
  }

  /** A whole tick of `n` in which just the first id is a hit. */
  lemma FirstHits(c: Config, s: State, n: Node) returns (es: seq<Event>)
    requires Working(s, n) && n !in s.ticks && c.threshold > 0
    ensures Exec(c, s, es).Some?
    ensures var t := Exec(c, s, es).value; t.e == s.e && t.ticks == s.ticks && t.offset == s.offset + 1
  {
    var t := Apply(c, s, Begin(n));
    var rest := Scan(c, t, n, true);
    es := [Begin(n)] + rest;
    assert es[1..] == rest;
    assert t.ticks - {n} == s.ticks;
  }

  /** Two working nodes: `a` reads the offset, `b` completes two ticks, `a` stores what it found. */
  lemma Overtaken(c: Config, s: State, a: Node, b: Node) returns (es: seq<Event>)
    requires Working(s, a) && Working(s, b) && a != b && s.ticks == map[] && c.threshold > 0
    ensures Exec(c, s, es).Some?
    ensures var t := Exec(c, s, es).value;
            && t.offset == s.offset + 2 && t.e == s.e && t.ticks.Keys == {a}
            && t.ticks[a].base == t.ticks[a].next == t.ticks[a].top == s.offset
  {
    var t := Apply(c, s, Begin(a));
    var e1 := FirstHits(c, t, b);
    var t1 := Exec(c, t, e1).value;
    var e2 := FirstHits(c, t1, b);
    ExecThen(c, t, e1, e2);
    es := [Begin(a)] + (e1 + e2);
    assert es[1..] == e1 + e2;
  }

  lemma {:induction false} SomeStepRegresses(c: Config, s: State, es: seq<Event>) returns (k: nat)
    requires Exec(c, s, es).Some? && Exec(c, s, es).value.offset < s.offset
    ensures k < |es| && Exec(c, s, es[..k]).Some? && Enabled(c, Exec(c, s, es[..k]).value, es[k])
    ensures Apply(c, Exec(c, s, es[..k]).value, es[k]).offset < Exec(c, s, es[..k]).value.offset
    decreases |es|
  {
    var t := Apply(c, s, es[0]);
    if t.offset < s.offset {
      k := 0;
    } else {
      var j := SomeStepRegresses(c, t, es[1..]);
      k := j + 1;
      assert es[..k][1..] == es[1..][..j];
    }
  }

  /** The stored offset never goes back in any run exactly when the identifiers are distinct, requests wait for
      live peers, nobody who was cut off comes back between its request and the end of StartFn, and a detached
      master leaves StartFn before the next one enters it; or there is one node. */
  lemma OffsetExactly(c: Config)
    requires c.election.Valid() && c.threshold > 0
    ensures NeverRegresses(c) <==>
            var ids := c.election.ids;
            |ids| <= 1 ||
            ((forall a, b :: a in ids && b in ids && a != b ==> ids[a] != ids[b]) &&
             c.election.patient && c.election.back !! {E.Asked, E.Won, E.Master} && c.handover)
  {
    hide Exec, Enabled, Apply;
    OrderlyMeans(c);
    if Orderly(c) {
      forall start: nat, es, ev |
        Exec(c, Init(c, start), es).Some? && Enabled(c, Exec(c, Init(c, start), es).value, ev)
        ensures Exec(c, Init(c, start), es).value.offset <= Apply(c, Exec(c, Init(c, start), es).value, ev).offset
      {
        assert Inv(c, Init(c, start), start) by { InitInv(c, start); }
        InvAlong(c, Init(c, start), start, es);
        InvStep(c, Exec(c, Init(c, start), es).value, start, ev);
      }
    } else if E.Steady(c.election) {
      var a, b :| a in c.election.ids && b in c.election.ids && a != b && !c.handover;
      var es, ev := StrayRegresses(c, a, b);
    } else {
      var a, b := E.Spoilers(c.election);
      if c.election.patient && c.election.ids[a] != c.election.ids[b] {
        var es, ev := ComebackRegresses(c, a, b, E.Point(c.election));
      } else {
        Regress(c, a, b);
      }
    }
  }

  lemma OrderlyMeans(c: Config)
    ensures Orderly(c) <==>
            var ids := c.election.ids;
            |ids| <= 1 ||
            ((forall a, b :: a in ids && b in ids && a != b ==> ids[a] != ids[b]) &&
             c.election.patient && c.election.back !! {E.Asked, E.Won, E.Master} && c.handover)
  {
    hide E.Steady;
    E.SoundMeans(c.election);
    var ids := c.election.ids;
    if |ids| <= 1 {
      forall a, b | a in ids && b in ids ensures a == b { E.AtMostOneKey(ids, a, b); }
    } else {
      var a, b := E.TwoKeys(ids);
    }
  }

  lemma InitInv(c: Config, start: nat)
    ensures Inv(c, Init(c, start), start)
  {
  }

  /** With equal identifiers or impatient requests two live masters overtake each other. */
  lemma Regress(c: Config, a: Node, b: Node)
    requires c.election.Valid() && c.threshold > 0 && a in c.election.ids && b in c.election.ids && a != b
    requires !(c.election.patient && c.election.ids[a] != c.election.ids[b])
    ensures !NeverRegresses(c)
  {
    var vs := E.TwoMasters(c.election, a, b);
    E.WithoutStrays(c.election, Init(c, 0).e, vs);
    Lift(c, Init(c, 0), vs);
    var es, ev := RacesBack(c, Votes(vs), a, b);
  }

  /** However sound the election otherwise, and although nobody enters beside a detached master: a process that is
      cut off after its request and reconnects before the end of StartFn can store a smaller offset over a greater
      one of its successor. */
  lemma ComebackRegresses(c: Config, a: Node, b: Node, pc: E.Pc) returns (es: seq<Event>, ev: Event)
    requires c.election.Valid() && c.threshold > 0 && a in c.election.ids && b in c.election.ids && a != b
    requires pc in c.election.back && (pc.Asked? || pc.Won? || pc.Master?)
    ensures Exec(c, Init(c, 0), es).Some? && Enabled(c, Exec(c, Init(c, 0), es).value, ev)
    ensures Apply(c, Exec(c, Init(c, 0), es).value, ev).offset < Exec(c, Init(c, 0), es).value.offset
  {
    hide E.Exec, E.HandsOver, Exec;
    var vs := E.ComesBack(c.election, a, b, pc);
    Lift(c, Init(c, 0), vs);
    es, ev := RacesBack(c, Votes(vs), a, b);
  }

  /** Once two nodes are in StartFn, a run in which the first stores a smaller offset over a greater one. */
  lemma RacesBack(c: Config, votes: seq<Event>, a: Node, b: Node) returns (es: seq<Event>, ev: Event)
    requires c.threshold > 0 && a != b && Exec(c, Init(c, 0), votes).Some?
    requires var s := Exec(c, Init(c, 0), votes).value; Working(s, a) && Working(s, b) && s.ticks == map[]
    ensures votes <= es && Exec(c, Init(c, 0), es).Some? && Enabled(c, Exec(c, Init(c, 0), es).value, ev)
    ensures Apply(c, Exec(c, Init(c, 0), es).value, ev).offset < Exec(c, Init(c, 0), es).value.offset
  {
    var s0 := Init(c, 0);
    var s1 := Exec(c, s0, votes).value;
    var race := Overtaken(c, s1, a, b);
    var s2 := Exec(c, s1, race).value;
    var tail := Scan(c, s2, a, true);
    var k := SomeStepRegresses(c, s2, tail);
    ExecThen(c, s0, votes, race);
    ExecThen(c, s0, votes + race, tail[..k]);
    es, ev := votes + race + tail[..k], tail[k];
  }

  /** However sound the election: a master that was stopped or cut off from the broker, but is still in StartFn
      when the next one enters, can store a smaller offset over a greater one. */
  lemma StrayRegresses(c: Config, a: Node, b: Node) returns (es: seq<Event>, ev: Event)
    requires c.election.Valid() && c.threshold > 0 && !c.handover
    requires a in c.election.ids && b in c.election.ids && a != b
    ensures Vote(E.Detach(a)) in es
    ensures Exec(c, Init(c, 0), es).Some? && Enabled(c, Exec(c, Init(c, 0), es).value, ev)
    ensures Apply(c, Exec(c, Init(c, 0), es).value, ev).offset < Exec(c, Init(c, 0), es).value.offset
  {
    var vs := E.DetachedBesideMaster(c.election, a, b);
    Lift(c, Init(c, 0), vs);
    es, ev := RacesBack(c, Votes(vs), a, b);
    var i :| 0 <= i < |vs| && vs[i] == E.Detach(a);
    VoteAt(vs, i);
    assert es[i] == Votes(vs)[i];
  }

  lemma {:induction false} VoteAt(vs: seq<E.Event>, i: nat)
    requires i < |vs|
    ensures |Votes(vs)| == |vs| && Votes(vs)[i] == Vote(vs[i])
    decreases |vs|
  {
    VotesLength(vs);
    if i > 0 { VoteAt(vs[1..], i - 1); }
  }

  lemma {:induction false} VotesLength(vs: seq<E.Event>)
    ensures |Votes(vs)| == |vs|
    decreases |vs|
  {
    if vs != [] { VotesLength(vs[1..]); }
  }

  /** A detachment leaves a master where it stands: in StartFn, in its tick, and free to go on with it. */
  lemma DetachedGoesOn(c: Config, s: State, n: Node, ev: Event)
    requires Working(s, n) && Enabled(c, s, Vote(E.Detach(n)))
    requires !ev.Vote? && ev.n == n && Enabled(c, s, ev)
    ensures var t := Apply(c, s, Vote(E.Detach(n)));
            && t == s.(e := t.e) && E.Stray(t.e, n)
            && Enabled(c, t, ev) && Apply(c, t, ev) == Apply(c, s, ev).(e := t.e)
  {
  }

  /** Runs without detachments are orderly ones of the same election. */
  lemma {:induction false} UndetachedRuns(c: Config, s: State, es: seq<Event>)
    requires E.NoStray(s.e) && Exec(c, s, es).Some? && forall v :: Vote(v) in es ==> !v.Detach?
    ensures Exec(c.(handover := true), s, es) == Exec(c, s, es)
    decreases |es|
  {
    hide Apply, E.Enabled;
    if es != [] {
      assert es[0] in es;
      StrayFreeStep(c, s, es[0]);
      UndetachedRuns(c, Apply(c, s, es[0]), es[1..]);
    }
  }

  lemma StrayFreeStep(c: Config, s: State, ev: Event)
    requires E.NoStray(s.e) && Enabled(c, s, ev) && !(ev.Vote? && ev.v.Detach?)
    ensures Enabled(c.(handover := true), s, ev)
    ensures Apply(c.(handover := true), s, ev) == Apply(c, s, ev) && E.NoStray(Apply(c, s, ev).e)
  {
    if ev.Vote? { E.StillNoStray(c.election, s.e, ev.v); }
  }

  // ----- What a tick checks

  ghost predicate CheckedBy(s: State, no: nat, id: nat) {
    exists i :: 0 <= i < |s.probes| && s.probes[i].tick == no && s.probes[i].id == id
  }

  ghost predicate WindowSoFar(s: State, t: Tick) {
    forall id: nat :: CheckedBy(s, t.no, id) <==> t.base <= id < t.next
  }

  /** Every tick in progress has checked the ids from the offset it read up to the next one, and no others. */
  ghost predicate Windows(c: Config, s: State) {
    && (forall i :: 0 <= i < |s.probes| ==> s.probes[i].tick < s.count)
    && (forall n :: n in s.ticks ==>
        s.ticks[n].no < s.count && s.ticks[n].base <= s.ticks[n].next <= s.ticks[n].base + c.threshold)
    && (forall m, n :: m in s.ticks && n in s.ticks && s.ticks[m].no == s.ticks[n].no ==> m == n)
    && (forall n :: n in s.ticks ==> WindowSoFar(s, s.ticks[n]))
  }

  lemma SameChecks(s: State, t: State)
    requires t.probes == s.probes
    ensures forall no, id :: CheckedBy(t, no, id) <==> CheckedBy(s, no, id)
  {
  }

  lemma OneCheckMore(s: State, t: State, p: Probe)
    requires t.probes == s.probes + [p]
    ensures forall no, id :: CheckedBy(t, no, id) <==> CheckedBy(s, no, id) || (no == p.tick && id == p.id)
  {
    assert t.probes[|s.probes|] == p;
    forall no, id | CheckedBy(s, no, id) ensures CheckedBy(t, no, id) {
      var i :| 0 <= i < |s.probes| && s.probes[i].tick == no && s.probes[i].id == id;
      assert t.probes[i] == s.probes[i];
    }
  }

  lemma VoteWindows(c: Config, s: State, v: E.Event)
    requires Windows(c, s) && Enabled(c, s, Vote(v))
    ensures Windows(c, Apply(c, s, Vote(v)))
  {
    hide E.Enabled, E.Apply, CheckedBy;
    SameChecks(s, Apply(c, s, Vote(v)));
  }

  lemma BeginWindows(c: Config, s: State, n: Node)
    requires Windows(c, s) && Enabled(c, s, Begin(n))
    ensures Windows(c, Apply(c, s, Begin(n)))
  {
    var t := Apply(c, s, Begin(n));
    SameChecks(s, t);
    forall id: nat ensures !CheckedBy(s, s.count, id) {}
    hide CheckedBy;
    assert WindowSoFar(t, t.ticks[n]);
  }

  lemma CheckWindows(c: Config, s: State, n: Node, hit: bool)
    requires Windows(c, s) && Enabled(c, s, Check(n, hit))
    ensures Windows(c, Apply(c, s, Check(n, hit)))
  {
    hide CheckedBy;
    OneCheckMore(s, Apply(c, s, Check(n, hit)), Probe(s.ticks[n].next, hit, s.ticks[n].no));
  }

  lemma FinishWindows(c: Config, s: State, n: Node, saved: bool)
    requires Windows(c, s) && Enabled(c, s, Finish(n, saved))
    ensures Windows(c, Apply(c, s, Finish(n, saved)))
  {
    hide CheckedBy;
    SameChecks(s, Apply(c, s, Finish(n, saved)));
  }

  lemma WindowsStep(c: Config, s: State, ev: Event)
    requires Windows(c, s) && Enabled(c, s, ev)
    ensures Windows(c, Apply(c, s, ev))
  {
    match ev
    case Vote(v) => VoteWindows(c, s, v);
    case Begin(n) => BeginWindows(c, s, n);
    case Check(n, hit) => CheckWindows(c, s, n, hit);
    case Finish(n, saved) => FinishWindows(c, s, n, saved);
  }

  lemma {:induction false} WindowsAlong(c: Config, s: State, es: seq<Event>)
    requires Windows(c, s) && Exec(c, s, es).Some?
    ensures Windows(c, Exec(c, s, es).value)
    decreases |es|
  {
    hide Windows, Enabled, Apply;
    if es != [] {
      WindowsStep(c, s, es[0]);
      WindowsAlong(c, Apply(c, s, es[0]), es[1..]);
    }
  }

  /** In any run, whatever the election allows: a tick begins at the offset stored then, checks only ids of its window,
      and stores an offset only when it has checked exactly the whole of it. */
  lemma WindowExactly(c: Config, start: nat, es: seq<Event>, n: Node, ev: Event)
    requires Exec(c, Init(c, start), es).Some? && Enabled(c, Exec(c, Init(c, start), es).value, ev) && !ev.Vote?
             && ev.n == n
    ensures var s := Exec(c, Init(c, start), es).value;
            var t := Apply(c, s, ev);
            match ev
            case Begin(_) => n in t.ticks && t.ticks[n].base == t.ticks[n].next == s.offset == t.offset
            case Check(_, _) => n in s.ticks && s.ticks[n].base <= s.ticks[n].next < s.ticks[n].base + c.threshold
            case Finish(_, _) =>
              && n in s.ticks
              && forall id: nat ::
                   CheckedBy(s, s.ticks[n].no, id) <==> s.ticks[n].base <= id < s.ticks[n].base + c.threshold
  {
    WindowsAlong(c, Init(c, start), es);
  }

  // ----- An undisturbed tick is what Engage's loop computes

  function Checks(n: Node, hits: seq<bool>): (es: seq<Event>)
    ensures |es| == |hits|
  {
    seq(|hits|, i requires 0 <= i < |hits| => Check(n, hits[i]))
  }

  function ProbesOf(base: nat, no: nat, hits: seq<bool>): seq<Probe> {
    seq(|hits|, i requires 0 <= i < |hits| => Probe(base + i, hits[i], no))
  }

  /** Where `n` stands in its tick after checking one id per element of `hits`. */
  ghost function Checked(s: State, n: Node, hits: seq<bool>): State
    requires n in s.ticks
  {
    var t := s.ticks[n];
    s.(ticks := s.ticks[n := Tick(t.no, t.base, t.base + |hits|, Top(t.base, hits))],
       probes := s.probes + ProbesOf(t.base, t.no, hits))
  }

  lemma CheckedOneMore(c: Config, s: State, n: Node, hits: seq<bool>)
    requires Working(s, n) && n in s.ticks && 0 < |hits| <= c.threshold
    ensures var k := |hits| - 1;
            var m := Checked(s, n, hits[..k]);
            Enabled(c, m, Check(n, hits[k])) && Apply(c, m, Check(n, hits[k])) == Checked(s, n, hits)
  {
    var k, t := |hits| - 1, s.ticks[n];
    assert ProbesOf(t.base, t.no, hits) == ProbesOf(t.base, t.no, hits[..k]) + [Probe(t.base + k, hits[k], t.no)];
    var a := Apply(c, Checked(s, n, hits[..k]), Check(n, hits[k]));
    assert a.ticks == Checked(s, n, hits).ticks;
    assert a.probes == Checked(s, n, hits).probes;
  }

  lemma {:induction false} ChecksRun(c: Config, s: State, n: Node, hits: seq<bool>)
    requires Working(s, n) && n in s.ticks && |hits| <= c.threshold
    requires s.ticks[n].base == s.ticks[n].next == s.ticks[n].top
    ensures Exec(c, s, Checks(n, hits)) == Some(Checked(s, n, hits))
    decreases |hits|
  {
    if hits == [] {
      assert Checks(n, hits) == [];
      assert s.ticks[n := s.ticks[n]] == s.ticks;
      assert s.probes + ProbesOf(s.ticks[n].base, s.ticks[n].no, hits) == s.probes;
    } else {
      hide Enabled, Apply, Checked;
      var k := |hits| - 1;
      ChecksRun(c, s, n, hits[..k]);
      CheckedOneMore(c, s, n, hits);
      assert Checks(n, hits) == Checks(n, hits[..k]) + [Check(n, hits[k])];
      ExecThen(c, s, Checks(n, hits[..k]), [Check(n, hits[k])]);
      OneEvent(c, Checked(s, n, hits[..k]), Check(n, hits[k]));
    }
  }

  lemma OneEvent(c: Config, s: State, ev: Event)
    requires Enabled(c, s, ev)
    ensures Exec(c, s, [ev]) == Some(Apply(c, s, ev))
  {
    assert [ev][1..] == [];
  }

  /** Left alone, a tick checks the whole window in order and moves the stored offset exactly as the loop of
      Observer.Tick does: past the last hit if that was saved, and not at all otherwise. */
  lemma TickAsSteps(c: Config, s: State, n: Node, hits: seq<bool>, saved: bool)
    requires Working(s, n) && n !in s.ticks && |hits| == c.threshold
    ensures var end := Exec(c, s, [Begin(n)] + Checks(n, hits) + [Finish(n, saved)]);
            && end.Some? && end.value.e == s.e && end.value.ticks == s.ticks
            && end.value.offset == (if saved then Top(s.offset, hits) else s.offset)
            && end.value.probes == s.probes + ProbesOf(s.offset, s.count, hits)
            && end.value.failed == if !saved && true in hits then s.failed + {s.count} else s.failed
  {
    var b := Apply(c, s, Begin(n));
    var es := [Begin(n)] + Checks(n, hits);
    assert es[1..] == Checks(n, hits);
    ChecksRun(c, b, n, hits);
    ExecThen(c, s, es, [Finish(n, saved)]);
    TopBounds(s.offset, hits);
    var m := Exec(c, s, es).value;
    assert [Finish(n, saved)][1..] == [];
    assert m.ticks - {n} == s.ticks;
  }
}
