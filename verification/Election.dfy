/**
 The leader election of cluster.go as a step model: any finite number of processes, one broker, every
 interleaving of their broker calls.

 Assumptions built into the steps: the broker handles subscriptions and publications one at a time; a
 dropped subscription takes its undelivered messages with it; a crashed process does not come back under
 the same node number. A process that is detached (stopped, or cut off from the broker) goes on where it
 stands, unheard. The client library reconnects a process that was cut off and restores its subscriptions;
 what was sent to it meanwhile is lost. Two things are parameters: whether a request may time out while a
 live peer still owes an answer, `patient`, and at which points a detached process may come back, `back`.
 */
module Election {
  import opened Basics

  newtype Byte = x: int | 0 <= x < 256
  type Node = nat
  type Id = seq<Byte>

  // errorCount is a uint32 and wraps around.
  const WRAP: nat := 0x1_0000_0000

  /** Where a process stands in Start and asMaster. */
  datatype Pc = Idle | Proposing | Subscribed | Asked | Won | Master | Leaving | Lost | Crashed

  /** `ids` are the random node identifiers, `retry` is MasterRetryCount. With `patient`, a request times
      out only when no subscribed peer that would answer has yet to do so. `back` is where a process that was
      cut off may stand when it reconnects. */
  datatype Config = Config(ids: map<Node, Id>, retry: nat, patient: bool, back: set<Pc>) {
    ghost predicate Valid() { retry < WRAP }

    /** respondId stays silent when the request carries its own identifier. */
    predicate Answers(r: Node, n: Node)
      requires r in ids && n in ids
    {
      ids[r] != ids[n]
    }
  }

  /** `owed`: subscribers that received this node's proposal and have not handled it yet.
      `answered`: some reply to the proposal is waiting. */
  datatype Local = Local(pc: Pc, misses: nat, owed: set<Node>, answered: bool, detached: bool)

  datatype State = State(nodes: map<Node, Local>, proposeSubs: set<Node>, masterSubs: set<Node>)

  datatype Event =
    | PingAnswered(n: Node) | PingMissed(n: Node) | PingFailed(n: Node)
    | SubscribePropose(n: Node) | SubscribeProposeFails(n: Node)
    | Publish(n: Node) | Deliver(n: Node, peer: Node)
    | TakeReply(n: Node) | TimeOut(n: Node) | RequestFails(n: Node)
    | SubscribeMaster(n: Node) | SubscribeMasterFails(n: Node)
    | StartFnReturns(n: Node) | UnsubMaster(n: Node) | UnsubPropose(n: Node)
    | Detach(n: Node) | Attach(n: Node) | Crash(n: Node)

  function Bump(misses: nat): nat { (misses + 1) % WRAP }

  /** The program order of one process: where event `e` takes it, if it can happen there at all. */
  function NextPc(retry: nat, pc: Pc, misses: nat, e: Event): Option<Pc> {
    match (pc, e)
    case (Crashed, _) => None
    case (Idle, PingAnswered(_)) => Some(Idle)
    case (Idle, PingFailed(_)) => Some(Idle)
    case (Idle, PingMissed(_)) => Some(if Bump(misses) >= retry then Proposing else Idle)
    case (Proposing, SubscribePropose(_)) => Some(Subscribed)
    case (Proposing, SubscribeProposeFails(_)) => Some(Idle)
    case (Subscribed, Publish(_)) => Some(Asked)
    case (Subscribed, RequestFails(_)) => Some(Lost)
    case (Asked, Deliver(_, _)) => Some(Asked)
    case (Asked, TakeReply(_)) => Some(Lost)
    case (Asked, TimeOut(_)) => Some(Won)
    case (Asked, RequestFails(_)) => Some(Lost)
    case (Won, SubscribeMaster(_)) => Some(Master)
    case (Won, SubscribeMasterFails(_)) => Some(Lost)
    case (Master, StartFnReturns(_)) => Some(Leaving)
    case (Leaving, UnsubMaster(_)) => Some(Lost)
    case (Lost, UnsubPropose(_)) => Some(Idle)
    case (_, Detach(_)) => Some(pc)
    case (_, Attach(_)) => Some(pc)
    case (_, Crash(_)) => Some(Crashed)
    case _ => None
  }

  /** errorCount after event `e` of this process. */
  function NextMisses(misses: nat, e: Event): nat {
    match e
    case PingAnswered(_) => 0
    case PingMissed(_) => Bump(misses)
    case _ => misses
  }

  /** Some subscriber in `subs` would answer node `n`. */
  ghost predicate Answerable(c: Config, subs: set<Node>, n: Node) {
    exists r :: r in subs && r in c.ids && n in c.ids && c.Answers(r, n)
  }

  /** What the broker, and the timeout assumption, allow on top of program order. */
  ghost predicate BrokerAllows(c: Config, s: State, e: Event)
    requires e.n in s.nodes
  {
    var l := s.nodes[e.n];
    match e
    case PingAnswered(n) => !l.detached && Answerable(c, s.masterSubs, n)
    case PingMissed(n) => !l.detached && (c.patient ==> !Answerable(c, s.masterSubs, n))
    case SubscribePropose(_) => !l.detached
    case Publish(_) => !l.detached
    case Deliver(_, peer) => peer in l.owed
    case TakeReply(_) => !l.detached && l.answered
    case TimeOut(n) => !l.detached && !l.answered && (c.patient ==> !Answerable(c, l.owed, n))
    case SubscribeMaster(_) => !l.detached
    case Attach(_) => l.detached && l.pc in c.back
    case _ => true
  }

  ghost predicate Enabled(c: Config, s: State, e: Event) {
    && e.n in s.nodes && e.n in c.ids
    && NextPc(c.retry, s.nodes[e.n].pc, s.nodes[e.n].misses, e).Some?
    && (e.Deliver? ==> e.peer in c.ids)
    && BrokerAllows(c, s, e)
  }

  /** Dropping a subscription drops the messages still queued for it. */
  function Forget(nodes: map<Node, Local>, r: Node): map<Node, Local> {
    map n | n in nodes :: nodes[n].(owed := nodes[n].owed - {r})
  }

  function Moved(c: Config, s: State, e: Event): Local
    requires e.n in s.nodes
    requires NextPc(c.retry, s.nodes[e.n].pc, s.nodes[e.n].misses, e).Some?
  {
    var l := s.nodes[e.n];
    l.(pc := NextPc(c.retry, l.pc, l.misses, e).value, misses := NextMisses(l.misses, e))
  }

  ghost function Apply(c: Config, s: State, e: Event): State
    requires Enabled(c, s, e)
  {
    var l := Moved(c, s, e);
    match e
    case SubscribePropose(n) =>
      State(s.nodes[n := l], s.proposeSubs + {n}, s.masterSubs)
    case Publish(n) =>
      State(s.nodes[n := l.(owed := s.proposeSubs, answered := false)], s.proposeSubs, s.masterSubs)
    case Deliver(n, peer) =>
      State(s.nodes[n := l.(owed := l.owed - {peer}, answered := l.answered || (!l.detached && c.Answers(peer, n)))],
            s.proposeSubs, s.masterSubs)
    case SubscribeMaster(n) =>
      State(s.nodes[n := l], s.proposeSubs, s.masterSubs + {n})
    case UnsubMaster(n) =>
      State(s.nodes[n := l], s.proposeSubs, s.masterSubs - {n})
    case UnsubPropose(n) =>
      State(Forget(s.nodes[n := l], n), s.proposeSubs - {n}, s.masterSubs)
    case Detach(n) =>
      State(Forget(s.nodes[n := l.(detached := true, answered := false)], n), s.proposeSubs - {n}, s.masterSubs - {n})
    case Attach(n) =>
      State(s.nodes[n := l.(detached := false)],
            s.proposeSubs + if Subscribes(l.pc) then {n} else {}, s.masterSubs + if Announces(l.pc) then {n} else {})
    case Crash(n) =>
      State(Forget(s.nodes[n := l], n), s.proposeSubs - {n}, s.masterSubs - {n})
    case _ =>
      State(s.nodes[e.n := l], s.proposeSubs, s.masterSubs)
  }

  /** The client holds a subscription to proposals, and one to pings. */
  predicate Subscribes(pc: Pc) { pc.Subscribed? || pc.Asked? || pc.Won? || pc.Master? || pc.Leaving? || pc.Lost? }

  predicate Announces(pc: Pc) { pc.Master? || pc.Leaving? }

  ghost function Init(c: Config): State {
    State(map n | n in c.ids :: Local(Idle, 0, {}, false, false), {}, {})
  }

  /** An event moves its own node in program order and leaves everyone else where they stand. */
  lemma Moves(c: Config, s: State, e: Event, n: Node)
    requires Enabled(c, s, e) && n in s.nodes
    ensures var t := Apply(c, s, e);
            && n in t.nodes
            && (e.n == n ==> NextPc(c.retry, s.nodes[n].pc, s.nodes[n].misses, e) == Some(t.nodes[n].pc)
                             && t.nodes[n].misses == NextMisses(s.nodes[n].misses, e))
            && (e.n != n ==> t.nodes[n].pc == s.nodes[n].pc && t.nodes[n].misses == s.nodes[n].misses
                             && t.nodes[n].detached == s.nodes[n].detached
                             && t.nodes[n].answered == s.nodes[n].answered)
  {
  }

  /** The state a list of events leads to, if each of them can happen in turn. */
  ghost function Exec(c: Config, s: State, es: seq<Event>): Option<State>
    decreases |es|
  {
    if es == [] then Some(s)
    else if Enabled(c, s, es[0]) then Exec(c, Apply(c, s, es[0]), es[1..])
    else None
  }

  /** Between winning the proposal and giving up the mastership, and not stopped. */
  predicate Holds(l: Local) { (l.pc.Won? || l.pc.Master? || l.pc.Leaving?) && !l.detached }

  /** The same without the last part of it, when StartFn is over. */
  predicate Rules(l: Local) { (l.pc.Won? || l.pc.Master?) && !l.detached }

  ghost predicate Exclusive(s: State) {
    forall a, b :: a in s.nodes && b in s.nodes && Holds(s.nodes[a]) && Holds(s.nodes[b]) ==> a == b
  }

  ghost predicate AlwaysExclusive(c: Config) {
    forall es :: Exec(c, Init(c), es).Some? ==> Exclusive(Exec(c, Init(c), es).value)
  }

  /** Identifiers are pairwise distinct, requests wait for every live peer, and no process comes back between
      its request and the end of StartFn. A lone node needs none of this. */
  ghost predicate Steady(c: Config) {
    forall a, b :: a in c.ids && b in c.ids && a != b ==>
      c.patient && c.ids[a] != c.ids[b] && Asked !in c.back && Won !in c.back && Master !in c.back
  }

  /** Nor before it gave up its subscription to pings. */
  ghost predicate Sound(c: Config) {
    Steady(c) && forall a, b :: a in c.ids && b in c.ids && a != b ==> Leaving !in c.back
  }

  // ----- The invariant

  predicate Listening(l: Local) { Subscribes(l.pc) && !l.detached }

  predicate Announced(l: Local) { Announces(l.pc) && !l.detached }

  /** Has asked and may be, or become, master. One that comes back only to unsubscribe does not count. */
  predicate Asking(c: Config, l: Local) {
    (l.pc.Asked? || l.pc.Won? || l.pc.Master? || (l.pc.Leaving? && Leaving !in c.back)) && !l.detached
  }

  /** `b` is still waiting and cannot win before it hears from `a` or from someone else. */
  predicate Blocks(s: State, a: Node, b: Node)
    requires b in s.nodes
  {
    s.nodes[b].pc.Asked? && (a in s.nodes[b].owed || s.nodes[b].answered)
  }

  /** The broker's subscription tables agree with where each process stands. */
  ghost predicate Tables(c: Config, s: State) {
    && s.nodes.Keys == c.ids.Keys
    && s.proposeSubs <= s.nodes.Keys && s.masterSubs <= s.nodes.Keys
    && (forall n :: n in s.nodes ==> (n in s.proposeSubs <==> Listening(s.nodes[n])))
    && (forall n :: n in s.nodes ==> (n in s.masterSubs <==> Announced(s.nodes[n])))
  }

  /** Of two nodes that have both asked, the later one reached the earlier one's subscription. */
  ghost predicate Met(c: Config, s: State) {
    forall a, b :: a in s.nodes && b in s.nodes && a != b && Asking(c, s.nodes[a]) && Asking(c, s.nodes[b]) ==>
      Blocks(s, a, b) || Blocks(s, b, a)
  }

  ghost predicate Inv(c: Config, s: State) { Tables(c, s) && Met(c, s) }

  lemma RowStep(c: Config, s: State, e: Event, n: Node)
    requires Tables(c, s) && Enabled(c, s, e) && n in s.nodes
    ensures var t := Apply(c, s, e);
            && n in t.nodes
            && (n in t.proposeSubs <==> Listening(t.nodes[n]))
            && (n in t.masterSubs <==> Announced(t.nodes[n]))
  {
  }

  lemma TablesStep(c: Config, s: State, e: Event)
    requires Tables(c, s) && Enabled(c, s, e)
    ensures Tables(c, Apply(c, s, e))
  {
    var t := Apply(c, s, e);
    assert t.nodes.Keys == s.nodes.Keys;
    hide Listening, Announced;
    forall n | n in s.nodes
      ensures n in t.proposeSubs <==> Listening(t.nodes[n])
      ensures n in t.masterSubs <==> Announced(t.nodes[n])
    {
      RowStep(c, s, e, n);
    }
  }

  lemma MetStep(c: Config, s: State, e: Event, a: Node, b: Node)
    requires Steady(c) && Inv(c, s) && Enabled(c, s, e)
    requires a in s.nodes && b in s.nodes && a != b
    requires a in Apply(c, s, e).nodes && b in Apply(c, s, e).nodes
    requires Asking(c, Apply(c, s, e).nodes[a]) && Asking(c, Apply(c, s, e).nodes[b])
    ensures Blocks(Apply(c, s, e), a, b) || Blocks(Apply(c, s, e), b, a)
  {
    hide Apply, Enabled, Asking, Blocks, Steady, Tables;
    if e == Publish(a) {
      ReachesAsker(c, s, a, b);
    } else if e == Publish(b) {
      ReachesAsker(c, s, b, a);
    } else {
      AskedBefore(c, s, e, a, b);
      AskedBefore(c, s, e, b, a);
      if Blocks(s, a, b) { StaysBlocked(c, s, e, a, b); } else { StaysBlocked(c, s, e, b, a); }
    }
  }

  /** A proposal reaches everyone who has asked. */
  lemma ReachesAsker(c: Config, s: State, n: Node, m: Node)
    requires Tables(c, s) && Enabled(c, s, Publish(n)) && m in s.nodes && n != m
    requires m in Apply(c, s, Publish(n)).nodes && Asking(c, Apply(c, s, Publish(n)).nodes[m])
    ensures n in Apply(c, s, Publish(n)).nodes && Blocks(Apply(c, s, Publish(n)), m, n)
  {
    assert m in s.proposeSubs;
  }

  /** Nothing else makes a node one that has asked. */
  lemma AskedBefore(c: Config, s: State, e: Event, n: Node, m: Node)
    requires Steady(c) && Tables(c, s) && Enabled(c, s, e) && e != Publish(n) && n in s.nodes && m in s.nodes && m != n
    requires n in Apply(c, s, e).nodes && Asking(c, Apply(c, s, e).nodes[n])
    ensures Asking(c, s.nodes[n])
  {
    assert m in c.ids && n in c.ids && c.Answers(m, n);
    Moves(c, s, e, n);
  }

  /** A node that cannot win before it hears from `a` still cannot after any step, unless one of them left. */
  lemma StaysBlocked(c: Config, s: State, e: Event, a: Node, b: Node)
    requires Steady(c) && Tables(c, s) && Enabled(c, s, e) && a != b
    requires a in s.nodes && b in s.nodes && Blocks(s, a, b) && !(e.Publish? && e.n == b)
    requires a in Apply(c, s, e).nodes && b in Apply(c, s, e).nodes
    requires Asking(c, Apply(c, s, e).nodes[a]) && Asking(c, Apply(c, s, e).nodes[b])
    ensures Blocks(Apply(c, s, e), a, b)
  {
    if e.n == b {
      assert c.Answers(a, b);
      assert a in s.nodes[b].owed ==> Answerable(c, s.nodes[b].owed, b);
    } else {
      hide BrokerAllows, Tables, Steady;
      OthersOwe(c, s, e, b);
    }
  }

  /** Another node's step takes at most that node off the list of those who owe an answer, and only when it stops
      listening. */
  lemma OthersOwe(c: Config, s: State, e: Event, b: Node)
    requires Enabled(c, s, e) && b in s.nodes && e.n != b
    ensures var t := Apply(c, s, e);
            && b in t.nodes && t.nodes[b].pc == s.nodes[b].pc && t.nodes[b].answered == s.nodes[b].answered
            && s.nodes[b].owed - {e.n} <= t.nodes[b].owed
            && (e.n in s.nodes[b].owed && e.n !in t.nodes[b].owed ==> e.n in t.nodes && !Listening(t.nodes[e.n]))
  {
    hide BrokerAllows;
  }

  lemma InvStep(c: Config, s: State, e: Event)
    requires Steady(c) && Inv(c, s) && Enabled(c, s, e)
    ensures Inv(c, Apply(c, s, e))
  {
    TablesStep(c, s, e);
    var t := Apply(c, s, e);
    forall a, b | a in t.nodes && b in t.nodes && a != b && Asking(c, t.nodes[a]) && Asking(c, t.nodes[b])
      ensures Blocks(t, a, b) || Blocks(t, b, a)
    {
      MetStep(c, s, e, a, b);
    }
  }

  /** The invariant holds along every run, whatever the number of nodes and the interleaving. */
  lemma {:induction false} InvAlong(c: Config, s: State, es: seq<Event>)
    requires Steady(c) && Inv(c, s)
    ensures Exec(c, s, es).Some? ==> Inv(c, Exec(c, s, es).value)
    decreases |es|
  {
    if es != [] && Enabled(c, s, es[0]) {
      InvStep(c, s, es[0]);
      InvAlong(c, Apply(c, s, es[0]), es[1..]);
    }
  }

  lemma InvExcludes(c: Config, s: State)
    requires Inv(c, s)
    ensures Sound(c) ==> Exclusive(s)
    ensures forall a, b :: a in s.nodes && b in s.nodes && Rules(s.nodes[a]) && Rules(s.nodes[b]) ==> a == b
  {
    forall a, b | a in s.nodes && b in s.nodes && Asking(c, s.nodes[a]) && Asking(c, s.nodes[b])
      ensures a == b || s.nodes[a].pc.Asked? || s.nodes[b].pc.Asked?
    {
      assert a != b ==> Blocks(s, a, b) || Blocks(s, b, a);
    }
  }

  /** At most one live master, in every state of every run. */
  lemma MutualExclusion(c: Config)
    requires Sound(c)
    ensures AlwaysExclusive(c)
  {
    forall es | Exec(c, Init(c), es).Some?
      ensures Exclusive(Exec(c, Init(c), es).value)
    {
      InvAlong(c, Init(c), es);
      InvExcludes(c, Exec(c, Init(c), es).value);
    }
  }

  // ----- The converse: without distinct identifiers and patient timeouts there are runs with two masters

  lemma {:induction false} ExecThen(c: Config, s: State, es: seq<Event>, fs: seq<Event>)
    requires Exec(c, s, es).Some?
    ensures Exec(c, s, es + fs) == Exec(c, Exec(c, s, es).value, fs)
    decreases |es|
  {
    if es == [] {
      assert es + fs == fs;
    } else {
      assert (es + fs)[1..] == es[1..] + fs;
      ExecThen(c, Apply(c, s, es[0]), es[1..], fs);
    }
  }

  lemma One(c: Config, s: State, e: Event)
    requires Enabled(c, s, e)
    ensures Exec(c, s, [e]) == Some(Apply(c, s, e))
  {
    assert [e][1..] == [];
  }

  /** Only node `n`, and nothing but its own record, changed between `s` and `t`. */
  ghost predicate OnlyMoved(s: State, t: State, n: Node) {
    t.nodes.Keys == s.nodes.Keys && forall m :: m in s.nodes && m != n ==> t.nodes[m] == s.nodes[m]
  }

  predicate NobodyDetached(es: seq<Event>) { forall e :: e in es ==> !e.Detach? }

  predicate NobodyEnters(es: seq<Event>) { forall e :: e in es ==> !e.SubscribeMaster? }

  /** No subscriber would answer `n`, or requests do not wait. */
  ghost predicate Unopposed(c: Config, s: State, n: Node) {
    c.patient ==> !Answerable(c, s.masterSubs, n) && !Answerable(c, s.proposeSubs, n)
  }

  lemma {:induction false} GivesUpOnMaster(c: Config, s: State, n: Node) returns (es: seq<Event>)
    requires c.Valid() && n in s.nodes && n in c.ids && Unopposed(c, s, n)
    requires s.nodes[n].pc.Idle? && !s.nodes[n].detached && (s.nodes[n].misses == 0 || s.nodes[n].misses < c.retry)
    ensures Exec(c, s, es).Some?
    ensures var t := Exec(c, s, es).value;
            && OnlyMoved(s, t, n) && t.nodes[n].pc.Proposing? && !t.nodes[n].detached
            && t.proposeSubs == s.proposeSubs && t.masterSubs == s.masterSubs
    ensures NobodyDetached(es) && NobodyEnters(es)
    decreases c.retry - s.nodes[n].misses
  {
    var e := PingMissed(n);
    var t := Apply(c, s, e);
    One(c, s, e);
    es := [e];
    if t.nodes[n].pc.Idle? {
      var rest := GivesUpOnMaster(c, t, n);
      ExecThen(c, s, es, rest);
      es := es + rest;
    }
  }

  /** A node that nobody answers becomes master, leaving everyone else as they were. */
  lemma BecomesMaster(c: Config, s: State, n: Node) returns (es: seq<Event>)
    requires c.Valid() && n in s.nodes && n in c.ids && Unopposed(c, s, n)
    requires s.nodes[n].pc.Idle? && !s.nodes[n].detached && s.nodes[n].misses == 0
    ensures Exec(c, s, es).Some?
    ensures var t := Exec(c, s, es).value;
            && OnlyMoved(s, t, n) && t.nodes[n].pc.Master? && !t.nodes[n].detached
            && t.proposeSubs == s.proposeSubs + {n} && t.masterSubs == s.masterSubs + {n}
    ensures NobodyDetached(es)
  {
    hide Exec, NobodyDetached, Enabled, Apply;
    es := WinsProposal(c, s, n);
    var t := Exec(c, s, es).value;
    Enters(c, t, n);
    ExecThen(c, s, es, [SubscribeMaster(n)]);
    es := AddPlain(es, SubscribeMaster(n));
  }

  /** Up to the moment it has asked. */
  lemma Asks(c: Config, s: State, n: Node) returns (es: seq<Event>)
    requires c.Valid() && n in s.nodes && n in c.ids && Unopposed(c, s, n)
    requires s.nodes[n].pc.Idle? && !s.nodes[n].detached && s.nodes[n].misses == 0
    ensures Exec(c, s, es).Some? && NobodyDetached(es) && NobodyEnters(es)
    ensures var t := Exec(c, s, es).value;
            && OnlyMoved(s, t, n) && t.nodes[n].pc.Asked? && !t.nodes[n].detached && !t.nodes[n].answered
            && t.nodes[n].owed == s.proposeSubs + {n}
            && t.proposeSubs == s.proposeSubs + {n} && t.masterSubs == s.masterSubs
  {
    es := GivesUpOnMaster(c, s, n);
    hide Exec;
    var t := Exec(c, s, es).value;
    var t1 := Apply(c, t, SubscribePropose(n));
    One(c, t, SubscribePropose(n));
    One(c, t1, Publish(n));
    hide Enabled, Apply;
    ExecThen(c, s, es, [SubscribePropose(n)]);
    ExecThen(c, s, es + [SubscribePropose(n)], [Publish(n)]);
    es := es + [SubscribePropose(n)] + [Publish(n)];
  }

  /** Up to the end of its request. */
  lemma WinsProposal(c: Config, s: State, n: Node) returns (es: seq<Event>)
    requires c.Valid() && n in s.nodes && n in c.ids && Unopposed(c, s, n)
    requires s.nodes[n].pc.Idle? && !s.nodes[n].detached && s.nodes[n].misses == 0
    ensures Exec(c, s, es).Some? && NobodyDetached(es) && NobodyEnters(es)
    ensures var t := Exec(c, s, es).value;
            && OnlyMoved(s, t, n) && t.nodes[n].pc.Won? && !t.nodes[n].detached
            && t.proposeSubs == s.proposeSubs + {n} && t.masterSubs == s.masterSubs
  {
    hide Exec;
    es := Asks(c, s, n);
    var t := Exec(c, s, es).value;
    One(c, t, TimeOut(n));
    ExecThen(c, s, es, [TimeOut(n)]);
    es := es + [TimeOut(n)];
  }

  lemma Enters(c: Config, s: State, n: Node)
    requires n in s.nodes && n in c.ids && s.nodes[n].pc.Won? && !s.nodes[n].detached
    ensures Enabled(c, s, SubscribeMaster(n))
            && Exec(c, s, [SubscribeMaster(n)]) == Some(Apply(c, s, SubscribeMaster(n)))
    ensures var t := Apply(c, s, SubscribeMaster(n));
            && OnlyMoved(s, t, n) && t.nodes[n].pc.Master? && !t.nodes[n].detached
            && t.proposeSubs == s.proposeSubs && t.masterSubs == s.masterSubs + {n}
  {
    One(c, s, SubscribeMaster(n));
  }

  lemma AddPlain(es: seq<Event>, e: Event) returns (fs: seq<Event>)
    requires NobodyDetached(es) && !e.Detach?
    ensures fs == es + [e] && NobodyDetached(fs)
  {
    fs := es + [e];
  }

  lemma Together(es: seq<Event>, fs: seq<Event>)
    requires NobodyDetached(es) && NobodyDetached(fs)
    ensures NobodyDetached(es + fs)
  {
  }

  /** Two nodes with the same identifier, or requests that give up early, end in two masters. */
  lemma TwoMasters(c: Config, a: Node, b: Node) returns (es: seq<Event>)
    requires c.Valid() && a in c.ids && b in c.ids && a != b && !(c.patient && c.ids[a] != c.ids[b])
    ensures Exec(c, Init(c), es).Some?
    ensures var t := Exec(c, Init(c), es).value;
            a in t.nodes && b in t.nodes && t.nodes[a].pc.Master? && t.nodes[b].pc.Master? &&
            !t.nodes[a].detached && !t.nodes[b].detached
    ensures NobodyDetached(es)
  {
    var first := BecomesMaster(c, Init(c), a);
    var t := Exec(c, Init(c), first).value;
    var second := BecomesMaster(c, t, b);
    ExecThen(c, Init(c), first, second);
    es := first + second;
  }

  /** A master that is stopped or cut off stays in StartFn while the election, however sound, lets another in. */
  lemma DetachedBesideMaster(c: Config, a: Node, b: Node) returns (es: seq<Event>)
    requires c.Valid() && a in c.ids && b in c.ids && a != b
    ensures Exec(c, Init(c), es).Some? && Detach(a) in es
    ensures var t := Exec(c, Init(c), es).value;
            a in t.nodes && b in t.nodes && t.nodes[a].pc.Master? && t.nodes[b].pc.Master?
  {
    var first := BecomesMaster(c, Init(c), a);
    var t := Exec(c, Init(c), first).value;
    One(c, t, Detach(a));
    ExecThen(c, Init(c), first, [Detach(a)]);
    var u := Apply(c, t, Detach(a));
    AfterDetach(c, t, a, b);
    var second := BecomesMaster(c, u, b);
    hide Exec, Apply, Enabled;
    ExecThen(c, Init(c), first + [Detach(a)], second);
    es := first + [Detach(a)] + second;
  }

  lemma AfterDetach(c: Config, s: State, a: Node, b: Node)
    requires Enabled(c, s, Detach(a)) && a != b && a in s.nodes && b in s.nodes && b in c.ids
    requires s.nodes[a].pc.Master? && s.proposeSubs == {a} && s.masterSubs == {a}
    requires s.nodes[b].pc.Idle? && s.nodes[b].misses == 0 && !s.nodes[b].detached
    ensures var u := Apply(c, s, Detach(a));
            && a in u.nodes && b in u.nodes && u.nodes[a].pc.Master?
            && u.nodes[b].pc.Idle? && u.nodes[b].misses == 0 && !u.nodes[b].detached && Unopposed(c, u, b)
  {
    assert {a} - {a} == {};
  }

  // ----- Coming back

  ghost predicate Stray(s: State, n: Node) { n in s.nodes && s.nodes[n].pc.Master? && s.nodes[n].detached }

  ghost predicate NoStray(s: State) { forall n :: !Stray(s, n) }

  /** Nobody enters StartFn while a detached process is still in it. */
  ghost predicate HandsOver(c: Config, s: State, es: seq<Event>)
    decreases |es|
  {
    es != [] && Enabled(c, s, es[0]) ==>
      (es[0].SubscribeMaster? ==> NoStray(s)) && HandsOver(c, Apply(c, s, es[0]), es[1..])
  }

  lemma {:induction false} HandsOverThen(c: Config, s: State, es: seq<Event>, fs: seq<Event>)
    requires Exec(c, s, es).Some? && HandsOver(c, s, es) && HandsOver(c, Exec(c, s, es).value, fs)
    ensures HandsOver(c, s, es + fs)
    decreases |es|
  {
    hide Enabled, Apply, NoStray;
    if es == [] {
      assert es + fs == fs;
    } else {
      assert (es + fs)[1..] == es[1..] + fs;
      HandsOverThen(c, Apply(c, s, es[0]), es[1..], fs);
    }
  }

  lemma StillNoStray(c: Config, s: State, e: Event)
    requires NoStray(s) && Enabled(c, s, e) && !e.Detach?
    ensures NoStray(Apply(c, s, e))
  {
    forall n | n in s.nodes && n != e.n ensures !Stray(Apply(c, s, e), n) {
      Moves(c, s, e, n);
      assert !Stray(s, n);
    }
    assert !Stray(s, e.n);
  }

  lemma {:induction false} WithoutStrays(c: Config, s: State, es: seq<Event>)
    requires NoStray(s) && NobodyDetached(es)
    ensures HandsOver(c, s, es)
    decreases |es|
  {
    hide Apply, NoStray;
    if es != [] && Enabled(c, s, es[0]) {
      assert es[0] in es;
      StillNoStray(c, s, es[0]);
      WithoutStrays(c, Apply(c, s, es[0]), es[1..]);
    }
  }

  lemma {:induction false} WithoutEntries(c: Config, s: State, es: seq<Event>)
    requires NobodyEnters(es)
    ensures HandsOver(c, s, es)
    decreases |es|
  {
    hide Apply, NoStray;
    if es != [] && Enabled(c, s, es[0]) {
      assert es[0] in es;
      WithoutEntries(c, Apply(c, s, es[0]), es[1..]);
    }
  }

  /** `a` was cut off where `pc` says, on its own so far, and has missed whatever came. */
  ghost predicate CutOff(c: Config, s: State, a: Node, pc: Pc) {
    && s.nodes.Keys == c.ids.Keys && a in s.nodes && s.nodes[a].pc == pc && s.nodes[a].detached
    && !s.nodes[a].answered && (pc.Asked? ==> s.nodes[a].owed == {})
    && s.proposeSubs == {} && s.masterSubs == {}
    && forall m :: m in s.nodes && m != a ==> s.nodes[m] == Local(Idle, 0, {}, false, false)
  }

  /** `a` gets to one of four points from the start. */
  lemma Gets(c: Config, a: Node, pc: Pc) returns (es: seq<Event>)
    requires c.Valid() && a in c.ids && (pc.Asked? || pc.Won? || pc.Master? || pc.Leaving?)
    ensures Exec(c, Init(c), es).Some? && NobodyDetached(es)
    ensures var s := Exec(c, Init(c), es).value;
            && OnlyMoved(Init(c), s, a) && s.nodes[a].pc == pc && !s.nodes[a].detached
            && (pc.Asked? ==> s.nodes[a].owed == {a})
            && s.proposeSubs == {a} && s.masterSubs <= {a}
  {
    hide Exec;
    if pc.Asked? {
      es := Asks(c, Init(c), a);
    } else if pc.Won? {
      es := WinsProposal(c, Init(c), a);
    } else {
      es := BecomesMaster(c, Init(c), a);
      if pc.Leaving? {
        One(c, Exec(c, Init(c), es).value, StartFnReturns(a));
        ExecThen(c, Init(c), es, [StartFnReturns(a)]);
        es := AddPlain(es, StartFnReturns(a));
      }
    }
  }

  lemma GetsCutOff(c: Config, a: Node, pc: Pc) returns (es: seq<Event>)
    requires c.Valid() && a in c.ids && (pc.Asked? || pc.Won? || pc.Master? || pc.Leaving?)
    ensures Exec(c, Init(c), es).Some? && HandsOver(c, Init(c), es) && CutOff(c, Exec(c, Init(c), es).value, a, pc)
  {
    hide Exec, HandsOver;
    var fs := Gets(c, a, pc);
    var s := Exec(c, Init(c), fs).value;
    One(c, s, Detach(a));
    ExecThen(c, Init(c), fs, [Detach(a)]);
    WithoutStrays(c, Init(c), fs);
    WithoutEntries(c, s, [Detach(a)]);
    HandsOverThen(c, Init(c), fs, [Detach(a)]);
    es := fs + [Detach(a)];
  }

  lemma Nobody(c: Config, s: State, a: Node, b: Node, pc: Pc)
    requires CutOff(c, s, a, pc) && b in c.ids && a != b
    ensures Unopposed(c, s, b) && b in s.nodes && s.nodes[b] == Local(Idle, 0, {}, false, false)
    ensures !pc.Master? ==> NoStray(s)
  {
  }

  /** Cut off from StartFn, it comes back between its successor's request and entry. */
  lemma BackInStartFn(c: Config, s: State, a: Node, b: Node) returns (es: seq<Event>)
    requires c.Valid() && CutOff(c, s, a, Master) && b in c.ids && a != b && Master in c.back
    ensures Exec(c, s, es).Some? && HandsOver(c, s, es) && TwoRule(Exec(c, s, es).value, a, b)
  {
    hide Exec, HandsOver;
    Nobody(c, s, a, b, Master);
    var fs := WinsProposal(c, s, b);
    var t := Exec(c, s, fs).value;
    WithoutEntries(c, s, fs);
    var u := Apply(c, t, Attach(a));
    One(c, t, Attach(a));
    WithoutEntries(c, t, [Attach(a)]);
    Enters(c, u, b);
    assert NoStray(u);
    WithoutStrays(c, u, [SubscribeMaster(b)]);
    hide Apply, Enabled, CutOff;
    HandsOverThen(c, t, [Attach(a)], [SubscribeMaster(b)]);
    ExecThen(c, t, [Attach(a)], [SubscribeMaster(b)]);
    HandsOverThen(c, s, fs, [Attach(a)] + [SubscribeMaster(b)]);
    ExecThen(c, s, fs, [Attach(a)] + [SubscribeMaster(b)]);
    es := fs + ([Attach(a)] + [SubscribeMaster(b)]);
  }

  ghost predicate TwoRule(s: State, a: Node, b: Node) {
    && a in s.nodes && s.nodes[a].pc.Master? && !s.nodes[a].detached
    && b in s.nodes && s.nodes[b].pc.Master? && !s.nodes[b].detached
  }

  /** Cut off after its request, it comes back beside the master and goes on as if nobody had answered. */
  lemma BackAfterAsking(c: Config, s: State, a: Node, b: Node, pc: Pc) returns (es: seq<Event>)
    requires c.Valid() && CutOff(c, s, a, pc) && b in c.ids && a != b && (pc.Asked? || pc.Won?) && pc in c.back
    ensures Exec(c, s, es).Some? && HandsOver(c, s, es) && TwoRule(Exec(c, s, es).value, a, b)
  {
    hide Exec, HandsOver;
    Nobody(c, s, a, b, pc);
    var fs := BecomesMaster(c, s, b);
    var t := Exec(c, s, fs).value;
    var u := Apply(c, t, Attach(a));
    One(c, t, Attach(a));
    var rest := GoesOn(c, u, a);
    hide Apply, Enabled, CutOff;
    ExecThen(c, t, [Attach(a)], rest);
    ExecThen(c, s, fs, [Attach(a)] + rest);
    es := fs + ([Attach(a)] + rest);
    WithoutStrays(c, s, es);
  }

  lemma GoesOn(c: Config, s: State, a: Node) returns (es: seq<Event>)
    requires a in s.nodes && a in c.ids && !s.nodes[a].detached
    requires s.nodes[a].pc.Won? || (s.nodes[a].pc.Asked? && s.nodes[a].owed == {} && !s.nodes[a].answered)
    ensures Exec(c, s, es).Some? && NobodyDetached(es)
    ensures var t := Exec(c, s, es).value; OnlyMoved(s, t, a) && t.nodes[a].pc.Master? && !t.nodes[a].detached
  {
    hide Exec;
    if s.nodes[a].pc.Won? {
      Enters(c, s, a);
      es := [SubscribeMaster(a)];
    } else {
      var t := Apply(c, s, TimeOut(a));
      One(c, s, TimeOut(a));
      Enters(c, t, a);
      ExecThen(c, s, [TimeOut(a)], [SubscribeMaster(a)]);
      es := [TimeOut(a)] + [SubscribeMaster(a)];
    }
  }

  /** However sound the election otherwise: a process that comes back after its request and before the end of
      StartFn ends up as master beside another one, although nobody entered beside a detached master. */
  lemma ComesBack(c: Config, a: Node, b: Node, pc: Pc) returns (es: seq<Event>)
    requires c.Valid() && a in c.ids && b in c.ids && a != b && pc in c.back && (pc.Asked? || pc.Won? || pc.Master?)
    ensures Exec(c, Init(c), es).Some? && HandsOver(c, Init(c), es) && TwoRule(Exec(c, Init(c), es).value, a, b)
  {
    hide Exec, HandsOver, CutOff, TwoRule;
    var fs := GetsCutOff(c, a, pc);
    var s := Exec(c, Init(c), fs).value;
    var rest;
    if pc.Master? { rest := BackInStartFn(c, s, a, b); } else { rest := BackAfterAsking(c, s, a, b, pc); }
    ExecThen(c, Init(c), fs, rest);
    HandsOverThen(c, Init(c), fs, rest);
    es := fs + rest;
  }

  /** One that comes back before it gave up its subscription to pings stands beside its successor. */
  lemma ComesBackLeaving(c: Config, a: Node, b: Node) returns (es: seq<Event>)
    requires c.Valid() && a in c.ids && b in c.ids && a != b && Leaving in c.back
    ensures Exec(c, Init(c), es).Some?
    ensures var t := Exec(c, Init(c), es).value;
            a in t.nodes && b in t.nodes && t.nodes[a].pc.Leaving? && t.nodes[b].pc.Master? &&
            !t.nodes[a].detached && !t.nodes[b].detached
  {
    hide Exec;
    var fs := GetsCutOff(c, a, Leaving);
    var s := Exec(c, Init(c), fs).value;
    Nobody(c, s, a, b, Leaving);
    var gs := BecomesMaster(c, s, b);
    var t := Exec(c, s, gs).value;
    One(c, t, Attach(a));
    ExecThen(c, Init(c), fs, gs);
    ExecThen(c, Init(c), fs + gs, [Attach(a)]);
    es := fs + gs + [Attach(a)];
  }

  /** The election excludes a second master in every run exactly when the identifiers are pairwise distinct, no
      request gives up on a live peer, and no process that was cut off comes back between its request and the
      end of its mastership. */
  lemma ExclusionExactly(c: Config)
    requires c.Valid()
    ensures AlwaysExclusive(c) <==>
            |c.ids| <= 1 ||
            ((forall a, b :: a in c.ids && b in c.ids && a != b ==> c.ids[a] != c.ids[b]) &&
             c.patient && c.back !! {Asked, Won, Master, Leaving})
  {
    hide Exec;
    SoundMeans(c);
    if Sound(c) {
      MutualExclusion(c);
    } else {
      var a, b := Spoilers(c);
      var es;
      if !(c.patient && c.ids[a] != c.ids[b]) {
        es := TwoMasters(c, a, b);
      } else if Leaving in c.back {
        es := ComesBackLeaving(c, a, b);
      } else {
        es := ComesBack(c, a, b, Point(c));
      }
      assert !Exclusive(Exec(c, Init(c), es).value);
    }
  }

  /** One node, or distinct identifiers and the rest: the same without naming two nodes. */
  lemma SoundMeans(c: Config)
    ensures Steady(c) <==>
            |c.ids| <= 1 ||
            ((forall a, b :: a in c.ids && b in c.ids && a != b ==> c.ids[a] != c.ids[b]) &&
             c.patient && c.back !! {Asked, Won, Master})
    ensures Sound(c) <==>
            |c.ids| <= 1 ||
            ((forall a, b :: a in c.ids && b in c.ids && a != b ==> c.ids[a] != c.ids[b]) &&
             c.patient && c.back !! {Asked, Won, Master, Leaving})
  {
    if |c.ids| <= 1 {
      forall a, b | a in c.ids && b in c.ids ensures a == b { AtMostOneKey(c.ids, a, b); }
    } else {
      var a, b := TwoKeys(c.ids);
    }
  }

  lemma AtMostOneKey(m: map<Node, Id>, a: Node, b: Node)
    requires |m| <= 1 && a in m && b in m
    ensures a == b
  {
    if a != b {
      assert {a, b} <= m.Keys;
      SubsetSize({a, b}, m.Keys);
    }
  }

  lemma {:induction false} SubsetSize(a: set<Node>, b: set<Node>)
    requires a <= b
    ensures |a| <= |b|
  {
    assert b == a + (b - a);
  }

  lemma TwoKeys(m: map<Node, Id>) returns (a: Node, b: Node)
    requires |m| > 1
    ensures a in m && b in m && a != b
  {
    assert |m.Keys| > 1;
    a :| a in m.Keys;
    assert m.Keys == {a} + (m.Keys - {a});
    assert m.Keys - {a} != {};
    b :| b in m.Keys - {a};
  }

  /** A waiting process that is connected has an answer after a peer handled its proposal exactly if it had one
      before, or the peer's identifier is another one. */
  lemma DeliveryAnswers(c: Config, s: State, n: Node, peer: Node)
    requires Enabled(c, s, Deliver(n, peer)) && !s.nodes[n].detached
    ensures n in Apply(c, s, Deliver(n, peer)).nodes
    ensures Apply(c, s, Deliver(n, peer)).nodes[n].answered <==> s.nodes[n].answered || c.ids[n] != c.ids[peer]
    ensures Apply(c, s, Deliver(n, peer)).nodes[n].owed == s.nodes[n].owed - {peer}
  {
  }

  /** A ping of a connected process can be answered exactly if some subscribed master carries another identifier;
      and it can be missed exactly if none does, or requests do not wait. */
  lemma PingExactly(c: Config, s: State, n: Node)
    requires n in s.nodes && n in c.ids && s.nodes[n].pc.Idle? && !s.nodes[n].detached
    ensures var answerer := exists r :: r in s.masterSubs && r in c.ids && c.ids[r] != c.ids[n];
            && (Enabled(c, s, PingAnswered(n)) <==> answerer)
            && (Enabled(c, s, PingMissed(n)) <==> !c.patient || !answerer)
  {
    assert Answerable(c, s.masterSubs, n) <==> exists r :: r in s.masterSubs && r in c.ids && c.ids[r] != c.ids[n];
  }

  /** A connected process that waits for answers to its proposal loses exactly if one came; it can win exactly if
      none did, and none is owed by a peer with another identifier or requests do not wait. */
  lemma ProposalExactly(c: Config, s: State, n: Node)
    requires n in s.nodes && n in c.ids && s.nodes[n].pc.Asked? && !s.nodes[n].detached
    ensures var owed := exists r :: r in s.nodes[n].owed && r in c.ids && c.ids[r] != c.ids[n];
            && (Enabled(c, s, TakeReply(n)) <==> s.nodes[n].answered)
            && (Enabled(c, s, TimeOut(n)) <==> !s.nodes[n].answered && (!c.patient || !owed))
    ensures Enabled(c, s, TakeReply(n)) ==> Apply(c, s, TakeReply(n)).nodes[n].pc.Lost?
    ensures Enabled(c, s, TimeOut(n)) ==> Apply(c, s, TimeOut(n)).nodes[n].pc.Won?
  {
    assert Answerable(c, s.nodes[n].owed, n)
           <==> exists r :: r in s.nodes[n].owed && r in c.ids && c.ids[r] != c.ids[n];
  }

  function Point(c: Config): Pc { if Asked in c.back then Asked else if Won in c.back then Won else Master }

  lemma Spoilers(c: Config) returns (a: Node, b: Node)
    requires !Sound(c)
    ensures a in c.ids && b in c.ids && a != b
    ensures c.patient && c.ids[a] != c.ids[b] && Leaving !in c.back ==> Point(c) in c.back
    ensures !Steady(c) && c.patient && c.ids[a] != c.ids[b] ==> Point(c) in c.back
  {
    if Steady(c) {
      a, b :| a in c.ids && b in c.ids && a != b && Leaving in c.back;
    } else {
      a, b :| a in c.ids && b in c.ids && a != b
              && !(c.patient && c.ids[a] != c.ids[b] && Asked !in c.back && Won !in c.back && Master !in c.back);
    }
  }

  // ----- Pinging

  /** Missed pings of `n` since its last answered one; failed pings neither count nor reset. */
  function MissesSince(es: seq<Event>, n: Node): nat {
    if es == [] then 0
    else
      var e, before := es[|es| - 1], MissesSince(es[..|es| - 1], n);
      if e == PingAnswered(n) then 0 else if e == PingMissed(n) then before + 1 else before
  }

  lemma {:induction false} ExecSplit(c: Config, s: State, es: seq<Event>, fs: seq<Event>)
    requires Exec(c, s, es + fs).Some?
    ensures Exec(c, s, es).Some?
    decreases |es|
  {
    if es != [] {
      assert (es + fs)[1..] == es[1..] + fs;
      ExecSplit(c, Apply(c, s, es[0]), es[1..], fs);
    }
  }

  /** The error count is the number of missed pings since the last answer, modulo 2^32. */
  lemma {:induction false} ErrorCount(c: Config, es: seq<Event>, n: Node)
    requires n in c.ids && Exec(c, Init(c), es).Some?
    ensures var t := Exec(c, Init(c), es).value;
            n in t.nodes && t.nodes[n].misses == MissesSince(es, n) % WRAP
    decreases |es|
  {
    if es != [] {
      hide Exec;
      var k := |es| - 1;
      LastStep(c, es);
      ErrorCount(c, es[..k], n);
      Moves(c, Exec(c, Init(c), es[..k]).value, es[k], n);
      hide Apply, Enabled, NextPc;
      BumpCounts(MissesSince(es[..k], n));
    }
  }

  /** The last event of a run happens in the state the others lead to. */
  lemma LastStep(c: Config, es: seq<Event>)
    requires es != [] && Exec(c, Init(c), es).Some?
    ensures Exec(c, Init(c), es[..|es| - 1]).Some?
    ensures var s := Exec(c, Init(c), es[..|es| - 1]).value; var e := es[|es| - 1];
            Enabled(c, s, e) && Exec(c, Init(c), es).value == Apply(c, s, e)
  {
    hide Enabled, Apply;
    var k := |es| - 1;
    assert es == es[..k] + [es[k]];
    ExecSplit(c, Init(c), es[..k], [es[k]]);
    ExecThen(c, Init(c), es[..k], [es[k]]);
    assert [es[k]][1..] == [];
  }

  lemma BumpCounts(k: nat)
    ensures Bump(k % WRAP) == (k + 1) % WRAP == (k + 1) % 0x1_0000_0000
  {
  }

  /** A missed ping makes a node propose exactly when its wrapped count reaches the retry limit, and that
      takes at least max(1, retry) missed pings since the last answer. */
  lemma ProposesExactly(c: Config, es: seq<Event>, n: Node)
    requires n in c.ids && Exec(c, Init(c), es + [PingMissed(n)]).Some?
    ensures var t := Exec(c, Init(c), es + [PingMissed(n)]).value;
            var count := MissesSince(es + [PingMissed(n)], n);
            && n in t.nodes
            && (t.nodes[n].pc.Proposing? <==> count % WRAP >= c.retry)
            && (t.nodes[n].pc.Proposing? ==> count >= 1 && count >= c.retry)
  {
    hide Exec;
    var e := PingMissed(n);
    assert (es + [e])[..|es|] == es;
    LastStep(c, es + [e]);
    ErrorCount(c, es, n);
    ErrorCount(c, es + [e], n);
  }

  /** `m` stays subscribed as master in every state along the run. */
  ghost predicate MasterThroughout(c: Config, s: State, es: seq<Event>, m: Node)
    decreases |es|
  {
    m in s.masterSubs &&
    (es != [] && Enabled(c, s, es[0]) ==> MasterThroughout(c, Apply(c, s, es[0]), es[1..], m))
  }

  lemma StaysQuiet(c: Config, s: State, e: Event, m: Node, n: Node)
    requires Steady(c) && Tables(c, s) && Enabled(c, s, e) && m in s.masterSubs
    requires n in s.nodes && n != m && s.nodes[n].pc.Idle?
    ensures e != PingMissed(n) && e != SubscribePropose(n)
    ensures n in Apply(c, s, e).nodes && (Apply(c, s, e).nodes[n].pc.Idle? || Apply(c, s, e).nodes[n].pc.Crashed?)
  {
    assert c.Answers(m, n);
    assert Answerable(c, s.masterSubs, n);
    Moves(c, s, e, n);
  }

  /** While a live master is subscribed no other node misses a ping, so none that was idle proposes. */
  lemma {:induction false} LiveMasterBlocksProposals(c: Config, s: State, es: seq<Event>, m: Node, n: Node)
    requires Steady(c) && Inv(c, s) && Exec(c, s, es).Some? && MasterThroughout(c, s, es, m)
    requires n in s.nodes && n != m && s.nodes[n].pc.Idle?
    ensures PingMissed(n) !in es && SubscribePropose(n) !in es
    ensures n in Exec(c, s, es).value.nodes
    ensures Exec(c, s, es).value.nodes[n].pc.Idle? || Exec(c, s, es).value.nodes[n].pc.Crashed?
    decreases |es|
  {
    if es != [] {
      var t := Apply(c, s, es[0]);
      InvStep(c, s, es[0]);
      StaysQuiet(c, s, es[0], m, n);
      assert es == [es[0]] + es[1..];
      hide Apply, Enabled, Inv, Steady;
      if t.nodes[n].pc.Idle? {
        LiveMasterBlocksProposals(c, t, es[1..], m, n);
      } else {
        CrashedStays(c, t, es[1..], n);
      }
    }
  }

  lemma {:induction false} CrashedStays(c: Config, s: State, es: seq<Event>, n: Node)
    requires Exec(c, s, es).Some? && n in s.nodes && s.nodes[n].pc.Crashed?
    ensures PingMissed(n) !in es && SubscribePropose(n) !in es
    ensures n in Exec(c, s, es).value.nodes && Exec(c, s, es).value.nodes[n].pc.Crashed?
    decreases |es|
  {
    if es != [] {
      assert es == [es[0]] + es[1..];
      CrashedStays(c, Apply(c, s, es[0]), es[1..], n);
    }
  }
}
