/**
 One process of cluster.go: the fields Start, asMaster and Stop update, and the broker steps they take.
 The environment's answers are parameters; `trace` records the steps as events of the election model.
 */
module ClusterNode {
  import opened Basics
  import opened Election

  /** The outcome of a NATS request. */
  datatype RequestResult = Reply(id: Id) | NoResponders | Timeout | OtherError {
    /** noResponders: a timeout counts only while the connection is up. */
    predicate Missed(connected: bool) { NoResponders? || (Timeout? && connected) }
  }

  /** What the environment does to one asMaster call; `sent` tells of a request that errs whether it still
      reached the broker. */
  datatype Attempt = Attempt(subscribes: bool, ask: RequestResult, connected: bool, sent: bool, announces: bool,
                             startFails: bool) {
    predicate Wins() { subscribes && ask.Missed(connected) && announces }
    /** asMaster hands back the error of whatever it did last. */
    predicate Fails() {
      !subscribes || (!ask.Reply? && !ask.Missed(connected)) || (ask.Missed(connected) && (!announces || startFails))
    }
  }

  /** One turn of Start's loop: the ping, and the proposal in case it comes to one. */
  datatype Round = Round(ping: RequestResult, connected: bool, attempt: Attempt) {
    predicate Missed() { ping.Missed(connected) }
  }

  /** Missed pings at the end of `rs`, back to the last answered one. */
  function MissedSince(rs: seq<Round>): nat {
    if rs == [] then 0
    else
      var r, before := rs[|rs| - 1], MissedSince(rs[..|rs| - 1]);
      if r.ping.Reply? then 0 else if r.Missed() then before + 1 else before
  }

  function Wrapped(rs: seq<Round>): nat { MissedSince(rs) % WRAP }

  /** Round `k` missed its ping, and that made the wrapped count reach the limit. */
  predicate Due(rs: seq<Round>, k: nat, retry: nat)
    requires k < |rs|
  {
    rs[k].Missed() && Wrapped(rs[..k + 1]) >= retry
  }

  lemma MissedOneMore(rs: seq<Round>, k: nat, retry: nat)
    requires k < |rs|
    ensures Wrapped(rs[..k + 1])
         == if rs[k].ping.Reply? then 0 else if rs[k].Missed() then Bump(Wrapped(rs[..k])) else Wrapped(rs[..k])
    ensures Due(rs, k, retry) <==> rs[k].Missed() && Bump(Wrapped(rs[..k])) >= retry
  {
    assert rs[..k + 1][..k] == rs[..k];
    BumpCounts(MissedSince(rs[..k]));
  }

  /** A process following program order through `es`, from `pc` and error count `misses`. */
  function LocalRun(retry: nat, pc: Pc, misses: nat, es: seq<Event>): Option<(Pc, nat)>
    decreases |es|
  {
    if es == [] then Some((pc, misses))
    else
      match NextPc(retry, pc, misses, es[0])
      case None => None
      case Some(next) => LocalRun(retry, next, NextMisses(misses, es[0]), es[1..])
  }

  lemma {:induction false} LocalThen(retry: nat, pc: Pc, misses: nat, es: seq<Event>, fs: seq<Event>)
    requires LocalRun(retry, pc, misses, es).Some?
    ensures var mid := LocalRun(retry, pc, misses, es).value;
            LocalRun(retry, pc, misses, es + fs) == LocalRun(retry, mid.0, mid.1, fs)
    decreases |es|
  {
    if es == [] {
      assert es + fs == fs;
    } else {
      assert (es + fs)[1..] == es[1..] + fs;
      LocalThen(retry, NextPc(retry, pc, misses, es[0]).value, NextMisses(misses, es[0]), es[1..], fs);
    }
  }

  /** The steps of `n` within a run of the whole cluster. */
  function Own(es: seq<Event>, n: Node): seq<Event> {
    if es == [] then [] else Own(es[..|es| - 1], n) + (if es[|es| - 1].n == n then [es[|es| - 1]] else [])
  }

  /** In every run of the cluster each node follows its own program order, and the election model knows
      exactly where it stands. */
  lemma {:induction false} RunsFollowProgramOrder(c: Config, es: seq<Event>, n: Node)
    requires n in c.ids && Exec(c, Init(c), es).Some?
    ensures var t := Exec(c, Init(c), es).value;
            n in t.nodes && LocalRun(c.retry, Idle, 0, Own(es, n)) == Some((t.nodes[n].pc, t.nodes[n].misses))
    decreases |es|
  {
    if es != [] {
      hide Exec;
      var k := |es| - 1;
      LastStep(c, es);
      var s := Exec(c, Init(c), es[..k]).value;
      hide Enabled, Apply, NextPc;
      RunsFollowProgramOrder(c, es[..k], n);
      Moves(c, s, es[k], n);
      if es[k].n == n {
        LocalThen(c.retry, Idle, 0, Own(es[..k], n), [es[k]]);
        LocalCons(c.retry, s.nodes[n].pc, s.nodes[n].misses, es[k], []);
        assert [es[k]] + [] == [es[k]];
      } else {
        assert Own(es, n) == Own(es[..k], n);
      }
    }
  }

  /** A client-side subscription handle: never made, live, or unsubscribed (the pointer stays set). */
  datatype Subscription = NotSet | Live | Dropped

  class Cluster {
    const me: Node
    const retry: nat
    var errorCount: nat
    var proposedSub: Subscription
    var masterSub: Subscription
    var stopped: bool
    var suspensions: nat
    var trace: seq<Event>

    constructor (me: Node, retry: nat)
      requires retry < WRAP
      ensures this.me == me && this.retry == retry && errorCount == 0 && Quiet() && !stopped
      ensures trace == [] && suspensions == 0
    {
      this.me, this.retry := me, retry;
      errorCount, proposedSub, masterSub, stopped, suspensions, trace := 0, NotSet, NotSet, false, 0, [];
    }

    predicate Quiet() reads this { !proposedSub.Live? && !masterSub.Live? }

    method UnsubPropose()
      modifies this`proposedSub
      ensures proposedSub == if old(proposedSub).NotSet? then NotSet else Dropped
    {
      if !proposedSub.NotSet? { proposedSub := Dropped; }
    }

    method UnsubMaster()
      modifies this`masterSub
      ensures masterSub == if old(masterSub).NotSet? then NotSet else Dropped
    {
      if !masterSub.NotSet? { masterSub := Dropped; }
    }

    /** One proposal: whatever happens, both subscriptions are gone at the end. */
    method AsMaster(a: Attempt) returns (failed: bool)
      requires Quiet()
      modifies this`proposedSub, this`masterSub, this`trace
      ensures Quiet()
      ensures failed == a.Fails()
      ensures trace == old(trace) + Steps(me, a)
      ensures var silent := a.ask.NoResponders? || (a.ask.Timeout? && a.connected);
              && (StartFnReturns(me) in trace[|old(trace)|..] <==> a.subscribes && silent && a.announces)
              && (failed <==> if !a.subscribes then true else if a.ask.Reply? then false
                              else if silent then !a.announces || a.startFails else true)
    {
      var done: seq<Event>;
      if a.subscribes {
        proposedSub := Live;
        if a.ask.Reply? {
          done, failed := [Publish(me), TakeReply(me)], false;
        } else if a.ask.Missed(a.connected) {
          if a.announces {
            masterSub := Live;
            failed := a.startFails;
            done := [Publish(me), TimeOut(me), SubscribeMaster(me), StartFnReturns(me), Event.UnsubMaster(me)];
            UnsubMaster();
          } else {
            masterSub, failed := NotSet, true;
            done := [Publish(me), TimeOut(me), SubscribeMasterFails(me)];
          }
        } else {
          done, failed := (if a.sent then [Publish(me)] else []) + [RequestFails(me)], true;
        }
        UnsubPropose();
        done := [SubscribePropose(me)] + done + [Event.UnsubPropose(me)];
      } else {
        proposedSub, failed := NotSet, true;
        done := [SubscribeProposeFails(me)];
      }
      assert done == Steps(me, a);
      Outcome(me, a);
      trace := trace + done;
      assert trace[|old(trace)|..] == done;
    }

    /** One turn of Start's loop. */
    method Turn(r: Round) returns (proposed: bool)
      requires Quiet()
      modifies this`proposedSub, this`masterSub, this`trace, this`errorCount, this`suspensions
      ensures Quiet()
      ensures errorCount == if r.ping.Reply? then 0 else if r.Missed() then Bump(old(errorCount)) else old(errorCount)
      ensures proposed <==> r.Missed() && errorCount >= retry
      ensures suspensions == old(suspensions) + if proposed && r.attempt.Fails() then 1 else 0
      ensures trace == old(trace) + TurnSteps(me, retry, old(errorCount), r)
      ensures var missed := r.ping.NoResponders? || (r.ping.Timeout? && r.connected);
              && errorCount == (if r.ping.Reply? then 0 else if missed then Bump(old(errorCount)) else old(errorCount))
              && (proposed <==> missed && errorCount >= retry)
    {
      hide Steps, Attempt.Fails;
      proposed := false;
      if r.ping.Reply? {
        if errorCount > 0 { errorCount := 0; }
        trace := trace + [PingAnswered(me)];
      } else if r.Missed() {
        errorCount := (errorCount + 1) % WRAP;
        trace := trace + [PingMissed(me)];
        if errorCount >= retry {
          proposed := true;
          var failed := AsMaster(r.attempt);
          if failed { suspensions := suspensions + 1; }
        }
      } else {
        trace := trace + [PingFailed(me)];
      }
    }

    /** Start's loop over the given rounds, then the stop signal. A round proposes exactly when its ping is
        missed and the wrapped count since the last answer has reached the retry limit (Due); the whole trace is
        a run of this process in the election model. */
    method Start(rounds: seq<Round>) returns (proposed: seq<bool>)
      requires Quiet() && errorCount == 0 && trace == [] && suspensions == 0 && retry < WRAP
      modifies this
      ensures |proposed| == |rounds| && Quiet()
      ensures forall k :: 0 <= k < |rounds| ==>
                (proposed[k] <==> Due(rounds, k, retry))
      ensures LocalRun(retry, Idle, 0, trace) == Some((Idle, errorCount))
      ensures errorCount == Wrapped(rounds)
      ensures suspensions == 1 + Failures(rounds, proposed)
    {
      assert LocalRun(retry, Idle, 0, []) == Some((Idle, 0));
      assert rounds[..0] == [] && Wrapped([]) == 0 && Failures([], []) == 0;
      hide LocalRun, TurnSteps, NextPc, Attempt.Fails, RequestResult.Missed, Wrapped, Due, Failures, Bump;
      proposed := [];
      var k := 0;
      while k < |rounds|
        invariant 0 <= k <= |rounds| && |proposed| == k && Quiet()
        invariant forall j :: 0 <= j < k ==>
                    (proposed[j] <==> Due(rounds, j, retry))
        invariant errorCount == Wrapped(rounds[..k])
        invariant LocalRun(retry, Idle, 0, trace) == Some((Idle, errorCount))
        invariant suspensions == Failures(rounds[..k], proposed)
      {
        MissedOneMore(rounds, k, retry);
        TurnObeys(me, retry, errorCount, rounds[k]);
        LocalThen(retry, Idle, 0, trace, TurnSteps(me, retry, errorCount, rounds[k]));
        var p := Turn(rounds[k]);
        FailuresOneMore(rounds, k, proposed, p);
        proposed := proposed + [p];
        k := k + 1;
      }
      assert rounds[..|rounds|] == rounds;
      suspensions := suspensions + 1;
    }

    /** Stop drops both subscriptions at once. In the election model that moves the process nowhere: a StartFn
        that is at work goes on. */
    method Stop()
      modifies this`stopped, this`proposedSub, this`masterSub, this`trace
      ensures stopped && Quiet() && trace == old(trace) + [Detach(me)]
      ensures forall pc: Pc, misses: nat :: !pc.Crashed? ==>
                LocalRun(retry, pc, misses, [Detach(me)]) == Some((pc, misses))
      ensures proposedSub.NotSet? == old(proposedSub.NotSet?) && masterSub.NotSet? == old(masterSub.NotSet?)
    {
      stopped := true;
      UnsubPropose();
      UnsubMaster();
      trace := trace + [Detach(me)];
      assert [Detach(me)][1..] == [];
    }
  }

  /** The proposals among `rs` that ended in an error; each of them suspends the work. */
  function Failures(rs: seq<Round>, proposed: seq<bool>): nat
    requires |rs| == |proposed|
  {
    if rs == [] then 0
    else
      var k := |rs| - 1;
      Failures(rs[..k], proposed[..k]) + if proposed[k] && rs[k].attempt.Fails() then 1 else 0
  }

  lemma FailuresOneMore(rs: seq<Round>, k: nat, proposed: seq<bool>, p: bool)
    requires k < |rs| && |proposed| == k
    ensures Failures(rs[..k + 1], proposed + [p])
         == Failures(rs[..k], proposed) + if p && rs[k].attempt.Fails() then 1 else 0
  {
    assert (proposed + [p])[..k] == proposed && rs[..k + 1][..k] == rs[..k];
  }

  /** The broker steps of one asMaster call, last part first: what follows the master subscription, what
      follows the propose subscription, and the whole. */
  ghost function Reign(n: Node, a: Attempt): seq<Event> {
    if a.announces then [SubscribeMaster(n)] + ([StartFnReturns(n)] + ([UnsubMaster(n)] + [UnsubPropose(n)]))
    else [SubscribeMasterFails(n)] + [UnsubPropose(n)]
  }

  ghost function Inquiry(n: Node, a: Attempt): seq<Event> {
    if a.ask.Reply? then [Publish(n)] + ([TakeReply(n)] + [UnsubPropose(n)])
    else if a.ask.Missed(a.connected) then [Publish(n)] + ([TimeOut(n)] + Reign(n, a))
    else if a.sent then [Publish(n)] + ([RequestFails(n)] + [UnsubPropose(n)])
    else [RequestFails(n)] + [UnsubPropose(n)]
  }

  ghost function Steps(n: Node, a: Attempt): seq<Event> {
    if a.subscribes then [SubscribePropose(n)] + Inquiry(n, a) else [SubscribeProposeFails(n)]
  }

  lemma LocalCons(retry: nat, pc: Pc, misses: nat, e: Event, es: seq<Event>)
    requires NextPc(retry, pc, misses, e).Some?
    ensures LocalRun(retry, pc, misses, [e] + es)
         == LocalRun(retry, NextPc(retry, pc, misses, e).value, NextMisses(misses, e), es)
  {
    assert ([e] + es)[1..] == es;
  }

  lemma ReignObeys(n: Node, a: Attempt, retry: nat, misses: nat)
    ensures LocalRun(retry, Won, misses, Reign(n, a)) == Some((Idle, misses))
  {
    LocalCons(retry, Lost, misses, UnsubPropose(n), []);
    if a.announces {
      LocalCons(retry, Leaving, misses, UnsubMaster(n), [UnsubPropose(n)]);
      LocalCons(retry, Master, misses, StartFnReturns(n), [UnsubMaster(n)] + [UnsubPropose(n)]);
      LocalCons(retry, Won, misses, SubscribeMaster(n),
                [StartFnReturns(n)] + ([UnsubMaster(n)] + [UnsubPropose(n)]));
    } else {
      LocalCons(retry, Won, misses, SubscribeMasterFails(n), [UnsubPropose(n)]);
    }
  }

  lemma InquiryObeys(n: Node, a: Attempt, retry: nat, misses: nat)
    ensures LocalRun(retry, Subscribed, misses, Inquiry(n, a)) == Some((Idle, misses))
  {
    LocalCons(retry, Lost, misses, UnsubPropose(n), []);
    if a.ask.Reply? {
      LocalCons(retry, Asked, misses, TakeReply(n), [UnsubPropose(n)]);
      LocalCons(retry, Subscribed, misses, Publish(n), [TakeReply(n)] + [UnsubPropose(n)]);
    } else if a.ask.Missed(a.connected) {
      ReignObeys(n, a, retry, misses);
      LocalCons(retry, Asked, misses, TimeOut(n), Reign(n, a));
      LocalCons(retry, Subscribed, misses, Publish(n), [TimeOut(n)] + Reign(n, a));
    } else if a.sent {
      LocalCons(retry, Asked, misses, RequestFails(n), [UnsubPropose(n)]);
      LocalCons(retry, Subscribed, misses, Publish(n), [RequestFails(n)] + [UnsubPropose(n)]);
    } else {
      LocalCons(retry, Subscribed, misses, RequestFails(n), [UnsubPropose(n)]);
    }
  }

  /** Every outcome of asMaster follows the program order of the election model back to idle, and StartFn
      runs exactly when the attempt subscribed, heard nobody, and announced itself. */
  lemma StepsObey(n: Node, a: Attempt, retry: nat, misses: nat)
    ensures LocalRun(retry, Proposing, misses, Steps(n, a)) == Some((Idle, misses))
    ensures StartFnReturns(n) in Steps(n, a) <==> a.Wins()
  {
    if a.subscribes {
      InquiryObeys(n, a, retry, misses);
      LocalCons(retry, Proposing, misses, SubscribePropose(n), Inquiry(n, a));
      if a.Wins() {
        assert Steps(n, a)[4] == StartFnReturns(n);
      }
    } else {
      LocalCons(retry, Proposing, misses, SubscribeProposeFails(n), []);
    }
  }

  /** When a proposal reaches StartFn, and when it ends in an error, by what the broker answers. */
  lemma Outcome(n: Node, a: Attempt)
    ensures var silent := a.ask.NoResponders? || (a.ask.Timeout? && a.connected);
            && (StartFnReturns(n) in Steps(n, a) <==> a.subscribes && silent && a.announces)
            && (a.Fails() <==> if !a.subscribes then true else if a.ask.Reply? then false
                               else if silent then !a.announces || a.startFails else true)
  {
    StepsObey(n, a, 0, 0);
    hide Steps;
  }

  /** The broker steps of one turn, for a process whose error count is `misses` before it. */
  ghost function TurnSteps(n: Node, retry: nat, misses: nat, r: Round): seq<Event> {
    if r.ping.Reply? then [PingAnswered(n)]
    else if !r.Missed() then [PingFailed(n)]
    else [PingMissed(n)] + if Bump(misses) >= retry then Steps(n, r.attempt) else []
  }

  lemma TurnObeys(n: Node, retry: nat, misses: nat, r: Round)
    ensures LocalRun(retry, Idle, misses, TurnSteps(n, retry, misses, r))
         == Some((Idle, if r.ping.Reply? then 0 else if r.Missed() then Bump(misses) else misses))
  {
    if r.ping.Reply? {
      LocalCons(retry, Idle, misses, PingAnswered(n), []);
    } else if !r.Missed() {
      LocalCons(retry, Idle, misses, PingFailed(n), []);
    } else if Bump(misses) >= retry {
      StepsObey(n, r.attempt, retry, Bump(misses));
      LocalCons(retry, Idle, misses, PingMissed(n), Steps(n, r.attempt));
    } else {
      LocalCons(retry, Idle, misses, PingMissed(n), []);
    }
  }
}
