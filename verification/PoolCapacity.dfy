/** Which requests can get the pool stuck: an exact condition on those that arrive. */
module PoolCapacity {
  import opened Wrappers
  import opened SessionPool
  import opened PoolSafety
  import opened PoolProgress

  /** The requests that have an authority, by the order of their arrival. */
  function Addressed(targets: seq<Option<Authority>>): set<nat>
  {
    set t: nat | t < |targets| && targets[t].Some?
  }

  function ShardOf(c: Config, targets: seq<Option<Authority>>, t: nat): nat
  {
    if t < |targets| && targets[t].Some? then c.shard(targets[t].value) else 0
  }

  /** The shards their authorities hash to. */
  function Shards(c: Config, targets: seq<Option<Authority>>): set<nat>
  {
    set t: nat | t in Addressed(targets) :: ShardOf(c, targets, t)
  }

  /** Requests that cannot be the first at their shard. */
  function Surplus(c: Config, targets: seq<Option<Authority>>): int
  {
    |Addressed(targets)| - |Shards(c, targets)|
  }

  /** These events bring these requests, and leave work that no task can go on with. */
  ghost predicate GetsStuck(c: Config, targets: seq<Option<Authority>>, events: seq<Event>)
  {
    && Targets(events) == targets
    && var w := Exec(c, EMPTY, events);
       w.Some? && Unfinished(w.value) != {} && !CanProgress(c, w.value)
  }

  // Only if: of the requests at one shard, one at least is not blocked.

  /** A task has the authority its request came with, until it is done. */
  predicate Comes(p: Phase, target: Option<Authority>)
  {
    match p
    case Created(t) => t == target
    case Done(_) => true
    case _ => target == Some(p.authority)
  }

  ghost predicate AllCome(w: World, targets: seq<Option<Authority>>)
  {
    |w.tasks| == |targets| && forall t: nat :: t < |targets| ==> Comes(w.tasks[t], targets[t])
  }

  lemma StepComes(c: Config, w: World, e: Event, targets: seq<Option<Authority>>)
    requires AllCome(w, targets) && Enabled(c, w, e)
    ensures AllCome(Step(c, w, e), if e.Arrive? then targets + [e.target] else targets)
  {
    if !e.Arrive? {
      StepMovesOne(c, w, e);
      assert Comes(w.tasks[e.task], targets[e.task]);
      assert Comes(Step(c, w, e).tasks[e.task], targets[e.task]);
    }
  }

  lemma {:induction false} RunComes(c: Config, events: seq<Event>)
    requires Exec(c, EMPTY, events).Some?
    ensures AllCome(Exec(c, EMPTY, events).value, Targets(events))
    decreases |events|
  {
    if events != [] {
      var init := events[..|events| - 1];
      RunComes(c, init);
      StepComes(c, Exec(c, EMPTY, init).value, events[|events| - 1], Targets(init));
    }
  }

  /** A set all of whose members `f` hits from `from` is no larger than `from`. */
  lemma {:induction false} ImageCard(f: nat -> nat, from: set<nat>, image: set<nat>)
    requires forall s :: s in image ==> exists t :: t in from && f(t) == s
    ensures |image| <= |from|
    decreases |image|
  {
    if s :| s in image {
      var t :| t in from && f(t) == s;
      forall r | r in image - {s} ensures exists u :: u in from - {t} && f(u) == r {
        var u :| u in from && f(u) == r;
        assert u in from - {t};
      }
      ImageCard(f, from - {t}, image - {s});
    }
  }

  /** At each shard some request that came for it is not blocked: the one that holds it, if it is held. */
  lemma ShardHasFreeTask(c: Config, w: World, targets: seq<Option<Authority>>, t: nat) returns (u: nat)
    requires Inv(c, w) && AllCome(w, targets) && t in Addressed(targets)
    ensures u in Addressed(targets) - Blocked(c, w) && ShardOf(c, targets, u) == ShardOf(c, targets, t)
  {
    u := t;
    assert Comes(w.tasks[t], targets[t]);
    if t in Blocked(c, w) {
      u := w.locks[c.shard(w.tasks[t].authority)];
      assert Comes(w.tasks[u], targets[u]);
    }
  }

  lemma BlockedWithinSurplus(c: Config, w: World, targets: seq<Option<Authority>>)
    requires Inv(c, w) && AllCome(w, targets)
    ensures |Blocked(c, w)| <= Surplus(c, targets)
  {
    var all, blocked := Addressed(targets), Blocked(c, w);
    var f := t => ShardOf(c, targets, t);
    forall t | t in blocked ensures t in all {
      assert Comes(w.tasks[t], targets[t]);
    }
    forall s | s in Shards(c, targets) ensures exists u :: u in all - blocked && f(u) == s {
      var t :| t in all && ShardOf(c, targets, t) == s;
      var u := ShardHasFreeTask(c, w, targets, t);
      assert f(u) == s;
    }
    ImageCard(f, all - blocked, Shards(c, targets));
    SubsetCard(blocked, all);
    assert |all - blocked| == |all| - |blocked|;
  }

  lemma StuckHasSurplus(c: Config, targets: seq<Option<Authority>>, events: seq<Event>)
    requires GetsStuck(c, targets, events)
    ensures targets != [] && Surplus(c, targets) >= c.workers
  {
    var w := Exec(c, EMPTY, events).value;
    assert Reachable(c, w);
    ReachableInv(c, w);
    RunComes(c, events);
    StuckIffWorkersBlocked(c, w);
    BlockedWithinSurplus(c, w, targets);
  }

  // If: each request in turn goes as far as it can, but no connect ever completes.

  /**
   The first request at each shard is suspended in `connect`, others wait for it, and the rest have not begun.
   The waiting ones are all that run.
   */
  ghost predicate Queued(c: Config, w: World, targets: seq<Option<Authority>>)
  {
    && AllCome(w, targets) && w.pool == map[]
    && (forall t: nat :: t < |w.tasks| ==> w.tasks[t].Created? || w.tasks[t].Connecting? || t in Blocked(c, w))
    && RunningTasks(w.tasks) == Blocked(c, w)
  }

  /** While workers last, each shard is held, and the requests beyond the first wait; then every worker is taken. */
  ghost predicate WorkersTaken(c: Config, blocked: nat, locked: set<nat>, targets: seq<Option<Authority>>)
  {
    if blocked < c.workers then locked == Shards(c, targets) && blocked == Surplus(c, targets)
    else blocked == c.workers <= Surplus(c, targets)
  }

  ghost predicate Jammed(c: Config, w: World, targets: seq<Option<Authority>>)
  {
    Queued(c, w, targets) && WorkersTaken(c, |Blocked(c, w)|, w.locks.Keys, targets)
  }

  lemma {:induction false} ExecConcat(c: Config, w: World, a: seq<Event>, b: seq<Event>)
    requires Exec(c, w, a).Some?
    ensures Exec(c, w, a + b) == Exec(c, Exec(c, w, a).value, b)
    ensures Targets(a + b) == Targets(a) + Targets(b)
    decreases |b|
  {
    if b == [] {
      assert a + b == a;
    } else {
      ExecConcat(c, w, a, b[..|b| - 1]);
      assert (a + b)[..|a + b| - 1] == a + b[..|b| - 1];
    }
  }

  lemma TargetsOf(target: Option<Authority>, t: nat)
    ensures Targets([Arrive(target)]) == [target]
    ensures Targets([Arrive(target), Enter(t)]) == [target]
    ensures Targets([Arrive(target), Enter(t), Acquire(t)]) == [target]
  {
    var e1, e2, e3 := [Arrive(target)], [Arrive(target), Enter(t)], [Arrive(target), Enter(t), Acquire(t)];
    assert e1[..0] == [] && e2[..1] == e1 && e3[..2] == e2;
  }

  lemma ShardsGrow(c: Config, targets: seq<Option<Authority>>, target: Option<Authority>)
    ensures Shards(c, targets + [target]) == Shards(c, targets) + if target.Some? then {c.shard(target.value)} else {}
  {
    var more := targets + [target];
    forall s | s in Shards(c, targets) ensures s in Shards(c, more) {
      var t :| t in Addressed(targets) && ShardOf(c, targets, t) == s;
      assert t in Addressed(more) && ShardOf(c, more, t) == s;
    }
    forall s | s in Shards(c, more) ensures s in Shards(c, targets) || (target.Some? && s == c.shard(target.value)) {
      var t :| t in Addressed(more) && ShardOf(c, more, t) == s;
      if t < |targets| {
        assert t in Addressed(targets) && ShardOf(c, targets, t) == s;
      }
    }
    if target.Some? {
      assert |targets| in Addressed(more) && ShardOf(c, more, |targets|) == c.shard(target.value);
    }
  }

  lemma SurplusGrows(c: Config, targets: seq<Option<Authority>>, target: Option<Authority>)
    ensures Surplus(c, targets + [target]) ==
            Surplus(c, targets) + if target.Some? && c.shard(target.value) in Shards(c, targets) then 1 else 0
  {
    var more := targets + [target];
    ShardsGrow(c, targets, target);
    if target.Some? {
      assert Addressed(more) == Addressed(targets) + {|targets|};
      if c.shard(target.value) in Shards(c, targets) {
        assert Shards(c, more) == Shards(c, targets);
      }
    } else {
      assert Addressed(more) == Addressed(targets);
      assert Shards(c, more) == Shards(c, targets);
    }
  }

  /** A request that nobody takes up. */
  lemma Unstarted(c: Config, w: World, targets: seq<Option<Authority>>, target: Option<Authority>)
    requires Queued(c, w, targets)
    ensures var v := w.(tasks := w.tasks + [Created(target)]);
            && Exec(c, w, [Arrive(target)]) == Some(v)
            && Queued(c, v, targets + [target]) && Blocked(c, v) == Blocked(c, w)
  {
    var v := w.(tasks := w.tasks + [Created(target)]);
    ExecMore(c, w, [], Arrive(target));
    assert [] + [Arrive(target)] == [Arrive(target)];
    RunningAfterArrival(w.tasks, target);
    assert Blocked(c, v) == Blocked(c, w);
  }

  lemma BlockedAfterConnecting(c: Config, w: World, targets: seq<Option<Authority>>, a: Authority)
    requires Queued(c, w, targets) && c.shard(a) !in w.locks
    ensures var v := w.(tasks := w.tasks + [Connecting(a)], locks := w.locks[c.shard(a) := |w.tasks|]);
            && Blocked(c, v) == Blocked(c, w) && RunningTasks(v.tasks) == RunningTasks(w.tasks)
  {
    forall t: nat | t < |w.tasks| && w.tasks[t].Entering? ensures t in Blocked(c, w) {
    }
  }

  /** The first request at its shard. */
  lemma Connects(c: Config, w: World, targets: seq<Option<Authority>>, a: Authority)
    requires Queued(c, w, targets) && |Blocked(c, w)| < c.workers && c.shard(a) !in w.locks
    ensures var v := w.(tasks := w.tasks + [Connecting(a)], locks := w.locks[c.shard(a) := |w.tasks|]);
            && Exec(c, w, [Arrive(Some(a)), Enter(|w.tasks|), Acquire(|w.tasks|)]) == Some(v)
            && Queued(c, v, targets + [Some(a)]) && Blocked(c, v) == Blocked(c, w)
  {
    FreeShardConnects(c, w, a);
    BlockedAfterConnecting(c, w, targets, a);
  }

  lemma BlockedAfterEntering(c: Config, w: World, a: Authority)
    requires c.shard(a) in w.locks
    ensures var v := w.(tasks := w.tasks + [Entering(a)]);
            && Blocked(c, v) == Blocked(c, w) + {|w.tasks|} && RunningTasks(v.tasks) == RunningTasks(w.tasks) + {|w.tasks|}
  {
  }

  /** A further request at a shard that is held. */
  lemma Waits(c: Config, w: World, targets: seq<Option<Authority>>, a: Authority)
    requires Queued(c, w, targets) && |Blocked(c, w)| < c.workers && c.shard(a) in w.locks
    ensures var v := w.(tasks := w.tasks + [Entering(a)]);
            && Exec(c, w, [Arrive(Some(a)), Enter(|w.tasks|)]) == Some(v)
            && Queued(c, v, targets + [Some(a)]) && Blocked(c, v) == Blocked(c, w) + {|w.tasks|}
  {
    NewRequestEnters(c, w, Some(a));
    BlockedAfterEntering(c, w, a);
  }

  lemma TakenByOneMore(c: Config, blocked: nat, locked: set<nat>, targets: seq<Option<Authority>>, target: Option<Authority>)
    requires WorkersTaken(c, blocked, locked, targets)
    ensures target.None? || blocked >= c.workers ==> WorkersTaken(c, blocked, locked, targets + [target])
    ensures target.Some? && blocked < c.workers ==>
              if c.shard(target.value) in locked then WorkersTaken(c, blocked + 1, locked, targets + [target])
              else WorkersTaken(c, blocked, locked + {c.shard(target.value)}, targets + [target])
  {
    ShardsGrow(c, targets, target);
    SurplusGrows(c, targets, target);
    if target.Some? && c.shard(target.value) in locked {
      assert locked + {c.shard(target.value)} == locked;
    }
  }

  /** These events bring this one request more, and leave the pool jammed again. */
  ghost predicate JamsOn(c: Config, w: World, targets: seq<Option<Authority>>, target: Option<Authority>, events: seq<Event>)
  {
    && Targets(events) == [target]
    && var v := Exec(c, w, events);
       v.Some? && Jammed(c, v.value, targets + [target])
  }

  lemma TakenByWaiting(c: Config, w: World, targets: seq<Option<Authority>>, a: Authority)
    requires WorkersTaken(c, |Blocked(c, w)|, w.locks.Keys, targets) && |Blocked(c, w)| < c.workers && c.shard(a) in w.locks
    ensures WorkersTaken(c, |Blocked(c, w) + {|w.tasks|}|, w.locks.Keys, targets + [Some(a)])
  {
    TakenByOneMore(c, |Blocked(c, w)|, w.locks.Keys, targets, Some(a));
    assert |w.tasks| !in Blocked(c, w);
  }

  lemma JamWaiting(c: Config, w: World, targets: seq<Option<Authority>>, a: Authority)
    requires Jammed(c, w, targets) && |Blocked(c, w)| < c.workers && c.shard(a) in w.locks
    ensures JamsOn(c, w, targets, Some(a), [Arrive(Some(a)), Enter(|w.tasks|)])
  {
    TakenByWaiting(c, w, targets, a);
    TargetsOf(Some(a), |w.tasks|);
    Waits(c, w, targets, a);
  }

  lemma TakenByConnecting(c: Config, w: World, targets: seq<Option<Authority>>, a: Authority)
    requires WorkersTaken(c, |Blocked(c, w)|, w.locks.Keys, targets) && |Blocked(c, w)| < c.workers && c.shard(a) !in w.locks
    ensures WorkersTaken(c, |Blocked(c, w)|, w.locks[c.shard(a) := |w.tasks|].Keys, targets + [Some(a)])
  {
    TakenByOneMore(c, |Blocked(c, w)|, w.locks.Keys, targets, Some(a));
    assert w.locks[c.shard(a) := |w.tasks|].Keys == w.locks.Keys + {c.shard(a)};
  }

  lemma JamConnecting(c: Config, w: World, targets: seq<Option<Authority>>, a: Authority)
    requires Jammed(c, w, targets) && |Blocked(c, w)| < c.workers && c.shard(a) !in w.locks
    ensures JamsOn(c, w, targets, Some(a), [Arrive(Some(a)), Enter(|w.tasks|), Acquire(|w.tasks|)])
  {
    TakenByConnecting(c, w, targets, a);
    TargetsOf(Some(a), |w.tasks|);
    Connects(c, w, targets, a);
  }

  lemma JamUnstarted(c: Config, w: World, targets: seq<Option<Authority>>, target: Option<Authority>)
    requires Jammed(c, w, targets) && (target.None? || |Blocked(c, w)| >= c.workers)
    ensures JamsOn(c, w, targets, target, [Arrive(target)])
  {
    Unstarted(c, w, targets, target);
    TakenByOneMore(c, |Blocked(c, w)|, w.locks.Keys, targets, target);
    TargetsOf(target, 0);
  }

  lemma JamOneMore(c: Config, w: World, targets: seq<Option<Authority>>, target: Option<Authority>) returns (events: seq<Event>)
    requires Jammed(c, w, targets)
    ensures JamsOn(c, w, targets, target, events)
  {
    if target.None? || |Blocked(c, w)| >= c.workers {
      JamUnstarted(c, w, targets, target);
      events := [Arrive(target)];
    } else if c.shard(target.value) in w.locks {
      JamWaiting(c, w, targets, target.value);
      events := [Arrive(target), Enter(|w.tasks|)];
    } else {
      JamConnecting(c, w, targets, target.value);
      events := [Arrive(target), Enter(|w.tasks|), Acquire(|w.tasks|)];
    }
  }

  lemma {:induction false} Jam(c: Config, targets: seq<Option<Authority>>) returns (events: seq<Event>)
    ensures Targets(events) == targets
    ensures Exec(c, EMPTY, events).Some? && Jammed(c, Exec(c, EMPTY, events).value, targets)
    decreases |targets|
  {
    if targets == [] {
      events := [];
      assert Blocked(c, EMPTY) == RunningTasks(EMPTY.tasks) == {};
      assert Addressed([]) == {} && Shards(c, []) == {} && EMPTY.locks.Keys == {};
    } else {
      var init, last := targets[..|targets| - 1], targets[|targets| - 1];
      var before := Jam(c, init);
      var more := JamOneMore(c, Exec(c, EMPTY, before).value, init, last);
      ExecConcat(c, EMPTY, before, more);
      assert init + [last] == targets;
      events := before + more;
    }
  }

  lemma SurplusGetsStuck(c: Config, targets: seq<Option<Authority>>) returns (events: seq<Event>)
    requires targets != [] && Surplus(c, targets) >= c.workers
    ensures GetsStuck(c, targets, events)
  {
    events := Jam(c, targets);
    var w := Exec(c, EMPTY, events).value;
    assert Reachable(c, w);
    assert 0 in Unfinished(w);
    StuckIffWorkersBlocked(c, w);
  }

  /**
   Some run of these requests gets stuck with work left if and only if there are any, and those with an authority
   outnumber the shards they hash to by the number of workers or more.
   */
  lemma CanGetStuckIffSurplus(c: Config, targets: seq<Option<Authority>>)
    ensures (exists events :: GetsStuck(c, targets, events)) <==> targets != [] && Surplus(c, targets) >= c.workers
  {
    if targets != [] && Surplus(c, targets) >= c.workers {
      var events := SurplusGetsStuck(c, targets);
    }
    forall events | GetsStuck(c, targets, events) ensures targets != [] && Surplus(c, targets) >= c.workers {
      StuckHasSurplus(c, targets, events);
    }
  }

  // One task more than workers is enough: all of them at one authority.

  function Repeated(a: Authority, n: nat): (r: seq<Option<Authority>>)
    ensures |r| == n
  {
    if n == 0 then [] else Repeated(a, n - 1) + [Some(a)]
  }

  lemma {:induction false} RepeatedSurplus(c: Config, a: Authority, n: nat)
    ensures Surplus(c, Repeated(a, n)) == if n == 0 then 0 else n - 1
    ensures Shards(c, Repeated(a, n)) == if n == 0 then {} else {c.shard(a)}
  {
    if n == 0 {
      assert Addressed([]) == {};
    } else {
      RepeatedSurplus(c, a, n - 1);
      ShardsGrow(c, Repeated(a, n - 1), Some(a));
      SurplusGrows(c, Repeated(a, n - 1), Some(a));
    }
  }

  lemma {:induction false} BoundedCard(s: set<nat>, n: nat)
    requires forall t :: t in s ==> t < n
    ensures |s| <= n
  {
    if n > 0 {
      BoundedCard(s - {n - 1}, n - 1);
    }
  }

  lemma StuckBeyondWorkers(c: Config, a: Authority) returns (events: seq<Event>)
    ensures GetsStuck(c, Repeated(a, c.workers + 1), events)
    ensures |Unfinished(Exec(c, EMPTY, events).value)| == c.workers + 1
  {
    RepeatedSurplus(c, a, c.workers + 1);
    events := SurplusGetsStuck(c, Repeated(a, c.workers + 1));
    var w := Exec(c, EMPTY, events).value;
    RunComes(c, events);
    BoundedCard(Unfinished(w), |w.tasks|);
    assert Reachable(c, w);
    if |Unfinished(w)| <= c.workers {
      NeverStuckUpToWorkers(c, w);
    }
  }
}
