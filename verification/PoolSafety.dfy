/** What holds in every world the pool can reach, whatever the interleaving, failures and cancellations. */
module PoolSafety {
  import opened Wrappers
  import opened SessionPool

  lemma {:induction false} ExecKeepsInv(c: Config, w: World, events: seq<Event>)
    requires Inv(c, w) && Exec(c, w, events).Some?
    ensures Inv(c, Exec(c, w, events).value)
    decreases |events|
  {
    if events != [] {
      var init := events[..|events| - 1];
      ExecKeepsInv(c, w, init);
      StepKeepsInv(c, Exec(c, w, init).value, events[|events| - 1]);
    }
  }

  /** What follows an event that is not enabled cannot mend a run. */
  lemma {:induction false} ExecStops(c: Config, w: World, events: seq<Event>, k: nat)
    requires k <= |events| && Exec(c, w, events[..k]).None?
    ensures Exec(c, w, events).None?
    decreases |events|
  {
    if k < |events| {
      assert events[..|events| - 1][..k] == events[..k];
      ExecStops(c, w, events[..|events| - 1], k);
    } else {
      assert events[..k] == events;
    }
  }

  lemma ReachableInv(c: Config, w: World)
    requires Reachable(c, w)
    ensures Inv(c, w)
  {
    var events :| Exec(c, EMPTY, events) == Some(w);
    assert RunningTasks(EMPTY.tasks) == {};
    ExecKeepsInv(c, EMPTY, events);
  }

  /** Two successful handshakes for the same authority are the same handshake. */
  lemma OneHandshakePerAuthority(c: Config, w: World, i: nat, j: nat)
    requires Reachable(c, w) && i < |w.sessions| && j < |w.sessions|
    ensures Known(w, i) && Known(w, j)
    ensures Origin(w, i) == Origin(w, j) ==> i == j
  {
    ReachableInv(c, w);
    assert Known(w, i) && Known(w, j);
    var a := Origin(w, i);
    if a == Origin(w, j) && BeingAdded(c, w, a, i) {
      assert PhaseFits(w, w.tasks[w.locks[c.shard(a)]]);
    }
    if a == Origin(w, j) && BeingAdded(c, w, a, j) {
      assert PhaseFits(w, w.tasks[w.locks[c.shard(a)]]);
    }
  }

  /** Every request was sent through the session pooled for its authority, opened by a connect to that authority. */
  lemma RequestsUseTheirOwnSession(c: Config, w: World, i: nat)
    requires Reachable(c, w) && i < |w.sent|
    ensures var r := w.sent[i];
            Pooled(w, r.authority, r.session) && Known(w, r.session) && Origin(w, r.session) == r.authority
  {
    ReachableInv(c, w);
  }

  lemma StepKeepsPool(c: Config, w: World, e: Event, a: Authority, session: nat)
    requires Inv(c, w) && Enabled(c, w, e) && Pooled(w, a, session)
    ensures Pooled(Step(c, w, e), a, session)
  {
    if e.Insert? {
      assert PhaseFits(w, w.tasks[e.task]);
    }
  }

  /** Once pooled, a session is never replaced and never disappears. */
  lemma {:induction false} PoolIsStable(c: Config, w: World, events: seq<Event>, a: Authority, session: nat)
    requires Inv(c, w) && Exec(c, w, events).Some? && Pooled(w, a, session)
    ensures Pooled(Exec(c, w, events).value, a, session)
    decreases |events|
  {
    if events != [] {
      var init := events[..|events| - 1];
      PoolIsStable(c, w, init, a, session);
      ExecKeepsInv(c, w, init);
      StepKeepsPool(c, Exec(c, w, init).value, events[|events| - 1], a, session);
    }
  }

  // Drivers.

  lemma PooledDrivers(c: Config, w: World, session: nat)
    requires Inv(c, w)
    ensures session in w.pool.Values ==> w.drivers[session] == 1
    ensures session in w.drivers && session !in w.pool.Values ==>
              exists t: nat :: t < |w.tasks| && w.tasks[t].Inserting? && w.tasks[t].session == session
  {
    if session in w.pool.Values {
      var a :| a in w.pool && w.pool[a] == session;
    } else if session in w.drivers {
      var a := Origin(w, session);
      assert BeingAdded(c, w, a, session);
      var t := w.locks[c.shard(a)];
      assert PhaseFits(w, w.tasks[t]);
      assert w.tasks[t].Inserting? && w.tasks[t].session == session;
    }
  }

  /**
   The spawned drivers are exactly the pooled sessions, each once, if and only if no task is between
   spawning its driver and inserting its session.
   */
  lemma DriversArePooledIffNoneInserting(c: Config, w: World)
    requires Reachable(c, w)
    ensures w.drivers == multiset(w.pool.Values) <==> forall t: nat :: t < |w.tasks| ==> !w.tasks[t].Inserting?
  {
    ReachableInv(c, w);
    if t: nat :| t < |w.tasks| && w.tasks[t].Inserting? {
      assert PhaseFits(w, w.tasks[t]);
      var session := w.tasks[t].session;
      assert forall b :: b in w.pool ==> Origin(w, w.pool[b]) == b != Origin(w, session);
      assert multiset(w.pool.Values)[session] == 0;
    } else {
      forall session: nat ensures w.drivers[session] == multiset(w.pool.Values)[session] {
        PooledDrivers(c, w, session);
      }
    }
  }

  /** Different authorities have different sessions. */
  lemma PoolIsInjective(c: Config, w: World, a: Authority, b: Authority)
    requires Reachable(c, w) && a in w.pool && b in w.pool && w.pool[a] == w.pool[b]
    ensures a == b
  {
    ReachableInv(c, w);
  }

  // Failure.

  /** A connect or handshake that fails or is cancelled changes nothing but its task and the shard it frees. */
  lemma FailureReleases(c: Config, w: World, e: Event)
    requires Inv(c, w) && Enabled(c, w, e) && (e.Fail? || e.Cancel?)
    requires w.tasks[e.task].Connecting? || w.tasks[e.task].Handshaking?
    ensures var v := Step(c, w, e);
            var a := w.tasks[e.task].authority;
            && v == w.(tasks := v.tasks, locks := v.locks)
            && v.tasks == w.tasks[e.task := Done(if e.Fail? then Failed else Cancelled)]
            && c.shard(a) in w.locks && w.locks[c.shard(a)] == e.task && c.shard(a) !in v.locks
            && a !in v.pool
  {
    assert PhaseFits(w, w.tasks[e.task]);
  }

  /**
   An error or a cancellation, wherever it comes, ends its task so and changes nothing else, but for the shard of an
   entry that the task held.
   */
  lemma InterruptionEndsOnlyItsTask(c: Config, w: World, e: Event)
    requires Enabled(c, w, e) && (e.Fail? || e.Cancel?)
    ensures var (t, p) := (e.task, w.tasks[e.task]);
            Step(c, w, e) == w.(
              tasks := w.tasks[t := Done(if e.Fail? then Failed else Cancelled)],
              locks := if p.Connecting? || p.Handshaking? then w.locks - {c.shard(p.authority)} else w.locks)
  {
  }

  /** Whoever waits for the same authority may then connect anew. */
  lemma RetryAfterFailure(c: Config, w: World, e: Event, u: nat)
    requires Inv(c, w) && Enabled(c, w, e) && (e.Fail? || e.Cancel?)
    requires w.tasks[e.task].Connecting? || w.tasks[e.task].Handshaking?
    requires u < |w.tasks| && w.tasks[u] == Entering(w.tasks[e.task].authority)
    ensures var v := Step(c, w, e);
            && !Enabled(c, w, Acquire(u))
            && Enabled(c, v, Acquire(u))
            && Step(c, v, Acquire(u)).tasks[u] == Connecting(w.tasks[e.task].authority)
  {
    FailureReleases(c, w, e);
  }

  /** Where a new request gets at once: into the pool, or to its end. */
  function Entered(target: Option<Authority>): Phase
  {
    match target case Some(a) => Entering(a) case None => Done(Failed)
  }

  lemma NewRequestEnters(c: Config, w: World, target: Option<Authority>)
    requires FreeWorker(c, w)
    ensures Exec(c, w, [Arrive(target), Enter(|w.tasks|)]) == Some(w.(tasks := w.tasks + [Entered(target)]))
  {
    var t := |w.tasks|;
    RunningAfterArrival(w.tasks, target);
    ExecMore(c, w, [], Arrive(target));
    ExecMore(c, w, [] + [Arrive(target)], Enter(t));
    assert [] + [Arrive(target)] + [Enter(t)] == [Arrive(target), Enter(t)];
    LastTaskMoves(w.tasks, Created(target), Entered(target));
  }

  /** A request for this authority that comes now gets as far as `connect`, holding its shard. */
  predicate NewRequestConnects(c: Config, w: World, a: Authority)
  {
    var t := |w.tasks|;
    Exec(c, w, [Arrive(Some(a)), Enter(t), Acquire(t)]) ==
    Some(w.(tasks := w.tasks + [Connecting(a)], locks := w.locks[c.shard(a) := t]))
  }

  /** So it is with a free worker, if the shard is free and the authority has no session. */
  lemma FreeShardConnects(c: Config, w: World, a: Authority)
    requires FreeWorker(c, w) && c.shard(a) !in w.locks && a !in w.pool
    ensures NewRequestConnects(c, w, a)
  {
    var t := |w.tasks|;
    NewRequestEnters(c, w, Some(a));
    ExecMore(c, w, [Arrive(Some(a)), Enter(t)], Acquire(t));
    assert [Arrive(Some(a)), Enter(t), Acquire(t)] == [Arrive(Some(a)), Enter(t)] + [Acquire(t)];
    LastTaskMoves(w.tasks, Entering(a), Connecting(a));
  }

  lemma SuspendedEnds(tasks: seq<Phase>, t: nat, ending: Ending)
    requires t < |tasks| && !Running(tasks[t])
    ensures RunningTasks(tasks[t := Done(ending)]) == RunningTasks(tasks)
  {
  }

  lemma FailureKeepsWorkers(c: Config, w: World, e: Event)
    requires Inv(c, w) && Enabled(c, w, e) && (e.Fail? || e.Cancel?)
    requires w.tasks[e.task].Connecting? || w.tasks[e.task].Handshaking?
    ensures RunningTasks(Step(c, w, e).tasks) == RunningTasks(w.tasks)
  {
    FailureReleases(c, w, e);
    SuspendedEnds(w.tasks, e.task, if e.Fail? then Failed else Cancelled);
  }

  /** A request that arrives after the failure may connect as well. */
  lemma ReconnectAfterFailure(c: Config, w: World, e: Event)
    requires Inv(c, w) && Enabled(c, w, e) && (e.Fail? || e.Cancel?)
    requires w.tasks[e.task].Connecting? || w.tasks[e.task].Handshaking?
    requires FreeWorker(c, w)
    ensures NewRequestConnects(c, Step(c, w, e), w.tasks[e.task].authority)
  {
    FailureReleases(c, w, e);
    FailureKeepsWorkers(c, w, e);
    FreeShardConnects(c, Step(c, w, e), w.tasks[e.task].authority);
  }
}
