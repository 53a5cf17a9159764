/** When the pool can go on, when it cannot, and how long it goes on. */
module PoolProgress {
  import opened SessionPool
  import opened PoolSafety

  /** Steps the tasks themselves can take: neither a new request nor a cancellation from outside. */
  predicate IsProgress(e: Event)
  {
    !e.Arrive? && !e.Cancel?
  }

  ghost predicate CanProgress(c: Config, w: World)
  {
    exists e :: IsProgress(e) && Enabled(c, w, e)
  }

  /** Tasks whose thread waits for a shard that another task holds. */
  function Blocked(c: Config, w: World): set<nat>
  {
    set t: nat | t < |w.tasks| && w.tasks[t].Entering? && c.shard(w.tasks[t].authority) in w.locks
  }

  function Unfinished(w: World): set<nat>
  {
    set t: nat | t < |w.tasks| && !w.tasks[t].Done?
  }

  /** A waiting task holds no shard, and the task it waits for does not wait: chains have length one. */
  lemma HoldersNeverWait(c: Config, w: World, t: nat)
    requires Reachable(c, w) && t in Blocked(c, w)
    ensures forall s: nat :: s in w.locks ==> w.locks[s] != t
    ensures var holder := w.locks[c.shard(w.tasks[t].authority)];
            holder in Unfinished(w) && holder !in Blocked(c, w)
  {
    ReachableInv(c, w);
  }

  lemma BlockedAreRunning(c: Config, w: World)
    ensures Blocked(c, w) <= RunningTasks(w.tasks) <= Unfinished(w)
  {
  }

  lemma SubsetCard<T>(a: set<T>, b: set<T>)
    requires a <= b
    ensures |a| <= |b| && (|a| == |b| ==> a == b)
  {
    assert b == a + (b - a);
  }

  /** A running task that is not blocked has a step. */
  lemma RunningCanStep(c: Config, w: World, t: nat)
    requires Inv(c, w) && t in RunningTasks(w.tasks) && t !in Blocked(c, w)
    ensures CanProgress(c, w)
  {
    assert PhaseFits(w, w.tasks[t]);
    var e := match w.tasks[t]
      case Entering(_) => Acquire(t)
      case Cloning(_) => Clone(t)
      case Spawning(_, _) => Spawn(t)
      case Inserting(_, _) => Insert(t)
      case _ => Release(t);
    assert IsProgress(e) && Enabled(c, w, e);
  }

  /** With a free worker, a suspended task has a step. */
  lemma SuspendedCanStep(c: Config, w: World, t: nat)
    requires FreeWorker(c, w) && t in Unfinished(w) && t !in RunningTasks(w.tasks)
    ensures CanProgress(c, w)
  {
    var e := match w.tasks[t]
      case Created(_) => Enter(t)
      case Connecting(_) => Connect(t)
      case Handshaking(_, _) => Handshake(t)
      case _ => Respond(t);
    assert IsProgress(e) && Enabled(c, w, e);
  }

  /** With a free worker, any unfinished task shows a step: its own, or that of the task it waits for. */
  lemma FreeWorkerCanStep(c: Config, w: World, t: nat)
    requires Inv(c, w) && FreeWorker(c, w) && t in Unfinished(w)
    ensures CanProgress(c, w)
  {
    var u := if t in Blocked(c, w) then w.locks[c.shard(w.tasks[t].authority)] else t;
    assert u in Unfinished(w) && u !in Blocked(c, w);
    if u in RunningTasks(w.tasks) {
      RunningCanStep(c, w, u);
    } else {
      SuspendedCanStep(c, w, u);
    }
  }

  /** With every worker taken by a blocked task, no task has a step. */
  lemma BlockedCannotStep(c: Config, w: World, e: Event)
    requires Blocked(c, w) == RunningTasks(w.tasks) && !FreeWorker(c, w)
    ensures !(IsProgress(e) && Enabled(c, w, e))
  {
    if IsProgress(e) && e.task < |w.tasks| && Running(w.tasks[e.task]) {
      assert e.task in Blocked(c, w);
    }
  }

  /** While a task is unfinished, the pool is stuck if and only if as many tasks are blocked as there are workers. */
  lemma StuckIffWorkersBlocked(c: Config, w: World)
    requires Reachable(c, w) && Unfinished(w) != {}
    ensures !CanProgress(c, w) <==> |Blocked(c, w)| >= c.workers
  {
    ReachableInv(c, w);
    BlockedAreRunning(c, w);
    SubsetCard(Blocked(c, w), RunningTasks(w.tasks));
    if |Blocked(c, w)| >= c.workers {
      assert Blocked(c, w) == RunningTasks(w.tasks);
      forall e {
        BlockedCannotStep(c, w, e);
      }
    } else if t :| t in RunningTasks(w.tasks) && t !in Blocked(c, w) {
      RunningCanStep(c, w, t);
    } else {
      assert RunningTasks(w.tasks) == Blocked(c, w);
      var t :| t in Unfinished(w);
      FreeWorkerCanStep(c, w, t);
    }
  }

  /** With no more unfinished tasks than workers, the pool is never stuck. */
  lemma NeverStuckUpToWorkers(c: Config, w: World)
    requires Reachable(c, w) && Unfinished(w) != {} && |Unfinished(w)| <= c.workers
    ensures CanProgress(c, w)
  {
    StuckIffWorkersBlocked(c, w);
    BlockedAreRunning(c, w);
    if t :| t in Blocked(c, w) {
      HoldersNeverWait(c, w, t);
      var holder := w.locks[c.shard(w.tasks[t].authority)];
      assert Blocked(c, w) <= Unfinished(w) - {holder};
      SubsetCard(Blocked(c, w), Unfinished(w) - {holder});
    } else {
      assert |Blocked(c, w)| == 0 < |Unfinished(w)|;
    }
  }

  /** In a stuck state a blocked task waits for a suspended one, and cancelling that one lets it go on. */
  lemma CancellingTheHolderUnblocks(c: Config, w: World, t: nat)
    requires Reachable(c, w) && !CanProgress(c, w) && t in Blocked(c, w)
    ensures var holder := w.locks[c.shard(w.tasks[t].authority)];
            && Enabled(c, w, Cancel(holder))
            && Enabled(c, Step(c, w, Cancel(holder)), Acquire(t))
            && CanProgress(c, Step(c, w, Cancel(holder)))
  {
    ReachableInv(c, w);
    var holder := w.locks[c.shard(w.tasks[t].authority)];
    if holder in RunningTasks(w.tasks) {
      RunningCanStep(c, w, holder);
    }
    assert IsProgress(Acquire(t));
  }

  // Every run of finitely many tasks is finite.

  /** The steps a task still has before it, at most. */
  function Remaining(p: Phase): nat
  {
    match p
    case Created(_) => 8
    case Entering(_) => 7
    case Connecting(_) => 6
    case Handshaking(_, _) => 5
    case Spawning(_, _) => 4
    case Inserting(_, _) => 3
    case Releasing(_, _) => 2
    case Cloning(_) => 2
    case Sending(_, _) => 1
    case Done(_) => 0
  }

  function TotalRemaining(tasks: seq<Phase>): nat
  {
    if tasks == [] then 0 else TotalRemaining(tasks[..|tasks| - 1]) + Remaining(tasks[|tasks| - 1])
  }

  function Arrivals(events: seq<Event>): nat
  {
    if events == [] then 0 else Arrivals(events[..|events| - 1]) + if events[|events| - 1].Arrive? then 1 else 0
  }

  lemma {:induction false} TotalAfterMove(tasks: seq<Phase>, t: nat, p: Phase)
    requires t < |tasks|
    ensures TotalRemaining(tasks[t := p]) == TotalRemaining(tasks) - Remaining(tasks[t]) + Remaining(p)
    decreases |tasks|
  {
    var last := |tasks| - 1;
    if t < last {
      TotalAfterMove(tasks[..last], t, p);
      assert tasks[t := p][..last] == tasks[..last][t := p];
    } else {
      assert tasks[t := p][..last] == tasks[..last];
    }
  }

  lemma StepUsesUp(c: Config, w: World, e: Event)
    requires Enabled(c, w, e)
    ensures TotalRemaining(Step(c, w, e).tasks) + 1 <= TotalRemaining(w.tasks) + if e.Arrive? then 9 else 0
  {
    var v := Step(c, w, e);
    if e.Arrive? {
      assert v.tasks[..|w.tasks|] == w.tasks;
    } else {
      assert v.tasks == w.tasks[e.task := v.tasks[e.task]];
      assert Remaining(v.tasks[e.task]) < Remaining(w.tasks[e.task]);
      TotalAfterMove(w.tasks, e.task, v.tasks[e.task]);
    }
  }

  /** A run takes at most nine steps for each request that arrived, its arrival included. */
  lemma {:induction false} RunsAreBounded(c: Config, events: seq<Event>)
    requires Exec(c, EMPTY, events).Some?
    ensures |events| + TotalRemaining(Exec(c, EMPTY, events).value.tasks) <= 9 * Arrivals(events)
    decreases |events|
  {
    if events != [] {
      var init := events[..|events| - 1];
      RunsAreBounded(c, init);
      StepUsesUp(c, Exec(c, EMPTY, init).value, events[|events| - 1]);
    }
  }
}
