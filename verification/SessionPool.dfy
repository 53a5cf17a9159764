/**
 The session pool as a transition system: any number of tasks run `BaseService::handle` side by side.
 The pool is a sharded map whose entry lock blocks the thread that waits for it, and is kept by a
 task while it is suspended in `connect` and `handshake`.
 */
module SessionPool {
  import opened Wrappers

  type Authority = string

  /** The shard an authority hashes to, and the number of worker threads. */
  datatype Config = Config(shard: Authority -> nat, workers: nat)

  datatype Ending = Responded | Failed | Cancelled

  /** Where a task is in `handle`. */
  datatype Phase =
    | Created(target: Option<Authority>)
    | Entering(authority: Authority)                    // in `pool.entry`, its thread waiting for the shard
    | Cloning(authority: Authority)                     // holds the occupied entry
    | Connecting(authority: Authority)                  // holds the vacant entry, suspended in `connect`
    | Handshaking(authority: Authority, conn: nat)      // holds the vacant entry, suspended in `handshake`
    | Spawning(authority: Authority, session: nat)      // holds the vacant entry, the driver not yet spawned
    | Inserting(authority: Authority, session: nat)     // holds the vacant entry, the driver spawned
    | Releasing(authority: Authority, session: nat)     // session inserted, the entry not yet dropped
    | Sending(authority: Authority, session: nat)       // suspended in `send_request`
    | Done(ending: Ending)

  datatype Request = Request(task: nat, authority: Authority, session: nat)

  /**
   `dialed` has the authority of each connection opened, `sessions` the connection of each successful
   handshake, `drivers` the sessions whose drivers were spawned, `sent` the requests sent.
   */
  datatype World = World(
    tasks: seq<Phase>,
    locks: map<nat, nat>,
    pool: map<Authority, nat>,
    dialed: seq<Authority>,
    sessions: seq<nat>,
    drivers: multiset<nat>,
    sent: seq<Request>)

  const EMPTY := World([], map[], map[], [], [], multiset{}, [])

  datatype Event =
    | Arrive(target: Option<Authority>)
    | Enter(task: nat)
    | Acquire(task: nat)
    | Clone(task: nat)
    | Connect(task: nat)
    | Handshake(task: nat)
    | Spawn(task: nat)
    | Insert(task: nat)
    | Release(task: nat)
    | Respond(task: nat)
    | Fail(task: nat)
    | Cancel(task: nat)

  /** The phases in which a task holds its shard. */
  predicate Holds(p: Phase)
  {
    p.Cloning? || p.Connecting? || p.Handshaking? || p.Spawning? || p.Inserting? || p.Releasing?
  }

  /** The phases in which a task occupies a worker thread; in the others it is suspended. */
  predicate Running(p: Phase)
  {
    p.Entering? || p.Cloning? || p.Spawning? || p.Inserting? || p.Releasing?
  }

  function RunningTasks(tasks: seq<Phase>): set<nat>
  {
    set t: nat | t < |tasks| && Running(tasks[t])
  }

  predicate FreeWorker(c: Config, w: World)
  {
    |RunningTasks(w.tasks)| < c.workers
  }

  /** A running task goes on by itself; a suspended one needs a free worker. Cancelling needs none. */
  predicate Enabled(c: Config, w: World, e: Event)
  {
    match e
    case Arrive(_) => true
    case Enter(t) => t < |w.tasks| && w.tasks[t].Created? && FreeWorker(c, w)
    case Acquire(t) => t < |w.tasks| && w.tasks[t].Entering? && c.shard(w.tasks[t].authority) !in w.locks
    case Clone(t) => t < |w.tasks| && w.tasks[t].Cloning? && w.tasks[t].authority in w.pool
    case Connect(t) => t < |w.tasks| && w.tasks[t].Connecting? && FreeWorker(c, w)
    case Handshake(t) => t < |w.tasks| && w.tasks[t].Handshaking? && FreeWorker(c, w)
    case Spawn(t) => t < |w.tasks| && w.tasks[t].Spawning?
    case Insert(t) => t < |w.tasks| && w.tasks[t].Inserting?
    case Release(t) => t < |w.tasks| && w.tasks[t].Releasing?
    case Respond(t) => t < |w.tasks| && w.tasks[t].Sending? && FreeWorker(c, w)
    case Fail(t) => t < |w.tasks| && (w.tasks[t].Connecting? || w.tasks[t].Handshaking? || w.tasks[t].Sending?) && FreeWorker(c, w)
    case Cancel(t) => t < |w.tasks| && (w.tasks[t].Created? || w.tasks[t].Connecting? || w.tasks[t].Handshaking? || w.tasks[t].Sending?)
  }

  function Move(w: World, t: nat, p: Phase): World
    requires t < |w.tasks|
  {
    w.(tasks := w.tasks[t := p])
  }

  function Unlock(c: Config, w: World, a: Authority): World
  {
    w.(locks := w.locks - {c.shard(a)})
  }

  /** The end of a task that may hold an entry: dropping it releases the shard. */
  function End(c: Config, w: World, t: nat, ending: Ending): World
    requires t < |w.tasks|
  {
    var p := w.tasks[t];
    Move(if Holds(p) then Unlock(c, w, p.authority) else w, t, Done(ending))
  }

  /** The entry is dropped and `send_request` is called. */
  function Send(c: Config, w: World, t: nat, a: Authority, session: nat): World
    requires t < |w.tasks|
  {
    Move(Unlock(c, w, a), t, Sending(a, session)).(sent := w.sent + [Request(t, a, session)])
  }

  function Step(c: Config, w: World, e: Event): World
    requires Enabled(c, w, e)
  {
    match e
    case Arrive(target) => w.(tasks := w.tasks + [Created(target)])
    case Enter(t) =>
      (match w.tasks[t].target
       case Some(a) => Move(w, t, Entering(a))
       case None => Move(w, t, Done(Failed)))
    case Acquire(t) =>
      var a := w.tasks[t].authority;
      Move(w, t, if a in w.pool then Cloning(a) else Connecting(a)).(locks := w.locks[c.shard(a) := t])
    case Clone(t) =>
      var a := w.tasks[t].authority;
      Send(c, w, t, a, w.pool[a])
    case Connect(t) =>
      var a := w.tasks[t].authority;
      Move(w, t, Handshaking(a, |w.dialed|)).(dialed := w.dialed + [a])
    case Handshake(t) =>
      Move(w, t, Spawning(w.tasks[t].authority, |w.sessions|)).(sessions := w.sessions + [w.tasks[t].conn])
    case Spawn(t) =>
      var session := w.tasks[t].session;
      Move(w, t, Inserting(w.tasks[t].authority, session)).(drivers := w.drivers + multiset{session})
    case Insert(t) =>
      var (a, session) := (w.tasks[t].authority, w.tasks[t].session);
      Move(w, t, Releasing(a, session)).(pool := w.pool[a := session])
    case Release(t) => Send(c, w, t, w.tasks[t].authority, w.tasks[t].session)
    case Respond(t) => Move(w, t, Done(Responded))
    case Fail(t) => End(c, w, t, Failed)
    case Cancel(t) => End(c, w, t, Cancelled)
  }

  /** The world after some events from `w`, if each was enabled in turn. */
  function Exec(c: Config, w: World, events: seq<Event>): Option<World>
  {
    if events == [] then Some(w)
    else
      match Exec(c, w, events[..|events| - 1])
      case Some(v) => if Enabled(c, v, events[|events| - 1]) then Some(Step(c, v, events[|events| - 1])) else None
      case None => None
  }

  lemma ExecMore(c: Config, w: World, events: seq<Event>, e: Event)
    requires Exec(c, w, events).Some? && Enabled(c, Exec(c, w, events).value, e)
    ensures Exec(c, w, events + [e]) == Some(Step(c, Exec(c, w, events).value, e))
  {
    assert (events + [e])[..|events|] == events;
  }

  /** What the requests of a run ask for, in order of arrival. */
  function Targets(events: seq<Event>): seq<Option<Authority>>
  {
    if events == [] then []
    else
      var before := Targets(events[..|events| - 1]);
      match events[|events| - 1] case Arrive(target) => before + [target] case _ => before
  }

  ghost predicate Reachable(c: Config, w: World)
  {
    exists events :: Exec(c, EMPTY, events) == Some(w)
  }

  // The invariant.

  predicate Known(w: World, session: nat)
  {
    session < |w.sessions| && w.sessions[session] < |w.dialed|
  }

  /** The authority that the connection behind a session was opened for. */
  function Origin(w: World, session: nat): Authority
    requires Known(w, session)
  {
    w.dialed[w.sessions[session]]
  }

  predicate Pooled(w: World, a: Authority, session: nat)
  {
    a in w.pool && w.pool[a] == session
  }

  ghost predicate LocksMatch(c: Config, w: World)
  {
    && (forall s: nat :: s in w.locks ==>
          w.locks[s] < |w.tasks| && Holds(w.tasks[w.locks[s]]) && c.shard(w.tasks[w.locks[s]].authority) == s)
    && (forall t: nat :: t < |w.tasks| && Holds(w.tasks[t]) ==>
          c.shard(w.tasks[t].authority) in w.locks && w.locks[c.shard(w.tasks[t].authority)] == t)
  }

  /** What a task in each phase knows. */
  predicate PhaseFits(w: World, p: Phase)
  {
    match p
    case Cloning(a) => a in w.pool
    case Connecting(a) => a !in w.pool
    case Handshaking(a, conn) => a !in w.pool && conn < |w.dialed| && w.dialed[conn] == a
    case Spawning(a, session) => a !in w.pool && Known(w, session) && Origin(w, session) == a && w.drivers[session] == 0
    case Inserting(a, session) => a !in w.pool && Known(w, session) && Origin(w, session) == a && w.drivers[session] == 1
    case Releasing(a, session) => Pooled(w, a, session)
    case Sending(a, session) => Pooled(w, a, session)
    case _ => true
  }

  ghost predicate PhasesFit(w: World)
  {
    forall t: nat :: t < |w.tasks| ==> PhaseFits(w, w.tasks[t])
  }

  ghost predicate PoolFits(w: World)
  {
    forall a :: a in w.pool ==> Known(w, w.pool[a]) && Origin(w, w.pool[a]) == a && w.drivers[w.pool[a]] == 1
  }

  /** The session is being added to the pool by the task that holds its shard. */
  predicate BeingAdded(c: Config, w: World, a: Authority, session: nat)
  {
    var s := c.shard(a);
    && s in w.locks && w.locks[s] < |w.tasks|
    && (w.tasks[w.locks[s]] == Spawning(a, session) || w.tasks[w.locks[s]] == Inserting(a, session))
  }

  ghost predicate SessionsFit(c: Config, w: World)
  {
    forall session: nat :: session < |w.sessions| ==>
      && Known(w, session)
      && (Pooled(w, Origin(w, session), session) || BeingAdded(c, w, Origin(w, session), session))
  }

  ghost predicate DriversFit(w: World)
  {
    forall session: nat :: session in w.drivers ==> session < |w.sessions|
  }

  ghost predicate SentFits(w: World)
  {
    forall i :: 0 <= i < |w.sent| ==> Pooled(w, w.sent[i].authority, w.sent[i].session)
  }

  ghost predicate Inv(c: Config, w: World)
  {
    && LocksMatch(c, w)
    && PhasesFit(w)
    && PoolFits(w)
    && SessionsFit(c, w)
    && DriversFit(w)
    && SentFits(w)
    && |RunningTasks(w.tasks)| <= c.workers
  }

  lemma RunningAfterMove(tasks: seq<Phase>, t: nat, p: Phase)
    requires t < |tasks|
    ensures RunningTasks(tasks[t := p]) == if Running(p) then RunningTasks(tasks) + {t} else RunningTasks(tasks) - {t}
    ensures |RunningTasks(tasks[t := p])| <= |RunningTasks(tasks)| + if Running(p) && !Running(tasks[t]) then 1 else 0
  {
    var before, after := RunningTasks(tasks), RunningTasks(tasks[t := p]);
    if Running(p) {
      assert after == before + {t};
    } else {
      assert after == before - {t};
    }
  }

  lemma TakenAndDropped(locks: map<nat, nat>, s: nat, t: nat)
    requires s !in locks
    ensures locks[s := t] - {s} == locks
  {
  }

  lemma LastTaskMoves(tasks: seq<Phase>, p: Phase, q: Phase)
    ensures (tasks + [p])[|tasks| := q] == tasks + [q]
  {
  }

  lemma OthersKeepRunning(tasks: seq<Phase>, t: nat, p: Phase)
    requires t < |tasks|
    ensures RunningTasks(tasks[t := p]) - {t} == RunningTasks(tasks) - {t}
    ensures !Running(p) ==> RunningTasks(tasks[t := p]) == RunningTasks(tasks) - {t}
  {
    RunningAfterMove(tasks, t, p);
  }

  lemma RunningAfterArrival(tasks: seq<Phase>, target: Option<Authority>)
    ensures RunningTasks(tasks + [Created(target)]) == RunningTasks(tasks)
  {
  }

  /** The tasks that run beside a new one are those that ran before. */
  lemma RunningAside(tasks: seq<Phase>, p: Phase)
    ensures RunningTasks(tasks + [p]) - {|tasks|} == RunningTasks(tasks)
    ensures !Running(p) ==> RunningTasks(tasks + [p]) == RunningTasks(tasks)
  {
  }

  // A task that moves on keeps the shard it holds, takes a free one, or drops its own.

  lemma KeepLock(c: Config, w: World, t: nat, p: Phase)
    requires LocksMatch(c, w) && t < |w.tasks|
    requires Holds(p) == Holds(w.tasks[t]) && (Holds(p) ==> p.authority == w.tasks[t].authority)
    ensures LocksMatch(c, Move(w, t, p))
  {
  }

  lemma TakeLock(c: Config, w: World, t: nat, p: Phase)
    requires LocksMatch(c, w) && t < |w.tasks| && !Holds(w.tasks[t]) && Holds(p) && c.shard(p.authority) !in w.locks
    ensures LocksMatch(c, Move(w, t, p).(locks := w.locks[c.shard(p.authority) := t]))
  {
  }

  lemma DropLock(c: Config, w: World, t: nat, p: Phase)
    requires LocksMatch(c, w) && t < |w.tasks| && Holds(w.tasks[t]) && !Holds(p)
    ensures LocksMatch(c, Move(Unlock(c, w, w.tasks[t].authority), t, p))
  {
  }

  lemma LocksAfterEnd(c: Config, w: World, t: nat, ending: Ending)
    requires LocksMatch(c, w) && t < |w.tasks|
    ensures LocksMatch(c, End(c, w, t, ending))
  {
    if Holds(w.tasks[t]) {
      DropLock(c, w, t, Done(ending));
    } else {
      KeepLock(c, w, t, Done(ending));
    }
  }

  lemma LocksAfterRelease(c: Config, w: World, e: Event)
    requires Inv(c, w) && Enabled(c, w, e) && (e.Clone? || e.Release? || e.Fail? || e.Cancel?)
    ensures LocksMatch(c, Step(c, w, e))
  {
    if e.Fail? {
      LocksAfterEnd(c, w, e.task, Failed);
    } else if e.Cancel? {
      LocksAfterEnd(c, w, e.task, Cancelled);
    } else {
      DropLock(c, w, e.task, Step(c, w, e).tasks[e.task]);
    }
  }

  lemma LocksAfterAcquire(c: Config, w: World, t: nat)
    requires LocksMatch(c, w) && Enabled(c, w, Acquire(t))
    ensures LocksMatch(c, Step(c, w, Acquire(t)))
  {
    var a := w.tasks[t].authority;
    TakeLock(c, w, t, if a in w.pool then Cloning(a) else Connecting(a));
  }

  /** Steps that take and free no shard. */
  lemma LocksAfterOther(c: Config, w: World, e: Event)
    requires LocksMatch(c, w) && Enabled(c, w, e)
    requires e.Enter? || e.Connect? || e.Handshake? || e.Spawn? || e.Insert? || e.Respond?
    ensures LocksMatch(c, Step(c, w, e))
  {
    var v := Step(c, w, e);
    KeepLock(c, w, e.task, v.tasks[e.task]);
    assert v.tasks == w.tasks[e.task := v.tasks[e.task]] && v.locks == w.locks;
  }

  lemma LocksAfter(c: Config, w: World, e: Event)
    requires Inv(c, w) && Enabled(c, w, e)
    ensures LocksMatch(c, Step(c, w, e))
  {
    if e.Clone? || e.Release? || e.Fail? || e.Cancel? {
      LocksAfterRelease(c, w, e);
    } else if e.Acquire? {
      LocksAfterAcquire(c, w, e.task);
    } else if !e.Arrive? {
      LocksAfterOther(c, w, e);
    }
  }

  /** A step moves one task, and makes it run only on a free worker. */
  lemma StepMovesOne(c: Config, w: World, e: Event)
    requires Enabled(c, w, e) && !e.Arrive?
    ensures var v := Step(c, w, e);
            && e.task < |v.tasks| && v.tasks == w.tasks[e.task := v.tasks[e.task]]
            && (Running(v.tasks[e.task]) && !Running(w.tasks[e.task]) ==> FreeWorker(c, w))
  {
  }

  lemma RunningAfter(c: Config, w: World, e: Event)
    requires |RunningTasks(w.tasks)| <= c.workers && Enabled(c, w, e)
    ensures |RunningTasks(Step(c, w, e).tasks)| <= c.workers
  {
    if e.Arrive? {
      RunningAfterArrival(w.tasks, e.target);
    } else {
      StepMovesOne(c, w, e);
      RunningAfterMove(w.tasks, e.task, Step(c, w, e).tasks[e.task]);
    }
  }

  /** What a task knows stays true while the pool and the drivers stay and the histories grow. */
  lemma PhaseStays(w: World, v: World, p: Phase)
    requires PhaseFits(w, p) && w.dialed <= v.dialed && w.sessions <= v.sessions
    requires v.pool == w.pool && v.drivers == w.drivers
    ensures PhaseFits(v, p)
  {
  }

  lemma PhasesAfterMove(w: World, v: World, t: nat, p: Phase)
    requires PhasesFit(w) && t < |w.tasks| && v.tasks == w.tasks[t := p]
    requires w.dialed <= v.dialed && w.sessions <= v.sessions && v.pool == w.pool && v.drivers == w.drivers
    requires PhaseFits(v, p)
    ensures PhasesFit(v)
  {
    forall u: nat | u < |v.tasks| ensures PhaseFits(v, v.tasks[u]) {
      if u != t {
        PhaseStays(w, v, w.tasks[u]);
      }
    }
  }

  /** No other task can be adding a session for the same authority: it would hold the same shard. */
  lemma OnlyOneAdds(c: Config, w: World, t: nat, u: nat)
    requires LocksMatch(c, w) && t < |w.tasks| && u < |w.tasks| && t != u
    requires Holds(w.tasks[t]) && Holds(w.tasks[u])
    ensures w.tasks[t].authority != w.tasks[u].authority
  {
  }

  lemma PhasesAfterSpawn(c: Config, w: World, t: nat)
    requires Inv(c, w) && Enabled(c, w, Spawn(t))
    ensures PhasesFit(Step(c, w, Spawn(t)))
  {
    var v := Step(c, w, Spawn(t));
    forall u: nat | u < |v.tasks| ensures PhaseFits(v, v.tasks[u]) {
      if u != t && Holds(w.tasks[u]) {
        OnlyOneAdds(c, w, t, u);
      }
      assert PhaseFits(w, w.tasks[u]) && PhaseFits(w, w.tasks[t]);
    }
  }

  lemma PhasesAfterInsert(c: Config, w: World, t: nat)
    requires Inv(c, w) && Enabled(c, w, Insert(t))
    ensures PhasesFit(Step(c, w, Insert(t)))
  {
    var v := Step(c, w, Insert(t));
    forall u: nat | u < |v.tasks| ensures PhaseFits(v, v.tasks[u]) {
      if u != t && Holds(w.tasks[u]) {
        OnlyOneAdds(c, w, t, u);
      }
      assert PhaseFits(w, w.tasks[u]) && PhaseFits(w, w.tasks[t]);
    }
  }

  lemma PhasesAfterOpening(c: Config, w: World, e: Event)
    requires Inv(c, w) && Enabled(c, w, e) && (e.Enter? || e.Acquire? || e.Connect? || e.Handshake?)
    ensures PhasesFit(Step(c, w, e))
  {
    var v := Step(c, w, e);
    assert PhaseFits(w, w.tasks[e.task]);
    assert w.drivers[|w.sessions|] == 0;
    PhasesAfterMove(w, v, e.task, v.tasks[e.task]);
  }

  lemma PhasesAfterClosing(c: Config, w: World, e: Event)
    requires Inv(c, w) && Enabled(c, w, e) && (e.Clone? || e.Release? || e.Respond? || e.Fail? || e.Cancel?)
    ensures PhasesFit(Step(c, w, e))
  {
    var v := Step(c, w, e);
    assert PhaseFits(w, w.tasks[e.task]);
    PhasesAfterMove(w, v, e.task, v.tasks[e.task]);
  }

  lemma PhasesAfter(c: Config, w: World, e: Event)
    requires Inv(c, w) && Enabled(c, w, e)
    ensures PhasesFit(Step(c, w, e))
  {
    match e
    case Arrive(target) =>
      forall u: nat | u < |w.tasks| {
        PhaseStays(w, Step(c, w, e), w.tasks[u]);
      }
    case Spawn(t) => PhasesAfterSpawn(c, w, t);
    case Insert(t) => PhasesAfterInsert(c, w, t);
    case _ =>
      if e.Enter? || e.Acquire? || e.Connect? || e.Handshake? {
        PhasesAfterOpening(c, w, e);
      } else {
        PhasesAfterClosing(c, w, e);
      }
  }

  lemma PoolStays(w: World, v: World)
    requires PoolFits(w) && w.dialed <= v.dialed && w.sessions <= v.sessions
    requires v.pool == w.pool && v.drivers == w.drivers
    ensures PoolFits(v)
  {
  }

  /** The histories grow; only inserting changes the pool, and only spawning the drivers. */
  lemma HistoriesGrow(c: Config, w: World, e: Event)
    requires Enabled(c, w, e)
    ensures var v := Step(c, w, e);
            && w.dialed <= v.dialed && w.sessions <= v.sessions
            && (!e.Insert? ==> v.pool == w.pool)
            && (!e.Spawn? ==> v.drivers == w.drivers)
            && (!e.Clone? && !e.Release? ==> v.sent == w.sent)
  {
  }

  lemma PoolAfterSpawn(c: Config, w: World, t: nat)
    requires Inv(c, w) && Enabled(c, w, Spawn(t))
    ensures PoolFits(Step(c, w, Spawn(t))) && DriversFit(Step(c, w, Spawn(t)))
  {
    assert PhaseFits(w, w.tasks[t]);
  }

  lemma PoolAfterInsert(c: Config, w: World, t: nat)
    requires Inv(c, w) && Enabled(c, w, Insert(t))
    ensures PoolFits(Step(c, w, Insert(t))) && SentFits(Step(c, w, Insert(t)))
  {
    assert PhaseFits(w, w.tasks[t]);
  }

  lemma PoolAfter(c: Config, w: World, e: Event)
    requires Inv(c, w) && Enabled(c, w, e)
    ensures PoolFits(Step(c, w, e))
  {
    if e.Spawn? {
      PoolAfterSpawn(c, w, e.task);
    } else if e.Insert? {
      PoolAfterInsert(c, w, e.task);
    } else {
      HistoriesGrow(c, w, e);
      PoolStays(w, Step(c, w, e));
    }
  }

  lemma SentAfterSending(c: Config, w: World, e: Event)
    requires Inv(c, w) && Enabled(c, w, e) && (e.Clone? || e.Release?)
    ensures SentFits(Step(c, w, e))
  {
    assert PhaseFits(w, w.tasks[e.task]);
  }

  lemma SentStays(w: World, v: World)
    requires w.sessions <= v.sessions && v.pool == w.pool && v.sent == w.sent && SentFits(w)
    ensures SentFits(v)
  {
  }

  lemma DriversStay(w: World, v: World)
    requires w.sessions <= v.sessions && v.drivers == w.drivers && DriversFit(w)
    ensures DriversFit(v)
  {
  }

  lemma HistoriesAfter(c: Config, w: World, e: Event)
    requires Inv(c, w) && Enabled(c, w, e)
    ensures SentFits(Step(c, w, e)) && DriversFit(Step(c, w, e))
  {
    HistoriesGrow(c, w, e);
    if e.Insert? {
      PoolAfterInsert(c, w, e.task);
    } else if e.Clone? || e.Release? {
      SentAfterSending(c, w, e);
    } else {
      SentStays(w, Step(c, w, e));
    }
    if e.Spawn? {
      PoolAfterSpawn(c, w, e.task);
    } else {
      DriversStay(w, Step(c, w, e));
    }
  }

  /** A session of the tables is pooled or being added after a step if it was before. */
  lemma SessionStays(c: Config, w: World, e: Event, a: Authority, session: nat)
    requires Inv(c, w) && Enabled(c, w, e)
    requires Pooled(w, a, session) || BeingAdded(c, w, a, session)
    ensures Pooled(Step(c, w, e), a, session) || BeingAdded(c, Step(c, w, e), a, session)
  {
    if Pooled(w, a, session) {
      if e.Insert? {
        assert PhaseFits(w, w.tasks[e.task]);
      }
    } else if !e.Arrive? && w.locks[c.shard(a)] == e.task {
      assert e.Spawn? || e.Insert?;
    } else {
      AdderStays(c, w, e, a, session);
    }
  }

  /** A task's step frees or takes only its own shard. */
  lemma LockStays(c: Config, w: World, e: Event, s: nat)
    requires LocksMatch(c, w) && Enabled(c, w, e) && s in w.locks
    requires !e.Arrive? ==> w.locks[s] != e.task
    ensures s in Step(c, w, e).locks && Step(c, w, e).locks[s] == w.locks[s]
  {
  }

  lemma AdderIsSame(c: Config, w: World, v: World, a: Authority, session: nat)
    requires BeingAdded(c, w, a, session)
    requires var s := c.shard(a);
             && s in v.locks && v.locks[s] == w.locks[s]
             && w.locks[s] < |v.tasks| && v.tasks[w.locks[s]] == w.tasks[w.locks[s]]
    ensures BeingAdded(c, v, a, session)
  {
  }

  lemma AdderStays(c: Config, w: World, e: Event, a: Authority, session: nat)
    requires Inv(c, w) && Enabled(c, w, e) && BeingAdded(c, w, a, session)
    requires !e.Arrive? ==> w.locks[c.shard(a)] != e.task
    ensures BeingAdded(c, Step(c, w, e), a, session)
  {
    LockStays(c, w, e, c.shard(a));
    if !e.Arrive? {
      StepMovesOne(c, w, e);
    }
    AdderIsSame(c, w, Step(c, w, e), a, session);
  }

  lemma SessionsAfter(c: Config, w: World, e: Event)
    requires Inv(c, w) && Enabled(c, w, e)
    ensures SessionsFit(c, Step(c, w, e))
  {
    var v := Step(c, w, e);
    forall session: nat | session < |v.sessions|
      ensures Known(v, session)
      ensures Pooled(v, Origin(v, session), session) || BeingAdded(c, v, Origin(v, session), session)
    {
      if session < |w.sessions| {
        assert Known(w, session) && Origin(v, session) == Origin(w, session);
        SessionStays(c, w, e, Origin(w, session), session);
      } else {
        assert PhaseFits(w, w.tasks[e.task]);
      }
    }
  }

  /** Every step keeps the invariant. */
  lemma StepKeepsInv(c: Config, w: World, e: Event)
    requires Inv(c, w) && Enabled(c, w, e)
    ensures Inv(c, Step(c, w, e))
  {
    LocksAfter(c, w, e);
    PhasesAfter(c, w, e);
    PoolAfter(c, w, e);
    HistoriesAfter(c, w, e);
    SessionsAfter(c, w, e);
    RunningAfter(c, w, e);
  }
}
