/**
 `BaseService`: the pool's state, one method for each stretch of `handle` between two points where other
 tasks can act, `PerformAll` for any interleaving of them, and `Handle`, their composition for one request
 when no other task acts in between.
 */
module BaseServices {
  import opened Wrappers
  import opened SessionPool
  import opened PoolSafety

  class BaseService {
    const config: Config
    var tasks: seq<Phase>
    var locks: map<nat, nat>
    var pool: map<Authority, nat>
    var dialed: seq<Authority>
    var sessions: seq<nat>
    var drivers: multiset<nat>
    var sent: seq<Request>

    function State(): World
      reads this
    {
      World(tasks, locks, pool, dialed, sessions, drivers, sent)
    }

    constructor (config: Config)
      ensures this.config == config && State() == EMPTY
    {
      this.config := config;
      tasks, locks, pool, dialed := [], map[], map[], [];
      sessions, drivers, sent := [], multiset{}, [];
    }

    method NewTask(target: Option<Authority>) returns (t: nat)
      modifies this`tasks
      ensures t == |old(tasks)| && State() == Step(config, old(State()), Arrive(target))
    {
      t := |tasks|;
      tasks := tasks + [Created(target)];
    }

    /** The authority is taken from the URI, and `pool.entry` is called; a URI without one is an error. */
    method EnterPool(t: nat)
      requires Enabled(config, State(), Enter(t))
      modifies this`tasks
      ensures State() == Step(config, old(State()), Enter(t))
    {
      match tasks[t].target
      case Some(authority) => tasks := tasks[t := Entering(authority)];
      case None => tasks := tasks[t := Done(Failed)];
    }

    /** `pool.entry` returns, with the shard locked. */
    method AcquireEntry(t: nat)
      requires Enabled(config, State(), Acquire(t))
      modifies this`tasks, this`locks
      ensures State() == Step(config, old(State()), Acquire(t))
    {
      var authority := tasks[t].authority;
      locks := locks[config.shard(authority) := t];
      if authority in pool {
        tasks := tasks[t := Cloning(authority)];
      } else {
        tasks := tasks[t := Connecting(authority)];
      }
    }

    method DropEntry(authority: Authority)
      modifies this`locks
      ensures State() == Unlock(config, old(State()), authority)
    {
      locks := locks - {config.shard(authority)};
    }

    method SendRequest(t: nat, session: nat)
      requires t < |tasks| && Holds(tasks[t])
      modifies this`tasks, this`locks, this`sent
      ensures State() == Send(config, old(State()), t, old(tasks[t]).authority, session)
    {
      var authority := tasks[t].authority;
      DropEntry(authority);
      tasks := tasks[t := Sending(authority, session)];
      sent := sent + [Request(t, authority, session)];
    }

    /** The pooled session is cloned. */
    method CloneSession(t: nat)
      requires Enabled(config, State(), Clone(t))
      modifies this`tasks, this`locks, this`sent
      ensures State() == Step(config, old(State()), Clone(t))
    {
      var session := pool[tasks[t].authority];
      SendRequest(t, session);
    }

    method Connected(t: nat)
      requires Enabled(config, State(), Connect(t))
      modifies this`tasks, this`dialed
      ensures State() == Step(config, old(State()), Connect(t))
    {
      var authority := tasks[t].authority;
      tasks := tasks[t := Handshaking(authority, |dialed|)];
      dialed := dialed + [authority];
    }

    method ShookHands(t: nat)
      requires Enabled(config, State(), Handshake(t))
      modifies this`tasks, this`sessions
      ensures State() == Step(config, old(State()), Handshake(t))
    {
      var conn := tasks[t].conn;
      tasks := tasks[t := Spawning(tasks[t].authority, |sessions|)];
      sessions := sessions + [conn];
    }

    method SpawnDriver(t: nat)
      requires Enabled(config, State(), Spawn(t))
      modifies this`tasks, this`drivers
      ensures State() == Step(config, old(State()), Spawn(t))
    {
      var session := tasks[t].session;
      drivers := drivers + multiset{session};
      tasks := tasks[t := Inserting(tasks[t].authority, session)];
    }

    method InsertSession(t: nat)
      requires Enabled(config, State(), Insert(t))
      modifies this`tasks, this`pool
      ensures State() == Step(config, old(State()), Insert(t))
    {
      var authority, session := tasks[t].authority, tasks[t].session;
      pool := pool[authority := session];
      tasks := tasks[t := Releasing(authority, session)];
    }

    method ReleaseEntry(t: nat)
      requires Enabled(config, State(), Release(t))
      modifies this`tasks, this`locks, this`sent
      ensures State() == Step(config, old(State()), Release(t))
    {
      SendRequest(t, tasks[t].session);
    }

    method Responds(t: nat)
      requires Enabled(config, State(), Respond(t))
      modifies this`tasks
      ensures State() == Step(config, old(State()), Respond(t))
    {
      tasks := tasks[t := Done(Responded)];
    }

    /** An await fails or its future is dropped; an entry held is dropped with it. */
    method Ends(t: nat, ending: Ending)
      requires t < |tasks|
      modifies this`tasks, this`locks
      ensures State() == End(config, old(State()), t, ending)
    {
      if Holds(tasks[t]) {
        DropEntry(tasks[t].authority);
      }
      tasks := tasks[t := Done(ending)];
    }

    /** One event, if it is enabled. */
    method Perform(e: Event) returns (done: bool)
      modifies this
      ensures done == Enabled(config, old(State()), e)
      ensures State() == if done then Step(config, old(State()), e) else old(State())
    {
      done := Enabled(config, State(), e);
      if done {
        match e
        case Arrive(target) => var t := NewTask(target);
        case Enter(t) => EnterPool(t);
        case Acquire(t) => AcquireEntry(t);
        case Clone(t) => CloneSession(t);
        case Connect(t) => Connected(t);
        case Handshake(t) => ShookHands(t);
        case Spawn(t) => SpawnDriver(t);
        case Insert(t) => InsertSession(t);
        case Release(t) => ReleaseEntry(t);
        case Respond(t) => Responds(t);
        case Fail(t) => Ends(t, Failed);
        case Cancel(t) => Ends(t, Cancelled);
      }
    }

    /** Any interleaving of any tasks, up to the first event that is not enabled. The invariant survives all of it. */
    method PerformAll(events: seq<Event>) returns (done: bool)
      requires Inv(config, State())
      modifies this
      ensures Inv(config, State())
      ensures done == Exec(config, old(State()), events).Some?
      ensures done ==> Exec(config, old(State()), events) == Some(State())
      ensures old(State()) == EMPTY ==> Reachable(config, State())
    {
      ghost var was := State();
      for i := 0 to |events|
        invariant Inv(config, State()) && Exec(config, was, events[..i]) == Some(State())
      {
        if Enabled(config, State(), events[i]) {
          StepKeepsInv(config, State(), events[i]);
        }
        assert events[..i + 1][..i] == events[..i];
        done := Perform(events[i]);
        if !done {
          ExecStops(config, was, events, i + 1);
          return;
        }
      }
      assert events[..|events|] == events;
      done := true;
    }

    /** A worker is free for task `t`: the other running tasks leave one. */
    ghost predicate FreeWorkerAside(t: nat)
      reads this
    {
      |RunningTasks(tasks) - {t}| < config.workers
    }

    /** `connect` under the vacant entry. On failure the entry is given back. */
    method Dial(t: nat, connects: bool, ghost start: World, ghost before: seq<Event>) returns (ghost events: seq<Event>)
      requires FreeWorkerAside(t) && t < |tasks| && tasks[t].Connecting?
      requires Exec(config, start, before) == Some(State())
      modifies this`tasks, this`locks, this`dialed
      ensures Exec(config, start, events) == Some(State()) && FreeWorkerAside(t)
      ensures var a := old(tasks[t]).authority;
              && tasks == old(tasks)[t := if connects then Handshaking(a, |old(dialed)|) else Done(Failed)]
              && locks == if connects then old(locks) else old(locks) - {config.shard(a)}
    {
      SuspendedAside(t);
      OthersKeepRunning(tasks, t, if connects then Handshaking(tasks[t].authority, |dialed|) else Done(Failed));
      if connects {
        ExecMore(config, start, before, Connect(t));
        events := before + [Connect(t)];
        Connected(t);
      } else {
        ExecMore(config, start, before, Fail(t));
        events := before + [Fail(t)];
        Ends(t, Failed);
      }
    }

    /** `handshake` under the vacant entry. On failure the entry is given back. */
    method ShakeHands(t: nat, shakes: bool, ghost start: World, ghost before: seq<Event>) returns (ghost events: seq<Event>)
      requires FreeWorkerAside(t) && t < |tasks| && tasks[t].Handshaking?
      requires Exec(config, start, before) == Some(State())
      modifies this`tasks, this`locks, this`sessions
      ensures Exec(config, start, events) == Some(State())
      ensures var a := old(tasks[t]).authority;
              && tasks == old(tasks)[t := if shakes then Spawning(a, |old(sessions)|) else Done(Failed)]
              && locks == if shakes then old(locks) else old(locks) - {config.shard(a)}
    {
      SuspendedAside(t);
      if shakes {
        ExecMore(config, start, before, Handshake(t));
        events := before + [Handshake(t)];
        ShookHands(t);
      } else {
        ExecMore(config, start, before, Fail(t));
        events := before + [Fail(t)];
        Ends(t, Failed);
      }
    }

    /** A suspended task finds the worker that the others leave. */
    lemma SuspendedAside(t: nat)
      requires FreeWorkerAside(t) && t < |tasks| && !Running(tasks[t])
      ensures FreeWorker(config, State())
    {
      assert RunningTasks(tasks) - {t} == RunningTasks(tasks);
    }

    /** The await-free stretch: spawn the driver, insert the session, release the entry, send. */
    method Install(t: nat, ghost start: World, ghost before: seq<Event>) returns (ghost events: seq<Event>)
      requires t < |tasks| && tasks[t].Spawning?
      requires Exec(config, start, before) == Some(State())
      modifies this
      ensures Exec(config, start, events) == Some(State())
      ensures var (a, session) := (old(tasks[t]).authority, old(tasks[t]).session);
              && tasks == old(tasks)[t := Sending(a, session)]
              && locks == old(locks) - {config.shard(a)}
              && pool == old(pool)[a := session]
              && drivers == old(drivers) + multiset{session}
              && sent == old(sent) + [Request(t, a, session)]
    {
      ExecMore(config, start, before, Spawn(t));
      events := before + [Spawn(t)];
      SpawnDriver(t);
      ExecMore(config, start, events, Insert(t));
      events := events + [Insert(t)];
      InsertSession(t);
      ExecMore(config, start, events, Release(t));
      events := events + [Release(t)];
      ReleaseEntry(t);
    }

    /** A new request enters `handle`. */
    method Begin(target: Option<Authority>) returns (t: nat, ghost events: seq<Event>)
      requires FreeWorker(config, State())
      modifies this`tasks
      ensures Exec(config, old(State()), events) == Some(State()) && FreeWorkerAside(t)
      ensures t == |old(tasks)| && tasks == old(tasks) + [Entered(target)]
    {
      ghost var was := State();
      t := NewTask(target);
      RunningAfterArrival(was.tasks, target);
      EnterPool(t);
      LastTaskMoves(was.tasks, Created(target), Entered(target));
      NewRequestEnters(config, was, target);
      RunningAside(was.tasks, Entered(target));
      events := [Arrive(target), Enter(t)];
    }

    /** A request with an authority, up to the entry of its authority, while no other task holds the shard. */
    method OpenEntry(authority: Authority) returns (t: nat, ghost events: seq<Event>)
      requires FreeWorker(config, State()) && config.shard(authority) !in locks
      modifies this`tasks, this`locks
      ensures Exec(config, old(State()), events) == Some(State()) && FreeWorkerAside(t)
      ensures t == |old(tasks)|
      ensures tasks == old(tasks) + [if authority in old(pool) then Cloning(authority) else Connecting(authority)]
      ensures locks == old(locks)[config.shard(authority) := t]
    {
      ghost var was := State();
      t, events := Begin(Some(authority));
      ExecMore(config, was, events, Acquire(t));
      events := events + [Acquire(t)];
      AcquireEntry(t);
      LastTaskMoves(was.tasks, Entering(authority), tasks[t]);
      RunningAside(was.tasks, tasks[t]);
    }

    /** From the entry to the request being sent: the pooled session, or a new one if connect and handshake give it. */
    method ObtainSession(t: nat, a: Authority, connects: bool, shakes: bool, ghost start: World, ghost before: seq<Event>)
      returns (ok: bool, ghost events: seq<Event>)
      requires FreeWorkerAside(t) && t < |tasks| && Exec(config, start, before) == Some(State())
      requires tasks[t] == if a in pool then Cloning(a) else Connecting(a)
      modifies this
      ensures Exec(config, start, events) == Some(State())
      ensures FreeWorkerAside(t)
      ensures && ok == (a in old(pool) || (connects && shakes))
              && pool == (if ok && a !in old(pool) then old(pool)[a := |old(sessions)|] else old(pool))
              && locks == old(locks) - {config.shard(a)}
              && (ok ==> tasks == old(tasks)[t := Sending(a, pool[a])] && sent == old(sent) + [Request(t, a, pool[a])])
              && (!ok ==> tasks == old(tasks)[t := Done(Failed)] && sent == old(sent))
    {
      events := before;
      ghost var was := tasks;
      if tasks[t].Cloning? {
        ExecMore(config, start, events, Clone(t));
        events := events + [Clone(t)];
        CloneSession(t);
        ok := true;
      } else {
        events := Dial(t, connects, start, events);
        if connects {
          events := ShakeHands(t, shakes, start, events);
        }
        ok := connects && shakes;
        if ok {
          events := Install(t, start, events);
        }
      }
      assert tasks == was[t := tasks[t]];
      OthersKeepRunning(was, t, tasks[t]);
    }

    method Answer(t: nat, answers: bool, ghost start: World, ghost before: seq<Event>) returns (ghost events: seq<Event>)
      requires FreeWorkerAside(t) && t < |tasks| && tasks[t].Sending?
      requires Exec(config, start, before) == Some(State())
      modifies this`tasks, this`locks
      ensures Exec(config, start, events) == Some(State())
      ensures locks == old(locks) && tasks == old(tasks)[t := Done(if answers then Responded else Failed)]
    {
      SuspendedAside(t);
      if answers {
        ExecMore(config, start, before, Respond(t));
        events := before + [Respond(t)];
        Responds(t);
      } else {
        ExecMore(config, start, before, Fail(t));
        events := before + [Fail(t)];
        Ends(t, Failed);
      }
    }

    method HandleAuthority(authority: Authority, connects: bool, shakes: bool, answers: bool)
      returns (t: nat, ok: bool, ghost events: seq<Event>)
      requires FreeWorker(config, State()) && config.shard(authority) !in locks
      modifies this
      ensures Exec(config, old(State()), events) == Some(State())
      ensures t == |old(tasks)| && locks == old(locks)
      ensures ok == (authority in old(pool) || (connects && shakes))
      ensures tasks == old(tasks) + [Done(if ok && answers then Responded else Failed)]
      ensures pool == (if ok && authority !in old(pool) then old(pool)[authority := |old(sessions)|] else old(pool))
      ensures ok ==> authority in pool && sent == old(sent) + [Request(t, authority, pool[authority])]
      ensures !ok ==> sent == old(sent)
    {
      ghost var was := State();
      t, events := OpenEntry(authority);
      ok, events := ObtainSession(t, authority, connects, shakes, was, events);
      TakenAndDropped(was.locks, config.shard(authority), t);
      LastTaskMoves(was.tasks, if authority in was.pool then Cloning(authority) else Connecting(authority), tasks[t]);
      assert tasks == was.tasks + [tasks[t]];
      if ok {
        LastTaskMoves(was.tasks, tasks[t], Done(if answers then Responded else Failed));
        events := Answer(t, answers, was, events);
      }
    }

    /**
     One request while no other task moves. Without a free worker it does not begin, and at a shard that is held it
     waits. Otherwise it gets a response if and only if it has an authority, the pool has a session for it or connect
     and handshake give one, and the session answers. The pool gains at most that session, every shard is as free as
     before, and no other task has changed.
     */
    method Handle(target: Option<Authority>, connects: bool, shakes: bool, answers: bool) returns (t: nat)
      modifies this
      ensures exists events :: Exec(config, old(State()), events) == Some(State())
      ensures t == |old(tasks)| && locks == old(locks)
      ensures var free := FreeWorker(config, old(State()));
              var held := target.Some? && config.shard(target.value) in old(locks);
              var reached := free && !held && target.Some? && (target.value in old(pool) || (connects && shakes));
              && tasks == old(tasks) + [if !free then Created(target)
                                        else if held then Entering(target.value)
                                        else Done(if reached && answers then Responded else Failed)]
              && pool == (if reached && target.value !in old(pool) then old(pool)[target.value := |old(sessions)|] else old(pool))
              && sent == if reached then old(sent) + [Request(t, target.value, pool[target.value])] else old(sent)
    {
      ghost var events;
      if !FreeWorker(config, State()) {
        ExecMore(config, State(), [], Arrive(target));
        events := [] + [Arrive(target)];
        t := NewTask(target);
      } else if target.None? || config.shard(target.value) in locks {
        t, events := Begin(target);
      } else {
        var ok;
        t, ok, events := HandleAuthority(target.value, connects, shakes, answers);
      }
    }
  }
}
