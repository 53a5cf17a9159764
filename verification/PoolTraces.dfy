/**
 What a single task does in any run: its own steps, whatever the others do between them, are those of one call of
 `handle`, and what becomes of it and of its request is what these steps make of it.
 */
module PoolTraces {
  import opened Wrappers
  import opened SessionPool

  /** A step of one call of `handle`, without the task it belongs to. The entry is found occupied or vacant. */
  datatype Stage =
    Entered | Found | Missed | Cloned | Connected | Shook | Spawned | Inserted | Released | Answered | Broke | Dropped

  predicate FindsSession(w: World, t: nat)
  {
    t < |w.tasks| && w.tasks[t].Entering? && w.tasks[t].authority in w.pool
  }

  function StageOf(w: World, e: Event): Stage
    requires !e.Arrive?
  {
    match e
    case Enter(_) => Entered
    case Acquire(t) => if FindsSession(w, t) then Found else Missed
    case Clone(_) => Cloned
    case Connect(_) => Connected
    case Handshake(_) => Shook
    case Spawn(_) => Spawned
    case Insert(_) => Inserted
    case Release(_) => Released
    case Respond(_) => Answered
    case Fail(_) => Broke
    case Cancel(_) => Dropped
  }

  /** What an event is to task `t`: a step of its own, or nothing. */
  function StepFor(w: World, e: Event, t: nat): seq<Stage>
  {
    if !e.Arrive? && e.task == t then [StageOf(w, e)] else []
  }

  /** The steps that task `t` takes in a run, in order. */
  function StepsOf(c: Config, events: seq<Event>, t: nat): seq<Stage>
    requires Exec(c, EMPTY, events).Some?
  {
    if events == [] then []
    else
      var init := events[..|events| - 1];
      StepsOf(c, init, t) + StepFor(Exec(c, EMPTY, init).value, events[|events| - 1], t)
  }

  // One call of `handle`, undisturbed: a hit, and a miss.

  const HIT := [Entered, Found, Cloned, Answered]

  const MISS := [Entered, Missed, Connected, Shook, Spawned, Inserted, Released, Answered]

  /** The steps after which a call is suspended: in `connect`, in `handshake`, and in `send_request` after a hit or a miss. */
  predicate Suspended(steps: seq<Stage>)
  {
    || steps == [Entered, Missed]
    || steps == [Entered, Missed, Connected]
    || steps == [Entered, Found, Cloned]
    || steps == [Entered, Missed, Connected, Shook, Spawned, Inserted, Released]
  }

  predicate EndsWith(steps: seq<Stage>, last: Stage)
  {
    steps != [] && steps[|steps| - 1] == last
  }

  /** A call that got its response. */
  predicate Complete(target: Option<Authority>, steps: seq<Stage>)
  {
    target.Some? && (steps == HIT || steps == MISS)
  }

  /** A call that returned an error: without an authority at once, and otherwise where it was suspended. */
  predicate Erred(target: Option<Authority>, steps: seq<Stage>)
  {
    if target.None? then steps == [Entered]
    else EndsWith(steps, Broke) && Suspended(steps[..|steps| - 1])
  }

  /** A call that was dropped, before it began or where it was suspended. */
  predicate Abandoned(target: Option<Authority>, steps: seq<Stage>)
  {
    EndsWith(steps, Dropped) &&
    (steps == [Dropped] || (target.Some? && Suspended(steps[..|steps| - 1])))
  }

  /** The phase a task is in after these steps, and no other. */
  predicate PhaseAfter(p: Phase, target: Option<Authority>, steps: seq<Stage>)
  {
    match p
    case Created(t) => t == target && steps == []
    case Entering(a) => target == Some(a) && steps == [Entered]
    case Cloning(a) => target == Some(a) && steps == [Entered, Found]
    case Connecting(a) => target == Some(a) && steps == [Entered, Missed]
    case Handshaking(a, _) => target == Some(a) && steps == [Entered, Missed, Connected]
    case Spawning(a, _) => target == Some(a) && steps == [Entered, Missed, Connected, Shook]
    case Inserting(a, _) => target == Some(a) && steps == [Entered, Missed, Connected, Shook, Spawned]
    case Releasing(a, _) => target == Some(a) && steps == [Entered, Missed, Connected, Shook, Spawned, Inserted]
    case Sending(a, _) =>
      && target == Some(a)
      && (steps == [Entered, Found, Cloned] || steps == [Entered, Missed, Connected, Shook, Spawned, Inserted, Released])
    case Done(Responded) => Complete(target, steps)
    case Done(Failed) => Erred(target, steps)
    case Done(Cancelled) => Abandoned(target, steps)
  }

  /** The requests that task `t` has sent. */
  function SentBy(sent: seq<Request>, t: nat): seq<Request>
  {
    if sent == [] then []
    else
      var before, last := SentBy(sent[..|sent| - 1], t), sent[|sent| - 1];
      if last.task == t then before + [last] else before
  }

  /** A task has sent one request, for its own authority, once it has let go of its entry with a session, and none before. */
  predicate SentAfter(mine: seq<Request>, target: Option<Authority>, steps: seq<Stage>)
  {
    if Cloned in steps || Released in steps then |mine| == 1 && Some(mine[0].authority) == target else mine == []
  }

  ghost predicate TaskFollows(w: World, t: nat, target: Option<Authority>, steps: seq<Stage>)
  {
    t < |w.tasks| && PhaseAfter(w.tasks[t], target, steps) && SentAfter(SentBy(w.sent, t), target, steps)
  }

  /** A task is where its own steps have brought it; one still to come has taken none and sent nothing. */
  ghost predicate Follows(w: World, t: nat, targets: seq<Option<Authority>>, steps: seq<Stage>)
    requires |w.tasks| == |targets|
  {
    if t < |targets| then TaskFollows(w, t, targets[t], steps) else steps == [] && SentBy(w.sent, t) == []
  }

  ghost predicate AllFollow(c: Config, w: World, events: seq<Event>)
    requires Exec(c, EMPTY, events).Some?
  {
    |w.tasks| == |Targets(events)| && forall t: nat :: Follows(w, t, Targets(events), StepsOf(c, events, t))
  }

  // Steps.

  lemma SentByAppend(sent: seq<Request>, r: Request, t: nat)
    ensures SentBy(sent + [r], t) == SentBy(sent, t) + if r.task == t then [r] else []
  {
    assert (sent + [r])[..|sent|] == sent;
  }

  /** Only the steps that let go of an entry with a session send, and then one request, of the task that steps. */
  lemma StepSends(c: Config, w: World, e: Event, t: nat)
    requires Enabled(c, w, e)
    ensures var sent := Step(c, w, e).sent;
            if (e.Clone? || e.Release?) && e.task == t
            then exists session :: SentBy(sent, t) == SentBy(w.sent, t) + [Request(t, w.tasks[t].authority, session)]
            else SentBy(sent, t) == SentBy(w.sent, t)
  {
    if e.Clone? {
      SentByAppend(w.sent, Request(e.task, w.tasks[e.task].authority, w.pool[w.tasks[e.task].authority]), t);
    } else if e.Release? {
      SentByAppend(w.sent, Request(e.task, w.tasks[e.task].authority, w.tasks[e.task].session), t);
    }
  }

  /** The task that steps is then in the phase its steps make it. */
  lemma OwnStepFollows(c: Config, w: World, e: Event, target: Option<Authority>, steps: seq<Stage>)
    requires Enabled(c, w, e) && !e.Arrive? && PhaseAfter(w.tasks[e.task], target, steps)
    ensures PhaseAfter(Step(c, w, e).tasks[e.task], target, steps + [StageOf(w, e)])
  {
    assert (steps + [StageOf(w, e)])[..|steps|] == steps;
  }

  /** A step that sends is the first of its task to do so. */
  lemma FirstToSend(p: Phase, target: Option<Authority>, steps: seq<Stage>)
    requires PhaseAfter(p, target, steps) && (p.Cloning? || p.Releasing?)
    ensures target == Some(p.authority) && Cloned !in steps && Released !in steps
  {
  }

  lemma OwnSendFollows(c: Config, w: World, e: Event, target: Option<Authority>, steps: seq<Stage>)
    requires Enabled(c, w, e) && !e.Arrive? && TaskFollows(w, e.task, target, steps)
    ensures SentAfter(SentBy(Step(c, w, e).sent, e.task), target, steps + [StageOf(w, e)])
  {
    StepSends(c, w, e, e.task);
    var more := steps + [StageOf(w, e)];
    if e.Clone? || e.Release? {
      FirstToSend(w.tasks[e.task], target, steps);
      assert more[|steps|] == StageOf(w, e);
    } else {
      assert forall x :: x in more <==> x in steps || x == StageOf(w, e);
    }
  }

  lemma OthersFollow(c: Config, w: World, e: Event, t: nat, target: Option<Authority>, steps: seq<Stage>)
    requires Enabled(c, w, e) && TaskFollows(w, t, target, steps) && (!e.Arrive? ==> e.task != t)
    ensures TaskFollows(Step(c, w, e), t, target, steps)
  {
    StepSends(c, w, e, t);
    if !e.Arrive? {
      StepMovesOne(c, w, e);
    }
  }

  lemma StepFollows(c: Config, w: World, e: Event, t: nat, target: Option<Authority>, steps: seq<Stage>)
    requires Enabled(c, w, e) && TaskFollows(w, t, target, steps)
    ensures TaskFollows(Step(c, w, e), t, target, steps + StepFor(w, e, t))
  {
    if !e.Arrive? && e.task == t {
      OwnStepFollows(c, w, e, target, steps);
      OwnSendFollows(c, w, e, target, steps);
      StepMovesOne(c, w, e);
    } else {
      OthersFollow(c, w, e, t, target, steps);
      assert steps + [] == steps;
    }
  }

  /** A task that is still to come takes no step and sends nothing; one that comes now is `Created`. */
  lemma NewcomersFollow(c: Config, w: World, e: Event, t: nat)
    requires Enabled(c, w, e) && t >= |w.tasks| && SentBy(w.sent, t) == []
    ensures StepFor(w, e, t) == [] && SentBy(Step(c, w, e).sent, t) == []
    ensures t < |Step(c, w, e).tasks| ==> e.Arrive? && t == |w.tasks| && TaskFollows(Step(c, w, e), t, e.target, [])
  {
    StepSends(c, w, e, t);
    if !e.Arrive? {
      StepMovesOne(c, w, e);
    }
  }

  lemma FollowsStep(c: Config, w: World, e: Event, t: nat, targets: seq<Option<Authority>>, steps: seq<Stage>)
    requires Enabled(c, w, e) && |w.tasks| == |targets| && Follows(w, t, targets, steps)
    ensures var more := if e.Arrive? then targets + [e.target] else targets;
            |Step(c, w, e).tasks| == |more| && Follows(Step(c, w, e), t, more, steps + StepFor(w, e, t))
  {
    if !e.Arrive? {
      StepMovesOne(c, w, e);
    }
    if t < |targets| {
      StepFollows(c, w, e, t, targets[t], steps);
    } else {
      NewcomersFollow(c, w, e, t);
    }
  }

  lemma AllFollowStep(c: Config, w: World, e: Event, init: seq<Event>, events: seq<Event>)
    requires events == init + [e] && Exec(c, EMPTY, init) == Some(w) && Enabled(c, w, e) && AllFollow(c, w, init)
    ensures Exec(c, EMPTY, events) == Some(Step(c, w, e)) && AllFollow(c, Step(c, w, e), events)
  {
    ExecMore(c, EMPTY, init, e);
    TargetsAppend(init, e);
    forall t: nat ensures |Step(c, w, e).tasks| == |Targets(events)|
      ensures Follows(Step(c, w, e), t, Targets(events), StepsOf(c, events, t))
    {
      FollowsStep(c, w, e, t, Targets(init), StepsOf(c, init, t));
      StepsAppend(c, w, init, e, t);
    }
  }

  lemma TargetsAppend(events: seq<Event>, e: Event)
    ensures Targets(events + [e]) == if e.Arrive? then Targets(events) + [e.target] else Targets(events)
  {
    assert (events + [e])[..|events|] == events;
  }

  lemma StepsAppend(c: Config, w: World, events: seq<Event>, e: Event, t: nat)
    requires Exec(c, EMPTY, events) == Some(w) && Exec(c, EMPTY, events + [e]).Some?
    ensures StepsOf(c, events + [e], t) == StepsOf(c, events, t) + StepFor(w, e, t)
  {
    assert (events + [e])[..|events|] == events;
  }

  /**
   In every run, whatever the interleaving, each task's own steps are those of one call of `handle` so far, its phase is
   the one they lead to, and it has sent its one request exactly if they let go of an entry with a session.
   */
  lemma {:induction false} TasksFollowHandle(c: Config, events: seq<Event>)
    requires Exec(c, EMPTY, events).Some?
    ensures AllFollow(c, Exec(c, EMPTY, events).value, events)
    decreases |events|
  {
    if events != [] {
      var init, last := events[..|events| - 1], events[|events| - 1];
      assert events == init + [last];
      TasksFollowHandle(c, init);
      AllFollowStep(c, Exec(c, EMPTY, init).value, last, init, events);
    }
  }

  /** What a task has sent, and what it is: the endings are those of its own steps, and no other. */
  lemma EndingIsEarned(p: Phase, target: Option<Authority>, steps: seq<Stage>)
    requires PhaseAfter(p, target, steps)
    ensures p == Done(Responded) <==> Complete(target, steps)
    ensures p == Done(Failed) <==> Erred(target, steps)
    ensures p == Done(Cancelled) <==> Abandoned(target, steps)
  {
  }

  lemma {:induction false} SentByIsSent(sent: seq<Request>, t: nat)
    ensures forall i :: 0 <= i < |SentBy(sent, t)| ==> SentBy(sent, t)[i] in sent && SentBy(sent, t)[i].task == t
    decreases |sent|
  {
    if sent != [] {
      SentByIsSent(sent[..|sent| - 1], t);
    }
  }

  /**
   In every world a run reaches, a task that waits for its response or has got one has sent exactly one request, for its
   own authority; no task has ever sent two; and a request without an authority has sent none.
   */
  lemma ResponsesWereSent(c: Config, events: seq<Event>, t: nat)
    requires Exec(c, EMPTY, events).Some? && t < |Exec(c, EMPTY, events).value.tasks|
    ensures var w := Exec(c, EMPTY, events).value;
            var mine := SentBy(w.sent, t);
            && t < |Targets(events)| && |mine| <= 1
            && (w.tasks[t].Sending? || w.tasks[t] == Done(Responded) ==> |mine| == 1)
            && (|mine| == 1 ==> mine[0] in w.sent && mine[0].task == t && Targets(events)[t] == Some(mine[0].authority))
  {
    var w := Exec(c, EMPTY, events).value;
    TasksFollowHandle(c, events);
    assert Follows(w, t, Targets(events), StepsOf(c, events, t));
    SentByIsSent(w.sent, t);
  }

  /** Which ending a task has is decided by its own steps, in every world a run reaches. */
  lemma EndingsAreEarned(c: Config, events: seq<Event>, t: nat)
    requires Exec(c, EMPTY, events).Some? && t < |Exec(c, EMPTY, events).value.tasks|
    ensures var p, steps := Exec(c, EMPTY, events).value.tasks[t], StepsOf(c, events, t);
            && t < |Targets(events)|
            && (p == Done(Responded) <==> Complete(Targets(events)[t], steps))
            && (p == Done(Failed) <==> Erred(Targets(events)[t], steps))
            && (p == Done(Cancelled) <==> Abandoned(Targets(events)[t], steps))
  {
    TasksFollowHandle(c, events);
    assert Follows(Exec(c, EMPTY, events).value, t, Targets(events), StepsOf(c, events, t));
    EndingIsEarned(Exec(c, EMPTY, events).value.tasks[t], Targets(events)[t], StepsOf(c, events, t));
  }

  /**
   A task can be dropped exactly before it begins and where it is suspended, whether or not a worker is free, and an
   error can reach it exactly where it is suspended, on a free worker.
   */
  lemma InterruptedOnlyWhereSuspended(c: Config, events: seq<Event>, t: nat)
    requires Exec(c, EMPTY, events).Some? && t < |Exec(c, EMPTY, events).value.tasks|
    ensures var w, steps := Exec(c, EMPTY, events).value, StepsOf(c, events, t);
            && (Enabled(c, w, Cancel(t)) <==> steps == [] || Suspended(steps))
            && (Enabled(c, w, Fail(t)) <==> Suspended(steps) && FreeWorker(c, w))
  {
    TasksFollowHandle(c, events);
    assert Follows(Exec(c, EMPTY, events).value, t, Targets(events), StepsOf(c, events, t));
    SuspendedPhases(Exec(c, EMPTY, events).value.tasks[t], Targets(events)[t], StepsOf(c, events, t));
  }

  lemma SuspendedPhases(p: Phase, target: Option<Authority>, steps: seq<Stage>)
    requires PhaseAfter(p, target, steps)
    ensures p.Created? <==> steps == []
    ensures p.Connecting? || p.Handshaking? || p.Sending? <==> Suspended(steps)
  {
  }
}
