/**
 What both line streams are: a handler that turns each line into items, a queue of items, and a
 `poll_next` that pops the queue or polls the body. The streams are instances of this machine.
 */
module LineMachine {
  import opened Bytes
  import Lines

  /** The state after some lines, and the items they gave. */
  datatype Fed<S, I> = Fed(state: S, items: seq<I>)

  /** One result of polling the body for a frame. */
  datatype BodyPoll<E> = Data(frame: Buf) | Trailers | Failure(error: E) | Pending | End

  /**
   One result of `poll_next`: an item of the queue, a body error, the end of the stream, or
   pending, with whether the stream itself woke its task.
   */
  datatype Outcome<I, E> = Yield(item: I) | Fault(error: E) | Finished | Waiting(woken: bool)

  datatype Conf<S, I> = Conf(consumed: nat, buffer: seq<Byte>, state: S, queue: seq<I>)

  datatype Trace<S, I, E> = Trace(conf: Conf<S, I>, outcomes: seq<Outcome<I, E>>)

  function Feed<S, L, I>(f: (S, L) -> Fed<S, I>, s: S, lines: seq<L>): Fed<S, I>
  {
    if lines == [] then Fed(s, [])
    else
      var before := Feed(f, s, lines[..|lines| - 1]);
      var last := f(before.state, lines[|lines| - 1]);
      Fed(last.state, before.items + last.items)
  }

  /** The specification: all bytes at once, split at 0x0A, folded by the handler. */
  function OneShot<S, I>(f: (S, seq<Byte>) -> Fed<S, I>, s: S, bytes: seq<Byte>): Fed<S, I>
  {
    Feed(f, s, Lines.Complete(LF, bytes))
  }

  /** The bytes of one frame appended to what is buffered: full lines are handled, the rest is kept. */
  function Absorb<S, I>(f: (S, seq<Byte>) -> Fed<S, I>, c: Conf<S, I>, bytes: seq<Byte>): Conf<S, I>
  {
    var fed := OneShot(f, c.state, c.buffer + bytes);
    c.(buffer := Lines.Rest(LF, c.buffer + bytes), state := fed.state, queue := c.queue + fed.items)
  }

  function Pop<S, I, E>(c: Conf<S, I>): (Conf<S, I>, Outcome<I, E>)
    requires c.queue != []
  {
    (c.(queue := c.queue[1..]), Yield(c.queue[0]))
  }

  function Take<S, I, E>(f: (S, seq<Byte>) -> Fed<S, I>, c: Conf<S, I>, bytes: seq<Byte>): (Conf<S, I>, Outcome<I, E>)
  {
    var fed := Absorb(f, c, bytes);
    if fed.queue != [] then Pop(fed) else (fed, Waiting(true))
  }

  /** What a poll makes of the body's answer. */
  function React<S, I, E>(f: (S, seq<Byte>) -> Fed<S, I>, c: Conf<S, I>, result: BodyPoll<E>): (Conf<S, I>, Outcome<I, E>)
  {
    match result
    case Data(frame) => Take(f, c, frame.Remaining())
    case Trailers => (c, Waiting(true))
    case Failure(e) => (c, Fault(e))
    case Pending => (c, Waiting(false))
    case End => (c, Finished)
  }

  /** A poll that finds nothing queued asks the body. */
  function PollBody<S, I, E>(f: (S, seq<Byte>) -> Fed<S, I>, c: Conf<S, I>, result: BodyPoll<E>): (Conf<S, I>, Outcome<I, E>)
  {
    React(f, c.(consumed := c.consumed + 1), result)
  }

  /** The bytes of a frame in one chunk. */
  function Flat<E>(result: BodyPoll<E>): BodyPoll<E>
  {
    match result case Data(frame) => Data(Buf([frame.Remaining()])) case other => other
  }

  lemma FlatChangesNothing<S, I, E>(f: (S, seq<Byte>) -> Fed<S, I>, c: Conf<S, I>, result: BodyPoll<E>)
    ensures React(f, c, Flat(result)) == React(f, c, result)
    ensures result.Data? ==> Flat(result).frame.Remaining() == result.frame.Remaining()
  {
    if result.Data? {
      FlattenOne(result.frame.Remaining());
    }
  }

  function PollNext<S, I, E>(f: (S, seq<Byte>) -> Fed<S, I>, body: nat -> BodyPoll<E>, c: Conf<S, I>): (Conf<S, I>, Outcome<I, E>)
  {
    if c.queue != [] then Pop(c) else PollBody(f, c, body(c.consumed))
  }

  function Start<S, I>(s: S): Conf<S, I>
  {
    Conf(0, [], s, [])
  }

  /** `n` calls of `poll_next`, over a body that is any infinite script of results. */
  function Run<S, I, E>(f: (S, seq<Byte>) -> Fed<S, I>, body: nat -> BodyPoll<E>, s: S, n: nat): (t: Trace<S, I, E>)
    ensures |t.outcomes| == n
  {
    if n == 0 then Trace(Start(s), [])
    else
      var before := Run(f, body, s, n - 1);
      var (conf, outcome) := PollNext(f, body, before.conf);
      Trace(conf, before.outcomes + [outcome])
  }

  /** All bytes of the first `k` body results. */
  function Received<E>(body: nat -> BodyPoll<E>, k: nat): seq<Byte>
  {
    if k == 0 then []
    else if body(k - 1).Data? then Received(body, k - 1) + body(k - 1).frame.Remaining()
    else Received(body, k - 1)
  }

  /** Each result of the body adds the bytes of its frame, if it is one. */
  lemma ReceivedMore<E>(body: nat -> BodyPoll<E>, k: nat)
    ensures var result := Flat(body(k));
            |Received(body, k + 1)| == |Received(body, k)| + if result.Data? then |result.frame.Remaining()| else 0
  {
    if body(k).Data? {
      FlattenOne(body(k).frame.Remaining());
    }
  }

  function Yields<I, E>(items: seq<I>): (r: seq<Outcome<I, E>>)
    ensures |r| == |items|
  {
    seq(|items|, i requires 0 <= i < |items| => Yield(items[i]))
  }

  /** The outcomes that hand something to the consumer. */
  function Delivered<I, E>(outcomes: seq<Outcome<I, E>>): seq<Outcome<I, E>>
  {
    if outcomes == [] then []
    else
      var last := outcomes[|outcomes| - 1];
      Delivered(outcomes[..|outcomes| - 1]) + if last.Yield? || last.Fault? then [last] else []
  }

  /** The items among some outcomes. */
  function ItemsOf<I, E>(outcomes: seq<Outcome<I, E>>): seq<I>
  {
    if outcomes == [] then []
    else
      var last := outcomes[|outcomes| - 1];
      ItemsOf(outcomes[..|outcomes| - 1]) + if last.Yield? then [last.item] else []
  }

  /**
   What body result number `k` adds for the consumer: an error adds itself, and a data frame adds the
   items that the bytes received up to it have and the bytes before it had not.
   */
  ghost function Arrivals<S, I, E>(f: (S, seq<Byte>) -> Fed<S, I>, s: S, body: nat -> BodyPoll<E>, k: nat): seq<Outcome<I, E>>
  {
    match body(k)
    case Data(frame) =>
      OneShotConcat(f, s, Received(body, k), frame.Remaining());
      Yields(OneShot(f, s, Received(body, k + 1)).items[|OneShot(f, s, Received(body, k)).items|..])
    case Failure(e) => [Fault(e)]
    case _ => []
  }

  /** What a consumer should see of the first `k` body results, in order. */
  ghost function Merge<S, I, E>(f: (S, seq<Byte>) -> Fed<S, I>, s: S, body: nat -> BodyPoll<E>, k: nat): seq<Outcome<I, E>>
  {
    if k == 0 then [] else Merge(f, s, body, k - 1) + Arrivals(f, s, body, k - 1)
  }

  // Folding over lines.

  lemma {:induction false} FeedConcat<S, L, I>(f: (S, L) -> Fed<S, I>, s: S, a: seq<L>, b: seq<L>)
    ensures var x := Feed(f, s, a);
            var y := Feed(f, x.state, b);
            Feed(f, s, a + b) == Fed(y.state, x.items + y.items)
    decreases |b|
  {
    if b == [] {
      assert a + b == a;
    } else {
      FeedConcat(f, s, a, b[..|b| - 1]);
      assert (a + b)[..|a + b| - 1] == a + b[..|b| - 1];
    }
  }

  lemma FeedOne<S, L, I>(f: (S, L) -> Fed<S, I>, s: S, line: L)
    ensures Feed(f, s, [line]) == f(s, line)
  {
    assert [line][..0] == [];
    assert [] + f(s, line).items == f(s, line).items;
  }

  /** The fold may be cut at any byte: only the rest of the first part is carried over. */
  lemma OneShotConcat<S, I>(f: (S, seq<Byte>) -> Fed<S, I>, s: S, a: seq<Byte>, b: seq<Byte>)
    ensures var x := OneShot(f, s, a);
            var y := Feed(f, x.state, Lines.Complete(LF, Lines.Rest(LF, a) + b));
            OneShot(f, s, a + b) == Fed(y.state, x.items + y.items)
  {
    Lines.SplitConcat(LF, a, b);
    FeedConcat(f, s, Lines.Complete(LF, a), Lines.Complete(LF, Lines.Rest(LF, a) + b));
  }

  /** One more line feed hands one more line to the handler. */
  lemma OneShotLine<S, I>(f: (S, seq<Byte>) -> Fed<S, I>, s: S, bytes: seq<Byte>)
    ensures var x := OneShot(f, s, bytes);
            var y := f(x.state, Lines.Rest(LF, bytes));
            OneShot(f, s, bytes + [LF]) == Fed(y.state, x.items + y.items)
  {
    var line := Lines.Rest(LF, bytes);
    Lines.AppendSeparator(LF, bytes);
    FeedConcat(f, s, Lines.Complete(LF, bytes), [line]);
    FeedOne(f, OneShot(f, s, bytes).state, line);
  }

  // Scanning.

  /** Bytes taken in, bytes compared with a line feed, lines taken out, and bytes copied into them. */
  datatype Work = Work(received: nat, compared: nat, lines: nat, copied: nat) {

    function Receive(n: nat): Work
    {
      this.(received := received + n)
    }

    function Compare(): Work
    {
      this.(compared := compared + 1)
    }

    function Line(length: nat): Work
    {
      this.(lines := lines + 1, copied := copied + length)
    }

    /** Bytes that have left the buffer: lines and their line feeds. */
    function Out(): nat
    {
      copied + lines
    }

    /** All but `n` bytes were compared, once each, and those not kept were copied out once or were line feeds. */
    predicate Owes(n: int, kept: int)
    {
      compared + n == received && Out() + kept == received
    }

    /** Between frames nothing is left to compare. */
    predicate Settled(kept: nat)
    {
      Owes(0, kept)
    }
  }

  const NO_WORK := Work(0, 0, 0, 0)

  /**
   How far a scan of `all` has come that began in `c`: the lines up to `position` are handled, the last
   one ends before `processed`, and this is the state and the queue they left.
   */
  ghost predicate Scanned<S, I>(f: (S, seq<Byte>) -> Fed<S, I>, c: Conf<S, I>, all: seq<Byte>,
                                position: nat, processed: nat, state: S, queue: seq<I>)
  {
    && processed <= position <= |all|
    && all[processed..position] == Lines.Rest(LF, all[..position])
    && state == OneShot(f, c.state, all[..position]).state
    && queue == c.queue + OneShot(f, c.state, all[..position]).items
  }

  /** What holds no line feed needs no scan. */
  lemma SkipCleanPrefix<S, I>(f: (S, seq<Byte>) -> Fed<S, I>, c: Conf<S, I>, all: seq<Byte>)
    requires LF !in c.buffer && c.buffer <= all
    ensures Scanned(f, c, all, |c.buffer|, 0, c.state, c.queue)
  {
    Lines.NoSeparator(LF, c.buffer);
    assert all[..|c.buffer|] == c.buffer;
  }

  lemma ScanLine<S, I>(f: (S, seq<Byte>) -> Fed<S, I>, c: Conf<S, I>, all: seq<Byte>,
                       position: nat, processed: nat, state: S, queue: seq<I>)
    requires Scanned(f, c, all, position, processed, state, queue)
    requires position < |all| && all[position] == LF
    ensures var last := f(state, all[processed..position]);
            Scanned(f, c, all, position + 1, position + 1, last.state, queue + last.items)
  {
    assert all[..position + 1] == all[..position] + [LF];
    Lines.AppendSeparator(LF, all[..position]);
    OneShotLine(f, c.state, all[..position]);
  }

  lemma ScanByte<S, I>(f: (S, seq<Byte>) -> Fed<S, I>, c: Conf<S, I>, all: seq<Byte>,
                       position: nat, processed: nat, state: S, queue: seq<I>)
    requires Scanned(f, c, all, position, processed, state, queue)
    requires position < |all| && all[position] != LF
    ensures Scanned(f, c, all, position + 1, processed, state, queue)
  {
    assert all[..position + 1] == all[..position] + [all[position]];
    assert all[processed..position + 1] == all[processed..position] + [all[position]];
    Lines.AppendPiece(LF, all[..position], [all[position]]);
  }

  /** How far the scan has come: what is taken out, and the state and the queue the lines left. */
  datatype Reached<S, I> = Reached(processed: nat, state: S, queue: seq<I>)

  /** The scan itself, from behind what was buffered up to `position`. */
  function Scan<S, I>(f: (S, seq<Byte>) -> Fed<S, I>, c: Conf<S, I>, all: seq<Byte>, position: nat): (r: Reached<S, I>)
    requires position <= |all|
    ensures r.processed <= position
    decreases position
  {
    if position <= |c.buffer| then Reached(0, c.state, c.queue)
    else
      var before := Scan(f, c, all, position - 1);
      if all[position - 1] != LF then before
      else
        var last := f(before.state, all[before.processed..position - 1]);
        Reached(position, last.state, before.queue + last.items)
  }

  /** What the scan skips holds no line feed, so its lines are those of the whole. */
  lemma {:induction false} ScanFollows<S, I>(f: (S, seq<Byte>) -> Fed<S, I>, c: Conf<S, I>, all: seq<Byte>, position: nat)
    requires LF !in c.buffer && c.buffer <= all && |c.buffer| <= position <= |all|
    ensures var r := Scan(f, c, all, position); Scanned(f, c, all, position, r.processed, r.state, r.queue)
    decreases position
  {
    if position == |c.buffer| {
      SkipCleanPrefix(f, c, all);
    } else {
      ScanFollows(f, c, all, position - 1);
      var r := Scan(f, c, all, position - 1);
      if all[position - 1] == LF {
        ScanLine(f, c, all, position - 1, r.processed, r.state, r.queue);
      } else {
        ScanByte(f, c, all, position - 1, r.processed, r.state, r.queue);
      }
    }
  }

  /** A finished scan of what was buffered and the new bytes, with what it left and what it queued, is `Absorb`. */
  lemma ScanEnd<S, I>(f: (S, seq<Byte>) -> Fed<S, I>, c: Conf<S, I>, bytes: seq<Byte>)
    requires LF !in c.buffer
    ensures var r := Scan(f, c, c.buffer + bytes, |c.buffer + bytes|);
            && Absorb(f, c, bytes) == Conf(c.consumed, (c.buffer + bytes)[r.processed..], r.state, r.queue)
            && LF !in (c.buffer + bytes)[r.processed..]
  {
    var all := c.buffer + bytes;
    ScanFollows(f, c, all, |all|);
    assert all[..|all|] == all;
    Lines.SplitIsExact(LF, all);
  }

  // Outcomes.

  lemma DeliveredAppend<I, E>(outcomes: seq<Outcome<I, E>>, o: Outcome<I, E>)
    ensures Delivered(outcomes + [o]) == Delivered(outcomes) + if o.Yield? || o.Fault? then [o] else []
    ensures ItemsOf(outcomes + [o]) == ItemsOf(outcomes) + if o.Yield? then [o.item] else []
  {
    assert (outcomes + [o])[..|outcomes|] == outcomes;
  }

  lemma {:induction false} DeliveredConcat<I, E>(a: seq<Outcome<I, E>>, b: seq<Outcome<I, E>>)
    ensures Delivered(a + b) == Delivered(a) + Delivered(b)
    ensures ItemsOf(a + b) == ItemsOf(a) + ItemsOf(b)
    decreases |b|
  {
    if b == [] {
      assert a + b == a;
    } else {
      var init, last := b[..|b| - 1], b[|b| - 1];
      DeliveredConcat(a, init);
      DeliveredAppend(a + init, last);
      DeliveredAppend(init, last);
      assert b == init + [last] && a + b == (a + init) + [last];
    }
  }

  lemma OneOutcome<I, E>(o: Outcome<I, E>)
    ensures Delivered([o]) == if o.Yield? || o.Fault? then [o] else []
    ensures ItemsOf([o]) == if o.Yield? then [o.item] else []
  {
    DeliveredAppend([], o);
    assert [] + [o] == [o];
  }

  lemma {:induction false} ItemsOfYields<I, E>(items: seq<I>)
    ensures ItemsOf(Yields<I, E>(items)) == items
    decreases |items|
  {
    if items != [] {
      var init := items[..|items| - 1];
      ItemsOfYields<I, E>(init);
      assert Yields<I, E>(items)[..|items| - 1] == Yields<I, E>(init);
      assert items == init + [items[|items| - 1]];
    }
  }

  // Whole runs.

  /** What one poll does to the invariant of `RunFollowsBody`. */
  ghost predicate Follows<S, I, E>(f: (S, seq<Byte>) -> Fed<S, I>, s: S, body: nat -> BodyPoll<E>, t: Trace<S, I, E>)
  {
    var all := Received(body, t.conf.consumed);
    && t.conf.buffer == Lines.Rest(LF, all)
    && t.conf.state == OneShot(f, s, all).state
    && Delivered(t.outcomes) + Yields(t.conf.queue) == Merge(f, s, body, t.conf.consumed)
  }

  /** Taking one frame keeps buffer and state in step, and queues what `Arrivals` says. */
  lemma AbsorbArrives<S, I, E>(f: (S, seq<Byte>) -> Fed<S, I>, s: S, body: nat -> BodyPoll<E>, c: Conf<S, I>)
    requires body(c.consumed).Data? && c.queue == []
    requires c.buffer == Lines.Rest(LF, Received(body, c.consumed))
    requires c.state == OneShot(f, s, Received(body, c.consumed)).state
    ensures var d := Absorb(f, c, body(c.consumed).frame.Remaining());
            && d.buffer == Lines.Rest(LF, Received(body, c.consumed + 1))
            && d.state == OneShot(f, s, Received(body, c.consumed + 1)).state
            && Yields(d.queue) == Arrivals(f, s, body, c.consumed)
  {
    var bytes, all := body(c.consumed).frame.Remaining(), Received(body, c.consumed);
    assert Received(body, c.consumed + 1) == all + bytes;
    OneShotConcat(f, s, all, bytes);
    Lines.SplitConcat(LF, all, bytes);
    var fed := Feed(f, c.state, Lines.Complete(LF, c.buffer + bytes));
    assert (OneShot(f, s, all).items + fed.items)[|OneShot(f, s, all).items|..] == fed.items;
    assert [] + fed.items == fed.items;
  }

  lemma PollFollowsBody<S, I, E>(f: (S, seq<Byte>) -> Fed<S, I>, s: S, body: nat -> BodyPoll<E>, t: Trace<S, I, E>)
    requires Follows(f, s, body, t)
    ensures var (conf, outcome) := PollNext(f, body, t.conf);
            Follows(f, s, body, Trace(conf, t.outcomes + [outcome]))
  {
    var c := t.conf;
    var (conf, outcome) := PollNext(f, body, c);
    var delivered := Delivered(t.outcomes);
    DeliveredAppend(t.outcomes, outcome);
    if c.queue != [] {
      PopQueue<I, E>(delivered, c.queue);
    } else {
      assert delivered + Yields<I, E>([]) == delivered;
      BodyFollowsBody(f, s, body, c, delivered);
    }
  }

  lemma FrameFollowsBody<S, I, E>(f: (S, seq<Byte>) -> Fed<S, I>, s: S, body: nat -> BodyPoll<E>, c: Conf<S, I>,
                                  delivered: seq<Outcome<I, E>>)
    requires body(c.consumed).Data? && c.queue == []
    requires c.buffer == Lines.Rest(LF, Received(body, c.consumed))
    requires c.state == OneShot(f, s, Received(body, c.consumed)).state
    ensures var (conf, outcome) := PollNext(f, body, c);
            && conf.consumed == c.consumed + 1
            && conf.buffer == Lines.Rest(LF, Received(body, c.consumed + 1))
            && conf.state == OneShot(f, s, Received(body, c.consumed + 1)).state
            && delivered + (if outcome.Yield? || outcome.Fault? then [outcome] else []) + Yields(conf.queue)
               == delivered + Arrivals(f, s, body, c.consumed)
  {
    AbsorbArrives(f, s, body, c);
    var queue := Absorb(f, c, body(c.consumed).frame.Remaining()).queue;
    if queue != [] {
      PopQueue<I, E>(delivered, queue);
    }
  }

  lemma QuietFollowsBody<S, I, E>(f: (S, seq<Byte>) -> Fed<S, I>, s: S, body: nat -> BodyPoll<E>, c: Conf<S, I>,
                                  delivered: seq<Outcome<I, E>>)
    requires !body(c.consumed).Data? && c.queue == []
    ensures var (conf, outcome) := PollNext(f, body, c);
            && conf == c.(consumed := c.consumed + 1)
            && Received(body, c.consumed + 1) == Received(body, c.consumed)
            && delivered + (if outcome.Yield? || outcome.Fault? then [outcome] else []) + Yields(conf.queue)
               == delivered + Arrivals(f, s, body, c.consumed)
  {
  }

  lemma BodyFollowsBody<S, I, E>(f: (S, seq<Byte>) -> Fed<S, I>, s: S, body: nat -> BodyPoll<E>, c: Conf<S, I>,
                                 delivered: seq<Outcome<I, E>>)
    requires c.queue == [] && delivered == Merge(f, s, body, c.consumed)
    requires c.buffer == Lines.Rest(LF, Received(body, c.consumed))
    requires c.state == OneShot(f, s, Received(body, c.consumed)).state
    ensures var (conf, outcome) := PollNext(f, body, c);
            && conf.consumed == c.consumed + 1
            && conf.buffer == Lines.Rest(LF, Received(body, c.consumed + 1))
            && conf.state == OneShot(f, s, Received(body, c.consumed + 1)).state
            && delivered + (if outcome.Yield? || outcome.Fault? then [outcome] else []) + Yields(conf.queue)
               == Merge(f, s, body, c.consumed + 1)
  {
    assert Merge(f, s, body, c.consumed + 1) == delivered + Arrivals(f, s, body, c.consumed);
    if body(c.consumed).Data? {
      FrameFollowsBody(f, s, body, c, delivered);
    } else {
      QuietFollowsBody(f, s, body, c, delivered);
    }
  }

  lemma PopQueue<I, E>(delivered: seq<Outcome<I, E>>, queue: seq<I>)
    requires queue != []
    ensures delivered + Yields(queue) == (delivered + [Yield(queue[0])]) + Yields(queue[1..])
  {
    assert Yields<I, E>(queue) == [Yield(queue[0])] + Yields(queue[1..]);
  }

  /**
   For every body and every number of polls: the bytes kept are those after the last line feed
   received, the handler's state is that of the one-shot specification, and what was delivered
   followed by what is queued is exactly the merge of items and body errors.
   */
  lemma {:induction false} RunFollowsBody<S, I, E>(f: (S, seq<Byte>) -> Fed<S, I>, s: S, body: nat -> BodyPoll<E>, n: nat)
    ensures Follows(f, s, body, Run(f, body, s, n))
    decreases n
  {
    if n > 0 {
      RunFollowsBody(f, s, body, n - 1);
      PollFollowsBody(f, s, body, Run(f, body, s, n - 1));
    }
  }

  lemma ArrivedItems<S, I, E>(f: (S, seq<Byte>) -> Fed<S, I>, s: S, body: nat -> BodyPoll<E>, k: nat)
    ensures OneShot(f, s, Received(body, k)).items + ItemsOf(Arrivals(f, s, body, k)) == OneShot(f, s, Received(body, k + 1)).items
  {
    match body(k)
    case Data(frame) =>
      OneShotConcat(f, s, Received(body, k), frame.Remaining());
      ItemsOfYields<I, E>(OneShot(f, s, Received(body, k + 1)).items[|OneShot(f, s, Received(body, k)).items|..]);
    case Failure(e) =>
      OneOutcome<I, E>(Fault(e));
    case _ =>
  }

  ghost predicate MergeHasItems<S, I, E>(f: (S, seq<Byte>) -> Fed<S, I>, s: S, body: nat -> BodyPoll<E>, k: nat)
  {
    ItemsOf(Merge(f, s, body, k)) == OneShot(f, s, Received(body, k)).items
  }

  lemma MergedItemsStep<S, I, E>(f: (S, seq<Byte>) -> Fed<S, I>, s: S, body: nat -> BodyPoll<E>, k: nat)
    requires MergeHasItems(f, s, body, k)
    ensures MergeHasItems(f, s, body, k + 1)
  {
    DeliveredConcat(Merge(f, s, body, k), Arrivals(f, s, body, k));
    ArrivedItems(f, s, body, k);
  }

  /** Leaving the errors out, the merge is the one-shot specification of all bytes received. */
  lemma {:induction false} MergedItems<S, I, E>(f: (S, seq<Byte>) -> Fed<S, I>, s: S, body: nat -> BodyPoll<E>, k: nat)
    ensures MergeHasItems(f, s, body, k)
  {
    if k > 0 {
      MergedItems(f, s, body, k - 1);
      MergedItemsStep(f, s, body, k - 1);
    }
  }

  lemma {:induction false} ItemsOfDelivered<I, E>(outcomes: seq<Outcome<I, E>>)
    ensures ItemsOf(Delivered(outcomes)) == ItemsOf(outcomes)
    decreases |outcomes|
  {
    if outcomes != [] {
      var init, last := outcomes[..|outcomes| - 1], outcomes[|outcomes| - 1];
      ItemsOfDelivered(init);
      OneOutcome(last);
      DeliveredConcat(Delivered(init), if last.Yield? || last.Fault? then [last] else []);
    }
  }

  /** Items yielded, then items queued, are the one-shot specification of all bytes received. */
  lemma RunItems<S, I, E>(f: (S, seq<Byte>) -> Fed<S, I>, s: S, body: nat -> BodyPoll<E>, n: nat)
    ensures var t := Run(f, body, s, n);
            ItemsOf(t.outcomes) + t.conf.queue == OneShot(f, s, Received(body, t.conf.consumed)).items
  {
    var t := Run(f, body, s, n);
    RunFollowsBody(f, s, body, n);
    MergedItems(f, s, body, t.conf.consumed);
    DeliveredConcat(Delivered(t.outcomes), Yields(t.conf.queue));
    ItemsOfYields<I, E>(t.conf.queue);
    ItemsOfDelivered(t.outcomes);
  }

  /**
   Framing invariance: two runs that received the same bytes, however the bytes were cut into
   frames and chunks and whatever else the bodies answered, hold the same rest and the same state
   and have produced the same items.
   */
  lemma FramingInvariance<S, I, E>(f: (S, seq<Byte>) -> Fed<S, I>, s: S,
                                   body1: nat -> BodyPoll<E>, n1: nat, body2: nat -> BodyPoll<E>, n2: nat)
    requires Received(body1, Run(f, body1, s, n1).conf.consumed) == Received(body2, Run(f, body2, s, n2).conf.consumed)
    ensures var (t1, t2) := (Run(f, body1, s, n1), Run(f, body2, s, n2));
            && t1.conf.buffer == t2.conf.buffer
            && t1.conf.state == t2.conf.state
            && ItemsOf(t1.outcomes) + t1.conf.queue == ItemsOf(t2.outcomes) + t2.conf.queue
  {
    RunFollowsBody(f, s, body1, n1);
    RunFollowsBody(f, s, body2, n2);
    RunItems(f, s, body1, n1);
    RunItems(f, s, body2, n2);
  }

  // How long a run takes.

  ghost predicate AtMostOneItem<S(!new), I>(f: (S, seq<Byte>) -> Fed<S, I>)
  {
    forall s, line :: |f(s, line).items| <= 1
  }

  lemma {:induction false} FeedCount<S(!new), I>(f: (S, seq<Byte>) -> Fed<S, I>, s: S, lines: seq<seq<Byte>>)
    requires AtMostOneItem(f)
    ensures |Feed(f, s, lines).items| <= |lines|
    decreases |lines|
  {
    if lines != [] {
      FeedCount(f, s, lines[..|lines| - 1]);
    }
  }

  function LineFeeds<E>(body: nat -> BodyPoll<E>, k: nat): nat
  {
    multiset(Received(body, k))[LF]
  }

  lemma {:induction false} LineFeedsGrow<E>(body: nat -> BodyPoll<E>, j: nat, k: nat)
    requires j <= k
    ensures LineFeeds(body, j) <= LineFeeds(body, k)
    decreases k
  {
    if j < k {
      LineFeedsGrow(body, j, k - 1);
    }
  }

  /** Each poll takes a body result or a queued item: polls are bounded by results plus line feeds. */
  lemma {:induction false} DrainBound<S(!new), I, E>(f: (S, seq<Byte>) -> Fed<S, I>, s: S, body: nat -> BodyPoll<E>, n: nat)
    requires AtMostOneItem(f)
    ensures var c := Run(f, body, s, n).conf;
            n + |c.queue| <= c.consumed + LineFeeds(body, c.consumed)
  {
    var t := Run(f, body, s, n);
    PollsSplit(f, s, body, n);
    RunItems(f, s, body, n);
    var all := Received(body, t.conf.consumed);
    FeedCount(f, s, Lines.Complete(LF, all));
    Lines.CountComplete(LF, all);
  }

  /** A poll takes a body result or yields an item. */
  lemma PollTakesOrYields<S, I, E>(f: (S, seq<Byte>) -> Fed<S, I>, body: nat -> BodyPoll<E>, before: Trace<S, I, E>)
    ensures var (conf, outcome) := PollNext(f, body, before.conf);
            conf.consumed + |ItemsOf(before.outcomes + [outcome])| > before.conf.consumed + |ItemsOf(before.outcomes)|
  {
    DeliveredAppend(before.outcomes, PollNext(f, body, before.conf).1);
  }

  /** Every poll that took no body result yielded an item. */
  lemma {:induction false} PollsSplit<S, I, E>(f: (S, seq<Byte>) -> Fed<S, I>, s: S, body: nat -> BodyPoll<E>, n: nat)
    ensures var t := Run(f, body, s, n); n <= t.conf.consumed + |ItemsOf(t.outcomes)|
    decreases n
  {
    if n > 0 {
      PollsSplit(f, s, body, n - 1);
      PollTakesOrYields(f, body, Run(f, body, s, n - 1));
    }
  }

  /** The `k`-th body result has been taken after at most `k` polls plus one per line feed before it. */
  lemma BodyIsReached<S(!new), I, E>(f: (S, seq<Byte>) -> Fed<S, I>, s: S, body: nat -> BodyPoll<E>, k: nat, n: nat)
    requires AtMostOneItem(f)
    requires n >= k + LineFeeds(body, k)
    ensures Run(f, body, s, n).conf.consumed >= k
  {
    DrainBound(f, s, body, n);
    var c := Run(f, body, s, n).conf;
    if c.consumed < k {
      LineFeedsGrow(body, c.consumed, k);
    }
  }

  /**
   What each outcome says of its poll: pending without waking the task only when the body said
   pending; finished exactly when nothing was queued and the body ended.
   */
  lemma OutcomeMeans<S, I, E>(f: (S, seq<Byte>) -> Fed<S, I>, body: nat -> BodyPoll<E>, c: Conf<S, I>)
    ensures var (d, outcome) := PollNext(f, body, c);
            && (outcome == Waiting(false) ==> c.queue == [] && body(c.consumed).Pending?)
            && (outcome == Waiting(true) ==> c.queue == [] && (body(c.consumed).Data? || body(c.consumed).Trailers?))
            && (outcome.Finished? <==> c.queue == [] && body(c.consumed).End?)
            && (outcome.Waiting? || outcome.Finished? ==> d.queue == [] && d.consumed == c.consumed + 1)
  {
  }

  /** When a poll is pending or finished, everything complete so far has been delivered: nothing is held back. */
  lemma NothingHeldBack<S, I, E>(f: (S, seq<Byte>) -> Fed<S, I>, s: S, body: nat -> BodyPoll<E>, n: nat)
    ensures var t := Run(f, body, s, n + 1);
            t.outcomes[n].Waiting? || t.outcomes[n].Finished? ==>
              t.conf.queue == [] && Delivered(t.outcomes) == Merge(f, s, body, t.conf.consumed)
  {
    var t := Run(f, body, s, n + 1);
    OutcomeMeans(f, body, Run(f, body, s, n).conf);
    RunFollowsBody(f, s, body, n + 1);
    if t.conf.queue == [] {
      assert Delivered(t.outcomes) + Yields(t.conf.queue) == Delivered(t.outcomes);
    }
  }

  lemma {:induction false} TakingPoll<S, I, E>(f: (S, seq<Byte>) -> Fed<S, I>, s: S, body: nat -> BodyPoll<E>, k: nat, n: nat) returns (m: nat)
    requires Run(f, body, s, n).conf.consumed > k
    ensures m < n && Run(f, body, s, m).conf.consumed == k && Run(f, body, s, m + 1).conf.consumed == k + 1
    decreases n
  {
    if Run(f, body, s, n - 1).conf.consumed > k {
      m := TakingPoll(f, s, body, k, n - 1);
    } else {
      m := n - 1;
    }
  }

  lemma FinishAdds<I, E>(outcomes: seq<Outcome<I, E>>, queue: seq<I>)
    requires queue == []
    ensures Delivered(outcomes + [Finished]) == Delivered(outcomes) + Yields(queue)
    ensures ItemsOf(outcomes + [Finished]) == ItemsOf(outcomes) + queue
  {
    DeliveredAppend(outcomes, Finished);
  }

  lemma EndPoll<S, I, E>(f: (S, seq<Byte>) -> Fed<S, I>, s: S, body: nat -> BodyPoll<E>, n: nat)
    requires var c := Run(f, body, s, n).conf; c.queue == [] && body(c.consumed).End?
    ensures var before, t := Run(f, body, s, n), Run(f, body, s, n + 1);
            t.outcomes == before.outcomes + [Finished] && t.conf == before.conf.(consumed := before.conf.consumed + 1)
  {
  }

  /** The items and errors delivered when a poll has just found the end of the body. */
  lemma DeliveredAtEnd<S, I, E>(f: (S, seq<Byte>) -> Fed<S, I>, s: S, body: nat -> BodyPoll<E>, n: nat)
    requires var c := Run(f, body, s, n).conf; c.queue == [] && body(c.consumed).End?
    ensures var k, t := Run(f, body, s, n).conf.consumed, Run(f, body, s, n + 1);
            && t.outcomes[n] == Finished && t.conf == Run(f, body, s, n).conf.(consumed := k + 1)
            && t.conf.buffer == Lines.Rest(LF, Received(body, k))
            && ItemsOf(t.outcomes) == OneShot(f, s, Received(body, k)).items
            && Delivered(t.outcomes) == Merge(f, s, body, k)
  {
    var before := Run(f, body, s, n);
    EndPoll(f, s, body, n);
    RunFollowsBody(f, s, body, n);
    RunItems(f, s, body, n);
    FinishAdds(before.outcomes, before.conf.queue);
  }

  /**
   A body that ends at result `k` makes some poll finish, soon enough: before it come at most `k` polls
   that took a body result and one poll per line feed. By then all items have been yielded.
   */
  lemma EndIsReached<S(!new), I, E>(f: (S, seq<Byte>) -> Fed<S, I>, s: S, body: nat -> BodyPoll<E>, k: nat) returns (n: nat)
    requires AtMostOneItem(f) && body(k).End?
    ensures n <= k + LineFeeds(body, k)
    ensures var t := Run(f, body, s, n + 1);
            && t.outcomes[n] == Finished && t.conf.consumed == k + 1
            && t.conf.queue == [] && t.conf.buffer == Lines.Rest(LF, Received(body, k))
            && ItemsOf(t.outcomes) == OneShot(f, s, Received(body, k)).items
            && Delivered(t.outcomes) == Merge(f, s, body, k)
  {
    var bound := k + 1 + LineFeeds(body, k + 1);
    BodyIsReached(f, s, body, k + 1, bound);
    n := TakingPoll(f, s, body, k, bound);
    DeliveredAtEnd(f, s, body, n);
  }
}
