/**
 The send side of an HTTP/3 stream: a buffer drained by partial writes into a transport that may
 accept any part of what it is given, refuse, fail, or accept nothing for ever.
 */
module H3Send {
  import opened Wrappers
  import opened Bytes
  import opened H3Receive

  datatype WriteReply = Accept(n: nat) | WriteFailed | WriteBlocked

  datatype FlushReply = Flushed | FlushFailed | FlushBlocked

  /** All the replies a transport will ever give. It never accepts more than it is given. */
  datatype Peer = Peer(writes: nat -> WriteReply, flushes: nat -> FlushReply)

  /** Replies used so far, bytes accepted so far, and how many of them the last successful flush covered. */
  datatype Wire = Wire(written: nat, flushes: nat, accepted: seq<Byte>, flushed: nat)

  datatype Sender = Sender(wire: Wire, buf: seq<Byte>)

  /** `Poll<Result<(), StreamErrorIncoming>>`. */
  datatype Poll = Ready | Failed | Pending

  const NEW := Sender(Wire(0, 0, [], 0), [])

  function Taken(n: nat, buf: seq<Byte>): (r: nat)
    ensures r <= |buf| && r <= n
  {
    if n <= |buf| then n else |buf|
  }

  function AfterWrite(peer: Peer, wire: Wire, buf: seq<Byte>): Wire
  {
    var next := wire.(written := wire.written + 1);
    match peer.writes(wire.written)
    case Accept(n) => next.(accepted := wire.accepted + buf[..Taken(n, buf)])
    case _ => next
  }

  /**
   The drain loop for at most `k` writes, and what it returned. `None` means that it has not returned:
   the buffer is not empty and every reply so far was an acceptance.
   */
  function Drain(peer: Peer, s: Sender, k: nat): (Sender, Option<Poll>)
    decreases k
  {
    if s.buf == [] then (s, Some(Ready))
    else if k == 0 then (s, None)
    else
      var wire := AfterWrite(peer, s.wire, s.buf);
      match peer.writes(s.wire.written)
      case Accept(n) => Drain(peer, Sender(wire, s.buf[Taken(n, s.buf)..]), k - 1)
      case WriteFailed => (Sender(wire, s.buf), Some(Failed))
      case WriteBlocked => (Sender(wire, s.buf), Some(Pending))
  }

  function Flush(peer: Peer, wire: Wire): (Wire, Poll)
  {
    var next := wire.(flushes := wire.flushes + 1);
    match peer.flushes(wire.flushes)
    case Flushed => (next.(flushed := |wire.accepted|), Ready)
    case FlushFailed => (next, Failed)
    case FlushBlocked => (next, Pending)
  }

  /** `poll_finish`: drain, and flush only what has drained. */
  function Finish(peer: Peer, s: Sender, k: nat): (Sender, Option<Poll>)
  {
    var (d, r) := Drain(peer, s, k);
    if r != Some(Ready) then (d, r)
    else
      var (wire, answer) := Flush(peer, d.wire);
      (Sender(wire, d.buf), Some(answer))
  }

  datatype Call = SendData(data: Buf) | PollReady(k: nat) | PollFinish(k: nat)

  /** One call, or the first `k` writes of one that polls. */
  function Perform(peer: Peer, s: Sender, call: Call): (Sender, Option<Poll>)
  {
    match call
    case SendData(data) => (s.(buf := s.buf + data.Remaining()), Some(Ready))
    case PollReady(k) => Drain(peer, s, k)
    case PollFinish(k) => Finish(peer, s, k)
  }

  function PerformAll(peer: Peer, s: Sender, calls: seq<Call>): Sender
  {
    if calls == [] then s else Perform(peer, PerformAll(peer, s, calls[..|calls| - 1]), calls[|calls| - 1]).0
  }

  /** Everything passed to `send_data`, in order. */
  function Sent(calls: seq<Call>): seq<Byte>
  {
    if calls == [] then []
    else
      var before := Sent(calls[..|calls| - 1]);
      match calls[|calls| - 1] case SendData(data) => before + data.Remaining() case _ => before
  }

  // Conservation.

  /** `t` has the bytes of `s`, some of them moved on into the wire, and no flush happened. */
  ghost predicate Moved(s: Sender, t: Sender)
  {
    && t.wire.accepted + t.buf == s.wire.accepted + s.buf
    && s.wire.accepted <= t.wire.accepted
    && t.wire.flushed == s.wire.flushed
  }

  /** However many writes the loop has made, returned or not: no byte is lost, repeated or overtaken. */
  lemma {:induction false} DrainConserves(peer: Peer, s: Sender, k: nat)
    ensures Moved(s, Drain(peer, s, k).0)
    ensures Drain(peer, s, k).1 == Some(Ready) <==> Drain(peer, s, k).0.buf == []
    decreases k
  {
    if s.buf != [] && k > 0 && peer.writes(s.wire.written).Accept? {
      var m := Taken(peer.writes(s.wire.written).n, s.buf);
      var t := Sender(AfterWrite(peer, s.wire, s.buf), s.buf[m..]);
      assert s.buf == s.buf[..m] + s.buf[m..];
      assert t.wire.accepted + t.buf == s.wire.accepted + s.buf;
      DrainConserves(peer, t, k - 1);
    }
  }

  /** The last write that a call made from `s` on, if it made one, was answered so. */
  predicate LastWrite(peer: Peer, s: Sender, t: Sender, reply: WriteReply)
  {
    t.wire.written > s.wire.written && peer.writes(t.wire.written - 1) == reply
  }

  /** A drain fails or waits if and only if its last write did, and then bytes are still buffered. */
  lemma {:induction false} DrainReports(peer: Peer, s: Sender, k: nat)
    ensures var (t, r) := Drain(peer, s, k);
            && t.wire.written >= s.wire.written
            && (r == Some(Failed) <==> LastWrite(peer, s, t, WriteFailed))
            && (r == Some(Pending) <==> LastWrite(peer, s, t, WriteBlocked))
            && (r == Some(Failed) || r == Some(Pending) ==> t.buf != [])
    decreases k
  {
    if s.buf != [] && k > 0 && peer.writes(s.wire.written).Accept? {
      var m := Taken(peer.writes(s.wire.written).n, s.buf);
      var next := Sender(AfterWrite(peer, s.wire, s.buf), s.buf[m..]);
      DrainReports(peer, next, k - 1);
      var t := Drain(peer, next, k - 1).0;
      assert t.wire.written == next.wire.written ==> peer.writes(t.wire.written - 1).Accept?;
    }
  }

  /**
   What each answer of a `poll_finish` means. If the buffer has drained, one flush is made and its reply is the
   answer; otherwise none is, and the answer is that of the last write. Only a flush that succeeds counts.
   */
  lemma FinishReports(peer: Peer, s: Sender, k: nat)
    ensures var (t, r) := Finish(peer, s, k);
            var flush := peer.flushes(s.wire.flushes);
            && t.wire.flushes == s.wire.flushes + (if t.buf == [] then 1 else 0)
            && (r == Some(Ready) <==> t.buf == [] && flush == Flushed)
            && (r == Some(Failed) <==> if t.buf == [] then flush == FlushFailed else LastWrite(peer, s, t, WriteFailed))
            && (r == Some(Pending) <==> if t.buf == [] then flush == FlushBlocked else LastWrite(peer, s, t, WriteBlocked))
            && t.wire.flushed == if r == Some(Ready) then |t.wire.accepted| else s.wire.flushed
  {
    DrainReports(peer, s, k);
    DrainConserves(peer, s, k);
    DrainNeverFlushes(peer, s, k);
  }

  lemma {:induction false} DrainNeverFlushes(peer: Peer, s: Sender, k: nat)
    ensures Drain(peer, s, k).0.wire.flushes == s.wire.flushes
    decreases k
  {
    if s.buf != [] && k > 0 && peer.writes(s.wire.written).Accept? {
      var m := Taken(peer.writes(s.wire.written).n, s.buf);
      DrainNeverFlushes(peer, Sender(AfterWrite(peer, s.wire, s.buf), s.buf[m..]), k - 1);
    }
  }

  /** After any calls: the bytes accepted, then those buffered, are exactly those sent, and no flush covered more. */
  lemma {:induction false} Conservation(peer: Peer, s: Sender, calls: seq<Call>)
    requires s.wire.flushed <= |s.wire.accepted|
    ensures var t := PerformAll(peer, s, calls);
            && t.wire.accepted + t.buf == s.wire.accepted + s.buf + Sent(calls)
            && t.wire.flushed <= |t.wire.accepted|
    decreases |calls|
  {
    if calls != [] {
      var init := calls[..|calls| - 1];
      Conservation(peer, s, init);
      var before := PerformAll(peer, s, init);
      match calls[|calls| - 1]
      case SendData(data) =>
        assert before.wire.accepted + (before.buf + data.Remaining()) == (before.wire.accepted + before.buf) + data.Remaining();
      case PollReady(k) => DrainConserves(peer, before, k);
      case PollFinish(k) => DrainConserves(peer, before, k);
    } else {
      assert s.wire.accepted + s.buf + [] == s.wire.accepted + s.buf;
    }
  }

  /** A `poll_finish` that succeeds has emptied the buffer into the transport, and its flush has succeeded. */
  lemma FinishDelivers(peer: Peer, s: Sender, k: nat)
    ensures var (t, r) := Finish(peer, s, k);
            r == Some(Ready) ==>
              && t.buf == [] && t.wire.accepted == s.wire.accepted + s.buf && t.wire.flushed == |t.wire.accepted|
              && t.wire.flushes > 0 && peer.flushes(t.wire.flushes - 1) == Flushed
  {
    FinishReports(peer, s, k);
    DrainConserves(peer, s, k);
    var t := Finish(peer, s, k).0;
    if t.buf == [] {
      assert t.wire.accepted + t.buf == t.wire.accepted;
    }
  }

  /**
   What a finished stream has done: if the last call is a `poll_finish` that returned success, the buffer is empty, the
   transport has accepted exactly what was ever sent, in order, and the last flush, which covered all of it, succeeded.
   */
  lemma FinishGuarantee(peer: Peer, calls: seq<Call>, k: nat)
    ensures var (t, r) := Finish(peer, PerformAll(peer, NEW, calls), k);
            r == Some(Ready) ==>
              && t.buf == [] && t.wire.accepted == Sent(calls) && t.wire.flushed == |Sent(calls)|
              && t.wire.flushes > 0 && peer.flushes(t.wire.flushes - 1) == Flushed
  {
    Conservation(peer, NEW, calls);
    assert [] + [] + Sent(calls) == Sent(calls);
    FinishDelivers(peer, PerformAll(peer, NEW, calls), k);
  }

  lemma MissingBytes(accepted: seq<Byte>, buf: seq<Byte>, later: seq<Byte>)
    ensures accepted + later == (accepted + buf) + later <==> buf == []
  {
    assert |accepted + later| + |buf| == |(accepted + buf) + later|;
    assert accepted + [] == accepted;
  }

  /**
   `split` starts the send half with an empty buffer: what was sent before and after it all arrives or is
   buffered, whatever follows, if and only if the old buffer had drained.
   */
  lemma SplitConservesIffDrained(peer: Peer, before: seq<Call>, after: seq<Call>)
    ensures var s := PerformAll(peer, NEW, before);
            var t := PerformAll(peer, Sender(s.wire, []), after);
            t.wire.accepted + t.buf == Sent(before) + Sent(after) <==> s.buf == []
  {
    var s := PerformAll(peer, NEW, before);
    var t := PerformAll(peer, Sender(s.wire, []), after);
    Conservation(peer, NEW, before);
    Conservation(peer, Sender(s.wire, []), after);
    assert [] + [] + Sent(before) == Sent(before);
    assert s.wire.accepted + [] == s.wire.accepted;
    MissingBytes(s.wire.accepted, s.buf, Sent(after));
  }

  /** A byte sent and not drained before `split` never arrives, whatever the transport does and whatever is sent after. */
  lemma SplitLosesBytes(peer: Peer, after: seq<Call>)
    ensures var before := [SendData(Buf([[1]]))];
            var t := PerformAll(peer, Sender(PerformAll(peer, NEW, before).wire, []), after);
            && Sent(before) == [1]
            && t.wire.accepted + t.buf == Sent(after) != Sent(before) + Sent(after)
  {
    var call := SendData(Buf([[1]]));
    assert [call][..0] == [];
    FlattenOne([1]);
    assert PerformAll(peer, NEW, [call]) == Sender(NEW.wire, [] + [1]);
    Conservation(peer, Sender(NEW.wire, []), after);
    assert [] + [] + Sent(after) == Sent(after);
  }

  // Termination of the drain loop.

  ghost predicate Returns(peer: Peer, s: Sender)
  {
    exists k: nat :: Drain(peer, s, k).1.Some?
  }

  ghost predicate AcceptsNothingFrom(peer: Peer, from: nat)
  {
    forall i: nat :: i >= from ==> peer.writes(i) == Accept(0)
  }

  /** The loop comes to a point with bytes still buffered from which the transport accepts nothing, for ever. */
  ghost predicate Spins(peer: Peer, s: Sender)
  {
    exists k: nat :: Drain(peer, s, k).1.None? && AcceptsNothingFrom(peer, Drain(peer, s, k).0.wire.written)
  }

  lemma {:induction false} DrainInTwo(peer: Peer, s: Sender, j: nat, k: nat)
    ensures Drain(peer, s, j).1.None? ==> Drain(peer, s, j + k) == Drain(peer, Drain(peer, s, j).0, k)
    ensures Drain(peer, s, j).1.Some? ==> Drain(peer, s, j + k) == Drain(peer, s, j)
    decreases j
  {
    if j > 0 && s.buf != [] && peer.writes(s.wire.written).Accept? {
      var m := Taken(peer.writes(s.wire.written).n, s.buf);
      DrainInTwo(peer, Sender(AfterWrite(peer, s.wire, s.buf), s.buf[m..]), j - 1, k);
    }
  }

  ghost predicate IdleBetween(peer: Peer, from: nat, to: nat)
  {
    forall i: nat :: from <= i < to ==> peer.writes(i) == Accept(0)
  }

  /** Writes that accept nothing leave the buffer and the bytes accepted as they are. */
  lemma {:induction false} IdleWrites(peer: Peer, s: Sender, k: nat)
    requires s.buf != [] && IdleBetween(peer, s.wire.written, s.wire.written + k)
    ensures Drain(peer, s, k) == (s.(wire := s.wire.(written := s.wire.written + k)), None)
    decreases k
  {
    if k > 0 {
      assert peer.writes(s.wire.written) == Accept(0);
      assert s.buf[0..] == s.buf && s.wire.accepted + s.buf[..0] == s.wire.accepted;
      IdleWrites(peer, s.(wire := s.wire.(written := s.wire.written + 1)), k - 1);
    }
  }

  lemma {:induction false} FirstWorkingWrite(peer: Peer, from: nat, i: nat) returns (j: nat)
    requires from <= i && peer.writes(i) != Accept(0)
    ensures from <= j && peer.writes(j) != Accept(0) && IdleBetween(peer, from, j)
    decreases i
  {
    if h: nat :| from <= h < i && peer.writes(h) != Accept(0) {
      j := FirstWorkingWrite(peer, from, h);
    } else {
      j := i;
    }
  }

  /** A loop that never returns has not returned after `j` writes, and never does from there. */
  lemma StaysEndless(peer: Peer, s: Sender, j: nat)
    requires !Returns(peer, s)
    ensures Drain(peer, s, j).1.None? && !Returns(peer, Drain(peer, s, j).0)
  {
    forall h: nat ensures Drain(peer, Drain(peer, s, j).0, h).1.None? {
      DrainInTwo(peer, s, j, h);
    }
  }

  /** One write that accepts something leaves a shorter buffer. */
  lemma OneAcceptance(peer: Peer, s: Sender)
    requires peer.writes(s.wire.written) != Accept(0) && Drain(peer, s, 1).1.None?
    ensures |Drain(peer, s, 1).0.buf| < |s.buf|
  {
  }

  /** A loop that never returns, over a transport that accepts something now and then, goes on to a shorter buffer. */
  lemma NextAcceptance(peer: Peer, s: Sender) returns (j: nat)
    requires !Returns(peer, s) && !AcceptsNothingFrom(peer, s.wire.written)
    ensures |Drain(peer, s, j).0.buf| < |s.buf|
  {
    var i: nat :| i >= s.wire.written && peer.writes(i) != Accept(0);
    var first := FirstWorkingWrite(peer, s.wire.written, i);
    var idle := first - s.wire.written;
    StaysEndless(peer, s, 0);
    IdleWrites(peer, s, idle);
    DrainInTwo(peer, s, idle, 1);
    j := idle + 1;
    StaysEndless(peer, s, j);
    OneAcceptance(peer, Drain(peer, s, idle).0);
  }

  lemma {:induction false} EndlessDrainSpins(peer: Peer, s: Sender) returns (k: nat)
    requires !Returns(peer, s)
    ensures Drain(peer, s, k).1.None? && AcceptsNothingFrom(peer, Drain(peer, s, k).0.wire.written)
    decreases |s.buf|
  {
    if AcceptsNothingFrom(peer, s.wire.written) {
      k := 0;
      StaysEndless(peer, s, k);
    } else {
      var j := NextAcceptance(peer, s);
      StaysEndless(peer, s, j);
      var rest := EndlessDrainSpins(peer, Drain(peer, s, j).0);
      DrainInTwo(peer, s, j, rest);
      k := j + rest;
    }
  }

  /** Once the loop is at a point where the transport accepts nothing for ever, it never returns. */
  lemma SpinningNeverReturns(peer: Peer, s: Sender, j: nat, k: nat)
    requires Drain(peer, s, j).1.None? && AcceptsNothingFrom(peer, Drain(peer, s, j).0.wire.written)
    ensures Drain(peer, s, k).1.None?
  {
    DrainConserves(peer, s, j);
    IdleWrites(peer, Drain(peer, s, j).0, k);
    DrainInTwo(peer, s, j, k);
    DrainInTwo(peer, s, k, j);
  }

  /** The drain loop returns unless it spins: nothing but an endless run of empty acceptances can hold it. */
  lemma ReturnsUnlessItSpins(peer: Peer, s: Sender)
    ensures Returns(peer, s) <==> !Spins(peer, s)
  {
    if !Returns(peer, s) {
      var k := EndlessDrainSpins(peer, s);
    }
    if Spins(peer, s) {
      var j: nat :| Drain(peer, s, j).1.None? && AcceptsNothingFrom(peer, Drain(peer, s, j).0.wire.written);
      forall k: nat ensures Drain(peer, s, k).1.None? {
        SpinningNeverReturns(peer, s, j, k);
      }
    }
  }

  /** There is room for more bytes than the first `n` replies from `from` on accept, and they are all acceptances. */
  ghost predicate AcceptsLess(peer: Peer, from: nat, n: nat, room: int)
    decreases n
  {
    && room > 0
    && (n > 0 ==> peer.writes(from).Accept? && AcceptsLess(peer, from + 1, n - 1, room - peer.writes(from).n))
  }

  /** Whether the loop goes on after `k` writes can be read off the replies and the length of the buffer. */
  lemma {:induction false} GoesOnIffAcceptsLess(peer: Peer, s: Sender, k: nat)
    ensures Drain(peer, s, k).1.None? <==> AcceptsLess(peer, s.wire.written, k, |s.buf|)
    ensures Drain(peer, s, k).1.None? ==> Drain(peer, s, k).0.wire.written == s.wire.written + k
    decreases k
  {
    if k > 0 && s.buf != [] && peer.writes(s.wire.written).Accept? {
      var n := peer.writes(s.wire.written).n;
      var t := Sender(AfterWrite(peer, s.wire, s.buf), s.buf[Taken(n, s.buf)..]);
      GoesOnIffAcceptsLess(peer, t, k - 1);
      if n >= |s.buf| {
        assert !AcceptsLess(peer, s.wire.written + 1, k - 1, |s.buf| - n);
      }
    }
  }

  /**
   A call does not return if and only if the transport's replies, some acceptances of fewer bytes in all than are
   buffered and then empty acceptances for ever, leave it no way to: a condition on the replies alone.
   */
  lemma NeverReturnsIffRepliesFallShort(peer: Peer, s: Sender)
    ensures !Returns(peer, s) <==>
            exists n: nat :: AcceptsLess(peer, s.wire.written, n, |s.buf|) && AcceptsNothingFrom(peer, s.wire.written + n)
  {
    ReturnsUnlessItSpins(peer, s);
    if Spins(peer, s) {
      var n: nat :| Drain(peer, s, n).1.None? && AcceptsNothingFrom(peer, Drain(peer, s, n).0.wire.written);
      GoesOnIffAcceptsLess(peer, s, n);
      assert AcceptsLess(peer, s.wire.written, n, |s.buf|) && AcceptsNothingFrom(peer, s.wire.written + n);
    }
    if n: nat :| AcceptsLess(peer, s.wire.written, n, |s.buf|) && AcceptsNothingFrom(peer, s.wire.written + n) {
      GoesOnIffAcceptsLess(peer, s, n);
      assert Drain(peer, s, n).1.None? && AcceptsNothingFrom(peer, Drain(peer, s, n).0.wire.written);
    }
  }

  /** A transport that answers every write with an acceptance of nothing holds the loop for ever. */
  lemma EmptyAcceptancesSpin()
    ensures var peer, s := Peer(_ => Accept(0), _ => Flushed), Sender(NEW.wire, [1]);
            Spins(peer, s) && !Returns(peer, s)
  {
    var peer, s := Peer(_ => Accept(0), _ => Flushed), Sender(NEW.wire, [1]);
    assert Drain(peer, s, 0) == (s, None) && AcceptsNothingFrom(peer, s.wire.written);
    ReturnsUnlessItSpins(peer, s);
  }

  /** If every successful write takes at least one byte, the loop returns within one write per buffered byte. */
  lemma {:induction false} WorkingWritesReturn(peer: Peer, s: Sender, k: nat)
    requires forall i: nat :: peer.writes(i) != Accept(0)
    requires k >= |s.buf|
    ensures Drain(peer, s, k).1.Some?
    decreases k
  {
    if s.buf != [] && peer.writes(s.wire.written).Accept? {
      var m := Taken(peer.writes(s.wire.written).n, s.buf);
      WorkingWritesReturn(peer, Sender(AfterWrite(peer, s.wire, s.buf), s.buf[m..]), k - 1);
    }
  }

  // Many calls.

  ghost predicate AcceptsAfter(peer: Peer, from: nat)
  {
    exists j: nat :: from <= j && peer.writes(j).Accept?
  }

  ghost predicate FlushesAfter(peer: Peer, from: nat)
  {
    exists j: nat :: from <= j && peer.flushes(j).Flushed?
  }

  /** The transport never fails, accepts something when it accepts, and goes on to accept and to flush at any time. */
  ghost predicate Lively(peer: Peer)
  {
    && (forall i: nat :: peer.writes(i) != WriteFailed && peer.writes(i) != Accept(0))
    && (forall i: nat :: peer.flushes(i) != FlushFailed)
    && (forall i: nat :: AcceptsAfter(peer, i))
    && (forall i: nat :: FlushesAfter(peer, i))
  }

  /** `poll_finish`, called `m` times with writes enough in each call. */
  function Finishes(k: nat, m: nat): (r: seq<Call>)
    ensures |r| == m && forall i :: 0 <= i < m ==> r[i] == PollFinish(k)
  {
    seq(m, i => PollFinish(k))
  }

  lemma PerformAppend(peer: Peer, s: Sender, calls: seq<Call>, call: Call)
    ensures PerformAll(peer, s, calls + [call]) == Perform(peer, PerformAll(peer, s, calls), call).0
  {
    assert (calls + [call])[..|calls|] == calls;
  }

  lemma SentAppend(calls: seq<Call>, call: Call)
    requires !call.SendData?
    ensures Sent(calls + [call]) == Sent(calls)
  {
    assert (calls + [call])[..|calls|] == calls;
  }

  lemma {:induction false} PerformConcat(peer: Peer, s: Sender, a: seq<Call>, b: seq<Call>)
    ensures PerformAll(peer, s, a + b) == PerformAll(peer, PerformAll(peer, s, a), b)
    decreases |b|
  {
    if b == [] {
      assert a + b == a;
    } else {
      var init, last := b[..|b| - 1], b[|b| - 1];
      PerformConcat(peer, s, a, init);
      PerformAppend(peer, s, a + init, last);
      assert a + b == (a + init) + [last];
    }
  }

  lemma OneFinish(peer: Peer, s: Sender, k: nat)
    ensures PerformAll(peer, s, Finishes(k, 1)) == Finish(peer, s, k).0
  {
    assert Finishes(k, 1)[..0] == [];
  }

  /** One call first, and then the others. */
  lemma FinishFirst(peer: Peer, s: Sender, k: nat, m: nat)
    ensures PerformAll(peer, s, Finishes(k, m + 1)) == PerformAll(peer, Finish(peer, s, k).0, Finishes(k, m))
  {
    assert Finishes(k, m + 1) == Finishes(k, 1) + Finishes(k, m);
    PerformConcat(peer, s, Finishes(k, 1), Finishes(k, m));
    OneFinish(peer, s, k);
  }

  /** Calls of `poll_finish` send nothing more. */
  lemma {:induction false} NothingSent(calls: seq<Call>, k: nat, m: nat)
    ensures Sent(calls + Finishes(k, m)) == Sent(calls)
    decreases m
  {
    if m == 0 {
      assert calls + Finishes(k, m) == calls;
    } else {
      NothingSent(calls, k, m - 1);
      SentAppend(calls + Finishes(k, m - 1), PollFinish(k));
      assert calls + Finishes(k, m) == (calls + Finishes(k, m - 1)) + [PollFinish(k)];
    }
  }

  /** The index of the next reply that lets a stream in this state go on. */
  ghost predicate GoesOnAt(peer: Peer, s: Sender, next: nat)
  {
    if s.buf == [] then s.wire.flushes <= next && peer.flushes(next).Flushed?
    else s.wire.written <= next && peer.writes(next).Accept?
  }

  lemma NextReply(peer: Peer, s: Sender) returns (next: nat)
    requires Lively(peer)
    ensures GoesOnAt(peer, s, next)
  {
    if s.buf == [] {
      assert FlushesAfter(peer, s.wire.flushes);
      next :| s.wire.flushes <= next && peer.flushes(next).Flushed?;
    } else {
      assert AcceptsAfter(peer, s.wire.written);
      next :| s.wire.written <= next && peer.writes(next).Accept?;
    }
  }

  /** A call whose first write accepts something leaves fewer bytes. */
  lemma AcceptingCallShrinks(peer: Peer, s: Sender, k: nat)
    requires s.buf != [] && k > 0 && peer.writes(s.wire.written).Accept? && peer.writes(s.wire.written) != Accept(0)
    ensures |Finish(peer, s, k).0.buf| < |s.buf|
  {
    var t := Sender(AfterWrite(peer, s.wire, s.buf), s.buf[Taken(peer.writes(s.wire.written).n, s.buf)..]);
    assert Drain(peer, s, k) == Drain(peer, t, k - 1);
    DrainConserves(peer, t, k - 1);
    var d := Drain(peer, t, k - 1).0;
    assert |d.wire.accepted| + |d.buf| == |t.wire.accepted| + |t.buf|;
  }

  /** With writes enough in each call, and the next favourable reply `next` ahead, some number of calls is enough. */
  lemma {:induction false} FinishesFrom(peer: Peer, s: Sender, k: nat, next: nat) returns (m: nat)
    requires Lively(peer) && k >= |s.buf| && GoesOnAt(peer, s, next)
    ensures Finish(peer, PerformAll(peer, s, Finishes(k, m)), k).1 == Some(Ready)
    decreases |s.buf|, next - (if s.buf == [] then s.wire.flushes else s.wire.written)
  {
    var (t, r) := Finish(peer, s, k);
    if r == Some(Ready) {
      m := 0;
    } else {
      var rest;
      if s.buf != [] && peer.writes(s.wire.written).Accept? {
        AcceptingCallShrinks(peer, s, k);
        var later := NextReply(peer, t);
        rest := FinishesFrom(peer, t, k, later);
      } else {
        BlockedCallWaits(peer, s, k, next);
        rest := FinishesFrom(peer, t, k, next);
      }
      FinishFirst(peer, s, k, rest);
      m := rest + 1;
    }
  }

  /** A call that is turned away at once changes nothing but the number of replies used. */
  lemma BlockedCallWaits(peer: Peer, s: Sender, k: nat, next: nat)
    requires Lively(peer) && k >= |s.buf| && GoesOnAt(peer, s, next)
    requires Finish(peer, s, k).1 != Some(Ready) && (s.buf != [] ==> !peer.writes(s.wire.written).Accept?)
    ensures var t := Finish(peer, s, k).0;
            && t.buf == s.buf && GoesOnAt(peer, t, next)
            && (if s.buf == [] then t.wire.flushes > s.wire.flushes else t.wire.written > s.wire.written)
  {
  }

  /**
   Over a lively transport, calling `poll_finish` often enough succeeds, and by then all that was ever sent has
   arrived, in order, and is flushed.
   */
  lemma FinishSucceeds(peer: Peer, calls: seq<Call>, k: nat) returns (m: nat)
    requires Lively(peer) && k >= |PerformAll(peer, NEW, calls).buf|
    ensures var (t, r) := Finish(peer, PerformAll(peer, NEW, calls + Finishes(k, m)), k);
            r == Some(Ready) && t.buf == [] && t.wire.accepted == Sent(calls) && t.wire.flushed == |Sent(calls)|
  {
    var s := PerformAll(peer, NEW, calls);
    var next := NextReply(peer, s);
    m := FinishesFrom(peer, s, k, next);
    PerformConcat(peer, NEW, calls, Finishes(k, m));
    FinishGuarantee(peer, calls + Finishes(k, m), k);
    NothingSent(calls, k, m);
  }

  // The streams.

  /** The writable side of a navar stream. */
  class Transport {
    const peer: Peer
    var wire: Wire

    constructor (peer: Peer)
      ensures this.peer == peer && wire == NEW.wire
    {
      this.peer, wire := peer, NEW.wire;
    }

    method PollWrite(data: seq<Byte>) returns (r: WriteReply)
      modifies this
      ensures wire == AfterWrite(peer, old(wire), data)
      ensures match peer.writes(old(wire).written)
              case Accept(n) => r == Accept(Taken(n, data))
              case other => r == other
    {
      r := peer.writes(wire.written);
      wire := AfterWrite(peer, wire, data);
      if r.Accept? {
        r := Accept(Taken(r.n, data));
      }
    }

    method PollFlush() returns (r: FlushReply)
      modifies this
      ensures wire == Flush(peer, old(wire)).0 && r == peer.flushes(old(wire).flushes)
    {
      r := peer.flushes(wire.flushes);
      wire := Flush(peer, wire).0;
    }
  }

  class H3SendStream {
    const inner: Transport
    var buf: seq<Byte>

    ghost function State(): Sender
      reads this, inner
    {
      Sender(inner.wire, buf)
    }

    constructor (inner: Transport)
      ensures this.inner == inner && buf == []
    {
      this.inner, buf := inner, [];
    }

    /** The first `limit` writes of the call: the result is `None` if it goes on after them. */
    method PollReady(limit: nat) returns (r: Option<Poll>)
      modifies this, inner
      ensures (State(), r) == Drain(inner.peer, old(State()), limit)
    {
      var left := limit;
      while buf != []
        invariant Drain(inner.peer, State(), left) == Drain(inner.peer, old(State()), limit)
        decreases left
      {
        if left == 0 {
          return None;
        }
        left := left - 1;
        var reply := inner.PollWrite(buf);
        match reply {
          case Accept(n) => buf := buf[n..];
          case WriteFailed => return Some(Failed);
          case WriteBlocked => return Some(Pending);
        }
      }
      return Some(Ready);
    }

    method SendData(input: Buf)
      modifies this`buf
      ensures buf == old(buf) + input.Remaining()
      ensures (State(), Some(Ready)) == Perform(inner.peer, old(State()), Call.SendData(input))
    {
      var data := input;
      while data.HasRemaining()
        invariant buf + data.Remaining() == old(buf) + input.Remaining()
        decreases |data.Remaining()|
      {
        var all := data.Remaining();
        buf := buf + all;
        data := data.Advance(|all|);
      }
      assert buf + data.Remaining() == buf;
    }

    method PollFinish(limit: nat) returns (r: Option<Poll>)
      modifies this, inner
      ensures (State(), r) == Finish(inner.peer, old(State()), limit)
    {
      r := PollReady(limit);
      if r == Some(Ready) {
        var reply := inner.PollFlush();
        match reply {
          case Flushed => r := Some(Ready);
          case FlushFailed => r := Some(Failed);
          case FlushBlocked => r := Some(Pending);
        }
      }
    }

    method Serve(call: Call)
      modifies this, inner
      ensures State() == Perform(inner.peer, old(State()), call).0
    {
      match call
      case SendData(data) => SendData(data);
      case PollReady(limit) => var r := PollReady(limit);
      case PollFinish(limit) => var r := PollFinish(limit);
    }

    /** Any sequence of calls does what the specification says; of a new stream's bytes none is lost. */
    method ServeAll(calls: seq<Call>)
      modifies this, inner
      ensures State() == PerformAll(inner.peer, old(State()), calls)
      ensures old(State()) == NEW ==> inner.wire.accepted + buf == Sent(calls)
    {
      ghost var was := State();
      for i := 0 to |calls|
        invariant State() == PerformAll(inner.peer, was, calls[..i])
      {
        assert calls[..i + 1][..i] == calls[..i];
        Serve(calls[i]);
      }
      assert calls[..|calls|] == calls;
      if was == NEW {
        Conservation(inner.peer, NEW, calls);
        assert [] + [] + Sent(calls) == Sent(calls);
      }
    }
  }

  /** `inner` and `incoming` are the two directions of the stream below. */
  class H3BidiStream {
    const inner: Transport
    const incoming: Incoming
    var sendBuf: seq<Byte>

    ghost function State(): Sender
      reads this, inner
    {
      Sender(inner.wire, sendBuf)
    }

    constructor (inner: Transport, incoming: Incoming)
      ensures this.inner == inner && this.incoming == incoming && sendBuf == []
    {
      this.inner, this.incoming, sendBuf := inner, incoming, [];
    }

    method PollData() returns (r: DataPoll)
      modifies incoming
      ensures incoming.used == old(incoming.used) + 1 && Answers(incoming.replies(old(incoming.used)), r)
    {
      r := incoming.PollData();
    }

    /** The first `limit` writes of the call: the result is `None` if it goes on after them. */
    method PollReady(limit: nat) returns (r: Option<Poll>)
      modifies this, inner
      ensures (State(), r) == Drain(inner.peer, old(State()), limit)
    {
      var left := limit;
      while sendBuf != []
        invariant Drain(inner.peer, State(), left) == Drain(inner.peer, old(State()), limit)
        decreases left
      {
        if left == 0 {
          return None;
        }
        left := left - 1;
        var reply := inner.PollWrite(sendBuf);
        match reply {
          case Accept(n) => sendBuf := sendBuf[n..];
          case WriteFailed => return Some(Failed);
          case WriteBlocked => return Some(Pending);
        }
      }
      return Some(Ready);
    }

    method SendData(input: Buf)
      modifies this`sendBuf
      ensures sendBuf == old(sendBuf) + input.Remaining()
      ensures (State(), Some(Ready)) == Perform(inner.peer, old(State()), Call.SendData(input))
    {
      var data := input;
      while data.HasRemaining()
        invariant sendBuf + data.Remaining() == old(sendBuf) + input.Remaining()
        decreases |data.Remaining()|
      {
        var all := data.Remaining();
        sendBuf := sendBuf + all;
        data := data.Advance(|all|);
      }
      assert sendBuf + data.Remaining() == sendBuf;
    }

    method PollFinish(limit: nat) returns (r: Option<Poll>)
      modifies this, inner
      ensures (State(), r) == Finish(inner.peer, old(State()), limit)
    {
      r := PollReady(limit);
      if r == Some(Ready) {
        var reply := inner.PollFlush();
        match reply {
          case Flushed => r := Some(Ready);
          case FlushFailed => r := Some(Failed);
          case FlushBlocked => r := Some(Pending);
        }
      }
    }

    method Serve(call: Call)
      modifies this, inner
      ensures State() == Perform(inner.peer, old(State()), call).0
    {
      match call
      case SendData(data) => SendData(data);
      case PollReady(limit) => var r := PollReady(limit);
      case PollFinish(limit) => var r := PollFinish(limit);
    }

    /** Any sequence of calls does what the specification says; of a new stream's bytes none is lost. */
    method ServeAll(calls: seq<Call>)
      modifies this, inner
      ensures State() == PerformAll(inner.peer, old(State()), calls)
      ensures old(State()) == NEW ==> inner.wire.accepted + sendBuf == Sent(calls)
    {
      ghost var was := State();
      for i := 0 to |calls|
        invariant State() == PerformAll(inner.peer, was, calls[..i])
      {
        assert calls[..i + 1][..i] == calls[..i];
        Serve(calls[i]);
      }
      assert calls[..|calls|] == calls;
      if was == NEW {
        Conservation(inner.peer, NEW, calls);
        assert [] + [] + Sent(calls) == Sent(calls);
      }
    }

    /**
     Each half goes on with its side of the transport, the receive half at the reply where this stream stands; what
     this stream still had to send is dropped.
     */
    method Split() returns (send: H3SendStream, recv: H3RecvStream)
      ensures fresh(send) && send.inner == inner && send.State() == Sender(State().wire, [])
      ensures fresh(recv) && recv.inner == incoming
    {
      send := new H3SendStream(inner);
      recv := new H3RecvStream(incoming);
    }

    /** Receiving, splitting, and receiving again hands out what one stream would have. */
    method CollectAcrossSplit(before: nat, after: nat) returns (data: seq<Byte>)
      modifies incoming
      ensures data == HandedOut(incoming.replies, old(incoming.used), before + after)
    {
      data := [];
      for i := 0 to before
        invariant incoming.used == old(incoming.used) + i && data == HandedOut(incoming.replies, old(incoming.used), i)
      {
        var r := PollData();
        DataOfAnswers(incoming.replies(old(incoming.used) + i), r);
        data := data + match r case Chunk(chunk) => chunk case _ => [];
      }
      var send, recv := Split();
      var rest := recv.Collect(after);
      HandedOutInTwo(incoming.replies, old(incoming.used), before, after);
      data := data + rest;
    }
  }
}
