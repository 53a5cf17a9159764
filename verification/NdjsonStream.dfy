/** `NdjsonStream`: the NDJSON parser over a ring buffer and a queue of results. */
module NdjsonStreams {
  import opened Bytes
  import opened ByteDeques
  import opened LineMachine
  import opened Ndjson

  /** `R` is the result of deserializing one line: a value or an error. */
  class NdjsonStream<R, E> {
    const body: nat -> BodyPoll<E>
    const parse: seq<Byte> -> R
    var polled: nat
    const buffer: ByteDeque
    var queue: seq<R>

    ghost var work: Work

    /** No line feed is ever kept, and the scanning and copying done so far is accounted for. */
    ghost predicate Valid()
      reads this, buffer, buffer.data
    {
      && buffer.Valid()
      && LF !in buffer.contents
      && work.Settled(buffer.len)
    }

    /** What the work counts as received is all that the body has delivered. */
    ghost predicate Accounted()
      reads this
    {
      work.received == |Received(body, polled)|
    }

    ghost function Conf(): Conf<(), R>
      reads this, buffer
    {
      LineMachine.Conf(polled, buffer.contents, (), queue)
    }

    constructor (body: nat -> BodyPoll<E>, parse: seq<Byte> -> R)
      ensures Valid() && Accounted() && fresh(buffer) && fresh(buffer.data)
      ensures this.body == body && this.parse == parse && Conf() == Start(())
    {
      this.body, this.parse := body, parse;
      buffer := new ByteDeque(256);
      queue := [];
      polled, work := 0, NO_WORK;
    }

    /** How far a scan has come: what it has taken out, the state and queue it left, and the work it still owes. */
    ghost predicate ScannedTo(was: Conf<(), R>, position: nat, processed: nat)
      reads this, buffer, buffer.data
    {
      && buffer.Valid() && |was.buffer| <= position <= buffer.len
      && Scan(JsonLine(parse), was, buffer.contents, position) == Reached(processed, (), queue)
      && work.Owes(buffer.len - position, buffer.len - processed)
    }

    /** One position of the scan: at a line feed, the line that ends there is deserialized. */
    method Visit(ghost was: Conf<(), R>, position: nat, processed: nat) returns (next: nat)
      requires ScannedTo(was, position, processed) && position < buffer.len
      modifies this
      ensures ScannedTo(was, position + 1, next) && polled == old(polled) && work.received == old(work).received
    {
      var b := buffer.Get(position);
      work := work.Compare();
      if b == LF {
        var buf := buffer.CopyWindow(processed, position);
        work := work.Line(|buf|);
        queue := queue + [parse(buf)];
        next := position + 1;
      } else {
        next := processed;
      }
    }

    method ScanFrom(ghost was: Conf<(), R>, oldLen: nat) returns (processed: nat)
      requires buffer.Valid() && oldLen == |was.buffer| <= buffer.len
      requires was.queue == queue
      requires work.Owes(buffer.len - oldLen, buffer.len)
      modifies this
      ensures ScannedTo(was, buffer.len, processed) && polled == old(polled) && work.received == old(work).received
    {
      processed := 0;
      assert was.state == ();
      for position := oldLen to buffer.len
        invariant ScannedTo(was, position, processed) && polled == old(polled) && work.received == old(work).received
      {
        processed := Visit(was, position, processed);
      }
    }

    /** After the scan, the bytes of the lines taken out leave the buffer. */
    method DropProcessed(ghost was: Conf<(), R>, ghost bytes: seq<Byte>, processed: nat)
      requires ScannedTo(was, buffer.len, processed) && polled == was.consumed
      requires buffer.contents == was.buffer + bytes && LF !in was.buffer
      modifies buffer
      ensures buffer.Valid() && buffer.data == old(buffer.data)
      ensures buffer.len + processed == old(buffer.len) && LF !in buffer.contents
      ensures Conf() == Absorb(JsonLine(parse), was, bytes)
    {
      ScanEnd(JsonLine(parse), was, bytes);
      buffer.DrainFront(processed);
    }

    /** The bytes of a frame are appended, not yet compared with anything. */
    method Receive(frame: Buf)
      requires Valid()
      modifies this, buffer, buffer.data
      ensures buffer.Valid() && (buffer.data == old(buffer.data) || fresh(buffer.data))
      ensures buffer.contents == old(buffer.contents) + frame.Remaining()
      ensures polled == old(polled) && queue == old(queue)
      ensures work == old(work).Receive(|frame.Remaining()|)
    {
      buffer.ExtendFromFrame(frame);
      work := work.Receive(|frame.Remaining()|);
    }

    /** The new bytes are scanned, and the lines they complete leave the buffer. */
    method TakeLines(ghost was: Conf<(), R>, ghost bytes: seq<Byte>, oldLen: nat)
      requires buffer.Valid() && buffer.contents == was.buffer + bytes && LF !in was.buffer && oldLen == |was.buffer|
      requires polled == was.consumed && was.queue == queue
      requires work.Owes(|bytes|, buffer.len)
      modifies this, buffer
      ensures Valid() && polled == old(polled) && buffer.data == old(buffer.data)
      ensures Conf() == Absorb(JsonLine(parse), was, bytes)
      ensures work.received == old(work).received
    {
      var processed := ScanFrom(was, oldLen);
      DropProcessed(was, bytes, processed);
    }

    method AppendFrame(frame: Buf)
      requires Valid()
      modifies this, buffer, buffer.data
      ensures Valid() && polled == old(polled) && (buffer.data == old(buffer.data) || fresh(buffer.data))
      ensures Conf() == Absorb(JsonLine(parse), old(Conf()), frame.Remaining())
      ensures work.received == old(work).received + |frame.Remaining()|
    {
      ghost var was := Conf();
      var oldLen := buffer.len;
      Receive(frame);
      TakeLines(was, frame.Remaining(), oldLen);
    }

    /** The adapted body hands out each frame copied into one contiguous chunk. */
    method PollFrame() returns (r: BodyPoll<E>)
      modifies this`polled
      ensures polled == old(polled) + 1 && r == Flat(body(old(polled)))
    {
      r := body(polled);
      if r.Data? {
        r := Data(Buf([r.frame.Remaining()]));
      }
      polled := polled + 1;
    }

    /** `pop_front` of the queue. */
    method PopQueue() returns (r: Outcome<R, E>)
      requires buffer.Valid() && queue != []
      modifies this`queue
      ensures (Conf(), r) == Pop(old(Conf()))
    {
      r := Yield(queue[0]);
      queue := queue[1..];
    }

    /** A data frame is parsed at once; its first result, if any, is handed out at once. */
    method TakeFrame(frame: Buf) returns (r: Outcome<R, E>)
      requires Valid()
      modifies this, buffer, buffer.data
      ensures Valid() && (buffer.data == old(buffer.data) || fresh(buffer.data))
      ensures (Conf(), r) == Take(JsonLine(parse), old(Conf()), frame.Remaining())
      ensures work.received == old(work).received + |frame.Remaining()|
    {
      AppendFrame(frame);
      if queue != [] {
        r := PopQueue();
      } else {
        r := Waiting(true);
      }
    }

    method React(result: BodyPoll<E>) returns (r: Outcome<R, E>)
      requires Valid()
      modifies this, buffer, buffer.data
      ensures Valid() && (buffer.data == old(buffer.data) || fresh(buffer.data))
      ensures (Conf(), r) == LineMachine.React(JsonLine(parse), old(Conf()), result)
      ensures work.received == old(work).received + if result.Data? then |result.frame.Remaining()| else 0
    {
      match result
      case Data(frame) => r := TakeFrame(frame);
      case Trailers => r := Waiting(true);
      case Failure(e) => r := Fault(e);
      case Pending => r := Waiting(false);
      case End => r := Finished;
    }

    method PollBody() returns (r: Outcome<R, E>)
      requires Valid() && Accounted()
      modifies this, buffer, buffer.data
      ensures Valid() && Accounted() && (buffer.data == old(buffer.data) || fresh(buffer.data))
      ensures (Conf(), r) == LineMachine.PollBody(JsonLine(parse), old(Conf()), body(old(polled)))
    {
      var result := PollFrame();
      FlatChangesNothing(JsonLine(parse), Conf(), body(old(polled)));
      ReceivedMore(body, old(polled));
      r := React(result);
    }

    method PollNext() returns (r: Outcome<R, E>)
      requires Valid() && Accounted()
      modifies this, buffer, buffer.data
      ensures Valid() && Accounted() && (buffer.data == old(buffer.data) || fresh(buffer.data))
      ensures (Conf(), r) == LineMachine.PollNext(JsonLine(parse), body, old(Conf()))
    {
      if queue != [] {
        r := PopQueue();
      } else {
        r := PollBody();
      }
    }

    /**
     A consumer that polls `n` times sees exactly the run of the specification. Over the whole run every byte
     received is compared with a line feed once, and is copied at most once.
     */
    method Drive(n: nat) returns (outcomes: seq<Outcome<R, E>>)
      requires Valid() && Accounted() && Conf() == Start(())
      modifies this, buffer, buffer.data
      ensures Valid() && LineMachine.Trace(Conf(), outcomes) == Run(JsonLine(parse), body, (), n)
      ensures work.compared == |Received(body, polled)| && work.copied <= |Received(body, polled)|
    {
      outcomes := [];
      for i := 0 to n
        invariant Valid() && Accounted() && (buffer.data == old(buffer.data) || fresh(buffer.data))
        invariant LineMachine.Trace(Conf(), outcomes) == Run(JsonLine(parse), body, (), i)
      {
        var outcome := PollNext();
        outcomes := outcomes + [outcome];
      }
    }
  }
}
