/** `SseStream`: the event parser over a ring buffer, a pending event and a queue of ready events. */
module SseStreams {
  import opened Wrappers
  import opened Bytes
  import opened ByteDeques
  import opened Text
  import opened LineMachine
  import opened SseEvents
  import Utf8

  class SseStream<E> {
    const body: nat -> BodyPoll<E>
    var polled: nat
    const buffer: ByteDeque
    var pendingEvent: SseEvent
    var readyEvents: seq<SseEvent>
    var lastEventId: Option<string>

    ghost var work: Work

    /** No line feed is ever kept, and the scanning and copying done so far is accounted for. */
    ghost predicate Valid()
      reads this, buffer, buffer.data
    {
      && buffer.Valid()
      && LF !in buffer.contents
      && work.Settled(buffer.len)
    }

    /** What the work counts as received is all that the body has delivered. */
    ghost predicate Accounted()
      reads this
    {
      work.received == |Received(body, polled)|
    }

    ghost function State(): Assembly
      reads this
    {
      Assembly(pendingEvent, lastEventId)
    }

    ghost function Conf(): Conf<Assembly, SseEvent>
      reads this, buffer
    {
      LineMachine.Conf(polled, buffer.contents, State(), readyEvents)
    }

    constructor (body: nat -> BodyPoll<E>)
      ensures Valid() && Accounted() && fresh(buffer) && fresh(buffer.data)
      ensures this.body == body && Conf() == Start(START)
    {
      this.body := body;
      buffer := new ByteDeque(256);
      pendingEvent := DEFAULT;
      readyEvents := [];
      lastEventId := None;
      polled, work := 0, NO_WORK;
    }

    method ProcessField(name: string, value: string)
      modifies this
      ensures polled == old(polled) && work == old(work)
      ensures var fed := Obey(old(State()), FieldCommand(name, value));
              State() == fed.state && readyEvents == old(readyEvents) + fed.items
    {
      if name == "data" {
        if pendingEvent.data != "" {
          pendingEvent := pendingEvent.(data := pendingEvent.data + "\n");
        }
        pendingEvent := pendingEvent.(data := pendingEvent.data + value);
      } else if name == "id" {
        pendingEvent := pendingEvent.(id := Some(value));
        lastEventId := Some(value);
      } else if name == "event" {
        pendingEvent := pendingEvent.(event := Some(value));
      }
    }

    method ProcessLine(line: string)
      modifies this
      ensures polled == old(polled) && work == old(work)
      ensures var fed := Obey(old(State()), CommandOf(line));
              State() == fed.state && readyEvents == old(readyEvents) + fed.items
    {
      if line == "" {
        readyEvents, pendingEvent := readyEvents + [pendingEvent], DEFAULT;
        return;
      }
      var (name, rest) := SplitColon(line);
      var value := match rest case Some(v) => TrimStart(v) case None => "";
      ProcessField(name, value);
    }

    /** Copies one line out of the buffer and interprets it. */
    method TakeLine(start: nat, end: nat)
      requires buffer.Valid() && start <= end <= buffer.len
      modifies this
      ensures polled == old(polled)
      ensures var fed := SseLine(old(State()), buffer.contents[start..end]);
              State() == fed.state && readyEvents == old(readyEvents) + fed.items
      ensures work == old(work).Line(end - start)
    {
      var buf := buffer.CopyWindow(start, end);
      work := work.Line(|buf|);
      var line := Utf8.Decode(buf);
      ProcessLine(TrimEnd(line));
    }

    /** How far a scan has come: what it has taken out, the state and queue it left, and the work it still owes. */
    ghost predicate ScannedTo(was: Conf<Assembly, SseEvent>, position: nat, processed: nat)
      reads this, buffer, buffer.data
    {
      && buffer.Valid() && |was.buffer| <= position <= buffer.len
      && Scan(SseLine, was, buffer.contents, position) == Reached(processed, State(), readyEvents)
      && work.Owes(buffer.len - position, buffer.len - processed)
    }

    /** One position of the scan: at a line feed, the line that ends there is taken out. */
    method Visit(ghost was: Conf<Assembly, SseEvent>, position: nat, processed: nat) returns (next: nat)
      requires ScannedTo(was, position, processed) && position < buffer.len
      modifies this
      ensures ScannedTo(was, position + 1, next) && polled == old(polled) && work.received == old(work).received
    {
      var b := buffer.Get(position);
      work := work.Compare();
      if b == LF {
        TakeLine(processed, position);
        next := position + 1;
      } else {
        next := processed;
      }
    }

    /**
     Scans only the bytes after what was buffered before, taking out each line as its line feed is
     met. What is skipped holds no line feed, so the lines are those of a scan from the start.
     */
    method ScanFrom(ghost was: Conf<Assembly, SseEvent>, oldLen: nat) returns (processed: nat)
      requires buffer.Valid() && oldLen == |was.buffer| <= buffer.len
      requires was.state == State() && was.queue == readyEvents
      requires work.Owes(buffer.len - oldLen, buffer.len)
      modifies this
      ensures ScannedTo(was, buffer.len, processed) && polled == old(polled) && work.received == old(work).received
    {
      processed := 0;
      for position := oldLen to buffer.len
        invariant ScannedTo(was, position, processed) && polled == old(polled) && work.received == old(work).received
      {
        processed := Visit(was, position, processed);
      }
    }

    /** After the scan, the bytes of the lines taken out leave the buffer. */
    method DropProcessed(ghost was: Conf<Assembly, SseEvent>, ghost bytes: seq<Byte>, processed: nat)
      requires ScannedTo(was, buffer.len, processed) && polled == was.consumed
      requires buffer.contents == was.buffer + bytes && LF !in was.buffer
      modifies buffer
      ensures buffer.Valid() && buffer.data == old(buffer.data)
      ensures buffer.len + processed == old(buffer.len) && LF !in buffer.contents
      ensures Conf() == Absorb(SseLine, was, bytes)
    {
      ScanEnd(SseLine, was, bytes);
      buffer.DrainFront(processed);
    }

    /** The bytes of a frame are appended, not yet compared with anything. */
    method Receive(frame: Buf)
      requires Valid()
      modifies this, buffer, buffer.data
      ensures buffer.Valid() && (buffer.data == old(buffer.data) || fresh(buffer.data))
      ensures buffer.contents == old(buffer.contents) + frame.Remaining()
      ensures polled == old(polled) && State() == old(State()) && readyEvents == old(readyEvents)
      ensures work == old(work).Receive(|frame.Remaining()|)
    {
      buffer.ExtendFromFrame(frame);
      work := work.Receive(|frame.Remaining()|);
    }

    /** The new bytes are scanned, and the lines they complete leave the buffer. */
    method TakeLines(ghost was: Conf<Assembly, SseEvent>, ghost bytes: seq<Byte>, oldLen: nat)
      requires buffer.Valid() && buffer.contents == was.buffer + bytes && LF !in was.buffer && oldLen == |was.buffer|
      requires polled == was.consumed && was.state == State() && was.queue == readyEvents
      requires work.Owes(|bytes|, buffer.len)
      modifies this, buffer
      ensures Valid() && polled == old(polled) && buffer.data == old(buffer.data)
      ensures Conf() == Absorb(SseLine, was, bytes)
      ensures work.received == old(work).received
    {
      var processed := ScanFrom(was, oldLen);
      DropProcessed(was, bytes, processed);
    }

    method AppendFrame(frame: Buf)
      requires Valid()
      modifies this, buffer, buffer.data
      ensures Valid() && polled == old(polled) && (buffer.data == old(buffer.data) || fresh(buffer.data))
      ensures Conf() == Absorb(SseLine, old(Conf()), frame.Remaining())
      ensures work.received == old(work).received + |frame.Remaining()|
    {
      ghost var was := Conf();
      var oldLen := buffer.len;
      Receive(frame);
      TakeLines(was, frame.Remaining(), oldLen);
    }

    /** The adapted body hands out each frame copied into one contiguous chunk. */
    method PollFrame() returns (r: BodyPoll<E>)
      modifies this`polled
      ensures polled == old(polled) + 1 && r == Flat(body(old(polled)))
    {
      r := body(polled);
      if r.Data? {
        r := Data(Buf([r.frame.Remaining()]));
      }
      polled := polled + 1;
    }

    /** `pop_front` of the ready queue. */
    method PopReady() returns (r: Outcome<SseEvent, E>)
      requires buffer.Valid() && readyEvents != []
      modifies this`readyEvents
      ensures (Conf(), r) == Pop(old(Conf()))
    {
      r := Yield(readyEvents[0]);
      readyEvents := readyEvents[1..];
    }

    /** A data frame is parsed at once; its first event, if any, is handed out at once. */
    method TakeFrame(frame: Buf) returns (r: Outcome<SseEvent, E>)
      requires Valid()
      modifies this, buffer, buffer.data
      ensures Valid() && (buffer.data == old(buffer.data) || fresh(buffer.data))
      ensures (Conf(), r) == Take(SseLine, old(Conf()), frame.Remaining())
      ensures work.received == old(work).received + |frame.Remaining()|
    {
      AppendFrame(frame);
      if readyEvents != [] {
        r := PopReady();
      } else {
        r := Waiting(true);
      }
    }

    method React(result: BodyPoll<E>) returns (r: Outcome<SseEvent, E>)
      requires Valid()
      modifies this, buffer, buffer.data
      ensures Valid() && (buffer.data == old(buffer.data) || fresh(buffer.data))
      ensures (Conf(), r) == LineMachine.React(SseLine, old(Conf()), result)
      ensures work.received == old(work).received + if result.Data? then |result.frame.Remaining()| else 0
    {
      match result
      case Data(frame) => r := TakeFrame(frame);
      case Trailers => r := Waiting(true);
      case Failure(e) => r := Fault(e);
      case Pending => r := Waiting(false);
      case End => r := Finished;
    }

    method PollBody() returns (r: Outcome<SseEvent, E>)
      requires Valid() && Accounted()
      modifies this, buffer, buffer.data
      ensures Valid() && Accounted() && (buffer.data == old(buffer.data) || fresh(buffer.data))
      ensures (Conf(), r) == LineMachine.PollBody(SseLine, old(Conf()), body(old(polled)))
    {
      var result := PollFrame();
      FlatChangesNothing(SseLine, Conf(), body(old(polled)));
      ReceivedMore(body, old(polled));
      r := React(result);
    }

    method PollNext() returns (r: Outcome<SseEvent, E>)
      requires Valid() && Accounted()
      modifies this, buffer, buffer.data
      ensures Valid() && Accounted() && (buffer.data == old(buffer.data) || fresh(buffer.data))
      ensures (Conf(), r) == LineMachine.PollNext(SseLine, body, old(Conf()))
    {
      if readyEvents != [] {
        r := PopReady();
      } else {
        r := PollBody();
      }
    }

    /**
     A consumer that polls `n` times sees exactly the run of the specification. Over the whole run every byte
     received is compared with a line feed once, and is copied at most once.
     */
    method Drive(n: nat) returns (outcomes: seq<Outcome<SseEvent, E>>)
      requires Valid() && Accounted() && Conf() == Start(START)
      modifies this, buffer, buffer.data
      ensures Valid() && LineMachine.Trace(Conf(), outcomes) == Run(SseLine, body, START, n)
      ensures work.compared == |Received(body, polled)| && work.copied <= |Received(body, polled)|
    {
      outcomes := [];
      for i := 0 to n
        invariant Valid() && Accounted() && (buffer.data == old(buffer.data) || fresh(buffer.data))
        invariant LineMachine.Trace(Conf(), outcomes) == Run(SseLine, body, START, i)
      {
        var outcome := PollNext();
        outcomes := outcomes + [outcome];
      }
    }
  }
}
