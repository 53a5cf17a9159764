/** How one line changes the event being assembled: the pure form of `SseStream::process_line`. */
module SseEvents {
  import opened Wrappers
  import opened Bytes
  import opened Text
  import opened LineMachine
  import Lines
  import Utf8

  datatype SseEvent = SseEvent(id: Option<string>, event: Option<string>, data: string)

  const DEFAULT := SseEvent(None, None, "")

  /** The pending event and the sticky `last_event_id`. */
  datatype Assembly = Assembly(pending: SseEvent, lastEventId: Option<string>)

  const START := Assembly(DEFAULT, None)

  datatype Command = Dispatch | DataField(value: string) | IdField(value: string) | EventField(value: string) | Ignore

  predicate IsField(name: string)
  {
    name == "data" || name == "id" || name == "event"
  }

  function FieldCommand(name: string, value: string): Command
  {
    if name == "data" then DataField(value)
    else if name == "id" then IdField(value)
    else if name == "event" then EventField(value)
    else Ignore
  }

  /** The meaning of a line whose trailing white space is gone. */
  function CommandOf(line: string): Command
  {
    if line == "" then Dispatch
    else
      var (name, rest) := SplitColon(line);
      FieldCommand(name, match rest case Some(v) => TrimStart(v) case None => "")
  }

  /** Another line of data: a line feed separates it from data already there, but not from empty data. */
  function AddData(data: string, value: string): string
  {
    if data == "" then value else data + "\n" + value
  }

  function Obey(a: Assembly, command: Command): Fed<Assembly, SseEvent>
  {
    match command
    case Dispatch => Fed(a.(pending := DEFAULT), [a.pending])
    case DataField(v) => Fed(a.(pending := a.pending.(data := AddData(a.pending.data, v))), [])
    case IdField(v) => Fed(Assembly(a.pending.(id := Some(v)), Some(v)), [])
    case EventField(v) => Fed(a.(pending := a.pending.(event := Some(v))), [])
    case Ignore => Fed(a, [])
  }

  /** The handler: decode the line lossily, drop trailing white space, obey it. */
  function SseLine(a: Assembly, line: seq<Byte>): Fed<Assembly, SseEvent>
  {
    Obey(a, CommandOf(TrimEnd(Utf8.Decode(line))))
  }

  // The sticky id.

  /** The last id any of the events carries, or `initial` if none does. */
  function LastId(initial: Option<string>, events: seq<SseEvent>): Option<string>
  {
    if events == [] then initial
    else if events[|events| - 1].id.Some? then events[|events| - 1].id
    else LastId(initial, events[..|events| - 1])
  }

  lemma LastIdAppend(initial: Option<string>, events: seq<SseEvent>, e: SseEvent)
    ensures LastId(initial, events + [e]) == if e.id.Some? then e.id else LastId(initial, events)
  {
    assert (events + [e])[..|events|] == events;
  }

  /** What each line commands. */
  function Commands(lines: seq<seq<Byte>>): (r: seq<Command>)
    ensures |r| == |lines|
  {
    seq(|lines|, i requires 0 <= i < |lines| => CommandOf(TrimEnd(Utf8.Decode(lines[i]))))
  }

  lemma {:induction false} FeedCommands(a: Assembly, lines: seq<seq<Byte>>)
    ensures Feed(SseLine, a, lines) == Feed(Obey, a, Commands(lines))
    decreases |lines|
  {
    if lines != [] {
      var init := lines[..|lines| - 1];
      FeedCommands(a, init);
      assert Commands(lines)[..|lines| - 1] == Commands(init);
    }
  }

  lemma LastIdStep(initial: Option<string>, events: seq<SseEvent>, a: Assembly, command: Command)
    requires a.lastEventId == LastId(initial, events + [a.pending])
    ensures var r := Obey(a, command);
            r.state.lastEventId == LastId(initial, events + r.items + [r.state.pending])
  {
    var r := Obey(a, command);
    LastIdAppend(initial, events, a.pending);
    LastIdAppend(initial, events + r.items, r.state.pending);
    if !command.Dispatch? {
      assert events + [] == events;
    }
  }

  /** The sticky id is the last id of all events emitted, then the pending one, although dispatch resets that one. */
  lemma {:induction false} LastIdOfFeed(initial: Option<string>, commands: seq<Command>)
    ensures var r := Feed(Obey, Assembly(DEFAULT, initial), commands);
            r.state.lastEventId == LastId(initial, r.items + [r.state.pending])
    decreases |commands|
  {
    var a := Assembly(DEFAULT, initial);
    if commands == [] {
      LastIdAppend(initial, [], DEFAULT);
    } else {
      var init, last := commands[..|commands| - 1], commands[|commands| - 1];
      LastIdOfFeed(initial, init);
      var before := Feed(Obey, a, init);
      LastIdStep(initial, before.items, before.state, last);
    }
  }

  /**
   In every state a run reaches, `last_event_id` is the last id among the events yielded, then
   those ready, then the pending one.
   */
  lemma LastIdInRun<E>(body: nat -> BodyPoll<E>, n: nat)
    ensures var t := Run(SseLine, body, START, n);
            t.conf.state.lastEventId == LastId(None, ItemsOf(t.outcomes) + t.conf.queue + [t.conf.state.pending])
  {
    var t := Run(SseLine, body, START, n);
    RunFollowsBody(SseLine, START, body, n);
    RunItems(SseLine, START, body, n);
    var lines := Lines.Complete(LF, Received(body, t.conf.consumed));
    FeedCommands(START, lines);
    LastIdOfFeed(None, Commands(lines));
  }

  lemma OneEventPerCommand(a: Assembly, command: Command)
    ensures |Obey(a, command).items| <= 1
  {
  }

  lemma OneEventPerLine()
    ensures AtMostOneItem(SseLine)
  {
    forall a, line ensures |SseLine(a, line).items| <= 1 {
      OneEventPerCommand(a, CommandOf(TrimEnd(Utf8.Decode(line))));
    }
  }

  /** When the body ends, some poll soon reports it, and by then every completed event has been yielded. */
  lemma EndYieldsEveryEvent<E>(body: nat -> BodyPoll<E>, lastId: Option<string>, k: nat) returns (n: nat)
    requires body(k).End?
    ensures n <= k + LineFeeds(body, k)
    ensures var t := Run(SseLine, body, Assembly(DEFAULT, lastId), n + 1);
            && t.outcomes[n] == Finished && t.conf.queue == []
            && ItemsOf(t.outcomes) == OneShot(SseLine, Assembly(DEFAULT, lastId), Received(body, k)).items
            && Delivered(t.outcomes) == Merge(SseLine, Assembly(DEFAULT, lastId), body, k)
  {
    OneEventPerLine();
    n := EndIsReached(SseLine, Assembly(DEFAULT, lastId), body, k);
  }

  // CRLF.

  /** Every line feed replaced by carriage return and line feed. */
  function ToCrLf(bytes: seq<Byte>): seq<Byte>
  {
    if bytes == [] then []
    else
      var init := ToCrLf(bytes[..|bytes| - 1]);
      if bytes[|bytes| - 1] == LF then init + [CR, LF] else init + [bytes[|bytes| - 1]]
  }

  function WithCr(lines: seq<seq<Byte>>): (r: seq<seq<Byte>>)
    ensures |r| == |lines|
  {
    seq(|lines|, i requires 0 <= i < |lines| => lines[i] + [CR])
  }

  lemma {:induction false} SplitCrLf(bytes: seq<Byte>)
    ensures Lines.Complete(LF, ToCrLf(bytes)) == WithCr(Lines.Complete(LF, bytes))
    ensures Lines.Rest(LF, ToCrLf(bytes)) == Lines.Rest(LF, bytes)
    decreases |bytes|
  {
    if bytes != [] {
      var init, last := bytes[..|bytes| - 1], bytes[|bytes| - 1];
      SplitCrLf(init);
      if last == LF {
        assert ToCrLf(init) + [CR, LF] == (ToCrLf(init) + [CR]) + [LF];
        Lines.AppendPiece(LF, ToCrLf(init), [CR]);
        Lines.AppendSeparator(LF, ToCrLf(init) + [CR]);
        var lines := Lines.Complete(LF, init);
        assert WithCr(lines + [Lines.Rest(LF, init)]) == WithCr(lines) + [Lines.Rest(LF, init) + [CR]];
      } else {
        Lines.AppendPiece(LF, ToCrLf(init), [last]);
      }
    }
  }

  lemma TrimEndDropsCr(line: string)
    ensures TrimEnd(line + "\r") == TrimEnd(line)
  {
    var s := line + "\r";
    assert s[|line|] == '\r' && IsWhitespace('\r');
    assert forall i :: 0 <= i < |line| ==> s[i] == line[i];
    SpaceFollowsText(line);
    TextEndsAt(s, EndOfText(line));
  }

  lemma CrIsNothing(a: Assembly, line: seq<Byte>)
    ensures SseLine(a, line + [CR]) == SseLine(a, line)
  {
    Utf8.DecodeAroundAscii(line, CR, []);
    assert line + [CR] + [] == line + [CR];
    assert Utf8.Decode(line) + [CR as char] + "" == Utf8.Decode(line) + "\r";
    TrimEndDropsCr(Utf8.Decode(line));
  }

  lemma {:induction false} FeedWithCr(a: Assembly, lines: seq<seq<Byte>>)
    ensures Feed(SseLine, a, WithCr(lines)) == Feed(SseLine, a, lines)
    decreases |lines|
  {
    if lines != [] {
      var init := lines[..|lines| - 1];
      FeedWithCr(a, init);
      assert WithCr(lines)[..|lines| - 1] == WithCr(init);
      CrIsNothing(Feed(SseLine, a, init).state, lines[|lines| - 1]);
    }
  }

  /** Line ends may be LF or CRLF: replacing one by the other changes no event, no state and no rest. */
  lemma CrLfInvariance(a: Assembly, bytes: seq<Byte>)
    ensures OneShot(SseLine, a, ToCrLf(bytes)) == OneShot(SseLine, a, bytes)
    ensures Lines.Rest(LF, ToCrLf(bytes)) == Lines.Rest(LF, bytes)
  {
    SplitCrLf(bytes);
    FeedWithCr(a, Lines.Complete(LF, bytes));
  }
}
