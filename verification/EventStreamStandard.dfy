/**
 Event streams as the WHATWG HTML Living Standard has them: section 9.2.5 (parsing an event stream)
 and section 9.2.6 (interpreting an event stream); and how far the parser of `SseEvents` agrees.
 `retry` sets a delay and dispatches nothing, so here it is one more ignored field.
 */
module EventStreamStandard {
  import opened Wrappers
  import opened Bytes
  import opened Text
  import opened LineMachine
  import opened SseEvents
  import Lines
  import Utf8

  const BOM := '\U{FEFF}'

  /** A dispatched message event. */
  datatype Message = Message(kind: string, data: string, lastEventId: string)

  /** The three buffers of section 9.2.6, and the last event ID string that dispatch sets. */
  datatype Source = Source(data: string, kind: string, id: string, lastEventId: string)

  const FRESH := Source("", "", "", "")

  /** Lines end in CRLF, LF or CR. An unterminated last line can dispatch nothing and is left out. */
  function StandardLines(text: string, line: string): seq<string>
    decreases |text|
  {
    if text == "" then []
    else if text[0] == '\n' then [line] + StandardLines(text[1..], "")
    else if text[0] == '\r' && |text| > 1 && text[1] == '\n' then [line] + StandardLines(text[2..], "")
    else if text[0] == '\r' then [line] + StandardLines(text[1..], "")
    else StandardLines(text[1..], line + [text[0]])
  }

  /** The value after the colon, without one leading space. */
  function AfterSpace(value: string): string
  {
    if value != "" && value[0] == ' ' then value[1..] else value
  }

  /** An id that holds U+0000 is ignored. */
  function StandardField(name: string, value: string): Command
  {
    if name == "id" && '\0' in value then Ignore else FieldCommand(name, value)
  }

  function StandardCommand(line: string): Command
  {
    if line == "" then Dispatch
    else if line[0] == ':' then Ignore
    else
      var (name, rest) := SplitColon(line);
      var value := match rest case Some(v) => AfterSpace(v) case None => "";
      StandardField(name, value)
  }

  function StandardObey(s: Source, command: Command): Fed<Source, Message>
  {
    match command
    case Dispatch =>
      var after := Source("", "", s.id, s.id);
      if s.data == "" then Fed(after, [])
      else
        var data := if s.data[|s.data| - 1] == '\n' then s.data[..|s.data| - 1] else s.data;
        Fed(after, [Message(if s.kind != "" then s.kind else "message", data, s.id)])
    case DataField(v) => Fed(s.(data := s.data + v + "\n"), [])
    case IdField(v) => Fed(s.(id := v), [])
    case EventField(v) => Fed(s.(kind := v), [])
    case Ignore => Fed(s, [])
  }

  function StandardCommands(lines: seq<string>): (r: seq<Command>)
    ensures |r| == |lines|
  {
    seq(|lines|, i requires 0 <= i < |lines| => StandardCommand(lines[i]))
  }

  /** The whole standard: decode, drop a byte order mark, split, interpret. */
  function StandardParse(bytes: seq<Byte>): Fed<Source, Message>
  {
    var text := Utf8.Decode(bytes);
    var stripped := if text != "" && text[0] == BOM then text[1..] else text;
    Feed(StandardObey, FRESH, StandardCommands(StandardLines(stripped, "")))
  }

  /**
   The parser's events as messages: those with data, of kind "message" unless they name another,
   with the last id so far.
   */
  function Seen(events: seq<SseEvent>): seq<Message>
  {
    if events == [] then []
    else
      var e := events[|events| - 1];
      Seen(events[..|events| - 1]) +
      if e.data == "" then [] else [Message(KindOf(e), e.data, LastId(None, events).GetOr(""))]
  }

  function KindOf(e: SseEvent): string
  {
    var kind := e.event.GetOr("");
    if kind != "" then kind else "message"
  }

  // When one line means the same to both.

  /** A field's value has no white space at its ends, and an id no U+0000. */
  predicate TidyValue(name: string, value: string)
  {
    IsField(name) ==> Trimmed(value) && (name == "id" ==> '\0' !in value)
  }

  /** The lines on which parser and standard agree; a line is given without its terminator. */
  predicate Tidy(line: string)
  {
    if line == "" then true
    else
      var colon := FindColon(line);
      if colon < |line| then TidyValue(line[..colon], AfterSpace(line[colon + 1..]))
      else TrimEnd(line) != "" && (TrimEnd(line) == line || !IsField(TrimEnd(line)))
  }

  lemma TrimBothEnds(v: string)
    ensures TrimStart(TrimEnd(v)) == AfterSpace(v) <==> Trimmed(AfterSpace(v))
  {
    var w := AfterSpace(v);
    var t := TrimEnd(v);
    var r := TrimStart(t);
    assert Trimmed(r) by {
      if r != "" {
        assert r[|r| - 1] == t[|t| - 1];
      }
    }
    if Trimmed(w) {
      if w != "" {
        assert v[|v| - 1] == w[|w| - 1];
        assert t == v;
        if v[0] == ' ' {
          assert v[1] == w[0];
          TextStartsAt(v, 1);
        } else {
          assert StartOfText(v) == 0;
        }
      } else {
        assert v == "" || v == " ";
      }
    }
  }

  lemma EndAfterColon(line: string, i: nat)
    requires i < |line| && line[i] == ':'
    ensures i < EndOfText(line) && EndOfText(line[i + 1..]) == EndOfText(line) - (i + 1)
  {
    assert !IsWhitespace(':');
    SpaceFollowsText(line);
    var v, end := line[i + 1..], EndOfText(line) - (i + 1);
    assert forall k :: 0 <= k < |v| ==> v[k] == line[i + 1 + k];
    assert end != 0 ==> v[end - 1] == line[i + end];
    TextEndsAt(v, end);
  }

  lemma SliceShift(s: string, from: nat, to: nat)
    requires from <= to <= |s|
    ensures s[..to][from..] == s[from..][..to - from]
  {
  }

  lemma ColonInPrefix(line: string, end: nat)
    requires FindColon(line) < end <= |line|
    ensures FindColon(line[..end]) == FindColon(line)
  {
    ColonIsFirst(line);
    FirstColonAt(line[..end], FindColon(line));
  }

  lemma SliceAgain(s: string, i: nat, to: nat)
    requires i <= to <= |s|
    ensures s[..to][..i] == s[..i]
  {
  }

  lemma NameSurvivesTrim(line: string, i: nat)
    requires i < |line| && line[i] == ':'
    ensures i < |TrimEnd(line)| && TrimEnd(line)[..i] == line[..i]
  {
    EndAfterColon(line, i);
    SliceAgain(line, i, EndOfText(line));
  }

  lemma ValueTrims(line: string, i: nat)
    requires i < |line| && line[i] == ':' && i < |TrimEnd(line)|
    ensures TrimEnd(line)[i + 1..] == TrimEnd(line[i + 1..])
  {
    EndAfterColon(line, i);
    SliceShift(line, i + 1, EndOfText(line));
  }

  lemma ColonSurvivesTrim(line: string)
    requires FindColon(line) < |line|
    ensures FindColon(TrimEnd(line)) == FindColon(line)
  {
    EndAfterColon(line, FindColon(line));
    ColonInPrefix(line, EndOfText(line));
  }

  lemma SameFieldCommand(name: string, x: string, y: string)
    ensures FieldCommand(name, x) == FieldCommand(name, y) <==> (IsField(name) ==> x == y)
    ensures FieldCommand(name, x) == Ignore <==> !IsField(name)
  {
  }

  /** A comment, which has the empty field name, is ignored. */
  lemma CommentIsIgnored(value: string)
    ensures StandardField("", value) == Ignore
  {
  }

  lemma SplitIs(line: string, i: nat, name: string, value: string)
    requires i < |line| && FindColon(line) == i && line[..i] == name && line[i + 1..] == value
    ensures line != "" && SplitColon(line) == (name, Some(value))
  {
  }

  lemma ParserReads(line: string, name: string, value: string)
    requires line != "" && SplitColon(line) == (name, Some(value))
    ensures CommandOf(line) == FieldCommand(name, TrimStart(value))
  {
  }

  lemma StandardReads(line: string, name: string, value: string)
    requires line != "" && line[0] != ':' && SplitColon(line) == (name, Some(value))
    ensures StandardCommand(line) == StandardField(name, AfterSpace(value))
  {
  }

  lemma TrimmedParts(line: string, i: nat, trimmed: string)
    requires i == FindColon(line) < |line| && trimmed == TrimEnd(line)
    ensures i < |trimmed| && FindColon(trimmed) == i && trimmed[..i] == line[..i]
  {
    NameSurvivesTrim(line, i);
    ColonSurvivesTrim(line);
  }

  lemma ParserCommandWithColon(line: string)
    requires FindColon(line) < |line|
    ensures CommandOf(TrimEnd(line)) ==
            FieldCommand(line[..FindColon(line)], TrimStart(TrimEnd(line[FindColon(line) + 1..])))
  {
    var i, trimmed := FindColon(line), TrimEnd(line);
    TrimmedParts(line, i, trimmed);
    ValueTrims(line, i);
    SplitIs(trimmed, i, line[..i], TrimEnd(line[i + 1..]));
    ParserReads(trimmed, line[..i], TrimEnd(line[i + 1..]));
  }

  lemma CommentCommand(line: string)
    requires line != "" && line[0] == ':'
    ensures StandardCommand(line) == StandardField(line[..FindColon(line)], AfterSpace(line[FindColon(line) + 1..]))
  {
    FirstColonAt(line, 0);
    assert line[..0] == "";
    CommentIsIgnored(AfterSpace(line[1..]));
  }

  lemma StandardCommandWithColon(line: string)
    requires FindColon(line) < |line|
    ensures StandardCommand(line) == StandardField(line[..FindColon(line)], AfterSpace(line[FindColon(line) + 1..]))
  {
    if line[0] == ':' {
      CommentCommand(line);
    } else {
      var i := FindColon(line);
      SplitIs(line, i, line[..i], line[i + 1..]);
      StandardReads(line, line[..i], line[i + 1..]);
    }
  }

  lemma CommandsWithColon(line: string)
    requires FindColon(line) < |line|
    ensures var (name, v) := (line[..FindColon(line)], line[FindColon(line) + 1..]);
            && CommandOf(TrimEnd(line)) == FieldCommand(name, TrimStart(TrimEnd(v)))
            && StandardCommand(line) == StandardField(name, AfterSpace(v))
  {
    ParserCommandWithColon(line);
    StandardCommandWithColon(line);
  }

  lemma SameFieldRead(name: string, x: string, y: string)
    ensures FieldCommand(name, x) == StandardField(name, y) <==> (IsField(name) ==> x == y && (name == "id" ==> '\0' !in y))
  {
    SameFieldCommand(name, x, y);
  }

  lemma SameValueRead(name: string, v: string)
    ensures FieldCommand(name, TrimStart(TrimEnd(v))) == StandardField(name, AfterSpace(v)) <==> TidyValue(name, AfterSpace(v))
  {
    SameFieldRead(name, TrimStart(TrimEnd(v)), AfterSpace(v));
    TrimBothEnds(v);
  }

  lemma SameWithColon(line: string)
    requires FindColon(line) < |line|
    ensures CommandOf(TrimEnd(line)) == StandardCommand(line) <==> Tidy(line)
  {
    CommandsWithColon(line);
    SameValueRead(line[..FindColon(line)], line[FindColon(line) + 1..]);
  }

  lemma FieldsEndInLetters(name: string)
    requires IsField(name)
    ensures TrimEnd(name) == name
  {
    assert !IsWhitespace(name[|name| - 1]);
    TextEndsAt(name, |name|);
  }

  lemma SameWithoutColon(line: string)
    requires FindColon(line) == |line| && line != ""
    ensures CommandOf(TrimEnd(line)) == StandardCommand(line) <==> Tidy(line)
  {
    ColonIsFirst(line);
    NoColon(line);
    NoColon(TrimEnd(line));
    if IsField(line) {
      FieldsEndInLetters(line);
    }
  }

  /** For every line, parser and standard read the same command if and only if the line is tidy. */
  lemma SameCommandIffTidy(line: string)
    ensures CommandOf(TrimEnd(line)) == StandardCommand(line) <==> Tidy(line)
  {
    if FindColon(line) < |line| {
      SameWithColon(line);
    } else if line != "" {
      SameWithoutColon(line);
    }
  }

  // When one block of commands gives the same message to both.

  /** The data values since the last blank line. */
  function OpenData(commands: seq<Command>): seq<string>
  {
    if commands == [] then []
    else
      var before := OpenData(commands[..|commands| - 1]);
      match commands[|commands| - 1]
      case Dispatch => []
      case DataField(v) => before + [v]
      case _ => before
  }

  /** No completed block has data lines of which the first is empty. */
  predicate FullFirstData(commands: seq<Command>)
  {
    commands != [] ==>
      var init := commands[..|commands| - 1];
      && FullFirstData(init)
      && (commands[|commands| - 1].Dispatch? ==> OpenData(init) == [] || OpenData(init)[0] != "")
  }

  /** The parser's data for some values, and the standard's data buffer for them. */
  function Gathered(values: seq<string>): string
  {
    if values == [] then "" else AddData(Gathered(values[..|values| - 1]), values[|values| - 1])
  }

  function Buffered(values: seq<string>): string
  {
    if values == [] then "" else Buffered(values[..|values| - 1]) + values[|values| - 1] + "\n"
  }

  lemma {:induction false} GatheredIsBuffered(values: seq<string>)
    requires values != []
    ensures values[0] != "" ==> Gathered(values) != "" && Gathered(values) + "\n" == Buffered(values)
    ensures values[0] == "" ==> Gathered(values) == "" || |Gathered(values)| + 2 <= |Buffered(values)|
    ensures Buffered(values) != ""
    decreases |values|
  {
    var init := values[..|values| - 1];
    if |values| > 1 {
      GatheredIsBuffered(init);
    } else {
      assert Gathered(init) == "" && Buffered(init) == "";
    }
  }

  /** How the states of parser and standard correspond after the same commands. */
  ghost predicate InStep(a: Assembly, s: Source, values: seq<string>)
  {
    && a.pending.data == Gathered(values)
    && s.data == Buffered(values)
    && s.kind == a.pending.event.GetOr("")
    && s.id == a.lastEventId.GetOr("")
  }

  lemma AppendValue(values: seq<string>, v: string)
    ensures Gathered(values + [v]) == AddData(Gathered(values), v)
    ensures Buffered(values + [v]) == Buffered(values) + v + "\n"
  {
    assert (values + [v])[..|values|] == values;
  }

  lemma {:induction false} StatesInStep(commands: seq<Command>)
    ensures InStep(Feed(Obey, START, commands).state, Feed(StandardObey, FRESH, commands).state, OpenData(commands))
    decreases |commands|
  {
    if commands != [] {
      var init := commands[..|commands| - 1];
      StatesInStep(init);
      match commands[|commands| - 1]
      case DataField(v) => AppendValue(OpenData(init), v);
      case _ =>
    }
  }

  lemma SeenAppend(events: seq<SseEvent>, e: SseEvent)
    ensures Seen(events + [e]) == Seen(events) +
            if e.data == "" then [] else [Message(KindOf(e), e.data, LastId(None, events + [e]).GetOr(""))]
  {
    assert (events + [e])[..|events|] == events;
  }

  /** One blank line: the same message from both if and only if the block's first data is not empty. */
  lemma SameMessageIffFull(a: Assembly, s: Source, values: seq<string>)
    requires InStep(a, s, values)
    ensures var mine := if a.pending.data == "" then [] else [Message(KindOf(a.pending), a.pending.data, a.lastEventId.GetOr(""))];
            var theirs := StandardObey(s, Dispatch).items;
            && |mine| <= |theirs|
            && (mine == theirs <==> values == [] || values[0] != "")
  {
    if values != [] {
      GatheredIsBuffered(values);
      var last := values[|values| - 1];
      assert s.data[|s.data| - 1] == '\n';
      if values[0] != "" {
        assert s.data[..|s.data| - 1] == a.pending.data;
      }
    }
  }

  lemma EqualAppended<T>(a: seq<T>, x: seq<T>, b: seq<T>, y: seq<T>)
    requires |a| <= |b| && |x| <= |y|
    ensures a + x == b + y <==> a == b && x == y
  {
    if a + x == b + y {
      assert |a| == |b|;
      assert a == (a + x)[..|a|] && b == (b + y)[..|b|];
      assert x == (a + x)[|a|..] && y == (b + y)[|b|..];
    }
  }

  /** What a blank line adds to the messages seen. */
  lemma SeenAfterDispatch(commands: seq<Command>)
    ensures var before := Feed(Obey, START, commands);
            var event := before.state.pending;
            Seen(before.items + [event]) == Seen(before.items) +
            if event.data == "" then [] else [Message(KindOf(event), event.data, before.state.lastEventId.GetOr(""))]
  {
    var before := Feed(Obey, START, commands);
    LastIdOfFeed(None, commands);
    SeenAppend(before.items, before.state.pending);
  }

  /** The messages agree after a blank line if and only if they did before it and the block is one on which they do. */
  lemma DispatchAgrees(init: seq<Command>)
    requires |Seen(Feed(Obey, START, init).items)| <= |Feed(StandardObey, FRESH, init).items|
    ensures var (a, s) := (Feed(Obey, START, init), Feed(StandardObey, FRESH, init));
            var (mine, theirs) := (Seen(a.items + [a.state.pending]), s.items + StandardObey(s.state, Dispatch).items);
            && |mine| <= |theirs|
            && (mine == theirs <==>
                  Seen(a.items) == s.items && (OpenData(init) == [] || OpenData(init)[0] != ""))
  {
    var (a, s) := (Feed(Obey, START, init), Feed(StandardObey, FRESH, init));
    var event := a.state.pending;
    var mine := if event.data == "" then [] else [Message(KindOf(event), event.data, a.state.lastEventId.GetOr(""))];
    StatesInStep(init);
    SeenAfterDispatch(init);
    SameMessageIffFull(a.state, s.state, OpenData(init));
    EqualAppended(Seen(a.items), mine, s.items, StandardObey(s.state, Dispatch).items);
  }

  /** Over any commands: the same messages from both if and only if every block's first data is not empty. */
  lemma {:induction false} SameMessagesIffFull(commands: seq<Command>)
    ensures var mine := Seen(Feed(Obey, START, commands).items);
            var theirs := Feed(StandardObey, FRESH, commands).items;
            && |mine| <= |theirs|
            && (mine == theirs <==> FullFirstData(commands))
    decreases |commands|
  {
    if commands != [] {
      var init, last := commands[..|commands| - 1], commands[|commands| - 1];
      SameMessagesIffFull(init);
      if last.Dispatch? {
        DispatchAgrees(init);
      } else {
        var (a, s) := (Feed(Obey, START, init), Feed(StandardObey, FRESH, init));
        assert a.items + [] == a.items && s.items + [] == s.items;
      }
    }
  }

  // From bytes.

  /** CR occurs only in front of LF. */
  predicate NoLoneCr(text: string)
  {
    forall i :: 0 <= i < |text| && text[i] == '\r' ==> i + 1 < |text| && text[i + 1] == '\n'
  }

  function WithoutCr(line: string): string
  {
    if line != "" && line[|line| - 1] == '\r' then line[..|line| - 1] else line
  }

  function WithoutCrs(lines: seq<string>): (r: seq<string>)
    ensures |r| == |lines|
  {
    seq(|lines|, i requires 0 <= i < |lines| => WithoutCr(lines[i]))
  }

  lemma CutLine(raw: string, line: string, tail: string)
    requires '\n' !in raw && WithoutCr(raw) == line
    ensures WithoutCrs(Lines.Complete('\n', raw + ['\n'] + tail)) == [line] + WithoutCrs(Lines.Complete('\n', tail))
  {
    Lines.FirstLine('\n', raw, tail);
  }

  lemma NoLoneCrTail(text: string, from: nat)
    requires NoLoneCr(text) && from <= |text|
    ensures NoLoneCr(text[from..])
  {
    var tail := text[from..];
    forall i | 0 <= i < |tail| && tail[i] == '\r' ensures i + 1 < |tail| && tail[i + 1] == '\n' {
      assert text[from + i] == '\r';
    }
  }

  lemma {:induction false} StandardLinesAre(text: string, line: string)
    requires NoLoneCr(text) && '\n' !in line && '\r' !in line
    ensures StandardLines(text, line) == WithoutCrs(Lines.Complete('\n', line + text))
    decreases |text|
  {
    if text == "" {
      Lines.NoSeparator('\n', line);
      assert line + text == line;
    } else {
      var cut := if text[0] == '\r' then 2 else 1;
      var tail := text[cut..];
      NoLoneCrTail(text, cut);
      if text[0] == '\n' || text[0] == '\r' {
        var raw := if text[0] == '\r' then line + "\r" else line;
        assert line + text == raw + ['\n'] + tail;
        CutLine(raw, line, tail);
        StandardLinesAre(tail, "");
        assert "" + tail == tail;
      } else {
        assert line + text == (line + [text[0]]) + tail;
        StandardLinesAre(tail, line + [text[0]]);
      }
    }
  }

  lemma CommandWithoutCr(line: string)
    ensures CommandOf(TrimEnd(WithoutCr(line))) == CommandOf(TrimEnd(line))
  {
    var w := WithoutCr(line);
    if w != line {
      TrimEndDropsCr(w);
      assert w + "\r" == line;
    }
  }

  /** What is asked of a stream before parser and standard are compared block by block. */
  ghost predicate Comparable(bytes: seq<Byte>)
  {
    var text := Utf8.Decode(bytes);
    && (text != "" ==> text[0] != BOM)
    && NoLoneCr(text)
    && forall i :: 0 <= i < |StandardLines(text, "")| ==> Tidy(StandardLines(text, "")[i])
  }

  lemma SameCommands(bytes: seq<Byte>)
    requires Comparable(bytes)
    ensures Commands(Lines.Complete(LF, bytes)) == StandardCommands(StandardLines(Utf8.Decode(bytes), ""))
  {
    var text := Utf8.Decode(bytes);
    var lines := Lines.Complete(LF, bytes);
    Utf8.SplitThenDecode(bytes);
    StandardLinesAre(text, "");
    assert "" + text == text;
    forall i | 0 <= i < |lines| ensures Commands(lines)[i] == StandardCommand(StandardLines(text, "")[i]) {
      CommandWithoutCr(Utf8.Decode(lines[i]));
      SameCommandIffTidy(StandardLines(text, "")[i]);
    }
  }

  /**
   The refinement. On a stream without byte order mark and lone CRs whose lines are tidy, the messages
   seen through the parser are those the standard dispatches if and only if no block has data lines of
   which the first is empty; and there are never more. After a blank line the sticky id is the
   standard's last event ID.
   */
  lemma StandardRefinement(bytes: seq<Byte>)
    requires Comparable(bytes)
    ensures var parsed, standard := OneShot(SseLine, START, bytes), StandardParse(bytes);
            var commands := Commands(Lines.Complete(LF, bytes));
            && (Seen(parsed.items) == standard.items <==> FullFirstData(commands))
            && |Seen(parsed.items)| <= |standard.items|
            && (commands != [] && commands[|commands| - 1].Dispatch? ==>
                  parsed.state.lastEventId.GetOr("") == standard.state.lastEventId)
  {
    var lines := Lines.Complete(LF, bytes);
    var commands := Commands(lines);
    SameCommands(bytes);
    FeedCommands(START, lines);
    SameMessagesIffFull(commands);
    StatesInStep(commands);
  }

  /**
   The refinement over a live body: whatever the framing and however far the run, what was yielded and
   then queued shows the standard's messages for the bytes received under the same condition, never more of
   them, and after a blank line the sticky id is the standard's last event ID.
   */
  lemma StandardRefinementInRun<E>(body: nat -> BodyPoll<E>, n: nat)
    requires Comparable(Received(body, Run(SseLine, body, START, n).conf.consumed))
    ensures var t := Run(SseLine, body, START, n);
            var bytes := Received(body, t.conf.consumed);
            var seen, standard := Seen(ItemsOf(t.outcomes) + t.conf.queue), StandardParse(bytes);
            var commands := Commands(Lines.Complete(LF, bytes));
            && (seen == standard.items <==> FullFirstData(commands))
            && |seen| <= |standard.items|
            && (commands != [] && commands[|commands| - 1].Dispatch? ==>
                  t.conf.state.lastEventId.GetOr("") == standard.state.lastEventId)
  {
    RunFollowsBody(SseLine, START, body, n);
    RunItems(SseLine, START, body, n);
    StandardRefinement(Received(body, Run(SseLine, body, START, n).conf.consumed));
  }
}
