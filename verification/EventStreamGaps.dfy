/** Byte streams on which the parser and the standard differ, one for each condition of `EventStreamStandard`. */
module EventStreamGaps {
  import opened Wrappers
  import opened Bytes
  import opened Text
  import opened LineMachine
  import opened SseEvents
  import opened SsePrinter
  import opened EventStreamStandard
  import Lines
  import Utf8

  /** The bytes of some lines of text. */
  function Stream(lines: seq<string>): seq<Byte>
  {
    Lines.Terminated(LF, EncodeAll(lines))
  }

  predicate Plain(lines: seq<string>)
  {
    forall i :: 0 <= i < |lines| ==> '\n' !in lines[i] && '\r' !in lines[i]
  }

  function ParserCommands(lines: seq<string>): (r: seq<Command>)
    ensures |r| == |lines|
  {
    seq(|lines|, i requires 0 <= i < |lines| => CommandOf(TrimEnd(lines[i])))
  }

  lemma {:induction false} TerminatedKeeps(lines: seq<string>, c: char)
    requires c != '\n' && forall i :: 0 <= i < |lines| ==> c !in lines[i]
    ensures c !in Lines.Terminated('\n', lines)
    decreases |lines|
  {
    if lines != [] {
      TerminatedKeeps(lines[..|lines| - 1], c);
    }
  }

  lemma StreamSplits(lines: seq<string>)
    requires Plain(lines)
    ensures Lines.Complete(LF, Stream(lines)) == EncodeAll(lines)
    ensures Utf8.Decode(Stream(lines)) == Lines.Terminated('\n', lines)
    ensures Lines.Complete('\n', Utf8.Decode(Stream(lines))) == lines
  {
    var encoded := EncodeAll(lines);
    forall i | 0 <= i < |lines| ensures LF !in encoded[i] && Utf8.Decode(encoded[i]) == lines[i] {
      Utf8.EncodeKeepsLines(lines[i]);
      Utf8.DecodeOfEncoded(lines[i]);
    }
    assert Utf8.DecodeAll(encoded) == lines;
    assert Stream(lines) + [] == Stream(lines);
    Lines.SplitIsUnique(LF, encoded, []);
    Utf8.DecodeTerminated(encoded, []);
    Utf8.SplitThenDecode(Stream(lines));
  }

  lemma NoCrs(lines: seq<string>)
    requires Plain(lines)
    ensures NoLoneCr(Lines.Terminated('\n', lines)) && WithoutCrs(lines) == lines
  {
    TerminatedKeeps(lines, '\r');
    forall i | 0 <= i < |lines| ensures WithoutCr(lines[i]) == lines[i] {
      assert '\r' !in lines[i];
    }
  }

  lemma StreamStandardLines(lines: seq<string>)
    requires Plain(lines)
    ensures NoLoneCr(Utf8.Decode(Stream(lines)))
    ensures StandardLines(Utf8.Decode(Stream(lines)), "") == lines
  {
    var text := Utf8.Decode(Stream(lines));
    StreamSplits(lines);
    NoCrs(lines);
    assert "" + text == text;
    StandardLinesAre(text, "");
  }

  lemma StreamParses(lines: seq<string>)
    requires Plain(lines)
    ensures Commands(Lines.Complete(LF, Stream(lines))) == ParserCommands(lines)
    ensures OneShot(SseLine, START, Stream(lines)) == Feed(Obey, START, ParserCommands(lines))
  {
    var encoded := EncodeAll(lines);
    StreamSplits(lines);
    forall i | 0 <= i < |lines| ensures Commands(encoded)[i] == ParserCommands(lines)[i] {
      Utf8.DecodeOfEncoded(lines[i]);
    }
    FeedCommands(START, encoded);
  }

  /** What the standard makes of a stream whose first line does not begin with a byte order mark. */
  lemma StreamMeans(lines: seq<string>)
    requires Plain(lines) && lines != [] && lines[0] != "" && lines[0][0] != BOM
    ensures var text := Utf8.Decode(Stream(lines)); text != "" && text[0] != BOM
    ensures StandardParse(Stream(lines)) == Feed(StandardObey, FRESH, StandardCommands(lines))
  {
    StreamSplits(lines);
    StreamStandardLines(lines);
    TerminatedStarts(lines);
  }

  lemma TrimOfTrimmed(value: string)
    requires value != "" && Trimmed(value)
    ensures TrimStart(TrimEnd(value)) == value
    ensures AfterSpace(value) == value
  {
    TextEndsAt(value, |value|);
    assert StartOfText(value) == 0;
  }

  lemma TrimOfSpaced(value: string)
    requires value != "" && Trimmed(value)
    ensures TrimStart(TrimEnd(value + " ")) == value
    ensures AfterSpace(value + " ") == value + " "
  {
    TextEndsAt(value + " ", |value|);
    assert (value + " ")[..|value|] == value;
    assert StartOfText(value) == 0;
  }

  lemma DataLine(line: string, value: string)
    requires line == "data:" + value
    ensures CommandOf(TrimEnd(line)) == DataField(TrimStart(TrimEnd(value)))
    ensures StandardCommand(line) == DataField(AfterSpace(value))
  {
    assert line == "data" + ":" + value;
    FindColonIs("data", value);
    assert line[..4] == "data" && line[5..] == value;
    CommandsWithColon(line);
  }

  lemma CommandsConcat(a: seq<string>, b: seq<string>)
    ensures ParserCommands(a + b) == ParserCommands(a) + ParserCommands(b)
    ensures StandardCommands(a + b) == StandardCommands(a) + StandardCommands(b)
  {
    forall i | 0 <= i < |a + b|
      ensures ParserCommands(a + b)[i] == (ParserCommands(a) + ParserCommands(b))[i]
      ensures StandardCommands(a + b)[i] == (StandardCommands(a) + StandardCommands(b))[i]
    {
      assert (a + b)[i] == if i < |a| then a[i] else b[i - |a|];
    }
  }

  lemma OneCommand(line: string)
    ensures ParserCommands([line]) == [CommandOf(TrimEnd(line))]
    ensures StandardCommands([line]) == [StandardCommand(line)]
  {
  }

  lemma BlankDataLine(line: string, blank: string)
    requires line == "data:" + blank && AfterSpace(blank) == ""
    ensures ParserCommands([line]) == [DataField("")] == StandardCommands([line])
  {
    DataLine(line, blank);
    TrimBothEnds(blank);
    OneCommand(line);
  }

  lemma FullDataLine(line: string, value: string)
    requires line == "data:" + value && value != "" && Trimmed(value)
    ensures ParserCommands([line]) == [DataField(value)] == StandardCommands([line])
  {
    DataLine(line, value);
    TrimOfTrimmed(value);
    OneCommand(line);
  }

  lemma SpacedDataLine(line: string, value: string)
    requires line == "data:" + value + " " && value != "" && Trimmed(value)
    ensures ParserCommands([line]) == [DataField(value)] && StandardCommands([line]) == [DataField(value + " ")]
  {
    assert line == "data:" + (value + " ");
    DataLine(line, value + " ");
    TrimOfSpaced(value);
    OneCommand(line);
  }

  lemma BlankLine(line: string)
    requires line == ""
    ensures ParserCommands([line]) == [Dispatch] == StandardCommands([line])
  {
    OneCommand(line);
  }

  lemma ParsedMessage(commands: seq<Command>, event: SseEvent)
    requires Feed(Obey, START, commands) == Fed(Assembly(event, None), [])
    requires event.id.None? && event.event.None? && event.data != ""
    ensures Seen(Feed(Obey, START, commands + [Dispatch]).items) == [Message("message", event.data, "")]
  {
    assert (commands + [Dispatch])[..|commands|] == commands;
    assert Feed(Obey, START, commands + [Dispatch]).items == [] + [event];
    SeenAppend([], event);
    LastIdAppend(None, [], event);
  }

  lemma DispatchedMessage(commands: seq<Command>, data: string)
    requires Feed(StandardObey, FRESH, commands) == Fed(Source(data + "\n", "", "", ""), [])
    ensures Feed(StandardObey, FRESH, commands + [Dispatch]).items == [Message("message", data, "")]
  {
    assert (commands + [Dispatch])[..|commands|] == commands;
    assert (data + "\n")[..|data|] == data;
  }

  // An empty first data line.

  lemma EmptyFirstMessages(value: string)
    requires value != ""
    ensures var commands := [DataField("")] + [DataField(value)] + [Dispatch];
            && Seen(Feed(Obey, START, commands).items) == [Message("message", value, "")]
            && Feed(StandardObey, FRESH, commands).items == [Message("message", "\n" + value, "")]
  {
    var c1, c2 := [DataField("")], [DataField("")] + [DataField(value)];
    assert c2[..1] == c1;
    FeedOne(Obey, START, DataField(""));
    assert Feed(Obey, START, c2) == Fed(Assembly(SseEvent(None, None, value), None), []);
    ParsedMessage(c2, SseEvent(None, None, value));
    FeedOne(StandardObey, FRESH, DataField(""));
    assert "" + "" + "\n" == "\n" && "\n" + value + "\n" == ("\n" + value) + "\n";
    assert Feed(StandardObey, FRESH, c2) == Fed(Source(("\n" + value) + "\n", "", "", ""), []);
    DispatchedMessage(c2, "\n" + value);
  }

  lemma StreamIsComparable(lines: seq<string>)
    requires Plain(lines) && lines != [] && lines[0] != "" && lines[0][0] != BOM
    ensures Comparable(Stream(lines)) <==> ParserCommands(lines) == StandardCommands(lines)
  {
    StreamMeans(lines);
    StreamStandardLines(lines);
    forall i | 0 <= i < |lines| ensures Tidy(lines[i]) <==> ParserCommands(lines)[i] == StandardCommands(lines)[i] {
      SameCommandIffTidy(lines[i]);
    }
  }

  /**
   The bytes of "data:", "data:x" and a blank line meet every condition but that on first data lines: the
   parser gives "x", where the standard has a line feed and "x". So it is with any other value than "x", and
   with a space after the first colon.
   */
  lemma EmptyFirstDataIsLost(blank: string, value: string)
    requires blank == "" || blank == " "
    requires value != "" && Trimmed(value) && '\n' !in value && '\r' !in value
    ensures var bytes := Stream(["data:" + blank, "data:" + value, ""]);
            && Comparable(bytes)
            && Seen(OneShot(SseLine, START, bytes).items) == [Message("message", value, "")]
            && StandardParse(bytes).items == [Message("message", "\n" + value, "")]
  {
    EmptyFirstStream(["data:" + blank, "data:" + value, ""], blank, value);
  }

  lemma EmptyFirstStream(lines: seq<string>, blank: string, value: string)
    requires |lines| == 3 && lines[0] == "data:" + blank && lines[1] == "data:" + value && lines[2] == "" && Plain(lines)
    requires AfterSpace(blank) == "" && value != "" && Trimmed(value)
    ensures var bytes := Stream(lines);
            && Comparable(bytes)
            && Seen(OneShot(SseLine, START, bytes).items) == [Message("message", value, "")]
            && StandardParse(bytes).items == [Message("message", "\n" + value, "")]
  {
    BlankDataLine(lines[0], blank);
    FullDataLine(lines[1], value);
    BlankLine(lines[2]);
    CommandsConcat([lines[0]], [lines[1]]);
    CommandsConcat([lines[0]] + [lines[1]], [lines[2]]);
    assert lines == [lines[0]] + [lines[1]] + [lines[2]];
    EmptyFirstMessages(value);
    StreamParses(lines);
    StreamMeans(lines);
    StreamIsComparable(lines);
  }

  // A line that is not tidy.

  lemma TrailingSpaceMessages(value: string)
    requires value != ""
    ensures Seen(Feed(Obey, START, [DataField(value)] + [Dispatch]).items) == [Message("message", value, "")]
    ensures Feed(StandardObey, FRESH, [DataField(value + " ")] + [Dispatch]).items == [Message("message", value + " ", "")]
  {
    FeedOne(Obey, START, DataField(value));
    ParsedMessage([DataField(value)], SseEvent(None, None, value));
    FeedOne(StandardObey, FRESH, DataField(value + " "));
    assert "" + (value + " ") + "\n" == (value + " ") + "\n";
    DispatchedMessage([DataField(value + " ")], value + " ");
  }

  lemma TrailingSpaceStream(lines: seq<string>, value: string)
    requires |lines| == 2 && lines[0] == "data:" + value + " " && lines[1] == "" && Plain(lines)
    requires value != "" && Trimmed(value)
    ensures var bytes := Stream(lines);
            && !Comparable(bytes)
            && Seen(OneShot(SseLine, START, bytes).items) == [Message("message", value, "")]
            && StandardParse(bytes).items == [Message("message", value + " ", "")]
  {
    SpacedDataLine(lines[0], value);
    BlankLine(lines[1]);
    CommandsConcat([lines[0]], [lines[1]]);
    assert lines == [lines[0]] + [lines[1]];
    TrailingSpaceMessages(value);
    StreamParses(lines);
    StreamMeans(lines);
    StreamIsComparable(lines);
    assert ([DataField(value)] + [Dispatch])[0] != ([DataField(value + " ")] + [Dispatch])[0];
  }

  /** The bytes of "data:x " and a blank line, or any other value: the parser drops the space that the standard keeps. */
  lemma TrailingSpaceIsLost(value: string)
    requires value != "" && Trimmed(value) && '\n' !in value && '\r' !in value
    ensures var bytes := Stream(["data:" + value + " ", ""]);
            && !Comparable(bytes)
            && Seen(OneShot(SseLine, START, bytes).items) == [Message("message", value, "")]
            && StandardParse(bytes).items == [Message("message", value + " ", "")]
  {
    TrailingSpaceStream(["data:" + value + " ", ""], value);
  }
}
