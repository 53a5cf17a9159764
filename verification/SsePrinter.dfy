/**
 The events the parser can emit, and a printer for exactly those: parsing inverts printing,
 and printing what was parsed and parsing again gives the same events.
 */
module SsePrinter {
  import opened Wrappers
  import opened Bytes
  import opened Text
  import opened LineMachine
  import opened SseEvents
  import Lines
  import Utf8

  /** The lines of a data field. */
  function Pieces(data: string): seq<string>
  {
    Lines.Complete('\n', data) + [Lines.Rest('\n', data)]
  }

  function Joined(pieces: seq<string>): string
    requires pieces != []
  {
    if |pieces| == 1 then pieces[0] else Joined(pieces[..|pieces| - 1]) + "\n" + pieces[|pieces| - 1]
  }

  predicate PlainValue(value: string)
  {
    Trimmed(value) && '\n' !in value
  }

  ghost predicate CanonicalData(data: string)
  {
    data != "" ==> data[0] != '\n' && forall i :: 0 <= i < |Pieces(data)| ==> Trimmed(Pieces(data)[i])
  }

  ghost predicate Canonical(e: SseEvent)
  {
    && (e.id.Some? ==> PlainValue(e.id.value))
    && (e.event.Some? ==> PlainValue(e.event.value))
    && CanonicalData(e.data)
  }

  ghost predicate AllCanonical(events: seq<SseEvent>)
  {
    forall i :: 0 <= i < |events| ==> Canonical(events[i])
  }

  // What the parser emits is canonical.

  lemma JoinPieces(data: string, piece: string)
    requires '\n' !in piece
    ensures Pieces(data + "\n" + piece) == Pieces(data) + [piece]
  {
    Lines.AppendSeparator('\n', data);
    Lines.AppendPiece('\n', data + "\n", piece);
    assert [] + piece == piece;
  }

  lemma AddDataIsCanonical(data: string, value: string)
    requires CanonicalData(data) && PlainValue(value)
    ensures CanonicalData(AddData(data, value))
  {
    if data == "" {
      Lines.NoSeparator('\n', value);
      assert Pieces(value) == [value];
      if value != "" {
        assert value[0] in value;
      }
    } else {
      JoinPieces(data, value);
    }
  }

  lemma EndOfPlainLine(t: string, from: nat)
    requires '\n' !in t && from <= |t| && (t != "" ==> !IsWhitespace(t[|t| - 1]))
    ensures PlainValue(TrimStart(t[from..]))
  {
    var rest := t[from..];
    var k := from + StartOfText(rest);
    assert TrimStart(rest) == t[k..];
    Lines.CleanSlice('\n', t, k, |t|);
    if k < |t| {
      assert rest[k - from] == t[k];
    }
  }

  predicate PlainCommand(command: Command)
  {
    match command
    case DataField(v) => PlainValue(v)
    case IdField(v) => PlainValue(v)
    case EventField(v) => PlainValue(v)
    case _ => true
  }

  lemma FieldCommandIsPlain(name: string, value: string)
    requires PlainValue(value)
    ensures PlainCommand(FieldCommand(name, value))
  {
  }

  /** The value of a field neither begins nor ends with white space. */
  lemma ValueIsPlain(line: string)
    requires '\n' !in line
    ensures PlainCommand(CommandOf(TrimEnd(line)))
  {
    var t := TrimEnd(line);
    Lines.CleanSlice('\n', line, 0, EndOfText(line));
    var i := FindColon(t);
    if i < |t| {
      EndOfPlainLine(t, i + 1);
      FieldCommandIsPlain(t[..i], TrimStart(t[i + 1..]));
    } else {
      FieldCommandIsPlain(t[..i], "");
    }
  }

  lemma {:induction false} FeedIsCanonical(a: Assembly, lines: seq<seq<Byte>>)
    requires Canonical(a.pending) && Lines.Clean(LF, lines)
    ensures var r := Feed(SseLine, a, lines); Canonical(r.state.pending) && AllCanonical(r.items)
    decreases |lines|
  {
    if lines != [] {
      var init, last := lines[..|lines| - 1], lines[|lines| - 1];
      FeedIsCanonical(a, init);
      var p := Feed(SseLine, a, init).state.pending;
      var text := Utf8.Decode(last);
      Utf8.DecodeKeepsAscii(last, LF);
      ValueIsPlain(text);
      match CommandOf(TrimEnd(text))
      case DataField(v) => AddDataIsCanonical(p.data, v);
      case _ =>
    }
  }

  lemma EmittedAreCanonical(bytes: seq<Byte>)
    ensures AllCanonical(OneShot(SseLine, START, bytes).items)
  {
    Lines.SplitIsExact(LF, bytes);
    FeedIsCanonical(START, Lines.Complete(LF, bytes));
  }

  // Printing.

  function FieldLines(name: string, value: Option<string>): seq<string>
  {
    match value case Some(v) => [name + ":" + v] case None => []
  }

  function DataLines(pieces: seq<string>): (r: seq<string>)
    ensures |r| == |pieces|
  {
    seq(|pieces|, i requires 0 <= i < |pieces| => "data:" + pieces[i])
  }

  function PrintedData(data: string): seq<string>
  {
    if data == "" then [] else DataLines(Pieces(data))
  }

  /** The lines of an event, the last one blank. */
  function PrintedLines(e: SseEvent): seq<string>
  {
    FieldLines("id", e.id) + FieldLines("event", e.event) + (PrintedData(e.data) + [""])
  }

  function EncodeAll(lines: seq<string>): (r: seq<seq<Byte>>)
    ensures |r| == |lines|
  {
    seq(|lines|, i requires 0 <= i < |lines| => Utf8.Encode(lines[i]))
  }

  function Print(events: seq<SseEvent>): seq<Byte>
  {
    if events == [] then []
    else Print(events[..|events| - 1]) + Block(events[|events| - 1])
  }

  function Block(e: SseEvent): seq<Byte>
  {
    Lines.Terminated(LF, EncodeAll(PrintedLines(e)))
  }

  lemma PrintAppend(events: seq<SseEvent>, e: SseEvent)
    ensures Print(events + [e]) == Print(events) + Block(e)
  {
    assert (events + [e])[..|events|] == events;
  }

  // Parsing inverts printing.

  lemma PiecesJoin(data: string)
    ensures Joined(Pieces(data)) == data
  {
    Lines.SplitIsExact('\n', data);
    JoinedIsTerminated(Lines.Complete('\n', data), Lines.Rest('\n', data));
  }

  lemma {:induction false} JoinedIsTerminated(lines: seq<string>, rest: string)
    ensures Joined(lines + [rest]) == Lines.Terminated('\n', lines) + rest
    decreases |lines|
  {
    if lines == [] {
      assert lines + [rest] == [rest];
    } else {
      var init, last := lines[..|lines| - 1], lines[|lines| - 1];
      JoinedIsTerminated(init, last);
      assert (lines + [rest])[..|lines|] == lines == init + [last];
    }
  }

  lemma {:induction false} JoinedStartsFull(pieces: seq<string>)
    requires pieces != [] && pieces[0] != ""
    ensures Joined(pieces) != ""
    decreases |pieces|
  {
  }

  lemma FieldIsTrimmed(name: string, value: string)
    requires Trimmed(value)
    ensures TrimEnd(name + ":" + value) == name + ":" + value
  {
    var line := name + ":" + value;
    assert line[|line| - 1] == if value == "" then ':' else value[|value| - 1];
    TextEndsAt(line, |line|);
  }

  lemma FieldSplits(name: string, value: string)
    requires ':' !in name
    ensures SplitColon(name + ":" + value) == (name, Some(value))
  {
    var line := name + ":" + value;
    FindColonIs(name, value);
    assert line[..|name|] == name && line[|name| + 1..] == value;
  }

  /** A printed field is read back as the same field. */
  lemma PrintedField(name: string, value: string)
    requires IsField(name) && Trimmed(value)
    ensures CommandOf(TrimEnd(name + ":" + value)) == FieldCommand(name, value)
  {
    FieldIsTrimmed(name, value);
    assert ':' !in name;
    FieldSplits(name, value);
    assert TrimStart(value) == value by {
      assert StartOfText(value) == 0;
    }
  }

  lemma FeedText(a: Assembly, line: string)
    ensures Feed(SseLine, a, EncodeAll([line])) == Obey(a, CommandOf(TrimEnd(line)))
  {
    assert EncodeAll([line]) == [Utf8.Encode(line)];
    FeedOne(SseLine, a, Utf8.Encode(line));
    Utf8.DecodeOfEncoded(line);
  }

  lemma EncodeConcat(x: seq<string>, y: seq<string>)
    ensures EncodeAll(x + y) == EncodeAll(x) + EncodeAll(y)
  {
  }

  lemma FeedTextConcat(a: Assembly, x: seq<string>, y: seq<string>)
    ensures var r := Feed(SseLine, a, EncodeAll(x));
            var q := Feed(SseLine, r.state, EncodeAll(y));
            Feed(SseLine, a, EncodeAll(x + y)) == Fed(q.state, r.items + q.items)
  {
    EncodeConcat(x, y);
    FeedConcat(SseLine, a, EncodeAll(x), EncodeAll(y));
  }

  lemma FeedFieldLine(a: Assembly, name: string, value: string)
    requires IsField(name) && Trimmed(value)
    ensures Feed(SseLine, a, EncodeAll([name + ":" + value])) == Obey(a, FieldCommand(name, value))
  {
    PrintedField(name, value);
    FeedText(a, name + ":" + value);
  }

  lemma FeedDataField(b: Assembly, piece: string)
    requires Trimmed(piece)
    ensures Feed(SseLine, b, EncodeAll(["data:" + piece])) == Obey(b, DataField(piece))
  {
    assert "data:" + piece == "data" + ":" + piece;
    FeedFieldLine(b, "data", piece);
  }

  lemma FeedDataLine(a: Assembly, lines: seq<string>, data: string, piece: string)
    requires Trimmed(piece)
    requires Feed(SseLine, a, EncodeAll(lines)) == Fed(a.(pending := a.pending.(data := data)), [])
    ensures Feed(SseLine, a, EncodeAll(lines + ["data:" + piece])) ==
            Fed(a.(pending := a.pending.(data := AddData(data, piece))), [])
  {
    FeedDataField(a.(pending := a.pending.(data := data)), piece);
    FeedTextConcat(a, lines, ["data:" + piece]);
  }

  lemma {:induction false} FeedData(a: Assembly, pieces: seq<string>)
    requires a.pending.data == "" && pieces != [] && pieces[0] != ""
    requires forall i :: 0 <= i < |pieces| ==> Trimmed(pieces[i])
    ensures Feed(SseLine, a, EncodeAll(DataLines(pieces))) == Fed(a.(pending := a.pending.(data := Joined(pieces))), [])
    decreases |pieces|
  {
    var init, last := pieces[..|pieces| - 1], pieces[|pieces| - 1];
    assert DataLines(pieces) == DataLines(init) + ["data:" + last];
    if init == [] {
      assert EncodeAll(DataLines(init)) == [];
      FeedDataLine(a, DataLines(init), "", last);
    } else {
      FeedData(a, init);
      JoinedStartsFull(init);
      FeedDataLine(a, DataLines(init), Joined(init), last);
    }
  }

  lemma FeedField(a: Assembly, name: string, value: Option<string>)
    requires IsField(name) && (value.Some? ==> Trimmed(value.value))
    ensures Feed(SseLine, a, EncodeAll(FieldLines(name, value))) ==
            match value
            case None => Fed(a, [])
            case Some(v) => Obey(a, FieldCommand(name, v))
  {
    match value
    case None =>
      assert EncodeAll(FieldLines(name, value)) == [];
    case Some(v) =>
      FeedFieldLine(a, name, v);
  }

  lemma FeedId(lastId: Option<string>, id: Option<string>)
    requires id.Some? ==> Trimmed(id.value)
    ensures Feed(SseLine, Assembly(DEFAULT, lastId), EncodeAll(FieldLines("id", id))) ==
            Fed(Assembly(SseEvent(id, None, ""), if id.Some? then id else lastId), [])
  {
    FeedField(Assembly(DEFAULT, lastId), "id", id);
  }

  lemma FeedKind(id: Option<string>, stickyId: Option<string>, kind: Option<string>)
    requires kind.Some? ==> Trimmed(kind.value)
    ensures Feed(SseLine, Assembly(SseEvent(id, None, ""), stickyId), EncodeAll(FieldLines("event", kind))) ==
            Fed(Assembly(SseEvent(id, kind, ""), stickyId), [])
  {
    FeedField(Assembly(SseEvent(id, None, ""), stickyId), "event", kind);
  }

  lemma FeedHead(lastId: Option<string>, e: SseEvent)
    requires Canonical(e)
    ensures Feed(SseLine, Assembly(DEFAULT, lastId), EncodeAll(FieldLines("id", e.id) + FieldLines("event", e.event))) ==
            Fed(Assembly(SseEvent(e.id, e.event, ""), if e.id.Some? then e.id else lastId), [])
  {
    FeedId(lastId, e.id);
    FeedKind(e.id, if e.id.Some? then e.id else lastId, e.event);
    FeedTextConcat(Assembly(DEFAULT, lastId), FieldLines("id", e.id), FieldLines("event", e.event));
  }

  lemma FeedTail(stickyId: Option<string>, e: SseEvent)
    requires Canonical(e)
    ensures Feed(SseLine, Assembly(e.(data := ""), stickyId), EncodeAll(PrintedData(e.data) + [""])) ==
            Fed(Assembly(DEFAULT, stickyId), [e])
  {
    var c, d := Assembly(e.(data := ""), stickyId), Assembly(e, stickyId);
    assert Feed(SseLine, c, EncodeAll(PrintedData(e.data))) == Fed(d, []) by {
      if e.data == "" {
        assert EncodeAll(PrintedData(e.data)) == [];
      } else {
        FirstPiece(e.data);
        FeedData(c, Pieces(e.data));
        PiecesJoin(e.data);
      }
    }
    FeedText(d, "");
    FeedTextConcat(c, PrintedData(e.data), [""]);
  }

  /** One printed event, fed to any assembly with nothing pending, comes back as that event alone. */
  lemma FeedPrinted(lastId: Option<string>, e: SseEvent)
    requires Canonical(e)
    ensures Feed(SseLine, Assembly(DEFAULT, lastId), EncodeAll(PrintedLines(e))) ==
            Fed(Assembly(DEFAULT, if e.id.Some? then e.id else lastId), [e])
  {
    FeedHead(lastId, e);
    FeedTail(if e.id.Some? then e.id else lastId, e);
    FeedTextConcat(Assembly(DEFAULT, lastId), FieldLines("id", e.id) + FieldLines("event", e.event), PrintedData(e.data) + [""]);
  }

  lemma FirstPiece(data: string)
    requires data != "" && data[0] != '\n'
    ensures Pieces(data)[0] != ""
  {
    Lines.SplitIsExact('\n', data);
    var lines := Lines.Complete('\n', data);
    if lines != [] {
      TerminatedStarts(lines);
    }
  }

  lemma {:induction false} TerminatedStarts(lines: seq<string>)
    requires lines != []
    ensures lines[0] + "\n" <= Lines.Terminated('\n', lines)
    decreases |lines|
  {
    if |lines| > 1 {
      TerminatedStarts(lines[..|lines| - 1]);
    }
  }

  lemma FieldLinesAreClean(name: string, value: Option<string>)
    requires '\n' !in name && (value.Some? ==> '\n' !in value.value)
    ensures Lines.Clean('\n', FieldLines(name, value))
  {
    if value.Some? {
      assert '\n' !in name + ":" + value.value;
    }
  }

  lemma DataLinesAreClean(pieces: seq<string>)
    requires Lines.Clean('\n', pieces)
    ensures Lines.Clean('\n', DataLines(pieces))
  {
    forall i | 0 <= i < |pieces| ensures '\n' !in DataLines(pieces)[i] {
      assert '\n' !in "data:";
    }
  }

  lemma PrintedTextIsClean(e: SseEvent)
    requires Canonical(e)
    ensures Lines.Clean('\n', PrintedLines(e))
  {
    var ids, events := FieldLines("id", e.id), FieldLines("event", e.event);
    FieldLinesAreClean("id", e.id);
    FieldLinesAreClean("event", e.event);
    assert Lines.Clean('\n', PrintedData(e.data)) by {
      Lines.SplitIsExact('\n', e.data);
      DataLinesAreClean(Pieces(e.data));
    }
    Lines.CleanConcat('\n', ids, events);
    Lines.CleanConcat('\n', PrintedData(e.data), [""]);
    Lines.CleanConcat('\n', ids + events, PrintedData(e.data) + [""]);
  }

  lemma PrintedLinesAreClean(e: SseEvent)
    requires Canonical(e)
    ensures Lines.Clean(LF, EncodeAll(PrintedLines(e)))
  {
    PrintedTextIsClean(e);
    forall i | 0 <= i < |PrintedLines(e)| ensures LF !in EncodeAll(PrintedLines(e))[i] {
      Utf8.EncodeKeepsLines(PrintedLines(e)[i]);
    }
  }

  lemma ParseBlock(lastId: Option<string>, e: SseEvent)
    requires Canonical(e)
    ensures OneShot(SseLine, Assembly(DEFAULT, lastId), Block(e)) == Fed(Assembly(DEFAULT, if e.id.Some? then e.id else lastId), [e])
    ensures Lines.Rest(LF, Block(e)) == []
  {
    var lines := EncodeAll(PrintedLines(e));
    PrintedLinesAreClean(e);
    Lines.SplitIsUnique(LF, lines, []);
    assert Lines.Terminated(LF, lines) + [] == Lines.Terminated(LF, lines);
    FeedPrinted(lastId, e);
  }

  /** What parsing printed events should give: the events, and nothing pending. */
  ghost predicate ParsesTo(lastId: Option<string>, bytes: seq<Byte>, events: seq<SseEvent>)
  {
    && OneShot(SseLine, Assembly(DEFAULT, lastId), bytes) == Fed(Assembly(DEFAULT, LastId(lastId, events)), events)
    && Lines.Rest(LF, bytes) == []
  }

  lemma ParseAppended(lastId: Option<string>, bytes: seq<Byte>, events: seq<SseEvent>, e: SseEvent)
    requires Canonical(e) && ParsesTo(lastId, bytes, events)
    ensures ParsesTo(lastId, bytes + Block(e), events + [e])
  {
    var block := Block(e);
    ParseBlock(LastId(lastId, events), e);
    LastIdAppend(lastId, events, e);
    assert [] + block == block;
    OneShotConcat(SseLine, Assembly(DEFAULT, lastId), bytes, block);
    Lines.SplitConcat(LF, bytes, block);
  }

  lemma ParseNothing(lastId: Option<string>)
    ensures ParsesTo(lastId, Print([]), [])
  {
  }

  lemma ParseOneMore(lastId: Option<string>, events: seq<SseEvent>, e: SseEvent)
    requires Canonical(e) && ParsesTo(lastId, Print(events), events)
    ensures ParsesTo(lastId, Print(events + [e]), events + [e])
  {
    PrintAppend(events, e);
    ParseAppended(lastId, Print(events), events, e);
  }

  /** The bytes of printed events, parsed from any state with nothing pending, give the events back. */
  lemma {:induction false} ParsePrinted(lastId: Option<string>, events: seq<SseEvent>)
    requires AllCanonical(events)
    ensures ParsesTo(lastId, Print(events), events)
    decreases |events|
  {
    if events == [] {
      ParseNothing(lastId);
    } else {
      var init, last := events[..|events| - 1], events[|events| - 1];
      assert init + [last] == events;
      ParsePrinted(lastId, init);
      ParseOneMore(lastId, init, last);
    }
  }

  /**
   The same over a live body: however the printed bytes are cut into frames and mixed with trailers,
   pendings and errors, what is yielded and then queued is exactly the printed events.
   */
  lemma PrintedStreamParses<E>(lastId: Option<string>, events: seq<SseEvent>, body: nat -> BodyPoll<E>, n: nat)
    requires AllCanonical(events)
    requires Received(body, Run(SseLine, body, Assembly(DEFAULT, lastId), n).conf.consumed) == Print(events)
    ensures var t := Run(SseLine, body, Assembly(DEFAULT, lastId), n);
            && ItemsOf(t.outcomes) + t.conf.queue == events
            && t.conf.buffer == []
            && t.conf.state == Assembly(DEFAULT, LastId(lastId, events))
  {
    var a := Assembly(DEFAULT, lastId);
    ParsePrinted(lastId, events);
    RunItems(SseLine, a, body, n);
    RunFollowsBody(SseLine, a, body, n);
  }

  /** Over a body that delivers printed events and ends, exactly those events are yielded, and then the end. */
  lemma PrintedRoundTrip<E>(lastId: Option<string>, events: seq<SseEvent>, body: nat -> BodyPoll<E>, k: nat) returns (n: nat)
    requires AllCanonical(events) && Received(body, k) == Print(events) && body(k).End?
    ensures n <= k + LineFeeds(body, k)
    ensures var t := Run(SseLine, body, Assembly(DEFAULT, lastId), n + 1);
            t.outcomes[n] == Finished && ItemsOf(t.outcomes) == events
  {
    ParsePrinted(lastId, events);
    n := EndYieldsEveryEvent(body, lastId, k);
  }

  /** The canonical events are exactly those that some bytes make the parser emit. */
  lemma EmittableIffCanonical(e: SseEvent)
    ensures Canonical(e) <==> exists bytes :: e in OneShot(SseLine, START, bytes).items
  {
    if Canonical(e) {
      ParsePrinted(None, [e]);
      assert e in OneShot(SseLine, START, Print([e])).items;
    }
    forall bytes | e in OneShot(SseLine, START, bytes).items ensures Canonical(e) {
      EmittedAreCanonical(bytes);
    }
  }

  /** Printing what was parsed, and parsing that, is the identity on the events of any bytes. */
  lemma ReprintIsIdentity(bytes: seq<Byte>)
    ensures var events := OneShot(SseLine, START, bytes).items;
            OneShot(SseLine, START, Print(events)).items == events
  {
    EmittedAreCanonical(bytes);
    ParsePrinted(None, OneShot(SseLine, START, bytes).items);
  }
}
