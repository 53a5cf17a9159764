/**
 Newline-delimited JSON: the request encoder, the line handler of the response parser, and what
 they promise together. Serialization and deserialization are parameters.
 */
module Ndjson {
  import opened Wrappers
  import opened Bytes
  import opened LineMachine
  import Lines

  /** Each line is one result, whatever the others are. */
  function JsonLine<R>(parse: seq<Byte> -> R): ((), seq<Byte>) -> Fed<(), R>
  {
    (u: (), line: seq<Byte>) => Fed((), [parse(line)])
  }

  function ParseAll<R>(parse: seq<Byte> -> R, lines: seq<seq<Byte>>): (r: seq<R>)
    ensures |r| == |lines|
  {
    seq(|lines|, i requires 0 <= i < |lines| => parse(lines[i]))
  }

  lemma {:induction false} FeedParses<R>(parse: seq<Byte> -> R, lines: seq<seq<Byte>>)
    ensures Feed(JsonLine(parse), (), lines) == Fed((), ParseAll(parse, lines))
    decreases |lines|
  {
    if lines != [] {
      var init := lines[..|lines| - 1];
      FeedParses(parse, init);
      assert ParseAll(parse, lines) == ParseAll(parse, init) + [parse(lines[|lines| - 1])];
    }
  }

  lemma OneResultPerLine<R>(parse: seq<Byte> -> R)
    ensures AtMostOneItem(JsonLine(parse))
  {
  }

  /**
   Over any run, the results yielded and then queued are as many as the line feeds received, and the
   i-th is the deserialization of the i-th line alone: a malformed line disturbs no other.
   */
  lemma ResultsAreByPosition<R, E>(parse: seq<Byte> -> R, body: nat -> BodyPoll<E>, n: nat)
    ensures var t := Run(JsonLine(parse), body, (), n);
            var results := ItemsOf(t.outcomes) + t.conf.queue;
            var all := Received(body, t.conf.consumed);
            && |results| == multiset(all)[LF] == |Lines.Complete(LF, all)|
            && forall i :: 0 <= i < |results| ==> results[i] == parse(Lines.Complete(LF, all)[i])
  {
    var t := Run(JsonLine(parse), body, (), n);
    var all := Received(body, t.conf.consumed);
    RunItems(JsonLine(parse), (), body, n);
    FeedParses(parse, Lines.Complete(LF, all));
    Lines.CountComplete(LF, all);
  }

  // Encoding.

  /** A serializer and a deserializer fit when what is serialized holds no line feed and is read back. */
  ghost predicate Fits<T(!new), X, Y>(serialize: T -> Result<seq<Byte>, X>, parse: seq<Byte> -> Result<T, Y>)
  {
    forall x :: serialize(x).Ok? ==> LF !in serialize(x).value && parse(serialize(x).value) == Ok(x)
  }

  /** One frame per item; an item that does not serialize is an error of the body. */
  function EncodedItem<T, X>(serialize: T -> Result<seq<Byte>, X>, item: T): BodyPoll<X>
  {
    match serialize(item)
    case Ok(bytes) => Data(Buf([bytes + [LF]]))
    case Err(e) => Failure(e)
  }

  lemma EncodedItemParses<T(!new), X, Y>(serialize: T -> Result<seq<Byte>, X>, parse: seq<Byte> -> Result<T, Y>, item: T)
    requires Fits(serialize, parse) && serialize(item).Ok?
    ensures var bytes := EncodedItem(serialize, item).frame.Remaining();
            && Lines.Complete(LF, bytes) == [serialize(item).value] && Lines.Rest(LF, bytes) == []
            && OneShot(JsonLine(parse), (), bytes) == Fed((), [Ok(item)])
  {
    var line := serialize(item).value;
    FlattenOne(line + [LF]);
    Lines.NoSeparator(LF, line);
    Lines.AppendSeparator(LF, line);
    FeedOne(JsonLine(parse), (), line);
  }

  /**
   The closure of `ndjson`. Whatever deserializer fits the serializer, the frame of an item is one line that
   parses back to that item, with nothing left over; an item that does not serialize makes the body fail.
   */
  method EncodeItem<T(!new), X, Y>(serialize: T -> Result<seq<Byte>, X>, ghost parse: seq<Byte> -> Result<T, Y>, item: T)
      returns (r: BodyPoll<X>)
    ensures match serialize(item)
            case Err(e) => r == Failure(e)
            case Ok(line) =>
              && r.Data?
              && (Fits(serialize, parse) ==>
                    && Lines.Complete(LF, r.frame.Remaining()) == [line] && Lines.Rest(LF, r.frame.Remaining()) == []
                    && OneShot(JsonLine(parse), (), r.frame.Remaining()) == Fed((), [Ok(item)]))
  {
    match serialize(item)
    case Ok(bytes) =>
      var buffer := bytes;
      buffer := buffer + [LF];
      r := Data(Buf([buffer]));
      if Fits(serialize, parse) {
        EncodedItemParses(serialize, parse, item);
      }
    case Err(e) =>
      r := Failure(e);
  }

  /** The body `ndjson` builds from a stream of items. */
  function Encoded<T, X>(serialize: T -> Result<seq<Byte>, X>, items: seq<T>): nat -> BodyPoll<X>
  {
    (i: nat) => if i < |items| then EncodedItem(serialize, items[i]) else End
  }

  /** The encoded bytes of items that all serialize. */
  function EncodedBytes<T, X>(serialize: T -> Result<seq<Byte>, X>, items: seq<T>): seq<Byte>
    requires forall i :: 0 <= i < |items| ==> serialize(items[i]).Ok?
  {
    if items == [] then []
    else EncodedBytes(serialize, items[..|items| - 1]) + serialize(items[|items| - 1]).value + [LF]
  }

  function Oks<T, Y>(items: seq<T>): (r: seq<Result<T, Y>>)
    ensures |r| == |items|
  {
    seq(|items|, i requires 0 <= i < |items| => Ok(items[i]))
  }

  lemma {:induction false} EncodedSplits<T(!new), X, Y>(serialize: T -> Result<seq<Byte>, X>, parse: seq<Byte> -> Result<T, Y>, items: seq<T>)
    requires Fits(serialize, parse)
    requires forall i :: 0 <= i < |items| ==> serialize(items[i]).Ok?
    ensures var bytes := EncodedBytes(serialize, items);
            && Lines.Rest(LF, bytes) == []
            && OneShot(JsonLine(parse), (), bytes) == Fed((), Oks(items))
    decreases |items|
  {
    if items != [] {
      var init, last := items[..|items| - 1], items[|items| - 1];
      var before, line := EncodedBytes(serialize, init), serialize(last).value;
      EncodedSplits(serialize, parse, init);
      Lines.AppendPiece(LF, before, line);
      assert [] + line == line;
      Lines.AppendSeparator(LF, before + line);
      OneShotLine(JsonLine(parse), (), before + line);
      assert Oks<T, Y>(items) == Oks<T, Y>(init) + [Ok(last)];
    }
  }

  /**
   Round trip under any framing. A body that delivers the encoded bytes cut in any way over its first
   `k` results, possibly with trailers, pendings and errors between, and then ends, makes the parser
   yield exactly `Ok` of each item in order and then finish, after at most `k + 1` polls more than items.
   */
  lemma RoundTrip<T(!new), X, Y, E>(serialize: T -> Result<seq<Byte>, X>, parse: seq<Byte> -> Result<T, Y>, items: seq<T>,
                                    body: nat -> BodyPoll<E>, k: nat)
      returns (n: nat)
    requires Fits(serialize, parse)
    requires forall i :: 0 <= i < |items| ==> serialize(items[i]).Ok?
    requires Received(body, k) == EncodedBytes(serialize, items) && body(k).End?
    ensures n <= k + |items|
    ensures var t := Run(JsonLine(parse), body, (), n + 1);
            && t.outcomes[n] == Finished
            && t.conf.consumed == k + 1 && t.conf.buffer == [] && t.conf.queue == []
            && ItemsOf(t.outcomes) == Oks(items)
  {
    OneResultPerLine(parse);
    EncodedSplits(serialize, parse, items);
    FeedParses(parse, Lines.Complete(LF, Received(body, k)));
    Lines.CountComplete(LF, Received(body, k));
    n := EndIsReached(JsonLine(parse), (), body, k);
  }

  /** One more encoded frame gives one more result and leaves nothing over. */
  lemma FrameArrives<T(!new), X, Y>(serialize: T -> Result<seq<Byte>, X>, parse: seq<Byte> -> Result<T, Y>, items: seq<T>, k: nat)
    requires Fits(serialize, parse) && k < |items| && serialize(items[k]).Ok?
    requires Lines.Rest(LF, Received(Encoded(serialize, items), k)) == []
    ensures Lines.Rest(LF, Received(Encoded(serialize, items), k + 1)) == []
    ensures Arrivals(JsonLine(parse), (), Encoded(serialize, items), k) == [Yield(Ok(items[k]))]
  {
    var body, f := Encoded(serialize, items), JsonLine(parse);
    var line, before := serialize(items[k]).value, Received(Encoded(serialize, items), k);
    FlattenOne(line + [LF]);
    assert Received(body, k + 1) == (before + line) + [LF];
    Lines.AppendPiece(LF, before, line);
    Lines.AppendSeparator(LF, before + line);
    OneShotLine(f, (), before + line);
    assert [] + line == line;
    var items := OneShot(f, (), before).items;
    assert (items + [parse(line)])[|items|..] == [parse(line)];
  }

  /** The encoder's own frames, read back: each item in its place, each serialization error in its place. */
  lemma {:induction false} EncodedMerge<T(!new), X, Y>(serialize: T -> Result<seq<Byte>, X>, parse: seq<Byte> -> Result<T, Y>,
                                                       items: seq<T>, k: nat)
    requires Fits(serialize, parse) && k <= |items|
    ensures Lines.Rest(LF, Received(Encoded(serialize, items), k)) == []
    ensures Merge(JsonLine(parse), (), Encoded(serialize, items), k) == Echoes(serialize, items[..k])
  {
    if k > 0 {
      EncodedMerge(serialize, parse, items, k - 1);
      assert items[..k][..k - 1] == items[..k - 1] && items[..k][k - 1] == items[k - 1];
      if serialize(items[k - 1]).Ok? {
        FrameArrives(serialize, parse, items, k - 1);
      }
    }
  }

  /**
   Encoder into parser, for all items, serializable or not: reading the encoder's body to its end
   delivers, in order, each item that serializes and the error of each that does not, and then finishes.
   */
  lemma EncoderIntoParser<T(!new), X, Y>(serialize: T -> Result<seq<Byte>, X>, parse: seq<Byte> -> Result<T, Y>, items: seq<T>)
      returns (n: nat)
    requires Fits(serialize, parse)
    ensures var t := Run(JsonLine(parse), Encoded(serialize, items), (), n + 1);
            && t.outcomes[n] == Finished && t.conf.buffer == []
            && Delivered(t.outcomes) == Echoes(serialize, items)
  {
    OneResultPerLine(parse);
    n := EndIsReached(JsonLine(parse), (), Encoded(serialize, items), |items|);
    EncodedMerge(serialize, parse, items, |items|);
    assert items[..|items|] == items;
  }

  /** What a reader should see of each item. */
  function Echoes<T, X, Y>(serialize: T -> Result<seq<Byte>, X>, items: seq<T>): seq<Outcome<Result<T, Y>, X>>
  {
    if items == [] then []
    else
      var last := items[|items| - 1];
      Echoes(serialize, items[..|items| - 1]) +
      match serialize(last)
      case Ok(_) => [Yield(Ok(last))]
      case Err(e) => [Fault(e)]
  }
}
