/** The receive side of an HTTP/3 stream: each poll reads into a new buffer of fixed size and hands out what was filled. */
module H3Receive {
  import opened Bytes

  datatype ReadReply = Give(data: seq<Byte>) | ReadFailed | ReadBlocked

  /** What `poll_read` returns: how many bytes it put at the start of the buffer. */
  datatype ReadResult = Filled(n: nat) | FillFailed | FillBlocked

  /** `Poll<Result<Option<Bytes>, StreamErrorIncoming>>`. */
  datatype DataPoll = Chunk(data: seq<Byte>) | Ended | DataFailed | DataPending

  const BUFFER_SIZE: nat := 4096

  /** What a reply puts into a buffer of `room` bytes: never more than there is room for. */
  function Fitting(data: seq<Byte>, room: nat): (r: seq<Byte>)
    ensures |r| <= room && r <= data
  {
    if |data| <= room then data else data[..room]
  }

  /** What a poll hands out for a reply: a read of nothing is the end. */
  function DataOf(reply: ReadReply): (r: DataPoll)
    ensures r.Chunk? ==> 0 < |r.data| <= BUFFER_SIZE
  {
    match reply
    case Give(data) =>
      var filled := Fitting(data, BUFFER_SIZE);
      if filled == [] then Ended else Chunk(filled)
    case ReadFailed => DataFailed
    case ReadBlocked => DataPending
  }

  /** What a poll should say of each reply: the error of an error, the end for a read of nothing, and otherwise the bytes read. */
  predicate Answers(reply: ReadReply, r: DataPoll)
  {
    && (reply.ReadFailed? <==> r.DataFailed?)
    && (reply.ReadBlocked? <==> r.DataPending?)
    && (reply == Give([]) <==> r.Ended?)
    && (reply.Give? && reply.data != [] <==> r.Chunk?)
    && (r.Chunk? ==> r.data == if |reply.data| <= 4096 then reply.data else reply.data[..4096])
  }

  lemma DataOfAnswers(reply: ReadReply, r: DataPoll)
    ensures Answers(reply, r) <==> r == DataOf(reply)
  {
  }

  /** The bytes handed out by the `n` polls that use the replies from `from` on. */
  function HandedOut(replies: nat -> ReadReply, from: nat, n: nat): seq<Byte>
  {
    if n == 0 then []
    else
      HandedOut(replies, from, n - 1) +
      match DataOf(replies(from + n - 1)) case Chunk(data) => data case _ => []
  }

  /** All that the transport read in those polls. */
  function GivenBytes(replies: nat -> ReadReply, from: nat, n: nat): seq<Byte>
  {
    if n == 0 then []
    else GivenBytes(replies, from, n - 1) + match replies(from + n - 1) case Give(data) => data case _ => []
  }

  /** Polls before and after any point hand out together what they would in one: nothing is lost or repeated between. */
  lemma {:induction false} HandedOutInTwo(replies: nat -> ReadReply, from: nat, a: nat, b: nat)
    ensures HandedOut(replies, from, a + b) == HandedOut(replies, from, a) + HandedOut(replies, from + a, b)
    decreases b
  {
    if b > 0 {
      HandedOutInTwo(replies, from, a, b - 1);
      assert from + (a + b) - 1 == (from + a) + b - 1;
    } else {
      assert HandedOut(replies, from, a) + [] == HandedOut(replies, from, a);
    }
  }

  /** A transport that keeps to the size of the buffer has every byte handed out, once and in order. */
  lemma {:induction false} AllIsHandedOut(replies: nat -> ReadReply, from: nat, n: nat)
    requires forall i: nat :: replies(i).Give? ==> |replies(i).data| <= BUFFER_SIZE
    ensures HandedOut(replies, from, n) == GivenBytes(replies, from, n)
    decreases n
  {
    if n > 0 {
      AllIsHandedOut(replies, from, n - 1);
      var reply := replies(from + n - 1);
      assert reply.Give? ==> Fitting(reply.data, BUFFER_SIZE) == reply.data;
    }
  }

  /**
   A consumer that polls until it is told that the stream has ended, `n` polls in, and met no error on the way: the
   transport has read nothing then, no earlier reply was an error or the end, and all bytes read were handed out.
   */
  lemma EndMeansAllReceived(replies: nat -> ReadReply, from: nat, n: nat)
    requires forall i: nat :: replies(i).Give? ==> |replies(i).data| <= BUFFER_SIZE
    requires DataOf(replies(from + n)) == Ended
    requires forall j: nat :: from <= j < from + n ==> DataOf(replies(j)).Chunk? || DataOf(replies(j)).DataPending?
    ensures replies(from + n) == Give([])
    ensures forall j: nat :: from <= j < from + n ==> !replies(j).ReadFailed? && replies(j) != Give([])
    ensures HandedOut(replies, from, n) == GivenBytes(replies, from, n + 1)
  {
    DataOfAnswers(replies(from + n), Ended);
    AllIsHandedOut(replies, from, n + 1);
    assert HandedOut(replies, from, n) + [] == HandedOut(replies, from, n);
    forall j: nat | from <= j < from + n ensures !replies(j).ReadFailed? && replies(j) != Give([]) {
      DataOfAnswers(replies(j), DataOf(replies(j)));
    }
  }

  /** The readable side of a navar stream. */
  class Incoming {
    const replies: nat -> ReadReply
    var used: nat

    constructor (replies: nat -> ReadReply)
      ensures this.replies == replies && used == 0
    {
      this.replies, used := replies, 0;
    }

    method PollRead(buf: array<Byte>) returns (r: ReadResult)
      modifies this, buf
      ensures used == old(used) + 1
      ensures match replies(old(used))
              case Give(data) =>
                var filled := Fitting(data, buf.Length);
                r == Filled(|filled|) && buf[..|filled|] == filled
              case ReadFailed => r == FillFailed
              case ReadBlocked => r == FillBlocked
    {
      var reply := replies(used);
      used := used + 1;
      match reply
      case Give(data) =>
        var filled := Fitting(data, buf.Length);
        for i := 0 to |filled|
          invariant used == old(used) + 1 && buf[..i] == filled[..i]
        {
          buf[i] := filled[i];
        }
        r := Filled(|filled|);
      case ReadFailed => r := FillFailed;
      case ReadBlocked => r := FillBlocked;
    }

    /** One `poll_data` over this side: a new buffer, one read, and what it filled. */
    method PollData() returns (r: DataPoll)
      modifies this
      ensures used == old(used) + 1 && Answers(replies(old(used)), r)
    {
      var buf := new Byte[BUFFER_SIZE](_ => 0);
      var result := PollRead(buf);
      match result
      case Filled(n) => r := if n == 0 then Ended else Chunk(buf[..n]);
      case FillFailed => r := DataFailed;
      case FillBlocked => r := DataPending;
    }
  }

  class H3RecvStream {
    const inner: Incoming

    constructor (inner: Incoming)
      ensures this.inner == inner
    {
      this.inner := inner;
    }

    method PollData() returns (r: DataPoll)
      modifies inner
      ensures inner.used == old(inner.used) + 1 && Answers(inner.replies(old(inner.used)), r)
    {
      r := inner.PollData();
    }

    /** Any number of polls hands out the bytes of as many replies, from where the stream stands. */
    method Collect(n: nat) returns (data: seq<Byte>)
      modifies inner
      ensures inner.used == old(inner.used) + n && data == HandedOut(inner.replies, old(inner.used), n)
    {
      data := [];
      for i := 0 to n
        invariant inner.used == old(inner.used) + i && data == HandedOut(inner.replies, old(inner.used), i)
      {
        var r := PollData();
        DataOfAnswers(inner.replies(old(inner.used) + i), r);
        data := data + match r case Chunk(chunk) => chunk case _ => [];
      }
    }

    /**
     Polls until the stream ends or fails, and at most `limit` times: the bytes read, and the last answer. Only the last
     reply can have been an error or the end.
     */
    method ReadToEnd(limit: nat) returns (data: seq<Byte>, polls: nat, stop: DataPoll)
      modifies inner
      ensures polls <= limit && inner.used == old(inner.used) + polls
      ensures data == HandedOut(inner.replies, old(inner.used), polls)
      ensures polls > 0 ==> Answers(inner.replies(inner.used - 1), stop)
      ensures polls < limit ==> polls > 0 && (stop.Ended? || stop.DataFailed?)
      ensures forall j: nat :: old(inner.used) <= j < inner.used - 1 ==>
                inner.replies(j).ReadBlocked? || (inner.replies(j).Give? && inner.replies(j).data != [])
    {
      data, polls, stop := [], 0, DataPending;
      while polls < limit && !stop.Ended? && !stop.DataFailed?
        invariant polls <= limit && inner.used == old(inner.used) + polls
        invariant data == HandedOut(inner.replies, old(inner.used), polls)
        invariant polls > 0 ==> Answers(inner.replies(inner.used - 1), stop)
        invariant polls == 0 ==> stop == DataPending
        invariant forall j: nat :: old(inner.used) <= j < inner.used - 1 ==>
                    inner.replies(j).ReadBlocked? || (inner.replies(j).Give? && inner.replies(j).data != [])
        decreases limit - polls
      {
        stop := PollData();
        DataOfAnswers(inner.replies(inner.used - 1), stop);
        polls := polls + 1;
        data := data + match stop case Chunk(chunk) => chunk case _ => [];
      }
    }
  }
}
