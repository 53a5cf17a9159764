/** Bytes, and the `bytes::Buf` cursor through which a body hands out a frame. */
module Bytes {

  type Byte = x: int | 0 <= x < 256

  const LF: Byte := 0x0A
  const CR: Byte := 0x0D

  function Flatten(chunks: seq<seq<Byte>>): seq<Byte>
  {
    if chunks == [] then [] else chunks[0] + Flatten(chunks[1..])
  }

  lemma FlattenOne(chunk: seq<Byte>)
    ensures Flatten([chunk]) == chunk
  {
    assert [chunk][1..] == [];
  }

  /** What is left of a frame, as the chunks it is stored in. Empty chunks are allowed. */
  datatype Buf = Buf(chunks: seq<seq<Byte>>) {

    function Remaining(): seq<Byte>
    {
      Flatten(chunks)
    }

    predicate HasRemaining()
    {
      Remaining() != []
    }

    /** The next contiguous stretch: empty only when nothing remains. */
    function Chunk(): (r: seq<Byte>)
      ensures r <= Remaining()
      ensures HasRemaining() ==> r != []
      decreases |chunks|
    {
      if chunks == [] then []
      else if chunks[0] == [] then Buf(chunks[1..]).Chunk()
      else chunks[0]
    }

    function Advance(n: nat): (r: Buf)
      requires n <= |Remaining()|
      ensures r.Remaining() == Remaining()[n..]
      decreases |chunks|
    {
      if chunks == [] then this
      else if n < |chunks[0]| then Buf([chunks[0][n..]] + chunks[1..])
      else Buf(chunks[1..]).Advance(n - |chunks[0]|)
    }

    /** After the next chunk, what is left is the rest: nothing is skipped or seen twice. */
    lemma ChunkThenRest(taken: seq<Byte>)
      requires HasRemaining()
      ensures (taken + Chunk()) + Advance(|Chunk()|).Remaining() == taken + Remaining()
      ensures |Advance(|Chunk()|).Remaining()| < |Remaining()|
    {
    }
  }
}
