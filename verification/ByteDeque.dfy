/**
 The ring buffer behind `VecDeque<u8>`: an array, the slot of the first byte, and a length.
 Growth may put the bytes anywhere in any larger array, so every layout a run could leave is covered.
 */
module ByteDeques {
  import opened Bytes

  /** The slot `i` places after `head` in a ring of `capacity` slots. */
  function Wrap(head: nat, i: nat, capacity: nat): (slot: nat)
    requires head < capacity && i < capacity
    ensures slot < capacity
  {
    if head + i < capacity then head + i else head + i - capacity
  }

  /** The `len` bytes from slot `head` on, past the end of the ring and on from its start if need be. */
  function Window(ring: seq<Byte>, head: nat, len: nat): (r: seq<Byte>)
    requires len <= |ring| && (head < |ring| || head == |ring| == 0)
    ensures |r| == len
    ensures forall i :: 0 <= i < len ==> r[i] == ring[Wrap(head, i, |ring|)]
  {
    if head + len <= |ring| then ring[head..head + len] else ring[head..] + ring[..head + len - |ring|]
  }

  lemma WindowGrows(ring: seq<Byte>, head: nat, len: nat, b: Byte)
    requires len < |ring| && head < |ring|
    ensures Window(ring[Wrap(head, len, |ring|) := b], head, len + 1) == Window(ring, head, len) + [b]
  {
  }

  lemma WindowShrinks(ring: seq<Byte>, head: nat, len: nat)
    requires 0 < len <= |ring| && head < |ring|
    ensures Window(ring, if head + 1 == |ring| then 0 else head + 1, len - 1) == Window(ring, head, len)[1..]
  {
  }

  class ByteDeque {
    var data: array<Byte>
    var head: nat
    var len: nat

    /** The logical contents, front first. */
    ghost var contents: seq<Byte>

    ghost predicate Valid()
      reads this, data
    {
      && len == |contents| <= data.Length
      && (head < data.Length || head == data.Length == 0)
      && contents == Window(data[..], head, len)
    }

    constructor (capacity: nat)
      ensures Valid() && fresh(data) && contents == []
    {
      data := new Byte[capacity];
      head, len, contents := 0, 0, [];
    }

    method Get(i: nat) returns (b: Byte)
      requires Valid() && i < len
      ensures b == contents[i]
    {
      b := data[Wrap(head, i, data.Length)];
    }

    /** The two contiguous stretches, in order. */
    method AsSlices() returns (first: seq<Byte>, second: seq<Byte>)
      requires Valid()
      ensures first + second == contents
      ensures second != [] ==> head + |first| == data.Length
    {
      if head + len <= data.Length {
        first, second := data[head..head + len], [];
      } else {
        first, second := data[head..], data[..head + len - data.Length];
      }
    }

    /** Stores a byte in the slot behind the `count` bytes that begin at slot `start`. */
    static method Store(ring: array<Byte>, start: nat, count: nat, b: Byte)
      requires count < ring.Length && start < ring.Length
      modifies ring
      ensures Window(ring[..], start, count + 1) == old(Window(ring[..], start, count)) + [b]
    {
      ghost var before := ring[..];
      ring[Wrap(start, count, ring.Length)] := b;
      WindowGrows(before, start, count, b);
      assert ring[..] == before[Wrap(start, count, ring.Length) := b];
    }

    static method StoreAll(ring: array<Byte>, start: nat, bytes: seq<Byte>)
      requires |bytes| < ring.Length && start < ring.Length
      modifies ring
      ensures Window(ring[..], start, |bytes|) == bytes
    {
      for i := 0 to |bytes|
        invariant Window(ring[..], start, i) == bytes[..i]
      {
        Store(ring, start, i, bytes[i]);
        assert bytes[..i + 1] == bytes[..i] + [bytes[i]];
      }
      assert bytes[..|bytes|] == bytes;
    }

    /** Copies the bytes, in order, into another array from slot `start` on. */
    method CopyInto(wider: array<Byte>, start: nat)
      requires Valid() && wider != data && len < wider.Length && start < wider.Length
      modifies wider
      ensures Window(wider[..], start, len) == contents
    {
      var first, second := AsSlices();
      StoreAll(wider, start, first + second);
    }

    method Grow()
      requires Valid() && len == data.Length
      modifies this`data, this`head
      ensures Valid() && fresh(data) && len < data.Length
    {
      var capacity: nat :| len < capacity;
      var start: nat :| start < capacity;
      var wider := new Byte[capacity];
      CopyInto(wider, start);
      data, head := wider, start;
    }

    method PushBack(b: Byte)
      requires Valid()
      modifies this, data
      ensures Valid() && (data == old(data) || fresh(data))
      ensures contents == old(contents) + [b]
    {
      if len == data.Length {
        Grow();
      }
      Store(data, head, len, b);
      len, contents := len + 1, contents + [b];
    }

    method PopFront()
      requires Valid() && len > 0
      modifies this`head, this`len, this`contents
      ensures Valid() && contents == old(contents)[1..]
    {
      WindowShrinks(data[..], head, len);
      head, len := if head + 1 == data.Length then 0 else head + 1, len - 1;
      contents := contents[1..];
    }

    /** `extend`: the bytes of a slice, in order. */
    method Extend(chunk: seq<Byte>)
      requires Valid()
      modifies this, data
      ensures Valid() && (data == old(data) || fresh(data))
      ensures contents == old(contents) + chunk
    {
      for i := 0 to |chunk|
        invariant Valid() && (data == old(data) || fresh(data))
        invariant contents == old(contents) + chunk[..i]
      {
        PushBack(chunk[i]);
      }
    }

    /** Takes in what remains of a frame, chunk by chunk. */
    method ExtendFromFrame(frame: Buf)
      requires Valid()
      modifies this, data
      ensures Valid() && (data == old(data) || fresh(data))
      ensures contents == old(contents) + frame.Remaining()
    {
      var rest := frame;
      while rest.HasRemaining()
        invariant Valid() && (data == old(data) || fresh(data))
        invariant contents + rest.Remaining() == old(contents) + frame.Remaining()
        decreases |rest.Remaining()|
      {
        rest.ChunkThenRest(contents);
        var chunk := rest.Chunk();
        Extend(chunk);
        rest := rest.Advance(|chunk|);
      }
    }

    /** `drain(0..n)`: the first `n` bytes leave. */
    method DrainFront(n: nat)
      requires Valid() && n <= len
      modifies this`head, this`len, this`contents
      ensures Valid() && contents == old(contents)[n..]
    {
      for i := 0 to n
        invariant Valid() && contents == old(contents)[i..]
      {
        PopFront();
      }
    }

    /** The logical positions `start` to `end`, copied out of whichever of the two stretches they lie in. */
    method CopyWindow(start: nat, end: nat) returns (buf: seq<Byte>)
      requires Valid() && start <= end <= len
      ensures buf == contents[start..end]
    {
      var s1, s2 := AsSlices();
      if end <= |s1| {
        buf := s1[start..end];
      } else if start >= |s1| {
        buf := s2[start - |s1|..end - |s1|];
      } else {
        buf := s1[start..];
        buf := buf + s2[..end - |s1|];
      }
    }
  }
}
