/**
 * The buffer factories of Burst/Buffers/Unpooled.cs. Every factory builds a
 * `ByteBuffer` and fills it with `WriteBytes`/`WriteByte`; `rented` is the
 * memory the pool hands to the new buffer.
 */
module Unpooled {
  import opened Common
  import opened Encoding
  import opened Buffers

  /** The sum of the array lengths, accumulated front to back; no array is longer than it. */
  function TotalLength(arrays: seq<seq<byte>>): (r: nat)
    ensures forall k :: 0 <= k < |arrays| ==> |arrays[k]| <= r
  {
    if arrays == [] then 0
    else
      var init := arrays[..|arrays| - 1];
      assert forall k :: 0 <= k < |init| ==> init[k] == arrays[k];
      TotalLength(init) + |arrays[|arrays| - 1]|
  }

  /** The arrays laid end to end, in argument order; its length is the sum the first loop computes. */
  function Concat(arrays: seq<seq<byte>>): (r: seq<byte>)
    ensures |r| == TotalLength(arrays)
  {
    if arrays == [] then [] else Concat(arrays[..|arrays| - 1]) + arrays[|arrays| - 1]
  }

  /** Each part sits in the composite right after the parts before it. */
  lemma {:induction false} ConcatPart(arrays: seq<seq<byte>>, k: nat)
    requires k < |arrays|
    ensures var lo := TotalLength(arrays[..k]);
            lo + |arrays[k]| <= |Concat(arrays)| && Concat(arrays)[lo..lo + |arrays[k]|] == arrays[k]
  {
    var n := |arrays|;
    var init := arrays[..n - 1];
    var lo := TotalLength(arrays[..k]);
    if k == n - 1 {
      assert arrays[..k] == init;
    } else {
      assert init[..k] == arrays[..k] && init[k] == arrays[k];
      ConcatPart(init, k);
      assert lo + |arrays[k]| <= |Concat(init)|;
      assert Concat(arrays) == Concat(init) + arrays[n - 1];
      SliceOfFront(Concat(init), arrays[n - 1], lo, lo + |arrays[k]|);
    }
  }

  /** A slice that lies inside the front part of a concatenation is a slice of that part. */
  lemma SliceOfFront(front: seq<byte>, back: seq<byte>, lo: nat, hi: nat)
    requires lo <= hi <= |front|
    ensures (front + back)[lo..hi] == front[lo..hi]
  {
    assert forall j :: lo <= j < hi ==> (front + back)[j] == front[j];
  }

  /** A prefix of the parts is never longer than all of them. */
  lemma {:induction false} TotalLengthPrefix(arrays: seq<seq<byte>>, k: nat)
    requires k <= |arrays|
    ensures TotalLength(arrays[..k]) <= TotalLength(arrays)
    decreases |arrays|
  {
    if k < |arrays| {
      var n := |arrays|;
      assert arrays[..n - 1][..k] == arrays[..k];
      TotalLengthPrefix(arrays[..n - 1], k);
    } else {
      assert arrays[..k] == arrays;
    }
  }

  /** One more array extends the prefix's total and its concatenation by that array. */
  lemma PrefixStep(arrays: seq<seq<byte>>, i: nat)
    requires i < |arrays|
    ensures TotalLength(arrays[..i + 1]) == TotalLength(arrays[..i]) + |arrays[i]| <= TotalLength(arrays)
    ensures Concat(arrays[..i + 1]) == Concat(arrays[..i]) + arrays[i]
  {
    assert arrays[..i + 1][..i] == arrays[..i];
    TotalLengthPrefix(arrays, i + 1);
  }

  /** Copying bytes in at position w extends the first w bytes by them. */
  lemma OverwriteAppends(before: seq<byte>, w: nat, src: seq<byte>)
    requires w + |src| <= |before|
    ensures Overwrite(before, w, src)[..w + |src|] == before[..w] + src
  {
    assert Overwrite(before, w, src)[..w + |src|] == before[..w] + src;
  }

  /** Buffer(initialCapacity): an empty buffer with at least that capacity. */
  method Buffer(initialCapacity: nat, rented: Memory) returns (buffer: ByteBuffer)
    requires initialCapacity <= |rented|
    ensures fresh(buffer) && fresh(buffer.memory) && buffer.CapacityFits()
    ensures buffer.InBounds() && buffer.readerIndex == 0 && buffer.writerIndex == 0
    ensures buffer.Capacity() >= initialCapacity
    ensures buffer.Life() == FreshLifetime()
  {
    buffer := new ByteBuffer(initialCapacity, rented);
  }

  /** WrappedBuffer(array): a buffer whose readable bytes are a copy of the array. */
  method WrappedBuffer(source: seq<byte>, rented: Memory) returns (buffer: ByteBuffer)
    requires |source| <= |rented|
    ensures fresh(buffer) && fresh(buffer.memory) && buffer.CapacityFits()
    ensures buffer.InBounds() && buffer.readerIndex == 0 && buffer.writerIndex == |source|
    ensures buffer.Readable() == source
    ensures buffer.Life() == FreshLifetime()
  {
    buffer := new ByteBuffer(|source|, rented);
    var err := buffer.WriteBytes(source);
    assert err == None;
  }

  /**
   * CompositeBuffer(arrays): a buffer of the total length whose readable bytes
   * are the arrays in argument order. None of the writes can fail.
   */
  method CompositeBuffer(arrays: seq<seq<byte>>, rented: Memory) returns (composite: ByteBuffer)
    requires TotalLength(arrays) <= |rented|
    ensures fresh(composite) && fresh(composite.memory) && composite.CapacityFits()
    ensures composite.Capacity() >= TotalLength(arrays)
    ensures composite.InBounds() && composite.readerIndex == 0 && composite.writerIndex == TotalLength(arrays)
    ensures composite.Readable() == Concat(arrays)
    ensures composite.Life() == FreshLifetime()
  {
    var totalLength := 0;
    var i := 0;
    while i < |arrays|
      invariant 0 <= i <= |arrays|
      invariant totalLength == TotalLength(arrays[..i])
    {
      assert arrays[..i + 1][..i] == arrays[..i];
      totalLength := totalLength + |arrays[i]|;
      i := i + 1;
    }
    assert arrays[..|arrays|] == arrays;

    composite := new ByteBuffer(totalLength, rented);
    WriteParts(composite, arrays);
  }

  /** The write loop of CompositeBuffer: each array in turn at the writer cursor. */
  method WriteParts(composite: ByteBuffer, arrays: seq<seq<byte>>)
    requires composite.CapacityFits() && composite.InBounds()
    requires composite.readerIndex == 0 && composite.writerIndex == 0
    requires TotalLength(arrays) <= composite.Capacity()
    modifies composite`writerIndex, composite.memory
    ensures composite.InBounds() && composite.writerIndex == TotalLength(arrays)
    ensures composite.Readable() == Concat(arrays)
  {
    var i := 0;
    while i < |arrays|
      invariant 0 <= i <= |arrays|
      invariant composite.InBounds()
      invariant composite.readerIndex == 0 && composite.writerIndex == TotalLength(arrays[..i])
      invariant composite.memory[..composite.writerIndex] == Concat(arrays[..i])
    {
      ghost var before := composite.memory[..];
      var w := composite.writerIndex;
      PrefixStep(arrays, i);
      assert composite.WriteError(|arrays[i]|) == None;
      var err := composite.WriteBytes(arrays[i]);
      assert err == None;
      OverwriteAppends(before, w, arrays[i]);
      assert composite.memory[..composite.writerIndex] == Concat(arrays[..i]) + arrays[i];
      i := i + 1;
    }
    assert arrays[..|arrays|] == arrays;
  }

  /** EmptyBuffer(): a buffer with nothing to read. */
  method EmptyBuffer(rented: Memory) returns (buffer: ByteBuffer)
    ensures fresh(buffer) && fresh(buffer.memory) && buffer.CapacityFits()
    ensures buffer.InBounds() && buffer.ReadableBytes() == 0 && buffer.Readable() == []
    ensures buffer.Life() == FreshLifetime()
  {
    buffer := new ByteBuffer(0, rented);
  }

  /** CopiedBuffer(byte): exactly one readable byte, the given one. */
  method CopiedBuffer(value: byte, rented: Memory) returns (buffer: ByteBuffer)
    requires 1 <= |rented|
    ensures fresh(buffer) && fresh(buffer.memory) && buffer.CapacityFits()
    ensures buffer.InBounds() && buffer.readerIndex == 0 && buffer.writerIndex == 1
    ensures buffer.Readable() == [value]
    ensures buffer.Life() == FreshLifetime()
  {
    buffer := new ByteBuffer(1, rented);
    var err := buffer.WriteByte(value);
    assert err == None;
  }

  /** CopiedBuffer(span): a buffer whose readable bytes are a copy of the span. */
  method CopiedBufferSpan(span: seq<byte>, rented: Memory) returns (buffer: ByteBuffer)
    requires |span| <= |rented|
    ensures fresh(buffer) && fresh(buffer.memory) && buffer.CapacityFits()
    ensures buffer.InBounds() && buffer.readerIndex == 0 && buffer.writerIndex == |span|
    ensures buffer.Readable() == span
    ensures buffer.Life() == FreshLifetime()
  {
    buffer := new ByteBuffer(|span|, rented);
    var err := buffer.WriteBytes(span);
    assert err == None;
  }
}
