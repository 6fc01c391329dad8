/**
 * The cursor-addressed binary buffer (Burst/Buffers/ByteBuffer.cs).
 *
 * A buffer owns one region of pooled memory whose length is the capacity. It
 * keeps a reader and a writer cursor, one saved mark per cursor, and a manual
 * reference count. The cursor setters are unchecked, so nothing ties the
 * cursors to the capacity; `InBounds` names the configuration that every
 * read, write, Clear, Slice and Duplicate preserves and under which the only
 * failures are the two "not enough bytes" checks. The setters and the two
 * Reset methods can leave it: a mark is not moved when its cursor is.
 */
module Buffers {
  import opened Common
  import opened Encoding

  /** The exceptions the buffer operations can throw. */
  datatype BufferError =
    | NotEnoughWritableBytes  // EnsureWritable's InvalidOperationException
    | NotEnoughReadableBytes  // EnsureReadable's InvalidOperationException
    | ArgumentOutOfRange      // a span slice outside the memory, or a bad Slice argument
    | IndexOutOfRange         // a single-byte access outside the memory

  /** s with the bytes from `at` on replaced by src. */
  function Overwrite(s: seq<byte>, at: nat, src: seq<byte>): (r: seq<byte>)
    requires at + |src| <= |s|
    ensures |r| == |s|
    ensures r[at..at + |src|] == src
    ensures forall i :: 0 <= i < |s| && !(at <= i < at + |src|) ==> r[i] == s[i]
  {
    s[..at] + src + s[at + |src|..]
  }

  // ---------------------------------------------------------------------
  // Reference counting, as a state machine on (count, disposed, returns).
  // ---------------------------------------------------------------------

  /**
   * The lifetime part of a buffer: the reference count, the `_disposed`
   * flag, and how many times the memory owner was handed back to the pool.
   */
  datatype Lifetime = Lifetime(refCount: int, disposed: bool, memoryReturns: nat)

  /** The lifetime of a newly constructed buffer. */
  function FreshLifetime(): Lifetime
  {
    Lifetime(1, false, 0)
  }

  /** Retain: the count goes up by one, nothing else moves. */
  function Retained(l: Lifetime): (r: Lifetime)
    ensures r.refCount == l.refCount + 1
    ensures r.disposed == l.disposed && r.memoryReturns == l.memoryReturns
  {
    l.(refCount := l.refCount + 1)
  }

  /** Dispose returns the memory only the first time. */
  function Disposed(l: Lifetime): (r: Lifetime)
    ensures r.disposed && r.refCount == l.refCount
    ensures r.memoryReturns == l.memoryReturns + (if l.disposed then 0 else 1)
  {
    if l.disposed then l else Lifetime(l.refCount, true, l.memoryReturns + 1)
  }

  /** Release decrements, and disposes exactly when the count becomes 0. */
  function Released(l: Lifetime): (r: Lifetime)
    ensures r.refCount == l.refCount - 1
    ensures r.disposed <==> l.disposed || l.refCount == 1
    ensures r.memoryReturns == l.memoryReturns + (if !l.disposed && l.refCount == 1 then 1 else 0)
  {
    var c := l.refCount - 1;
    if c == 0 then Disposed(l.(refCount := c)) else l.(refCount := c)
  }

  datatype RefOp = RetainOp | ReleaseOp | DisposeOp

  /** One call; a disposal is permanent, and the memory goes back only on the first one. */
  function Step(l: Lifetime, op: RefOp): (r: Lifetime)
    ensures l.disposed ==> r.disposed
    ensures r.memoryReturns == l.memoryReturns + (if !l.disposed && r.disposed then 1 else 0)
  {
    match op
    case RetainOp => Retained(l)
    case ReleaseOp => Released(l)
    case DisposeOp => Disposed(l)
  }

  /** The lifetime after a sequence of retain/release/dispose calls. */
  function Apply(l: Lifetime, ops: seq<RefOp>): (r: Lifetime)
    ensures l.disposed ==> r.disposed
    ensures r.memoryReturns >= l.memoryReturns
    decreases |ops|
  {
    if ops == [] then l else Apply(Step(l, ops[0]), ops[1..])
  }

  function Retains(k: nat): seq<RefOp>
  {
    if k == 0 then [] else [RetainOp] + Retains(k - 1)
  }

  function Releases(k: nat): seq<RefOp>
  {
    if k == 0 then [] else [ReleaseOp] + Releases(k - 1)
  }

  /** Dispose is idempotent: a second call changes nothing. */
  lemma DisposeIdempotent(l: Lifetime)
    ensures Disposed(Disposed(l)) == Disposed(l)
    ensures Disposed(l).disposed
    ensures Disposed(l).memoryReturns == l.memoryReturns + (if l.disposed then 0 else 1)
  {
  }

  /** A release returns the memory exactly when it takes a live count from 1 to 0. */
  lemma ReleaseReturnsMemory(l: Lifetime)
    ensures Released(l).refCount == l.refCount - 1
    ensures Released(l).memoryReturns == l.memoryReturns + 1 <==> l.refCount == 1 && !l.disposed
    ensures Released(l).memoryReturns == l.memoryReturns || Released(l).memoryReturns == l.memoryReturns + 1
  {
  }

  /** Whatever sequence of calls is made, the memory goes back to the pool at most once. */
  lemma {:induction false} ReturnedAtMostOnce(l: Lifetime, ops: seq<RefOp>)
    requires l.memoryReturns == (if l.disposed then 1 else 0)
    ensures Apply(l, ops).memoryReturns == (if Apply(l, ops).disposed then 1 else 0)
    ensures Apply(l, ops).memoryReturns <= 1
    decreases |ops|
  {
    if ops != [] {
      ReturnedAtMostOnce(Step(l, ops[0]), ops[1..]);
    }
  }

  lemma {:induction false} RetainsAdd(l: Lifetime, k: nat)
    ensures Apply(l, Retains(k)) == l.(refCount := l.refCount + k)
    decreases k
  {
    if k > 0 {
      assert Retains(k)[1..] == Retains(k - 1);
      RetainsAdd(Retained(l), k - 1);
    }
  }

  /** Releases that keep the count positive never touch the memory. */
  lemma {:induction false} ReleasesWhileLive(l: Lifetime, j: nat)
    requires !l.disposed && l.refCount > j
    ensures Apply(l, Releases(j)) == l.(refCount := l.refCount - j)
    decreases j
  {
    if j > 0 {
      assert Releases(j)[1..] == Releases(j - 1);
      ReleasesWhileLive(Released(l), j - 1);
    }
  }

  /** Once disposed, releases only move the count (below zero, too). */
  lemma {:induction false} ReleasesAfterDispose(l: Lifetime, j: nat)
    requires l.disposed
    ensures Apply(l, Releases(j)) == l.(refCount := l.refCount - j)
    decreases j
  {
    if j > 0 {
      assert Releases(j)[1..] == Releases(j - 1);
      ReleasesAfterDispose(Released(l), j - 1);
    }
  }

  lemma ApplyConcat(l: Lifetime, a: seq<RefOp>, b: seq<RefOp>)
    ensures Apply(l, a + b) == Apply(Apply(l, a), b)
    decreases |a|
  {
    if a != [] {
      assert (a + b)[0] == a[0];
      assert (a + b)[1..] == a[1..] + b;
      ApplyConcat(Step(l, a[0]), a[1..], b);
      assert Apply(l, a + b) == Apply(Step(l, a[0]), a[1..] + b);
    } else {
      assert a + b == b;
    }
  }

  /**
   * Balance: on a new buffer, k retains followed by j releases return the
   * memory to the pool exactly when j is at least k + 1, and exactly once.
   */
  lemma BalancedRelease(k: nat, j: nat)
    ensures Apply(FreshLifetime(), Retains(k) + Releases(j)).refCount == k + 1 - j
    ensures Apply(FreshLifetime(), Retains(k) + Releases(j)).memoryReturns == (if j >= k + 1 then 1 else 0)
  {
    var l := Apply(FreshLifetime(), Retains(k));
    ApplyConcat(FreshLifetime(), Retains(k), Releases(j));
    RetainsAdd(FreshLifetime(), k);
    if j <= k {
      ReleasesWhileLive(l, j);
    } else {
      ReleasesWhileLive(l, k);
      var live := Apply(l, Releases(k));
      ApplyConcat(l, Releases(k), Releases(j - k));
      assert Releases(j) == Releases(k) + Releases(j - k) by { ReleasesSplit(k, j - k); }
      assert Releases(j - k) == [ReleaseOp] + Releases(j - k - 1);
      ApplyConcat(live, [ReleaseOp], Releases(j - k - 1));
      ReleasesAfterDispose(Released(live), j - k - 1);
    }
  }

  lemma {:induction false} ReleasesSplit(a: nat, b: nat)
    ensures Releases(a + b) == Releases(a) + Releases(b)
  {
    if a > 0 {
      ReleasesSplit(a - 1, b);
    }
  }

  // ---------------------------------------------------------------------
  // Writing and reading back at the same position.
  // ---------------------------------------------------------------------

  /**
   * The memory WriteShort leaves, read by ReadShort at the position the write
   * started at, gives the value back, negatives included.
   */
  lemma ShortReadsBack(m: seq<byte>, at: nat, v: int16)
    requires at + 2 <= |m|
    ensures DecodeShort(Overwrite(m, at, EncodeShort(v))[at..at + 2]) == v
  {
    ShortRoundTrip(v);
  }

  lemma IntReadsBack(m: seq<byte>, at: nat, v: int32)
    requires at + 4 <= |m|
    ensures DecodeInt(Overwrite(m, at, EncodeInt(v))[at..at + 4]) == v
  {
    IntRoundTrip(v);
  }

  lemma LongReadsBack(m: seq<byte>, at: nat, v: int64)
    requires at + 8 <= |m|
    ensures DecodeLong(Overwrite(m, at, EncodeLong(v))[at..at + 8]) == v
  {
    LongRoundTrip(v);
  }

  // ---------------------------------------------------------------------
  // The buffer.
  // ---------------------------------------------------------------------

  /** A region of memory the pool hands out: a .NET `Memory<byte>` is at most `int.MaxValue` long. */
  type Memory = m: seq<byte> | |m| <= Int32Max witness []

  class ByteBuffer {
    /** The rented memory; its length is the capacity. */
    const memory: array<byte>
    var readerIndex: int32
    var writerIndex: int32
    var markedReaderIndex: int32
    var markedWriterIndex: int32
    var refCount: int
    var disposed: bool
    /** How many times `_memoryOwner.Dispose()` handed the memory back to the pool. */
    var memoryReturns: nat

    /**
     * `new ByteBuffer(initialCapacity)`. The pool hands out `rented`, at least
     * as long as requested and holding whatever a previous user left in it.
     */
    constructor (initialCapacity: nat, rented: Memory)
      requires initialCapacity <= |rented|
      ensures fresh(memory) && memory[..] == rented
      ensures Capacity() >= initialCapacity && CapacityFits()
      ensures readerIndex == 0 && writerIndex == 0
      ensures markedReaderIndex == 0 && markedWriterIndex == 0
      ensures Life() == FreshLifetime()
      ensures InBounds() && ReadableBytes() == 0
    {
      memory := new byte[|rented|](i requires 0 <= i < |rented| => rented[i]);
      readerIndex, writerIndex := 0, 0;
      markedReaderIndex, markedWriterIndex := 0, 0;
      refCount, disposed, memoryReturns := 1, false, 0;
    }

    /** The capacity is the length of the rented memory, which can exceed the request. */
    function Capacity(): (r: nat)
      ensures r == memory.Length
      ensures CapacityFits() ==> r <= Int32Max
    {
      memory.Length
    }

    /** The memory's length is a C# `int`; every constructed buffer has this. */
    predicate CapacityFits()
    {
      memory.Length <= Int32Max
    }

    /** 0 <= reader <= writer <= capacity. */
    predicate InBounds()
      reads this
    {
      0 <= readerIndex <= writerIndex <= memory.Length
    }

    /**
     * `_writerIndex - _readerIndex` in unchecked 32-bit arithmetic: the
     * difference when it fits in an int, and a value of the opposite sign when
     * it wraps. In bounds exactly when [reader, reader + readable) lies in the
     * memory.
     */
    function ReadableBytes(): (r: int32)
      reads this
      ensures -0x8000_0000 <= writerIndex - readerIndex < 0x8000_0000 ==> r == writerIndex - readerIndex
      ensures !(-0x8000_0000 <= writerIndex - readerIndex < 0x8000_0000) ==> (r > 0 <==> writerIndex < readerIndex)
      ensures InBounds() ==> 0 <= r <= Capacity()
      ensures CapacityFits() ==>
                (InBounds() <==> 0 <= readerIndex && 0 <= r && readerIndex + r <= Capacity())
    {
      Wrap32(writerIndex - readerIndex)
    }

    /**
     * `_memory.Length - _writerIndex` in unchecked 32-bit arithmetic: a writer
     * so negative that the difference passes `int.MaxValue` wraps to a negative
     * count.
     */
    function WritableBytes(): (r: int32)
      reads this
      ensures CapacityFits() && Capacity() - writerIndex <= Int32Max ==> r == Capacity() - writerIndex
      ensures CapacityFits() && Capacity() - writerIndex > Int32Max ==> r < 0
      ensures CapacityFits() && InBounds() ==> 0 <= r <= Capacity() && readerIndex + ReadableBytes() + r == Capacity()
    {
      Wrap32(memory.Length - writerIndex)
    }

    /** In bounds, a buffer is readable exactly when a one-byte read succeeds. */
    predicate IsReadable()
      reads this
      ensures CapacityFits() && InBounds() ==> (IsReadable() <==> ReadError(1).None?)
    {
      ReadableBytes() > 0
    }

    /** In bounds, a buffer is writable exactly when a one-byte write succeeds. */
    predicate IsWritable()
      reads this
      ensures CapacityFits() && InBounds() ==> (IsWritable() <==> WriteError(1).None?)
    {
      WritableBytes() > 0
    }

    /** The unread bytes [reader, writer). */
    function Readable(): (r: seq<byte>)
      requires InBounds()
      reads this, memory
      ensures |r| == ReadableBytes()
    {
      memory[readerIndex..writerIndex]
    }

    function Life(): Lifetime
      reads this
    {
      Lifetime(refCount, disposed, memoryReturns)
    }

    /**
     * The exception a write of n bytes at the writer cursor throws, if any:
     * EnsureWritable first, then the span slice at the writer cursor.
     */
    function WriteError(n: nat): (r: Option<BufferError>)
      requires CapacityFits()
      reads this
      ensures r.None? ==> 0 <= writerIndex && writerIndex + n <= Capacity()
      ensures InBounds() ==> (r.None? <==> WritableBytes() >= n)
      ensures Capacity() - writerIndex > Int32Max ==> r == Some(NotEnoughWritableBytes)
    {
      if WritableBytes() < n then Some(NotEnoughWritableBytes)
      else if writerIndex < 0 then Some(ArgumentOutOfRange)
      else None
    }

    /**
     * The exception a read of n bytes at the reader cursor throws, if any:
     * EnsureReadable first, then the span slice at the reader cursor.
     */
    function ReadError(n: nat): (r: Option<BufferError>)
      requires CapacityFits()
      reads this
      ensures r.None? ==> 0 <= readerIndex && readerIndex + n <= Capacity()
      ensures InBounds() ==> (r.None? <==> ReadableBytes() >= n)
      ensures writerIndex - readerIndex > Int32Max ==> r == Some(NotEnoughReadableBytes)
    {
      if ReadableBytes() < n then Some(NotEnoughReadableBytes)
      else if readerIndex < 0 || readerIndex + n > memory.Length then Some(ArgumentOutOfRange)
      else None
    }

    // Unchecked cursor setters.

    method SetReaderIndex(value: int32)
      modifies this`readerIndex
      ensures readerIndex == value
    {
      readerIndex := value;
    }

    method SetWriterIndex(value: int32)
      modifies this`writerIndex
      ensures writerIndex == value
    {
      writerIndex := value;
    }

    /** `src.CopyTo(_memory.Span.Slice(at))`. */
    method CopyIn(at: nat, src: seq<byte>)
      requires at + |src| <= memory.Length
      modifies memory
      ensures memory[..] == Overwrite(old(memory[..]), at, src)
    {
      forall i | at <= i < at + |src| {
        memory[i] := src[i - at];
      }
      assert memory[..] == Overwrite(old(memory[..]), at, src);
    }

    // ---------------- writes ----------------

    /** Writes n bytes given as `bytes` at the writer cursor, or throws WriteError(n). */
    method WriteBytes(src: seq<byte>) returns (err: Option<BufferError>)
      requires CapacityFits()
      modifies this`writerIndex, memory
      ensures err == old(WriteError(|src|))
      ensures err.None? ==> writerIndex == old(writerIndex) + |src|
                            && memory[..] == Overwrite(old(memory[..]), old(writerIndex), src)
      ensures err.Some? ==> writerIndex == old(writerIndex) && memory[..] == old(memory[..])
      ensures old(InBounds()) ==> InBounds()
    {
      err := WriteError(|src|);
      if err.None? {
        CopyIn(writerIndex, src);
        writerIndex := writerIndex + |src|;
      }
    }

    /**
     * `_memory.Span[_writerIndex++] = value`: the cursor moves before the
     * index is checked, so an out-of-range cursor still advances.
     */
    method WriteByte(value: byte) returns (err: Option<BufferError>)
      requires CapacityFits()
      modifies this`writerIndex, memory
      ensures old(WritableBytes()) < 1 ==>
                err == Some(NotEnoughWritableBytes) && writerIndex == old(writerIndex) && memory[..] == old(memory[..])
      ensures old(Capacity() - writerIndex) > Int32Max ==> err == Some(NotEnoughWritableBytes)
      ensures old(WritableBytes()) >= 1 && old(writerIndex) < 0 ==>
                err == Some(IndexOutOfRange) && writerIndex == old(writerIndex) + 1 && memory[..] == old(memory[..])
      ensures old(WritableBytes()) >= 1 && old(writerIndex) >= 0 ==>
                err == None && writerIndex == old(writerIndex) + 1
                && memory[..] == Overwrite(old(memory[..]), old(writerIndex), [value])
      ensures old(InBounds()) ==> InBounds()
    {
      if WritableBytes() < 1 {
        return Some(NotEnoughWritableBytes);
      }
      var at := writerIndex;
      writerIndex := writerIndex + 1;
      if at < 0 {
        return Some(IndexOutOfRange);
      }
      CopyIn(at, [value]);
      err := None;
    }

    method WriteShort(value: int16) returns (err: Option<BufferError>)
      requires CapacityFits()
      modifies this`writerIndex, memory
      ensures err == old(WriteError(2))
      ensures err.None? ==> writerIndex == old(writerIndex) + 2
                            && memory[..] == Overwrite(old(memory[..]), old(writerIndex), EncodeShort(value))
      ensures err.Some? ==> writerIndex == old(writerIndex) && memory[..] == old(memory[..])
      ensures old(InBounds()) ==> InBounds()
    {
      err := WriteBytes(EncodeShort(value));
    }

    method WriteInt(value: int32) returns (err: Option<BufferError>)
      requires CapacityFits()
      modifies this`writerIndex, memory
      ensures err == old(WriteError(4))
      ensures err.None? ==> writerIndex == old(writerIndex) + 4
                            && memory[..] == Overwrite(old(memory[..]), old(writerIndex), EncodeInt(value))
      ensures err.Some? ==> writerIndex == old(writerIndex) && memory[..] == old(memory[..])
      ensures old(InBounds()) ==> InBounds()
    {
      err := WriteBytes(EncodeInt(value));
    }

    method WriteLong(value: int64) returns (err: Option<BufferError>)
      requires CapacityFits()
      modifies this`writerIndex, memory
      ensures err == old(WriteError(8))
      ensures err.None? ==> writerIndex == old(writerIndex) + 8
                            && memory[..] == Overwrite(old(memory[..]), old(writerIndex), EncodeLong(value))
      ensures err.Some? ==> writerIndex == old(writerIndex) && memory[..] == old(memory[..])
      ensures old(InBounds()) ==> InBounds()
    {
      err := WriteBytes(EncodeLong(value));
    }

    // ---------------- reads ----------------

    /** Copies dst.Length bytes from the reader cursor into dst, or throws ReadError. */
    method ReadBytes(dst: array<byte>) returns (err: Option<BufferError>)
      requires CapacityFits()
      modifies this`readerIndex, dst
      ensures err == old(ReadError(dst.Length))
      ensures err.None? ==> readerIndex == old(readerIndex) + dst.Length
                            && dst[..] == old(memory[readerIndex..readerIndex + dst.Length])
      ensures err.Some? ==> readerIndex == old(readerIndex) && dst[..] == old(dst[..])
      ensures old(InBounds()) ==> InBounds()
    {
      err := ReadError(dst.Length);
      if err.None? {
        ghost var src := memory[readerIndex..readerIndex + dst.Length];
        forall i | 0 <= i < dst.Length {
          dst[i] := memory[readerIndex + i];
        }
        assert dst[..] == src;
        readerIndex := readerIndex + dst.Length;
      }
    }

    /**
     * `_memory.Span[_readerIndex++]`: the cursor moves before the index is
     * checked, wrapping from `int.MaxValue` to `int.MinValue`.
     */
    method ReadByte() returns (r: Result<byte, BufferError>)
      requires CapacityFits()
      modifies this`readerIndex
      ensures old(ReadableBytes()) < 1 ==> r == Err(NotEnoughReadableBytes) && readerIndex == old(readerIndex)
      ensures old(writerIndex - readerIndex) > Int32Max ==> r == Err(NotEnoughReadableBytes)
      ensures old(ReadableBytes()) >= 1 && !(0 <= old(readerIndex) < Capacity()) ==>
                r == Err(IndexOutOfRange) && readerIndex == Wrap32(old(readerIndex) + 1)
      ensures old(ReadableBytes()) >= 1 && 0 <= old(readerIndex) < Capacity() ==>
                r == Ok(memory[old(readerIndex)]) && readerIndex == old(readerIndex) + 1
      ensures old(InBounds()) ==> InBounds()
    {
      if ReadableBytes() < 1 {
        return Err(NotEnoughReadableBytes);
      }
      var at := readerIndex;
      readerIndex := Wrap32(readerIndex + 1);
      if !(0 <= at < memory.Length) {
        return Err(IndexOutOfRange);
      }
      r := Ok(memory[at]);
    }

    method ReadShort() returns (r: Result<int16, BufferError>)
      requires CapacityFits()
      modifies this`readerIndex
      ensures r.Err? <==> old(ReadError(2)).Some?
      ensures r.Err? ==> r.error == old(ReadError(2)).value && readerIndex == old(readerIndex)
      ensures r.Ok? ==> readerIndex == old(readerIndex) + 2
                        && r.value == DecodeShort(memory[old(readerIndex)..old(readerIndex) + 2])
      ensures old(InBounds()) ==> InBounds()
    {
      var e := ReadError(2);
      if e.Some? {
        return Err(e.value);
      }
      r := Ok(DecodeShort(memory[readerIndex..readerIndex + 2]));
      readerIndex := readerIndex + 2;
    }

    method ReadInt() returns (r: Result<int32, BufferError>)
      requires CapacityFits()
      modifies this`readerIndex
      ensures r.Err? <==> old(ReadError(4)).Some?
      ensures r.Err? ==> r.error == old(ReadError(4)).value && readerIndex == old(readerIndex)
      ensures r.Ok? ==> readerIndex == old(readerIndex) + 4
                        && r.value == DecodeInt(memory[old(readerIndex)..old(readerIndex) + 4])
      ensures old(InBounds()) ==> InBounds()
    {
      var e := ReadError(4);
      if e.Some? {
        return Err(e.value);
      }
      r := Ok(DecodeInt(memory[readerIndex..readerIndex + 4]));
      readerIndex := readerIndex + 4;
    }

    method ReadLong() returns (r: Result<int64, BufferError>)
      requires CapacityFits()
      modifies this`readerIndex
      ensures r.Err? <==> old(ReadError(8)).Some?
      ensures r.Err? ==> r.error == old(ReadError(8)).value && readerIndex == old(readerIndex)
      ensures r.Ok? ==> readerIndex == old(readerIndex) + 8
                        && r.value == DecodeLong(memory[old(readerIndex)..old(readerIndex) + 8])
      ensures old(InBounds()) ==> InBounds()
    {
      var e := ReadError(8);
      if e.Some? {
        return Err(e.value);
      }
      r := Ok(DecodeLong(memory[readerIndex..readerIndex + 8]));
      readerIndex := readerIndex + 8;
    }

    // ---------------- marks ----------------

    method MarkReaderIndex()
      modifies this`markedReaderIndex
      ensures markedReaderIndex == readerIndex
    {
      markedReaderIndex := readerIndex;
    }

    method ResetReaderIndex()
      modifies this`readerIndex
      ensures readerIndex == markedReaderIndex
      ensures old(InBounds()) && 0 <= markedReaderIndex <= writerIndex ==> InBounds()
    {
      readerIndex := markedReaderIndex;
    }

    method MarkWriterIndex()
      modifies this`markedWriterIndex
      ensures markedWriterIndex == writerIndex
    {
      markedWriterIndex := writerIndex;
    }

    method ResetWriterIndex()
      modifies this`writerIndex
      ensures writerIndex == markedWriterIndex
      ensures old(InBounds()) && readerIndex <= markedWriterIndex <= Capacity() ==> InBounds()
    {
      writerIndex := markedWriterIndex;
    }

    // ---------------- reference count ----------------

    method Retain()
      modifies this`refCount
      ensures Life() == Retained(old(Life()))
    {
      refCount := refCount + 1;
    }

    method Release()
      modifies this`refCount, this`disposed, this`memoryReturns
      ensures Life() == Released(old(Life()))
    {
      refCount := refCount - 1;
      if refCount == 0 {
        Dispose();
      }
    }

    method Dispose()
      modifies this`disposed, this`memoryReturns
      ensures Life() == Disposed(old(Life()))
    {
      if !disposed {
        memoryReturns := memoryReturns + 1;
        disposed := true;
      }
    }

    // ---------------- copies ----------------

    /**
     * Slice(index, length): a new buffer holding a copy of [index, index+length).
     * `rented` is the memory the pool hands to the new buffer.
     */
    method Slice(index: int32, length: int32, rented: Memory) returns (r: Result<ByteBuffer, BufferError>)
      requires CapacityFits()
      requires length <= |rented|
      ensures r.Err? <==> !(0 <= index && 0 < length && index + length <= writerIndex && index + length <= Capacity())
      ensures r.Err? ==> r.error == ArgumentOutOfRange
      ensures r.Ok? ==> var s := r.value;
                fresh(s) && fresh(s.memory) && s.CapacityFits() && s.Capacity() >= length
                && s.readerIndex == 0 && s.writerIndex == length
                && s.memory[..length] == memory[index..index + length]
                && s.markedReaderIndex == 0 && s.markedWriterIndex == 0
                && s.Life() == FreshLifetime() && s.InBounds()
    {
      // `index + length` wraps in C#; a sum past int.MaxValue then slips past
      // this check and is caught by the span slice below
      if index < 0 || length <= 0 || Wrap32(index + length) > writerIndex {
        return Err(ArgumentOutOfRange);
      }
      var slice := new ByteBuffer(length, rented);
      if index + length > memory.Length {
        return Err(ArgumentOutOfRange);
      }
      slice.CopyIn(0, memory[index..index + length]);
      slice.SetWriterIndex(length);
      r := Ok(slice);
    }

    /** Duplicate: a new buffer with a copy of [0, writer) and the same cursors. */
    method Duplicate(rented: Memory) returns (r: Result<ByteBuffer, BufferError>)
      requires Capacity() <= |rented|
      ensures r.Err? <==> !(0 <= writerIndex <= Capacity())
      ensures r.Err? ==> r.error == ArgumentOutOfRange
      ensures r.Ok? ==> var d := r.value;
                fresh(d) && fresh(d.memory) && d.CapacityFits() && d.Capacity() >= Capacity()
                && d.readerIndex == readerIndex && d.writerIndex == writerIndex
                && d.memory[..writerIndex] == memory[..writerIndex]
                && d.markedReaderIndex == 0 && d.markedWriterIndex == 0
                && d.Life() == FreshLifetime()
                && (InBounds() ==> d.InBounds() && d.Readable() == Readable())
    {
      var duplicate := new ByteBuffer(memory.Length, rented);
      if writerIndex < 0 || writerIndex > memory.Length {
        return Err(ArgumentOutOfRange);
      }
      duplicate.CopyIn(0, memory[..writerIndex]);
      duplicate.SetWriterIndex(writerIndex);
      duplicate.SetReaderIndex(readerIndex);
      r := Ok(duplicate);
    }

    /** Clear: both cursors to 0; the bytes and the marks stay. */
    method Clear()
      modifies this`readerIndex, this`writerIndex
      ensures readerIndex == 0 && writerIndex == 0 && InBounds()
    {
      readerIndex := 0;
      writerIndex := 0;
    }

    /** GetArray: a copy of the whole memory, unwritten bytes included. */
    method GetArray() returns (a: seq<byte>)
      ensures a == memory[..]
      ensures |a| == Capacity()
    {
      a := memory[..];
    }

    /**
     * WrappedBuffer(array): a new buffer of the array's length holding the
     * array, written directly into its memory (this buffer is not used).
     */
    method WrappedBuffer(source: seq<byte>, rented: Memory) returns (buffer: ByteBuffer)
      requires |source| <= |rented|
      ensures fresh(buffer) && fresh(buffer.memory) && buffer.CapacityFits()
      ensures buffer.InBounds() && buffer.readerIndex == 0 && buffer.writerIndex == |source|
      ensures buffer.Readable() == source
      ensures buffer.Life() == FreshLifetime()
    {
      buffer := new ByteBuffer(|source|, rented);
      buffer.CopyIn(0, source);
      buffer.SetWriterIndex(|source|);
    }
  }
}
