# Burst core, modelled in Dafny

Burst is a small TCP server framework for .NET. Each accepted connection is a
`Channel`, and a fixed group of event loops serves the channels. A channel
reads from its socket into pooled memory, wraps each receive in a
`ByteBuffer` and hands it to the connection's `Pipeline` of protocol
handlers. Sending copies a buffer's unread bytes into scratch memory and
writes it to the socket in a partial-write loop.

This project models five parts of that core. Each part gets its own module.

| file | module | what it models |
|---|---|---|
| `common.dfy` | `Common` | `Option` (null / "no error") and `Result` (a value or an exception) |
| `encoding.dfy` | `Encoding` | C#'s `byte`, `short`, `int` and `long`, and the byte form of the multi-byte ones: two's complement, least significant byte first |
| `byte_buffer.dfy` | `Buffers` | `ByteBuffer` as a class over an `array<byte>` with reader and writer cursors, marks, a reference count and a count of memory returns; the reference count as a state machine on values |
| `unpooled.dfy` | `Unpooled` | the `Unpooled` factories, one method each |
| `pipeline.dfy` | `Pipelines` | `Pipeline` as a class holding a handler list and a ghost trace of every hook call it makes |
| `event_loop_group.dfy` | `EventLoops` | `EventLoopGroup` over an array of opaque loops that count their `Start` and `Shutdown` calls; round-robin selection and its fairness |
| `channel.dfy` | `Channels` | the adaptive receive size, `Disconnect`, the receive loop and the send loop of `Channel` |

The model replaces everything outside the process with inputs:

- **The memory pool.** A method that rents memory takes a `rented: Memory` parameter, a byte sequence at most `int.MaxValue` long. It is the memory the pool hands out: at least as long as requested, still holding whatever its previous user left there. A buffer's capacity is the length of that memory.
- **The socket.** `ReceiveLoop` is given the sequence of rounds it meets, as `RecvStep` values. A step records:
  - how much memory `Rent` hands out;
  - what `ReceiveAsync` returns (bytes, or a `SocketException` and whether the socket is still `Connected` after it);
  - the memory the new `ByteBuffer` rents;
  - which handler, if any, throws during the read pass;
  - whether a handler calls `Disconnect` during that pass.

  `SendWith` is given the sequence of `SendAsync` results, each a byte count or a `SocketException` with whether the socket is still `Connected` after it. The socket's state (connected, and how often it was shut down, closed and disposed) is a value. A socket call that throws can clear `Connected`, so a later `Disconnect` skips the shutdown and a later `SendAsync` returns at once.
- **Handlers.** A handler is an opaque object. A pass records each hook call in the pipeline's trace; an oracle says where the pass throws.
- **The atomic counter.** `Interlocked.Increment` is a plain sequential increment.
- **Awaits.** Every `await` is a sequential call.

The multi-byte writes and reads use the host's byte order in the source. The model fixes little-endian with two's complement for every platform.

A receive round runs in this order, as in the source: rent memory, receive, stop on a socket error or a 0-byte receive, apply the size rule, copy the bytes into a new buffer, run the read pass. `ReceiveLoop` is proved against `RunView`, a function of the rounds it takes, which gives the connection, the receive size, the rental count and the rental held. Two logs record its output:

- `deliveries` holds each buffer as it was handed to the pipeline: unread, holding exactly its round's bytes.
- The pipeline's trace holds the read passes, in delivery order.

The lemmas about `RunView` state what the loop promises:

- `RunViewCounts`: the size is the size rule applied to the delivered counts.
- `RoundsStayAdaptive`: the size stays within [128, 8192].
- `LoopConnection`: the connection changes at most once, on the last round.

In these places the code does something other than what the framework's design suggests. The model follows the code:

- The `ReaderIndex` and `WriterIndex` setters do not check anything. So `0 <= reader <= writer <= capacity` is not an invariant of the class. It is the predicate `InBounds`, which every read, write, `Clear`, `Slice` and `Duplicate` preserves. The setters and the two Reset methods do not: a mark stays where it was when its cursor moves, so resetting to it after a `Clear` can leave the reader past the writer. `ResetReaderIndex` keeps `InBounds` when the reader mark lies in [0, writer]. `ResetWriterIndex` keeps it when the writer mark lies in [reader, capacity]. Outside it, the model gives the .NET exception the code would hit: `ArgumentOutOfRange` for a span slice, `IndexOutOfRange` for a single-byte index.
- The cursors are C# `int`s, and `ReadableBytes`, `WritableBytes`, the `++` of the single-byte accessors and the `index + length` of `Slice` use unchecked 32-bit arithmetic. The model writes that wrap-around out (`Wrap32`): cursors far enough apart give a count of the opposite sign. A negative count fails the `Ensure*` check; a positive one passes it.
- `SendAsync` on a buffer whose readable count is -1 still rents: `Rent(-1)` asks for the pool's default size. The slice of that memory then throws, and the `finally` returns it. A count below -1 makes `Rent` throw before anything is rented.
- Reads and writes on a disposed buffer are not refused; the code never looks at `_disposed` there.
- A `Release` below zero only moves the count.
- `Duplicate` gives a capacity of at least, not exactly, the source's. It copies the cursors but not the marks.
- `Clear` leaves the marks where they were.
- The receive loop keeps only the last rental. Each round overwrites `_readMemoryOwner`, and the `finally` disposes only the one held last. In `ReceiveLoop`, `rentals` grows by one per round while `disposals` gains a single entry.
- `OnConnect` is raised in the constructor, before any subscriber can exist. So it never reaches anyone.
- `SendAsync` stops once half of the bytes have gone, not once all have. See "## Findings".
- `GetNextEventLoop` on a group without loops ends in a division by zero. The model returns `Err(DivideByZero)` instead of requiring a non-empty group.

## Model

| member | source | states |
|---|---|---|
| `Encoding.EncodeLE` | Burst/Buffers/ByteBuffer.cs:65-84 | an n-byte store writes exactly n bytes |
| `Encoding.DecodeLE` | Burst/Buffers/ByteBuffer.cs:92-114 | the value read from n bytes is below 256^n |
| `Encoding.DecodeEncodeLE` | Burst/Buffers/ByteBuffer.cs:65-114 | decoding the n bytes stored for any value below 256^n gives that value |
| `Encoding.EncodeDecodeLE` | Burst/Buffers/ByteBuffer.cs:92-114 | every byte sequence is the stored form of the value it decodes to |
| `Encoding.ToUnsigned` | Burst/Buffers/ByteBuffer.cs:65-84 | the two's complement pattern of a signed n-byte value is below 256^n, and a non-negative value is its own pattern |
| `Encoding.Wrap32` | Burst/Buffers/ByteBuffer.cs:20-21 | C#'s unchecked `int` arithmetic: the one int32 congruent to x modulo 2^32, x itself when x fits |
| `Encoding.FromUnsigned` | Burst/Buffers/ByteBuffer.cs:92-114 | the signed reading of an n-byte pattern is representable in n signed bytes |
| `Encoding.EncodeSigned` | Burst/Buffers/ByteBuffer.cs:65-84 | a signed n-byte value is stored in n bytes |
| `Encoding.DecodeSigned` | Burst/Buffers/ByteBuffer.cs:92-114 | the value read from n bytes fits the signed n-byte range |
| `Encoding.SignedRoundTrip` | Burst/Buffers/ByteBuffer.cs:65-114 | every signed value, negatives included, reads back as itself |
| `Encoding.SignedDecodeRoundTrip` | Burst/Buffers/ByteBuffer.cs:92-114 | every byte sequence is the stored form of the signed value it reads as |
| `Encoding.EncodeShort` | Burst/Buffers/ByteBuffer.cs:72-77 | a `short` is stored in 2 bytes |
| `Encoding.EncodeInt` | Burst/Buffers/ByteBuffer.cs:65-70 | an `int` is stored in 4 bytes |
| `Encoding.EncodeLong` | Burst/Buffers/ByteBuffer.cs:79-84 | a `long` is stored in 8 bytes |
| `Encoding.ShortRoundTrip` | Burst/Buffers/ByteBuffer.cs:72-98 | every `short` reads back as itself |
| `Encoding.IntRoundTrip` | Burst/Buffers/ByteBuffer.cs:65-106 | every `int` reads back as itself |
| `Encoding.LongRoundTrip` | Burst/Buffers/ByteBuffer.cs:79-114 | every `long` reads back as itself |
| `Encoding.DecodeShort` | Burst/Buffers/ByteBuffer.cs:95 | the `short` read from 2 bytes is the one whose stored form those bytes are |
| `Encoding.DecodeInt` | Burst/Buffers/ByteBuffer.cs:103 | the `int` read from 4 bytes is the one whose stored form those bytes are |
| `Encoding.DecodeLong` | Burst/Buffers/ByteBuffer.cs:111 | the `long` read from 8 bytes is the one whose stored form those bytes are |
| `Encoding.LongLowByteFirst` | Burst/Buffers/ByteBuffer.cs:79-84 | the first byte stored for a `long` is its least significant byte |
| `Buffers.Overwrite` | Burst/Buffers/ByteBuffer.cs:55 | copying bytes in at a position puts them exactly there, keeps the length, and leaves every other byte alone |
| `Buffers.Retained` | Burst/Buffers/ByteBuffer.cs:141-144 | Retain: the count goes up by one, the disposed flag and the memory returns stay |
| `Buffers.Released` | Burst/Buffers/ByteBuffer.cs:147-153 | Release: the count goes down by one, the buffer is disposed afterwards exactly when it was already or the count was 1, and the memory goes back exactly when a live count went from 1 to 0 |
| `Buffers.Disposed` | Burst/Buffers/ByteBuffer.cs:211-218 | Dispose: the buffer is disposed, the count stays, and the memory goes back unless it was already disposed |
| `Buffers.DisposeIdempotent` | Burst/Buffers/ByteBuffer.cs:211-218 | a second Dispose changes nothing; the first returns the memory unless it was already disposed |
| `Buffers.ReleaseReturnsMemory` | Burst/Buffers/ByteBuffer.cs:147-153 | Release lowers the count by one and returns the memory exactly when a live count goes from 1 to 0 |
| `Buffers.Step` | Burst/Buffers/ByteBuffer.cs:141-218 | one Retain, Release or Dispose call: a disposed buffer stays disposed, and the memory goes back exactly when this call disposes a buffer that was not yet disposed |
| `Buffers.Apply` | Burst/Buffers/ByteBuffer.cs:141-218 | any sequence of those calls: disposal is permanent and the memory returns never go down (stated weaker here; see Left out) |
| `Buffers.ReturnedAtMostOnce` | Burst/Buffers/ByteBuffer.cs:141-218 | after any sequence of Retain, Release and Dispose calls, the memory has gone back to the pool at most once, and once exactly when the buffer is disposed |
| `Buffers.RetainsAdd` | Burst/Buffers/ByteBuffer.cs:141-144 | k retains raise the count by k and change nothing else |
| `Buffers.ReleasesWhileLive` | Burst/Buffers/ByteBuffer.cs:147-153 | releases that keep the count positive only lower it, and never return the memory |
| `Buffers.ReleasesAfterDispose` | Burst/Buffers/ByteBuffer.cs:147-153 | on a disposed buffer, releases only lower the count, below zero too |
| `Buffers.BalancedRelease` | Burst/Buffers/ByteBuffer.cs:141-153 | on a new buffer, k retains then j releases leave the count k+1-j and return the memory once if j >= k+1, never otherwise |
| `Buffers.ShortReadsBack` | Burst/Buffers/ByteBuffer.cs:72-98 | a `short` written at a position reads back as itself from that position, whatever the rest of the memory holds |
| `Buffers.IntReadsBack` | Burst/Buffers/ByteBuffer.cs:65-106 | an `int` written at a position reads back as itself from that position |
| `Buffers.LongReadsBack` | Burst/Buffers/ByteBuffer.cs:79-114 | a `long` written at a position reads back as itself from that position |
| `Buffers.ByteBuffer.constructor` | Burst/Buffers/ByteBuffer.cs:26-33 | a new buffer holds the rented memory, has capacity at least the request, both cursors and marks at 0, count 1, not disposed |
| `Buffers.ByteBuffer.Capacity` | Burst/Buffers/ByteBuffer.cs:17 | the capacity is the length of the rented memory, a C# int |
| `Buffers.ByteBuffer.ReadableBytes` | Burst/Buffers/ByteBuffer.cs:20 | writer - reader in 32-bit arithmetic: the difference when it fits, a value of the opposite sign when it wraps; in bounds it lies in [0, capacity], and a buffer is in bounds exactly when [reader, reader + readable) lies in the memory |
| `Buffers.ByteBuffer.WritableBytes` | Burst/Buffers/ByteBuffer.cs:21 | capacity - writer in 32-bit arithmetic: the difference when it fits, negative when a very negative writer makes it wrap; in bounds reader + readable + writable == capacity |
| `Buffers.ByteBuffer.IsReadable` | Burst/Buffers/ByteBuffer.cs:22 | in bounds, readable exactly when a one-byte read would succeed |
| `Buffers.ByteBuffer.IsWritable` | Burst/Buffers/ByteBuffer.cs:23 | in bounds, writable exactly when a one-byte write would succeed |
| `Buffers.ByteBuffer.WriteError` | Burst/Buffers/ByteBuffer.cs:193-199 | in bounds, a write of n bytes fails exactly when fewer than n bytes are writable; a writer so negative that the count wraps fails the check; when it does not fail, the bytes fit in the memory |
| `Buffers.ByteBuffer.ReadError` | Burst/Buffers/ByteBuffer.cs:202-208 | in bounds, a read of n bytes fails exactly when fewer than n bytes are readable; cursors so far apart that the count wraps negative fail the check; when it does not fail, the bytes lie in the memory |
| `Buffers.ByteBuffer.SetReaderIndex` | Burst/Buffers/ByteBuffer.cs:18 | the reader cursor takes any value, unchecked, and nothing else changes |
| `Buffers.ByteBuffer.SetWriterIndex` | Burst/Buffers/ByteBuffer.cs:19 | the writer cursor takes any value, unchecked, and nothing else changes |
| `Buffers.ByteBuffer.CopyIn` | Burst/Buffers/ByteBuffer.cs:55 | a span copy into the memory at a position changes exactly those bytes |
| `Buffers.ByteBuffer.WriteBytes` | Burst/Buffers/ByteBuffer.cs:52-57 | either throws WriteError with cursor and memory unchanged, or stores the bytes at the old writer and advances it by their length; the reader never moves |
| `Buffers.ByteBuffer.WriteByte` | Burst/Buffers/ByteBuffer.cs:59-63 | not enough room (a wrapped count included): throws, nothing changes; a negative cursor: the cursor still advances and IndexOutOfRange is thrown; otherwise the byte is stored at the old writer, which advances by 1 |
| `Buffers.ByteBuffer.WriteShort` | Burst/Buffers/ByteBuffer.cs:72-77 | throws with nothing changed, or stores the value's 2 bytes at the old writer and advances it by 2 |
| `Buffers.ByteBuffer.WriteInt` | Burst/Buffers/ByteBuffer.cs:65-70 | throws with nothing changed, or stores the value's 4 bytes at the old writer and advances it by 4 |
| `Buffers.ByteBuffer.WriteLong` | Burst/Buffers/ByteBuffer.cs:79-84 | throws with nothing changed, or stores the value's 8 bytes at the old writer and advances it by 8 |
| `Buffers.ByteBuffer.ReadBytes` | Burst/Buffers/ByteBuffer.cs:44-49 | either throws ReadError with cursor and destination unchanged, or copies the bytes at the old reader into the destination and advances the reader by its length |
| `Buffers.ByteBuffer.ReadByte` | Burst/Buffers/ByteBuffer.cs:86-90 | nothing readable (a wrapped count included): throws, cursor unchanged; otherwise it returns the byte at the old reader (or throws IndexOutOfRange outside the memory), and the reader advances by 1 either way, wrapping at int.MaxValue |
| `Buffers.ByteBuffer.ReadShort` | Burst/Buffers/ByteBuffer.cs:92-98 | throws ReadError with the cursor unchanged, or returns the value of the 2 bytes at the old reader and advances it by 2 |
| `Buffers.ByteBuffer.ReadInt` | Burst/Buffers/ByteBuffer.cs:100-106 | throws ReadError with the cursor unchanged, or returns the value of the 4 bytes at the old reader and advances it by 4 |
| `Buffers.ByteBuffer.ReadLong` | Burst/Buffers/ByteBuffer.cs:108-114 | throws ReadError with the cursor unchanged, or returns the value of the 8 bytes at the old reader and advances it by 8 |
| `Buffers.ByteBuffer.MarkReaderIndex` | Burst/Buffers/ByteBuffer.cs:117-120 | the reader mark becomes the reader cursor; the writer mark is untouched |
| `Buffers.ByteBuffer.ResetReaderIndex` | Burst/Buffers/ByteBuffer.cs:123-126 | the reader cursor goes back to the reader mark (0 if never marked), unchecked; it stays in bounds when the mark lies in [0, writer]; the writer side is untouched |
| `Buffers.ByteBuffer.MarkWriterIndex` | Burst/Buffers/ByteBuffer.cs:129-132 | the writer mark becomes the writer cursor; the reader mark is untouched |
| `Buffers.ByteBuffer.ResetWriterIndex` | Burst/Buffers/ByteBuffer.cs:135-138 | the writer cursor goes back to the writer mark (0 if never marked), unchecked; it stays in bounds when the mark lies in [reader, capacity]; the reader side is untouched |
| `Buffers.ByteBuffer.Retain` | Burst/Buffers/ByteBuffer.cs:141-144 | the lifetime takes one Retain step: count + 1 |
| `Buffers.ByteBuffer.Release` | Burst/Buffers/ByteBuffer.cs:147-153 | the lifetime takes one Release step: count - 1, and Dispose when that makes it 0 |
| `Buffers.ByteBuffer.Dispose` | Burst/Buffers/ByteBuffer.cs:211-218 | the lifetime takes one Dispose step: the memory goes back only if not yet disposed |
| `Buffers.ByteBuffer.Slice` | Burst/Buffers/ByteBuffer.cs:156-166 | fails exactly when index < 0, length <= 0 or index + length > writer (or past the memory; a sum that wraps past the first check is caught by the span slice); otherwise a new buffer, reader 0, writer length, holding a copy of [index, index+length); the source is unchanged |
| `Buffers.ByteBuffer.Duplicate` | Burst/Buffers/ByteBuffer.cs:169-177 | a new buffer with capacity at least the source's, a copy of [0, writer), the same cursors and so the same readable bytes; the source is unchanged |
| `Buffers.ByteBuffer.Clear` | Burst/Buffers/ByteBuffer.cs:180-184 | both cursors go to 0; bytes, marks and count are untouched |
| `Buffers.ByteBuffer.GetArray` | Burst/Buffers/ByteBuffer.cs:187-190 | a copy of the whole memory, capacity long, unwritten bytes included |
| `Buffers.ByteBuffer.WrappedBuffer` | Burst/Buffers/ByteBuffer.cs:36-42 | a new buffer whose readable bytes are the array, reader 0, writer its length, count 1 |
| `Unpooled.Concat` | Burst/Buffers/Unpooled.cs:20-35 | the arrays laid end to end in argument order, as long as the sum the first loop computes |
| `Unpooled.TotalLength` | Burst/Buffers/Unpooled.cs:22-26 | the sum the first loop accumulates is at least the length of every array |
| `Unpooled.ConcatPart` | Burst/Buffers/Unpooled.cs:29-32 | each array sits in the composite right after the arrays before it |
| `Unpooled.TotalLengthPrefix` | Burst/Buffers/Unpooled.cs:22-26 | the length of the first k arrays never exceeds the total |
| `Unpooled.Buffer` | Burst/Buffers/Unpooled.cs:6-9 | an empty buffer (reader = writer = 0) with capacity at least the request |
| `Unpooled.WrappedBuffer` | Burst/Buffers/Unpooled.cs:12-17 | reader 0, writer the array's length, readable bytes equal to the array |
| `Unpooled.CompositeBuffer` | Burst/Buffers/Unpooled.cs:20-35 | capacity at least the total length, writer the total length, and readable bytes the arrays concatenated in argument order; no write fails |
| `Unpooled.WriteParts` | Burst/Buffers/Unpooled.cs:28-31 | writing each array at the writer cursor of an empty buffer large enough for all of them never fails, leaves the writer at the total length and the readable bytes the arrays concatenated in order |
| `Unpooled.EmptyBuffer` | Burst/Buffers/Unpooled.cs:38-41 | 0 readable bytes |
| `Unpooled.CopiedBuffer` | Burst/Buffers/Unpooled.cs:44-49 | exactly one readable byte, the given one |
| `Unpooled.CopiedBufferSpan` | Burst/Buffers/Unpooled.cs:61-66 | readable bytes equal to the span |
| `Pipelines.Reached` | Burst/Pipelines/Pipeline.cs:18-21 | a pass calls at most one hook per handler |
| `Pipelines.Pass` | Burst/Pipelines/Pipeline.cs:18-21 | a pass makes one call per handler reached: all of them, or up to and including the one that throws |
| `Pipelines.PassOrder` | Burst/Pipelines/Pipeline.cs:16-31 | call k goes to handler k, with the pass's hook, buffer and channel; a pass that does not throw calls every handler, one that throws at i calls exactly i+1, and only the last of those threw |
| `Pipelines.FaultingPassIsPrefix` | Burst/Pipelines/Pipeline.cs:18-21 | a pass that throws at handler i makes the same calls as a full pass up to i, and none after |
| `Pipelines.PassUsesOneHook` | Burst/Pipelines/Pipeline.cs:16-31 | the read pass calls only read hooks, the write pass only write hooks |
| `Pipelines.EmptyPass` | Burst/Pipelines/Pipeline.cs:16-31 | with no handlers, neither pass calls anything |
| `Pipelines.Pipeline.constructor` | Burst/Pipelines/Pipeline.cs:7 | a new pipeline has no handlers and has made no calls |
| `Pipelines.Pipeline.AddHandler` | Burst/Pipelines/Pipeline.cs:10-13 | the handler is appended; earlier handlers keep their order |
| `Pipelines.Pipeline.ProcessPass` | Burst/Pipelines/Pipeline.cs:18-21 | the trace grows by exactly the pass's calls; the pass completes exactly when no handler throws |
| `Pipelines.Pipeline.ProcessRead` | Burst/Pipelines/Pipeline.cs:16-22 | the trace grows by the read pass over the handlers, in registration order, with the buffer and channel |
| `Pipelines.Pipeline.ProcessWrite` | Burst/Pipelines/Pipeline.cs:25-31 | the trace grows by the write pass over the handlers, in registration order, with the buffer and channel |
| `EventLoops.EventLoop.constructor` | Burst/Core/MultiThreadedEventLoopGroup.cs:13 | a new loop has been neither started nor shut down |
| `EventLoops.EventLoop.Start` | Burst/Core/MultiThreadedEventLoopGroup.cs:14 | the loop records one more Start call |
| `EventLoops.EventLoop.Shutdown` | Burst/Core/MultiThreadedEventLoopGroup.cs:28 | the loop records one more Shutdown call |
| `EventLoops.SelectIndex` | Burst/Core/MultiThreadedEventLoopGroup.cs:20 | the counter modulo N is a valid index into the N loops |
| `EventLoops.ConsecutiveSelectionsDiffer` | Burst/Core/MultiThreadedEventLoopGroup.cs:20 | with N > 1, the next selection is the one after the last (mod N), so it is never the same loop |
| `EventLoops.HitsClosedForm` | Burst/Core/MultiThreadedEventLoopGroup.cs:20 | how often k consecutive selections pick loop i, as a difference of two quotients |
| `EventLoops.RoundRobinFair` | Burst/Core/MultiThreadedEventLoopGroup.cs:18-22 | over any k consecutive calls, each loop is returned floor(k/N) or ceil(k/N) times |
| `EventLoops.FullRoundPicksEachOnce` | Burst/Core/MultiThreadedEventLoopGroup.cs:18-22 | any N consecutive calls return every loop exactly once |
| `EventLoops.EventLoopGroup.constructor` | Burst/Core/MultiThreadedEventLoopGroup.cs:8-16 | exactly numLoops new, distinct loops, each started once and not shut down, started in index order, counter 0 |
| `EventLoops.EventLoopGroup.GetNextEventLoop` | Burst/Core/MultiThreadedEventLoopGroup.cs:18-22 | the counter goes up by 1 and the loop at the new counter mod N is returned (so the first call returns loop 1 mod N); with no loops, a division-by-zero error |
| `EventLoops.EventLoopGroup.Shutdown` | Burst/Core/MultiThreadedEventLoopGroup.cs:24-30 | every loop receives exactly one Shutdown, in array order, and no Start |
| `Channels.NextBufferSize` | Burst/Core/Channel.cs:102-109 | the size grows only after a receive that filled it below the ceiling, shrinks only after one under half of it above the floor, and stays in [128, 8192] |
| `Channels.AdaptiveSizesListed` | Burst/Core/Channel.cs:10-11 | the sizes 128 * 2^k, 0 <= k <= 6, are exactly 128, 256, ..., 8192 |
| `Channels.SizeStaysAdaptive` | Burst/Core/Channel.cs:102-109 | from a size 128 * 2^k the rule only reaches another such size, within [128, 8192] |
| `Channels.GrowDoubles` | Burst/Core/Channel.cs:102-105 | a receive that fills an adaptive size below the ceiling doubles it exactly |
| `Channels.ShrinkHalves` | Burst/Core/Channel.cs:106-109 | a receive under half of an adaptive size above the floor halves it exactly |
| `Channels.SizeAlwaysAdaptive` | Burst/Core/Channel.cs:102-109 | from the start size 128, any sequence of receive counts keeps the size 128 * 2^k with 0 <= k <= 6, so within [128, 8192] |
| `Channels.AfterDisconnect` | Burst/Core/Channel.cs:168-182 | after Disconnect the channel is closed and (if it was open) the socket is no longer connected; on a closed channel nothing changes |
| `Channels.DisconnectIdempotent` | Burst/Core/Channel.cs:170 | a second Disconnect changes nothing |
| `Channels.RepeatedDisconnect` | Burst/Core/Channel.cs:168-182 | any k >= 1 Disconnect calls act as one: OnDisconnect fires once, the socket is shut down once only if it was connected, and is closed once, all only if the channel was open |
| `Channels.AfterSocketError` | Burst/Core/Channel.cs:88-94 | a socket call that throws clears Connected unless the error keeps the connection, and changes nothing else |
| `Channels.DisconnectAfterFailure` | Burst/Core/Channel.cs:168-182 | after a socket call that threw and dropped the connection, Disconnect fires OnDisconnect and closes the socket but skips the shutdown |
| `Channels.FirstEnd` | Burst/Core/Channel.cs:80-115 | the first round from k on that leaves the loop (0-byte receive, socket error, faulting pass or a close) |
| `Channels.BeforeFirstEnd` | Burst/Core/Channel.cs:80-115 | every round before that one continues the loop |
| `Channels.Taken` | Burst/Core/Channel.cs:80-115 | the loop takes between 1 and all of the given rounds, and the last one it takes ends it |
| `Channels.AfterRound` | Burst/Core/Channel.cs:96-109 | a round that delivers nothing keeps the receive size; from a size in [128, 8192] every round stays in [128, 8192] |
| `Channels.RoundView` | Burst/Core/Channel.cs:80-114 | one round makes one more rental and holds that one; the connection changes only on a socket error or a delivering round whose handler disconnects |
| `Channels.RunView` | Burst/Core/Channel.cs:80-115 | k rounds make k more rentals, and after at least one the last is held |
| `Channels.EndingRoundIsLast` | Burst/Core/Channel.cs:80-115 | a round the loop takes that ends it is the last round taken |
| `Channels.CompletedRound` | Burst/Core/Channel.cs:80-115 | after a round whose pass completes the channel is closed exactly when it is the last round taken |
| `Channels.LogsSnoc` | Burst/Core/Channel.cs:111-114 | one more delivered buffer appends its own hand-off and read pass to the logs |
| `Channels.RunViewCounts` | Burst/Core/Channel.cs:82-110 | after k rounds: k more rentals, only the k-th held, and the size is the rule applied to the counts of the delivering rounds in order |
| `Channels.RoundsStayAdaptive` | Burst/Core/Channel.cs:102-109 | from an adaptive size, the size after any rounds is adaptive and within [128, 8192] |
| `Channels.ContinuingRoundsKeepConnection` | Burst/Core/Channel.cs:80-115 | rounds that continue the loop leave the connection as it was; this holds only because a handler's own `SendAsync` is not modelled: in the source a send that throws inside a handler clears Connected on a round that continues |
| `Channels.LoopConnection` | Burst/Core/Channel.cs:80-115 | over the rounds the loop takes, the connection changes at most once, on the last round: a receive that throws may clear Connected, a delivering round whose handler disconnects closes the channel; as above, this holds only because a handler's own `SendAsync` is not modelled |
| `Channels.Handoffs` | Burst/Core/Channel.cs:111-114 | one hand-off per delivered buffer, each unread with exactly its round's bytes |
| `Channels.DeliveredSnoc` | Burst/Core/Channel.cs:111-114 | one more delivered buffer extends the hand-offs and the read passes by its own round's |
| `Channels.KeepsSending` | Burst/Core/Channel.cs:142 | the guard as written keeps sending only while twice the bytes sent is below the starting count; the corrected guard, while any byte is unsent |
| `Channels.RunSends` | Burst/Core/Channel.cs:141-158 | the loop stops having sent between 0 and all of the bytes; if no send threw, because the guard failed, with the socket still connected |
| `Channels.AsWrittenStopsAtHalf` | Burst/Core/Channel.cs:141-158 | as written, a loop no send interrupts stops once at least half of the bytes have gone |
| `Channels.AsWrittenLeavesBytesUnsent` | Burst/Core/Channel.cs:142-157 | 10 readable bytes and a first send of 5 make the as-written loop stop with 5 bytes unsent |
| `Channels.FlushingSendsAll` | Burst/Core/Channel.cs:141-158 | with the guard on the starting count, a loop no send interrupts sends every byte |
| `Channels.AsWrittenSendsPrefix` | Burst/Core/Channel.cs:141-158 | on the same send results the as-written loop never sends more than the flushing one |
| `Channels.NewReceiveBuffer` | Burst/Core/Channel.cs:111-112 | the received bytes in a fresh buffer, reader 0, writer their count |
| `Channels.Channel.constructor` | Burst/Core/Channel.cs:24-33 | a new channel is open, at receive size 128, with nothing rented, sent or delivered |
| `Channels.Channel.Disconnect` | Burst/Core/Channel.cs:168-182 | the connection takes one Disconnect step |
| `Channels.Channel.ReceiveRound` | Burst/Core/Channel.cs:82-114 | one round: a new rental replaces the held one; on a socket error Connected takes the value the error leaves and nothing is delivered; on 0 bytes nothing is delivered; otherwise the size rule runs, a fresh buffer with exactly the received bytes is handed to the read pass, and the round completes exactly when no handler throws |
| `Channels.Channel.RecordedRound` | Burst/Core/Channel.cs:82-114 | one round, with its hand-off and read pass appended to the logs of the earlier rounds and the new buffer, if any, appended to the delivered ones |
| `Channels.Channel.LoopStep` | Burst/Core/Channel.cs:80-115 | the loop body: one recorded round, then either the loop goes on (the channel open, fewer rounds than the loop takes) or it has taken its last round and ends for that round's reason |
| `Channels.Channel.ReceiveRounds` | Burst/Core/Channel.cs:80-115 | the while loop: on a closed channel, no round; otherwise the rounds up to the first that ends it, with the exit, the delivered buffers, the logs and the state `RunView` gives |
| `Channels.Channel.ReceiveLoop` | Burst/Core/Channel.cs:76-121 | on a closed channel, nothing; otherwise it takes rounds up to the first that ends it, ends for that round's reason, delivers one fresh buffer per positive receive (unread, exactly its bytes, read pass in order), leaves the state `RunView` gives (a failed receive's effect on Connected included), and disposes only the rental held last |
| `Channels.Channel.SendWith` | Burst/Core/Channel.cs:123-165 | when not connected, nothing; a readable count below -1: Rent throws, nothing rented; -1: one rental, returned after the slice throws; otherwise one scratch rental, returned on every exit path; the wire gets a prefix of the readable bytes, as long as the loop ran, the reader cursor moves by the same count, and a send that throws leaves Connected as the error does |
| `Channels.Channel.SendLoop` | Burst/Core/Channel.cs:141-158 | from a connected socket and the copied readable bytes: the loop stops where `RunSends` says; the wire gets exactly the bytes sent, the reader cursor moves by their count, and a send that throws ends the loop with Connected as the error leaves it |
| `Channels.Channel.SendAsync` | Burst/Core/Channel.cs:123-165 | SendWith's whole contract with the guard as written: when not connected, nothing; below -1 Rent throws with nothing rented; -1 rents once and the slice throws; otherwise one scratch rental, returned on every path, the exit `SendFailed` exactly when a send throws, the wire gets the first `RunSends` count of the readable bytes, the reader cursor moves by that count, and Connected is as the error leaves it; if no send throws, at least half of the readable bytes are sent |
| `Channels.Channel.SendAsyncFlushing` | Burst/Core/Channel.cs:141-158 | SendWith's whole contract with the guard on the starting count (every exit path, the rental, the wire, the reader cursor and Connected as for SendAsync); when no send throws, every readable byte is on the wire and the buffer is fully read |

## Left out

- Keep-alive configuration (Burst/Core/Channel.cs:35-69): OS-specific socket options, not logic.
- `OnConnect` (Burst/Core/Channel.cs:32): it fires in the constructor, before anyone could subscribe. `OnDisconnect` is a counter.
- `Channel.Start` (Burst/Core/Channel.cs:71-74): it only queues the receive loop on the event loop, and scheduling is not modelled.
- `Unpooled.CopiedBuffer(string, Encoding)` (Burst/Buffers/Unpooled.cs:52-58): its text encoding is a foreign call. Its bytes-in half is `CopiedBufferSpan`.
- `SingleThreadedEventLoop`, `SocketListener`, `ServerBootstrap` and the sample application: the thread, the task queue, socket accept and configuration are I/O and plumbing. A member loop is an opaque object with Start and Shutdown counters.
- Concurrency: every `await` is a sequential call, and `Interlocked.Increment` is a plain increment.
- The `Console.WriteLine` logging.
- Handler behaviour: what a hook does to a buffer or a channel, other than throwing or calling `Disconnect`, is not modelled.
- Host byte order: multi-byte values are always stored little-endian.
- `Buffers.ByteBuffer.Retain`: does not model the 32-bit wrap-around of `_refCount`; counts are unbounded integers.
- `EventLoops.EventLoopGroup.GetNextEventLoop`: does not model the 32-bit wrap-around of `_nextLoopIndex`. After 2^31 - 1 calls the source's counter turns negative and `%` gives a negative index. The model's counter never wraps.
- `Channels.Channel.ReceiveLoop`: does not model the connection between a round's rented length and the size it requested. `StepFits` only asks that the receive fits in the memory handed out. So the loop's promises hold whatever the pool hands out.
- `Channels.Channel.ReceiveLoop`: on an open channel it needs a run of rounds that ends. A receive loop the peer never ends is not covered.
- `Channels.Channel.ReceiveRounds` and `Channels.Channel.LoopStep` need the same.
- `Buffers.Apply`: its own contract says only that disposal is permanent and that the memory returns never go down; that the memory goes back at most once is stated by `Buffers.ReturnedAtMostOnce`.
- `Channels.Channel.SendWith`: needs each `SendAsync` result to hand over at least one and at most the remaining bytes (`SendsSuffice`). A socket that keeps returning 0 would make the source loop forever; that case is not covered.
- `Channels.Channel.SendAsync`, `Channels.Channel.SendAsyncFlushing` and `Channels.Channel.SendLoop` need the same of the send results.
- Default arguments: `new ByteBuffer()` (4096 bytes, Burst/Buffers/ByteBuffer.cs:26) and `Unpooled.Buffer()` (1024 bytes, Burst/Buffers/Unpooled.cs:6) are not modelled; the model always passes the size.
- `Buffers.ByteBuffer.constructor`: the requested capacity is a `nat`, so a negative request is not modelled. The source accepts -1: `MemoryPool.Rent(-1)` hands out memory of the pool's default size (4096 bytes). Only a request of -2 or less throws. Inside the core every request is at least 0.
- `Unpooled.Buffer`: the same, since it passes its request on to the constructor.
- `Unpooled.CompositeBuffer`: arrays whose lengths add up past `int.MaxValue` are not modelled. The C# sum wraps there, and the model asks the pool for memory of the true total.
- `MemoryPool` and socket memory are never longer than `int.MaxValue` bytes: the `Memory` type and `CapacityFits` say so, and the constructor and every factory ensure it of the buffer they return.
- `EventLoops.EventLoopGroup.constructor`: a negative `numLoops` is not modelled (the count is a `nat`); there `new EventLoop[numLoops]` throws `OverflowException` before any loop is created.
- Pool reuse: every rental is modelled as fresh memory. The pool can hand a returned array to the next `Rent`, and a disposed `ByteBuffer` keeps its `_memory`, so writes through a disposed buffer can land in a later renter (a `Slice` or `Duplicate` made after the `Dispose`, say). That aliasing is not captured: `fresh` in the factories' contracts holds only while no disposed buffer is still used.
- The exception a handler throws out of `ProcessReadAsync`: the model ends the loop with `HandlerFaulted` and runs the `finally`. It does not model where the exception goes after that.

## Findings

| source | as written | input that shows it | evidently intended | confidence | as-written member | corrected member |
|---|---|---|---|---|---|---|
| Burst/Core/Channel.cs:142-157 | the send loop runs while the bytes sent are fewer than `buffer.ReadableBytes`, but every send also advances `buffer.ReaderIndex`, so that bound shrinks by what was sent; the loop stops once half of the bytes have gone | a buffer with 10 readable bytes whose first send hands over 5: the guard compares 5 with the 5 still readable and the loop stops with 5 bytes never sent | keep sending until every readable byte of the buffer at the start has gone out, or a send throws | not executed | `Channels.AsWrittenLeavesBytesUnsent` | `Channels.FlushingSendsAll` |
