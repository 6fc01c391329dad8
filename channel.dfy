/**
 * The connection logic of Burst/Core/Channel.cs: the adaptive receive-size
 * rule, the receive loop, the partial-write send loop and Disconnect.
 *
 * The socket and the memory pool are not modelled; what they do is given as
 * input. A receive loop is handed the sequence of steps it meets (what each
 * ReceiveAsync returns, how much memory each Rent hands out, where each read
 * pass faults, whether a handler disconnects the channel during it); a send
 * is handed the sequence of SendAsync results. Socket state is a value.
 */
module Channels {
  import opened Common
  import opened Encoding
  import opened Buffers
  import opened Pipelines

  const MinBufferSize: nat := 128
  const MaxBufferSize: nat := 8192

  function Min(a: int, b: int): int { if a <= b then a else b }
  function Max(a: int, b: int): int { if a >= b then a else b }

  // ---------------------------------------------------------------------
  // The adaptive receive size.
  // ---------------------------------------------------------------------

  /**
   * The receive size after a receive of bytesRead bytes at size `size`: grow
   * after a receive that filled the buffer, shrink after one that used less
   * than half of it, within [MinBufferSize, MaxBufferSize].
   */
  function NextBufferSize(size: nat, bytesRead: nat): (next: nat)
    ensures next > size ==> bytesRead == size && size < MaxBufferSize
    ensures next < size ==> bytesRead < size / 2 && size > MinBufferSize
    ensures MinBufferSize <= size <= MaxBufferSize ==> MinBufferSize <= next <= MaxBufferSize
  {
    if bytesRead == size && size < MaxBufferSize then Min(size * 2, MaxBufferSize)
    else if bytesRead < size / 2 && size > MinBufferSize then Max(size / 2, MinBufferSize)
    else size
  }

  function Pow2(k: nat): (r: nat)
    ensures r >= 1
  {
    if k == 0 then 1 else 2 * Pow2(k - 1)
  }

  /** A size the rule can produce from the start size: 128 * 2^k with 0 <= k <= 6. */
  predicate IsAdaptiveSize(s: nat)
  {
    exists k :: 0 <= k <= 6 && s == MinBufferSize * Pow2(k)
  }

  const AdaptiveSizes: set<nat> := {128, 256, 512, 1024, 2048, 4096, 8192}

  lemma AdaptiveSizesListed(s: nat)
    ensures IsAdaptiveSize(s) <==> s in AdaptiveSizes
  {
    assert Pow2(0) == 1 && Pow2(1) == 2 && Pow2(2) == 4 && Pow2(3) == 8;
    assert Pow2(4) == 16 && Pow2(5) == 32 && Pow2(6) == 64;
    if s in AdaptiveSizes {
      var k := if s == 128 then 0 else if s == 256 then 1 else if s == 512 then 2
               else if s == 1024 then 3 else if s == 2048 then 4 else if s == 4096 then 5 else 6;
      assert s == MinBufferSize * Pow2(k);
    }
  }

  /**
   * From a size of the form 128 * 2^k the rule only ever reaches another
   * one, so it stays within [128, 8192].
   */
  lemma SizeStaysAdaptive(size: nat, bytesRead: nat)
    requires IsAdaptiveSize(size)
    ensures IsAdaptiveSize(NextBufferSize(size, bytesRead))
    ensures MinBufferSize <= NextBufferSize(size, bytesRead) <= MaxBufferSize
  {
    AdaptiveSizesListed(size);
    AdaptiveSizesListed(NextBufferSize(size, bytesRead));
  }

  /** On an adaptive size, growing doubles exactly: the ceiling never cuts a step short. */
  lemma GrowDoubles(size: nat, bytesRead: nat)
    requires IsAdaptiveSize(size) && bytesRead == size && size < MaxBufferSize
    ensures NextBufferSize(size, bytesRead) == 2 * size
  {
    AdaptiveSizesListed(size);
  }

  /** On an adaptive size, shrinking halves exactly: the floor never cuts a step short. */
  lemma ShrinkHalves(size: nat, bytesRead: nat)
    requires IsAdaptiveSize(size) && bytesRead < size / 2 && size > MinBufferSize
    ensures 2 * NextBufferSize(size, bytesRead) == size
  {
    AdaptiveSizesListed(size);
  }

  /** The size after a run of receives, oldest first. */
  function SizeAfter(size: nat, counts: seq<nat>): nat
  {
    if counts == [] then size
    else NextBufferSize(SizeAfter(size, counts[..|counts| - 1]), counts[|counts| - 1])
  }

  /**
   * Whatever the receive counts, the size that starts at 128 stays of the form
   * 128 * 2^k, 0 <= k <= 6, and so within [128, 8192].
   */
  lemma {:induction false} SizeAlwaysAdaptive(counts: seq<nat>)
    ensures IsAdaptiveSize(SizeAfter(MinBufferSize, counts))
    ensures MinBufferSize <= SizeAfter(MinBufferSize, counts) <= MaxBufferSize
  {
    if counts == [] {
      assert Pow2(0) == 1;
      assert MinBufferSize == MinBufferSize * Pow2(0);
    } else {
      SizeAlwaysAdaptive(counts[..|counts| - 1]);
      SizeStaysAdaptive(SizeAfter(MinBufferSize, counts[..|counts| - 1]), counts[|counts| - 1]);
    }
  }

  // ---------------------------------------------------------------------
  // Connection state and Disconnect.
  // ---------------------------------------------------------------------

  /** What the channel's socket has been asked to do, and whether it is connected. */
  datatype SocketState = SocketState(connected: bool, shutdowns: nat, closes: nat, disposes: nat)

  /** The closed flag, the socket and the number of OnDisconnect events fired. */
  datatype ConnectionState = ConnectionState(isClosed: bool, socket: SocketState, disconnectEvents: nat)

  /**
   * Disconnect: on an open channel, fire OnDisconnect, shut the socket down if
   * it is connected, close and dispose it, and set the closed flag; on a
   * closed channel, nothing.
   */
  function AfterDisconnect(c: ConnectionState): (d: ConnectionState)
    ensures d.isClosed && !(d.socket.connected && !c.isClosed)
    ensures c.isClosed ==> d == c
  {
    if c.isClosed then c
    else
      ConnectionState(
        true,
        SocketState(false,
                    c.socket.shutdowns + (if c.socket.connected then 1 else 0),
                    c.socket.closes + 1,
                    c.socket.disposes + 1),
        c.disconnectEvents + 1)
  }

  /** k calls of Disconnect in a row. */
  function Disconnects(c: ConnectionState, k: nat): ConnectionState
  {
    if k == 0 then c else AfterDisconnect(Disconnects(c, k - 1))
  }

  /**
   * A socket call that throws leaves `Socket.Connected` false, unless the
   * error is one after which .NET keeps the connection (a time-out, say);
   * which of the two happened is an input. Nothing else changes.
   */
  function AfterSocketError(c: ConnectionState, stillConnected: bool): (d: ConnectionState)
    ensures d.socket.connected <==> c.socket.connected && stillConnected
    ensures d.isClosed == c.isClosed && d.disconnectEvents == c.disconnectEvents
    ensures d.socket.shutdowns == c.socket.shutdowns && d.socket.closes == c.socket.closes
  {
    c.(socket := c.socket.(connected := c.socket.connected && stillConnected))
  }

  /**
   * After a socket call that threw and dropped the connection, Disconnect
   * still fires OnDisconnect and closes the socket, but does not shut it down.
   */
  lemma DisconnectAfterFailure(c: ConnectionState)
    requires !c.isClosed
    ensures var d := AfterDisconnect(AfterSocketError(c, false));
            && d.isClosed && d.disconnectEvents == c.disconnectEvents + 1
            && d.socket.closes == c.socket.closes + 1
            && d.socket.shutdowns == c.socket.shutdowns
  {
  }

  lemma DisconnectIdempotent(c: ConnectionState)
    ensures AfterDisconnect(AfterDisconnect(c)) == AfterDisconnect(c)
  {
  }

  /**
   * Any number k >= 1 of Disconnect calls has the effect of the first: on an
   * open channel OnDisconnect fires once, the socket is shut down at most once
   * (only if it was connected) and closed and disposed once.
   */
  lemma {:induction false} RepeatedDisconnect(c: ConnectionState, k: nat)
    requires k >= 1
    ensures Disconnects(c, k) == AfterDisconnect(c)
    ensures Disconnects(c, k).disconnectEvents == c.disconnectEvents + (if c.isClosed then 0 else 1)
    ensures Disconnects(c, k).socket.closes == c.socket.closes + (if c.isClosed then 0 else 1)
    ensures Disconnects(c, k).socket.shutdowns
            == c.socket.shutdowns + (if !c.isClosed && c.socket.connected then 1 else 0)
  {
    if k > 1 {
      RepeatedDisconnect(c, k - 1);
      DisconnectIdempotent(c);
    }
  }

  // ---------------------------------------------------------------------
  // The receive loop's inputs and its specification.
  // ---------------------------------------------------------------------

  /** What ReceiveAsync does: bring bytes, or throw, leaving the socket connected or not. */
  datatype RecvResult = Received(bytes: seq<byte>) | SocketError(stillConnected: bool)

  /**
   * One round of the receive loop as the environment plays it: the length of
   * the memory Rent hands out for the receive, what ReceiveAsync does, the
   * memory the new ByteBuffer rents, where the read pass faults, and whether a
   * handler calls Disconnect on the channel during that pass.
   */
  datatype RecvStep = RecvStep(rentedLength: nat, result: RecvResult, bufferMemory: Memory,
                               faultAt: Option<nat>, disconnects: bool)

  /** Why the receive loop ended. */
  datatype RecvExit = PeerClosed | ReceiveFailed | HandlerFaulted | Closed

  function ReceivedBytes(st: RecvStep): seq<byte>
  {
    if st.result.Received? then st.result.bytes else []
  }

  function ReceivedCount(st: RecvStep): nat
  {
    |ReceivedBytes(st)|
  }

  /** The round hands a buffer to the pipeline. */
  predicate Delivers(st: RecvStep)
  {
    st.result.Received? && |st.result.bytes| > 0
  }

  /** The round is the last: a 0-byte receive, a socket error, a faulting pass or a disconnect. */
  predicate EndsLoop(st: RecvStep, handlerCount: nat)
  {
    !Delivers(st) || Faults(st.faultAt, handlerCount) || st.disconnects
  }

  function ExitOf(st: RecvStep, handlerCount: nat): RecvExit
  {
    if st.result.SocketError? then ReceiveFailed
    else if !Delivers(st) then PeerClosed
    else if Faults(st.faultAt, handlerCount) then HandlerFaulted
    else Closed
  }

  /**
   * The socket and the pool keep their promises in a round: the receive
   * fills at most the rented memory, and the new buffer's own rental holds
   * the received bytes.
   */
  predicate StepFits(st: RecvStep)
  {
    ReceivedCount(st) <= st.rentedLength && ReceivedCount(st) <= |st.bufferMemory|
  }

  /** Some round of the run, from round k on, ends the loop. */
  predicate EndsFrom(steps: seq<RecvStep>, handlerCount: nat, k: nat)
  {
    exists j :: k <= j < |steps| && EndsLoop(steps[j], handlerCount)
  }

  /** The first round from round k on that ends the loop. */
  function FirstEnd(steps: seq<RecvStep>, handlerCount: nat, k: nat): (e: nat)
    requires EndsFrom(steps, handlerCount, k)
    ensures k <= e < |steps| && EndsLoop(steps[e], handlerCount)
    decreases |steps| - k
  {
    if EndsLoop(steps[k], handlerCount) then k else FirstEnd(steps, handlerCount, k + 1)
  }

  /** The rounds between k and the first that ends the loop all continue it. */
  lemma {:induction false} BeforeFirstEnd(steps: seq<RecvStep>, handlerCount: nat, k: nat, j: nat)
    requires EndsFrom(steps, handlerCount, k) && k <= j < FirstEnd(steps, handlerCount, k)
    ensures !EndsLoop(steps[j], handlerCount)
    decreases j - k
  {
    if j > k {
      BeforeFirstEnd(steps, handlerCount, k + 1, j);
    }
  }

  /** How many rounds the loop takes: up to and including the first that ends it. */
  function Taken(steps: seq<RecvStep>, handlerCount: nat): (n: nat)
    requires EndsFrom(steps, handlerCount, 0)
    ensures 1 <= n <= |steps| && EndsLoop(steps[n - 1], handlerCount)
  {
    FirstEnd(steps, handlerCount, 0) + 1
  }

  /** The receive size after one round: a delivering round applies the rule, the others keep it. */
  function AfterRound(size: nat, st: RecvStep): (r: nat)
    ensures !Delivers(st) ==> r == size
    ensures MinBufferSize <= size <= MaxBufferSize ==> MinBufferSize <= r <= MaxBufferSize
  {
    if Delivers(st) then NextBufferSize(size, ReceivedCount(st)) else size
  }

  /** What the first k delivering rounds received, oldest first. */
  function DeliveredCounts(steps: seq<RecvStep>, k: nat): seq<nat>
    requires k <= |steps|
  {
    if k == 0 then []
    else DeliveredCounts(steps, k - 1) + (if Delivers(steps[k - 1]) then [ReceivedCount(steps[k - 1])] else [])
  }

  /**
   * What the receive loop changes on the channel besides its logs: the
   * connection, the receive size, the receive rentals made so far and the
   * rental held now.
   */
  datatype RecvView = RecvView(conn: ConnectionState, size: nat, rentals: nat, owner: Option<nat>)

  /**
   * The connection after one round: a failed receive may drop `Connected`, a
   * handler's Disconnect closes the channel, and any other round leaves it.
   */
  function RoundConnection(c: ConnectionState, st: RecvStep): ConnectionState
  {
    if st.result.SocketError? then AfterSocketError(c, st.result.stillConnected)
    else if Delivers(st) && st.disconnects then AfterDisconnect(c)
    else c
  }

  /**
   * One round: a new rental replaces the held one; a delivering round adapts
   * the size; the connection changes as RoundConnection says.
   */
  function RoundView(v: RecvView, st: RecvStep): (r: RecvView)
    ensures r.rentals == v.rentals + 1 && r.owner == Some(r.rentals - 1)
    ensures r.conn != v.conn ==> st.result.SocketError? || (Delivers(st) && st.disconnects)
  {
    RecvView(RoundConnection(v.conn, st), AfterRound(v.size, st), v.rentals + 1, Some(v.rentals))
  }

  /** The first k rounds, oldest first. */
  function RunView(v: RecvView, steps: seq<RecvStep>, k: nat): (r: RecvView)
    requires k <= |steps|
    ensures r.rentals == v.rentals + k
    ensures k > 0 ==> r.owner == Some(r.rentals - 1)
  {
    if k == 0 then v else RoundView(RunView(v, steps, k - 1), steps[k - 1])
  }

  /** After k rounds: k more rentals, the k-th one held, and the size the rule gives on what was delivered. */
  lemma {:induction false} RunViewCounts(v: RecvView, steps: seq<RecvStep>, k: nat)
    requires k <= |steps|
    ensures RunView(v, steps, k).rentals == v.rentals + k
    ensures RunView(v, steps, k).owner == if k == 0 then v.owner else Some(v.rentals + k - 1)
    ensures RunView(v, steps, k).size == SizeAfter(v.size, DeliveredCounts(steps, k))
  {
    if k > 0 {
      RunViewCounts(v, steps, k - 1);
      var counts := DeliveredCounts(steps, k);
      if Delivers(steps[k - 1]) {
        assert counts[..|counts| - 1] == DeliveredCounts(steps, k - 1);
      } else {
        assert counts == DeliveredCounts(steps, k - 1);
      }
    }
  }

  /** Starting from an adaptive size, the size after any rounds is adaptive too. */
  lemma {:induction false} RoundsStayAdaptive(v: RecvView, steps: seq<RecvStep>, k: nat)
    requires k <= |steps| && IsAdaptiveSize(v.size)
    ensures IsAdaptiveSize(RunView(v, steps, k).size)
    ensures MinBufferSize <= RunView(v, steps, k).size <= MaxBufferSize
  {
    if k == 0 {
      AdaptiveSizesListed(v.size);
    } else {
      RoundsStayAdaptive(v, steps, k - 1);
      SizeStaysAdaptive(RunView(v, steps, k - 1).size, ReceivedCount(steps[k - 1]));
    }
  }

  /** Rounds that continue the loop leave the connection as it was. */
  lemma {:induction false} ContinuingRoundsKeepConnection(v: RecvView, steps: seq<RecvStep>, handlerCount: nat, k: nat)
    requires k <= |steps| && forall j :: 0 <= j < k ==> !EndsLoop(steps[j], handlerCount)
    ensures RunView(v, steps, k).conn == v.conn
  {
    if k > 0 {
      ContinuingRoundsKeepConnection(v, steps, handlerCount, k - 1);
    }
  }

  /**
   * On the rounds the loop takes, the connection changes at most once, on the
   * last of them: when its receive throws (Connected may drop) or when it
   * delivers and a handler disconnects; every earlier point leaves it as it was.
   */
  lemma LoopConnection(v: RecvView, steps: seq<RecvStep>, handlerCount: nat, k: nat)
    requires EndsFrom(steps, handlerCount, 0) && 1 <= k <= Taken(steps, handlerCount)
    ensures RunView(v, steps, k - 1).conn == v.conn
    ensures var st := steps[k - 1];
            RunView(v, steps, k).conn
            == if st.result.SocketError? then AfterSocketError(v.conn, st.result.stillConnected)
               else if Delivers(st) && st.disconnects then AfterDisconnect(v.conn)
               else v.conn
    ensures RunView(v, steps, k).conn != v.conn ==> k == Taken(steps, handlerCount)
  {
    if k < Taken(steps, handlerCount) {
      BeforeFirstEnd(steps, handlerCount, 0, k - 1);
    }
    forall j | 0 <= j < k - 1
      ensures !EndsLoop(steps[j], handlerCount)
    {
      BeforeFirstEnd(steps, handlerCount, 0, j);
    }
    ContinuingRoundsKeepConnection(v, steps, handlerCount, k - 1);
  }

  /** A round that ends the loop, taken while the loop still runs, is the last one. */
  lemma EndingRoundIsLast(steps: seq<RecvStep>, handlerCount: nat, k: nat)
    requires EndsFrom(steps, handlerCount, 0) && 1 <= k <= Taken(steps, handlerCount)
    requires EndsLoop(steps[k - 1], handlerCount)
    ensures k == Taken(steps, handlerCount)
  {
    if k < Taken(steps, handlerCount) {
      BeforeFirstEnd(steps, handlerCount, 0, k - 1);
    }
  }

  /**
   * A round whose pass completes leaves the channel open exactly when more
   * rounds follow: only its handler's Disconnect can close it, and that ends the loop.
   */
  lemma CompletedRound(v: RecvView, steps: seq<RecvStep>, handlerCount: nat, k: nat)
    requires !v.conn.isClosed && EndsFrom(steps, handlerCount, 0) && 1 <= k <= Taken(steps, handlerCount)
    requires Delivers(steps[k - 1]) && !Faults(steps[k - 1].faultAt, handlerCount)
    ensures RunView(v, steps, k).conn.isClosed <==> k == Taken(steps, handlerCount)
  {
    LoopConnection(v, steps, handlerCount, k);
    if k == Taken(steps, handlerCount) {
      assert steps[k - 1].disconnects;
    }
  }

  /** A buffer as the receive loop hands it to the pipeline: its cursors and readable bytes at that moment. */
  datatype Delivery = Delivery(buffer: ByteBuffer, readerIndex: int, writerIndex: int, bytes: seq<byte>)

  /** The hand-offs of the delivered buffers: each one unread, holding exactly its round's bytes. */
  function Handoffs(buffers: seq<ByteBuffer>, steps: seq<RecvStep>): (ds: seq<Delivery>)
    requires |buffers| <= |steps|
    ensures |ds| == |buffers|
  {
    seq(|buffers|, j requires 0 <= j < |buffers| =>
          Delivery(buffers[j], 0, ReceivedCount(steps[j]), ReceivedBytes(steps[j])))
  }

  /** The read passes for the delivered buffers, in delivery order. */
  function ReadPasses(hs: seq<Handler>, buffers: seq<ByteBuffer>, steps: seq<RecvStep>, channel: object): seq<HookCall>
    requires |buffers| <= |steps|
  {
    if buffers == [] then []
    else ReadPasses(hs, buffers[..|buffers| - 1], steps, channel)
         + Pass(OnChannelRead, hs, buffers[|buffers| - 1], channel, steps[|buffers| - 1].faultAt)
  }

  lemma AppendAssoc<T>(a: seq<T>, b: seq<T>, c: seq<T>)
    ensures (a + b) + c == a + (b + c)
  {
  }

  /** The same, after whatever the logs held before the loop. */
  lemma LogsSnoc(d0: seq<Delivery>, t0: seq<HookCall>, hs: seq<Handler>, buffers: seq<ByteBuffer>, b: ByteBuffer,
                 steps: seq<RecvStep>, channel: object)
    requires |buffers| < |steps|
    ensures var st := steps[|buffers|];
            && d0 + Handoffs(buffers + [b], steps)
               == (d0 + Handoffs(buffers, steps)) + [Delivery(b, 0, ReceivedCount(st), ReceivedBytes(st))]
            && t0 + ReadPasses(hs, buffers + [b], steps, channel)
               == (t0 + ReadPasses(hs, buffers, steps, channel)) + Pass(OnChannelRead, hs, b, channel, st.faultAt)
  {
    var st := steps[|buffers|];
    DeliveredSnoc(hs, buffers, b, steps, channel);
    AppendAssoc(d0, Handoffs(buffers, steps), [Delivery(b, 0, ReceivedCount(st), ReceivedBytes(st))]);
    AppendAssoc(t0, ReadPasses(hs, buffers, steps, channel), Pass(OnChannelRead, hs, b, channel, st.faultAt));
  }

  /** One more delivered buffer extends the hand-offs and the read passes by its round's. */
  lemma DeliveredSnoc(hs: seq<Handler>, buffers: seq<ByteBuffer>, b: ByteBuffer, steps: seq<RecvStep>, channel: object)
    requires |buffers| < |steps|
    ensures var st := steps[|buffers|];
            && Handoffs(buffers + [b], steps)
               == Handoffs(buffers, steps) + [Delivery(b, 0, ReceivedCount(st), ReceivedBytes(st))]
            && ReadPasses(hs, buffers + [b], steps, channel)
               == ReadPasses(hs, buffers, steps, channel) + Pass(OnChannelRead, hs, b, channel, st.faultAt)
  {
    assert (buffers + [b])[..|buffers|] == buffers;
  }

  // ---------------------------------------------------------------------
  // The send loop's inputs and its specification.
  // ---------------------------------------------------------------------

  /** What SendAsync does: hand over some bytes, or throw, leaving the socket connected or not. */
  datatype SendResult = Sent(count: nat) | SendError(stillConnected: bool)

  /** Why SendAsync returned. */
  datatype SendExit = NotConnected | RentFailed | SliceFailed | CopyFailed | SendsDone | SendFailed

  /**
   * Where the send loop stopped: the bytes sent, whether a send threw, and
   * whether the socket is still connected.
   */
  datatype SendEnd = SendEnd(sent: nat, failed: bool, stillConnected: bool)

  /**
   * Whether the loop sends again after `sent` of `total` bytes. As written
   * (flushAll false) it compares with the buffer's readable count, which has
   * shrunk by `sent`; flushAll compares with the count at the start.
   */
  predicate KeepsSending(total: nat, sent: nat, flushAll: bool)
    requires sent <= total
    ensures flushAll ==> (KeepsSending(total, sent, flushAll) <==> sent < total)
    ensures !flushAll ==> (KeepsSending(total, sent, flushAll) <==> 2 * sent < total)
  {
    if flushAll then sent < total else sent < total - sent
  }

  /**
   * The socket keeps its promise (each send hands over at least one and at
   * most the remaining bytes) and the results last until the loop stops.
   */
  predicate SendsSuffice(total: nat, sent: nat, sends: seq<SendResult>, flushAll: bool)
    requires sent <= total
    decreases |sends|
  {
    !KeepsSending(total, sent, flushAll)
    || (&& |sends| > 0
        && (sends[0].Sent? ==>
              1 <= sends[0].count <= total - sent
              && SendsSuffice(total, sent + sends[0].count, sends[1..], flushAll)))
  }

  /** Where the send loop stops, from `sent` bytes already sent. */
  function RunSends(total: nat, sent: nat, sends: seq<SendResult>, flushAll: bool): (e: SendEnd)
    requires sent <= total && SendsSuffice(total, sent, sends, flushAll)
    ensures sent <= e.sent <= total
    ensures !e.failed ==> !KeepsSending(total, e.sent, flushAll) && e.stillConnected
    decreases |sends|
  {
    if !KeepsSending(total, sent, flushAll) then SendEnd(sent, false, true)
    else if sends[0].SendError? then SendEnd(sent, true, sends[0].stillConnected)
    else RunSends(total, sent + sends[0].count, sends[1..], flushAll)
  }

  /**
   * As written, a loop no send interrupts stops once half of the bytes have
   * gone: the count sent is at least half of them, not all of them.
   */
  lemma AsWrittenStopsAtHalf(total: nat, sends: seq<SendResult>)
    requires SendsSuffice(total, 0, sends, false)
    ensures !RunSends(total, 0, sends, false).failed ==> total <= 2 * RunSends(total, 0, sends, false).sent
  {
  }

  /** As written: 10 readable bytes and a first send of 5 end the loop with 5 bytes unsent. */
  lemma AsWrittenLeavesBytesUnsent()
    ensures SendsSuffice(10, 0, [Sent(5)], false)
    ensures RunSends(10, 0, [Sent(5)], false) == SendEnd(5, false, true)
  {
  }

  /** With the loop guarded by the starting count, a loop no send interrupts sends every byte. */
  lemma FlushingSendsAll(total: nat, sends: seq<SendResult>)
    requires SendsSuffice(total, 0, sends, true)
    ensures !RunSends(total, 0, sends, true).failed ==> RunSends(total, 0, sends, true).sent == total
  {
  }

  /**
   * On the same send results, the as-written loop stops no later than the
   * flushing one: it sends a prefix of what the flushing loop sends.
   */
  lemma {:induction false} AsWrittenSendsPrefix(total: nat, sent: nat, sends: seq<SendResult>)
    requires sent <= total && SendsSuffice(total, sent, sends, true)
    ensures SendsSuffice(total, sent, sends, false)
    ensures RunSends(total, sent, sends, false).sent <= RunSends(total, sent, sends, true).sent
    decreases |sends|
  {
    if KeepsSending(total, sent, false) && sends[0].Sent? {
      AsWrittenSendsPrefix(total, sent + sends[0].count, sends[1..]);
    }
  }

  /** `new ByteBuffer(bytesRead)` followed by `WriteBytes` of the received bytes. */
  method NewReceiveBuffer(received: seq<byte>, rented: Memory) returns (buffer: ByteBuffer)
    requires |received| <= |rented|
    ensures fresh(buffer) && fresh(buffer.memory) && buffer.CapacityFits()
    ensures buffer.InBounds() && buffer.readerIndex == 0 && buffer.writerIndex == |received|
    ensures buffer.Readable() == received
  {
    buffer := new ByteBuffer(|received|, rented);
    var err := buffer.WriteBytes(received);
    assert err == None;
    assert buffer.memory[..|received|] == received;
  }

  // ---------------------------------------------------------------------
  // The channel.
  // ---------------------------------------------------------------------

  class Channel {
    const pipeline: Pipeline
    var isClosed: bool
    var currentBufferSize: nat
    var socket: SocketState
    var disconnectEvents: nat
    /** The receive memory held now, by rental number. */
    var readMemoryOwner: Option<nat>
    /** Receive-memory rentals so far; rental n is the n-th, from 0. */
    var rentals: nat
    /** The Dispose calls on the held receive rental, by rental number, in order. */
    var disposals: seq<nat>
    /** Send scratch-memory rentals so far, and how many went back to the pool. */
    var writeRentals: nat
    var writeReturns: nat
    /** Every byte handed to the socket's SendAsync, in order. */
    var wire: seq<byte>
    /** Every buffer the receive loop handed to the pipeline, as it was at that moment. */
    ghost var deliveries: seq<Delivery>

    /** A channel over an accepted socket: open, at the minimum receive size. */
    constructor (pipeline: Pipeline, connected: bool)
      ensures this.pipeline == pipeline
      ensures Connection() == ConnectionState(false, SocketState(connected, 0, 0, 0), 0)
      ensures currentBufferSize == MinBufferSize && IsAdaptiveSize(currentBufferSize)
      ensures readMemoryOwner == None && rentals == 0 && disposals == []
      ensures writeRentals == 0 && writeReturns == 0 && wire == [] && deliveries == []
    {
      this.pipeline := pipeline;
      isClosed := false;
      currentBufferSize := MinBufferSize;
      socket := SocketState(connected, 0, 0, 0);
      disconnectEvents := 0;
      readMemoryOwner := None;
      rentals := 0;
      disposals := [];
      writeRentals, writeReturns := 0, 0;
      wire := [];
      deliveries := [];
      new;
      assert Pow2(0) == 1;
      assert currentBufferSize == MinBufferSize * Pow2(0);
    }

    function Connection(): ConnectionState
      reads this`isClosed, this`socket, this`disconnectEvents
    {
      ConnectionState(isClosed, socket, disconnectEvents)
    }

    function View(): RecvView
      reads this`isClosed, this`socket, this`disconnectEvents, this`currentBufferSize, this`rentals,
            this`readMemoryOwner
    {
      RecvView(Connection(), currentBufferSize, rentals, readMemoryOwner)
    }

    method Disconnect()
      modifies this`isClosed, this`socket, this`disconnectEvents
      ensures Connection() == AfterDisconnect(old(Connection()))
    {
      if isClosed {
        return;
      }
      disconnectEvents := disconnectEvents + 1;
      if socket.connected {
        socket := socket.(shutdowns := socket.shutdowns + 1);
      }
      socket := socket.(connected := false, closes := socket.closes + 1);
      socket := socket.(disposes := socket.disposes + 1);
      isClosed := true;
    }

    /**
     * One round of ReceiveLoopAsync's body: rent memory of the current size,
     * receive into it, and unless the receive threw or brought 0 bytes, adapt
     * the size, copy the bytes into a fresh buffer and run the read pass on it
     * (during which a handler may disconnect the channel). The new rental
     * replaces the one held before.
     */
    method ReceiveRound(st: RecvStep) returns (buffer: Option<ByteBuffer>, completed: bool)
      requires StepFits(st)
      modifies this`readMemoryOwner, this`rentals, this`currentBufferSize, this`deliveries,
               this`isClosed, this`socket, this`disconnectEvents, pipeline`trace
      ensures View() == RoundView(old(View()), st)
      ensures buffer.Some? <==> Delivers(st)
      ensures buffer.Some? ==> fresh(buffer.value)
      ensures deliveries
              == old(deliveries)
                 + (if buffer.Some? then [Delivery(buffer.value, 0, ReceivedCount(st), ReceivedBytes(st))] else [])
      ensures pipeline.trace
              == old(pipeline.trace)
                 + (if buffer.Some? then Pass(OnChannelRead, pipeline.handlers, buffer.value, this, st.faultAt) else [])
      ensures completed <==> buffer.Some? && !Faults(st.faultAt, |pipeline.handlers|)
    {
      // _readMemoryOwner = _memoryPool.Rent(_currentBufferSize): the previous rental is dropped
      readMemoryOwner := Some(rentals);
      rentals := rentals + 1;
      if st.result.SocketError? {
        // a failed receive updates Socket.Connected
        socket := socket.(connected := socket.connected && st.result.stillConnected);
        return None, false;
      }
      if |st.result.bytes| == 0 {
        return None, false;
      }
      var bytesRead := |st.result.bytes|;
      currentBufferSize := NextBufferSize(currentBufferSize, bytesRead);
      var received := NewReceiveBuffer(st.result.bytes, st.bufferMemory);
      buffer := Some(received);
      deliveries := deliveries + [Delivery(received, received.readerIndex, received.writerIndex, received.Readable())];
      completed := pipeline.ProcessRead(received, this, st.faultAt);
      if st.disconnects {
        Disconnect();
      }
    }

    /**
     * One round of the receive loop, with its hand-off and read pass added
     * to what the earlier rounds delivered.
     */
    method RecordedRound(steps: seq<RecvStep>, i: nat, delivered: seq<ByteBuffer>,
                         ghost d0: seq<Delivery>, ghost t0: seq<HookCall>)
      returns (buffer: Option<ByteBuffer>, completed: bool, delivered': seq<ByteBuffer>)
      requires i < |steps| && StepFits(steps[i]) && |delivered| == i
      requires deliveries == d0 + Handoffs(delivered, steps)
      requires pipeline.trace == t0 + ReadPasses(pipeline.handlers, delivered, steps, this)
      modifies this`readMemoryOwner, this`rentals, this`currentBufferSize, this`deliveries,
               this`isClosed, this`socket, this`disconnectEvents, pipeline`trace
      ensures View() == RoundView(old(View()), steps[i])
      ensures buffer.Some? <==> Delivers(steps[i])
      ensures completed <==> buffer.Some? && !Faults(steps[i].faultAt, |pipeline.handlers|)
      ensures delivered' == delivered + (if buffer.Some? then [buffer.value] else [])
      ensures buffer.Some? ==> fresh(buffer.value)
      ensures deliveries == d0 + Handoffs(delivered', steps)
      ensures pipeline.trace == t0 + ReadPasses(pipeline.handlers, delivered', steps, this)
    {
      buffer, completed := ReceiveRound(steps[i]);
      delivered' := delivered;
      if buffer.Some? {
        LogsSnoc(d0, t0, pipeline.handlers, delivered, buffer.value, steps, this);
        delivered' := delivered + [buffer.value];
      }
    }

    /**
     * One pass of the receive loop's body: a recorded round, then the way
     * out it takes when it ends the loop without closing the channel (a
     * faulting pass, a socket error or a 0-byte receive).
     */
    method LoopStep(steps: seq<RecvStep>, i: nat, delivered: seq<ByteBuffer>,
                    ghost d0: seq<Delivery>, ghost t0: seq<HookCall>, ghost v0: RecvView, ghost n: nat)
      returns (buffer: Option<ByteBuffer>, exit: RecvExit, stopped: bool, delivered': seq<ByteBuffer>)
      requires i < |steps| && StepFits(steps[i]) && |delivered| == i
      requires EndsFrom(steps, |pipeline.handlers|, 0) && n == Taken(steps, |pipeline.handlers|) && i < n
      requires !v0.conn.isClosed && View() == RunView(v0, steps, i)
      requires deliveries == d0 + Handoffs(delivered, steps)
      requires pipeline.trace == t0 + ReadPasses(pipeline.handlers, delivered, steps, this)
      modifies this`readMemoryOwner, this`rentals, this`currentBufferSize, this`deliveries,
               this`isClosed, this`socket, this`disconnectEvents, pipeline`trace
      ensures View() == RunView(v0, steps, i + 1)
      ensures !stopped ==> exit == Closed
      ensures !isClosed && !stopped ==> i + 1 < n && |delivered'| == i + 1
      ensures isClosed || stopped ==>
                && i + 1 == n && exit == ExitOf(steps[n - 1], |pipeline.handlers|)
                && |delivered'| == (if Delivers(steps[n - 1]) then n else n - 1)
      ensures delivered' == delivered + (if buffer.Some? then [buffer.value] else [])
      ensures buffer.Some? ==> fresh(buffer.value)
      ensures deliveries == d0 + Handoffs(delivered', steps)
      ensures pipeline.trace == t0 + ReadPasses(pipeline.handlers, delivered', steps, this)
    {
      var completed;
      buffer, completed, delivered' := RecordedRound(steps, i, delivered, d0, t0);
      exit := Closed;
      stopped := false;
      if completed {
        CompletedRound(v0, steps, |pipeline.handlers|, i + 1);
      } else {
        EndingRoundIsLast(steps, |pipeline.handlers|, i + 1);
        exit := if buffer.Some? then HandlerFaulted else if steps[i].result.SocketError? then ReceiveFailed else PeerClosed;
        stopped := true;
      }
    }

    /**
     * The while loop of ReceiveLoopAsync: rounds until the channel is closed,
     * ending early on a socket error, a 0-byte receive or a faulting read pass.
     */
    method ReceiveRounds(steps: seq<RecvStep>) returns (exit: RecvExit, delivered: seq<ByteBuffer>)
      requires !isClosed ==> EndsFrom(steps, |pipeline.handlers|, 0)
      requires forall j :: 0 <= j < |steps| ==> StepFits(steps[j])
      modifies this`readMemoryOwner, this`rentals, this`currentBufferSize, this`deliveries,
               this`isClosed, this`socket, this`disconnectEvents, pipeline`trace
      ensures old(isClosed) ==> exit == Closed && delivered == [] && View() == old(View())
      ensures !old(isClosed) ==>
                var n := Taken(steps, |pipeline.handlers|);
                && exit == ExitOf(steps[n - 1], |pipeline.handlers|)
                && |delivered| == (if Delivers(steps[n - 1]) then n else n - 1)
                && View() == RunView(old(View()), steps, n)
      ensures |delivered| <= |steps|
      ensures forall j :: 0 <= j < |delivered| ==> fresh(delivered[j])
      ensures deliveries == old(deliveries) + Handoffs(delivered, steps)
      ensures pipeline.trace == old(pipeline.trace) + ReadPasses(pipeline.handlers, delivered, steps, this)
    {
      exit := Closed;
      delivered := [];
      if isClosed {
        // the guard fails at once
        return;
      }
      ghost var hc := |pipeline.handlers|;
      ghost var n := Taken(steps, hc);
      ghost var v0 := View();
      var i := 0;
      // stopped stands for the source's `break`: the round ended the loop without closing the channel
      var stopped := false;
      while !isClosed && !stopped
        invariant 0 <= i <= n && |delivered| <= i
        invariant View() == RunView(v0, steps, i)
        invariant !stopped ==> exit == Closed
        invariant !isClosed && !stopped ==> i < n && |delivered| == i
        invariant isClosed || stopped ==>
                    && i == n && exit == ExitOf(steps[n - 1], hc)
                    && |delivered| == (if Delivers(steps[n - 1]) then n else n - 1)
        invariant forall j :: 0 <= j < |delivered| ==> fresh(delivered[j])
        invariant deliveries == old(deliveries) + Handoffs(delivered, steps)
        invariant pipeline.trace == old(pipeline.trace) + ReadPasses(pipeline.handlers, delivered, steps, this)
        decreases n - i
      {
        var buffer;
        buffer, exit, stopped, delivered := LoopStep(steps, i, delivered, old(deliveries), old(pipeline.trace), v0, n);
        i := i + 1;
      }
    }

    /**
     * ReceiveLoopAsync: the rounds, then the finally, which hands back only
     * the rental held last.
     */
    method ReceiveLoop(steps: seq<RecvStep>) returns (exit: RecvExit, delivered: seq<ByteBuffer>)
      requires !isClosed ==> EndsFrom(steps, |pipeline.handlers|, 0)
      requires forall j :: 0 <= j < |steps| ==> StepFits(steps[j])
      modifies this`readMemoryOwner, this`rentals, this`disposals, this`currentBufferSize, this`deliveries,
               this`isClosed, this`socket, this`disconnectEvents, pipeline`trace
      ensures disposals == old(disposals) + (if readMemoryOwner.Some? then [readMemoryOwner.value] else [])
      ensures old(isClosed) ==> exit == Closed && delivered == [] && View() == old(View())
      ensures !old(isClosed) ==>
                var n := Taken(steps, |pipeline.handlers|);
                && exit == ExitOf(steps[n - 1], |pipeline.handlers|)
                && |delivered| == (if Delivers(steps[n - 1]) then n else n - 1)
                && View() == RunView(old(View()), steps, n)
      ensures |delivered| <= |steps|
      ensures forall b :: b in delivered ==> fresh(b)
      ensures deliveries == old(deliveries) + Handoffs(delivered, steps)
      ensures pipeline.trace == old(pipeline.trace) + ReadPasses(pipeline.handlers, delivered, steps, this)
    {
      exit, delivered := ReceiveRounds(steps);
      if readMemoryOwner.Some? {
        disposals := disposals + [readMemoryOwner.value];
      }
    }

    /**
     * SendAsync, with the loop guard as written (flushAll false) or compared
     * with the readable count at the start (flushAll true): rent scratch memory
     * of the readable size, copy the readable bytes into it, and send from it
     * until the guard fails or a send throws, moving the reader cursor along.
     * The scratch memory goes back to the pool on every path after the rent.
     */
    method SendWith(buffer: ByteBuffer, sends: seq<SendResult>, flushAll: bool) returns (exit: SendExit)
      requires buffer.CapacityFits()
      requires socket.connected && buffer.InBounds() ==> SendsSuffice(buffer.ReadableBytes(), 0, sends, flushAll)
      modifies this`writeRentals, this`writeReturns, this`wire, this`socket, buffer`readerIndex
      ensures writeReturns - old(writeReturns) == writeRentals - old(writeRentals) <= 1
      ensures !old(socket.connected) ==>
                && exit == NotConnected && writeRentals == old(writeRentals)
                && wire == old(wire) && buffer.readerIndex == old(buffer.readerIndex)
      ensures old(socket.connected) && old(buffer.ReadableBytes()) < -1 ==>
                && exit == RentFailed && writeRentals == old(writeRentals)
                && wire == old(wire) && buffer.readerIndex == old(buffer.readerIndex)
      ensures old(socket.connected) && old(buffer.ReadableBytes()) >= -1 ==> writeRentals == old(writeRentals) + 1
      ensures old(socket.connected) && old(buffer.ReadableBytes()) == -1 ==>
                && exit == SliceFailed && wire == old(wire) && buffer.readerIndex == old(buffer.readerIndex)
      ensures old(socket.connected) && old(buffer.ReadableBytes()) >= 0 && !old(buffer.InBounds()) ==>
                && exit == CopyFailed && wire == old(wire) && buffer.readerIndex == old(buffer.readerIndex)
      ensures !(old(socket.connected) && old(buffer.InBounds())) ==> socket == old(socket)
      ensures old(socket.connected) && old(buffer.InBounds()) ==>
                var copy := old(buffer.Readable());
                var e := RunSends(|copy|, 0, sends, flushAll);
                && exit == (if e.failed then SendFailed else SendsDone)
                && wire == old(wire) + copy[..e.sent]
                && buffer.readerIndex == old(buffer.readerIndex) + e.sent
                && socket == old(socket).(connected := e.stillConnected)
    {
      if !socket.connected {
        return NotConnected;
      }
      var readable := buffer.ReadableBytes();
      if readable < -1 {
        // MemoryPool.Rent refuses a size below -1 before renting anything
        return RentFailed;
      }
      // Rent(-1) asks for the pool's default size, so it rents too
      writeRentals := writeRentals + 1;
      if readable < 0 {
        // Memory.Slice(0, -1) throws; the finally returns the rental
        writeReturns := writeReturns + 1;
        return SliceFailed;
      }
      var start := buffer.readerIndex;
      if start < 0 || start + readable > buffer.Capacity() {
        // AsSpan(ReaderIndex, ReadableBytes) throws; the finally returns the rental
        writeReturns := writeReturns + 1;
        return CopyFailed;
      }
      var contents := buffer.GetArray();
      var copy := contents[start..start + readable];
      exit := SendLoop(buffer, copy, sends, flushAll);
      writeReturns := writeReturns + 1;
    }

    /**
     * The loop of SendAsync over the scratch copy of the readable bytes:
     * send from the copy, append what went out to the wire and move the
     * reader cursor along, until the guard fails or a send throws.
     */
    method SendLoop(buffer: ByteBuffer, copy: seq<byte>, sends: seq<SendResult>, flushAll: bool) returns (exit: SendExit)
      requires socket.connected && 0 <= buffer.readerIndex && buffer.writerIndex == buffer.readerIndex + |copy|
      requires SendsSuffice(|copy|, 0, sends, flushAll)
      modifies this`wire, this`socket, buffer`readerIndex
      ensures var e := RunSends(|copy|, 0, sends, flushAll);
              && exit == (if e.failed then SendFailed else SendsDone)
              && wire == old(wire) + copy[..e.sent]
              && buffer.readerIndex == old(buffer.readerIndex) + e.sent
              && socket == old(socket).(connected := e.stillConnected)
    {
      var readable := |copy|;
      var totalBytesSent := 0;
      var i := 0;
      exit := SendsDone;
      while if flushAll then totalBytesSent < readable else totalBytesSent < buffer.ReadableBytes()
        invariant 0 <= i <= |sends| && 0 <= totalBytesSent <= readable
        invariant buffer.readerIndex == old(buffer.readerIndex) + totalBytesSent
        invariant buffer.writerIndex == old(buffer.readerIndex) + readable
        invariant wire == old(wire) + copy[..totalBytesSent]
        invariant socket == old(socket)
        invariant SendsSuffice(readable, totalBytesSent, sends[i..], flushAll)
        invariant RunSends(readable, 0, sends, flushAll) == RunSends(readable, totalBytesSent, sends[i..], flushAll)
        decreases |sends| - i
      {
        assert sends[i..][0] == sends[i] && sends[i..][1..] == sends[i + 1..];
        if sends[i].SendError? {
          // a failed send updates Socket.Connected
          socket := socket.(connected := socket.connected && sends[i].stillConnected);
          exit := SendFailed;
          break;
        }
        var bytesSent := sends[i].count;
        wire := wire + copy[totalBytesSent..totalBytesSent + bytesSent];
        assert copy[..totalBytesSent + bytesSent]
               == copy[..totalBytesSent] + copy[totalBytesSent..totalBytesSent + bytesSent];
        totalBytesSent := totalBytesSent + bytesSent;
        buffer.SetReaderIndex(buffer.readerIndex + bytesSent);
        i := i + 1;
      }
    }

    /** SendAsync as written. */
    method SendAsync(buffer: ByteBuffer, sends: seq<SendResult>) returns (exit: SendExit)
      requires buffer.CapacityFits()
      requires socket.connected && buffer.InBounds() ==> SendsSuffice(buffer.ReadableBytes(), 0, sends, false)
      modifies this`writeRentals, this`writeReturns, this`wire, this`socket, buffer`readerIndex
      ensures writeReturns - old(writeReturns) == writeRentals - old(writeRentals) <= 1
      ensures !old(socket.connected) ==>
                && exit == NotConnected && writeRentals == old(writeRentals)
                && wire == old(wire) && buffer.readerIndex == old(buffer.readerIndex)
      ensures old(socket.connected) && old(buffer.ReadableBytes()) < -1 ==>
                && exit == RentFailed && writeRentals == old(writeRentals)
                && wire == old(wire) && buffer.readerIndex == old(buffer.readerIndex)
      ensures old(socket.connected) && old(buffer.ReadableBytes()) >= -1 ==> writeRentals == old(writeRentals) + 1
      ensures old(socket.connected) && old(buffer.ReadableBytes()) == -1 ==>
                && exit == SliceFailed && wire == old(wire) && buffer.readerIndex == old(buffer.readerIndex)
      ensures old(socket.connected) && old(buffer.ReadableBytes()) >= 0 && !old(buffer.InBounds()) ==>
                && exit == CopyFailed && wire == old(wire) && buffer.readerIndex == old(buffer.readerIndex)
      ensures !(old(socket.connected) && old(buffer.InBounds())) ==> socket == old(socket)
      ensures old(socket.connected) && old(buffer.InBounds()) ==>
                var copy := old(buffer.Readable());
                var e := RunSends(|copy|, 0, sends, false);
                && exit == (if e.failed then SendFailed else SendsDone)
                && wire == old(wire) + copy[..e.sent]
                && buffer.readerIndex == old(buffer.readerIndex) + e.sent
                && socket == old(socket).(connected := e.stillConnected)
                && (!e.failed ==> |copy| <= 2 * e.sent)
    {
      exit := SendWith(buffer, sends, false);
      if old(socket.connected) && old(buffer.InBounds()) {
        AsWrittenStopsAtHalf(old(buffer.ReadableBytes()), sends);
      }
    }

    /** SendAsync with the loop guarded by the readable count at the start: every byte goes out. */
    method SendAsyncFlushing(buffer: ByteBuffer, sends: seq<SendResult>) returns (exit: SendExit)
      requires buffer.CapacityFits()
      requires socket.connected && buffer.InBounds() ==> SendsSuffice(buffer.ReadableBytes(), 0, sends, true)
      modifies this`writeRentals, this`writeReturns, this`wire, this`socket, buffer`readerIndex
      ensures writeReturns - old(writeReturns) == writeRentals - old(writeRentals) <= 1
      ensures !old(socket.connected) ==>
                && exit == NotConnected && writeRentals == old(writeRentals)
                && wire == old(wire) && buffer.readerIndex == old(buffer.readerIndex)
      ensures old(socket.connected) && old(buffer.ReadableBytes()) < -1 ==>
                && exit == RentFailed && writeRentals == old(writeRentals)
                && wire == old(wire) && buffer.readerIndex == old(buffer.readerIndex)
      ensures old(socket.connected) && old(buffer.ReadableBytes()) >= -1 ==> writeRentals == old(writeRentals) + 1
      ensures old(socket.connected) && old(buffer.ReadableBytes()) == -1 ==>
                && exit == SliceFailed && wire == old(wire) && buffer.readerIndex == old(buffer.readerIndex)
      ensures old(socket.connected) && old(buffer.ReadableBytes()) >= 0 && !old(buffer.InBounds()) ==>
                && exit == CopyFailed && wire == old(wire) && buffer.readerIndex == old(buffer.readerIndex)
      ensures !(old(socket.connected) && old(buffer.InBounds())) ==> socket == old(socket)
      ensures old(socket.connected) && old(buffer.InBounds()) ==>
                var copy := old(buffer.Readable());
                var e := RunSends(|copy|, 0, sends, true);
                && exit == (if e.failed then SendFailed else SendsDone)
                && wire == old(wire) + copy[..e.sent]
                && buffer.readerIndex == old(buffer.readerIndex) + e.sent
                && socket == old(socket).(connected := e.stillConnected)
      ensures old(socket.connected) && old(buffer.InBounds()) && exit == SendsDone ==>
                && wire == old(wire) + old(buffer.Readable())
                && buffer.readerIndex == buffer.writerIndex
    {
      exit := SendWith(buffer, sends, true);
      if old(socket.connected) && old(buffer.InBounds()) {
        FlushingSendsAll(old(buffer.ReadableBytes()), sends);
      }
    }
  }
}
