/**
 * The fixed pool of event loops of Burst/Core/MultiThreadedEventLoopGroup.cs
 * and its round-robin selection.
 *
 * A member loop (Burst/Core/SingleThreadedEventLoop.cs) is a worker thread
 * with a task queue; here it is an opaque object that counts the Start and
 * Shutdown calls it receives. The atomic increment of the counter is a plain
 * sequential increment.
 */
module EventLoops {
  import opened Common

  class EventLoop {
    var startCalls: nat
    var shutdownCalls: nat

    constructor ()
      ensures startCalls == 0 && shutdownCalls == 0
    {
      startCalls, shutdownCalls := 0, 0;
    }

    method Start()
      modifies this`startCalls
      ensures startCalls == old(startCalls) + 1
    {
      startCalls := startCalls + 1;
    }

    method Shutdown()
      modifies this`shutdownCalls
      ensures shutdownCalls == old(shutdownCalls) + 1
    {
      shutdownCalls := shutdownCalls + 1;
    }
  }

  /** A call the group makes on one of its loops, by array position. */
  datatype LoopCall = StartCall(index: nat) | ShutdownCall(index: nat)

  /** The group's only failure: `% 0` on a group without loops. */
  datatype GroupError = DivideByZero

  // ---------------------------------------------------------------------
  // Round-robin selection.
  // ---------------------------------------------------------------------

  /**
   * The loop a counter value selects. C#'s `%` truncates toward zero; on the
   * non-negative counter it agrees with Dafny's `%`.
   */
  function SelectIndex(counter: nat, n: nat): (i: nat)
    requires n > 0
    ensures i < n
  {
    counter % n
  }

  /** With more than one loop, two consecutive selections differ; they move on by one. */
  lemma ConsecutiveSelectionsDiffer(counter: nat, n: nat)
    requires n > 1
    ensures SelectIndex(counter + 1, n) == (SelectIndex(counter, n) + 1) % n
    ensures SelectIndex(counter + 1, n) != SelectIndex(counter, n)
  {
    DivMod(counter, n);
    var q, r := counter / n, counter % n;
    if r == n - 1 {
      MulSucc(q, n);
      DivModUnique(counter + 1, n, q + 1, 0);
      DivModUnique(r + 1, n, 1, 0);
    } else {
      DivModUnique(counter + 1, n, q, r + 1);
      DivModUnique(r + 1, n, 0, r + 1);
    }
  }

  /** How many of the selections for counter values c+1 .. c+k pick loop i. */
  function Hits(c: nat, k: nat, n: nat, i: nat): nat
    requires n > 0
  {
    if k == 0 then 0
    else Hits(c, k - 1, n, i) + (if SelectIndex(c + k, n) == i then 1 else 0)
  }

  lemma DivMod(x: int, n: int)
    requires n > 0
    ensures x == (x / n) * n + x % n && 0 <= x % n < n
  {
  }

  /** Euclidean quotient and remainder are unique. */
  lemma DivModUnique(x: int, n: int, q: int, r: int)
    requires n > 0 && x == q * n + r && 0 <= r < n
    ensures x / n == q && x % n == r
  {
    DivMod(x, n);
    var q', r' := x / n, x % n;
    MulDistributes(q', q, n);
    if q' > q {
      MulAtLeast(q' - q, n);
    } else if q' < q {
      MulDistributes(q, q', n);
      MulAtLeast(q - q', n);
    }
  }

  lemma MulSucc(q: int, n: int)
    ensures (q + 1) * n == q * n + n
  {
  }

  lemma MulDistributes(a: int, b: int, n: int)
    ensures (a - b) * n == a * n - b * n
  {
  }

  lemma MulAtLeast(d: int, n: int)
    requires d >= 1 && n > 0
    ensures d * n >= n
  {
    MulDistributes(d, 1, n);
  }

  /** Stepping one past x: the quotient goes up exactly when x+1 is a multiple of n. */
  lemma DivStep(x: int, n: int)
    requires n > 0
    ensures (x + 1) / n == x / n + (if (x + 1) % n == 0 then 1 else 0)
  {
    DivMod(x, n);
    var q, r := x / n, x % n;
    if r == n - 1 {
      DivModUnique(x + 1, n, q + 1, 0);
    } else {
      DivModUnique(x + 1, n, q, r + 1);
    }
  }

  /** Hits counts the multiples of n in an interval, shifted by i. */
  lemma {:induction false} HitsClosedForm(c: nat, k: nat, n: nat, i: nat)
    requires 0 <= i < n
    ensures Hits(c, k, n, i) == (c + k - i) / n - (c - i) / n
  {
    if k > 0 {
      HitsClosedForm(c, k - 1, n, i);
      var x := c + k - 1 - i;
      DivStep(x, n);
      DivMod(x + 1, n);
      DivMod(c + k, n);
      // x + 1 == (c + k) - i, with 0 <= i < n: it is a multiple of n exactly when c + k leaves remainder i
      if (x + 1) % n == 0 {
        DivModUnique(c + k, n, (x + 1) / n, i);
      } else if (c + k) % n == i {
        DivModUnique(x + 1, n, (c + k) / n, 0);
      }
    }
  }

  /** Two quotients by n of numbers k apart differ by floor(k/n) or ceil(k/n). */
  lemma QuotientGap(a: int, k: nat, n: nat)
    requires n > 0
    ensures k / n <= (a + k) / n - a / n <= (k + n - 1) / n
  {
    DivMod(a, n);
    DivMod(k, n);
    var q, r := a / n, a % n;
    var p, s := k / n, k % n;
    if r + s < n {
      DivModUnique(a + k, n, q + p, r + s);
    } else {
      DivModUnique(a + k, n, q + p + 1, r + s - n);
    }
    if s == 0 {
      DivModUnique(k + n - 1, n, p, n - 1);
    } else {
      DivModUnique(k + n - 1, n, p + 1, s - 1);
    }
  }

  /**
   * Fairness: over any k consecutive selections, every loop is picked either
   * floor(k/n) or ceil(k/n) times.
   */
  lemma RoundRobinFair(c: nat, k: nat, n: nat, i: nat)
    requires 0 <= i < n
    ensures k / n <= Hits(c, k, n, i) <= (k + n - 1) / n
  {
    HitsClosedForm(c, k, n, i);
    QuotientGap(c - i, k, n);
  }

  /** Any n consecutive selections pick every one of the n loops exactly once. */
  lemma FullRoundPicksEachOnce(c: nat, n: nat, i: nat)
    requires 0 <= i < n
    ensures Hits(c, n, n, i) == 1
  {
    RoundRobinFair(c, n, n, i);
    DivModUnique(n, n, 1, 0);
    DivModUnique(n + n - 1, n, 1, n - 1);
  }

  // ---------------------------------------------------------------------
  // The group.
  // ---------------------------------------------------------------------

  class EventLoopGroup {
    const loops: array<EventLoop?>
    var nextLoopIndex: int
    /** The Start and Shutdown calls this group has made, oldest first. */
    ghost var calls: seq<LoopCall>

    /** Every slot holds its own loop, and the counter has not gone negative. */
    ghost predicate Valid()
      reads this, loops
    {
      && nextLoopIndex >= 0
      && (forall i :: 0 <= i < loops.Length ==> loops[i] != null)
      && (forall i, j :: 0 <= i < j < loops.Length ==> loops[i] != loops[j])
    }

    /** Creates numLoops loops and starts each once, in index order. */
    constructor (numLoops: nat)
      ensures Valid() && fresh(loops) && loops.Length == numLoops && nextLoopIndex == 0
      ensures forall i :: 0 <= i < numLoops ==>
                fresh(loops[i]) && loops[i].startCalls == 1 && loops[i].shutdownCalls == 0
      ensures |calls| == numLoops && forall i :: 0 <= i < numLoops ==> calls[i] == StartCall(i)
    {
      var created := new EventLoop?[numLoops];
      ghost var log: seq<LoopCall> := [];
      var i := 0;
      while i < numLoops
        invariant 0 <= i <= numLoops
        invariant forall j :: 0 <= j < i ==>
                    created[j] != null && fresh(created[j])
                    && created[j].startCalls == 1 && created[j].shutdownCalls == 0
        invariant forall j, k :: 0 <= j < k < i ==> created[j] != created[k]
        invariant |log| == i && forall j :: 0 <= j < i ==> log[j] == StartCall(j)
      {
        var loop := new EventLoop();
        created[i] := loop;
        loop.Start();
        log := log + [StartCall(i)];
        i := i + 1;
      }
      loops := created;
      nextLoopIndex := 0;
      calls := log;
    }

    /** Interlocked.Increment, then the loop at the new counter modulo the loop count. */
    method GetNextEventLoop() returns (r: Result<EventLoop, GroupError>)
      requires Valid()
      modifies this`nextLoopIndex
      ensures Valid()
      ensures nextLoopIndex == old(nextLoopIndex) + 1
      ensures loops.Length == 0 ==> r == Err(DivideByZero)
      ensures loops.Length > 0 ==> r.Ok? && r.value == loops[SelectIndex(nextLoopIndex, loops.Length)]
    {
      nextLoopIndex := nextLoopIndex + 1;
      if loops.Length == 0 {
        return Err(DivideByZero);
      }
      var index := SelectIndex(nextLoopIndex, loops.Length);
      r := Ok(loops[index]);
    }

    /** Shuts every loop down once, in array order. */
    method Shutdown()
      requires Valid()
      modifies this`calls, set i | 0 <= i < loops.Length :: loops[i]
      ensures Valid()
      ensures forall i :: 0 <= i < loops.Length ==>
                loops[i].shutdownCalls == old(loops[i].shutdownCalls) + 1
                && loops[i].startCalls == old(loops[i].startCalls)
      ensures |calls| == |old(calls)| + loops.Length
      ensures calls[..|old(calls)|] == old(calls)
      ensures forall i :: 0 <= i < loops.Length ==> calls[|old(calls)| + i] == ShutdownCall(i)
    {
      var i := 0;
      while i < loops.Length
        invariant 0 <= i <= loops.Length
        invariant forall j :: 0 <= j < loops.Length ==>
                    loops[j].shutdownCalls == old(loops[j].shutdownCalls) + (if j < i then 1 else 0)
                    && loops[j].startCalls == old(loops[j].startCalls)
        invariant |calls| == |old(calls)| + i && calls[..|old(calls)|] == old(calls)
        invariant forall j :: 0 <= j < i ==> calls[|old(calls)| + j] == ShutdownCall(j)
      {
        loops[i].Shutdown();
        calls := calls + [ShutdownCall(i)];
        i := i + 1;
      }
    }
  }
}
