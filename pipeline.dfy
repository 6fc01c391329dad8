/**
 * The handler chain of Burst/Pipelines/Pipeline.cs.
 *
 * Handlers are opaque objects. What a hook does inside is not modelled; the
 * pipeline records every hook call it makes in a trace, and whether a pass
 * is cut short is given by an oracle: the position of the first handler
 * whose hook throws in that pass, if any.
 */
module Pipelines {
  import opened Common
  import opened Buffers

  /** A protocol handler (IPipeline), seen only through its identity. */
  class Handler {
    constructor ()
    {
    }
  }

  datatype Hook = OnChannelRead | OnChannelWrite

  /** One hook call: which hook, on which handler, with which arguments, and whether it threw. */
  datatype HookCall = HookCall(hook: Hook, handler: Handler, buffer: ByteBuffer, channel: object, threw: bool)

  /** Whether a pass over n handlers is cut short by the hook at position faultAt. */
  predicate Faults(faultAt: Option<nat>, n: nat)
  {
    faultAt.Some? && faultAt.value < n
  }

  /** How many hooks a pass over n handlers calls. */
  function Reached(faultAt: Option<nat>, n: nat): (k: nat)
    ensures k <= n
  {
    if Faults(faultAt, n) then faultAt.value + 1 else n
  }

  /**
   * What one pass of `hook` over the handlers hs calls, given where it
   * faults: the handlers in order, up to and including the faulting one,
   * which is the only call that threw.
   */
  function Pass(hook: Hook, hs: seq<Handler>, buffer: ByteBuffer, channel: object, faultAt: Option<nat>): (calls: seq<HookCall>)
    ensures |calls| == Reached(faultAt, |hs|)
  {
    seq(Reached(faultAt, |hs|),
        k requires 0 <= k < Reached(faultAt, |hs|) =>
          HookCall(hook, hs[k], buffer, channel, Faults(faultAt, |hs|) && k == faultAt.value))
  }

  /**
   * A pass calls its hook once per registered handler, in registration order,
   * with the same buffer and channel, up to and including the handler that
   * throws; no handler after it is called, and every hook before it completed.
   */
  lemma PassOrder(hook: Hook, hs: seq<Handler>, buffer: ByteBuffer, channel: object, faultAt: Option<nat>)
    ensures !Faults(faultAt, |hs|) ==> |Pass(hook, hs, buffer, channel, faultAt)| == |hs|
    ensures Faults(faultAt, |hs|) ==> |Pass(hook, hs, buffer, channel, faultAt)| == faultAt.value + 1
    ensures forall k :: 0 <= k < |Pass(hook, hs, buffer, channel, faultAt)| ==>
              && Pass(hook, hs, buffer, channel, faultAt)[k].handler == hs[k]
              && Pass(hook, hs, buffer, channel, faultAt)[k].hook == hook
              && Pass(hook, hs, buffer, channel, faultAt)[k].buffer == buffer
              && Pass(hook, hs, buffer, channel, faultAt)[k].channel == channel
              && (Pass(hook, hs, buffer, channel, faultAt)[k].threw <==> Faults(faultAt, |hs|) && k == faultAt.value)
  {
  }

  /**
   * A pass that faults at handler i makes the same calls as a full pass up to
   * i, and i's call differs only in having thrown.
   */
  lemma FaultingPassIsPrefix(hook: Hook, hs: seq<Handler>, buffer: ByteBuffer, channel: object, i: nat)
    requires i < |hs|
    ensures Pass(hook, hs, buffer, channel, Some(i))[..i] == Pass(hook, hs, buffer, channel, None)[..i]
    ensures Pass(hook, hs, buffer, channel, Some(i))[i] == Pass(hook, hs, buffer, channel, None)[i].(threw := true)
  {
  }

  /** A read pass calls only read hooks, a write pass only write hooks. */
  lemma PassUsesOneHook(hook: Hook, hs: seq<Handler>, buffer: ByteBuffer, channel: object, faultAt: Option<nat>)
    ensures forall call :: call in Pass(hook, hs, buffer, channel, faultAt) ==> call.hook == hook
  {
    PassOrder(hook, hs, buffer, channel, faultAt);
  }

  /** With no handlers, neither pass calls anything. */
  lemma EmptyPass(hook: Hook, buffer: ByteBuffer, channel: object, faultAt: Option<nat>)
    ensures Pass(hook, [], buffer, channel, faultAt) == []
  {
  }

  class Pipeline {
    var handlers: seq<Handler>
    /** Every hook call made by this pipeline, oldest first. */
    ghost var trace: seq<HookCall>

    constructor ()
      ensures handlers == [] && trace == []
    {
      handlers := [];
      trace := [];
    }

    /** AddHandler appends; the handlers already there keep their order. */
    method AddHandler(handler: Handler)
      modifies this`handlers
      ensures handlers == old(handlers) + [handler]
    {
      handlers := handlers + [handler];
    }

    /**
     * The common body of ProcessReadAsync and ProcessWriteAsync: await the hook
     * of each handler in turn; an exception from a hook ends the pass.
     */
    method ProcessPass(hook: Hook, buffer: ByteBuffer, channel: object, faultAt: Option<nat>) returns (completed: bool)
      modifies this`trace
      ensures completed <==> !Faults(faultAt, |handlers|)
      ensures trace == old(trace) + Pass(hook, handlers, buffer, channel, faultAt)
    {
      var i := 0;
      completed := true;
      while i < |handlers|
        invariant 0 <= i <= |handlers|
        invariant !Faults(faultAt, i)
        invariant |trace| == |old(trace)| + i && trace[..|old(trace)|] == old(trace)
        invariant forall k :: 0 <= k < i ==>
                    trace[|old(trace)| + k] == HookCall(hook, handlers[k], buffer, channel, false)
      {
        var throws := faultAt == Some(i);
        trace := trace + [HookCall(hook, handlers[i], buffer, channel, throws)];
        if throws {
          assert trace == old(trace) + Pass(hook, handlers, buffer, channel, faultAt);
          return false;
        }
        i := i + 1;
      }
      assert trace == old(trace) + Pass(hook, handlers, buffer, channel, faultAt);
    }

    method ProcessRead(buffer: ByteBuffer, channel: object, faultAt: Option<nat>) returns (completed: bool)
      modifies this`trace
      ensures completed <==> !Faults(faultAt, |handlers|)
      ensures trace == old(trace) + Pass(OnChannelRead, handlers, buffer, channel, faultAt)
    {
      completed := ProcessPass(OnChannelRead, buffer, channel, faultAt);
    }

    method ProcessWrite(buffer: ByteBuffer, channel: object, faultAt: Option<nat>) returns (completed: bool)
      modifies this`trace
      ensures completed <==> !Faults(faultAt, |handlers|)
      ensures trace == old(trace) + Pass(OnChannelWrite, handlers, buffer, channel, faultAt)
    {
      completed := ProcessPass(OnChannelWrite, buffer, channel, faultAt);
    }
  }
}
