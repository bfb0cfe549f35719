/** The per-coroutine debugging state and its lazily created map. */
module DebugContexts {
  import opened Host

  /** `stop` asks the statement handler to break the coroutine; `stopped` says the
      coroutine is parked inside `break()`. */
  class DebugContext {
    var stop: bool
    var stopped: bool

    constructor ()
      ensures !stop && !stopped
    {
      stop := false;
      stopped := false;
    }
  }

  /** `$coroutineDebugWeakMap`: created on the first lookup, one context per coroutine. */
  class DebugContextMap {
    var initialized: bool
    var contexts: map<CoroutineId, DebugContext>

    constructor ()
      ensures Valid() && !initialized
    {
      initialized := false;
      contexts := map[];
    }

    /** No lookup yet means no entry, and no two coroutines share a context. */
    ghost predicate Valid()
      reads this
    {
      (!initialized ==> contexts == map[]) &&
      (forall a, b :: a in contexts && b in contexts && a != b ==> contexts[a] != contexts[b])
    }

    /** `getDebugContextOfCoroutine`: the coroutine's context, a fresh one stored on
        the first lookup; the entries of other coroutines stay as they were. */
    method Get(co: CoroutineId) returns (context: DebugContext)
      requires Valid()
      modifies this
      ensures Valid() && initialized
      ensures co in old(contexts) ==> context == old(contexts)[co] && contexts == old(contexts)
      ensures co !in old(contexts) ==>
        fresh(context) && !context.stop && !context.stopped && contexts == old(contexts)[co := context]
    {
      if !initialized {
        initialized := true;
        contexts := map[];
      }
      if co in contexts {
        context := contexts[co];
      } else {
        context := new DebugContext();
        contexts := contexts[co := context];
      }
    }
  }
}
