/** `CoroutineContext`: a per-coroutine context object, created on first access. */
module CoroutineContexts {
  import opened Wrappers
  import opened Host

  /** The context object handed out per coroutine. */
  class Context {
    constructor ()
    {
    }
  }

  /** `$contextMap`, created on the first `get`. */
  class CoroutineContextMap {
    var initialized: bool
    var contexts: map<CoroutineId, Context>

    constructor ()
      ensures Valid() && !initialized
    {
      initialized := false;
      contexts := map[];
    }

    ghost predicate Valid()
      reads this
    {
      (!initialized ==> contexts == map[]) &&
      (forall a, b :: a in contexts && b in contexts && a != b ==> contexts[a] != contexts[b])
    }

    /** `CoroutineContext::get`: no coroutine means the current one; the first `get`
        for a coroutine stores a fresh context and later ones return that same object. */
    method Get(coroutine: Option<CoroutineId>, current: CoroutineId) returns (context: Context)
      requires Valid()
      modifies this
      ensures Valid() && initialized
      ensures var co := coroutine.GetOr(current);
        (co in old(contexts) ==> context == old(contexts)[co] && contexts == old(contexts)) &&
        (co !in old(contexts) ==> fresh(context) && contexts == old(contexts)[co := context])
    {
      if !initialized {
        initialized := true;
        contexts := map[];
      }
      var co := coroutine.GetOr(current);
      if co in contexts {
        context := contexts[co];
      } else {
        context := new Context();
        contexts := contexts[co := context];
      }
    }
  }
}
