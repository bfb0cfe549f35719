/** Break points: the pattern list and its statement handler, the four-way match of
    an executing position, the step-depth test, the `break()` flag protocol and the
    wait for a coroutine to stop. */
module Breakpoints {
  import opened Wrappers
  import opened PhpStrings
  import opened Host
  import opened DebugContexts

  /** `PHP_INT_MAX` on a 64-bit build: "no depth limit" for stepping. */
  const PhpIntMax: int := 0x7FFF_FFFF_FFFF_FFFF

  /** `Errno::ETIMEDOUT` as Swow reports it (a negated errno); only its identity
      matters here. */
  const ETIMEDOUT: int := -110

  // ---------------------------------------------------------------- matching

  /** The function name without namespace or class: after a `\` the piece after the
      last `\`; then, when `::` occurs in the full name, the piece of the full name
      after its last `::`. */
  function BaseFunction(fullName: string): string {
    var baseFunction := if Contains(fullName, "\\") then Last(Explode("\\", fullName)) else fullName;
    if Contains(fullName, "::") then Last(Explode("::", fullName)) else baseFunction
  }

  /** A suffix of a string without `needle` does not contain it either. */
  lemma {:induction false} ContainsSuffix(s: string, k: nat, needle: string)
    requires k <= |s| && Contains(s[k..], needle)
    ensures Contains(s, needle)
    decreases k
  {
    if k > 0 {
      assert s[1..][k - 1..] == s[k..];
      ContainsSuffix(s[1..], k - 1, needle);
    }
  }

  /** The last piece of `explode` is a suffix of the input. */
  lemma {:induction false} ExplodeLastIsSuffix(sep: string, s: string) returns (k: nat)
    requires sep != ""
    ensures k <= |s| && Last(Explode(sep, s)) == s[k..]
    decreases |s|
  {
    if |s| < |sep| {
      k := 0;
    } else if s[..|sep|] == sep {
      var j := ExplodeLastIsSuffix(sep, s[|sep|..]);
      LastPieceAtSeparator(sep, s);
      k := |sep| + j;
      assert s[|sep|..][j..] == s[k..];
    } else if |Explode(sep, s[1..])| == 1 {
      ExplodeWhole(sep, s);
      k := 0;
    } else {
      var j := ExplodeLastIsSuffix(sep, s[1..]);
      LastPieceAtChar(sep, s);
      k := j + 1;
      assert s[1..][j..] == s[k..];
    }
  }

  /** A bare function name holds no `::`, and no `\` unless the full name has a `::`;
      a name with neither is its own bare name. */
  lemma BaseFunctionIsBare(fullName: string)
    ensures !Contains(BaseFunction(fullName), "::")
    ensures !Contains(fullName, "::") ==> !Contains(BaseFunction(fullName), "\\")
    ensures !Contains(fullName, "::") && !Contains(fullName, "\\") ==> BaseFunction(fullName) == fullName
  {
    LastPieceHasNoSeparator("::", fullName);
    LastPieceHasNoSeparator("\\", fullName);
    if !Contains(fullName, "::") && Contains(fullName, "\\") {
      var k := ExplodeLastIsSuffix("\\", fullName);
      if Contains(fullName[k..], "::") {
        ContainsSuffix(fullName, k, "::");
      }
    }
  }

  /** Where the statement handler finds the coroutine: the executing file and line and
      the executing function's name. */
  datatype Position = Position(file: string, line: int, functionName: string)

  function FullPosition(p: Position): string {
    p.file + ":" + IntToString(p.line)
  }

  function BasePosition(p: Position): string {
    Basename(p.file) + ":" + IntToString(p.line)
  }

  /** A break point matches `basename:line`, the bare function, the full function or
      `file:line`. */
  predicate Matches(breakPoint: string, p: Position) {
    breakPoint == BasePosition(p) || breakPoint == BaseFunction(p.functionName) ||
    breakPoint == p.functionName || breakPoint == FullPosition(p)
  }

  /** The first element that satisfies `f`, if any. */
  function FirstWhere<T>(xs: seq<T>, f: T -> bool): Option<T> {
    if xs == [] then None
    else if f(xs[0]) then Some(xs[0])
    else FirstWhere(xs[1..], f)
  }

  /** `FirstWhere` finds something exactly when some element satisfies `f`, and what it
      finds is the first such element. */
  lemma {:induction false} FirstWhereIsFirst<T>(xs: seq<T>, f: T -> bool)
    ensures FirstWhere(xs, f).Some? <==> exists i :: 0 <= i < |xs| && f(xs[i])
    ensures FirstWhere(xs, f).Some? ==> exists i :: (0 <= i < |xs| &&
      FirstWhere(xs, f).value == xs[i] && f(xs[i]) && forall j :: 0 <= j < i ==> !f(xs[j]))
    decreases |xs|
  {
    if xs != [] && !f(xs[0]) {
      var rest := xs[1..];
      FirstWhereIsFirst(rest, f);
      if exists i :: 0 <= i < |xs| && f(xs[i]) {
        var i :| 0 <= i < |xs| && f(xs[i]);
        assert rest[i - 1] == xs[i];
      }
      if FirstWhere(rest, f).Some? {
        var i :| 0 <= i < |rest| && FirstWhere(rest, f).value == rest[i] && f(rest[i]) &&
          forall j :: 0 <= j < i ==> !f(rest[j]);
        assert xs[i + 1] == rest[i];
        forall j | 0 <= j < i + 1
          ensures !f(xs[j])
        {
          if j > 0 {
            assert xs[j] == rest[j - 1];
          }
        }
      }
    }
  }

  /** The first break point that matches, if any. */
  function FirstMatch(breakPoints: seq<string>, p: Position): Option<string> {
    FirstWhere(breakPoints, (b: string) => Matches(b, p))
  }

  /** There is a hit exactly when some break point matches, and the hit is the first
      break point that does. */
  lemma FirstMatchIsFirst(breakPoints: seq<string>, p: Position)
    ensures FirstMatch(breakPoints, p).Some? <==> exists i :: 0 <= i < |breakPoints| && Matches(breakPoints[i], p)
    ensures FirstMatch(breakPoints, p).Some? ==> exists i :: (0 <= i < |breakPoints| &&
      FirstMatch(breakPoints, p).value == breakPoints[i] && Matches(breakPoints[i], p) &&
      forall j :: 0 <= j < i ==> !Matches(breakPoints[j], p))
  {
    FirstWhereIsFirst(breakPoints, (b: string) => Matches(b, p));
  }

  /** The foreach over the break points: the first one that matches, if any. */
  method FindHit(breakPoints: seq<string>, p: Position) returns (hit: Option<string>)
    ensures hit == FirstMatch(breakPoints, p)
  {
    var i := 0;
    while i < |breakPoints|
      invariant 0 <= i <= |breakPoints|
      invariant FirstMatch(breakPoints, p) == FirstMatch(breakPoints[i..], p)
    {
      var breakPoint := breakPoints[i];
      assert breakPoints[i..][1..] == breakPoints[i + 1..];
      if breakPoint == BasePosition(p) || breakPoint == BaseFunction(p.functionName) ||
         breakPoint == p.functionName || breakPoint == FullPosition(p) {
        return Some(breakPoint);
      }
      i := i + 1;
    }
    return None;
  }

  /** The step-depth test of a coroutine already asked to stop: break only at or above
      the depth `next` recorded. */
  predicate StepDepthReached(traceDepth: int, diffLevel: int, lastTraceDepth: int) {
    traceDepth - diffLevel <= lastTraceDepth
  }

  /** With no recorded depth every statement breaks, so `step` stops at the next one:
      a trace depth is a frame count below PHP_INT_MAX and a diff level is a frame
      index, one less for the coroutine inspecting itself. */
  lemma StepBreaksEverywhere(traceDepth: int, diffLevel: int)
    requires 0 <= traceDepth < PhpIntMax && -1 <= diffLevel
    ensures StepDepthReached(traceDepth, diffLevel, PhpIntMax)
  {
  }

  // ---------------------------------------------------------------- the pattern list

  /** `$breakPointHandler` and `$breakPoints`; `installed` is the set of statement
      handlers registered with the engine under this object's ids. */
  class BreakpointList {
    var breakPointHandler: Option<nat>
    var breakPoints: seq<string>
    var installed: set<nat>
    var nextHandlerId: nat

    constructor ()
      ensures Valid() && breakPointHandler == None && breakPoints == [] && installed == {}
    {
      breakPointHandler := None;
      breakPoints := [];
      installed := {};
      nextHandlerId := 0;
    }

    /** The engine holds exactly the registered handler, or none. */
    predicate Valid()
      reads this
    {
      match breakPointHandler
      case None => installed == {}
      case Some(id) => installed == {id} && id < nextHandlerId
    }

    /** `checkBreakPointHandler`: registers the statement handler on first use and
        keeps it afterwards. */
    method CheckBreakPointHandler()
      requires Valid()
      modifies this
      ensures Valid() && breakPointHandler.Some? && breakPoints == old(breakPoints)
      ensures old(breakPointHandler).Some? ==>
        breakPointHandler == old(breakPointHandler) && installed == old(installed)
    {
      if breakPointHandler.None? {
        breakPointHandler := Some(nextHandlerId);
        installed := {nextHandlerId};
        nextHandlerId := nextHandlerId + 1;
      }
    }

    /** `addBreakPoint`: makes sure the handler is registered, then appends. */
    method AddBreakPoint(point: string)
      requires Valid()
      modifies this
      ensures Valid() && breakPointHandler.Some?
      ensures breakPoints == old(breakPoints) + [point]
      ensures old(breakPointHandler).Some? ==> breakPointHandler == old(breakPointHandler)
    {
      CheckBreakPointHandler();
      breakPoints := breakPoints + [point];
    }

    /** `__destructDebuggerBreakpoint`: removes a registered handler and forgets it. */
    method DestructDebuggerBreakpoint()
      requires Valid()
      modifies this
      ensures Valid() && breakPointHandler == None && installed == {}
      ensures breakPoints == old(breakPoints)
    {
      if breakPointHandler.Some? {
        installed := installed - {breakPointHandler.value};
        breakPointHandler := None;
      }
    }
  }

  // ---------------------------------------------------------------- break and wait

  /** `break()` up to the yield: the coroutine marks itself stopped. */
  method BreakSuspend(context: DebugContext)
    modifies context
    ensures context.stopped && context.stop == old(context.stop)
  {
    context.stopped := true;
  }

  /** `break()` after the coroutine is resumed: no longer stopped. */
  method BreakResume(context: DebugContext)
    modifies context
    ensures !context.stopped && context.stop == old(context.stop)
  {
    context.stopped := false;
  }

  datatype WaitOutcome = Stopped | Cancelled | ChannelError(code: int) | StillWaiting

  /** The do-while of `waitStoppedCoroutine` over the polls, with the number of polls
      it takes. */
  function WaitLoop(polls: seq<Poll>): (WaitOutcome, nat)
  {
    if polls == [] then (StillWaiting, 0)
    else match polls[0]
      case Popped(_) => (Cancelled, 1)
      case PollError(code, stoppedNow) =>
        if code != ETIMEDOUT then (ChannelError(code), 1)
        else if stoppedNow then (Stopped, 1)
        else var rest := WaitLoop(polls[1..]); (rest.0, rest.1 + 1)
  }

  /** `waitStoppedCoroutine`: at once when the coroutine is already stopped. */
  function Wait(stopped: bool, polls: seq<Poll>): (WaitOutcome, nat) {
    if stopped then (Stopped, 0) else WaitLoop(polls)
  }

  /** A timeout ends the loop exactly when the coroutine is seen stopped: the wait
      stops after `n` polls iff the first `n - 1` are timeouts with the coroutine still
      running and the `n`-th is a timeout that sees it stopped. */
  lemma {:induction false} WaitLoopStops(polls: seq<Poll>, n: nat)
    ensures WaitLoop(polls) == (Stopped, n) <==>
      1 <= n <= |polls| && polls[n - 1] == PollError(ETIMEDOUT, true) &&
      forall i :: 0 <= i < n - 1 ==> polls[i] == PollError(ETIMEDOUT, false)
  {
    if polls != [] && polls[0].PollError? && polls[0].code == ETIMEDOUT && !polls[0].stoppedNow {
      if n >= 1 {
        WaitLoopStops(polls[1..], n - 1);
        if 1 <= n - 1 <= |polls[1..]| && polls[1..][n - 2] == PollError(ETIMEDOUT, true) &&
          forall i :: 0 <= i < n - 2 ==> polls[1..][i] == PollError(ETIMEDOUT, false) {
          assert forall i :: 0 <= i < n - 1 ==> polls[i] == PollError(ETIMEDOUT, false) by {
            forall i | 0 <= i < n - 1
              ensures polls[i] == PollError(ETIMEDOUT, false)
            {
              if i > 0 {
                assert polls[i] == polls[1..][i - 1];
              }
            }
          }
        }
        if 1 <= n <= |polls| && polls[n - 1] == PollError(ETIMEDOUT, true) &&
          forall i :: 0 <= i < n - 1 ==> polls[i] == PollError(ETIMEDOUT, false) {
          assert n != 1;
          assert polls[1..][n - 2] == polls[n - 1];
          assert forall i :: 0 <= i < n - 2 ==> polls[1..][i] == polls[i + 1];
        }
      } else {
        var rest := WaitLoop(polls[1..]);
        assert WaitLoop(polls).1 == rest.1 + 1;
      }
    }
  }

  /** A wait that ends normally leaves the coroutine seen stopped. */
  lemma WaitSeesStopped(stopped: bool, polls: seq<Poll>)
    ensures var w := Wait(stopped, polls);
      w.0 == Stopped ==> w.1 <= |polls| && (if w.1 == 0 then stopped else polls[w.1 - 1].stoppedNow)
  {
    if !stopped {
      WaitLoopStops(polls, WaitLoop(polls).1);
    }
  }

  /** A signal always cancels the wait, and any channel error but a timeout ends it
      with that error. */
  lemma WaitLoopFirstPoll(polls: seq<Poll>)
    requires polls != []
    ensures polls[0].Popped? ==> WaitLoop(polls) == (Cancelled, 1)
    ensures polls[0].PollError? && polls[0].code != ETIMEDOUT ==> WaitLoop(polls) == (ChannelError(polls[0].code), 1)
  {
  }

  /** The do-while loop of `waitStoppedCoroutine`; `stopped` is updated from each poll,
      as the yield inside `pop` lets the coroutine break. */
  method WaitStoppedCoroutine(context: DebugContext, polls: seq<Poll>) returns (outcome: WaitOutcome, consumed: nat)
    modifies context
    ensures (outcome, consumed) == Wait(old(context.stopped), polls)
    ensures consumed <= |polls|
    ensures context.stop == old(context.stop)
    ensures context.stopped == if consumed == 0 then old(context.stopped) else polls[consumed - 1].stoppedNow
  {
    if context.stopped {
      return Stopped, 0;
    }
    consumed := 0;
    while true
      invariant 0 <= consumed <= |polls|
      invariant WaitLoop(polls) == (var rest := WaitLoop(polls[consumed..]); (rest.0, rest.1 + consumed))
      invariant context.stop == old(context.stop)
      invariant context.stopped == if consumed == 0 then old(context.stopped) else polls[consumed - 1].stoppedNow
      invariant !context.stopped
      decreases |polls| - consumed
    {
      if consumed == |polls| {
        return StillWaiting, consumed;
      }
      var poll := polls[consumed];
      assert polls[consumed..][1..] == polls[consumed + 1..];
      context.stopped := poll.stoppedNow;
      consumed := consumed + 1;
      match poll {
        case Popped(_) =>
          return Cancelled, consumed;
        case PollError(code, _) =>
          if code != ETIMEDOUT {
            return ChannelError(code), consumed;
          }
      }
      if context.stopped {
        return Stopped, consumed;
      }
    }
  }
}
