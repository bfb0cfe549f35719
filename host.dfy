/** What the debugger sees of the coroutine runtime: values, trace frames and a
    snapshot of the live coroutines.  Runtime calls (getTrace, getTraceDepth,
    getSwitches, file_exists, reading a file) are answered from a snapshot. */
module Host {
  import opened Wrappers

  type CoroutineId = int

  /** A PHP value as far as the debugger renders it.  A float carries its PHP
      rendering, an array only its size, an object only its class name. */
  datatype Value =
    | IntVal(i: int)
    | FloatVal(text: string)
    | NullVal
    | BoolVal(b: bool)
    | StrVal(s: string)
    | ArrayVal(size: nat)
    | ObjectVal(className: string)
    | OtherVal

  /** The `line` entry of a trace frame: an integer as the runtime reports it, or
      any other text a caller may have put there. */
  datatype LineNo = LineInt(n: int) | LineText(text: string)

  /** One frame of a backtrace; a missing key is `None`. */
  datatype Frame = Frame(
    functionName: Option<string>,
    className: Option<string>,
    args: Option<seq<Value>>,
    file: Option<string>,
    line: Option<LineNo>)

  const EmptyFrame := Frame(None, None, None, None, None)

  /** What the runtime reports about one coroutine.  `trace` is its full backtrace
      from the innermost frame; the `executed*` fields answer
      getExecutedFilename(2), getExecutedLineno(2) and getExecutedFunctionName(3). */
  datatype CoroutineInfo = CoroutineInfo(
    stateName: string,
    switches: int,
    elapsed: string,
    trace: seq<Frame>,
    traceDepth: int,
    executedFile: string,
    executedLine: int,
    executedFunction: string)

  /** A snapshot of the runtime: the calling coroutine, the live coroutines in the
      order `Coroutine::getAll()` lists them, the class names that are the debugger
      class or one of its subclasses, and the readable files as their lines. */
  datatype Runtime = Runtime(
    current: CoroutineId,
    order: seq<CoroutineId>,
    coroutines: map<CoroutineId, CoroutineInfo>,
    debuggerClasses: set<string>,
    files: map<string, seq<string>>)

  /** What a coroutine object that is no longer alive reports. */
  const DeadInfo := CoroutineInfo("dead", 0, "", [], 0, "", 0, "")

  /** The runtime's answers about a coroutine, alive or not. */
  function Info(rt: Runtime, co: CoroutineId): CoroutineInfo {
    if co in rt.coroutines then rt.coroutines[co] else DeadInfo
  }

  /** The ids other than `co`, in order. */
  function Remove(ids: seq<CoroutineId>, co: CoroutineId): (r: seq<CoroutineId>)
    ensures forall x :: x in r <==> x in ids && x != co
  {
    if ids == [] then [] else (if ids[0] == co then [] else [ids[0]]) + Remove(ids[1..], co)
  }

  lemma AppendAssoc<T>(a: seq<T>, b: seq<T>, c: seq<T>)
    ensures a + (b + c) == (a + b) + c
  {
  }

  /** Filtering a list extended by one id extends the filtered list by that id unless
      it is the one removed. */
  lemma {:induction false} RemoveAppend(ids: seq<CoroutineId>, x: CoroutineId, co: CoroutineId)
    ensures Remove(ids + [x], co) == Remove(ids, co) + (if x == co then [] else [x])
    decreases |ids|
  {
    if ids == [] {
      assert [x][1..] == [];
    } else {
      var head := if ids[0] == co then [] else [ids[0]];
      var tail := if x == co then [] else [x];
      assert (ids + [x])[1..] == ids[1..] + [x];
      RemoveAppend(ids[1..], x, co);
      assert Remove(ids + [x], co) == head + (Remove(ids[1..], co) + tail);
      AppendAssoc(head, Remove(ids[1..], co), tail);
    }
  }

  /** The ids that are `co`, in order. */
  function Keep(ids: seq<CoroutineId>, co: CoroutineId): (r: seq<CoroutineId>)
    ensures forall x :: x in r <==> x in ids && x == co
  {
    if ids == [] then [] else (if ids[0] == co then [ids[0]] else []) + Keep(ids[1..], co)
  }

  /** What a pop of 100 ms on the debugger's signal channel gives: a value (the operator
      sent SIGINT) or a channel error; either way, `stoppedNow` is the waited-for
      coroutine's `stopped` flag when control comes back. */
  datatype Poll = Popped(stoppedNow: bool) | PollError(code: int, stoppedNow: bool)

  /** The coroutine runtime as the debugger drives it: the current snapshot, the
      snapshots that follow each resume or sleep in turn, the answers of the signal
      channel, and what the debugger did to it (resumes, kills, spawned runs).
      `resume()` runs the resumed coroutine until it gives control back; `comebacks`
      says, for each resume in turn, whether that happened because its statement
      handler broke at a statement (none left: it did not).
      `evaluate` answers `var_dump_return($coroutine->eval($expression, $index))`, and
      `evaluateDetached` the same for an expression run in a coroutine of its own. */
  class Scheduler {
    var rt: Runtime
    var script: seq<Runtime>
    var polls: seq<Poll>
    var comebacks: seq<bool>
    var resumed: seq<CoroutineId>
    var killed: seq<CoroutineId>
    var killedAll: nat
    var spawnedRuns: nat
    const evaluate: (CoroutineId, string, int) -> Result<string>
    const evaluateDetached: string -> Result<string>

    constructor (rt: Runtime, script: seq<Runtime>, polls: seq<Poll>, comebacks: seq<bool>,
                 evaluate: (CoroutineId, string, int) -> Result<string>, evaluateDetached: string -> Result<string>)
      ensures this.rt == rt && this.script == script && this.polls == polls && this.comebacks == comebacks
      ensures this.evaluate == evaluate && this.evaluateDetached == evaluateDetached
      ensures resumed == [] && killed == [] && killedAll == 0 && spawnedRuns == 0
    {
      this.rt := rt;
      this.script := script;
      this.polls := polls;
      this.comebacks := comebacks;
      this.evaluate := evaluate;
      this.evaluateDetached := evaluateDetached;
      resumed := [];
      killed := [];
      killedAll := 0;
      spawnedRuns := 0;
    }

    /** The snapshot after the next opaque step: the next scripted one, or the same. */
    function NextRuntime(): Runtime
      reads this
    {
      if script == [] then rt else script[0]
    }

    /** Other coroutines run while the debugger sleeps or waits. */
    method Advance()
      modifies this
      ensures rt == old(NextRuntime()) && script == (if old(script) == [] then [] else old(script)[1..])
      ensures polls == old(polls) && comebacks == old(comebacks) && resumed == old(resumed) && killed == old(killed)
      ensures killedAll == old(killedAll) && spawnedRuns == old(spawnedRuns)
    {
      if script != [] {
        rt := script[0];
        script := script[1..];
      }
    }

    /** Whether the coroutine resumed next breaks again before `resume()` returns. */
    function NextBroke(): bool
      reads this
    {
      comebacks != [] && comebacks[0]
    }

    /** `$coroutine->resume()`: recorded, then the runtime moves on; `broke` says
        whether the resumed coroutine's statement handler broke before control came
        back. */
    method Resume(co: CoroutineId) returns (broke: bool)
      modifies this
      ensures broke == old(NextBroke()) && comebacks == (if old(comebacks) == [] then [] else old(comebacks)[1..])
      ensures resumed == old(resumed) + [co]
      ensures rt == old(NextRuntime()) && script == (if old(script) == [] then [] else old(script)[1..])
      ensures polls == old(polls) && killed == old(killed) && killedAll == old(killedAll) && spawnedRuns == old(spawnedRuns)
    {
      broke := NextBroke();
      if comebacks != [] {
        comebacks := comebacks[1..];
      }
      resumed := resumed + [co];
      Advance();
    }

    /** `$coroutine->kill()`: the coroutine is gone from the runtime. */
    method Kill(co: CoroutineId)
      modifies this
      ensures killed == old(killed) + [co]
      ensures rt == old(rt).(coroutines := old(rt).coroutines - {co}, order := Remove(old(rt).order, co))
      ensures script == old(script) && polls == old(polls) && resumed == old(resumed)
      ensures killedAll == old(killedAll) && spawnedRuns == old(spawnedRuns)
    {
      killed := killed + [co];
      rt := rt.(coroutines := rt.coroutines - {co}, order := Remove(rt.order, co));
    }

    /** `Coroutine::killAll()`: only the calling coroutine is left. */
    method KillAll()
      modifies this
      ensures killedAll == old(killedAll) + 1
      ensures rt == old(rt).(coroutines := old(rt).coroutines - (old(rt).coroutines.Keys - {old(rt).current}),
        order := Keep(old(rt).order, old(rt).current))
      ensures script == old(script) && polls == old(polls) && resumed == old(resumed)
      ensures killed == old(killed) && spawnedRuns == old(spawnedRuns)
    {
      killedAll := killedAll + 1;
      rt := rt.(coroutines := rt.coroutines - (rt.coroutines.Keys - {rt.current}), order := Keep(rt.order, rt.current));
    }

    /** `Coroutine::run(...)` of the program runner. */
    method SpawnRun()
      modifies this
      ensures spawnedRuns == old(spawnedRuns) + 1
      ensures rt == old(rt) && script == old(script) && polls == old(polls) && resumed == old(resumed)
      ensures killed == old(killed) && killedAll == old(killedAll)
    {
      spawnedRuns := spawnedRuns + 1;
    }

    /** The channel answers `waitStoppedCoroutine` consumed are used up. */
    method ConsumePolls(n: nat)
      requires n <= |polls|
      modifies this
      ensures polls == old(polls)[n..] && comebacks == old(comebacks)
      ensures rt == old(rt) && script == old(script) && resumed == old(resumed)
      ensures killed == old(killed) && killedAll == old(killedAll) && spawnedRuns == old(spawnedRuns)
    {
      polls := polls[n..];
    }
  }

  /** `Coroutine::getTrace($level, $limit)`: the frames from `level` on, at most
      `limit` of them when `limit` is positive.  A negative level is read as 0. */
  function TraceSlice(trace: seq<Frame>, level: int, limit: nat): (r: seq<Frame>)
    ensures var from := if level < 0 then 0 else level;
      (from >= |trace| ==> r == []) &&
      (from < |trace| ==> 0 < |r| <= |trace| - from && r == trace[from..from + |r|]) &&
      (limit > 0 ==> |r| <= limit) &&
      (limit == 0 && from < |trace| ==> |r| == |trace| - from) &&
      (limit > 0 && from < |trace| ==> |r| == if |trace| - from < limit then |trace| - from else limit)
  {
    var from := if level < 0 then 0 else level;
    if from >= |trace| then []
    else if limit == 0 || |trace| - from <= limit then trace[from..]
    else trace[from..from + limit]
  }
}
