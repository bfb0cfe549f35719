/** The command handlers of the debugger and the dispatch of `executeCommand`. Each
    handler takes the debugger it works on; a raised exception is the `Raised`
    outcome, and every check that raises happens before anything changes unless the
    contract says otherwise. */
module Commands {
  import opened Wrappers
  import opened PhpStrings
  import opened Host
  import opened DebuggerHelper
  import opened DebugContexts
  import opened StaticGetters
  import opened DebuggerIo
  import opened Breakpoints
  import opened CommandContexts
  import opened CommandTable
  import opened SourceMaps
  import opened Debuggers

  /** The log grew by one table whose rows summarise `listed`. */
  twostate predicate WroteSummaries(io: DebuggerIo, new head: seq<Output>, new listed: seq<CoroutineId>)
    reads io
  {
    var n := |old(io.output)| + |head|;
    |io.output| == n + 1 && io.output[..n] == old(io.output) + head &&
    io.output[n].Formatted? && SummariesOf(io.output[n].t, listed) &&
    io.errors == old(io.errors) && io.input == old(io.input) && io.outputBuffer == old(io.outputBuffer)
  }

  /** Every debug context that existed is still there, the same object. */
  twostate predicate ContextsKept(d: Debugger)
    reads d.contexts
  {
    forall c :: c in old(d.contexts.contexts) ==> c in d.contexts.contexts && d.contexts.contexts[c] == old(d.contexts.contexts[c])
  }

  // ---------------------------------------------------------------- ps, backtrace

  /** `commandPs`: the summaries of every coroutine but the caller. */
  method Ps(d: Debugger) returns (r: Outcome)
    requires d.Valid()
    modifies d.contexts, d.diffCache, d.io
    ensures d.OnlyFreshAdded()
    ensures d.io.input == old(d.io.input)
    ensures d.Valid() && r == Done
    ensures WroteSummaries(d.io, [], Remove(d.env.rt.order, d.env.rt.current))
  {
    var shown := d.ShowCoroutines(d.env.rt.order);
    r := Done;
  }

  /** The second half of `commandBacktrace`: the cursor's trace and the source around
      its innermost frame. */
  method ShowCurrentSource(d: Debugger) returns (r: Outcome)
    requires d.Valid()
    modifies d, d.io, d.contexts, d.diffCache
    ensures d.OnlyFreshAdded()
    ensures d.Valid() && d.CursorKept() && ContextsKept(d) && d.currentCoroutine in d.contexts.contexts
    ensures r == SourceOutcome(d.env.rt.files, old(d.TraceOf(d.currentCoroutine)), 0)
    ensures d.io.Wrote(SourceView(d.env.rt.files, old(d.TraceOf(d.currentCoroutine)), 0, true))
  {
    var trace := d.CurrentCoroutineTrace();
    r := d.ShowSourceFileContentByTrace(trace, 0, true);
  }

  /** `commandBacktrace`: the summary and trace of the cursor's coroutine, then the
      source around its innermost frame. */
  method Backtrace(d: Debugger) returns (r: Outcome)
    requires d.Valid()
    modifies d, d.io, d.contexts, d.diffCache
    ensures d.OnlyFreshAdded()
    ensures d.io.input == old(d.io.input)
    ensures d.Valid() && d.CursorKept() && ContextsKept(d) && d.currentCoroutine in d.contexts.contexts
    ensures r == SourceOutcome(d.env.rt.files, old(d.TraceOf(d.currentCoroutine)), 0)
    ensures d.io.Wrote(BacktraceView(d.env.rt.files, d.sourceMap.handler, old(SimpleInfo(d.currentCoroutine, Info(d.env.rt, d.currentCoroutine),
      IsStopped(d.contexts.contexts, d.currentCoroutine), EmptyFrame, false)), old(d.TraceOf(d.currentCoroutine))))
  {
    ghost var trace := d.TraceOf(d.currentCoroutine);
    ghost var view := CoroutineView(SimpleInfo(d.currentCoroutine, Info(d.env.rt, d.currentCoroutine),
      IsStopped(d.contexts.contexts, d.currentCoroutine), EmptyFrame, false), trace, d.sourceMap.handler);
    ghost var before := d.io.output;
    var _ := d.ShowCoroutine(d.currentCoroutine);
    r := ShowCurrentSource(d);
    AppendAssoc(before, view, SourceView(d.env.rt.files, trace, 0, true));
  }

  /** What `commandBacktrace` prints for a coroutine with summary `info` and `trace`. */
  function BacktraceView(files: map<string, seq<string>>, handler: Option<SourceMapHandler>, info: Row, trace: seq<Frame>): seq<Output> {
    CoroutineView(info, trace, handler) + SourceView(files, trace, 0, true)
  }

  // ---------------------------------------------------------------- coroutine, attach

  /** The coroutine id argument as `_commandCoroutineOrAttach` reads it. */
  function IdArgument(context: CommandContext): string {
    context.GetArgument(0).GetOr("unknown")
  }

  /** The `attach` half of `_commandCoroutineOrAttach`: the statement handler is
      installed first; the caller may not attach to itself; otherwise `co` is asked to
      stop, which changes neither its summary nor its trace. */
  method Attach(d: Debugger, co: CoroutineId) returns (r: Outcome)
    requires d.Valid()
    modifies d.breakpoints, d.contexts, d.contexts.contexts.Values
    ensures d.OnlyFreshAdded()
    ensures d.Valid()
    ensures d.breakpoints.breakPointHandler.Some? && d.breakpoints.breakPoints == old(d.breakpoints.breakPoints)
    ensures co == d.env.rt.current ==>
      r == Raised(DebuggerException("Attach debugger is not allowed")) && d.contexts.contexts == old(d.contexts.contexts)
    ensures co != d.env.rt.current ==>
      r == Done && d.ContextsGrew(co) && d.contexts.contexts[co].stop &&
      IsStopped(d.contexts.contexts, co) == old(IsStopped(d.contexts.contexts, co))
    ensures forall c :: c in old(d.contexts.contexts) && c != co ==>
      d.contexts.contexts[c].stop == old(d.contexts.contexts[c].stop)
    ensures forall c :: c in old(d.contexts.contexts) ==>
      d.contexts.contexts[c].stopped == old(d.contexts.contexts[c].stopped)
  {
    d.breakpoints.CheckBreakPointHandler();
    if co == d.env.rt.current {
      return Raised(DebuggerException("Attach debugger is not allowed"));
    }
    var debugContext := d.contexts.Get(co);
    debugContext.stop := true;
    r := Done;
  }

  /** `setCurrentCoroutine` followed by `commandBacktrace`. */
  method SwitchTo(d: Debugger, co: CoroutineId) returns (r: Outcome)
    requires d.Valid()
    modifies d, d.io, d.contexts, d.diffCache
    ensures d.OnlyFreshAdded()
    ensures d.Valid() && d.currentCoroutine == co && d.currentFrameIndex == 0 && ContextsKept(d) && co in d.contexts.contexts
    ensures d.lastCommand == old(d.lastCommand) && d.daemon == old(d.daemon) && d.reloading == old(d.reloading)
    ensures d.lastTraceDepth == old(d.lastTraceDepth)
    ensures r == SourceOutcome(d.env.rt.files, old(d.TraceOf(co)), 0)
    ensures d.io.Wrote(BacktraceView(d.env.rt.files, d.sourceMap.handler,
      old(SimpleInfo(co, Info(d.env.rt, co), IsStopped(d.contexts.contexts, co), EmptyFrame, false)), old(d.TraceOf(co))))
  {
    d.SetCurrentCoroutine(co);
    r := Backtrace(d);
  }

  /** The part of `_commandCoroutineOrAttach` after the id is checked: `attach` first
      installs the statement handler, refuses the caller itself and asks `co` to stop;
      then the cursor moves to `co` and its backtrace is shown. */
  method FocusCoroutine(d: Debugger, co: CoroutineId, attach: bool) returns (r: Outcome)
    requires d.Valid()
    modifies d, d.io, d.contexts, d.contexts.contexts.Values, d.diffCache, d.breakpoints
    ensures d.OnlyFreshAdded()
    ensures d.Valid()
    ensures attach ==>
      d.breakpoints.breakPointHandler.Some? && d.breakpoints.breakPoints == old(d.breakpoints.breakPoints)
    ensures !attach ==> unchanged(d.breakpoints)
    ensures attach && co == d.env.rt.current ==>
      r == Raised(DebuggerException("Attach debugger is not allowed")) &&
      unchanged(d, d.io) && d.contexts.contexts == old(d.contexts.contexts)
    ensures !(attach && co == d.env.rt.current) ==>
      d.currentCoroutine == co && d.currentFrameIndex == 0 && co in d.contexts.contexts &&
      (attach ==> d.contexts.contexts[co].stop) &&
      r == SourceOutcome(d.env.rt.files, old(d.TraceOf(co)), 0) &&
      d.io.Wrote(BacktraceView(d.env.rt.files, d.sourceMap.handler,
        old(SimpleInfo(co, Info(d.env.rt, co), IsStopped(d.contexts.contexts, co), EmptyFrame, false)), old(d.TraceOf(co))))
  {
    if attach {
      r := AttachAndSwitch(d, co);
    } else {
      r := SwitchTo(d, co);
    }
  }

  /** The `attach` branch of `FocusCoroutine`. */
  method AttachAndSwitch(d: Debugger, co: CoroutineId) returns (r: Outcome)
    requires d.Valid()
    modifies d, d.io, d.contexts, d.contexts.contexts.Values, d.diffCache, d.breakpoints
    ensures d.OnlyFreshAdded()
    ensures d.Valid()
    ensures d.breakpoints.breakPointHandler.Some? && d.breakpoints.breakPoints == old(d.breakpoints.breakPoints)
    ensures co == d.env.rt.current ==>
      r == Raised(DebuggerException("Attach debugger is not allowed")) &&
      unchanged(d, d.io) && d.contexts.contexts == old(d.contexts.contexts)
    ensures co != d.env.rt.current ==>
      d.currentCoroutine == co && d.currentFrameIndex == 0 && co in d.contexts.contexts && d.contexts.contexts[co].stop &&
      r == SourceOutcome(d.env.rt.files, old(d.TraceOf(co)), 0) &&
      d.io.Wrote(BacktraceView(d.env.rt.files, d.sourceMap.handler,
        old(SimpleInfo(co, Info(d.env.rt, co), IsStopped(d.contexts.contexts, co), EmptyFrame, false)), old(d.TraceOf(co))))
  {
    ghost var trace := d.TraceOf(co);
    ghost var info := SimpleInfo(co, Info(d.env.rt, co), IsStopped(d.contexts.contexts, co), EmptyFrame, false);
    r := Attach(d, co);
    if r.Raised? {
      return;
    }
    assert d.TraceOf(co) == trace;
    assert SimpleInfo(co, Info(d.env.rt, co), IsStopped(d.contexts.contexts, co), EmptyFrame, false) == info;
    r := SwitchTo(d, co);
  }

  /** `_commandCoroutineOrAttach`: the id argument must be numeric and name a live
      coroutine; the command it serves decides whether to attach. */
  method CoroutineOrAttach(d: Debugger, context: CommandContext) returns (r: Outcome)
    requires d.Valid()
    modifies d, d.io, d.contexts, d.contexts.contexts.Values, d.diffCache, d.breakpoints
    ensures d.OnlyFreshAdded()
    ensures d.io.input == old(d.io.input)
    ensures d.Valid()
    ensures var id := IdArgument(context);
      !IsNumeric(id) ==>
        r == Raised(DebuggerException("Argument[1]: Coroutine id must be numeric")) &&
        unchanged(d, d.io, d.breakpoints) && d.contexts.contexts == old(d.contexts.contexts)
    ensures var id := IdArgument(context);
      IsNumeric(id) && ToInt(id) !in d.env.rt.coroutines ==>
        r == Raised(DebuggerException("Coroutine#" + id + " Not found")) &&
        unchanged(d, d.io, d.breakpoints) && d.contexts.contexts == old(d.contexts.contexts)
    ensures var id := IdArgument(context);
      var co := ToInt(id);
      var attach := context.command == "attach";
      IsNumeric(id) && co in d.env.rt.coroutines ==>
        (attach ==> d.breakpoints.breakPointHandler.Some? && d.breakpoints.breakPoints == old(d.breakpoints.breakPoints)) &&
        (attach && co == d.env.rt.current ==>
          r == Raised(DebuggerException("Attach debugger is not allowed")) &&
          unchanged(d, d.io) && d.contexts.contexts == old(d.contexts.contexts)) &&
        (!(attach && co == d.env.rt.current) ==>
          d.currentCoroutine == co && d.currentFrameIndex == 0 && co in d.contexts.contexts &&
          (attach ==> d.contexts.contexts[co].stop) &&
          r == SourceOutcome(d.env.rt.files, old(d.TraceOf(co)), 0) &&
          d.io.Wrote(BacktraceView(d.env.rt.files, d.sourceMap.handler,
            old(SimpleInfo(co, Info(d.env.rt, co), IsStopped(d.contexts.contexts, co), EmptyFrame, false)), old(d.TraceOf(co)))))
  {
    var id := IdArgument(context);
    if !IsNumeric(id) {
      return Raised(DebuggerException("Argument[1]: Coroutine id must be numeric"));
    }
    var co := ToInt(id);
    if co !in d.env.rt.coroutines {
      return Raised(DebuggerException("Coroutine#" + id + " Not found"));
    }
    r := FocusCoroutine(d, co, context.GetCommand() == "attach");
  }

  // ---------------------------------------------------------------- frame

  /** What `commandFrame` prints before the trace: the switch notice when the index
      changes, even when it is then refused. */
  function SwitchNotice(current: int, index: int): seq<Output> {
    if current != index then [Text("Switch to frame " + IntToString(index))] else []
  }

  /** How `commandFrame` ends once the index is accepted: the trace table must have a
      row for the frame, then its source is shown. */
  function FrameOutcome(files: map<string, seq<string>>, trace: seq<Frame>, index: int): Outcome {
    if TraceRows(trace, Some(index)) == [] then Raised(DebuggerException("No trace info"))
    else SourceOutcome(files, trace, index)
  }

  /** What `commandFrame` prints for an accepted index: the frame's trace row and,
      when there is one, the source around it. */
  function FrameView(files: map<string, seq<string>>, handler: Option<SourceMapHandler>, trace: seq<Frame>, index: int): seq<Output> {
    var rows := TraceRows(trace, Some(index));
    if rows == [] then [] else [Formatted(MapPositions(rows, handler))] + SourceView(files, trace, index, true)
  }

  /** `commandFrame`: select a frame of the cursor's coroutine and show it with its
      source. */
  method Frame(d: Debugger, context: CommandContext) returns (r: Outcome)
    requires d.Valid()
    modifies d, d.io, d.contexts, d.diffCache
    ensures d.OnlyFreshAdded()
    ensures d.io.input == old(d.io.input)
    ensures d.Valid() && ContextsKept(d)
    ensures d.currentCoroutine == old(d.currentCoroutine) && d.lastTraceDepth == old(d.lastTraceDepth)
    ensures d.lastCommand == old(d.lastCommand) && d.daemon == old(d.daemon) && d.reloading == old(d.reloading)
    ensures var arg := context.GetArgument(0);
      (arg.None? || !IsNumeric(arg.value)) ==>
        r == Raised(DebuggerException("Frame index must be numeric")) && unchanged(d, d.io) &&
        d.contexts.contexts == old(d.contexts.contexts)
    ensures var arg := context.GetArgument(0);
      arg.Some? && IsNumeric(arg.value) ==>
        var index := ToInt(arg.value);
        var trace := old(d.TraceOf(d.currentCoroutine));
        var notice := SwitchNotice(old(d.currentFrameIndex), index);
        (|trace| < index ==>
          r == Raised(DebuggerException("Invalid frame index")) && d.currentFrameIndex == old(d.currentFrameIndex) &&
          d.io.Wrote(notice)) &&
        (|trace| >= index ==>
          d.currentFrameIndex == index && r == FrameOutcome(d.env.rt.files, trace, index) &&
          d.io.Wrote(notice + FrameView(d.env.rt.files, d.sourceMap.handler, trace, index)))
  {
    var frameIndex := context.GetArgument(0);
    if frameIndex.None? || !IsNumeric(frameIndex.value) {
      return Raised(DebuggerException("Frame index must be numeric"));
    }
    r := SwitchFrame(d, ToInt(frameIndex.value), d.TraceOf(d.currentCoroutine));
  }

  /** `commandFrame` once the index is numeric: the notice, then the index is set and
      the frame shown. */
  method SwitchFrame(d: Debugger, index: int, ghost trace: seq<Frame>) returns (r: Outcome)
    requires d.Valid() && trace == d.TraceOf(d.currentCoroutine)
    modifies d, d.io, d.contexts, d.diffCache
    ensures d.OnlyFreshAdded()
    ensures d.Valid() && ContextsKept(d) && d.TraceOf(d.currentCoroutine) == trace
    ensures d.currentCoroutine == old(d.currentCoroutine) && d.lastTraceDepth == old(d.lastTraceDepth)
    ensures d.lastCommand == old(d.lastCommand) && d.daemon == old(d.daemon) && d.reloading == old(d.reloading)
    ensures var notice := SwitchNotice(old(d.currentFrameIndex), index);
      (|trace| < index ==>
        r == Raised(DebuggerException("Invalid frame index")) && d.currentFrameIndex == old(d.currentFrameIndex) &&
        d.io.Wrote(notice)) &&
      (|trace| >= index ==>
        d.currentFrameIndex == index && r == FrameOutcome(d.env.rt.files, trace, index) &&
        d.io.Wrote(notice + FrameView(d.env.rt.files, d.sourceMap.handler, trace, index)))
  {
    ghost var before := d.io.output;
    ghost var notice := SwitchNotice(d.currentFrameIndex, index);
    AnnounceSwitch(d.io, d.currentFrameIndex, index);
    r := FrameAt(d, index, trace);
    AppendAssoc(before, notice, FrameView(d.env.rt.files, d.sourceMap.handler, trace, index));
  }

  /** The notice `commandFrame` prints when the index changes. */
  method AnnounceSwitch(io: DebuggerIo, current: int, index: int)
    modifies io
    ensures io.Wrote(SwitchNotice(current, index))
  {
    if current != index {
      io.Out(Text("Switch to frame " + IntToString(index)));
    }
  }

  /** `setCurrentFrameIndex`, then the trace row and source of the frame selected. */
  method FrameAt(d: Debugger, index: int, ghost trace: seq<Frame>) returns (r: Outcome)
    requires d.Valid() && trace == d.TraceOf(d.currentCoroutine)
    modifies d, d.io, d.contexts, d.diffCache
    ensures d.OnlyFreshAdded()
    ensures d.Valid() && ContextsKept(d) && d.TraceOf(d.currentCoroutine) == trace
    ensures d.currentCoroutine == old(d.currentCoroutine) && d.lastTraceDepth == old(d.lastTraceDepth)
    ensures d.lastCommand == old(d.lastCommand) && d.daemon == old(d.daemon) && d.reloading == old(d.reloading)
    ensures |trace| < index ==>
      r == Raised(DebuggerException("Invalid frame index")) && d.currentFrameIndex == old(d.currentFrameIndex) &&
      d.io.Wrote([])
    ensures |trace| >= index ==>
      d.currentFrameIndex == index && r == FrameOutcome(d.env.rt.files, trace, index) &&
      d.io.Wrote(FrameView(d.env.rt.files, d.sourceMap.handler, trace, index))
  {
    r := d.SetCurrentFrameIndex(index);
    if r.Raised? {
      return;
    }
    r := ShowCurrentFrame(d, index, trace);
  }

  /** `getCurrentCoroutineTrace` again, then the frame at `index` of it. */
  method ShowCurrentFrame(d: Debugger, index: int, ghost trace: seq<Frame>) returns (r: Outcome)
    requires d.Valid() && trace == d.TraceOf(d.currentCoroutine)
    modifies d, d.io, d.contexts, d.diffCache
    ensures d.OnlyFreshAdded()
    ensures d.Valid() && ContextsKept(d) && d.TraceOf(d.currentCoroutine) == trace && d.CursorKept()
    ensures r == FrameOutcome(d.env.rt.files, trace, index)
    ensures d.io.Wrote(FrameView(d.env.rt.files, d.sourceMap.handler, trace, index))
  {
    var current := d.CurrentCoroutineTrace();
    r := ShowFrame(d, current, index);
  }

  /** The tail of `commandFrame`: the selected frame's trace row, then its source. */
  method ShowFrame(d: Debugger, trace: seq<Frame>, index: int) returns (r: Outcome)
    requires d.Valid()
    modifies d, d.io
    ensures d.OnlyFreshAdded()
    ensures d.Valid() && d.CursorKept()
    ensures r == FrameOutcome(d.env.rt.files, trace, index)
    ensures d.io.Wrote(FrameView(d.env.rt.files, d.sourceMap.handler, trace, index))
  {
    ghost var before := d.io.output;
    r := d.ShowTrace(trace, Some(index));
    if r.Raised? {
      return;
    }
    ghost var rows := d.io.output[|before|..];
    r := d.ShowSourceFileContentByTrace(trace, index, true);
    AppendAssoc(before, rows, SourceView(d.env.rt.files, trace, index, true));
  }

  // ---------------------------------------------------------------- breakpoint

  /** `commandBreakPoint`: a non-empty pattern is added, and announced, only while the
      cursor is on the caller's own coroutine; otherwise nothing happens. */
  method BreakPoint(d: Debugger, context: CommandContext) returns (r: Outcome)
    requires d.Valid()
    modifies d.io, d.breakpoints
    ensures d.OnlyFreshAdded()
    ensures d.io.input == old(d.io.input)
    ensures d.Valid()
    ensures var point := context.GetArgument(0).GetOr("");
      point == "" ==>
        r == Raised(DebuggerException("Invalid break point")) && unchanged(d.io, d.breakpoints)
    ensures var point := context.GetArgument(0).GetOr("");
      point != "" && d.currentCoroutine == d.env.rt.current ==>
        r == Done && d.io.Wrote([Text("Added global break-point <" + point + ">")]) &&
        d.breakpoints.breakPoints == old(d.breakpoints.breakPoints) + [point] && d.breakpoints.breakPointHandler.Some?
    ensures var point := context.GetArgument(0).GetOr("");
      point != "" && d.currentCoroutine != d.env.rt.current ==>
        r == Done && unchanged(d.io, d.breakpoints)
  {
    var point := context.GetArgument(0).GetOr("");
    if point == "" {
      return Raised(DebuggerException("Invalid break point"));
    }
    if d.currentCoroutine == d.env.rt.current {
      d.io.Out(Text("Added global break-point <" + point + ">"));
      d.breakpoints.AddBreakPoint(point);
    }
    r := Done;
  }

  // ---------------------------------------------------------------- next, step, continue

  /** The depth `next` records before resuming: the coroutine's trace depth less its
      cached `nextCommand` diff level. */
  function NextDepth(rt: Runtime, cache: map<string, int>, co: CoroutineId): int {
    Info(rt, co).traceDepth - CachedDiffLevel(cache, NextCommandKey, rt, co)
  }

  /** The polls left once the cursor's coroutine is known to be parked. */
  function PollsAfterEnsure(stopped: bool, polls: seq<Poll>): seq<Poll> {
    if stopped then polls
    else var w := WaitLoop(polls); if w.1 <= |polls| then polls[w.1..] else []
  }

  /** The guard of `_commandDebugging`: a parked coroutine passes; one asked to stop is
      waited for; any other is not being debugged. */
  method EnsureStopped(d: Debugger, co: CoroutineId) returns (r: Outcome)
    requires d.Valid()
    modifies d.contexts, d.contexts.contexts.Values, d.env
    ensures d.OnlyFreshAdded()
    ensures d.Valid() && ContextsKept(d) && co in d.contexts.contexts
    ensures fresh(d.contexts.contexts.Values - old(d.contexts.contexts.Values))
    ensures d.env.rt == old(d.env.rt) && d.env.script == old(d.env.script) && d.env.resumed == old(d.env.resumed)
    ensures d.env.comebacks == old(d.env.comebacks) && d.contexts.contexts[co].stop == old(StopArmed(d.contexts.contexts, co))
    ensures d.HitAfterResume(co) == old(d.HitAfterResume(co)) && d.ParksOnResume(co) == old(d.ParksOnResume(co))
    ensures old(IsStopped(d.contexts.contexts, co)) ==> r == Done && d.env.polls == old(d.env.polls)
    ensures !old(IsStopped(d.contexts.contexts, co)) && !old(StopArmed(d.contexts.contexts, co)) ==>
      r == Raised(DebuggerException("Not in debugging")) && d.env.polls == old(d.env.polls)
    ensures !old(IsStopped(d.contexts.contexts, co)) && old(StopArmed(d.contexts.contexts, co)) ==>
      r == WaitResult(WaitLoop(old(d.env.polls)).0)
    ensures old(IsStopped(d.contexts.contexts, co)) || old(StopArmed(d.contexts.contexts, co)) ==>
      d.env.polls == PollsAfterEnsure(old(IsStopped(d.contexts.contexts, co)), old(d.env.polls))
    ensures r == Done ==> d.contexts.contexts[co].stopped
    ensures forall c :: c in old(d.contexts.contexts) && c != co ==>
      d.contexts.contexts[c].stop == old(d.contexts.contexts[c].stop) &&
      d.contexts.contexts[c].stopped == old(d.contexts.contexts[c].stopped)
  {
    var context := d.contexts.Get(co);
    if context.stopped {
      return Done;
    }
    if !context.stop {
      return Raised(DebuggerException("Not in debugging"));
    }
    WaitLoopStops(d.env.polls, WaitLoop(d.env.polls).1);
    r := d.WaitStopped(co);
  }

  /** `next` and `step` on a parked coroutine: `next` records the depth to stop at, the
      coroutine is resumed and waited for (at once when it broke again inside the
      resume), the depth limit is lifted and frame 0 is shown with the trace the
      coroutine now has. */
  method StepOnce(d: Debugger, co: CoroutineId, isNext: bool) returns (r: Outcome, ghost parks: bool, ghost resumeOutput: seq<Output>)
    requires d.Valid() && co == d.currentCoroutine && co in d.contexts.contexts
    modifies d, d.io, d.contexts, d.contexts.contexts.Values, d.diffCache, d.env
    ensures d.OnlyFreshAdded()
    ensures d.Valid() && d.currentCoroutine == co
    ensures d.env.resumed == old(d.env.resumed) + [co]
    ensures parks == old(d.ParksOnResume(co)) && resumeOutput == old(d.ResumeOutput(co))
    ensures var w := Wait(parks, old(d.env.polls));
      w.0 != Stopped ==>
        r == WaitResult(w.0) && d.io.Wrote([]) &&
        d.lastTraceDepth == (if isNext then old(NextDepth(d.env.rt, d.diffCache.cache, co)) else old(d.lastTraceDepth))
    ensures var w := Wait(parks, old(d.env.polls));
      w.0 == Stopped ==>
        d.lastTraceDepth == PhpIntMax && d.currentFrameIndex == 0 &&
        r == FrameOutcome(d.env.rt.files, d.TraceOf(co), 0) &&
        d.io.Wrote(resumeOutput + (SwitchNotice(old(d.currentFrameIndex), 0) +
          FrameView(d.env.rt.files, d.sourceMap.handler, d.TraceOf(co), 0)))
  {
    ghost var polls := d.env.polls;
    ghost var frameIndex := d.currentFrameIndex;
    ghost var start := d.io.output;
    r, parks, resumeOutput := ResumeAndWait(d, co, isNext);
    assert r == Done <==> Wait(parks, polls).0 == Stopped;
    if r != Done {
      return;
    }
    r := ShowStepped(d, co, start, resumeOutput, frameIndex);
  }

  /** The tail of `next` and `step` once the coroutine stopped again: the depth limit
      is lifted and frame 0 of its new trace is shown. */
  method ShowStepped(d: Debugger, co: CoroutineId, ghost start: seq<Output>, ghost earlier: seq<Output>, ghost frameIndex: int) returns (r: Outcome)
    requires d.Valid() && co == d.currentCoroutine
    requires d.io.output == start + earlier && d.currentFrameIndex == frameIndex
    modifies d, d.io, d.contexts, d.diffCache
    ensures d.OnlyFreshAdded()
    ensures d.Valid() && d.currentCoroutine == co
    ensures d.lastTraceDepth == PhpIntMax && d.currentFrameIndex == 0
    ensures r == FrameOutcome(d.env.rt.files, d.TraceOf(co), 0)
    ensures d.io.output == start + (earlier + (SwitchNotice(frameIndex, 0) + FrameView(d.env.rt.files, d.sourceMap.handler, d.TraceOf(co), 0)))
    ensures d.io.errors == old(d.io.errors) && d.io.input == old(d.io.input) && d.io.outputBuffer == old(d.io.outputBuffer)
  {
    d.lastTraceDepth := PhpIntMax;
    ghost var trace := d.TraceOf(co);
    r := SwitchFrame(d, 0, trace);
    AppendAssoc(start, earlier, SwitchNotice(frameIndex, 0) + FrameView(d.env.rt.files, d.sourceMap.handler, trace, 0));
  }

  /** The resume of `next` and `step`: `next` first records the depth to stop at. */
  method ResumeStep(d: Debugger, co: CoroutineId, isNext: bool) returns (ghost parks: bool, ghost resumeOutput: seq<Output>)
    requires d.Valid() && co == d.currentCoroutine && co in d.contexts.contexts
    modifies d, d.io, d.contexts.contexts[co], d.diffCache, d.env
    ensures d.Valid() && d.currentCoroutine == co && d.currentFrameIndex == old(d.currentFrameIndex)
    ensures d.currentSourceFile == old(d.currentSourceFile)
    ensures d.env.resumed == old(d.env.resumed) + [co] && d.env.polls == old(d.env.polls)
    ensures parks == old(d.ParksOnResume(co)) && resumeOutput == old(d.ResumeOutput(co))
    ensures IsStopped(d.contexts.contexts, co) == parks
    ensures d.io.Wrote(resumeOutput)
    ensures d.lastTraceDepth == (if isNext then old(NextDepth(d.env.rt, d.diffCache.cache, co)) else old(d.lastTraceDepth))
  {
    parks := d.ParksOnResume(co);
    resumeOutput := d.ResumeOutput(co);
    if isNext {
      var diff := d.diffCache.GetCoroutineTraceDiffLevel(d.env.rt, co, NextCommandKey);
      d.lastTraceDepth := Info(d.env.rt, co).traceDepth - diff;
    }
    d.ResumeParked(co);
  }

  /** The resume-and-wait half of `next` and `step`. */
  method ResumeAndWait(d: Debugger, co: CoroutineId, isNext: bool) returns (r: Outcome, ghost parks: bool, ghost resumeOutput: seq<Output>)
    requires d.Valid() && co == d.currentCoroutine && co in d.contexts.contexts
    modifies d, d.io, d.contexts, d.contexts.contexts.Values, d.diffCache, d.env
    ensures d.OnlyFreshAdded()
    ensures d.Valid() && d.currentCoroutine == co && d.currentFrameIndex == old(d.currentFrameIndex)
    ensures d.env.resumed == old(d.env.resumed) + [co]
    ensures parks == old(d.ParksOnResume(co)) && resumeOutput == old(d.ResumeOutput(co))
    ensures r == WaitResult(Wait(parks, old(d.env.polls)).0)
    ensures d.io.Wrote(resumeOutput)
    ensures r != Done ==> d.io.Wrote([])
    ensures d.lastTraceDepth == (if isNext then old(NextDepth(d.env.rt, d.diffCache.cache, co)) else old(d.lastTraceDepth))
  {
    parks, resumeOutput := ResumeStep(d, co, isNext);
    r := d.WaitStopped(co);
  }

  /** `continue`: the coroutine is no longer asked to stop, the notice is printed and
      it is resumed; it is parked again, and asked to stop, only when a break point
      hit it inside the resume. */
  method ContinueRun(d: Debugger, co: CoroutineId) returns (r: Outcome)
    requires d.Valid() && co in d.contexts.contexts
    modifies d.contexts.contexts[co], d.io, d.env
    ensures d.OnlyFreshAdded()
    ensures d.Valid() && r == Done
    ensures var hit := old(d.HitAfterResume(co));
      var parked := old(d.env.NextBroke()) && hit.Some?;
      d.contexts.contexts[co].stop == parked && d.contexts.contexts[co].stopped == parked &&
      d.io.Wrote([Text("Coroutine#" + IntToString(co) + " continue to run...")] +
        (if parked then [Text(HitMessage(hit.value, co))] else []))
    ensures d.env.resumed == old(d.env.resumed) + [co] && d.env.rt == old(d.env.NextRuntime())
  {
    var context := d.contexts.contexts[co];
    context.stop := false;
    d.io.Out(Text("Coroutine#" + IntToString(co) + " continue to run..."));
    d.ResumeParked(co);
    r := Done;
  }

  /** The switch of `_commandDebugging`, once the cursor's coroutine is parked. */
  method DebugParked(d: Debugger, command: string, co: CoroutineId) returns (r: Outcome)
    requires d.Valid() && co == d.currentCoroutine && co in d.contexts.contexts
    modifies d, d.io, d.contexts, d.contexts.contexts.Values, d.diffCache, d.env
    ensures d.OnlyFreshAdded()
    ensures d.io.input == old(d.io.input)
    ensures d.Valid() && d.currentCoroutine == co
    ensures command !in {"next", "step", "continue"} ==>
      r == Raised(EngineError("Never here")) && unchanged(d, d.io) && d.env.resumed == old(d.env.resumed)
    ensures command == "continue" ==>
      var hit := old(d.HitAfterResume(co));
      var parked := old(d.env.NextBroke()) && hit.Some?;
      r == Done && co in d.contexts.contexts &&
      d.contexts.contexts[co].stop == parked && d.contexts.contexts[co].stopped == parked &&
      d.io.Wrote([Text("Coroutine#" + IntToString(co) + " continue to run...")] +
        (if parked then [Text(HitMessage(hit.value, co))] else [])) &&
      d.env.resumed == old(d.env.resumed) + [co]
    ensures command in {"next", "step"} ==>
      var w := Wait(old(d.ParksOnResume(co)), old(d.env.polls));
      d.env.resumed == old(d.env.resumed) + [co] &&
      (w.0 != Stopped ==> r == WaitResult(w.0)) &&
      (w.0 == Stopped ==>
        d.lastTraceDepth == PhpIntMax && d.currentFrameIndex == 0 && r == FrameOutcome(d.env.rt.files, d.TraceOf(co), 0))
  {
    if command == "next" || command == "step" {
      ghost var parks, resumeOutput;
      r, parks, resumeOutput := StepOnce(d, co, command == "next");
    } else if command == "continue" {
      r := ContinueRun(d, co);
    } else {
      r := Raised(EngineError("Never here"));
    }
  }

  /** `_commandDebugging`, which `next`, `step` and `continue` share; its switch has no
      other case, so any other command is an engine error. */
  method Debugging(d: Debugger, context: CommandContext) returns (r: Outcome)
    requires d.Valid()
    modifies d, d.io, d.contexts, d.contexts.contexts.Values, d.diffCache, d.env
    ensures d.OnlyFreshAdded()
    ensures d.io.input == old(d.io.input)
    ensures d.Valid() && d.currentCoroutine == old(d.currentCoroutine)
    ensures var co := old(d.currentCoroutine);
      !old(IsStopped(d.contexts.contexts, co)) && !old(StopArmed(d.contexts.contexts, co)) ==>
        r == Raised(DebuggerException("Not in debugging")) && unchanged(d, d.io) && d.env.resumed == old(d.env.resumed)
    ensures var co := old(d.currentCoroutine);
      var w := WaitLoop(old(d.env.polls));
      !old(IsStopped(d.contexts.contexts, co)) && old(StopArmed(d.contexts.contexts, co)) && w.0 != Stopped ==>
        r == WaitResult(w.0) && unchanged(d, d.io) && d.env.resumed == old(d.env.resumed)
    ensures var co := old(d.currentCoroutine);
      var w := WaitLoop(old(d.env.polls));
      var ready := old(IsStopped(d.contexts.contexts, co)) || (old(StopArmed(d.contexts.contexts, co)) && w.0 == Stopped);
      var command := context.command;
      ready ==>
        (command !in {"next", "step", "continue"} ==>
          r == Raised(EngineError("Never here")) && unchanged(d, d.io) && d.env.resumed == old(d.env.resumed)) &&
        (command == "continue" ==>
          var hit := old(d.HitAfterResume(co));
          var parked := old(d.env.NextBroke()) && hit.Some?;
          r == Done && co in d.contexts.contexts &&
          d.contexts.contexts[co].stop == parked && d.contexts.contexts[co].stopped == parked &&
          d.io.Wrote([Text("Coroutine#" + IntToString(co) + " continue to run...")] +
            (if parked then [Text(HitMessage(hit.value, co))] else [])) &&
          d.env.resumed == old(d.env.resumed) + [co]) &&
        (command in {"next", "step"} ==>
          var polls := PollsAfterEnsure(old(IsStopped(d.contexts.contexts, co)), old(d.env.polls));
          var w := Wait(old(d.ParksOnResume(co)), polls);
          d.env.resumed == old(d.env.resumed) + [co] &&
          (w.0 != Stopped ==> r == WaitResult(w.0)) &&
          (w.0 == Stopped ==>
            d.lastTraceDepth == PhpIntMax && d.currentFrameIndex == 0 && r == FrameOutcome(d.env.rt.files, d.TraceOf(co), 0)))
  {
    var command := context.GetCommand();
    var co := d.currentCoroutine;
    r := EnsureStopped(d, co);
    if r != Done {
      return;
    }
    r := DebugParked(d, command, co);
  }

  // ---------------------------------------------------------------- list

  /** The line count `commandList` asks for: the default without an argument. */
  function ListCount(arg: Option<string>): int
    requires arg.None? || IsNumeric(arg.value)
  {
    if arg.None? then SourceFileDefaultLineCount else ToInt(arg.value)
  }

  /** `commandList`: the following lines of the selected file. */
  method List(d: Debugger, context: CommandContext) returns (r: Outcome)
    requires d.Valid()
    modifies d, d.io, if d.currentSourceFile.Some? then {d.currentSourceFile.value} else {}
    ensures d.OnlyFreshAdded()
    ensures d.io.input == old(d.io.input)
    ensures d.Valid() && d.CursorKept() && d.currentSourceFile == old(d.currentSourceFile)
    ensures var arg := context.GetArgument(0);
      arg.Some? && !IsNumeric(arg.value) ==>
        r == Raised(DebuggerException("Argument[1]: line no must be numeric")) && unchanged(d, d.io)
    ensures var arg := context.GetArgument(0);
      (arg.None? || IsNumeric(arg.value)) && old(d.currentSourceFile).None? ==>
        r == Raised(DebuggerException("No source file was selected")) && d.io.Wrote([]) &&
        d.currentSourceFileLine == old(d.currentSourceFileLine)
    ensures var arg := context.GetArgument(0);
      (arg.None? || IsNumeric(arg.value)) && old(d.currentSourceFile).Some? ==>
        var file := d.currentSourceFile.value;
        var line := old(d.currentSourceFileLine);
        var count := ListCount(arg);
        var contents := NumberedRows(file.lines, old(file.pos), line + SourceFileContentPadding + 1,
          line + SourceFileContentPadding + count, None);
        r == Done && file.pos == old(file.pos) + |contents| &&
        d.io.Wrote([Formatted(SourceTable(contents))]) && d.currentSourceFileLine == line + count - 1
  {
    var lineCount := context.GetArgument(0);
    if lineCount.None? {
      r := d.ShowFollowingSourceFileContent(SourceFileDefaultLineCount);
    } else if IsNumeric(lineCount.value) {
      r := d.ShowFollowingSourceFileContent(ToInt(lineCount.value));
    } else {
      r := Raised(DebuggerException("Argument[1]: line no must be numeric"));
    }
  }

  // ---------------------------------------------------------------- print, exec, vars

  /** The frame index `getCurrentFrameIndexExtendedForExecution` gives in a state. */
  function ExecutionIndex(frameIndex: int, stopped: bool, cache: map<string, int>, rt: Runtime, co: CoroutineId): int {
    frameIndex + ExecutionLevel(stopped, CachedDiffLevel(cache, TraceLevelKey, rt, co))
  }

  /** How an evaluation ends: its rendering is printed, or what it threw is raised. */
  function EvaluationView(result: Result<string>): seq<Output> {
    if result.Ok? then [Text(result.value)] else []
  }

  function EvaluationOutcome(result: Result<string>): Outcome {
    if result.Ok? then Done else Raised(result.error)
  }

  /** Evaluates `expression` in the cursor's coroutine at its extended frame index and
      prints the rendering. */
  method EvaluateAtCursor(d: Debugger, expression: string) returns (r: Outcome)
    requires d.Valid()
    modifies d.io, d.contexts, d.diffCache
    ensures d.OnlyFreshAdded()
    ensures d.Valid() && ContextsKept(d)
    ensures var result := d.env.evaluate(d.currentCoroutine, expression,
      old(ExecutionIndex(d.currentFrameIndex, IsStopped(d.contexts.contexts, d.currentCoroutine), d.diffCache.cache, d.env.rt, d.currentCoroutine)));
      r == EvaluationOutcome(result) && d.io.Wrote(EvaluationView(result))
  {
    var index := d.CurrentFrameIndexExtendedForExecution();
    var result := d.env.evaluate(d.currentCoroutine, expression, index);
    if result.Fail? {
      return Raised(result.error);
    }
    d.io.Out(Text(result.value));
    r := Done;
  }

  /** `commandPrint`: the arguments joined by spaces are evaluated in the cursor's
      coroutine; an expression PHP counts as empty (`''` or `'0'`) is refused. */
  method Print(d: Debugger, context: CommandContext) returns (r: Outcome)
    requires d.Valid()
    modifies d.io, d.contexts, d.diffCache
    ensures d.OnlyFreshAdded()
    ensures d.io.input == old(d.io.input)
    ensures d.Valid() && ContextsKept(d)
    ensures var expression := Implode(" ", context.arguments);
      PhpEmpty(expression) ==> r == Raised(DebuggerException("No expression")) && unchanged(d.io)
    ensures var expression := Implode(" ", context.arguments);
      var result := d.env.evaluate(d.currentCoroutine, expression,
        old(ExecutionIndex(d.currentFrameIndex, IsStopped(d.contexts.contexts, d.currentCoroutine), d.diffCache.cache, d.env.rt, d.currentCoroutine)));
      !PhpEmpty(expression) ==> r == EvaluationOutcome(result) && d.io.Wrote(EvaluationView(result))
  {
    var expression := Implode(" ", context.GetArguments());
    if PhpEmpty(expression) {
      return Raised(DebuggerException("No expression"));
    }
    r := EvaluateAtCursor(d, expression);
  }

  /** `commandExec`: the expression runs in a coroutine of its own and its rendering
      comes back over a channel; when the evaluation throws, nothing is pushed and the
      pop never returns. */
  method Exec(d: Debugger, context: CommandContext) returns (r: Outcome)
    requires d.Valid()
    modifies d.io, d.env
    ensures d.OnlyFreshAdded()
    ensures d.io.input == old(d.io.input)
    ensures d.Valid()
    ensures var expression := Implode(" ", context.arguments);
      PhpEmpty(expression) ==> r == Raised(DebuggerException("No expression")) && unchanged(d.io, d.env)
    ensures var expression := Implode(" ", context.arguments);
      var result := d.env.evaluateDetached(expression);
      !PhpEmpty(expression) ==>
        d.env.spawnedRuns == old(d.env.spawnedRuns) + 1 && d.env.rt == old(d.env.rt) &&
        (result.Ok? ==> r == Done && d.io.Wrote([Text(result.value)])) &&
        (result.Fail? ==> r == Pending && d.io.Wrote([]))
  {
    var expression := Implode(" ", context.GetArguments());
    if PhpEmpty(expression) {
      return Raised(DebuggerException("No expression"));
    }
    d.env.SpawnRun();
    var transfer := d.env.evaluateDetached(expression);
    if transfer.Fail? {
      return Pending;
    }
    d.io.Out(Text(transfer.value));
    r := Done;
  }

  /** `commandVars`: the defined variables, read by evaluating `get_defined_vars()`. */
  method Vars(d: Debugger) returns (r: Outcome)
    requires d.Valid()
    modifies d.io, d.contexts, d.diffCache
    ensures d.OnlyFreshAdded()
    ensures d.io.input == old(d.io.input)
    ensures d.Valid() && ContextsKept(d)
    ensures var result := d.env.evaluate(d.currentCoroutine, "get_defined_vars()",
      old(ExecutionIndex(d.currentFrameIndex, IsStopped(d.contexts.contexts, d.currentCoroutine), d.diffCache.cache, d.env.rt, d.currentCoroutine)));
      r == EvaluationOutcome(result) && d.io.Wrote(EvaluationView(result))
  {
    r := EvaluateAtCursor(d, "get_defined_vars()");
  }

  // ---------------------------------------------------------------- zombie

  /** The coroutines `commandZombie` samples, in the order they enter its weak map:
      each live coroutine once, where it was first listed. */
  function Sampled(ids: seq<CoroutineId>): (r: seq<CoroutineId>)
    ensures forall x :: x in r <==> x in ids
    ensures Distinct(r)
  {
    if ids == [] then []
    else
      var prefix := Sampled(ids[..|ids| - 1]);
      var x := ids[|ids| - 1];
      assert forall y :: y in ids <==> y in ids[..|ids| - 1] || y == x;
      if x in prefix then prefix else prefix + [x]
  }

  /** The sampled coroutines that are still alive in `after` and switched no more
      since `before`, in sampling order. */
  function Unswitched(ids: seq<CoroutineId>, before: Runtime, after: Runtime): (r: seq<CoroutineId>)
  {
    if ids == [] then []
    else
      var x := ids[|ids| - 1];
      Unswitched(ids[..|ids| - 1], before, after) +
      (if x in after.coroutines && Info(after, x).switches == Info(before, x).switches then [x] else [])
  }

  /** What `commandZombie` reports after sleeping from `before` to `after`. */
  function Zombies(before: Runtime, after: Runtime): seq<CoroutineId> {
    Unswitched(Sampled(before.order), before, after)
  }

  /** A coroutine is reported exactly when it was listed before the sleep, is alive
      after it, and its switch count did not move; each is reported once. */
  lemma {:induction false} UnswitchedMembers(ids: seq<CoroutineId>, before: Runtime, after: Runtime)
    ensures forall x :: x in Unswitched(ids, before, after) <==>
      x in ids && x in after.coroutines && Info(after, x).switches == Info(before, x).switches
  {
    if ids != [] {
      UnswitchedMembers(ids[..|ids| - 1], before, after);
      assert forall y :: y in ids <==> y in ids[..|ids| - 1] || y == ids[|ids| - 1];
    }
  }

  /** No id is listed twice. */
  predicate Distinct(ids: seq<CoroutineId>) {
    forall i, j :: 0 <= i < j < |ids| ==> ids[i] != ids[j]
  }

  /** Appending an id not yet listed keeps a list free of repeats. */
  lemma DistinctAppend(ids: seq<CoroutineId>, x: CoroutineId)
    requires Distinct(ids) && x !in ids
    ensures Distinct(ids + [x])
  {
    var r := ids + [x];
    forall i, j | 0 <= i < j < |r|
      ensures r[i] != r[j]
    {
      assert r[i] == ids[i] && ids[i] in ids;
    }
  }

  lemma {:induction false} UnswitchedDistinct(ids: seq<CoroutineId>, before: Runtime, after: Runtime)
    requires Distinct(ids)
    ensures Distinct(Unswitched(ids, before, after))
  {
    if ids != [] {
      var prefix := ids[..|ids| - 1];
      var x := ids[|ids| - 1];
      assert forall i, j :: 0 <= i < j < |prefix| ==> prefix[i] == ids[i] && prefix[j] == ids[j];
      UnswitchedDistinct(prefix, before, after);
      UnswitchedMembers(prefix, before, after);
      assert x !in prefix;
      var p := Unswitched(prefix, before, after);
      if Unswitched(ids, before, after) != p {
        DistinctAppend(p, x);
      }
    }
  }

  lemma ZombiesAreUnswitched(before: Runtime, after: Runtime)
    ensures var z := Zombies(before, after);
      (forall x :: x in z <==>
        x in before.order && x in after.coroutines && Info(after, x).switches == Info(before, x).switches) &&
      Distinct(z)
  {
    UnswitchedMembers(Sampled(before.order), before, after);
    UnswitchedDistinct(Sampled(before.order), before, after);
  }

  /** The weak map of switch counts, the sleep, and the comparison. */
  method ScanZombies(env: Scheduler) returns (zombies: seq<CoroutineId>)
    modifies env
    ensures zombies == Zombies(old(env.rt), env.rt)
    ensures env.rt == old(env.NextRuntime()) && env.script == (if old(env.script) == [] then [] else old(env.script)[1..])
    ensures env.polls == old(env.polls) && env.resumed == old(env.resumed) && env.killed == old(env.killed)
    ensures env.killedAll == old(env.killedAll) && env.spawnedRuns == old(env.spawnedRuns)
  {
    var before := env.rt;
    var sampled, switchesMap := SampleSwitches(before);
    env.Advance();
    zombies := CollectUnswitched(sampled, switchesMap, before, env.rt);
  }

  /** The first foreach of `commandZombie`: each listed coroutine's switch count, kept
      in a map, and the order in which the coroutines entered it. */
  method SampleSwitches(before: Runtime) returns (sampled: seq<CoroutineId>, switchesMap: map<CoroutineId, int>)
    ensures sampled == Sampled(before.order)
    ensures forall c :: c in switchesMap <==> c in sampled
    ensures forall c :: c in switchesMap ==> switchesMap[c] == Info(before, c).switches
  {
    sampled := [];
    switchesMap := map[];
    var i := 0;
    while i < |before.order|
      invariant 0 <= i <= |before.order|
      invariant sampled == Sampled(before.order[..i])
      invariant forall c :: c in switchesMap <==> c in sampled
      invariant forall c :: c in switchesMap ==> switchesMap[c] == Info(before, c).switches
    {
      var co := before.order[i];
      assert before.order[..i + 1][..i] == before.order[..i];
      if co !in switchesMap {
        sampled := sampled + [co];
      }
      switchesMap := switchesMap[co := Info(before, co).switches];
      i := i + 1;
    }
    assert before.order[..i] == before.order;
  }

  /** The second foreach of `commandZombie`: the sampled coroutines still alive whose
      switch count is the one recorded. */
  method CollectUnswitched(sampled: seq<CoroutineId>, switchesMap: map<CoroutineId, int>, before: Runtime, after: Runtime)
    returns (zombies: seq<CoroutineId>)
    requires forall c :: c in sampled ==> c in switchesMap && switchesMap[c] == Info(before, c).switches
    ensures zombies == Unswitched(sampled, before, after)
  {
    zombies := [];
    var j := 0;
    while j < |sampled|
      invariant 0 <= j <= |sampled|
      invariant zombies == Unswitched(sampled[..j], before, after)
    {
      var co := sampled[j];
      assert sampled[..j + 1][..j] == sampled[..j];
      if co in after.coroutines && Info(after, co).switches == switchesMap[co] {
        zombies := zombies + [co];
      }
      j := j + 1;
    }
    assert sampled[..j] == sampled;
  }

  function ScanningNotice(time: string): string {
    "Scanning zombie coroutines (" + time + "s)..."
  }

  /** `commandZombie`: after a sleep of the given seconds, the coroutines whose switch
      count did not move are listed. */
  method Zombie(d: Debugger, context: CommandContext) returns (r: Outcome)
    requires d.Valid()
    modifies d.io, d.env, d.contexts, d.diffCache
    ensures d.OnlyFreshAdded()
    ensures d.io.input == old(d.io.input)
    ensures d.Valid() && ContextsKept(d)
    ensures var time := context.GetArgument(0);
      (time.None? || !IsNumeric(time.value)) ==>
        r == Raised(DebuggerException("Argument[1]: Time must be numeric")) && unchanged(d.io, d.env)
    ensures var time := context.GetArgument(0);
      time.Some? && IsNumeric(time.value) ==>
        r == Done && d.env.rt == old(d.env.NextRuntime()) &&
        d.env.resumed == old(d.env.resumed) && d.env.killed == old(d.env.killed) &&
        WroteSummaries(d.io, [Text(ScanningNotice(time.value)), Text("Following coroutine maybe zombies:")],
          Remove(Zombies(old(d.env.rt), d.env.rt), d.env.rt.current))
  {
    var time := context.GetArgument(0);
    if time.None? || !IsNumeric(time.value) {
      return Raised(DebuggerException("Argument[1]: Time must be numeric"));
    }
    ReportZombies(d, time.value);
    r := Done;
  }

  /** The scan and the report of `commandZombie` once the time is checked. */
  method ReportZombies(d: Debugger, time: string)
    requires d.Valid()
    modifies d.io, d.env, d.contexts, d.diffCache
    ensures d.Valid() && ContextsKept(d) && d.OnlyFreshAdded()
    ensures d.env.rt == old(d.env.NextRuntime()) && d.env.resumed == old(d.env.resumed) && d.env.killed == old(d.env.killed)
    ensures WroteSummaries(d.io, [Text(ScanningNotice(time)), Text("Following coroutine maybe zombies:")],
      Remove(Zombies(old(d.env.rt), d.env.rt), d.env.rt.current))
  {
    d.io.Out(Text(ScanningNotice(time)));
    var zombies := ScanZombies(d.env);
    d.io.Out(Text("Following coroutine maybe zombies:"));
    var shown := d.ShowCoroutines(zombies);
  }

  // ---------------------------------------------------------------- kill

  /** What `commandKill`'s first pass writes for the argument at `index`: a notice
      when it is not numeric. */
  function NonNumericNotice(index: int, argument: string): seq<Output> {
    if IsNumeric(argument) then [] else [Text("Argument[" + IntToString(index) + "] '" + argument + "' is not numeric")]
  }

  /** The notices of `commandKill`'s first pass: one per argument that is not numeric,
      with its zero-based position. */
  function NonNumericNotices(arguments: seq<string>): (r: seq<Output>)
    ensures |r| <= |arguments|
  {
    if arguments == [] then []
    else
      var n := |arguments| - 1;
      NonNumericNotices(arguments[..n]) + NonNumericNotice(n, arguments[n])
  }

  /** The line `commandKill`'s second pass writes for one argument. */
  function KillNote(argument: string, alive: bool): Output {
    if alive then Text("Coroutine#" + argument + " killed") else Text("Coroutine#" + argument + " not exists")
  }

  /** The runtime once `co` was killed. */
  function KilledIn(rt: Runtime, co: CoroutineId): Runtime {
    rt.(coroutines := rt.coroutines - {co}, order := Remove(rt.order, co))
  }

  datatype KillSweep = KillSweep(rt: Runtime, killed: seq<CoroutineId>, notes: seq<Output>)

  /** One argument of the second pass: its integer value is killed when it names a
      live coroutine, and either way one line is written. */
  function KillStep(sweep: KillSweep, argument: string): KillSweep {
    var co := ToInt(argument);
    if co in sweep.rt.coroutines then
      KillSweep(KilledIn(sweep.rt, co), sweep.killed + [co], sweep.notes + [KillNote(argument, true)])
    else
      KillSweep(sweep.rt, sweep.killed, sweep.notes + [KillNote(argument, false)])
  }

  /** `commandKill`'s second pass over the arguments. */
  function KillRun(arguments: seq<string>, rt: Runtime): (r: KillSweep)
    ensures |r.notes| == |arguments| && |r.killed| <= |arguments|
    ensures r.rt.current == rt.current && r.rt.files == rt.files && r.rt.debuggerClasses == rt.debuggerClasses
  {
    if arguments == [] then KillSweep(rt, [], [])
    else KillStep(KillRun(arguments[..|arguments| - 1], rt), arguments[|arguments| - 1])
  }

  /** The ids the arguments name, each by its integer value. */
  function KillTargets(arguments: seq<string>): (r: seq<CoroutineId>)
    ensures |r| == |arguments| && forall i :: 0 <= i < |arguments| ==> r[i] == ToInt(arguments[i])
  {
    if arguments == [] then [] else KillTargets(arguments[..|arguments| - 1]) + [ToInt(arguments[|arguments| - 1])]
  }

  /** After the pass, a coroutine is alive exactly when it was and no argument names it. */
  lemma {:induction false} KillRunSurvivors(arguments: seq<string>, rt: Runtime)
    ensures forall x :: x in KillRun(arguments, rt).rt.coroutines <==> x in rt.coroutines && x !in KillTargets(arguments)
  {
    if arguments != [] {
      KillRunSurvivors(arguments[..|arguments| - 1], rt);
    }
  }

  /** A coroutine is killed exactly when it was alive and some argument names it. */
  lemma {:induction false} KillRunKilled(arguments: seq<string>, rt: Runtime)
    ensures forall x :: x in KillRun(arguments, rt).killed <==> x in rt.coroutines && x in KillTargets(arguments)
  {
    if arguments != [] {
      var prefix := arguments[..|arguments| - 1];
      KillRunKilled(prefix, rt);
      KillRunSurvivors(prefix, rt);
    }
  }

  /** No coroutine is killed twice. */
  lemma {:induction false} KillRunKilledOnce(arguments: seq<string>, rt: Runtime)
    ensures Distinct(KillRun(arguments, rt).killed)
  {
    if arguments != [] {
      var n := |arguments| - 1;
      var prefix := arguments[..n];
      KillRunKilledOnce(prefix, rt);
      KillRunKilled(prefix, rt);
      KillRunSurvivors(prefix, rt);
      var p := KillRun(prefix, rt).killed;
      var co := ToInt(arguments[n]);
      if KillRun(arguments, rt).killed != p {
        assert co in KillRun(prefix, rt).rt.coroutines;
        DistinctAppend(p, co);
      }
    }
  }

  /** The first pass writes nothing exactly when every argument is numeric. */
  lemma {:induction false} NonNumericNoticesEmpty(arguments: seq<string>)
    ensures NonNumericNotices(arguments) == [] <==> forall i :: 0 <= i < |arguments| ==> IsNumeric(arguments[i])
  {
    if arguments != [] {
      var n := |arguments| - 1;
      NonNumericNoticesEmpty(arguments[..n]);
      assert forall i :: 0 <= i < n ==> arguments[..n][i] == arguments[i];
    }
  }

  lemma NonNumericNoticesStep(arguments: seq<string>, i: int)
    requires 0 <= i < |arguments|
    ensures NonNumericNotices(arguments[..i + 1]) ==
      NonNumericNotices(arguments[..i]) + NonNumericNotice(i, arguments[i])
  {
    assert arguments[..i + 1][..i] == arguments[..i];
  }

  /** The first pass: a notice for each argument that is not numeric. */
  method ReportNonNumeric(io: DebuggerIo, arguments: seq<string>)
    modifies io
    ensures io.Wrote(NonNumericNotices(arguments))
  {
    var i := 0;
    while i < |arguments|
      invariant 0 <= i <= |arguments|
      invariant io.Wrote(NonNumericNotices(arguments[..i]))
    {
      ghost var written := NonNumericNotices(arguments[..i]);
      NonNumericNoticesStep(arguments, i);
      ReportIfNonNumeric(io, i, arguments[i]);
      AppendAssoc(old(io.output), written, NonNumericNotice(i, arguments[i]));
      i := i + 1;
    }
    assert arguments[..i] == arguments;
  }

  method ReportIfNonNumeric(io: DebuggerIo, index: int, argument: string)
    modifies io
    ensures io.Wrote(NonNumericNotice(index, argument))
  {
    if !IsNumeric(argument) {
      io.Exception(Text("Argument[" + IntToString(index) + "] '" + argument + "' is not numeric"));
    }
  }

  /** The second pass: each argument's coroutine killed or reported missing. */
  method KillEach(io: DebuggerIo, env: Scheduler, arguments: seq<string>)
    modifies io, env
    ensures var sweep := KillRun(arguments, old(env.rt));
      env.rt == sweep.rt && env.killed == old(env.killed) + sweep.killed && io.Wrote(sweep.notes)
    ensures env.script == old(env.script) && env.polls == old(env.polls) && env.resumed == old(env.resumed)
    ensures env.killedAll == old(env.killedAll) && env.spawnedRuns == old(env.spawnedRuns)
  {
    ghost var rt0 := env.rt;
    ghost var sweep := KillRun([], rt0);
    var i := 0;
    while i < |arguments|
      invariant 0 <= i <= |arguments| && sweep == KillRun(arguments[..i], rt0)
      invariant env.rt == sweep.rt && env.killed == old(env.killed) + sweep.killed && io.Wrote(sweep.notes)
      invariant env.script == old(env.script) && env.polls == old(env.polls) && env.resumed == old(env.resumed)
      invariant env.killedAll == old(env.killedAll) && env.spawnedRuns == old(env.spawnedRuns)
    {
      KillRunStep(arguments, i, rt0);
      ghost var alive := ToInt(arguments[i]) in sweep.rt.coroutines;
      KillArgument(io, env, arguments[i]);
      AppendAssoc(old(io.output), sweep.notes, [KillNote(arguments[i], alive)]);
      AppendAssoc(old(env.killed), sweep.killed, if alive then [ToInt(arguments[i])] else []);
      sweep := KillStep(sweep, arguments[i]);
      i := i + 1;
    }
    assert arguments[..i] == arguments;
  }

  /** The pass over one more argument is one more step. */
  lemma KillRunStep(arguments: seq<string>, i: int, rt: Runtime)
    requires 0 <= i < |arguments|
    ensures KillRun(arguments[..i + 1], rt) == KillStep(KillRun(arguments[..i], rt), arguments[i])
  {
    assert arguments[..i + 1][..i] == arguments[..i];
  }

  /** The second pass's body for one argument. */
  method KillArgument(io: DebuggerIo, env: Scheduler, argument: string)
    modifies io, env
    ensures var alive := ToInt(argument) in old(env.rt.coroutines);
      env.rt == (if alive then KilledIn(old(env.rt), ToInt(argument)) else old(env.rt)) &&
      env.killed == old(env.killed) + (if alive then [ToInt(argument)] else []) &&
      io.Wrote([KillNote(argument, alive)])
    ensures env.script == old(env.script) && env.polls == old(env.polls) && env.resumed == old(env.resumed)
    ensures env.killedAll == old(env.killedAll) && env.spawnedRuns == old(env.spawnedRuns)
  {
    var co := ToInt(argument);
    if co in env.rt.coroutines {
      env.Kill(co);
      io.Out(KillNote(argument, true));
    } else {
      io.Exception(KillNote(argument, false));
    }
  }

  /** `commandKill`: at least one id is required; the non-numeric ones are reported,
      then every argument is killed by its integer value. */
  method Kill(d: Debugger, context: CommandContext) returns (r: Outcome)
    requires d.Valid()
    modifies d.io, d.env
    ensures d.OnlyFreshAdded()
    ensures d.io.input == old(d.io.input)
    ensures d.Valid()
    ensures context.arguments == [] ==>
      r == Raised(DebuggerException("Required coroutine id")) && unchanged(d.io, d.env)
    ensures var sweep := KillRun(context.arguments, old(d.env.rt));
      context.arguments != [] ==>
        r == Done && d.env.rt == sweep.rt && d.env.killed == old(d.env.killed) + sweep.killed &&
        d.env.resumed == old(d.env.resumed) && d.env.killedAll == old(d.env.killedAll) &&
        d.io.Wrote(NonNumericNotices(context.arguments) + sweep.notes)
  {
    var arguments := context.GetArguments();
    if |arguments| == 0 {
      return Raised(DebuggerException("Required coroutine id"));
    }
    ghost var before := d.io.output;
    ReportNonNumeric(d.io, arguments);
    KillEach(d.io, d.env, arguments);
    AppendAssoc(before, NonNumericNotices(arguments), KillRun(arguments, old(d.env.rt)).notes);
    r := Done;
  }

  /** `commandKillAll`: every coroutine but the caller is killed. */
  method KillAll(d: Debugger) returns (r: Outcome)
    requires d.Valid()
    modifies d.io, d.env
    ensures d.OnlyFreshAdded()
    ensures d.io.input == old(d.io.input)
    ensures d.Valid() && r == Done
    ensures d.env.rt.coroutines.Keys <= {old(d.env.rt.current)} && d.env.rt.current == old(d.env.rt.current)
    ensures old(d.env.rt.current) in old(d.env.rt.coroutines) ==> d.env.rt.coroutines.Keys == {old(d.env.rt.current)}
    ensures d.env.killedAll == old(d.env.killedAll) + 1 && d.env.killed == old(d.env.killed)
    ensures d.io.Wrote([Text("All coroutines has been killed")])
  {
    d.env.KillAll();
    d.io.Out(Text("All coroutines has been killed"));
    r := Done;
  }

  /** `commandClear`. */
  method Clear(d: Debugger) returns (r: Outcome)
    requires d.Valid()
    modifies d.io
    ensures d.OnlyFreshAdded()
    ensures d.io.input == old(d.io.input)
    ensures d.Valid() && r == Done
    ensures d.io.Wrote(if d.io.isTty then [Text(ClearScreen)] else [])
  {
    d.io.Clear();
    r := Done;
  }

  /** The table `commandHelp` prints for the registered commands. */
  function HelpTable(entries: seq<Entry>): Table {
    seq(|entries|, k requires 0 <= k < |entries| => HelpRow(entries[k].0))
  }

  /** `commandHelp`: one row per registered command, with its aliases. */
  method Help(d: Debugger, registry: CommandRegistry) returns (r: Outcome)
    requires d.Valid()
    modifies d.io
    ensures d.OnlyFreshAdded()
    ensures d.io.input == old(d.io.input)
    ensures d.Valid() && r == Done
    ensures d.io.Wrote([Formatted(HelpTable(registry.commandMethods))])
  {
    var rows := HelpRows(registry.commandMethods);
    assert rows == HelpTable(registry.commandMethods);
    d.io.Table(rows);
    r := Done;
  }

  // ---------------------------------------------------------------- dispatch

  /** Calls the handler `m` stands for with the command context. */
  method Dispatch(d: Debugger, registry: CommandRegistry, m: CommandMethod, context: CommandContext) returns (r: Outcome)
    requires d.Valid()
    modifies d, d.io, d.contexts, d.contexts.contexts.Values, d.diffCache, d.breakpoints, d.env
    modifies if d.currentSourceFile.Some? then {d.currentSourceFile.value} else {}
    ensures d.OnlyFreshAdded()
    ensures d.Valid() && d.io.input == old(d.io.input)
  {
    match m
    case CommandPs => r := Ps(d);
    case CommandBacktrace => r := Backtrace(d);
    case CommandCoroutine => r := CoroutineOrAttach(d, context);
    case CommandAttach => r := CoroutineOrAttach(d, context);
    case CommandCoroutineOrAttach => r := CoroutineOrAttach(d, context);
    case CommandFrame => r := Frame(d, context);
    case CommandBreakPoint => r := BreakPoint(d, context);
    case _ => r := DispatchControl(d, registry, m, context);
  }

  /** The handlers that step, evaluate, list or end coroutines. */
  method DispatchControl(d: Debugger, registry: CommandRegistry, m: CommandMethod, context: CommandContext) returns (r: Outcome)
    requires d.Valid()
    modifies d, d.io, d.contexts, d.contexts.contexts.Values, d.diffCache, d.breakpoints, d.env
    modifies if d.currentSourceFile.Some? then {d.currentSourceFile.value} else {}
    ensures d.OnlyFreshAdded()
    ensures d.Valid() && d.io.input == old(d.io.input)
  {
    match m
    case CommandNext => r := Debugging(d, context);
    case CommandStep => r := Debugging(d, context);
    case CommandContinue => r := Debugging(d, context);
    case CommandDebugging => r := Debugging(d, context);
    case CommandList => r := List(d, context);
    case _ => r := DispatchOther(d, registry, m, context);
  }

  /** The remaining handlers. */
  method DispatchOther(d: Debugger, registry: CommandRegistry, m: CommandMethod, context: CommandContext) returns (r: Outcome)
    requires d.Valid()
    modifies d, d.io, d.contexts, d.contexts.contexts.Values, d.diffCache, d.breakpoints, d.env
    modifies if d.currentSourceFile.Some? then {d.currentSourceFile.value} else {}
    ensures d.OnlyFreshAdded()
    ensures d.Valid() && d.io.input == old(d.io.input)
  {
    match m
    case CommandPrint => r := Print(d, context);
    case CommandExec => r := Exec(d, context);
    case CommandVars => r := Vars(d);
    case CommandZombie => r := Zombie(d, context);
    case CommandKill => r := Kill(d, context);
    case CommandKillAll => r := KillAll(d);
    case CommandClear => r := Clear(d);
    case CommandHelp => r := Help(d, registry);
    case _ => r := Done;
  }

  /** `executeCommand`: the table is built on first use; a name it does not hold is
      refused before anything else happens, any other runs its handler. */
  method ExecuteCommand(d: Debugger, registry: CommandRegistry, command: string, arguments: seq<string>)
    returns (r: Outcome)
    requires d.Valid()
    modifies registry, d, d.io, d.contexts, d.contexts.contexts.Values, d.diffCache, d.breakpoints, d.env
    modifies if d.currentSourceFile.Some? then {d.currentSourceFile.value} else {}
    ensures d.OnlyFreshAdded()
    ensures d.Valid()
    ensures d.io.input == old(d.io.input)
    ensures old(registry.commandMethods) == [] ==> registry.commandMethods == CommandTableOf(DebuggerMethods)
    ensures old(registry.commandMethods) != [] ==> registry.commandMethods == old(registry.commandMethods)
    ensures !HasKey(registry.commandMethods, command) ==>
      r == Raised(DebuggerException(UnknownCommandMessage(command))) &&
      unchanged(d, d.io, d.contexts, d.diffCache, d.breakpoints, d.env)
  {
    registry.Load(DebuggerMethods);
    var m := FindMethod(registry.commandMethods, command);
    if m.None? {
      return Raised(DebuggerException(UnknownCommandMessage(command)));
    }
    var context := new CommandContext(command, arguments);
    r := Dispatch(d, registry, m.value, context);
  }
}
