/** The debugger object: its cursor (current coroutine, frame, source file and line,
    last command), the views it prints, the statement handler that stops coroutines
    at break points, and the glue to the runtime. */
module Debuggers {
  import opened Wrappers
  import opened PhpStrings
  import opened Host
  import opened DebuggerHelper
  import opened DebugContexts
  import opened StaticGetters
  import opened DebuggerIo
  import opened SourceMaps
  import opened Breakpoints

  /** The logo: "SDB" in seven lines of block letters, then the banner under it. */
  const SdbBanner :=
    "  ██████ ▓█████▄  ▄▄▄▄\n" +
    "▒██    ▒ ▒██▀ ██▌▓█████▄\n" +
    "░ ▓██▄   ░██   █▌▒██▒ ▄██\n" +
    "  ▒   ██▒░▓█▄   ▌▒██░█▀\n" +
    "▒██████▒▒░▒████▓ ░▓█  ▀█▓\n" +
    " ░▒▓▒ ▒ ░ ▒▒▓  ▒ ░▒▓███▀▒\n" +
    "  ░▒      ░ ▒  ▒ ▒░▒   ░\n" +
    "-------------------\n" +
    "SDB (Swow Debugger)\n" +
    "-------------------"

  /** Whether every coroutine the runtime lists is `current`. */
  predicate OnlyCurrent(order: seq<CoroutineId>, current: CoroutineId) {
    forall i :: 0 <= i < |order| ==> order[i] == current
  }

  /** What `callSourceMapHandler` does to a position under `handler`. */
  function MapWith(handler: Option<SourceMapHandler>, position: string): string {
    if handler.None? then position else Apply(handler.value, position)
  }

  /** A row whose last cell is its `source_position`, with that position passed
      through the source map. */
  function MapPosition(row: Row, handler: Option<SourceMapHandler>): (r: Row)
    ensures |r| == |row| && RowKeys(r) == RowKeys(row)
    ensures forall i :: 0 <= i < |row| - 1 ==> r[i] == row[i]
  {
    if |row| > 0 && row[|row| - 1].0 == "source_position" && row[|row| - 1].1.StrVal? then
      row[..|row| - 1] + [("source_position", StrVal(MapWith(handler, row[|row| - 1].1.s)))]
    else row
  }

  /** `showTrace`'s foreach over the trace table. */
  function MapPositions(t: Table, handler: Option<SourceMapHandler>): Table {
    seq(|t|, i requires 0 <= i < |t| => MapPosition(t[i], handler))
  }

  /** Without a source map the trace table is shown as converted. */
  lemma MapPositionsWithoutHandler(t: Table)
    requires forall i :: 0 <= i < |t| ==> |t[i]| > 0 && t[i][|t[i]| - 1].1.StrVal?
    ensures MapPositions(t, None) == t
  {
    forall i | 0 <= i < |t|
      ensures MapPositions(t, None)[i] == t[i]
    {
      var row := t[i];
      if row[|row| - 1].0 == "source_position" {
        assert row[..|row| - 1] + [row[|row| - 1]] == row;
      }
    }
  }

  /** The source map rewrites the position of every trace row and leaves its frame
      number and executing string alone. */
  lemma TraceRowsMapped(trace: seq<Frame>, frameIndex: Option<int>, handler: Option<SourceMapHandler>)
    ensures var rows := TraceRows(trace, frameIndex);
      var mapped := MapPositions(rows, handler);
      |mapped| == |rows| &&
      forall i :: 0 <= i < |rows| ==>
        mapped[i][0] == rows[i][0] && mapped[i][1] == rows[i][1] &&
        mapped[i][2] == ("source_position", StrVal(MapWith(handler, rows[i][2].1.s)))
  {
  }

  /** The columns of a `showCoroutines` row. */
  const CoroutineColumns := ["id", "state", "switches", "elapsed", "executing", "source_position"]

  /** Each row has the `showCoroutines` columns and the id listed at its position. */
  predicate SummariesOf(shown: Table, listed: seq<CoroutineId>) {
    |shown| == |listed| &&
    forall k :: 0 <= k < |shown| ==> RowKeys(shown[k]) == CoroutineColumns && shown[k][0] == ("id", IntVal(listed[k]))
  }

  lemma SummariesAppend(shown: Table, listed: seq<CoroutineId>, info: Row, co: CoroutineId)
    requires SummariesOf(shown, listed) && RowKeys(info) == CoroutineColumns && info[0] == ("id", IntVal(co))
    ensures SummariesOf(shown + [info], listed + [co])
  {
  }

  /** What `showCoroutine` prints: the summary row, then, when there is a trace, a
      carriage return and the trace table. */
  function CoroutineView(info: Row, trace: seq<Frame>, handler: Option<SourceMapHandler>): seq<Output> {
    [Formatted([info])] + (if trace == [] then [] else [Text("\r"), Formatted(MapPositions(TraceRows(trace, None), handler))])
  }

  /** How `showSourceFileContentByTrace` ends for a frame of `trace`. */
  function SourceOutcome(files: map<string, seq<string>>, trace: seq<Frame>, frameIndex: int): Outcome {
    match LocateSource(files, trace, frameIndex)
    case NoSource => Done
    case LookupFailed(e) => Raised(e)
    case SourceAt(file, line) =>
      var window := SourceWindow(files[file], line, SourceFileDefaultLineCount);
      if window.Fail? then Raised(window.error) else Done
  }

  /** What `showSourceFileContentByTrace` prints: a line feed before a debugger error
      or when there is nothing to show, otherwise the source table, after a carriage
      return when it follows other output. */
  function SourceView(files: map<string, seq<string>>, trace: seq<Frame>, frameIndex: int, following: bool): seq<Output> {
    match LocateSource(files, trace, frameIndex)
    case NoSource => [Text("\n")]
    case LookupFailed(_) => [Text("\n")]
    case SourceAt(file, line) =>
      var window := SourceWindow(files[file], line, SourceFileDefaultLineCount);
      if window.Fail? then (if window.error.DebuggerException? then [Text("\n")] else [])
      else if window.value == [] then [Text("\n")]
      else (if following then [Text("\r")] else []) + [Formatted(SourceTable(window.value))]
  }

  /** Whether the coroutine's debug context exists and asks it to stop. */
  function StopArmed(contexts: map<CoroutineId, DebugContext>, co: CoroutineId): bool
    reads contexts.Values
  {
    co in contexts && contexts[co].stop
  }

  /** Where the statement handler finds a coroutine. */
  function ExecutedPosition(info: CoroutineInfo): Position {
    Position(info.executedFile, info.executedLine, info.executedFunction)
  }

  function HitMessage(breakPoint: string, co: CoroutineId): string {
    "Hit breakpoint <" + breakPoint + "> on Coroutine#" + IntToString(co)
  }

  /** How `waitStoppedCoroutine` ends: normally, by raising, or (when the recorded
      channel answers run out) not yet. */
  function WaitResult(w: WaitOutcome): Outcome {
    match w
    case Stopped => Done
    case Cancelled => Raised(DebuggerException("Cancelled"))
    case ChannelError(code) => Raised(ChannelException(code))
    case StillWaiting => Pending
  }

  class Debugger {
    const io: DebuggerIo
    const contexts: DebugContextMap
    const diffCache: DiffLevelCache
    const breakpoints: BreakpointList
    const sourceMap: SourceMap
    const env: Scheduler
    var daemon: bool
    var reloading: bool
    var lastCommand: string
    var currentCoroutine: CoroutineId
    var currentFrameIndex: int
    var currentSourceFile: Option<SourceFile>
    var currentSourceFileLine: int
    var lastTraceDepth: int

    /** `__construct` with the transport handed in: the cursor starts on the calling
        coroutine. */
    constructor (io: DebuggerIo, contexts: DebugContextMap, diffCache: DiffLevelCache, env: Scheduler)
      requires contexts.Valid()
      ensures Valid()
      ensures this.io == io && this.contexts == contexts && this.diffCache == diffCache && this.env == env
      ensures fresh(breakpoints) && fresh(sourceMap) && sourceMap.handler == None
      ensures breakpoints.breakPoints == [] && breakpoints.breakPointHandler == None
      ensures daemon && !reloading && lastCommand == "" && lastTraceDepth == PhpIntMax
      ensures currentCoroutine == env.rt.current && currentFrameIndex == 0
      ensures currentSourceFile == None && currentSourceFileLine == 0
    {
      this.io := io;
      this.contexts := contexts;
      this.diffCache := diffCache;
      this.env := env;
      breakpoints := new BreakpointList();
      sourceMap := new SourceMap();
      daemon := true;
      reloading := false;
      lastCommand := "";
      lastTraceDepth := PhpIntMax;
      currentCoroutine := env.rt.current;
      currentFrameIndex := 0;
      currentSourceFile := None;
      currentSourceFileLine := 0;
    }

    /** The objects the debugger's methods may change. */
    ghost function Repr(): set<object>
      reads this, contexts
    {
      {this, io, contexts, diffCache, breakpoints, sourceMap, env} + contexts.contexts.Values +
      (if currentSourceFile.Some? then {currentSourceFile.value} else {})
    }

    ghost predicate Valid()
      reads this, contexts, breakpoints
    {
      contexts.Valid() && breakpoints.Valid()
    }

    /** The level `getExtendedLevelOfCoroutineForTrace` answers for `co` in this state. */
    function TraceLevelOf(co: CoroutineId): int
      reads contexts, contexts.contexts.Values, diffCache, env
    {
      TraceLevel(IsStopped(contexts.contexts, co), CachedDiffLevel(diffCache.cache, TraceLevelKey, env.rt, co))
    }

    /** `getTraceOfCoroutine($coroutine)` in this state. */
    function TraceOf(co: CoroutineId): seq<Frame>
      reads contexts, contexts.contexts.Values, diffCache, env
    {
      TraceOfCoroutine(Info(env.rt, co).trace, TraceLevelOf(co))
    }

    // ------------------------------------------------------------ cursor

    method SetLastCommand(command: string)
      modifies this
      ensures lastCommand == command
      ensures currentCoroutine == old(currentCoroutine) && currentFrameIndex == old(currentFrameIndex)
      ensures currentSourceFile == old(currentSourceFile) && currentSourceFileLine == old(currentSourceFileLine)
      ensures daemon == old(daemon) && reloading == old(reloading) && lastTraceDepth == old(lastTraceDepth)
    {
      lastCommand := command;
    }

    /** `setCurrentCoroutine`: switching coroutine always goes back to frame 0. */
    method SetCurrentCoroutine(co: CoroutineId)
      modifies this
      ensures currentCoroutine == co && currentFrameIndex == 0
      ensures lastCommand == old(lastCommand)
      ensures currentSourceFile == old(currentSourceFile) && currentSourceFileLine == old(currentSourceFileLine)
      ensures daemon == old(daemon) && reloading == old(reloading) && lastTraceDepth == old(lastTraceDepth)
    {
      currentCoroutine := co;
      currentFrameIndex := 0;
    }

    method SetCurrentSourceFile(file: Option<SourceFile>)
      modifies this
      ensures currentSourceFile == file
      ensures currentCoroutine == old(currentCoroutine) && currentFrameIndex == old(currentFrameIndex)
      ensures lastCommand == old(lastCommand) && currentSourceFileLine == old(currentSourceFileLine)
      ensures daemon == old(daemon) && reloading == old(reloading) && lastTraceDepth == old(lastTraceDepth)
    {
      currentSourceFile := file;
    }

    method SetCurrentSourceFileLine(line: int)
      modifies this
      ensures currentSourceFileLine == line
      ensures currentCoroutine == old(currentCoroutine) && currentFrameIndex == old(currentFrameIndex)
      ensures lastCommand == old(lastCommand) && currentSourceFile == old(currentSourceFile)
      ensures daemon == old(daemon) && reloading == old(reloading) && lastTraceDepth == old(lastTraceDepth)
    {
      currentSourceFileLine := line;
    }

    /** `getTraceOfCoroutine` with its context lookup and cached scan; the level it
        uses is the one `TraceLevelOf` gives before and after. */
    method TraceOfCoroutineNow(co: CoroutineId) returns (trace: seq<Frame>)
      requires Valid()
      modifies contexts, diffCache
      ensures Valid() && co in contexts.contexts
      ensures trace == old(TraceOf(co)) && TraceOf(co) == trace
      ensures TraceLevelOf(co) == old(TraceLevelOf(co))
      ensures forall c :: c in old(contexts.contexts) ==> c in contexts.contexts && contexts.contexts[c] == old(contexts.contexts[c])
      ensures forall c :: c in contexts.contexts && c != co ==> c in old(contexts.contexts)
      ensures forall c :: c in old(contexts.contexts) && c != co ==>
        IsStopped(contexts.contexts, c) == old(IsStopped(contexts.contexts, c))
      ensures fresh(contexts.contexts.Values - old(contexts.contexts.Values))
    {
      var level := ExtendedLevelForTrace(contexts, diffCache, env.rt, co);
      trace := TraceOfCoroutine(Info(env.rt, co).trace, level);
    }

    /** `getCurrentCoroutineTrace`. */
    method CurrentCoroutineTrace() returns (trace: seq<Frame>)
      requires Valid()
      modifies contexts, diffCache
      ensures Valid() && currentCoroutine in contexts.contexts
      ensures trace == old(TraceOf(currentCoroutine)) && TraceOf(currentCoroutine) == trace
      ensures forall c :: c in old(contexts.contexts) ==> c in contexts.contexts && contexts.contexts[c] == old(contexts.contexts[c])
      ensures fresh(contexts.contexts.Values - old(contexts.contexts.Values))
    {
      trace := TraceOfCoroutineNow(currentCoroutine);
    }

    /** `getCurrentFrameIndexExtendedForExecution`: the cursor's frame index plus the
        execution level of the current coroutine. */
    method CurrentFrameIndexExtendedForExecution() returns (index: int)
      requires Valid()
      modifies contexts, diffCache
      ensures Valid()
      ensures index == currentFrameIndex + ExecutionLevel(old(IsStopped(contexts.contexts, currentCoroutine)),
        old(CachedDiffLevel(diffCache.cache, TraceLevelKey, env.rt, currentCoroutine)))
      ensures forall c :: c in old(contexts.contexts) ==> c in contexts.contexts && contexts.contexts[c] == old(contexts.contexts[c])
      ensures fresh(contexts.contexts.Values - old(contexts.contexts.Values))
    {
      var level := ExtendedLevelForTrace(contexts, diffCache, env.rt, currentCoroutine);
      index := currentFrameIndex + (level + 1);
    }

    /** `setCurrentFrameIndex`: rejects an index beyond the trace's length and keeps the
        old one; an index equal to the length is accepted. */
    method SetCurrentFrameIndex(index: int) returns (r: Outcome)
      requires Valid()
      modifies this, contexts, diffCache
      ensures Valid()
      ensures var count := |old(TraceOf(currentCoroutine))|;
        (count < index ==> r == Raised(DebuggerException("Invalid frame index")) && currentFrameIndex == old(currentFrameIndex)) &&
        (count >= index ==> r == Done && currentFrameIndex == index)
      ensures TraceOf(currentCoroutine) == old(TraceOf(currentCoroutine))
      ensures currentCoroutine == old(currentCoroutine) && lastCommand == old(lastCommand)
      ensures currentSourceFile == old(currentSourceFile) && currentSourceFileLine == old(currentSourceFileLine)
      ensures daemon == old(daemon) && reloading == old(reloading) && lastTraceDepth == old(lastTraceDepth)
      ensures forall c :: c in old(contexts.contexts) ==> c in contexts.contexts && contexts.contexts[c] == old(contexts.contexts[c])
      ensures fresh(contexts.contexts.Values - old(contexts.contexts.Values))
    {
      var trace := CurrentCoroutineTrace();
      if |trace| < index {
        return Raised(DebuggerException("Invalid frame index"));
      }
      currentFrameIndex := index;
      r := Done;
    }

    /** `isNoOtherCoroutinesRunning`: the foreach that returns false at the first
        coroutine that is not the caller. */
    method IsNoOtherCoroutinesRunning() returns (none: bool)
      ensures none <==> OnlyCurrent(env.rt.order, env.rt.current)
    {
      var order := env.rt.order;
      var i := 0;
      while i < |order|
        invariant 0 <= i <= |order|
        invariant forall j :: 0 <= j < i ==> order[j] == env.rt.current
      {
        if order[i] == env.rt.current {
          i := i + 1;
          continue;
        }
        return false;
      }
      return true;
    }

    /** The cursor other than the source position, and the mode flags, are as before. */
    twostate predicate CursorKept()
      reads this
    {
      currentCoroutine == old(currentCoroutine) && currentFrameIndex == old(currentFrameIndex) &&
      lastCommand == old(lastCommand) && daemon == old(daemon) && reloading == old(reloading) &&
      lastTraceDepth == old(lastTraceDepth)
    }

    // ------------------------------------------------------------ views

    /** The debug contexts and the source file the cursor holds are the ones there
        were, or new. */
    twostate predicate OnlyFreshAdded()
      reads this, contexts
    {
      fresh(contexts.contexts.Values - old(contexts.contexts.Values)) &&
      (currentSourceFile.Some? ==> currentSourceFile == old(currentSourceFile) || fresh(currentSourceFile.value))
    }

    /** Lookups left every existing debug context in place, added at most `co`'s, and
        added only fresh objects. */
    twostate predicate ContextsGrew(co: CoroutineId)
      reads this, contexts
    {
      contexts.Valid() && co in contexts.contexts &&
      (forall c :: c in old(contexts.contexts) ==> c in contexts.contexts && contexts.contexts[c] == old(contexts.contexts[c])) &&
      (forall c :: c in contexts.contexts ==> c in old(contexts.contexts) || c == co) &&
      fresh(contexts.contexts.Values - old(contexts.contexts.Values))
    }

    /** `getSimpleInfoOfCoroutine`: the state comes from the coroutine's debug context,
        the frame (only when asked for) from its trace at index 0. */
    method SimpleInfoOfCoroutine(co: CoroutineId, showTraceInfo: bool) returns (row: Row)
      requires Valid()
      modifies contexts, diffCache
      ensures Valid() && ContextsGrew(co)
      ensures row == old(SimpleInfo(co, Info(env.rt, co), IsStopped(contexts.contexts, co),
        if showTraceInfo then FrameOfCoroutine(Info(env.rt, co).trace, TraceLevelOf(co), 0) else EmptyFrame, showTraceInfo))
      ensures TraceLevelOf(co) == old(TraceLevelOf(co))
    {
      ghost var level0 := TraceLevelOf(co);
      var context := contexts.Get(co);
      var info := Info(env.rt, co);
      var stopped := context.stopped;
      var frame := EmptyFrame;
      if showTraceInfo {
        var level := ExtendedLevelForTrace(contexts, diffCache, env.rt, co);
        assert level == level0;
        frame := FrameOfCoroutine(info.trace, level, 0);
      }
      row := SimpleInfo(co, info, stopped, frame, showTraceInfo);
    }

    /** `showTrace`: the trace table with every source position passed through the
        source map; an empty table raises 'No trace info' and prints nothing. */
    method ShowTrace(trace: seq<Frame>, frameIndex: Option<int>) returns (r: Outcome)
      modifies io
      ensures TraceRows(trace, frameIndex) == [] ==>
        r == Raised(DebuggerException("No trace info")) && io.Wrote([])
      ensures TraceRows(trace, frameIndex) != [] ==>
        r == Done && io.Wrote([Formatted(MapPositions(TraceRows(trace, frameIndex), sourceMap.handler))])
    {
      var converted := ConvertTraceToTable(trace, frameIndex);
      if converted.Fail? {
        return Raised(converted.error);
      }
      var traceTable := converted.value;
      var i := 0;
      while i < |traceTable|
        invariant 0 <= i <= |traceTable| == |converted.value|
        invariant forall k :: 0 <= k < i ==> traceTable[k] == MapPosition(converted.value[k], sourceMap.handler)
        invariant forall k :: i <= k < |traceTable| ==> traceTable[k] == converted.value[k]
      {
        var row := traceTable[i];
        if |row| > 0 && row[|row| - 1].0 == "source_position" && row[|row| - 1].1.StrVal? {
          var position := sourceMap.CallSourceMapHandler(row[|row| - 1].1.s);
          row := row[..|row| - 1] + [("source_position", StrVal(position))];
        }
        assert row == MapPosition(converted.value[i], sourceMap.handler);
        traceTable := traceTable[i := row];
        i := i + 1;
      }
      assert traceTable == MapPositions(converted.value, sourceMap.handler);
      io.Table(traceTable);
      r := Done;
    }

    /** The two lookups of `showCoroutine`: the summary row without trace info, then
        the trace. */
    method SummaryAndTrace(co: CoroutineId) returns (info: Row, trace: seq<Frame>)
      requires Valid()
      modifies contexts, diffCache
      ensures Valid() && ContextsGrew(co)
      ensures info == old(SimpleInfo(co, Info(env.rt, co), IsStopped(contexts.contexts, co), EmptyFrame, false))
      ensures trace == old(TraceOf(co)) && TraceOf(co) == trace
    {
      ghost var expectedTrace := TraceOf(co);
      info := SimpleInfoOfCoroutine(co, false);
      assert TraceOf(co) == expectedTrace;
      trace := TraceOfCoroutineNow(co);
    }

    /** `showCoroutine`: the coroutine's summary row, then, when it has a trace, a
        carriage return and its trace. */
    method ShowCoroutine(co: CoroutineId) returns (r: Outcome)
      requires Valid()
      modifies io, contexts, diffCache
      ensures Valid() && ContextsGrew(co) && r == Done && TraceOf(co) == old(TraceOf(co))
      ensures var info := old(SimpleInfo(co, Info(env.rt, co), IsStopped(contexts.contexts, co), EmptyFrame, false));
        io.Wrote(CoroutineView(info, old(TraceOf(co)), sourceMap.handler))
    {
      var info, trace := SummaryAndTrace(co);
      PrintCoroutine(info, trace);
      r := Done;
    }

    /** The printing half of `showCoroutine`. */
    method PrintCoroutine(info: Row, trace: seq<Frame>)
      modifies io
      ensures io.Wrote(CoroutineView(info, trace, sourceMap.handler))
    {
      io.Table([info]);
      ghost var output1 := io.output;
      if trace != [] {
        io.Cr();
        assert |TraceRows(trace, None)| == |trace|;
        var _ := ShowTrace(trace, None);
        assert io.output == output1 + [Text("\r"), Formatted(MapPositions(TraceRows(trace, None), sourceMap.handler))];
      }
    }

    /** One row of `showCoroutines`: the summary with trace info, its position passed
        through the source map. */
    method CoroutineRow(co: CoroutineId) returns (info: Row)
      requires Valid()
      modifies contexts, diffCache
      ensures Valid() && ContextsGrew(co)
      ensures info == old(MapPosition(SimpleInfo(co, Info(env.rt, co), IsStopped(contexts.contexts, co),
        FrameOfCoroutine(Info(env.rt, co).trace, TraceLevelOf(co), 0), true), sourceMap.handler))
      ensures RowKeys(info) == CoroutineColumns && info[0] == ("id", IntVal(co))
    {
      info := SimpleInfoOfCoroutine(co, true);
      info := MapPosition(info, sourceMap.handler);
    }

    /** `showCoroutines`: one summary row with trace info for every coroutine listed,
        except the one running the debugger, in order. */
    method ShowCoroutines(ids: seq<CoroutineId>) returns (shown: Table)
      requires Valid()
      modifies contexts, diffCache, io
      ensures Valid()
      ensures SummariesOf(shown, Remove(ids, env.rt.current))
      ensures io.Wrote([Formatted(shown)])
      ensures forall c :: c in old(contexts.contexts) ==> c in contexts.contexts && contexts.contexts[c] == old(contexts.contexts[c])
      ensures fresh(contexts.contexts.Values - old(contexts.contexts.Values))
    {
      shown := [];
      ghost var listed: seq<CoroutineId> := [];
      var i := 0;
      while i < |ids|
        invariant 0 <= i <= |ids|
        invariant Valid()
        invariant listed == Remove(ids[..i], env.rt.current) && SummariesOf(shown, listed)
        invariant unchanged(io)
        invariant forall c :: c in old(contexts.contexts) ==> c in contexts.contexts && contexts.contexts[c] == old(contexts.contexts[c])
        invariant fresh(contexts.contexts.Values - old(contexts.contexts.Values))
      {
        var co := ids[i];
        RemoveAppend(ids[..i], co, env.rt.current);
        assert ids[..i + 1] == ids[..i] + [co];
        if co != env.rt.current {
          var info := CoroutineRow(co);
          SummariesAppend(shown, listed, info, co);
          shown := shown + [info];
          listed := listed + [co];
        }
        i := i + 1;
      }
      assert ids[..|ids|] == ids;
      io.Table(shown);
    }

    /** `showSourceFileContentByTrace`: the source window of a frame. A debugger error
        is preceded by a line feed and raised again; otherwise the cursor moves to the
        frame's file and line (to no file and line 0 for a frame without source) even
        when there is nothing to show, which prints a line feed. */
    method ShowSourceFileContentByTrace(trace: seq<Frame>, frameIndex: int, following: bool) returns (r: Outcome)
      requires Valid()
      modifies this, io
      ensures Valid()
      ensures currentCoroutine == old(currentCoroutine) && currentFrameIndex == old(currentFrameIndex)
      ensures lastCommand == old(lastCommand) && daemon == old(daemon) && reloading == old(reloading)
      ensures lastTraceDepth == old(lastTraceDepth)
      ensures r == SourceOutcome(env.rt.files, trace, frameIndex)
      ensures io.Wrote(SourceView(env.rt.files, trace, frameIndex, following))
      ensures OnlyFreshAdded()
      ensures var at := LocateSource(env.rt.files, trace, frameIndex);
        at.NoSource? ==> currentSourceFile == None && currentSourceFileLine == 0
      ensures var at := LocateSource(env.rt.files, trace, frameIndex);
        at.LookupFailed? ==>
          currentSourceFile == old(currentSourceFile) && currentSourceFileLine == old(currentSourceFileLine)
      ensures var at := LocateSource(env.rt.files, trace, frameIndex);
        at.SourceAt? ==>
          var window := SourceWindow(env.rt.files[at.file], at.line, SourceFileDefaultLineCount);
          (window.Fail? ==>
            currentSourceFile == old(currentSourceFile) && currentSourceFileLine == old(currentSourceFileLine)) &&
          (window.Ok? ==>
            currentSourceFileLine == at.line &&
            currentSourceFile.Some? && fresh(currentSourceFile.value) &&
            currentSourceFile.value.lines == env.rt.files[at.file])
    {
      var contents, file, line := SourceFileContentByTrace(env.rt.files, trace, frameIndex);
      if contents.Fail? {
        if contents.error.DebuggerException? {
          io.Lf();
        }
        return Raised(contents.error);
      }
      currentSourceFile := file;
      currentSourceFileLine := line;
      if contents.value == [] {
        io.Lf();
        return Done;
      }
      if following {
        io.Cr();
      }
      io.Table(SourceTable(contents.value));
      r := Done;
    }

    /** `showFollowingSourceFileContent`: the next lines of the selected file, numbered
        on from the cursor line past the padding; the cursor line then moves on by
        `lineCount - 1`. Without a selected file it raises and prints nothing. */
    method ShowFollowingSourceFileContent(lineCount: int) returns (r: Outcome)
      requires Valid()
      modifies this, io, if currentSourceFile.Some? then {currentSourceFile.value} else {}
      ensures Valid() && currentSourceFile == old(currentSourceFile)
      ensures currentCoroutine == old(currentCoroutine) && currentFrameIndex == old(currentFrameIndex)
      ensures lastCommand == old(lastCommand) && daemon == old(daemon) && reloading == old(reloading)
      ensures lastTraceDepth == old(lastTraceDepth)
      ensures old(currentSourceFile).None? ==>
        r == Raised(DebuggerException("No source file was selected")) && io.Wrote([]) &&
        currentSourceFileLine == old(currentSourceFileLine)
      ensures old(currentSourceFile).Some? ==>
        var file := currentSourceFile.value;
        var line := old(currentSourceFileLine);
        var contents := NumberedRows(file.lines, old(file.pos), line + SourceFileContentPadding + 1,
          line + SourceFileContentPadding + lineCount, None);
        r == Done && file.pos == old(file.pos) + |contents| &&
        io.Wrote([Formatted(SourceTable(contents))]) && currentSourceFileLine == line + lineCount - 1
    {
      if currentSourceFile.None? {
        return Raised(DebuggerException("No source file was selected"));
      }
      var file := currentSourceFile.value;
      var line := currentSourceFileLine;
      var contents := GetFollowingSourceFileContent(file, line, lineCount, SourceFileContentPadding);
      io.Table(SourceTable(contents));
      currentSourceFileLine := line + lineCount - 1;
      r := Done;
    }

    // ------------------------------------------------------------ break points

    /** `breakPointHandler`, as the runtime runs it before a statement of the coroutine
        `env.rt.current`, up to the yield inside `break()`; `parked` says whether it
        broke there. A coroutine asked to stop breaks when the depth test passes and is
        never matched against the break points; otherwise the first matching break point
        is announced and the coroutine is asked to stop and breaks. */
    method BreakPointHandler() returns (parked: bool)
      requires Valid()
      modifies contexts, contexts.contexts.Values, diffCache, io
      ensures Valid() && ContextsGrew(env.rt.current)
      ensures var co := env.rt.current;
        old(StopArmed(contexts.contexts, co)) ==>
          parked == StepDepthReached(Info(env.rt, co).traceDepth,
            old(CachedDiffLevel(diffCache.cache, BreakPointHandlerKey, env.rt, co)), lastTraceDepth) &&
          io.Wrote([]) && contexts.contexts[co].stop &&
          contexts.contexts[co].stopped == (parked || old(IsStopped(contexts.contexts, co))) &&
          diffCache.cache == if BreakPointHandlerKey in old(diffCache.cache) then old(diffCache.cache)
            else old(diffCache.cache)[BreakPointHandlerKey := DiffLevel(env.rt, co)]
      ensures var co := env.rt.current;
        var hit := FirstMatch(breakpoints.breakPoints, ExecutedPosition(Info(env.rt, co)));
        !old(StopArmed(contexts.contexts, co)) ==>
          parked == hit.Some? && diffCache.cache == old(diffCache.cache) &&
          io.Wrote(if hit.Some? then [Text(HitMessage(hit.value, co))] else []) &&
          contexts.contexts[co].stop == hit.Some? &&
          contexts.contexts[co].stopped == (hit.Some? || old(IsStopped(contexts.contexts, co)))
      ensures forall c :: c in old(contexts.contexts) && c != env.rt.current ==>
        contexts.contexts[c].stop == old(contexts.contexts[c].stop) &&
        contexts.contexts[c].stopped == old(contexts.contexts[c].stopped)
    {
      var co := env.rt.current;
      var context := contexts.Get(co);
      if context.stop {
        parked := BreakIfDeepEnough(context, co);
      } else {
        parked := BreakOnHit(context, co);
      }
    }

    /** The branch of `breakPointHandler` for a coroutine already asked to stop. */
    method BreakIfDeepEnough(context: DebugContext, co: CoroutineId) returns (parked: bool)
      modifies context, diffCache
      ensures parked == StepDepthReached(Info(env.rt, co).traceDepth,
        old(CachedDiffLevel(diffCache.cache, BreakPointHandlerKey, env.rt, co)), lastTraceDepth)
      ensures context.stop == old(context.stop) && context.stopped == (parked || old(context.stopped))
      ensures diffCache.cache == if BreakPointHandlerKey in old(diffCache.cache) then old(diffCache.cache)
        else old(diffCache.cache)[BreakPointHandlerKey := DiffLevel(env.rt, co)]
    {
      var traceDepth := Info(env.rt, co).traceDepth;
      var traceDiffLevel := diffCache.GetCoroutineTraceDiffLevel(env.rt, co, BreakPointHandlerKey);
      parked := false;
      if traceDepth - traceDiffLevel <= lastTraceDepth {
        BreakSuspend(context);
        parked := true;
      }
    }

    /** The branch of `breakPointHandler` that matches the position against the break
        points. */
    method BreakOnHit(context: DebugContext, co: CoroutineId) returns (parked: bool)
      modifies context, io
      ensures var hit := FirstMatch(breakpoints.breakPoints, ExecutedPosition(Info(env.rt, co)));
        parked == hit.Some? &&
        io.Wrote(if hit.Some? then [Text(HitMessage(hit.value, co))] else []) &&
        context.stop == (hit.Some? || old(context.stop)) && context.stopped == (hit.Some? || old(context.stopped))
    {
      var hit := FindHit(breakpoints.breakPoints, ExecutedPosition(Info(env.rt, co)));
      parked := false;
      if hit.Some? {
        io.Out(Text(HitMessage(hit.value, co)));
        context.stop := true;
        BreakSuspend(context);
        parked := true;
      }
    }

    /** The break point the statement handler of `co` matches where the snapshot after
        the next resume shows it. */
    function HitAfterResume(co: CoroutineId): Option<string>
      reads env, breakpoints
    {
      FirstMatch(breakpoints.breakPoints, ExecutedPosition(Info(env.NextRuntime(), co)))
    }

    /** Whether `co`, resumed now, is parked in `break()` again when `resume()` returns:
        its statement handler broke, by the depth test when the coroutine is asked to
        stop and on a matching break point otherwise. */
    function ParksOnResume(co: CoroutineId): bool
      reads env, breakpoints, contexts, contexts.contexts.Values
    {
      env.NextBroke() && (StopArmed(contexts.contexts, co) || HitAfterResume(co).Some?)
    }

    /** What that handler prints: the hit of a coroutine that was not asked to stop. */
    function ResumeOutput(co: CoroutineId): seq<Output>
      reads env, breakpoints, contexts, contexts.contexts.Values
    {
      if env.NextBroke() && !StopArmed(contexts.contexts, co) && HitAfterResume(co).Some?
      then [Text(HitMessage(HitAfterResume(co).value, co))] else []
    }

    /** `$coroutine->resume()` on a coroutine parked in `break()`. The resumed coroutine
        runs inside the call: the rest of `break()` clears `stopped`, and when its
        statement handler breaks again before control comes back, that handler's branch
        runs on the snapshot the runtime then shows. */
    method ResumeParked(co: CoroutineId)
      requires Valid() && co in contexts.contexts
      modifies contexts.contexts[co], env, io
      ensures Valid()
      ensures contexts.contexts[co].stopped == old(ParksOnResume(co))
      ensures contexts.contexts[co].stop == (old(contexts.contexts[co].stop) || old(ParksOnResume(co)))
      ensures io.Wrote(old(ResumeOutput(co)))
      ensures env.resumed == old(env.resumed) + [co] && env.rt == old(env.NextRuntime())
      ensures env.polls == old(env.polls) && env.killed == old(env.killed)
    {
      var context := contexts.contexts[co];
      var broke := env.Resume(co);
      BreakResume(context);
      if broke {
        if context.stop {
          BreakSuspend(context);
        } else {
          var _ := BreakOnHit(context, co);
        }
      }
    }

    /** `waitStoppedCoroutine` on the recorded channel answers, which it uses up. */
    method WaitStopped(co: CoroutineId) returns (r: Outcome)
      requires Valid()
      modifies contexts, contexts.contexts.Values, env
      ensures Valid() && ContextsGrew(co)
      ensures var w := Wait(old(IsStopped(contexts.contexts, co)), old(env.polls));
        r == WaitResult(w.0) && w.1 <= |old(env.polls)| && env.polls == old(env.polls)[w.1..] &&
        contexts.contexts[co].stopped == (if w.1 == 0 then old(IsStopped(contexts.contexts, co)) else old(env.polls)[w.1 - 1].stoppedNow) &&
        contexts.contexts[co].stop == old(StopArmed(contexts.contexts, co))
      ensures r == Done ==> contexts.contexts[co].stopped
      ensures env.rt == old(env.rt) && env.script == old(env.script) && env.resumed == old(env.resumed)
      ensures env.comebacks == old(env.comebacks)
      ensures forall c :: c in old(contexts.contexts) && c != co ==>
        contexts.contexts[c].stop == old(contexts.contexts[c].stop) &&
        contexts.contexts[c].stopped == old(contexts.contexts[c].stopped)
    {
      var context := contexts.Get(co);
      WaitSeesStopped(context.stopped, env.polls);
      var outcome, consumed := WaitStoppedCoroutine(context, env.polls);
      env.ConsumePolls(consumed);
      r := WaitResult(outcome);
    }

    /** `logo`: clear the screen, then the block-letter logo with its banner and a line feed. */
    method Logo()
      modifies io
      ensures io.Wrote((if io.isTty then [Text(ClearScreen)] else []) + [Text(SdbBanner), Text("\n")])
    {
      io.Clear();
      io.Out(Text(SdbBanner));
      io.Lf();
    }
  }
}
