/** The debugger's static getters: state names, the extended trace levels, trace
    slicing, the per-coroutine summary row, the diff-level scan with its by-name cache
    and the source lookup of a trace frame. */
module StaticGetters {
  import opened Wrappers
  import opened PhpStrings
  import opened Host
  import opened DebuggerHelper
  import opened DebugContexts

  /** The cache keys the callers of the diff-level scan pass: the name of the calling
      function, or `'nextCommand'`. */
  const TraceLevelKey := "getExtendedLevelOfCoroutineForTrace"
  const BreakPointHandlerKey := "breakPointHandler"
  const NextCommandKey := "nextCommand"

  // ---------------------------------------------------------------- state and levels

  /** `getStateNameOfCoroutine`: `'stopped'` for a coroutine parked in `break()`,
      otherwise the scheduler's own state name. */
  function StateName(stopped: bool, info: CoroutineInfo): (r: string)
    ensures stopped ==> r == "stopped"
    ensures !stopped ==> r == info.stateName
  {
    if stopped then "stopped" else info.stateName
  }

  /** `getExtendedLevelOfCoroutineForTrace`: a stopped coroutine's trace is read from
      below the debugger's own frames. */
  function TraceLevel(stopped: bool, diffLevel: int): (r: int)
    ensures stopped ==> r == diffLevel
    ensures !stopped ==> r == 0
  {
    if stopped then diffLevel else 0
  }

  /** `getExtendedLevelOfCoroutineForExecution`: one level deeper than the trace level. */
  function ExecutionLevel(stopped: bool, diffLevel: int): (r: int)
    ensures r == TraceLevel(stopped, diffLevel) + 1
    ensures !stopped ==> r == 1
  {
    TraceLevel(stopped, diffLevel) + 1
  }

  // ---------------------------------------------------------------- trace slicing

  /** `getTraceOfCoroutine($coroutine)`: the frames from `level` on. */
  function TraceOfCoroutine(trace: seq<Frame>, level: int): seq<Frame> {
    TraceSlice(trace, level, 0)
  }

  /** Without an index the trace is read whole from the level on: all of it for a
      level of at most 0, nothing past its end. */
  lemma TraceOfCoroutineFromLevel(trace: seq<Frame>, level: int)
    ensures level <= 0 ==> TraceOfCoroutine(trace, level) == trace
    ensures 0 < level < |trace| ==> TraceOfCoroutine(trace, level) == trace[level..]
    ensures level >= |trace| ==> TraceOfCoroutine(trace, level) == []
  {
  }

  /** `getTraceOfCoroutine($coroutine, $index)`: the single frame at `level + index`,
      or the empty frame when there is none. */
  function FrameOfCoroutine(trace: seq<Frame>, level: int, index: int): (r: Frame)
    ensures 0 <= level + index < |trace| ==> r == trace[level + index]
    ensures level + index >= |trace| ==> r == EmptyFrame
  {
    var slice := TraceSlice(trace, level + index, 1);
    if slice == [] then EmptyFrame else slice[0]
  }

  /** Asking for one frame by index agrees with indexing the whole trace at that level,
      and finds the empty frame exactly past its end. */
  lemma FrameOfCoroutineIndexesTrace(trace: seq<Frame>, level: int, index: int)
    requires 0 <= level && 0 <= index
    ensures var whole := TraceOfCoroutine(trace, level);
      (index < |whole| ==> FrameOfCoroutine(trace, level, index) == whole[index]) &&
      (index >= |whole| ==> FrameOfCoroutine(trace, level, index) == EmptyFrame)
  {
    var whole := TraceOfCoroutine(trace, level);
    if level < |trace| {
      assert whole == trace[level..];
    }
  }

  // ---------------------------------------------------------------- simple info

  /** `source_position` of a summary row: `basename(file)(line)`, the line defaulting to
      0, or `<internal space>` for a frame without a file. */
  function SimplePosition(f: Frame): string {
    match f.file
    case None => "<internal space>"
    case Some(file) => Basename(file) + "(" + LineString(f.line, "0") + ")"
  }

  /** `getSimpleInfoOfCoroutine`: id, state, switches and elapsed time, then, when trace
      info is asked for, what the coroutine executes and where. */
  function SimpleInfo(id: CoroutineId, info: CoroutineInfo, stopped: bool, frame: Frame, showTraceInfo: bool): (r: Row)
    ensures RowKeys(r) == ["id", "state", "switches", "elapsed"] +
      (if showTraceInfo then ["executing", "source_position"] else [])
    ensures r[0] == ("id", IntVal(id)) && r[1] == ("state", StrVal(StateName(stopped, info)))
    ensures r[2] == ("switches", IntVal(info.switches))
    ensures showTraceInfo ==> r[4].1 == StrVal(ExecutingString(frame)) && r[5].1 == StrVal(SimplePosition(frame))
  {
    var basic := [("id", IntVal(id)), ("state", StrVal(StateName(stopped, info))),
      ("switches", IntVal(info.switches)), ("elapsed", StrVal(info.elapsed))];
    if showTraceInfo then
      basic + [("executing", StrVal(ExecutingString(frame))), ("source_position", StrVal(SimplePosition(frame)))]
    else basic
  }

  // ---------------------------------------------------------------- diff level

  /** The class a frame names, `''` without one. */
  function FrameClass(f: Frame): string {
    f.className.GetOr("")
  }

  /** The largest index of a frame whose class is a debugger class, 0 when there is
      none. */
  function LastDebuggerFrame(trace: seq<Frame>, classes: set<string>): (r: nat)
    ensures r == 0 || (r < |trace| && FrameClass(trace[r]) in classes)
    ensures forall i :: r < i < |trace| ==> FrameClass(trace[i]) !in classes
  {
    if trace == [] then 0
    else if FrameClass(trace[|trace| - 1]) in classes then |trace| - 1
    else LastDebuggerFrame(trace[..|trace| - 1], classes)
  }

  /** Every debugger frame lies at or above the scanned level. */
  lemma LastDebuggerFrameIsMaximum(trace: seq<Frame>, classes: set<string>, i: int)
    requires 0 <= i < |trace| && FrameClass(trace[i]) in classes
    ensures i <= LastDebuggerFrame(trace, classes) < |trace|
  {
  }

  /** The foreach over the trace in `getCoroutineTraceDiffLevel`. */
  method ScanDiffLevel(trace: seq<Frame>, classes: set<string>) returns (diffLevel: int)
    ensures diffLevel == LastDebuggerFrame(trace, classes)
  {
    diffLevel := 0;
    var index := 0;
    while index < |trace|
      invariant 0 <= index <= |trace|
      invariant diffLevel == LastDebuggerFrame(trace[..index], classes)
    {
      if FrameClass(trace[index]) in classes {
        diffLevel := index;
      }
      assert trace[..index + 1][..index] == trace[..index];
      index := index + 1;
    }
    assert trace[..|trace|] == trace;
  }

  /** The diff level of a coroutine: its last debugger frame, one less when the
      coroutine inspects itself (the `getTrace()` frame sits on top). */
  function DiffLevel(rt: Runtime, co: CoroutineId): (r: int)
    ensures -1 <= r && (r <= 0 || r < |Info(rt, co).trace|)
  {
    LastDebuggerFrame(Info(rt, co).trace, rt.debuggerClasses) - (if co == rt.current then 1 else 0)
  }

  /** With the calling coroutine's own `getTrace()` frame added back, the diff level is 0
      or the index of a debugger frame, and no debugger frame lies below it. */
  lemma DiffLevelIsLastDebuggerFrame(rt: Runtime, co: CoroutineId)
    ensures var last := DiffLevel(rt, co) + (if co == rt.current then 1 else 0);
      (last == 0 || (0 < last < |Info(rt, co).trace| && FrameClass(Info(rt, co).trace[last]) in rt.debuggerClasses)) &&
      forall i :: last < i < |Info(rt, co).trace| ==> FrameClass(Info(rt, co).trace[i]) !in rt.debuggerClasses
  {
  }

  /** The `static $diffLevelCache` of `getCoroutineTraceDiffLevel`, keyed by caller name. */
  class DiffLevelCache {
    var cache: map<string, int>

    constructor ()
      ensures cache == map[]
    {
      cache := map[];
    }

    /** `getCoroutineTraceDiffLevel`: the cached level for `name` whatever coroutine is
        asked about; otherwise the scanned level, which is then cached. */
    method GetCoroutineTraceDiffLevel(rt: Runtime, co: CoroutineId, name: string) returns (diffLevel: int)
      modifies this
      ensures name in old(cache) ==> diffLevel == old(cache)[name] && cache == old(cache)
      ensures name !in old(cache) ==> diffLevel == DiffLevel(rt, co) && cache == old(cache)[name := diffLevel]
    {
      if name in cache {
        return cache[name];
      }
      diffLevel := ScanDiffLevel(Info(rt, co).trace, rt.debuggerClasses);
      if co == rt.current {
        diffLevel := diffLevel - 1;
      }
      cache := cache[name := diffLevel];
    }
  }

  /** The level `GetCoroutineTraceDiffLevel` answers for `name` given the cache. */
  function CachedDiffLevel(cache: map<string, int>, name: string, rt: Runtime, co: CoroutineId): int {
    if name in cache then cache[name] else DiffLevel(rt, co)
  }

  /** Whether the coroutine's debug context exists and is parked in `break()`. */
  function IsStopped(contexts: map<CoroutineId, DebugContext>, co: CoroutineId): bool
    reads contexts.Values
  {
    co in contexts && contexts[co].stopped
  }

  /** `getExtendedLevelOfCoroutineForTrace`, with its context lookup and cached scan. */
  method ExtendedLevelForTrace(contexts: DebugContextMap, diffCache: DiffLevelCache, rt: Runtime, co: CoroutineId)
    returns (level: int)
    requires contexts.Valid()
    modifies contexts, diffCache
    ensures contexts.Valid() && co in contexts.contexts
    ensures co in old(contexts.contexts) ==> contexts.contexts == old(contexts.contexts)
    ensures co !in old(contexts.contexts) ==>
      contexts.contexts == old(contexts.contexts)[co := contexts.contexts[co]] &&
      fresh(contexts.contexts[co]) && !contexts.contexts[co].stop && !contexts.contexts[co].stopped
    ensures var stopped := old(IsStopped(contexts.contexts, co));
      level == TraceLevel(stopped, CachedDiffLevel(old(diffCache.cache), TraceLevelKey, rt, co)) &&
      diffCache.cache == if stopped && TraceLevelKey !in old(diffCache.cache)
        then old(diffCache.cache)[TraceLevelKey := level] else old(diffCache.cache)
  {
    var context := contexts.Get(co);
    if context.stopped {
      level := diffCache.GetCoroutineTraceDiffLevel(rt, co, TraceLevelKey);
    } else {
      level := 0;
    }
  }

  // ---------------------------------------------------------------- source by trace

  /** Where `getSourceFileContentByTrace` looks: nothing to show, a file and line, or
      the error it raises. */
  datatype SourceLookup = NoSource | SourceAt(file: string, line: int) | LookupFailed(error: Exception)

  /** The checks of `getSourceFileContentByTrace`: a frame outside the trace, an empty
      file name or a missing line show nothing; then the file must exist and the line
      must be numeric. */
  function LocateSource(files: map<string, seq<string>>, trace: seq<Frame>, frameIndex: int): (r: SourceLookup)
    ensures r.SourceAt? ==> r.file in files
  {
    if !(0 <= frameIndex < |trace|) then NoSource
    else
      var frame := trace[frameIndex];
      if frame.file.None? || PhpEmpty(frame.file.value) || frame.line.None? then NoSource
      else if frame.file.value !in files then LookupFailed(DebuggerException("Source File not found"))
      else match frame.line.value
        case LineInt(n) => SourceAt(frame.file.value, n)
        case LineText(text) =>
          if IsNumeric(text) then SourceAt(frame.file.value, ToInt(text))
          else LookupFailed(DebuggerException("Invalid source file line no"))
  }

  /** A frame with a readable file and an integer line is always found, at that line. */
  lemma LocateSourceFindsFrame(files: map<string, seq<string>>, trace: seq<Frame>, frameIndex: int, file: string, n: int)
    requires 0 <= frameIndex < |trace| && trace[frameIndex].file == Some(file) && trace[frameIndex].line == Some(LineInt(n))
    requires file in files && !PhpEmpty(file)
    ensures LocateSource(files, trace, frameIndex) == SourceAt(file, n)
  {
  }

  /** `getSourceFileContentByTrace`: the window around the frame's line, with the
      opened file and the line handed back; nothing, no file and line 0 when the frame
      has no source; the lookup's error otherwise. */
  method SourceFileContentByTrace(files: map<string, seq<string>>, trace: seq<Frame>, frameIndex: int)
    returns (r: Result<seq<SourceLine>>, sourceFile: Option<SourceFile>, sourceFileLine: int)
    ensures LocateSource(files, trace, frameIndex).NoSource? ==>
      r == Ok([]) && sourceFile == None && sourceFileLine == 0
    ensures LocateSource(files, trace, frameIndex).LookupFailed? ==>
      r == Fail(LocateSource(files, trace, frameIndex).error)
    ensures var at := LocateSource(files, trace, frameIndex);
      at.SourceAt? ==>
        sourceFileLine == at.line &&
        r == SourceWindow(files[at.file], at.line, SourceFileDefaultLineCount) &&
        sourceFile.Some? && fresh(sourceFile.value) &&
        sourceFile.value.lines == files[at.file]
  {
    sourceFile := None;
    sourceFileLine := 0;
    if !(0 <= frameIndex < |trace|) {
      return Ok([]), sourceFile, sourceFileLine;
    }
    var frame := trace[frameIndex];
    if frame.file.None? || PhpEmpty(frame.file.value) || frame.line.None? {
      return Ok([]), sourceFile, sourceFileLine;
    }
    var file := frame.file.value;
    if file !in files {
      return Fail(DebuggerException("Source File not found")), sourceFile, sourceFileLine;
    }
    var line: int;
    match frame.line.value {
      case LineInt(n) =>
        line := n;
      case LineText(text) =>
        if !IsNumeric(text) {
          return Fail(DebuggerException("Invalid source file line no")), sourceFile, sourceFileLine;
        }
        line := ToInt(text);
    }
    sourceFileLine := line;
    r, sourceFile := GetSourceFileContentAsTable(files, file, line, SourceFileDefaultLineCount);
  }
}
