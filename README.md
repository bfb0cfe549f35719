# SDB, the Swow coroutine debugger, and two companions, in Dafny

This project models the logic layer of SDB, the Swow debugger for PHP coroutines, and
proves properties of the model. It covers four parts.

- **The debugger object** (`Debuggers.Debugger`) and its parts:
  - the cursor: current coroutine, frame index, selected source file and line, last command;
  - the per-coroutine `stop`/`stopped` debug contexts (`DebugContexts`);
  - break points and the statement handler that matches them (`Breakpoints`);
  - the trace getters with their diff-level cache (`StaticGetters`);
  - the formatting helpers: ASCII tables, value, frame and trace rendering, source windows (`DebuggerHelper`);
  - the I/O layer (`DebuggerIo`) and the source-map path rewrite (`SourceMaps`);
  - the command table and its aliases (`CommandTable`);
  - the command handlers (`Commands`) and the read-evaluate loop `run` (`Runs`).
- **`CoroutineContext::get`**, a per-coroutine context created on first access (`CoroutineContexts`).
- **The engine-table hooks of the Swow extension** (`Hooks`):
  - replacing a function's handler, and hooking or registering function entries;
  - forced constant registration;
  - removing everything a module owns.
- **The line normaliser of the blank-line fixer tool** (`BlankFixer`).

The coroutine runtime is represented by values.

- `Host.Runtime` is a snapshot: the calling coroutine, the live coroutines in order, each with its switch count, trace and trace depth, plus the readable source files.
- `Host.Scheduler` holds the current snapshot. It also holds a script of the snapshots that follow each opaque step (a resume, a sleep), the recorded answers of the 100 ms channel pops, and the answers of expression evaluation. Swow's `resume()` is synchronous: the resumed coroutine runs until it gives control back. `comebacks` records, for each resume in turn, whether that happened because its statement handler broke at a statement. It records every resume, kill and spawned run.
- The transport is `DebuggerIo.DebuggerIo`: an output log, an error log, an output buffer and the input lines still to come.
- A source file is `DebuggerHelper.SourceFile`: the lines successive `fgets` calls return, and a read position.

PHP strings are `seq<char>` read as byte strings, and lengths are byte lengths. PHP's string functions are written out in `PhpStrings`: `explode`/`implode`, `trim`/`rtrim`, `str_replace`, `strtolower`, `bin2hex`/`hex2bin`, `basename`, `is_numeric` and the integer cast. The PHP "empty" test (`''` and `'0'`) is `PhpStrings.PhpEmpty`.

Methods that change state are proved against specification functions (for example `TableFormat` against `TableText`, `KillEach` against `KillRun`, `ScanZombies` against `Zombies`, `HookInternalFunctions` against `HookAll`). Lemmas state what those functions promise.

## Model

Paths are relative to the repository root.

| member | source | states |
|---|---|---|
| CoroutineContexts.CoroutineContextMap.Get | lib/swow-library/src/Context/CoroutineContext.php:24-28 | No coroutine means the current one. The first `get` for a coroutine stores a fresh context. Later calls return that same object and leave the map as it was. The map is initialised by the first call, and no two coroutines share a context. |
| CoroutineContexts.CoroutineContextMap.constructor | lib/swow-library/src/Context/CoroutineContext.php:21-22 | Before the first `get` the weak map does not exist yet. |
| DebugContexts.DebugContextMap.constructor | lib/swow-library/src/Debug/Debugger/DebuggerDebugContextTrait.php:25-26 | Before the first lookup the weak map does not exist yet. |
| DebugContexts.DebugContext.constructor | lib/swow-library/src/Debug/Debugger/DebuggerDebugContextTrait.php:31 | A new debug context is neither asked to stop nor stopped. |
| DebugContexts.DebugContextMap.Get | lib/swow-library/src/Debug/Debugger/DebuggerDebugContextTrait.php:28-32 | Lazy get-or-create: an existing context is returned and the map is unchanged. Otherwise a fresh context with both flags false is stored under the coroutine and no other entry changes. |
| CommandContexts.CommandContext.constructor | lib/swow-library/src/Debug/Debugger/DebuggerCommandContext.php:22-31 | The context holds the command and arguments it was built with, and `returnTo` starts as RETURN_TO_NONE. |
| CommandContexts.CommandContext.GetArgument | lib/swow-library/src/Debug/Debugger/DebuggerCommandContext.php:38-41 | There is an argument exactly when the index is within the arguments, and it is the argument at that index; otherwise null. |
| CommandContexts.CommandContext.GetCommand | lib/swow-library/src/Debug/Debugger/DebuggerCommandContext.php:33-36 | The command the context was built with. |
| CommandContexts.CommandContext.GetArguments | lib/swow-library/src/Debug/Debugger/DebuggerCommandContext.php:43-46 | The arguments the context was built with. |
| CommandContexts.CommandContext.GetReturnTo | lib/swow-library/src/Debug/Debugger/DebuggerCommandContext.php:48-51 | The current `returnTo`. |
| CommandContexts.CommandContext.SetReturnTo | lib/swow-library/src/Debug/Debugger/DebuggerCommandContext.php:48-56 | `getReturnTo` afterwards gives the value set. |
| SourceMaps.ReplacePairsAppend | lib/swow-library/src/Debug/Debugger/DebuggerSourceMapTrait.php:48-50 | The array form of `str_replace` applies the last pair to what the earlier pairs produced. |
| SourceMaps.ReplacePairsSingleAbsent | lib/swow-library/src/Debug/Debugger/DebuggerSourceMapTrait.php:48-50 | A position that does not mention the search string is left alone. |
| SourceMaps.ReplacePairsChain | lib/swow-library/src/Debug/Debugger/DebuggerSourceMapTrait.php:48-50 | An illustration of `ReplacePairsAppend` on concrete paths: with `/app` to `/src` and then `/src` to `/home`, `/app` becomes `/home`. |
| SourceMaps.BuildSearchReplace | lib/swow-library/src/Debug/Debugger/DebuggerSourceMapTrait.php:41-45 | The search and replace lists have one entry per member of the map, pairwise in the map's order. |
| SourceMaps.SourceMap.constructor | lib/swow-library/src/Debug/Debugger/DebuggerSourceMapTrait.php:34 | No source-map handler at first. |
| SourceMaps.SourceMap.ConstructDebuggerSourceMap | lib/swow-library/src/Debug/Debugger/DebuggerSourceMapTrait.php:36-53 | Without the environment variable or the file, nothing changes. Invalid JSON raises and leaves the handler alone. An empty map installs nothing. A non-empty map installs a rewrite whose pairs are the map's keys and values in order. |
| SourceMaps.SourceMap.SetSourceMapHandler | lib/swow-library/src/Debug/Debugger/DebuggerSourceMapTrait.php:55-60 | The handler becomes the one given, null included. |
| SourceMaps.SourceMap.CallSourceMapHandler | lib/swow-library/src/Debug/Debugger/DebuggerSourceMapTrait.php:62-70 | Without a handler the position comes back unchanged; with one, it is the handler's rewrite. |
| DebuggerIo.Rendering | lib/swow-library/src/Debug/Debugger/DebuggerIoTrait.php:106-109 | A table entry renders as `'No more content'` exactly when the table is empty. |
| DebuggerIo.ExplodePiecesAvoidSeparator | lib/swow-library/src/Debug/Debugger/DebuggerIoTrait.php:40 | No piece of `explode` on a one-character separator contains that character. |
| DebuggerIo.TrimIdempotent | lib/swow-library/src/Debug/Debugger/DebuggerIoTrait.php:43 | Trimming twice is trimming once. |
| DebuggerIo.TokensWellFormed | lib/swow-library/src/Debug/Debugger/DebuggerIoTrait.php:37-50 | Every argument `in` returns is non-empty, holds no space and is its own trim. |
| DebuggerIo.TokensOfWords | lib/swow-library/src/Debug/Debugger/DebuggerIoTrait.php:42-48 | Parts that are already words pass the trim-and-filter loop unchanged. |
| DebuggerIo.TokensOfJoinedWords | lib/swow-library/src/Debug/Debugger/DebuggerIoTrait.php:37-50 | Words joined by single spaces are tokenised back into exactly those words (the tokeniser inverts the join). |
| DebuggerIo.DebuggerIo.constructor | lib/swow-library/src/Debug/Debugger/DebuggerIoTrait.php:32-35 | A transport starts with empty output, error and buffer logs and the given input. |
| DebuggerIo.DebuggerIo.ReadLine | lib/swow-library/src/Debug/Debugger/DebuggerIoTrait.php:39 | The transport's next line, `''` once the input is exhausted; one line is consumed and nothing is written. |
| DebuggerIo.DebuggerIo.In | lib/swow-library/src/Debug/Debugger/DebuggerIoTrait.php:37-50 | The result is the tokenisation of the next line; one line is consumed and nothing is written. |
| DebuggerIo.DebuggerIo.Out | lib/swow-library/src/Debug/Debugger/DebuggerIoTrait.php:53-57 | Exactly the data is appended to the normal output. |
| DebuggerIo.DebuggerIo.Exception | lib/swow-library/src/Debug/Debugger/DebuggerIoTrait.php:59-63 | An exception message goes to the normal output, not the error output. |
| DebuggerIo.DebuggerIo.Error | lib/swow-library/src/Debug/Debugger/DebuggerIoTrait.php:65-69 | The data goes to the error output only. |
| DebuggerIo.DebuggerIo.Flush | lib/swow-library/src/Debug/Debugger/DebuggerIoTrait.php:71-76 | The whole buffer is sent as one batch, then the buffer is empty. |
| DebuggerIo.DebuggerIo.Cr | lib/swow-library/src/Debug/Debugger/DebuggerIoTrait.php:78-83 | Writes `"\r"` and nothing else. |
| DebuggerIo.DebuggerIo.Lf | lib/swow-library/src/Debug/Debugger/DebuggerIoTrait.php:85-88 | Writes `"\n"` and nothing else. |
| DebuggerIo.DebuggerIo.Clear | lib/swow-library/src/Debug/Debugger/DebuggerIoTrait.php:90-96 | Writes the terminal reset on a TTY, nothing otherwise. |
| DebuggerIo.DebuggerIo.SetCursorVisibility | lib/swow-library/src/Debug/Debugger/DebuggerIoTrait.php:111-117 | Writes the show or hide control on a TTY, nothing otherwise. |
| DebuggerIo.DebuggerIo.Table | lib/swow-library/src/Debug/Debugger/DebuggerIoTrait.php:106-109 | Writes the formatted table as one output. |
| DebuggerHelper.MaxLength | lib/swow-library/src/Debug/Debugger/DebuggerHelper.php:75-84 | The result bounds every line's length and is attained by one of them (0 for none). |
| DebuggerHelper.MaxLineLength | lib/swow-library/src/Debug/Debugger/DebuggerHelper.php:75-84 | The result bounds the length of every `\n`-separated line and is attained by one of them (0 for none). |
| DebuggerHelper.MaxLineLengthOfSingleLine | lib/swow-library/src/Debug/Debugger/DebuggerHelper.php:75-84 | A string without a line break is its own longest line. |
| DebuggerHelper.StringValueRendering | lib/swow-library/src/Debug/Debugger/DebuggerHelper.php:149-164 | A string longer than 8 bytes (argument mode) or 512 bytes (table mode) is cut to that length and followed by `...`; a shorter one is kept whole. Argument mode wraps the result in single quotes. |
| DebuggerHelper.IntValueRendering | lib/swow-library/src/Debug/Debugger/DebuggerHelper.php:142-144 | An integer renders as numeric text that casts back to the same integer. |
| DebuggerHelper.ValueToString | lib/swow-library/src/Debug/Debugger/DebuggerHelper.php:139-176 | A rendered string is at most 13 bytes in argument mode and 515 in table mode. In argument mode it is single-quoted. |
| DebuggerHelper.WidenWidth | lib/swow-library/src/Debug/Debugger/DebuggerHelper.php:99-103 | One scan step adds its key as a column if needed and widens only that column, to the maximum of its old width and the cell's width. |
| DebuggerHelper.WidthKeys | lib/swow-library/src/Debug/Debugger/DebuggerHelper.php:94-106 | There is a column exactly for each key that occurs in some row. |
| DebuggerHelper.WidthBound | lib/swow-library/src/Debug/Debugger/DebuggerHelper.php:94-106 | Every cell (its key and its table-mode rendering) fits its column. |
| DebuggerHelper.WidthAttained | lib/swow-library/src/Debug/Debugger/DebuggerHelper.php:94-106 | Each column is exactly as wide as its widest cell. |
| DebuggerHelper.WidthsAppend | lib/swow-library/src/Debug/Debugger/DebuggerHelper.php:94-106 | Scanning one more cell is one more widening step. |
| DebuggerHelper.Pad | lib/swow-library/src/Debug/Debugger/DebuggerHelper.php:118 | `%-Ns` pads on the right with spaces to N and never cuts. |
| DebuggerHelper.TableText | lib/swow-library/src/Debug/Debugger/DebuggerHelper.php:89-137 | The text is `'No more content'` exactly when the table is empty. |
| DebuggerHelper.TableLines | lib/swow-library/src/Debug/Debugger/DebuggerHelper.php:113-136 | For a table without line breaks in its cells, the text has exactly rows + 4 lines: border, header, `=` line, one per row, border. It has no trailing line break. |
| DebuggerHelper.TableLineWidths | lib/swow-library/src/Debug/Debugger/DebuggerHelper.php:108-134 | When every row has the columns in the column order, every line (borders, header, rows) is exactly the sum of the widths + 3 per column + 1 wide. |
| DebuggerHelper.CellsTextLength | lib/swow-library/src/Debug/Debugger/DebuggerHelper.php:115-120 | A table line is the sum of its cells' widths + 3 per cell + 1 long. |
| DebuggerHelper.ScanColumnWidths | lib/swow-library/src/Debug/Debugger/DebuggerHelper.php:94-106 | The nested width loop computes the column scan over every cell of every row. |
| DebuggerHelper.RenderHeader | lib/swow-library/src/Debug/Debugger/DebuggerHelper.php:115-120 | The header loop writes the header line of those columns. |
| DebuggerHelper.RenderRow | lib/swow-library/src/Debug/Debugger/DebuggerHelper.php:125-132 | The per-row loop writes the row's data line, cells in the row's own order. |
| DebuggerHelper.RenderRows | lib/swow-library/src/Debug/Debugger/DebuggerHelper.php:124-133 | The row loop writes every data line followed by a line break. |
| DebuggerHelper.TableFormat | lib/swow-library/src/Debug/Debugger/DebuggerHelper.php:89-137 | `tableFormat` returns the table text, whose line count and widths the lemmas above fix. |
| DebuggerHelper.ConvertFrameToExecutingString | lib/swow-library/src/Debug/Debugger/DebuggerHelper.php:185-205 | The loop builds the frame's executing string. |
| DebuggerHelper.ExecutingStringUnknown | lib/swow-library/src/Debug/Debugger/DebuggerHelper.php:187-202 | A frame renders as `Unknown` exactly when its function name is missing, `''` or `'0'`. |
| DebuggerHelper.ExecutingStringShape | lib/swow-library/src/Debug/Debugger/DebuggerHelper.php:187-199 | Otherwise it is class, then `::` only when the class is non-empty, then the function and its rendered arguments in parentheses. |
| DebuggerHelper.RenderedArgEndsCleanly | lib/swow-library/src/Debug/Debugger/DebuggerHelper.php:194-197 | Every non-float argument rendering ends in a character that `rtrim($s, ', ')` keeps, so the trim removes only the final separator. |
| DebuggerHelper.TraceRowsGrow | lib/swow-library/src/Debug/Debugger/DebuggerHelper.php:224-240 | Without a frame index, each frame adds one row numbered by its position. |
| DebuggerHelper.ConvertTraceToTable | lib/swow-library/src/Debug/Debugger/DebuggerHelper.php:221-250 | Each row has the frame's number, executing string and position (`<internal space>` without a file, `?` without a line). A frame index keeps at most its own row. 'No trace info' is raised exactly when no row was collected. |
| DebuggerHelper.SourceFile.constructor | lib/swow-library/src/Debug/Debugger/DebuggerHelper.php:278-279 | A freshly opened file is read from its first line. |
| DebuggerHelper.SourceFile.Fgets | lib/swow-library/src/Debug/Debugger/DebuggerHelper.php:282 | Before the end, `fgets` gives the next line and advances one line; at the end it gives `''` and stays. |
| DebuggerHelper.NumberedRowsShape | lib/swow-library/src/Debug/Debugger/DebuggerHelper.php:291-301 | A numbered read gives consecutive numbers. It is bounded by the file and by the end number. Each row is that file line, right-trimmed, and only the requested line is marked. |
| DebuggerHelper.ReadNumberedRows | lib/swow-library/src/Debug/Debugger/DebuggerHelper.php:291-301 | The counter-driven read loop collects those rows and advances the file by their number. |
| DebuggerHelper.GetSourceFileContentAsTableAsWritten | lib/swow-library/src/Debug/Debugger/DebuggerHelper.php:266-304 | The function with its skip loop as written. A missing file raises 'Failed to open stream'. An empty file raises 'File Line not found'. Otherwise the result is the as-written window and the opened file. |
| DebuggerHelper.GetSourceFileContentAsTable | lib/swow-library/src/Debug/Debugger/DebuggerHelper.php:266-304 | The same with the skip loop stopping after the lines before the window's start. The other members use this one. |
| DebuggerHelper.GetFollowingSourceFileContent | lib/swow-library/src/Debug/Debugger/DebuggerHelper.php:312-330 | The loop reads on from where the file stands, numbering rows from start + offset + 1 and stopping at the end of the file. |
| DebuggerHelper.FollowingContentShape | lib/swow-library/src/Debug/Debugger/DebuggerHelper.php:319-328 | The following window holds at most lineCount - 1 consecutive, unmarked rows. |
| DebuggerHelper.SourceWindowRead | lib/swow-library/src/Debug/Debugger/DebuggerHelper.php:273-301 | The window starts at `line` when `line < 2`, else at `line - (lineCount - 5)`. It is the numbered read after the skipped lines. |
| DebuggerHelper.SourceWindowRows | lib/swow-library/src/Debug/Debugger/DebuggerHelper.php:291-301 | The window has at most lineCount rows, consecutively numbered. Each is that line of the file, right-trimmed, and only the requested line is marked `N->`. |
| DebuggerHelper.SourceWindowShowsLine | lib/swow-library/src/Debug/Debugger/DebuggerHelper.php:273-301 | For a line of the file and a window of at least five lines, the window contains the requested line, marked. |
| DebuggerHelper.SourceWindowAsWrittenEmptyNearTop | lib/swow-library/src/Debug/Debugger/DebuggerHelper.php:280-287 | As written, with the default line count, the window around any of the first four lines of a non-empty file is empty. |
| DebuggerHelper.SourceWindowNearTopExample | lib/swow-library/src/Debug/Debugger/DebuggerHelper.php:273-301 | On a ten-line file at line 1: nothing as written, eight rows starting with the marked line 1 as intended. |
| StaticGetters.ExecutionLevel | lib/swow-library/src/Debug/Debugger/DebuggerStaticGetterTrait.php:41-56 | The execution level is the trace level + 1, and 1 for a coroutine that is not stopped. |
| StaticGetters.StateName | lib/swow-library/src/Debug/Debugger/DebuggerStaticGetterTrait.php:30-39 | `stopped` for a coroutine parked in `break()`, otherwise the scheduler's own state name. |
| StaticGetters.TraceLevel | lib/swow-library/src/Debug/Debugger/DebuggerStaticGetterTrait.php:41-51 | A stopped coroutine's trace is read from its diff level, any other from level 0. |
| StaticGetters.TraceOfCoroutineFromLevel | lib/swow-library/src/Debug/Debugger/DebuggerStaticGetterTrait.php:90-105 | Without an index: the whole trace from the level on, the whole trace for a level of at most 0, nothing past its end. |
| StaticGetters.FrameOfCoroutine | lib/swow-library/src/Debug/Debugger/DebuggerStaticGetterTrait.php:90-105 | With an index, the frame at level + index, or the empty frame past the end. |
| StaticGetters.FrameOfCoroutineIndexesTrace | lib/swow-library/src/Debug/Debugger/DebuggerStaticGetterTrait.php:90-105 | Asking for one frame agrees with indexing the whole trace taken from the same level. It finds the empty frame exactly past its end. |
| StaticGetters.SimpleInfo | lib/swow-library/src/Debug/Debugger/DebuggerStaticGetterTrait.php:130-153 | The row has id, state (`stopped` for a parked coroutine), switches and elapsed. Only when trace info is asked for does it add executing and `basename(file)(line)` or `<internal space>`. |
| StaticGetters.LastDebuggerFrame | lib/swow-library/src/Debug/Debugger/DebuggerStaticGetterTrait.php:163-170 | The result is 0 or the index of a debugger-class frame, and no debugger frame lies after it. |
| StaticGetters.LastDebuggerFrameIsMaximum | lib/swow-library/src/Debug/Debugger/DebuggerStaticGetterTrait.php:163-170 | Every debugger frame lies at or before that index. |
| StaticGetters.ScanDiffLevel | lib/swow-library/src/Debug/Debugger/DebuggerStaticGetterTrait.php:163-170 | The foreach computes the last debugger frame. |
| StaticGetters.DiffLevel | lib/swow-library/src/Debug/Debugger/DebuggerStaticGetterTrait.php:163-177 | The level is at least -1, and a positive level indexes a frame of the trace. |
| StaticGetters.DiffLevelIsLastDebuggerFrame | lib/swow-library/src/Debug/Debugger/DebuggerStaticGetterTrait.php:163-177 | With the calling coroutine's own `getTrace()` frame added back, the level is 0 or the index of a debugger-class frame, and no debugger frame lies after it. |
| StaticGetters.DiffLevelCache.constructor | lib/swow-library/src/Debug/Debugger/DebuggerStaticGetterTrait.php:158 | The cache starts empty. |
| StaticGetters.DiffLevelCache.GetCoroutineTraceDiffLevel | lib/swow-library/src/Debug/Debugger/DebuggerStaticGetterTrait.php:156-178 | A cached name returns its cached level whatever the coroutine, cache unchanged. Otherwise it returns the scanned level (one less for the calling coroutine) and caches it under the name. |
| StaticGetters.ExtendedLevelForTrace | lib/swow-library/src/Debug/Debugger/DebuggerStaticGetterTrait.php:41-51 | The level is the cached diff level for a stopped coroutine and 0 otherwise. The context lookup may only add a fresh, unflagged context for the coroutine. |
| StaticGetters.LocateSource | lib/swow-library/src/Debug/Debugger/DebuggerStaticGetterTrait.php:196-208 | A located source is always a readable file. |
| StaticGetters.LocateSourceFindsFrame | lib/swow-library/src/Debug/Debugger/DebuggerStaticGetterTrait.php:196-214 | A frame with a readable non-empty file and an integer line is found at that file and line. |
| StaticGetters.SourceFileContentByTrace | lib/swow-library/src/Debug/Debugger/DebuggerStaticGetterTrait.php:190-217 | A missing frame, empty file or missing line gives an empty table, no file and line 0. A missing file or non-numeric line gives that error. Otherwise the window around the line is returned, with the freshly opened file and the line. |
| Host.Remove | lib/swow-library/src/Debug/Debugger/Debugger.php:220-233 | The ids other than the given one, nothing else. |
| Host.RemoveAppend | lib/swow-library/src/Debug/Debugger/Debugger.php:223-230 | Filtering one more id extends the filtered list by it unless it is the excluded one. |
| Host.Keep | lib/swow-library/src/Debug/Debugger/Debugger.php:277-288 | The listed ids equal to the given one, nothing else. |
| Host.Scheduler.Advance | lib/swow-library/src/Debug/Debugger/DebuggerCommandTrait.php:287 | A sleep moves the runtime to the next scripted snapshot and changes nothing else. |
| Host.Scheduler.Resume | lib/swow-library/src/Debug/Debugger/DebuggerCommandTrait.php:191-206 | A resume is recorded and the runtime moves on. It answers whether the resumed coroutine came back by breaking and uses that answer up. |
| Host.Scheduler.Kill | lib/swow-library/src/Debug/Debugger/DebuggerCommandTrait.php:310-318 | The killed coroutine is gone from the live set and the order; the kill is recorded. |
| Host.Scheduler.KillAll | lib/swow-library/src/Debug/Debugger/DebuggerCommandTrait.php:321-325 | Only the calling coroutine stays alive. |
| Host.Scheduler.SpawnRun | lib/swow-library/src/Debug/Debugger/Debugger.php:351-358 | Spawning the program runner is recorded and changes no snapshot. |
| Host.Scheduler.ConsumePolls | lib/swow-library/src/Debug/Debugger/DebuggerBreakpointTrait.php:136-149 | The channel answers a wait consumed are used up. |
| Host.TraceSlice | lib/swow-library/src/Debug/Debugger/DebuggerStaticGetterTrait.php:99 | `getTrace(level, limit)` gives the frames from the level on, at most `limit` of them when it is positive. |
| Breakpoints.BaseFunctionIsBare | lib/swow-library/src/Debug/Debugger/DebuggerBreakpointTrait.php:86-95 | The bare function name holds no `::`. It holds no `\` unless the full name has a `::`. A name with neither is its own bare name. |
| Breakpoints.ExplodeLastIsSuffix | lib/swow-library/src/Debug/Debugger/DebuggerBreakpointTrait.php:89-94 | The last piece of `explode` is a suffix of the input. |
| Breakpoints.FirstWhereIsFirst | lib/swow-library/src/Debug/Debugger/DebuggerBreakpointTrait.php:98-109 | A search finds something exactly when some element qualifies, and what it finds is the first one. |
| Breakpoints.FirstMatchIsFirst | lib/swow-library/src/Debug/Debugger/DebuggerBreakpointTrait.php:96-109 | There is a hit exactly when some break point equals `basename:line`, the bare function, the full function or `file:line`. The hit is the first such break point. |
| Breakpoints.FindHit | lib/swow-library/src/Debug/Debugger/DebuggerBreakpointTrait.php:96-109 | The foreach with its early `break` finds the first matching break point. |
| Breakpoints.StepBreaksEverywhere | lib/swow-library/src/Debug/Debugger/DebuggerBreakpointTrait.php:72-79 | A trace depth is a frame count below PHP_INT_MAX and a diff level is at least -1. So with the depth limit at PHP_INT_MAX every statement passes the depth test, and `step` stops at the next one. |
| Breakpoints.BreakpointList.constructor | lib/swow-library/src/Debug/Debugger/DebuggerBreakpointTrait.php:30-33 | No handler and no break points at first. |
| Breakpoints.BreakpointList.CheckBreakPointHandler | lib/swow-library/src/Debug/Debugger/DebuggerBreakpointTrait.php:116-121 | Afterwards a handler is registered. An existing handler is kept and nothing more is registered with the engine. |
| Breakpoints.BreakpointList.AddBreakPoint | lib/swow-library/src/Debug/Debugger/DebuggerBreakpointTrait.php:43-50 | The pattern is appended at the end, earlier entries unchanged, and a handler is registered. |
| Breakpoints.BreakpointList.DestructDebuggerBreakpoint | lib/swow-library/src/Debug/Debugger/DebuggerBreakpointTrait.php:35-41 | A registered handler is removed from the engine and forgotten; the patterns stay. |
| Breakpoints.BreakSuspend | lib/swow-library/src/Debug/Debugger/DebuggerBreakpointTrait.php:52-57 | `break()` marks the coroutine stopped before yielding; `stop` is untouched. |
| Breakpoints.BreakResume | lib/swow-library/src/Debug/Debugger/DebuggerBreakpointTrait.php:57-58 | After resumption it is no longer stopped; `stop` is untouched. |
| Breakpoints.WaitLoopStops | lib/swow-library/src/Debug/Debugger/DebuggerBreakpointTrait.php:136-149 | The wait ends normally after n polls exactly when the first n - 1 are timeouts that still see the coroutine running and the n-th is a timeout that sees it stopped. |
| Breakpoints.WaitSeesStopped | lib/swow-library/src/Debug/Debugger/DebuggerBreakpointTrait.php:125-149 | A wait that ends normally leaves the coroutine seen stopped. |
| Breakpoints.WaitLoopFirstPoll | lib/swow-library/src/Debug/Debugger/DebuggerBreakpointTrait.php:140-146 | A popped signal always cancels. Any channel error other than a timeout ends the wait with that error. |
| Breakpoints.WaitStoppedCoroutine | lib/swow-library/src/Debug/Debugger/DebuggerBreakpointTrait.php:123-152 | It returns at once when already stopped. Otherwise the do-while gives the wait's outcome and consumes its polls. `stopped` ends as the last poll saw it, and `stop` is untouched. |
| CommandTable.LookupFinds | lib/swow-library/src/Debug/Debugger/DebuggerCommandTrait.php:60-63 | In an array with unique keys, a present key finds its own value. |
| CommandTable.LookupMisses | lib/swow-library/src/Debug/Debugger/DebuggerCommandTrait.php:60-63 | The lookup fails exactly for an absent key; otherwise it answers a stored pair's value. |
| CommandTable.ConvertCommandShortNameToFullName | lib/swow-library/src/Debug/Debugger/DebuggerCommandTrait.php:60-63 | The result is the full name stored with the short name, or the name itself when it is not a short name. It is never a short name. |
| CommandTable.ShortNamesDistinct | lib/swow-library/src/Debug/Debugger/DebuggerCommandTrait.php:42-58 | The short-name map has unique keys. |
| CommandTable.FullNamesAreNotShortNames | lib/swow-library/src/Debug/Debugger/DebuggerCommandTrait.php:42-58 | No full name is itself a short name. |
| CommandTable.ConvertExpandsShortName | lib/swow-library/src/Debug/Debugger/DebuggerCommandTrait.php:42-63 | Every listed short name expands to its full name (`b` to `breakpoint`, `exec` to `print`, ...). |
| CommandTable.ConvertKeepsOtherNames | lib/swow-library/src/Debug/Debugger/DebuggerCommandTrait.php:60-63 | Any other name is returned unchanged. |
| CommandTable.ConvertIdempotent | lib/swow-library/src/Debug/Debugger/DebuggerCommandTrait.php:60-63 | Expanding twice is expanding once. |
| CommandTable.Store | lib/swow-library/src/Debug/Debugger/DebuggerCommandTrait.php:76 | An existing key keeps its place and takes the new method; a new key goes at the end. |
| CommandTable.FindMethod | lib/swow-library/src/Debug/Debugger/DebuggerCommandTrait.php:79 | A method is found exactly when the key is in the table, and it is the one stored there. |
| CommandTable.StoreKeys | lib/swow-library/src/Debug/Debugger/DebuggerCommandTrait.php:76 | Storing keeps keys unique and adds exactly its key. |
| CommandTable.CommandTableUnique | lib/swow-library/src/Debug/Debugger/DebuggerCommandTrait.php:68-78 | The built table holds each key once. |
| CommandTable.CommandTableKeys | lib/swow-library/src/Debug/Debugger/DebuggerCommandTrait.php:68-78 | Its keys are exactly the lower-cased names, minus the `command` prefix, of the methods whose names start with `command`. |
| CommandTable.CommandTableHoldsLast | lib/swow-library/src/Debug/Debugger/DebuggerCommandTrait.php:68-78 | Under each key sits the last method giving that key. |
| CommandTable.FindMethodGivesLast | lib/swow-library/src/Debug/Debugger/DebuggerCommandTrait.php:68-86 | Looking a key up in the built table finds the last method giving it, and nothing when none gives it. |
| CommandTable.CommandRegistry.constructor | lib/swow-library/src/Debug/Debugger/DebuggerCommandTrait.php:68 | The static table starts empty. |
| CommandTable.CommandRegistry.Load | lib/swow-library/src/Debug/Debugger/DebuggerCommandTrait.php:68-78 | The table is built only while it is empty; afterwards it is kept. |
| CommandTable.ShownNameReadsBack | lib/swow-library/src/Debug/Debugger/DebuggerCommandTrait.php:79-85 | The unknown-command message shows only printable characters. A printable name is shown as is, any other one in hex that `hex2bin` reads back to the name. |
| CommandTable.AliasesOfExactly | lib/swow-library/src/Debug/Debugger/DebuggerCommandTrait.php:332-340 | `array_keys($map, $name, true)` lists exactly the short names stored with that full name. |
| CommandTable.HelpAliasesExpand | lib/swow-library/src/Debug/Debugger/DebuggerCommandTrait.php:332-340 | Each alias `help` lists for a command expands back to that command. |
| CommandTable.HelpRows | lib/swow-library/src/Debug/Debugger/DebuggerCommandTrait.php:332-340 | One help row per table key, in table order. |
| Debuggers.MapPosition | lib/swow-library/src/Debug/Debugger/Debugger.php:193-203 | Only the last cell of a row, its source position, is passed through the source map. |
| Debuggers.MapPositionsWithoutHandler | lib/swow-library/src/Debug/Debugger/Debugger.php:193-203 | Without a source map the trace table is shown as converted. |
| Debuggers.TraceRowsMapped | lib/swow-library/src/Debug/Debugger/Debugger.php:193-203 | Every trace row keeps its frame number and executing string, and its position is rewritten by the source map. |
| Debuggers.SummariesAppend | lib/swow-library/src/Debug/Debugger/Debugger.php:220-233 | A summary row for the next listed id extends the rows that match the listed ids. |
| Debuggers.Debugger.constructor | lib/swow-library/src/Debug/Debugger/Debugger.php:50-93 | The debugger starts as a daemon, not reloading. It has no break points, handler or source map, the depth limit is PHP_INT_MAX, and the cursor is on the calling coroutine, frame 0, with no source file. |
| Debuggers.Debugger.SetLastCommand | lib/swow-library/src/Debug/Debugger/Debugger.php:105-110 | Only the last command changes. |
| Debuggers.Debugger.SetCurrentCoroutine | lib/swow-library/src/Debug/Debugger/Debugger.php:117-123 | The cursor moves to the coroutine and always back to frame 0; nothing else changes. |
| Debuggers.Debugger.SetCurrentSourceFile | lib/swow-library/src/Debug/Debugger/Debugger.php:165-170 | Only the source file changes. |
| Debuggers.Debugger.SetCurrentSourceFileLine | lib/swow-library/src/Debug/Debugger/Debugger.php:177-182 | Only the source line changes. |
| Debuggers.Debugger.TraceOfCoroutineNow | lib/swow-library/src/Debug/Debugger/DebuggerStaticGetterTrait.php:90-105 | `getTraceOfCoroutine` returns the coroutine's trace from its extended trace level. The lookups keep that level and only add the coroutine's fresh context. |
| Debuggers.Debugger.CurrentCoroutineTrace | lib/swow-library/src/Debug/Debugger/Debugger.php:135-138 | The trace of the cursor's coroutine, and the existing contexts are kept. |
| Debuggers.Debugger.CurrentFrameIndexExtendedForExecution | lib/swow-library/src/Debug/Debugger/Debugger.php:145-148 | The cursor's frame index plus the current coroutine's execution level. |
| Debuggers.Debugger.SetCurrentFrameIndex | lib/swow-library/src/Debug/Debugger/Debugger.php:150-158 | 'Invalid frame index' exactly when the trace is shorter than the index, the index unchanged. Otherwise the index is set, and an index equal to the length is accepted. |
| Debuggers.Debugger.IsNoOtherCoroutinesRunning | lib/swow-library/src/Debug/Debugger/Debugger.php:277-288 | True exactly when every live coroutine is the caller. |
| Debuggers.Debugger.SimpleInfoOfCoroutine | lib/swow-library/src/Debug/Debugger/DebuggerStaticGetterTrait.php:130-153 | The summary row from the coroutine's context and, when asked, its frame 0. |
| Debuggers.Debugger.ShowTrace | lib/swow-library/src/Debug/Debugger/Debugger.php:193-203 | An empty trace table raises 'No trace info' and prints nothing. Otherwise it prints the table with every position passed through the source map. |
| Debuggers.Debugger.SummaryAndTrace | lib/swow-library/src/Debug/Debugger/Debugger.php:207-208 | The summary row without trace info, then the trace. |
| Debuggers.Debugger.ShowCoroutine | lib/swow-library/src/Debug/Debugger/Debugger.php:205-215 | Prints the summary row, then, when there is a trace, a carriage return and the trace table. |
| Debuggers.Debugger.PrintCoroutine | lib/swow-library/src/Debug/Debugger/Debugger.php:209-214 | The printing half of the same. |
| Debuggers.Debugger.CoroutineRow | lib/swow-library/src/Debug/Debugger/Debugger.php:225-230 | One summary row with trace info, its id first, its position passed through the source map. |
| Debuggers.Debugger.ShowCoroutines | lib/swow-library/src/Debug/Debugger/Debugger.php:220-233 | One row per listed coroutine except the caller, in order, printed as one table. |
| Debuggers.Debugger.ShowSourceFileContentByTrace | lib/swow-library/src/Debug/Debugger/Debugger.php:241-262 | A debugger error is preceded by a line feed and raised again. Otherwise the cursor moves to the frame's file and line (no file and line 0 without source), even when the window is empty, which prints a line feed. |
| Debuggers.Debugger.ShowFollowingSourceFileContent | lib/swow-library/src/Debug/Debugger/Debugger.php:264-275 | It raises, printing nothing, when no file is selected. Otherwise it prints the following rows and advances the cursor line by lineCount - 1. |
| Debuggers.Debugger.BreakPointHandler | lib/swow-library/src/Debug/Debugger/DebuggerBreakpointTrait.php:66-114 | A coroutine asked to stop breaks exactly when its depth minus the cached diff level is at most the depth limit, and it is never matched. Otherwise the first matching break point is announced, then `stop` is set and it breaks; with no hit nothing changes. |
| Debuggers.Debugger.BreakIfDeepEnough | lib/swow-library/src/Debug/Debugger/DebuggerBreakpointTrait.php:72-79 | The depth test and its break; the diff level is cached under `breakPointHandler`. |
| Debuggers.Debugger.BreakOnHit | lib/swow-library/src/Debug/Debugger/DebuggerBreakpointTrait.php:81-113 | The matching branch: announcement, `stop` and break exactly on a hit. |
| Debuggers.Debugger.ResumeParked | lib/swow-library/src/Debug/Debugger/DebuggerBreakpointTrait.php:57-113 | Resuming a parked coroutine records the resume and runs it inside `resume()`. It is parked again exactly when it came back by breaking, and then either it was asked to stop or a break point matches the new position. The hit is announced only for a coroutine that was not asked to stop. `stop` is set when it parks again. |
| Debuggers.Debugger.WaitStopped | lib/swow-library/src/Debug/Debugger/DebuggerBreakpointTrait.php:123-152 | `waitStoppedCoroutine` on the recorded answers: its outcome, the answers used up, and `Done` only with the coroutine stopped. |
| Debuggers.Debugger.Logo | lib/swow-library/src/Debug/Debugger/Debugger.php:290-293 | Clears the screen (on a TTY), then writes the logo (the seven lines of block letters and the banner) and a line feed. |
| Commands.Ps | lib/swow-library/src/Debug/Debugger/DebuggerCommandTrait.php:89-92 | Writes one table summarising every live coroutine but the caller. |
| Commands.ShowCurrentSource | lib/swow-library/src/Debug/Debugger/DebuggerCommandTrait.php:96-97 | The source around the cursor coroutine's frame 0, with its outcome. |
| Commands.Backtrace | lib/swow-library/src/Debug/Debugger/DebuggerCommandTrait.php:94-98 | Prints the cursor coroutine's summary and trace, then its source at frame 0. The cursor is kept. |
| Commands.Attach | lib/swow-library/src/Debug/Debugger/DebuggerCommandTrait.php:120-126 | The handler is installed first. Attaching to the caller raises. Otherwise only the target's `stop` is set, and its `stopped` flag and every other context are unchanged. |
| Commands.SwitchTo | lib/swow-library/src/Debug/Debugger/DebuggerCommandTrait.php:127-128 | The cursor moves to the coroutine at frame 0 and its backtrace is shown. |
| Commands.FocusCoroutine | lib/swow-library/src/Debug/Debugger/DebuggerCommandTrait.php:120-128 | With `attach` the caller is refused with nothing changed. Otherwise the cursor moves to the coroutine (armed to stop under `attach`) and its backtrace is shown. |
| Commands.AttachAndSwitch | lib/swow-library/src/Debug/Debugger/DebuggerCommandTrait.php:120-128 | The `attach` branch of the same. |
| Commands.CoroutineOrAttach | lib/swow-library/src/Debug/Debugger/DebuggerCommandTrait.php:110-129 | A non-numeric id and an unknown coroutine each raise their message with nothing changed. Otherwise `coroutine` switches to it, and `attach` also installs the handler and arms it, refusing the caller. |
| Commands.Frame | lib/swow-library/src/Debug/Debugger/DebuggerCommandTrait.php:131-147 | A missing or non-numeric index raises with nothing changed. Otherwise a changed index is announced first. A too-large index then raises with the index kept; an accepted one is set and its trace row and source are shown. |
| Commands.SwitchFrame | lib/swow-library/src/Debug/Debugger/DebuggerCommandTrait.php:137-146 | The same once the index is numeric. |
| Commands.AnnounceSwitch | lib/swow-library/src/Debug/Debugger/DebuggerCommandTrait.php:137-139 | The switch notice is written only when the index changes. |
| Commands.FrameAt | lib/swow-library/src/Debug/Debugger/DebuggerCommandTrait.php:140-146 | `setCurrentFrameIndex`, then the frame's view only when it was accepted. |
| Commands.ShowCurrentFrame | lib/swow-library/src/Debug/Debugger/DebuggerCommandTrait.php:141-146 | The selected frame's trace row and source, the trace unchanged. |
| Commands.ShowFrame | lib/swow-library/src/Debug/Debugger/DebuggerCommandTrait.php:142-146 | The frame's trace row, then its source, with the cursor kept. |
| Commands.BreakPoint | lib/swow-library/src/Debug/Debugger/DebuggerCommandTrait.php:149-161 | An empty pattern raises 'Invalid break point'. The pattern is added, and announced, only when the cursor is on the caller; otherwise nothing changes. |
| Commands.EnsureStopped | lib/swow-library/src/Debug/Debugger/DebuggerCommandTrait.php:183-189 | A parked coroutine passes. One asked to stop is waited for. Any other raises 'Not in debugging'. `Done` means the coroutine is stopped. Nothing it does changes what the next resume will do. |
| Commands.StepOnce | lib/swow-library/src/Debug/Debugger/DebuggerCommandTrait.php:191-201 | `next` records its depth before resuming and `step` keeps the limit. A coroutine that broke again inside the resume is not polled for. Otherwise the wait polls the channel. Once it is stopped, the limit is PHP_INT_MAX and frame 0 of its new trace is shown after whatever the resume printed. Until then the outcome is the wait's and nothing is printed. |
| Commands.ShowStepped | lib/swow-library/src/Debug/Debugger/DebuggerCommandTrait.php:197-200 | The depth limit is lifted and frame 0 of the new trace is selected and shown. |
| Commands.ResumeStep | lib/swow-library/src/Debug/Debugger/DebuggerCommandTrait.php:191-195 | `next` records the trace depth less the diff level before resuming; `step` leaves the limit. The coroutine is left parked exactly when it broke again inside the resume, and the resume's output is written. |
| Commands.ResumeAndWait | lib/swow-library/src/Debug/Debugger/DebuggerCommandTrait.php:191-196 | The recorded depth for `next`, then the resume and the wait. The wait returns at once when the coroutine parked again inside the resume. |
| Commands.ContinueRun | lib/swow-library/src/Debug/Debugger/DebuggerCommandTrait.php:202-206 | `continue` clears `stop`, announces and resumes the coroutine. `stop` and `stopped` end set, and "Hit breakpoint" is printed, exactly when it came back by breaking at a matching break point. |
| Commands.DebugParked | lib/swow-library/src/Debug/Debugger/DebuggerCommandTrait.php:190-209 | The switch on a parked coroutine: `continue` and `next`/`step` behave as above, and any other command raises 'Never here' with nothing changed. |
| Commands.Debugging | lib/swow-library/src/Debug/Debugger/DebuggerCommandTrait.php:178-210 | 'Not in debugging' (nothing changed) for a coroutine neither stopped nor armed. An armed coroutine is waited for. Then `continue` and `next`/`step` behave as above, and any other command raises 'Never here'. |
| Commands.List | lib/swow-library/src/Debug/Debugger/DebuggerCommandTrait.php:212-222 | A non-numeric count raises. Without an argument the default count is used. The following rows of the selected file are printed and the cursor line advances by count - 1. |
| Commands.EvaluateAtCursor | lib/swow-library/src/Debug/Debugger/DebuggerCommandTrait.php:230-233 | The expression is evaluated in the cursor's coroutine at its extended frame index. Its rendering is printed, or its error raised. |
| Commands.Print | lib/swow-library/src/Debug/Debugger/DebuggerCommandTrait.php:224-234 | An expression PHP counts as empty raises 'No expression'. Otherwise the expression is evaluated as above. |
| Commands.Exec | lib/swow-library/src/Debug/Debugger/DebuggerCommandTrait.php:236-249 | An empty expression raises. Otherwise a coroutine evaluates it: a rendering is printed, and a failed evaluation leaves the command waiting with nothing printed. |
| Commands.Vars | lib/swow-library/src/Debug/Debugger/DebuggerCommandTrait.php:251-273 | Evaluates `get_defined_vars()` at the cursor and prints the rendering. |
| Commands.Sampled | lib/swow-library/src/Debug/Debugger/DebuggerCommandTrait.php:284-286 | The weak map holds each listed coroutine once. |
| Commands.UnswitchedMembers | lib/swow-library/src/Debug/Debugger/DebuggerCommandTrait.php:289-293 | A coroutine is reported exactly when it was listed, is still alive and its switch count did not move. |
| Commands.UnswitchedDistinct | lib/swow-library/src/Debug/Debugger/DebuggerCommandTrait.php:289-293 | No coroutine is reported twice. |
| Commands.ZombiesAreUnswitched | lib/swow-library/src/Debug/Debugger/DebuggerCommandTrait.php:284-293 | The zombie report is exactly the sampled coroutines alive after the sleep whose switch counts are unchanged, each once. |
| Commands.ScanZombies | lib/swow-library/src/Debug/Debugger/DebuggerCommandTrait.php:284-293 | The sampling, the sleep and the comparison give that report. |
| Commands.SampleSwitches | lib/swow-library/src/Debug/Debugger/DebuggerCommandTrait.php:284-286 | The map holds exactly the sampled coroutines, each with its switch count before the sleep. |
| Commands.CollectUnswitched | lib/swow-library/src/Debug/Debugger/DebuggerCommandTrait.php:289-293 | The second loop collects the unswitched coroutines in sampling order. |
| Commands.Zombie | lib/swow-library/src/Debug/Debugger/DebuggerCommandTrait.php:275-297 | A missing or non-numeric time raises. Otherwise, after the sleep, the zombies other than the caller are listed under the two notices. |
| Commands.ReportZombies | lib/swow-library/src/Debug/Debugger/DebuggerCommandTrait.php:283-296 | The scan and the report once the time is checked. |
| Commands.NonNumericNotices | lib/swow-library/src/Debug/Debugger/DebuggerCommandTrait.php:305-309 | At most one notice per argument. |
| Commands.KillRun | lib/swow-library/src/Debug/Debugger/DebuggerCommandTrait.php:310-318 | One note per argument, at most one kill per argument, and the caller and files are untouched. |
| Commands.KillTargets | lib/swow-library/src/Debug/Debugger/DebuggerCommandTrait.php:311 | Each argument names the coroutine of its integer value. |
| Commands.KillRunSurvivors | lib/swow-library/src/Debug/Debugger/DebuggerCommandTrait.php:310-318 | After the pass, a coroutine is alive exactly when it was and no argument names it. |
| Commands.KillRunKilled | lib/swow-library/src/Debug/Debugger/DebuggerCommandTrait.php:310-318 | A coroutine is killed exactly when it was alive and some argument names it. |
| Commands.KillRunKilledOnce | lib/swow-library/src/Debug/Debugger/DebuggerCommandTrait.php:310-318 | No coroutine is killed twice. |
| Commands.NonNumericNoticesEmpty | lib/swow-library/src/Debug/Debugger/DebuggerCommandTrait.php:305-309 | The first pass writes nothing exactly when every argument is numeric. |
| Commands.ReportNonNumeric | lib/swow-library/src/Debug/Debugger/DebuggerCommandTrait.php:305-309 | The loop writes those notices. |
| Commands.KillEach | lib/swow-library/src/Debug/Debugger/DebuggerCommandTrait.php:310-318 | The loop kills and writes what the pass specifies. |
| Commands.KillRunStep | lib/swow-library/src/Debug/Debugger/DebuggerCommandTrait.php:310-318 | One more argument is one more step of the pass. |
| Commands.KillArgument | lib/swow-library/src/Debug/Debugger/DebuggerCommandTrait.php:311-317 | One argument: killed when alive, and one line written either way. |
| Commands.Kill | lib/swow-library/src/Debug/Debugger/DebuggerCommandTrait.php:299-319 | No ids raises 'Required coroutine id' with nothing changed. Otherwise the non-numeric notices come first, then the kill pass. |
| Commands.KillAll | lib/swow-library/src/Debug/Debugger/DebuggerCommandTrait.php:321-325 | Only the caller stays alive, and the notice is written. |
| Commands.Clear | lib/swow-library/src/Debug/Debugger/DebuggerCommandTrait.php:327-330 | Clears the screen on a TTY only. |
| Commands.Help | lib/swow-library/src/Debug/Debugger/DebuggerCommandTrait.php:332-340 | Prints one table with a row per registered command and its aliases. |
| Commands.Dispatch | lib/swow-library/src/Debug/Debugger/DebuggerCommandTrait.php:86 | Calling the looked-up handler with a fresh command context leaves the debugger consistent and the input unread. |
| Commands.ExecuteCommand | lib/swow-library/src/Debug/Debugger/DebuggerCommandTrait.php:66-87 | The table is built only when empty. A name it does not hold raises the unknown-command message with nothing else changed. |
| Runs.NonEmptyParts | lib/swow-library/src/Debug/Debugger/Debugger.php:327 | `array_filter` keeps at most the parts it is given. |
| Runs.NonEmptyPartsMembers | lib/swow-library/src/Debug/Debugger/Debugger.php:327 | A part is kept exactly when PHP does not count it as empty. |
| Runs.ParseJoinedWords | lib/swow-library/src/Debug/Debugger/Debugger.php:329-337 | A line of words separated by single spaces is read as its first word lower-cased and alias-expanded, followed by the other words. |
| Runs.ParseLine | lib/swow-library/src/Debug/Debugger/Debugger.php:329-337 | A line names no command exactly when it has no token. Otherwise the arguments are the tokens after the first, and the command is a full name, never a short one. |
| Runs.Report | lib/swow-library/src/Debug/Debugger/Debugger.php:366-370 | A debugger exception's message goes to the normal output, and any other throwable to the error output. |
| Runs.Leave | lib/swow-library/src/Debug/Debugger/Debugger.php:339-346 | `quit`/`exit` clear the screen. With a keyword and other coroutines running the loop restarts; otherwise it quits. |
| Runs.Relaunch | lib/swow-library/src/Debug/Debugger/Debugger.php:347-359 | While a daemon, 'Debugger is already running' is printed and nothing else happens. Otherwise the program runner is spawned, the debugger becomes a daemon and 'Program is running...' is printed. |
| Runs.HandleLine | lib/swow-library/src/Debug/Debugger/Debugger.php:327-370 | A line without a token reports the `strtolower(null)` error. `quit`/`exit` and `run` behave as above. Any other command goes to the table, built on first use, and an unknown one prints its message. |
| Runs.HandleInput | lib/swow-library/src/Debug/Debugger/Debugger.php:326-370 | Every line is handled in turn until one ends the input. |
| Runs.LinesUntilKeyword | lib/swow-library/src/Debug/Debugger/Debugger.php:311-317 | The wait reads no more lines than there are. |
| Runs.LinesUntilKeywordSkips | lib/swow-library/src/Debug/Debugger/Debugger.php:312-316 | Every line read before the last was neither empty nor the keyword. |
| Runs.LinesUntilKeywordStops | lib/swow-library/src/Debug/Debugger/Debugger.php:312-316 | The last line read ends the wait unless the input ran out. |
| Runs.WaitForKeyword | lib/swow-library/src/Debug/Debugger/Debugger.php:310-317 | With a keyword, exactly those lines are consumed; nothing is written. |
| Runs.ReceiveInput | lib/swow-library/src/Debug/Debugger/Debugger.php:320-324 | An empty line ends the loop. A lone line feed is replaced by the last command. The processed input becomes the last command. |
| Runs.Greet | lib/swow-library/src/Debug/Debugger/Debugger.php:302-306 | With no other coroutine the debugger stops being a daemon, shows the logo and invites the operator to run the program. |
| Runs.Announce | lib/swow-library/src/Debug/Debugger/Debugger.php:307-318 | The keyword hint, then the wait for the keyword, then the logo. |
| Runs.Enter | lib/swow-library/src/Debug/Debugger/Debugger.php:297-318 | A relaunched run clears the flag and goes straight to reading. Otherwise the cursor is shown and the debugger greets or announces. |
| Runs.Turn | lib/swow-library/src/Debug/Debugger/Debugger.php:320-371 | The loop goes on only after an input line was consumed, and it returns when the input is exhausted. |
| Runs.Run | lib/swow-library/src/Debug/Debugger/Debugger.php:295-375 | The entry, then turns until the loop returns or a command blocks. The debugger stays consistent. |
| Hooks.Hookable | ext/src/swow_hook.c:23-26 | A name on the disabled list is not hookable. With an empty list every name is. |
| Hooks.HookableIgnoresCase | ext/src/swow_hook.c:23-26 | Disabling is case-blind: names equal up to case are equally hookable. |
| Hooks.EngineTables.HookInternalFunctionHandlerEx | ext/src/swow_hook.c:33-49 | True exactly for a present name. Then the old handler is handed back and the new one installed. Otherwise there is no old handler and nothing changes. |
| Hooks.EngineTables.HookInternalFunctionHandler | ext/src/swow_hook.c:28-31 | The same without the old handler. |
| Hooks.EngineTables.RegisterFunction | ext/src/swow_hook.c:59-61 | Registration under the lower-cased name is refused, changing nothing, exactly when that name is taken. |
| Hooks.HookOne | ext/src/swow_hook.c:51-69 | An existing function gets the entry's handler. A missing disabled one is skipped successfully. Other entries are untouched. |
| Hooks.HookOneOutcome | ext/src/swow_hook.c:55-68 | A hook fails exactly for a missing, hookable function whose lower-cased name is taken. A successful hook of a hookable name leaves the entry's handler in place. |
| Hooks.EngineTables.HookInternalFunction | ext/src/swow_hook.c:51-69 | The method does what `HookOne` specifies. |
| Hooks.HookAll | ext/src/swow_hook.c:71-84 | Hooking never removes a function. |
| Hooks.HookAllSnoc | ext/src/swow_hook.c:76-81 | One more entry continues from the table the others left. A failure does not stop later entries. |
| Hooks.HookAllOkIff | ext/src/swow_hook.c:71-84 | The array succeeds exactly when every entry succeeded on the table its predecessors left. |
| Hooks.HookAllExisting | ext/src/swow_hook.c:71-84 | Entries for existing, distinct functions all succeed, add no name and leave each function with its entry's handler. |
| Hooks.EngineTables.HookInternalFunctions | ext/src/swow_hook.c:71-84 | The loop up to the terminator does what `HookAll` specifies. |
| Hooks.CString | ext/src/swow_hook.c:120-124 | A C string is the prefix up to its first NUL byte. |
| Hooks.ForcedReplaces | ext/src/swow_hook.c:88-130 | Forcing leaves the new constant under the name and every other constant as it was. Plain registration keeps an existing one. |
| Hooks.ForcedIdempotent | ext/src/swow_hook.c:96-130 | Forcing the same constant twice is forcing it once. |
| Hooks.EngineTables.UnregisterConstantIfExists | ext/src/swow_hook.c:88-94 | Exactly the named constant, if any, is removed. |
| Hooks.EngineTables.RegisterConstant | ext/src/swow_hook.c:99 | The engine refuses a taken name and keeps the table. |
| Hooks.EngineTables.RegisterConstantForce | ext/src/swow_hook.c:96-130 | Remove, then register. |
| Hooks.EngineTables.RegisterNullConstantForce | ext/src/swow_hook.c:96-100 | Forces a null constant. |
| Hooks.EngineTables.RegisterBoolConstantForce | ext/src/swow_hook.c:102-106 | Forces a boolean constant. |
| Hooks.EngineTables.RegisterLongConstantForce | ext/src/swow_hook.c:108-112 | Forces an integer constant. |
| Hooks.EngineTables.RegisterDoubleConstantForce | ext/src/swow_hook.c:114-118 | Forces a double constant, as its bits. |
| Hooks.EngineTables.RegisterStringConstantForce | ext/src/swow_hook.c:120-124 | Forces a string constant whose value stops at the first NUL. |
| Hooks.EngineTables.RegisterStringlConstantForce | ext/src/swow_hook.c:126-130 | Forces a string constant of the given length. |
| Hooks.CleaningRemovesExactlyOwned | ext/src/swow_hook.c:134-180 | Cleaning removes exactly what the module owns (any constant of it, and only internal classes and functions of it), keeps the rest untouched, and cleaning again changes nothing. |
| Hooks.CleaningKeepsUserCode | ext/src/swow_hook.c:150-180 | User functions and classes survive the cleaning of any module. |
| Hooks.EngineTables.CleanModuleConstants | ext/src/swow_hook.c:134-148 | The walk leaves exactly the constants of other modules. |
| Hooks.EngineTables.CleanModuleClasses | ext/src/swow_hook.c:150-164 | The walk leaves every class but the module's internal ones. |
| Hooks.EngineTables.CleanModuleFunctions | ext/src/swow_hook.c:166-180 | The walk leaves every function but the module's internal ones. |
| BlankFixer.LineLength | tools/blank-fixer.php:47 | A line read by `fgets` is non-empty, and a line feed can only be its last character. |
| BlankFixer.FgetsLinesCover | tools/blank-fixer.php:47-51 | The lines read, put back together, are the file. |
| BlankFixer.FgetsLinesShape | tools/blank-fixer.php:47-51 | Every line read is non-empty with at most a final line feed. |
| BlankFixer.ExpandTabsKeepsLast | tools/blank-fixer.php:49 | Expanding tabs keeps a last character that is not a tab. |
| BlankFixer.ExpandTabsLeavesNoTab | tools/blank-fixer.php:49 | Expanding tabs leaves none. |
| BlankFixer.Normalise | tools/blank-fixer.php:48-49 | A line right-trimmed and tab-expanded has no tab and does not end in white space. |
| BlankFixer.TrailingEmpty | tools/blank-fixer.php:52-59 | The count never exceeds the line count. |
| BlankFixer.TrailingEmptyIsLongestRun | tools/blank-fixer.php:52-59 | The count is the longest run of PHP-empty lines at the end: all of them are empty and the line before them is not. |
| BlankFixer.KeptKeepsInterior | tools/blank-fixer.php:60 | Only the end is trimmed. Every line followed by a non-empty line is kept in place, the last kept line is not empty, and nothing is kept exactly when every line is empty. |
| BlankFixer.FixedContents | tools/blank-fixer.php:47-64 | The appended empty element makes the written text every kept line followed by a line feed. |
| BlankFixer.TerminatedEnds | tools/blank-fixer.php:64 | Terminated lines end with the last line and a line feed. |
| BlankFixer.KeptJoinedEnds | tools/blank-fixer.php:60-64 | Kept normalised lines end in a single line feed after a character that is not white space; none give `''`. |
| BlankFixer.FixedEndsWithSingleNewline | tools/blank-fixer.php:47-64 | A file with a non-blank line is written ending in exactly one line feed. An all-blank file is written empty. |
| BlankFixer.ReadNormalisedLines | tools/blank-fixer.php:46-51 | The read loop gives every line read, right-trimmed and tab-expanded. |
| BlankFixer.CountTrailingEmpty | tools/blank-fixer.php:52-59 | The backward loop counts the trailing PHP-empty lines. |
| BlankFixer.WriteOutcome | tools/blank-fixer.php:65-67 | A write is reported as failed exactly when the contents are empty (zero bytes written). |
| BlankFixer.FixFile | tools/blank-fixer.php:42-67 | One file is written with its fixed contents, and an empty result is reported as a failure. |
| BlankFixer.FixFiles | tools/blank-fixer.php:41-68 | Files are fixed in order. The first empty write stops the run, every earlier file was written with content, and without a failure every file was written. |
| PhpStrings.ImplodeExplode | tools/blank-fixer.php:64 | `implode` with the separator after `explode` gives the string back. |
| PhpStrings.ExplodeImplodeChar | lib/swow-library/src/Debug/Debugger/Debugger.php:327-329 | `explode` after `implode` with a one-character separator gives the pieces back when none contains it. |
| PhpStrings.ReplaceAllIsImplodeExplode | tools/blank-fixer.php:49 | `str_replace` is `implode` of `explode` with the replacement. |
| PhpStrings.Hex2BinBin2Hex | lib/swow-library/src/Debug/Debugger/DebuggerCommandTrait.php:79-85 | `hex2bin(bin2hex(s))` is `s`. |
| PhpStrings.IntToStringRoundTrip | lib/swow-library/src/Debug/Debugger/DebuggerCommandTrait.php:305-318 | The decimal text of an integer is numeric and casts back to it. |
| PhpStrings.RTrimCharsDropsTail | lib/swow-library/src/Debug/Debugger/DebuggerHelper.php:197 | `rtrim` with a character list removes only trailing characters from the list, up to the last character not in it. |
| PhpStrings.Basename | lib/swow-library/src/Debug/Debugger/DebuggerBreakpointTrait.php:84 | Trailing slashes are dropped. The base name is the suffix of what is left that holds no `/` and starts right after a `/` or at the start. |

## Left out

- The transports `DebuggerIoStdIO` and `DebuggerIoEofStream`, and the interface they implement, are not part of this model. The transport is an output log and an input script.
- `DebuggerIo.DebuggerIo.In`: `in()` returns a token array, while `run` treats its input as a string. `Runs` models `run` on the raw line the transport reads and tokenises each line as `in()` does.
- The constructor calls `__constructDebuggerIo()` without its required transport. `Debuggers.Debugger.constructor` takes the transport as a parameter.
- `DebugContext.php` is not part of this model. Its two flags, `stop` and `stopped`, are modelled from their uses.
- `Debuggers.Debugger.constructor`: does not itself load the source map. `SourceMaps.SourceMap.ConstructDebuggerSourceMap` is that step, taken with the environment as a parameter.
- `breakOn` and `getInstance` are left out: the debugger is one object passed to every handler.
- `quit()` of the I/O trait only forwards to the transport.
- Expression evaluation (`eval`, `var_dump_return`) is left out; its results are answers recorded in `Host.Scheduler`.
- The coroutine runtime is left out: yield, resume, kill, `getTrace`, signals, the 100 ms channel pop, `usleep` and the signal-listener coroutine. Each is a recorded answer or a scripted snapshot.
- `Debuggers.Debugger.ResumeParked`: what the resumed coroutine does inside `resume()` is a scripted answer. The answer says whether it came back by breaking, and which runtime it leaves. For a coroutine asked to stop, the step-depth test that made it break is part of the answer and is not checked. For any other, an answer of breaking counts only when a break point matches the new position. An answer of not breaking is not checked against the break points.
- The negative-time `ValueError` of `usleep` in `zombie` is left out: any numeric time is one scripted step.
- The zombie weak map holds coroutine objects; the model keys it by id, so a coroutine that dies and whose id is reused during the sleep is not distinguished.
- `Commands.Kill` may kill the calling coroutine when an argument names it; the model records that kill like any other and does not model the command ending there.
- `Commands.Exec` is unreachable from `run`, because `exec` is an alias of `print`; it is modelled for completeness.
- `Commands.Dispatch` states only that the debugger stays consistent: the outcome of each handler is stated on the handler itself.
- `Runs.Run`: states only that the debugger stays consistent, and `Runs.HandleInput` only that the input ends. Each step of the loop (`Enter`, `ReceiveInput`, `HandleLine`, `Turn`) carries the functional contract.
- `Runs.Relaunch`: the relaunched `run` executes in a new coroutine while the old one returns; the model continues reading in the same loop.
- `is_numeric` is modelled for decimal notation: an optional sign, then digits with an optional fractional part (`12`, `-3`, `1.5`, `.5`, `7.`). Exponents (`1e3`) and leading or trailing white space are not modelled.
- mbstring lengths are not modelled: every length is a byte length.
- Floats render as the runtime's text, and doubles in the hook are their bits.
- `Hooks.EngineTables.RegisterFunction`: registration is refused only for a taken lower-cased name. The other failures of `zend_register_functions` are not modelled.
- `Hooks.EngineTables.HookInternalFunctions`: the terminated entry array is a sequence, and the `disable_functions` setting comes already split into names.
- Hash-table iteration order is not modelled: the engine tables are maps. `zend_long` range is not modelled: integers are unbounded.
- The declarations and macros of `swow_hook.h` are not part of this model.
- The blank fixer's command line is left out: usage, glob, confirmation prompt and the abort. The open and read failures are left out, and so is the exception type of the failed write. Only the per-file transform and the write-failure condition are modelled.

## Findings

| source | as written | input that shows it | evidently intended | confidence | as-written member | corrected member |
|---|---|---|---|---|---|---|
| lib/swow-library/src/Debug/Debugger/DebuggerHelper.php:280-287 | The skip loop increments the line counter before comparing it with `startLine - 1`. When the window starts at line 1 or earlier, the counter never equals it and the loop reads the whole file. | A ten-line file and line 1 with the default line count of 8: the window comes back empty. The same holds for any line up to 4. | The lines before the window's start are skipped, so the window starts at `startLine` and shows the requested line, marked. | not executed | DebuggerHelper.GetSourceFileContentAsTableAsWritten (with DebuggerHelper.SourceWindowAsWrittenEmptyNearTop and DebuggerHelper.SourceWindowNearTopExample) | DebuggerHelper.GetSourceFileContentAsTable (with DebuggerHelper.SourceWindowShowsLine) |
