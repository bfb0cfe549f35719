/** `Debugger::run`: the read-evaluate loop of the debugger, with the line handling
    done on the raw input line. */
module Runs {
  import opened Wrappers
  import opened PhpStrings
  import opened Host
  import opened DebuggerIo
  import opened CommandTable
  import opened Debuggers
  import opened Commands

  /** The throwable `strtolower(null)` raises under strict types, for a line with no
      token. */
  const NullCommandError := TypeError("strtolower(): Argument #1 ($string) must be of type string, null given")

  // ---------------------------------------------------------------- line handling

  /** A lone line feed stands for the previous command line. */
  function ResolveInput(input: string, lastCommand: string): string {
    if input == "\n" then lastCommand else input
  }

  /** `array_filter`: the parts PHP does not count as empty, in order. */
  function NonEmptyParts(parts: seq<string>): (r: seq<string>)
    ensures |r| <= |parts|
  {
    if parts == [] then []
    else
      var last := parts[|parts| - 1];
      NonEmptyParts(parts[..|parts| - 1]) + (if PhpEmpty(last) then [] else [last])
  }

  /** A part is kept exactly when it is there and not empty. */
  lemma {:induction false} NonEmptyPartsMembers(parts: seq<string>)
    ensures forall x :: x in NonEmptyParts(parts) <==> x in parts && !PhpEmpty(x)
  {
    if parts != [] {
      NonEmptyPartsMembers(parts[..|parts| - 1]);
      assert forall y :: y in parts <==> y in parts[..|parts| - 1] || y == parts[|parts| - 1];
    }
  }

  /** The lines of one input, as `array_filter(explode("\n", $in))` gives them. */
  function InputLines(input: string): seq<string> {
    NonEmptyParts(Explode("\n", input))
  }

  /** What a line asks for: its first token lower-cased and alias-expanded, and the
      tokens after it; a line without a token names no command. */
  datatype Request = NoCommand | Request(command: string, arguments: seq<string>)

  function ParseLine(line: string): (r: Request)
    ensures r.NoCommand? <==> Tokens(line) == []
    ensures r.Request? ==> r.arguments == Tokens(line)[1..]
    ensures r.Request? ==> forall i :: 0 <= i < |CommandShortNameMap| ==> CommandShortNameMap[i].0 != r.command
  {
    var tokens := Tokens(line);
    if tokens == [] then NoCommand
    else Request(ConvertCommandShortNameToFullName(ToLower(tokens[0])), tokens[1..])
  }

  /** A line written as a command word and argument words separated by single spaces
      is read back as that command, lower-cased and alias-expanded, and those
      arguments. */
  lemma ParseJoinedWords(command: string, arguments: seq<string>)
    requires IsWord(command) && forall i :: 0 <= i < |arguments| ==> IsWord(arguments[i])
    ensures ParseLine(Implode(" ", [command] + arguments)) ==
      Request(ConvertCommandShortNameToFullName(ToLower(command)), arguments)
  {
    var words := [command] + arguments;
    assert forall i :: 0 <= i < |words| ==> IsWord(words[i]);
    TokensOfJoinedWords(words);
  }

  /** Where the loop goes after a line: on to the next line of the same input, on
      to the next input, out of the loop, back to waiting for the keyword, or
      nowhere, because a command blocks the debugger's coroutine for good. */
  datatype LineEnd = NextLine | NextInput | Quit | Restart | Blocked

  /** The two `catch` blocks: a debugger exception's message goes to the normal
      output, any other throwable's rendering to the error output. */
  method Report(io: DebuggerIo, e: Exception)
    modifies io
    ensures e.DebuggerException? ==> io.Wrote([Text(e.message)])
    ensures !e.DebuggerException? ==>
      io.errors == old(io.errors) + [Rendered(e)] &&
      io.output == old(io.output) && io.input == old(io.input) && io.outputBuffer == old(io.outputBuffer)
  {
    if e.DebuggerException? {
      io.Exception(Text(e.message));
    } else {
      io.Error(Rendered(e));
    }
  }

  /** `quit`/`exit`: the screen is cleared; with a keyword and other coroutines still
      running the debugger goes back to waiting for the keyword. */
  method Leave(d: Debugger, keyword: string) returns (e: LineEnd)
    requires d.Valid()
    modifies d.io
    ensures d.Valid()
    ensures d.io.Wrote(if d.io.isTty then [Text(ClearScreen)] else [])
    ensures e == if keyword != "" && !OnlyCurrent(d.env.rt.order, d.env.rt.current) then Restart else Quit
  {
    d.io.Clear();
    var none := d.IsNoOtherCoroutinesRunning();
    e := if keyword != "" && !none then Restart else Quit;
  }

  /** `run`: refused while the debugger already runs as a daemon; otherwise a new
      coroutine marks the debugger as reloading and as a daemon, announces the
      program, and enters `run` again, which clears the reloading flag and goes on
      reading commands. */
  method Relaunch(d: Debugger) returns (e: LineEnd)
    requires d.Valid()
    modifies d, d.io, d.env
    ensures d.Valid() && d.io.input == old(d.io.input) && e == NextInput
    ensures d.currentCoroutine == old(d.currentCoroutine) && d.lastCommand == old(d.lastCommand)
    ensures old(d.daemon) ==>
      d.io.Wrote([Text("Debugger is already running")]) && d.daemon && unchanged(d.env)
    ensures !old(d.daemon) ==>
      d.daemon && !d.reloading && d.io.Wrote([Text("Program is running...")]) &&
      d.env.spawnedRuns == old(d.env.spawnedRuns) + 1 && d.env.rt == old(d.env.rt)
    ensures d.currentSourceFile == old(d.currentSourceFile)
  {
    if d.daemon {
      Report(d.io, DebuggerException("Debugger is already running"));
      return NextInput;
    }
    d.env.SpawnRun();
    d.reloading := true;
    d.daemon := true;
    d.io.Out(Text("Program is running..."));
    d.reloading := false;
    e := NextInput;
  }

  /** One line of an input: its command is `quit`/`exit`, `run`, or one that the table
      dispatches; what it throws is reported and ends the input. */
  method HandleLine(d: Debugger, registry: CommandRegistry, keyword: string, line: string) returns (e: LineEnd)
    requires d.Valid()
    modifies registry, d, d.io, d.contexts, d.contexts.contexts.Values, d.diffCache, d.breakpoints, d.env
    modifies if d.currentSourceFile.Some? then {d.currentSourceFile.value} else {}
    ensures d.Valid() && d.OnlyFreshAdded() && d.io.input == old(d.io.input)
    ensures ParseLine(line).NoCommand? ==>
      e == NextInput && d.io.errors == old(d.io.errors) + [Rendered(NullCommandError)] && d.io.output == old(d.io.output)
    ensures var request := ParseLine(line);
      request.Request? && (request.command == "quit" || request.command == "exit") ==>
        e == (if keyword != "" && !OnlyCurrent(d.env.rt.order, d.env.rt.current) then Restart else Quit) &&
        d.io.Wrote(if d.io.isTty then [Text(ClearScreen)] else [])
    ensures var request := ParseLine(line);
      request.Request? && request.command == "run" ==>
        e == NextInput && d.daemon &&
        d.io.Wrote([Text(if old(d.daemon) then "Debugger is already running" else "Program is running...")])
    ensures var request := ParseLine(line);
      request.Request? && request.command !in {"quit", "exit", "run"} ==>
        e != Quit && e != Restart &&
        (old(registry.commandMethods) == [] ==> registry.commandMethods == CommandTableOf(DebuggerMethods)) &&
        (!HasKey(registry.commandMethods, request.command) ==>
          e == NextInput && d.io.Wrote([Text(UnknownCommandMessage(request.command))]))
  {
    var request := ParseLine(line);
    if request.NoCommand? {
      Report(d.io, NullCommandError);
      return NextInput;
    }
    var command := request.command;
    if command == "quit" || command == "exit" {
      e := Leave(d, keyword);
      return;
    }
    if command == "run" {
      e := Relaunch(d);
      return;
    }
    var r := ExecuteCommand(d, registry, command, request.arguments);
    match r
    case Done => e := NextLine;
    case Raised(error) =>
      Report(d.io, error);
      e := NextInput;
    case Pending => e := Blocked;
  }

  /** The lines of one input in turn, until one of them ends the input. */
  method HandleInput(d: Debugger, registry: CommandRegistry, keyword: string, input: string) returns (e: LineEnd)
    requires d.Valid()
    modifies registry, d, d.io, d.contexts, d.contexts.contexts.Values, d.diffCache, d.breakpoints, d.env
    modifies if d.currentSourceFile.Some? then {d.currentSourceFile.value} else {}
    ensures d.Valid() && d.OnlyFreshAdded() && d.io.input == old(d.io.input)
    ensures e != NextLine
  {
    var lines := InputLines(input);
    var i := 0;
    e := NextLine;
    while i < |lines| && e == NextLine
      invariant 0 <= i <= |lines|
      invariant d.Valid() && d.OnlyFreshAdded() && d.io.input == old(d.io.input)
    {
      e := HandleLine(d, registry, keyword, lines[i]);
      i := i + 1;
    }
    if e == NextLine {
      e := NextInput;
    }
  }

  // ---------------------------------------------------------------- reading

  /** A line that ends the wait for the keyword: an empty one, or the keyword once
      trimmed. */
  predicate EndsWait(line: string, keyword: string) {
    PhpEmpty(line) || Trim(line) == keyword
  }

  /** How many lines waiting for the keyword reads: up to and including the first
      line that ends the wait; all of them when none does. */
  function LinesUntilKeyword(input: seq<string>, keyword: string): (n: nat)
    ensures n <= |input|
  {
    if input == [] then 0
    else if EndsWait(input[0], keyword) then 1
    else 1 + LinesUntilKeyword(input[1..], keyword)
  }

  /** Every line read before the last one was skipped: neither empty nor the
      keyword. */
  lemma {:induction false} LinesUntilKeywordSkips(input: seq<string>, keyword: string, i: nat)
    requires i + 1 < LinesUntilKeyword(input, keyword)
    ensures !EndsWait(input[i], keyword)
  {
    if i > 0 {
      LinesUntilKeywordSkips(input[1..], keyword, i - 1);
    }
  }

  /** The last line read ends the wait unless the input ran out first, and nothing is
      read only from an exhausted input. */
  lemma {:induction false} LinesUntilKeywordStops(input: seq<string>, keyword: string)
    ensures var n := LinesUntilKeyword(input, keyword);
      (n == |input| || EndsWait(input[n - 1], keyword)) &&
      (n == 0 <==> input == [])
  {
    if input != [] && !EndsWait(input[0], keyword) {
      LinesUntilKeywordStops(input[1..], keyword);
    }
  }

  /** The `_restart` wait: with a keyword, lines are read until the keyword (or an
      empty line) arrives. */
  method WaitForKeyword(io: DebuggerIo, keyword: string)
    modifies io
    ensures io.input == old(io.input)[if keyword == "" then 0 else LinesUntilKeyword(old(io.input), keyword)..]
    ensures io.output == old(io.output) && io.errors == old(io.errors) && io.outputBuffer == old(io.outputBuffer)
  {
    if keyword == "" {
      return;
    }
    ghost var all := io.input;
    ghost var k := 0;
    while true
      invariant k <= |all| && io.input == all[k..]
      invariant LinesUntilKeyword(all, keyword) == k + LinesUntilKeyword(io.input, keyword)
      invariant io.output == old(io.output) && io.errors == old(io.errors) && io.outputBuffer == old(io.outputBuffer)
      decreases |io.input|
    {
      ghost var rest := io.input;
      var line := io.ReadLine();
      if EndsWait(line, keyword) {
        return;
      }
      assert rest[1..] == all[k + 1..];
      k := k + 1;
    }
  }

  /** The head of the receive loop: the next line, repeated from the last command when
      it is a lone line feed, becomes the last command; an empty line ends the loop. */
  method ReceiveInput(d: Debugger) returns (input: Option<string>)
    modifies d, d.io
    ensures d.io.input == if old(d.io.input) == [] then [] else old(d.io.input)[1..]
    ensures d.io.output == old(d.io.output) && d.io.errors == old(d.io.errors)
    ensures var line := old(d.io.NextLine());
      (PhpEmpty(line) ==> input.None? && d.lastCommand == old(d.lastCommand)) &&
      (!PhpEmpty(line) ==> input == Some(ResolveInput(line, old(d.lastCommand))) && d.lastCommand == input.value)
    ensures d.currentCoroutine == old(d.currentCoroutine) && d.currentFrameIndex == old(d.currentFrameIndex)
    ensures d.currentSourceFile == old(d.currentSourceFile) && d.daemon == old(d.daemon) && d.reloading == old(d.reloading)
  {
    var line := d.io.ReadLine();
    if PhpEmpty(line) {
      return None;
    }
    if line == "\n" {
      line := d.lastCommand;
    }
    d.SetLastCommand(line);
    input := Some(line);
  }

  // ---------------------------------------------------------------- the loop

  /** What `logo()` writes. */
  function LogoOutput(tty: bool): seq<Output> {
    (if tty then [Text(ClearScreen)] else []) + [Text(SdbBanner), Text("\n")]
  }

  /** What showing the cursor writes. */
  function CursorOutput(tty: bool): seq<Output> {
    if tty then [Text(CursorControl(true))] else []
  }

  /** The hint naming the keyword, written when there is one. */
  function KeywordHint(keyword: string): seq<Output> {
    if keyword == "" then []
    else [Text("\n"), Text("You can input '" + keyword + "' to to call out the debug interface...")]
  }

  /** The entry with no other coroutine running: the debugger stops being a daemon,
      shows the logo and invites the operator to run the program. */
  method Greet(d: Debugger)
    requires d.Valid()
    modifies d, d.io
    ensures d.Valid() && d.currentSourceFile == old(d.currentSourceFile) && d.reloading == old(d.reloading)
    ensures !d.daemon
    ensures d.io.Wrote(LogoOutput(d.io.isTty) + [Text("Enter 'r' to run your program")])
  {
    d.daemon := false;
    d.Logo();
    d.io.Out(Text("Enter 'r' to run your program"));
  }

  /** The entry with other coroutines running: the keyword is announced, then waited
      for, then the logo is shown. */
  method Announce(d: Debugger, keyword: string)
    requires d.Valid()
    modifies d, d.io
    ensures d.Valid() && d.currentSourceFile == old(d.currentSourceFile) && d.reloading == old(d.reloading)
    ensures d.daemon == old(d.daemon)
    ensures d.io.output == old(d.io.output) + KeywordHint(keyword) + LogoOutput(d.io.isTty)
    ensures d.io.input == old(d.io.input)[if keyword == "" then 0 else LinesUntilKeyword(old(d.io.input), keyword)..]
  {
    ghost var before := d.io.output;
    if keyword != "" {
      d.io.Lf();
      d.io.Out(Text("You can input '" + keyword + "' to to call out the debug interface..."));
    }
    assert d.io.output == before + KeywordHint(keyword);
    WaitForKeyword(d.io, keyword);
    d.Logo();
    AppendAssoc(before, KeywordHint(keyword), LogoOutput(d.io.isTty));
  }

  /** The part of `run` before the receive loop: a relaunched debugger goes straight to
      reading; otherwise the cursor is shown, then the debugger either greets the
      operator (no other coroutine running) or announces and waits for the keyword. */
  method Enter(d: Debugger, keyword: string)
    requires d.Valid()
    modifies d, d.io
    ensures d.Valid() && d.currentSourceFile == old(d.currentSourceFile) && !d.reloading
    ensures old(d.reloading) ==> unchanged(d.io) && d.daemon == old(d.daemon)
    ensures !old(d.reloading) && OnlyCurrent(d.env.rt.order, d.env.rt.current) ==>
      !d.daemon && d.io.input == old(d.io.input) &&
      d.io.output == old(d.io.output) + CursorOutput(d.io.isTty) + LogoOutput(d.io.isTty) +
        [Text("Enter 'r' to run your program")]
    ensures !old(d.reloading) && !OnlyCurrent(d.env.rt.order, d.env.rt.current) ==>
      d.daemon == old(d.daemon) &&
      d.io.input == old(d.io.input)[if keyword == "" then 0 else LinesUntilKeyword(old(d.io.input), keyword)..] &&
      d.io.output == old(d.io.output) + CursorOutput(d.io.isTty) + KeywordHint(keyword) + LogoOutput(d.io.isTty)
  {
    if d.reloading {
      d.reloading := false;
      return;
    }
    ghost var before := d.io.output;
    d.io.SetCursorVisibility(true);
    var none := d.IsNoOtherCoroutinesRunning();
    if none {
      Greet(d);
      AppendAssoc(before, CursorOutput(d.io.isTty), LogoOutput(d.io.isTty) + [Text("Enter 'r' to run your program")]);
    } else {
      Announce(d, keyword);
      AppendAssoc(before, CursorOutput(d.io.isTty), KeywordHint(keyword) + LogoOutput(d.io.isTty));
    }
  }

  /** How `run` ends: it returned, or a command left the debugger's coroutine waiting
      for good. */
  datatype RunEnd = Returned | Stuck

  /** One turn of the receive loop: an input is read and its lines handled; `quit`
      with a keyword and other coroutines running waits for the keyword again and
      shows the logo. The loop goes on only after a line was consumed. */
  method Turn(d: Debugger, registry: CommandRegistry, keyword: string) returns (end: Option<RunEnd>)
    requires d.Valid()
    modifies registry, d, d.io, d.contexts, d.contexts.contexts.Values, d.diffCache, d.breakpoints, d.env
    modifies if d.currentSourceFile.Some? then {d.currentSourceFile.value} else {}
    ensures d.Valid() && d.OnlyFreshAdded()
    ensures end.None? ==> |d.io.input| < |old(d.io.input)|
    ensures old(d.io.input) == [] ==> end == Some(Returned)
  {
    var input := ReceiveInput(d);
    if input.None? {
      return Some(Returned);
    }
    var e := HandleInput(d, registry, keyword, input.value);
    if e == Quit {
      return Some(Returned);
    }
    if e == Blocked {
      return Some(Stuck);
    }
    if e == Restart {
      WaitForKeyword(d.io, keyword);
      d.Logo();
    }
    end := None;
  }

  /** `run`: the entry, then one input after another until an empty line, `quit`, or a
      command that never returns. */
  method Run(d: Debugger, registry: CommandRegistry, keyword: string) returns (end: RunEnd)
    requires d.Valid()
    modifies registry, d, d.io, d.contexts, d.contexts.contexts.Values, d.diffCache, d.breakpoints, d.env
    modifies if d.currentSourceFile.Some? then {d.currentSourceFile.value} else {}
    ensures d.Valid() && d.OnlyFreshAdded()
  {
    Enter(d, keyword);
    while true
      invariant d.Valid() && d.OnlyFreshAdded()
      decreases |d.io.input|
    {
      var turn := Turn(d, registry, keyword);
      if turn.Some? {
        return turn.value;
      }
    }
  }
}
