/** The command names of the debugger: the short-name aliases, the name-to-handler
    table built from the `command*` method names, the message for a name with no
    handler, and the alias column of `help`. */
module CommandTable {
  import opened Wrappers
  import opened PhpStrings
  import opened Host
  import opened DebuggerHelper

  // ---------------------------------------------------------------- aliases

  /** `$commandShortNameMap`: short name to full name, in declaration order. */
  const CommandShortNameMap: seq<(string, string)> := [
    ("co", "coroutine"),
    ("bt", "backtrace"),
    ("f", "frame"),
    ("b", "breakpoint"),
    ("n", "next"),
    ("s", "step"),
    ("step_in", "step"),
    ("c", "continue"),
    ("l", "list"),
    ("p", "print"),
    ("exec", "print"),
    ("z", "zombie"),
    ("q", "quit"),
    ("r", "run"),
    ("h", "help")
  ]

  /** A PHP array's keys are unique. */
  predicate DistinctKeys(pairs: seq<(string, string)>) {
    forall i, j :: 0 <= i < j < |pairs| ==> pairs[i].0 != pairs[j].0
  }

  /** `$pairs[$key] ?? null`. */
  function Lookup(pairs: seq<(string, string)>, key: string): Option<string> {
    if pairs == [] then None
    else if pairs[0].0 == key then Some(pairs[0].1)
    else Lookup(pairs[1..], key)
  }

  /** A key that is present finds its own value. */
  lemma {:induction false} LookupFinds(pairs: seq<(string, string)>, i: int)
    requires DistinctKeys(pairs) && 0 <= i < |pairs|
    ensures Lookup(pairs, pairs[i].0) == Some(pairs[i].1)
  {
    if i > 0 {
      assert pairs[0].0 != pairs[i].0;
      LookupFinds(pairs[1..], i - 1);
    }
  }

  /** The lookup fails exactly for an absent key, and otherwise answers a stored value. */
  lemma {:induction false} LookupMisses(pairs: seq<(string, string)>, key: string)
    ensures Lookup(pairs, key).None? <==> forall i :: 0 <= i < |pairs| ==> pairs[i].0 != key
    ensures Lookup(pairs, key).Some? ==> exists i :: 0 <= i < |pairs| && pairs[i] == (key, Lookup(pairs, key).value)
  {
    if pairs != [] && pairs[0].0 != key {
      LookupMisses(pairs[1..], key);
      if Lookup(pairs, key).Some? {
        var i :| 0 <= i < |pairs[1..]| && pairs[1..][i] == (key, Lookup(pairs, key).value);
        assert pairs[i + 1] == (key, Lookup(pairs, key).value);
      }
    }
  }

  /** `convertCommandShortNameToFullName`. */
  function ConvertCommandShortNameToFullName(shortName: string): (r: string)
    ensures (exists i :: 0 <= i < |CommandShortNameMap| && CommandShortNameMap[i] == (shortName, r)) ||
      (r == shortName && forall i :: 0 <= i < |CommandShortNameMap| ==> CommandShortNameMap[i].0 != shortName)
    ensures forall i :: 0 <= i < |CommandShortNameMap| ==> CommandShortNameMap[i].0 != r
  {
    LookupMisses(CommandShortNameMap, shortName);
    FullNamesAreNotShortNames();
    Lookup(CommandShortNameMap, shortName).GetOr(shortName)
  }

  /** No full name is itself a short name. */
  predicate ValuesAreNotKeys(pairs: seq<(string, string)>) {
    forall i, j :: 0 <= i < |pairs| && 0 <= j < |pairs| ==> pairs[i].1 != pairs[j].0
  }

  lemma ShortNamesDistinct()
    ensures DistinctKeys(CommandShortNameMap)
  {
  }

  lemma FullNamesAreNotShortNames()
    ensures ValuesAreNotKeys(CommandShortNameMap)
  {
  }

  /** Every listed short name expands to its full name. */
  lemma ConvertExpandsShortName(i: int)
    requires 0 <= i < |CommandShortNameMap|
    ensures ConvertCommandShortNameToFullName(CommandShortNameMap[i].0) == CommandShortNameMap[i].1
  {
    ShortNamesDistinct();
    LookupFinds(CommandShortNameMap, i);
  }

  /** Any other name is returned unchanged. */
  lemma ConvertKeepsOtherNames(name: string)
    requires forall i :: 0 <= i < |CommandShortNameMap| ==> CommandShortNameMap[i].0 != name
    ensures ConvertCommandShortNameToFullName(name) == name
  {
    LookupMisses(CommandShortNameMap, name);
  }

  /** Expanding a name twice is expanding it once. */
  lemma ConvertIdempotent(name: string)
    ensures ConvertCommandShortNameToFullName(ConvertCommandShortNameToFullName(name)) ==
      ConvertCommandShortNameToFullName(name)
  {
    var full := ConvertCommandShortNameToFullName(name);
    LookupMisses(CommandShortNameMap, name);
    LookupMisses(CommandShortNameMap, full);
    FullNamesAreNotShortNames();
    if Lookup(CommandShortNameMap, name).Some? {
      var i :| 0 <= i < |CommandShortNameMap| && CommandShortNameMap[i] == (name, full);
      assert forall j :: 0 <= j < |CommandShortNameMap| ==> CommandShortNameMap[j].0 != CommandShortNameMap[i].1;
    }
  }

  // ---------------------------------------------------------------- the handler table

  /** The debugger's methods whose names mention `command`: the handlers and the two
      helpers they share. */
  datatype CommandMethod =
    | CommandPs | CommandBacktrace | CommandCoroutine | CommandAttach | CommandCoroutineOrAttach
    | CommandFrame | CommandBreakPoint | CommandNext | CommandStep | CommandContinue | CommandDebugging
    | CommandList | CommandPrint | CommandExec | CommandVars | CommandZombie | CommandKill
    | CommandKillAll | CommandClear | CommandHelp

  /** What reflection lists for them: each method's name with the method, in
      declaration order. */
  const DebuggerMethods: seq<(string, CommandMethod)> := [
    ("commandPs", CommandPs),
    ("commandBacktrace", CommandBacktrace),
    ("commandCoroutine", CommandCoroutine),
    ("commandAttach", CommandAttach),
    ("_commandCoroutineOrAttach", CommandCoroutineOrAttach),
    ("commandFrame", CommandFrame),
    ("commandBreakPoint", CommandBreakPoint),
    ("commandNext", CommandNext),
    ("commandStep", CommandStep),
    ("commandContinue", CommandContinue),
    ("_commandDebugging", CommandDebugging),
    ("commandList", CommandList),
    ("commandPrint", CommandPrint),
    ("commandExec", CommandExec),
    ("commandVars", CommandVars),
    ("commandZombie", CommandZombie),
    ("commandKill", CommandKill),
    ("commandKillAll", CommandKillAll),
    ("commandClear", CommandClear),
    ("commandHelp", CommandHelp)
  ]

  const CommandPrefix := "command"

  /** `str_starts_with($methodName, 'command')`. */
  predicate IsCommandMethod(methodName: string) {
    |methodName| >= |CommandPrefix| && methodName[..|CommandPrefix|] == CommandPrefix
  }

  /** `strtolower(substr($methodName, 7))`. */
  function CommandKey(methodName: string): string
    requires IsCommandMethod(methodName)
  {
    ToLower(methodName[|CommandPrefix|..])
  }

  type Entry = (string, CommandMethod)

  /** Whether some entry has key `key`. */
  predicate HasKey(table: seq<Entry>, key: string) {
    exists i :: 0 <= i < |table| && table[i].0 == key
  }

  predicate UniqueKeys(table: seq<Entry>) {
    forall i, j :: 0 <= i < j < |table| ==> table[i].0 != table[j].0
  }

  /** `$table[$key] = $method`: an existing key keeps its place and takes the new
      method; a new key goes at the end. */
  function Store(table: seq<Entry>, key: string, m: CommandMethod): (r: seq<Entry>)
    ensures HasKey(table, key) ==> |r| == |table|
    ensures !HasKey(table, key) ==> r == table + [(key, m)]
    ensures forall i :: 0 <= i < |table| ==> r[i].0 == table[i].0
    ensures forall i :: 0 <= i < |table| ==> r[i].1 == if table[i].0 == key then m else table[i].1
  {
    if HasKey(table, key) then
      seq(|table|, i requires 0 <= i < |table| => if table[i].0 == key then (key, m) else table[i])
    else table + [(key, m)]
  }

  /** `$commandMethods` after the build loop over `methods`. */
  function CommandTableOf(methods: seq<Entry>): seq<Entry> {
    if methods == [] then []
    else
      var table := CommandTableOf(methods[..|methods| - 1]);
      var m := methods[|methods| - 1];
      if IsCommandMethod(m.0) then Store(table, CommandKey(m.0), m.1) else table
  }

  /** `$table[$key] ?? null`. */
  function FindMethod(table: seq<Entry>, key: string): (r: Option<CommandMethod>)
    ensures r.Some? <==> HasKey(table, key)
    ensures r.Some? ==> (key, r.value) in table
  {
    if table == [] then None
    else if table[0].0 == key then Some(table[0].1)
    else
      var r := FindMethod(table[1..], key);
      assert HasKey(table, key) ==> HasKey(table[1..], key) by {
        if HasKey(table, key) {
          var i :| 0 <= i < |table| && table[i].0 == key;
          assert table[1..][i - 1].0 == key;
        }
      }
      assert HasKey(table[1..], key) ==> HasKey(table, key) by {
        if HasKey(table[1..], key) {
          var i :| 0 <= i < |table[1..]| && table[1..][i].0 == key;
          assert table[i + 1].0 == key;
        }
      }
      r
  }

  /** The key `entry` gives when its name is a command method's. */
  predicate GivesKey(entry: Entry, key: string) {
    IsCommandMethod(entry.0) && CommandKey(entry.0) == key
  }

  /** Storing keeps keys unique and adds exactly its key. */
  lemma StoreKeys(table: seq<Entry>, key: string, m: CommandMethod)
    ensures UniqueKeys(table) ==> UniqueKeys(Store(table, key, m))
    ensures forall k :: HasKey(Store(table, key, m), k) <==> HasKey(table, k) || k == key
  {
    var r := Store(table, key, m);
    forall k | HasKey(r, k)
      ensures HasKey(table, k) || k == key
    {
      var i :| 0 <= i < |r| && r[i].0 == k;
      if i < |table| {
        assert table[i].0 == k;
      }
    }
    forall k | HasKey(table, k)
      ensures HasKey(r, k)
    {
      var i :| 0 <= i < |table| && table[i].0 == k;
      assert r[i].0 == k;
    }
    if !HasKey(table, key) {
      assert r[|table|].0 == key;
    } else {
      var i :| 0 <= i < |table| && table[i].0 == key;
      assert r[i].0 == key;
    }
  }

  /** The table has each key once. */
  lemma {:induction false} CommandTableUnique(methods: seq<Entry>)
    ensures UniqueKeys(CommandTableOf(methods))
  {
    if methods != [] {
      var m := methods[|methods| - 1];
      CommandTableUnique(methods[..|methods| - 1]);
      if IsCommandMethod(m.0) {
        StoreKeys(CommandTableOf(methods[..|methods| - 1]), CommandKey(m.0), m.1);
      }
    }
  }

  /** The table's keys are exactly the keys of the command methods. */
  lemma {:induction false} CommandTableKeys(methods: seq<Entry>, k: string)
    ensures HasKey(CommandTableOf(methods), k) <==> exists i :: 0 <= i < |methods| && GivesKey(methods[i], k)
  {
    if methods != [] {
      var prefix := methods[..|methods| - 1];
      var m := methods[|methods| - 1];
      CommandTableKeys(prefix, k);
      if IsCommandMethod(m.0) {
        StoreKeys(CommandTableOf(prefix), CommandKey(m.0), m.1);
      }
      if exists i :: 0 <= i < |methods| && GivesKey(methods[i], k) {
        var i :| 0 <= i < |methods| && GivesKey(methods[i], k);
        if i < |prefix| {
          assert GivesKey(prefix[i], k);
        }
      }
      if exists i :: 0 <= i < |prefix| && GivesKey(prefix[i], k) {
        var i :| 0 <= i < |prefix| && GivesKey(prefix[i], k);
        assert GivesKey(methods[i], k);
      }
    }
  }

  /** Whether `methods[i]` is the last method giving `key`. */
  predicate LastGiving(methods: seq<Entry>, i: int, key: string)
    requires 0 <= i < |methods|
  {
    GivesKey(methods[i], key) && forall j :: i < j < |methods| ==> !GivesKey(methods[j], key)
  }

  /** Under each key sits the last method giving that key. */
  lemma {:induction false} CommandTableHoldsLast(methods: seq<Entry>, t: int)
    requires 0 <= t < |CommandTableOf(methods)|
    ensures var entry := CommandTableOf(methods)[t];
      exists i :: 0 <= i < |methods| && LastGiving(methods, i, entry.0) && methods[i].1 == entry.1
  {
    var prefix := methods[..|methods| - 1];
    var m := methods[|methods| - 1];
    var before := CommandTableOf(prefix);
    var table := CommandTableOf(methods);
    var key := table[t].0;
    if GivesKey(m, key) {
      assert LastGiving(methods, |methods| - 1, key);
    } else {
      assert t < |before| && before[t] == table[t];
      CommandTableHoldsLast(prefix, t);
      var i :| 0 <= i < |prefix| && LastGiving(prefix, i, key) && prefix[i].1 == table[t].1;
      assert methods[i] == prefix[i];
      assert LastGiving(methods, i, key);
    }
  }

  /** The static `$commandMethods` table. */
  /** Looking a key up in the built table finds the method of the last command method
      giving that key, and nothing when no command method gives it. */
  lemma FindMethodGivesLast(methods: seq<Entry>, key: string)
    ensures var r := FindMethod(CommandTableOf(methods), key);
      (r.None? <==> forall i :: 0 <= i < |methods| ==> !GivesKey(methods[i], key)) &&
      (r.Some? ==> exists i :: 0 <= i < |methods| && LastGiving(methods, i, key) && methods[i].1 == r.value)
  {
    var table := CommandTableOf(methods);
    var r := FindMethod(table, key);
    CommandTableKeys(methods, key);
    if r.Some? {
      var t :| 0 <= t < |table| && table[t] == (key, r.value);
      CommandTableHoldsLast(methods, t);
    }
  }

  class CommandRegistry {
    var commandMethods: seq<Entry>

    constructor ()
      ensures commandMethods == []
    {
      commandMethods := [];
    }

    /** The build at the top of `executeCommand`: only while the table is empty. */
    method Load(methods: seq<Entry>)
      modifies this
      ensures old(commandMethods) == [] ==> commandMethods == CommandTableOf(methods)
      ensures old(commandMethods) != [] ==> commandMethods == old(commandMethods)
    {
      if commandMethods != [] {
        return;
      }
      var table: seq<Entry> := [];
      var i := 0;
      while i < |methods|
        invariant 0 <= i <= |methods|
        invariant table == CommandTableOf(methods[..i])
      {
        var methodName := methods[i].0;
        assert methods[..i + 1][..i] == methods[..i];
        if IsCommandMethod(methodName) {
          var commandName := ToLower(methodName[|CommandPrefix|..]);
          table := Store(table, commandName, methods[i].1);
        }
        i := i + 1;
      }
      assert methods[..|methods|] == methods;
      commandMethods := table;
    }
  }

  // ---------------------------------------------------------------- unknown commands

  /** The name as the error shows it: hex-encoded unless it is printable. */
  function ShownName(command: string): string {
    if IsPrintable(command) then command else Bin2Hex(command)
  }

  function UnknownCommandMessage(command: string): string {
    "Unknown command '" + ShownName(command) + "'"
  }

  /** The message shows printable text only, and the name can always be read back. */
  lemma ShownNameReadsBack(command: string)
    requires forall i :: 0 <= i < |command| ==> command[i] as int < 256
    ensures forall i :: 0 <= i < |ShownName(command)| ==> IsPrintableChar(ShownName(command)[i])
    ensures IsPrintable(command) ==> ShownName(command) == command
    ensures !IsPrintable(command) ==> Hex2Bin(ShownName(command)) == command
  {
    if !IsPrintable(command) {
      Hex2BinBin2Hex(command);
    }
  }

  // ---------------------------------------------------------------- help

  /** `array_keys($pairs, $name, true)`: the keys stored with value `name`, in order. */
  function AliasesOf(pairs: seq<(string, string)>, name: string): seq<string> {
    if pairs == [] then []
    else (if pairs[0].1 == name then [pairs[0].0] else []) + AliasesOf(pairs[1..], name)
  }

  /** The aliases listed are exactly the keys stored with that value. */
  lemma {:induction false} AliasesOfExactly(pairs: seq<(string, string)>, name: string)
    ensures forall a :: a in AliasesOf(pairs, name) <==> (a, name) in pairs
  {
    if pairs != [] {
      AliasesOfExactly(pairs[1..], name);
      assert pairs == [pairs[0]] + pairs[1..];
    }
  }

  /** Each alias `help` lists for a command expands to that command. */
  lemma HelpAliasesExpand(name: string, alias: string)
    requires alias in AliasesOf(CommandShortNameMap, name)
    ensures ConvertCommandShortNameToFullName(alias) == name
  {
    AliasesOfExactly(CommandShortNameMap, name);
    var i :| 0 <= i < |CommandShortNameMap| && CommandShortNameMap[i] == (alias, name);
    ConvertExpandsShortName(i);
  }

  /** One row of the `help` table. */
  function HelpRow(name: string): Row {
    [("command", StrVal(name)), ("alias", StrVal(Implode(", ", AliasesOf(CommandShortNameMap, name))))]
  }

  /** The `help` loop over the table's keys. */
  method HelpRows(commandMethods: seq<Entry>) returns (rows: Table)
    ensures |rows| == |commandMethods|
    ensures forall k :: 0 <= k < |rows| ==> rows[k] == HelpRow(commandMethods[k].0)
  {
    rows := [];
    var i := 0;
    while i < |commandMethods|
      invariant 0 <= i <= |commandMethods| && |rows| == i
      invariant forall k :: 0 <= k < i ==> rows[k] == HelpRow(commandMethods[k].0)
    {
      var commandName := commandMethods[i].0;
      var shortNames := Implode(", ", AliasesOf(CommandShortNameMap, commandName));
      rows := rows + [[("command", StrVal(commandName)), ("alias", StrVal(shortNames))]];
      i := i + 1;
    }
  }
}
