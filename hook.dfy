// The engine-table hooks of the extension: replacing the handler of an internal
// function, registering a function when it is missing, forcing a constant in place,
// and removing everything a module owns when it shuts down.
module Hooks {
  import opened Wrappers
  import opened PhpStrings

  /** The identity of a native handler; the engine only stores and calls it. */
  type Handler = nat

  /** Where a function or class comes from: user code, or an internal module with its
      number (only internal entries know their module). */
  datatype Origin = User | Internal(moduleNumber: int)

  datatype Function = Function(origin: Origin, handler: Handler)

  datatype ClassEntry = ClassEntry(origin: Origin)

  /** One entry of a function-entry array; the array's terminator is the end of the
      sequence. */
  datatype FunctionEntry = FunctionEntry(name: string, handler: Handler)

  datatype ConstantValue = Null | Bool(b: bool) | Long(l: int) | Double(bits: bv64) | Str(s: string)

  datatype Constant = Constant(value: ConstantValue, flags: int, moduleNumber: int)

  // ---------------------------------------------------------------- hookability

  /** The disabled-functions list names `name`, letters compared without case. */
  predicate ListContainsCi(list: seq<string>, name: string) {
    exists i :: 0 <= i < |list| && ToLower(list[i]) == ToLower(name)
  }

  /** A function may be registered by the hook unless it is disabled. */
  predicate Hookable(disabled: seq<string>, name: string)
    ensures name in disabled ==> !Hookable(disabled, name)
    ensures disabled == [] ==> Hookable(disabled, name)
  {
    !ListContainsCi(disabled, name)
  }

  /** Disabling is blind to case: the same name in other letters is just as hookable. */
  lemma HookableIgnoresCase(disabled: seq<string>, name: string, other: string)
    requires ToLower(name) == ToLower(other)
    ensures Hookable(disabled, name) <==> Hookable(disabled, other)
  {
    if !Hookable(disabled, name) {
      var i :| 0 <= i < |disabled| && ToLower(disabled[i]) == ToLower(name);
      assert ToLower(disabled[i]) == ToLower(other);
    }
    if !Hookable(disabled, other) {
      var i :| 0 <= i < |disabled| && ToLower(disabled[i]) == ToLower(other);
      assert ToLower(disabled[i]) == ToLower(name);
    }
  }

  // ---------------------------------------------------------------- specification

  /** The outcome of hooking: the function table afterwards and the reported success. */
  datatype Hooked = Hooked(table: map<string, Function>, ok: bool)

  /** Hooking one entry: an existing function gets the entry's handler; a missing one
      is registered under its lower-cased name as an internal function of the current
      module, unless it is disabled (then nothing happens, successfully); registration
      fails, changing nothing, when the lower-cased name is taken. */
  function HookOne(t: map<string, Function>, disabled: seq<string>, moduleNumber: int, fe: FunctionEntry): (r: Hooked)
    ensures t.Keys <= r.table.Keys
    ensures !r.ok ==> r.table == t
    ensures fe.name in t ==> r.ok && r.table[fe.name] == t[fe.name].(handler := fe.handler)
    ensures fe.name !in t && !Hookable(disabled, fe.name) ==> r == Hooked(t, true)
    ensures forall k :: k in t && k != fe.name ==> k in r.table && r.table[k] == t[k]
  {
    if fe.name in t then
      Hooked(t[fe.name := t[fe.name].(handler := fe.handler)], true)
    else if !Hookable(disabled, fe.name) then
      Hooked(t, true)
    else if ToLower(fe.name) in t then
      Hooked(t, false)
    else
      Hooked(t[ToLower(fe.name) := Function(Internal(moduleNumber), fe.handler)], true)
  }

  /** A hook fails only for a missing, hookable function whose registration is
      refused; a successful hook of a hookable name leaves a function carrying the
      entry's handler under the name or its lower-cased form. */
  lemma HookOneOutcome(t: map<string, Function>, disabled: seq<string>, moduleNumber: int, fe: FunctionEntry)
    ensures var r := HookOne(t, disabled, moduleNumber, fe);
      (!r.ok <==> fe.name !in t && Hookable(disabled, fe.name) && ToLower(fe.name) in t) &&
      (r.ok && Hookable(disabled, fe.name) ==>
        (fe.name in r.table && r.table[fe.name].handler == fe.handler) ||
        (ToLower(fe.name) in r.table && r.table[ToLower(fe.name)] == Function(Internal(moduleNumber), fe.handler)))
  {
  }

  /** Hooking every entry in order, each in the table the previous ones left; the
      result is a success only when every entry was. */
  function HookAll(t: map<string, Function>, disabled: seq<string>, moduleNumber: int, fes: seq<FunctionEntry>): (r: Hooked)
    ensures t.Keys <= r.table.Keys
    decreases |fes|
  {
    if fes == [] then Hooked(t, true)
    else
      var first := HookOne(t, disabled, moduleNumber, fes[0]);
      var rest := HookAll(first.table, disabled, moduleNumber, fes[1..]);
      Hooked(rest.table, first.ok && rest.ok)
  }

  /** The table the first `i` entries leave behind. */
  function TableBefore(t: map<string, Function>, disabled: seq<string>, moduleNumber: int, fes: seq<FunctionEntry>, i: nat): map<string, Function>
    requires i <= |fes|
  {
    HookAll(t, disabled, moduleNumber, fes[..i]).table
  }

  /** Hooking one more entry continues from where the others left off: a failure does
      not stop the entries after it. */
  lemma {:induction false} HookAllSnoc(t: map<string, Function>, disabled: seq<string>, moduleNumber: int, fes: seq<FunctionEntry>, fe: FunctionEntry)
    ensures var before := HookAll(t, disabled, moduleNumber, fes);
      var last := HookOne(before.table, disabled, moduleNumber, fe);
      HookAll(t, disabled, moduleNumber, fes + [fe]) == Hooked(last.table, before.ok && last.ok)
    decreases |fes|
  {
    if fes == [] {
      assert ([] + [fe])[1..] == [];
    } else {
      var first := HookOne(t, disabled, moduleNumber, fes[0]);
      assert (fes + [fe])[0] == fes[0];
      assert (fes + [fe])[1..] == fes[1..] + [fe];
      HookAllSnoc(first.table, disabled, moduleNumber, fes[1..], fe);
    }
  }

  /** The tables left by a prefix do not depend on what follows it. */
  lemma TableBeforePrefix(t: map<string, Function>, disabled: seq<string>, moduleNumber: int, fes: seq<FunctionEntry>, fe: FunctionEntry, i: nat)
    requires i <= |fes|
    ensures TableBefore(t, disabled, moduleNumber, fes + [fe], i) == TableBefore(t, disabled, moduleNumber, fes, i)
  {
    assert (fes + [fe])[..i] == fes[..i];
  }

  /** The whole array succeeds exactly when each entry succeeded in the table its
      predecessors left. */
  lemma {:induction false} HookAllOkIff(t: map<string, Function>, disabled: seq<string>, moduleNumber: int, fes: seq<FunctionEntry>)
    ensures HookAll(t, disabled, moduleNumber, fes).ok <==>
      forall i :: 0 <= i < |fes| ==> HookOne(TableBefore(t, disabled, moduleNumber, fes, i), disabled, moduleNumber, fes[i]).ok
    decreases |fes|
  {
    if fes != [] {
      var n := |fes| - 1;
      var init := fes[..n];
      var last := fes[n];
      assert fes == init + [last];
      HookAllSnoc(t, disabled, moduleNumber, init, last);
      HookAllOkIff(t, disabled, moduleNumber, init);
      forall i | 0 <= i < n
        ensures HookOne(TableBefore(t, disabled, moduleNumber, fes, i), disabled, moduleNumber, fes[i]) ==
          HookOne(TableBefore(t, disabled, moduleNumber, init, i), disabled, moduleNumber, init[i])
      {
        TableBeforePrefix(t, disabled, moduleNumber, init, last, i);
      }
      assert fes[..n] == init;
    }
  }

  /** Entries whose functions all exist only swap handlers: every hook succeeds, no
      name is added, and with distinct names each function ends with its entry's
      handler. */
  lemma {:induction false} HookAllExisting(t: map<string, Function>, disabled: seq<string>, moduleNumber: int, fes: seq<FunctionEntry>)
    requires forall i :: 0 <= i < |fes| ==> fes[i].name in t
    requires forall i, j :: 0 <= i < j < |fes| ==> fes[i].name != fes[j].name
    ensures var r := HookAll(t, disabled, moduleNumber, fes);
      r.ok && r.table.Keys == t.Keys &&
      (forall i :: 0 <= i < |fes| ==> r.table[fes[i].name] == t[fes[i].name].(handler := fes[i].handler)) &&
      (forall k :: k in t && (forall i :: 0 <= i < |fes| ==> fes[i].name != k) ==> r.table[k] == t[k])
    decreases |fes|
  {
    if fes != [] {
      var first := HookOne(t, disabled, moduleNumber, fes[0]);
      var rest := fes[1..];
      forall i | 0 <= i < |rest|
        ensures rest[i].name in first.table
      {
        assert rest[i] == fes[i + 1];
      }
      forall i, j | 0 <= i < j < |rest|
        ensures rest[i].name != rest[j].name
      {
        assert rest[i] == fes[i + 1] && rest[j] == fes[j + 1];
      }
      HookAllExisting(first.table, disabled, moduleNumber, rest);
      var r := HookAll(t, disabled, moduleNumber, fes);
      forall i | 0 <= i < |fes|
        ensures r.table[fes[i].name] == t[fes[i].name].(handler := fes[i].handler)
      {
        if i > 0 {
          assert rest[i - 1] == fes[i];
          assert fes[i].name != fes[0].name;
        } else {
          assert forall j :: 0 <= j < |rest| ==> rest[j].name != fes[0].name by {
            forall j | 0 <= j < |rest|
              ensures rest[j].name != fes[0].name
            {
              assert rest[j] == fes[j + 1];
            }
          }
        }
      }
      forall k | k in t && (forall i :: 0 <= i < |fes| ==> fes[i].name != k)
        ensures r.table[k] == t[k]
      {
        assert fes[0].name != k;
        assert forall i :: 0 <= i < |rest| ==> rest[i].name != k by {
          forall i | 0 <= i < |rest|
            ensures rest[i].name != k
          {
            assert rest[i] == fes[i + 1];
          }
        }
      }
    }
  }

  // ---------------------------------------------------------------- constants

  /** A C string read as far as its first NUL byte. */
  function CString(s: string): (r: string)
    ensures r <= s
    ensures '\0' !in r
    ensures |r| < |s| ==> s[|r|] == '\0'
  {
    if s == [] || s[0] == '\0' then [] else [s[0]] + CString(s[1..])
  }

  /** What the engine's constant registration does: a name already taken is refused
      and the table kept. */
  function Registered(t: map<string, Constant>, name: string, c: Constant): map<string, Constant> {
    if name in t then t else t[name := c]
  }

  /** Forced registration: whatever was there is removed first. */
  function Forced(t: map<string, Constant>, name: string, c: Constant): map<string, Constant> {
    Registered(t - {name}, name, c)
  }

  /** Forcing always leaves the new constant under the name and every other constant
      as it was, where plain registration keeps an existing constant. */
  lemma ForcedReplaces(t: map<string, Constant>, name: string, c: Constant)
    ensures var r := Forced(t, name, c);
      r.Keys == t.Keys + {name} && r[name] == c &&
      (forall k :: k in t && k != name ==> r[k] == t[k])
    ensures name in t ==> Registered(t, name, c) == t
  {
  }

  /** Forcing the same constant twice is forcing it once. */
  lemma ForcedIdempotent(t: map<string, Constant>, name: string, c: Constant)
    ensures Forced(Forced(t, name, c), name, c) == Forced(t, name, c)
  {
    var once := Forced(t, name, c);
    assert (once - {name})[name := c] == once;
  }

  // ---------------------------------------------------------------- module cleaning

  /** The constants left once those of `moduleNumber` are gone. */
  function ConstantsKept(t: map<string, Constant>, moduleNumber: int): map<string, Constant> {
    map k | k in t && t[k].moduleNumber != moduleNumber :: t[k]
  }

  /** An entry internal to `moduleNumber`; user entries belong to no module. */
  predicate OwnedBy(origin: Origin, moduleNumber: int) {
    origin.Internal? && origin.moduleNumber == moduleNumber
  }

  /** The classes left once the internal ones of `moduleNumber` are gone. */
  function ClassesKept(t: map<string, ClassEntry>, moduleNumber: int): map<string, ClassEntry> {
    map k | k in t && !OwnedBy(t[k].origin, moduleNumber) :: t[k]
  }

  /** The functions left once the internal ones of `moduleNumber` are gone. */
  function FunctionsKept(t: map<string, Function>, moduleNumber: int): map<string, Function> {
    map k | k in t && !OwnedBy(t[k].origin, moduleNumber) :: t[k]
  }

  /** Cleaning removes exactly what the module owns, keeps the rest untouched, and
      cleaning again changes nothing. */
  lemma CleaningRemovesExactlyOwned(cs: map<string, Constant>, ces: map<string, ClassEntry>, fs: map<string, Function>, moduleNumber: int)
    ensures forall k :: k in ConstantsKept(cs, moduleNumber) <==> k in cs && cs[k].moduleNumber != moduleNumber
    ensures forall k :: k in ClassesKept(ces, moduleNumber) <==> k in ces && !(ces[k].origin.Internal? && ces[k].origin.moduleNumber == moduleNumber)
    ensures forall k :: k in FunctionsKept(fs, moduleNumber) <==> k in fs && !(fs[k].origin.Internal? && fs[k].origin.moduleNumber == moduleNumber)
    ensures forall k :: k in ConstantsKept(cs, moduleNumber) ==> ConstantsKept(cs, moduleNumber)[k] == cs[k]
    ensures forall k :: k in ClassesKept(ces, moduleNumber) ==> ClassesKept(ces, moduleNumber)[k] == ces[k]
    ensures forall k :: k in FunctionsKept(fs, moduleNumber) ==> FunctionsKept(fs, moduleNumber)[k] == fs[k]
    ensures ConstantsKept(ConstantsKept(cs, moduleNumber), moduleNumber) == ConstantsKept(cs, moduleNumber)
    ensures ClassesKept(ClassesKept(ces, moduleNumber), moduleNumber) == ClassesKept(ces, moduleNumber)
    ensures FunctionsKept(FunctionsKept(fs, moduleNumber), moduleNumber) == FunctionsKept(fs, moduleNumber)
  {
  }

  /** User functions and classes survive the cleaning of any module. */
  lemma CleaningKeepsUserCode(ces: map<string, ClassEntry>, fs: map<string, Function>, moduleNumber: int, name: string)
    ensures name in fs && fs[name].origin == User ==> name in FunctionsKept(fs, moduleNumber)
    ensures name in ces && ces[name].origin == User ==> name in ClassesKept(ces, moduleNumber)
  {
  }

  // ---------------------------------------------------------------- the engine tables

  /** The engine's function, class and constant tables as the hooks see them. */
  class EngineTables {
    var functions: map<string, Function>
    var classes: map<string, ClassEntry>
    var constants: map<string, Constant>
    /** The `disable_functions` setting, already split into names. */
    const disabledFunctions: seq<string>
    /** The number of the module being loaded. */
    const currentModule: int

    constructor (functions: map<string, Function>, classes: map<string, ClassEntry>, constants: map<string, Constant>,
                 disabledFunctions: seq<string>, currentModule: int)
      ensures this.functions == functions && this.classes == classes && this.constants == constants
      ensures this.disabledFunctions == disabledFunctions && this.currentModule == currentModule
    {
      this.functions := functions;
      this.classes := classes;
      this.constants := constants;
      this.disabledFunctions := disabledFunctions;
      this.currentModule := currentModule;
    }

    /** Replaces the handler of an existing function and hands back the old one; a
        missing function is reported, with no old handler and no change. */
    method HookInternalFunctionHandlerEx(name: string, handler: Handler) returns (hooked: bool, original: Option<Handler>)
      modifies this
      ensures hooked <==> name in old(functions)
      ensures !hooked ==> original == None && functions == old(functions)
      ensures hooked ==> (original == Some(old(functions)[name].handler) &&
        functions == old(functions)[name := old(functions)[name].(handler := handler)])
      ensures classes == old(classes) && constants == old(constants)
    {
      original := None;
      if name !in functions {
        return false, None;
      }
      original := Some(functions[name].handler);
      functions := functions[name := functions[name].(handler := handler)];
      hooked := true;
    }

    /** The same without asking for the old handler. */
    method HookInternalFunctionHandler(name: string, handler: Handler) returns (hooked: bool)
      modifies this
      ensures hooked <==> name in old(functions)
      ensures hooked ==> functions == old(functions)[name := old(functions)[name].(handler := handler)]
      ensures !hooked ==> functions == old(functions)
      ensures classes == old(classes) && constants == old(constants)
    {
      var original;
      hooked, original := HookInternalFunctionHandlerEx(name, handler);
    }

    /** The engine registering one function of the current module: refused when its
        lower-cased name is taken. */
    method RegisterFunction(fe: FunctionEntry) returns (registered: bool)
      modifies this
      ensures registered <==> ToLower(fe.name) !in old(functions)
      ensures registered ==> functions == old(functions)[ToLower(fe.name) := Function(Internal(currentModule), fe.handler)]
      ensures !registered ==> functions == old(functions)
      ensures classes == old(classes) && constants == old(constants)
    {
      var key := ToLower(fe.name);
      if key in functions {
        return false;
      }
      functions := functions[key := Function(Internal(currentModule), fe.handler)];
      registered := true;
    }

    /** Hooks one function entry. */
    method HookInternalFunction(fe: FunctionEntry) returns (ok: bool)
      modifies this
      ensures Hooked(functions, ok) == HookOne(old(functions), disabledFunctions, currentModule, fe)
      ensures classes == old(classes) && constants == old(constants)
    {
      if fe.name !in functions {
        if Hookable(disabledFunctions, fe.name) {
          var registered := RegisterFunction(fe);
          if !registered {
            return false;
          }
        }
      } else {
        functions := functions[fe.name := functions[fe.name].(handler := fe.handler)];
      }
      ok := true;
    }

    /** Hooks every entry of the array, going on past failures, and reports whether
        all succeeded. */
    method HookInternalFunctions(fes: seq<FunctionEntry>) returns (ok: bool)
      modifies this
      ensures Hooked(functions, ok) == HookAll(old(functions), disabledFunctions, currentModule, fes)
      ensures classes == old(classes) && constants == old(constants)
    {
      var i := 0;
      ok := true;
      while i < |fes|
        invariant 0 <= i <= |fes|
        invariant Hooked(functions, ok) == HookAll(old(functions), disabledFunctions, currentModule, fes[..i])
        invariant classes == old(classes) && constants == old(constants)
      {
        HookAllSnoc(old(functions), disabledFunctions, currentModule, fes[..i], fes[i]);
        assert fes[..i + 1] == fes[..i] + [fes[i]];
        var hooked := HookInternalFunction(fes[i]);
        if !hooked {
          ok := false;
        }
        i := i + 1;
      }
      assert fes[..i] == fes;
    }

    /** Removes the constant under `name` if there is one. */
    method UnregisterConstantIfExists(name: string)
      modifies this
      ensures constants == old(constants) - {name}
      ensures functions == old(functions) && classes == old(classes)
    {
      if name in constants {
        constants := constants - {name};
      }
    }

    /** The engine registering a constant: refused, changing nothing, when the name is
        taken. */
    method RegisterConstant(name: string, c: Constant) returns (registered: bool)
      modifies this
      ensures registered <==> name !in old(constants)
      ensures constants == Registered(old(constants), name, c)
      ensures functions == old(functions) && classes == old(classes)
    {
      if name in constants {
        return false;
      }
      constants := constants[name := c];
      registered := true;
    }

    /** Removes any constant under the name, then registers the new one. */
    method RegisterConstantForce(name: string, c: Constant)
      modifies this
      ensures constants == Forced(old(constants), name, c)
      ensures functions == old(functions) && classes == old(classes)
    {
      UnregisterConstantIfExists(name);
      var _ := RegisterConstant(name, c);
    }

    method RegisterNullConstantForce(name: string, flags: int, moduleNumber: int)
      modifies this
      ensures constants == Forced(old(constants), name, Constant(Null, flags, moduleNumber))
      ensures functions == old(functions) && classes == old(classes)
    {
      RegisterConstantForce(name, Constant(Null, flags, moduleNumber));
    }

    method RegisterBoolConstantForce(name: string, b: bool, flags: int, moduleNumber: int)
      modifies this
      ensures constants == Forced(old(constants), name, Constant(Bool(b), flags, moduleNumber))
      ensures functions == old(functions) && classes == old(classes)
    {
      RegisterConstantForce(name, Constant(Bool(b), flags, moduleNumber));
    }

    method RegisterLongConstantForce(name: string, l: int, flags: int, moduleNumber: int)
      modifies this
      ensures constants == Forced(old(constants), name, Constant(Long(l), flags, moduleNumber))
      ensures functions == old(functions) && classes == old(classes)
    {
      RegisterConstantForce(name, Constant(Long(l), flags, moduleNumber));
    }

    method RegisterDoubleConstantForce(name: string, bits: bv64, flags: int, moduleNumber: int)
      modifies this
      ensures constants == Forced(old(constants), name, Constant(Double(bits), flags, moduleNumber))
      ensures functions == old(functions) && classes == old(classes)
    {
      RegisterConstantForce(name, Constant(Double(bits), flags, moduleNumber));
    }

    /** A string constant from a C string: its value stops at the first NUL. */
    method RegisterStringConstantForce(name: string, s: string, flags: int, moduleNumber: int)
      modifies this
      ensures constants == Forced(old(constants), name, Constant(Str(CString(s)), flags, moduleNumber))
      ensures functions == old(functions) && classes == old(classes)
    {
      RegisterConstantForce(name, Constant(Str(CString(s)), flags, moduleNumber));
    }

    /** A string constant from the first `length` bytes of a buffer. */
    method RegisterStringlConstantForce(name: string, s: string, length: nat, flags: int, moduleNumber: int)
      requires length <= |s|
      modifies this
      ensures constants == Forced(old(constants), name, Constant(Str(s[..length]), flags, moduleNumber))
      ensures functions == old(functions) && classes == old(classes)
    {
      RegisterConstantForce(name, Constant(Str(s[..length]), flags, moduleNumber));
    }

    /** Walks the constants, removing each owned by `moduleNumber`. */
    method CleanModuleConstants(moduleNumber: int)
      modifies this
      ensures constants == ConstantsKept(old(constants), moduleNumber)
      ensures functions == old(functions) && classes == old(classes)
    {
      var pending := constants.Keys;
      while pending != {}
        invariant pending <= old(constants).Keys
        invariant constants == map k | k in old(constants) && (k in pending || old(constants)[k].moduleNumber != moduleNumber) :: old(constants)[k]
        invariant functions == old(functions) && classes == old(classes)
        decreases pending
      {
        var k :| k in pending;
        if constants[k].moduleNumber == moduleNumber {
          constants := constants - {k};
        }
        pending := pending - {k};
      }
    }

    /** Walks the classes, removing each internal one of `moduleNumber`. */
    method CleanModuleClasses(moduleNumber: int)
      modifies this
      ensures classes == ClassesKept(old(classes), moduleNumber)
      ensures functions == old(functions) && constants == old(constants)
    {
      var pending := classes.Keys;
      while pending != {}
        invariant pending <= old(classes).Keys
        invariant classes == map k | k in old(classes) && (k in pending || !OwnedBy(old(classes)[k].origin, moduleNumber)) :: old(classes)[k]
        invariant functions == old(functions) && constants == old(constants)
        decreases pending
      {
        var k :| k in pending;
        if classes[k].origin.Internal? && classes[k].origin.moduleNumber == moduleNumber {
          classes := classes - {k};
        }
        pending := pending - {k};
      }
    }

    /** Walks the functions, removing each internal one of `moduleNumber`. */
    method CleanModuleFunctions(moduleNumber: int)
      modifies this
      ensures functions == FunctionsKept(old(functions), moduleNumber)
      ensures classes == old(classes) && constants == old(constants)
    {
      var pending := functions.Keys;
      while pending != {}
        invariant pending <= old(functions).Keys
        invariant functions == map k | k in old(functions) && (k in pending || !OwnedBy(old(functions)[k].origin, moduleNumber)) :: old(functions)[k]
        invariant classes == old(classes) && constants == old(constants)
        decreases pending
      {
        var k :| k in pending;
        if functions[k].origin.Internal? && functions[k].origin.moduleNumber == moduleNumber {
          functions := functions - {k};
        }
        pending := pending - {k};
      }
    }
  }
}
