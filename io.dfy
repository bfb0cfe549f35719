/** The debugger's I/O layer: the transport as an output log and an input script,
    the line tokeniser of `in()`, and the output helpers layered on `out()`. */
module DebuggerIo {
  import opened Wrappers
  import opened PhpStrings
  import opened DebuggerHelper

  /** What one call hands the transport: a string, an array of strings (`flush`), the
      rendering `(string) $throwable` of an engine exception, or a table, which goes
      out as the text `tableFormat` makes of it (see `Rendering`). */
  datatype Output = Text(s: string) | Batch(parts: seq<string>) | Rendered(e: Exception) | Formatted(t: Table)

  /** The text a table entry stands for. */
  function Rendering(o: Output): (r: string)
    requires o.Text? || o.Formatted?
    ensures o.Formatted? ==> (r == "No more content" <==> o.t == [])
  {
    if o.Text? then o.s else TableText(o.t)
  }

  /** The terminal reset `clear` sends. */
  const ClearScreen := "\U{1B}c\n"

  /** The cursor control `setCursorVisibility` sends. */
  function CursorControl(visible: bool): string {
    "\U{1B}[?25" + (if visible then "h" else "l") + "\n"
  }

  // ---------------------------------------------------------------- tokens

  /** The trimmed, non-empty parts, in order. */
  function TokensOf(parts: seq<string>): seq<string> {
    if parts == [] then []
    else
      var argument := Trim(parts[|parts| - 1]);
      TokensOf(parts[..|parts| - 1]) + (if argument == "" then [] else [argument])
  }

  /** `in()`: the line split on single spaces, each part trimmed, empty parts dropped. */
  function Tokens(line: string): seq<string> {
    TokensOf(Explode(" ", line))
  }

  /** A word that splitting and trimming leave whole: non-empty, no whitespace. */
  predicate IsWord(t: string) {
    t != "" && forall i :: 0 <= i < |t| ==> t[i] !in Whitespace
  }

  lemma {:induction false} ExplodePiecesAvoidSeparator(c: char, s: string)
    ensures forall i :: 0 <= i < |Explode([c], s)| ==> c !in Explode([c], s)[i]
    decreases |s|
  {
    if |s| >= 1 {
      if s[..1] == [c] {
        ExplodePiecesAvoidSeparator(c, s[1..]);
      } else {
        assert s[0] != c by { assert s[..1][0] == s[0]; }
        ExplodePiecesAvoidSeparator(c, s[1..]);
      }
    }
  }

  lemma TrimIsSlice(s: string, c: char)
    requires c !in s
    ensures c !in Trim(s)
  {
  }

  lemma TrimIdempotent(s: string)
    ensures Trim(Trim(s)) == Trim(s)
  {
    var l := LTrimChars(s, Whitespace);
    var y := Trim(s);
    if y != "" {
      assert y[0] == l[0];
      assert LTrimChars(y, Whitespace) == y;
      assert RTrimChars(y, Whitespace) == y;
    }
  }

  /** Every token is non-empty, holds no space and is its own trim. */
  lemma {:induction false} TokensOfWellFormed(parts: seq<string>)
    requires forall i :: 0 <= i < |parts| ==> ' ' !in parts[i]
    ensures forall k :: 0 <= k < |TokensOf(parts)| ==>
      TokensOf(parts)[k] != "" && ' ' !in TokensOf(parts)[k] && Trim(TokensOf(parts)[k]) == TokensOf(parts)[k]
  {
    if parts != [] {
      var part := parts[|parts| - 1];
      TokensOfWellFormed(parts[..|parts| - 1]);
      TrimIsSlice(part, ' ');
      TrimIdempotent(part);
    }
  }

  lemma TokensWellFormed(line: string)
    ensures forall k :: 0 <= k < |Tokens(line)| ==>
      Tokens(line)[k] != "" && ' ' !in Tokens(line)[k] && Trim(Tokens(line)[k]) == Tokens(line)[k]
  {
    ExplodePiecesAvoidSeparator(' ', line);
    TokensOfWellFormed(Explode(" ", line));
  }

  lemma {:induction false} TokensOfWords(words: seq<string>)
    requires forall i :: 0 <= i < |words| ==> IsWord(words[i])
    ensures TokensOf(words) == words
  {
    if words != [] {
      var w := words[|words| - 1];
      assert LTrimChars(w, Whitespace) == w;
      assert RTrimChars(w, Whitespace) == w;
      TokensOfWords(words[..|words| - 1]);
    }
  }

  /** Joining words with single spaces and tokenising gives the words back. */
  lemma TokensOfJoinedWords(words: seq<string>)
    requires forall i :: 0 <= i < |words| ==> IsWord(words[i])
    ensures Tokens(Implode(" ", words)) == words
  {
    if words == [] {
      assert Trim("") == "";
    } else {
      assert forall i :: 0 <= i < |words| ==> ' ' !in words[i];
      ExplodeImplodeChar(' ', words);
      TokensOfWords(words);
    }
  }

  // ---------------------------------------------------------------- the I/O object

  /** The transport behind `$this->io` (the lines it will read, what it was sent on its
      normal and its error output) and the trait's `$outputBuffer`. */
  class DebuggerIo {
    const isTty: bool
    var input: seq<string>
    var output: seq<Output>
    var errors: seq<Output>
    var outputBuffer: seq<string>

    constructor (isTty: bool, input: seq<string>)
      ensures this.isTty == isTty && this.input == input
      ensures output == [] && errors == [] && outputBuffer == []
    {
      this.isTty := isTty;
      this.input := input;
      output := [];
      errors := [];
      outputBuffer := [];
    }

    /** The normal output grew by `entries` and nothing else changed. */
    twostate predicate Wrote(new entries: seq<Output>)
      reads this
    {
      output == old(output) + entries && errors == old(errors) &&
      input == old(input) && outputBuffer == old(outputBuffer)
    }

    /** The line `ReadLine` returns next. */
    function NextLine(): string
      reads this
    {
      if input == [] then "" else input[0]
    }

    /** The transport's `in()`: the next line, `''` once the input is exhausted. */
    method ReadLine() returns (line: string)
      modifies this
      ensures line == old(NextLine())
      ensures input == if old(input) == [] then [] else old(input)[1..]
      ensures output == old(output) && errors == old(errors) && outputBuffer == old(outputBuffer)
    {
      if input == [] {
        line := "";
      } else {
        line := input[0];
        input := input[1..];
      }
    }

    /** `in()`: reads one line and returns its tokens. */
    method In() returns (arguments: seq<string>)
      modifies this
      ensures arguments == Tokens(old(NextLine()))
      ensures input == if old(input) == [] then [] else old(input)[1..]
      ensures output == old(output) && errors == old(errors) && outputBuffer == old(outputBuffer)
    {
      var line := ReadLine();
      var parts := Explode(" ", line);
      arguments := [];
      var i := 0;
      while i < |parts|
        invariant 0 <= i <= |parts|
        invariant arguments == TokensOf(parts[..i])
      {
        var argument := Trim(parts[i]);
        assert parts[..i + 1][..i] == parts[..i];
        if argument != "" {
          arguments := arguments + [argument];
        }
        i := i + 1;
      }
      assert parts[..|parts|] == parts;
    }

    /** `out()`: to the normal output. */
    method Out(data: Output)
      modifies this
      ensures Wrote([data])
    {
      output := output + [data];
    }

    /** `exception()`: an operator-facing error goes to the normal output too. */
    method Exception(data: Output)
      modifies this
      ensures Wrote([data])
    {
      output := output + [data];
    }

    /** `error()`: to the error output. */
    method Error(data: Output)
      modifies this
      ensures errors == old(errors) + [data]
      ensures output == old(output) && input == old(input) && outputBuffer == old(outputBuffer)
    {
      errors := errors + [data];
    }

    /** `flush()`: sends the whole buffer as one batch and empties it. */
    method Flush()
      modifies this
      ensures output == old(output) + [Batch(old(outputBuffer))] && outputBuffer == []
      ensures errors == old(errors) && input == old(input)
    {
      output := output + [Batch(outputBuffer)];
      outputBuffer := [];
    }

    method Cr()
      modifies this
      ensures Wrote([Text("\r")])
    {
      Out(Text("\r"));
    }

    method Lf()
      modifies this
      ensures Wrote([Text("\n")])
    {
      Out(Text("\n"));
    }

    /** `clear()`: the terminal reset, on a TTY only. */
    method Clear()
      modifies this
      ensures Wrote(if isTty then [Text(ClearScreen)] else [])
    {
      if isTty {
        output := output + [Text(ClearScreen)];
      }
    }

    /** `setCursorVisibility()`: show or hide the cursor, on a TTY only. */
    method SetCursorVisibility(visible: bool)
      modifies this
      ensures Wrote(if isTty then [Text(CursorControl(visible))] else [])
    {
      if isTty {
        Out(Text(CursorControl(visible)));
      }
    }

    /** `table()`: the table, formatted, as one output. */
    method Table(t: Table)
      modifies this
      ensures Wrote([Formatted(t)])
    {
      Out(Formatted(t));
    }
  }
}
