/** The PHP string built-ins the debugger relies on, over byte strings
    (a `string` here stands for a PHP byte string, one char per byte). */
module PhpStrings {

  /** PHP's `empty()` on a string: `''` and `'0'` are falsy. */
  predicate PhpEmpty(s: string) {
    s == "" || s == "0"
  }

  /** `str_contains($s, $needle)`. */
  predicate Contains(s: string, needle: string)
    decreases |s|
  {
    |needle| <= |s| && (s[..|needle|] == needle || Contains(s[1..], needle))
  }

  lemma {:induction false} NotContainsChar(s: string, c: char)
    requires c !in s
    ensures !Contains(s, [c])
    decreases |s|
  {
    if 1 <= |s| {
      assert s[..1] != [c] by { assert s[..1][0] == s[0]; }
      NotContainsChar(s[1..], c);
    }
  }

  // ---------------------------------------------------------------- explode / implode

  /** `explode($sep, $s)`: the pieces between left-to-right, non-overlapping occurrences. */
  function Explode(sep: string, s: string): (r: seq<string>)
    requires sep != ""
    ensures |r| >= 1
    decreases |s|
  {
    if |s| < |sep| then [s]
    else if s[..|sep|] == sep then [""] + Explode(sep, s[|sep|..])
    else
      var rest := Explode(sep, s[1..]);
      [[s[0]] + rest[0]] + rest[1..]
  }

  /** `implode($sep, $parts)`. */
  function Implode(sep: string, parts: seq<string>): string
  {
    if |parts| == 0 then ""
    else if |parts| == 1 then parts[0]
    else parts[0] + sep + Implode(sep, parts[1..])
  }

  function Last(parts: seq<string>): string
    requires |parts| >= 1
  {
    parts[|parts| - 1]
  }

  lemma ImplodeConsFirst(sep: string, x: char, parts: seq<string>)
    requires |parts| >= 1
    ensures Implode(sep, [[x] + parts[0]] + parts[1..]) == [x] + Implode(sep, parts)
  {
    var q := [[x] + parts[0]] + parts[1..];
    assert q[1..] == parts[1..];
  }

  lemma ImplodeEmptyFirst(sep: string, parts: seq<string>)
    requires |parts| >= 1
    ensures Implode(sep, [""] + parts) == sep + Implode(sep, parts)
  {
    assert ([""] + parts)[1..] == parts;
  }

  lemma TakeDrop(s: string, n: nat)
    requires n <= |s|
    ensures s[..n] + s[n..] == s
  {
  }

  /** The step of `ImplodeExplode` at a separator. */
  lemma ImplodeExplodeAtSeparator(sep: string, s: string)
    requires sep != "" && |s| >= |sep| && s[..|sep|] == sep
    requires Implode(sep, Explode(sep, s[|sep|..])) == s[|sep|..]
    ensures Implode(sep, Explode(sep, s)) == s
  {
    var rest := s[|sep|..];
    assert Explode(sep, s) == [""] + Explode(sep, rest);
    ImplodeEmptyFirst(sep, Explode(sep, rest));
    TakeDrop(s, |sep|);
  }

  /** The step of `ImplodeExplode` at an ordinary character. */
  lemma ImplodeExplodeAtChar(sep: string, s: string)
    requires sep != "" && |s| >= |sep| && s[..|sep|] != sep
    requires Implode(sep, Explode(sep, s[1..])) == s[1..]
    ensures Implode(sep, Explode(sep, s)) == s
  {
    var rest := Explode(sep, s[1..]);
    assert Explode(sep, s) == [[s[0]] + rest[0]] + rest[1..];
    ImplodeConsFirst(sep, s[0], rest);
    TakeDrop(s, 1);
    assert s[..1] == [s[0]];
  }

  /** Joining the pieces of `explode` with the same separator gives back the input. */
  lemma {:induction false} ImplodeExplode(sep: string, s: string)
    requires sep != ""
    ensures Implode(sep, Explode(sep, s)) == s
    decreases |s|
  {
    if |s| < |sep| {
    } else if s[..|sep|] == sep {
      ImplodeExplode(sep, s[|sep|..]);
      ImplodeExplodeAtSeparator(sep, s);
    } else {
      ImplodeExplode(sep, s[1..]);
      ImplodeExplodeAtChar(sep, s);
    }
  }

  /** Without an occurrence of the separator, `explode` yields the input alone. */
  lemma {:induction false} ExplodeAbsent(sep: string, s: string)
    requires sep != "" && !Contains(s, sep)
    ensures Explode(sep, s) == [s]
    decreases |s|
  {
    if |sep| <= |s| {
      ExplodeAbsent(sep, s[1..]);
      assert [s[0]] + s[1..] == s;
    }
  }

  /** When the rest after a first character that starts no separator is a single
      piece, so is the whole input. */
  lemma ExplodeWhole(sep: string, s: string)
    requires sep != "" && |s| >= |sep| && s[..|sep|] != sep
    requires |Explode(sep, s[1..])| == 1
    ensures Explode(sep, s[1..]) == [s[1..]] && Explode(sep, s) == [s]
  {
    var rest := Explode(sep, s[1..]);
    ImplodeExplode(sep, s[1..]);
    assert rest[0] == s[1..];
    assert Explode(sep, s) == [[s[0]] + rest[0]];
    TakeDrop(s, 1);
    assert s[..1] == [s[0]];
  }

  /** At a separator, `explode` keeps the last piece of the rest. */
  lemma LastPieceAtSeparator(sep: string, s: string)
    requires sep != "" && |s| >= |sep| && s[..|sep|] == sep
    ensures Last(Explode(sep, s)) == Last(Explode(sep, s[|sep|..]))
  {
    assert Explode(sep, s) == [""] + Explode(sep, s[|sep|..]);
  }

  /** At an ordinary character followed by a separator, the last piece is that of the rest. */
  lemma LastPieceAtChar(sep: string, s: string)
    requires sep != "" && |s| >= |sep| && s[..|sep|] != sep
    requires |Explode(sep, s[1..])| > 1
    ensures Last(Explode(sep, s)) == Last(Explode(sep, s[1..]))
  {
    var rest := Explode(sep, s[1..]);
    assert Explode(sep, s) == [[s[0]] + rest[0]] + rest[1..];
    LastOfNewHead([s[0]] + rest[0], rest);
  }

  /** Replacing the first of several pieces keeps the last one. */
  lemma LastOfNewHead(head: string, parts: seq<string>)
    requires |parts| > 1
    ensures Last([head] + parts[1..]) == Last(parts)
  {
  }

  /** The last piece of `explode` contains no occurrence of the separator. */
  lemma {:induction false} LastPieceHasNoSeparator(sep: string, s: string)
    requires sep != ""
    ensures !Contains(Last(Explode(sep, s)), sep)
    decreases |s|
  {
    if |s| < |sep| {
    } else if s[..|sep|] == sep {
      LastPieceHasNoSeparator(sep, s[|sep|..]);
      LastPieceAtSeparator(sep, s);
    } else {
      LastPieceHasNoSeparator(sep, s[1..]);
      if |Explode(sep, s[1..])| == 1 {
        ExplodeWhole(sep, s);
      } else {
        LastPieceAtChar(sep, s);
      }
    }
  }

  lemma {:induction false} ExplodeCharPrefix(c: char, p: string, rest: string)
    requires c !in p
    ensures Explode([c], p + [c] + rest) == [p] + Explode([c], rest)
    decreases |p|
  {
    var s := p + [c] + rest;
    if p == [] {
      assert s[..1] == [c];
      assert s[1..] == rest;
    } else {
      assert s[..1] != [c] by { assert s[..1][0] == p[0]; }
      assert s[1..] == p[1..] + [c] + rest;
      ExplodeCharPrefix(c, p[1..], rest);
      assert [p[0]] + p[1..] == p;
    }
  }

  /** For a one-character separator that no part contains, `explode` undoes `implode`. */
  lemma {:induction false} ExplodeImplodeChar(c: char, parts: seq<string>)
    requires |parts| >= 1
    requires forall i :: 0 <= i < |parts| ==> c !in parts[i]
    ensures Explode([c], Implode([c], parts)) == parts
    decreases |parts|
  {
    if |parts| == 1 {
      NotContainsChar(parts[0], c);
      ExplodeAbsent([c], parts[0]);
    } else {
      ExplodeImplodeChar(c, parts[1..]);
      ExplodeCharPrefix(c, parts[0], Implode([c], parts[1..]));
      assert [parts[0]] + parts[1..] == parts;
    }
  }

  /** Appending a part adds the separator and the part at the end. */
  lemma {:induction false} ImplodeAppend(sep: string, parts: seq<string>, x: string)
    requires |parts| >= 1
    ensures Implode(sep, parts + [x]) == Implode(sep, parts) + sep + x
    decreases |parts|
  {
    var q := parts + [x];
    if |parts| == 1 {
      assert q[1..] == [x];
    } else {
      assert q[1..] == parts[1..] + [x];
      ImplodeAppend(sep, parts[1..], x);
    }
  }

  /** Each part followed by the separator, as a loop appending `part . sep` builds it. */
  function Terminated(sep: string, parts: seq<string>): string
  {
    if |parts| == 0 then "" else parts[0] + sep + Terminated(sep, parts[1..])
  }

  lemma {:induction false} TerminatedAppend(sep: string, parts: seq<string>, x: string)
    ensures Terminated(sep, parts + [x]) == Terminated(sep, parts) + x + sep
    decreases |parts|
  {
    if |parts| == 0 {
      assert (parts + [x])[1..] == [];
    } else {
      assert (parts + [x])[1..] == parts[1..] + [x];
      TerminatedAppend(sep, parts[1..], x);
    }
  }

  /** Joining is terminating every part but the last. */
  lemma {:induction false} ImplodeIsTerminated(sep: string, parts: seq<string>)
    requires |parts| >= 1
    ensures Implode(sep, parts) == Terminated(sep, parts[..|parts| - 1]) + parts[|parts| - 1]
    decreases |parts|
  {
    if |parts| > 1 {
      ImplodeIsTerminated(sep, parts[1..]);
      assert parts[1..][..|parts[1..]| - 1] == parts[..|parts| - 1][1..];
    }
  }

  // ---------------------------------------------------------------- trimming

  /** The characters `trim`/`rtrim` strip by default. */
  const Whitespace: set<char> := {' ', '\t', '\n', '\r', '\0', '\U{0B}'}

  /** `rtrim($s, $chars)`: the longest prefix not ending in one of `chars`. */
  function RTrimChars(s: string, chars: set<char>): (r: string)
    ensures |r| <= |s| && r == s[..|r|]
    ensures r == "" || r[|r| - 1] !in chars
    ensures forall i :: |r| <= i < |s| ==> s[i] in chars
    decreases |s|
  {
    if |s| > 0 && s[|s| - 1] in chars then RTrimChars(s[..|s| - 1], chars) else s
  }

  /** The left half of `trim`: the longest suffix not starting with one of `chars`. */
  function LTrimChars(s: string, chars: set<char>): (r: string)
    ensures |r| <= |s| && r == s[|s| - |r|..]
    ensures r == "" || r[0] !in chars
    ensures forall i :: 0 <= i < |s| - |r| ==> s[i] in chars
    decreases |s|
  {
    if |s| > 0 && s[0] in chars then LTrimChars(s[1..], chars) else s
  }

  function RTrim(s: string): string {
    RTrimChars(s, Whitespace)
  }

  function Trim(s: string): string {
    RTrimChars(LTrimChars(s, Whitespace), Whitespace)
  }

  /** Trimming a tail made only of stripped characters leaves the head. */
  lemma {:induction false} RTrimCharsDropsTail(x: string, y: string, chars: set<char>)
    requires forall i :: 0 <= i < |y| ==> y[i] in chars
    requires x == "" || x[|x| - 1] !in chars
    ensures RTrimChars(x + y, chars) == x
    decreases |y|
  {
    if |y| > 0 {
      assert (x + y)[..|x + y| - 1] == x + y[..|y| - 1];
      RTrimCharsDropsTail(x, y[..|y| - 1], chars);
    } else {
      assert x + y == x;
    }
  }

  // ---------------------------------------------------------------- str_replace

  /** `str_replace($from, $to, $s)` for one pair: every left-to-right, non-overlapping
      occurrence is replaced; an empty search string leaves the subject alone. */
  function ReplaceAll(s: string, from: string, to: string): string
    decreases |s|
  {
    if from == "" || |s| < |from| then s
    else if s[..|from|] == from then to + ReplaceAll(s[|from|..], from, to)
    else [s[0]] + ReplaceAll(s[1..], from, to)
  }

  /** Replacing is splitting on the search string and joining with the replacement. */
  lemma {:induction false} ReplaceAllIsImplodeExplode(s: string, from: string, to: string)
    requires from != ""
    ensures ReplaceAll(s, from, to) == Implode(to, Explode(from, s))
    decreases |s|
  {
    if |s| < |from| {
    } else if s[..|from|] == from {
      ReplaceAllIsImplodeExplode(s[|from|..], from, to);
      ImplodeEmptyFirst(to, Explode(from, s[|from|..]));
    } else {
      ReplaceAllIsImplodeExplode(s[1..], from, to);
      ImplodeConsFirst(to, s[0], Explode(from, s[1..]));
    }
  }

  /** A subject without the search string is returned unchanged. */
  lemma ReplaceAllAbsent(s: string, from: string, to: string)
    requires !Contains(s, from)
    ensures ReplaceAll(s, from, to) == s
  {
    if from != "" {
      ReplaceAllIsImplodeExplode(s, from, to);
      ExplodeAbsent(from, s);
    }
  }

  // ---------------------------------------------------------------- case and bytes

  function LowerChar(c: char): char {
    if 'A' <= c <= 'Z' then (c as int + 32) as char else c
  }

  /** `strtolower`: ASCII letters only, one byte for one byte. */
  function ToLower(s: string): (r: string)
    ensures |r| == |s|
    ensures forall i :: 0 <= i < |s| ==> r[i] == LowerChar(s[i])
  {
    if s == [] then [] else [LowerChar(s[0])] + ToLower(s[1..])
  }

  predicate IsPrintableChar(c: char) {
    ' ' <= c <= '~'
  }

  /** `ctype_print`: non-empty and every byte printable. */
  predicate IsPrintable(s: string) {
    |s| > 0 && forall i :: 0 <= i < |s| ==> IsPrintableChar(s[i])
  }

  function HexDigit(n: int): (c: char)
    requires 0 <= n < 16
    ensures IsPrintableChar(c)
  {
    if n < 10 then ('0' as int + n) as char else ('a' as int + n - 10) as char
  }

  function HexValue(c: char): int {
    if '0' <= c <= '9' then c as int - '0' as int
    else if 'a' <= c <= 'f' then c as int - 'a' as int + 10
    else 0
  }

  /** `bin2hex`: two lower-case hex digits per byte. */
  function Bin2Hex(s: string): (r: string)
    ensures |r| == 2 * |s|
    ensures forall i :: 0 <= i < |r| ==> IsPrintableChar(r[i])
  {
    if s == [] then ""
    else
      var b := (s[0] as int) % 256;
      [HexDigit(b / 16), HexDigit(b % 16)] + Bin2Hex(s[1..])
  }

  /** `hex2bin` on well-formed input. */
  function Hex2Bin(h: string): string
    decreases |h|
  {
    if |h| < 2 then "" else [(HexValue(h[0]) * 16 + HexValue(h[1])) as char] + Hex2Bin(h[2..])
  }

  lemma HexValueOfDigit(n: int)
    requires 0 <= n < 16
    ensures HexValue(HexDigit(n)) == n
  {
  }

  /** The two digits of a byte read back give the byte. */
  lemma HexPairValue(c: char)
    requires c as int < 256
    ensures var b := (c as int) % 256;
      (HexValue(HexDigit(b / 16)) * 16 + HexValue(HexDigit(b % 16))) as char == c
  {
    var b := (c as int) % 256;
    HexValueOfDigit(b / 16);
    HexValueOfDigit(b % 16);
  }

  /** On byte strings, `hex2bin` undoes `bin2hex`. */
  lemma {:induction false} Hex2BinBin2Hex(s: string)
    requires forall i :: 0 <= i < |s| ==> s[i] as int < 256
    ensures Hex2Bin(Bin2Hex(s)) == s
  {
    if s != [] {
      var b := (s[0] as int) % 256;
      var h := Bin2Hex(s);
      var pair := [HexDigit(b / 16), HexDigit(b % 16)];
      assert h == pair + Bin2Hex(s[1..]);
      assert h[2..] == Bin2Hex(s[1..]);
      HexPairValue(s[0]);
      Hex2BinBin2Hex(s[1..]);
      assert Hex2Bin(h) == [s[0]] + s[1..];
      TakeDrop(s, 1);
      assert s[..1] == [s[0]];
    }
  }

  // ---------------------------------------------------------------- numbers

  predicate IsDigit(c: char) {
    '0' <= c <= '9'
  }

  /** Number of leading decimal digits. */
  function DigitPrefix(s: string): (n: nat)
    ensures n <= |s|
    ensures forall i :: 0 <= i < n ==> IsDigit(s[i])
    ensures n < |s| ==> !IsDigit(s[n])
  {
    if |s| > 0 && IsDigit(s[0]) then 1 + DigitPrefix(s[1..]) else 0
  }

  function UnsignedPart(s: string): string {
    if |s| > 0 && (s[0] == '+' || s[0] == '-') then s[1..] else s
  }

  /** `is_numeric` on decimal notation: an optional sign, then digits with an optional
      fractional part (`12`, `-3`, `1.5`, `.5`, `7.`). */
  predicate IsNumeric(s: string) {
    var u := UnsignedPart(s);
    var d := DigitPrefix(u);
    if d == |u| then d > 0
    else u[d] == '.' && DigitPrefix(u[d + 1..]) == |u| - d - 1 && (d > 0 || |u| > d + 1)
  }

  function DigitsValue(ds: string): nat
  {
    if ds == [] then 0
    else
      var c := ds[|ds| - 1];
      DigitsValue(ds[..|ds| - 1]) * 10 + (if IsDigit(c) then c as int - '0' as int else 0)
  }

  /** `(int) $s`: the leading signed integer, 0 when there is none. */
  function ToInt(s: string): int {
    var u := UnsignedPart(s);
    var v: int := DigitsValue(u[..DigitPrefix(u)]);
    if |s| > 0 && s[0] == '-' then -v else v
  }

  function DigitChar(n: nat): (c: char)
    requires n < 10
    ensures IsDigit(c)
  {
    ('0' as int + n) as char
  }

  function NatToString(n: nat): (r: string)
    ensures |r| >= 1
    ensures forall i :: 0 <= i < |r| ==> IsDigit(r[i])
  {
    if n < 10 then [DigitChar(n)] else NatToString(n / 10) + [DigitChar(n % 10)]
  }

  /** `(string) $i` for an integer. */
  function IntToString(i: int): string {
    if i < 0 then "-" + NatToString(-i) else NatToString(i)
  }

  lemma {:induction false} DigitsValueNatToString(n: nat)
    ensures DigitsValue(NatToString(n)) == n
  {
    if n >= 10 {
      DigitsValueNatToString(n / 10);
      var s := NatToString(n);
      assert s[..|s| - 1] == NatToString(n / 10);
    }
  }

  lemma AllDigitsPrefix(s: string)
    requires forall i :: 0 <= i < |s| ==> IsDigit(s[i])
    ensures DigitPrefix(s) == |s|
  {
  }

  /** Printing an integer gives a numeric string that casts back to the same integer. */
  lemma IntToStringRoundTrip(i: int)
    ensures IsNumeric(IntToString(i))
    ensures ToInt(IntToString(i)) == i
  {
    var n: nat := if i < 0 then -i else i;
    var digits := NatToString(n);
    AllDigitsPrefix(digits);
    DigitsValueNatToString(n);
    var s := IntToString(i);
    assert UnsignedPart(s) == digits by {
      if i < 0 { assert s[1..] == digits; } else { assert IsDigit(s[0]); }
    }
    assert digits[..|digits|] == digits;
  }

  // ---------------------------------------------------------------- paths

  /** The part after the last occurrence of `c` (all of `s` when there is none). */
  function AfterLastChar(s: string, c: char): (r: string)
    ensures c !in r
    ensures |r| <= |s| && r == s[|s| - |r|..]
    ensures |r| < |s| ==> s[|s| - |r| - 1] == c
  {
    if |s| == 0 then ""
    else if s[|s| - 1] == c then ""
    else AfterLastChar(s[..|s| - 1], c) + [s[|s| - 1]]
  }

  /** `basename($path)`: trailing slashes dropped, then the part after the last slash. */
  function Basename(path: string): (r: string)
    ensures '/' !in r
    ensures var trimmed := RTrimChars(path, {'/'});
      |r| <= |trimmed| && r == trimmed[|trimmed| - |r|..] &&
      (|r| == |trimmed| || trimmed[|trimmed| - |r| - 1] == '/')
    ensures forall i :: |RTrimChars(path, {'/'})| <= i < |path| ==> path[i] == '/'
  {
    AfterLastChar(RTrimChars(path, {'/'}), '/')
  }
}
