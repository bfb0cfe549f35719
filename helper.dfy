/** The formatting helpers of the debugger: value rendering, ASCII tables, frame and
    trace rendering, and the source-file windows. */
module DebuggerHelper {
  import opened Wrappers
  import opened PhpStrings
  import opened Host

  const SourceFileContentPadding := 4
  const SourceFileDefaultLineCount := 8

  function Max(a: int, b: int): int {
    if a < b then b else a
  }

  // ---------------------------------------------------------------- longest line

  /** The longest of the given lines (0 for none). */
  function MaxLength(lines: seq<string>): (m: nat)
    ensures forall i :: 0 <= i < |lines| ==> |lines[i]| <= m
    ensures m == 0 || exists i :: 0 <= i < |lines| && |lines[i]| == m
  {
    if lines == [] then 0
    else
      var rest := MaxLength(lines[..|lines| - 1]);
      var last := |lines[|lines| - 1]|;
      if last > rest then last else rest
  }

  /** `getMaxLengthOfStringLine`: the byte length of the longest `\n`-separated line. */
  function MaxLineLength(s: string): (r: nat)
    ensures forall i :: 0 <= i < |Explode("\n", s)| ==> |Explode("\n", s)[i]| <= r
    ensures r == 0 || exists i :: 0 <= i < |Explode("\n", s)| && |Explode("\n", s)[i]| == r
  {
    MaxLength(Explode("\n", s))
  }

  /** A string without a line break is its own longest line. */
  lemma MaxLineLengthOfSingleLine(s: string)
    requires '\n' !in s
    ensures MaxLineLength(s) == |s|
  {
    NotContainsChar(s, '\n');
    ExplodeAbsent("\n", s);
  }

  // ---------------------------------------------------------------- values

  /** `convertValueToString`: scalars in PHP's own spelling, strings cut and (in
      argument mode) quoted, arrays and objects abbreviated. */
  function ValueToString(v: Value, forArgs: bool): (r: string)
    ensures v.StrVal? ==> |r| <= (if forArgs then 8 + 3 + 2 else 512 + 3)
    ensures v.StrVal? && forArgs ==> 2 <= |r| && r[0] == '\'' && r[|r| - 1] == '\''
  {
    match v
    case IntVal(i) => IntToString(i)
    case FloatVal(text) => text
    case NullVal => "null"
    case BoolVal(b) => if b then "true" else "false"
    case StrVal(s) =>
      var maxLength := if forArgs then 8 else 512;
      var cut := if |s| > maxLength then s[..maxLength] + "..." else s;
      if forArgs then "'" + cut + "'" else cut
    case ArrayVal(size) => if size == 0 then "[]" else "[...]"
    case ObjectVal(className) => className + "{}"
    case OtherVal => "..."
  }

  /** Strings longer than 8 bytes (argument mode) or 512 bytes (table mode) show
      their first bytes and `...`; argument-mode strings are single-quoted. */
  lemma StringValueRendering(s: string, forArgs: bool)
    ensures var r := ValueToString(StrVal(s), forArgs);
      var maxLength := if forArgs then 8 else 512;
      var shown := if forArgs && 2 <= |r| then r[1..|r| - 1] else r;
      (forArgs ==> 2 <= |r| && r[0] == '\'' && r[|r| - 1] == '\'') &&
      (|s| <= maxLength ==> shown == s) &&
      (|s| > maxLength ==> |shown| == maxLength + 3 && shown[..maxLength] == s[..maxLength] && shown[maxLength..] == "...")
  {
  }

  /** An integer renders as text that casts back to the same integer. */
  lemma IntValueRendering(i: int, forArgs: bool)
    ensures IsNumeric(ValueToString(IntVal(i), forArgs))
    ensures ToInt(ValueToString(IntVal(i), forArgs)) == i
  {
    IntToStringRoundTrip(i);
  }

  // ---------------------------------------------------------------- tables

  /** One table row: its keys and values in the row's own order. */
  type Row = seq<(string, Value)>
  type Table = seq<Row>

  /** A row's cells as (key, value rendered in table mode). */
  function RowCells(row: Row): seq<(string, string)> {
    seq(|row|, i requires 0 <= i < |row| => (row[i].0, ValueToString(row[i].1, false)))
  }

  /** Every cell of the table, row by row. */
  function Cells(t: Table): seq<(string, string)> {
    if t == [] then [] else Cells(t[..|t| - 1]) + RowCells(t[|t| - 1])
  }

  function CellWidth(cell: (string, string)): nat {
    Max(MaxLineLength(cell.0), MaxLineLength(cell.1))
  }

  /** `$colLengthMap`: the column keys in first-seen order and each column's width. */
  datatype Columns = Columns(keys: seq<string>, width: map<string, nat>)

  predicate ValidColumns(c: Columns) {
    (forall k :: k in c.width ==> k in c.keys) &&
    (forall i :: 0 <= i < |c.keys| ==> c.keys[i] in c.width) &&
    (forall i, j :: 0 <= i < j < |c.keys| ==> c.keys[i] != c.keys[j])
  }

  function WidthIn(c: Columns, key: string): nat {
    if key in c.width then c.width[key] else 0
  }

  /** One step of the width scan: `max($colLengthMap[$key] ?? 0, $w)`. */
  function Widen(c: Columns, key: string, w: nat): Columns {
    if key in c.width then Columns(c.keys, c.width[key := Max(c.width[key], w)])
    else Columns(c.keys + [key], c.width[key := w])
  }

  /** The columns after scanning the given cells in order. */
  function Widths(cells: seq<(string, string)>): Columns
  {
    if cells == [] then Columns([], map[])
    else
      var last := cells[|cells| - 1];
      Widen(Widths(cells[..|cells| - 1]), last.0, CellWidth(last))
  }

  /** Scanning one more cell widens that cell's column only. */
  lemma WidenWidth(c: Columns, k: string, w: nat, key: string)
    ensures key in Widen(c, k, w).width <==> key in c.width || key == k
    ensures WidthIn(Widen(c, k, w), key) == if key == k then Max(WidthIn(c, k), w) else WidthIn(c, key)
  {
  }

  /** A key occurs in some cell. */
  predicate KeyOccurs(cells: seq<(string, string)>, key: string) {
    exists i :: 0 <= i < |cells| && cells[i].0 == key
  }

  /** A key occurs in the cells exactly when it occurs before the last or in the last. */
  lemma KeyOccursStep(cells: seq<(string, string)>, key: string)
    requires cells != []
    ensures KeyOccurs(cells, key) <==> KeyOccurs(cells[..|cells| - 1], key) || cells[|cells| - 1].0 == key
  {
    var init := cells[..|cells| - 1];
    if KeyOccurs(cells, key) {
      var i :| 0 <= i < |cells| && cells[i].0 == key;
      if i < |init| {
        assert init[i] == cells[i];
      }
    }
    if KeyOccurs(init, key) {
      var i :| 0 <= i < |init| && init[i].0 == key;
      assert cells[i] == init[i];
    }
  }

  /** A column exists exactly for the keys that occur in some cell. */
  lemma {:induction false} WidthKeys(cells: seq<(string, string)>, key: string)
    ensures key in Widths(cells).width <==> KeyOccurs(cells, key)
    decreases |cells|
  {
    if cells != [] {
      var init := cells[..|cells| - 1];
      var last := cells[|cells| - 1];
      WidthKeys(init, key);
      WidenWidth(Widths(init), last.0, CellWidth(last), key);
      KeyOccursStep(cells, key);
    }
  }

  /** Every cell fits its column. */
  lemma {:induction false} WidthBound(cells: seq<(string, string)>, i: int)
    requires 0 <= i < |cells|
    ensures CellWidth(cells[i]) <= WidthIn(Widths(cells), cells[i].0)
    decreases |cells|
  {
    var init := cells[..|cells| - 1];
    var last := cells[|cells| - 1];
    WidenWidth(Widths(init), last.0, CellWidth(last), cells[i].0);
    if i < |init| {
      WidthBound(init, i);
      assert init[i] == cells[i];
    }
  }

  /** Every column is exactly as wide as its widest cell. */
  lemma {:induction false} WidthAttained(cells: seq<(string, string)>, key: string)
    requires key in Widths(cells).width
    ensures exists i :: 0 <= i < |cells| && cells[i].0 == key && CellWidth(cells[i]) == WidthIn(Widths(cells), key)
    decreases |cells|
  {
    var init := cells[..|cells| - 1];
    var last := cells[|cells| - 1];
    WidenWidth(Widths(init), last.0, CellWidth(last), key);
    if key in Widths(init).width {
      WidthAttained(init, key);
      var i :| 0 <= i < |init| && init[i].0 == key && CellWidth(init[i]) == WidthIn(Widths(init), key);
      assert cells[i] == init[i];
      if key == last.0 && WidthIn(Widths(init), key) < CellWidth(last) {
        assert cells[|cells| - 1] == last;
      }
    } else {
      assert cells[|cells| - 1] == last;
    }
  }

  lemma WidthsAppend(cells: seq<(string, string)>, cell: (string, string))
    ensures Widths(cells + [cell]) == Widen(Widths(cells), cell.0, CellWidth(cell))
  {
    assert (cells + [cell])[..|cells|] == cells;
  }

  function SumWidths(c: Columns, keys: seq<string>): nat {
    if keys == [] then 0 else SumWidths(c, keys[..|keys| - 1]) + WidthIn(c, keys[|keys| - 1])
  }

  /** `array_sum($colLengthMap) + count($colLengthMap) * 3 + 1`. */
  function TotalWidth(c: Columns): nat {
    SumWidths(c, c.keys) + 3 * |c.keys| + 1
  }

  function Repeat(ch: char, n: nat): (r: string)
    ensures |r| == n && forall i :: 0 <= i < n ==> r[i] == ch
  {
    seq(n, _ => ch)
  }

  lemma RepeatExcludes(ch: char, n: nat, other: char)
    requires other != ch
    ensures other !in Repeat(ch, n)
  {
  }

  /** `sprintf("%-{$n}s", $s)`: padded on the right to `n`, never cut. */
  function Pad(s: string, n: nat): (r: string)
    ensures |r| == Max(|s|, n)
    ensures r[..|s|] == s && forall i :: |s| <= i < |r| ==> r[i] == ' '
  {
    if |s| < n then s + Repeat(' ', n - |s|) else s
  }

  /** `' ' . sprintf(...) . ' |'` for one (key, text) cell. */
  function CellText(c: Columns, cell: (string, string)): string {
    " " + Pad(cell.1, WidthIn(c, cell.0)) + " |"
  }

  /** A table line: `|`, then the cells' texts in order. */
  function CellsText(c: Columns, cells: seq<(string, string)>): string {
    if cells == [] then "|"
    else CellsText(c, cells[..|cells| - 1]) + CellText(c, cells[|cells| - 1])
  }

  lemma CellsTextAppend(c: Columns, cells: seq<(string, string)>, cell: (string, string))
    ensures CellsText(c, cells + [cell]) == CellsText(c, cells) + CellText(c, cell)
  {
    assert (cells + [cell])[..|cells|] == cells;
  }

  lemma RowCellsStep(row: Row, j: nat)
    requires j < |row|
    ensures RowCells(row[..j + 1]) == RowCells(row[..j]) + [(row[j].0, ValueToString(row[j].1, false))]
  {
  }

  lemma HeaderCellsStep(keys: seq<string>, k: nat)
    requires k < |keys|
    ensures HeaderCells(keys[..k + 1]) == HeaderCells(keys[..k]) + [(keys[k], keys[k])]
  {
  }

  function HeaderCells(keys: seq<string>): seq<(string, string)> {
    seq(|keys|, i requires 0 <= i < |keys| => (keys[i], keys[i]))
  }

  function HeaderLine(c: Columns): string {
    CellsText(c, HeaderCells(c.keys))
  }

  function DataLine(c: Columns, row: Row): string {
    CellsText(c, RowCells(row))
  }

  function DataLines(c: Columns, t: Table): seq<string> {
    seq(|t|, i requires 0 <= i < |t| => DataLine(c, t[i]))
  }

  /** The text `tableFormat` returns. */
  function TableText(t: Table): (r: string)
    ensures r == "No more content" <==> t == []
  {
    if t == [] then "No more content"
    else
      var c := Widths(Cells(t));
      var w := TotalWidth(c);
      var text := Repeat('-', w) + "\n" + HeaderLine(c) + "\n" + Repeat('=', w) + "\n"
        + Terminated("\n", DataLines(c, t)) + Repeat('-', w);
      assert text[0] == '-';
      text
  }

  // ---------------------------------------------------------------- table properties

  lemma {:induction false} WidthsValid(cells: seq<(string, string)>)
    ensures ValidColumns(Widths(cells))
    decreases |cells|
  {
    if cells != [] {
      WidthsValid(cells[..|cells| - 1]);
    }
  }

  /** Every cell of every row is among the table's cells. */
  lemma {:induction false} RowCellsInCells(t: Table, i: int, j: int)
    requires 0 <= i < |t| && 0 <= j < |t[i]|
    ensures RowCells(t[i])[j] in Cells(t)
    decreases |t|
  {
    if i < |t| - 1 {
      RowCellsInCells(t[..|t| - 1], i, j);
      assert t[..|t| - 1][i] == t[i];
    }
  }

  /** Every cell of the table comes from some row. */
  lemma {:induction false} CellsFromRows(t: Table, k: int)
    requires 0 <= k < |Cells(t)|
    ensures exists i, j :: 0 <= i < |t| && 0 <= j < |t[i]| && Cells(t)[k] == RowCells(t[i])[j]
    decreases |t|
  {
    var init := t[..|t| - 1];
    if k < |Cells(init)| {
      CellsFromRows(init, k);
      var i, j :| 0 <= i < |init| && 0 <= j < |init[i]| && Cells(init)[k] == RowCells(init[i])[j];
      assert t[i] == init[i];
    } else {
      assert Cells(t)[k] == RowCells(t[|t| - 1])[k - |Cells(init)|];
    }
  }

  /** No key and no rendered value holds a line break. */
  predicate SingleLineCells(t: Table) {
    forall i, j :: 0 <= i < |t| && 0 <= j < |t[i]| ==>
      '\n' !in t[i][j].0 && '\n' !in ValueToString(t[i][j].1, false)
  }

  lemma {:induction false} CellsTextSingleLine(c: Columns, cells: seq<(string, string)>)
    requires forall i :: 0 <= i < |cells| ==> '\n' !in cells[i].1
    ensures '\n' !in CellsText(c, cells)
    decreases |cells|
  {
    if cells != [] {
      CellsTextSingleLine(c, cells[..|cells| - 1]);
      var last := cells[|cells| - 1];
      var padded := Pad(last.1, WidthIn(c, last.0));
      assert padded == last.1 || padded == last.1 + Repeat(' ', WidthIn(c, last.0) - |last.1|);
    }
  }

  /** Every column key of cells whose keys have no line break fits its column. */
  lemma ColumnKeyFits(cells: seq<(string, string)>, k: int)
    requires forall n :: 0 <= n < |cells| ==> '\n' !in cells[n].0
    requires 0 <= k < |Widths(cells).keys|
    ensures '\n' !in Widths(cells).keys[k]
    ensures |Widths(cells).keys[k]| <= WidthIn(Widths(cells), Widths(cells).keys[k])
  {
    var key := Widths(cells).keys[k];
    WidthsValid(cells);
    WidthKeys(cells, key);
    var n :| 0 <= n < |cells| && cells[n].0 == key;
    MaxLineLengthOfSingleLine(key);
    WidthBound(cells, n);
  }

  /** The cells of a table without line breaks have none either. */
  lemma CellSingleLine(t: Table, n: int)
    requires SingleLineCells(t) && 0 <= n < |Cells(t)|
    ensures '\n' !in Cells(t)[n].0 && '\n' !in Cells(t)[n].1
  {
    CellsFromRows(t, n);
    var i, j :| 0 <= i < |t| && 0 <= j < |t[i]| && Cells(t)[n] == RowCells(t[i])[j];
  }

  /** Every column key of a table without line breaks is free of line breaks. */
  lemma ColumnKeysSingleLine(t: Table, k: int)
    requires SingleLineCells(t)
    requires 0 <= k < |Widths(Cells(t)).keys|
    ensures '\n' !in Widths(Cells(t)).keys[k]
    ensures |Widths(Cells(t)).keys[k]| <= WidthIn(Widths(Cells(t)), Widths(Cells(t)).keys[k])
  {
    var cells := Cells(t);
    forall n | 0 <= n < |cells|
      ensures '\n' !in cells[n].0
    {
      CellSingleLine(t, n);
    }
    ColumnKeyFits(cells, k);
  }

  /** The lines of a non-empty table: border, header, `=` line, one per row, border. */
  function TableLineSeq(t: Table): seq<string> {
    var c := Widths(Cells(t));
    var w := TotalWidth(c);
    [Repeat('-', w), HeaderLine(c), Repeat('=', w)] + DataLines(c, t) + [Repeat('-', w)]
  }

  lemma FramedImplode(b: string, h: string, e: string, d: seq<string>)
    ensures Implode("\n", [b, h, e] + d + [b]) == b + "\n" + h + "\n" + e + "\n" + Terminated("\n", d) + b
  {
    var q := [b, h, e] + d + [b];
    ImplodeIsTerminated("\n", q);
    assert q[..|q| - 1] == [b] + ([h] + ([e] + d));
    assert ([b] + ([h] + ([e] + d)))[1..] == [h] + ([e] + d);
    assert ([h] + ([e] + d))[1..] == [e] + d;
    assert ([e] + d)[1..] == d;
    var td := Terminated("\n", d);
    assert Terminated("\n", [e] + d) == e + "\n" + td;
    assert Terminated("\n", [h] + ([e] + d)) == h + "\n" + (e + "\n" + td);
    assert Terminated("\n", q[..|q| - 1]) == b + "\n" + (h + "\n" + (e + "\n" + td));
    assert b + "\n" + (h + "\n" + (e + "\n" + td)) == b + "\n" + h + "\n" + e + "\n" + td;
  }

  lemma TableTextIsImplode(t: Table)
    requires t != []
    ensures TableText(t) == Implode("\n", TableLineSeq(t))
  {
    var c := Widths(Cells(t));
    var w := TotalWidth(c);
    FramedImplode(Repeat('-', w), HeaderLine(c), Repeat('=', w), DataLines(c, t));
  }

  /** The lines of a framed table, by position. */
  lemma FramedLine(b: string, h: string, e: string, d: seq<string>, i: int)
    requires 0 <= i < |d| + 4
    ensures |[b, h, e] + d + [b]| == |d| + 4
    ensures ([b, h, e] + d + [b])[i] ==
      if i == 0 || i == |d| + 3 then b else if i == 1 then h else if i == 2 then e else d[i - 3]
  {
  }

  /** The header of a table without line breaks is one line. */
  lemma HeaderSingleLine(t: Table)
    requires SingleLineCells(t)
    ensures '\n' !in HeaderLine(Widths(Cells(t)))
  {
    var c := Widths(Cells(t));
    forall k | 0 <= k < |c.keys|
      ensures '\n' !in HeaderCells(c.keys)[k].1
    {
      ColumnKeysSingleLine(t, k);
    }
    CellsTextSingleLine(c, HeaderCells(c.keys));
  }

  /** Each row of a table without line breaks renders as one line. */
  lemma DataLineSingleLine(c: Columns, t: Table, i: int)
    requires SingleLineCells(t) && 0 <= i < |t|
    ensures '\n' !in DataLine(c, t[i])
  {
    CellsTextSingleLine(c, RowCells(t[i]));
  }

  /** A framed sequence of lines has no line break when none of its parts has. */
  lemma FramedSingleLines(b: string, h: string, e: string, d: seq<string>)
    requires '\n' !in b && '\n' !in h && '\n' !in e
    requires forall k :: 0 <= k < |d| ==> '\n' !in d[k]
    ensures forall i :: 0 <= i < |[b, h, e] + d + [b]| ==> '\n' !in ([b, h, e] + d + [b])[i]
  {
    forall i | 0 <= i < |[b, h, e] + d + [b]|
      ensures '\n' !in ([b, h, e] + d + [b])[i]
    {
      FramedLine(b, h, e, d, i);
    }
  }

  lemma TableLinesSingleLine(t: Table)
    requires t != [] && SingleLineCells(t)
    ensures forall i :: 0 <= i < |TableLineSeq(t)| ==> '\n' !in TableLineSeq(t)[i]
  {
    var c := Widths(Cells(t));
    var w := TotalWidth(c);
    var d := DataLines(c, t);
    HeaderSingleLine(t);
    RepeatExcludes('-', w, '\n');
    RepeatExcludes('=', w, '\n');
    forall k | 0 <= k < |d|
      ensures '\n' !in d[k]
    {
      DataLineSingleLine(c, t, k);
    }
    FramedSingleLines(Repeat('-', w), HeaderLine(c), Repeat('=', w), d);
  }

  /** Apart from the borders, the text has one line per row and no line break at the end. */
  lemma TableLines(t: Table)
    requires t != [] && SingleLineCells(t)
    ensures Explode("\n", TableText(t)) == TableLineSeq(t)
    ensures |Explode("\n", TableText(t))| == |t| + 4
  {
    TableTextIsImplode(t);
    TableLinesSingleLine(t);
    ExplodeImplodeChar('\n', TableLineSeq(t));
  }

  function KeysOf(cells: seq<(string, string)>): seq<string> {
    seq(|cells|, i requires 0 <= i < |cells| => cells[i].0)
  }

  function RowKeys(row: Row): seq<string> {
    seq(|row|, i requires 0 <= i < |row| => row[i].0)
  }

  lemma {:induction false} CellsTextLength(c: Columns, cells: seq<(string, string)>)
    requires forall i :: 0 <= i < |cells| ==> |cells[i].1| <= WidthIn(c, cells[i].0)
    ensures |CellsText(c, cells)| == SumWidths(c, KeysOf(cells)) + 3 * |cells| + 1
    decreases |cells|
  {
    if cells != [] {
      CellsTextLength(c, cells[..|cells| - 1]);
      assert KeysOf(cells)[..|cells| - 1] == KeysOf(cells[..|cells| - 1]);
    }
  }

  lemma HeaderLineWidth(t: Table)
    requires t != [] && SingleLineCells(t)
    ensures |HeaderLine(Widths(Cells(t)))| == TotalWidth(Widths(Cells(t)))
  {
    var c := Widths(Cells(t));
    forall k | 0 <= k < |c.keys|
      ensures |HeaderCells(c.keys)[k].1| <= WidthIn(c, HeaderCells(c.keys)[k].0)
    {
      ColumnKeysSingleLine(t, k);
    }
    CellsTextLength(c, HeaderCells(c.keys));
    assert KeysOf(HeaderCells(c.keys)) == c.keys;
  }

  lemma DataLineWidth(t: Table, i: int)
    requires 0 <= i < |t| && SingleLineCells(t)
    requires RowKeys(t[i]) == Widths(Cells(t)).keys
    ensures |DataLine(Widths(Cells(t)), t[i])| == TotalWidth(Widths(Cells(t)))
  {
    var c := Widths(Cells(t));
    var cells := RowCells(t[i]);
    forall j | 0 <= j < |cells|
      ensures |cells[j].1| <= WidthIn(c, cells[j].0)
    {
      RowCellsInCells(t, i, j);
      var n :| 0 <= n < |Cells(t)| && Cells(t)[n] == cells[j];
      WidthBound(Cells(t), n);
      MaxLineLengthOfSingleLine(cells[j].1);
    }
    CellsTextLength(c, cells);
    assert KeysOf(cells) == RowKeys(t[i]);
  }

  /** A framed sequence of lines is equally wide when each of its parts is. */
  lemma FramedWidths(b: string, h: string, e: string, d: seq<string>, w: nat)
    requires |b| == w && |h| == w && |e| == w
    requires forall k :: 0 <= k < |d| ==> |d[k]| == w
    ensures forall i :: 0 <= i < |[b, h, e] + d + [b]| ==> |([b, h, e] + d + [b])[i]| == w
  {
    forall i | 0 <= i < |[b, h, e] + d + [b]|
      ensures |([b, h, e] + d + [b])[i]| == w
    {
      FramedLine(b, h, e, d, i);
    }
  }

  /** When every row has the columns in the column order, every line of the table
      (borders, header, `=` line, rows) is equally wide. */
  lemma TableLineWidths(t: Table)
    requires t != [] && SingleLineCells(t)
    requires forall i :: 0 <= i < |t| ==> RowKeys(t[i]) == Widths(Cells(t)).keys
    ensures forall i :: 0 <= i < |TableLineSeq(t)| ==> |TableLineSeq(t)[i]| == TotalWidth(Widths(Cells(t)))
  {
    var c := Widths(Cells(t));
    var w := TotalWidth(c);
    var d := DataLines(c, t);
    HeaderLineWidth(t);
    forall k | 0 <= k < |d|
      ensures |d[k]| == w
    {
      DataLineWidth(t, k);
    }
    FramedWidths(Repeat('-', w), HeaderLine(c), Repeat('=', w), d, w);
  }

  /** Scanning one more cell of a row widens the columns by that cell. */
  lemma ScanStep(prefix: seq<(string, string)>, row: Row, j: nat)
    requires j < |row|
    ensures Widths(prefix + RowCells(row[..j + 1]))
      == Widen(Widths(prefix + RowCells(row[..j])), row[j].0, CellWidth((row[j].0, ValueToString(row[j].1, false))))
  {
    var cell := (row[j].0, ValueToString(row[j].1, false));
    RowCellsStep(row, j);
    assert prefix + RowCells(row[..j + 1]) == (prefix + RowCells(row[..j])) + [cell];
    WidthsAppend(prefix + RowCells(row[..j]), cell);
  }

  /** The cells of one more row follow those of the rows before it. */
  lemma CellsStep(t: Table, i: nat)
    requires i < |t|
    ensures Cells(t[..i + 1]) == Cells(t[..i]) + RowCells(t[i][..|t[i]|])
  {
    assert t[..i + 1][..i] == t[..i];
    assert t[i][..|t[i]|] == t[i];
  }

  /** The first half of `tableFormat`: the width scan over every cell of every row. */
  method ScanColumnWidths(t: Table) returns (cols: Columns)
    ensures cols == Widths(Cells(t))
  {
    cols := Columns([], map[]);
    var i := 0;
    while i < |t|
      invariant 0 <= i <= |t|
      invariant cols == Widths(Cells(t[..i]))
    {
      var row := t[i];
      var j := 0;
      assert Cells(t[..i]) + RowCells(row[..0]) == Cells(t[..i]);
      while j < |row|
        invariant 0 <= j <= |row|
        invariant cols == Widths(Cells(t[..i]) + RowCells(row[..j]))
      {
        var (key, value) := row[j];
        var text := ValueToString(value, false);
        ScanStep(Cells(t[..i]), row, j);
        cols := Widen(cols, key, Max(MaxLineLength(key), MaxLineLength(text)));
        j := j + 1;
      }
      CellsStep(t, i);
      i := i + 1;
    }
    assert t[..|t|] == t;
  }

  /** The header loop of `tableFormat`. */
  method RenderHeader(cols: Columns) returns (line: string)
    ensures line == HeaderLine(cols)
  {
    line := "|";
    var k := 0;
    while k < |cols.keys|
      invariant 0 <= k <= |cols.keys|
      invariant line == CellsText(cols, HeaderCells(cols.keys[..k]))
    {
      var key := cols.keys[k];
      HeaderCellsStep(cols.keys, k);
      CellsTextAppend(cols, HeaderCells(cols.keys[..k]), (key, key));
      line := line + (" " + Pad(key, WidthIn(cols, key)) + " |");
      k := k + 1;
    }
    assert cols.keys[..k] == cols.keys;
  }

  /** The per-row loop of `tableFormat`: cells in the row's own order. */
  method RenderRow(cols: Columns, row: Row) returns (line: string)
    ensures line == DataLine(cols, row)
  {
    line := "|";
    var j := 0;
    while j < |row|
      invariant 0 <= j <= |row|
      invariant line == CellsText(cols, RowCells(row[..j]))
    {
      var (key, value) := row[j];
      var text := ValueToString(value, false);
      RowCellsStep(row, j);
      CellsTextAppend(cols, RowCells(row[..j]), (key, text));
      line := line + (" " + Pad(text, WidthIn(cols, key)) + " |");
      j := j + 1;
    }
    assert row[..|row|] == row;
  }

  lemma DataLinesStep(c: Columns, t: Table, i: nat)
    requires i < |t|
    ensures DataLines(c, t[..i + 1]) == DataLines(c, t[..i]) + [DataLine(c, t[i])]
  {
  }

  /** The row loop of `tableFormat`: each row's line followed by a line break. */
  method RenderRows(cols: Columns, t: Table) returns (body: string)
    ensures body == Terminated("\n", DataLines(cols, t))
  {
    body := "";
    var i := 0;
    while i < |t|
      invariant 0 <= i <= |t|
      invariant body == Terminated("\n", DataLines(cols, t[..i]))
    {
      var line := RenderRow(cols, t[i]);
      DataLinesStep(cols, t, i);
      TerminatedAppend("\n", DataLines(cols, t[..i]), line);
      body := body + line + "\n";
      i := i + 1;
    }
    assert t[..|t|] == t;
  }

  /** `tableFormat`: scans every cell for the column widths, then writes the borders,
      the header and one line per row. */
  method TableFormat(t: Table) returns (r: string)
    ensures r == TableText(t)
  {
    if |t| == 0 {
      return "No more content";
    }
    var cols := ScanColumnWidths(t);
    var width := TotalWidth(cols);
    var border := Repeat('-', width);
    var header := RenderHeader(cols);
    var body := RenderRows(cols, t);
    r := border + "\n" + header + "\n" + Repeat('=', width) + "\n" + body + border;
  }

  // ---------------------------------------------------------------- frames and traces

  function RenderedArgs(args: seq<Value>): seq<string> {
    seq(|args|, i requires 0 <= i < |args| => ValueToString(args[i], true))
  }

  /** `rtrim($argsString, ', ')` over the arguments each followed by `', '`. */
  function ArgsString(args: seq<Value>): string {
    if args == [] then "" else RTrimChars(Terminated(", ", RenderedArgs(args)), {',', ' '})
  }

  /** The `executing` text of a frame: `Class::function(args)`, or `Unknown` when the
      function name is missing or PHP-falsy. */
  function ExecutingString(f: Frame): string {
    var atFunction := f.functionName.GetOr("");
    if PhpEmpty(atFunction) then "Unknown"
    else
      var atClass := f.className.GetOr("");
      var delimiter := if PhpEmpty(atClass) then "" else "::";
      atClass + delimiter + atFunction + "(" + ArgsString(f.args.GetOr([])) + ")"
  }

  /** `convertFrameToExecutingString`, with its argument loop. */
  method ConvertFrameToExecutingString(f: Frame) returns (executing: string)
    ensures executing == ExecutingString(f)
  {
    var atFunction := f.functionName.GetOr("");
    if !PhpEmpty(atFunction) {
      var atClass := f.className.GetOr("");
      var delimiter := if PhpEmpty(atClass) then "" else "::";
      var args := f.args.GetOr([]);
      var argsString := "";
      if args != [] {
        var i := 0;
        while i < |args|
          invariant 0 <= i <= |args|
          invariant argsString == Terminated(", ", RenderedArgs(args[..i]))
        {
          assert RenderedArgs(args[..i + 1]) == RenderedArgs(args[..i]) + [ValueToString(args[i], true)];
          TerminatedAppend(", ", RenderedArgs(args[..i]), ValueToString(args[i], true));
          argsString := argsString + ValueToString(args[i], true) + ", ";
          i := i + 1;
        }
        assert args[..|args|] == args;
        argsString := RTrimChars(argsString, {',', ' '});
      }
      executing := atClass + delimiter + atFunction + "(" + argsString + ")";
    } else {
      executing := "Unknown";
    }
  }

  /** A frame renders as `Unknown` exactly when its function name is missing, `''` or `'0'`. */
  lemma ExecutingStringUnknown(f: Frame)
    ensures ExecutingString(f) == "Unknown" <==> PhpEmpty(f.functionName.GetOr(""))
  {
    var r := ExecutingString(f);
    if !PhpEmpty(f.functionName.GetOr("")) {
      assert r[|r| - 1] == ')';
    }
  }

  /** A rendered argument whose last byte `rtrim($s, ', ')` would not strip. */
  predicate EndsCleanly(s: string) {
    |s| > 0 && s[|s| - 1] != ',' && s[|s| - 1] != ' '
  }

  /** Every argument kind but a float (whose text is the runtime's) ends cleanly. */
  lemma RenderedArgEndsCleanly(v: Value)
    requires !v.FloatVal?
    ensures EndsCleanly(ValueToString(v, true))
  {
    var r := ValueToString(v, true);
    if v.IntVal? {
      var n: nat := if v.i < 0 then -v.i else v.i;
      var digits := NatToString(n);
      assert r[|r| - 1] == digits[|digits| - 1];
      assert IsDigit(digits[|digits| - 1]);
    }
  }

  /** With a non-empty function name, a frame renders as `Class::function(a, b)`, the
      `::` only for a non-empty class, when the last argument ends cleanly. */
  lemma ExecutingStringShape(f: Frame)
    requires !PhpEmpty(f.functionName.GetOr(""))
    requires var args := f.args.GetOr([]); args != [] ==> EndsCleanly(ValueToString(args[|args| - 1], true))
    ensures var atClass := f.className.GetOr("");
      ExecutingString(f) == atClass + (if PhpEmpty(atClass) then "" else "::") + f.functionName.GetOr("")
        + "(" + Implode(", ", RenderedArgs(f.args.GetOr([]))) + ")"
  {
    var args := f.args.GetOr([]);
    if args != [] {
      var rendered := RenderedArgs(args);
      ImplodeIsTerminated(", ", rendered);
      var init := rendered[..|rendered| - 1];
      var last := rendered[|rendered| - 1];
      TerminatedAppend(", ", init, last);
      assert init + [last] == rendered;
      var joined := Implode(", ", rendered);
      assert joined == Terminated(", ", init) + last;
      assert joined[|joined| - 1] == last[|last| - 1];
      assert Terminated(", ", rendered) == joined + ", ";
      RTrimCharsDropsTail(joined, ", ", {',', ' '});
    }
  }

  /** `"{$line}"`, or `default` when the frame has no line. */
  function LineString(line: Option<LineNo>, default: string): string {
    match line
    case None => default
    case Some(LineInt(n)) => IntToString(n)
    case Some(LineText(text)) => text
  }

  /** The `source_position` of a trace-table row: `file(line)`, `?` for a missing line,
      `<internal space>` for a frame without a file. */
  function SourcePosition(f: Frame): string {
    match f.file
    case None => "<internal space>"
    case Some(file) => file + "(" + LineString(f.line, "?") + ")"
  }

  function TraceRow(index: int, f: Frame): Row {
    [("frame", IntVal(index)), ("executing", StrVal(ExecutingString(f))), ("source_position", StrVal(SourcePosition(f)))]
  }

  /** The rows `convertTraceToTable` collects: every frame numbered by its position, or
      with an index only the frame at that position. */
  function TraceRows(trace: seq<Frame>, frameIndex: Option<int>): Table {
    match frameIndex
    case None => seq(|trace|, i requires 0 <= i < |trace| => TraceRow(i, trace[i]))
    case Some(index) => if 0 <= index < |trace| then [TraceRow(index, trace[index])] else []
  }

  /** The rows of a longer prefix of the trace extend those of the shorter one by the
      next frame's row. */
  lemma TraceRowsGrow(trace: seq<Frame>, index: int)
    requires 0 <= index < |trace|
    ensures TraceRows(trace[..index + 1], None) == TraceRows(trace[..index], None) + [TraceRow(index, trace[index])]
  {
    var longer := TraceRows(trace[..index + 1], None);
    var shorter := TraceRows(trace[..index], None);
    assert forall i :: 0 <= i < index ==> longer[i] == shorter[i];
  }

  /** `convertTraceToTable`: fails with 'No trace info' exactly when no row was collected. */
  method ConvertTraceToTable(trace: seq<Frame>, frameIndex: Option<int>) returns (r: Result<Table>)
    ensures TraceRows(trace, frameIndex) == [] ==> r == Fail(DebuggerException("No trace info"))
    ensures TraceRows(trace, frameIndex) != [] ==> r == Ok(TraceRows(trace, frameIndex))
  {
    var traceTable: Table := [];
    var index := 0;
    while index < |trace|
      invariant 0 <= index <= |trace|
      invariant frameIndex.None? ==> traceTable == TraceRows(trace[..index], None)
      invariant frameIndex.Some? ==> traceTable == [] && !(0 <= frameIndex.value < index)
    {
      if frameIndex.Some? && index != frameIndex.value {
        index := index + 1;
        continue;
      }
      var frame := trace[index];
      var executing := ConvertFrameToExecutingString(frame);
      var sourcePosition := if frame.file.None? then "<internal space>"
        else frame.file.value + "(" + LineString(frame.line, "?") + ")";
      var row := [("frame", IntVal(index)), ("executing", StrVal(executing)), ("source_position", StrVal(sourcePosition))];
      assert row == TraceRow(index, frame);
      if frameIndex.None? {
        TraceRowsGrow(trace, index);
      }
      traceTable := traceTable + [row];
      if frameIndex.Some? {
        break;
      }
      index := index + 1;
    }
    if frameIndex.None? {
      assert trace[..|trace|] == trace;
      assert traceTable == TraceRows(trace, frameIndex);
    } else {
      assert traceTable == TraceRows(trace, frameIndex);
    }
    if traceTable == [] {
      return Fail(DebuggerException("No trace info"));
    }
    return Ok(traceTable);
  }

  // ---------------------------------------------------------------- source windows

  /** One row of a source window: its 1-based line number, whether it carries the
      `N->` marker, and the right-trimmed line. */
  datatype SourceLine = SourceLine(number: int, marked: bool, contents: string)

  /** The table row of a source line: `'line' => "N->"` or `N`, then the contents. */
  function SourceLineRow(l: SourceLine): Row {
    [("line", if l.marked then StrVal(IntToString(l.number) + "->") else IntVal(l.number)), ("contents", StrVal(l.contents))]
  }

  function SourceTable(ls: seq<SourceLine>): Table {
    seq(|ls|, i requires 0 <= i < |ls| => SourceLineRow(ls[i]))
  }

  /** An open source file read line by line: `lines` are what successive `fgets`
      calls return before `eof()` holds. */
  class SourceFile {
    const name: string
    const lines: seq<string>
    var pos: nat

    constructor (name: string, lines: seq<string>)
      ensures this.name == name && this.lines == lines && pos == 0
    {
      this.name := name;
      this.lines := lines;
      pos := 0;
    }

    predicate Eof()
      reads this
    {
      pos >= |lines|
    }

    /** `fgets`: the next line, `''` at the end of the file. */
    method Fgets() returns (line: string)
      modifies this
      ensures old(pos) < |lines| ==> line == lines[old(pos)] && pos == old(pos) + 1
      ensures old(pos) >= |lines| ==> line == "" && pos == old(pos)
    {
      if pos < |lines| {
        line := lines[pos];
        pos := pos + 1;
      } else {
        line := "";
      }
    }
  }

  /** The rows a numbered read loop collects: line `number` from index `from`, and on
      while the number is below `end` and the file has lines left; `mark` is the
      number that gets the `->` marker. */
  function NumberedRows(lines: seq<string>, from: nat, number: int, end: int, mark: Option<int>): seq<SourceLine>
    decreases |lines| - from
  {
    if from >= |lines| || number >= end then []
    else [SourceLine(number, mark == Some(number), RTrim(lines[from]))] + NumberedRows(lines, from + 1, number + 1, end, mark)
  }

  function Min(a: int, b: int): int {
    if a < b then a else b
  }

  /** A numbered read is consecutive, bounded by both the file and `end`, shows each
      line right-trimmed and marks exactly the `mark` line. */
  lemma {:induction false} NumberedRowsShape(lines: seq<string>, from: nat, number: int, end: int, mark: Option<int>)
    ensures var r := NumberedRows(lines, from, number, end, mark);
      |r| == Min(Max(0, |lines| - from), Max(0, end - number)) &&
      forall k :: 0 <= k < |r| ==>
        r[k] == SourceLine(number + k, mark == Some(number + k), RTrim(lines[from + k]))
    decreases |lines| - from
  {
    if !(from >= |lines| || number >= end) {
      NumberedRowsShape(lines, from + 1, number + 1, end, mark);
      var r := NumberedRows(lines, from, number, end, mark);
      var rest := NumberedRows(lines, from + 1, number + 1, end, mark);
      forall k | 1 <= k < |r|
        ensures r[k] == SourceLine(number + k, mark == Some(number + k), RTrim(lines[from + k]))
      {
        assert r[k] == rest[k - 1];
      }
    }
  }

  /** The counter-driven loop `for (...; $i < $end; $i++) { if eof break; ... fgets }`. */
  method ReadNumberedRows(file: SourceFile, first: int, end: int, mark: Option<int>) returns (rows: seq<SourceLine>)
    modifies file
    ensures rows == NumberedRows(file.lines, old(file.pos), first, end, mark)
    ensures file.pos == old(file.pos) + |rows|
  {
    rows := [];
    var i := first;
    ghost var start := file.pos;
    while i < end
      invariant start <= file.pos
      invariant i == first + (file.pos - start) && |rows| == file.pos - start
      invariant rows + NumberedRows(file.lines, file.pos, i, end, mark) == NumberedRows(file.lines, start, first, end, mark)
      decreases end - i
    {
      if file.Eof() {
        break;
      }
      ghost var at := file.pos;
      var lineContent := file.Fgets();
      rows := rows + [SourceLine(i, mark == Some(i), RTrim(lineContent))];
      assert NumberedRows(file.lines, at, i, end, mark)
        == [SourceLine(i, mark == Some(i), RTrim(lineContent))] + NumberedRows(file.lines, file.pos, i + 1, end, mark);
      i := i + 1;
    }
  }

  /** The first line of the source window around `line`. */
  function StartLine(line: int, lineCount: int): int {
    if line < 2 then line else line - (lineCount - SourceFileContentPadding - 1)
  }

  /** Lines consumed by the skip loop as written: it stops after line `startLine - 1`
      only when that is a line of the file, and otherwise reads the whole file. */
  function SkippedAsWritten(count: nat, startLine: int): nat {
    if 1 <= startLine - 1 <= count then startLine - 1 else count
  }

  /** Lines the skip loop is meant to consume: those before `startLine`. */
  function Skipped(count: nat, startLine: int): nat {
    if startLine - 1 <= 0 then 0 else Min(startLine - 1, count)
  }

  /** The window `getSourceFileContentAsTable` returns as written. */
  function SourceWindowAsWritten(lines: seq<string>, line: int, lineCount: int): Result<seq<SourceLine>> {
    if lines == [] then Fail(DebuggerException("File Line not found"))
    else
      var startLine := StartLine(line, lineCount);
      var skip := SkippedAsWritten(|lines|, startLine);
      Ok(NumberedRows(lines, skip, skip + 1, startLine + lineCount, Some(line)))
  }

  /** The window around `line` the function is meant to return. */
  function SourceWindow(lines: seq<string>, line: int, lineCount: int): Result<seq<SourceLine>> {
    if lines == [] then Fail(DebuggerException("File Line not found"))
    else
      var startLine := StartLine(line, lineCount);
      var skip := Skipped(|lines|, startLine);
      Ok(NumberedRows(lines, skip, skip + 1, startLine + lineCount, Some(line)))
  }

  /** `getSourceFileContentAsTable` as written: the skip loop compares the line counter
      with `startLine - 1` only after incrementing it, so a window starting at line 1
      or earlier never stops skipping. */
  method GetSourceFileContentAsTableAsWritten(files: map<string, seq<string>>, filename: string, line: int, lineCount: int)
    returns (r: Result<seq<SourceLine>>, sourceFile: Option<SourceFile>)
    ensures filename !in files ==> r == Fail(RuntimeException("Failed to open stream")) && sourceFile == None
    ensures filename in files ==>
      r == SourceWindowAsWritten(files[filename], line, lineCount) &&
      sourceFile.Some? && fresh(sourceFile.value) &&
      sourceFile.value.lines == files[filename] &&
      sourceFile.value.pos == if r.Ok? then SkippedAsWritten(|files[filename]|, StartLine(line, lineCount)) + |r.value| else 0
  {
    if filename !in files {
      return Fail(RuntimeException("Failed to open stream")), None;
    }
    var startLine := if line < 2 then line else line - (lineCount - SourceFileContentPadding - 1);
    var file := new SourceFile(filename, files[filename]);
    sourceFile := Some(file);
    var i := 0;
    var lineRead := false;
    while !file.Eof()
      invariant file.pos == i <= |file.lines|
      invariant lineRead <==> i > 0
      invariant !(1 <= startLine - 1 <= i)
      decreases |file.lines| - i
    {
      var _ := file.Fgets();
      i := i + 1;
      lineRead := true;
      if i == startLine - 1 {
        break;
      }
    }
    if !lineRead {
      return Fail(DebuggerException("File Line not found")), sourceFile;
    }
    var contents := ReadNumberedRows(file, i + 1, startLine + lineCount, Some(line));
    r := Ok(contents);
  }

  /** `getSourceFileContentAsTable` with the skip loop stopping after the lines before
      the window; the rest of the model uses this one. */
  method GetSourceFileContentAsTable(files: map<string, seq<string>>, filename: string, line: int, lineCount: int)
    returns (r: Result<seq<SourceLine>>, sourceFile: Option<SourceFile>)
    ensures filename !in files ==> r == Fail(RuntimeException("Failed to open stream")) && sourceFile == None
    ensures filename in files ==>
      r == SourceWindow(files[filename], line, lineCount) &&
      sourceFile.Some? && fresh(sourceFile.value) &&
      sourceFile.value.lines == files[filename] &&
      sourceFile.value.pos == if r.Ok? then Skipped(|files[filename]|, StartLine(line, lineCount)) + |r.value| else 0
  {
    if filename !in files {
      return Fail(RuntimeException("Failed to open stream")), None;
    }
    var startLine := if line < 2 then line else line - (lineCount - SourceFileContentPadding - 1);
    var file := new SourceFile(filename, files[filename]);
    sourceFile := Some(file);
    var i := 0;
    while i < startLine - 1 && !file.Eof()
      invariant file.pos == i
      invariant i <= Skipped(|file.lines|, startLine)
      decreases |file.lines| - i
    {
      var _ := file.Fgets();
      i := i + 1;
    }
    if file.lines == [] {
      return Fail(DebuggerException("File Line not found")), sourceFile;
    }
    var contents := ReadNumberedRows(file, i + 1, startLine + lineCount, Some(line));
    r := Ok(contents);
  }

  /** `getFollowingSourceFileContent`: continues reading where the file stands, numbering
      from `startLine + offset + 1`, without a marker. */
  method GetFollowingSourceFileContent(file: SourceFile, startLine: int, lineCount: int, offset: int)
    returns (contents: seq<SourceLine>)
    modifies file
    ensures contents == NumberedRows(file.lines, old(file.pos), startLine + offset + 1, startLine + offset + lineCount, None)
    ensures file.pos == old(file.pos) + |contents|
  {
    contents := ReadNumberedRows(file, startLine + offset + 1, startLine + offset + lineCount, None);
  }

  /** The following window holds at most `lineCount - 1` consecutive unmarked lines,
      starting after the offset, taken from where the file stands. */
  lemma FollowingContentShape(lines: seq<string>, pos: nat, startLine: int, lineCount: int, offset: int)
    ensures var r := NumberedRows(lines, pos, startLine + offset + 1, startLine + offset + lineCount, None);
      |r| <= Max(0, lineCount - 1) && |r| <= Max(0, |lines| - pos) &&
      forall k :: 0 <= k < |r| ==> r[k] == SourceLine(startLine + offset + 1 + k, false, RTrim(lines[pos + k]))
  {
    NumberedRowsShape(lines, pos, startLine + offset + 1, startLine + offset + lineCount, None);
  }

  /** The window is the numbered read starting after the skipped lines. */
  lemma SourceWindowRead(lines: seq<string>, line: int, lineCount: int)
    requires SourceWindow(lines, line, lineCount).Ok?
    ensures var skip := Skipped(|lines|, StartLine(line, lineCount));
      var r := SourceWindow(lines, line, lineCount).value;
      |r| <= Max(0, lineCount) && |r| <= |lines| - skip &&
      forall k :: 0 <= k < |r| ==> r[k] == SourceLine(skip + 1 + k, line == skip + 1 + k, RTrim(lines[skip + k]))
  {
    var startLine := StartLine(line, lineCount);
    var skip := Skipped(|lines|, startLine);
    NumberedRowsShape(lines, skip, skip + 1, startLine + lineCount, Some(line));
  }

  /** Every row of the window is the file's line of that number, right-trimmed; the
      numbers are consecutive, at most `lineCount` of them, and only `line` is marked. */
  lemma SourceWindowRows(lines: seq<string>, line: int, lineCount: int)
    requires SourceWindow(lines, line, lineCount).Ok?
    ensures var r := SourceWindow(lines, line, lineCount).value;
      |r| <= Max(0, lineCount) &&
      forall k :: 0 <= k < |r| ==>
        1 <= r[k].number <= |lines| && (k > 0 ==> r[k].number == r[k - 1].number + 1) &&
        r[k].contents == RTrim(lines[r[k].number - 1]) && (r[k].marked <==> r[k].number == line)
  {
    SourceWindowRead(lines, line, lineCount);
  }

  /** For a line of the file and a window of at least five lines, the window shows the
      requested line, marked. */
  lemma SourceWindowShowsLine(lines: seq<string>, line: int, lineCount: int)
    requires 1 <= line <= |lines| && lineCount >= 5
    ensures SourceWindow(lines, line, lineCount).Ok?
    ensures exists k :: (0 <= k < |SourceWindow(lines, line, lineCount).value| &&
      SourceWindow(lines, line, lineCount).value[k] == SourceLine(line, true, RTrim(lines[line - 1])))
  {
    var startLine := StartLine(line, lineCount);
    var skip := Skipped(|lines|, startLine);
    NumberedRowsShape(lines, skip, skip + 1, startLine + lineCount, Some(line));
    var r := SourceWindow(lines, line, lineCount).value;
    var k := line - skip - 1;
    assert 0 <= k < |r|;
    assert r[k] == SourceLine(line, true, RTrim(lines[line - 1]));
  }

  /** As written, a window around any of the first four lines (default line count) of
      a non-empty file is empty. */
  lemma SourceWindowAsWrittenEmptyNearTop(lines: seq<string>, line: int)
    requires lines != [] && line <= 4
    ensures SourceWindowAsWritten(lines, line, SourceFileDefaultLineCount) == Ok([])
  {
    var startLine := StartLine(line, SourceFileDefaultLineCount);
    assert startLine - 1 <= 0;
    NumberedRowsShape(lines, |lines|, |lines| + 1, startLine + SourceFileDefaultLineCount, Some(line));
  }

  /** The discrepancy on a ten-line file and line 1: nothing as written, eight rows
      starting with the marked line 1 as intended. */
  lemma SourceWindowNearTopExample()
    ensures var lines := seq(10, i => "x");
      SourceWindowAsWritten(lines, 1, SourceFileDefaultLineCount) == Ok([]) &&
      |SourceWindow(lines, 1, SourceFileDefaultLineCount).value| == 8 &&
      SourceWindow(lines, 1, SourceFileDefaultLineCount).value[0] == SourceLine(1, true, RTrim("x"))
  {
    var lines := seq(10, i => "x");
    SourceWindowAsWrittenEmptyNearTop(lines, 1);
    NumberedRowsShape(lines, 0, 1, 1 + SourceFileDefaultLineCount, Some(1));
  }
}
