/** Soft wrapping at a terminal width: how many rows a text takes, where the cursor
    lands, and when the two computations agree. Rows are `u16` and saturate. */
module WrapCursor {
  import opened Wrappers
  import opened Utf8

  const U16_MAX: nat := 65535

  /** `u16` saturation of an exact value. */
  function Sat(n: nat): nat {
    if n > U16_MAX then U16_MAX else n
  }

  /** Display width of a character in cells; control characters count 0. */
  type CellWidth = char -> nat

  ghost predicate Terminal(cells: CellWidth) {
    cells(' ') == 1 && cells('>') == 1 && forall c: char :: cells(c) <= 2
  }

  // ---- the exact walk ----------------------------------------------------------------------

  datatype Pos = Pos(row: nat, col: nat)

  /** One character: a hard break goes to column `indent` of the next row, a soft one
      to column 0. */
  function Step(p: Pos, c: char, indent: nat, width: nat, cells: CellWidth): Pos {
    if c == '\n' then Pos(p.row + 1, indent)
    else if width > 0 && p.col + cells(c) > width then Pos(p.row + 1, cells(c))
    else Pos(p.row, p.col + cells(c))
  }

  function Walk(s: string, p: Pos, indent: nat, width: nat, cells: CellWidth): Pos
    decreases |s|
  {
    if s == "" then p else Step(Walk(s[..|s| - 1], p, indent, width, cells), s[|s| - 1], indent, width, cells)
  }

  lemma {:induction false} WalkAppends(a: string, b: string, p: Pos, indent: nat, width: nat, cells: CellWidth)
    ensures Walk(a + b, p, indent, width, cells) == Walk(b, Walk(a, p, indent, width, cells), indent, width, cells)
    decreases |b|
  {
    if b == "" {
      assert a + b == a;
    } else {
      assert (a + b)[..|a + b| - 1] == a + b[..|b| - 1];
      WalkAppends(a, b[..|b| - 1], p, indent, width, cells);
    }
  }

  lemma {:induction false} WalkShifts(s: string, row: nat, col: nat, indent: nat, width: nat, cells: CellWidth)
    ensures var q := Walk(s, Pos(0, col), indent, width, cells);
      Walk(s, Pos(row, col), indent, width, cells) == Pos(row + q.row, q.col)
    decreases |s|
  {
    if s != "" {
      WalkShifts(s[..|s| - 1], row, col, indent, width, cells);
    }
  }

  /** Without hard breaks the indent plays no part. */
  lemma {:induction false} IndentFree(s: string, p: Pos, one: nat, other: nat, width: nat, cells: CellWidth)
    requires '\n' !in s
    ensures Walk(s, p, one, width, cells) == Walk(s, p, other, width, cells)
    decreases |s|
  {
    if s != "" {
      IndentFree(s[..|s| - 1], p, one, other, width, cells);
    }
  }

  // ---- what the walk computes --------------------------------------------------------------

  /** One row on screen; `opens` when it begins a source line, and not where the one
      before ran out of room. */
  datatype Row = Row(text: string, opens: bool)

  function Cells(text: string, cells: CellWidth): nat {
    if text == "" then 0 else Cells(text[..|text| - 1], cells) + cells(text[|text| - 1])
  }

  /** The cells a row takes: those of its text, and the indent where a source line begins. */
  function Filled(row: Row, indent: nat, cells: CellWidth): nat {
    (if row.opens then indent else 0) + Cells(row.text, cells)
  }

  /** The rows' texts in order, hard breaks put back. */
  function Unwrapped(rows: seq<Row>): string {
    if rows == [] then ""
    else
      var last := rows[|rows| - 1];
      Unwrapped(rows[..|rows| - 1]) + (if last.opens && |rows| > 1 then "\n" else "") + last.text
  }

  /** A row fits the width, unless the indent alone or one character alone is wider. */
  predicate RowFits(row: Row, indent: nat, width: nat, cells: CellWidth) {
    && '\n' !in row.text
    && (row.opens || row.text != "")
    && (width == 0 || Filled(row, indent, cells) <= width || |row.text| == if row.opens then 0 else 1)
  }

  /** A row that does not begin a source line is there because its first character
      found no room in the row before. */
  predicate Breaks(before: Row, row: Row, indent: nat, width: nat, cells: CellWidth) {
    row.opens || (width > 0 && row.text != "" && Filled(before, indent, cells) + cells(row.text[0]) > width)
  }

  /** `rows` is `s` cut into rows. */
  ghost predicate IsLayout(rows: seq<Row>, s: string, indent: nat, width: nat, cells: CellWidth) {
    && rows != [] && rows[0].opens
    && Unwrapped(rows) == s
    && (forall i :: 0 <= i < |rows| ==> RowFits(rows[i], indent, width, cells))
    && (forall i :: 0 < i < |rows| ==> Breaks(rows[i - 1], rows[i], indent, width, cells))
  }

  /** The position behind the last row. */
  function EndOf(rows: seq<Row>, indent: nat, cells: CellWidth): Pos
    requires rows != []
  {
    Pos(|rows| - 1, Filled(rows[|rows| - 1], indent, cells))
  }

  /** One more character behind a layout. */
  function Laid(rows: seq<Row>, c: char, indent: nat, width: nat, cells: CellWidth): seq<Row>
    requires rows != []
  {
    var last := rows[|rows| - 1];
    if c == '\n' then rows + [Row("", true)]
    else if width > 0 && Filled(last, indent, cells) + cells(c) > width then rows + [Row([c], false)]
    else rows[..|rows| - 1] + [last.(text := last.text + [c])]
  }

  lemma OneMoreCell(text: string, c: char, cells: CellWidth)
    ensures Cells(text + [c], cells) == Cells(text, cells) + cells(c)
  {
    assert (text + [c])[..|text|] == text;
  }

  lemma UnwrappedAppends(rows: seq<Row>, row: Row)
    ensures Unwrapped(rows + [row]) == Unwrapped(rows) + (if row.opens && rows != [] then "\n" else "") + row.text
  {
    assert (rows + [row])[..|rows|] == rows;
  }

  lemma LaidUnwraps(rows: seq<Row>, c: char, indent: nat, width: nat, cells: CellWidth)
    requires rows != []
    ensures Unwrapped(Laid(rows, c, indent, width, cells)) == Unwrapped(rows) + [c]
  {
    var n, last := |rows| - 1, rows[|rows| - 1];
    UnwrappedAppends(rows, Row("", true));
    UnwrappedAppends(rows, Row([c], false));
    UnwrappedAppends(rows[..n], last.(text := last.text + [c]));
  }

  lemma LaidSteps(rows: seq<Row>, c: char, indent: nat, width: nat, cells: CellWidth)
    requires rows != []
    ensures EndOf(Laid(rows, c, indent, width, cells), indent, cells)
         == Step(EndOf(rows, indent, cells), c, indent, width, cells)
  {
    OneMoreCell(rows[|rows| - 1].text, c, cells);
    OneMoreCell("", c, cells);
    assert "" + [c] == [c];
  }

  /** The last row of a layout may be swapped for one that stands there as well. */
  lemma LastSwaps(rows: seq<Row>, s: string, row: Row, t: string, indent: nat, width: nat, cells: CellWidth)
    requires IsLayout(rows, s, indent, width, cells) && RowFits(row, indent, width, cells)
    requires row.opens == rows[|rows| - 1].opens
    requires row.opens || (row.text != "" && rows[|rows| - 1].text != "" && row.text[0] == rows[|rows| - 1].text[0])
    requires t == Unwrapped(rows[..|rows| - 1]) + (if row.opens && |rows| > 1 then "\n" else "") + row.text
    ensures IsLayout(rows[..|rows| - 1] + [row], t, indent, width, cells)
  {
    UnwrappedAppends(rows[..|rows| - 1], row);
  }

  lemma LayoutGrows(rows: seq<Row>, s: string, row: Row, t: string, indent: nat, width: nat, cells: CellWidth)
    requires IsLayout(rows, s, indent, width, cells) && RowFits(row, indent, width, cells)
    requires Breaks(rows[|rows| - 1], row, indent, width, cells)
    requires t == s + (if row.opens then "\n" else "") + row.text
    ensures IsLayout(rows + [row], t, indent, width, cells)
  {
    UnwrappedAppends(rows, row);
  }

  lemma LastGrows(rows: seq<Row>, s: string, c: char, indent: nat, width: nat, cells: CellWidth)
    requires IsLayout(rows, s, indent, width, cells) && c != '\n'
    requires width == 0 || Filled(rows[|rows| - 1], indent, cells) + cells(c) <= width
    ensures var last := rows[|rows| - 1];
      IsLayout(rows[..|rows| - 1] + [last.(text := last.text + [c])], s + [c], indent, width, cells)
  {
    var last := rows[|rows| - 1];
    var row := last.(text := last.text + [c]);
    OneMoreCell(last.text, c, cells);
    assert RowFits(row, indent, width, cells);
    assert s + [c] == Unwrapped(rows[..|rows| - 1]) + (if row.opens && |rows| > 1 then "\n" else "") + row.text;
    LastSwaps(rows, s, row, s + [c], indent, width, cells);
  }

  lemma LaidIsLayout(rows: seq<Row>, s: string, c: char, indent: nat, width: nat, cells: CellWidth)
    requires IsLayout(rows, s, indent, width, cells)
    ensures IsLayout(Laid(rows, c, indent, width, cells), s + [c], indent, width, cells)
  {
    var last := rows[|rows| - 1];
    OneMoreCell(last.text, c, cells);
    LaidUnwraps(rows, c, indent, width, cells);
    if c == '\n' {
      LayoutGrows(rows, s, Row("", true), s + [c], indent, width, cells);
    } else if width > 0 && Filled(last, indent, cells) + cells(c) > width {
      LayoutGrows(rows, s, Row([c], false), s + [c], indent, width, cells);
    } else {
      LastGrows(rows, s, c, indent, width, cells);
    }
  }

  lemma ShortenedRow(rows: seq<Row>, s: string, indent: nat, width: nat, cells: CellWidth) returns (less: seq<Row>)
    requires IsLayout(rows, s, indent, width, cells)
    requires rows[|rows| - 1].text != "" && (rows[|rows| - 1].opens || |rows[|rows| - 1].text| > 1)
    ensures s != "" && IsLayout(less, s[..|s| - 1], indent, width, cells)
    ensures rows == Laid(less, s[|s| - 1], indent, width, cells)
  {
    var n, last := |rows| - 1, rows[|rows| - 1];
    var text, c := last.text[..|last.text| - 1], last.text[|last.text| - 1];
    var row := last.(text := text);
    less := rows[..n] + [row];
    assert last.text == text + [c];
    OneMoreCell(text, c, cells);
    assert Filled(last, indent, cells) == Filled(row, indent, cells) + cells(c);
    LastSwaps(rows, s, row, s[..|s| - 1], indent, width, cells);
  }

  lemma ShortenedRows(rows: seq<Row>, s: string, indent: nat, width: nat, cells: CellWidth) returns (less: seq<Row>)
    requires IsLayout(rows, s, indent, width, cells) && s != ""
    requires var last := rows[|rows| - 1]; if last.opens then last.text == "" else |last.text| == 1
    ensures IsLayout(less, s[..|s| - 1], indent, width, cells)
    ensures rows == Laid(less, s[|s| - 1], indent, width, cells)
  {
    less := rows[..|rows| - 1];
    var last := rows[|rows| - 1];
    assert rows == less + [last];
    assert !last.opens ==> last.text == [last.text[0]];
  }

  /** Without its last character a layout is one of the shorter text. */
  lemma Shortened(rows: seq<Row>, s: string, indent: nat, width: nat, cells: CellWidth) returns (less: seq<Row>)
    requires IsLayout(rows, s, indent, width, cells) && s != ""
    ensures IsLayout(less, s[..|s| - 1], indent, width, cells)
    ensures rows == Laid(less, s[|s| - 1], indent, width, cells)
  {
    var last := rows[|rows| - 1];
    if last.text == "" || (!last.opens && |last.text| == 1) {
      less := ShortenedRows(rows, s, indent, width, cells);
    } else {
      less := ShortenedRow(rows, s, indent, width, cells);
    }
  }

  /** Every text has one layout, and the walk ends where that layout ends: as many rows
      down, and as far right as its last row is filled. */
  lemma {:induction false} WalkEndsLayout(rows: seq<Row>, s: string, indent: nat, width: nat, cells: CellWidth)
    requires IsLayout(rows, s, indent, width, cells)
    ensures Walk(s, Pos(0, indent), indent, width, cells) == EndOf(rows, indent, cells)
    decreases |s|
  {
    if s != "" {
      var less := Shortened(rows, s, indent, width, cells);
      WalkEndsLayout(less, s[..|s| - 1], indent, width, cells);
      LaidSteps(less, s[|s| - 1], indent, width, cells);
    } else {
      OnlyOneRow(rows, indent, width, cells);
    }
  }

  lemma OnlyOneRow(rows: seq<Row>, indent: nat, width: nat, cells: CellWidth)
    requires IsLayout(rows, "", indent, width, cells)
    ensures rows == [Row("", true)]
  {
  }

  lemma {:induction false} LayoutIsUnique(a: seq<Row>, b: seq<Row>, s: string,
                                          indent: nat, width: nat, cells: CellWidth)
    requires IsLayout(a, s, indent, width, cells) && IsLayout(b, s, indent, width, cells)
    ensures a == b
    decreases |s|
  {
    if s == "" {
      OnlyOneRow(a, indent, width, cells);
      OnlyOneRow(b, indent, width, cells);
    } else {
      var lessA := Shortened(a, s, indent, width, cells);
      var lessB := Shortened(b, s, indent, width, cells);
      LayoutIsUnique(lessA, lessB, s[..|s| - 1], indent, width, cells);
    }
  }

  lemma {:induction false} LayoutExists(s: string, indent: nat, width: nat, cells: CellWidth) returns (rows: seq<Row>)
    ensures IsLayout(rows, s, indent, width, cells)
    decreases |s|
  {
    if s == "" {
      rows := [Row("", true)];
    } else {
      var less := LayoutExists(s[..|s| - 1], indent, width, cells);
      rows := Laid(less, s[|s| - 1], indent, width, cells);
      LaidIsLayout(less, s[..|s| - 1], s[|s| - 1], indent, width, cells);
      assert s == s[..|s| - 1] + [s[|s| - 1]];
    }
  }

  /** So a text has exactly one layout, and the walk finds its end. */
  lemma WalkFindsLayout(s: string, indent: nat, width: nat, cells: CellWidth) returns (rows: seq<Row>)
    ensures IsLayout(rows, s, indent, width, cells)
    ensures forall other: seq<Row> :: IsLayout(other, s, indent, width, cells) ==> other == rows
    ensures Walk(s, Pos(0, indent), indent, width, cells) == EndOf(rows, indent, cells)
  {
    rows := LayoutExists(s, indent, width, cells);
    WalkEndsLayout(rows, s, indent, width, cells);
    forall other: seq<Row> | IsLayout(other, s, indent, width, cells) ensures other == rows {
      LayoutIsUnique(rows, other, s, indent, width, cells);
    }
  }

  // ---- the column as a `u16` -----------------------------------------------------------------

  /** No sum of column and character leaves `u16` on the walk. */
  predicate Fits(s: string, p: Pos, indent: nat, width: nat, cells: CellWidth)
    decreases |s|
  {
    s == "" || (
      && Fits(s[..|s| - 1], p, indent, width, cells)
      && (s[|s| - 1] == '\n' || Walk(s[..|s| - 1], p, indent, width, cells).col + cells(s[|s| - 1]) <= U16_MAX))
  }

  lemma {:induction false} PrefixFits(s: string, n: nat, p: Pos, indent: nat, width: nat, cells: CellWidth)
    requires n <= |s| && Fits(s, p, indent, width, cells)
    ensures Fits(s[..n], p, indent, width, cells)
    decreases |s|
  {
    if n < |s| {
      assert s[..|s| - 1][..n] == s[..n];
      PrefixFits(s[..|s| - 1], n, p, indent, width, cells);
    } else {
      assert s[..n] == s;
    }
  }

  /** In a nonempty area the column never passes the width or the prompt: with a
      width of at most 65533 no sum leaves `u16`. */
  lemma {:induction false} ColumnBound(s: string, p: Pos, indent: nat, width: nat, cells: CellWidth)
    requires Terminal(cells) && 0 < width <= U16_MAX - 2 && indent <= 2
    requires p.col <= 2 || p.col <= width
    ensures var col := Walk(s, p, indent, width, cells).col; col <= 2 || col <= width
    ensures Fits(s, p, indent, width, cells)
    decreases |s|
  {
    if s != "" {
      ColumnBound(s[..|s| - 1], p, indent, width, cells);
      assert cells(s[|s| - 1]) <= 2;
    }
  }

  function Blanks(n: nat): string {
    seq(n, _ => ' ')
  }

  /** Blanks move the column on as long as nothing wraps. */
  lemma {:induction false} BlanksAdvance(n: nat, col: nat, indent: nat, width: nat, cells: CellWidth)
    requires Terminal(cells) && (width == 0 || col + n <= width)
    ensures Walk(Blanks(n), Pos(0, col), indent, width, cells) == Pos(0, col + n)
  {
    if n > 0 {
      assert Blanks(n)[..n - 1] == Blanks(n - 1);
      BlanksAdvance(n - 1, col, indent, width, cells);
    }
  }

  /** Blanks up to the last column and a wide character. */
  lemma WideOverflows(wide: char, n: nat, col: nat, indent: nat, width: nat, cells: CellWidth)
    requires Terminal(cells) && wide != '\n' && cells(wide) == 2
    requires (width == 0 || col + n <= width) && col + n + 2 > U16_MAX
    ensures !Fits(Blanks(n) + [wide], Pos(0, col), indent, width, cells)
  {
    var s := Blanks(n) + [wide];
    assert s[..n] == Blanks(n) && |s| == n + 1;
    BlanksAdvance(n, col, indent, width, cells);
  }

  /** No text overflows a column that starts at `col`, the terminal having a character
      of two cells, exactly when the width is neither 0 nor above 65533. */
  lemma ColumnFitsIff(wide: char, col: nat, indent: nat, width: nat, cells: CellWidth)
    requires Terminal(cells) && wide != '\n' && cells(wide) == 2
    requires col <= 2 && indent <= 2 && width <= U16_MAX
    ensures 1 <= width <= 65533 <==> forall s: string :: Fits(s, Pos(0, col), indent, width, cells)
  {
    if 1 <= width <= 65533 {
      forall s: string ensures Fits(s, Pos(0, col), indent, width, cells) {
        ColumnBound(s, Pos(0, col), indent, width, cells);
      }
    } else {
      var n := U16_MAX - 1 - col;
      WideOverflows(wide, n, col, indent, width, cells);
    }
  }

  // ---- wrapped_row_count -----------------------------------------------------------------------

  /** Rows a text takes, without saturation. */
  function Rows(s: string, width: nat, cells: CellWidth): nat {
    if width == 0 then 1 else Walk(s, Pos(0, 0), 0, width, cells).row + 1
  }

  /** The count is the number of rows the text is cut into, in a nonempty width. */
  lemma RowsCountLayout(rows: seq<Row>, s: string, width: nat, cells: CellWidth)
    requires width > 0
    ensures IsLayout(rows, s, 0, width, cells) ==> Rows(s, width, cells) == |rows|
  {
    if IsLayout(rows, s, 0, width, cells) {
      WalkEndsLayout(rows, s, 0, width, cells);
    }
  }

  predicate RowsFit(s: string, width: nat, cells: CellWidth) {
    width == 0 || Fits(s, Pos(0, 0), 0, width, cells)
  }

  /** `n` is the number of rows in a layout of `s`, saturated. */
  ghost predicate CountsRows(n: nat, s: string, width: nat, cells: CellWidth) {
    exists rows: seq<Row> :: IsLayout(rows, s, 0, width, cells) && n == Sat(|rows|)
  }

  /** `wrapped_row_count`; none where a column sum leaves `u16`. */
  method WrappedRowCount(s: string, width: nat, cells: CellWidth) returns (r: Option<nat>)
    ensures r == if RowsFit(s, width, cells) then Some(Sat(Rows(s, width, cells))) else None
    ensures r.Some? && width > 0 ==> CountsRows(r.value, s, width, cells)
  {
    if width == 0 {
      return Some(1);
    }
    var rows := 1;
    var col := 0;
    for i := 0 to |s|
      invariant var q := Walk(s[..i], Pos(0, 0), 0, width, cells); rows == Sat(q.row + 1) && col == q.col
      invariant Fits(s[..i], Pos(0, 0), 0, width, cells)
    {
      assert s[..i + 1][..i] == s[..i];
      if s[i] == '\n' {
        rows := Sat(rows + 1);
        col := 0;
        continue;
      }
      var w := cells(s[i]);
      if col + w > U16_MAX {
        if RowsFit(s, width, cells) {
          PrefixFits(s, i + 1, Pos(0, 0), 0, width, cells);
          assert false;
        }
        return None;
      }
      if col + w > width {
        rows := Sat(rows + 1);
        col := 0;
      }
      col := col + w;
    }
    assert s[..|s|] == s;
    ghost var layout := WalkFindsLayout(s, 0, width, cells);
    return Some(rows);
  }

  /** Hard breaks add rows: they are independent blocks, in a nonempty width. */
  lemma RowsCompose(a: string, b: string, width: nat, cells: CellWidth)
    requires width > 0
    ensures Rows(a + ['\n'] + b, width, cells) == Rows(a, width, cells) + Rows(b, width, cells)
  {
    WalkAppends(a + ['\n'], b, Pos(0, 0), 0, width, cells);
    assert (a + ['\n'])[..|a|] == a;
    WalkShifts(b, Walk(a, Pos(0, 0), 0, width, cells).row + 1, 0, 0, width, cells);
  }

  // ---- source lines ------------------------------------------------------------------------------

  function BreakFrom(s: string, from: nat): (i: nat)
    requires from <= |s|
    ensures from <= i <= |s|
    ensures '\n' !in s[from..i]
    ensures i < |s| ==> s[i] == '\n'
    decreases |s| - from
  {
    if from == |s| || s[from] == '\n' then from
    else
      var i := BreakFrom(s, from + 1);
      assert s[from..i] == [s[from]] + s[from + 1..i];
      i
  }

  /** `split('\n')`: never empty. */
  function Lines(s: string): (r: seq<string>)
    ensures r != []
    decreases |s|
  {
    var i := BreakFrom(s, 0);
    if i == |s| then [s] else [s[..i]] + Lines(s[i + 1..])
  }

  /** The lines with `lead` before the first and `indent` before the others. */
  function Prefixed(lines: seq<string>, lead: string, indent: string): seq<string> {
    if lines == [] then [] else [lead + lines[0]] + Prefixed(lines[1..], indent, indent)
  }

  function SumRows(lines: seq<string>, width: nat, cells: CellWidth): nat {
    if lines == [] then 0 else Rows(lines[0], width, cells) + SumRows(lines[1..], width, cells)
  }

  function Join(lines: seq<string>): string
    requires lines != []
  {
    if |lines| == 1 then lines[0] else lines[0] + ['\n'] + Join(lines[1..])
  }

  function Spaces(n: nat): (s: string)
    ensures |s| == n
  {
    if n == 0 then "" else " " + Spaces(n - 1)
  }

  lemma {:induction false} SumRowsAppends(a: seq<string>, x: string, width: nat, cells: CellWidth)
    ensures SumRows(a + [x], width, cells) == SumRows(a, width, cells) + Rows(x, width, cells)
  {
    if a == [] {
      assert [] + [x] == [x] && [x][1..] == [];
    } else {
      assert (a + [x])[0] == a[0] && (a + [x])[1..] == a[1..] + [x];
      SumRowsAppends(a[1..], x, width, cells);
    }
  }

  lemma {:induction false} PrefixedAt(lines: seq<string>, lead: string, indent: string, i: nat)
    requires i < |lines|
    ensures |Prefixed(lines, lead, indent)| == |lines|
    ensures Prefixed(lines, lead, indent)[i] == (if i == 0 then lead else indent) + lines[i]
    decreases |lines|
  {
    PrefixedLength(lines, lead, indent);
    if i > 0 {
      PrefixedAt(lines[1..], indent, indent, i - 1);
    }
  }

  lemma {:induction false} PrefixedLength(lines: seq<string>, lead: string, indent: string)
    ensures |Prefixed(lines, lead, indent)| == |lines|
  {
    if lines != [] {
      PrefixedLength(lines[1..], indent, indent);
    }
  }

  predicate AllFit(lines: seq<string>, width: nat, cells: CellWidth) {
    forall i :: 0 <= i < |lines| ==> RowsFit(lines[i], width, cells)
  }

  lemma OneMoreLine(all: seq<string>, i: nat, width: nat, cells: CellWidth)
    requires i < |all|
    ensures SumRows(all[..i + 1], width, cells) == SumRows(all[..i], width, cells) + Rows(all[i], width, cells)
    ensures AllFit(all[..i], width, cells) && RowsFit(all[i], width, cells) ==> AllFit(all[..i + 1], width, cells)
  {
    SumRowsAppends(all[..i], all[i], width, cells);
    assert all[..i + 1] == all[..i] + [all[i]];
  }

  /** `wrapped_height_for_message`: the saturated sum is the sum, saturated; none where
      a column sum leaves `u16`. */
  method WrappedHeightForMessage(role: string, content: string, width: nat, cells: CellWidth) returns (r: Option<nat>)
    ensures var lead := role + "> ";
      var all := Prefixed(Lines(content), lead, Spaces(|Encode(lead)|));
      r == if AllFit(all, width, cells) then Some(Sat(SumRows(all, width, cells))) else None
  {
    var lead := role + "> ";
    var indent := Spaces(|Encode(lead)|);
    var lines := Lines(content);
    ghost var all := Prefixed(lines, lead, indent);
    PrefixedLength(lines, lead, indent);
    var total := 0;
    var first := true;
    for i := 0 to |lines|
      invariant first <==> i == 0
      invariant total == Sat(SumRows(all[..i], width, cells))
      invariant AllFit(all[..i], width, cells)
    {
      var prefix := if first then lead else indent;
      first := false;
      var rows := WrappedRowCount(prefix + lines[i], width, cells);
      PrefixedAt(lines, lead, indent, i);
      if rows.None? {
        return None;
      }
      OneMoreLine(all, i, width, cells);
      total := Sat(total + rows.value);
    }
    assert all[..|lines|] == all;
    return Some(total);
  }

  /** The height of a message is the row count of its prefixed text as one string. */
  lemma {:induction false} HeightIsRowsOfJoined(lines: seq<string>, width: nat, cells: CellWidth)
    requires lines != [] && width > 0
    ensures SumRows(lines, width, cells) == Rows(Join(lines), width, cells)
    decreases |lines|
  {
    if |lines| > 1 {
      HeightIsRowsOfJoined(lines[1..], width, cells);
      RowsCompose(lines[0], Join(lines[1..]), width, cells);
    } else {
      assert lines[1..] == [];
    }
  }

  /** In a zero-width area a text counts as one row, a message as one row a line. */
  lemma {:induction false} ZeroWidthCounts(lines: seq<string>, cells: CellWidth)
    ensures SumRows(lines, 0, cells) == |lines|
  {
    if lines != [] {
      ZeroWidthCounts(lines[1..], cells);
    }
  }

  // ---- the cursor ------------------------------------------------------------------------------------

  /** Where the walk over the text before the cursor ends; it starts after "> ". */
  function CursorAt(before: string, width: nat, cells: CellWidth): Pos {
    Walk(before, Pos(0, 2), 2, width, cells)
  }

  /** The row that counting the prefixed source lines gives. */
  function PromptRows(before: string, width: nat, cells: CellWidth): nat {
    SumRows(Prefixed(Lines(before), "> ", "  "), width, cells)
  }

  lemma PrefixWalk(prefix: string, line: string, width: nat, cells: CellWidth)
    requires Terminal(cells) && width >= 2 && (prefix == "> " || prefix == "  ") && '\n' !in line
    ensures Rows(prefix + line, width, cells) == Walk(line, Pos(0, 2), 2, width, cells).row + 1
  {
    WalkAppends(prefix, line, Pos(0, 0), 0, width, cells);
    assert prefix[..1] == [prefix[0]] && prefix[..1][..0] == "" && prefix[..2] == prefix;
    assert Walk(prefix[..1], Pos(0, 0), 0, width, cells) == Pos(0, 1);
    assert Walk(prefix, Pos(0, 0), 0, width, cells) == Pos(0, 2);
    IndentFree(line, Pos(0, 2), 0, 2, width, cells);
  }

  /** The first source line and the rest of the walk. */
  lemma WalkOverBreak(s: string, i: nat, width: nat, cells: CellWidth)
    requires i < |s| && s[i] == '\n'
    ensures CursorAt(s, width, cells).row
         == Walk(s[..i], Pos(0, 2), 2, width, cells).row + 1 + CursorAt(s[i + 1..], width, cells).row
  {
    var line, rest := s[..i], s[i + 1..];
    assert s == (line + ['\n']) + rest && (line + ['\n'])[..i] == line;
    WalkAppends(line + ['\n'], rest, Pos(0, 2), 2, width, cells);
    WalkShifts(rest, Walk(line, Pos(0, 2), 2, width, cells).row + 1, 2, 2, width, cells);
  }

  lemma {:induction false} WideAgrees(s: string, lead: string, width: nat, cells: CellWidth)
    requires Terminal(cells) && width >= 2 && (lead == "> " || lead == "  ")
    ensures SumRows(Prefixed(Lines(s), lead, "  "), width, cells) == CursorAt(s, width, cells).row + 1
    decreases |s|
  {
    var i := BreakFrom(s, 0);
    assert s[0..i] == s[..i];
    PrefixWalk(lead, s[..i], width, cells);
    if i == |s| {
      assert s[..i] == s;
      OneLine(lead, s, width, cells);
    } else {
      WideAgrees(s[i + 1..], "  ", width, cells);
      WalkOverBreak(s, i, width, cells);
      assert Lines(s)[1..] == Lines(s[i + 1..]);
      FirstPrefixed(Lines(s), lead, width, cells);
    }
  }

  lemma FirstPrefixed(lines: seq<string>, lead: string, width: nat, cells: CellWidth)
    requires lines != []
    ensures SumRows(Prefixed(lines, lead, "  "), width, cells)
         == Rows(lead + lines[0], width, cells) + SumRows(Prefixed(lines[1..], "  ", "  "), width, cells)
  {
    var rest := Prefixed(lines[1..], "  ", "  ");
    assert ([lead + lines[0]] + rest)[1..] == rest;
  }

  lemma OneLine(lead: string, s: string, width: nat, cells: CellWidth)
    ensures SumRows(Prefixed([s], lead, "  "), width, cells) == Rows(lead + s, width, cells)
  {
    FirstPrefixed([s], lead, width, cells);
    assert [s][1..] == [];
  }

  lemma {:induction false} NarrowAgrees(s: string, lead: string, cells: CellWidth)
    ensures SumRows(Prefixed(Lines(s), lead, "  "), 0, cells) == CursorAt(s, 0, cells).row + 1
    decreases |s|
  {
    var i := BreakFrom(s, 0);
    assert s[0..i] == s[..i];
    NoWraps(s[..i], cells);
    if i == |s| {
      assert s[..i] == s;
      OneLine(lead, s, 0, cells);
    } else {
      NarrowAgrees(s[i + 1..], "  ", cells);
      WalkOverBreak(s, i, 0, cells);
      assert Lines(s)[1..] == Lines(s[i + 1..]);
      FirstPrefixed(Lines(s), lead, 0, cells);
    }
  }

  lemma {:induction false} NoWraps(line: string, cells: CellWidth)
    requires '\n' !in line
    ensures Walk(line, Pos(0, 2), 2, 0, cells).row == 0
    decreases |line|
  {
    if line != "" {
      NoWraps(line[..|line| - 1], cells);
    }
  }

  /** At width 1 the prompt itself wraps, which the cursor walk does not see. */
  lemma WidthOneDisagrees(cells: CellWidth)
    requires Terminal(cells)
    ensures CursorAt("", 1, cells).row == 0 && PromptRows("", 1, cells) == 2
  {
    assert Lines("") == [""];
    OneLine("> ", "", 1, cells);
    var prefix := "> " + "";
    assert prefix[..2] == prefix && prefix[..1] == ">" && prefix[..1][..0] == "";
    assert Walk(prefix[..1], Pos(0, 0), 0, 1, cells) == Pos(0, 1);
  }

  /** The cursor's row is one less than the rows of the prefixed source lines before
      it, for every text, exactly when the width is not 1. */
  lemma CursorAgreesIff(width: nat, cells: CellWidth)
    requires Terminal(cells)
    ensures width != 1 <==> forall s: string :: PromptRows(s, width, cells) == CursorAt(s, width, cells).row + 1
  {
    if width == 0 {
      forall s: string ensures PromptRows(s, width, cells) == CursorAt(s, width, cells).row + 1 {
        NarrowAgrees(s, "> ", cells);
      }
    } else if width == 1 {
      WidthOneDisagrees(cells);
    } else {
      forall s: string ensures PromptRows(s, width, cells) == CursorAt(s, width, cells).row + 1 {
        WideAgrees(s, "> ", width, cells);
      }
    }
  }

  /** As `u16` values the two agree just as long as the row has not saturated. */
  lemma SaturatedAgreesIff(s: string, width: nat, cells: CellWidth)
    requires Terminal(cells) && width != 1
    ensures Sat(PromptRows(s, width, cells)) == Sat(CursorAt(s, width, cells).row) + 1
       <==> CursorAt(s, width, cells).row < U16_MAX
  {
    CursorAgreesIff(width, cells);
  }

  function Minus(a: nat, b: nat): nat {
    if a < b then 0 else a - b
  }

  datatype Rect = Rect(x: nat, y: nat, width: nat, height: nat)

  datatype Cell = Cell(scroll: nat, x: nat, y: nat)

  /** The walk's own position in the area. */
  ghost predicate Shows(c: Cell, at: Pos, area: Rect) {
    // Inside every nonempty area that fits the coordinate space.
    && (area.width > 0 && area.height > 0 && area.x + area.width <= U16_MAX && area.y + area.height <= U16_MAX ==>
          area.x <= c.x < area.x + area.width && area.y <= c.y < area.y + area.height)
    // The cell shows the cursor's own row, scrolled no further than needed.
    && (area.height > 0 ==> c.scroll == Minus(Sat(at.row), area.height - 1))
    && (area.height > 0 && area.y + area.height <= U16_MAX ==> c.y - area.y + c.scroll == Sat(at.row))
    // The column is the walk's own wherever that is inside the area.
    && (area.height > 0 && area.x + area.width <= U16_MAX && at.col < area.width ==> c.x == area.x + at.col)
  }

  /** The cursor part of `draw_input_or_stream`: the scroll offset and the cell; none
      exactly where a column sum leaves `u16`. */
  method PlaceCursor(before: string, area: Rect, cells: CellWidth) returns (r: Option<Cell>)
    ensures r.Some? <==> Fits(before, Pos(0, 2), 2, area.width, cells)
    ensures r.Some? ==> Shows(r.value, CursorAt(before, area.width, cells), area)
    ensures r.Some? ==> exists rows: seq<Row> ::
      IsLayout(rows, before, 2, area.width, cells) && Shows(r.value, EndOf(rows, 2, cells), area)
  {
    var row := 0;
    var col := 2;
    for i := 0 to |before|
      invariant var q := CursorAt(before[..i], area.width, cells); row == Sat(q.row) && col == q.col
      invariant Fits(before[..i], Pos(0, 2), 2, area.width, cells)
    {
      assert before[..i + 1][..i] == before[..i];
      if before[i] == '\n' {
        row := Sat(row + 1);
        col := 2;
        continue;
      }
      var w := cells(before[i]);
      if col + w > U16_MAX {
        if Fits(before, Pos(0, 2), 2, area.width, cells) {
          PrefixFits(before, i + 1, Pos(0, 2), 2, area.width, cells);
          assert false;
        }
        return None;
      }
      if col + w > area.width && area.width > 0 {
        row := Sat(row + 1);
        col := 0;
      }
      col := col + w;
    }
    assert before[..|before|] == before;
    ghost var layout := WalkFindsLayout(before, 2, area.width, cells);
    var scroll := Minus(row, Minus(area.height, 1));
    var cursorRow := Minus(row, scroll);
    var cursorCol := col;
    if cursorRow >= area.height {
      cursorRow := Minus(area.height, 1);
      cursorCol := Minus(area.width, 1);
    } else if cursorCol >= area.width {
      cursorCol := Minus(area.width, 1);
    }
    return Some(Cell(scroll, Sat(area.x + cursorCol), Sat(area.y + cursorRow)));
  }
}
