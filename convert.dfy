/** convert/convert.go: the page title, the marking of complex tables and
    the Markdown rendering of a table, on a page already parsed. A table is
    given as the texts of the th/td cells of each of its tr rows, in
    document order. */
module Convert {
  import opened Wrappers
  import opened Strs
  import opened Seqs

  // ---------------------------------------------------------------------
  // extractTitle

  const UntitledDocument: string := "Untitled Document"

  /** extractTitle; `titleText` is the text of the first title element, or
      None when the page has none. */
  function ExtractTitle(titleText: Option<string>): string {
    match titleText
    case None => UntitledDocument
    case Some(text) =>
      var fullTitle := TrimSpace(text);
      var titleParts := Split(fullTitle, ':');
      if |titleParts| > 1 then TrimSpace(titleParts[|titleParts| - 1]) else fullTitle
  }

  /** The title is what follows the last ':' of the trimmed title text, or
      the whole trimmed text when there is no ':'. */
  lemma TitleIsAfterLastColon(text: string)
    ensures var full := TrimSpace(text);
      ExtractTitle(Some(text)) == (if ':' in full then TrimSpace(AfterLast(full, ':')) else full)
  {
    SplitLast(TrimSpace(text), ':');
  }

  /** A page title holds no ':' and no surrounding white space. */
  lemma TitleHasNoColon(text: string)
    ensures var t := ExtractTitle(Some(text));
      ':' !in t && (t == [] || (!IsSpace(t[0]) && !IsSpace(t[|t| - 1])))
  {
    var full := TrimSpace(text);
    TitleIsAfterLastColon(text);
    if ':' in full {
      assert ':' !in AfterLast(full, ':');
    }
  }

  /** An empty or blank title element gives the empty title, not the
      default. */
  lemma BlankTitleIsEmpty()
    ensures ExtractTitle(Some("")) == ""
  {
    assert Split("", ':') == [""];
  }

  /** A page without a title element is titled "Untitled Document". */
  lemma NoTitleIsUntitled()
    ensures ExtractTitle(None) == "Untitled Document"
  {
  }

  // ---------------------------------------------------------------------
  // preProcessTables

  const ComplexTable: string := "complex-table"

  /** A table of the content: its class tokens and the number of th/td
      cells inside it, nested tables included. */
  datatype Table = Table(classes: seq<string>, cellCount: nat)

  /** goquery's AddClass of one class: added once, at the end. */
  function AddClass(classes: seq<string>, c: string): (r: seq<string>)
    ensures c in r
    ensures forall x :: x in classes ==> x in r
    ensures forall x :: x in r ==> x in classes || x == c
  {
    if c in classes then classes else classes + [c]
  }

  /** A table is marked complex exactly when it has more than two cells or
      already was; its other classes and its cells stay as they are. */
  function Preprocessed(t: Table): (r: Table)
    ensures ComplexTable in r.classes <==> t.cellCount > 2 || ComplexTable in t.classes
    ensures forall x :: x != ComplexTable ==> (x in r.classes <==> x in t.classes)
    ensures r.cellCount == t.cellCount
  {
    if t.cellCount > 2 then t.(classes := AddClass(t.classes, ComplexTable)) else t
  }

  lemma PreprocessIsIdempotent(t: Table)
    ensures Preprocessed(Preprocessed(t)) == Preprocessed(t)
  {
  }

  /** preProcessTables, on the tables of the content in place. */
  method PreProcessTables(tables: array<Table>)
    modifies tables
    ensures forall i :: 0 <= i < tables.Length ==> tables[i] == Preprocessed(old(tables[i]))
  {
    for i := 0 to tables.Length
      invariant forall k :: 0 <= k < i ==> tables[k] == Preprocessed(old(tables[k]))
      invariant forall k :: i <= k < tables.Length ==> tables[k] == old(tables[k])
    {
      if tables[i].cellCount > 2 {
        tables[i] := tables[i].(classes := AddClass(tables[i].classes, ComplexTable));
      }
    }
  }

  // ---------------------------------------------------------------------
  // confluenceTable

  /** The trimmed texts of the cells of one tr. */
  function TrimCells(cells: seq<string>): (r: seq<string>)
    ensures |r| == |cells|
  {
    if cells == [] then [] else TrimCells(cells[..|cells| - 1]) + [TrimSpace(cells[|cells| - 1])]
  }

  lemma {:induction false} TrimCellsAt(cells: seq<string>, k: nat)
    requires k < |cells|
    ensures TrimCells(cells)[k] == TrimSpace(cells[k])
  {
    if k < |cells| - 1 {
      TrimCellsAt(cells[..|cells| - 1], k);
    }
  }

  /** The rows that have cells, trimmed, in document order. */
  function Rows(trs: seq<seq<string>>): seq<seq<string>> {
    if trs == [] then []
    else
      var row := TrimCells(trs[|trs| - 1]);
      Rows(trs[..|trs| - 1]) + (if |row| > 0 then [row] else [])
  }

  /** Every kept row has cells, no row is added, and when every tr has
      cells every one is kept. */
  lemma {:induction false} RowsKeepRowsWithCells(trs: seq<seq<string>>)
    ensures |Rows(trs)| <= |trs|
    ensures forall k :: 0 <= k < |Rows(trs)| ==> |Rows(trs)[k]| > 0
    ensures (forall k :: 0 <= k < |trs| ==> |trs[k]| > 0) ==> |Rows(trs)| == |trs|
  {
    if trs != [] {
      var front := trs[..|trs| - 1];
      RowsKeepRowsWithCells(front);
      assert forall k :: 0 <= k < |front| ==> front[k] == trs[k];
    }
  }

  /** A tr with at least one th or td. */
  predicate HasCells(tr: seq<string>) {
    |tr| > 0
  }

  /** The rows of the first k trs are the trimmed cells of exactly the trs
      that have cells, in document order. */
  lemma {:induction false} RowsInOrder(trs: seq<seq<string>>, k: nat)
    requires k <= |trs|
    ensures var pos := Positions(trs, HasCells, k);
      |Rows(trs[..k])| == |pos|
      && forall i :: 0 <= i < |pos| ==> pos[i] < k && Rows(trs[..k])[i] == TrimCells(trs[pos[i]])
  {
    if k > 0 {
      RowsInOrder(trs, k - 1);
      assert trs[..k][..k - 1] == trs[..k - 1];
    }
  }

  /** When every tr has cells, row k is the trimmed cells of tr k. */
  lemma RowsOfFullTable(trs: seq<seq<string>>)
    requires forall k :: 0 <= k < |trs| ==> |trs[k]| > 0
    ensures |Rows(trs)| == |trs|
    ensures forall k :: 0 <= k < |trs| ==> Rows(trs)[k] == TrimCells(trs[k])
  {
    RowsInOrder(trs, |trs|);
    PositionsAllKept(trs, HasCells, |trs|);
    assert trs[..|trs|] == trs;
  }

  function Max(a: nat, b: nat): nat {
    if a < b then b else a
  }

  /** The length of the longest row, 0 when there is none. */
  function MaxCols(rows: seq<seq<string>>): nat {
    if rows == [] then 0 else Max(MaxCols(rows[..|rows| - 1]), |rows[|rows| - 1]|)
  }

  /** MaxCols is the length of a longest row. */
  lemma {:induction false} MaxColsIsMax(rows: seq<seq<string>>)
    ensures forall k :: 0 <= k < |rows| ==> |rows[k]| <= MaxCols(rows)
    ensures rows != [] ==> exists k :: 0 <= k < |rows| && |rows[k]| == MaxCols(rows)
    ensures rows == [] ==> MaxCols(rows) == 0
  {
    if rows != [] {
      var front := rows[..|rows| - 1];
      MaxColsIsMax(front);
      assert forall k :: 0 <= k < |front| ==> front[k] == rows[k];
      if front != [] && MaxCols(front) > |rows[|rows| - 1]| {
        var k :| 0 <= k < |front| && |front[k]| == MaxCols(front);
        assert |rows[k]| == MaxCols(rows);
      }
    }
  }

  /** The text of cell `j` of a row; beyond its end, the padding, which is
      the text of an empty cell. */
  function Segment(row: seq<string>, j: nat): string {
    if j < |row| then "| " + row[j] + " " else "|  "
  }

  /** The `maxCols` cell segments of a row. */
  function Segments(row: seq<string>, maxCols: nat): (segs: seq<string>)
    ensures |segs| == maxCols
    ensures forall j :: 0 <= j < maxCols ==> segs[j] == Segment(row, j)
  {
    seq(maxCols, (j: int) requires 0 <= j < maxCols => Segment(row, j))
  }

  /** The texts of `parts`, one after the other. */
  function Concat(parts: seq<string>): string {
    if parts == [] then "" else Concat(parts[..|parts| - 1]) + parts[|parts| - 1]
  }

  // The text as the rule builds it, piece by piece after `acc`.

  /** `acc` followed by the first `j` of the segments `segs`. */
  function Cells(acc: string, segs: seq<string>, j: nat): string
    requires j <= |segs|
  {
    if j == 0 then acc else Cells(acc, segs, j - 1) + segs[j - 1]
  }

  /** `acc` followed by `n` column separators. */
  function Dashes(acc: string, n: nat): string {
    if n == 0 then acc else Dashes(acc, n - 1) + "|---"
  }

  /** `acc` followed by one row padded to `maxCols` cells, and by the
      separator line when it is the first row. */
  function RowLines(acc: string, row: seq<string>, maxCols: nat, first: bool): string {
    var line := Cells(acc, Segments(row, maxCols), maxCols) + "|\n";
    if first then Dashes(line, maxCols) + "|\n" else line
  }

  /** The leading blank line and the first `k` rows. */
  function Rendered(rows: seq<seq<string>>, maxCols: nat, k: nat): string
    requires k <= |rows|
  {
    if k == 0 then "\n\n" else RowLines(Rendered(rows, maxCols, k - 1), rows[k - 1], maxCols, k == 1)
  }

  /** What the table rule returns for a table: None when it has no row
      with cells. */
  function RenderTable(trs: seq<seq<string>>): Option<string> {
    var rows := Rows(trs);
    var maxCols := MaxCols(rows);
    if |rows| == 0 || maxCols == 0 then None
    else Some(Rendered(rows, maxCols, |rows|) + "\n")
  }

  /** One row of the first pass, as the loop of CollectRows takes it. */
  lemma RowsStep(trs: seq<seq<string>>, i: nat)
    requires i < |trs|
    ensures var row := TrimCells(trs[i]);
      Rows(trs[..i + 1]) == Rows(trs[..i]) + (if |row| > 0 then [row] else [])
  {
    assert trs[..i + 1][..i] == trs[..i];
  }

  lemma MaxColsStep(rows: seq<seq<string>>, row: seq<string>)
    ensures MaxCols(rows + [row]) == Max(MaxCols(rows), |row|)
  {
    assert (rows + [row])[..|rows|] == rows;
  }

  lemma TrimCellsStep(cells: seq<string>, j: nat)
    requires j < |cells|
    ensures TrimCells(cells[..j + 1]) == TrimCells(cells[..j]) + [TrimSpace(cells[j])]
  {
    assert cells[..j + 1][..j] == cells[..j];
  }

  /** The first pass of confluenceTable: the rows that have cells,
      trimmed, and the length of the longest. */
  method CollectRows(trs: seq<seq<string>>) returns (rows: seq<seq<string>>, maxCols: nat)
    ensures rows == Rows(trs) && maxCols == MaxCols(rows)
  {
    rows := [];
    maxCols := 0;
    for i := 0 to |trs|
      invariant rows == Rows(trs[..i])
      invariant maxCols == MaxCols(rows)
    {
      var row: seq<string> := [];
      for j := 0 to |trs[i]|
        invariant row == TrimCells(trs[i][..j])
      {
        TrimCellsStep(trs[i], j);
        row := row + [TrimSpace(trs[i][j])];
      }
      assert trs[i][..|trs[i]|] == trs[i];
      RowsStep(trs, i);
      if |row| > 0 {
        MaxColsStep(rows, row);
        rows := rows + [row];
        if |row| > maxCols {
          maxCols := |row|;
        }
      }
    }
    assert trs[..|trs|] == trs;
  }

  /** The second pass of confluenceTable: the blank line, then every row
      padded to `maxCols` cells, the separator line after the first. */
  method RenderRows(rows: seq<seq<string>>, maxCols: nat) returns (markdown: string)
    ensures markdown == Rendered(rows, maxCols, |rows|)
  {
    markdown := "\n\n";
    for i := 0 to |rows|
      invariant markdown == Rendered(rows, maxCols, i)
    {
      ghost var done := markdown;
      ghost var segs := Segments(rows[i], maxCols);
      for j := 0 to maxCols
        invariant markdown == Cells(done, segs, j)
      {
        if j < |rows[i]| {
          markdown := markdown + ("| " + rows[i][j] + " ");
        } else {
          markdown := markdown + "|  ";
        }
      }
      markdown := markdown + "|\n";
      if i == 0 {
        ghost var line := markdown;
        for j := 0 to maxCols
          invariant markdown == Dashes(line, j)
        {
          markdown := markdown + "|---";
        }
        markdown := markdown + "|\n";
      }
    }
  }

  /** The table rule of confluenceTable. */
  method ConfluenceTable(trs: seq<seq<string>>) returns (r: Option<string>)
    ensures r == RenderTable(trs)
  {
    var rows, maxCols := CollectRows(trs);
    if |rows| == 0 || maxCols == 0 {
      return None;
    }
    var markdown := RenderRows(rows, maxCols);
    markdown := markdown + "\n";
    r := Some(markdown);
  }

  /** The rule declines exactly the tables without a row that has cells. */
  lemma RenderDeclinesEmptyTables(trs: seq<seq<string>>)
    ensures RenderTable(trs).None? <==> Rows(trs) == []
  {
    var rows := Rows(trs);
    if rows != [] {
      RowsKeepRowsWithCells(trs);
      MaxColsIsMax(rows);
      assert |rows[0]| <= MaxCols(rows);
    }
  }

  // The table as lines: the reference the built text is proved against.

  /** A row padded to `maxCols` cells, closed by a bar and a line break. */
  function RowLine(row: seq<string>, maxCols: nat): string {
    Concat(Segments(row, maxCols)) + "|\n"
  }

  /** `maxCols` column separators, closed by a bar and a line break. */
  function SeparatorLine(maxCols: nat): string {
    Concat(seq(maxCols, _ => "|---")) + "|\n"
  }

  /** The line of every row. */
  function RowLinesOf(rows: seq<seq<string>>, maxCols: nat): (lines: seq<string>)
    ensures |lines| == |rows|
    ensures forall i :: 0 <= i < |rows| ==> lines[i] == RowLine(rows[i], maxCols)
  {
    seq(|rows|, (i: int) requires 0 <= i < |rows| => RowLine(rows[i], maxCols))
  }

  /** The first `k` of `rowLines`, with `sep` after the first of them. */
  function WithSeparator(rowLines: seq<string>, sep: string, k: nat): (lines: seq<string>)
    requires k <= |rowLines|
    ensures |lines| == if k == 0 then 0 else k + 1
  {
    if k == 0 then []
    else WithSeparator(rowLines, sep, k - 1) + [rowLines[k - 1]] + (if k == 1 then [sep] else [])
  }

  /** The lines of a table: each row's line, and the separator line after
      the first. */
  function TableLines(rows: seq<seq<string>>, maxCols: nat): seq<string> {
    WithSeparator(RowLinesOf(rows, maxCols), SeparatorLine(maxCols), |rows|)
  }

  lemma Assoc(a: string, b: string, c: string)
    ensures a + b + c == a + (b + c)
  {
  }

  lemma ConcatOne(x: string)
    ensures Concat([x]) == x
  {
    assert [x][..0] == [];
  }

  lemma {:induction false} ConcatAppend(a: seq<string>, b: seq<string>)
    ensures Concat(a + b) == Concat(a) + Concat(b)
    decreases |b|
  {
    if b == [] {
      assert a + b == a;
    } else {
      var b' := b[..|b| - 1];
      assert (a + b)[..|a + b| - 1] == a + b';
      ConcatAppend(a, b');
      Assoc(Concat(a), Concat(b'), b[|b| - 1]);
    }
  }

  lemma {:induction false} CellsIsConcat(acc: string, segs: seq<string>, j: nat)
    requires j <= |segs|
    ensures Cells(acc, segs, j) == acc + Concat(segs[..j])
  {
    if j > 0 {
      CellsIsConcat(acc, segs, j - 1);
      assert segs[..j][..j - 1] == segs[..j - 1];
      Assoc(acc, Concat(segs[..j - 1]), segs[j - 1]);
    }
  }

  lemma {:induction false} DashesIsConcat(acc: string, n: nat)
    ensures Dashes(acc, n) == acc + Concat(seq(n, _ => "|---"))
  {
    if n > 0 {
      DashesIsConcat(acc, n - 1);
      var d := seq(n, _ => "|---");
      assert d[..n - 1] == seq(n - 1, _ => "|---");
      Assoc(acc, Concat(d[..n - 1]), "|---");
    }
  }

  lemma RowLinesAppend(acc: string, row: seq<string>, maxCols: nat, first: bool)
    ensures RowLines(acc, row, maxCols, first)
      == acc + Concat([RowLine(row, maxCols)] + (if first then [SeparatorLine(maxCols)] else []))
  {
    var segs := Segments(row, maxCols);
    var r := RowLine(row, maxCols);
    CellsIsConcat(acc, segs, maxCols);
    assert segs[..maxCols] == segs;
    Assoc(acc, Concat(segs), "|\n");
    var line := Cells(acc, segs, maxCols) + "|\n";
    assert line == acc + r;
    ConcatOne(r);
    if first {
      var sep := SeparatorLine(maxCols);
      DashesIsConcat(line, maxCols);
      Assoc(line, Concat(seq(maxCols, _ => "|---")), "|\n");
      Assoc(acc, r, sep);
      ConcatAppend([r], [sep]);
      ConcatOne(sep);
    }
  }

  /** The text built for the first `k` rows is the blank line followed by
      their lines. */
  lemma {:induction false} RenderedIsLines(rows: seq<seq<string>>, maxCols: nat, k: nat)
    requires k <= |rows|
    ensures Rendered(rows, maxCols, k)
      == "\n\n" + Concat(WithSeparator(RowLinesOf(rows, maxCols), SeparatorLine(maxCols), k))
  {
    if k > 0 {
      RenderedIsLines(rows, maxCols, k - 1);
      var ls := RowLinesOf(rows, maxCols);
      var sep := SeparatorLine(maxCols);
      var prev := WithSeparator(ls, sep, k - 1);
      var tail := [RowLine(rows[k - 1], maxCols)] + (if k == 1 then [sep] else []);
      RowLinesAppend(Rendered(rows, maxCols, k - 1), rows[k - 1], maxCols, k == 1);
      ConcatAppend(prev, tail);
      Assoc("\n\n", Concat(prev), Concat(tail));
      assert WithSeparator(ls, sep, k) == prev + tail;
    }
  }

  /** Line 0 is the first row's, line 1 the separator, and line `i + 1` the
      line of row `i` for every later row: the separator follows the first
      row only. */
  lemma {:induction false} SeparatorFollowsFirst(rowLines: seq<string>, sep: string, k: nat)
    requires 0 < k <= |rowLines|
    ensures WithSeparator(rowLines, sep, k)[0] == rowLines[0]
    ensures WithSeparator(rowLines, sep, k)[1] == sep
    ensures forall i :: 1 <= i < k ==> WithSeparator(rowLines, sep, k)[i + 1] == rowLines[i]
  {
    var lines := WithSeparator(rowLines, sep, k);
    if k > 1 {
      SeparatorFollowsFirst(rowLines, sep, k - 1);
      var prev := WithSeparator(rowLines, sep, k - 1);
      assert lines == prev + [rowLines[k - 1]];
      forall i | 1 <= i < k
        ensures lines[i + 1] == rowLines[i]
      {
        if i < k - 1 {
          assert lines[i + 1] == prev[i + 1];
        }
      }
      assert lines[0] == prev[0] && lines[1] == prev[1];
    } else {
      assert lines == [] + [rowLines[0]] + [sep];
    }
  }

  /** A rendered table is the blank line, one line per row with the
      separator line after the first, and a closing line break. */
  lemma RenderedTableLines(trs: seq<seq<string>>)
    requires RenderTable(trs).Some?
    ensures var rows := Rows(trs);
      var lines := TableLines(rows, MaxCols(rows));
      && |rows| > 0
      && RenderTable(trs).value == "\n\n" + Concat(lines) + "\n"
      && |lines| == |rows| + 1
      && lines[0] == RowLine(rows[0], MaxCols(rows))
      && lines[1] == SeparatorLine(MaxCols(rows))
      && forall i :: 1 <= i < |rows| ==> lines[i + 1] == RowLine(rows[i], MaxCols(rows))
  {
    var rows := Rows(trs);
    var m := MaxCols(rows);
    RenderDeclinesEmptyTables(trs);
    RenderedIsLines(rows, m, |rows|);
    SeparatorFollowsFirst(RowLinesOf(rows, m), SeparatorLine(m), |rows|);
  }

  lemma AppendCount(a: string, b: string, c: char)
    ensures multiset(a + b)[c] == multiset(a)[c] + multiset(b)[c]
  {
  }

  lemma {:induction false} ConcatBars(parts: seq<string>)
    requires forall k :: 0 <= k < |parts| ==> multiset(parts[k])['|'] == 1
    ensures multiset(Concat(parts))['|'] == |parts|
  {
    if parts != [] {
      var front := parts[..|parts| - 1];
      assert forall k :: 0 <= k < |front| ==> front[k] == parts[k];
      ConcatBars(front);
      AppendCount(Concat(front), parts[|parts| - 1], '|');
    }
  }

  lemma SegmentBars(row: seq<string>, j: nat)
    requires j < |row| ==> '|' !in row[j]
    ensures multiset(Segment(row, j))['|'] == 1
  {
    if j < |row| {
      var x := row[j];
      assert multiset(x)['|'] == 0;
      assert "| " + x + " " == ['|'] + ([' '] + x + [' ']);
      assert multiset([' '] + x + [' '])['|'] == 0;
    } else {
      assert "|  " == ['|'] + [' ', ' '];
    }
  }

  lemma LineEndBars()
    ensures multiset("|\n")['|'] == 1
  {
    assert "|\n" == ['|'] + ['\n'];
  }

  /** Every row line has `maxCols + 1` bars, however short the row, as long
      as no cell text holds a bar itself. */
  lemma RowLineBars(row: seq<string>, maxCols: nat)
    requires forall k :: 0 <= k < |row| ==> '|' !in row[k]
    ensures multiset(RowLine(row, maxCols))['|'] == maxCols + 1
  {
    var segs := Segments(row, maxCols);
    forall k | 0 <= k < |segs|
      ensures multiset(segs[k])['|'] == 1
    {
      SegmentBars(row, k);
    }
    ConcatBars(segs);
    LineEndBars();
    AppendCount(Concat(segs), "|\n", '|');
  }

  /** The separator line has `maxCols + 1` bars as well. */
  lemma SeparatorLineBars(maxCols: nat)
    ensures multiset(SeparatorLine(maxCols))['|'] == maxCols + 1
  {
    var d := seq(maxCols, _ => "|---");
    assert "|---" == ['|'] + ['-', '-', '-'];
    ConcatBars(d);
    LineEndBars();
    AppendCount(Concat(d), "|\n", '|');
  }

  /** A row line is never taken for the separator line: its second
      character is the space after the first bar. */
  lemma RowLineIsNotSeparator(row: seq<string>, maxCols: nat)
    requires maxCols > 0
    ensures RowLine(row, maxCols) != SeparatorLine(maxCols)
  {
    var segs := Segments(row, maxCols);
    var d := seq(maxCols, _ => "|---");
    ConcatAppend([segs[0]], segs[1..]);
    assert [segs[0]] + segs[1..] == segs;
    ConcatOne(segs[0]);
    ConcatAppend([d[0]], d[1..]);
    assert [d[0]] + d[1..] == d;
    ConcatOne(d[0]);
    assert RowLine(row, maxCols)[1] == segs[0][1] == ' ';
    assert SeparatorLine(maxCols)[1] == d[0][1] == '-';
  }
}
