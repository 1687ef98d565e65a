/** Rendering of a two-level value as one string. */
module Help {
  import opened Strings
  import opened Properties

  /** The separator a new row starts with: ";" only once something was written. */
  function RowStart(acc: string): string {
    if |acc| > 0 then acc + ";" else acc
  }

  /** One column: appended after "," once something was written, otherwise it
      becomes the whole accumulator. */
  function ColumnStep(acc: string, col: string): string {
    if |acc| > 0 then acc + "," + col else col
  }

  function Row(acc: string, cols: seq<string>): string {
    if cols == [] then acc else ColumnStep(Row(acc, cols[..|cols| - 1]), cols[|cols| - 1])
  }

  /** The text MatrixToString builds, one row after another. */
  function Matrix(vals: seq<seq<string>>): string {
    if vals == [] then "" else Row(RowStart(Matrix(vals[..|vals| - 1])), vals[|vals| - 1])
  }

  /** MatrixToString: the nested loop that accumulates `end`. */
  method MatrixToString(vals: seq<seq<string>>) returns (end: string)
    ensures end == Matrix(vals)
  {
    end := "";
    var i := 0;
    while i < |vals|
      invariant 0 <= i <= |vals|
      invariant end == Matrix(vals[..i])
    {
      var line := vals[i];
      if |end| > 0 {
        end := end + ";";
      }
      end := AppendColumns(end, line);
      MatrixPrefix(vals, i);
      i := i + 1;
    }
    assert vals[..i] == vals;
  }

  /** The inner loop of MatrixToString over one row. */
  method AppendColumns(start: string, line: seq<string>) returns (end: string)
    ensures end == Row(start, line)
  {
    end := start;
    var j := 0;
    while j < |line|
      invariant 0 <= j <= |line|
      invariant end == Row(start, line[..j])
    {
      var col := line[j];
      RowPrefix(start, line, j);
      if |end| > 0 {
        end := end + "," + col;
      } else {
        end := col;
      }
      j := j + 1;
    }
    assert line[..j] == line;
  }

  lemma RowPrefix(acc: string, cols: seq<string>, j: nat)
    requires j < |cols|
    ensures Row(acc, cols[..j + 1]) == ColumnStep(Row(acc, cols[..j]), cols[j])
  {
    assert cols[..j + 1][..j] == cols[..j];
  }

  lemma MatrixPrefix(vals: seq<seq<string>>, i: nat)
    requires i < |vals|
    ensures Matrix(vals[..i + 1]) == Row(RowStart(Matrix(vals[..i])), vals[i])
  {
    assert vals[..i + 1][..i] == vals[..i];
  }

  /** Every column after the first contributes "," and itself. */
  function Tail(cols: seq<string>): string {
    if cols == [] then "" else Tail(cols[..|cols| - 1]) + "," + cols[|cols| - 1]
  }

  /** Every later row contributes ";" and then its columns as in Tail. */
  function LaterRows(rows: seq<seq<string>>): string {
    if rows == [] then "" else LaterRows(rows[..|rows| - 1]) + ";" + Tail(rows[|rows| - 1])
  }

  lemma {:induction false} RowOnNonEmpty(acc: string, cols: seq<string>)
    requires acc != ""
    ensures Row(acc, cols) == acc + Tail(cols)
  {
    if cols != [] {
      RowOnNonEmpty(acc, cols[..|cols| - 1]);
    }
  }

  /** Once the very first entry is non-empty, every later column is written
      as "," and the column, and every later row as ";" and its columns;
      so `[["a"], ["b"]]` gives "a;,b". */
  lemma {:induction false} MatrixWithLeadingText(vals: seq<seq<string>>)
    requires |vals| > 0 && |vals[0]| > 0 && vals[0][0] != ""
    ensures Matrix(vals) == vals[0][0] + Tail(vals[0][1..]) + LaterRows(vals[1..])
  {
    var n := |vals| - 1;
    if n == 0 {
      assert Matrix(vals) == Row("", vals[0]) by {
        assert vals[..0] == [];
      }
      RowFirstColumn(vals[0]);
      assert vals[1..] == [];
    } else {
      var init := vals[..n];
      MatrixWithLeadingText(init);
      assert init[0] == vals[0];
      assert init[1..] == vals[1..][..n - 1];
      var h := vals[0][0] + Tail(vals[0][1..]);
      var l := LaterRows(init[1..]);
      var acc := Matrix(init);
      assert |acc| > 0;
      assert vals[..n] == init && vals[1..][n - 1] == vals[n];
      RowOnNonEmpty(acc + ";", vals[n]);
      Assoc(h, l, ";");
      Assoc(h, l + ";", Tail(vals[n]));
    }
  }

  /** A row written onto an empty accumulator whose first column is
      non-empty: that column, then "," and each later column. */
  lemma {:induction false} RowFirstColumn(cols: seq<string>)
    requires |cols| > 0 && cols[0] != ""
    ensures Row("", cols) == cols[0] + Tail(cols[1..])
  {
    var n := |cols| - 1;
    if n > 0 {
      RowFirstColumn(cols[..n]);
      assert cols[..n][1..] == cols[1..][..n - 1];
    }
  }

  /** A single row whose first entry is non-empty gives its entries joined by ",". */
  lemma {:induction false} SingleRowJoins(cols: seq<string>)
    requires |cols| > 0 && cols[0] != ""
    ensures Matrix([cols]) == Join(cols)
  {
    MatrixWithLeadingText([cols]);
    TailJoin(cols);
  }

  lemma {:induction false} TailJoin(cols: seq<string>)
    requires |cols| > 0
    ensures cols[0] + Tail(cols[1..]) == Join(cols)
  {
    var n := |cols| - 1;
    if n > 0 {
      TailJoin(cols[..n]);
      assert cols[..n][1..] == cols[1..][..n - 1];
    }
  }

  /** Two one-column rows: the second column keeps its "," after the ";". */
  lemma TwoRowsQuirk(a: string, b: string)
    requires a != ""
    ensures Matrix([[a], [b]]) == a + ";," + b
  {
    MatrixWithLeadingText([[a], [b]]);
    assert [[a], [b]][1..] == [[b]];
    assert [a][1..] == [];
    assert [[b]][..0] == [] && [b][..0] == [];
  }

  /** The empty matrix and `[[s]]`. */
  lemma MatrixSmall(s: string)
    ensures Matrix([]) == ""
    ensures Matrix([[s]]) == s
  {
    assert [[s]][..0] == [];
    assert [s][..0] == [];
    assert Row("", [s]) == ColumnStep(Row("", []), s);
  }

  /** While nothing has been written, empty entries add no separators: a
      matrix of empty strings gives "". */
  lemma {:induction false} EmptyEntriesVanish(vals: seq<seq<string>>)
    requires forall i, j :: 0 <= i < |vals| && 0 <= j < |vals[i]| ==> vals[i][j] == ""
    ensures Matrix(vals) == ""
  {
    if vals != [] {
      var n := |vals| - 1;
      EmptyEntriesVanish(vals[..n]);
      EmptyRowVanishes(vals[n]);
    }
  }

  lemma {:induction false} EmptyRowVanishes(cols: seq<string>)
    requires forall j :: 0 <= j < |cols| ==> cols[j] == ""
    ensures Row("", cols) == ""
  {
    if cols != [] {
      EmptyRowVanishes(cols[..|cols| - 1]);
    }
  }
}
