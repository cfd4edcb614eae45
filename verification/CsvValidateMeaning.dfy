/** What the validation report says, counted in the table itself. */
module CsvValidateMeaning {
  import opened Text
  import opened CsvValidate

  /** How many leading rows are the header. */
  function HeaderRows(hasHeader: bool, table: seq<Row>): nat {
    if hasHeader && table != [] then 1 else 0
  }

  predicate WhiteRow(row: Row) {
    forall c :: 0 <= c < |row| ==> AllSpace(row[c])
  }

  /** The places, as row and column of the body, of white cells under columns of a name. */
  function WhiteCells(columns: seq<string>, body: seq<Row>, name: string): set<(nat, nat)> {
    set j: nat, c: nat | j < |body| && c < |body[j]| && c < |columns| && columns[c] == name && AllSpace(body[j][c]) :: (j, c)
  }

  function WhiteRows(body: seq<Row>): set<nat> {
    set j: nat | j < |body| && WhiteRow(body[j])
  }

  function InconsistentNumbers(hasHeader: bool, table: seq<Row>): set<nat> {
    set number: nat | 1 <= number <= |table| && IsInconsistent(hasHeader, table, number)
  }

  /** The length of the first row that has cells, if one has. */
  ghost predicate IsWidth(table: seq<Row>, width: nat) {
    if forall k :: 0 <= k < |table| ==> table[k] == [] then width == 0
    else exists k :: 0 <= k < |table| && table[k] != [] && width == |table[k]| && forall j :: 0 <= j < k ==> table[j] == []
  }

  lemma {:induction false} WidthMeans(table: seq<Row>)
    ensures IsWidth(table, Width(table))
  {
    if table != [] {
      var front, last := table[..|table| - 1], table[|table| - 1];
      WidthMeans(front);
      assert forall k :: 0 <= k < |front| ==> front[k] == table[k];
      if forall k :: 0 <= k < |front| ==> front[k] == [] {
        assert table[|front|] == last;
      } else {
        var k :| 0 <= k < |front| && front[k] != [] && Width(front) == |front[k]| && forall j :: 0 <= j < k ==> front[j] == [];
        assert table[k] == front[k];
      }
    }
  }

  function Members(xs: seq<nat>): set<nat> {
    set x | x in xs
  }

  lemma {:induction false} AscendingCount(xs: seq<nat>)
    requires Increasing(xs)
    ensures |Members(xs)| == |xs|
  {
    if xs != [] {
      var front, last := xs[..|xs| - 1], xs[|xs| - 1];
      AscendingCount(front);
      assert xs == front + [last];
      MembersSnoc(front, last);
    }
  }

  lemma MembersSnoc(front: seq<nat>, last: nat)
    requires last !in front
    ensures |Members(front + [last])| == |Members(front)| + 1
  {
    assert (front + [last])[|front|] == last;
    assert forall i :: 0 <= i < |front| ==> (front + [last])[i] == front[i];
    assert Members(front + [last]) == Members(front) + {last};
  }

  lemma InconsistentMeans(hasHeader: bool, table: seq<Row>)
    ensures |Inconsistent(hasHeader, table)| == |InconsistentNumbers(hasHeader, table)|
  {
    var bad := Inconsistent(hasHeader, table);
    InconsistentAreListed(hasHeader, table);
    AscendingCount(bad);
    assert Members(bad) == InconsistentNumbers(hasHeader, table);
  }

  lemma WhiteIsBlank(row: Row)
    ensures AllBlank(row) <==> WhiteRow(row)
    ensures forall c :: 0 <= c < |row| ==> (BlankCell(row[c]) <==> AllSpace(row[c]))
  {
    forall c | 0 <= c < |row|
      ensures BlankCell(row[c]) <==> AllSpace(row[c])
    {
      TrimmedIs(row[c]);
    }
  }

  lemma {:induction false} EmptyRowsMeans(body: seq<Row>)
    ensures EmptyCount(body) == |WhiteRows(body)|
  {
    if body == [] {
      assert WhiteRows(body) == {};
    } else {
      var front, last := body[..|body| - 1], body[|body| - 1];
      EmptyRowsMeans(front);
      WhiteIsBlank(last);
      assert |front| !in WhiteRows(front);
      assert forall j :: 0 <= j < |front| ==> front[j] == body[j];
      assert WhiteRows(body) == WhiteRows(front) + if WhiteRow(last) then {|front|} else {};
    }
  }

  /** The white cells of one row, which stands at position `j`. */
  function RowCells(columns: seq<string>, row: Row, name: string, j: nat, n: nat): set<(nat, nat)> {
    set c: nat | c < n && c < |row| && c < |columns| && columns[c] == name && AllSpace(row[c]) :: (j, c)
  }

  lemma {:induction false} RowMeans(columns: seq<string>, row: Row, name: string, j: nat, n: nat)
    requires n <= |row|
    ensures BlanksUpTo(columns, row, name, n) == |RowCells(columns, row, name, j, n)|
  {
    if n == 0 {
      assert RowCells(columns, row, name, j, n) == {};
    } else {
      RowMeans(columns, row, name, j, n - 1);
      TrimmedIs(row[n - 1]);
      RowCellsNext(columns, row, name, j, n - 1);
    }
  }

  lemma RowCellsNext(columns: seq<string>, row: Row, name: string, j: nat, n: nat)
    requires n < |row|
    ensures var before := RowCells(columns, row, name, j, n);
            && (j, n) !in before
            && RowCells(columns, row, name, j, n + 1)
               == if n < |columns| && columns[n] == name && AllSpace(row[n]) then before + {(j, n)} else before
  {
  }

  lemma WhiteCellsSnoc(columns: seq<string>, front: seq<Row>, last: Row, name: string)
    ensures var here := RowCells(columns, last, name, |front|, |last|);
            && WhiteCells(columns, front + [last], name) == WhiteCells(columns, front, name) + here
            && WhiteCells(columns, front, name) !! here
  {
    var all := front + [last];
    assert forall j :: 0 <= j < |front| ==> all[j] == front[j];
    forall p: (nat, nat)
      ensures p in WhiteCells(columns, all, name) <==>
        p in WhiteCells(columns, front, name) || p in RowCells(columns, last, name, |front|, |last|)
    {
    }
  }

  lemma {:induction false} ColumnMeans(columns: seq<string>, body: seq<Row>, name: string)
    ensures BlankCount(columns, body, name) == |WhiteCells(columns, body, name)|
  {
    if body == [] {
      assert WhiteCells(columns, body, name) == {};
    } else {
      var front, last := body[..|body| - 1], body[|body| - 1];
      ColumnMeans(columns, front, name);
      assert front + [last] == body;
      WhiteCellsSnoc(columns, front, last, name);
      RowMeans(columns, last, name, |front|, |last|);
    }
  }

  /**
   * The report, counted in the table: body rows, the header's names trimmed, the width, the rows of another
   * length, the body rows with nothing but white space, and for every name the white cells under it.
   */
  lemma ReportMeans(hasHeader: bool, table: seq<Row>)
    ensures var r, h := ReportOf(hasHeader, table), HeaderRows(hasHeader, table);
            && r.rows == |table| - h
            && |r.columns| == (if h == 1 then |table[0]| else 0)
            && (forall c :: 0 <= c < |r.columns| ==> IsTrimmed(table[0][c], r.columns[c]))
            && IsWidth(table, r.columnCount)
            && r.inconsistentRows == |InconsistentNumbers(hasHeader, table)|
            && r.emptyRows == |WhiteRows(table[h..])|
            && r.emptyByColumn.Keys == (set name | name in r.columns)
            && forall name :: name in r.columns ==> r.emptyByColumn[name] == |WhiteCells(r.columns, table[h..], name)|
  {
    var columns, body := Header(hasHeader, table), Body(hasHeader, table);
    assert table[HeaderRows(hasHeader, table)..] == body;
    forall c | 0 <= c < |columns|
      ensures IsTrimmed(table[0][c], columns[c])
    {
      TrimmedIs(table[0][c]);
    }
    WidthMeans(table);
    InconsistentMeans(hasHeader, table);
    EmptyRowsMeans(body);
    forall name | name in columns
      ensures BlankCount(columns, body, name) == |WhiteCells(columns, body, name)|
    {
      ColumnMeans(columns, body, name);
    }
  }
}
