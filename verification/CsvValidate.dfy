/** `validateCsv`: the one-pass counters, and the table-level quantities they are proved equal to. */
module CsvValidate {
  import opened Text

  const MAX_EXAMPLES := 5

  type Row = seq<string>

  datatype Report = Report(
    rows: nat,
    columns: seq<string>,
    columnCount: nat,
    inconsistentRows: nat,
    inconsistentExamples: seq<nat>,
    emptyByColumn: map<string, nat>,
    emptyRows: nat)

  predicate BlankCell(cell: string) {
    Trim(cell) == ""
  }

  // The table-level quantities. Row numbers count from one and include the header.

  function Header(hasHeader: bool, table: seq<Row>): seq<string> {
    if hasHeader && table != [] then seq(|table[0]|, i requires 0 <= i < |table[0]| => Trim(table[0][i])) else []
  }

  function Body(hasHeader: bool, table: seq<Row>): seq<Row> {
    if hasHeader && table != [] then table[1..] else table
  }

  /** The width rows are held to: that of the first row that has any cells. */
  function Width(table: seq<Row>): nat {
    if table == [] then 0
    else
      var w := Width(table[..|table| - 1]);
      if w == 0 then |table[|table| - 1]| else w
  }

  /** Numbers of the body rows whose length differs from the width as it was known when they were reached. */
  function Inconsistent(hasHeader: bool, table: seq<Row>): seq<nat> {
    if table == [] then []
    else
      var n := |table|;
      Inconsistent(hasHeader, table[..n - 1])
      + if !(hasHeader && n == 1) && |table[n - 1]| != Width(table) then [n] else []
  }

  function AllBlank(row: Row): bool {
    forall i :: 0 <= i < |row| ==> BlankCell(row[i])
  }

  /** Blank cells of a row that stand under the name; cells beyond the header or beyond the row do not exist. */
  function BlanksUnder(header: seq<string>, row: Row, name: string): nat {
    BlanksUpTo(header, row, name, |row|)
  }

  function BlanksUpTo(header: seq<string>, row: Row, name: string, n: nat): nat
    requires n <= |row|
  {
    if n == 0 then 0
    else BlanksUpTo(header, row, name, n - 1)
         + if n - 1 < |header| && header[n - 1] == name && BlankCell(row[n - 1]) then 1 else 0
  }

  function EmptyCount(rows: seq<Row>): nat {
    Total(rows, BlankRow())
  }

  function BlankRow(): Row -> nat {
    (row: Row) => if AllBlank(row) then 1 else 0
  }

  function BlankUnder(header: seq<string>, name: string): Row -> nat {
    (row: Row) => BlanksUnder(header, row, name)
  }

  function BlankCount(header: seq<string>, rows: seq<Row>, name: string): nat {
    Total(rows, BlankUnder(header, name))
  }

  /** The report of a whole table. */
  function ReportOf(hasHeader: bool, table: seq<Row>): Report {
    var header, body := Header(hasHeader, table), Body(hasHeader, table);
    var bad := Inconsistent(hasHeader, table);
    Report(|body|, header, Width(table), |bad|, Take(bad, MAX_EXAMPLES),
           map name | name in header :: BlankCount(header, body, name), EmptyCount(body))
  }

  /** The transform stream's `report` and `rowNumber`. */
  class Inspector {
    const hasHeader: bool
    const limit: nat
    var report: Report
    var rowNumber: nat
    var tooMany: bool

    constructor (hasHeader: bool, limit: nat)
      ensures this.hasHeader == hasHeader && this.limit == limit
      ensures report == ReportOf(hasHeader, []) && rowNumber == 0 && !tooMany
    {
      this.hasHeader := hasHeader;
      this.limit := limit;
      report := Report(0, [], 0, 0, [], map[], 0);
      rowNumber := 0;
      tooMany := false;
    }

    /** The loop over the cells: blank cells are booked under their column's name. */
    method CountBlanks(row: Row) returns (counts: map<string, nat>, allEmpty: bool)
      requires forall name :: name in report.emptyByColumn <==> name in report.columns
      ensures allEmpty <==> AllBlank(row)
      ensures counts == Booked(report.emptyByColumn, report.columns, row, |row|)
    {
      counts, allEmpty := report.emptyByColumn, true;
      for i := 0 to |row|
        invariant allEmpty <==> forall k :: 0 <= k < i ==> BlankCell(row[k])
        invariant counts == Booked(report.emptyByColumn, report.columns, row, i)
      {
        BookedStep(report.emptyByColumn, report.columns, row, i);
        var empty := Trim(row[i]) == "";
        ghost var before := counts;
        if !empty {
          allEmpty := false;
        }
        if i < |report.columns| && empty {
          var name := report.columns[i];
          counts := counts[name := (if name in counts then counts[name] else 0) + 1];
        }
        assert counts == BookedCell(before, report.columns, i, empty);
      }
    }

    /** The first row of a file with a header. */
    method TakeHeader(row: Row)
      requires report == ReportOf(true, [])
      modifies `report
      ensures report == ReportOf(true, [row])
    {
      NothingSeen(true);
      HeaderOnly(row);
      var columns := seq(|row|, i requires 0 <= i < |row| => Trim(row[i]));
      report := report.(columns := columns, columnCount := |row|, emptyByColumn := map name | name in columns :: 0);
    }

    /** A body row within the limit. */
    method TakeRow(row: Row)
      requires forall name :: name in report.emptyByColumn <==> name in report.columns
      modifies `report
      ensures report == AfterRow(old(report), row, rowNumber)
    {
      var columnCount := if report.columnCount == 0 then |row| else report.columnCount;
      var inconsistent := |row| != columnCount;
      var examples := report.inconsistentExamples;
      if inconsistent && |examples| < MAX_EXAMPLES {
        examples := examples + [rowNumber];
      }
      var counts, allEmpty := CountBlanks(row);
      report := Report(
        report.rows + 1, report.columns, columnCount,
        report.inconsistentRows + if inconsistent then 1 else 0, examples, counts,
        report.emptyRows + if allEmpty then 1 else 0);
    }

    method Inspect(row: Row, ghost seen: seq<Row>)
      requires !tooMany && rowNumber == |seen| && report == ReportOf(hasHeader, seen)
      requires |Body(hasHeader, seen)| <= limit
      modifies this
      ensures rowNumber == |seen| + 1
      ensures tooMany <==> |Body(hasHeader, seen + [row])| > limit
      ensures !tooMany ==> report == ReportOf(hasHeader, seen + [row])
    {
      BodySnoc(hasHeader, seen, row);
      rowNumber := rowNumber + 1;
      if rowNumber == 1 && hasHeader {
        assert seen == [] && seen + [row] == [row];
        TakeHeader(row);
        return;
      }
      ReportShape(hasHeader, seen);
      ReportSnoc(hasHeader, seen, row);
      if report.rows + 1 > limit {
        tooMany := true;
        return;
      }
      TakeRow(row);
    }

    method Consume(table: seq<Row>)
      requires report == ReportOf(hasHeader, []) && rowNumber == 0 && !tooMany
      modifies this
      ensures tooMany <==> |Body(hasHeader, table)| > limit
      ensures !tooMany ==> report == ReportOf(hasHeader, table)
    {
      ghost var seen := [];
      for i := 0 to |table|
        invariant seen == table[..i]
        invariant !tooMany ==> rowNumber == i && report == ReportOf(hasHeader, seen)
        invariant tooMany <==> |Body(hasHeader, seen)| > limit
      {
        if tooMany {
          BodyGrows(hasHeader, seen, table[i]);
        } else {
          Inspect(table[i], seen);
        }
        seen := seen + [table[i]];
      }
      assert seen == table;
    }
  }

  /** The counts after booking the first `n` cells of a row. */
  function Booked(counts: map<string, nat>, header: seq<string>, row: Row, n: nat): map<string, nat>
    requires n <= |row|
  {
    map name | name in counts :: counts[name] + BlanksUpTo(header, row, name, n)
  }

  /** One cell booked under its column's name, if it is blank and there is such a column. */
  function BookedCell(now: map<string, nat>, header: seq<string>, n: nat, blank: bool): map<string, nat> {
    if n < |header| && blank then now[header[n] := (if header[n] in now then now[header[n]] else 0) + 1] else now
  }

  lemma BookedStep(counts: map<string, nat>, header: seq<string>, row: Row, n: nat)
    requires n < |row| && forall name :: name in header ==> name in counts
    ensures Booked(counts, header, row, n + 1) == BookedCell(Booked(counts, header, row, n), header, n, BlankCell(row[n]))
  {
  }

  lemma BodySnoc(hasHeader: bool, table: seq<Row>, row: Row)
    ensures Header(hasHeader, table + [row]) == if table == [] && hasHeader then Header(true, [row]) else Header(hasHeader, table)
    ensures Body(hasHeader, table + [row]) == if table == [] && hasHeader then [] else Body(hasHeader, table) + [row]
  {
    if table == [] {
      assert table + [row] == [row];
    } else {
      assert (table + [row])[1..] == table[1..] + [row];
    }
  }

  lemma BodyGrows(hasHeader: bool, table: seq<Row>, row: Row)
    ensures |Body(hasHeader, table + [row])| >= |Body(hasHeader, table)|
  {
    BodySnoc(hasHeader, table, row);
  }

  lemma ReportShape(hasHeader: bool, table: seq<Row>)
    ensures ReportOf(hasHeader, table).rows == |Body(hasHeader, table)|
    ensures forall name :: name in ReportOf(hasHeader, table).emptyByColumn <==> name in ReportOf(hasHeader, table).columns
  {
  }

  lemma NothingSeen(hasHeader: bool)
    ensures ReportOf(hasHeader, []) == Report(0, [], 0, 0, [], map[], 0)
  {
  }

  lemma HeaderOnly(row: Row)
    ensures ReportOf(true, [row]) == Report(0, Header(true, [row]), |row|, 0, [], map name | name in Header(true, [row]) :: 0, 0)
  {
    var table := [row];
    assert table[..0] == [] && table[1..] == [];
    assert Inconsistent(true, table) == [];
    assert Width(table) == |row|;
    assert Body(true, table) == [];
  }

  lemma TotalSnoc(rows: seq<Row>, row: Row, f: Row -> nat)
    ensures Total(rows + [row], f) == Total(rows, f) + f(row)
  {
    assert (rows + [row])[..|rows|] == rows;
  }

  /** A report with one more body row taken in. */
  function AfterRow(r: Report, row: Row, number: nat): Report {
    var width := if r.columnCount == 0 then |row| else r.columnCount;
    var bad := |row| != width;
    Report(
      r.rows + 1, r.columns, width, r.inconsistentRows + (if bad then 1 else 0),
      r.inconsistentExamples + (if bad && |r.inconsistentExamples| < MAX_EXAMPLES then [number] else []),
      Booked(r.emptyByColumn, r.columns, row, |row|), r.emptyRows + if AllBlank(row) then 1 else 0)
  }

  /** One more body row, as the report of the table sees it. */
  lemma ReportSnoc(hasHeader: bool, table: seq<Row>, row: Row)
    requires !(hasHeader && table == [])
    ensures ReportOf(hasHeader, table + [row]) == AfterRow(ReportOf(hasHeader, table), row, |table| + 1)
  {
    BodySnoc(hasHeader, table, row);
    assert (table + [row])[..|table|] == table;
    var header, body := Header(hasHeader, table), Body(hasHeader, table);
    CountsSnoc(header, body, row);
  }

  lemma CountsSnoc(header: seq<string>, body: seq<Row>, row: Row)
    ensures EmptyCount(body + [row]) == EmptyCount(body) + if AllBlank(row) then 1 else 0
    ensures (map name | name in header :: BlankCount(header, body + [row], name))
         == Booked(map name | name in header :: BlankCount(header, body, name), header, row, |row|)
  {
    TotalSnoc(body, row, BlankRow());
    forall name | name in header
      ensures BlankCount(header, body + [row], name) == BlankCount(header, body, name) + BlanksUpTo(header, row, name, |row|)
    {
      TotalSnoc(body, row, BlankUnder(header, name));
    }
  }

  predicate IsInconsistent(hasHeader: bool, table: seq<Row>, number: nat) {
    && 1 <= number <= |table|
    && !(hasHeader && number == 1)
    && |table[number - 1]| != Width(table[..number])
  }

  lemma {:induction false} ListedExactly(hasHeader: bool, table: seq<Row>, number: nat)
    ensures number in Inconsistent(hasHeader, table) <==> IsInconsistent(hasHeader, table, number)
  {
    if table != [] {
      var n := |table|;
      var front := table[..n - 1];
      ListedExactly(hasHeader, front, number);
      if number < n {
        assert front[..number] == table[..number];
      }
      assert table[..n] == table;
    }
  }

  predicate Increasing(xs: seq<nat>) {
    forall i, k :: 0 <= i < k < |xs| ==> xs[i] < xs[k]
  }

  lemma {:induction false} ListedInOrder(hasHeader: bool, table: seq<Row>)
    ensures Increasing(Inconsistent(hasHeader, table))
    ensures forall i :: 0 <= i < |Inconsistent(hasHeader, table)| ==> Inconsistent(hasHeader, table)[i] <= |table|
  {
    if table != [] {
      ListedInOrder(hasHeader, table[..|table| - 1]);
    }
  }

  /** The inconsistent rows are listed once each and in order, and the examples are the first five of them. */
  lemma InconsistentAreListed(hasHeader: bool, table: seq<Row>)
    ensures var bad, examples := Inconsistent(hasHeader, table), ReportOf(hasHeader, table).inconsistentExamples;
            && (forall number :: number in bad <==> IsInconsistent(hasHeader, table, number))
            && Increasing(bad) && examples <= bad && |examples| == if |bad| < 5 then |bad| else 5
  {
    forall number: nat
      ensures number in Inconsistent(hasHeader, table) <==> IsInconsistent(hasHeader, table, number)
    {
      ListedExactly(hasHeader, table, number);
    }
    ListedInOrder(hasHeader, table);
  }

  lemma {:induction false} WidthIsFirstRow(table: seq<Row>)
    requires table != [] && |table[0]| > 0
    ensures Width(table) == |table[0]|
  {
    if |table| > 1 {
      WidthIsFirstRow(table[..|table| - 1]);
    } else {
      assert table[..0] == [];
    }
  }

  /** Once the first row has cells, a body row is inconsistent exactly when its length differs from that row's. */
  lemma InconsistentAgainstHeader(hasHeader: bool, table: seq<Row>, number: nat)
    requires table != [] && |table[0]| > 0
    ensures number in Inconsistent(hasHeader, table) <==>
      1 <= number <= |table| && !(hasHeader && number == 1) && |table[number - 1]| != |table[0]|
  {
    InconsistentAreListed(hasHeader, table);
    if 1 <= number <= |table| {
      WidthIsFirstRow(table[..number]);
    }
  }

  function Differs(width: nat): Row -> nat {
    (row: Row) => if |row| != width then 1 else 0
  }

  lemma {:induction false} InconsistentCount(header: Row, body: seq<Row>)
    requires |header| > 0
    ensures |Inconsistent(true, [header] + body)| == Total(body, Differs(|header|))
  {
    var table := [header] + body;
    if body == [] {
      assert table[..0] == [];
    } else {
      var n := |table|;
      InconsistentCount(header, body[..|body| - 1]);
      assert table[..n - 1] == [header] + body[..|body| - 1];
      WidthIsFirstRow(table);
    }
  }

  /** With a header, every counter of the body is the same whatever order the body's rows come in. */
  lemma BodyOrderDoesNotMatter(header: Row, body: seq<Row>, shuffled: seq<Row>)
    requires |header| > 0 && multiset(body) == multiset(shuffled)
    ensures var a, b := ReportOf(true, [header] + body), ReportOf(true, [header] + shuffled);
            a.(inconsistentExamples := []) == b.(inconsistentExamples := [])
            && |a.inconsistentExamples| == |b.inconsistentExamples|
  {
    var s, t := [header] + body, [header] + shuffled;
    assert s[1..] == body && t[1..] == shuffled;
    assert Header(true, s) == Header(true, t);
    InconsistentCount(header, body);
    InconsistentCount(header, shuffled);
    TotalPermuted(body, shuffled, Differs(|header|));
    TotalPermuted(body, shuffled, BlankRow());
    WidthIsFirstRow(s);
    WidthIsFirstRow(t);
    assert |body| == |multiset(body)| == |shuffled|;
    var columns := Header(true, s);
    forall name | name in columns
      ensures BlankCount(columns, body, name) == BlankCount(columns, shuffled, name)
    {
      TotalPermuted(body, shuffled, BlankUnder(columns, name));
    }
  }

  predicate BlankAt(header: seq<string>, row: Row, name: string, i: nat) {
    i < |header| && i < |row| && header[i] == name && BlankCell(row[i])
  }

  /** Columns that share a name share a count: every blank cell under a named column is booked exactly once. */
  lemma {:induction false} BlanksMerge(header: seq<string>, row: Row, name: string, n: nat)
    requires n <= |row|
    ensures BlanksUpTo(header, row, name, n) == |BlankPositions(header, row, name, n)|
  {
    if n > 0 {
      BlanksMerge(header, row, name, n - 1);
      BlankPositionsNext(header, row, name, n - 1);
    }
  }

  lemma BlankPositionsNext(header: seq<string>, row: Row, name: string, n: nat)
    requires n < |row|
    ensures var before := BlankPositions(header, row, name, n);
            && n !in before
            && BlankPositions(header, row, name, n + 1) == if BlankAt(header, row, name, n) then before + {n} else before
  {
  }

  function BlankPositions(header: seq<string>, row: Row, name: string, n: nat): set<nat> {
    set i: nat | i < n && BlankAt(header, row, name, i)
  }
}
