/** `transformCsv`: the one-row-at-a-time reshaper, and the whole-table transformation it streams. */
module CsvTransform {
  import opened Wrappers
  import opened Text

  /** With a header a row is a record, `keys` being its property names in order; without, a list of cells. */
  datatype Row = Record(keys: seq<string>, value: map<string, string>) | Cells(cells: seq<string>)

  datatype Options = Options(columns: seq<string>, trim: bool, dropEmptyRows: bool)

  datatype Failure = TooManyRows | NoSuchColumns

  function FilterIn(names: seq<string>, available: seq<string>): seq<string> {
    if names == [] then []
    else FilterIn(names[..|names| - 1], available)
         + if names[|names| - 1] in available then [names[|names| - 1]] else []
  }

  /** The columns to keep, given a record's property names. */
  function Resolve(o: Options, keys: seq<string>): seq<string> {
    if |o.columns| > 0 then FilterIn(o.columns, keys) else keys
  }

  function CellOf(o: Options, value: map<string, string>, name: string): string {
    var cell := if name in value then value[name] else "";
    if o.trim then Trim(cell) else cell
  }

  function Project(o: Options, selected: seq<string>, value: map<string, string>): map<string, string> {
    map name | name in selected :: CellOf(o, value, name)
  }

  predicate Blank(o: Options, selected: seq<string>, value: map<string, string>) {
    forall name :: name in selected ==> CellOf(o, value, name) == ""
  }

  /** Property names of an object assigned in this order: first assignments only. */
  function Distinct(names: seq<string>): seq<string> {
    if names == [] then []
    else
      var front := Distinct(names[..|names| - 1]);
      if names[|names| - 1] in front then front else front + [names[|names| - 1]]
  }

  // The transformation of a whole table, stated without counters or state.

  predicate Keeps(o: Options, selected: seq<string>, row: Row) {
    row.Cells? || !o.dropEmptyRows || !Blank(o, selected, row.value)
  }

  function Reshape(o: Options, selected: seq<string>, row: Row): Row {
    if row.Cells? then row else Record(Distinct(selected), Project(o, selected, row.value))
  }

  function Transformed(o: Options, selected: seq<string>, rows: seq<Row>): seq<Row> {
    if rows == [] then []
    else
      var last := rows[|rows| - 1];
      Transformed(o, selected, rows[..|rows| - 1])
      + if Keeps(o, selected, last) then [Reshape(o, selected, last)] else []
  }

  /** Whether the row at position `i` cannot be processed, and why. */
  function FailureAt(o: Options, header: seq<string>, limit: nat, rows: seq<Row>, i: nat): Option<Failure>
    requires i < |rows|
  {
    if i >= limit then Some(TooManyRows)
    else if rows[i].Record? && |o.columns| > 0 && Resolve(o, header) == [] then Some(NoSuchColumns)
    else None
  }

  /** Rows processed before the first failure, or all of them. */
  function Processed(o: Options, header: seq<string>, limit: nat, rows: seq<Row>): (n: nat)
    ensures n <= |rows|
    ensures forall i :: 0 <= i < n ==> FailureAt(o, header, limit, rows, i).None?
    ensures n < |rows| ==> FailureAt(o, header, limit, rows, n).Some?
  {
    ProcessedFrom(o, header, limit, rows, 0)
  }

  function ProcessedFrom(o: Options, header: seq<string>, limit: nat, rows: seq<Row>, from: nat): (n: nat)
    requires from <= |rows|
    ensures from <= n <= |rows|
    ensures forall i :: from <= i < n ==> FailureAt(o, header, limit, rows, i).None?
    ensures n < |rows| ==> FailureAt(o, header, limit, rows, n).Some?
    decreases |rows| - from
  {
    if from == |rows| || FailureAt(o, header, limit, rows, from).Some? then from
    else ProcessedFrom(o, header, limit, rows, from + 1)
  }

  // The streaming machine.

  datatype Machine = Machine(
    seen: nat, kept: nat, dropped: nat, selected: seq<string>, out: seq<Row>, failure: Option<Failure>)

  const START := Machine(0, 0, 0, [], [], None)

  function SelectFor(o: Options, m: Machine, row: Row): seq<string>
    requires row.Record?
  {
    if m.selected == [] then Resolve(o, row.keys) else m.selected
  }

  function Step(o: Options, limit: nat, m: Machine, row: Row): Machine {
    var seen := m.seen + 1;
    if m.failure.Some? then m
    else if seen > limit then m.(seen := seen, failure := Some(TooManyRows))
    else if row.Cells? then m.(seen := seen, kept := m.kept + 1, out := m.out + [row])
    else
      var selected := SelectFor(o, m, row);
      if |o.columns| > 0 && selected == [] then m.(seen := seen, selected := [], failure := Some(NoSuchColumns))
      else if o.dropEmptyRows && Blank(o, selected, row.value)
      then m.(seen := seen, selected := selected, dropped := m.dropped + 1)
      else m.(seen := seen, selected := selected, kept := m.kept + 1,
              out := m.out + [Record(Distinct(selected), Project(o, selected, row.value))])
  }

  function Run(o: Options, limit: nat, rows: seq<Row>): Machine {
    if rows == [] then START else Step(o, limit, Run(o, limit, rows[..|rows| - 1]), rows[|rows| - 1])
  }

  lemma ColumnSnoc(o: Options, selected: seq<string>, name: string, value: map<string, string>)
    ensures var more := selected + [name];
            && Project(o, more, value) == Project(o, selected, value)[name := CellOf(o, value, name)]
            && (Blank(o, more, value) <==> Blank(o, selected, value) && CellOf(o, value, name) == "")
            && Distinct(more) == if name in Distinct(selected) then Distinct(selected) else Distinct(selected) + [name]
  {
    var more := selected + [name];
    assert more[..|selected|] == selected;
    assert forall x :: x in more <==> x in selected || x == name;
  }

  class Reshaper {
    const options: Options
    const limit: nat
    var seen: nat
    var kept: nat
    var dropped: nat
    var selectedColumns: seq<string>
    var out: seq<Row>
    var failure: Option<Failure>

    ghost function Model(): Machine
      reads this
    {
      Machine(seen, kept, dropped, selectedColumns, out, failure)
    }

    constructor (options: Options, limit: nat)
      ensures this.options == options && this.limit == limit && Model() == START
    {
      this.options := options;
      this.limit := limit;
      seen, kept, dropped, selectedColumns, out, failure := 0, 0, 0, [], [], None;
    }

    /** The loop over the selected columns: the record to emit, and whether all its values are empty. */
    method Build(value: map<string, string>)
      returns (output: map<string, string>, keys: seq<string>, allEmpty: bool)
      ensures output == Project(options, selectedColumns, value)
      ensures keys == Distinct(selectedColumns)
      ensures allEmpty <==> Blank(options, selectedColumns, value)
    {
      output, keys, allEmpty := map[], [], true;
      for i := 0 to |selectedColumns|
        invariant output == Project(options, selectedColumns[..i], value)
        invariant keys == Distinct(selectedColumns[..i])
        invariant allEmpty <==> Blank(options, selectedColumns[..i], value)
      {
        var name := selectedColumns[i];
        var cell := if name in value then value[name] else "";
        var cleaned := if options.trim then Trim(cell) else cell;
        assert selectedColumns[..i + 1] == selectedColumns[..i] + [name];
        ColumnSnoc(options, selectedColumns[..i], name, value);
        if cleaned != "" {
          allEmpty := false;
        }
        keys := if name in keys then keys else keys + [name];
        output := output[name := cleaned];
      }
      assert selectedColumns[..|selectedColumns|] == selectedColumns;
    }

    method Transform(row: Row)
      requires failure.None?
      modifies this
      ensures Model() == Step(options, limit, old(Model()), row)
    {
      seen := seen + 1;
      if seen > limit {
        failure := Some(TooManyRows);
        return;
      }
      if row.Cells? {
        kept := kept + 1;
        out := out + [row];
        return;
      }
      if |selectedColumns| == 0 {
        selectedColumns := if |options.columns| > 0 then FilterIn(options.columns, row.keys) else row.keys;
        if |options.columns| > 0 && |selectedColumns| == 0 {
          failure := Some(NoSuchColumns);
          return;
        }
      }
      var output, keys, allEmpty := Build(row.value);
      if options.dropEmptyRows && allEmpty {
        dropped := dropped + 1;
        return;
      }
      kept := kept + 1;
      out := out + [Record(keys, output)];
    }

    /** The pipeline: rows are fed until one fails. */
    method Consume(rows: seq<Row>)
      requires Model() == START
      modifies this
      ensures Model() == Run(options, limit, rows)
    {
      for i := 0 to |rows|
        invariant Model() == Run(options, limit, rows[..i])
      {
        assert rows[..i + 1][..i] == rows[..i];
        if failure.None? {
          Transform(rows[i]);
        }
      }
      assert rows[..|rows|] == rows;
    }
  }

  /** Records of one file all have the header's names; bare rows have none. */
  predicate Uniform(rows: seq<Row>, header: seq<string>) {
    forall i :: 0 <= i < |rows| && rows[i].Record? ==> rows[i].keys == header
  }

  predicate AnyRecord(rows: seq<Row>) {
    exists i :: 0 <= i < |rows| && rows[i].Record?
  }

  lemma {:induction false} ProcessedPrefix(o: Options, header: seq<string>, limit: nat, rows: seq<Row>)
    requires rows != []
    ensures var front := rows[..|rows| - 1];
            var n := Processed(o, header, limit, front);
            Processed(o, header, limit, rows) ==
              if n < |front| || FailureAt(o, header, limit, rows, |front|).Some? then n else |rows|
  {
    var front := rows[..|rows| - 1];
    var n, m := Processed(o, header, limit, front), Processed(o, header, limit, rows);
    assert forall i :: 0 <= i < |front| ==> FailureAt(o, header, limit, front, i) == FailureAt(o, header, limit, rows, i);
    if n < |front| {
      assert FailureAt(o, header, limit, rows, n).Some?;
    }
  }

  /**
   * Refinement: the machine emits the transformation of the rows before the first failure, counts them
   * exactly, and fails exactly where the limit is passed or the first record shows no requested column.
   */
  lemma {:induction false} StreamsTheTable(o: Options, header: seq<string>, limit: nat, rows: seq<Row>)
    requires Uniform(rows, header)
    ensures var m := Run(o, limit, rows);
            var n := Processed(o, header, limit, rows);
            && m.out == Transformed(o, Resolve(o, header), rows[..n])
            && m.kept == |m.out| && m.kept + m.dropped == n
            && m.seen == (if n < |rows| then n + 1 else n)
            && m.failure == (if n < |rows| then FailureAt(o, header, limit, rows, n) else None)
            && m.selected == if AnyRecord(rows[..n]) then Resolve(o, header) else []
  {
    if rows != [] {
      var last := |rows| - 1;
      var front := rows[..last];
      StreamsTheTable(o, header, limit, front);
      ProcessedPrefix(o, header, limit, rows);
      var n := Processed(o, header, limit, front);
      if n < last {
        assert front[..n] == rows[..n];
      } else {
        assert front[..n] == rows[..n] == front;
        NextRowStreams(o, header, limit, rows);
      }
    }
  }

  /** One more row of a table whose rows so far have all been processed. */
  lemma NextRowStreams(o: Options, header: seq<string>, limit: nat, rows: seq<Row>)
    requires Uniform(rows, header) && rows != []
    requires var front := rows[..|rows| - 1];
             var m := Run(o, limit, front);
             && m.failure.None? && m.out == Transformed(o, Resolve(o, header), front)
             && m.kept == |m.out| && m.kept + m.dropped == |front| == m.seen
             && m.selected == if AnyRecord(front) then Resolve(o, header) else []
    ensures var m := Run(o, limit, rows);
            var n := if FailureAt(o, header, limit, rows, |rows| - 1).Some? then |rows| - 1 else |rows|;
            && m.out == Transformed(o, Resolve(o, header), rows[..n])
            && m.kept == |m.out| && m.kept + m.dropped == n && m.seen == |rows|
            && m.failure == FailureAt(o, header, limit, rows, |rows| - 1)
            && m.selected == if AnyRecord(rows[..n]) then Resolve(o, header) else []
  {
    var last := |rows| - 1;
    assert rows[..|rows|] == rows;
    StepStreams(o, Resolve(o, header), limit, Run(o, limit, rows[..last]), rows[last]);
  }

  lemma StepStreams(o: Options, all: seq<string>, limit: nat, m: Machine, row: Row)
    requires m.failure.None? && (m.selected == [] || m.selected == all)
    requires row.Record? ==> Resolve(o, row.keys) == all
    ensures var t := Step(o, limit, m, row);
            var fails := if m.seen >= limit then Some(TooManyRows)
                         else if row.Record? && |o.columns| > 0 && all == [] then Some(NoSuchColumns) else None;
            && t.failure == fails && t.seen == m.seen + 1
            && (fails.Some? ==> t.out == m.out && t.kept == m.kept && t.dropped == m.dropped && t.selected == m.selected)
            && (fails.None? ==>
                  && t.out == m.out + (if Keeps(o, all, row) then [Reshape(o, all, row)] else [])
                  && t.kept + t.dropped == m.kept + m.dropped + 1
                  && t.kept - m.kept == |t.out| - |m.out|
                  && t.selected == if row.Record? then all else m.selected)
  {
  }

  lemma {:induction false} FilterInProperties(names: seq<string>, available: seq<string>)
    ensures forall x :: x in FilterIn(names, available) <==> x in names && x in available
    ensures (forall x :: x in names ==> x in available) ==> FilterIn(names, available) == names
  {
    if names != [] {
      var front := names[..|names| - 1];
      FilterInProperties(front, available);
      assert names == front + [names[|names| - 1]];
    }
  }

  lemma {:induction false} FilterInDepends(names: seq<string>, a: seq<string>, b: seq<string>)
    requires forall x :: x in names ==> (x in a <==> x in b)
    ensures FilterIn(names, a) == FilterIn(names, b)
  {
    if names != [] {
      FilterInDepends(names[..|names| - 1], a, b);
    }
  }

  lemma {:induction false} DistinctProperties(names: seq<string>)
    ensures forall x :: x in Distinct(names) <==> x in names
    ensures Distinct(Distinct(names)) == Distinct(names)
    ensures |Distinct(names)| <= |names|
  {
    if names != [] {
      var front, last := names[..|names| - 1], names[|names| - 1];
      DistinctProperties(front);
      assert names == front + [last];
      if last !in Distinct(front) {
        assert Distinct(names)[..|Distinct(front)|] == Distinct(front);
      }
    }
  }

  lemma CleanTwice(a: Options, b: Options, value: map<string, string>, selected: seq<string>, name: string)
    requires a.trim == b.trim && name in selected
    ensures CellOf(b, Project(a, selected, value), name) == CellOf(b, value, name)
  {
    TrimIdempotent(if name in value then value[name] else "");
  }

  /** Reshaping by columns `b` what has been reshaped by columns `a` is reshaping by `b` alone, row by row. */
  lemma RowFusion(oa: Options, a: seq<string>, ob: Options, b: seq<string>, row: Row)
    requires oa.trim == ob.trim && oa.dropEmptyRows == ob.dropEmptyRows
    requires forall x :: x in b ==> x in a
    ensures Keeps(ob, b, row) ==> Keeps(oa, a, row)
    ensures Keeps(ob, b, Reshape(oa, a, row)) <==> Keeps(ob, b, row)
    ensures Reshape(ob, b, Reshape(oa, a, row)) == Reshape(ob, b, row)
  {
    if row.Record? {
      forall name | name in b
        ensures CellOf(ob, Project(oa, a, row.value), name) == CellOf(ob, row.value, name)
      {
        CleanTwice(oa, ob, row.value, a, name);
      }
      assert Blank(ob, b, Project(oa, a, row.value)) <==> Blank(ob, b, row.value);
      assert Blank(oa, a, row.value) ==> Blank(ob, b, row.value) by {
        if Blank(oa, a, row.value) {
          forall name | name in b
            ensures CellOf(ob, row.value, name) == ""
          {
            assert name in a && CellOf(oa, row.value, name) == "";
          }
        }
      }
      assert Project(ob, b, Project(oa, a, row.value)) == Project(ob, b, row.value);
    }
  }

  lemma TransformedSnoc(o: Options, selected: seq<string>, rows: seq<Row>, row: Row)
    ensures Transformed(o, selected, rows + [row])
         == Transformed(o, selected, rows) + if Keeps(o, selected, row) then [Reshape(o, selected, row)] else []
  {
    assert (rows + [row])[..|rows|] == rows;
  }

  lemma {:induction false} TableFusion(oa: Options, a: seq<string>, ob: Options, b: seq<string>, rows: seq<Row>)
    requires oa.trim == ob.trim && oa.dropEmptyRows == ob.dropEmptyRows
    requires forall x :: x in b ==> x in a
    ensures Transformed(ob, b, Transformed(oa, a, rows)) == Transformed(ob, b, rows)
  {
    if rows != [] {
      var front, last := rows[..|rows| - 1], rows[|rows| - 1];
      TableFusion(oa, a, ob, b, front);
      RowFusion(oa, a, ob, b, last);
      if Keeps(oa, a, last) {
        TransformedSnoc(ob, b, Transformed(oa, a, front), Reshape(oa, a, last));
      } else {
        assert Transformed(oa, a, rows) == Transformed(oa, a, front);
      }
    }
  }

  lemma {:induction false} TransformedShape(o: Options, selected: seq<string>, rows: seq<Row>)
    ensures |Transformed(o, selected, rows)| <= |rows|
    ensures Uniform(Transformed(o, selected, rows), Distinct(selected))
  {
    if rows != [] {
      TransformedShape(o, selected, rows[..|rows| - 1]);
    }
  }

  /** A run that does not fail is the transformation of the whole table. */
  lemma SuccessIsWholeTable(o: Options, header: seq<string>, limit: nat, rows: seq<Row>)
    requires Uniform(rows, header)
    ensures var m := Run(o, limit, rows);
            && (m.failure.None? <==>
                  |rows| <= limit && (|o.columns| > 0 && AnyRecord(rows) ==> Resolve(o, header) != []))
            && (m.failure.None? ==> m.out == Transformed(o, Resolve(o, header), rows) && m.kept + m.dropped == m.seen == |rows|)
            && Transformed(o, Resolve(o, header), rows[..Processed(o, header, limit, rows)]) == m.out
  {
    StreamsTheTable(o, header, limit, rows);
    var n := Processed(o, header, limit, rows);
    if n == |rows| {
      assert rows[..n] == rows;
      if |rows| > 0 {
        assert FailureAt(o, header, limit, rows, |rows| - 1).None?;
      }
      if i :| 0 <= i < |rows| && rows[i].Record? {
        assert FailureAt(o, header, limit, rows, i).None?;
      }
    } else {
      assert FailureAt(o, header, limit, rows, n).Some?;
    }
  }

  /** Output written before a failure is a beginning of what the whole table would give. */
  lemma {:induction false} OutputIsPrefix(o: Options, selected: seq<string>, rows: seq<Row>, n: nat)
    requires n <= |rows|
    ensures Transformed(o, selected, rows[..n]) <= Transformed(o, selected, rows)
  {
    if n == |rows| {
      assert rows[..n] == rows;
    } else {
      var front := rows[..|rows| - 1];
      assert front[..n] == rows[..n];
      OutputIsPrefix(o, selected, front, n);
    }
  }

  /** Fusion: keeping columns A and then columns B among them is keeping B alone. */
  lemma Fusion(oa: Options, ob: Options, header: seq<string>, limit: nat, rows: seq<Row>)
    requires Uniform(rows, header) && |rows| <= limit
    requires oa.trim == ob.trim && oa.dropEmptyRows == ob.dropEmptyRows
    requires |ob.columns| > 0 && forall x :: x in ob.columns ==> x in Resolve(oa, header)
    ensures var first := Run(oa, limit, rows);
            var second := Run(ob, limit, first.out);
            var direct := Run(ob, limit, rows);
            && first.failure.None? && second.failure.None? && direct.failure.None?
            && second.out == direct.out && second.kept == direct.kept
  {
    var a := Resolve(oa, header);
    FilterInProperties(oa.columns, header);
    FilterInProperties(ob.columns, Distinct(a));
    FilterInProperties(ob.columns, header);
    DistinctProperties(a);
    assert ob.columns[0] in a;
    SuccessIsWholeTable(oa, header, limit, rows);
    SuccessIsWholeTable(ob, header, limit, rows);
    TransformedShape(oa, a, rows);
    SuccessIsWholeTable(ob, Distinct(a), limit, Transformed(oa, a, rows));
    TableFusion(oa, a, ob, ob.columns, rows);
    StreamsTheTable(ob, header, limit, rows);
    StreamsTheTable(ob, Distinct(a), limit, Transformed(oa, a, rows));
  }

  lemma {:induction false} AllKept(o: Options, a: seq<string>, b: seq<string>, rows: seq<Row>)
    requires Distinct(b) == Distinct(a) && forall x :: x in a <==> x in b
    ensures Transformed(o, b, Transformed(o, a, rows)) == Transformed(o, a, rows)
  {
    if rows != [] {
      var front, last := rows[..|rows| - 1], rows[|rows| - 1];
      AllKept(o, a, b, front);
      RowFusion(o, a, o, b, last);
      if Keeps(o, a, last) {
        TransformedSnoc(o, b, Transformed(o, a, front), Reshape(o, a, last));
        if last.Record? {
          assert Project(o, b, last.value) == Project(o, a, last.value);
          assert Blank(o, b, last.value) <==> Blank(o, a, last.value);
        }
      } else {
        assert Transformed(o, a, rows) == Transformed(o, a, front);
      }
    }
  }

  /** A second identical pass changes nothing and drops nothing. */
  lemma SecondPassIsIdentity(o: Options, header: seq<string>, limit: nat, rows: seq<Row>)
    requires Uniform(rows, header) && Run(o, limit, rows).failure.None?
    ensures var first := Run(o, limit, rows);
            var second := Run(o, limit, first.out);
            second.failure.None? && second.out == first.out && second.dropped == 0 && second.kept == |first.out|
  {
    var a := Resolve(o, header);
    var out := Run(o, limit, rows).out;
    DistinctProperties(a);
    FilterInProperties(o.columns, header);
    if |o.columns| > 0 {
      FilterInDepends(o.columns, Distinct(a), header);
    }
    SuccessIsWholeTable(o, header, limit, rows);
    TransformedShape(o, a, rows);
    RecordsStay(o, a, rows);
    var b := Resolve(o, Distinct(a));
    AllKept(o, a, b, rows);
    SuccessIsWholeTable(o, Distinct(a), limit, out);
    StreamsTheTable(o, Distinct(a), limit, out);
  }

  lemma {:induction false} RecordsStay(o: Options, selected: seq<string>, rows: seq<Row>)
    ensures AnyRecord(Transformed(o, selected, rows)) ==> AnyRecord(rows)
  {
    if rows != [] {
      RecordsStay(o, selected, rows[..|rows| - 1]);
      var out := Transformed(o, selected, rows);
      if Keeps(o, selected, rows[|rows| - 1]) {
        assert out[..|out| - 1] == Transformed(o, selected, rows[..|rows| - 1]);
      } else {
        assert out == Transformed(o, selected, rows[..|rows| - 1]);
      }
    }
  }
}
