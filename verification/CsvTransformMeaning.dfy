/** What the reshaper's output and failures mean, in terms of the input rows and the options alone. */
module CsvTransformMeaning {
  import opened Wrappers
  import opened Text
  import opened CsvTransform

  predicate Wanted(o: Options, header: seq<string>, name: string) {
    name in header && (o.columns == [] || name in o.columns)
  }

  /** A cell of the input row, empty if the row has no such property. */
  function InputCell(row: Row, name: string): string
    requires row.Record?
  {
    if name in row.value then row.value[name] else ""
  }

  /** An output cell: the input cell as it was, or with `trim` on without the white space at its ends. */
  ghost predicate CellFrom(trim: bool, cell: string, output: string) {
    if trim then IsTrimmed(cell, output) else output == cell
  }

  predicate NoRepeats(names: seq<string>) {
    forall i, k :: 0 <= i < k < |names| ==> names[i] != names[k]
  }

  /** A row comes out as it went in if it has no names, and else with each wanted column once. */
  ghost predicate RowFrom(o: Options, header: seq<string>, row: Row, output: Row) {
    if row.Cells? then output == row
    else
      && output.Record?
      && NoRepeats(output.keys) && (forall name :: name in output.keys <==> Wanted(o, header, name))
      && output.value.Keys == (set name | name in output.keys)
      && forall name :: name in output.keys ==> CellFrom(o.trim, InputCell(row, name), output.value[name])
  }

  /** Dropped: an option says so, and every wanted cell is empty, or with `trim` on nothing but white space. */
  ghost predicate Droppable(o: Options, header: seq<string>, row: Row) {
    && o.dropEmptyRows && row.Record?
    && forall name :: Wanted(o, header, name) ==>
         if o.trim then AllSpace(InputCell(row, name)) else InputCell(row, name) == ""
  }

  lemma CellMeans(o: Options, row: Row, name: string)
    requires row.Record?
    ensures var cell := InputCell(row, name);
            && CellFrom(o.trim, cell, CellOf(o, row.value, name))
            && (CellOf(o, row.value, name) == "" <==> if o.trim then AllSpace(cell) else cell == "")
  {
    TrimmedIs(InputCell(row, name));
  }

  lemma {:induction false} DistinctHasNoRepeats(names: seq<string>)
    ensures NoRepeats(Distinct(names)) && (NoRepeats(names) ==> Distinct(names) == names)
  {
    if names != [] {
      var front, last := names[..|names| - 1], names[|names| - 1];
      DistinctHasNoRepeats(front);
      DistinctProperties(front);
      assert names == front + [last];
      NoRepeatsSnoc(Distinct(front), last);
      NoRepeatsSnoc(front, last);
    }
  }

  lemma NoRepeatsSnoc(names: seq<string>, last: string)
    ensures NoRepeats(names + [last]) <==> NoRepeats(names) && last !in names
  {
    var all := names + [last];
    assert forall i :: 0 <= i < |names| ==> all[i] == names[i];
    if last in names {
      var i :| 0 <= i < |names| && names[i] == last;
      assert all[i] == all[|names|];
    }
  }

  /** The columns kept are the wanted ones, and in the order asked for when all of them exist. */
  lemma ResolveMeans(o: Options, header: seq<string>)
    ensures forall name :: name in Resolve(o, header) <==> Wanted(o, header, name)
    ensures o.columns == [] || (forall name :: name in o.columns ==> name in header) ==>
              Resolve(o, header) == if o.columns == [] then header else o.columns
    ensures NoRepeats(Resolve(o, header)) ==> Distinct(Resolve(o, header)) == Resolve(o, header)
  {
    FilterInProperties(o.columns, header);
    DistinctHasNoRepeats(Resolve(o, header));
  }

  lemma ReshapeMeans(o: Options, header: seq<string>, row: Row)
    ensures RowFrom(o, header, row, Reshape(o, Resolve(o, header), row))
  {
    ResolveMeans(o, header);
    if row.Record? {
      var selected := Resolve(o, header);
      DistinctProperties(selected);
      DistinctHasNoRepeats(selected);
      forall name | name in selected
        ensures CellFrom(o.trim, InputCell(row, name), Project(o, selected, row.value)[name])
      {
        CellMeans(o, row, name);
      }
    }
  }

  lemma KeepsMeans(o: Options, header: seq<string>, row: Row)
    ensures Keeps(o, Resolve(o, header), row) <==> !Droppable(o, header, row)
  {
    ResolveMeans(o, header);
    if row.Record? {
      forall name
        ensures CellOf(o, row.value, name) == "" <==>
          if o.trim then AllSpace(InputCell(row, name)) else InputCell(row, name) == ""
      {
        CellMeans(o, row, name);
      }
    }
  }

  /** Where each output row comes from: strictly increasing positions, exactly those of the rows not dropped. */
  ghost predicate Origins(o: Options, header: seq<string>, rows: seq<Row>, out: seq<Row>, from: seq<nat>) {
    && |from| == |out|
    && (forall i, k :: 0 <= i < k < |from| ==> from[i] < from[k])
    && (forall i :: 0 <= i < |from| ==> from[i] < |rows| && RowFrom(o, header, rows[from[i]], out[i]))
    && (forall j :: 0 <= j < |rows| ==> (j in from <==> !Droppable(o, header, rows[j])))
  }

  lemma {:induction false} TransformedComesFrom(o: Options, header: seq<string>, rows: seq<Row>) returns (from: seq<nat>)
    ensures Origins(o, header, rows, Transformed(o, Resolve(o, header), rows), from)
  {
    from := [];
    if rows != [] {
      var front, last := rows[..|rows| - 1], rows[|rows| - 1];
      from := TransformedComesFrom(o, header, front);
      KeepsMeans(o, header, last);
      if !Droppable(o, header, last) {
        ReshapeMeans(o, header, last);
        from := from + [|front|];
      } else {
        DroppedOrigin(o, header, front, last, Transformed(o, Resolve(o, header), front), from);
      }
      assert front + [last] == rows;
    }
  }

  lemma DroppedOrigin(o: Options, header: seq<string>, rows: seq<Row>, row: Row, out: seq<Row>, from: seq<nat>)
    requires Origins(o, header, rows, out, from) && Droppable(o, header, row)
    ensures Origins(o, header, rows + [row], out, from)
  {
    var all := rows + [row];
    forall j | 0 <= j < |all|
      ensures j in from <==> !Droppable(o, header, all[j])
    {
      if j < |rows| {
        assert j in from <==> !Droppable(o, header, rows[j]);
      }
    }
  }

  /**
   * Every row the machine emits comes from one input row, in order and with its cells trimmed exactly if the
   * option is set; every processed row that does not come out is droppable, and the counters say how many.
   */
  lemma OutputComesFromInput(o: Options, header: seq<string>, limit: nat, rows: seq<Row>) returns (from: seq<nat>)
    requires Uniform(rows, header)
    ensures var m := Run(o, limit, rows);
            && Origins(o, header, rows[..Processed(o, header, limit, rows)], m.out, from)
            && m.kept == |from| && m.dropped == Processed(o, header, limit, rows) - |from|
  {
    StreamsTheTable(o, header, limit, rows);
    from := TransformedComesFrom(o, header, rows[..Processed(o, header, limit, rows)]);
  }

  /** None of the requested columns exists, and a record says so before the limit is passed. */
  predicate NoneExist(o: Options, header: seq<string>, limit: nat, rows: seq<Row>) {
    && o.columns != [] && (forall name :: name in o.columns ==> name !in header)
    && exists i :: 0 <= i < |rows| && i < limit && rows[i].Record?
  }

  /** Exactly when the transformation fails, which way, and after how many rows. */
  lemma FailsExactly(o: Options, header: seq<string>, limit: nat, rows: seq<Row>)
    requires Uniform(rows, header)
    ensures var m, n := Run(o, limit, rows), Processed(o, header, limit, rows);
            && (m.failure == Some(NoSuchColumns) <==> NoneExist(o, header, limit, rows))
            && (m.failure == Some(TooManyRows) <==> |rows| > limit && !NoneExist(o, header, limit, rows))
            && (m.failure.None? ==> n == |rows|)
            && (m.failure == Some(TooManyRows) ==> n == limit)
            && (m.failure == Some(NoSuchColumns) ==>
                  n < |rows| && rows[n].Record? && forall i :: 0 <= i < n ==> rows[i].Cells?)
  {
    StreamsTheTable(o, header, limit, rows);
    FilterInProperties(o.columns, header);
    var n := Processed(o, header, limit, rows);
    NothingResolved(o, header);
    if i :| 0 <= i < |rows| && i < limit && rows[i].Record? {
      assert i < n ==> FailureAt(o, header, limit, rows, i).None?;
    }
    if n < |rows| {
      assert FailureAt(o, header, limit, rows, n).Some?;
    }
    forall i | 0 <= i < n
      ensures i < limit && (NoneExist(o, header, limit, rows) ==> rows[i].Cells?)
    {
      assert FailureAt(o, header, limit, rows, i).None?;
    }
  }

  lemma NothingResolved(o: Options, header: seq<string>)
    ensures o.columns != [] ==> (Resolve(o, header) == [] <==> forall name :: name in o.columns ==> name !in header)
  {
    ResolveMeans(o, header);
    var r := Resolve(o, header);
    if r != [] {
      assert r[0] in r;
    }
    forall name | name in o.columns
      ensures name in r <==> name in header
    {
      assert name in r <==> Wanted(o, header, name);
    }
  }
}
