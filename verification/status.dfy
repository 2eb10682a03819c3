/** The shared status store of merge.py: the table `shema` with one row
    `[number, output, files]` per episode, updated by `output_info`, and
    the error list appended to by `error_info`. Rendering the table is not
    modelled; only its rows are. */
module Status {
  import opened Wrappers

  /** One table row: the episode number, its accumulated stage labels and
      its file list. */
  datatype Row = Row(ep: string, output: string, files: string)

  /** Everything the jobs share: the table and the error texts. */
  datatype Store = Store(table: seq<Row>, errors: seq<string>)

  /** The Files cell: every file followed by a newline. */
  function FilesCell(fileList: seq<string>): string {
    if |fileList| == 0 then [] else fileList[0] + "\n" + FilesCell(fileList[1..])
  }

  /** `"\n".join(labels)`. */
  function JoinLines(labels: seq<string>): string
    requires |labels| > 0
  {
    if |labels| == 1 then labels[0]
    else JoinLines(labels[..|labels| - 1]) + "\n" + labels[|labels| - 1]
  }

  predicate HasRow(table: seq<Row>, number: string) {
    exists i :: 0 <= i < |table| && table[i].ep == number
  }

  /** At most one row per episode number. */
  predicate UniqueEps(table: seq<Row>) {
    forall i, j :: 0 <= i < j < |table| ==> table[i].ep != table[j].ep
  }

  /** The first row for `number`, if any. */
  function Lookup(table: seq<Row>, number: string): (r: Option<Row>)
    ensures r.Some? <==> HasRow(table, number)
    ensures r.Some? ==> r.value.ep == number
  {
    if |table| == 0 then None
    else if table[0].ep == number then Some(table[0])
    else
      assert forall i :: 0 < i < |table| ==> table[1..][i - 1] == table[i];
      Lookup(table[1..], number)
  }

  /** In a table without duplicate numbers, `Lookup` finds the row at any
      position that carries the number. */
  lemma {:induction false} LookupFindsRow(table: seq<Row>, i: int)
    requires UniqueEps(table) && 0 <= i < |table|
    ensures Lookup(table, table[i].ep) == Some(table[i])
    decreases |table|
  {
    if i > 0 {
      assert table[0].ep != table[i].ep;
      LookupFindsRow(table[1..], i - 1);
    }
  }

  /** The loop of `output_info` over the rows: every row carrying `number`
      gets `"\n" + stage` appended to its Output cell. */
  function AppendLabel(table: seq<Row>, number: string, stage: string): (r: seq<Row>)
    ensures |r| == |table|
    ensures forall i :: 0 <= i < |table| ==>
      && r[i].ep == table[i].ep
      && r[i].files == table[i].files
      && r[i].output == if table[i].ep == number then table[i].output + "\n" + stage else table[i].output
  {
    if |table| == 0 then []
    else
      var head := if table[0].ep == number then table[0].(output := table[0].output + "\n" + stage) else table[0];
      [head] + AppendLabel(table[1..], number, stage)
  }

  /** The row update of `output_info(number, output, file_list)`. */
  function OutputInfo(table: seq<Row>, number: string, stage: string, fileList: seq<string>): (r: seq<Row>)
    ensures HasRow(table, number) ==>
      && |r| == |table|
      && forall i :: 0 <= i < |table| ==>
           && r[i].ep == table[i].ep
           && r[i].files == table[i].files
           && r[i].output == if table[i].ep == number then table[i].output + "\n" + stage else table[i].output
    ensures !HasRow(table, number) ==>
      && |r| == |table| + 1
      && r[..|table|] == table
      && r[|table|] == Row(number, stage, FilesCell(fileList))
  {
    if HasRow(table, number) then AppendLabel(table, number, stage)
    else table + [Row(number, stage, FilesCell(fileList))]
  }

  /** What the row for `number` becomes after `labels` are reported for it,
      starting from the row `prev` it had before. */
  function Updated(prev: Option<Row>, number: string, labels: seq<string>, fileList: seq<string>): Row
    requires |labels| > 0
  {
    match prev
    case None => Row(number, JoinLines(labels), FilesCell(fileList))
    case Some(row) => row.(output := row.output + "\n" + JoinLines(labels))
  }

  /** One report keeps the numbers unique, changes only the row for
      `number`, and leaves every other episode's row as it was. */
  lemma OutputInfoLookup(table: seq<Row>, number: string, stage: string, fileList: seq<string>, m: string)
    requires UniqueEps(table)
    ensures UniqueEps(OutputInfo(table, number, stage, fileList))
    ensures Lookup(OutputInfo(table, number, stage, fileList), m) ==
      if m == number then Some(Updated(Lookup(table, number), number, [stage], fileList))
      else Lookup(table, m)
  {
    var r := OutputInfo(table, number, stage, fileList);
    if HasRow(table, number) {
      var i :| 0 <= i < |table| && table[i].ep == number;
      LookupFindsRow(table, i);
      LookupFindsRow(r, i);
      if HasRow(table, m) {
        var j :| 0 <= j < |table| && table[j].ep == m;
        LookupFindsRow(table, j);
        LookupFindsRow(r, j);
      } else {
        assert !HasRow(r, m);
      }
    } else {
      LookupFindsRow(r, |table|);
      if HasRow(table, m) {
        var j :| 0 <= j < |table| && table[j].ep == m;
        LookupFindsRow(table, j);
        LookupFindsRow(r, j);
      } else if m != number {
        forall j | 0 <= j < |r|
          ensures r[j].ep != m
        {
          if j < |table| {
            assert r[j] == table[j];
          }
        }
      }
    }
  }

  /** Reporting `labels` for `number` one after another. */
  function ReportAll(table: seq<Row>, number: string, labels: seq<string>, fileList: seq<string>): seq<Row>
  {
    if |labels| == 0 then table
    else OutputInfo(ReportAll(table, number, labels[..|labels| - 1], fileList), number, labels[|labels| - 1], fileList)
  }

  /** Reports keep the episode numbers unique. */
  lemma {:induction false} ReportAllUnique(table: seq<Row>, number: string, labels: seq<string>, fileList: seq<string>)
    requires UniqueEps(table)
    ensures UniqueEps(ReportAll(table, number, labels, fileList))
    decreases |labels|
  {
    if |labels| > 0 {
      var front := labels[..|labels| - 1];
      ReportAllUnique(table, number, front, fileList);
      OutputInfoLookup(ReportAll(table, number, front, fileList), number, labels[|labels| - 1], fileList, number);
    }
  }

  /** Reports for `number` leave every other episode's row as it was. */
  lemma {:induction false} ReportAllOther(table: seq<Row>, number: string, labels: seq<string>, fileList: seq<string>, m: string)
    requires UniqueEps(table) && m != number
    ensures Lookup(ReportAll(table, number, labels, fileList), m) == Lookup(table, m)
    decreases |labels|
  {
    if |labels| > 0 {
      var front := labels[..|labels| - 1];
      ReportAllOther(table, number, front, fileList, m);
      ReportAllUnique(table, number, front, fileList);
      OutputInfoLookup(ReportAll(table, number, front, fileList), number, labels[|labels| - 1], fileList, m);
    }
  }

  /** After a run of reports for `number`, its row holds the labels joined
      by newlines in call order (after any earlier output), and a fresh row
      takes the file list of the first report. */
  lemma {:induction false} ReportAllSame(table: seq<Row>, number: string, labels: seq<string>, fileList: seq<string>)
    requires UniqueEps(table) && |labels| > 0
    ensures Lookup(ReportAll(table, number, labels, fileList), number) ==
      Some(Updated(Lookup(table, number), number, labels, fileList))
    decreases |labels|
  {
    var front := labels[..|labels| - 1];
    if |front| == 0 {
      ReportOnce(table, number, labels, fileList);
    } else {
      ReportAllSame(table, number, front, fileList);
      ReportOneMore(table, number, labels, fileList);
    }
  }

  lemma ReportOnce(table: seq<Row>, number: string, labels: seq<string>, fileList: seq<string>)
    requires UniqueEps(table) && |labels| == 1
    ensures Lookup(ReportAll(table, number, labels, fileList), number) ==
      Some(Updated(Lookup(table, number), number, labels, fileList))
  {
    assert labels[..0] == [];
    assert ReportAll(table, number, labels, fileList) == OutputInfo(table, number, labels[0], fileList);
    OutputInfoLookup(table, number, labels[0], fileList, number);
    assert labels == [labels[0]];
  }

  lemma ReportOneMore(table: seq<Row>, number: string, labels: seq<string>, fileList: seq<string>)
    requires UniqueEps(table) && |labels| > 1
    requires Lookup(ReportAll(table, number, labels[..|labels| - 1], fileList), number) ==
      Some(Updated(Lookup(table, number), number, labels[..|labels| - 1], fileList))
    ensures Lookup(ReportAll(table, number, labels, fileList), number) ==
      Some(Updated(Lookup(table, number), number, labels, fileList))
  {
    var front := labels[..|labels| - 1];
    var last := labels[|labels| - 1];
    var t := ReportAll(table, number, front, fileList);
    ReportAllUnique(table, number, front, fileList);
    OutputInfoLookup(t, number, last, fileList, number);
    UpdatedTwice(Lookup(table, number), number, labels, fileList);
  }

  /** The three facts together. */
  lemma ReportAllLookup(table: seq<Row>, number: string, labels: seq<string>, fileList: seq<string>, m: string)
    requires UniqueEps(table)
    ensures UniqueEps(ReportAll(table, number, labels, fileList))
    ensures m != number ==> Lookup(ReportAll(table, number, labels, fileList), m) == Lookup(table, m)
    ensures |labels| > 0 ==>
      Lookup(ReportAll(table, number, labels, fileList), number) == Some(Updated(Lookup(table, number), number, labels, fileList))
  {
    ReportAllUnique(table, number, labels, fileList);
    if m != number {
      ReportAllOther(table, number, labels, fileList, m);
    }
    if |labels| > 0 {
      ReportAllSame(table, number, labels, fileList);
    }
  }

  lemma UpdatedTwice(prev: Option<Row>, number: string, labels: seq<string>, fileList: seq<string>)
    requires |labels| > 1
    ensures Updated(Some(Updated(prev, number, labels[..|labels| - 1], fileList)), number, [labels[|labels| - 1]], fileList) ==
      Updated(prev, number, labels, fileList)
  {
  }

  /** Two reports for "03" leave one row holding both labels. */
  lemma TwoReportsOneRow(fileList: seq<string>)
    ensures ReportAll([], "03", ["Merge: started", "Merge: done"], fileList) ==
      [Row("03", "Merge: started\nMerge: done", FilesCell(fileList))]
  {
    var labels := ["Merge: started", "Merge: done"];
    assert labels[..1] == ["Merge: started"];
    assert labels[..1][..0] == [];
    var t1 := OutputInfo([], "03", "Merge: started", fileList);
    assert ReportAll([], "03", labels[..1], fileList) == t1;
    assert t1 == [Row("03", "Merge: started", FilesCell(fileList))];
    assert HasRow(t1, "03");
    assert ReportAll([], "03", labels, fileList) == OutputInfo(t1, "03", "Merge: done", fileList);
    var t2 := OutputInfo(t1, "03", "Merge: done", fileList);
    assert t2[0].output == "Merge: started" + "\n" + "Merge: done";
    assert t2[0] == Row("03", "Merge: started\nMerge: done", FilesCell(fileList));
  }

  /** Reporting `xs` and then `ys` is reporting `xs + ys`. */
  lemma {:induction false} ReportAllConcat(table: seq<Row>, number: string, xs: seq<string>, ys: seq<string>, fileList: seq<string>)
    ensures ReportAll(table, number, xs + ys, fileList) ==
      ReportAll(ReportAll(table, number, xs, fileList), number, ys, fileList)
    decreases |ys|
  {
    if |ys| == 0 {
      assert xs + ys == xs;
    } else {
      var front := ys[..|ys| - 1];
      var y := ys[|ys| - 1];
      assert front + [y] == ys;
      assert (xs + front) + [y] == xs + ys;
      ReportAllConcat(table, number, xs, front, fileList);
      ReportAllSnoc(table, number, xs + front, y, fileList);
      ReportAllSnoc(ReportAll(table, number, xs, fileList), number, front, y, fileList);
    }
  }

  /** Reporting one label more is one more `output_info` call. */
  lemma ReportAllSnoc(table: seq<Row>, number: string, labels: seq<string>, stage: string, fileList: seq<string>)
    ensures ReportAll(table, number, labels + [stage], fileList) ==
      OutputInfo(ReportAll(table, number, labels, fileList), number, stage, fileList)
  {
    assert (labels + [stage])[..|labels|] == labels;
  }

  /** `output_info` as applied to the shared store. */
  function Report(store: Store, number: string, stage: string, fileList: seq<string>): Store {
    store.(table := OutputInfo(store.table, number, stage, fileList))
  }

  /** `error_info(error)`: append to the error list; nothing is ever removed. */
  function ErrorInfo(store: Store, error: string): (r: Store)
    ensures r.table == store.table
    ensures |r.errors| == |store.errors| + 1
    ensures r.errors[..|store.errors|] == store.errors && r.errors[|store.errors|] == error
  {
    store.(errors := store.errors + [error])
  }
}
