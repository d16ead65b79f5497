/** Row materialisation: `sqlFetch` (dbwrapper.go:86-124).

    The database driver is abstracted as a value: a cursor is its column list
    (or the error reading it), the sequence of rows it yields, each either a
    scan failure or one raw value per column, and the way iteration ended. A
    raw value is `None` for SQL NULL (a nil `sql.RawBytes`) and `Some(bytes)`
    otherwise. */
module Rows {
  import opened Wrappers

  newtype byte = b: int | 0 <= b < 256

  /** The errors a fetch can report. `Driver` carries whatever the driver or
      database/sql returned; `NoColumns` is the wrapper's own
      "SQLFetch(): get columns error"; `ArityMismatch` is database/sql refusing
      a scan whose destination count differs from the row's value count
      ("expected <rowValues> destination arguments in Scan, not
      <destinations>"). */
  datatype DbError =
    | Driver(message: string)
    | NoColumns
    | ArityMismatch(rowValues: nat, destinations: nat)

  /** Go returns a value and an error side by side; callers look at the error
      first. */
  datatype Reply<+T> = Reply(value: T, err: Option<DbError>)

  /** A fetched row: column name to text. */
  type ResultRow = map<string, string>

  /** One step of `Rows.Next`/`Rows.Scan`. */
  datatype ScanStep =
    | ScanFailed(error: DbError)
    | Scanned(values: seq<Option<seq<byte>>>)

  /** What the driver hands `sqlFetch`. `end` is the error `Rows.Err` would
      report once `Rows.Next` has returned false (None for a clean end). */
  datatype Cursor = Cursor(
    columns: Result<seq<string>, DbError>,
    steps: seq<ScanStep>,
    end: Option<DbError>)

  /** The text the wrapper renders SQL NULL as. */
  const NullText: string := "NULL"

  /** The bytes of the text "NULL". */
  const NullBytes: seq<byte> := [78, 85, 76, 76]

  /** Go's `string(col)`: the same bytes, read as a string. */
  function BytesToString(b: seq<byte>): (s: string)
    ensures |s| == |b|
    ensures forall i :: 0 <= i < |b| ==> s[i] as int == b[i] as int
  {
    seq(|b|, i requires 0 <= i < |b| => (b[i] as int) as char)
  }

  /** The text a raw column value becomes. */
  function Render(v: Option<seq<byte>>): string {
    match v
    case None => NullText
    case Some(b) => BytesToString(b)
  }

  /** Two raw values render alike exactly when they are equal or are NULL and
      the four bytes "NULL": NULL differs from every other value, the empty
      string included, except the text "NULL" itself. */
  lemma RenderCollisions(v: Option<seq<byte>>, w: Option<seq<byte>>)
    ensures Render(v) == Render(w) <==> v == w || {v, w} == {None, Some(NullBytes)}
  {
    if v.Some? && w.Some? && Render(v) == Render(w) {
      var a, b := v.value, w.value;
      assert forall i :: 0 <= i < |a| ==> a[i] as int == Render(v)[i] as int == b[i] as int;
      assert a == b;
    }
    if v.Some? && w.None? && Render(v) == Render(w) {
      RendersAsNull(v.value);
    }
    if v.None? && w.Some? && Render(v) == Render(w) {
      RendersAsNull(w.value);
    }
    if {v, w} == {None, Some(NullBytes)} {
      assert v == None || v == Some(NullBytes);
      assert w == None || w == Some(NullBytes);
      assert BytesToString(NullBytes) == NullText;
    }
  }

  lemma RendersAsNull(b: seq<byte>)
    ensures BytesToString(b) == NullText <==> b == NullBytes
  {
    if BytesToString(b) == NullText {
      var s := BytesToString(b);
      assert b[0] as int == s[0] as int == 78;
      assert b[1] as int == s[1] as int == 85;
      assert b[2] as int == s[2] as int == 76;
      assert b[3] as int == s[3] as int == 76;
      assert b == NullBytes;
    }
    if b == NullBytes {
      assert BytesToString(b) == NullText;
    }
  }

  /** Among the first `n` columns, column `i` is the last one with its name. */
  predicate LastBefore(columns: seq<string>, i: nat, n: nat)
    requires i < n <= |columns|
  {
    forall j :: i < j < n ==> columns[j] != columns[i]
  }

  /** Column `i` is the last one with its name. */
  predicate LastOccurrence(columns: seq<string>, i: nat)
    requires i < |columns|
  {
    LastBefore(columns, i, |columns|)
  }

  /** The map the first `n` columns of a scanned row fill in, one write per
      column in column order. */
  function RowMapUpTo(columns: seq<string>, values: seq<Option<seq<byte>>>, n: nat): ResultRow
    requires |columns| == |values| && n <= |columns|
  {
    if n == 0 then map[]
    else RowMapUpTo(columns, values, n - 1)[columns[n - 1] := Render(values[n - 1])]
  }

  /** After the first `n` columns the keys are exactly their names. */
  lemma {:induction false} RowMapUpToKeys(columns: seq<string>, values: seq<Option<seq<byte>>>, n: nat)
    requires |columns| == |values| && n <= |columns|
    ensures RowMapUpTo(columns, values, n).Keys == set i | 0 <= i < n :: columns[i]
    decreases n
  {
    if n > 0 {
      RowMapUpToKeys(columns, values, n - 1);
      var before := set i | 0 <= i < n - 1 :: columns[i];
      var now := set i | 0 <= i < n :: columns[i];
      assert columns[n - 1] in now;
      assert now == before + {columns[n - 1]};
    }
  }

  /** After the first `n` columns, a name whose last column among them is `i`
      maps to the rendered value of column `i`: later columns overwrite
      earlier ones with the same name. */
  lemma {:induction false} RowMapUpToLast(columns: seq<string>, values: seq<Option<seq<byte>>>, n: nat)
    requires |columns| == |values| && n <= |columns|
    ensures forall i :: 0 <= i < n && LastBefore(columns, i, n) ==>
              && columns[i] in RowMapUpTo(columns, values, n)
              && RowMapUpTo(columns, values, n)[columns[i]] == Render(values[i])
    decreases n
  {
    if n > 0 {
      RowMapUpToLast(columns, values, n - 1);
      var m := RowMapUpTo(columns, values, n - 1);
      assert RowMapUpTo(columns, values, n) == m[columns[n - 1] := Render(values[n - 1])];
      forall i | 0 <= i < n - 1 && LastBefore(columns, i, n)
        ensures LastBefore(columns, i, n - 1) && columns[i] != columns[n - 1]
      {
      }
    }
  }

  /** The map one scanned row becomes. */
  function RowMap(columns: seq<string>, values: seq<Option<seq<byte>>>): (m: ResultRow)
    requires |columns| == |values|
    ensures forall k :: k in m <==> k in columns
    ensures forall i :: 0 <= i < |columns| && LastOccurrence(columns, i) ==>
              m[columns[i]] == Render(values[i])
  {
    RowMapUpToKeys(columns, values, |columns|);
    RowMapUpToLast(columns, values, |columns|);
    var m := RowMapUpTo(columns, values, |columns|);
    assert forall k :: k in columns ==> exists i :: 0 <= i < |columns| && columns[i] == k;
    m
  }

  /** One more column writes its rendered value under its name. */
  lemma RowMapUpToNext(columns: seq<string>, values: seq<Option<seq<byte>>>, n: nat)
    requires |columns| == |values| && n < |columns|
    ensures RowMapUpTo(columns, values, n + 1) == RowMapUpTo(columns, values, n)[columns[n] := Render(values[n])]
  {
  }

  /** A row map is the map all of the row's columns fill in. */
  lemma RowMapIsUpTo(columns: seq<string>, values: seq<Option<seq<byte>>>)
    requires |columns| == |values|
    ensures RowMap(columns, values) == RowMapUpTo(columns, values, |columns|)
  {
  }

  /** With distinct column names every column keeps its own value. */
  lemma RowMapDistinct(columns: seq<string>, values: seq<Option<seq<byte>>>)
    requires |columns| == |values|
    requires forall i, j :: 0 <= i < j < |columns| ==> columns[i] != columns[j]
    ensures forall i :: 0 <= i < |columns| ==> RowMap(columns, values)[columns[i]] == Render(values[i])
  {
    forall i | 0 <= i < |columns|
      ensures LastOccurrence(columns, i)
    {
    }
  }

  /** Every name among the first `n` columns has a last column. */
  lemma {:induction false} LastColumnExists(columns: seq<string>, n: nat, k: string)
    requires n <= |columns|
    requires exists i :: 0 <= i < n && columns[i] == k
    ensures exists i :: 0 <= i < n && columns[i] == k && LastBefore(columns, i, n)
    decreases n
  {
    if columns[n - 1] == k {
      assert LastBefore(columns, n - 1, n);
    } else {
      var i :| 0 <= i < n && columns[i] == k;
      assert i < n - 1;
      LastColumnExists(columns, n - 1, k);
      var i' :| 0 <= i' < n - 1 && columns[i'] == k && LastBefore(columns, i', n - 1);
      assert LastBefore(columns, i', n);
    }
  }

  /** Every value of a row map is the rendering of the last column with its
      name. */
  lemma RowMapValues(columns: seq<string>, values: seq<Option<seq<byte>>>, k: string)
    requires |columns| == |values|
    requires k in columns
    ensures k in RowMap(columns, values)
    ensures exists i :: 0 <= i < |columns| && columns[i] == k && LastOccurrence(columns, i)
              && RowMap(columns, values)[k] == Render(values[i])
  {
    LastColumnExists(columns, |columns|, k);
  }

  /** One `Rows.Scan` followed by the loop that fills `newRow`. */
  function Scan(columns: seq<string>, step: ScanStep): Result<ResultRow, DbError> {
    match step
    case ScanFailed(e) => Failure(e)
    case Scanned(vs) =>
      if |vs| != |columns| then Failure(ArityMismatch(|vs|, |columns|))
      else Success(RowMap(columns, vs))
  }

  /** The row loop of `sqlFetch`: it collects one map per step in order and
      stops at the first step that fails to scan, returning that step's
      error. */
  function CollectRows(columns: seq<string>, steps: seq<ScanStep>): (r: Result<seq<ResultRow>, DbError>)
    ensures r.Success? <==> forall i :: 0 <= i < |steps| ==> Scan(columns, steps[i]).Success?
    ensures r.Success? ==> (
              && |r.value| == |steps|
              && forall i :: 0 <= i < |steps| ==> Scan(columns, steps[i]) == Success(r.value[i]))
    ensures r.Failure? ==> exists i :: (
              && 0 <= i < |steps|
              && Scan(columns, steps[i]) == Failure(r.error)
              && forall j :: 0 <= j < i ==> Scan(columns, steps[j]).Success?)
    decreases |steps|
  {
    if steps == [] then Success([])
    else match Scan(columns, steps[0])
      case Failure(e) => Failure(e)
      case Success(m) =>
        assert forall i :: 1 <= i < |steps| ==> steps[i] == steps[1..][i - 1];
        match CollectRows(columns, steps[1..])
        case Failure(e) =>
          ghost var i :| 0 <= i < |steps[1..]| && Scan(columns, steps[1..][i]) == Failure(e)
                      && forall j :: 0 <= j < i ==> Scan(columns, steps[1..][j]).Success?;
          assert Scan(columns, steps[i + 1]) == Failure(e);
          Failure(e)
        case Success(ms) => Success([m] + ms)
  }

  /** The row loop fails with the error of the first row that fails. */
  lemma CollectFirstFailure(columns: seq<string>, steps: seq<ScanStep>, k: nat)
    requires k < |steps|
    requires forall i :: 0 <= i < k ==> Scan(columns, steps[i]).Success?
    requires Scan(columns, steps[k]).Failure?
    ensures CollectRows(columns, steps) == Failure(Scan(columns, steps[k]).error)
  {
    var r := CollectRows(columns, steps);
    var i :| 0 <= i < |steps| && Scan(columns, steps[i]) == Failure(r.error)
             && forall j :: 0 <= j < i ==> Scan(columns, steps[j]).Success?;
    assert i == k;
  }

  /** The row loop succeeds with exactly the rows every step scanned. */
  lemma CollectAll(columns: seq<string>, steps: seq<ScanStep>, rows: seq<ResultRow>)
    requires |rows| == |steps|
    requires forall i :: 0 <= i < |steps| ==> Scan(columns, steps[i]) == Success(rows[i])
    ensures CollectRows(columns, steps) == Success(rows)
  {
    var r := CollectRows(columns, steps);
    assert r.Success?;
    assert forall i :: 0 <= i < |steps| ==> r.value[i] == rows[i];
    assert r.value == rows;
  }

  /** `sqlFetch` as dbwrapper.go writes it: it never asks `Rows.Err` how
      iteration ended, so `end` plays no part. */
  function FetchAsWritten(c: Cursor): (r: Reply<seq<ResultRow>>)
    // An error always comes with an empty row list.
    ensures r.err.Some? ==> r.value == []
    // The error reading the column list is passed through.
    ensures c.columns.Failure? ==> r == Reply([], Some(c.columns.error))
    // Zero columns is an error whatever rows follow.
    ensures c.columns == Success([]) ==> r == Reply([], Some(NoColumns))
    // A row that fails to scan ends the fetch with that row's error.
    ensures c.columns.Success? && |c.columns.value| > 0 && CollectRows(c.columns.value, c.steps).Failure? ==>
              r == Reply([], Some(CollectRows(c.columns.value, c.steps).error))
    // Success exactly when the columns were read, are not empty and every row
    // scanned, however iteration ended.
    ensures r.err.None? <==>
              && c.columns.Success? && |c.columns.value| > 0
              && (forall i :: 0 <= i < |c.steps| ==> Scan(c.columns.value, c.steps[i]).Success?)
    // On success: one map per row, in cursor order, built from that row.
    ensures r.err.None? ==> (
              && |r.value| == |c.steps|
              && forall i :: 0 <= i < |c.steps| ==> (
                   && c.steps[i].Scanned?
                   && |c.steps[i].values| == |c.columns.value|
                   && r.value[i] == RowMap(c.columns.value, c.steps[i].values)))
  {
    match c.columns
    case Failure(e) => Reply([], Some(e))
    case Success(columns) =>
      if |columns| == 0 then Reply([], Some(NoColumns))
      else match CollectRows(columns, c.steps)
        case Failure(e) => Reply([], Some(e))
        case Success(rows) => Reply(rows, None)
  }

  /** The fetch every error path of `sqlFetch` intends, with the error that
      ended iteration reported like a scan failure. */
  function Fetch(c: Cursor): (r: Reply<seq<ResultRow>>)
    // An error always comes with an empty row list.
    ensures r.err.Some? ==> r.value == []
    // The error reading the column list is passed through.
    ensures c.columns.Failure? ==> r == Reply([], Some(c.columns.error))
    // Zero columns is an error whatever rows follow.
    ensures c.columns == Success([]) ==> r == Reply([], Some(NoColumns))
    // A row that fails to scan ends the fetch with that row's error.
    ensures c.columns.Success? && |c.columns.value| > 0 && CollectRows(c.columns.value, c.steps).Failure? ==>
              r == Reply([], Some(CollectRows(c.columns.value, c.steps).error))
    // Success exactly when the columns were read, are not empty, every row
    // scanned and iteration ended cleanly.
    ensures r.err.None? <==>
              && c.columns.Success? && |c.columns.value| > 0
              && (forall i :: 0 <= i < |c.steps| ==> Scan(c.columns.value, c.steps[i]).Success?)
              && c.end.None?
    // On success: one map per row, in cursor order, built from that row.
    ensures r.err.None? ==> (
              && |r.value| == |c.steps|
              && forall i :: 0 <= i < |c.steps| ==> (
                   && c.steps[i].Scanned?
                   && |c.steps[i].values| == |c.columns.value|
                   && r.value[i] == RowMap(c.columns.value, c.steps[i].values)))
  {
    var r := FetchAsWritten(c);
    if r.err.None? && c.end.Some? then Reply([], c.end) else r
  }

  /** The two agree on every cursor whose iteration ended cleanly. */
  lemma FetchAgreesOnCleanEnd(c: Cursor)
    requires c.end.None?
    ensures FetchAsWritten(c) == Fetch(c)
  {
  }

  /** A cursor whose iteration stops on an error after rows that scanned
      fine: dbwrapper.go returns those rows with no error, and the caller
      cannot tell the result is truncated. */
  lemma StreamErrorIsLost(c: Cursor)
    requires c.columns.Success? && |c.columns.value| > 0
    requires forall i :: 0 <= i < |c.steps| ==> Scan(c.columns.value, c.steps[i]).Success?
    requires c.end.Some?
    ensures FetchAsWritten(c).err.None? && |FetchAsWritten(c).value| == |c.steps|
    ensures Fetch(c) == Reply([], c.end)
  {
  }

  /** The inner loop of `sqlFetch`: each column's rendered value is written
      under its name, in column order. */
  method FillRow(columns: seq<string>, values: seq<Option<seq<byte>>>) returns (newRow: ResultRow)
    requires |columns| == |values|
    ensures newRow == RowMapUpTo(columns, values, |columns|)
  {
    newRow := map[];
    var i := 0;
    while i < |values|
      invariant 0 <= i <= |values|
      invariant newRow == RowMapUpTo(columns, values, i)
    {
      var value := if values[i].None? then NullText else BytesToString(values[i].value);
      assert value == Render(values[i]);
      RowMapUpToNext(columns, values, i);
      newRow := newRow[columns[i] := value];
      i := i + 1;
    }
  }

  /** One scanned row becomes its row map: later columns overwrite earlier
      ones with the same name. */
  method BuildRow(columns: seq<string>, values: seq<Option<seq<byte>>>) returns (newRow: ResultRow)
    requires |columns| == |values|
    ensures newRow == RowMap(columns, values)
  {
    newRow := FillRow(columns, values);
    RowMapIsUpTo(columns, values);
  }

  /** A concrete instance: one column `id`, one row holding "7", then the
      connection drops. */
  lemma StreamErrorExample()
    ensures var c := Cursor(Success(["id"]), [Scanned([Some([55])])], Some(Driver("connection reset")));
      && FetchAsWritten(c) == Reply([map["id" := "7"]], None)
      && Fetch(c) == Reply([], Some(Driver("connection reset")))
  {
    var c := Cursor(Success(["id"]), [Scanned([Some([55])])], Some(Driver("connection reset")));
    var row := RowMap(["id"], [Some([55])]);
    assert BytesToString([55]) == "7";
    assert row.Keys == {"id"};
    assert LastOccurrence(["id"], 0);
    assert row == map["id" := "7"];
    assert Scan(["id"], c.steps[0]) == Success(row);
    CollectAll(["id"], c.steps, [row]);
  }

  /** With its columns read and non-empty, a cursor's fetch is decided by the
      row loop and then by how iteration ended. */
  lemma FetchOpened(c: Cursor, columns: seq<string>)
    requires c.columns == Success(columns) && |columns| > 0
    ensures CollectRows(columns, c.steps).Failure? ==>
              Fetch(c) == Reply([], Some(CollectRows(columns, c.steps).error))
    ensures CollectRows(columns, c.steps).Success? ==>
              Fetch(c) == if c.end.Some? then Reply([], c.end)
                          else Reply(CollectRows(columns, c.steps).value, None)
  {
  }

  /** The row loop of `sqlFetch`, step by step: scan each row into a fresh
      map and append it, stopping with an empty list at the first row that
      fails to scan. */
  method ScanRows(columns: seq<string>, steps: seq<ScanStep>) returns (rows: seq<ResultRow>, err: Option<DbError>)
    ensures err.Some? ==> rows == [] && CollectRows(columns, steps) == Failure(err.value)
    ensures err.None? ==> CollectRows(columns, steps) == Success(rows)
  {
    rows := [];
    var k := 0;
    while k < |steps|
      invariant 0 <= k <= |steps|
      invariant |rows| == k
      invariant forall i :: 0 <= i < k ==> Scan(columns, steps[i]) == Success(rows[i])
    {
      var step := steps[k];
      if step.ScanFailed? {
        CollectFirstFailure(columns, steps, k);
        return [], Some(step.error);
      }
      if |step.values| != |columns| {
        CollectFirstFailure(columns, steps, k);
        return [], Some(ArityMismatch(|step.values|, |columns|));
      }
      var newRow := BuildRow(columns, step.values);
      assert Scan(columns, step) == Success(newRow);
      rows := rows + [newRow];
      k := k + 1;
    }
    CollectAll(columns, steps, rows);
    err := None;
  }

  /** `sqlFetch` step by step, as the loops of dbwrapper.go run, with the end-of-
      iteration check added after the row loop. */
  method SqlFetch(c: Cursor) returns (data: seq<ResultRow>, err: Option<DbError>)
    ensures Reply(data, err) == Fetch(c)
  {
    if c.columns.Failure? {
      return [], Some(c.columns.error);
    }
    var columns := c.columns.value;
    if |columns| == 0 {
      return [], Some(NoColumns);
    }
    FetchOpened(c, columns);
    data, err := ScanRows(columns, c.steps);
    if err.None? && c.end.Some? {
      return [], c.end;
    }
  }
}
