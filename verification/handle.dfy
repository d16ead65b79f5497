/** The query operations of the database handle: `Query`, `Row`, `Result` and
    the error branch of `ExecId` (dbwrapper.go:24-62, 71-80).

    The handle holds the configured table prefix. The database driver is a
    parameter: a function from the SQL text it is sent to the outcome of
    running it. Bound arguments pass to the driver unchanged and are left
    out. */
module Handle {
  import opened Wrappers
  import opened TablePrefix
  import opened Rows

  /** A database handle: the prefix its `#__` placeholders become. */
  datatype DB = DB(prefix: string)

  /** What `db.driver.Query` returns: an error, or an open cursor. */
  datatype QueryOutcome = QueryFailed(error: DbError) | Opened(cursor: Cursor)

  newtype int64 = x: int | -0x8000_0000_0000_0000 <= x < 0x8000_0000_0000_0000

  /** What `db.driver.Exec` returns: an error, or a summary whose
      `LastInsertId` yields an id and possibly an error of its own. */
  datatype ExecOutcome =
    | ExecFailed(error: DbError)
    | Executed(lastInsertId: int64, idError: Option<DbError>)

  /** The SQL text the driver is sent. */
  function Sent(db: DB, sql: string): string {
    Rewrite(sql, db.prefix)
  }

  /** With a prefix that is non-empty, holds no `#` and does not start with
      `_`, the text `Query` and `ExecId` hand the driver holds no placeholder
      at all, whatever the caller wrote. */
  lemma SentHasNoPlaceholder(db: DB, sql: string)
    requires |db.prefix| > 0 && db.prefix[0] != '_'
    requires forall j :: 0 <= j < |db.prefix| ==> db.prefix[j] != '#'
    ensures !HasToken(Sent(db, sql))
  {
    RewriteLeavesNoToken(sql, db.prefix);
  }

  /** `Query`: runs the rewritten text and fetches every row with `sqlFetch`
      as dbwrapper.go writes it. */
  function Query(db: DB, sql: string, driver: string -> QueryOutcome): (r: Reply<seq<ResultRow>>)
    // Whatever fails, the row list that comes with the error is empty.
    ensures r.err.Some? ==> r.value == []
    // A query error is passed through.
    ensures driver(Sent(db, sql)).QueryFailed? ==>
              r == Reply([], Some(driver(Sent(db, sql)).error))
    // The fetch's errors come back unchanged: the error reading the column
    // list, the zero-columns error, and the error of the first row that fails
    // to scan.
    ensures driver(Sent(db, sql)).Opened? && driver(Sent(db, sql)).cursor.columns.Failure? ==>
              r == Reply([], Some(driver(Sent(db, sql)).cursor.columns.error))
    ensures driver(Sent(db, sql)).Opened? && driver(Sent(db, sql)).cursor.columns == Success([]) ==>
              r == Reply([], Some(NoColumns))
    ensures driver(Sent(db, sql)).Opened? && (
              var c := driver(Sent(db, sql)).cursor;
              c.columns.Success? && |c.columns.value| > 0 && CollectRows(c.columns.value, c.steps).Failure?) ==>
              r == Reply([], Some(CollectRows(driver(Sent(db, sql)).cursor.columns.value,
                                              driver(Sent(db, sql)).cursor.steps).error))
    // Success exactly when the driver opened a cursor whose columns were read
    // and are not empty and whose rows all scanned; zero rows is a success.
    ensures r.err.None? <==> (
              && driver(Sent(db, sql)).Opened?
              && var c := driver(Sent(db, sql)).cursor;
              && c.columns.Success? && |c.columns.value| > 0
              && forall i :: 0 <= i < |c.steps| ==> Scan(c.columns.value, c.steps[i]).Success?)
    // On success every row of the cursor came back, in order.
    ensures r.err.None? ==> (
              var c := driver(Sent(db, sql)).cursor;
              && |r.value| == |c.steps|
              && forall i :: 0 <= i < |c.steps| ==> (
                   && c.steps[i].Scanned?
                   && |c.steps[i].values| == |c.columns.value|
                   && r.value[i] == RowMap(c.columns.value, c.steps[i].values)))
  {
    match driver(Sent(db, sql))
    case QueryFailed(e) => Reply([], Some(e))
    case Opened(c) => FetchAsWritten(c)
  }

  /** Because `Query` uses `sqlFetch` as written, an error that ends the
      cursor's iteration does not reach the caller: `Query` answers with the
      rows read so far and no error, where the corrected fetch would report
      that error with an empty list. */
  lemma QueryLosesStreamError(db: DB, sql: string, driver: string -> QueryOutcome)
    requires driver(Sent(db, sql)).Opened?
    requires var c := driver(Sent(db, sql)).cursor;
      && c.columns.Success? && |c.columns.value| > 0 && c.end.Some?
      && forall i :: 0 <= i < |c.steps| ==> Scan(c.columns.value, c.steps[i]).Success?
    ensures Query(db, sql, driver).err.None?
    ensures |Query(db, sql, driver).value| == |driver(Sent(db, sql)).cursor.steps|
    ensures Fetch(driver(Sent(db, sql)).cursor) == Reply([], driver(Sent(db, sql)).cursor.end)
  {
  }

  /** `Row`: the first row, an empty map when there is none, and an empty map
      with the error on failure. */
  function Row(db: DB, sql: string, driver: string -> QueryOutcome): (r: Reply<ResultRow>)
    ensures r.err == Query(db, sql, driver).err
    ensures r.err.Some? ==> r.value == map[]
    ensures r.err.None? && Query(db, sql, driver).value == [] ==> r.value == map[]
    ensures r.err.None? && Query(db, sql, driver).value != [] ==>
              r.value == Query(db, sql, driver).value[0]
  {
    var res := Query(db, sql, driver);
    if res.err.Some? then Reply(map[], res.err)
    else if |res.value| > 0 then Reply(res.value[0], None)
    else Reply(map[], None)
  }

  /** What `Result` may answer given the reply of its query: the query's
      error and "" when it failed or found no row, and otherwise no error and
      one of the values of the first row. */
  predicate ResultFits(res: Reply<seq<ResultRow>>, r: Reply<string>) {
    if res.err.Some? || res.value == [] then r == Reply("", res.err)
    else r.err.None? && r.value in res.value[0].Values
  }

  /** The tail of `Result` given the reply of its query: "" with the error
      when the query failed, "" when there is no row or the first row has no
      column, and otherwise the value of one of the first row's columns. Go's
      map iteration order is unspecified, so which column is not determined. */
  method ResultOf(res: Reply<seq<ResultRow>>) returns (r: Reply<string>)
    ensures res.err.Some? ==> r == Reply("", res.err)
    ensures res.err.None? && (res.value == [] || res.value[0] == map[]) ==> r == Reply("", None)
    ensures res.err.None? && res.value != [] && res.value[0] != map[] ==>
              r.err.None? && r.value in res.value[0].Values
  {
    if res.err.Some? {
      return Reply("", res.err);
    }
    if |res.value| > 0 {
      var first := res.value[0];
      if k :| k in first {
        return Reply(first[k], None);
      }
    }
    return Reply("", None);
  }

  /** `Result`: the value of one column of the first row, "" when there is no
      row or the query failed. A fetched row always has a column, so a
      successful query with rows always yields a value of its first row. */
  method Result(db: DB, sql: string, driver: string -> QueryOutcome) returns (r: Reply<string>)
    ensures ResultFits(Query(db, sql, driver), r)
  {
    var res := Query(db, sql, driver);
    r := ResultOf(res);
  }

  /** A successful `Result` returns the text of some column of the cursor's
      first row: never "" by accident of an empty map, since a fetched row has
      a key for every column and there is at least one column. */
  lemma ResultIsAColumnValue(db: DB, sql: string, driver: string -> QueryOutcome, v: string)
    requires Query(db, sql, driver).err.None? && Query(db, sql, driver).value != []
    requires v in Query(db, sql, driver).value[0].Values
    ensures var c := driver(Sent(db, sql)).cursor;
      exists i :: 0 <= i < |c.columns.value| && v == Render(c.steps[0].values[i])
  {
    var c := driver(Sent(db, sql)).cursor;
    var m := Query(db, sql, driver).value[0];
    var k :| k in m && m[k] == v;
    RowMapValues(c.columns.value, c.steps[0].values, k);
  }

  /** `Row` on a cursor whose rows all scan is the first row's map; with no
      rows it is an empty map and no error. */
  lemma RowOfCursor(db: DB, sql: string, driver: string -> QueryOutcome)
    requires driver(Sent(db, sql)).Opened?
    requires var c := driver(Sent(db, sql)).cursor;
      && c.columns.Success? && |c.columns.value| > 0
      && forall i :: 0 <= i < |c.steps| ==> Scan(c.columns.value, c.steps[i]).Success?
    ensures var c := driver(Sent(db, sql)).cursor;
      Row(db, sql, driver) ==
        if c.steps == [] then Reply(map[], None)
        else Reply(RowMap(c.columns.value, c.steps[0].values), None)
  {
  }

  /** `ExecId`: the id `LastInsertId` reports, or 0 with the error when the
      statement itself failed. */
  function ExecId(db: DB, sql: string, exec: string -> ExecOutcome): (r: Reply<int64>)
    ensures exec(Sent(db, sql)).ExecFailed? ==>
              r == Reply(0, Some(exec(Sent(db, sql)).error))
    ensures exec(Sent(db, sql)).Executed? ==>
              r == Reply(exec(Sent(db, sql)).lastInsertId, exec(Sent(db, sql)).idError)
  {
    match exec(Sent(db, sql))
    case ExecFailed(e) => Reply(0, Some(e))
    case Executed(id, idErr) => Reply(id, idErr)
  }
}
