# dbwrapper in Dafny

A model of the pure core of `dbwrapper`, a thin MySQL convenience layer for Go.
The model covers three things:

- **The string-literal escaper** (`EscapeString`). It turns `'`, `\` and `"`
  into `\'`, `\\` and `\"` and copies everything else, one character at a time.
- **The table-prefix rewrite.** Every leftmost, non-overlapping `#__` in the SQL
  text becomes the handle's prefix before `Query` or `ExecId` sends the text to
  the driver.
- **Result shaping** (`sqlFetch`, and the pure parts of `Query`, `Row` and
  `Result`). It turns what the driver reports into a list of column-name →
  text maps. Of `ExecId`, only the error branch is modelled.

A Go `string` is a byte string. It is modelled as a Dafny `string` with one
character per byte. Both replacers work byte by byte, and all their patterns are
ASCII. The raw bytes a column scan produces are `seq<byte>`, and Go's
`string(col)` is `Rows.BytesToString`.

The driver is a value here, not code:

- A `Rows.Cursor` holds the column list (or the error reading it), one
  `ScanStep` per row, and the error, if any, that ended iteration.
- A scan step is a scan failure, or one optional byte string per column. `None`
  stands for SQL NULL, which reaches the wrapper as a nil `sql.RawBytes`.
- `Query` and `ExecId` take the driver as a function from the SQL text they send
  to the outcome.

Modules:

- `Wrappers`: Option and Result.
- `Escaping`: the escaper, its inverse, and a reader for quoted literals.
- `TablePrefix`: the placeholder rewrite, with a split/join characterisation.
- `Rows`: raw values, row maps, the row loop, and `sqlFetch` as written and
  corrected.
- `Handle`: `Query`, `Row`, `Result` and `ExecId`. `Query` calls `sqlFetch` as
  the source writes it (`Rows.FetchAsWritten`), so `Row` and `Result` inherit
  the lost end-of-iteration error described under Findings.
  `Rows.Fetch` and `Rows.SqlFetch` are the corrected fetch.

Behaviour that differs from what one might expect of such a layer:

- `Result` does not return the first declared column. It ranges over a Go map,
  whose iteration order is unspecified, so it returns the value of some column
  of the first row. The model states exactly that.
- The prefix rewrite is not idempotent just because the prefix differs from
  `#__`. With prefix `#`, the text `#____` becomes `#__`, and a second pass
  gives `#`. `TablePrefix.RewriteIdempotent` proves a sufficient condition: the
  prefix is non-empty, contains no `#`, and does not start with `_`.
- The text NULL and SQL NULL come back identical. Both become `"NULL"`. SQL NULL
  still differs from the empty string and from every other value
  (`Rows.RenderCollisions`).

## Model

| member | source | states |
|---|---|---|
| Escaping.Escape | dbwrapper.go:143 | The output is as long as the input plus one character for each `'`, `\` and `"` in it. It holds exactly twice as many of those characters as the input. |
| Escaping.EscapeIsCharwise | dbwrapper.go:143 | The output is the per-character replacements concatenated in input order. Escaping a prefix and then one more character appends that character's replacement. Nothing inserted is rescanned. |
| Escaping.EscapeAppend | dbwrapper.go:143 | Escaping a concatenation is the concatenation of the escapes. |
| Escaping.EscapeIdentity | dbwrapper.go:143 | A string escapes to itself if and only if it contains no `'`, `\` or `"`. |
| Escaping.UnescapeEscape | dbwrapper.go:82-84 | Dropping each backslash and keeping the character after it recovers the original string. |
| Escaping.EscapeInjective | dbwrapper.go:82-84 | Two different strings never escape to the same text. |
| Escaping.EscapeIsWellEscaped | dbwrapper.go:143 | In every escaped output, each backslash starts a pair whose second character is `'`, `\` or `"`, and no quote stands alone. |
| Escaping.EscapeUnescapeWellEscaped | dbwrapper.go:143 | Every well-escaped text is the escape of its unescaping. |
| Escaping.EscapeImage | dbwrapper.go:143 | A text is an escaper output if and only if it is well escaped. With `Escaping.EscapeInjective`, the escaper is a bijection onto those texts. |
| Escaping.QuotedRoundTrip | dbwrapper.go:82-84 | Escaped text followed by a closing `'` or `"` is read by a backslash-escaping SQL lexer as exactly the original string. The literal ends at that closing quote, so the value cannot end it early. |
| TablePrefix.Rewrite | dbwrapper.go:142 | Text with no `#__` is returned unchanged. |
| TablePrefix.Split | dbwrapper.go:142 | Any text is a join, with `#__` as separator, of pieces that contain no `#__`. |
| TablePrefix.RewriteJoin | dbwrapper.go:142 | For any such pieces joined by `#__`, the rewrite is the same pieces joined by the prefix. Every occurrence is replaced, all other text keeps its order, and the inserted prefix is not rescanned. |
| TablePrefix.RewriteIsJoinOfSplit | dbwrapper.go:26 | The text `Query` sends is the placeholder-free pieces of the input joined by the prefix. |
| TablePrefix.RewriteLeavesNoToken | dbwrapper.go:142 | Suppose the prefix is non-empty, contains no `#` and does not start with `_`. Then no `#__` is left after the rewrite. |
| TablePrefix.RewriteIdempotent | dbwrapper.go:142 | Under the same condition, a second rewrite changes nothing. |
| TablePrefix.RewriteNotIdempotentInGeneral | dbwrapper.go:142 | With prefix `#`, `#____` rewrites to `#__`, and a second pass gives `#`. |
| Rows.RenderCollisions | dbwrapper.go:113-117 | Two raw values render alike if and only if they are equal, or one is NULL and the other is the bytes of "NULL". |
| Rows.RowMapUpToKeys | dbwrapper.go:112-119 | After the first n columns, the row's keys are exactly their names. |
| Rows.RowMapUpToLast | dbwrapper.go:112-119 | After the first n columns, each name maps to the rendered value of its last column among them. Later columns overwrite earlier ones. |
| Rows.RowMap | dbwrapper.go:106-119 | A row map has a key for every column name and no other key. When names repeat, the later column's value wins. |
| Rows.RowMapDistinct | dbwrapper.go:112-119 | With distinct column names, every column maps to its own rendered value. |
| Rows.RowMapValues | dbwrapper.go:112-119 | Every column name is a key of the row map. Its value is the rendered value of the last column with that name. |
| Rows.CollectRows | dbwrapper.go:105-121 | The row loop succeeds if and only if every row scans. It then yields one map per row, in cursor order. Otherwise it fails with the error of the first row that fails. |
| Rows.FetchAsWritten | dbwrapper.go:86-124 | An error always comes with an empty list. An error reading the column list is passed through. Zero columns is an error whatever the rows. A row that fails to scan ends the fetch with that row's error. Success holds exactly when the columns were read and are non-empty and every row scanned, however iteration ended. On success the result is one map per row, in order, built from that row. |
| Rows.Fetch | dbwrapper.go:86-124 | An error always comes with an empty list. An error reading the column list is passed through. Zero columns is an error whatever the rows. A row that fails to scan ends the fetch with that row's error. Success holds exactly when the columns were read and are non-empty, every row scanned and iteration ended cleanly. On success the result is one map per row, in order, built from that row. |
| Rows.FetchAgreesOnCleanEnd | dbwrapper.go:86-124 | The source's fetch and the corrected one agree on every cursor whose iteration ended cleanly. |
| Rows.StreamErrorIsLost | dbwrapper.go:105-123 | If iteration stops on an error after rows that scanned fine, the source returns those rows with no error. The corrected fetch returns an empty list and the error. |
| Rows.StreamErrorExample | dbwrapper.go:105-123 | With one row holding "7" and then a dropped connection, the source returns `[{id: "7"}]` and no error. |
| Rows.FillRow | dbwrapper.go:111-119 | The inner loop, writing each column's rendered value under its name in column order, builds the map the columns define one write at a time. |
| Rows.BuildRow | dbwrapper.go:106-119 | The map built for one scanned row is its row map: a key for every column name, and the last column's value when names repeat. |
| Rows.ScanRows | dbwrapper.go:105-121 | The row loop, run step by step, fails with an empty list and the first failing row's error exactly when the row loop's definition fails. Otherwise it returns the same rows. |
| Rows.SqlFetch | dbwrapper.go:86-124 | The loop-by-loop fetch computes the corrected fetch's rows and error. |
| Handle.SentHasNoPlaceholder | dbwrapper.go:26 | Suppose the prefix is non-empty, contains no `#` and does not start with `_`. Then the text the driver receives contains no `#__`, whatever the caller wrote. |
| Handle.Query | dbwrapper.go:24-34 | A query error is passed through with an empty list, and every error comes with an empty list. The fetch's errors come back unchanged: the column-read error, the zero-columns error, and the first failing row's scan error. Success holds exactly when the driver opened a cursor whose columns were read and are non-empty and whose rows all scanned. A cursor with zero rows is a success. On success every row comes back, in order, as its row map. |
| Handle.QueryLosesStreamError | dbwrapper.go:28-33 | When iteration ends on an error after rows that all scanned, `Query` still reports no error and returns one map per row read. The corrected fetch reports that error with an empty list. |
| Handle.Row | dbwrapper.go:36-47 | The error is `Query`'s. On error the row is empty. With no rows it is empty with no error. Otherwise it is `Query`'s first row. |
| Handle.RowOfCursor | dbwrapper.go:36-47 | On an opened cursor with non-empty columns whose rows all scan, `Row` is the first row's map with no error. With no rows it is an empty map with no error. |
| Handle.ResultOf | dbwrapper.go:50-61 | On a query error the result is `""` with that error. With no row, or a first row without columns, it is `""` and no error. Otherwise it is the value of one of the first row's columns. |
| Handle.Result | dbwrapper.go:49-62 | The error is `Query`'s. The value is `""` on error or when there are no rows. Otherwise it is some value of the first row, because a fetched row always has a column. |
| Handle.ResultIsAColumnValue | dbwrapper.go:49-62 | A value of the first row is the rendered value of one of the cursor's columns in its first row. |

## Left out

- `New` and `NewContext` (dbwrapper.go:130-155) open and ping a connection through `database/sql` and the MySQL driver. That is foreign I/O. The prefix they install is the `prefix` field of `Handle.DB`, and the escape table is fixed in `Escaping`.
- The package-level `prefixer` and `escaper` variables (dbwrapper.go:19-22) are left out. The last `New` overwrites them, and they are nil before the first `New`. The model passes the prefix explicitly instead.
- `FromContext` and the context key (dbwrapper.go:126-128, 157-161) are a `context.Context` value lookup, with nothing to model.
- `Exec` (dbwrapper.go:64-69) hands the driver's summary back unchanged. Its only pure step is the rewrite that `Handle.Sent` models.
- `rows.Close` (dbwrapper.go:31) is left out. Releasing the cursor is resource management with no effect on the result.
- Bound query arguments are left out. They pass to the driver unchanged.
- Concurrency is left out. The layer adds none of its own.
- The abstract cursor takes as given whether a value arrives as a nil `sql.RawBytes`. That is decided by `database/sql` and the driver.
- Escaping.QuotedRoundTrip describes a lexer with backslash escapes enabled. It does not cover MySQL's `NO_BACKSLASH_ESCAPES` mode. It also does not cover connection character sets whose multi-byte characters can contain the byte of `\`, `'` or `"`, where byte-wise escaping is known to be unsafe.
- Escaping.QuotedRoundTrip only covers the backslash pairs the escaper produces. MySQL's other escape sequences (`\n`, `\0`, ...) never occur in escaper output.
- Handle.Result does not fix which column is returned. Go's map iteration order is unspecified, so the model admits any value of the first row.
- Handle.ExecId: a pass-through of the driver's outcome. Only its error branch, which yields 0 with the statement's error, is modelled; the id and its error come from the driver's `LastInsertId`, which is foreign code. The text it sends is covered by Handle.SentHasNoPlaceholder.

## Findings

| source | as written | input that shows it | evidently intended | confidence | as-written member | corrected member |
|---|---|---|---|---|---|---|
| dbwrapper.go:105-123 | After `Rows.Next` returns false, `sqlFetch` returns the collected rows with a nil error. It never calls `Rows.Err`. | Column `id`, one row `"7"`, then iteration stops with a connection error. dbwrapper.go returns `[{id: "7"}]` and no error. | A mid-stream error is reported like a scan failure: an empty list and the error. | medium, not executed | Rows.FetchAsWritten (shown by Rows.StreamErrorIsLost, Rows.StreamErrorExample, Handle.QueryLosesStreamError) | Rows.Fetch |
