# node-db-drizzle, modelled in Dafny

This project models the core of node-db-drizzle, a binding from Node.js to the libdrizzle client library. It proves properties of that model. Four pieces of logic are covered:

- **Binding values into a statement.** The two revisions of `parseQuery` (src/drizzle.cc, src/query.cc) and `Query::value` are modelled in `placeholders.dfy` and `statements.dfy`.
  - A scanner finds the `?` placeholders outside string literals and turns `\?` into a literal `?`.
  - The number of values is checked against the number of placeholders.
  - The rendered literals are spliced in left to right.
  - Booleans, numbers, strings, dates and (nested) arrays render as SQL literals. The connection's `escape` is a function parameter.
- **Turning a fetched row into a JavaScript object.** Columns are classified by wire type (`columns.dfy`). Cells are converted by the `row()` rules (`coercion.dfy`): NULL, no cast, BOOL, SET splitting, the 16-bit `parseTime`, and the `gmtDelta` normalisation.
- **The result cursors.** These are `drizzle::Result` (src/drizzle/result.cc, `drizzle_result.dfy`) and `node_db_drizzle::Result` (src/result.cc, `nodedb_result.dfy`).
  - Both are forward-only cursors with one row of lookahead, written as classes whose methods update the source's fields.
  - Their row bookkeeping is specified by the pure state machine in `cursor_model.dfy`.
  - The buffering loop of `Query::eioExecute` is in `query_buffer.dfy`.
- **The connection lifecycle.** These are `drizzle::Connection` (src/drizzle/connection.cc) and `node_db_drizzle::Connection` (src/connection.cc), covering `open`, `close`, `version`, `query`, the setters and `escape`.
  - They are classes proved against the value-level lifecycle in `session_model.dfy`.

libdrizzle is not modelled; a scripted stand-in in `library.dfy` and `session_model.dfy` takes its place:

- Each `drizzle_row_buffer`, `drizzle_con_connect` or `drizzle_query` call consumes the next scripted answer. That answer is a status, the waits after an IO_WAIT, an error text, and a row or result.
- Every row carries an identity, so each `drizzle_row_free` call can be traced. The freed rows are a real field of each cursor.
- The cursor invariant `Library.Sound` says that no identity occurs twice among the freed, held and still-to-come rows.

## Model

| member | source | states |
|---|---|---|
| Placeholders.ScanQuery | src/drizzle.cc:661-685 | The scanning loop (`escaped` flag, `quote` character, `delta` of deleted backslashes) yields exactly the reference scan `Pieces`: the template with each `\?` reduced to `?`, and the position of every placeholder in that text |
| Placeholders.EscapeStep | src/drizzle.cc:670-677 | Whatever the quote state, a backslash takes the next character with it: `\?` gives a literal `?` and no placeholder; any other pair is kept whole and neither opens nor closes a quote |
| Placeholders.EscapeHoles | src/drizzle.cc:670-677 | An escaped pair never adds a placeholder position, so no value is consumed by `\?` |
| Placeholders.QuotedLiteralVerbatim | src/drizzle.cc:678-685 | A literal opened by `'` or `"` is closed only by the same character; everything inside, including `?` and the other quote, is kept verbatim and is no placeholder |
| Placeholders.NoPlaceholderUnchanged | src/drizzle.cc:668-712 | A template without backslash or `?` has no placeholders and binds to itself |
| Placeholders.HolesConcat | src/drizzle.cc:682-684 | The placeholder positions of a concatenation are those of the first part followed by those of the second, shifted by the first part's length |
| Placeholders.OutsidePlain | src/drizzle.cc:678-685 | Outside a literal, characters other than a backslash, `?` or a quote are copied as they are and leave the scan outside any literal |
| Placeholders.OnePlaceholder | src/drizzle.cc:661-712 | In `x?y` with plain text around it, the only placeholder sits at the length of `x`, and binding `v` gives `x` + `v` + `y` |
| Placeholders.EscapedMarkExample | src/drizzle.cc:670-684 | `\? ?` has its only placeholder at 2 and binds `5` as `? 5` |
| Placeholders.Splice | src/drizzle.cc:691-710 | The substitution loop with a signed `delta` equals `Substitute`, which replaces the recorded positions right to left |
| Placeholders.FillIsSubstitute | src/drizzle.cc:691-712 | Splicing the k-th value at the k-th recorded position of the scanned text replaces the k-th placeholder by the k-th value and leaves all other text unchanged (`Fill`) |
| Placeholders.FilledLength | src/drizzle.cc:707-709 | The bound statement is as long as the scanned text plus, for every value, its length less one |
| Placeholders.SpliceAsWrittenAgrees | src/drizzle.cc:691-710 | The loop with its 32-bit `delta`, as written, gives the corrected result whenever every value renders non-empty and the total growth stays below 2^32 |
| Placeholders.EmptyRenderingThrows | src/query.cc:436-440 | For `? ?` with a null (empty) first value, the as-written loop throws `out_of_range` although the intended result is ` 1` (see Findings) |
| Statements.ParseQueryV1 | src/drizzle.cc:661-713 | The intended binding, with the corrected splice (see Findings): fails with "Wrong number of values to escape" exactly when the placeholder count differs from the value count; otherwise each placeholder is replaced by its value: `1`/`0`, the number text, or `'` + escape(s up to its first NUL) + `'`, and nothing for any other value |
| Statements.ParseQueryV2 | src/query.cc:403-443 | The intended binding, with the corrected splice (see Findings), as in `ParseQueryV1`; a missing values array counts as zero values and each value is rendered by `Query::value` |
| Statements.RenderValue | src/query.cc:445-479 | The recursive loop of `Query::value` writes exactly the reference rendering `Render` |
| Statements.RenderAll | src/query.cc:436-439 | The values are rendered one by one, in order |
| Statements.RenderListUniform | src/query.cc:453-461 | Children that are all arrays are joined with `),(`, children none of which is an array with `,` |
| Statements.FlatArrayRendering | src/query.cc:448-465 | A flat array renders as `(` + its items joined by `,` + `)` |
| Statements.TupleListRendering | src/query.cc:453-461 | An array of flat arrays renders as `(a,b),(c,d)`; the inner arrays get no parentheses of their own |
| Statements.MixedArrayRendering | src/query.cc:453-461 | Only the child after a separator decides it: for any number texts `x`, `y`, `z`, `[x,[y,z]]` gives `(x),(y,z)` and `[[x,y],z]` gives `(x,y,z)` |
| Statements.ScalarLiterals | src/query.cc:468-476 | In both revisions a boolean renders as `1`/`0` and a string `s` as `'` + escape(s up to its first NUL) + `'` |
| Statements.BoundStringUpToNul | src/drizzle.cc:701-704 | A string is read back as a C string before it is escaped: `a`, a NUL and anything after it bind as `'` + escape(a) + `'`; a string without NUL binds whole |
| Statements.UnsupportedValueVanishes | src/query.cc:445-478 | A value of no supported kind renders empty in both revisions, so `x?y`, with plain text around the placeholder, bound to null gives `xy` |
| Statements.RevisionsAgreeOnScalars | src/query.cc:466-476 | On booleans, numbers, strings and unsupported values both revisions bind the same text |
| Statements.EarlierRevisionDropsArrays | src/drizzle.cc:697-705 | The earlier revision binds arrays and dates as nothing; the later one quotes dates |
| Columns.Classify | src/drizzle/result.cc:5-50 | For each semantic type, exactly which wire types map to it: TINY of size 1 is BOOL, other TINY and the integer types are INT, and so on down to STRING for everything else |
| Columns.Describe | src/result.cc:4-49 | A descriptor keeps the column name, and is BOOL exactly for TINY of size 1 |
| Columns.DescribeAll | src/drizzle/result.cc:89-93 | One descriptor per library column, in order, with that column's name and its type as `Classify` gives it |
| Coercion.CellValue | src/drizzle.cc:598-654 | A cell is null exactly when it is NULL, whatever the type and `cast`; without cast it is its text; a BOOL is false only for `"0"` (the empty text gives true); a SET is its list of items; a DATE or DATETIME is the date that the converting revision parses |
| Coercion.CellRevisionsAgree | src/query.cc:340-396 | `Query::row` converts every cell as `Drizzle::row` does, except TIME, DATE and DATETIME. Dates are parsed per revision, because `parseDate` and `toDate` pass `mktime` different `tm_isdst` flags and accept different separators |
| Coercion.SplitSet | src/drizzle.cc:631-643 | The `getline` loop yields `SetItems`: the non-empty comma-separated segments, in order |
| Coercion.SetItemsWellFormed | src/drizzle.cc:637-641 | Every SET item is non-empty and comma-free |
| Coercion.SetItemsRoundTrip | src/drizzle.cc:631-643 | Splitting the comma-join of non-empty comma-free items gives the items back |
| Coercion.SetItemsExample | src/drizzle.cc:637-641 | For any two characters `a` and `b` other than a comma, `a,,b,` gives `["a", "b"]`: the empty segments are dropped |
| Coercion.ParseTime | src/drizzle.cc:760-764 | The result is below 2^16 and congruent to `hour*3600 + min*60 + sec` modulo 2^16 |
| Coercion.ParseTimeWraps | src/drizzle.cc:760-764 | `18:12:16` wraps to 0 and `18:12:15` gives 65535 |
| Coercion.ScanTimeRoundTrip | src/drizzle.cc:762 | `h:m:s` written in decimal is read back as `(h, m, s)` |
| Coercion.GmtDeltaBounds | src/query.cc:550-557 | For clock readings in range the offset lies in (-43200, 43200] and is a whole number of minutes |
| Coercion.GmtDeltaRevisionsAgree | src/drizzle.cc:734-740 | The two `if`s of `parseDate` and the `else if` of `Query::gmtDelta` always agree |
| Coercion.RowObject | src/drizzle.cc:591-659 | The column loop builds `RowOf`, each column's value stored under its name |
| Coercion.RowOfKeys | src/drizzle.cc:655 | The row object has exactly the column names as keys |
| Coercion.RowOfLastWins | src/drizzle.cc:655 | Under a repeated column name the last column's value is kept |
| Library.RetryIsOnceAfterWaits | src/drizzle/result.cc:137-162 | After IO_WAITs that were each waited out, the retrying fetch behaves as one fetch of the next answer |
| Library.FetchOnceIoWaitFails | src/result.cc:138-149 | The single fetch treats IO_WAIT as failure, frees the partial row and throws "Could not prefetch next row" |
| Library.FetchWithRetryWaitFails | src/drizzle/result.cc:143-150 | A failed wait or ready call throws its own message and frees nothing |
| Library.FetchWithRetryIds | src/drizzle/result.cc:137-162 | A fetch only moves row identities out of the library, never duplicating one |
| Library.FetchWithRetryConsumes | src/drizzle/result.cc:141-152 | Each fetch consumes an answer, the end of the rows gives no row, and a successful fetch frees nothing |
| Library.AdvanceWithRetrySound | src/drizzle/result.cc:121-135 | A successful retrying advance keeps the cursor invariant |
| Library.AdvanceOnceSound | src/result.cc:118-132 | A successful single-fetch advance keeps the cursor invariant |
| Library.ReleaseKeepsDistinct | src/drizzle/result.cc:106-112 | Freeing the held rows of a sound cursor frees none twice |
| CursorModel.NextExhausted | src/drizzle/result.cc:121-128 | Without a lookahead, `next()` returns no row and changes nothing but the free log: `rowNumber` and `previousRow` stay |
| CursorModel.NextAdvances | src/drizzle/result.cc:130-134 | With a lookahead, `next()` increments `rowNumber`, returns the former lookahead, keeps it as `previousRow` and fetches the next one |
| CursorModel.NextKeepsSound | src/drizzle/result.cc:121-135 | A successful `next()` on a cursor with a lookahead keeps the invariant |
| CursorModel.ReleaseDistinct | src/drizzle/result.cc:99-115 | Destroying a sound cursor frees every row at most once |
| CursorModel.ExhaustedNextDoubleFree | src/drizzle/result.cc:122-128 | `next()` on an exhausted cursor holding a previous row frees it without clearing it, so destruction frees it twice |
| CursorModel.FailedFetchDoubleFree | src/drizzle/result.cc:130-132 | When the fetch inside `next()` fails, `previousRow` and `nextRow` are the same row, so destruction frees it twice |
| CursorModel.ExhaustedNextExample | src/drizzle/result.cc:107-109 | One row read with two `next()` calls reaches `drizzle_row_free` twice |
| CursorModel.FailedFetchExample | src/drizzle/result.cc:154-159 | A failure right after the first row: `next()` throws and that row reaches `drizzle_row_free` twice |
| CursorModel.ConstructedFresh | src/drizzle/result.cc:63-97 | A constructed cursor stands before its first row, has freed nothing, and describes every column |
| CursorModel.ConstructRefusals | src/drizzle/result.cc:72-79 | A null handle throws "Invalid result"; a failed column buffering throws, freeing the result only in the retrying revision |
| CursorModel.ConstructedLookahead | src/drizzle/result.cc:96 | A prefetching constructor succeeds exactly when the fetch does, with the fetched row as lookahead; otherwise it throws the fetch's error, with the result not freed |
| CursorModel.ZeroColumnsNoLookahead | src/result.cc:79-94 | A single-fetch cursor over a result without columns fetches nothing, so `hasNext()` is false from the start |
| CursorModel.RetryingPrefetchesWithoutColumns | src/drizzle/result.cc:81-96 | The retrying cursor prefetches even without columns |
| CursorModel.ConstructSound | src/drizzle/result.cc:96 | A cursor built over distinct, well-shaped rows starts out sound |
| DrizzleResult.Cursor.Init | src/drizzle/result.cc:63-70 | The member initialisers: no rows, nothing freed |
| DrizzleResult.Cursor.FetchRow | src/drizzle/result.cc:137-163 | The IO_WAIT loop returns, consumes and frees exactly what `FetchWithRetry` says |
| DrizzleResult.Cursor.HasNext | src/drizzle/result.cc:117-119 | `hasNext()` holds exactly when `next()` would not report the end of the rows |
| DrizzleResult.Cursor.Next | src/drizzle/result.cc:121-135 | The fields after `next()` and its result are those of `CursorModel.NextWith` |
| DrizzleResult.Cursor.Index | src/drizzle/result.cc:165-170 | Throws "Not standing on a row" exactly while `rowNumber` is 0, otherwise returns `rowNumber - 1` |
| DrizzleResult.Cursor.ColumnAt | src/drizzle/result.cc:172-177 | Throws "Wrong column index" exactly for `i` past the last column, otherwise returns column `i` |
| DrizzleResult.Cursor.ColumnCount | src/drizzle/result.cc:191-193 | The number of columns recorded at construction |
| DrizzleResult.Cursor.Destroy | src/drizzle/result.cc:99-115 | Frees the previous then the next row (`CursorModel.Release`), then the result |
| DrizzleResult.Create | src/drizzle/result.cc:63-97 | The constructor's exceptions and its new cursor are those of `CursorModel.Construct` for the retrying revision |
| NodeDbResult.Cursor.Init | src/result.cc:62-70 | The member initialisers, with `empty` true |
| NodeDbResult.Cursor.FetchRow | src/result.cc:138-149 | One `drizzle_row_buffer` call, as `FetchOnce` says |
| NodeDbResult.Cursor.HasNext | src/result.cc:114-116 | `hasNext()` holds exactly when `next()` with the single fetch would not report the end of the rows |
| NodeDbResult.Cursor.Next | src/result.cc:118-132 | The fields after `next()` and its result are those of `CursorModel.NextWith` with the single fetch |
| NodeDbResult.Cursor.Index | src/result.cc:151-156 | Throws before the first `next()`, otherwise returns `rowNumber - 1` |
| NodeDbResult.Cursor.ColumnAt | src/result.cc:158-163 | Throws for an out-of-range index, otherwise returns that column |
| NodeDbResult.Cursor.ColumnCount | src/result.cc:177-179 | The number of columns recorded at construction |
| NodeDbResult.Cursor.Count | src/result.cc:181-186 | Throws "Result is not buffered" exactly when the result is not buffered, otherwise returns the row count |
| NodeDbResult.Cursor.IsBuffered | src/result.cc:188-190 | `isBuffered()` holds exactly when `count()` does not throw |
| NodeDbResult.Cursor.IsEmpty | src/result.cc:192-194 | On a sound cursor, `isEmpty()` holds exactly when the result has no columns |
| NodeDbResult.Cursor.Destroy | src/result.cc:97-112 | Frees the previous, then the next row; the result stays with its owner |
| NodeDbResult.Create | src/result.cc:62-95 | As `CursorModel.Construct` for the single-fetch revision; `isEmpty()` is true exactly for a result without columns |
| QueryBuffer.CopyCell | src/query.cc:143-147 | The copy of a cell is null exactly when the cell is NULL; otherwise it is the longest NUL-free prefix of the cell's text, ending where the text has its first NUL |
| QueryBuffer.CopyRow | src/query.cc:142-148 | The loop over the first `columnCount()` cells gives each cell's copy (`CopyCell`), in order |
| QueryBuffer.NulFreeCellsKept | src/query.cc:142-148 | Cells holding no NUL of their own are buffered unchanged |
| QueryBuffer.BufferRows | src/query.cc:134-151 | One buffered row per successful `next()`, in cursor order, with its cells copied as `CopyRow` copies them; the first exception of `next()` ends the buffering. The columns never change. On success the cursor is sound and exhausted; after an exception it holds `previousRow == nextRow` |
| QueryBuffer.DrainStep | src/query.cc:135-136 | The row `next()` returns comes first in what the cursor yields, or its exception ends the reading |
| QueryBuffer.DrainInOrder | src/query.cc:134-149 | A cursor over a library that hands out rows one by one yields them all, in order |
| QueryBuffer.DrainShaped | src/query.cc:136-148 | Every row a sound cursor yields has `columnCount()` cells |
| Sessions.RetriesIgnored | src/drizzle/connection.cc:99-115 | Each IO_WAIT that is waited out just goes round the loop again; the first other answer ends it |
| Sessions.ConnectOutcomes | src/drizzle/connection.cc:99-115 | A connect succeeds exactly on an OK answer; other statuses throw the library's error, and a failed wait or ready call throws its own message |
| Sessions.ExecuteOutcomes | src/drizzle/connection.cc:150-180 | A query returns a result exactly when the loop ends OK with a result; a lost connection throws "Lost connection while executing query"; an OK without result throws "Could not fetch result of query"; the partial result is freed exactly when the loop threw |
| Sessions.LostConnectionMessages | src/connection.cc:123-130 | Only the query loop has a message of its own for a lost connection |
| Sessions.CloseIdempotent | src/drizzle/connection.cc:126-133 | `close()` leaves no connection and not opened, and a second `close()` does nothing |
| Sessions.OpenOutcome | src/drizzle/connection.cc:73-124 | `open()` succeeds exactly when the context and connection structure exist and the connect loop succeeds, leaving it opened on the new handle; any failure leaves no connection and not opened |
| Sessions.OpenClosesFirst | src/drizzle/connection.cc:73-96 | `open()` first closes, then configures the new structure with the current settings; a failing connect loop then frees it |
| Sessions.LifecycleKeepsConnected | src/connection.cc:29-89 | Every operation keeps "opened implies a connection handle" |
| Sessions.VersionWhenClosed | src/drizzle/connection.cc:135-141 | `version()` is empty unless opened, and otherwise the server's version |
| Sessions.QueryChangesOnlyEffects | src/drizzle/connection.cc:143-182 | `query()` refuses when not opened and otherwise changes only the library calls, by freeing a partial result |
| DrizzleConnection.Connection.constructor | src/drizzle/connection.cc:5-12 | Port 3306, MySQL protocol, not opened |
| DrizzleConnection.Connection.GetHostname | src/drizzle/connection.cc:21-23 | `getHostname()` is the corresponding field of the settings that `open()` connects with |
| DrizzleConnection.Connection.GetUser | src/drizzle/connection.cc:29-31 | `getUser()` is the corresponding field of the settings that `open()` connects with |
| DrizzleConnection.Connection.GetPassword | src/drizzle/connection.cc:37-39 | `getPassword()` is the corresponding field of the settings that `open()` connects with |
| DrizzleConnection.Connection.GetDatabase | src/drizzle/connection.cc:45-47 | `getDatabase()` is the corresponding field of the settings that `open()` connects with |
| DrizzleConnection.Connection.GetPort | src/drizzle/connection.cc:53-55 | `getPort()` is the corresponding field of the settings that `open()` connects with |
| DrizzleConnection.Connection.IsMysql | src/drizzle/connection.cc:61-63 | `isMysql()` is the corresponding field of the settings that `open()` connects with |
| DrizzleConnection.Connection.IsOpened | src/drizzle/connection.cc:69-71 | `isOpened()` is the session's opened flag; while it is false, `version()` is empty |
| DrizzleConnection.Connection.SetHostname | src/drizzle/connection.cc:25-27 | Read back unchanged by its getter; nothing else changes |
| DrizzleConnection.Connection.SetUser | src/drizzle/connection.cc:33-35 | Read back unchanged by its getter; nothing else changes |
| DrizzleConnection.Connection.SetPassword | src/drizzle/connection.cc:41-43 | Read back unchanged by its getter; nothing else changes |
| DrizzleConnection.Connection.SetDatabase | src/drizzle/connection.cc:49-51 | Read back unchanged by its getter; nothing else changes |
| DrizzleConnection.Connection.SetPort | src/drizzle/connection.cc:57-59 | Read back unchanged by its getter; nothing else changes |
| DrizzleConnection.Connection.SetMysql | src/drizzle/connection.cc:65-67 | Read back unchanged by its getter; nothing else changes |
| DrizzleConnection.Connection.Close | src/drizzle/connection.cc:126-133 | The new state is `Sessions.Close` of the old |
| DrizzleConnection.Connection.Open | src/drizzle/connection.cc:73-124 | The new state and the exception are `Sessions.Open` of the old state and the current settings |
| DrizzleConnection.Connection.Version | src/drizzle/connection.cc:135-141 | Empty when not opened; `Sessions.Version` of the state |
| DrizzleConnection.Connection.Query | src/drizzle/connection.cc:143-183 | The new state and the result are `Sessions.Query` of the old state |
| DrizzleConnection.Connection.Destroy | src/drizzle/connection.cc:14-19 | `close()`, then the context is freed |
| NodeDbConnection.Connection.constructor | src/connection.cc:4-12 | MySQL protocol; `'` quotes strings, `` ` `` quotes fields and tables; the given host, credentials, database and port become the settings |
| NodeDbConnection.Connection.IsMysql | src/connection.cc:21-23 | `isMysql()` is the protocol flag of the settings that `open()` connects with |
| NodeDbConnection.Connection.SetMysql | src/connection.cc:25-27 | Read back unchanged by `isMysql()` |
| NodeDbConnection.Connection.Escape | src/connection.cc:91-102 | The library's escaped text placed in a buffer of `2*len+1` characters and read back up to the first NUL |
| Texts.UpToNul | src/connection.cc:99 | Reading a C string back: the longest NUL-free prefix, stopping at the first NUL |
| Texts.NulFreeWhole | src/connection.cc:97-99 | A text without a NUL of its own is read back whole, so escaped text without NUL is returned entire |
| NodeDbConnection.Connection.Close | src/connection.cc:82-89 | The new state is `Sessions.Close` of the old |
| NodeDbConnection.Connection.Open | src/connection.cc:29-80 | The new state and the exception are `Sessions.Open` of the old state and the current settings |
| NodeDbConnection.Connection.Version | src/connection.cc:104-110 | Empty when not opened; `Sessions.Version` of the state |
| NodeDbConnection.Connection.Query | src/connection.cc:112-152 | The new state and the result are `Sessions.Query` of the old state |
| NodeDbConnection.Connection.Destroy | src/connection.cc:14-19 | `close()`, then the context is freed |

## Left out

- V8 and node glue is not modelled: argument checks, `Persistent` handles, node `Buffer` creation and the JavaScript wrappers. `HostValue` names the value a cell becomes instead of building it.
- The eio and ev scheduling and the `each` callbacks are not modelled. `Query::eioExecute` is modelled only in its buffering loop.
- Dates are not computed, because that depends on libc and the time zone. This covers `mktime`, `localtime_r`, `gmtime_r`, `strftime`, and so `parseDate`, `toDate`, `toTime` and `fromDate`. Date cells keep their text and the revision that parses them, date values carry the text `fromDate` prints, and only the `gmtDelta` arithmetic is kept; the clock readings are parameters.
- Coercion.CellValue: INT and NUMBER cells keep their text and do not model the V8 `ToInteger` or `atof` conversion, because that is floating-point and V8 behaviour. Likewise a number to be bound carries the text `ostream << double` prints.
- Coercion.ScanTime: reads only unsigned decimal fields separated by `:`. `sscanf`'s leading whitespace and signs are not modelled, and a partial scan yields `Indeterminate`, because the fields left unread are uninitialised.
- Coercion.CellValue: in `Drizzle::row`, `parseTime`'s count of seconds is passed to `Date::New`, which takes milliseconds. The model records the stamp as given.
- Failing allocations are not modelled: `new` returning NULL, and the "Could not allocate storage for columns" and "Could not create buffer for row" errors. The same holds for the `drizzle_create` or `drizzle_con_create` failure other than as scripted answers.
- Templates of 2^32 characters or more are not modelled; positions are unbounded integers.
- libdrizzle itself is a plain-value stand-in: connect, query, row fetching and `drizzle_escape_string` are scripted answers or a function parameter. `drizzle_con_error` and `drizzle_con_server_version` are data carried by those answers.
- `insertId`, `affectedCount`, `warningCount` and `columnLengths` only return what libdrizzle reports, so they are not modelled.
- Rows that libdrizzle hands out together with an IO_WAIT in the retry loop are not tracked; their freeing is left to the library.
- `isAlive` is declared in src/connection.h but not defined in the files modelled.
- The base class `node_db::Connection` (src/node-db/connection.h) is not part of this model. `NodeDbConnection.Connection` takes its host, credentials, database and port as constructor arguments, and the connection starts closed.
- Sessions.Connect and Sessions.Execute: the retry loops are modelled only for scripts that eventually answer other than "IO_WAIT, then ready" (`Settles`). A library that keeps asking to wait would make the source loop forever.
- Query in both connections returns the libdrizzle result handle. Wrapping it with `new Result(...)` is the constructor `DrizzleResult.Create` or `NodeDbResult.Create`, whose exceptions propagate unchanged.
- Statements.ParseQueryV1: binds with the corrected splice `Placeholders.Splice`. The source's loop with its 32-bit `delta` is `Placeholders.SpliceAsWritten`, and it throws where an empty rendering wraps `delta` (see Findings).
- Statements.ParseQueryV2: binds with the corrected splice, as `Statements.ParseQueryV1` does; the loop at src/query.cc:434-440 has the same 32-bit `delta`.
- Strings are sequences of characters. The UTF-8 encoding `String::Utf8Value` produces is not modelled, only that the bound text ends at the first NUL.
- Cursor hazards are recorded, not corrected. The source never clears `previousRow` after freeing it, and a failed fetch inside `next()` leaves `previousRow == nextRow`. `CursorModel.ExhaustedNextDoubleFree` and `CursorModel.FailedFetchDoubleFree` prove that the destructor then frees that row twice. `QueryBuffer.BufferRows` calls `next()` only while `hasNext()` holds, so it avoids the first hazard. When `next()` throws, it returns in the state with `previousRow == nextRow`, where the second hazard applies.

## Findings

| source | as written | input that shows it | evidently intended | confidence | as-written member | corrected member |
|---|---|---|---|---|---|---|
| src/drizzle.cc:691-710 | `delta` is a `uint32_t` (the loop at src/query.cc:434-440 is the same), and adding `value.length() - 1` for an empty rendering (null, undefined, an object; in the earlier revision also an array or a date) wraps it to 2^32 - 1 when the growth so far is 0. When another placeholder follows, its position is then computed in 64-bit `size_t` and lies past the end, so `std::string::replace` throws `std::out_of_range`, which the binding neither catches nor reports as a query error | `? ?` with values `[null, 1]` | Each placeholder is replaced by its rendering, here ` 1`; an empty rendering removes the placeholder | not executed | Placeholders.SpliceAsWritten (shown by Placeholders.EmptyRenderingThrows) | Placeholders.Splice (with Placeholders.FillIsSubstitute) |
