/**
 * `drizzle::Result` (src/drizzle/result.cc): a forward-only cursor over a
 * result with one row of lookahead, fetching with a retry on IO_WAIT. Its
 * row bookkeeping follows `CursorModel` with the `Retrying` revision.
 */
module DrizzleResult {
  import opened Wrappers
  import opened Columns
  import opened Library
  import opened CursorModel

  const NotOnRow := "Not standing on a row"
  const WrongColumn := "Wrong column index"

  class Cursor {
    /** `columns` and `totalColumns`: one descriptor per result column. */
    var columns: seq<Column>
    var rowNumber: nat
    var previousRow: Option<Row>
    var nextRow: Option<Row>
    /** The library's answers to the `drizzle_row_buffer` calls still to come. */
    var script: seq<RowFetch>
    /** The rows handed to `drizzle_row_free`, in order. */
    var freed: seq<nat>
    /** Whether `drizzle_result_free` was called. */
    var resultFreed: bool

    /** The row bookkeeping of this cursor as a value. */
    function State(): Lookahead
      reads this
    {
      Lookahead(rowNumber, previousRow, nextRow, script, freed)
    }

    /** No row is freed twice or held after it was freed, and every row has a cell per column. */
    predicate Valid()
      reads this
    {
      SoundState(State(), |columns|)
    }

    /** The member initialisers: no row yet, nothing freed. */
    constructor Init(columns: seq<Column>, script: seq<RowFetch>)
      ensures this.columns == columns && !resultFreed
      ensures State() == Lookahead(0, None, None, script, [])
    {
      this.columns := columns;
      this.script := script;
      rowNumber := 0;
      previousRow := None;
      nextRow := None;
      freed := [];
      resultFreed := false;
    }

    /**
     * `row()`: call `drizzle_row_buffer` until it answers other than IO_WAIT,
     * waiting on the connection in between; a final status other than OK frees
     * the partial row and fails.
     */
    method FetchRow() returns (r: Result<Option<Row>, string>)
      modifies this`script, this`freed
      ensures var f := FetchWithRetry(old(script));
        r == f.outcome && script == f.rest && freed == old(freed) + f.freed
    {
      var status := IoWait;
      var row: Option<Row> := None;
      while status == IoWait
        invariant status == IoWait ==> FetchWithRetry(script) == FetchWithRetry(old(script))
        invariant status != IoWait ==> FetchWithRetry(old(script)) == Settle(status, row, script)
        invariant freed == old(freed)
        decreases |script| + (if status == IoWait then 1 else 0)
      {
        var answer := NextFetch(script);
        script := Advance(script);
        row := answer.row;
        status := answer.status;
        if status == IoWait {
          if answer.wait == WaitFailed {
            return Failure(WaitError);
          }
          if answer.wait == NotReady {
            return Failure(ReadyError);
          }
        }
      }
      if status != Ok {
        if row.Some? {
          freed := freed + [row.value.id];
        }
        return Failure(PrefetchError);
      }
      return Success(row);
    }

    /** `hasNext()`. */
    function HasNext(): (r: bool)
      reads this
      ensures r <==> NextWith(State(), Retrying).result != Success(None)
    {
      nextRow.Some?
    }

    /**
     * `next()`: frees the previous row without clearing `previousRow`, then
     * either reports the end or advances and prefetches (`CursorModel.NextWith`).
     */
    method Next() returns (r: Result<Option<Row>, string>)
      modifies this
      ensures var st := NextWith(old(State()), Retrying); State() == st.after && r == st.result
      ensures columns == old(columns) && resultFreed == old(resultFreed)
    {
      if previousRow.Some? {
        freed := freed + [previousRow.value.id];
      }
      if nextRow.None? {
        return Success(None);
      }
      rowNumber := rowNumber + 1;
      previousRow := nextRow;
      var fetched := FetchRow();
      if fetched.Failure? {
        return Failure(fetched.error);
      }
      nextRow := fetched.value;
      return Success(previousRow);
    }

    /** `index()`: the position of the current row, counted from 0. */
    function Index(): (r: Result<nat, string>)
      reads this
      ensures r.Success? <==> rowNumber > 0
      ensures r.Success? ==> r.value + 1 == rowNumber
      ensures r.Failure? ==> r.error == NotOnRow
    {
      if rowNumber == 0 then Failure(NotOnRow) else Success(rowNumber - 1)
    }

    /** `column(i)`. */
    function ColumnAt(i: nat): (r: Result<Column, string>)
      reads this
      ensures r.Success? <==> i < |columns|
      ensures r.Success? ==> r.value == columns[i]
      ensures r.Failure? ==> r.error == WrongColumn
    {
      if i >= |columns| then Failure(WrongColumn) else Success(columns[i])
    }

    /** `columnCount()`. */
    function ColumnCount(): (n: nat)
      reads this
      ensures n == |columns|
    {
      |columns|
    }

    /** The destructor: frees the previous and the next row, if any, then the result. */
    method Destroy()
      modifies this
      ensures freed == Release(old(State()))
      ensures resultFreed
      ensures columns == old(columns) && rowNumber == old(rowNumber)
      ensures previousRow == old(previousRow) && nextRow == old(nextRow) && script == old(script)
    {
      if previousRow.Some? {
        freed := freed + [previousRow.value.id];
      }
      if nextRow.Some? {
        freed := freed + [nextRow.value.id];
      }
      resultFreed := true;
    }
  }

  /** What the constructor leaves: a cursor, or the exception it threw and what it released. */
  datatype Built = Built(cursor: Cursor) | Thrown(message: string, resultFreed: bool, freed: seq<nat>)

  /**
   * The constructor (`CursorModel.Construct` with `Retrying`): reject a null
   * handle, buffer the column descriptions (freeing the result if that
   * fails), describe every column and prefetch the lookahead.
   */
  method Create(handle: Option<ResultHandle>) returns (b: Built)
    ensures handle.Some? && b.Built? && Distinct(ScriptIds(handle.value.script)) && RowsShaped(handle.value.script, |handle.value.wire|)
      ==> b.cursor.Valid()
    ensures match Construct(handle, Retrying)
      case Refused(m, rf, fr) => b == Thrown(m, rf, fr)
      case Constructed(st, cols) =>
        b.Built? && fresh(b.cursor) && b.cursor.State() == st && b.cursor.columns == cols && !b.cursor.resultFreed
  {
    if handle.None? {
      return Thrown(InvalidResult, false, []);
    }
    var h := handle.value;
    if h.columnBuffer != Ok {
      return Thrown(BufferColumnsError, true, []);
    }
    var columns := DescribeAll(h.wire);
    assert columns == Describes(h.wire);
    var c := new Cursor.Init(columns, h.script);
    var prefetched := c.FetchRow();
    if prefetched.Failure? {
      return Thrown(prefetched.error, false, c.freed);
    }
    c.nextRow := prefetched.value;
    if Distinct(ScriptIds(h.script)) && RowsShaped(h.script, |h.wire|) {
      assert Construct(handle, Retrying).Constructed? && c.State() == Construct(handle, Retrying).state;
      assert |c.columns| == |h.wire|;
      ConstructSound(h, Retrying);
    }
    return Built(c);
  }
}
