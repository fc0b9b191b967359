/**
 * `node_db_drizzle::Result` (src/result.cc): the earlier revision of the
 * cursor. It fetches each row with a single `drizzle_row_buffer` call,
 * prefetches only when the result has columns, records whether it has none,
 * and leaves the result handle to its owner. Its row bookkeeping follows
 * `CursorModel` with the `SingleFetch` revision.
 */
module NodeDbResult {
  import opened Wrappers
  import opened Columns
  import opened Library
  import opened CursorModel

  const NotOnRow := "Not standing on a row"
  const WrongColumn := "Wrong column index"
  const NotBuffered := "Result is not buffered"

  class Cursor {
    var columns: seq<Column>
    var rowNumber: nat
    /** True iff the result has no columns. */
    var empty: bool
    var previousRow: Option<Row>
    var nextRow: Option<Row>
    var script: seq<RowFetch>
    var freed: seq<nat>
    /** The result's `DRIZZLE_RESULT_BUFFER_ROW` option and `drizzle_result_row_count`. */
    var bufferedRows: bool
    var rowCount: nat

    function State(): Lookahead
      reads this
    {
      Lookahead(rowNumber, previousRow, nextRow, script, freed)
    }

    predicate Valid()
      reads this
    {
      SoundState(State(), |columns|) && empty == (|columns| == 0)
    }

    /** The member initialisers. */
    constructor Init(script: seq<RowFetch>, bufferedRows: bool, rowCount: nat)
      ensures columns == [] && empty
      ensures State() == Lookahead(0, None, None, script, [])
      ensures this.bufferedRows == bufferedRows && this.rowCount == rowCount
    {
      columns := [];
      rowNumber := 0;
      empty := true;
      previousRow := None;
      nextRow := None;
      this.script := script;
      freed := [];
      this.bufferedRows := bufferedRows;
      this.rowCount := rowCount;
    }

    /** `row()`: one `drizzle_row_buffer` call; any status but OK frees the partial row and fails. */
    method FetchRow() returns (r: Result<Option<Row>, string>)
      modifies this`script, this`freed
      ensures var f := FetchOnce(old(script));
        r == f.outcome && script == f.rest && freed == old(freed) + f.freed
    {
      var answer := NextFetch(script);
      script := Advance(script);
      if answer.status != Ok {
        if answer.row.Some? {
          freed := freed + [answer.row.value.id];
        }
        return Failure(PrefetchError);
      }
      return Success(answer.row);
    }

    function HasNext(): (r: bool)
      reads this
      ensures r <==> NextWith(State(), SingleFetch).result != Success(None)
    {
      nextRow.Some?
    }

    /** `next()`, as `CursorModel.NextWith` with the single fetch. */
    method Next() returns (r: Result<Option<Row>, string>)
      modifies this
      ensures var st := NextWith(old(State()), SingleFetch); State() == st.after && r == st.result
      ensures columns == old(columns) && empty == old(empty)
      ensures bufferedRows == old(bufferedRows) && rowCount == old(rowCount)
    {
      if previousRow.Some? {
        freed := freed + [previousRow.value.id];
      }
      if nextRow.None? {
        return Success(None);
      }
      rowNumber := rowNumber + 1;
      previousRow := nextRow;
      var fetched := FetchRow();
      if fetched.Failure? {
        return Failure(fetched.error);
      }
      nextRow := fetched.value;
      return Success(previousRow);
    }

    function Index(): (r: Result<nat, string>)
      reads this
      ensures r.Success? <==> rowNumber > 0
      ensures r.Success? ==> r.value + 1 == rowNumber
      ensures r.Failure? ==> r.error == NotOnRow
    {
      if rowNumber == 0 then Failure(NotOnRow) else Success(rowNumber - 1)
    }

    function ColumnAt(i: nat): (r: Result<Column, string>)
      reads this
      ensures r.Success? <==> i < |columns|
      ensures r.Success? ==> r.value == columns[i]
      ensures r.Failure? ==> r.error == WrongColumn
    {
      if i >= |columns| then Failure(WrongColumn) else Success(columns[i])
    }

    function ColumnCount(): (n: nat)
      reads this
      ensures n == |columns|
    {
      |columns|
    }

    /** `isBuffered()`. */
    function IsBuffered(): (r: bool)
      reads this
      ensures r <==> Count().Success?
    {
      bufferedRows
    }

    /** `count()`: the row count of a buffered result; an unbuffered one throws. */
    function Count(): (r: Result<nat, string>)
      reads this
      ensures r.Success? <==> bufferedRows
      ensures r.Success? ==> r.value == rowCount
      ensures r.Failure? ==> r.error == NotBuffered
    {
      if !bufferedRows then Failure(NotBuffered) else Success(rowCount)
    }

    /** `isEmpty()`. */
    function IsEmpty(): (r: bool)
      reads this
      ensures Valid() ==> (r <==> ColumnCount() == 0)
    {
      empty
    }

    /** The destructor: frees the previous and the next row; the result itself stays with its owner. */
    method Destroy()
      modifies this
      ensures freed == Release(old(State()))
      ensures columns == old(columns) && rowNumber == old(rowNumber)
      ensures previousRow == old(previousRow) && nextRow == old(nextRow) && script == old(script)
    {
      if previousRow.Some? {
        freed := freed + [previousRow.value.id];
      }
      if nextRow.Some? {
        freed := freed + [nextRow.value.id];
      }
    }
  }

  datatype Built = Built(cursor: Cursor) | Thrown(message: string, freed: seq<nat>)

  /**
   * The constructor (`CursorModel.Construct` with `SingleFetch`): reject a
   * null handle, buffer the column descriptions, and only for a result with
   * columns describe them and prefetch the lookahead.
   */
  method Create(handle: Option<ResultHandle>) returns (b: Built)
    ensures handle.Some? && b.Built? && Distinct(ScriptIds(handle.value.script)) && RowsShaped(handle.value.script, |handle.value.wire|)
      ==> b.cursor.Valid()
    ensures match Construct(handle, SingleFetch)
      case Refused(m, _, fr) => b == Thrown(m, fr)
      case Constructed(st, cols) =>
        && b.Built? && fresh(b.cursor) && b.cursor.State() == st && b.cursor.columns == cols
        && b.cursor.empty == (|handle.value.wire| == 0)
        && b.cursor.bufferedRows == handle.value.bufferedRows && b.cursor.rowCount == handle.value.rowCount
  {
    if handle.None? {
      return Thrown(InvalidResult, []);
    }
    var h := handle.value;
    if h.columnBuffer != Ok {
      return Thrown(BufferColumnsError, []);
    }
    var c := new Cursor.Init(h.script, h.bufferedRows, h.rowCount);
    if |h.wire| > 0 {
      c.empty := false;
      var columns := DescribeAll(h.wire);
      assert columns == Describes(h.wire);
      c.columns := columns;
      var prefetched := c.FetchRow();
      if prefetched.Failure? {
        return Thrown(prefetched.error, c.freed);
      }
      c.nextRow := prefetched.value;
    }
    if Distinct(ScriptIds(h.script)) && RowsShaped(h.script, |h.wire|) {
      assert Construct(handle, SingleFetch).Constructed? && c.State() == Construct(handle, SingleFetch).state;
      assert |c.columns| == |h.wire| && c.empty == (|h.wire| == 0);
      ConstructSound(h, SingleFetch);
    }
    return Built(c);
  }
}
