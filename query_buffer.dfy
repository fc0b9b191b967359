/**
 * The row buffering of `Query::eioExecute` (src/query.cc): read the cursor
 * while `hasNext()` holds and copy each row, cell by cell, into a buffer of
 * `columnCount()` cells, keeping SQL NULL as a null entry. Each other cell
 * is copied as a C string, so the copy ends at the cell's first NUL.
 */
module QueryBuffer {
  import opened Wrappers
  import opened Library
  import opened CursorModel
  import opened DrizzleResult
  import opened Texts

  /** What `new std::string(cell)` keeps of one cell: null stays null, text is read up to its first NUL. */
  function CopyCell(cell: Option<string>): (r: Option<string>)
    ensures r.None? <==> cell.None?
    ensures r.Some? ==> '\0' !in r.value && |r.value| <= |cell.value| && r.value == cell.value[..|r.value|]
    ensures r.Some? && |r.value| < |cell.value| ==> cell.value[|r.value|] == '\0'
  {
    match cell
    case None => None
    case Some(t) => Some(UpToNul(t))
  }

  /** The copies of a row's cells, in order. */
  function CopiedCells(cells: seq<Option<string>>): (r: seq<Option<string>>)
    ensures |r| == |cells|
  {
    seq(|cells|, i requires 0 <= i < |cells| => CopyCell(cells[i]))
  }

  /** The buffered copies of the rows, in order. */
  function CellsOf(rows: seq<Row>): (r: seq<seq<Option<string>>>)
    ensures |r| == |rows|
  {
    seq(|rows|, k requires 0 <= k < |rows| => CopiedCells(rows[k].cells))
  }

  /** Cells holding no NUL of their own are buffered unchanged. */
  lemma NulFreeCellsKept(cells: seq<Option<string>>)
    requires forall i :: 0 <= i < |cells| && cells[i].Some? ==> '\0' !in cells[i].value
    ensures CopiedCells(cells) == cells
  {
    forall i | 0 <= i < |cells|
      ensures CopiedCells(cells)[i] == cells[i]
    {
      if cells[i].Some? {
        NulFreeWhole(cells[i].value);
      }
    }
  }

  /** The rows already read, in front of what the rest of the cursor yields. */
  function Prepend(seen: seq<Row>, rest: Result<seq<Row>, string>): Result<seq<Row>, string> {
    match rest
    case Failure(e) => Failure(e)
    case Success(rows) => Success(seen + rows)
  }

  lemma PrependNothing(rest: Result<seq<Row>, string>)
    ensures Prepend([], rest) == rest
  {
    if rest.Success? {
      assert [] + rest.value == rest.value;
    }
  }

  lemma PrependAppend(seen: seq<Row>, row: Row, rest: Result<seq<Row>, string>)
    ensures Prepend(seen, Prepend([row], rest)) == Prepend(seen + [row], rest)
  {
    if rest.Success? {
      assert seen + ([row] + rest.value) == seen + [row] + rest.value;
    }
  }

  /** One `next()` on a cursor with a lookahead: the row it returns comes first in what the cursor yields, or its exception ends the reading. */
  lemma DrainStep(s: Lookahead)
    requires s.nextRow.Some?
    ensures var st := NextWith(s, Retrying);
      && (st.result.Failure? ==> Drain(s.nextRow, s.script) == Failure(st.result.error))
      && (st.result.Success? ==> Drain(s.nextRow, s.script) == Prepend([s.nextRow.value], Drain(st.after.nextRow, st.after.script)))
  {
  }

  /** The inner loop: a copy of the first `count` cells, null where the cell is NULL, text up to its first NUL. */
  method CopyRow(row: Row, count: nat) returns (cells: seq<Option<string>>)
    requires count <= |row.cells|
    ensures cells == CopiedCells(row.cells[..count])
  {
    cells := [];
    var i := 0;
    while i < count
      invariant 0 <= i <= count
      invariant cells == CopiedCells(row.cells[..i])
    {
      if row.cells[i].Some? {
        cells := cells + [Some(UpToNul(row.cells[i].value))];
      } else {
        cells := cells + [None];
      }
      assert row.cells[..i + 1][..i] == row.cells[..i];
      i := i + 1;
    }
  }

  /**
   * The buffering loop: every row the cursor yields, in order, or the first
   * exception of `next()`, after which the partial buffer is dropped.
   */
  method BufferRows(c: Cursor) returns (r: Result<seq<seq<Option<string>>>, string>)
    requires c.Valid()
    modifies c
    ensures match Drain(old(c.nextRow), old(c.script))
      case Failure(e) => r == Failure(e)
      case Success(rows) => r == Success(CellsOf(rows))
    ensures c.columns == old(c.columns)
    ensures r.Success? ==> c.Valid() && !c.HasNext()
    ensures r.Failure? ==> c.previousRow.Some? && c.previousRow == c.nextRow
  {
    var columnCount := c.ColumnCount();
    var buffered: seq<seq<Option<string>>> := [];
    ghost var seen: seq<Row> := [];
    PrependNothing(Drain(c.nextRow, c.script));
    while c.HasNext()
      invariant c.Valid() && |c.columns| == columnCount && c.columns == old(c.columns)
      invariant Drain(old(c.nextRow), old(c.script)) == Prepend(seen, Drain(c.nextRow, c.script))
      invariant buffered == CellsOf(seen)
      decreases |c.script|, if c.HasNext() then 1 else 0
    {
      FetchWithRetryConsumes(c.script);
      ghost var s := c.State();
      var current := c.Next();
      DrainStep(s);
      if current.Failure? {
        return Failure(current.error);
      }
      NextKeepsSound(s, Retrying, columnCount);
      var row := current.value.value;
      var cells := CopyRow(row, columnCount);
      assert row.cells[..columnCount] == row.cells;
      PrependAppend(seen, row, Drain(c.nextRow, c.script));
      seen := seen + [row];
      buffered := buffered + [cells];
    }
    assert seen + [] == seen;
    return Success(buffered);
  }

  // ------------------------------------------------------------------
  // What a drained cursor yields

  /** A script that hands out `rows` one by one and then reports the end. */
  function Answers(rows: seq<Row>): (script: seq<RowFetch>)
    ensures |script| == |rows|
  {
    seq(|rows|, k requires 0 <= k < |rows| => RowFetch(Ok, Some(rows[k]), Ready))
  }

  /** Reading a cursor over a library that answers every call with a row yields those rows in order. */
  lemma {:induction false} DrainInOrder(first: Row, rows: seq<Row>)
    ensures Drain(Some(first), Answers(rows)) == Success([first] + rows)
    decreases |rows|
  {
    var script := Answers(rows);
    if rows == [] {
      assert FetchWithRetry(script) == Fetched(Success(None), [], []);
    } else {
      assert FetchWithRetry(script) == Fetched(Success(Some(rows[0])), script[1..], []);
      assert script[1..] == Answers(rows[1..]);
      DrainInOrder(rows[0], rows[1..]);
      assert [first] + ([rows[0]] + rows[1..]) == [first] + rows;
    }
  }

  /** Every row a sound cursor yields has one cell per column. */
  lemma {:induction false} DrainShaped(next: Option<Row>, script: seq<RowFetch>, n: nat)
    requires RowShaped(next, n) && RowsShaped(script, n)
    ensures Drain(next, script).Success? ==>
      forall k :: 0 <= k < |Drain(next, script).value| ==> |Drain(next, script).value[k].cells| == n
    decreases |script|, if next.Some? then 1 else 0
  {
    if next.Some? {
      FetchWithRetryConsumes(script);
      FetchWithRetryShaped(script, n);
      var f := FetchWithRetry(script);
      if f.outcome.Success? {
        DrainShaped(f.outcome.value, f.rest, n);
      }
    }
  }
}
