/**
 * The row bookkeeping shared by the two result cursors, as values: what
 * `next()`, the constructor and the destructor do to `rowNumber`,
 * `previousRow`, `nextRow`, the library's remaining answers and the rows
 * handed to `drizzle_row_free`. `Retrying` is `drizzle::Result`
 * (src/drizzle/result.cc), `SingleFetch` is `node_db_drizzle::Result`
 * (src/result.cc).
 */
module CursorModel {
  import opened Wrappers
  import opened Columns
  import opened Library

  datatype Revision = Retrying | SingleFetch

  /** The lookahead state of a cursor. */
  datatype Lookahead = Lookahead(
    rowNumber: nat,
    previousRow: Option<Row>,
    nextRow: Option<Row>,
    script: seq<RowFetch>,
    freed: seq<nat>)

  /** The state after `next()` and what it returned or threw. */
  datatype Step = Step(after: Lookahead, result: Result<Option<Row>, string>)

  /** `row()` of the given revision. */
  function Fetch(script: seq<RowFetch>, rev: Revision): Fetched {
    if rev == Retrying then FetchWithRetry(script) else FetchOnce(script)
  }

  /**
   * `next()`: free the previous row (the field keeps naming it); without a
   * lookahead return no row; otherwise count the row, make the lookahead the
   * current row and fetch the next one. A failing fetch throws before
   * `nextRow` is assigned.
   */
  function NextWith(s: Lookahead, rev: Revision): Step {
    var freed := s.freed + Ids(s.previousRow);
    if s.nextRow.None? then Step(s.(freed := freed), Success(None))
    else
      var f := Fetch(s.script, rev);
      var moved := Lookahead(s.rowNumber + 1, s.nextRow, s.nextRow, f.rest, freed + f.freed);
      match f.outcome
      case Failure(e) => Step(moved, Failure(e))
      case Success(row) => Step(moved.(nextRow := row), Success(s.nextRow))
  }

  /** The rows the destructor hands to `drizzle_row_free`: the log so far, then the previous and the next row. */
  function Release(s: Lookahead): seq<nat> {
    s.freed + Ids(s.previousRow) + Ids(s.nextRow)
  }

  predicate SoundState(s: Lookahead, n: nat) {
    Sound(s.freed, s.previousRow, s.nextRow, s.script, n)
  }

  const InvalidResult := "Invalid result"
  const BufferColumnsError := "Could not buffer columns"

  /** What a constructor leaves: a cursor state with its columns, or the exception and what was released. */
  datatype Construction =
    | Constructed(state: Lookahead, columns: seq<Column>)
    | Refused(message: string, resultFreed: bool, freed: seq<nat>)

  function Describes(wire: seq<WireColumn>): (cols: seq<Column>)
    ensures |cols| == |wire|
  {
    seq(|wire|, k requires 0 <= k < |wire| => Describe(wire[k]))
  }

  /**
   * The constructors. Both reject a null handle and fail when the columns
   * cannot be buffered, which only `Retrying` answers by freeing the result.
   * `Retrying` always prefetches the lookahead; `SingleFetch` only when the
   * result has columns.
   */
  function Construct(handle: Option<ResultHandle>, rev: Revision): Construction {
    match handle
    case None => Refused(InvalidResult, false, [])
    case Some(h) =>
      if h.columnBuffer != Ok then Refused(BufferColumnsError, rev == Retrying, [])
      else
        var start := Lookahead(0, None, None, h.script, []);
        if rev == SingleFetch && |h.wire| == 0 then Constructed(start, [])
        else
          var f := Fetch(h.script, rev);
          match f.outcome
          case Failure(e) => Refused(e, false, f.freed)
          case Success(row) => Constructed(start.(nextRow := row, script := f.rest, freed := f.freed), Describes(h.wire))
  }

  // ------------------------------------------------------------------
  // Properties of next()

  /** On an exhausted cursor `next()` returns no row and changes nothing but the free log. */
  lemma NextExhausted(s: Lookahead, rev: Revision)
    requires s.nextRow.None?
    ensures var st := NextWith(s, rev);
      && st.result == Success(None)
      && st.after == s.(freed := s.freed + Ids(s.previousRow))
  {
  }

  /**
   * With a lookahead `next()` counts the row, returns the former lookahead
   * and fetches a new one; the rows are taken from the library in order.
   */
  lemma NextAdvances(s: Lookahead, rev: Revision)
    requires s.nextRow.Some?
    requires Fetch(s.script, rev).outcome.Success?
    ensures var st := NextWith(s, rev); var f := Fetch(s.script, rev);
      && st.result == Success(s.nextRow)
      && st.after.rowNumber == s.rowNumber + 1
      && st.after.previousRow == s.nextRow
      && st.after.nextRow == f.outcome.value
      && st.after.script == f.rest
  {
  }

  /** A successful `next()` on a lookahead keeps the bookkeeping sound. */
  lemma NextKeepsSound(s: Lookahead, rev: Revision, n: nat)
    requires SoundState(s, n) && s.nextRow.Some?
    requires NextWith(s, rev).result.Success?
    ensures SoundState(NextWith(s, rev).after, n)
  {
    if rev == Retrying {
      AdvanceWithRetrySound(s.freed, s.previousRow, s.nextRow, s.script, n);
    } else {
      AdvanceOnceSound(s.freed, s.previousRow, s.nextRow, s.script, n);
    }
  }

  /** A sound state is destroyed without freeing any row twice. */
  lemma ReleaseDistinct(s: Lookahead, n: nat)
    requires SoundState(s, n)
    ensures Distinct(Release(s))
  {
    ReleaseKeepsDistinct(s.freed, s.previousRow, s.nextRow, s.script);
  }

  lemma TwiceNotDistinct(xs: seq<nat>, x: nat)
    requires multiset(xs)[x] >= 2
    ensures !Distinct(xs)
  {
    assert x in multiset(xs);
  }

  /**
   * `next()` on an exhausted cursor that holds a previous row frees it and
   * keeps naming it, so destroying the cursor then frees that row twice.
   */
  lemma ExhaustedNextDoubleFree(s: Lookahead, rev: Revision)
    requires s.nextRow.None? && s.previousRow.Some?
    ensures var after := NextWith(s, rev).after;
      multiset(Release(after))[s.previousRow.value.id] >= 2 && !Distinct(Release(after))
  {
    var id := s.previousRow.value.id;
    var after := NextWith(s, rev).after;
    assert Release(after) == s.freed + [id] + [id];
    assert multiset(Release(after)) == multiset(s.freed) + multiset{id, id};
    TwiceNotDistinct(Release(after), id);
  }

  /**
   * When the fetch inside `next()` fails, the previous and the next row are
   * the same row, so destroying the cursor frees it twice.
   */
  lemma FailedFetchDoubleFree(s: Lookahead, rev: Revision)
    requires s.nextRow.Some?
    requires Fetch(s.script, rev).outcome.Failure?
    ensures var after := NextWith(s, rev).after;
      && after.previousRow == after.nextRow == s.nextRow
      && multiset(Release(after))[s.nextRow.value.id] >= 2 && !Distinct(Release(after))
  {
    var id := s.nextRow.value.id;
    var after := NextWith(s, rev).after;
    assert Release(after) == after.freed + [id] + [id];
    assert multiset(Release(after)) == multiset(after.freed) + multiset{id, id};
    TwiceNotDistinct(Release(after), id);
  }

  /** One row, read by two `next()` calls, is freed twice: row 7 reaches `drizzle_row_free` twice. */
  lemma ExhaustedNextExample(rev: Revision)
    ensures var h := ResultHandle(Ok, [WireColumn("a", LONG, 11)], [RowFetch(Ok, Some(Row(7, [Some("1")])), Ready)], true, 1);
      var c := Construct(Some(h), rev);
      && c.Constructed?
      && Release(NextWith(NextWith(c.state, rev).after, rev).after) == [7, 7]
  {
    var row := Row(7, [Some("1")]);
    var h := ResultHandle(Ok, [WireColumn("a", LONG, 11)], [RowFetch(Ok, Some(row), Ready)], true, 1);
    assert Fetch(h.script, rev) == Fetched(Success(Some(row)), [], []);
    var s0 := Construct(Some(h), rev).state;
    assert s0 == Lookahead(0, None, Some(row), [], []);
    assert Fetch([], rev) == Fetched(Success(None), [], []);
    var s1 := NextWith(s0, rev).after;
    assert s1 == Lookahead(1, Some(row), None, [], []);
    var s2 := NextWith(s1, rev).after;
    assert s2 == Lookahead(1, Some(row), None, [], [7]);
  }

  /** A fetch failing right after the first row: `next()` throws and row 7 reaches `drizzle_row_free` twice. */
  lemma FailedFetchExample(rev: Revision)
    ensures var script := [RowFetch(Ok, Some(Row(7, [Some("1")])), Ready), RowFetch(Failed(2), None, Ready)];
      var c := Construct(Some(ResultHandle(Ok, [WireColumn("a", LONG, 11)], script, true, 1)), rev);
      var st := NextWith(c.state, rev);
      && c.Constructed?
      && st.result == Failure(PrefetchError)
      && Release(st.after) == [7, 7]
  {
    var row := Row(7, [Some("1")]);
    var script := [RowFetch(Ok, Some(row), Ready), RowFetch(Failed(2), None, Ready)];
    assert Fetch(script, rev) == Fetched(Success(Some(row)), script[1..], []);
    var s0 := Construct(Some(ResultHandle(Ok, [WireColumn("a", LONG, 11)], script, true, 1)), rev).state;
    assert s0 == Lookahead(0, None, Some(row), script[1..], []);
    assert Fetch(script[1..], rev) == Fetched(Failure(PrefetchError), [], []);
  }

  // ------------------------------------------------------------------
  // Properties of the constructors

  /** A constructed cursor has read no row, freed nothing, and describes every column. */
  lemma ConstructedFresh(handle: Option<ResultHandle>, rev: Revision)
    requires Construct(handle, rev).Constructed?
    ensures var c := Construct(handle, rev);
      && c.state.rowNumber == 0 && c.state.previousRow == None && c.state.freed == []
      && (rev == Retrying || |handle.value.wire| > 0 ==> c.columns == Describes(handle.value.wire))
  {
    var h := handle.value;
    if !(rev == SingleFetch && |h.wire| == 0) {
      FetchWithRetryConsumes(h.script);
    }
  }

  /** The constructors' exceptions before any row is fetched; only the retrying revision frees the result on a buffer failure. */
  lemma ConstructRefusals(h: ResultHandle, rev: Revision)
    ensures Construct(None, rev) == Refused(InvalidResult, false, [])
    ensures h.columnBuffer != Ok ==> Construct(Some(h), rev) == Refused(BufferColumnsError, rev == Retrying, [])
  {
  }

  /**
   * A constructor that prefetches (always for `Retrying`, for `SingleFetch`
   * when there are columns) succeeds exactly when the fetch does, with the
   * fetched row as lookahead; `hasNext()` is then whether a row came back.
   */
  lemma ConstructedLookahead(h: ResultHandle, rev: Revision)
    requires h.columnBuffer == Ok
    requires rev == Retrying || |h.wire| > 0
    ensures var c := Construct(Some(h), rev); var f := Fetch(h.script, rev);
      && (c.Constructed? <==> f.outcome.Success?)
      && (c.Constructed? ==> c.state.nextRow == f.outcome.value && c.state.script == f.rest)
      && (c.Refused? ==> c.message == f.outcome.error && !c.resultFreed && c.freed == f.freed)
  {
  }

  /** A single-fetch cursor over a result without columns fetches nothing: `hasNext()` is false from the start. */
  lemma ZeroColumnsNoLookahead(h: ResultHandle)
    requires h.columnBuffer == Ok && |h.wire| == 0
    ensures Construct(Some(h), SingleFetch) == Constructed(Lookahead(0, None, None, h.script, []), [])
  {
  }

  /** The retrying cursor prefetches even without columns. */
  lemma RetryingPrefetchesWithoutColumns(h: ResultHandle)
    requires h.columnBuffer == Ok && |h.wire| == 0
    requires h.script != [] && h.script[0].status == Ok
    ensures Construct(Some(h), Retrying) == Constructed(Lookahead(0, None, h.script[0].row, h.script[1..], []), [])
  {
  }

  /** A cursor built over distinct, well-shaped rows starts out sound. */
  lemma ConstructSound(h: ResultHandle, rev: Revision)
    requires Distinct(ScriptIds(h.script)) && RowsShaped(h.script, |h.wire|)
    requires Construct(Some(h), rev).Constructed?
    ensures SoundState(Construct(Some(h), rev).state, |h.wire|)
  {
    assert Held([], None, None, h.script) == ScriptIds(h.script);
    if !(rev == SingleFetch && |h.wire| == 0) {
      var f := Fetch(h.script, rev);
      if rev == Retrying {
        AdvanceWithRetrySound([], None, None, h.script, |h.wire|);
      } else {
        AdvanceOnceSound([], None, None, h.script, |h.wire|);
      }
      assert [] + Ids(None) + f.freed == f.freed;
    }
  }
}
