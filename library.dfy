/**
 * The part of libdrizzle the cursors and connections depend on, as scripted
 * outcomes: each call the binding makes consumes the next scripted answer, so
 * every retry loop runs over a finite script. Rows carry an identity so that
 * the calls of `drizzle_row_free` can be followed.
 */
module Library {
  import opened Wrappers
  import opened Columns

  /** `drizzle_return_t`, reduced to the cases the binding tells apart. */
  datatype Status = Ok | IoWait | LostConnection | Failed(code: nat)

  /** After an IO_WAIT: whether `drizzle_con_wait` succeeded and `drizzle_con_ready` gave a connection. */
  datatype Wait = Ready | WaitFailed | NotReady

  /** A row the library allocated (`drizzle_row_t`): an identity and its cells, `None` for SQL NULL. */
  datatype Row = Row(id: nat, cells: seq<Option<string>>)

  /** One `drizzle_row_buffer` call: its status, the row it handed out, and the wait after an IO_WAIT. */
  datatype RowFetch = RowFetch(status: Status, row: Option<Row>, wait: Wait)

  /** A result handle (`drizzle_result_st`) as the cursor constructors see it. */
  datatype ResultHandle = ResultHandle(
    columnBuffer: Status,
    wire: seq<WireColumn>,
    script: seq<RowFetch>,
    bufferedRows: bool,
    rowCount: nat)

  /** What one `row()` call leaves: its outcome, the unread script, and the rows it freed. */
  datatype Fetched = Fetched(outcome: Result<Option<Row>, string>, rest: seq<RowFetch>, freed: seq<nat>)

  const WaitError := "Could not wait for connection"
  const ReadyError := "Could not fetch connection"
  const PrefetchError := "Could not prefetch next row"

  /** The call the library answers next; past the end of the script it reports the end of the rows. */
  function NextFetch(script: seq<RowFetch>): RowFetch {
    if script == [] then RowFetch(Ok, None, Ready) else script[0]
  }

  function Advance(script: seq<RowFetch>): (r: seq<RowFetch>)
    ensures |r| == if script == [] then 0 else |script| - 1
  {
    if script == [] then [] else script[1..]
  }

  /** The state `row()` ends in once the library returned something other than IO_WAIT. */
  function Settle(status: Status, row: Option<Row>, rest: seq<RowFetch>): Fetched {
    if status == Ok then Fetched(Success(row), rest, [])
    else Fetched(Failure(PrefetchError), rest, Ids(row))
  }

  /** `row()` of src/result.cc: one fetch; any status but OK frees the partial row and fails. */
  function FetchOnce(script: seq<RowFetch>): Fetched {
    var f := NextFetch(script);
    Settle(f.status, f.row, Advance(script))
  }

  /**
   * `row()` of src/drizzle/result.cc: fetch again after every IO_WAIT once the
   * connection is waited on and ready, then settle as `FetchOnce`.
   */
  function FetchWithRetry(script: seq<RowFetch>): Fetched
    decreases |script|
  {
    var f := NextFetch(script);
    if f.status == IoWait then
      if f.wait == WaitFailed then Fetched(Failure(WaitError), Advance(script), [])
      else if f.wait == NotReady then Fetched(Failure(ReadyError), Advance(script), [])
      else FetchWithRetry(Advance(script))
    else Settle(f.status, f.row, Advance(script))
  }

  /** After a run of IO_WAITs that were each waited out, the retrying fetch is a single fetch. */
  lemma {:induction false} RetryIsOnceAfterWaits(script: seq<RowFetch>, k: nat)
    requires k < |script|
    requires forall j :: 0 <= j < k ==> script[j].status == IoWait && script[j].wait == Ready
    requires script[k].status != IoWait
    ensures FetchWithRetry(script) == FetchOnce(script[k..])
  {
    if k > 0 {
      assert script[0].status == IoWait && script[0].wait == Ready;
      var rest := script[1..];
      forall j | 0 <= j < k - 1
        ensures rest[j].status == IoWait && rest[j].wait == Ready
      {
        assert rest[j] == script[j + 1];
      }
      RetryIsOnceAfterWaits(rest, k - 1);
      assert rest[k - 1..] == script[k..];
    }
  }

  /** The single fetch cannot wait: an IO_WAIT is a failure there. */
  lemma FetchOnceIoWaitFails(script: seq<RowFetch>)
    requires script != [] && script[0].status == IoWait
    ensures FetchOnce(script).outcome == Failure(PrefetchError)
    ensures FetchOnce(script).freed == Ids(script[0].row)
  {
  }

  /** A failed wait ends the retrying fetch with its own message and frees nothing. */
  lemma FetchWithRetryWaitFails(script: seq<RowFetch>)
    requires script != [] && script[0].status == IoWait && script[0].wait != Ready
    ensures FetchWithRetry(script).outcome
         == Failure(if script[0].wait == WaitFailed then WaitError else ReadyError)
    ensures FetchWithRetry(script).freed == []
  {
  }

  // ------------------------------------------------------------------
  // Row identities

  function Ids(r: Option<Row>): seq<nat> {
    if r.Some? then [r.value.id] else []
  }

  /** The rows the script will hand out, in order. */
  function ScriptIds(script: seq<RowFetch>): seq<nat>
    decreases |script|
  {
    if script == [] then [] else Ids(script[0].row) + ScriptIds(script[1..])
  }

  predicate Distinct(xs: seq<nat>) {
    forall x | x in multiset(xs) :: multiset(xs)[x] <= 1
  }

  lemma DistinctWithin(a: seq<nat>, b: seq<nat>)
    requires multiset(a) <= multiset(b) && Distinct(b)
    ensures Distinct(a)
  {
    forall x | x in multiset(a) ensures multiset(a)[x] <= 1 {
      assert multiset(a)[x] <= multiset(b)[x];
    }
  }

  lemma DistinctPrefix(a: seq<nat>, b: seq<nat>)
    requires Distinct(a + b)
    ensures Distinct(a)
  {
    assert multiset(a + b) == multiset(a) + multiset(b);
    DistinctWithin(a, a + b);
  }

  /** Every row identity the binding knows of: already freed, held as previous or next row, or still to come. */
  function Held(freed: seq<nat>, previous: Option<Row>, next: Option<Row>, script: seq<RowFetch>): seq<nat> {
    freed + Ids(previous) + Ids(next) + ScriptIds(script)
  }

  /**
   * Advancing a cursor by a fetch that only moves identities out of the script:
   * the previous row is freed, the lookahead becomes the previous row and the
   * fetched row the lookahead.
   */
  lemma AdvanceKeepsDistinct(log: seq<nat>, prev: Option<Row>, current: Option<Row>, before: seq<RowFetch>, f: Fetched)
    requires Distinct(Held(log, prev, current, before))
    requires multiset(FetchedIds(f)) <= multiset(ScriptIds(before))
    requires f.outcome.Success?
    ensures Distinct(Held(log + Ids(prev) + f.freed, current, f.outcome.value, f.rest))
  {
    var after := Held(log + Ids(prev) + f.freed, current, f.outcome.value, f.rest);
    var m0, mp, mc := multiset(log), multiset(Ids(prev)), multiset(Ids(current));
    assert multiset(after) == m0 + mp + multiset(f.freed) + mc + multiset(Ids(f.outcome.value)) + multiset(ScriptIds(f.rest));
    assert multiset(FetchedIds(f)) == multiset(f.freed) + multiset(Ids(f.outcome.value)) + multiset(ScriptIds(f.rest));
    assert multiset(Held(log, prev, current, before)) == m0 + mp + mc + multiset(ScriptIds(before));
    DistinctWithin(after, Held(log, prev, current, before));
  }

  /**
   * The cursor invariant over its row bookkeeping: no row identity occurs
   * twice among the freed, held and coming rows, and every row has `n` cells.
   */
  predicate Sound(freed: seq<nat>, previous: Option<Row>, next: Option<Row>, script: seq<RowFetch>, n: nat) {
    && Distinct(Held(freed, previous, next, script))
    && RowsShaped(script, n)
    && RowShaped(previous, n)
    && RowShaped(next, n)
  }

  /** A successful retrying advance of a sound cursor leaves it sound. */
  lemma AdvanceWithRetrySound(log: seq<nat>, prev: Option<Row>, current: Option<Row>, before: seq<RowFetch>, n: nat)
    requires Sound(log, prev, current, before, n)
    requires FetchWithRetry(before).outcome.Success?
    ensures var f := FetchWithRetry(before);
      Sound(log + Ids(prev) + f.freed, current, f.outcome.value, f.rest, n)
  {
    FetchWithRetryIds(before);
    FetchWithRetryShaped(before, n);
    AdvanceKeepsDistinct(log, prev, current, before, FetchWithRetry(before));
  }

  /** A successful single-fetch advance of a sound cursor leaves it sound. */
  lemma AdvanceOnceSound(log: seq<nat>, prev: Option<Row>, current: Option<Row>, before: seq<RowFetch>, n: nat)
    requires Sound(log, prev, current, before, n)
    requires FetchOnce(before).outcome.Success?
    ensures var f := FetchOnce(before);
      Sound(log + Ids(prev) + f.freed, current, f.outcome.value, f.rest, n)
  {
    FetchOnceIds(before);
    FetchOnceShaped(before, n);
    AdvanceKeepsDistinct(log, prev, current, before, FetchOnce(before));
  }

  /** Freeing the held rows at destruction frees none of them twice. */
  lemma ReleaseKeepsDistinct(log: seq<nat>, prev: Option<Row>, next: Option<Row>, script: seq<RowFetch>)
    requires Distinct(Held(log, prev, next, script))
    ensures Distinct(log + Ids(prev) + Ids(next))
  {
    DistinctPrefix(log + Ids(prev) + Ids(next), ScriptIds(script));
  }

  /** The identities a fetch leaves behind: those it freed, the row it returned, and those still to come. */
  function FetchedIds(f: Fetched): seq<nat> {
    f.freed + (if f.outcome.Success? then Ids(f.outcome.value) else []) + ScriptIds(f.rest)
  }

  lemma AdvanceIds(script: seq<RowFetch>)
    ensures multiset(Ids(NextFetch(script).row)) + multiset(ScriptIds(Advance(script))) == multiset(ScriptIds(script))
  {
  }

  /** A single fetch only moves row identities out of the script, never duplicates one. */
  lemma FetchOnceIds(script: seq<RowFetch>)
    ensures multiset(FetchedIds(FetchOnce(script))) <= multiset(ScriptIds(script))
  {
    AdvanceIds(script);
  }

  lemma {:induction false} FetchWithRetryIds(script: seq<RowFetch>)
    ensures multiset(FetchedIds(FetchWithRetry(script))) <= multiset(ScriptIds(script))
    decreases |script|
  {
    var f := NextFetch(script);
    var rest := Advance(script);
    AdvanceIds(script);
    if f.status != IoWait {
      assert FetchWithRetry(script) == FetchOnce(script);
      FetchOnceIds(script);
    } else if f.wait == Ready {
      assert FetchWithRetry(script) == FetchWithRetry(rest);
      FetchWithRetryIds(rest);
      assert multiset(ScriptIds(rest)) <= multiset(ScriptIds(script));
    } else {
      assert FetchedIds(FetchWithRetry(script)) == ScriptIds(rest);
    }
  }

  // ------------------------------------------------------------------
  // Row shapes

  /** Every row the script hands out has `n` cells. */
  predicate RowsShaped(script: seq<RowFetch>, n: nat) {
    forall k :: 0 <= k < |script| && script[k].row.Some? ==> |script[k].row.value.cells| == n
  }

  predicate RowShaped(r: Option<Row>, n: nat) {
    r.Some? ==> |r.value.cells| == n
  }

  lemma FetchOnceShaped(script: seq<RowFetch>, n: nat)
    requires RowsShaped(script, n)
    ensures var f := FetchOnce(script); RowsShaped(f.rest, n) && (f.outcome.Success? ==> RowShaped(f.outcome.value, n))
  {
    var rest := Advance(script);
    assert forall k :: 0 <= k < |rest| ==> rest[k] == script[k + 1];
  }

  lemma {:induction false} FetchWithRetryShaped(script: seq<RowFetch>, n: nat)
    requires RowsShaped(script, n)
    ensures var f := FetchWithRetry(script);
      RowsShaped(f.rest, n) && (f.outcome.Success? ==> RowShaped(f.outcome.value, n))
    decreases |script|
  {
    var rest := Advance(script);
    assert forall k :: 0 <= k < |rest| ==> rest[k] == script[k + 1];
    var f := NextFetch(script);
    if f.status == IoWait && f.wait == Ready {
      FetchWithRetryShaped(rest, n);
    }
  }

  /** The retrying fetch consumes at least one answer whenever the script has one. */
  lemma {:induction false} FetchWithRetryConsumes(script: seq<RowFetch>)
    ensures |FetchWithRetry(script).rest| <= |script|
    ensures script != [] ==> |FetchWithRetry(script).rest| < |script|
    ensures script == [] ==> FetchWithRetry(script).outcome == Success(None)
    ensures FetchWithRetry(script).outcome.Success? ==> FetchWithRetry(script).freed == []
    decreases |script|
  {
    var f := NextFetch(script);
    if f.status == IoWait && f.wait == Ready {
      FetchWithRetryConsumes(Advance(script));
    }
  }

  // ------------------------------------------------------------------
  // Draining a cursor

  /**
   * The rows a forward-only cursor whose lookahead is `next` yields when read
   * to the end with the retrying fetch, or the first failure of a fetch.
   */
  function Drain(next: Option<Row>, script: seq<RowFetch>): Result<seq<Row>, string>
    decreases |script|, if next.Some? then 1 else 0
  {
    if next.None? then Success([])
    else
      var f := FetchWithRetry(script);
      FetchWithRetryConsumes(script);
      match f.outcome
      case Failure(e) => Failure(e)
      case Success(following) =>
        match Drain(following, f.rest)
        case Failure(e) => Failure(e)
        case Success(rows) => Success([next.value] + rows)
  }
}
