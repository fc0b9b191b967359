/**
 * The retry loops of `Connection::open` and `Connection::query`, shared by
 * src/drizzle/connection.cc and src/connection.cc, over scripted answers of
 * `drizzle_con_connect` and `drizzle_query`: after an IO_WAIT the binding
 * waits on the connection and asks for a ready one before calling again.
 */
module Sessions {
  import opened Wrappers
  import opened Library

  /**
   * One call of `drizzle_con_connect` or `drizzle_query`: its status, the
   * waits after an IO_WAIT, the text `drizzle_con_error` reports, and for a
   * query the result the library handed back (`None` for NULL).
   */
  datatype Call = Call(status: Status, wait: Wait, error: string, result: Option<ResultHandle>)

  const LostConnectionError := "Lost connection while executing query"
  const NoResultError := "Could not fetch result of query"

  /** A call after which the loop goes around again. */
  predicate Retries(c: Call) {
    c.status == IoWait && c.wait == Ready
  }

  /** The library eventually answers other than "IO_WAIT, then ready". */
  predicate Settles(calls: seq<Call>) {
    exists k :: 0 <= k < |calls| && !Retries(calls[k])
  }

  /** The index of the call that ends the loop. */
  function Settling(calls: seq<Call>): (k: nat)
    requires Settles(calls)
    ensures k < |calls| && !Retries(calls[k])
    ensures forall j :: 0 <= j < k ==> Retries(calls[j])
  {
    if !Retries(calls[0]) then 0
    else
      var k :| 0 <= k < |calls| && !Retries(calls[k]);
      assert Settles(calls[1..]) by { assert !Retries(calls[1..][k - 1]); }
      1 + Settling(calls[1..])
  }

  /** What the loop throws on the settling call, if anything; only `query` has a message of its own for a lost connection. */
  function CallError(c: Call, isQuery: bool): Option<string> {
    if c.status == Ok then None
    else if c.status != IoWait then
      Some(if isQuery && c.status == LostConnection then LostConnectionError else c.error)
    else if c.wait == WaitFailed then Some(WaitError)
    else Some(ReadyError)
  }

  /** `open()`'s connect loop: `None` once the library answers OK, otherwise the exception. */
  function Connect(calls: seq<Call>): Option<string>
    requires Settles(calls)
  {
    CallError(calls[Settling(calls)], false)
  }

  /** What `query()` leaves: the result it wraps, or the exception and the partial result it freed. */
  datatype Executed = Executed(outcome: Result<ResultHandle, string>, freed: Option<ResultHandle>)

  /** `query()`'s loop and the NULL check after it. */
  function Execute(calls: seq<Call>): Executed
    requires Settles(calls)
  {
    var c := calls[Settling(calls)];
    match CallError(c, true)
    case Some(e) => Executed(Failure(e), c.result)
    case None =>
      if c.result.None? then Executed(Failure(NoResultError), None)
      else Executed(Success(c.result.value), None)
  }

  // ------------------------------------------------------------------
  // Properties of the loops

  /** Retried calls do not matter: the loop ends as the call that settles it says. */
  lemma {:induction false} RetriesIgnored(waits: seq<Call>, rest: seq<Call>)
    requires forall j :: 0 <= j < |waits| ==> Retries(waits[j])
    requires Settles(rest)
    ensures Settles(waits + rest)
    ensures Settling(waits + rest) == |waits| + Settling(rest)
    decreases |waits|
  {
    var k := Settling(rest);
    assert (waits + rest)[|waits| + k] == rest[k];
    if waits != [] {
      assert (waits + rest)[1..] == waits[1..] + rest;
      RetriesIgnored(waits[1..], rest);
    }
  }

  /** A connect succeeds exactly when its settling call is OK, and otherwise throws the reason. */
  lemma ConnectOutcomes(calls: seq<Call>)
    requires Settles(calls)
    ensures var c := calls[Settling(calls)];
      && (Connect(calls).None? <==> c.status == Ok)
      && (c.status != Ok && c.status != IoWait ==> Connect(calls) == Some(c.error))
      && (c.status == IoWait && c.wait == WaitFailed ==> Connect(calls) == Some(WaitError))
      && (c.status == IoWait && c.wait == NotReady ==> Connect(calls) == Some(ReadyError))
  {
  }

  /**
   * A query returns a result exactly when the settling call is OK with a
   * result; a lost connection has its own message; the partial result is
   * freed exactly when the loop threw.
   */
  lemma ExecuteOutcomes(calls: seq<Call>)
    requires Settles(calls)
    ensures var c := calls[Settling(calls)]; var e := Execute(calls);
      && (e.outcome.Success? <==> c.status == Ok && c.result.Some?)
      && (e.outcome.Success? ==> e.outcome.value == c.result.value)
      && (c.status == LostConnection ==> e.outcome == Failure(LostConnectionError))
      && (c.status != Ok && c.status != IoWait && c.status != LostConnection ==> e.outcome == Failure(c.error))
      && (c.status == Ok && c.result.None? ==> e.outcome == Failure(NoResultError))
      && (e.freed.Some? <==> c.status != Ok && c.result.Some?)
      && (e.freed.Some? ==> e.freed == c.result)
  {
  }

  /** The connect loop reports a lost connection as the library's error text, the query loop by its own message. */
  lemma LostConnectionMessages(c: Call)
    requires c.status == LostConnection
    ensures CallError(c, false) == Some(c.error)
    ensures CallError(c, true) == Some(LostConnectionError)
  {
  }

  // ------------------------------------------------------------------
  // The connection's lifecycle as values

  newtype u32 = x: int | 0 <= x < 0x1_0000_0000

  /** What `open()` hands to `drizzle_con_set_tcp`, `drizzle_con_set_auth`, `drizzle_con_set_db` and `drizzle_con_add_options`. */
  datatype Settings = Settings(hostname: string, port: u32, user: string, password: string, database: string, mysql: bool)

  /** A connection structure the library created (`drizzle_con_st`) and the version its server reports. */
  datatype Handle = Handle(id: nat, serverVersion: string)

  /** The calls into the library that release or configure something. */
  datatype Effect =
    | Configure(connection: nat, settings: Settings)
    | ConClose(connection: nat)
    | ConFree(connection: nat)
    | ResultFree(result: ResultHandle)
    | ContextFree

  /** `opened`, whether the `drizzle` context exists, the `connection` handle, and the effects so far. */
  datatype Session = Session(isOpened: bool, hasContext: bool, connection: Option<Handle>, effects: seq<Effect>)

  const CreateContextError := "Cannot create drizzle structure"
  const CreateConnectionError := "Cannot create connection structure"
  const NotOpenedError := "Can't execute query without an opened connection"

  /** An opened session has a connection handle. */
  predicate Connected(s: Session) {
    s.isOpened ==> s.connection.Some?
  }

  /** `close()`: close and free the connection structure, if any. */
  function Close(s: Session): Session {
    match s.connection
    case None => s.(isOpened := false)
    case Some(h) => Session(false, s.hasContext, None, s.effects + [ConClose(h.id), ConFree(h.id)])
  }

  /** Whether `open()` gets as far as its connect loop. */
  predicate Reaches(s: Session, contextCreated: bool, handle: Option<Handle>) {
    (s.hasContext || contextCreated) && handle.Some?
  }

  /**
   * `open()`: close first; create the context if there is none and a
   * connection structure, configure it, and run the connect loop; any
   * exception of the loop frees the structure again.
   */
  function Open(s: Session, settings: Settings, contextCreated: bool, handle: Option<Handle>, calls: seq<Call>): (Session, Option<string>)
    requires Reaches(s, contextCreated, handle) ==> Settles(calls)
  {
    var c := Close(s);
    if !c.hasContext && !contextCreated then (c, Some(CreateContextError))
    else
      var c1 := c.(hasContext := true);
      if handle.None? then (c1, Some(CreateConnectionError))
      else
        var h := handle.value;
        var c2 := c1.(connection := handle, effects := c1.effects + [Configure(h.id, settings)]);
        match Connect(calls)
        case None => (c2.(isOpened := true), None)
        case Some(e) => (c2.(isOpened := false, connection := None, effects := c2.effects + [ConFree(h.id)]), Some(e))
  }

  /** `version()`: the server's version while opened, the empty string otherwise. */
  function Version(s: Session): string {
    if s.isOpened && s.connection.Some? then s.connection.value.serverVersion else ""
  }

  /** `query()`: refused unless opened; otherwise the loop, freeing the partial result when it throws. */
  function Query(s: Session, calls: seq<Call>): (Session, Result<ResultHandle, string>)
    requires s.isOpened ==> Settles(calls)
  {
    if !s.isOpened then (s, Failure(NotOpenedError))
    else
      var e := Execute(calls);
      (if e.freed.Some? then s.(effects := s.effects + [ResultFree(e.freed.value)]) else s, e.outcome)
  }

  /** The destructor: `close()`, then free the context if it exists. */
  function Destroy(s: Session): Session {
    var c := Close(s);
    if c.hasContext then c.(effects := c.effects + [ContextFree]) else c
  }

  // ------------------------------------------------------------------
  // Properties of the lifecycle

  /** `close()` leaves no connection and nothing opened, and a second `close()` does nothing more. */
  lemma CloseIdempotent(s: Session)
    ensures var c := Close(s);
      && !c.isOpened && c.connection.None? && c.hasContext == s.hasContext
      && Close(c) == c
      && (s.connection.None? ==> c.effects == s.effects)
  {
  }

  /** `open()` succeeds exactly when the connect loop does, and then the session is opened on the new handle. */
  lemma OpenOutcome(s: Session, settings: Settings, contextCreated: bool, handle: Option<Handle>, calls: seq<Call>)
    requires Reaches(s, contextCreated, handle) ==> Settles(calls)
    ensures var (after, thrown) := Open(s, settings, contextCreated, handle, calls);
      && (thrown.None? <==> Reaches(s, contextCreated, handle) && Connect(calls).None?)
      && (thrown.None? ==> after.isOpened && after.connection == handle && after.hasContext)
      && (thrown.Some? ==> !after.isOpened && after.connection.None?)
      && (!s.hasContext && !contextCreated ==> thrown == Some(CreateContextError))
      && ((s.hasContext || contextCreated) && handle.None? ==> thrown == Some(CreateConnectionError))
      && (Reaches(s, contextCreated, handle) && Connect(calls).Some? ==> thrown == Connect(calls))
  {
  }

  /** `open()` first releases the connection it had, then configures the new one with the current settings. */
  lemma OpenClosesFirst(s: Session, settings: Settings, contextCreated: bool, handle: Option<Handle>, calls: seq<Call>)
    requires Reaches(s, contextCreated, handle) && Settles(calls)
    ensures var after := Open(s, settings, contextCreated, handle, calls).0;
      var id := handle.value.id;
      && |after.effects| >= |Close(s).effects| + 1
      && after.effects[..|Close(s).effects| + 1] == Close(s).effects + [Configure(id, settings)]
      && (Connect(calls).Some? ==> after.effects == Close(s).effects + [Configure(id, settings), ConFree(id)])
  {
    var c := Close(s);
    var id := handle.value.id;
    if Connect(calls).Some? {
      assert (c.effects + [Configure(id, settings)]) + [ConFree(id)] == c.effects + [Configure(id, settings), ConFree(id)];
    }
  }

  /** Every operation keeps an opened session connected. */
  lemma LifecycleKeepsConnected(s: Session, settings: Settings, contextCreated: bool, handle: Option<Handle>, calls: seq<Call>)
    requires Connected(s)
    ensures Connected(Close(s)) && Connected(Destroy(s))
    ensures Reaches(s, contextCreated, handle) ==> Settles(calls) ==>
      Connected(Open(s, settings, contextCreated, handle, calls).0)
    ensures s.isOpened ==> Settles(calls) ==> Connected(Query(s, calls).0)
  {
  }

  /** `version()` is empty unless opened, and on an opened session it is the server's version. */
  lemma VersionWhenClosed(s: Session)
    requires Connected(s)
    ensures !s.isOpened ==> Version(s) == ""
    ensures s.isOpened ==> Version(s) == s.connection.value.serverVersion
    ensures Version(Close(s)) == ""
  {
  }

  /** `query()` changes nothing but the effects, and only by freeing the partial result of a failed loop. */
  lemma QueryChangesOnlyEffects(s: Session, calls: seq<Call>)
    requires s.isOpened ==> Settles(calls)
    ensures var (after, r) := Query(s, calls);
      && after.(effects := s.effects) == s
      && (!s.isOpened ==> after == s && r == Failure(NotOpenedError))
      && (s.isOpened ==> r == Execute(calls).outcome)
      && (after.effects == s.effects || (s.isOpened && after.effects == s.effects + [ResultFree(Execute(calls).freed.value)]))
  {
  }
}
