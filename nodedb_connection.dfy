/**
 * `node_db_drizzle::Connection` (src/connection.cc): the earlier revision
 * of the connection, with the quote characters of the statement builder and
 * `escape()`. Its host, credentials, database, port and `opened` flag belong
 * to the base class `node_db::Connection` (src/node-db/connection.h), which
 * is not part of this model; they are taken as constructor arguments, and
 * the connection is taken to start closed.
 */
module NodeDbConnection {
  import opened Wrappers
  import opened Library
  import opened Sessions
  import opened Texts

  class Connection {
    var hostname: string
    var user: string
    var password: string
    var database: string
    var port: u32
    var mysql: bool
    var isOpened: bool
    var quoteString: char
    var quoteField: char
    var quoteTable: char
    var hasContext: bool
    var connection: Option<Handle>
    var effects: seq<Effect>

    function State(): Session
      reads this
    {
      Session(isOpened, hasContext, connection, effects)
    }

    function CurrentSettings(): Settings
      reads this
    {
      Settings(hostname, port, user, password, database, mysql)
    }

    /** The constructor: MySQL protocol, `'` around strings, backquotes around field and table names. */
    constructor (hostname: string, user: string, password: string, database: string, port: u32)
      ensures mysql && quoteString == '\'' && quoteField == '`' && quoteTable == '`'
      ensures !isOpened && !hasContext && connection.None? && effects == []
      ensures CurrentSettings() == Settings(hostname, port, user, password, database, true)
    {
      this.hostname, this.user, this.password, this.database, this.port := hostname, user, password, database, port;
      isOpened := false;
      mysql := true;
      hasContext := false;
      connection := None;
      effects := [];
      quoteString := '\'';
      quoteField := '`';
      quoteTable := '`';
    }

    function IsMysql(): (r: bool) reads this ensures r == CurrentSettings().mysql { mysql }

    method SetMysql(mysql: bool)
      modifies this`mysql
      ensures IsMysql() == mysql
    {
      this.mysql := mysql;
    }

    /**
     * `escape()`: a buffer of `2 * |s| + 1` characters that
     * `drizzle_escape_string` (the parameter `library`) fills with the escaped
     * text and a terminating NUL, read back up to the first NUL.
     */
    method Escape(s: string, library: string -> string) returns (escaped: string)
      requires |library(s)| <= 2 * |s|
      ensures escaped == UpToNul(library(s))
    {
      var text := library(s);
      var buffer := new char[2 * |s| + 1];
      var k := 0;
      while k < |text|
        invariant 0 <= k <= |text|
        invariant buffer[..k] == text[..k]
      {
        buffer[k] := text[k];
        k := k + 1;
      }
      buffer[|text|] := '\0';
      escaped := "";
      k := 0;
      while buffer[k] != '\0'
        invariant 0 <= k <= |text|
        invariant buffer[..|text|] == text && buffer[|text|] == '\0'
        invariant escaped == text[..k] && '\0' !in escaped
        decreases |text| - k
      {
        escaped := escaped + [buffer[k]];
        k := k + 1;
      }
      UpToNulAt(text, k);
    }

    /** `close()`. */
    method Close()
      modifies this`isOpened, this`connection, this`effects
      ensures State() == Sessions.Close(old(State()))
    {
      if connection.Some? {
        effects := effects + [ConClose(connection.value.id), ConFree(connection.value.id)];
        connection := None;
      }
      isOpened := false;
    }

    /**
     * `open()`, with the library's answers as parameters: whether
     * `drizzle_create` succeeds, the structure `drizzle_con_create` returns,
     * and the answers of the `drizzle_con_connect` calls.
     */
    method Open(contextCreated: bool, handle: Option<Handle>, calls: seq<Call>) returns (thrown: Option<string>)
      requires Reaches(State(), contextCreated, handle) ==> Settles(calls)
      modifies this`isOpened, this`hasContext, this`connection, this`effects
      ensures (State(), thrown) == Sessions.Open(old(State()), CurrentSettings(), contextCreated, handle, calls)
    {
      Close();
      if !hasContext {
        if !contextCreated {
          return Some(CreateContextError);
        }
        hasContext := true;
      }
      if handle.None? {
        return Some(CreateConnectionError);
      }
      connection := handle;
      effects := effects + [Configure(handle.value.id, CurrentSettings())];
      var i := 0;
      thrown := None;
      while !isOpened
        invariant 0 <= i <= Settling(calls)
        invariant thrown.None? && !isOpened
        decreases Settling(calls) - i
      {
        var call := calls[i];
        if call.status == Ok {
          isOpened := true;
          break;
        } else if call.status != IoWait {
          thrown := Some(call.error);
          break;
        }
        if call.wait == WaitFailed {
          thrown := Some(WaitError);
          break;
        }
        if call.wait == NotReady {
          thrown := Some(ReadyError);
          break;
        }
        i := i + 1;
      }
      assert isOpened || thrown.Some? ==> i == Settling(calls);
      if thrown.Some? {
        effects := effects + [ConFree(handle.value.id)];
        isOpened := false;
        connection := None;
      }
    }

    /** `version()`. */
    function Version(): (v: string)
      reads this
      ensures !isOpened ==> v == ""
      ensures v == Sessions.Version(State())
    {
      Sessions.Version(State())
    }

    /**
     * `query()`, with the answers of the `drizzle_query` calls as parameter.
     * The result it returns is what `NodeDbResult.Create` then wraps.
     */
    method Query(calls: seq<Call>) returns (r: Result<ResultHandle, string>)
      requires isOpened ==> Settles(calls)
      modifies this`effects
      ensures (State(), r) == Sessions.Query(old(State()), calls)
    {
      if !isOpened {
        return Failure(NotOpenedError);
      }
      var result: Option<ResultHandle> := None;
      var i := 0;
      var thrown: Option<string> := None;
      while true
        invariant 0 <= i <= Settling(calls)
        invariant thrown.None?
        decreases Settling(calls) - i
      {
        var call := calls[i];
        result := call.result;
        if call.status == Ok {
          break;
        } else if call.status != IoWait {
          if call.status == LostConnection {
            thrown := Some(LostConnectionError);
            break;
          }
          thrown := Some(call.error);
          break;
        }
        if call.wait == WaitFailed {
          thrown := Some(WaitError);
          break;
        }
        if call.wait == NotReady {
          thrown := Some(ReadyError);
          break;
        }
        i := i + 1;
      }
      assert i == Settling(calls) && result == calls[i].result;
      if thrown.Some? {
        if result.Some? {
          effects := effects + [ResultFree(result.value)];
        }
        return Failure(thrown.value);
      }
      if result.None? {
        return Failure(NoResultError);
      }
      return Success(result.value);
    }

    /** The destructor. */
    method Destroy()
      modifies this`isOpened, this`connection, this`effects
      ensures State() == Sessions.Destroy(old(State()))
    {
      Close();
      if hasContext {
        effects := effects + [ContextFree];
      }
    }
  }
}
