/**
 * `drizzle::Connection` (src/drizzle/connection.cc): connection settings
 * with setters and getters, and the `opened` / context / connection-handle
 * state that `open()`, `close()` and `query()` drive, following `Sessions`.
 */
module DrizzleConnection {
  import opened Wrappers
  import opened Library
  import opened Sessions

  const DefaultPort: u32 := 3306

  class Connection {
    var hostname: string
    var user: string
    var password: string
    var database: string
    var port: u32
    var mysql: bool
    var isOpened: bool
    /** Whether the `drizzle` context exists. */
    var hasContext: bool
    var connection: Option<Handle>
    /** The configuring and releasing calls into the library, in order. */
    var effects: seq<Effect>

    function State(): Session
      reads this
    {
      Session(isOpened, hasContext, connection, effects)
    }

    function CurrentSettings(): Settings
      reads this
    {
      Settings(hostname, port, user, password, database, mysql)
    }

    /** The constructor: port 3306, MySQL protocol, not opened, no context or connection. */
    constructor ()
      ensures port == DefaultPort && mysql && !isOpened
      ensures !hasContext && connection.None? && effects == []
      ensures hostname == "" && user == "" && password == "" && database == ""
    {
      hostname, user, password, database := "", "", "", "";
      port := DefaultPort;
      mysql := true;
      isOpened := false;
      hasContext := false;
      connection := None;
      effects := [];
    }

    /** Each getter reads back the setting that `open()` hands to the library. */
    function GetHostname(): (r: string) reads this ensures r == CurrentSettings().hostname { hostname }
    function GetUser(): (r: string) reads this ensures r == CurrentSettings().user { user }
    function GetPassword(): (r: string) reads this ensures r == CurrentSettings().password { password }
    function GetDatabase(): (r: string) reads this ensures r == CurrentSettings().database { database }
    function GetPort(): (r: u32) reads this ensures r == CurrentSettings().port { port }
    function IsMysql(): (r: bool) reads this ensures r == CurrentSettings().mysql { mysql }

    /** `isOpened()`: the session's flag; a connection that is not opened reports no server version. */
    function IsOpened(): (r: bool)
      reads this
      ensures r == State().isOpened
      ensures !r ==> Version() == ""
    {
      isOpened
    }

    /** Each setter is read back by its getter and touches nothing else. */
    method SetHostname(hostname: string)
      modifies this`hostname
      ensures GetHostname() == hostname
    {
      this.hostname := hostname;
    }

    method SetUser(user: string)
      modifies this`user
      ensures GetUser() == user
    {
      this.user := user;
    }

    method SetPassword(password: string)
      modifies this`password
      ensures GetPassword() == password
    {
      this.password := password;
    }

    method SetDatabase(database: string)
      modifies this`database
      ensures GetDatabase() == database
    {
      this.database := database;
    }

    method SetPort(port: u32)
      modifies this`port
      ensures GetPort() == port
    {
      this.port := port;
    }

    method SetMysql(mysql: bool)
      modifies this`mysql
      ensures IsMysql() == mysql
    {
      this.mysql := mysql;
    }

    /** `close()`. */
    method Close()
      modifies this`isOpened, this`connection, this`effects
      ensures State() == Sessions.Close(old(State()))
    {
      if connection.Some? {
        effects := effects + [ConClose(connection.value.id), ConFree(connection.value.id)];
        connection := None;
      }
      isOpened := false;
    }

    /**
     * `open()`, with the library's answers as parameters: whether
     * `drizzle_create` succeeds, the structure `drizzle_con_create` returns,
     * and the answers of the `drizzle_con_connect` calls.
     */
    method Open(contextCreated: bool, handle: Option<Handle>, calls: seq<Call>) returns (thrown: Option<string>)
      requires Reaches(State(), contextCreated, handle) ==> Settles(calls)
      modifies this`isOpened, this`hasContext, this`connection, this`effects
      ensures (State(), thrown) == Sessions.Open(old(State()), CurrentSettings(), contextCreated, handle, calls)
    {
      Close();
      if !hasContext {
        if !contextCreated {
          return Some(CreateContextError);
        }
        hasContext := true;
      }
      if handle.None? {
        return Some(CreateConnectionError);
      }
      connection := handle;
      effects := effects + [Configure(handle.value.id, CurrentSettings())];
      var i := 0;
      thrown := None;
      while !isOpened
        invariant 0 <= i <= Settling(calls)
        invariant thrown.None? && !isOpened
        decreases Settling(calls) - i
      {
        var call := calls[i];
        if call.status == Ok {
          isOpened := true;
          break;
        } else if call.status != IoWait {
          thrown := Some(call.error);
          break;
        }
        if call.wait == WaitFailed {
          thrown := Some(WaitError);
          break;
        }
        if call.wait == NotReady {
          thrown := Some(ReadyError);
          break;
        }
        i := i + 1;
      }
      assert isOpened || thrown.Some? ==> i == Settling(calls);
      if thrown.Some? {
        effects := effects + [ConFree(handle.value.id)];
        isOpened := false;
        connection := None;
      }
    }

    /** `version()`. */
    function Version(): (v: string)
      reads this
      ensures !isOpened ==> v == ""
      ensures v == Sessions.Version(State())
    {
      Sessions.Version(State())
    }

    /**
     * `query()`, with the answers of the `drizzle_query` calls as parameter.
     * The result it returns is what `DrizzleResult.Create` then wraps.
     */
    method Query(calls: seq<Call>) returns (r: Result<ResultHandle, string>)
      requires isOpened ==> Settles(calls)
      modifies this`effects
      ensures (State(), r) == Sessions.Query(old(State()), calls)
    {
      if !isOpened {
        return Failure(NotOpenedError);
      }
      var result: Option<ResultHandle> := None;
      var i := 0;
      var thrown: Option<string> := None;
      while true
        invariant 0 <= i <= Settling(calls)
        invariant thrown.None?
        decreases Settling(calls) - i
      {
        var call := calls[i];
        result := call.result;
        if call.status == Ok {
          break;
        } else if call.status != IoWait {
          if call.status == LostConnection {
            thrown := Some(LostConnectionError);
            break;
          }
          thrown := Some(call.error);
          break;
        }
        if call.wait == WaitFailed {
          thrown := Some(WaitError);
          break;
        }
        if call.wait == NotReady {
          thrown := Some(ReadyError);
          break;
        }
        i := i + 1;
      }
      assert i == Settling(calls) && result == calls[i].result;
      if thrown.Some? {
        if result.Some? {
          effects := effects + [ResultFree(result.value)];
        }
        return Failure(thrown.value);
      }
      if result.None? {
        return Failure(NoResultError);
      }
      return Success(result.value);
    }

    /** The destructor. */
    method Destroy()
      modifies this`isOpened, this`connection, this`effects
      ensures State() == Sessions.Destroy(old(State()))
    {
      Close();
      if hasContext {
        effects := effects + [ContextFree];
      }
    }
  }
}
