/** A transaction as an object: beginning on a leased connection, executing through that connection's statement cache,
    closing its inner transaction, and giving the connection back. */
module PgTransactions {
  import opened Decimal
  import opened PoolModel
  import opened PreparedStatements
  import opened ConnectionPools
  import PgServer

  /** What beginning comes to. A lease is lost when the inner transaction cannot be created: the constructor raises, and
      no destructor runs. `NullDriver` is the dereference of the driver of a connection that was never opened. */
  datatype BeginOutcome =
    | NullServer
    | Blocked
    | NoConnection
    | ReadEmptyFront
    | Lost(conn: PgConnection)
    | NullDriver(conn: PgConnection)
    | Begun(conn: PgConnection, tx: PgTransaction)

  predicate Leased(o: BeginOutcome) {
    o.Lost? || o.NullDriver? || o.Begun?
  }

  /** The same answer, in the vocabulary of the server model. */
  ghost predicate Answers(o: BeginOutcome, reply: PgServer.BeginReply) {
    match reply
    case NoConnection => o.Blocked? || o.NoConnection?
    case Refused(k) => o.Lost? && o.conn.key == k
    case NullDriver(k) => o.NullDriver? && o.conn.key == k
    case Began(k) => o.Begun? && o.conn.key == k
  }

  /** The switch over the modes, on a connection already leased; `opens` says whether the server lets the inner
      transaction begin. */
  method CreateTransaction(server: ConnectionPool, connection: PgConnection, mode: PgServer.TxMode, opens: bool)
    returns (o: BeginOutcome)
    modifies connection.inner
    ensures mode.OtherMode? ==> o == Lost(connection)
    ensures !mode.OtherMode? && connection.driver.NoDriver? ==> o == NullDriver(connection)
    ensures !mode.OtherMode? && connection.driver.Session? ==>
              if connection.IsOpen() && opens && !old(connection.inner.open)
              then o.Begun? && o.conn == connection && fresh(o.tx) && o.tx.Fresh(server, connection, mode)
              else o == Lost(connection)
    ensures connection.inner.open == (old(connection.inner.open) || o.Begun?)
  {
    match mode
    case ReadWrite | ReadOnly | ReadCommitted | NonTransaction =>
      if connection.driver.NoDriver? {
        return NullDriver(connection);
      }
      if !connection.driver.open || connection.inner.open || !opens {
        return Lost(connection);
      }
      var tx := new PgTransaction(server, connection, mode);
      connection.inner.open := true;
      o := Begun(connection, tx);
    case OtherMode(_) =>
      o := Lost(connection);
  }

  /** A lease, and what is known of the leased connection's session. */
  method LeaseFrom(server: ConnectionPool, now: int) returns (r: Lease)
    requires server.Valid()
    modifies server, server.Conns()
    ensures server.Valid() && server.storages == old(server.storages)
    ensures r.Granted? <==> old(server.Abs()).running && old(server.Abs()).queue != []
    ensures r.Granted? ==> r.conn.key == old(server.Abs()).queue[0]
    ensures r.Granted? ==> old(server.connections) != [] && r.conn == old(server.connections)[0].second
    ensures r.Granted? ==> r.conn in server.Conns() && r.conn.key in server.Abs().leased
    ensures r.Granted? ==> r.conn.key in old(server.Abs()).stored
    ensures r.Granted? ==> old(server.Abs()).stored[r.conn.key].Live?
    ensures r.Granted? ==> r.conn.driver == old(server.Abs()).stored[r.conn.key].conn.driver
    ensures server.Abs() == if r.Granted? then Take(old(server.Abs()), now) else old(server.Abs())
  {
    ghost var before := server.Abs();
    r := server.Acquire(now);
    if r.Granted? {
      assert before.queue[0] in before.queue;
      assert server.Stored()[r.conn.key] == StampAcquired(before.stored, r.conn.key, now)[r.conn.key];
      LeasedView(server, r.conn.key);
    }
  }

  lemma LeasedView(server: ConnectionPool, key: Key)
    requires server.Valid() && key in server.acquired
    ensures server.acquired[key].second != null && server.Stored()[key] == Live(server.acquired[key].second.View())
  {
    server.PointsToLive(server.acquired[key]);
  }

  /** The same from the end of the wait on, as written: a signalled call gives up, and one whose deadline passed goes
      on, to `front()` of an empty queue if need be. */
  method LeaseAfterWait(server: ConnectionPool, deadlinePassed: bool, now: int) returns (r: Lease)
    requires server.Valid()
    modifies server, server.Conns()
    ensures server.Valid() && server.storages == old(server.storages) && !r.MustWait?
    ensures r.Granted? <==> deadlinePassed && old(server.Abs()).running && old(server.Abs()).queue != []
    ensures r.FrontOfEmpty? <==> deadlinePassed && old(server.Abs()).running && old(server.Abs()).queue == []
    ensures r.Granted? ==> r.conn.key == old(server.Abs()).queue[0]
    ensures r.Granted? ==> old(server.connections) != [] && r.conn == old(server.connections)[0].second
    ensures r.Granted? ==> r.conn in server.Conns() && r.conn.key in server.Abs().leased
    ensures r.Granted? ==> r.conn.key in old(server.Abs()).stored
    ensures r.Granted? ==> old(server.Abs()).stored[r.conn.key].Live?
    ensures r.Granted? ==> r.conn.driver == old(server.Abs()).stored[r.conn.key].conn.driver
    ensures server.Abs() == if r.Granted? then Take(old(server.Abs()), now) else old(server.Abs())
  {
    ghost var before := server.Abs();
    r := server.AcquireAfterWait(deadlinePassed, now);
    if r.Granted? {
      assert before.queue[0] in before.queue;
      assert server.Stored()[r.conn.key] == StampAcquired(before.stored, r.conn.key, now)[r.conn.key];
      LeasedView(server, r.conn.key);
    }
  }

  /** Whether the connection at the front of the queue still has an inner transaction open. */
  ghost predicate FrontEngaged(server: ConnectionPool)
    reads server, server.connections
    reads set n: Node | n in server.connections && n.second != null :: n.second.inner
  {
    server.connections != [] && server.connections[0].second != null && server.connections[0].second.inner.open
  }

  ghost function Engagements(server: ConnectionPool): set<Engagement>
    reads server`storages, server.Nodes()
  {
    set c | c in server.Conns() :: c.inner
  }

  /** The constructor on a server that is there. It is the server model's Begin on the front connection: a Begin that is
      refused has leased all the same. */
  method BeginOn(server: ConnectionPool, mode: PgServer.TxMode, opens: bool, now: int) returns (o: BeginOutcome)
    requires server.Valid()
    modifies server, server.Conns(), Engagements(server)
    ensures server.Valid() && server.storages == old(server.storages) && !o.NullServer?
    ensures Answers(o, PgServer.ReplyOn(old(server.Abs()), mode, opens && !old(FrontEngaged(server))))
    ensures server.Abs() == if Leased(o) then Take(old(server.Abs()), now) else old(server.Abs())
    ensures Leased(o) ==> old(server.connections) != [] && o.conn == old(server.connections)[0].second
    ensures o.Begun? ==> fresh(o.tx) && o.tx.Fresh(server, o.conn, mode) && o.conn.IsOpen() && o.conn.inner.open
    ensures o.Begun? ==> o.conn in server.Conns()
  {
    ghost var before := server.Abs();
    var lease := LeaseFrom(server, now);
    if !lease.Granted? {
      return if lease.MustWait? then Blocked else NoConnection;
    }
    ghost var after := server.Abs();
    o := CreateTransaction(server, lease.conn, mode, opens);
    assert server.Abs() == after == Take(before, now);
    assert Answers(o, PgServer.ReplyOn(before, mode, opens && !old(FrontEngaged(server))));
  }

  /** The constructor of a call that had to wait, once it holds the mutex again. If its deadline passed it is the server
      model's Begin at that moment, except on an exhausted pool; if it was signalled it fails. */
  method BeginAfterWait(server: ConnectionPool, mode: PgServer.TxMode, opens: bool, deadlinePassed: bool, now: int)
    returns (o: BeginOutcome)
    requires server.Valid()
    modifies server, server.Conns(), Engagements(server)
    ensures server.Valid() && server.storages == old(server.storages) && !o.NullServer? && !o.Blocked?
    ensures o.ReadEmptyFront? <==> deadlinePassed && old(server.Abs()).running && old(server.Abs()).queue == []
    ensures if deadlinePassed
            then
              || o.ReadEmptyFront?
              || Answers(o, PgServer.ReplyOn(old(server.Abs()), mode, opens && !old(FrontEngaged(server))))
            else o.NoConnection?
    ensures server.Abs() == if Leased(o) then Take(old(server.Abs()), now) else old(server.Abs())
    ensures Leased(o) ==> old(server.connections) != [] && o.conn == old(server.connections)[0].second
    ensures o.Begun? ==> fresh(o.tx) && o.tx.Fresh(server, o.conn, mode) && o.conn.IsOpen() && o.conn.inner.open
    ensures o.Begun? ==> o.conn in server.Conns()
  {
    ghost var before := server.Abs();
    var lease := LeaseAfterWait(server, deadlinePassed, now);
    if !lease.Granted? {
      return if lease.FrontOfEmpty? then ReadEmptyFront else NoConnection;
    }
    ghost var after := server.Abs();
    o := CreateTransaction(server, lease.conn, mode, opens);
    assert server.Abs() == after == Take(before, now);
    assert Answers(o, PgServer.ReplyOn(before, mode, opens && !old(FrontEngaged(server))));
  }

  /** The constructor: without a server it raises. */
  method Begin(server: ConnectionPool?, mode: PgServer.TxMode, opens: bool, now: int) returns (o: BeginOutcome)
    requires server != null ==> server.Valid()
    modifies if server == null then {} else {server as object} + server.Conns() + Engagements(server)
    ensures server == null <==> o.NullServer?
    ensures server != null ==>
              && server.Valid()
              && Answers(o, PgServer.ReplyOn(old(server.Abs()), mode, opens && !old(FrontEngaged(server))))
              && server.Abs() == if Leased(o) then Take(old(server.Abs()), now) else old(server.Abs())
    ensures server != null && Leased(o) ==> old(server.connections) != [] && o.conn == old(server.connections)[0].second
    ensures server != null && o.Begun? ==> fresh(o.tx) && o.tx.Fresh(server, o.conn, mode) && o.conn in server.Conns()
    ensures server != null && o.Begun? ==> o.conn.IsOpen() && o.conn.inner.open
  {
    if server == null {
      return NullServer;
    }
    o := BeginOn(server, mode, opens, now);
  }

  class PgTransaction {
    var server: ConnectionPool?
    const connection: PgConnection
    const mode: PgServer.TxMode
    var inner: bool

    constructor (server: ConnectionPool, connection: PgConnection, mode: PgServer.TxMode)
      ensures Fresh(server, connection, mode)
    {
      this.server, this.connection, this.mode, inner := server, connection, mode, true;
    }

    predicate Fresh(server: ConnectionPool, connection: PgConnection, mode: PgServer.TxMode)
      reads this
    {
      this.server == server && this.connection == connection && this.mode == mode && inner
    }

    /** An open inner transaction is the one its session is engaged in. */
    predicate Engaged()
      reads this, connection.inner
    {
      inner ==> connection.inner.open
    }

    /** Commit or Rollback; `closes` says whether the session accepts it. In NonTransaction mode nothing is done. */
    method Finish(closes: bool) returns (raised: bool)
      requires Engaged()
      modifies this`inner, connection.inner
      ensures Engaged()
      ensures inner == (old(inner) && (mode == PgServer.NonTransaction || !closes))
      ensures connection.inner.open == (old(connection.inner.open) && (inner || !old(inner)))
      ensures raised <==> mode != PgServer.NonTransaction && !closes
    {
      if mode == PgServer.NonTransaction {
        return false;
      }
      if !closes {
        return true;
      }
      EndInner();
      return false;
    }

    /** What the destruction of the inner transaction does to the session. */
    method EndInner()
      requires Engaged()
      modifies this`inner, connection.inner
      ensures Engaged() && !inner
      ensures connection.inner.open == (old(connection.inner.open) && !old(inner))
    {
      if inner {
        connection.inner.open := false;
        inner := false;
      }
    }

    /** What the manager and the session of the connection know. */
    function CacheOf(): Cache
      requires connection.driver.Session?
      reads this, connection, connection.manager
    {
      Cache(connection.manager.statements, connection.driver.prepared)
    }

    /** Running a prepared statement by name; the parameters are translated first. */
    method RunNamed(name: string, args: seq<Param>) returns (o: Outcome)
      requires connection.driver.Session?
      ensures o == RunPrepared(connection.driver.prepared, name, args)
    {
      var wires: Option<seq<Wire>> := Some([]);
      if args != [] {
        wires := TranslateParams(args);
      }
      match wires
      case None => o := BadParameter;
      case Some(params) =>
        if name in connection.driver.prepared {
          assert args == [] ==> Translated(args) == [];
          o := Ran(connection.driver.prepared[name], params);
        } else {
          o := NoSuchStatement(name);
        }
    }

    method ExecuteImpl(query: string, args: seq<Param>, ok: bool, now: int) returns (o: Outcome)
      requires connection.driver.Session?
      modifies connection`driver, connection.manager
      ensures connection.driver.Session? && connection.driver.open == old(connection.driver).open
      ensures (CacheOf(), o) == Execute(connection.manager.hash, old(CacheOf()), Query(query, args, ok, now))
      ensures o.Ran? ==> AllCarried(args, o.params)
      ensures o.EmptyQuery? <==> forall i :: 0 <= i < |query| ==> query[i] == ' ' || 9 <= query[i] as int <= 13
    {
      ExecuteCarries(connection.manager.hash, CacheOf(), Query(query, args, ok, now));
      var key := connection.PrepareStatement(query, now);
      match key
      case None => o := EmptyQuery;
      case Some((name, isNew)) =>
        if isNew {
          var prepared := connection.DriverPrepare(name, query, ok);
          if !prepared {
            return PrepareFailed;
          }
        }
        o := RunNamed(name, args);
    }

    /** Executing on a connection of the pool: the pool's new state is the one the server model's Run gives. */
    method ExecutePooled(pool: ConnectionPool, query: string, args: seq<Param>, ok: bool, now: int) returns (o: Outcome)
      requires pool.Valid() && connection in pool.Conns() && connection.IsOpen()
      modifies connection`driver, connection.manager
      ensures pool.Valid() && connection in pool.Conns() && connection.IsOpen()
      ensures (pool.Abs(), connection.manager.statements, o) ==
              PgServer.RunOn(connection.manager.hash, old(pool.Abs()), old(connection.manager.statements),
                             connection.key, Query(query, args, ok, now))
    {
      ghost var before, q := pool.Abs(), Query(query, args, ok, now);
      ghost var c := Execute(connection.manager.hash, CacheOf(), q).0;
      pool.ConnIsStored(connection);
      o := ExecuteImpl(query, args, ok, now);
      pool.ConnIsStored(connection);
      assert pool.Stored() == PgServer.WithPrepared(before, connection.key, c.prepared).stored;
      PgServer.PreparedKeeps(before, connection.key, c.prepared);
    }

    method ExecuteNonPreparedImpl(query: string, args: seq<Param>) returns (o: Outcome)
      ensures forall ok, now :: o == ExecuteNonPrepared(Query(query, args, ok, now))
      ensures o == EmptyQuery <==> query == ""
      ensures o == BadParameter <==> query != "" && SomeUnsupported(args)
      ensures query != "" && !SomeUnsupported(args) ==> o.Ran? && o.text == query && AllCarried(args, o.params)
    {
      TranslatedCarries(args);
      if query == "" {
        return EmptyQuery;
      }
      if args == [] {
        assert Translated(args) == [];
        return Ran(query, []);
      }
      var wires := TranslateParams(args);
      match wires
      case None => o := BadParameter;
      case Some(params) => o := Ran(query, params);
    }

    /** The body of the destructor. The server is forgotten, so a second call returns nothing. `engaged` is what the
        session was in when its connection was given back. */
    method ReturnConnectionToThePool(now: int) returns (engaged: bool)
      requires server != null ==> server.Valid()
      modifies this`server
      modifies if server == null then {} else {server as object} + server.Conns()
      ensures server == null && engaged == connection.inner.open == old(connection.inner.open)
      ensures old(server) != null ==> old(server).Valid()
      ensures old(server) != null ==> old(server).Abs() == Give(old(server.Abs()), connection.key, now)
    {
      engaged := connection.inner.open;
      var pool := server;
      server := null;
      if pool != null {
        var _ := pool.Return(connection, now);
      }
    }

    /** The destructor as written: its body first, then the member that holds the inner transaction. Between the two the
        connection is already free, and its session still engaged. */
    method Destroy(now: int) returns (engaged: bool)
      requires Engaged() && server != null && server.Valid()
      modifies this`server, this`inner, connection.inner, server, server.Conns()
      ensures server == null && !inner && connection.inner.open == (old(connection.inner.open) && !old(inner))
      ensures engaged == old(connection.inner.open)
      ensures old(server).Valid() && old(server).Abs() == Give(old(server.Abs()), connection.key, now)
    {
      ghost var pool := server;
      engaged := ReturnConnectionToThePool(now);
      ghost var after, conns := pool.Abs(), pool.Conns();
      EndInner();
      assert pool.Conns() == conns && pool.Stored() == after.stored;
      assert pool.Abs() == after;
    }
  }
}
