/** The pool as an object: nodes on the heap, an owning map, and two containers of pointers to those nodes. Each method
    is one critical section, specified by the pool functions of `PoolModel`. */
module ConnectionPools {
  import opened Decimal
  import opened PoolModel
  import opened PoolProtocol
  import opened PreparedStatements

  datatype OpenOutcome = Opened | AlreadyCreated | ConnectFailed

  /** What the driver knows of the inner transaction on its session: it refuses a second one. */
  class Engagement {
    var open: bool

    constructor ()
      ensures !open
    {
      open := false;
    }
  }

  class PgConnection {
    const key: Key
    const mode: StandbyMode
    const idleAfter: int
    const manager: PreparedStatementManager
    const inner: Engagement
    var acquired: int
    var returned: int
    var driver: Driver

    constructor (c: Creation, hash: string -> nat)
      ensures key == c.key && View() == NewConn(c, NoDriver)
      ensures fresh(manager) && manager.hash == hash && manager.statements == map[]
      ensures fresh(inner) && !inner.open
    {
      key, mode, idleAfter := c.key, c.mode, c.idleAfter;
      manager := new PreparedStatementManager(hash);
      inner := new Engagement();
      acquired, returned := c.now, c.now;
      driver := NoDriver;
    }

    function View(): Conn
      reads this
    {
      Conn(mode, idleAfter, acquired, returned, driver)
    }

    method Acquire(now: int)
      modifies this`acquired
      ensures View() == old(View()).(acquired := now)
    {
      acquired := now;
    }

    method Returned(now: int)
      modifies this`returned
      ensures View() == old(View()).(returned := now)
    {
      returned := now;
    }

    predicate IsOpen()
      reads this
    {
      driver.Session? && driver.open
    }

    method Idle(now: int) returns (b: bool)
      ensures b <==> IsIdle(View(), now)
    {
      b := Trunc(now - returned, TICKS) > idleAfter;
    }

    method Open(succeeds: bool) returns (r: OpenOutcome)
      modifies this`driver
      ensures r == if old(driver).Session? then AlreadyCreated else if succeeds then Opened else ConnectFailed
      ensures View() == if r == Opened then old(View()).(driver := OPENED) else old(View())
    {
      if driver.Session? {
        return AlreadyCreated;
      }
      if !succeeds {
        return ConnectFailed;
      }
      driver := Session(true, map[]);
      return Opened;
    }

    /** A connection without an open session is left alone, so it cannot raise. */
    method Close(failing: bool) returns (raised: bool)
      modifies this`driver
      ensures raised <==> failing && old(driver).Session? && old(driver).open
      ensures driver == if raised || old(driver).NoDriver? then old(driver) else Session(false, old(driver).prepared)
      ensures acquired == old(acquired) && returned == old(returned)
    {
      if driver.NoDriver? || !driver.open {
        return false;
      }
      if failing {
        return true;
      }
      driver := Session(false, driver.prepared);
      return false;
    }

    /** If the close raises, the driver stays. */
    method Release(failing: bool) returns (raised: bool)
      modifies this`driver
      ensures raised <==> failing && old(IsOpen())
      ensures View() == if raised then old(View()) else old(View()).(driver := NoDriver)
    {
      if driver.NoDriver? {
        return false;
      }
      raised := Close(failing);
      if raised {
        return;
      }
      driver := NoDriver;
    }

    method PrepareStatement(query: string, now: int) returns (r: Option<(string, bool)>)
      modifies manager
      ensures (manager.statements, r) == Registered(manager.hash, old(manager.statements), query, now)
    {
      r := manager.Register(query, now);
    }

    /** The driver's `prepare`: `ok` says whether the server accepts the text. */
    method DriverPrepare(name: string, text: string, ok: bool) returns (prepared: bool)
      requires driver.Session?
      modifies this`driver
      ensures prepared <==> Prepare(old(driver).prepared, name, text, ok).Some?
      ensures driver == if prepared then old(driver).(prepared := old(driver).prepared[name := text]) else old(driver)
    {
      if !ok || name in driver.prepared {
        return false;
      }
      driver := driver.(prepared := driver.prepared[name := text]);
      return true;
    }
  }

  /** A node of the owning map: its key, and the connection it owns until it is reset. */
  class Node {
    const first: Key
    var second: PgConnection?

    constructor (first: Key, second: PgConnection)
      ensures this.first == first && this.second == second
    {
      this.first, this.second := first, second;
    }

    ghost function View(): Slot
      reads this, second
    {
      if second == null then Null else Live(second.View())
    }
  }

  ghost function Firsts(q: seq<Node>): (r: seq<Key>)
    ensures |r| == |q| && forall i :: 0 <= i < |q| ==> r[i] == q[i].first
  {
    seq(|q|, i requires 0 <= i < |q| => q[i].first)
  }

  datatype Lease = MustWait | NoLease | Granted(conn: PgConnection) | FrontOfEmpty

  class ConnectionPool {
    var storages: map<Key, Node>
    var acquired: map<Key, Node>
    var connections: seq<Node>
    var isRun: bool

    constructor ()
      ensures Valid() && Abs() == Pool(map[], {}, [], false)
    {
      storages, acquired, connections, isRun := map[], map[], [], false;
    }

    ghost function Nodes(): set<Node>
      reads this`storages
    {
      storages.Values
    }

    ghost function Conns(): set<PgConnection>
      reads this`storages, Nodes()
    {
      set n | n in Nodes() && n.second != null :: n.second
    }

    /** Every connection sits in the node with its key, and every node is stored under its own. */
    ghost predicate Keyed()
      reads this`storages, Nodes(), Conns()
    {
      forall k :: k in storages ==>
        storages[k].first == k && (storages[k].second != null ==> storages[k].second.key == k)
    }

    /** Every pointer the pool holds is the node stored under that node's key. */
    ghost predicate Linked()
      reads this
    {
      && (forall k :: k in acquired ==> k in storages && acquired[k] == storages[k])
      && (forall n :: n in connections ==> n.first in storages && n == storages[n.first])
    }

    ghost function Stored(): map<Key, Slot>
      reads this`storages, Nodes(), Conns()
    {
      map k | k in storages :: storages[k].View()
    }

    ghost function Abs(): Pool
      reads this, Nodes(), Conns()
    {
      Pool(Stored(), acquired.Keys, Firsts(connections), isRun)
    }

    ghost predicate Valid()
      reads this, Nodes(), Conns()
    {
      Keyed() && Linked() && Owned(Abs())
    }

    method StampAcquiredOn(node: Node, now: int)
      requires Keyed() && node.first in storages && node == storages[node.first] && node.second != null
      modifies Conns()
      ensures Keyed() && unchanged(this) && unchanged(Nodes())
      ensures Stored() == StampAcquired(old(Stored()), node.first, now)
    {
      node.second.Acquire(now);
    }

    method StampReturnedOn(node: Node, now: int)
      requires Keyed() && node.first in storages && node == storages[node.first] && node.second != null
      modifies Conns()
      ensures Keyed() && unchanged(this) && unchanged(Nodes())
      ensures Stored() == StampReturned(old(Stored()), node.first, now)
    {
      node.second.Returned(now);
    }

    /** A node that the queue or the lease map points to still has its connection. */
    lemma PointsToLive(node: Node)
      requires Valid() && (node in connections || (node.first in acquired && acquired[node.first] == node))
      ensures node.first in storages && node == storages[node.first] && node.second != null && node.second in Conns()
    {
      if node in connections {
        var i :| 0 <= i < |connections| && connections[i] == node;
        assert Abs().queue[i] in Abs().queue;
      } else {
        assert node.first in Abs().leased;
      }
      assert Stored()[node.first] == node.View();
    }

    /** A stored connection sits under its own key. */
    lemma ConnIsStored(conn: PgConnection)
      requires Keyed() && conn in Conns()
      ensures conn.key in storages && storages[conn.key].second == conn && Stored()[conn.key] == Live(conn.View())
    {
      var k :| k in storages && storages[k].second == conn;
      assert Stored()[k] == storages[k].View();
    }

    /** The front of the queue moves to the lease map. */
    method PopFront() returns (node: Node)
      requires Linked() && connections != []
      modifies this`connections, this`acquired
      ensures Linked() && node == old(connections[0])
      ensures Firsts(connections) == Firsts(old(connections))[1..]
      ensures acquired.Keys == old(acquired).Keys + {node.first}
    {
      node := connections[0];
      assert node in connections;
      connections := connections[1..];
      if node.first !in acquired {
        acquired := acquired[node.first := node];
      }
    }

    /** A leased node moves to the end of the queue. */
    method PushBack(node: Node)
      requires Linked() && node.first in acquired && acquired[node.first] == node
      modifies this`connections, this`acquired
      ensures Linked()
      ensures Firsts(connections) == Firsts(old(connections)) + [node.first]
      ensures acquired.Keys == old(acquired).Keys - {node.first}
    {
      connections := connections + [node];
      acquired := acquired - {node.first};
    }

    /** Lines 121 to 127 of `connection_pool.cc`. */
    method TakeFront(now: int) returns (conn: PgConnection)
      requires Valid() && connections != []
      modifies this`connections, this`acquired, Conns()
      ensures Valid() && Abs() == Take(old(Abs()), now)
      ensures conn.key == old(Abs()).queue[0] && conn == old(connections[0].second)
      ensures storages == old(storages) && unchanged(Nodes())
    {
      ghost var before := Abs();
      PointsToLive(connections[0]);
      var node := PopFront();
      conn := node.second;
      StampAcquiredOn(node, now);
      assert Abs() == Take(before, now);
      TakeKeeps(before, now);
    }

    /** Lines 146 to 154 of `connection_pool.cc`. */
    method GiveBack(node: Node, now: int)
      requires Valid() && node.first in acquired && acquired[node.first] == node
      modifies this`connections, this`acquired, Conns()
      ensures Valid() && Abs() == Give(old(Abs()), node.first, now)
      ensures storages == old(storages) && unchanged(Nodes())
    {
      ghost var before := Abs();
      PointsToLive(node);
      StampAndPush(node, now);
      GiveKeeps(before, node.first, now);
    }

    method StampAndPush(node: Node, now: int)
      requires Keyed() && Linked() && node.first in acquired && acquired[node.first] == node && node.second != null
      modifies this`connections, this`acquired, Conns()
      ensures Keyed() && Linked() && Abs() == Give(old(Abs()), node.first, now)
      ensures storages == old(storages) && unchanged(Nodes())
    {
      StampReturnedOn(node, now);
      PushBack(node);
      assert Stored() == StampReturned(old(Stored()), node.first, now);
    }

    lemma PointsToLeased(key: Key)
      requires Valid() && key in acquired
      ensures acquired[key].first == key
    {
    }

    /** Acquire up to the wait. */
    method Acquire(now: int) returns (r: Lease)
      requires Valid()
      modifies this`connections, this`acquired, Conns()
      ensures Valid() && storages == old(storages)
      ensures r.Granted? ==> old(connections) != [] && r.conn == old(connections)[0].second
      ensures match Entering(old(Abs()))
              case Waits => r == MustWait && Abs() == old(Abs())
              case Nothing => r == NoLease && Abs() == old(Abs())
              case Leased(k) => r.Granted? && r.conn.key == k && Abs() == Take(old(Abs()), now)
              case EmptyFront => false
    {
      if connections == [] && isRun {
        return MustWait;
      }
      if !isRun {
        return NoLease;
      }
      var conn := TakeFront(now);
      return Granted(conn);
    }

    /** Acquire from the end of its wait on, as written: the result of the wait is negated. */
    method AcquireAfterWait(deadlinePassed: bool, now: int) returns (r: Lease)
      requires Valid()
      modifies this`connections, this`acquired, Conns()
      ensures Valid() && storages == old(storages)
      ensures r.Granted? ==> old(connections) != [] && r.conn == old(connections)[0].second
      ensures match Resuming(AsWritten, old(Abs()), deadlinePassed)
              case Waits => false
              case Nothing => r == NoLease && Abs() == old(Abs())
              case Leased(k) => r.Granted? && r.conn.key == k && Abs() == Take(old(Abs()), now)
              case EmptyFront => r == FrontOfEmpty && Abs() == old(Abs())
    {
      if !deadlinePassed {
        return NoLease;
      }
      if !isRun {
        return NoLease;
      }
      if connections == [] {
        return FrontOfEmpty;
      }
      var conn := TakeFront(now);
      return Granted(conn);
    }

    method Return(conn: PgConnection?, now: int) returns (accepted: bool)
      requires Valid()
      modifies this`connections, this`acquired, Conns()
      ensures Valid() && storages == old(storages)
      ensures accepted <==> conn != null && conn.key in old(Abs()).leased
      ensures Abs() == if conn == null then old(Abs()) else Give(old(Abs()), conn.key, now)
    {
      if conn == null {
        return false;
      }
      var key := conn.key;
      if key !in acquired {
        return false;
      }
      PointsToLeased(key);
      GiveBack(acquired[key], now);
      return true;
    }

    /** `pinged` is what is printed. */
    method PingService() returns (pinged: seq<Key>)
      requires Valid()
      modifies this`connections
      ensures Valid() && connections == old(connections) && Abs() == old(Abs())
      ensures pinged == if isRun then old(Abs()).queue else []
    {
      if !isRun {
        return [];
      }
      pinged := PingFree();
    }

    /** Each free connection is popped, pinged and pushed back. */
    method PingFree() returns (pinged: seq<Key>)
      modifies this`connections
      ensures connections == old(connections) && pinged == Firsts(connections)
    {
      pinged := [];
      ghost var q := connections;
      var n := |connections|;
      for i := 0 to n
        invariant n == |q| && connections == q[i..] + q[..i]
        invariant pinged == Firsts(q[..i])
      {
        RotateOnce(q, i);
        var element := connections[0];
        connections := connections[1..];
        pinged := pinged + [element.first];
        connections := connections + [element];
      }
      assert connections == q && q[..n] == q;
    }

    method CleanupService(now: int, failing: set<Key>) returns (raised: bool)
      requires Valid()
      modifies this`connections, Nodes(), Conns()
      ensures Valid() && Abs() == Sweep(old(Abs()), now, failing)
      ensures raised <==> Interrupted(old(Abs()), now, failing)
      ensures KeptOrReleased(old(Conns()))
    {
      if !isRun {
        return false;
      }
      ghost var before := Abs();
      if connections == [] {
        assert before.queue == [];
        assert Swept(before.stored, [], now) == before.stored;
        return false;
      }
      raised := SweepQueue(now, failing);
      SweepKeeps(before, now, failing);
    }

    /** A connection the pool no longer owns has given up its session. */
    ghost predicate KeptOrReleased(conns: set<PgConnection>)
      reads this`storages, Nodes(), conns
    {
      forall c :: c in conns ==> c.driver == NoDriver || (c.key in storages && storages[c.key].second == c)
    }

    /** The cleanup loop has looked at the first `i` of the queued keys `q`. */
    ghost predicate SweptSoFar(stored: map<Key, Slot>, q: seq<Key>, i: nat, now: int)
      requires i <= |q|
      reads this`storages, this`connections, Nodes(), Conns()
    {
      && Firsts(connections) == q[i..] + Kept(q[..i], stored, now)
      && Stored() == Swept(stored, q[..i], now)
    }

    method SweepQueue(now: int, failing: set<Key>) returns (raised: bool)
      requires Keyed() && Linked() && Distinct(Firsts(connections)) && AllLive(Stored(), Firsts(connections))
      modifies this`connections, Nodes(), Conns()
      ensures Keyed() && Linked()
      ensures var q := Firsts(old(connections));
              var n := Reach(q, old(Stored()), now, failing);
              && (raised <==> n < |q|)
              && Firsts(connections) == Behind(q, n) + Kept(q[..n], old(Stored()), now)
              && Stored() == Swept(old(Stored()), q[..n], now)
      ensures KeptOrReleased(old(Conns()))
    {
      ghost var stored, q := Stored(), Firsts(connections);
      var n := |connections|;
      SweepNone(stored, q, now);
      for i := 0 to n
        invariant Keyed() && Linked() && storages == old(storages) && Conns() <= old(Conns())
        invariant SweptSoFar(stored, q, i, now) && KeptOrReleased(old(Conns()))
        invariant forall j :: 0 <= j < i ==> !ReleaseRaises(stored, q[j], now, failing)
      {
        raised := SweepStep(stored, old(Conns()), q, i, now, failing);
        if raised {
          ReachIs(q, stored, now, failing, i);
          return;
        }
      }
      raised := false;
      ReachIs(q, stored, now, failing, n);
      assert q[..n] == q && q[n..] == [];
    }

    method SweepStep(ghost stored: map<Key, Slot>, ghost conns: set<PgConnection>, ghost q: seq<Key>, ghost i: nat,
                     now: int, failing: set<Key>)
      returns (raised: bool)
      requires Keyed() && Linked() && Distinct(q) && AllLive(stored, q) && i < |q| && SweptSoFar(stored, q, i, now)
      requires KeptOrReleased(conns)
      modifies this`connections, Nodes(), Conns()
      ensures Keyed() && Linked() && Conns() <= old(Conns()) && KeptOrReleased(conns)
      ensures raised <==> ReleaseRaises(stored, q[i], now, failing)
      ensures !raised ==> SweptSoFar(stored, q, i + 1, now)
      ensures raised ==>
                Firsts(connections) == q[i + 1..] + Kept(q[..i], stored, now) && Stored() == Swept(stored, q[..i], now)
    {
      SweptNext(stored, q, i, now);
      KeptNext(stored, q, i, now);
      PopOf(q, i, Kept(q[..i], stored, now));
      assert connections[0].first == q[i];
      assert Stored()[q[i]] == connections[0].View();
      raised := SweepOne(now, connections[0].first in failing);
    }

    /** The session is dropped and the connection destroyed; the emptied node stays in the owning map. */
    method Discard(element: Node, failing: bool) returns (raised: bool)
      requires Keyed() && element.first in storages && element == storages[element.first] && element.second != null
      modifies element, element.second
      ensures Keyed() && Conns() <= old(Conns())
      ensures raised <==> failing && old(element.second.IsOpen())
      ensures Stored() == if raised then old(Stored()) else old(Stored())[element.first := Null]
      ensures if raised then element.second == old(element.second) else old(element.second).driver == NoDriver
    {
      raised := element.second.Release(failing);
      if raised {
        assert element.View() == old(element.View());
        assert Stored() == old(Stored());
        return;
      }
      element.second := null;
    }

    /** One round of the cleanup loop. A release that raises leaves its connection popped, and with its session. */
    method SweepOne(now: int, failing: bool) returns (raised: bool)
      requires Keyed() && Linked() && connections != [] && connections[0].second != null
      modifies this`connections, connections[0], connections[0].second
      ensures Keyed() && Linked() && Conns() <= old(Conns())
      ensures var k := old(connections[0]).first;
              if Expires(old(Stored())[k], now)
              then
                && (raised <==> failing && old(connections[0].second.IsOpen()))
                && Firsts(connections) == Firsts(old(connections))[1..]
                && Stored() == if raised then old(Stored()) else old(Stored())[k := Null]
              else
                && !raised
                && Firsts(connections) == Firsts(old(connections))[1..] + [k]
                && Stored() == old(Stored())
      ensures var node := old(connections)[0];
              node.second == old(node.second) || old(node.second).driver == NoDriver
    {
      var element := PopFree();
      assert Stored()[element.first] == element.View();
      var idle := element.second.Idle(now);
      if element.second.mode == Standby && idle {
        raised := Discard(element, failing);
      } else {
        PushFree(element);
        raised := false;
      }
    }

    method PopFree() returns (element: Node)
      requires Linked() && connections != []
      modifies this`connections
      ensures Linked() && element == old(connections[0])
      ensures element.first in storages && element == storages[element.first]
      ensures Firsts(connections) == Firsts(old(connections))[1..]
    {
      element := connections[0];
      assert element in connections;
      connections := connections[1..];
    }

    method PushFree(element: Node)
      requires Linked() && element.first in storages && element == storages[element.first]
      modifies this`connections
      ensures Linked() && Firsts(connections) == Firsts(old(connections)) + [element.first]
    {
      connections := connections + [element];
    }

    /** One round of `InitializePrimaryConnections`. The map's `emplace` does not overwrite, and the node is queued
        before its connection is opened. */
    method AddOne(conn: PgConnection, c: Creation) returns (r: RunOutcome)
      requires Valid() && isRun
      requires conn.key == c.key && conn.View() == NewConn(c, NoDriver) && conn !in Conns()
      modifies this`storages, this`connections, conn`driver
      ensures Valid() && isRun
      ensures c.key in old(Abs()).stored ==> r == KeyCollision && Abs() == old(Abs())
      ensures c.key !in old(Abs()).stored ==>
                r == (if c.opens then Ready else OpenFailed) && Abs() == Add(old(Abs()), c)
      ensures fresh(Nodes() - old(Nodes())) && Conns() <= old(Conns()) + {conn}
    {
      if conn.key in storages {
        return KeyCollision;
      }
      ghost var before := Abs();
      var success := StoreAndOpen(conn, c);
      assert Abs() == Add(before, c);
      AddKeeps(before, c);
      r := if success then Ready else OpenFailed;
    }

    method StoreAndOpen(conn: PgConnection, c: Creation) returns (success: bool)
      requires Keyed() && Linked() && conn.key !in storages && conn !in Conns()
      requires conn.key == c.key && conn.View() == NewConn(c, NoDriver)
      modifies this`storages, this`connections, conn`driver
      ensures Keyed() && Linked() && success == c.opens
      ensures Stored() == old(Stored())[c.key := Live(NewConn(c, if c.opens then OPENED else NoDriver))]
      ensures Firsts(connections) == Firsts(old(connections)) + [c.key]
      ensures fresh(Nodes() - old(Nodes())) && Conns() <= old(Conns()) + {conn}
    {
      StoreNew(conn);
      success := OpenStored(conn, c.opens);
    }

    method StoreNew(conn: PgConnection)
      requires Keyed() && Linked() && conn.key !in storages && conn !in Conns()
      modifies this`storages, this`connections
      ensures Keyed() && Linked() && Stored() == old(Stored())[conn.key := Live(conn.View())]
      ensures Firsts(connections) == Firsts(old(connections)) + [conn.key]
      ensures fresh(Nodes() - old(Nodes())) && conn in Conns() && Conns() <= old(Conns()) + {conn}
    {
      var node := new Node(conn.key, conn);
      PushNew(node);
      assert storages[conn.key] == node;
    }

    method OpenStored(conn: PgConnection, opens: bool) returns (success: bool)
      requires Keyed() && conn in Conns() && conn.driver.NoDriver?
      modifies conn`driver
      ensures Keyed() && success == opens
      ensures Stored() ==
              old(Stored())[conn.key := Live(old(conn.View()).(driver := if opens then OPENED else NoDriver))]
      ensures old(Linked()) ==> Linked()
    {
      ConnIsStored(conn);
      var outcome := conn.Open(opens);
      ConnIsStored(conn);
      success := outcome == Opened;
    }

    method PushNew(node: Node)
      requires Linked() && node.first !in storages
      modifies this`storages, this`connections
      ensures Linked() && storages == old(storages)[node.first := node]
      ensures Firsts(connections) == Firsts(old(connections)) + [node.first]
    {
      storages := storages[node.first := node];
      connections := connections + [node];
    }

    /** The creation callback, and adding what it returns. */
    method CreateOne(c: Creation, hash: string -> nat) returns (r: RunOutcome)
      requires Valid() && isRun
      modifies this`storages, this`connections
      ensures Valid() && isRun
      ensures c.key in old(Abs()).stored ==> r == KeyCollision && Abs() == old(Abs())
      ensures c.key !in old(Abs()).stored ==>
                r == (if c.opens then Ready else OpenFailed) && Abs() == Add(old(Abs()), c)
      ensures fresh(Nodes() - old(Nodes())) && fresh(Conns() - old(Conns()))
    {
      var conn := new PgConnection(c, hash);
      assert Abs() == old(Abs()) && Conns() == old(Conns());
      r := AddOne(conn, c);
    }

    /** `made` is what successive calls of the creation callback yield; a Run uses as many as it needs. */
    method RunImpl(callback: bool, minConnection: nat, made: seq<Creation>, hash: string -> nat) returns (r: RunOutcome)
      requires Valid() && |made| >= 1 && |made| >= minConnection
      modifies this`storages, this`connections, this`isRun
      ensures Valid() && isRun == (old(isRun) || callback) && acquired == old(acquired)
      ensures !callback ==> r == NoCallback && Abs() == old(Abs())
      ensures minConnection >= 1 ==> (Abs(), r) == Start(old(Abs()), callback, made[..minConnection])
      ensures minConnection == 0 ==> (Abs(), r) == Start(old(Abs()), callback, made[..1])
      ensures r == Ready && minConnection >= 1 ==> |connections| == |old(connections)| + minConnection
      ensures r == Ready && minConnection == 0 ==> |connections| == |old(connections)| + 1
      ensures fresh(Nodes() - old(Nodes())) && fresh(Conns() - old(Conns()))
    {
      if !callback {
        return NoCallback;
      }
      isRun := true;
      assert Abs() == old(Abs()).(running := true);
      r := InitializePrimaryConnections(minConnection, made, hash);
    }

    method InitializePrimaryConnections(minConnection: nat, made: seq<Creation>, hash: string -> nat)
      returns (r: RunOutcome)
      requires Valid() && isRun && |made| >= 1 && |made| >= minConnection
      modifies this`storages, this`connections
      ensures Valid() && r != NoCallback
      ensures minConnection >= 1 ==> (Abs(), r) == AddAll(old(Abs()), made[..minConnection])
      ensures minConnection == 0 ==> (Abs(), r) == AddAll(old(Abs()), made[..1])
      ensures r == Ready && minConnection >= 1 ==> |connections| == |old(connections)| + minConnection
      ensures r == Ready && minConnection == 0 ==> |connections| == |old(connections)| + 1
      ensures fresh(Nodes() - old(Nodes())) && fresh(Conns() - old(Conns()))
    {
      var count := if minConnection == 0 then 1 else minConnection;
      ghost var before := Abs();
      r := CreateAll(made[..count], hash);
      AddAllGrows(before, made[..count]);
    }

    /** The creation loop, over the creations it uses. */
    method CreateAll(made: seq<Creation>, hash: string -> nat) returns (r: RunOutcome)
      requires Valid() && isRun
      modifies this`storages, this`connections
      ensures Valid() && (Abs(), r) == AddAll(old(Abs()), made)
      ensures fresh(Nodes() - old(Nodes())) && fresh(Conns() - old(Conns()))
    {
      for i := 0 to |made|
        invariant Valid() && isRun
        invariant AddAll(old(Abs()), made) == AddAll(Abs(), made[i..])
        invariant fresh(Nodes() - old(Nodes())) && fresh(Conns() - old(Conns()))
      {
        assert made[i..][0] == made[i] && made[i..][1..] == made[i + 1..];
        r := CreateOne(made[i], hash);
        if r != Ready {
          return;
        }
      }
      r := Ready;
    }

    /** The close loop visits the hash map in an order of its own; `visited` is that order, as far as it gets. */
    method StopImpl(failing: set<Key>) returns (r: StopOutcome, visited: seq<Key>)
      requires Valid()
      modifies this, Nodes(), Conns()
      ensures Valid() && (Abs(), r) == Halt(old(Abs()), visited, failing)
      ensures Distinct(visited) && KeySet(visited) <= old(Abs()).stored.Keys
      ensures r == Stopped ==> Visits(visited, old(Abs()).stored.Keys)
      ensures exists order :: Visits(order, old(Abs()).stored.Keys) && visited <= order
                              && Halt(old(Abs()), order, failing) == (Abs(), r)
      ensures r == Stopped ==> forall c :: c in old(Conns()) ==> !c.IsOpen()
    {
      ghost var before := Abs();
      if isRun {
        r, visited := StopRunning(failing);
      } else {
        r, visited := NotRunning, [];
      }
      ghost var order := HaltCompletes(before, visited, failing);
    }

    method StopRunning(failing: set<Key>) returns (r: StopOutcome, visited: seq<Key>)
      requires Valid() && isRun
      modifies this, Nodes(), Conns()
      ensures Valid() && (Abs(), r) == Halt(old(Abs()), visited, failing)
      ensures Distinct(visited) && KeySet(visited) <= old(Abs()).stored.Keys
      ensures r == Stopped ==> Visits(visited, old(Abs()).stored.Keys)
      ensures r == Stopped ==> forall c :: c in old(Conns()) ==> !c.IsOpen()
    {
      ghost var before := Abs();
      ForgetPointers();
      assert Stored() == before.stored;
      r, visited := CloseAndClear(failing);
      CloseAllExactly(before.stored, visited, failing);
      assert Abs() == Pool(Stored(), {}, [], false);
    }

    method CloseAndClear(failing: set<Key>) returns (r: StopOutcome, visited: seq<Key>)
      requires Keyed()
      modifies this`storages, Nodes(), Conns()
      ensures Keyed() && r == CloseAll(old(Stored()), visited, failing).1
      ensures Stored() == if r == Stopped then map[] else CloseAll(old(Stored()), visited, failing).0
      ensures Distinct(visited) && KeySet(visited) <= old(storages).Keys
      ensures r == Stopped ==> KeySet(visited) == old(storages).Keys && forall c :: c in old(Conns()) ==> !c.IsOpen()
    {
      r, visited := CloseStored(failing);
      if r == Stopped {
        storages := map[];
      }
    }

    /** The flag, the lease map and the queue, emptied by as many pops as it has entries. */
    method ForgetPointers()
      modifies this`isRun, this`acquired, this`connections
      ensures !isRun && acquired == map[] && connections == []
    {
      isRun := false;
      acquired := map[];
      var size := |connections|;
      for i := 0 to size
        invariant |connections| == size - i && acquired == map[] && !isRun
      {
        connections := connections[1..];
      }
    }

    method CloseStored(failing: set<Key>) returns (r: StopOutcome, visited: seq<Key>)
      requires Keyed()
      modifies Nodes(), Conns()
      ensures Keyed() && unchanged(this)
      ensures (Stored(), r) == CloseAll(old(Stored()), visited, failing)
      ensures Distinct(visited) && KeySet(visited) <= storages.Keys
      ensures r == Stopped ==> KeySet(visited) == storages.Keys && OpenUnder(old(Conns()), {})
    {
      visited, r := [], Stopped;
      var keys := storages.Keys;
      ghost var stored, conns := Stored(), Conns();
      while keys != {}
        invariant Keyed() && unchanged(this) && Conns() <= old(Conns())
        invariant ClosedSoFar(stored, conns, visited, keys, failing)
      {
        var k :| k in keys;
        VisitNext(visited, k);
        r := CloseStep(stored, conns, visited, keys, k, failing);
        keys, visited := keys - {k}, visited + [k];
        if r != Stopped {
          return;
        }
      }
      r := Stopped;
    }

    /** The close loop has visited the keys `visited`, and `keys` are left: every connection still open sits under one
        of those. */
    ghost predicate ClosedSoFar(stored: map<Key, Slot>, conns: set<PgConnection>, visited: seq<Key>, keys: set<Key>,
                                failing: set<Key>)
      reads this`storages, Nodes(), Conns(), conns
    {
      && CloseAll(stored, visited, failing) == (Stored(), Stopped)
      && Distinct(visited) && KeySet(visited) == storages.Keys - keys && keys <= storages.Keys
      && OpenUnder(conns, keys)
    }

    ghost predicate OpenUnder(conns: set<PgConnection>, keys: set<Key>)
      reads this`storages, Nodes(), conns
    {
      forall c :: c in conns && c.IsOpen() ==> c.key in keys && c.key in storages && storages[c.key].second == c
    }

    method CloseStep(ghost stored: map<Key, Slot>, ghost conns: set<PgConnection>, ghost visited: seq<Key>,
                     ghost keys: set<Key>, k: Key, failing: set<Key>) returns (r: StopOutcome)
      requires Keyed() && k in keys && ClosedSoFar(stored, conns, visited, keys, failing)
      modifies Nodes(), Conns()
      ensures Keyed() && unchanged(this) && Conns() <= old(Conns())
      ensures CloseAll(stored, visited + [k], failing) == (Stored(), r)
      ensures r == Stopped ==> OpenUnder(conns, keys - {k})
    {
      CloseNext(stored, visited, k, failing);
      r := CloseNode(k, failing);
    }

    static ghost predicate Shut(conn: PgConnection?)
      reads conn
    {
      conn != null ==> !conn.IsOpen()
    }

    method CloseNode(k: Key, failing: set<Key>) returns (r: StopOutcome)
      requires Keyed() && k in storages
      modifies storages[k], storages[k].second
      ensures Keyed() && (Stored(), r) == CloseAll(old(Stored()), [k], failing)
      ensures r == Stopped ==> storages[k].second == null && Shut(old(storages[k].second))
      ensures r != Stopped ==> storages[k].second == old(storages[k].second)
    {
      ghost var stored := Stored();
      assert [k][1..] == [];
      var node := storages[k];
      assert stored[k] == node.View();
      if node.second == null {
        return NullEntry(k);
      }
      var raised := node.second.Close(k in failing);
      if raised {
        assert Stored() == stored;
        return CloseFailed(k);
      }
      node.second := null;
      assert Stored() == stored[k := Null];
      return Stopped;
    }
  }

  lemma AddAllGrows(p: Pool, made: seq<Creation>)
    ensures AddAll(p, made).1 == Ready ==> |AddAll(p, made).0.queue| == |p.queue| + |made|
    ensures AddAll(p, made).1 != NoCallback
  {
    RunSucceedsExactly(p, made);
    AddAllExtends(p, made);
  }

  lemma VisitNext(visited: seq<Key>, k: Key)
    requires Distinct(visited) && k !in KeySet(visited)
    ensures Distinct(visited + [k]) && KeySet(visited + [k]) == KeySet(visited) + {k}
  {
  }

  lemma {:induction false} CloseNext(stored: map<Key, Slot>, order: seq<Key>, k: Key, failing: set<Key>)
    requires CloseAll(stored, order, failing).1 == Stopped
    ensures CloseAll(stored, order + [k], failing) == CloseAll(CloseAll(stored, order, failing).0, [k], failing)
  {
    if order == [] {
      assert order + [k] == [k];
    } else {
      CloseNext(stored[order[0] := Null], order[1..], k, failing);
      assert (order + [k])[1..] == order[1..] + [k];
    }
  }

  ghost predicate AllLive(stored: map<Key, Slot>, q: seq<Key>) {
    forall k :: k in q ==> k in stored && stored[k].Live?
  }

  lemma SweepNone(stored: map<Key, Slot>, q: seq<Key>, now: int)
    ensures Swept(stored, q[..0], now) == stored && q[0..] + Kept(q[..0], stored, now) == q
  {
  }

  /** What one round of the cleanup loop adds to the rounds before it. */
  lemma SweptNext(stored: map<Key, Slot>, q: seq<Key>, i: nat, now: int)
    requires Distinct(q) && i < |q| && q[i] in stored
    ensures Swept(stored, q[..i], now)[q[i]] == stored[q[i]]
    ensures Swept(stored, q[..i + 1], now) ==
            if Expires(stored[q[i]], now) then Swept(stored, q[..i], now)[q[i] := Null] else Swept(stored, q[..i], now)
  {
    assert forall k :: k in q[..i + 1] <==> k in q[..i] || k == q[i];
    assert q[i] !in q[..i];
  }

  lemma KeptNext(stored: map<Key, Slot>, q: seq<Key>, i: nat, now: int)
    requires i < |q| && q[i] in stored
    ensures Kept(q[..i + 1], stored, now) ==
            Kept(q[..i], stored, now) + if Expires(stored[q[i]], now) then [] else [q[i]]
  {
    assert q[..i + 1] == q[..i] + [q[i]];
    KeptConcat(q[..i], [q[i]], stored, now);
  }

  lemma {:induction false} ReachIs(q: seq<Key>, stored: map<Key, Slot>, now: int, failing: set<Key>, n: nat)
    requires n <= |q| && forall j :: 0 <= j < n ==> !ReleaseRaises(stored, q[j], now, failing)
    requires n < |q| ==> ReleaseRaises(stored, q[n], now, failing)
    ensures Reach(q, stored, now, failing) == n
  {
    if n > 0 {
      assert !ReleaseRaises(stored, q[0], now, failing);
      ReachIs(q[1..], stored, now, failing, n - 1);
    }
  }

  lemma PopOf(q: seq<Key>, i: nat, rest: seq<Key>)
    requires i < |q|
    ensures (q[i..] + rest)[0] == q[i] && (q[i..] + rest)[1..] == q[i + 1..] + rest
    ensures forall k :: (q[i..] + rest)[1..] + [k] == q[i + 1..] + (rest + [k])
    ensures rest + [] == rest
  {
  }

  lemma RotateOnce(q: seq<Node>, i: nat)
    requires i < |q|
    ensures (q[i..] + q[..i])[0] == q[i]
    ensures (q[i..] + q[..i])[1..] + [q[i]] == q[i + 1..] + q[..i + 1]
    ensures Firsts(q[..i + 1]) == Firsts(q[..i]) + [q[i].first]
  {
  }
}
