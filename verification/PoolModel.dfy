/** The connection pool as a value: its three containers and one function per critical section.
    A pointer into the owning map is represented by the key of the node it points to; the class
    `ConnectionPool` shows that every pointer it holds is the node stored under its own key. */
module PoolModel {
  type Key = nat

  /** Ticks of the system clock in one second. */
  const TICKS: nat := 1_000_000_000

  datatype StandbyMode = NoMode | Primary | Standby

  /** The owned driver pointer of a connection: null, or a session that is open or closed. */
  datatype Driver = NoDriver | Session(open: bool, prepared: map<string, string>)

  datatype Conn = Conn(mode: StandbyMode, idleAfter: int, acquired: int, returned: int, driver: Driver)

  /** The second half of a stored node: a connection, or null once it has been reset. */
  datatype Slot = Null | Live(conn: Conn)

  datatype Pool = Pool(stored: map<Key, Slot>, leased: set<Key>, queue: seq<Key>, running: bool)

  const INITIAL := Pool(map[], {}, [], false)

  /** What ends a run: `front()` of an empty queue, or a null driver or null stored connection that is dereferenced. */
  datatype Fault = Sound | EmptyFrontRead | NullDriverUsed | NullEntryClosed

  // ----- Connection times ---------------------------------------------------------------------

  /** Integer division that truncates toward zero, as `duration_cast` does. */
  function Trunc(a: int, b: int): int
    requires b > 0
  {
    if a >= 0 then a / b else -((-a) / b)
  }

  predicate IsIdle(c: Conn, now: int) {
    Trunc(now - c.returned, TICKS) > c.idleAfter
  }

  /** For a non-negative limit, idle means that more than the configured whole seconds have gone by. */
  lemma IdleMeansWholeSeconds(c: Conn, now: int)
    ensures c.idleAfter >= 0 ==> (IsIdle(c, now) <==> now - c.returned >= (c.idleAfter + 1) * 1_000_000_000)
    ensures c.idleAfter < 0 ==> (IsIdle(c, now) <==> now - c.returned > c.idleAfter * 1_000_000_000)
  {
    var d := now - c.returned;
    if d >= 0 {
      assert d == d / TICKS * TICKS + d % TICKS;
    } else {
      assert -d == (-d) / TICKS * TICKS + (-d) % TICKS;
    }
  }

  // ----- Acquire and Return -------------------------------------------------------------------

  function StampAcquired(stored: map<Key, Slot>, k: Key, now: int): map<Key, Slot> {
    if k in stored && stored[k].Live? then stored[k := Live(stored[k].conn.(acquired := now))] else stored
  }

  function StampReturned(stored: map<Key, Slot>, k: Key, now: int): map<Key, Slot> {
    if k in stored && stored[k].Live? then stored[k := Live(stored[k].conn.(returned := now))] else stored
  }

  /** Lines 121 to 127 of `connection_pool.cc`: lease the front of the queue. */
  function Take(p: Pool, now: int): Pool
    requires p.queue != []
  {
    p.(stored := StampAcquired(p.stored, p.queue[0], now), leased := p.leased + {p.queue[0]}, queue := p.queue[1..])
  }

  /** Lines 130 to 154 of `connection_pool.cc`: the key decides, whatever connection object carries it. */
  function Give(p: Pool, k: Key, now: int): Pool {
    if k !in p.leased then p
    else p.(stored := StampReturned(p.stored, k, now), leased := p.leased - {k}, queue := p.queue + [k])
  }

  // ----- Run ----------------------------------------------------------------------------------

  /** What one call of the creation callback yields, and whether opening that connection succeeds. */
  datatype Creation = Creation(key: Key, mode: StandbyMode, idleAfter: int, now: int, opens: bool)

  datatype RunOutcome = Ready | NoCallback | KeyCollision | OpenFailed

  const OPENED := Session(true, map[])

  /** The only connection of the traces below. */
  const LONE := Creation(7, Primary, 300, 0, true)

  function NewConn(c: Creation, driver: Driver): Conn {
    Conn(c.mode, c.idleAfter, c.now, c.now, driver)
  }

  /** One round of the loop at lines 171 to 189 of `connection_pool.cc`. */
  function Add(p: Pool, c: Creation): Pool {
    p.(stored := p.stored[c.key := Live(NewConn(c, if c.opens then OPENED else NoDriver))], queue := p.queue + [c.key])
  }

  function AddAll(p: Pool, made: seq<Creation>): (Pool, RunOutcome)
    decreases |made|
  {
    if made == [] then (p, Ready)
    else if made[0].key in p.stored then (p, KeyCollision)
    else if !made[0].opens then (Add(p, made[0]), OpenFailed)
    else AddAll(Add(p, made[0]), made[1..])
  }

  function Start(p: Pool, callback: bool, made: seq<Creation>): (Pool, RunOutcome) {
    if !callback then (p, NoCallback) else AddAll(p.(running := true), made)
  }

  /** The keys that a Run pushes on the queue, in order. */
  function AddedKeys(p: Pool, made: seq<Creation>): seq<Key>
    decreases |made|
  {
    if made == [] || made[0].key in p.stored then []
    else if !made[0].opens then [made[0].key]
    else [made[0].key] + AddedKeys(Add(p, made[0]), made[1..])
  }

  // ----- Stop ---------------------------------------------------------------------------------

  datatype StopOutcome = Stopped | NotRunning | NullEntry(at: Key) | CloseFailed(at: Key)

  /** Whether closing this connection raises: a session that is not open is left alone. */
  predicate CloseRaises(c: Conn, k: Key, failing: set<Key>) {
    k in failing && c.driver.Session? && c.driver.open
  }

  /** The loop at lines 89 to 93 of `connection_pool.cc`, over the visiting order of the hash map. */
  function CloseAll(stored: map<Key, Slot>, order: seq<Key>, failing: set<Key>): (map<Key, Slot>, StopOutcome) {
    if order == [] then (stored, Stopped)
    else if order[0] !in stored || stored[order[0]].Null? then (stored, NullEntry(order[0]))
    else if CloseRaises(stored[order[0]].conn, order[0], failing) then (stored, CloseFailed(order[0]))
    else CloseAll(stored[order[0] := Null], order[1..], failing)
  }

  function Halt(p: Pool, order: seq<Key>, failing: set<Key>): (Pool, StopOutcome) {
    if !p.running then (p, NotRunning)
    else
      var (stored, outcome) := CloseAll(p.stored, order, failing);
      (Pool(if outcome.Stopped? then map[] else stored, {}, [], false), outcome)
  }

  /** A visiting order of the stored nodes: each exactly once. */
  ghost predicate Visits(order: seq<Key>, keys: set<Key>) {
    Distinct(order) && (forall k :: k in order <==> k in keys)
  }

  // ----- Cleanup ------------------------------------------------------------------------------

  predicate Expires(slot: Slot, now: int) {
    slot.Live? && slot.conn.mode == Standby && IsIdle(slot.conn, now)
  }

  /** The keys of `q` that survive a cleanup, in their order. */
  function Kept(q: seq<Key>, stored: map<Key, Slot>, now: int): (r: seq<Key>)
    ensures |r| <= |q|
    ensures forall k :: k in r <==> k in q && !(k in stored && Expires(stored[k], now))
  {
    if q == [] then []
    else if q[0] in stored && Expires(stored[q[0]], now) then Kept(q[1..], stored, now)
    else [q[0]] + Kept(q[1..], stored, now)
  }

  /** The stored entries once the queued keys `done` have been looked at: an idle Standby connection is released and
      its entry reset. */
  function Swept(stored: map<Key, Slot>, done: seq<Key>, now: int): map<Key, Slot> {
    map k | k in stored :: if k in done && Expires(stored[k], now) then Null else stored[k]
  }

  /** Whether the cleanup releases this connection and the close of its session raises. */
  predicate ReleaseRaises(stored: map<Key, Slot>, k: Key, now: int, failing: set<Key>) {
    k in stored && Expires(stored[k], now) && CloseRaises(stored[k].conn, k, failing)
  }

  /** How many queued keys the cleanup gets through before a release raises. */
  function Reach(q: seq<Key>, stored: map<Key, Slot>, now: int, failing: set<Key>): (n: nat)
    ensures n <= |q|
  {
    if q == [] || ReleaseRaises(stored, q[0], now, failing) then 0 else 1 + Reach(q[1..], stored, now, failing)
  }

  /** What is queued behind position `n`. */
  function Behind(q: seq<Key>, n: nat): seq<Key> {
    if n < |q| then q[n + 1..] else []
  }

  /** A release that raises ends the loop with its connection already popped. */
  function Sweep(p: Pool, now: int, failing: set<Key>): Pool {
    if !p.running then p
    else
      var n := Reach(p.queue, p.stored, now, failing);
      p.(queue := Behind(p.queue, n) + Kept(p.queue[..n], p.stored, now), stored := Swept(p.stored, p.queue[..n], now))
  }

  predicate Interrupted(p: Pool, now: int, failing: set<Key>) {
    p.running && Reach(p.queue, p.stored, now, failing) < |p.queue|
  }

  // ----- The invariant ------------------------------------------------------------------------

  predicate Distinct(q: seq<Key>) {
    forall i, j :: 0 <= i < j < |q| ==> q[i] != q[j]
  }

  ghost function LiveKeys(p: Pool): set<Key> {
    set k | k in p.stored && p.stored[k].Live?
  }

  ghost function KeySet(q: seq<Key>): set<Key> {
    set k | k in q
  }

  /** Queue and lease map hold each key once, and only keys of stored connections. */
  ghost predicate Owned(p: Pool) {
    && Distinct(p.queue)
    && (forall k :: k in p.queue ==> k !in p.leased)
    && (forall k :: k in p.queue ==> k in p.stored && p.stored[k].Live?)
    && (forall k :: k in p.leased ==> k in p.stored && p.stored[k].Live?)
    && (!p.running ==> p.queue == [] && p.leased == {})
  }

  /** Queue and lease map together hold exactly the stored connections. */
  ghost predicate Partition(p: Pool) {
    Owned(p) && forall k :: k in p.stored && p.stored[k].Live? ==> k in p.queue || k in p.leased
  }

  /** No stored entry has been reset. */
  ghost predicate NoNull(p: Pool) {
    forall k :: k in p.stored ==> p.stored[k].Live?
  }

  /** No stored connection is one that a cleanup could drop. */
  ghost predicate NoStandby(p: Pool) {
    forall k :: k in p.stored && p.stored[k].Live? ==> p.stored[k].conn.mode != Standby
  }

  lemma TakeKeeps(p: Pool, now: int)
    requires Owned(p) && p.queue != []
    ensures Owned(Take(p, now)) && p.queue[0] !in p.leased
    ensures Partition(p) ==> Partition(Take(p, now))
    ensures NoNull(p) ==> NoNull(Take(p, now))
    ensures NoStandby(p) ==> NoStandby(Take(p, now))
  {
    var q := Take(p, now);
    assert p.queue == [p.queue[0]] + q.queue;
    assert p.queue[0] in p.queue;
    assert forall k :: k in q.queue ==> k in p.queue;
  }

  /** Leasing moves the front of the queue to the lease map and sets the acquired time of that connection, no more. */
  lemma TakeExactly(p: Pool, now: int)
    requires Owned(p) && p.queue != []
    ensures var (s, k) := (Take(p, now), p.queue[0]);
            && [k] + s.queue == p.queue && s.leased == p.leased + {k} && s.running == p.running
            && s.stored.Keys == p.stored.Keys && k in p.stored && p.stored[k].Live?
            && (var c := p.stored[k].conn; s.stored[k] == Live(Conn(c.mode, c.idleAfter, now, c.returned, c.driver)))
            && forall l :: l in p.stored && l != k ==> s.stored[l] == p.stored[l]
  {
    assert p.queue[0] in p.queue;
  }

  /** A Return of a leased key moves it to the end of the queue and sets the returned time of that connection; any other
      Return changes nothing. */
  lemma GiveExactly(p: Pool, k: Key, now: int)
    requires Owned(p)
    ensures k !in p.leased ==> Give(p, k, now) == p
    ensures k in p.leased ==>
              var s := Give(p, k, now);
              && s.queue == p.queue + [k] && s.leased == p.leased - {k} && s.running == p.running
              && s.stored.Keys == p.stored.Keys && k in p.stored && p.stored[k].Live?
              && (var c := p.stored[k].conn; s.stored[k] == Live(Conn(c.mode, c.idleAfter, c.acquired, now, c.driver)))
              && forall l :: l in p.stored && l != k ==> s.stored[l] == p.stored[l]
  {
  }

  lemma GiveKeeps(p: Pool, k: Key, now: int)
    requires Owned(p)
    ensures Owned(Give(p, k, now))
    ensures Partition(p) ==> Partition(Give(p, k, now))
    ensures NoNull(p) ==> NoNull(Give(p, k, now))
    ensures NoStandby(p) ==> NoStandby(Give(p, k, now))
  {
  }

  lemma AddKeeps(p: Pool, c: Creation)
    requires Owned(p) && p.running && c.key !in p.stored
    ensures Owned(Add(p, c)) && Add(p, c).running
    ensures Partition(p) ==> Partition(Add(p, c))
    ensures NoNull(p) ==> NoNull(Add(p, c))
    ensures NoStandby(p) && c.mode != Standby ==> NoStandby(Add(p, c))
  {
    assert c.key !in p.queue;
  }

  ghost predicate NoStandbyMade(made: seq<Creation>) {
    forall i :: 0 <= i < |made| ==> made[i].mode != Standby
  }

  /** A Run only extends the containers: the queue by the keys it stored, the map by those keys. */
  lemma {:induction false} AddAllExtends(p: Pool, made: seq<Creation>)
    ensures AddAll(p, made).0.queue == p.queue + AddedKeys(p, made)
    ensures AddAll(p, made).0.leased == p.leased && AddAll(p, made).0.running == p.running
    ensures AddAll(p, made).1 != NoCallback
    ensures forall k :: k in AddAll(p, made).0.stored <==> k in p.stored || k in AddedKeys(p, made)
    ensures forall k :: k in p.stored ==> k !in AddedKeys(p, made) && AddAll(p, made).0.stored[k] == p.stored[k]
    decreases |made|
  {
    if made == [] || made[0].key in p.stored {
    } else if made[0].opens {
      var p' := Add(p, made[0]);
      AddAllExtends(p', made[1..]);
      assert p'.queue + AddedKeys(p', made[1..]) == p.queue + ([made[0].key] + AddedKeys(p', made[1..]));
    }
  }

  /** A Run keeps the partition even when it is cut short by a key collision or a failed Open. */
  lemma {:induction false} AddAllKeeps(p: Pool, made: seq<Creation>)
    requires Owned(p) && p.running
    ensures Owned(AddAll(p, made).0)
    ensures Partition(p) ==> Partition(AddAll(p, made).0)
    ensures NoNull(p) ==> NoNull(AddAll(p, made).0)
    ensures NoStandby(p) && NoStandbyMade(made) ==> NoStandby(AddAll(p, made).0)
    decreases |made|
  {
    if made == [] || made[0].key in p.stored {
    } else {
      AddKeeps(p, made[0]);
      if made[0].opens {
        var rest := made[1..];
        assert NoStandbyMade(made) ==> NoStandbyMade(rest);
        AddAllKeeps(Add(p, made[0]), rest);
      }
    }
  }

  ghost predicate FreshKeys(p: Pool, made: seq<Creation>) {
    && (forall i :: 0 <= i < |made| ==> made[i].key !in p.stored)
    && (forall i, j :: 0 <= i < j < |made| ==> made[i].key != made[j].key)
  }

  ghost predicate AllOpen(made: seq<Creation>) {
    forall i :: 0 <= i < |made| ==> made[i].opens
  }

  /** A Run reports success exactly when every created key is new and every Open succeeds; then each created
      connection is queued once, in creation order, and open. */
  lemma {:induction false} RunSucceedsExactly(p: Pool, made: seq<Creation>)
    ensures AddAll(p, made).1 == Ready <==> FreshKeys(p, made) && AllOpen(made)
    ensures AddAll(p, made).1 == Ready ==>
              && |AddedKeys(p, made)| == |made|
              && forall i :: 0 <= i < |made| ==>
                   && AddedKeys(p, made)[i] == made[i].key
                   && made[i].key in AddAll(p, made).0.stored
                   && AddAll(p, made).0.stored[made[i].key] == Live(NewConn(made[i], OPENED))
    decreases |made|
  {
    if made == [] || made[0].key in p.stored || !made[0].opens {
    } else {
      var p', rest := Add(p, made[0]), made[1..];
      RunSucceedsExactly(p', rest);
      AddAllExtends(p', rest);
      assert made == [made[0]] + rest;
      FreshKeysNext(p, made);
      AllOpenNext(made);
    }
  }

  lemma FreshKeysNext(p: Pool, made: seq<Creation>)
    requires made != [] && made[0].key !in p.stored
    ensures FreshKeys(Add(p, made[0]), made[1..]) <==> FreshKeys(p, made)
  {
    var p', rest := Add(p, made[0]), made[1..];
    assert forall i :: 0 <= i < |rest| ==> rest[i] == made[i + 1];
    if FreshKeys(p', rest) {
      forall i, j | 0 <= i < j < |made| ensures made[i].key != made[j].key {
        assert made[j] == rest[j - 1];
        if i > 0 { assert made[i] == rest[i - 1]; }
      }
      forall i | 0 <= i < |made| ensures made[i].key !in p.stored {
        if i > 0 { assert made[i] == rest[i - 1]; }
      }
    }
  }

  lemma AllOpenNext(made: seq<Creation>)
    requires made != []
    ensures AllOpen(made) <==> made[0].opens && AllOpen(made[1..])
  {
    var rest := made[1..];
    assert forall i :: 0 < i < |made| ==> made[i] == rest[i - 1];
    if AllOpen(made) { assert forall i :: 0 <= i < |rest| ==> rest[i] == made[i + 1]; }
  }

  /** The keys a Run adds are those of the first creations, in order, new and distinct. */
  lemma {:induction false} AddedInOrder(p: Pool, made: seq<Creation>)
    ensures |AddedKeys(p, made)| <= |made|
    ensures forall i :: 0 <= i < |AddedKeys(p, made)| ==>
              AddedKeys(p, made)[i] == made[i].key && made[i].key !in p.stored
    ensures forall i, j :: 0 <= i < j < |AddedKeys(p, made)| ==> made[i].key != made[j].key
    decreases |made|
  {
    if made != [] && made[0].key !in p.stored && made[0].opens {
      var rest := made[1..];
      AddedInOrder(Add(p, made[0]), rest);
      assert forall i :: 0 < i < |made| ==> made[i] == rest[i - 1];
    }
  }

  /** The entry of a connection as it was created, open if its Open succeeded. */
  ghost predicate StoredAs(p: Pool, c: Creation) {
    && c.key in p.stored
    && p.stored[c.key] ==
       Live(Conn(c.mode, c.idleAfter, c.now, c.now, if c.opens then Session(true, map[]) else NoDriver))
  }

  lemma {:induction false} AddedSlots(p: Pool, made: seq<Creation>, i: nat)
    requires i < |AddedKeys(p, made)| <= |made|
    ensures StoredAs(AddAll(p, made).0, made[i])
    decreases |made|
  {
    var p', rest := Add(p, made[0]), made[1..];
    if made[0].opens {
      AddAllExtends(p', rest);
      if i > 0 { AddedSlots(p', rest, i - 1); }
    }
  }

  /** The key of creation `n` is stored already, or that of an earlier creation. */
  ghost predicate KeyKnown(p: Pool, made: seq<Creation>, n: nat)
    requires n < |made|
  {
    made[n].key in p.stored || exists i :: 0 <= i < n && made[i].key == made[n].key
  }

  /** A Run goes on to the first creation whose key is known already, which it does not store, or whose Open fails,
      which it does. */
  lemma {:induction false} RunStopsExactly(p: Pool, made: seq<Creation>)
    ensures var (n, r) := (|AddedKeys(p, made)|, AddAll(p, made).1);
            && n <= |made|
            && (r == Ready <==> n == |made| && (n > 0 ==> made[n - 1].opens))
            && (r == OpenFailed <==> n > 0 && !made[n - 1].opens)
            && (r == KeyCollision <==> n < |made| && (n > 0 ==> made[n - 1].opens))
            && (forall i :: 0 <= i < n - 1 ==> made[i].opens)
            && (r == KeyCollision ==> KeyKnown(p, made, n))
    decreases |made|
  {
    if made != [] && made[0].key !in p.stored && made[0].opens {
      var p', rest := Add(p, made[0]), made[1..];
      RunStopsExactly(p', rest);
      assert forall i :: 0 < i < |made| ==> made[i] == rest[i - 1];
      if AddAll(p', rest).1 == KeyCollision { KnownNext(p, made, |AddedKeys(p', rest)|); }
    }
  }

  lemma KnownNext(p: Pool, made: seq<Creation>, n: nat)
    requires n + 1 < |made| && KeyKnown(Add(p, made[0]), made[1..], n)
    ensures KeyKnown(p, made, n + 1)
  {
    var p', rest := Add(p, made[0]), made[1..];
    if rest[n].key in p'.stored {
      assert made[n + 1].key == made[0].key || made[n + 1].key in p.stored;
    } else {
      var i :| 0 <= i < n && rest[i].key == rest[n].key;
      assert made[i + 1].key == made[n + 1].key;
    }
  }

  /** The first `n` creations are queued, in order, behind what was queued before, and stored as they were created. */
  ghost predicate AddedUpTo(p: Pool, made: seq<Creation>, q: Pool, n: nat)
    requires n <= |made|
  {
    && |q.queue| == |p.queue| + n && q.queue[..|p.queue|] == p.queue
    && forall i :: 0 <= i < n ==> q.queue[|p.queue| + i] == made[i].key && StoredAs(q, made[i])
  }

  lemma AddedAre(p: Pool, made: seq<Creation>)
    ensures |AddedKeys(p, made)| <= |made| && AddedUpTo(p, made, AddAll(p, made).0, |AddedKeys(p, made)|)
  {
    AddAllExtends(p, made);
    AddedInOrder(p, made);
    forall i | 0 <= i < |AddedKeys(p, made)| ensures StoredAs(AddAll(p, made).0, made[i]) {
      AddedSlots(p, made, i);
    }
  }

  /** How far a Run gets, and what it has done by then. */
  lemma RunAddsExactly(p: Pool, made: seq<Creation>) returns (n: nat)
    ensures n <= |made| && AddedUpTo(p, made, AddAll(p, made).0, n)
    ensures AddAll(p, made).1 == Ready <==> n == |made| && (n > 0 ==> made[n - 1].opens)
    ensures AddAll(p, made).1 == OpenFailed <==> n > 0 && !made[n - 1].opens
    ensures AddAll(p, made).1 == KeyCollision <==> n < |made| && (n > 0 ==> made[n - 1].opens)
    ensures AddAll(p, made).1 == KeyCollision ==> KeyKnown(p, made, n)
    ensures forall i :: 0 <= i < n ==> made[i].key !in p.stored && (i < n - 1 ==> made[i].opens)
    ensures forall i, j :: 0 <= i < j < n ==> made[i].key != made[j].key
  {
    n := |AddedKeys(p, made)|;
    AddedAre(p, made);
    AddedInOrder(p, made);
    RunStopsExactly(p, made);
  }

  // ----- Stop ---------------------------------------------------------------------------------

  /** Every stored entry can be closed: none is null and none of the closes raises. */
  ghost predicate Closable(stored: map<Key, Slot>, order: seq<Key>, failing: set<Key>) {
    forall k :: k in order ==> k in stored && stored[k].Live? && !CloseRaises(stored[k].conn, k, failing)
  }

  /** The close loop ends normally exactly when every visited entry is a live connection whose close does not
      raise; in any case it only ever resets visited entries. */
  lemma {:induction false} CloseAllExactly(stored: map<Key, Slot>, order: seq<Key>, failing: set<Key>)
    requires Distinct(order)
    ensures CloseAll(stored, order, failing).1 == Stopped <==> Closable(stored, order, failing)
    ensures CloseAll(stored, order, failing).1 != NotRunning
    ensures CloseAll(stored, order, failing).0.Keys == stored.Keys
    ensures forall k :: k in stored ==>
              CloseAll(stored, order, failing).0[k] == stored[k] || CloseAll(stored, order, failing).0[k] == Null
  {
    if order == [] {
    } else if order[0] in stored && stored[order[0]].Live? && !CloseRaises(stored[order[0]].conn, order[0], failing) {
      var stored', rest := stored[order[0] := Null], order[1..];
      CloseAllExactly(stored', rest, failing);
      assert order == [order[0]] + rest;
      assert order[0] !in rest;
      assert stored'.Keys == stored.Keys;
      assert Closable(stored', rest, failing) <==> Closable(stored, order, failing);
    } else {
      assert order[0] in order;
    }
  }

  /** A stored entry whose session is open and whose close raises. */
  ghost predicate CannotClose(slot: Slot, k: Key, failing: set<Key>) {
    slot.Live? && slot.conn.driver.Session? && slot.conn.driver.open && k in failing
  }

  /** `after` is `stored` with the first `n` entries of `order` reset. */
  ghost predicate ResetUpTo(stored: map<Key, Slot>, after: map<Key, Slot>, order: seq<Key>, n: nat)
    requires n <= |order|
  {
    && after.Keys == stored.Keys
    && (forall i :: 0 <= i < n ==> order[i] in after && after[order[i]] == Null)
    && (forall k :: k in stored && k !in order[..n] ==> after[k] == stored[k])
  }

  lemma ResetNext(stored: map<Key, Slot>, after: map<Key, Slot>, order: seq<Key>, m: nat)
    requires Distinct(order) && m + 1 <= |order| && order[0] in stored
    requires ResetUpTo(stored[order[0] := Null], after, order[1..], m)
    ensures ResetUpTo(stored, after, order, m + 1)
  {
    var rest := order[1..];
    assert order == [order[0]] + rest && order[..m + 1] == [order[0]] + rest[..m];
    assert order[0] !in rest[..m];
    assert after[order[0]] == Null;
    assert forall i :: 0 < i < m + 1 ==> order[i] == rest[i - 1];
  }

  /** The outcome of a close loop that got `n` entries far. */
  ghost predicate EndsAt(stored: map<Key, Slot>, order: seq<Key>, failing: set<Key>, outcome: StopOutcome, n: nat)
    requires n <= |order| && forall k :: k in order ==> k in stored
  {
    && (forall i :: 0 <= i < n ==> stored[order[i]].Live? && !CannotClose(stored[order[i]], order[i], failing))
    && (n == |order| ==> outcome == Stopped)
    && (n < |order| && stored[order[n]].Null? ==> outcome == NullEntry(order[n]))
    && (n < |order| && stored[order[n]].Live? ==>
          CannotClose(stored[order[n]], order[n], failing) && outcome == CloseFailed(order[n]))
  }

  lemma EndsNext(stored: map<Key, Slot>, order: seq<Key>, failing: set<Key>, outcome: StopOutcome, m: nat)
    requires Distinct(order) && m + 1 <= |order| && forall k :: k in order ==> k in stored
    requires stored[order[0]].Live? && !CannotClose(stored[order[0]], order[0], failing)
    requires forall k :: k in order[1..] ==> k in stored[order[0] := Null]
    requires EndsAt(stored[order[0] := Null], order[1..], failing, outcome, m)
    ensures EndsAt(stored, order, failing, outcome, m + 1)
  {
    var rest := order[1..];
    assert forall i :: 0 < i < |order| ==> order[i] == rest[i - 1] && order[i] != order[0];
  }

  /** The close loop resets the entries it visits up to the first that is null or that cannot be closed, and leaves that
      one and all others as they are. */
  lemma {:induction false} CloseStopsExactly(stored: map<Key, Slot>, order: seq<Key>, failing: set<Key>)
    returns (n: nat)
    requires Distinct(order) && forall k :: k in order ==> k in stored
    ensures n <= |order| && ResetUpTo(stored, CloseAll(stored, order, failing).0, order, n)
    ensures EndsAt(stored, order, failing, CloseAll(stored, order, failing).1, n)
  {
    if order == [] || stored[order[0]].Null? || CloseRaises(stored[order[0]].conn, order[0], failing) {
      n := 0;
    } else {
      var stored', rest := stored[order[0] := Null], order[1..];
      assert forall k :: k in rest ==> k in order;
      var m := CloseStopsExactly(stored', rest, failing);
      n := m + 1;
      ResetNext(stored, CloseAll(stored, order, failing).0, order, m);
      EndsNext(stored, order, failing, CloseAll(stored, order, failing).1, m);
    }
  }

  /** A Stop of a running pool ends normally exactly when no stored entry is null and no close raises; it then
      leaves the pool as it was before the first Run, and repeating it changes nothing. */
  lemma StopCompletesExactly(p: Pool, order: seq<Key>, failing: set<Key>)
    requires p.running && Visits(order, p.stored.Keys)
    ensures Halt(p, order, failing).1 == Stopped <==>
            NoNull(p) && forall k :: k in p.stored ==> !CloseRaises(p.stored[k].conn, k, failing)
    ensures Halt(p, order, failing).1 == Stopped ==> Halt(p, order, failing).0 == Pool(map[], {}, [], false)
    ensures !Halt(p, order, failing).0.running
    ensures forall order', failing' ::
              Halt(Halt(p, order, failing).0, order', failing') == (Halt(p, order, failing).0, NotRunning)
  {
    CloseAllExactly(p.stored, order, failing);
  }

  /** If no close raises, a Stop of a running pool dereferences a null entry exactly when there is one. */
  lemma NullEntryExactly(p: Pool, order: seq<Key>)
    requires p.running && Visits(order, p.stored.Keys)
    ensures Halt(p, order, {}).1.NullEntry? <==> !NoNull(p)
  {
    CloseAllExactly(p.stored, order, {});
    CloseNeverFails(p.stored, order);
  }

  lemma {:induction false} CloseNeverFails(stored: map<Key, Slot>, order: seq<Key>)
    ensures !CloseAll(stored, order, {}).1.CloseFailed?
  {
    if order != [] && order[0] in stored && stored[order[0]].Live? {
      CloseNeverFails(stored[order[0] := Null], order[1..]);
    }
  }

  /** Once the close loop has ended early, what it has not visited makes no difference. */
  lemma {:induction false} CloseEndsEarly(stored: map<Key, Slot>, order: seq<Key>, more: seq<Key>, failing: set<Key>)
    requires CloseAll(stored, order, failing).1 != Stopped
    ensures CloseAll(stored, order + more, failing) == CloseAll(stored, order, failing)
  {
    if order != [] {
      assert (order + more)[0] == order[0] && (order + more)[1..] == order[1..] + more;
      if order[0] in stored && stored[order[0]].Live? && !CloseRaises(stored[order[0]].conn, order[0], failing) {
        CloseEndsEarly(stored[order[0] := Null], order[1..], more, failing);
      }
    }
  }

  lemma {:induction false} Complete(order: seq<Key>, keys: set<Key>) returns (more: seq<Key>)
    requires Distinct(order) && KeySet(order) <= keys
    ensures Visits(order + more, keys)
    decreases keys - KeySet(order)
  {
    if KeySet(order) == keys {
      more := [];
      assert order + more == order;
      assert forall k :: k in order <==> k in KeySet(order);
    } else {
      var k :| k in keys && k !in KeySet(order);
      var next := order + [k];
      assert KeySet(next) == KeySet(order) + {k};
      var rest := Complete(next, keys);
      more := [k] + rest;
      assert order + more == next + rest;
    }
  }

  /** A beginning of a visiting order that decided the outcome of a Stop goes on to a whole one with that outcome. */
  lemma HaltCompletes(p: Pool, visited: seq<Key>, failing: set<Key>) returns (order: seq<Key>)
    requires Distinct(visited) && KeySet(visited) <= p.stored.Keys
    requires p.running && Halt(p, visited, failing).1 == Stopped ==> Visits(visited, p.stored.Keys)
    ensures Visits(order, p.stored.Keys) && visited <= order && Halt(p, order, failing) == Halt(p, visited, failing)
  {
    if p.running && Halt(p, visited, failing).1 == Stopped {
      order := visited;
    } else {
      var more := Complete(visited, p.stored.Keys);
      order := visited + more;
      if p.running { CloseEndsEarly(p.stored, visited, more, failing); }
    }
  }

  lemma HaltKeeps(p: Pool, order: seq<Key>, failing: set<Key>)
    requires Owned(p) && Distinct(order)
    ensures Owned(Halt(p, order, failing).0)
    ensures !p.running ==> Halt(p, order, failing) == (p, NotRunning)
    ensures p.running ==> Halt(p, order, failing).0.queue == [] && Halt(p, order, failing).0.leased == {}
    ensures Halt(p, order, failing).1 in {Stopped, NotRunning} && Partition(p) ==> Partition(Halt(p, order, failing).0)
    ensures Halt(p, order, failing).1 in {Stopped, NotRunning} && NoNull(p) ==> NoNull(Halt(p, order, failing).0)
    ensures NoStandby(p) ==> NoStandby(Halt(p, order, failing).0)
    ensures Halt(p, order, failing).0.stored.Keys <= p.stored.Keys
  {
    CloseAllExactly(p.stored, order, failing);
  }

  // ----- Cleanup ------------------------------------------------------------------------------

  lemma {:induction false} KeptConcat(a: seq<Key>, b: seq<Key>, stored: map<Key, Slot>, now: int)
    ensures Kept(a + b, stored, now) == Kept(a, stored, now) + Kept(b, stored, now)
  {
    if a == [] {
      assert a + b == b;
    } else {
      assert (a + b)[1..] == a[1..] + b;
      KeptConcat(a[1..], b, stored, now);
    }
  }

  lemma {:induction false} KeptDistinct(q: seq<Key>, stored: map<Key, Slot>, now: int)
    requires Distinct(q)
    ensures Distinct(Kept(q, stored, now))
  {
    if q != [] {
      KeptDistinct(q[1..], stored, now);
      assert q[0] !in q[1..];
    }
  }

  lemma {:induction false} KeptAll(q: seq<Key>, stored: map<Key, Slot>, now: int)
    requires forall k :: k in q && k in stored ==> !Expires(stored[k], now)
    ensures Kept(q, stored, now) == q
  {
    if q != [] {
      KeptAll(q[1..], stored, now);
    }
  }

  lemma {:induction false} ReachStops(q: seq<Key>, stored: map<Key, Slot>, now: int, failing: set<Key>)
    ensures var n := Reach(q, stored, now, failing);
            && (forall i :: 0 <= i < n ==> !ReleaseRaises(stored, q[i], now, failing))
            && (n < |q| ==> ReleaseRaises(stored, q[n], now, failing))
  {
    if q != [] && !ReleaseRaises(stored, q[0], now, failing) {
      var rest := q[1..];
      ReachStops(rest, stored, now, failing);
      var n := Reach(rest, stored, now, failing);
      forall i | 0 <= i < n + 1 ensures !ReleaseRaises(stored, q[i], now, failing) {
        if i > 0 { assert q[i] == rest[i - 1]; }
      }
    }
  }

  lemma SplitAt(q: seq<Key>, n: nat)
    requires n <= |q| && Distinct(q)
    ensures Distinct(q[..n]) && Distinct(Behind(q, n))
    ensures forall k :: k in q[..n] ==> k in q && k !in Behind(q, n) && (n < |q| ==> k != q[n])
    ensures forall k :: k in Behind(q, n) ==> k in q && (n < |q| ==> k != q[n])
    ensures forall k :: k in q ==> k in q[..n] || k in Behind(q, n) || (n < |q| && k == q[n])
  {
    if n < |q| {
      assert q == q[..n] + [q[n]] + q[n + 1..];
    } else {
      assert q[..n] == q;
    }
  }

  lemma DistinctJoin(a: seq<Key>, b: seq<Key>)
    requires Distinct(a) && Distinct(b) && forall k :: k in a ==> k !in b
    ensures Distinct(a + b)
  {
    var c := a + b;
    forall i, j | 0 <= i < j < |c| ensures c[i] != c[j] {
      if i < |a| <= j { assert c[i] in a && c[j] in b; }
    }
  }

  lemma SweepOwned(p: Pool, now: int, failing: set<Key>)
    requires Owned(p) && p.running
    ensures Owned(Sweep(p, now, failing))
  {
    var n := Reach(p.queue, p.stored, now, failing);
    SplitAt(p.queue, n);
    KeptDistinct(p.queue[..n], p.stored, now);
    DistinctJoin(Behind(p.queue, n), Kept(p.queue[..n], p.stored, now));
    SweptQueueIsLive(p, now, n);
  }

  lemma SweptQueueIsLive(p: Pool, now: int, n: nat)
    requires Owned(p) && n <= |p.queue|
    ensures forall k :: k in Behind(p.queue, n) + Kept(p.queue[..n], p.stored, now) ==>
              k in p.queue && Swept(p.stored, p.queue[..n], now)[k] == p.stored[k]
  {
    SplitAt(p.queue, n);
  }

  lemma SweepPrimary(p: Pool, now: int, failing: set<Key>)
    requires Owned(p) && p.running && NoStandby(p)
    ensures Sweep(p, now, failing) == p && !Interrupted(p, now, failing)
  {
    var n := Reach(p.queue, p.stored, now, failing);
    ReachStops(p.queue, p.stored, now, failing);
    assert forall i :: 0 <= i < |p.queue| ==> p.queue[i] in p.queue;
    assert p.queue[..n] == p.queue;
    KeptAll(p.queue, p.stored, now);
    assert Swept(p.stored, p.queue, now) == p.stored;
  }

  /** A cleanup leaves leased entries alone and does nothing at all to a pool without Standby connections. It keeps the
      partition exactly when no release raises: one that does loses its connection to queue and lease map alike. */
  lemma SweepKeeps(p: Pool, now: int, failing: set<Key>)
    requires Owned(p)
    ensures Owned(Sweep(p, now, failing))
    ensures Partition(p) ==> (Partition(Sweep(p, now, failing)) <==> !Interrupted(p, now, failing))
    ensures forall k :: k in p.leased ==> Sweep(p, now, failing).stored[k] == p.stored[k]
    ensures NoStandby(p) ==> Sweep(p, now, failing) == p && !Interrupted(p, now, failing)
  {
    if p.running {
      var n := Reach(p.queue, p.stored, now, failing);
      SplitAt(p.queue, n);
      SweepOwned(p, now, failing);
      if Partition(p) { SweepPartition(p, now, failing, n); }
      if NoStandby(p) { SweepPrimary(p, now, failing); }
    }
  }

  lemma SweepPartition(p: Pool, now: int, failing: set<Key>, n: nat)
    requires Partition(p) && p.running && n == Reach(p.queue, p.stored, now, failing)
    requires Owned(Sweep(p, now, failing))
    ensures Partition(Sweep(p, now, failing)) <==> n == |p.queue|
  {
    var s := Sweep(p, now, failing);
    ReachStops(p.queue, p.stored, now, failing);
    SplitAt(p.queue, n);
    if n < |p.queue| {
      var k := p.queue[n];
      assert k in p.queue && k in s.stored && s.stored[k].Live? && k !in s.queue && k !in s.leased;
    }
  }

  /** A cleanup that no release cuts short drops exactly the queued Standby connections that are idle, and resets their
      entries; it touches nothing else. */
  lemma CleanupDropsExactly(p: Pool, now: int, failing: set<Key>)
    requires Owned(p) && p.running && !Interrupted(p, now, failing)
    ensures var s := Sweep(p, now, failing);
            && s.stored.Keys == p.stored.Keys && s.leased == p.leased && s.running
            && forall k :: k in p.stored ==>
                 if k in p.queue && p.stored[k].conn.mode == Standby && IsIdle(p.stored[k].conn, now)
                 then k !in s.queue && s.stored[k] == Null
                 else s.stored[k] == p.stored[k] && (k in s.queue <==> k in p.queue)
  {
    assert p.queue[..|p.queue|] == p.queue;
  }

  /** A cleanup is cut short by the first queued Standby connection that is idle and whose open session cannot be
      closed. That one is gone from the queue; those behind it come first, and those before it were looked at. */
  lemma InterruptedExactly(p: Pool, now: int, failing: set<Key>) returns (n: nat)
    requires Owned(p) && p.running
    ensures n <= |p.queue| && (Interrupted(p, now, failing) <==> n < |p.queue|)
    ensures forall i :: 0 <= i < n && Raises(p, i, now) ==> p.queue[i] !in failing
    ensures n < |p.queue| ==> Raises(p, n, now) && p.queue[n] in failing
    ensures n < |p.queue| ==>
              var s := Sweep(p, now, failing);
              && p.queue[n + 1..] <= s.queue && s.stored[p.queue[n]] == p.stored[p.queue[n]]
              && (forall k :: k in s.queue[|p.queue| - n - 1..] <==>
                    k in p.queue[..n] && !(p.stored[k].conn.mode == Standby && IsIdle(p.stored[k].conn, now)))
  {
    n := Reach(p.queue, p.stored, now, failing);
    ReachStops(p.queue, p.stored, now, failing);
    assert forall i :: 0 <= i < |p.queue| ==> p.queue[i] in p.queue;
    SplitAt(p.queue, n);
  }

  /** An idle Standby connection with an open session, at position `i` of the queue. */
  ghost predicate Raises(p: Pool, i: nat, now: int)
    requires Owned(p) && i < |p.queue|
  {
    assert p.queue[i] in p.queue;
    var c := p.stored[p.queue[i]].conn;
    c.mode == Standby && IsIdle(c, now) && c.driver.Session? && c.driver.open
  }

  // ----- Conservation -------------------------------------------------------------------------

  lemma {:induction false} DistinctCount(q: seq<Key>)
    requires Distinct(q)
    ensures |KeySet(q)| == |q|
  {
    if q != [] {
      var rest := q[1..];
      DistinctCount(rest);
      assert q[0] !in KeySet(rest);
      assert KeySet(q) == KeySet(rest) + {q[0]} by {
        assert q == [q[0]] + rest;
      }
    }
  }

  /** Free plus leased is what is stored; so a running pool has nothing to hand out exactly when every stored
      connection is leased. */
  lemma Conservation(p: Pool)
    requires Partition(p)
    ensures |p.queue| + |p.leased| == |LiveKeys(p)|
    ensures p.queue == [] <==> LiveKeys(p) == p.leased
  {
    DistinctCount(p.queue);
    assert KeySet(p.queue) !! p.leased;
    assert LiveKeys(p) == KeySet(p.queue) + p.leased;
    if p.queue != [] { assert p.queue[0] in KeySet(p.queue); }
  }

  /** A successful first Run leaves exactly the configured number of connections, at least one, each queued once. */
  lemma FirstRun(minConnection: nat, made: seq<Creation>)
    requires |made| == (if minConnection >= 1 then minConnection else 1) && Start(INITIAL, true, made).1 == Ready
    ensures var p := Start(INITIAL, true, made).0;
            && Partition(p) && p.leased == {} && |p.queue| == |LiveKeys(p)| >= 1
            && (minConnection >= 1 ==> |p.queue| == minConnection) && (minConnection == 0 ==> |p.queue| == 1)
            && forall i :: 0 <= i < |made| ==> p.queue[i] == made[i].key
  {
    var before := INITIAL.(running := true);
    AddAllKeeps(before, made);
    AddAllExtends(before, made);
    RunSucceedsExactly(before, made);
    Conservation(AddAll(before, made).0);
  }
}
