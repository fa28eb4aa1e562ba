/** Transactions on top of the pool: a transaction leases a connection when it begins and gives it back when it is
    destroyed, opens one inner transaction on the connection's session, and executes through the connection's
    statement cache, which outlives it. */
module PgServer {
  import opened PoolModel
  import opened PreparedStatements

  type TxId = nat

  /** The mode is a bit mask, so values other than the named ones occur. */
  datatype TxMode = ReadWrite | ReadCommitted | ReadOnly | NonTransaction | OtherMode(bits: nat)

  /** What a destructor does first. `ReturnFirst` is as written: the destructor's body returns the connection, and only
      then is the member holding the inner transaction destroyed. */
  datatype Order = ReturnFirst | InnerFirst

  /** A transaction object. `inner` says that its inner transaction is open on the session, `ending` that its
      destructor is between its two halves, `stale` that the pool has been stopped since it began. */
  datatype Tx = Tx(key: Key, mode: TxMode, inner: bool, ending: bool, stale: bool)

  /** `leaked` holds the leases of Begins that failed after leasing; `managers` has the statements that the manager of
      each connection ever created knows. What a session has prepared is in the pool, with the connection. A
      `fault` ends the run. */
  datatype Server =
    Server(pool: Pool, txs: map<TxId, Tx>, leaked: set<Key>, managers: map<Key, Statements>, fault: Fault)

  datatype Step =
    | Begin(tx: TxId, mode: TxMode, innerOpens: bool, now: int)
    | Finish(tx: TxId, closes: bool)         // Commit or Rollback, and whether the session lets go of it
    | Run(tx: TxId, query: Query)            // Execute
    | EndInner(tx: TxId)
    | EndReturn(tx: TxId, now: int)
    | Connect(callback: bool, made: seq<Creation>)
    | Shutdown(order: seq<Key>, failing: set<Key>)
    | Cleanup(now: int, failing: set<Key>)

  datatype BeginReply = NoConnection | Refused(key: Key) | NullDriver(key: Key) | Began(key: Key)

  const IDLE := Server(INITIAL, map[], {}, map[], Sound)

  predicate Busy(s: Server, k: Key) {
    exists t :: t in s.txs && s.txs[t].key == k && s.txs[t].inner
  }

  predicate HasSession(p: Pool, k: Key) {
    k in p.stored && p.stored[k].Live? && p.stored[k].conn.driver.Session? && p.stored[k].conn.driver.open
  }

  /** A connection whose Open failed: it is stored and queued all the same. */
  predicate Unopened(p: Pool, k: Key) {
    k in p.stored && p.stored[k].Live? && p.stored[k].conn.driver.NoDriver?
  }

  /** What beginning on the front of the pool comes to, if its session `admits` an inner transaction or not. The mode is
      looked at before the driver. */
  function ReplyOn(p: Pool, mode: TxMode, admits: bool): BeginReply {
    if !p.running || p.queue == [] then NoConnection
    else if mode.OtherMode? then Refused(p.queue[0])
    else if Unopened(p, p.queue[0]) then NullDriver(p.queue[0])
    else if !HasSession(p, p.queue[0]) || !admits then Refused(p.queue[0])
    else Began(p.queue[0])
  }

  /** The session admits one open inner transaction at a time. */
  function BeginOn(s: Server, mode: TxMode, innerOpens: bool): BeginReply {
    ReplyOn(s.pool, mode, innerOpens && (s.pool.queue == [] || !Busy(s, s.pool.queue[0])))
  }

  predicate Leaks(s: Server, step: Step) {
    step.Begin? && Fails(BeginOn(s, step.mode, step.innerOpens))
  }

  /** The lease was taken, and no transaction came of it. */
  predicate Fails(reply: BeginReply) {
    reply.Refused? || reply.NullDriver?
  }

  ghost predicate Enabled(order: Order, s: Server, step: Step) {
    && s.fault == Sound
    && match step
       case Begin(t, _, _, _) => t !in s.txs
       case Finish(t, _) => t in s.txs && !s.txs[t].ending
       case Run(t, _) => t in s.txs && !s.txs[t].ending && !s.txs[t].stale
       case EndInner(t) => t in s.txs && s.txs[t].ending == (order == ReturnFirst)
       case EndReturn(t, _) => t in s.txs && s.txs[t].ending == (order == InnerFirst)
       case Connect(_, made) => NewKeys(s, made)
       case Shutdown(visits, _) => Visits(visits, s.pool.stored.Keys)
       case Cleanup(_, _) => true
  }

  /** The front of the queue is leased for a transaction. */
  function Started(s: Server, t: TxId, mode: TxMode, now: int): Server
    requires s.pool.queue != []
  {
    s.(pool := Take(s.pool, now), txs := s.txs[t := Tx(s.pool.queue[0], mode, true, false, false)])
  }

  /** The front of the queue is leased for nobody. */
  function Lost(s: Server, now: int): Server
    requires s.pool.queue != []
  {
    s.(pool := Take(s.pool, now), leaked := s.leaked + {s.pool.queue[0]})
  }

  /** Lines 232 to 236 of `pg_transaction.cc`: if creating the inner transaction raises, no destructor runs. */
  function Answered(s: Server, reply: BeginReply, t: TxId, mode: TxMode, now: int): Server
    requires s.pool.queue != []
  {
    match reply
    case NoConnection => s
    case Refused(_) => Lost(s, now)
    case NullDriver(_) => Lost(s, now).(fault := NullDriverUsed)
    case Began(_) => Started(s, t, mode, now)
  }

  function AfterBegin(s: Server, t: TxId, mode: TxMode, innerOpens: bool, now: int): Server {
    if s.pool.queue == [] then s else Answered(s, BeginOn(s, mode, innerOpens), t, mode, now)
  }

  function AfterFinish(s: Server, t: TxId, closes: bool): Server {
    if t !in s.txs || s.txs[t].mode == NonTransaction || !closes then s
    else s.(txs := s.txs[t := s.txs[t].(inner := false)])
  }

  /** What the session of a pooled connection has prepared. */
  function PreparedOn(p: Pool, k: Key): map<string, string> {
    if HasSession(p, k) then p.stored[k].conn.driver.prepared else map[]
  }

  function WithPrepared(p: Pool, k: Key, prepared: map<string, string>): Pool {
    if !HasSession(p, k) then p
    else p.(stored := p.stored[k := Live(p.stored[k].conn.(driver := Session(true, prepared)))])
  }

  /** Executing on a pooled connection: the statements its manager knows, and the session in the pool. */
  function RunOn(hash: string -> nat, p: Pool, st: Statements, k: Key, q: Query): (Pool, Statements, Outcome) {
    var (c, o) := Execute(hash, Cache(st, PreparedOn(p, k)), q);
    (WithPrepared(p, k, c.prepared), c.statements, o)
  }

  function AfterRun(hash: string -> nat, s: Server, t: TxId, q: Query): Server {
    if t !in s.txs || s.txs[t].key !in s.managers then s
    else
      var k := s.txs[t].key;
      var (pool, st, _) := RunOn(hash, s.pool, s.managers[k], k, q);
      s.(pool := pool, managers := s.managers[k := st])
  }

  function AfterEndInner(order: Order, s: Server, t: TxId): Server {
    if t !in s.txs then s
    else if order == ReturnFirst then s.(txs := s.txs - {t})
    else s.(txs := s.txs[t := s.txs[t].(inner := false, ending := true)])
  }

  function AfterEndReturn(order: Order, s: Server, t: TxId, now: int): Server {
    if t !in s.txs then s
    else
      s.(pool := Give(s.pool, s.txs[t].key, now),
         txs := if order == ReturnFirst then s.txs[t := s.txs[t].(ending := true)] else s.txs - {t})
  }

  function AfterConnect(s: Server, callback: bool, made: seq<Creation>): Server {
    var added := if callback then AddedKeys(s.pool.(running := true), made) else [];
    s.(pool := Start(s.pool, callback, made).0,
       managers := map k | k in s.managers.Keys + (set k | k in added) ::
         if k in s.managers then s.managers[k] else map[])
  }

  function AfterShutdown(s: Server, visits: seq<Key>, failing: set<Key>): Server {
    if !s.pool.running then s
    else
      var (pool, outcome) := Halt(s.pool, visits, failing);
      s.(pool := pool, fault := if outcome.NullEntry? then NullEntryClosed else s.fault,
         txs := map t | t in s.txs :: s.txs[t].(stale := true), leaked := {})
  }

  function Apply(order: Order, hash: string -> nat, s: Server, step: Step): Server {
    match step
    case Begin(t, mode, innerOpens, now) => AfterBegin(s, t, mode, innerOpens, now)
    case Finish(t, closes) => AfterFinish(s, t, closes)
    case Run(t, q) => AfterRun(hash, s, t, q)
    case EndInner(t) => AfterEndInner(order, s, t)
    case EndReturn(t, now) => AfterEndReturn(order, s, t, now)
    case Connect(callback, made) => AfterConnect(s, callback, made)
    case Shutdown(visits, failing) => AfterShutdown(s, visits, failing)
    case Cleanup(now, failing) => s.(pool := Sweep(s.pool, now, failing))
  }

  // ----- What every step does -----------------------------------------------------------------

  /** A Begin of `t` that succeeds: in a supported mode, on a running pool whose front connection has an open session
      that carries no inner transaction. */
  ghost predicate Succeeds(s: Server, step: Step, t: TxId) {
    && step.Begin? && step.tx == t && step.innerOpens
    && step.mode in {ReadWrite, ReadCommitted, ReadOnly, NonTransaction}
    && s.pool.running && s.pool.queue != []
    && (var k := s.pool.queue[0];
        && k in s.pool.stored && s.pool.stored[k].Live?
        && s.pool.stored[k].conn.driver.Session? && s.pool.stored[k].conn.driver.open
        && forall u :: u in s.txs && s.txs[u].inner ==> s.txs[u].key != k)
  }

  /** A transaction appears by a Begin that succeeds and disappears with the second half of its destruction. In between
      its key and mode are fixed; its inner transaction ends by an accepted Commit or Rollback, outside NonTransaction
      mode, or by its destruction; the first half of its destruction and a Shutdown leave their marks. */
  lemma TransactionsExactly(order: Order, hash: string -> nat, s: Server, step: Step, t: TxId)
    requires Enabled(order, s, step)
    ensures var s' := Apply(order, hash, s, step);
            var last := if order == ReturnFirst then step.EndInner? else step.EndReturn?;
            && (t in s'.txs <==> Succeeds(s, step, t) || (t in s.txs && !(last && step.tx == t)))
            && (Succeeds(s, step, t) ==> s'.txs[t] == Tx(s.pool.queue[0], step.mode, true, false, false))
  {
    if step.Begin? && s.pool.queue != [] { BusyExactly(s, s.pool.queue[0]); }
  }

  lemma BusyExactly(s: Server, k: Key)
    ensures Busy(s, k) <==> !(forall u :: u in s.txs && s.txs[u].inner ==> s.txs[u].key != k)
  {
  }

  lemma TransactionKeeps(order: Order, hash: string -> nat, s: Server, step: Step, t: TxId)
    requires Enabled(order, s, step) && t in s.txs && t in Apply(order, hash, s, step).txs
    ensures var (x, y) := (s.txs[t], Apply(order, hash, s, step).txs[t]);
            && y.key == x.key && y.mode == x.mode
            && (y.inner <==> x.inner && !(step.EndInner? && step.tx == t)
                             && !(step.Finish? && step.tx == t && step.closes && x.mode != NonTransaction))
            && (y.ending <==> x.ending || ((step.EndInner? || step.EndReturn?) && step.tx == t))
            && (y.stale <==> x.stale || (step.Shutdown? && s.pool.running))
  {
  }

  /** The server does to its pool what its members ask of it: a Begin leases the front even if it then fails, the return
      half of a destruction gives the transaction's own connection back, and the rest is passed on. */
  lemma PoolExactly(order: Order, hash: string -> nat, s: Server, step: Step)
    requires Enabled(order, s, step)
    ensures var p := Apply(order, hash, s, step).pool;
            match step
            case Begin(_, _, _, now) =>
              p == if s.pool.running && s.pool.queue != [] then Take(s.pool, now) else s.pool
            case EndReturn(t, now) => p == Give(s.pool, s.txs[t].key, now)
            case Connect(callback, made) => p == Start(s.pool, callback, made).0
            case Shutdown(visits, failing) => p == Halt(s.pool, visits, failing).0
            case Cleanup(now, failing) => p == Sweep(s.pool, now, failing)
            case Run(_, _) => p.queue == s.pool.queue && p.leased == s.pool.leased && p.running == s.pool.running
            case _ => p == s.pool
  {
  }

  /** Leases are lost exactly by Begins that lease and do not succeed, and forgotten by a Shutdown of a running pool. */
  lemma LeakedExactly(order: Order, hash: string -> nat, s: Server, step: Step)
    requires Enabled(order, s, step)
    ensures Apply(order, hash, s, step).leaked ==
            if step.Shutdown? && s.pool.running then {}
            else if step.Begin? && s.pool.running && s.pool.queue != [] && !Succeeds(s, step, step.tx)
            then s.leaked + {s.pool.queue[0]}
            else s.leaked
  {
    if step.Begin? && s.pool.queue != [] { BusyExactly(s, s.pool.queue[0]); }
  }

  /** Nothing keeps a caller out: a new transaction may always begin, a live one may execute, finish or be destroyed,
      and the pool's own operations may happen at any time. */
  lemma NothingIsForbidden(order: Order, s: Server, t: TxId, mode: TxMode, opens: bool, q: Query, now: int,
                           made: seq<Creation>, visits: seq<Key>, failing: set<Key>)
    requires s.fault == Sound
    ensures t !in s.txs ==> Enabled(order, s, Begin(t, mode, opens, now))
    ensures t in s.txs && !s.txs[t].ending ==>
              && Enabled(order, s, Finish(t, opens))
              && (!s.txs[t].stale ==> Enabled(order, s, Run(t, q)))
              && (order == ReturnFirst ==> Enabled(order, s, EndReturn(t, now)))
              && (order == InnerFirst ==> Enabled(order, s, EndInner(t)))
    ensures t in s.txs && s.txs[t].ending ==>
              if order == ReturnFirst then Enabled(order, s, EndInner(t)) else Enabled(order, s, EndReturn(t, now))
    ensures Enabled(order, s, Cleanup(now, failing))
    ensures Visits(visits, s.pool.stored.Keys) ==> Enabled(order, s, Shutdown(visits, failing))
    ensures (forall i :: 0 <= i < |made| ==> made[i].key !in s.managers) ==> Enabled(order, s, Connect(opens, made))
  {
  }

  // ----- Runs ---------------------------------------------------------------------------------

  function Exec(order: Order, hash: string -> nat, steps: seq<Step>): Server {
    if steps == [] then IDLE
    else Apply(order, hash, Exec(order, hash, steps[..|steps| - 1]), steps[|steps| - 1])
  }

  ghost predicate Legal(order: Order, hash: string -> nat, steps: seq<Step>) {
    steps == [] ||
    var front := steps[..|steps| - 1];
    Legal(order, hash, front) && Enabled(order, Exec(order, hash, front), steps[|steps| - 1])
  }

  // ----- Lease accounting ---------------------------------------------------------------------

  /** The leases that live transactions hold. */
  ghost function Held(order: Order, s: Server): map<TxId, Key> {
    map t | t in s.txs && !s.txs[t].stale && (order == ReturnFirst ==> !s.txs[t].ending) :: s.txs[t].key
  }

  /** Each lease is held by one transaction or leaked, never both. */
  ghost predicate Balanced(leased: set<Key>, held: map<TxId, Key>, leaked: set<Key>) {
    && (forall t, u :: t in held && u in held && t != u ==> held[t] != held[u])
    && leased == held.Values + leaked
    && held.Values !! leaked
  }

  lemma BalancedBegin(leased: set<Key>, held: map<TxId, Key>, leaked: set<Key>, t: TxId, k: Key)
    requires Balanced(leased, held, leaked) && t !in held && k !in leased
    ensures Balanced(leased + {k}, held[t := k], leaked)
    ensures Balanced(leased + {k}, held, leaked + {k})
  {
    var held' := held[t := k];
    forall u | u in held ensures held[u] in held.Values && held[u] != k {}
    assert forall u :: u in held' ==> held'[u] == if u == t then k else held[u];
    forall l | l in held.Values ensures l in held'.Values {
      var u :| u in held && held[u] == l;
      assert held'[u] == l;
    }
    assert held'[t] == k;
    assert held'.Values == held.Values + {k};
  }

  lemma BalancedEnd(leased: set<Key>, held: map<TxId, Key>, leaked: set<Key>, t: TxId)
    requires Balanced(leased, held, leaked) && t in held
    ensures Balanced(leased - {held[t]}, held - {t}, leaked)
    ensures held[t] in leased
  {
    var held' := held - {t};
    forall l | l in held.Values && l != held[t] ensures l in held'.Values {
      var u :| u in held && held[u] == l;
      assert u in held' && held'[u] == l;
    }
    assert held'.Values == held.Values - {held[t]};
  }

  lemma {:induction false} BalancedCount(leased: set<Key>, held: map<TxId, Key>, leaked: set<Key>)
    requires Balanced(leased, held, leaked)
    ensures |leased| == |held| + |leaked|
    decreases |held|
  {
    if held == map[] {
      assert held.Values == {};
    } else {
      var t :| t in held;
      BalancedEnd(leased, held, leaked, t);
      assert |held - {t}| == |held| - 1 by { assert (held - {t}).Keys == held.Keys - {t}; }
      BalancedCount(leased - {held[t]}, held - {t}, leaked);
    }
  }

  ghost predicate Leases(order: Order, s: Server) {
    Owned(s.pool) && Balanced(s.pool.leased, Held(order, s), s.leaked)
  }

  /** A lease that a transaction holds is on a connection with an open session. */
  ghost predicate HeldOpen(order: Order, s: Server) {
    forall t :: t in Held(order, s) ==> HasSession(s.pool, Held(order, s)[t])
  }

  /** Keys are never reused, so what a stale transaction carries is unknown to the pool. */
  ghost predicate Keys(s: Server) {
    && (forall k :: k in s.pool.stored ==> k in s.managers)
    && (forall t :: t in s.txs ==> s.txs[t].key in s.managers)
    && (forall t :: t in s.txs && s.txs[t].stale ==> s.txs[t].key !in s.pool.leased && s.txs[t].key !in s.pool.queue)
  }

  ghost predicate OneInner(s: Server) {
    forall t, u :: t in s.txs && u in s.txs && t != u && s.txs[t].inner && s.txs[u].inner ==>
      s.txs[t].key != s.txs[u].key
  }

  ghost predicate Inv(order: Order, s: Server) {
    Leases(order, s) && HeldOpen(order, s) && Keys(s) && OneInner(s)
  }

  lemma StartedHeld(order: Order, s: Server, t: TxId, mode: TxMode, now: int)
    requires t !in s.txs && s.pool.queue != []
    ensures Held(order, Started(s, t, mode, now)) == Held(order, s)[t := s.pool.queue[0]]
  {
  }

  lemma TakeBalances(p: Pool, held: map<TxId, Key>, leaked: set<Key>, t: TxId, now: int)
    requires Owned(p) && p.queue != [] && Balanced(p.leased, held, leaked) && t !in held
    ensures Owned(Take(p, now))
    ensures Balanced(Take(p, now).leased, held[t := p.queue[0]], leaked)
    ensures Balanced(Take(p, now).leased, held, leaked + {p.queue[0]})
  {
    TakeKeeps(p, now);
    BalancedBegin(p.leased, held, leaked, t, p.queue[0]);
  }

  lemma StartedLeases(order: Order, s: Server, t: TxId, mode: TxMode, now: int)
    requires Leases(order, s) && t !in s.txs && s.pool.queue != []
    ensures Leases(order, Started(s, t, mode, now))
    ensures Held(order, Started(s, t, mode, now)) == Held(order, s)[t := s.pool.queue[0]]
  {
    StartedHeld(order, s, t, mode, now);
    TakeBalances(s.pool, Held(order, s), s.leaked, t, now);
  }

  lemma LostLeases(order: Order, s: Server, t: TxId, now: int)
    requires Leases(order, s) && t !in s.txs && s.pool.queue != []
    ensures Leases(order, Lost(s, now)) && Held(order, Lost(s, now)) == Held(order, s)
  {
    assert Held(order, Lost(s, now)) == Held(order, s);
    TakeBalances(s.pool, Held(order, s), s.leaked, t, now);
  }

  lemma TakeSessions(p: Pool, now: int)
    requires p.queue != []
    ensures forall k :: HasSession(p, k) ==> HasSession(Take(p, now), k)
  {
  }

  /** What the pool part of `Keys` needs of a lease. */
  lemma TakeKeys(p: Pool, now: int)
    requires Owned(p) && p.queue != []
    ensures p.queue[0] in p.stored && Take(p, now).stored.Keys == p.stored.Keys
    ensures forall k :: k in Take(p, now).queue || k in Take(p, now).leased ==> k in p.queue || k in p.leased
  {
    assert p.queue == [p.queue[0]] + p.queue[1..];
    assert p.queue[0] in p.queue;
  }

  lemma StartedKeeps(order: Order, s: Server, t: TxId, mode: TxMode, now: int)
    requires Inv(order, s) && t !in s.txs && s.pool.queue != []
    requires HasSession(s.pool, s.pool.queue[0]) && !Busy(s, s.pool.queue[0])
    ensures Inv(order, Started(s, t, mode, now))
  {
    StartedLeases(order, s, t, mode, now);
    TakeSessions(s.pool, now);
    TakeKeys(s.pool, now);
  }

  lemma LostKeeps(order: Order, s: Server, t: TxId, now: int)
    requires Inv(order, s) && t !in s.txs && s.pool.queue != []
    ensures Inv(order, Lost(s, now))
  {
    LostLeases(order, s, t, now);
    TakeSessions(s.pool, now);
    TakeKeys(s.pool, now);
  }

  lemma BeginKeeps(order: Order, s: Server, t: TxId, mode: TxMode, innerOpens: bool, now: int)
    requires Inv(order, s) && t !in s.txs
    ensures Inv(order, AfterBegin(s, t, mode, innerOpens, now))
  {
    if s.pool.queue != [] {
      LostKeeps(order, s, t, now);
      FaultKeeps(order, Lost(s, now));
      if BeginOn(s, mode, innerOpens).Began? { StartedKeeps(order, s, t, mode, now); }
    }
  }

  lemma FaultKeeps(order: Order, s: Server)
    requires Inv(order, s)
    ensures Inv(order, s.(fault := NullDriverUsed))
  {
    assert Held(order, s.(fault := NullDriverUsed)) == Held(order, s);
  }

  lemma EndReturnLeases(order: Order, s: Server, t: TxId, now: int)
    requires Leases(order, s) && t in s.txs && s.txs[t].ending == (order == InnerFirst)
    requires s.txs[t].stale ==> s.txs[t].key !in s.pool.leased
    ensures Leases(order, AfterEndReturn(order, s, t, now))
    ensures Give(s.pool, s.txs[t].key, now).leased <= s.pool.leased
  {
    GiveKeeps(s.pool, s.txs[t].key, now);
    assert Held(order, AfterEndReturn(order, s, t, now)) == Held(order, s) - {t};
    if s.txs[t].stale {
      assert Held(order, s) - {t} == Held(order, s);
    } else {
      BalancedEnd(s.pool.leased, Held(order, s), s.leaked, t);
    }
  }

  lemma EndReturnHeldOpen(order: Order, s: Server, t: TxId, now: int)
    requires HeldOpen(order, s) && t in s.txs && s.txs[t].ending == (order == InnerFirst)
    ensures HeldOpen(order, AfterEndReturn(order, s, t, now))
  {
    assert Held(order, AfterEndReturn(order, s, t, now)) == Held(order, s) - {t};
  }

  lemma EndReturnKeys(order: Order, s: Server, t: TxId, now: int)
    requires Leases(order, s) && Keys(s) && t in s.txs && s.txs[t].ending == (order == InnerFirst)
    ensures Keys(AfterEndReturn(order, s, t, now))
  {
    assert Give(s.pool, s.txs[t].key, now).stored.Keys == s.pool.stored.Keys;
    assert !s.txs[t].stale ==> t in Held(order, s) && Held(order, s)[t] in Held(order, s).Values;
  }

  lemma EndReturnKeeps(order: Order, s: Server, t: TxId, now: int)
    requires Inv(order, s) && t in s.txs && s.txs[t].ending == (order == InnerFirst)
    ensures Inv(order, AfterEndReturn(order, s, t, now))
  {
    EndReturnLeases(order, s, t, now);
    EndReturnHeldOpen(order, s, t, now);
    EndReturnKeys(order, s, t, now);
  }

  lemma EndInnerKeeps(order: Order, s: Server, t: TxId)
    requires Inv(order, s) && t in s.txs && s.txs[t].ending == (order == ReturnFirst)
    ensures Inv(order, AfterEndInner(order, s, t))
  {
    assert Held(order, AfterEndInner(order, s, t)) == Held(order, s);
  }

  lemma FinishKeeps(order: Order, s: Server, t: TxId, closes: bool)
    requires Inv(order, s)
    ensures Inv(order, AfterFinish(s, t, closes))
  {
    assert Held(order, AfterFinish(s, t, closes)) == Held(order, s);
  }

  /** Preparing statements on a session changes nothing that leasing depends on. */
  lemma PreparedKeeps(p: Pool, k: Key, prepared: map<string, string>)
    ensures Owned(p) ==> Owned(WithPrepared(p, k, prepared))
    ensures WithPrepared(p, k, prepared).stored.Keys == p.stored.Keys
    ensures WithPrepared(p, k, prepared).leased == p.leased && WithPrepared(p, k, prepared).queue == p.queue
    ensures forall l :: HasSession(p, l) <==> HasSession(WithPrepared(p, k, prepared), l)
    ensures HasSession(p, k) ==> PreparedOn(WithPrepared(p, k, prepared), k) == prepared
    ensures forall l :: l in p.stored && l != k ==> WithPrepared(p, k, prepared).stored[l] == p.stored[l]
  {
  }

  lemma RunKeeps(order: Order, hash: string -> nat, s: Server, t: TxId, q: Query)
    requires Inv(order, s)
    ensures Inv(order, AfterRun(hash, s, t, q))
  {
    if t in s.txs && s.txs[t].key in s.managers {
      var k := s.txs[t].key;
      var c := Execute(hash, Cache(s.managers[k], PreparedOn(s.pool, k)), q).0;
      PreparedKeeps(s.pool, k, c.prepared);
      assert AfterRun(hash, s, t, q).pool == WithPrepared(s.pool, k, c.prepared);
      assert Held(order, AfterRun(hash, s, t, q)) == Held(order, s);
    }
  }

  lemma {:induction false} AddedAreNew(p: Pool, made: seq<Creation>, known: set<Key>)
    requires forall i :: 0 <= i < |made| && made[i].key in known ==> made[i].key in p.stored
    ensures forall k :: k in AddedKeys(p, made) ==> k !in known
    decreases |made|
  {
    if made != [] && made[0].key !in p.stored && made[0].opens {
      AddedAreNew(Add(p, made[0]), made[1..], known);
    }
  }

  ghost predicate NewKeys(s: Server, made: seq<Creation>) {
    forall i :: 0 <= i < |made| && made[i].key in s.managers ==> made[i].key in s.pool.stored
  }

  lemma ConnectKeeps(order: Order, s: Server, callback: bool, made: seq<Creation>)
    requires Inv(order, s) && NewKeys(s, made)
    ensures Inv(order, AfterConnect(s, callback, made))
  {
    var s', p := AfterConnect(s, callback, made), s.pool.(running := true);
    if callback {
      AddAllKeeps(p, made);
      AddAllExtends(p, made);
      AddedAreNew(p, made, s.managers.Keys);
      forall t | t in s.txs && s.txs[t].stale
        ensures s.txs[t].key !in s'.pool.leased && s.txs[t].key !in s'.pool.queue
      {
        assert s.txs[t].key in s.managers.Keys;
      }
    }
    assert Held(order, s') == Held(order, s);
  }

  lemma ShutdownKeeps(order: Order, s: Server, visits: seq<Key>, failing: set<Key>)
    requires Inv(order, s) && Distinct(visits)
    ensures Inv(order, AfterShutdown(s, visits, failing))
  {
    HaltKeeps(s.pool, visits, failing);
    if s.pool.running { assert Held(order, AfterShutdown(s, visits, failing)) == map[]; }
  }

  lemma CleanupKeeps(order: Order, s: Server, now: int, failing: set<Key>)
    requires Inv(order, s)
    ensures Inv(order, s.(pool := Sweep(s.pool, now, failing)))
  {
    var s' := s.(pool := Sweep(s.pool, now, failing));
    SweepKeeps(s.pool, now, failing);
    assert Held(order, s') == Held(order, s);
    forall t | t in Held(order, s) ensures HasSession(s'.pool, Held(order, s)[t]) {
      assert Held(order, s)[t] in Held(order, s).Values;
    }
    SplitAt(s.pool.queue, Reach(s.pool.queue, s.pool.stored, now, failing));
  }

  lemma StepKeeps(order: Order, hash: string -> nat, s: Server, step: Step)
    requires Inv(order, s) && Enabled(order, s, step)
    ensures Inv(order, Apply(order, hash, s, step))
  {
    match step
    case Begin(t, mode, innerOpens, now) => BeginKeeps(order, s, t, mode, innerOpens, now);
    case Finish(t, closes) => FinishKeeps(order, s, t, closes);
    case Run(t, q) => RunKeeps(order, hash, s, t, q);
    case EndInner(t) => EndInnerKeeps(order, s, t);
    case EndReturn(t, now) => EndReturnKeeps(order, s, t, now);
    case Connect(callback, made) => ConnectKeeps(order, s, callback, made);
    case Shutdown(visits, failing) => ShutdownKeeps(order, s, visits, failing);
    case Cleanup(now, failing) => CleanupKeeps(order, s, now, failing);
  }

  /** Over every run, of either destruction order: no two live transactions hold the same connection, what they hold
      has an open session, no session has two open inner transactions, and what is leased is exactly what live
      transactions hold and failed Begins leaked. */
  lemma {:induction false} ReachableLeases(order: Order, hash: string -> nat, steps: seq<Step>)
    requires Legal(order, hash, steps)
    ensures Inv(order, Exec(order, hash, steps))
  {
    if steps != [] {
      var front := steps[..|steps| - 1];
      ReachableLeases(order, hash, front);
      StepKeeps(order, hash, Exec(order, hash, front), steps[|steps| - 1]);
    }
  }

  /** So the number of leases is the number of live transactions that have not returned theirs plus the number of
      leaked ones; without leaks it is the live transactions exactly. */
  lemma LeaseAccounting(order: Order, hash: string -> nat, steps: seq<Step>)
    requires Legal(order, hash, steps)
    ensures var s := Exec(order, hash, steps);
            && |s.pool.leased| == |Held(order, s)| + |s.leaked|
            && (s.leaked == {} ==> s.pool.leased == Held(order, s).Values)
  {
    ReachableLeases(order, hash, steps);
    var s := Exec(order, hash, steps);
    BalancedCount(s.pool.leased, Held(order, s), s.leaked);
  }

  /** The Begins of a run that failed after leasing. */
  function FailedBegins(order: Order, hash: string -> nat, steps: seq<Step>): nat {
    if steps == [] then 0
    else
      var front, step := steps[..|steps| - 1], steps[|steps| - 1];
      FailedBegins(order, hash, front)
      + if Leaks(Exec(order, hash, front), step) then 1 else 0
  }

  lemma LeakAnswered(order: Order, s: Server, reply: BeginReply, t: TxId, mode: TxMode, now: int)
    requires Leases(order, s) && s.pool.queue != []
    ensures s.leaked <= Answered(s, reply, t, mode, now).leaked
    ensures |Answered(s, reply, t, mode, now).leaked| == |s.leaked| + if Fails(reply) then 1 else 0
  {
    FrontNotLeaked(order, s);
  }

  lemma LeakBegin(order: Order, s: Server, t: TxId, mode: TxMode, innerOpens: bool, now: int)
    requires Leases(order, s)
    ensures var s' := AfterBegin(s, t, mode, innerOpens, now);
            && s.leaked <= s'.leaked
            && |s'.leaked| == |s.leaked| + if Fails(BeginOn(s, mode, innerOpens)) then 1 else 0
  {
    if s.pool.queue != [] { LeakAnswered(order, s, BeginOn(s, mode, innerOpens), t, mode, now); }
  }

  lemma FrontNotLeaked(order: Order, s: Server)
    requires Leases(order, s) && s.pool.queue != []
    ensures |s.leaked + {s.pool.queue[0]}| == |s.leaked| + 1
  {
    assert s.pool.queue[0] in s.pool.queue;
    assert s.pool.queue[0] !in s.leaked;
  }

  lemma LeakStep(order: Order, hash: string -> nat, s: Server, step: Step)
    requires Leases(order, s) && !step.Shutdown?
    ensures s.leaked <= Apply(order, hash, s, step).leaked
    ensures |Apply(order, hash, s, step).leaked| == |s.leaked| + if Leaks(s, step) then 1 else 0
  {
    match step
    case Begin(t, mode, innerOpens, now) => LeakBegin(order, s, t, mode, innerOpens, now);
    case _ =>
  }

  /** Without a Shutdown every Begin that fails after leasing costs one connection for good: what is leaked stays
      leaked, and there are as many leaked leases as such Begins. */
  lemma {:induction false} EveryFailedBeginLeaks(order: Order, hash: string -> nat, steps: seq<Step>)
    requires Legal(order, hash, steps)
    requires forall i :: 0 <= i < |steps| ==> !steps[i].Shutdown?
    ensures |Exec(order, hash, steps).leaked| == FailedBegins(order, hash, steps)
    ensures |Exec(order, hash, steps).pool.leased| ==
            |Held(order, Exec(order, hash, steps))| + FailedBegins(order, hash, steps)
    ensures steps != [] ==> Exec(order, hash, steps[..|steps| - 1]).leaked <= Exec(order, hash, steps).leaked
  {
    LeaseAccounting(order, hash, steps);
    if steps != [] {
      var front, step := steps[..|steps| - 1], steps[|steps| - 1];
      assert !step.Shutdown?;
      EveryFailedBeginLeaks(order, hash, front);
      ReachableLeases(order, hash, front);
      LeakStep(order, hash, Exec(order, hash, front), step);
    }
  }

  // ----- Inner transactions -------------------------------------------------------------------

  /** If the inner transaction ended before the return, no two transactions would ever carry the same connection, so a
      queued connection would never have an inner transaction open. */
  ghost predicate OwnConnection(s: Server) {
    && (forall t, u :: t in s.txs && u in s.txs && t != u ==> s.txs[t].key != s.txs[u].key)
    && (forall t :: t in s.txs ==> s.txs[t].key !in s.pool.queue)
  }

  lemma OwnConnectionBegin(s: Server, t: TxId, mode: TxMode, innerOpens: bool, now: int)
    requires Inv(InnerFirst, s) && OwnConnection(s) && t !in s.txs
    ensures OwnConnection(AfterBegin(s, t, mode, innerOpens, now))
  {
    if BeginOn(s, mode, innerOpens) != NoConnection {
      var k, rest := s.pool.queue[0], s.pool.queue[1..];
      assert s.pool.queue == [k] + rest;
      assert k in s.pool.queue && k !in rest;
      assert forall l :: l in rest ==> l in s.pool.queue;
    }
  }

  lemma OwnConnectionConnect(s: Server, callback: bool, made: seq<Creation>)
    requires Inv(InnerFirst, s) && OwnConnection(s) && NewKeys(s, made)
    ensures OwnConnection(AfterConnect(s, callback, made))
  {
    AddAllExtends(s.pool.(running := true), made);
    AddedAreNew(s.pool.(running := true), made, s.managers.Keys);
    forall t | t in s.txs ensures s.txs[t].key !in AfterConnect(s, callback, made).pool.queue {
      assert s.txs[t].key in s.managers.Keys;
    }
  }

  lemma OwnConnectionStep(hash: string -> nat, s: Server, step: Step)
    requires Inv(InnerFirst, s) && OwnConnection(s) && Enabled(InnerFirst, s, step)
    ensures OwnConnection(Apply(InnerFirst, hash, s, step))
  {
    match step
    case Begin(t, mode, innerOpens, now) => OwnConnectionBegin(s, t, mode, innerOpens, now);
    case Connect(callback, made) => OwnConnectionConnect(s, callback, made);
    case Shutdown(visits, failing) => HaltKeeps(s.pool, visits, failing);
    case _ =>
  }

  lemma {:induction false} InnerFirstNeverQueuesBusy(hash: string -> nat, steps: seq<Step>)
    requires Legal(InnerFirst, hash, steps)
    ensures OwnConnection(Exec(InnerFirst, hash, steps))
    ensures forall k :: k in Exec(InnerFirst, hash, steps).pool.queue ==> !Busy(Exec(InnerFirst, hash, steps), k)
  {
    if steps != [] {
      var front := steps[..|steps| - 1];
      InnerFirstNeverQueuesBusy(hash, front);
      ReachableLeases(InnerFirst, hash, front);
      OwnConnectionStep(hash, Exec(InnerFirst, hash, front), steps[|steps| - 1]);
    }
  }

  /** So in that order the session never has to refuse a second inner transaction: what a Begin comes to is decided by
      the pool alone. */
  lemma InnerFirstNeedsNoGuard(hash: string -> nat, steps: seq<Step>, mode: TxMode, innerOpens: bool)
    requires Legal(InnerFirst, hash, steps)
    ensures BeginOn(Exec(InnerFirst, hash, steps), mode, innerOpens) ==
            ReplyOn(Exec(InnerFirst, hash, steps).pool, mode, innerOpens)
  {
    InnerFirstNeverQueuesBusy(hash, steps);
    var p := Exec(InnerFirst, hash, steps).pool;
    if p.queue != [] { assert p.queue[0] in p.queue; }
  }

  ghost predicate HalfDestroyed(s: Server, t: TxId) {
    t in s.txs && s.txs[t].ending && !s.txs[t].stale && s.txs[t].inner
  }

  lemma HeldIsLeased(order: Order, s: Server, t: TxId)
    requires Leases(order, s) && t in Held(order, s)
    ensures s.txs[t].key in s.pool.leased
  {
    assert Held(order, s)[t] in Held(order, s).Values;
  }

  lemma QueuedBusyExactly(s: Server, k: Key)
    requires Inv(ReturnFirst, s) && k in s.pool.queue
    ensures Busy(s, k) <==> exists t :: HalfDestroyed(s, t) && s.txs[t].key == k
  {
    forall t | t in Held(ReturnFirst, s) ensures s.txs[t].key in s.pool.leased {
      HeldIsLeased(ReturnFirst, s, t);
    }
    if Busy(s, k) {
      var t :| t in s.txs && s.txs[t].key == k && s.txs[t].inner;
      assert HalfDestroyed(s, t);
    }
  }

  /** A destructor returns a lease while its inner transaction is open. */
  predicate ReturnsOpen(s: Server, step: Step) {
    step.EndReturn? && step.tx in s.txs && !s.txs[step.tx].stale && s.txs[step.tx].inner
  }

  ghost predicate BusyQueue(s: Server) {
    exists k :: k in s.pool.queue && Busy(s, k)
  }

  ghost predicate NoneHalf(s: Server) {
    forall t :: !HalfDestroyed(s, t)
  }

  lemma NoneHalfStep(hash: string -> nat, s: Server, step: Step)
    requires NoneHalf(s) && Enabled(ReturnFirst, s, step) && !ReturnsOpen(s, step)
    ensures NoneHalf(Apply(ReturnFirst, hash, s, step))
  {
    var s' := Apply(ReturnFirst, hash, s, step);
    forall t ensures !HalfDestroyed(s', t) {
      assert !HalfDestroyed(s, t);
    }
  }

  lemma NoneHalfIsFree(s: Server)
    requires Inv(ReturnFirst, s) && NoneHalf(s)
    ensures !BusyQueue(s)
  {
    if BusyQueue(s) {
      var k :| k in s.pool.queue && Busy(s, k);
      QueuedBusyExactly(s, k);
    }
  }

  lemma ReturnsOpenQueuesBusy(hash: string -> nat, s: Server, step: Step)
    requires Inv(ReturnFirst, s) && Enabled(ReturnFirst, s, step) && ReturnsOpen(s, step)
    ensures BusyQueue(Apply(ReturnFirst, hash, s, step))
  {
    var s', k := Apply(ReturnFirst, hash, s, step), s.txs[step.tx].key;
    HeldIsLeased(ReturnFirst, s, step.tx);
    assert s'.pool.queue[|s.pool.queue|] == k;
    assert step.tx in s'.txs && s'.txs[step.tx].key == k && s'.txs[step.tx].inner;
    assert k in s'.pool.queue && Busy(s', k);
  }

  predicate ClosedAfter(step: Step, t: TxId, closed: bool) {
    match step
    case Begin(u, _, _, _) => u != t && closed
    case Finish(u, closes) => (u == t && closes) || closed
    case _ => closed
  }

  /** What a caller did to `t` since it began: a Commit or Rollback that the session accepted. */
  predicate Closed(steps: seq<Step>, t: TxId) {
    steps != [] && ClosedAfter(steps[|steps| - 1], t, Closed(steps[..|steps| - 1], t))
  }

  predicate OpenUnlessClosed(tx: Tx, closed: bool) {
    tx.inner <==> tx.mode == NonTransaction || !closed
  }

  lemma InnerStep(hash: string -> nat, s: Server, step: Step, t: TxId, closed: bool)
    requires Enabled(ReturnFirst, s, step) && t in Apply(ReturnFirst, hash, s, step).txs
    requires t in s.txs ==> OpenUnlessClosed(s.txs[t], closed)
    requires t in s.txs || (step.Begin? && step.tx == t)
    ensures OpenUnlessClosed(Apply(ReturnFirst, hash, s, step).txs[t], ClosedAfter(step, t, closed))
  {
  }

  lemma OnlyBeginAdds(hash: string -> nat, s: Server, step: Step, t: TxId)
    requires t in Apply(ReturnFirst, hash, s, step).txs && t !in s.txs
    ensures step.Begin? && step.tx == t
  {
  }

  /** As written, an inner transaction stays open until a Commit or Rollback closes it, and that of NonTransaction mode
      until it is destroyed. */
  lemma {:induction false} InnerOpenExactly(hash: string -> nat, steps: seq<Step>, t: TxId)
    requires Legal(ReturnFirst, hash, steps) && t in Exec(ReturnFirst, hash, steps).txs
    ensures OpenUnlessClosed(Exec(ReturnFirst, hash, steps).txs[t], Closed(steps, t))
  {
    var front, step := steps[..|steps| - 1], steps[|steps| - 1];
    var s := Exec(ReturnFirst, hash, front);
    if t in s.txs {
      InnerOpenExactly(hash, front, t);
    } else {
      OnlyBeginAdds(hash, s, step, t);
    }
    InnerStep(hash, s, step, t, Closed(front, t));
  }

  /** Step `i` destroys a transaction of the running pool that no Commit or Rollback has closed. */
  predicate ReturnsUnclosed(hash: string -> nat, steps: seq<Step>, i: nat)
    requires i < |steps|
  {
    var s := Exec(ReturnFirst, hash, steps[..i]);
    && steps[i].EndReturn? && steps[i].tx in s.txs && !s.txs[steps[i].tx].stale
    && (s.txs[steps[i].tx].mode == NonTransaction || !Closed(steps[..i], steps[i].tx))
  }

  lemma {:induction false} LegalUpTo(order: Order, hash: string -> nat, steps: seq<Step>, i: nat)
    requires Legal(order, hash, steps) && i <= |steps|
    ensures Legal(order, hash, steps[..i])
    ensures i < |steps| ==> Enabled(order, Exec(order, hash, steps[..i]), steps[i])
  {
    if i == |steps| {
      assert steps[..i] == steps;
    } else {
      var front := steps[..|steps| - 1];
      if i < |front| {
        assert front[..i] == steps[..i];
        LegalUpTo(order, hash, front, i);
      } else {
        assert steps[..i] == front;
      }
    }
  }

  lemma {:induction false} NoneHalfWhileClosed(hash: string -> nat, steps: seq<Step>)
    requires Legal(ReturnFirst, hash, steps)
    requires forall i :: 0 <= i < |steps| ==> !ReturnsUnclosed(hash, steps, i)
    ensures NoneHalf(Exec(ReturnFirst, hash, steps))
  {
    if steps != [] {
      var front, step := steps[..|steps| - 1], steps[|steps| - 1];
      forall i | 0 <= i < |front| ensures !ReturnsUnclosed(hash, front, i) {
        assert front[..i] == steps[..i] && front[i] == steps[i];
        assert !ReturnsUnclosed(hash, steps, i);
      }
      NoneHalfWhileClosed(hash, front);
      assert steps[..|front|] == front && !ReturnsUnclosed(hash, steps, |front|);
      if ReturnsOpen(Exec(ReturnFirst, hash, front), step) { InnerOpenExactly(hash, front, step.tx); }
      NoneHalfStep(hash, Exec(ReturnFirst, hash, front), step);
    }
  }

  lemma UnclosedReturnsOpen(hash: string -> nat, steps: seq<Step>, i: nat)
    requires Legal(ReturnFirst, hash, steps) && i < |steps| && ReturnsUnclosed(hash, steps, i)
    ensures Legal(ReturnFirst, hash, steps[..i])
    ensures Enabled(ReturnFirst, Exec(ReturnFirst, hash, steps[..i]), steps[i])
    ensures ReturnsOpen(Exec(ReturnFirst, hash, steps[..i]), steps[i])
  {
    LegalUpTo(ReturnFirst, hash, steps, i);
    InnerOpenExactly(hash, steps[..i], steps[i].tx);
  }

  lemma UnclosedQueuesBusy(hash: string -> nat, steps: seq<Step>, i: nat)
    requires Legal(ReturnFirst, hash, steps) && i < |steps| && ReturnsUnclosed(hash, steps, i)
    ensures BusyQueue(Exec(ReturnFirst, hash, steps[..i + 1]))
  {
    UnclosedReturnsOpen(hash, steps, i);
    ReachableLeases(ReturnFirst, hash, steps[..i]);
    ReturnsOpenQueuesBusy(hash, Exec(ReturnFirst, hash, steps[..i]), steps[i]);
    assert steps[..i + 1] == steps[..i] + [steps[i]];
    Extend(ReturnFirst, hash, steps[..i], steps[i]);
  }

  /** As written, a run passes through a state that offers a connection with an open inner transaction exactly when some
      transaction is destroyed without a Commit or Rollback that closed it, or in NonTransaction mode, where none
      does. */
  lemma ReturnFirstBusyExactly(hash: string -> nat, steps: seq<Step>)
    requires Legal(ReturnFirst, hash, steps)
    ensures (exists i :: 0 <= i <= |steps| && BusyQueue(Exec(ReturnFirst, hash, steps[..i]))) <==>
            (exists i :: 0 <= i < |steps| && ReturnsUnclosed(hash, steps, i))
  {
    if i :| 0 <= i < |steps| && ReturnsUnclosed(hash, steps, i) {
      UnclosedQueuesBusy(hash, steps, i);
    } else {
      forall i | 0 <= i <= |steps| ensures !BusyQueue(Exec(ReturnFirst, hash, steps[..i])) {
        var upTo := steps[..i];
        LegalUpTo(ReturnFirst, hash, steps, i);
        forall j | 0 <= j < |upTo| ensures !ReturnsUnclosed(hash, upTo, j) {
          assert upTo[..j] == steps[..j];
          assert !ReturnsUnclosed(hash, steps, j);
        }
        NoneHalfWhileClosed(hash, upTo);
        ReachableLeases(ReturnFirst, hash, upTo);
        NoneHalfIsFree(Exec(ReturnFirst, hash, upTo));
      }
    }
  }

  const LEAKING_TRACE := [
    Connect(true, [LONE]), Begin(1, ReadWrite, true, 0), EndReturn(1, 1), Begin(2, ReadWrite, true, 1), EndInner(1)
  ]

  function Lone(returned: int, leased: bool): Pool {
    Pool(map[7 := Live(Conn(Primary, 300, 0, returned, OPENED))],
         if leased then {7} else {}, if leased then [] else [7], true)
  }

  lemma Extend(order: Order, hash: string -> nat, steps: seq<Step>, step: Step)
    ensures Exec(order, hash, steps + [step]) == Apply(order, hash, Exec(order, hash, steps), step)
    ensures Legal(order, hash, steps + [step]) <==>
            Legal(order, hash, steps) && Enabled(order, Exec(order, hash, steps), step)
  {
    assert (steps + [step])[..|steps|] == steps;
  }

  lemma LoneConnects(hash: string -> nat)
    ensures Exec(ReturnFirst, hash, LEAKING_TRACE[..1]) == Server(Lone(0, false), map[], {}, map[7 := map[]], Sound)
    ensures Legal(ReturnFirst, hash, LEAKING_TRACE[..1])
  {
    var p := INITIAL.(running := true);
    assert [LONE][1..] == [];
    assert AddAll(p, [LONE]) == AddAll(Add(p, LONE), []) == (Add(p, LONE), Ready);
    assert AddedKeys(p, [LONE]) == [7] + AddedKeys(Add(p, LONE), []) == [7];
    assert Add(p, LONE) == Lone(0, false);
    assert LEAKING_TRACE[..1] == [] + [LEAKING_TRACE[0]];
    Extend(ReturnFirst, hash, [], LEAKING_TRACE[0]);
  }

  lemma LoneReturns(hash: string -> nat)
    ensures Exec(ReturnFirst, hash, LEAKING_TRACE[..3]) ==
            Server(Lone(1, false), map[1 := Tx(7, ReadWrite, true, true, false)], {}, map[7 := map[]], Sound)
    ensures Legal(ReturnFirst, hash, LEAKING_TRACE[..3])
  {
    LoneConnects(hash);
    var t := LEAKING_TRACE;
    assert t[..2] == t[..1] + [t[1]] && t[..3] == t[..2] + [t[2]];
    Extend(ReturnFirst, hash, t[..1], t[1]);
    assert Exec(ReturnFirst, hash, t[..2]) ==
           Server(Lone(0, true), map[1 := Tx(7, ReadWrite, true, false, false)], {}, map[7 := map[]], Sound);
    Extend(ReturnFirst, hash, t[..2], t[2]);
  }

  /** As written: a Begin that falls between the two halves of a destructor is refused by the session and leaks the
      only connection; no transaction is left, and nothing can be leased again. */
  lemma ReturnFirstLeaksConnection(hash: string -> nat)
    ensures Legal(ReturnFirst, hash, LEAKING_TRACE)
    ensures var s := Exec(ReturnFirst, hash, LEAKING_TRACE);
            s.txs == map[] && s.leaked == {7} && s.pool.leased == {7} && s.pool.queue == []
  {
    LoneReturns(hash);
    var t := LEAKING_TRACE;
    assert t[..4] == t[..3] + [t[3]] && t == t[..4] + [t[4]];
    Extend(ReturnFirst, hash, t[..3], t[3]);
    var s := Exec(ReturnFirst, hash, t[..3]);
    assert Busy(s, 7) by { assert 1 in s.txs; }
    Extend(ReturnFirst, hash, t[..4], t[4]);
  }


  // ----- Sessions and their statements across leases ------------------------------------------

  predicate RunsOn(s: Server, step: Step, k: Key) {
    step.Run? && step.tx in s.txs && s.txs[step.tx].key == k
  }

  /** The queries executed on one connection, by whichever transactions held it. */
  function QueriesOn(order: Order, hash: string -> nat, steps: seq<Step>, k: Key): seq<Query> {
    if steps == [] then []
    else
      var front, step := steps[..|steps| - 1], steps[|steps| - 1];
      QueriesOn(order, hash, front, k) + if RunsOn(Exec(order, hash, front), step, k) then [step.query] else []
  }

  /** The manager's statements and, while the pool has the connection, its session are what replaying `qs` leaves. Only
      a connection that was never opened has no session, and nothing was executed on it. */
  ghost predicate CacheIs(hash: string -> nat, s: Server, k: Key, qs: seq<Query>) {
    && (if k in s.managers then s.managers[k] == Replay(hash, qs).statements else qs == [])
    && (k in s.pool.stored && s.pool.stored[k].Live? ==>
          && k in s.managers
          && if s.pool.stored[k].conn.driver.NoDriver? then qs == []
             else s.pool.stored[k].conn.driver == Session(true, Replay(hash, qs).prepared))
  }

  /** Every entry of `after` is null or has the driver it had before. */
  ghost predicate DriversKept(before: map<Key, Slot>, after: map<Key, Slot>) {
    forall k :: k in after && after[k].Live? ==>
      k in before && before[k].Live? && after[k].conn.driver == before[k].conn.driver
  }

  lemma PoolStepsKeepDrivers(p: Pool, k: Key, now: int, failing: set<Key>)
    ensures p.queue != [] ==> DriversKept(p.stored, Take(p, now).stored)
    ensures DriversKept(p.stored, Give(p, k, now).stored)
    ensures DriversKept(p.stored, Sweep(p, now, failing).stored)
  {
  }

  lemma AnswerKeepsDrivers(s: Server, reply: BeginReply, t: TxId, mode: TxMode, now: int)
    requires s.pool.queue != []
    ensures DriversKept(s.pool.stored, Answered(s, reply, t, mode, now).pool.stored)
    ensures Answered(s, reply, t, mode, now).managers == s.managers
  {
    PoolStepsKeepDrivers(s.pool, 0, now, {});
  }

  /** Leasing, returning, cleaning up and stopping leave every session that stays in the pool as it was. */
  lemma StepKeepsDrivers(order: Order, hash: string -> nat, s: Server, step: Step)
    requires Enabled(order, s, step) && !step.Run? && !step.Connect?
    ensures DriversKept(s.pool.stored, Apply(order, hash, s, step).pool.stored)
    ensures Apply(order, hash, s, step).managers == s.managers
  {
    match step
    case Begin(t, mode, innerOpens, now) =>
      if s.pool.queue != [] { AnswerKeepsDrivers(s, BeginOn(s, mode, innerOpens), t, mode, now); }
    case EndReturn(t, now) => PoolStepsKeepDrivers(s.pool, s.txs[t].key, now, {});
    case Shutdown(visits, failing) => CloseAllExactly(s.pool.stored, visits, failing);
    case Cleanup(now, failing) => PoolStepsKeepDrivers(s.pool, 0, now, failing);
    case _ =>
  }

  /** What a Run adds is freshly opened, or was never opened. */
  lemma {:induction false} AddedDrivers(p: Pool, made: seq<Creation>)
    ensures forall k :: k in AddedKeys(p, made) ==> k in AddAll(p, made).0.stored
    ensures forall k :: k in AddedKeys(p, made) ==>
              var slot := AddAll(p, made).0.stored[k];
              slot.Live? && (slot.conn.driver == OPENED || (slot.conn.driver == NoDriver && !AllOpen(made)))
    decreases |made|
  {
    AddAllExtends(p, made);
    if made != [] && made[0].key !in p.stored && made[0].opens {
      var p', rest := Add(p, made[0]), made[1..];
      AddedDrivers(p', rest);
      AddAllExtends(p', rest);
      assert AllOpen(made) ==> AllOpen(rest);
    }
  }

  lemma CacheConnect(order: Order, hash: string -> nat, s: Server, callback: bool, made: seq<Creation>, k: Key,
                     qs: seq<Query>)
    requires NewKeys(s, made) && CacheIs(hash, s, k, qs)
    ensures CacheIs(hash, AfterConnect(s, callback, made), k, qs)
  {
    var p := s.pool.(running := true);
    AddAllExtends(p, made);
    AddedDrivers(p, made);
    AddedAreNew(p, made, s.managers.Keys);
    if callback && k in AddedKeys(p, made) {
      assert qs == [];
    }
  }

  lemma CacheRun(order: Order, hash: string -> nat, s: Server, t: TxId, q: Query, k: Key, qs: seq<Query>)
    requires Inv(order, s) && Enabled(order, s, Run(t, q)) && CacheIs(hash, s, k, qs)
    ensures CacheIs(hash, AfterRun(hash, s, t, q), k, qs + if s.txs[t].key == k then [q] else [])
  {
    var l := s.txs[t].key;
    assert t in Held(order, s) && Held(order, s)[t] == l;
    var c := Execute(hash, Cache(s.managers[l], PreparedOn(s.pool, l)), q).0;
    PreparedKeeps(s.pool, l, c.prepared);
    assert AfterRun(hash, s, t, q).pool == WithPrepared(s.pool, l, c.prepared);
    if l == k {
      assert (qs + [q])[..|qs|] == qs;
    } else {
      assert qs + [] == qs;
    }
  }

  lemma CacheStep(order: Order, hash: string -> nat, s: Server, step: Step, k: Key, qs: seq<Query>)
    requires Inv(order, s) && Enabled(order, s, step) && CacheIs(hash, s, k, qs)
    ensures CacheIs(hash, Apply(order, hash, s, step), k, qs + if RunsOn(s, step, k) then [step.query] else [])
  {
    assert qs + [] == qs;
    match step
    case Run(t, q) => CacheRun(order, hash, s, t, q, k, qs);
    case Connect(callback, made) => CacheConnect(order, hash, s, callback, made, k, qs);
    case _ => StepKeepsDrivers(order, hash, s, step);
  }

  lemma {:induction false} CacheIsReplay(order: Order, hash: string -> nat, steps: seq<Step>, k: Key)
    requires Legal(order, hash, steps)
    ensures CacheIs(hash, Exec(order, hash, steps), k, QueriesOn(order, hash, steps, k))
  {
    if steps != [] {
      var front, step := steps[..|steps| - 1], steps[|steps| - 1];
      CacheIsReplay(order, hash, front, k);
      ReachableLeases(order, hash, front);
      CacheStep(order, hash, Exec(order, hash, front), step, k, QueriesOn(order, hash, front, k));
    }
  }

  /** In every reachable state, what the manager of a pooled connection knows and what its session has prepared are what
      replaying its queries from nothing gives, whatever leases, returns, Runs, cleanups and Shutdowns came in
      between. */
  lemma CacheSurvivesLeases(order: Order, hash: string -> nat, steps: seq<Step>, k: Key)
    requires Legal(order, hash, steps) && HasSession(Exec(order, hash, steps).pool, k)
    ensures var s := Exec(order, hash, steps);
            && k in s.managers
            && Cache(s.managers[k], s.pool.stored[k].conn.driver.prepared) ==
               Replay(hash, QueriesOn(order, hash, steps, k))
  {
    CacheIsReplay(order, hash, steps, k);
  }

  ghost predicate ConnectsOpen(steps: seq<Step>) {
    forall i :: 0 <= i < |steps| && steps[i].Connect? ==> AllOpen(steps[i].made)
  }

  ghost predicate AllSessions(p: Pool) {
    forall k :: k in p.stored && p.stored[k].Live? ==> HasSession(p, k)
  }

  lemma AllSessionsStep(order: Order, hash: string -> nat, s: Server, step: Step)
    requires Inv(order, s) && Enabled(order, s, step) && AllSessions(s.pool)
    requires step.Connect? ==> AllOpen(step.made)
    ensures AllSessions(Apply(order, hash, s, step).pool)
  {
    match step
    case Run(t, q) =>
      if s.txs[t].key in s.managers {
        var k := s.txs[t].key;
        PreparedKeeps(s.pool, k, Execute(hash, Cache(s.managers[k], PreparedOn(s.pool, k)), q).0.prepared);
      }
    case Connect(callback, made) =>
      AddAllExtends(s.pool.(running := true), made);
      AddedDrivers(s.pool.(running := true), made);
    case _ => StepKeepsDrivers(order, hash, s, step);
  }

  lemma SessionsAreDefined(order: Order, hash: string -> nat, s: Server, step: Step)
    requires Inv(order, s) && Enabled(order, s, step) && AllSessions(s.pool)
    ensures Apply(order, hash, s, step).fault != NullDriverUsed
  {
    if step.Begin? && s.pool.queue != [] { assert s.pool.queue[0] in s.pool.queue; }
  }

  /** If every Open succeeds, every connection the pool stores has an open session in every reachable state, queued and
      leased ones among them, and no null driver is ever dereferenced. */
  lemma {:induction false} EverySessionOpen(order: Order, hash: string -> nat, steps: seq<Step>)
    requires Legal(order, hash, steps) && ConnectsOpen(steps)
    ensures AllSessions(Exec(order, hash, steps).pool) && Exec(order, hash, steps).fault != NullDriverUsed
    ensures forall k :: k in Exec(order, hash, steps).pool.queue || k in Exec(order, hash, steps).pool.leased ==>
              HasSession(Exec(order, hash, steps).pool, k)
  {
    ReachableLeases(order, hash, steps);
    if steps != [] {
      var front, step := steps[..|steps| - 1], steps[|steps| - 1];
      assert steps[|steps| - 1] == step;
      assert ConnectsOpen(front) by {
        forall i | 0 <= i < |front| && front[i].Connect? ensures AllOpen(front[i].made) { assert steps[i] == front[i]; }
      }
      EverySessionOpen(order, hash, front);
      ReachableLeases(order, hash, front);
      AllSessionsStep(order, hash, Exec(order, hash, front), step);
      SessionsAreDefined(order, hash, Exec(order, hash, front), step);
    }
  }

  /** A transaction that can execute has its lease, an open session, and a manager, whatever Opens failed. */
  lemma LiveTxHasSession(order: Order, hash: string -> nat, steps: seq<Step>, t: TxId, q: Query)
    requires Legal(order, hash, steps) && Enabled(order, Exec(order, hash, steps), Run(t, q))
    ensures var s := Exec(order, hash, steps);
            s.txs[t].key in s.pool.leased && HasSession(s.pool, s.txs[t].key) && s.txs[t].key in s.managers
  {
    ReachableLeases(order, hash, steps);
    var s := Exec(order, hash, steps);
    assert t in Held(order, s) && Held(order, s)[t] == s.txs[t].key;
    HeldIsLeased(order, s, t);
  }

  /** A Begin in a supported mode, on a running pool, with a connection at the front that was never opened. */
  predicate Dereferences(s: Server, step: Step) {
    step.Begin? && !step.mode.OtherMode? && s.pool.running && s.pool.queue != [] && Unopened(s.pool, s.pool.queue[0])
  }

  lemma DereferenceStep(order: Order, hash: string -> nat, s: Server, step: Step)
    requires s.fault == Sound
    ensures Apply(order, hash, s, step).fault == NullDriverUsed <==> Dereferences(s, step)
  {
  }

  predicate DereferencesAt(order: Order, hash: string -> nat, steps: seq<Step>, i: nat)
    requires i < |steps|
  {
    Dereferences(Exec(order, hash, steps[..i]), steps[i])
  }

  ghost predicate SomeDereference(order: Order, hash: string -> nat, steps: seq<Step>) {
    exists i :: 0 <= i < |steps| && DereferencesAt(order, hash, steps, i)
  }

  lemma SomeDereferenceNext(order: Order, hash: string -> nat, steps: seq<Step>)
    requires steps != []
    ensures var (front, step) := (steps[..|steps| - 1], steps[|steps| - 1]);
            SomeDereference(order, hash, steps) <==>
            SomeDereference(order, hash, front) || Dereferences(Exec(order, hash, front), step)
  {
    var front := steps[..|steps| - 1];
    forall i | 0 <= i < |front|
      ensures DereferencesAt(order, hash, steps, i) <==> DereferencesAt(order, hash, front, i)
    {
      assert front[..i] == steps[..i];
    }
    assert steps[..|front|] == front;
    assert DereferencesAt(order, hash, steps, |front|) <==> Dereferences(Exec(order, hash, front), steps[|front|]);
  }

  /** A run dereferences a null driver exactly if it has such a step. */
  lemma {:induction false} NullDereferencedExactly(order: Order, hash: string -> nat, steps: seq<Step>)
    requires Legal(order, hash, steps)
    ensures Exec(order, hash, steps).fault == NullDriverUsed <==> SomeDereference(order, hash, steps)
  {
    if steps != [] {
      var front, step := steps[..|steps| - 1], steps[|steps| - 1];
      NullDereferencedExactly(order, hash, front);
      SomeDereferenceNext(order, hash, steps);
      DereferenceStep(order, hash, Exec(order, hash, front), step);
    }
  }

  const FAILED_OPEN := Creation(7, Primary, 300, 0, false)

  lemma FailedOpenQueued(order: Order, hash: string -> nat)
    ensures Legal(order, hash, [Connect(true, [FAILED_OPEN])])
    ensures Exec(order, hash, [Connect(true, [FAILED_OPEN])]) ==
            Server(Pool(map[7 := Live(NewConn(FAILED_OPEN, NoDriver))], {}, [7], true), map[], {}, map[7 := map[]],
                   Sound)
  {
    var p := INITIAL.(running := true);
    assert AddAll(p, [FAILED_OPEN]) == (Add(p, FAILED_OPEN), OpenFailed);
    assert [] + [Connect(true, [FAILED_OPEN])] == [Connect(true, [FAILED_OPEN])];
    Extend(order, hash, [], Connect(true, [FAILED_OPEN]));
  }

  /** As written: a connection whose Open failed stays queued, and the next Begin dereferences its null driver. */
  lemma FailedOpenIsDereferenced(order: Order, hash: string -> nat)
    ensures Legal(order, hash, [Connect(true, [FAILED_OPEN]), Begin(1, ReadWrite, true, 0)])
    ensures Exec(order, hash, [Connect(true, [FAILED_OPEN]), Begin(1, ReadWrite, true, 0)]).fault == NullDriverUsed
  {
    var connect, begin := [Connect(true, [FAILED_OPEN])], Begin(1, ReadWrite, true, 0);
    FailedOpenQueued(order, hash);
    assert connect + [begin] == [connect[0], begin];
    Extend(order, hash, connect, begin);
  }

  /** For a live transaction in any reachable state: if the hash tells the queries of its connection apart and none of
      their prepares fails, Execute sends the server what ExecuteNonPrepared would, and the manager and the session in
      the pool agree. */
  lemma ExecuteRefinesDirect(order: Order, hash: string -> nat, steps: seq<Step>, t: TxId, q: Query)
    requires Legal(order, hash, steps) && Enabled(order, Exec(order, hash, steps), Run(t, q))
    requires !Blank(q.text)
    requires var qs := QueriesOn(order, hash, steps, Exec(order, hash, steps).txs[t].key) + [q];
             InjectiveOn(hash, qs) && AllPrepare(qs)
    ensures var s := Exec(order, hash, steps);
            var k := s.txs[t].key;
            && k in s.managers
            && RunOn(hash, s.pool, s.managers[k], k, q).2 == ExecuteNonPrepared(q)
            && Agree(Cache(s.managers[k], PreparedOn(s.pool, k)))
  {
    var s := Exec(order, hash, steps);
    var k := s.txs[t].key;
    var qs := QueriesOn(order, hash, steps, k);
    LiveTxHasSession(order, hash, steps, t, q);
    CacheSurvivesLeases(order, hash, steps, k);
    RefinesDirect(hash, qs, q);
    forall i | 0 <= i < |qs| ensures qs[i].ok { assert (qs + [q])[i] == qs[i]; }
    AgreeWhenAllPrepare(hash, qs);
  }
}
