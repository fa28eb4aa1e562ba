/** The runs of the server are runs of the pool protocol: what is proved there of leases, of the queue and of waiting
    holds of transactions. A Begin that finds nothing free enters, waits until its deadline and gives up, in the
    corrected form of the wait. */
module PoolRuns {
  import opened Decimal
  import opened PoolModel
  import opened PreparedStatements
  import opened Subsequences
  import S = PgServer
  import P = PoolProtocol

  // ----- Pools up to prepared statements ------------------------------------------------------

  function BareSlot(slot: Slot): Slot {
    if slot.Live? && slot.conn.driver.Session?
    then Live(slot.conn.(driver := Session(slot.conn.driver.open, map[])))
    else slot
  }

  function BareMap(stored: map<Key, Slot>): (r: map<Key, Slot>)
    ensures r.Keys == stored.Keys
  {
    map k | k in stored :: BareSlot(stored[k])
  }

  /** The pool with the statements its sessions have prepared left out. */
  function Bare(p: Pool): Pool {
    p.(stored := BareMap(p.stored))
  }

  lemma BareTake(p: Pool, now: int)
    requires p.queue != []
    ensures Bare(Take(p, now)) == Take(Bare(p), now)
  {
    assert BareMap(StampAcquired(p.stored, p.queue[0], now)) == StampAcquired(BareMap(p.stored), p.queue[0], now);
  }

  lemma BareGive(p: Pool, k: Key, now: int)
    ensures Bare(Give(p, k, now)) == Give(Bare(p), k, now)
  {
    assert BareMap(StampReturned(p.stored, k, now)) == StampReturned(BareMap(p.stored), k, now);
  }

  lemma BareAdd(p: Pool, c: Creation)
    ensures Bare(Add(p, c)) == Add(Bare(p), c)
  {
    var slot := Live(NewConn(c, if c.opens then OPENED else NoDriver));
    assert BareSlot(slot) == slot;
    assert BareMap(p.stored[c.key := slot]) == BareMap(p.stored)[c.key := slot];
  }

  lemma {:induction false} BareAddAll(p: Pool, made: seq<Creation>)
    ensures AddAll(Bare(p), made) == (Bare(AddAll(p, made).0), AddAll(p, made).1)
    ensures AddedKeys(Bare(p), made) == AddedKeys(p, made)
    decreases |made|
  {
    if made != [] && made[0].key !in p.stored {
      BareAdd(p, made[0]);
      if made[0].opens { BareAddAll(Add(p, made[0]), made[1..]); }
    }
  }

  lemma {:induction false} BareCloseAll(stored: map<Key, Slot>, order: seq<Key>, failing: set<Key>)
    ensures CloseAll(BareMap(stored), order, failing) ==
            (BareMap(CloseAll(stored, order, failing).0), CloseAll(stored, order, failing).1)
  {
    if order != [] && order[0] in stored && stored[order[0]].Live? {
      assert BareMap(stored[order[0] := Null]) == BareMap(stored)[order[0] := Null];
      BareCloseAll(stored[order[0] := Null], order[1..], failing);
    }
  }

  lemma BareHalt(p: Pool, order: seq<Key>, failing: set<Key>)
    ensures Halt(Bare(p), order, failing) == (Bare(Halt(p, order, failing).0), Halt(p, order, failing).1)
  {
    BareCloseAll(p.stored, order, failing);
    assert BareMap(map[]) == map[];
  }

  lemma {:induction false} BareReach(q: seq<Key>, stored: map<Key, Slot>, now: int, failing: set<Key>)
    ensures Reach(q, BareMap(stored), now, failing) == Reach(q, stored, now, failing)
  {
    if q != [] { BareReach(q[1..], stored, now, failing); }
  }

  lemma {:induction false} BareKept(q: seq<Key>, stored: map<Key, Slot>, now: int)
    ensures Kept(q, BareMap(stored), now) == Kept(q, stored, now)
  {
    if q != [] { BareKept(q[1..], stored, now); }
  }

  lemma BareSweep(p: Pool, now: int, failing: set<Key>)
    ensures Sweep(Bare(p), now, failing) == Bare(Sweep(p, now, failing))
  {
    var n := Reach(p.queue, p.stored, now, failing);
    BareReach(p.queue, p.stored, now, failing);
    BareKept(p.queue[..n], p.stored, now);
    assert Swept(BareMap(p.stored), p.queue[..n], now) == BareMap(Swept(p.stored, p.queue[..n], now));
  }

  lemma BarePrepared(p: Pool, k: Key, prepared: map<string, string>)
    ensures Bare(S.WithPrepared(p, k, prepared)) == Bare(p)
  {
    assert BareMap(S.WithPrepared(p, k, prepared).stored) == BareMap(p.stored);
  }

  // ----- The steps of the pool in a step of the server ----------------------------------------

  /** Nobody waits. */
  function Quiet(p: Pool, fault: Fault): P.Sys {
    P.Sys(Bare(p), {}, {}, {}, fault)
  }

  /** A null driver is dereferenced after the pool has done its part. */
  function PoolFault(fault: Fault): Fault {
    if fault == NullDriverUsed then Sound else fault
  }

  function Projected(s: S.Server, step: S.Step): seq<P.Step> {
    match step
    case Begin(t, _, _, now) =>
      if s.pool.running && s.pool.queue == [] then [P.Enter(t, now), P.Deadline(t), P.Late(t, now)]
      else [P.Enter(t, now)]
    case EndReturn(t, now) => if t in s.txs then [P.Return(s.txs[t].key, now, None)] else []
    case Connect(callback, made) => [P.Run(callback, made)]
    case Shutdown(visits, failing) => [P.Stop(visits, failing)]
    case Cleanup(now, failing) => [P.Cleanup(now, failing)]
    case _ => []
  }

  /** The connection that a Begin leases, whether a transaction comes of it or not. */
  function Leases(s: S.Server, step: S.Step): seq<Key> {
    if step.Begin? && s.pool.running && s.pool.queue != [] then [s.pool.queue[0]] else []
  }

  /** The connections that a destruction gives back or a Connect adds. */
  function Frees(s: S.Server, step: S.Step): seq<Key> {
    match step
    case EndReturn(t, _) => if t in s.txs && s.txs[t].key in s.pool.leased then [s.txs[t].key] else []
    case Connect(callback, made) => if callback then AddedKeys(s.pool.(running := true), made) else []
    case _ => []
  }

  /** The steps `steps` lead from `sys` to `sys'`, granting `granted` and pushing `pushed`. */
  ghost predicate Leads(sys: P.Sys, steps: seq<P.Step>, sys': P.Sys, granted: seq<Key>, pushed: seq<Key>) {
    && P.Legal(P.Corrected, sys, steps) && P.Exec(P.Corrected, sys, steps) == sys'
    && P.Granted(P.Corrected, sys, steps) == granted && P.Pushed(P.Corrected, sys, steps) == pushed
  }

  lemma LeadsNowhere(sys: P.Sys)
    ensures Leads(sys, [], sys, [], [])
  {
  }

  lemma LeadsOne(sys: P.Sys, step: P.Step)
    requires P.Enabled(sys, step)
    ensures Leads(sys, [step], P.Apply(P.Corrected, sys, step), P.Grants(P.Corrected, sys, step), P.Pushes(sys, step))
  {
    var steps := [step];
    assert steps[..0] == [] && [] + P.Grants(P.Corrected, sys, step) == P.Grants(P.Corrected, sys, step);
    assert [] + P.Pushes(sys, step) == P.Pushes(sys, step);
  }

  lemma {:induction false} LeadsOn(sys: P.Sys, a: seq<P.Step>, sys': P.Sys, g: seq<Key>, p: seq<Key>,
                                   b: seq<P.Step>, sys'': P.Sys, g': seq<Key>, p': seq<Key>)
    requires Leads(sys, a, sys', g, p) && Leads(sys', b, sys'', g', p')
    ensures Leads(sys, a + b, sys'', g + g', p + p')
    decreases |b|
  {
    if b == [] {
      assert a + b == a && g + [] == g && p + [] == p;
    } else {
      var front, last := b[..|b| - 1], b[|b| - 1];
      var m := P.Exec(P.Corrected, sys', front);
      var gf, pf := P.Granted(P.Corrected, sys', front), P.Pushed(P.Corrected, sys', front);
      LeadsOn(sys, a, sys', g, p, front, m, gf, pf);
      assert (a + b)[..|a + b| - 1] == a + front && (a + b)[|a + b| - 1] == last;
      Regroup(g, gf, P.Grants(P.Corrected, m, last));
      Regroup(p, pf, P.Pushes(m, last));
    }
  }

  lemma WaitsInVain(p: Pool, t: S.TxId, now: int)
    requires p.running && p.queue == []
    ensures Leads(Quiet(p, Sound), [P.Enter(t, now), P.Deadline(t), P.Late(t, now)], Quiet(p, Sound), [], [])
  {
    var sys := Quiet(p, Sound);
    var waiting, late := sys.(blocked := {t}), sys.(expired := {t});
    LeadsOne(sys, P.Enter(t, now));
    LeadsOne(waiting, P.Deadline(t));
    LeadsOne(late, P.Late(t, now));
    assert P.Apply(P.Corrected, sys, P.Enter(t, now)) == waiting;
    assert P.Apply(P.Corrected, waiting, P.Deadline(t)) == late;
    assert P.Apply(P.Corrected, late, P.Late(t, now)) == sys;
    LeadsOn(sys, [P.Enter(t, now)], waiting, [], [], [P.Deadline(t)], late, [], []);
    LeadsOn(sys, [P.Enter(t, now)] + [P.Deadline(t)], late, [] + [], [] + [], [P.Late(t, now)], sys, [], []);
    assert ([P.Enter(t, now)] + [P.Deadline(t)]) + [P.Late(t, now)] == [P.Enter(t, now), P.Deadline(t), P.Late(t, now)];
  }

  lemma BeginProjects(s: S.Server, t: S.TxId, mode: S.TxMode, innerOpens: bool, now: int)
    requires s.fault == Sound
    ensures var s', step := S.AfterBegin(s, t, mode, innerOpens, now), S.Begin(t, mode, innerOpens, now);
            Leads(Quiet(s.pool, Sound), Projected(s, step), Quiet(s'.pool, PoolFault(s'.fault)), Leases(s, step), [])
  {
    if s.pool.running && s.pool.queue == [] {
      WaitsInVain(s.pool, t, now);
    } else {
      LeadsOne(Quiet(s.pool, Sound), P.Enter(t, now));
      if s.pool.queue != [] { BareTake(s.pool, now); }
    }
  }

  lemma StepProjects(order: S.Order, hash: string -> nat, s: S.Server, step: S.Step)
    requires S.Enabled(order, s, step)
    ensures var s' := S.Apply(order, hash, s, step);
            Leads(Quiet(s.pool, Sound), Projected(s, step), Quiet(s'.pool, PoolFault(s'.fault)),
                  Leases(s, step), Frees(s, step))
  {
    var sys := Quiet(s.pool, Sound);
    match step
    case Begin(t, mode, innerOpens, now) => BeginProjects(s, t, mode, innerOpens, now);
    case EndReturn(t, now) =>
      BareGive(s.pool, s.txs[t].key, now);
      LeadsOne(sys, P.Return(s.txs[t].key, now, None));
    case Connect(callback, made) => ConnectProjects(s, callback, made);
    case Shutdown(visits, failing) =>
      BareHalt(s.pool, visits, failing);
      LeadsOne(sys, P.Stop(visits, failing));
    case Cleanup(now, failing) =>
      BareSweep(s.pool, now, failing);
      LeadsOne(sys, P.Cleanup(now, failing));
    case Run(t, q) =>
      RunIsBare(hash, s, t, q);
      LeadsNowhere(sys);
    case _ => LeadsNowhere(sys);
  }

  lemma RunIsBare(hash: string -> nat, s: S.Server, t: S.TxId, q: Query)
    ensures Bare(S.AfterRun(hash, s, t, q).pool) == Bare(s.pool)
  {
    if t in s.txs && s.txs[t].key in s.managers {
      var k := s.txs[t].key;
      var c := Execute(hash, Cache(s.managers[k], S.PreparedOn(s.pool, k)), q).0;
      BarePrepared(s.pool, k, c.prepared);
    }
  }

  lemma ConnectProjects(s: S.Server, callback: bool, made: seq<Creation>)
    requires s.fault == Sound
    ensures var s', step := S.AfterConnect(s, callback, made), S.Connect(callback, made);
            Leads(Quiet(s.pool, Sound), Projected(s, step), Quiet(s'.pool, Sound), [], Frees(s, step))
  {
    BareAddAll(s.pool.(running := true), made);
    LeadsOne(Quiet(s.pool, Sound), P.Run(callback, made));
  }

  // ----- Runs ---------------------------------------------------------------------------------

  function Project(order: S.Order, hash: string -> nat, steps: seq<S.Step>): seq<P.Step> {
    if steps == [] then []
    else
      var front := steps[..|steps| - 1];
      Project(order, hash, front) + Projected(S.Exec(order, hash, front), steps[|steps| - 1])
  }

  /** The leases a run takes, in order. */
  function Leased(order: S.Order, hash: string -> nat, steps: seq<S.Step>): seq<Key> {
    if steps == [] then []
    else
      var front := steps[..|steps| - 1];
      Leased(order, hash, front) + Leases(S.Exec(order, hash, front), steps[|steps| - 1])
  }

  /** The connections a run frees, in order. */
  function Freed(order: S.Order, hash: string -> nat, steps: seq<S.Step>): seq<Key> {
    if steps == [] then []
    else
      var front := steps[..|steps| - 1];
      Freed(order, hash, front) + Frees(S.Exec(order, hash, front), steps[|steps| - 1])
  }

  /** Every run of the server is a run of the pool protocol, with the same pool and the same leases and returns. */
  lemma {:induction false} ServerRunsArePoolRuns(order: S.Order, hash: string -> nat, steps: seq<S.Step>)
    requires S.Legal(order, hash, steps)
    ensures var s := S.Exec(order, hash, steps);
            Leads(P.START, Project(order, hash, steps), Quiet(s.pool, PoolFault(s.fault)),
                  Leased(order, hash, steps), Freed(order, hash, steps))
  {
    if steps == [] {
      assert BareMap(map[]) == map[];
      LeadsNowhere(P.START);
    } else {
      var front, step := steps[..|steps| - 1], steps[|steps| - 1];
      var m, s := S.Exec(order, hash, front), S.Exec(order, hash, steps);
      ServerRunsArePoolRuns(order, hash, front);
      StepProjects(order, hash, m, step);
      LeadsOn(P.START, Project(order, hash, front), Quiet(m.pool, Sound),
              Leased(order, hash, front), Freed(order, hash, front),
              Projected(m, step), Quiet(s.pool, PoolFault(s.fault)), Leases(m, step), Frees(m, step));
    }
  }

  // ----- What carries over --------------------------------------------------------------------

  /** Only Primary connections are created and no close raises. */
  ghost predicate Plain(step: S.Step) {
    match step
    case Connect(_, made) => NoStandbyMade(made)
    case Shutdown(_, failing) => failing == {}
    case _ => true
  }

  lemma {:induction false} ProjectIsPlain(order: S.Order, hash: string -> nat, steps: seq<S.Step>)
    requires forall i :: 0 <= i < |steps| ==> Plain(steps[i])
    ensures P.AllPlain(Project(order, hash, steps))
    ensures (forall i :: 0 <= i < |steps| ==> !steps[i].Shutdown?) ==>
              forall i :: 0 <= i < |Project(order, hash, steps)| ==> !Project(order, hash, steps)[i].Stop?
  {
    if steps != [] {
      assert Plain(steps[|steps| - 1]);
      ProjectIsPlain(order, hash, steps[..|steps| - 1]);
    }
  }

  /** First in, first out, for transactions: over any run without a Shutdown, the connections that Begins leased,
      followed by those still free, are the connections that Connects added and destructors gave back, in order. */
  lemma TransactionsAreFifo(order: S.Order, hash: string -> nat, steps: seq<S.Step>)
    requires S.Legal(order, hash, steps)
    requires forall i :: 0 <= i < |steps| ==> Plain(steps[i]) && !steps[i].Shutdown?
    ensures Leased(order, hash, steps) + S.Exec(order, hash, steps).pool.queue == Freed(order, hash, steps)
  {
    ServerRunsArePoolRuns(order, hash, steps);
    ProjectIsPlain(order, hash, steps);
    P.Fifo(P.Corrected, P.START, Project(order, hash, steps));
    assert [] + Freed(order, hash, steps) == Freed(order, hash, steps);
  }

  lemma ExhaustedExactly(order: S.Order, s: S.Server, mode: S.TxMode, innerOpens: bool)
    requires s.pool.running && S.Leases(order, s) && Partition(Bare(s.pool)) && NoNull(Bare(s.pool))
    ensures S.BeginOn(s, mode, innerOpens).NoConnection? <==>
            s.pool.stored.Keys == S.Held(order, s).Values + s.leaked
  {
    StoredIsLive(s.pool);
    Conservation(Bare(s.pool));
    assert S.BeginOn(s, mode, innerOpens).NoConnection? <==> s.pool.queue == [];
  }

  /** A Begin in a running pool gets no connection exactly when every stored connection is held by a live transaction or
      has been lost by a Begin that failed. */
  lemma BeginFailsExactlyAtExhaustion(order: S.Order, hash: string -> nat, steps: seq<S.Step>, mode: S.TxMode,
                                      innerOpens: bool)
    requires S.Legal(order, hash, steps) && S.Exec(order, hash, steps).pool.running
    requires forall i :: 0 <= i < |steps| ==> Plain(steps[i])
    ensures var s := S.Exec(order, hash, steps);
            S.BeginOn(s, mode, innerOpens).NoConnection? <==>
            s.pool.stored.Keys == S.Held(order, s).Values + s.leaked
  {
    ServerRunsArePoolRuns(order, hash, steps);
    ProjectIsPlain(order, hash, steps);
    P.ReachablePartition(P.Corrected, Project(order, hash, steps));
    S.ReachableLeases(order, hash, steps);
    ExhaustedExactly(order, S.Exec(order, hash, steps), mode, innerOpens);
  }

  lemma StoredIsLive(p: Pool)
    requires NoNull(Bare(p))
    ensures LiveKeys(Bare(p)) == p.stored.Keys
  {
    forall k | k in p.stored ensures Bare(p).stored[k].Live? {
      assert k in Bare(p).stored;
    }
  }
}
