/** Any number of threads calling the pool. Every critical section under the pool's mutex is one step; the wait in
    `Acquire` releases the mutex, so it is split into entering, being signalled or passing the deadline, and
    resuming. A step carries every choice the environment makes: which waiter a signal wakes, the clock, the
    connections the callback creates, the order in which a hash map is visited. */
module PoolProtocol {
  import opened Decimal
  import opened PoolModel
  import opened Subsequences

  /** One running call of `Acquire`. */
  type Call = nat

  /** `AsWritten` follows lines 101 to 121 of `connection_pool.cc`: the wait is entered once, and its result, which is
      true when the deadline passed, is negated, so that a signalled call gives up and an expired one goes on to take
      the front of the queue. `Corrected` waits in a loop and gives up on expiry. */
  datatype Policy = AsWritten | Corrected

  datatype Sys = Sys(pool: Pool, blocked: set<Call>, signalled: set<Call>, expired: set<Call>, fault: Fault)

  datatype Step =
    | Enter(call: Call, now: int)     // a call takes the mutex for the first time
    | Deadline(call: Call)            // the deadline of a blocked call passes
    | Spurious(call: Call)            // a blocked call wakes without a signal
    | Wake(call: Call, now: int)      // a woken call has the mutex again
    | Late(call: Call, now: int)      // an expired call has the mutex again
    | Return(key: Key, now: int, woken: Option<Call>)
    | Ping
    | Cleanup(now: int, failing: set<Key>)
    | Run(callback: bool, made: seq<Creation>)
    | Stop(order: seq<Key>, failing: set<Key>)

  datatype Reply = Waits | Nothing | Leased(key: Key) | EmptyFront

  const START := Sys(INITIAL, {}, {}, {}, Sound)

  /** From line 117 of `connection_pool.cc` on: the call no longer waits. */
  function Finish(p: Pool): Reply {
    if !p.running then Nothing
    else if p.queue == [] then EmptyFront
    else Leased(p.queue[0])
  }

  /** Lines 99 to 111 of `connection_pool.cc`: wait only if the pool runs and nothing is free. */
  function Entering(p: Pool): Reply {
    if p.running && p.queue == [] then Waits else Finish(p)
  }

  /** Lines 111 to 127 of `connection_pool.cc`, once the mutex is held again. */
  function Resuming(policy: Policy, p: Pool, deadlinePassed: bool): Reply {
    match policy
    case AsWritten => if deadlinePassed then Finish(p) else Nothing
    case Corrected => if deadlinePassed then Nothing else Entering(p)
  }

  /** What a step of a call of `Acquire` does. */
  function Answer(policy: Policy, s: Sys, step: Step): Reply {
    match step
    case Enter(_, _) => Entering(s.pool)
    case Wake(_, _) => Resuming(policy, s.pool, false)
    case Late(_, _) => Resuming(policy, s.pool, true)
    case _ => Nothing
  }

  function Settle(s: Sys, call: Call, reply: Reply, now: int): Sys {
    var s' := s.(signalled := s.signalled - {call}, expired := s.expired - {call});
    match reply
    case Waits => s'.(blocked := s.blocked + {call})
    case Nothing => s'
    case Leased(_) => if s.pool.queue == [] then s' else s'.(pool := Take(s.pool, now))
    case EmptyFront => s'.(fault := EmptyFrontRead)
  }

  function SignalAll(s: Sys): Sys {
    s.(blocked := {}, signalled := s.signalled + s.blocked)
  }

  ghost predicate Enabled(s: Sys, step: Step) {
    && s.fault == Sound
    && match step
       case Enter(c, _) => c !in s.blocked && c !in s.signalled && c !in s.expired
       case Deadline(c) => c in s.blocked
       case Spurious(c) => c in s.blocked
       case Wake(c, _) => c in s.signalled
       case Late(c, _) => c in s.expired
       case Return(k, _, woken) =>
         if k in s.pool.leased && s.blocked != {} then woken.Some? && woken.value in s.blocked else woken == None
       case Stop(order, _) => Visits(order, s.pool.stored.Keys)
       case _ => true
  }

  function Apply(policy: Policy, s: Sys, step: Step): Sys {
    match step
    case Enter(c, now) => Settle(s, c, Answer(policy, s, step), now)
    case Wake(c, now) => Settle(s, c, Answer(policy, s, step), now)
    case Late(c, now) => Settle(s, c, Answer(policy, s, step), now)
    case Deadline(c) => s.(blocked := s.blocked - {c}, expired := s.expired + {c})
    case Spurious(c) => s.(blocked := s.blocked - {c}, signalled := s.signalled + {c})
    case Return(k, now, woken) =>
      var s' := s.(pool := Give(s.pool, k, now));
      if woken == None then s'
      else s'.(blocked := s.blocked - {woken.value}, signalled := s.signalled + {woken.value})
    case Ping => if s.pool.running then SignalAll(s) else s
    case Cleanup(now, failing) => s.(pool := Sweep(s.pool, now, failing))
    case Run(callback, made) =>
      var (pool, outcome) := Start(s.pool, callback, made);
      if outcome == Ready then SignalAll(s).(pool := pool) else s.(pool := pool)
    case Stop(order, failing) =>
      var (pool, outcome) := Halt(s.pool, order, failing);
      s.(pool := pool, fault := if outcome.NullEntry? then NullEntryClosed else s.fault)
  }

  // ----- Runs ---------------------------------------------------------------------------------

  function Exec(policy: Policy, s: Sys, steps: seq<Step>): Sys {
    if steps == [] then s
    else Apply(policy, Exec(policy, s, steps[..|steps| - 1]), steps[|steps| - 1])
  }

  ghost predicate Legal(policy: Policy, s: Sys, steps: seq<Step>) {
    steps == [] ||
    var front := steps[..|steps| - 1];
    Legal(policy, s, front) && Enabled(Exec(policy, s, front), steps[|steps| - 1])
  }

  /** The state after the first `i` steps. */
  function At(policy: Policy, s: Sys, steps: seq<Step>, i: nat): Sys
    requires i <= |steps|
  {
    Exec(policy, s, steps[..i])
  }

  // ----- What every step does -----------------------------------------------------------------

  /** A step that ends the wait of a blocked call: its own deadline or spurious wake-up, an accepted Return whose signal
      it gets, a ping of a running pool, or a Run that completes. */
  ghost predicate EndsWait(s: Sys, step: Step, c: Call) {
    match step
    case Deadline(d) => d == c
    case Spurious(d) => d == c
    case Return(k, _, woken) => k in s.pool.leased && woken == Some(c)
    case Ping => s.pool.running
    case Run(callback, made) => callback && FreshKeys(s.pool, made) && AllOpen(made)
    case _ => false
  }

  lemma RunCompletesExactly(p: Pool, callback: bool, made: seq<Creation>)
    ensures Start(p, callback, made).1 == Ready <==> callback && FreshKeys(p, made) && AllOpen(made)
  {
    RunSucceedsExactly(p.(running := true), made);
  }

  /** A blocked call stays blocked exactly until one of those steps. Its deadline makes it expired, any other makes it
      signalled, and all of them are woken by a ping. */
  lemma UnblockedExactly(policy: Policy, s: Sys, step: Step, c: Call)
    requires Inv(s) && Enabled(s, step) && c in s.blocked
    ensures var s' := Apply(policy, s, step);
            && (c !in s'.blocked <==> EndsWait(s, step, c))
            && (c in s'.expired <==> step.Deadline? && step.call == c)
            && (c in s'.signalled <==> EndsWait(s, step, c) && !step.Deadline?)
  {
    if step.Run? { RunCompletesExactly(s.pool, step.callback, step.made); }
  }

  /** A call that is not blocked becomes so exactly by entering an exhausted running pool, or, in the corrected form, by
      waking in one. It stays signalled until it wakes, and expired until it resumes. */
  lemma AwakeExactly(policy: Policy, s: Sys, step: Step, c: Call)
    requires Inv(s) && Enabled(s, step) && c !in s.blocked
    ensures var s' := Apply(policy, s, step);
            && (c in s'.blocked <==>
                  && (step.Enter? || (step.Wake? && policy == Corrected)) && step.call == c
                  && s.pool.running && s.pool.queue == [])
            && (c in s'.signalled <==> c in s.signalled && !(step.Wake? && step.call == c))
            && (c in s'.expired <==> c in s.expired && !(step.Late? && step.call == c))
  {
  }

  /** A call takes the front of the queue of a running pool when it enters, when it wakes in the corrected form, and
      when its deadline has passed as written; otherwise its step leaves the pool alone. */
  lemma LeasesExactly(policy: Policy, s: Sys, step: Step)
    requires Inv(s) && Enabled(s, step) && (step.Enter? || step.Wake? || step.Late?)
    ensures var s', gets := Apply(policy, s, step),
              && s.pool.running && s.pool.queue != []
              && (step.Enter? || (step.Wake? && policy == Corrected) || (step.Late? && policy == AsWritten));
            && s'.pool == (if gets then Take(s.pool, step.now) else s.pool)
            && Grants(policy, s, step) == (if gets then [s.pool.queue[0]] else [])
  {
  }

  /** The other steps do to the pool what the operation of their name does. */
  lemma PoolStepsExactly(policy: Policy, s: Sys, step: Step)
    requires Enabled(s, step) && !step.Enter? && !step.Wake? && !step.Late?
    ensures var p := Apply(policy, s, step).pool;
            match step
            case Return(k, now, _) => p == Give(s.pool, k, now)
            case Cleanup(now, failing) => p == Sweep(s.pool, now, failing)
            case Run(callback, made) => p == Start(s.pool, callback, made).0
            case Stop(order, failing) => p == Halt(s.pool, order, failing).0
            case _ => p == s.pool
  {
  }

  /** Nothing keeps a caller out: any call that is not inside may enter, any key may come back at any time, waking one
      of the blocked calls if it is accepted, and the rest may happen whenever it makes sense. */
  lemma NothingIsForbidden(s: Sys, c: Call, k: Key, now: int, made: seq<Creation>, order: seq<Key>, failing: set<Key>)
    requires s.fault == Sound
    ensures Enabled(s, Enter(c, now)) <==> c !in s.blocked + s.signalled + s.expired
    ensures Enabled(s, Wake(c, now)) <==> c in s.signalled
    ensures Enabled(s, Late(c, now)) <==> c in s.expired
    ensures c in s.blocked ==> Enabled(s, Deadline(c)) && Enabled(s, Spurious(c))
    ensures c in s.blocked && k in s.pool.leased ==> Enabled(s, Return(k, now, Some(c)))
    ensures s.blocked == {} || k !in s.pool.leased ==> Enabled(s, Return(k, now, None))
    ensures Enabled(s, Ping) && Enabled(s, Cleanup(now, failing)) && Enabled(s, Run(true, made))
    ensures Visits(order, s.pool.stored.Keys) ==> Enabled(s, Stop(order, failing))
  {
  }

  // ----- What every step keeps ----------------------------------------------------------------

  ghost predicate Inv(s: Sys) {
    Owned(s.pool) && s.blocked !! s.signalled && s.blocked !! s.expired && s.signalled !! s.expired
  }

  ghost predicate Aborts(s: Sys, step: Step) {
    || (step.Stop? && Halt(s.pool, step.order, step.failing).1 !in {Stopped, NotRunning})
    || (step.Cleanup? && Interrupted(s.pool, step.now, step.failing))
  }

  lemma StepKeeps(policy: Policy, s: Sys, step: Step)
    requires Inv(s) && Enabled(s, step)
    ensures Inv(Apply(policy, s, step))
    ensures Partition(s.pool) && !Aborts(s, step) ==> Partition(Apply(policy, s, step).pool)
  {
    match step
    case Return(k, now, woken) => GiveKeeps(s.pool, k, now);
    case Cleanup(now, failing) => SweepKeeps(s.pool, now, failing);
    case Run(callback, made) => AddAllKeeps(s.pool.(running := true), made);
    case Stop(order, failing) => HaltKeeps(s.pool, order, failing);
    case Enter(_, now) => if s.pool.queue != [] { TakeKeeps(s.pool, now); }
    case Wake(_, now) => if s.pool.queue != [] { TakeKeeps(s.pool, now); }
    case Late(_, now) => if s.pool.queue != [] { TakeKeeps(s.pool, now); }
    case _ =>
  }

  /** The steps of the program as shipped: only Primary connections are created and no close raises. */
  ghost predicate Plain(step: Step) {
    match step
    case Run(_, made) => NoStandbyMade(made)
    case Stop(_, failing) => failing == {}
    case _ => true
  }

  ghost predicate AllPlain(steps: seq<Step>) {
    forall i :: 0 <= i < |steps| ==> Plain(steps[i])
  }

  lemma PlainStepKeeps(policy: Policy, s: Sys, step: Step)
    requires Inv(s) && Enabled(s, step) && Plain(step) && NoNull(s.pool) && NoStandby(s.pool)
    ensures NoNull(Apply(policy, s, step).pool) && NoStandby(Apply(policy, s, step).pool)
    ensures !Aborts(s, step)
  {
    match step
    case Return(k, now, woken) => GiveKeeps(s.pool, k, now);
    case Cleanup(now, failing) => SweepKeeps(s.pool, now, failing);
    case Run(callback, made) => AddAllKeeps(s.pool.(running := true), made);
    case Stop(order, failing) =>
      HaltKeeps(s.pool, order, failing);
      if s.pool.running { StopCompletesExactly(s.pool, order, failing); }
    case Enter(_, now) => if s.pool.queue != [] { TakeKeeps(s.pool, now); }
    case Wake(_, now) => if s.pool.queue != [] { TakeKeeps(s.pool, now); }
    case Late(_, now) => if s.pool.queue != [] { TakeKeeps(s.pool, now); }
    case _ =>
  }

  lemma {:induction false} RunKeeps(policy: Policy, s: Sys, steps: seq<Step>)
    requires Inv(s) && Legal(policy, s, steps)
    ensures Inv(Exec(policy, s, steps))
  {
    if steps != [] {
      var front := steps[..|steps| - 1];
      RunKeeps(policy, s, front);
      StepKeeps(policy, Exec(policy, s, front), steps[|steps| - 1]);
    }
  }

  /** Lease partition: whatever the threads do, the queue and the lease map hold each stored connection exactly once,
      and no stored entry is ever null, so that a Stop always completes. */
  lemma {:induction false} ReachablePartition(policy: Policy, steps: seq<Step>)
    requires Legal(policy, START, steps) && AllPlain(steps)
    ensures Inv(Exec(policy, START, steps)) && Partition(Exec(policy, START, steps).pool)
    ensures NoNull(Exec(policy, START, steps).pool) && NoStandby(Exec(policy, START, steps).pool)
    ensures Exec(policy, START, steps).fault != NullEntryClosed
    ensures forall step :: Enabled(Exec(policy, START, steps), step) && Plain(step) ==>
              !Aborts(Exec(policy, START, steps), step)
  {
    if steps != [] {
      var front := steps[..|steps| - 1];
      assert AllPlain(front);
      ReachablePartition(policy, front);
      StepKeeps(policy, Exec(policy, START, front), steps[|steps| - 1]);
      PlainStepKeeps(policy, Exec(policy, START, front), steps[|steps| - 1]);
    }
    var s := Exec(policy, START, steps);
    forall step | Enabled(s, step) && Plain(step) ensures !Aborts(s, step) {
      PlainStepKeeps(policy, s, step);
    }
  }

  /** A call that enters waits exactly when the pool runs and every stored connection is leased; otherwise, in a running
      pool, it gets at once a connection that is stored and that nobody holds. */
  lemma WaitsOnlyAtExhaustion(p: Pool)
    requires Partition(p)
    ensures Entering(p) == Waits <==> p.running && LiveKeys(p) == p.leased
    ensures p.running && LiveKeys(p) != p.leased ==>
              Entering(p).Leased? && Entering(p).key in LiveKeys(p) && Entering(p).key !in p.leased
  {
    Conservation(p);
    if p.queue != [] { assert p.queue[0] in p.queue; }
  }

  // ----- First in, first out ------------------------------------------------------------------

  /** The lease a step grants, if any. */
  function Grants(policy: Policy, s: Sys, step: Step): seq<Key> {
    match Answer(policy, s, step)
    case Leased(k) => [k]
    case _ => []
  }

  /** The keys a step puts at the end of the queue. */
  function Pushes(s: Sys, step: Step): seq<Key> {
    match step
    case Return(k, _, _) => if k in s.pool.leased then [k] else []
    case Run(callback, made) => if callback then AddedKeys(s.pool.(running := true), made) else []
    case _ => []
  }

  function Granted(policy: Policy, s: Sys, steps: seq<Step>): seq<Key> {
    if steps == [] then []
    else
      var front := steps[..|steps| - 1];
      Granted(policy, s, front) + Grants(policy, Exec(policy, s, front), steps[|steps| - 1])
  }

  function Pushed(policy: Policy, s: Sys, steps: seq<Step>): seq<Key> {
    if steps == [] then []
    else
      var front := steps[..|steps| - 1];
      Pushed(policy, s, front) + Pushes(Exec(policy, s, front), steps[|steps| - 1])
  }

  lemma LeaseIsFifo(policy: Policy, s: Sys, step: Step)
    requires (step.Enter? || step.Wake? || step.Late?) && Enabled(s, step)
    ensures Grants(policy, s, step) + Apply(policy, s, step).pool.queue == s.pool.queue
  {
    if Answer(policy, s, step).Leased? {
      assert [s.pool.queue[0]] + s.pool.queue[1..] == s.pool.queue;
    }
  }

  lemma PushIsFifo(policy: Policy, s: Sys, step: Step)
    requires Enabled(s, step) && (step.Run? || step.Return?)
    ensures Apply(policy, s, step).pool.queue == s.pool.queue + Pushes(s, step)
  {
    if step.Run? { AddAllExtends(s.pool.(running := true), step.made); }
  }

  lemma QueueMoves(policy: Policy, s: Sys, step: Step)
    requires Enabled(s, step) && !step.Stop? && !step.Cleanup?
    ensures Grants(policy, s, step) + Apply(policy, s, step).pool.queue == s.pool.queue + Pushes(s, step)
  {
    var q := Apply(policy, s, step).pool.queue;
    assert s.pool.queue + [] == s.pool.queue && [] + q == q;
    if step.Run? || step.Return? {
      PushIsFifo(policy, s, step);
    } else if step.Enter? || step.Wake? || step.Late? {
      LeaseIsFifo(policy, s, step);
    }
  }

  lemma StepIsFifo(policy: Policy, s: Sys, step: Step)
    requires Inv(s) && Enabled(s, step) && NoStandby(s.pool) && !step.Stop?
    ensures Grants(policy, s, step) + Apply(policy, s, step).pool.queue == s.pool.queue + Pushes(s, step)
  {
    if step.Cleanup? {
      SweepKeeps(s.pool, step.now, step.failing);
      assert [] + s.pool.queue == s.pool.queue + [];
    } else {
      QueueMoves(policy, s, step);
    }
  }

  /** FIFO history: over any run without a Stop, the leases granted followed by the queue are the queue at the
      beginning followed by everything pushed since. */
  lemma {:induction false} Fifo(policy: Policy, s: Sys, steps: seq<Step>)
    requires Inv(s) && NoNull(s.pool) && NoStandby(s.pool) && Legal(policy, s, steps) && AllPlain(steps)
    requires forall i :: 0 <= i < |steps| ==> !steps[i].Stop?
    ensures NoNull(Exec(policy, s, steps).pool) && NoStandby(Exec(policy, s, steps).pool)
    ensures Granted(policy, s, steps) + Exec(policy, s, steps).pool.queue == s.pool.queue + Pushed(policy, s, steps)
  {
    if steps != [] {
      var front, step := steps[..|steps| - 1], steps[|steps| - 1];
      var m := Exec(policy, s, front);
      assert AllPlain(front) && Plain(step) && !step.Stop?;
      Fifo(policy, s, front);
      RunKeeps(policy, s, front);
      PlainStepKeeps(policy, m, step);
      StepIsFifo(policy, m, step);
      Chain(Granted(policy, s, front), m.pool.queue, s.pool.queue, Pushed(policy, s, front),
            Grants(policy, m, step), Apply(policy, m, step).pool.queue, Pushes(m, step));
    }
  }

  lemma Chain(g: seq<Key>, q: seq<Key>, q0: seq<Key>, p: seq<Key>, g': seq<Key>, q': seq<Key>, p': seq<Key>)
    requires g + q == q0 + p && g' + q' == q + p'
    ensures (g + g') + q' == q0 + (p + p')
  {
    calc {
      (g + g') + q';
      g + (g' + q');
      (g + q) + p';
      q0 + (p + p');
    }
  }

  /** `key` is lease number `k`, or is queued where it will be. */
  predicate ComesAt(key: Key, granted: seq<Key>, queue: seq<Key>, k: nat) {
    if k < |granted| then granted[k] == key else k - |granted| < |queue| && queue[k - |granted|] == key
  }

  lemma SamePosition(a: seq<Key>, b: seq<Key>, c: seq<Key>, d: seq<Key>, k: nat)
    requires a + b == c + d && k < |c|
    ensures ComesAt(c[k], a, b, k)
  {
    assert (a + b)[k] == c[k];
  }

  /** So the connection at position `k` of the queue is leased by exactly the (k+1)-th successful Acquire. */
  lemma QueuePosition(policy: Policy, s: Sys, steps: seq<Step>, k: nat)
    requires Inv(s) && NoNull(s.pool) && NoStandby(s.pool) && Legal(policy, s, steps) && AllPlain(steps)
    requires forall i :: 0 <= i < |steps| ==> !steps[i].Stop?
    requires k < |s.pool.queue|
    ensures ComesAt(s.pool.queue[k], Granted(policy, s, steps), Exec(policy, s, steps).pool.queue, k)
  {
    Fifo(policy, s, steps);
    SamePosition(Granted(policy, s, steps), Exec(policy, s, steps).pool.queue,
                 s.pool.queue, Pushed(policy, s, steps), k);
  }

  /** The queued keys that a cleanup drops. */
  function DroppedFrom(q: seq<Key>, stored: map<Key, Slot>, now: int): seq<Key> {
    if q == [] then []
    else (if q[0] in stored && Expires(stored[q[0]], now) then [q[0]] else []) + DroppedFrom(q[1..], stored, now)
  }

  lemma {:induction false} KeptAndDropped(q: seq<Key>, stored: map<Key, Slot>, now: int)
    ensures Parts(Kept(q, stored, now), DroppedFrom(q, stored, now), q)
  {
    if q != [] {
      var kept, dropped := Kept(q[1..], stored, now), DroppedFrom(q[1..], stored, now);
      KeptAndDropped(q[1..], stored, now);
      assert q == [q[0]] + q[1..];
      if q[0] in stored && Expires(stored[q[0]], now) {
        SubDrop(kept, q);
      } else {
        PartsPrepend([q[0]], kept, dropped, q[1..]);
        assert [] + dropped == dropped;
      }
    }
  }

  /** A cleanup that is cut short keeps the order of what it looked at, too. */
  lemma InterruptedKeepsOrder(p: Pool, now: int, failing: set<Key>) returns (n: nat)
    requires Owned(p) && Interrupted(p, now, failing)
    ensures n < |p.queue| && p.queue[n + 1..] <= Sweep(p, now, failing).queue
    ensures Sub(Sweep(p, now, failing).queue[|p.queue| - n - 1..], p.queue[..n])
  {
    n := Reach(p.queue, p.stored, now, failing);
    KeptAndDropped(p.queue[..n], p.stored, now);
    assert Sweep(p, now, failing).queue[|p.queue| - n - 1..] == Kept(p.queue[..n], p.stored, now);
  }

  function Drops(s: Sys, step: Step): seq<Key> {
    if step.Cleanup? && s.pool.running then DroppedFrom(s.pool.queue, s.pool.stored, step.now) else []
  }

  function Dropped(policy: Policy, s: Sys, steps: seq<Step>): seq<Key> {
    if steps == [] then []
    else
      var front := steps[..|steps| - 1];
      Dropped(policy, s, front) + Drops(Exec(policy, s, front), steps[|steps| - 1])
  }

  /** Neither a Stop nor a cleanup that is cut short by a release that raises. */
  ghost predicate Orderly(s: Sys, step: Step) {
    !step.Stop? && (step.Cleanup? ==> !Interrupted(s.pool, step.now, step.failing))
  }

  lemma WholeSweep(p: Pool, now: int, failing: set<Key>)
    requires p.running && !Interrupted(p, now, failing)
    ensures Sweep(p, now, failing).queue == Kept(p.queue, p.stored, now)
  {
    assert p.queue[..|p.queue|] == p.queue;
  }

  lemma CleanupParts(p: Pool, now: int, failing: set<Key>)
    requires p.running && !Interrupted(p, now, failing)
    ensures Parts(Sweep(p, now, failing).queue, DroppedFrom(p.queue, p.stored, now), p.queue)
  {
    WholeSweep(p, now, failing);
    KeptAndDropped(p.queue, p.stored, now);
  }

  lemma OrderlyStep(policy: Policy, s: Sys, step: Step)
    requires Enabled(s, step) && Orderly(s, step)
    ensures Parts(Grants(policy, s, step) + Apply(policy, s, step).pool.queue, Drops(s, step),
                  s.pool.queue + Pushes(s, step))
  {
    if step.Cleanup? {
      var q, q' := s.pool.queue, Apply(policy, s, step).pool.queue;
      assert q + [] == q && [] + q' == q';
      if s.pool.running { CleanupParts(s.pool, step.now, step.failing); } else { PartsSelf(q); }
    } else {
      QueueMoves(policy, s, step);
      PartsSelf(s.pool.queue + Pushes(s, step));
    }
  }

  ghost predicate AllOrderly(policy: Policy, s: Sys, steps: seq<Step>) {
    forall i :: 0 <= i < |steps| ==> Orderly(At(policy, s, steps, i), steps[i])
  }

  lemma OrderlyFront(policy: Policy, s: Sys, steps: seq<Step>)
    requires steps != [] && AllOrderly(policy, s, steps)
    ensures AllOrderly(policy, s, steps[..|steps| - 1])
    ensures Orderly(Exec(policy, s, steps[..|steps| - 1]), steps[|steps| - 1])
  {
    var front := steps[..|steps| - 1];
    forall i | 0 <= i < |front| ensures Orderly(At(policy, s, front, i), front[i]) {
      assert front[..i] == steps[..i] && front[i] == steps[i];
    }
    assert Orderly(At(policy, s, steps, |front|), steps[|front|]);
  }

  /** With Standby connections, too: over any run without a Stop and without a release that raises, the leases granted
      followed by the queue are the queue at the beginning followed by everything pushed since, in that order, and
      without exactly what the cleanups dropped. */
  lemma {:induction false} FifoWithCleanups(policy: Policy, s: Sys, steps: seq<Step>)
    requires Legal(policy, s, steps) && AllOrderly(policy, s, steps)
    ensures Parts(Granted(policy, s, steps) + Exec(policy, s, steps).pool.queue, Dropped(policy, s, steps),
                  s.pool.queue + Pushed(policy, s, steps))
  {
    if steps == [] {
      assert [] + s.pool.queue == s.pool.queue + [];
      PartsSelf(s.pool.queue + []);
    } else {
      var front, step := steps[..|steps| - 1], steps[|steps| - 1];
      var m := Exec(policy, s, front);
      OrderlyFront(policy, s, steps);
      FifoWithCleanups(policy, s, front);
      OrderlyStep(policy, m, step);
      PartsChain(Granted(policy, s, front), m.pool.queue, Dropped(policy, s, front),
                 s.pool.queue + Pushed(policy, s, front),
                 Grants(policy, m, step), Apply(policy, m, step).pool.queue, Drops(m, step), Pushes(m, step));
      Regroup(s.pool.queue, Pushed(policy, s, front), Pushes(m, step));
    }
  }

  // ----- Waking up ----------------------------------------------------------------------------

  /** Every free connection that blocked calls could use is accounted for by a call that is already awake. */
  ghost predicate NoLostWakeup(s: Sys) {
    s.blocked == {} || |s.pool.queue| <= |s.signalled|
  }

  /** The guards of the two branches that lose a wake-up: a signalled call that gives up, and a Run that throws
      before its SignalAll. */
  ghost predicate LosesWakeup(policy: Policy, s: Sys, step: Step) {
    s.blocked != {} &&
    match step
    case Wake(_, _) => policy == AsWritten && |s.pool.queue| == |s.signalled|
    case Run(callback, made) =>
      && Start(s.pool, callback, made).1 !in {Ready, NoCallback}
      && |s.pool.queue| + |Pushes(s, step)| > |s.signalled|
    case _ => false
  }

  lemma RunLosesExactly(policy: Policy, s: Sys, step: Step)
    requires Inv(s) && Enabled(s, step) && NoLostWakeup(s) && step.Run?
    ensures NoLostWakeup(Apply(policy, s, step)) <==> !LosesWakeup(policy, s, step)
  {
    AddAllExtends(s.pool.(running := true), step.made);
  }

  lemma WakeLosesExactly(policy: Policy, s: Sys, step: Step)
    requires Inv(s) && Enabled(s, step) && NoLostWakeup(s) && step.Wake?
    ensures NoLostWakeup(Apply(policy, s, step)) <==> !LosesWakeup(policy, s, step)
  {
    assert |s.signalled - {step.call}| == |s.signalled| - 1;
  }

  lemma SettleEffect(s: Sys, call: Call, reply: Reply, now: int)
    ensures Settle(s, call, reply, now).blocked == if reply.Waits? then s.blocked + {call} else s.blocked
    ensures Settle(s, call, reply, now).signalled == s.signalled - {call}
    ensures |Settle(s, call, reply, now).pool.queue| <= |s.pool.queue|
  {
  }

  lemma EnterLosesNothing(policy: Policy, s: Sys, step: Step)
    requires Inv(s) && Enabled(s, step) && NoLostWakeup(s) && (step.Enter? || step.Late?)
    ensures NoLostWakeup(Apply(policy, s, step))
  {
    var reply := Answer(policy, s, step);
    SettleEffect(s, step.call, reply, step.now);
    assert s.signalled - {step.call} == s.signalled;
    if reply.Waits? {
      assert s.pool.queue == [];
    } else {
      assert Settle(s, step.call, reply, step.now).blocked == s.blocked;
    }
  }

  /** A step loses a wake-up exactly in those two branches. */
  lemma WakeupLostExactly(policy: Policy, s: Sys, step: Step)
    requires Inv(s) && Enabled(s, step) && NoLostWakeup(s)
    ensures NoLostWakeup(Apply(policy, s, step)) <==> !LosesWakeup(policy, s, step)
  {
    if step.Run? {
      RunLosesExactly(policy, s, step);
    } else if step.Wake? {
      WakeLosesExactly(policy, s, step);
    } else if step.Enter? || step.Late? {
      EnterLosesNothing(policy, s, step);
    } else if step.Stop? {
      HaltKeeps(s.pool, step.order, step.failing);
    }
  }

  ghost predicate LosesWakeupAt(policy: Policy, steps: seq<Step>, i: nat)
    requires i < |steps|
  {
    NoLostWakeup(At(policy, START, steps, i)) && LosesWakeup(policy, At(policy, START, steps, i), steps[i])
  }

  lemma {:induction false} KeepsWakeups(policy: Policy, steps: seq<Step>)
    requires Legal(policy, START, steps)
    requires forall i :: 0 <= i < |steps| ==> !LosesWakeupAt(policy, steps, i)
    ensures NoLostWakeup(Exec(policy, START, steps))
  {
    if steps != [] {
      var front, step := steps[..|steps| - 1], steps[|steps| - 1];
      forall i | 0 <= i < |front| ensures !LosesWakeupAt(policy, front, i) {
        assert front[..i] == steps[..i] && front[i] == steps[i];
        assert !LosesWakeupAt(policy, steps, i);
      }
      KeepsWakeups(policy, front);
      RunKeeps(policy, START, front);
      assert steps[..|front|] == front && !LosesWakeupAt(policy, steps, |front|);
      WakeupLostExactly(policy, Exec(policy, START, front), step);
    }
  }

  lemma {:induction false} LegalUpTo(policy: Policy, s: Sys, steps: seq<Step>, i: nat)
    requires Legal(policy, s, steps) && i <= |steps|
    ensures Legal(policy, s, steps[..i])
    ensures i < |steps| ==> Enabled(At(policy, s, steps, i), steps[i])
  {
    if i == |steps| {
      assert steps[..i] == steps;
    } else {
      var front := steps[..|steps| - 1];
      if i < |front| {
        assert front[..i] == steps[..i];
        LegalUpTo(policy, s, front, i);
      } else {
        assert steps[..i] == front;
      }
    }
  }

  lemma KeepsWakeupsUpTo(policy: Policy, steps: seq<Step>, i: nat)
    requires Legal(policy, START, steps) && i <= |steps|
    requires forall j :: 0 <= j < |steps| ==> !LosesWakeupAt(policy, steps, j)
    ensures NoLostWakeup(At(policy, START, steps, i))
  {
    var upTo := steps[..i];
    LegalUpTo(policy, START, steps, i);
    forall j | 0 <= j < |upTo| ensures !LosesWakeupAt(policy, upTo, j) {
      assert upTo[..j] == steps[..j];
      assert !LosesWakeupAt(policy, steps, j);
    }
    KeepsWakeups(policy, upTo);
  }

  lemma LostAfter(policy: Policy, steps: seq<Step>, i: nat)
    requires Legal(policy, START, steps) && i < |steps| && LosesWakeupAt(policy, steps, i)
    ensures !NoLostWakeup(At(policy, START, steps, i + 1))
  {
    var s := At(policy, START, steps, i);
    LegalUpTo(policy, START, steps, i);
    RunKeeps(policy, START, steps[..i]);
    WakeupLostExactly(policy, s, steps[i]);
    NextState(policy, steps, i);
  }

  lemma NextState(policy: Policy, steps: seq<Step>, i: nat)
    requires i < |steps|
    ensures At(policy, START, steps, i + 1) == Apply(policy, At(policy, START, steps, i), steps[i])
  {
    assert steps[..i + 1][..i] == steps[..i];
  }

  /** Over all interleavings, under either policy: a run passes through a state in which more connections are free than
      calls awake, beside blocked ones, exactly if one of its steps takes one of the two branches. */
  lemma WakeupLostInRunExactly(policy: Policy, steps: seq<Step>)
    requires Legal(policy, START, steps)
    ensures (exists i :: 0 <= i <= |steps| && !NoLostWakeup(At(policy, START, steps, i))) <==>
            (exists i :: 0 <= i < |steps| && LosesWakeupAt(policy, steps, i))
  {
    if i :| 0 <= i < |steps| && LosesWakeupAt(policy, steps, i) {
      LostAfter(policy, steps, i);
    } else {
      forall i | 0 <= i <= |steps| ensures NoLostWakeup(At(policy, START, steps, i)) {
        KeepsWakeupsUpTo(policy, steps, i);
      }
    }
  }

  ghost predicate RunsSucceed(policy: Policy, s: Sys, steps: seq<Step>) {
    forall i :: 0 <= i < |steps| && steps[i].Run? ==>
      Start(At(policy, s, steps, i).pool, steps[i].callback, steps[i].made).1 in {Ready, NoCallback}
  }

  /** With the wait in a loop and the right sense, no interleaving loses a wake-up: a free connection never sits
      beside calls that are all blocked. */
  lemma {:induction false} CorrectedNeverLosesWakeup(steps: seq<Step>)
    requires Legal(Corrected, START, steps) && RunsSucceed(Corrected, START, steps)
    ensures NoLostWakeup(Exec(Corrected, START, steps))
    ensures Exec(Corrected, START, steps).fault != EmptyFrontRead
  {
    if steps != [] {
      var front, step := steps[..|steps| - 1], steps[|steps| - 1];
      forall i | 0 <= i < |front| ensures front[i] == steps[i] && front[..i] == steps[..i] {}
      assert steps[..|steps| - 1] == front;
      assert RunsSucceed(Corrected, START, front);
      CorrectedNeverLosesWakeup(front);
      RunKeeps(Corrected, START, front);
      WakeupLostExactly(Corrected, Exec(Corrected, START, front), step);
    }
  }

  /** So while calls are blocked and a connection is free, some call is awake, and whichever awake call takes the mutex
      next leases the front of the queue. */
  lemma CorrectedMakesProgress(steps: seq<Step>)
    requires Legal(Corrected, START, steps) && RunsSucceed(Corrected, START, steps)
    requires Exec(Corrected, START, steps).blocked != {} && Exec(Corrected, START, steps).pool.queue != []
    ensures var s := Exec(Corrected, START, steps);
            && (exists c :: c in s.signalled)
            && forall c, now :: c in s.signalled ==>
                 Enabled(s, Wake(c, now)) && Answer(Corrected, s, Wake(c, now)) == Leased(s.pool.queue[0])
  {
    CorrectedNeverLosesWakeup(steps);
    RunKeeps(Corrected, START, steps);
    if Exec(Corrected, START, steps).fault == NullEntryClosed { NullEntryEmpties(Corrected, steps); }
    FaultsAre(Corrected, steps);
    AwakeTakesFront(Exec(Corrected, START, steps));
  }

  lemma AwakeTakesFront(s: Sys)
    requires Inv(s) && s.fault == Sound && NoLostWakeup(s) && s.blocked != {} && s.pool.queue != []
    ensures exists c :: c in s.signalled
    ensures forall c, now :: c in s.signalled ==>
              Enabled(s, Wake(c, now)) && Answer(Corrected, s, Wake(c, now)) == Leased(s.pool.queue[0])
  {
    SomeoneIsAwake(s);
  }

  /** A null driver is no concern of the pool. */
  lemma {:induction false} FaultsAre(policy: Policy, steps: seq<Step>)
    requires Legal(policy, START, steps)
    ensures Exec(policy, START, steps).fault in {Sound, EmptyFrontRead, NullEntryClosed}
  {
  }

  lemma SomeoneIsAwake(s: Sys)
    requires Inv(s) && NoLostWakeup(s) && s.blocked != {} && s.pool.queue != []
    ensures exists c :: c in s.signalled
  {
    assert |s.signalled| > 0;
  }

  /** A Stop that dereferences a null entry has emptied the queue before. */
  lemma NullEntryEmpties(policy: Policy, steps: seq<Step>)
    requires Legal(policy, START, steps) && Exec(policy, START, steps).fault == NullEntryClosed
    ensures Exec(policy, START, steps).pool.queue == []
  {
    var front, step := steps[..|steps| - 1], steps[|steps| - 1];
    RunKeeps(policy, START, front);
    if step.Stop? { HaltKeeps(Exec(policy, START, front).pool, step.order, step.failing); }
  }

  /** As written, `front()` is called on an empty queue exactly when a call whose deadline passed resumes in a
      running pool that has nothing free, which under the lease partition is one where everything stored is leased. */
  lemma EmptyFrontExactly(policy: Policy, s: Sys, step: Step)
    requires Inv(s) && Enabled(s, step)
    ensures Apply(policy, s, step).fault == EmptyFrontRead <==>
            policy == AsWritten && step.Late? && s.pool.running && s.pool.queue == []
    ensures Partition(s.pool) ==>
              (Apply(policy, s, step).fault == EmptyFrontRead <==>
               policy == AsWritten && step.Late? && s.pool.running && LiveKeys(s.pool) == s.pool.leased)
  {
    if Partition(s.pool) { Conservation(s.pool); }
  }

  /** Step `i` is such a resumption. */
  predicate ReadsEmptyFrontAt(policy: Policy, steps: seq<Step>, i: nat)
    requires i < |steps|
  {
    var p := At(policy, START, steps, i).pool;
    policy == AsWritten && steps[i].Late? && p.running && p.queue == []
  }

  /** Over all interleavings: a run calls `front()` on an empty queue exactly if it has such a step; in the corrected
      form none has. */
  lemma {:induction false} EmptyFrontReachedExactly(policy: Policy, steps: seq<Step>)
    requires Legal(policy, START, steps)
    ensures Exec(policy, START, steps).fault == EmptyFrontRead <==>
            exists i :: 0 <= i < |steps| && ReadsEmptyFrontAt(policy, steps, i)
    ensures policy == Corrected ==> Exec(policy, START, steps).fault != EmptyFrontRead
  {
    if steps != [] {
      var front, step := steps[..|steps| - 1], steps[|steps| - 1];
      EmptyFrontReachedExactly(policy, front);
      RunKeeps(policy, START, front);
      forall i | 0 <= i < |front| ensures !ReadsEmptyFrontAt(policy, steps, i) {
        assert front[..i] == steps[..i] && front[i] == steps[i];
        assert !ReadsEmptyFrontAt(policy, front, i);
      }
      assert steps[..|front|] == front;
      EmptyFrontExactly(policy, Exec(policy, START, front), step);
      assert ReadsEmptyFrontAt(policy, steps, |front|) <==> Exec(policy, START, steps).fault == EmptyFrontRead;
    }
  }

  const LOSING_TRACE := [Run(true, [LONE]), Enter(1, 0), Enter(2, 0), Enter(3, 0), Return(7, 1, Some(2)), Wake(2, 1)]

  function Lone(free: bool, returned: int, blocked: set<Call>, signalled: set<Call>): Sys {
    Sys(Pool(map[7 := Live(Conn(Primary, 300, 0, returned, OPENED))],
             if free then {} else {7}, if free then [7] else [], true),
        blocked, signalled, {}, Sound)
  }

  lemma LoneStarts()
    ensures Start(INITIAL, true, [LONE]) == (Lone(true, 0, {}, {}).pool, Ready)
  {
    var p := INITIAL.(running := true);
    assert [LONE][1..] == [];
    assert AddAll(Add(p, LONE), []) == (Add(p, LONE), Ready);
    assert AddAll(p, [LONE]) == AddAll(Add(p, LONE), [LONE][1..]);
    assert Add(p, LONE) == Lone(true, 0, {}, {}).pool;
  }

  lemma LoneWaits()
    ensures Exec(AsWritten, START, LOSING_TRACE[..3]) == Lone(false, 0, {2}, {})
    ensures Legal(AsWritten, START, LOSING_TRACE[..3])
  {
    LoneStarts();
    var t := LOSING_TRACE;
    assert t[..1] == [] + [t[0]] && t[..2] == t[..1] + [t[1]] && t[..3] == t[..2] + [t[2]];
    Extend(AsWritten, [], t[0]);
    assert Exec(AsWritten, START, t[..1]) == Lone(true, 0, {}, {});
    Extend(AsWritten, t[..1], t[1]);
    assert Exec(AsWritten, START, t[..2]) == Lone(false, 0, {}, {});
    Extend(AsWritten, t[..2], t[2]);
  }

  lemma LoneBlocks()
    ensures Exec(AsWritten, START, LOSING_TRACE[..4]) == Lone(false, 0, {2, 3}, {})
    ensures Legal(AsWritten, START, LOSING_TRACE[..4])
  {
    LoneWaits();
    var t := LOSING_TRACE;
    assert t[..4] == t[..3] + [t[3]];
    Extend(AsWritten, t[..3], t[3]);
  }

  lemma LoneReturns()
    ensures Exec(AsWritten, START, LOSING_TRACE[..5]) == Lone(true, 1, {3}, {2})
    ensures Legal(AsWritten, START, LOSING_TRACE[..5])
  {
    LoneBlocks();
    var t := LOSING_TRACE;
    assert t[..5] == t[..4] + [t[4]];
    Extend(AsWritten, t[..4], t[4]);
  }

  /** As written: two calls wait, one connection comes back, the woken call gives up, and the other one stays blocked
      beside the free connection. */
  lemma AsWrittenLosesWakeup()
    ensures Legal(AsWritten, START, LOSING_TRACE)
    ensures Exec(AsWritten, START, LOSING_TRACE) == Lone(true, 1, {3}, {})
    ensures !NoLostWakeup(Exec(AsWritten, START, LOSING_TRACE))
  {
    LoneReturns();
    var t := LOSING_TRACE;
    assert t == t[..5] + [t[5]];
    Extend(AsWritten, t[..5], t[5]);
  }

  const IDLE_STANDBY := Creation(7, Standby, 0, 0, true)

  const NULLING_TRACE := [Run(true, [IDLE_STANDBY]), Cleanup(TICKS, {}), Stop([7], {})]

  lemma StandbyCleaned(policy: Policy)
    ensures Exec(policy, START, NULLING_TRACE[..2]) == START.(pool := Pool(map[7 := Null], {}, [], true))
    ensures Legal(policy, START, NULLING_TRACE[..2])
  {
    var t, p := NULLING_TRACE, INITIAL.(running := true);
    assert [IDLE_STANDBY][1..] == [];
    assert AddAll(p, [IDLE_STANDBY]) == AddAll(Add(p, IDLE_STANDBY), []) == (Add(p, IDLE_STANDBY), Ready);
    assert t[..1] == [] + [t[0]] && t[..2] == t[..1] + [t[1]];
    Extend(policy, [], t[0]);
    var q := Exec(policy, START, t[..1]).pool;
    assert q.queue == [7] && q.queue[1..] == [] && q.queue[..1] == [7];
    assert Expires(q.stored[7], TICKS);
    Extend(policy, t[..1], t[1]);
  }

  /** With a Standby connection, which no shipped code creates: a cleanup leaves a null entry in the owning map, and the
      next Stop dereferences it. */
  lemma StandbyBreaksStop(policy: Policy)
    ensures Legal(policy, START, NULLING_TRACE) && Exec(policy, START, NULLING_TRACE).fault == NullEntryClosed
  {
    StandbyCleaned(policy);
    var t := NULLING_TRACE;
    assert t == t[..2] + [t[2]];
    Extend(policy, t[..2], t[2]);
  }

  const EMPTYING_TRACE := [Run(true, [LONE]), Enter(1, 0), Enter(2, 0), Deadline(2), Late(2, 1)]

  lemma LoneExpires()
    ensures Exec(AsWritten, START, EMPTYING_TRACE[..4]) == Lone(false, 0, {}, {}).(expired := {2})
    ensures Legal(AsWritten, START, EMPTYING_TRACE[..4])
  {
    LoneWaits();
    var t := EMPTYING_TRACE;
    assert t[..3] == LOSING_TRACE[..3];
    assert t[..4] == t[..3] + [t[3]];
    Extend(AsWritten, t[..3], t[3]);
  }

  /** As written: a call waits for the only connection, its deadline passes, and it goes on to call `front()` on the
      empty queue. */
  lemma AsWrittenReadsEmptyFront()
    ensures Legal(AsWritten, START, EMPTYING_TRACE)
    ensures Exec(AsWritten, START, EMPTYING_TRACE).fault == EmptyFrontRead
  {
    LoneExpires();
    var t := EMPTYING_TRACE;
    assert t == t[..4] + [t[4]];
    Extend(AsWritten, t[..4], t[4]);
  }

  lemma Extend(policy: Policy, steps: seq<Step>, step: Step)
    ensures Exec(policy, START, steps + [step]) == Apply(policy, Exec(policy, START, steps), step)
    ensures Legal(policy, START, steps + [step]) <==>
            Legal(policy, START, steps) && Enabled(Exec(policy, START, steps), step)
  {
    assert (steps + [step])[..|steps|] == steps;
  }

  lemma StaysSignalled(steps: seq<Step>, c: Call)
    requires Legal(AsWritten, START, steps) && steps != []
    requires c in Exec(AsWritten, START, steps[..|steps| - 1]).signalled
    requires !(steps[|steps| - 1].Wake? && steps[|steps| - 1].call == c)
    ensures c in Exec(AsWritten, START, steps).signalled
  {
    var front := steps[..|steps| - 1];
    RunKeeps(AsWritten, START, front);
    AwakeExactly(AsWritten, Exec(AsWritten, START, front), steps[|steps| - 1], c);
  }

  lemma {:induction false} PingSignals(steps: seq<Step>, i: nat, c: Call)
    requires Legal(AsWritten, START, steps) && i < |steps| && steps[i].Ping?
    requires At(AsWritten, START, steps, i).pool.running && c in At(AsWritten, START, steps, i).blocked
    requires forall j :: i < j < |steps| ==> !(steps[j].Wake? && steps[j].call == c)
    ensures c in Exec(AsWritten, START, steps).signalled
  {
    var front := steps[..|steps| - 1];
    if i == |front| {
      RunKeeps(AsWritten, START, front);
      UnblockedExactly(AsWritten, Exec(AsWritten, START, front), steps[i], c);
    } else {
      assert front[..i] == steps[..i];
      PingSignals(front, i, c);
      StaysSignalled(steps, c);
    }
  }

  /** As written, a ping makes every waiting call give up: a call that is blocked when the pool is pinged can only wake,
      and then it ends without a lease, whatever has come free by then. */
  lemma PingEndsWaits(steps: seq<Step>, i: nat, c: Call, now: int)
    requires Legal(AsWritten, START, steps) && i < |steps| && steps[i].Ping?
    requires At(AsWritten, START, steps, i).pool.running && c in At(AsWritten, START, steps, i).blocked
    requires forall j :: i < j < |steps| ==> !(steps[j].Wake? && steps[j].call == c)
    requires Exec(AsWritten, START, steps).fault == Sound
    ensures var s := Exec(AsWritten, START, steps);
            && Enabled(s, Wake(c, now)) && !Enabled(s, Enter(c, now)) && !Enabled(s, Late(c, now))
            && !Enabled(s, Deadline(c)) && !Enabled(s, Spurious(c))
            && Grants(AsWritten, s, Wake(c, now)) == [] && Apply(AsWritten, s, Wake(c, now)).pool == s.pool
            && c !in Apply(AsWritten, s, Wake(c, now)).blocked
  {
    PingSignals(steps, i, c);
    RunKeeps(AsWritten, START, steps);
  }

  // ----- Stale returns ------------------------------------------------------------------------

  /** A Return changes nothing exactly when its key is not leased at that moment. */
  lemma ReturnInertExactly(p: Pool, k: Key, now: int)
    ensures Give(p, k, now) == p <==> k !in p.leased
  {
  }

  ghost predicate Recreates(step: Step, k: Key) {
    step.Run? && exists i :: 0 <= i < |step.made| && step.made[i].key == k
  }

  lemma {:induction false} AddedAreMade(p: Pool, made: seq<Creation>)
    ensures forall k :: k in AddedKeys(p, made) ==> exists i :: 0 <= i < |made| && made[i].key == k
    decreases |made|
  {
    if made != [] && made[0].key !in p.stored && made[0].opens {
      var p', rest := Add(p, made[0]), made[1..];
      AddedAreMade(p', rest);
      forall k | k in AddedKeys(p', rest) ensures exists i :: 0 <= i < |made| && made[i].key == k {
        var i :| 0 <= i < |rest| && rest[i].key == k;
        assert made[i + 1].key == k;
      }
    }
  }

  lemma UnknownStaysUnknown(policy: Policy, s: Sys, step: Step, k: Key)
    requires Inv(s) && Enabled(s, step) && k !in s.pool.leased && k !in s.pool.queue && !Recreates(step, k)
    ensures k !in Apply(policy, s, step).pool.leased && k !in Apply(policy, s, step).pool.queue
  {
    if step.Run? {
      AddAllExtends(s.pool.(running := true), step.made);
      AddedAreMade(s.pool.(running := true), step.made);
    } else if step.Stop? {
      HaltKeeps(s.pool, step.order, step.failing);
    }
  }

  /** Once a Stop has ended a lease, returning that connection is refused and leaves the whole pool as it is, however
      much later and even after further Runs, as long as no created connection reuses its key. */
  lemma {:induction false} StaleReturnIsInert(policy: Policy, s: Sys, steps: seq<Step>, stop: nat, k: Key, now: int)
    requires Inv(s) && Legal(policy, s, steps)
    requires stop < |steps| && steps[stop].Stop? && At(policy, s, steps, stop).pool.running
    requires forall i :: stop < i < |steps| ==> !Recreates(steps[i], k)
    ensures k !in Exec(policy, s, steps).pool.leased && k !in Exec(policy, s, steps).pool.queue
    ensures Give(Exec(policy, s, steps).pool, k, now) == Exec(policy, s, steps).pool
  {
    var front, step := steps[..|steps| - 1], steps[|steps| - 1];
    var m := Exec(policy, s, front);
    RunKeeps(policy, s, front);
    if stop == |steps| - 1 {
      HaltKeeps(m.pool, step.order, step.failing);
    } else {
      assert front[..stop] == steps[..stop];
      StaleReturnIsInert(policy, s, front, stop, k, now);
      UnknownStaysUnknown(policy, m, step, k);
    }
  }

  // ----- Idle time ----------------------------------------------------------------------------

  /** The step puts `k` on the queue and stamps it with time `t`. */
  ghost predicate Enqueues(policy: Policy, s: Sys, step: Step, k: Key, t: int) {
    && k in Pushes(s, step)
    && match step
       case Return(_, now, _) => t == now
       case Run(_, made) => exists i :: 0 <= i < |made| && made[i].key == k && made[i].now == t
       case _ => false
  }

  function ReturnedAt(p: Pool, k: Key): int {
    if k in p.stored && p.stored[k].Live? then p.stored[k].conn.returned else 0
  }

  lemma {:induction false} AddedStamps(p: Pool, made: seq<Creation>, k: Key)
    requires k in AddedKeys(p, made)
    ensures exists i :: 0 <= i < |made| && made[i].key == k && made[i].now == ReturnedAt(AddAll(p, made).0, k)
    decreases |made|
  {
    var p', rest := Add(p, made[0]), made[1..];
    if made[0].opens {
      AddAllExtends(p', rest);
      if k in AddedKeys(p', rest) {
        AddedStamps(p', rest, k);
        var i :| 0 <= i < |rest| && rest[i].key == k && rest[i].now == ReturnedAt(AddAll(p', rest).0, k);
        assert made[i + 1] == rest[i];
      } else {
        assert k == made[0].key && k in p'.stored;
      }
    }
  }

  ghost predicate Stamped(policy: Policy, s: Sys, step: Step, k: Key) {
    var t := ReturnedAt(Apply(policy, s, step).pool, k);
    Enqueues(policy, s, step, k, t) || (k in s.pool.queue && t == ReturnedAt(s.pool, k))
  }

  lemma RunStamps(policy: Policy, s: Sys, step: Step, k: Key)
    requires step.Run? && k in Apply(policy, s, step).pool.queue && Inv(s)
    ensures Stamped(policy, s, step, k)
  {
    var p := s.pool.(running := true);
    AddAllExtends(p, step.made);
    if step.callback && k in AddedKeys(p, step.made) { AddedStamps(p, step.made, k); }
  }

  /** A queued connection either was queued before the step, with the same stamp, or is put there by it. */
  lemma StepStamps(policy: Policy, s: Sys, step: Step, k: Key)
    requires Inv(s) && Enabled(s, step) && k in Apply(policy, s, step).pool.queue
    ensures Stamped(policy, s, step, k)
  {
    match step
    case Run(_, _) => RunStamps(policy, s, step, k);
    case Return(l, now, _) => GiveStamps(s.pool, l, now, k);
    case Stop(order, failing) => HaltKeeps(s.pool, order, failing);
    case Cleanup(now, failing) => SweptStamps(s.pool, now, failing, k);
    case _ => LeaseStamps(policy, s, step, k);
  }

  lemma GiveStamps(p: Pool, l: Key, now: int, k: Key)
    requires Owned(p) && k in Give(p, l, now).queue
    ensures if l in p.leased && k == l then ReturnedAt(Give(p, l, now), k) == now
            else k in p.queue && ReturnedAt(Give(p, l, now), k) == ReturnedAt(p, k)
  {
  }

  lemma LeaseStamps(policy: Policy, s: Sys, step: Step, k: Key)
    requires Inv(s) && Enabled(s, step) && k in Apply(policy, s, step).pool.queue
    requires !step.Run? && !step.Return? && !step.Stop? && !step.Cleanup?
    ensures k in s.pool.queue && ReturnedAt(Apply(policy, s, step).pool, k) == ReturnedAt(s.pool, k)
  {
  }

  lemma SweptStamps(p: Pool, now: int, failing: set<Key>, k: Key)
    requires Owned(p) && k in Sweep(p, now, failing).queue
    ensures k in p.queue && ReturnedAt(Sweep(p, now, failing), k) == ReturnedAt(p, k)
  {
    if p.running {
      var n := Reach(p.queue, p.stored, now, failing);
      SweptQueueIsLive(p, now, n);
    }
  }

  ghost predicate QueuedFrom(policy: Policy, steps: seq<Step>, k: Key, since: nat) {
    forall j :: since <= j <= |steps| ==>
      k in At(policy, START, steps, j).pool.queue && k !in At(policy, START, steps, j).pool.leased
  }

  lemma QueuedFromNext(policy: Policy, steps: seq<Step>, k: Key, since: nat)
    requires steps != [] && QueuedFrom(policy, steps[..|steps| - 1], k, since)
    requires k in Exec(policy, START, steps).pool.queue && k !in Exec(policy, START, steps).pool.leased
    ensures QueuedFrom(policy, steps, k, since)
  {
    var front := steps[..|steps| - 1];
    forall j | since <= j <= |steps|
      ensures k in At(policy, START, steps, j).pool.queue && k !in At(policy, START, steps, j).pool.leased
    {
      if j < |steps| {
        assert steps[..j] == front[..j];
        assert k in At(policy, START, front, j).pool.queue;
      } else {
        assert steps[..j] == steps;
      }
    }
  }

  ghost predicate EnqueuedAt(policy: Policy, steps: seq<Step>, k: Key, since: int, t: int) {
    && 0 < since <= |steps|
    && Enqueues(policy, At(policy, START, steps, since - 1), steps[since - 1], k, t)
  }

  lemma EnqueuedBefore(policy: Policy, steps: seq<Step>, k: Key, since: nat, t: int)
    requires steps != [] && EnqueuedAt(policy, steps[..|steps| - 1], k, since, t)
    ensures EnqueuedAt(policy, steps, k, since, t)
  {
    assert steps[..|steps| - 1][..since - 1] == steps[..since - 1];
  }

  /** Idle soundness: a queued connection has been in the queue, and so unleased, ever since the moment its stamp
      records, which is its last return or its creation. */
  lemma {:induction false} QueuedSinceStamp(policy: Policy, steps: seq<Step>, k: Key) returns (since: nat)
    requires Legal(policy, START, steps) && k in Exec(policy, START, steps).pool.queue
    ensures EnqueuedAt(policy, steps, k, since, ReturnedAt(Exec(policy, START, steps).pool, k))
    ensures QueuedFrom(policy, steps, k, since)
  {
    var front, step := steps[..|steps| - 1], steps[|steps| - 1];
    var m, t := Exec(policy, START, front), ReturnedAt(Exec(policy, START, steps).pool, k);
    RunKeeps(policy, START, front);
    RunKeeps(policy, START, steps);
    StepStamps(policy, m, step, k);
    if Enqueues(policy, m, step, k, t) {
      since := |steps|;
      assert steps[..|steps|] == steps;
    } else {
      since := QueuedSinceStamp(policy, front, k);
      EnqueuedBefore(policy, steps, k, since, t);
      QueuedFromNext(policy, steps, k, since);
    }
  }

  function AcquiredAt(p: Pool, k: Key): int {
    if k in p.stored && p.stored[k].Live? then p.stored[k].conn.acquired else 0
  }

  /** The step leases `k` to a call, at time `t`. */
  ghost predicate LeasesAt(policy: Policy, s: Sys, step: Step, k: Key, t: int) {
    (step.Enter? || step.Wake? || step.Late?) && step.now == t && Grants(policy, s, step) == [k]
  }

  lemma RunLeavesAcquired(s: Sys, step: Step, k: Key)
    requires step.Run? && Inv(s) && k in s.pool.leased
    ensures AcquiredAt(Start(s.pool, step.callback, step.made).0, k) == AcquiredAt(s.pool, k)
    ensures Start(s.pool, step.callback, step.made).0.leased == s.pool.leased
  {
    AddAllExtends(s.pool.(running := true), step.made);
  }

  /** A leased connection either was leased before the step, with the same stamp, or is leased by it. */
  lemma StepAcquires(policy: Policy, s: Sys, step: Step, k: Key)
    requires Inv(s) && Enabled(s, step) && k in Apply(policy, s, step).pool.leased
    ensures || LeasesAt(policy, s, step, k, AcquiredAt(Apply(policy, s, step).pool, k))
            || (k in s.pool.leased && AcquiredAt(Apply(policy, s, step).pool, k) == AcquiredAt(s.pool, k))
  {
    match step
    case Run(callback, made) =>
      AddAllExtends(s.pool.(running := true), made);
      RunLeavesAcquired(s, step, k);
    case Stop(order, failing) => HaltKeeps(s.pool, order, failing);
    case Cleanup(now, failing) => SweepKeeps(s.pool, now, failing);
    case Enter(_, now) => LeaseAcquires(policy, s, step, k);
    case Wake(_, now) => LeaseAcquires(policy, s, step, k);
    case Late(_, now) => LeaseAcquires(policy, s, step, k);
    case _ =>
  }

  lemma LeaseAcquires(policy: Policy, s: Sys, step: Step, k: Key)
    requires Inv(s) && Enabled(s, step) && (step.Enter? || step.Wake? || step.Late?)
    requires k in Apply(policy, s, step).pool.leased
    ensures || LeasesAt(policy, s, step, k, AcquiredAt(Apply(policy, s, step).pool, k))
            || (k in s.pool.leased && AcquiredAt(Apply(policy, s, step).pool, k) == AcquiredAt(s.pool, k))
  {
    LeasesExactly(policy, s, step);
    if s.pool.queue != [] {
      TakeExactly(s.pool, step.now);
      assert s.pool.queue[0] in s.pool.queue;
    }
  }

  ghost predicate LeasedFrom(policy: Policy, steps: seq<Step>, k: Key, since: nat) {
    forall j :: since <= j <= |steps| ==> k in At(policy, START, steps, j).pool.leased
  }

  lemma LeasedFromNext(policy: Policy, steps: seq<Step>, k: Key, since: nat)
    requires steps != [] && LeasedFrom(policy, steps[..|steps| - 1], k, since)
    requires k in Exec(policy, START, steps).pool.leased
    ensures LeasedFrom(policy, steps, k, since)
  {
    var front := steps[..|steps| - 1];
    forall j | since <= j <= |steps| ensures k in At(policy, START, steps, j).pool.leased {
      if j < |steps| {
        assert steps[..j] == front[..j];
        assert k in At(policy, START, front, j).pool.leased;
      } else {
        assert steps[..j] == steps;
      }
    }
  }

  ghost predicate LeasedAtStep(policy: Policy, steps: seq<Step>, k: Key, since: int, t: int) {
    0 < since <= |steps| && LeasesAt(policy, At(policy, START, steps, since - 1), steps[since - 1], k, t)
  }

  lemma LeasedBefore(policy: Policy, steps: seq<Step>, k: Key, since: nat, t: int)
    requires steps != [] && LeasedAtStep(policy, steps[..|steps| - 1], k, since, t)
    ensures LeasedAtStep(policy, steps, k, since, t)
  {
    assert steps[..|steps| - 1][..since - 1] == steps[..since - 1];
  }

  /** A leased connection has been leased ever since the step its acquired time records, which leased it. */
  lemma {:induction false} LeasedSinceStamp(policy: Policy, steps: seq<Step>, k: Key) returns (since: nat)
    requires Legal(policy, START, steps) && k in Exec(policy, START, steps).pool.leased
    ensures LeasedAtStep(policy, steps, k, since, AcquiredAt(Exec(policy, START, steps).pool, k))
    ensures LeasedFrom(policy, steps, k, since)
  {
    var front, step := steps[..|steps| - 1], steps[|steps| - 1];
    var m, t := Exec(policy, START, front), AcquiredAt(Exec(policy, START, steps).pool, k);
    RunKeeps(policy, START, front);
    StepAcquires(policy, m, step, k);
    if LeasesAt(policy, m, step, k, t) {
      since := |steps|;
      assert steps[..|steps|] == steps;
    } else {
      since := LeasedSinceStamp(policy, front, k);
      LeasedBefore(policy, steps, k, since, t);
      LeasedFromNext(policy, steps, k, since);
    }
  }

  function IdleLimit(p: Pool, k: Key): int {
    if k in p.stored && p.stored[k].Live? then p.stored[k].conn.idleAfter else 0
  }

  lemma SweptIsIdle(p: Pool, k: Key, now: int, failing: set<Key>)
    requires Owned(p) && k in p.queue && k !in Sweep(p, now, failing).queue
    ensures k in p.stored && p.stored[k].Live? && IsIdle(p.stored[k].conn, now)
  {
    var n := Reach(p.queue, p.stored, now, failing);
    ReachStops(p.queue, p.stored, now, failing);
    SplitAt(p.queue, n);
  }

  /** What a cleanup drops has been unleased for more than the configured whole seconds. */
  lemma CleanupOnlyDropsIdle(policy: Policy, steps: seq<Step>, k: Key, now: int, failing: set<Key>)
    returns (since: nat, t: int)
    requires Legal(policy, START, steps) && k in Exec(policy, START, steps).pool.queue
    requires k !in Sweep(Exec(policy, START, steps).pool, now, failing).queue
    requires IdleLimit(Exec(policy, START, steps).pool, k) >= 0
    ensures EnqueuedAt(policy, steps, k, since, t)
    ensures QueuedFrom(policy, steps, k, since)
    ensures now - t >= (IdleLimit(Exec(policy, START, steps).pool, k) + 1) * TICKS
  {
    RunKeeps(policy, START, steps);
    SweptIsIdle(Exec(policy, START, steps).pool, k, now, failing);
    since := QueuedSinceStamp(policy, steps, k);
    t := ReturnedAt(Exec(policy, START, steps).pool, k);
    IdleMeansWholeSeconds(Exec(policy, START, steps).pool.stored[k].conn, now);
  }
}
