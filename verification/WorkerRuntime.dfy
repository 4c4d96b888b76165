// orchestration/worker_runtime.py: how `run_job` takes, renews and releases the lock of
// its job. Any number of workers run the same job, interleaved call by call; everything
// but the lock is an outcome that may succeed, raise, or be cancelled.

module WorkerRuntime {
  import opened Collections
  import opened Locks

  const LOCK_TTL := 120

  // Where a worker is in `run_job`. Handling is the `except` block, Finishing the `finally` block.
  datatype Pc = Starting | Leased | Contended | Running | Handling | Finishing | Closed

  // `promised` is the expiry the worker was last told; `attempted`, that it has called release.
  datatype Worker = Worker(pc: Pc, handle: Option<LockHandle>, promised: int, attempted: bool)

  type WorkerId = nat
  datatype System = System(lock: string, keys: Keys, workers: map<WorkerId, Worker>, drawn: set<Token>, now: int)

  // A lock call that raises or is cancelled may or may not have reached the server. A renewal
  // whose reply nobody sees can reach it even after the renewing task was cancelled.
  datatype Event =
    | Begin(w: WorkerId)
    | LeaseGranted(w: WorkerId)
    | LeaseRaises(w: WorkerId)
    | AcquireReturns(w: WorkerId, owner: string, token: Token)
    | AcquireRaises(w: WorkerId, owner: string, token: Token, applied: bool)
    | AcquireCancelled(w: WorkerId, owner: string, token: Token, applied: bool)
    | RetryScheduled(w: WorkerId)
    | RetryRaises(w: WorkerId)
    | BodyReturns(w: WorkerId)
    | BodyRaises(w: WorkerId)
    | HandlerEnds(w: WorkerId)
    | Cancelled(w: WorkerId)
    | RenewReturns(w: WorkerId)
    | RenewRaises(w: WorkerId, applied: bool)
    | ReleaseReturns(w: WorkerId)
    | ReleaseRaises(w: WorkerId, applied: bool)
    | CloseUnlocked(w: WorkerId)
    | OtherLock(call: Call)

  datatype Timed = Timed(at: int, event: Event)

  predicate Critical(w: Worker) {
    w.handle.Some? && w.pc in {Running, Handling, Finishing}
  }

  predicate At(s: System, w: WorkerId, pcs: set<Pc>) {
    w in s.workers && s.workers[w].pc in pcs
  }

  predicate AtWithLock(s: System, w: WorkerId, pcs: set<Pc>) {
    At(s, w, pcs) && s.workers[w].handle.Some?
  }

  predicate Enabled(s: System, t: Timed) {
    && s.now <= t.at
    && match t.event
       case Begin(w) => w !in s.workers
       case LeaseGranted(w) => At(s, w, {Starting})
       case LeaseRaises(w) => At(s, w, {Starting})
       case AcquireReturns(w, _, token) => At(s, w, {Leased}) && token !in s.drawn
       case AcquireRaises(w, _, token, _) => At(s, w, {Leased}) && token !in s.drawn
       case AcquireCancelled(w, _, token, _) => At(s, w, {Leased}) && token !in s.drawn
       case RetryScheduled(w) => At(s, w, {Contended})
       case RetryRaises(w) => At(s, w, {Contended})
       case BodyReturns(w) => At(s, w, {Running})
       case BodyRaises(w) => At(s, w, {Running})
       case HandlerEnds(w) => At(s, w, {Handling})
       case Cancelled(w) => At(s, w, {Starting, Leased, Contended, Running, Handling})
       case RenewReturns(w) => AtWithLock(s, w, {Running, Handling})
       case RenewRaises(w, _) => AtWithLock(s, w, {Running, Handling, Finishing, Closed})
       case ReleaseReturns(w) => AtWithLock(s, w, {Finishing})
       case ReleaseRaises(w, _) => AtWithLock(s, w, {Finishing})
       case CloseUnlocked(w) => At(s, w, {Finishing}) && s.workers[w].handle.None?
       case OtherLock(c) => LockName(c) != s.lock && c.now == t.at
  }

  // The lock call that reaches the server, if any.
  function Sent(s: System, t: Timed): Option<Call>
    requires Enabled(s, t)
  {
    match t.event
    case AcquireReturns(_, owner, token) => Some(Acquire(t.at, s.lock, owner, LOCK_TTL, token))
    case AcquireRaises(_, owner, token, true) => Some(Acquire(t.at, s.lock, owner, LOCK_TTL, token))
    case AcquireCancelled(_, owner, token, true) => Some(Acquire(t.at, s.lock, owner, LOCK_TTL, token))
    case RenewReturns(w) => Some(Renew(t.at, s.workers[w].handle.value, LOCK_TTL))
    case RenewRaises(w, true) => Some(Renew(t.at, s.workers[w].handle.value, LOCK_TTL))
    case ReleaseReturns(w) => Some(Release(t.at, s.workers[w].handle.value))
    case ReleaseRaises(w, true) => Some(Release(t.at, s.workers[w].handle.value))
    case OtherLock(c) => Some(c)
    case _ => None
  }

  // The acting worker afterwards.
  function Moved(s: System, t: Timed): Worker
    requires Enabled(s, t) && !t.event.OtherLock?
  {
    match t.event
    case Begin(_) => Worker(Starting, None, 0, false)
    case LeaseGranted(w) => s.workers[w].(pc := Leased)
    case LeaseRaises(w) => s.workers[w].(pc := Handling)
    case AcquireReturns(w, _, _) =>
      var reply := RedisReply(s.keys, Sent(s, t).value);
      if reply.Granted? then Worker(Running, Some(reply.handle), Expiry(t.at, LOCK_TTL), false)
      else s.workers[w].(pc := Contended)
    case AcquireRaises(w, _, _, _) => s.workers[w].(pc := Handling)
    case AcquireCancelled(w, _, _, _) => s.workers[w].(pc := Finishing)
    case RetryScheduled(w) => s.workers[w].(pc := Finishing)
    case RetryRaises(w) => s.workers[w].(pc := Handling)
    case BodyReturns(w) => s.workers[w].(pc := Finishing)
    case BodyRaises(w) => s.workers[w].(pc := Handling)
    case HandlerEnds(w) => s.workers[w].(pc := Finishing)
    case Cancelled(w) => s.workers[w].(pc := Finishing)
    case RenewReturns(w) =>
      if RedisReply(s.keys, Sent(s, t).value) == Yes then s.workers[w].(promised := Expiry(t.at, LOCK_TTL))
      else s.workers[w]
    case RenewRaises(w, _) => s.workers[w]
    case ReleaseReturns(w) => s.workers[w].(pc := Closed, attempted := true)
    case ReleaseRaises(w, _) => s.workers[w].(pc := Closed, attempted := true)
    case CloseUnlocked(w) => s.workers[w].(pc := Closed)
  }

  predicate Draws(event: Event) { event.AcquireReturns? || event.AcquireRaises? || event.AcquireCancelled? }

  function Next(s: System, t: Timed): System
    requires Enabled(s, t)
  {
    System(
      s.lock,
      if Sent(s, t).Some? then RedisNext(s.keys, Sent(s, t).value) else s.keys,
      if t.event.OtherLock? then s.workers else s.workers[t.event.w := Moved(s, t)],
      if Draws(t.event) then s.drawn + {t.event.token} else s.drawn,
      t.at)
  }

  // An interleaving of workers, from a server that does not know the lock yet; None if some
  // event was not possible where it stands.
  function Exec(lock: string, run: seq<Timed>, begin: int): Option<System> {
    if run == [] then Some(System(lock, map[], map[], {}, begin))
    else
      var s, t := Exec(lock, run[..|run| - 1], begin), run[|run| - 1];
      if s.Some? && Enabled(s.value, t) then Some(Next(s.value, t)) else None
  }

  // ---------------------------------------------------------------- invariant

  ghost predicate WorkerOk(s: System, w: WorkerId, now: int)
    requires w in s.workers
  {
    var me := s.workers[w];
    && (me.handle.Some? ==> me.handle.value.name == s.lock && me.handle.value.token in s.drawn)
    && (me.pc in {Starting, Leased, Contended} ==> me.handle == None)
    && (me.pc == Closed && me.handle.Some? ==> me.attempted)
    // An unexpired promise is backed by the server's key.
    && (Critical(me) && now < me.promised ==>
          var e := Get(s.keys, Key(s.lock), now);
          e.Some? && e.value.token == me.handle.value.token && me.promised <= e.value.expiresAt)
  }

  ghost predicate DistinctTokens(s: System) {
    forall v, w :: v in s.workers && w in s.workers && v != w && s.workers[v].handle.Some? && s.workers[w].handle.Some?
      ==> s.workers[v].handle.value.token != s.workers[w].handle.value.token
  }

  ghost predicate Inv(s: System, now: int) {
    && (forall w :: w in s.workers ==> WorkerOk(s, w, now))
    && DistinctTokens(s)
  }

  // The handle a worker carries after an event is the one it had, or one with the token just drawn.
  lemma HandlesAreOldOrDrawn(s: System, t: Timed, w: WorkerId)
    requires Enabled(s, t) && w in Next(s, t).workers
    requires Inv(s, s.now)
    ensures var h := Next(s, t).workers[w].handle;
      || h == None
      || (w in s.workers && h == s.workers[w].handle)
      || (Draws(t.event) && t.event.w == w
          && h.value.token == t.event.token && h.value.name == s.lock)
  {
  }

  // What one lock call leaves of a key that is somebody's.
  lemma KeySurvives(keys: Keys, lock: string, c: Call, token: Token, promised: int, now: int)
    requires now <= c.now < promised
    requires Get(keys, Key(lock), now).Some? && keys[Key(lock)].token == token && promised <= keys[Key(lock)].expiresAt
    requires c.Release? && c.handle.name == lock ==> c.handle.token != token
    requires c.Renew? && c.handle.name == lock ==> promised <= Expiry(c.now, c.ttlSeconds)
    ensures var e := Get(RedisNext(keys, c), Key(lock), c.now);
      e.Some? && e.value.token == token && promised <= e.value.expiresAt
  {
    KeyIsInjective(lock, LockName(c));
  }

  // Nobody is promised more than a full term ahead.
  ghost predicate PromisesAreBounded(s: System) {
    forall w :: w in s.workers ==> s.workers[w].promised <= Expiry(s.now, LOCK_TTL) || s.workers[w].handle == None
  }

  lemma StepKeepsWorker(s: System, t: Timed, w: WorkerId, now: int)
    requires Enabled(s, t) && Inv(s, s.now) && PromisesAreBounded(s) && t.at <= now
    requires w in Next(s, t).workers
    ensures WorkerOk(Next(s, t), w, now)
  {
    var s', c := Next(s, t), Sent(s, t);
    HandlesAreOldOrDrawn(s, t, w);
    var me := s'.workers[w];
    if Critical(me) && now < me.promised {
      if w in s.workers && me.handle == s.workers[w].handle && me.promised == s.workers[w].promised {
        assert Critical(s.workers[w]) && s.now < me.promised && WorkerOk(s, w, s.now);
        if c.Some? {
          if c.value.Release? && c.value.handle.name == s.lock {
            assert c.value.handle.token != me.handle.value.token;
          }
          KeySurvives(s.keys, s.lock, c.value, me.handle.value.token, me.promised, s.now);
        }
      }
    }
  }

  lemma StepKeepsTokensDistinct(s: System, t: Timed)
    requires Enabled(s, t) && Inv(s, s.now)
    ensures DistinctTokens(Next(s, t))
  {
    var workers := Next(s, t).workers;
    forall v, w | v in workers && w in workers && v != w && workers[v].handle.Some? && workers[w].handle.Some?
      ensures workers[v].handle.value.token != workers[w].handle.value.token
    {
      HandlesAreOldOrDrawn(s, t, v);
      HandlesAreOldOrDrawn(s, t, w);
      assert v in s.workers ==> WorkerOk(s, v, s.now);
      assert w in s.workers ==> WorkerOk(s, w, s.now);
    }
  }

  lemma StepKeepsBounds(s: System, t: Timed)
    requires Enabled(s, t) && PromisesAreBounded(s)
    ensures PromisesAreBounded(Next(s, t))
  {
  }

  lemma StepKeepsInv(s: System, t: Timed, now: int)
    requires Enabled(s, t) && Inv(s, s.now) && PromisesAreBounded(s) && t.at <= now
    ensures Inv(Next(s, t), now) && PromisesAreBounded(Next(s, t))
  {
    forall w | w in Next(s, t).workers ensures WorkerOk(Next(s, t), w, now) {
      StepKeepsWorker(s, t, w, now);
    }
    StepKeepsTokensDistinct(s, t);
    StepKeepsBounds(s, t);
  }

  lemma {:induction false} InvAlongRun(lock: string, run: seq<Timed>, begin: int, now: int)
    requires Exec(lock, run, begin).Some? && Exec(lock, run, begin).value.now <= now
    ensures Inv(Exec(lock, run, begin).value, now) && PromisesAreBounded(Exec(lock, run, begin).value)
  {
    if run != [] {
      var n := |run| - 1;
      var s := Exec(lock, run[..n], begin).value;
      InvAlongRun(lock, run[..n], begin, s.now);
      StepKeepsInv(s, run[n], now);
    }
  }

  // ---------------------------------------------------------------- theorems

  /** At any time in any interleaving, at most one worker is in its critical section with
      an unexpired promise. */
  lemma OneUnexpiredHolder(lock: string, run: seq<Timed>, begin: int, now: int, v: WorkerId, w: WorkerId)
    requires Exec(lock, run, begin).Some? && Exec(lock, run, begin).value.now <= now
    requires var workers := Exec(lock, run, begin).value.workers;
      && v in workers && Critical(workers[v]) && now < workers[v].promised
      && w in workers && Critical(workers[w]) && now < workers[w].promised
    ensures v == w
  {
    InvAlongRun(lock, run, begin, now);
    var s := Exec(lock, run, begin).value;
    assert WorkerOk(s, v, now) && WorkerOk(s, w, now);
  }

  ghost predicate WithinTerm(s: System, now: int) {
    forall w :: w in s.workers && Critical(s.workers[w]) ==> now < s.workers[w].promised
  }

  // Whenever something happens, every worker in its critical section is still within its term.
  ghost predicate Timely(lock: string, run: seq<Timed>, begin: int) {
    run == [] ||
    (var n := |run| - 1;
     && Timely(lock, run[..n], begin)
     && (Exec(lock, run[..n], begin).Some? ==> WithinTerm(Exec(lock, run[..n], begin).value, run[n].at)))
  }

  // A worker that enters its critical section does so with a full term.
  lemma StepStaysWithinTerm(s: System, t: Timed)
    requires Enabled(s, t) && Inv(s, s.now) && WithinTerm(s, t.at)
    ensures WithinTerm(Next(s, t), t.at)
  {
    forall w | w in Next(s, t).workers && Critical(Next(s, t).workers[w]) ensures t.at < Next(s, t).workers[w].promised {
      assert w in s.workers ==> WorkerOk(s, w, s.now);
    }
  }

  /** If every renewal lands before the previous expiry, at most one worker is between its
      acquire and its release. */
  lemma ExclusionWhenTimely(lock: string, run: seq<Timed>, begin: int, v: WorkerId, w: WorkerId)
    requires Exec(lock, run, begin).Some? && Timely(lock, run, begin)
    requires var workers := Exec(lock, run, begin).value.workers;
      v in workers && Critical(workers[v]) && w in workers && Critical(workers[w])
    ensures v == w
  {
    var n, s := |run| - 1, Exec(lock, run, begin).value;
    var before := Exec(lock, run[..n], begin).value;
    InvAlongRun(lock, run[..n], begin, before.now);
    StepStaysWithinTerm(before, run[n]);
    OneUnexpiredHolder(lock, run, begin, s.now, v, w);
  }

  // A worker leaves its critical section only by attempting the release, whatever raised or
  // was cancelled before. `JobRun` rests on this and the next lemma.
  lemma LeavingIsReleasing(s: System, t: Timed, w: WorkerId)
    requires Enabled(s, t) && w in s.workers && Critical(s.workers[w])
    ensures w in Next(s, t).workers
    ensures Critical(Next(s, t).workers[w]) <==> !((t.event.ReleaseReturns? || t.event.ReleaseRaises?) && t.event.w == w)
    ensures !Critical(Next(s, t).workers[w]) ==> Next(s, t).workers[w].attempted
    ensures t.event.ReleaseReturns? && t.event.w == w ==>
      !RedisCurrent(Next(s, t).keys, s.workers[w].handle.value.name, s.workers[w].handle.value.token, t.at)
  {
  }

  // A closed worker that ever held the lock has attempted its release.
  lemma ClosedMeansAttempted(lock: string, run: seq<Timed>, begin: int, w: WorkerId)
    requires Exec(lock, run, begin).Some?
    requires var workers := Exec(lock, run, begin).value.workers;
      w in workers && workers[w].pc == Closed && workers[w].handle.Some?
    ensures Exec(lock, run, begin).value.workers[w].attempted
  {
    var s := Exec(lock, run, begin).value;
    InvAlongRun(lock, run, begin, s.now);
    assert WorkerOk(s, w, s.now);
  }

  // Worker 0 takes the lock and stalls for its whole term; worker 1 then takes it too.
  function Stall(begin: int): seq<Timed> {
    [Timed(begin, Begin(0)), Timed(begin, LeaseGranted(0)), Timed(begin, AcquireReturns(0, "a", "a:0")),
     Timed(begin, Begin(1)), Timed(begin, LeaseGranted(1)), Timed(Expiry(begin, LOCK_TTL), AcquireReturns(1, "b", "b:1"))]
  }

  lemma ExecOneMore(lock: string, run: seq<Timed>, k: nat, begin: int)
    requires k < |run| && Exec(lock, run[..k], begin).Some? && Enabled(Exec(lock, run[..k], begin).value, run[k])
    ensures Exec(lock, run[..k + 1], begin) == Some(Next(Exec(lock, run[..k], begin).value, run[k]))
  {
    assert run[..k + 1][..k] == run[..k];
  }

  // After four events: worker 0 has the lock, worker 1 has begun.
  function Half(lock: string, begin: int): System {
    System(
      lock,
      map[Key(lock) := Entry("a:0", Expiry(begin, LOCK_TTL))],
      map[0 := Worker(Running, Some(LockHandle(lock, "a:0", "a")), Expiry(begin, LOCK_TTL), false),
          1 := Worker(Starting, None, 0, false)],
      {"a:0"},
      begin)
  }

  function Quarter(lock: string, begin: int): System {
    System(lock, map[], map[0 := Worker(Leased, None, 0, false)], {}, begin)
  }

  lemma StallReachesQuarter(lock: string, begin: int)
    ensures Exec(lock, Stall(begin)[..2], begin) == Some(Quarter(lock, begin))
  {
    var r := Stall(begin);
    ExecOneMore(lock, r, 0, begin);
    ExecOneMore(lock, r, 1, begin);
    assert Exec(lock, r[..2], begin).value.workers == Quarter(lock, begin).workers;
  }

  // After three: worker 0 has the lock.
  function Held(lock: string, begin: int): System {
    Half(lock, begin).(workers := map[0 := Half(lock, begin).workers[0]])
  }

  lemma StallReachesHeld(lock: string, begin: int)
    ensures Exec(lock, Stall(begin)[..3], begin) == Some(Held(lock, begin))
  {
    var r, held := Stall(begin), Held(lock, begin);
    StallReachesQuarter(lock, begin);
    ExecOneMore(lock, r, 2, begin);
    var s := Exec(lock, r[..3], begin).value;
    assert s.keys == held.keys && s.drawn == held.drawn && s.workers == held.workers;
  }

  lemma StallReachesHalf(lock: string, begin: int)
    ensures Exec(lock, Stall(begin)[..4], begin) == Some(Half(lock, begin))
  {
    var r := Stall(begin);
    StallReachesHeld(lock, begin);
    ExecOneMore(lock, r, 3, begin);
    assert Exec(lock, r[..4], begin).value.workers == Half(lock, begin).workers;
  }

  /** The timeliness condition is needed: without it two workers can be critical at once. */
  lemma StallBreaksExclusion(lock: string, begin: int)
    ensures var s := Exec(lock, Stall(begin), begin);
      s.Some? && {0, 1} <= s.value.workers.Keys && Critical(s.value.workers[0]) && Critical(s.value.workers[1])
  {
    var r := Stall(begin);
    StallReachesHalf(lock, begin);
    ExecOneMore(lock, r, 4, begin);
    ExecOneMore(lock, r, 5, begin);
    assert r[..6] == r;
    assert "b:1" != "a:0" by {
      assert "b:1"[0] == 'b';
    }
  }

  // ---------------------------------------------------------------- how late a renewal may be

  // When the worker was last granted the lock or its renewal.
  function LastGrant(w: Worker): int { w.promised - LOCK_TTL * SECOND }

  ghost predicate FreshAt(s: System, now: int, g: int) {
    forall w :: w in s.workers && Critical(s.workers[w]) ==> now - LastGrant(s.workers[w]) <= g
  }

  // Whenever something happens, the last grant of every critical worker is at most g old.
  ghost predicate RenewedWithin(lock: string, g: int, run: seq<Timed>, begin: int) {
    run == [] ||
    (var n := |run| - 1;
     && RenewedWithin(lock, g, run[..n], begin)
     && (Exec(lock, run[..n], begin).Some? ==> FreshAt(Exec(lock, run[..n], begin).value, run[n].at, g)))
  }

  ghost predicate Exclusive(s: System) {
    forall v, w :: v in s.workers && w in s.workers && Critical(s.workers[v]) && Critical(s.workers[w]) ==> v == w
  }

  // At most one critical worker in every run with such renewals.
  ghost predicate Excludes(g: int) {
    forall lock: string, run: seq<Timed>, begin: int ::
      Exec(lock, run, begin).Some? && RenewedWithin(lock, g, run, begin) ==> Exclusive(Exec(lock, run, begin).value)
  }

  lemma {:induction false} RenewedIsTimely(lock: string, g: int, run: seq<Timed>, begin: int)
    requires RenewedWithin(lock, g, run, begin) && g < LOCK_TTL * SECOND
    ensures Timely(lock, run, begin)
  {
    if run != [] {
      RenewedIsTimely(lock, g, run[..|run| - 1], begin);
    }
  }

  lemma RenewedStep(lock: string, g: int, run: seq<Timed>, begin: int, k: nat)
    requires k < |run| && RenewedWithin(lock, g, run[..k], begin)
    requires Exec(lock, run[..k], begin).Some? ==> FreshAt(Exec(lock, run[..k], begin).value, run[k].at, g)
    ensures RenewedWithin(lock, g, run[..k + 1], begin)
  {
    assert run[..k + 1][..k] == run[..k];
  }

  // Before the second worker's acquire.
  function Almost(lock: string, begin: int): System {
    Half(lock, begin).(workers := Half(lock, begin).workers[1 := Worker(Leased, None, 0, false)])
  }

  lemma StallReachesAlmost(lock: string, begin: int)
    ensures Exec(lock, Stall(begin)[..5], begin) == Some(Almost(lock, begin))
  {
    StallReachesHalf(lock, begin);
    ExecOneMore(lock, Stall(begin), 4, begin);
  }

  lemma StallBeginsRenewed(lock: string, g: int, begin: int)
    requires g >= LOCK_TTL * SECOND
    ensures RenewedWithin(lock, g, Stall(begin)[..3], begin)
  {
    var r := Stall(begin);
    assert r[..0] == [];
    RenewedStep(lock, g, r, begin, 0);
    ExecOneMore(lock, r, 0, begin);
    RenewedStep(lock, g, r, begin, 1);
    StallReachesQuarter(lock, begin);
    RenewedStep(lock, g, r, begin, 2);
  }

  lemma StallIsRenewedWithin(lock: string, g: int, begin: int)
    requires g >= LOCK_TTL * SECOND
    ensures RenewedWithin(lock, g, Stall(begin), begin)
  {
    var r := Stall(begin);
    StallBeginsRenewed(lock, g, begin);
    StallReachesHeld(lock, begin);
    RenewedStep(lock, g, r, begin, 3);
    StallReachesHalf(lock, begin);
    RenewedStep(lock, g, r, begin, 4);
    StallReachesAlmost(lock, begin);
    RenewedStep(lock, g, r, begin, 5);
    assert r[..6] == r;
  }

  /** Worker exclusion holds over all runs whose renewals are at most g apart if and only if g
      is less than the lock's 120 s. */
  lemma ExclusionExactly(g: int)
    ensures Excludes(g) <==> g < LOCK_TTL * SECOND
  {
    if g < LOCK_TTL * SECOND {
      forall lock: string, run: seq<Timed>, begin: int
        | Exec(lock, run, begin).Some? && RenewedWithin(lock, g, run, begin)
        ensures Exclusive(Exec(lock, run, begin).value)
      {
        RenewedIsTimely(lock, g, run, begin);
        var s := Exec(lock, run, begin).value;
        forall v, w | v in s.workers && w in s.workers && Critical(s.workers[v]) && Critical(s.workers[w])
          ensures v == w
        {
          ExclusionWhenTimely(lock, run, begin, v, w);
        }
      }
    } else {
      StallIsRenewedWithin("", g, 0);
      StallBreaksExclusion("", 0);
      var s := Exec("", Stall(0), 0).value;
      assert 0 in s.workers && 1 in s.workers && !Exclusive(s);
    }
  }

  /** An acquire that reached the server but did not come back takes the lock for nobody: no
      worker holds its token, and everybody is denied until it expires. */
  lemma OrphanedLock(s: System, t: Timed, c: Call)
    requires Enabled(s, t) && Inv(s, s.now) && (t.event.AcquireRaises? || t.event.AcquireCancelled?)
    requires t.event.applied && Get(s.keys, Key(s.lock), t.at) == None
    requires c.Acquire? && c.name == s.lock && t.at <= c.now < Expiry(t.at, LOCK_TTL) && c.ttlSeconds > 0
    ensures var s' := Next(s, t);
      && RedisReply(s'.keys, c) == Denied
      && forall w :: w in s'.workers && s'.workers[w].handle.Some? ==> s'.workers[w].handle.value.token != t.event.token
  {
    var s' := Next(s, t);
    forall w | w in s'.workers && s'.workers[w].handle.Some?
      ensures s'.workers[w].handle.value.token != t.event.token
    {
      assert w in s.workers && s'.workers[w].handle == s.workers[w].handle && WorkerOk(s, w, s.now);
    }
  }
}
