// orchestration/worker_runtime.py against locks/redis_lock.py: what each lock call of a worker
// does to the server and to the worker, said of the server's key, the event and its time alone.

module LockEffects {
  import opened Collections
  import opened Locks
  import opened WorkerRuntime

  // The 120 s of every acquire and every renewal, in microseconds.
  const TERM := 120_000_000

  // The key of the job's lock has not expired.
  predicate Live(s: System, at: int) {
    "lock:" + s.lock in s.keys && at < s.keys["lock:" + s.lock].expiresAt
  }

  predicate LiveWith(s: System, token: Token, at: int) {
    Live(s, at) && s.keys["lock:" + s.lock].token == token
  }

  // A system that some interleaving leads to.
  ghost predicate Reachable(s: System) {
    exists lock, run, begin :: Exec(lock, run, begin) == Some(s)
  }

  lemma {:induction false} LockStays(lock: string, run: seq<Timed>, begin: int)
    requires Exec(lock, run, begin).Some?
    ensures Exec(lock, run, begin).value.lock == lock
  {
    if run != [] {
      LockStays(lock, run[..|run| - 1], begin);
    }
  }

  lemma HandleNamesLock(s: System, w: WorkerId)
    requires Reachable(s) && w in s.workers && s.workers[w].handle.Some?
    ensures s.workers[w].handle.value.name == s.lock
  {
    var lock, run, begin :| Exec(lock, run, begin) == Some(s);
    InvAlongRun(lock, run, begin, s.now);
    assert WorkerOk(s, w, s.now);
  }

  /** A renewal that came back: while the key is live and carries the worker's token, the key is
      kept for exactly 120 s from now and the worker is promised exactly that; otherwise
      neither the server nor the worker changes. */
  lemma RenewalIsExact(s: System, t: Timed)
    requires Enabled(s, t) && Reachable(s) && t.event.RenewReturns?
    ensures var w, s' := t.event.w, Next(s, t);
      var me := s.workers[w];
      if LiveWith(s, me.handle.value.token, t.at) then
        && s'.keys == s.keys["lock:" + s.lock := Entry(me.handle.value.token, t.at + TERM)]
        && s'.workers == s.workers[w := Worker(me.pc, me.handle, t.at + TERM, me.attempted)]
      else s'.keys == s.keys && s'.workers == s.workers
  {
    HandleNamesLock(s, t.event.w);
  }

  /** An acquire that came back: without a live key it is granted for exactly 120 s, under the
      token and owner it brought; with one it is denied and the server stays as it is. */
  lemma AcquireIsExact(s: System, t: Timed)
    requires Enabled(s, t) && t.event.AcquireReturns?
    ensures var AcquireReturns(w, owner, token) := t.event;
      if Live(s, t.at) then
        Next(s, t).keys == s.keys && Next(s, t).workers == s.workers[w := s.workers[w].(pc := Contended)]
      else
        && Next(s, t).keys == s.keys["lock:" + s.lock := Entry(token, t.at + TERM)]
        && Next(s, t).workers
            == s.workers[w := Worker(Running, Some(LockHandle(s.lock, token, owner)), t.at + TERM, false)]
  {
  }

  /** A release that came back removes a live key of the worker's token, and nothing else. */
  lemma ReleaseIsExact(s: System, t: Timed)
    requires Enabled(s, t) && Reachable(s) && t.event.ReleaseReturns?
    ensures var w := t.event.w;
      && Next(s, t).keys
          == (if LiveWith(s, s.workers[w].handle.value.token, t.at) then s.keys - {"lock:" + s.lock} else s.keys)
      && Next(s, t).workers == s.workers[w := s.workers[w].(pc := Closed, attempted := true)]
  {
    HandleNamesLock(s, t.event.w);
  }

  // The same call with its reply.
  function WithReply(event: Event): Event
    requires event.AcquireRaises? || event.AcquireCancelled? || event.RenewRaises? || event.ReleaseRaises?
  {
    match event
    case AcquireRaises(w, owner, token, _) => AcquireReturns(w, owner, token)
    case AcquireCancelled(w, owner, token, _) => AcquireReturns(w, owner, token)
    case RenewRaises(w, _) => RenewReturns(w)
    case ReleaseRaises(w, _) => ReleaseReturns(w)
  }

  // The server's keys after the call `event`, if it is a lock call that reaches the server with a reply.
  ghost predicate LeavesKeys(s: System, at: int, event: Event, keys: Keys)
    requires event.AcquireReturns? || event.RenewReturns? || event.ReleaseReturns?
    requires event.AcquireReturns? || (event.w in s.workers && s.workers[event.w].handle.Some?)
  {
    var key := "lock:" + s.lock;
    match event
    case AcquireReturns(_, _, token) => keys == if Live(s, at) then s.keys else s.keys[key := Entry(token, at + TERM)]
    case RenewReturns(w) =>
      var token := s.workers[w].handle.value.token;
      keys == if LiveWith(s, token, at) then s.keys[key := Entry(token, at + TERM)] else s.keys
    case ReleaseReturns(w) => keys == if LiveWith(s, s.workers[w].handle.value.token, at) then s.keys - {key} else s.keys
  }

  /** A call that raised or was cancelled leaves the server as the same call with a reply does,
      if it reached it, and untouched otherwise. Its worker learns nothing: it has no handle
      after an acquire, no new promise after a renewal, and has tried after a release. */
  lemma LostCallIsExact(s: System, t: Timed)
    requires Enabled(s, t) && Reachable(s)
    requires t.event.AcquireRaises? || t.event.AcquireCancelled? || t.event.RenewRaises? || t.event.ReleaseRaises?
    ensures t.event.applied ==> LeavesKeys(s, t.at, WithReply(t.event), Next(s, t).keys)
    ensures !t.event.applied ==> Next(s, t).keys == s.keys
    ensures var me := s.workers[t.event.w];
      Next(s, t).workers == s.workers[t.event.w :=
        match t.event
        case AcquireRaises(_, _, _, _) => me.(pc := Handling)
        case AcquireCancelled(_, _, _, _) => me.(pc := Finishing)
        case RenewRaises(_, _) => me
        case _ => me.(pc := Closed, attempted := true)]
  {
    if !Draws(t.event) {
      HandleNamesLock(s, t.event.w);
    }
  }

  // A lock call of a worker, whether or not its reply came.
  predicate Calls(event: Event) {
    || Draws(event) || event.RenewReturns? || event.RenewRaises? || event.ReleaseReturns? || event.ReleaseRaises?
  }

  /** Everything else a worker does leaves the server alone, and calls about other locks leave
      this lock and all workers alone. */
  lemma OthersAreHarmless(s: System, t: Timed)
    requires Enabled(s, t) && !Calls(t.event)
    ensures !t.event.OtherLock? ==> Next(s, t).keys == s.keys
    ensures t.event.OtherLock? ==> Next(s, t).workers == s.workers
    ensures forall at :: Live(Next(s, t), at) <==> Live(s, at)
    ensures "lock:" + s.lock in s.keys <==> "lock:" + s.lock in Next(s, t).keys
    ensures "lock:" + s.lock in s.keys ==> Next(s, t).keys["lock:" + s.lock] == s.keys["lock:" + s.lock]
  {
    if t.event.OtherLock? {
      KeyIsInjective(s.lock, LockName(t.event.call));
    }
  }

  // ---------------------------------------------------------------- the lock frees itself

  // An acquire or renewal that reached the server, which is when a key gets its expiry.
  predicate Extends(event: Event) {
    match event
    case AcquireReturns(_, _, _) => true
    case AcquireRaises(_, _, _, applied) => applied
    case AcquireCancelled(_, _, _, applied) => applied
    case RenewReturns(_) => true
    case RenewRaises(_, applied) => applied
    case _ => false
  }

  // The key dates from some acquire or renewal of the run, and lasts 120 s from it.
  ghost predicate Dated(s: System, run: seq<Timed>) {
    "lock:" + s.lock in s.keys ==>
      exists k :: 0 <= k < |run| && Extends(run[k].event) && s.keys["lock:" + s.lock].expiresAt == run[k].at + TERM
  }

  lemma StepIsDated(s: System, run: seq<Timed>)
    requires run != [] && Reachable(s) && Enabled(s, run[|run| - 1]) && Dated(s, run[..|run| - 1])
    ensures Dated(Next(s, run[|run| - 1]), run)
  {
    var n := |run| - 1;
    var t, key := run[n], "lock:" + s.lock;
    var s' := Next(s, t);
    assert key in s'.keys && !(key in s.keys && s'.keys[key] == s.keys[key]) ==>
        Extends(t.event) && s'.keys[key].expiresAt == t.at + TERM by {
      if !Calls(t.event) {
        OthersAreHarmless(s, t);
      } else if !Draws(t.event) {
        HandleNamesLock(s, t.event.w);
      }
    }
    if key in s.keys {
      var k :| 0 <= k < n && Extends(run[..n][k].event) && s.keys[key].expiresAt == run[..n][k].at + TERM;
      assert Extends(run[k].event) && s.keys[key].expiresAt == run[k].at + TERM;
    }
  }

  lemma {:induction false} KeyIsDated(lock: string, run: seq<Timed>, begin: int)
    requires Exec(lock, run, begin).Some?
    ensures Dated(Exec(lock, run, begin).value, run)
  {
    if run != [] {
      KeyIsDated(lock, run[..|run| - 1], begin);
      StepIsDated(Exec(lock, run[..|run| - 1], begin).value, run);
    }
  }

  /** However the workers end, the lock frees itself: once 120 s have gone by since the last
      acquire or renewal that reached the server, the next acquire is granted. */
  lemma LockFreesItself(lock: string, run: seq<Timed>, begin: int, t: Timed)
    requires Exec(lock, run, begin).Some? && Enabled(Exec(lock, run, begin).value, t) && t.event.AcquireReturns?
    requires forall k :: 0 <= k < |run| && Extends(run[k].event) ==> run[k].at + TERM <= t.at
    ensures var me := Next(Exec(lock, run, begin).value, t).workers[t.event.w];
      me.pc == Running && me.handle == Some(LockHandle(lock, t.event.token, t.event.owner))
  {
    LockStays(lock, run, begin);
    KeyIsDated(lock, run, begin);
    AcquireIsExact(Exec(lock, run, begin).value, t);
  }
}
