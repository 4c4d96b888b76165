// orchestration/worker_runtime.py: `run_job` itself, statement by statement, against the
// Redis manager, with other workers acting between any two of its steps. Proved to be a run
// of the interleaving model that closes, and that has attempted the release if and only if
// the acquire came back with a handle.

module JobRun {
  import opened Collections
  import opened Locks
  import opened WorkerRuntime

  // How an awaited block ends: `except Exception` catches Raised, not Stopped.
  datatype End = Returned | Raised | Stopped

  // How a lock call ends; one that raises may still have reached the server.
  datatype Ack = Replied | Lost(applied: bool)

  // The acquire can also be cancelled, and may have reached the server all the same.
  datatype AcquireAck = Answered | Failed(applied: bool) | Cut(applied: bool)

  datatype Renewal = Renewal(at: int, ack: Ack)

  // A renewal under way when its task is cancelled can reach the server before the release,
  // after it, or not at all.
  datatype InFlight = Nothing | BeforeRelease(at: int) | AfterRelease(at: int)

  // What the rest of the world does to one `run_job`: how its calls end and when they are
  // made, if not later, and what the others try before each of its steps.
  datatype Script = Script(
    lease: End, acquireAt: int, owner: string, token: Token, acquire: AcquireAck, retry: End,
    duringBody: seq<Renewal>, body: End, duringHandler: seq<Renewal>, handler: End, inFlight: InFlight,
    releaseAt: int, release: Ack, others: nat -> seq<Timed>)

  function Later(a: int, b: int): int { if a < b then b else a }

  lemma ExecSnoc(lock: string, run: seq<Timed>, begin: int, t: Timed)
    requires Exec(lock, run, begin).Some? && Enabled(Exec(lock, run, begin).value, t)
    ensures Exec(lock, run + [t], begin) == Some(Next(Exec(lock, run, begin).value, t))
  {
    assert (run + [t])[..|run|] == run;
  }

  // A token that is not current becomes so only by being drawn for this lock.
  lemma StaysOff(keys: Keys, lock: string, token: Token, c: Call, now: int)
    requires !RedisCurrent(keys, lock, token, now) && now <= c.now
    requires c.Acquire? && c.name == lock ==> c.token != token
    ensures !RedisCurrent(RedisNext(keys, c), lock, token, c.now)
  {
    KeyIsInjective(lock, LockName(c));
  }

  // Something that another process does, without drawing this worker's token.
  predicate Foreign(event: Event, me: WorkerId, token: Token) {
    (event.OtherLock? || event.w != me) && (Draws(event) ==> event.token != token)
  }

  // What the worker itself did in a run, in order.
  predicate By(event: Event, me: WorkerId) { !event.OtherLock? && event.w == me }

  function Did(log: seq<Timed>, me: WorkerId): seq<Event> {
    if log == [] then []
    else
      var n := |log| - 1;
      Did(log[..n], me) + if By(log[n].event, me) then [log[n].event] else []
  }

  lemma DidSnoc(log: seq<Timed>, t: Timed, me: WorkerId)
    ensures Did(log + [t], me) == Did(log, me) + if By(t.event, me) then [t.event] else []
  {
    assert (log + [t])[..|log|] == log;
  }

  // What a script makes the worker do, statement by statement.
  function RenewEvent(me: WorkerId, ack: Ack): Event {
    match ack
    case Replied => RenewReturns(me)
    case Lost(applied) => RenewRaises(me, applied)
  }

  function Asked(me: WorkerId, renewals: seq<Renewal>): (events: seq<Event>) {
    if renewals == [] then []
    else
      var n := |renewals| - 1;
      Asked(me, renewals[..n]) + [RenewEvent(me, renewals[n].ack)]
  }

  function Ending(end: End, returned: Event, raised: Event, stopped: Event): seq<Event> {
    match end
    case Returned => [returned]
    case Raised => [raised]
    case Stopped => [stopped]
  }

  function AcquireEvent(me: WorkerId, s: Script): Event {
    match s.acquire
    case Answered => AcquireReturns(me, s.owner, s.token)
    case Failed(applied) => AcquireRaises(me, s.owner, s.token, applied)
    case Cut(applied) => AcquireCancelled(me, s.owner, s.token, applied)
  }

  // The statements after the acquire: the reschedule, the job body, or none.
  function Afterwards(me: WorkerId, s: Script, granted: bool): seq<Event> {
    if s.acquire != Answered then []
    else if granted then Asked(me, s.duringBody) + Ending(s.body, BodyReturns(me), BodyRaises(me), Cancelled(me))
    else Ending(s.retry, RetryScheduled(me), RetryRaises(me), Cancelled(me))
  }

  function Try(me: WorkerId, s: Script, granted: bool): seq<Event> {
    Ending(s.lease, LeaseGranted(me), LeaseRaises(me), Cancelled(me))
    + if s.lease == Returned then [AcquireEvent(me, s)] + Afterwards(me, s, granted) else []
  }

  // Some statement under the lease raised.
  predicate LeasedRaises(s: Script, granted: bool) {
    s.acquire.Failed? || (s.acquire == Answered && (if granted then s.body else s.retry) == Raised)
  }

  // Some statement of the `try` block raised.
  predicate TryRaises(s: Script, granted: bool) {
    s.lease == Raised || (s.lease == Returned && LeasedRaises(s, granted))
  }

  function Except(me: WorkerId, s: Script, granted: bool): seq<Event> {
    (if granted then Asked(me, s.duringHandler) else [])
    + [if s.handler == Stopped then Cancelled(me) else HandlerEnds(me)]
  }

  function Finally(me: WorkerId, s: Script, granted: bool): seq<Event> {
    if granted then
      (if s.inFlight.BeforeRelease? then [RenewRaises(me, true)] else [])
      + [if s.release == Replied then ReleaseReturns(me) else ReleaseRaises(me, s.release.applied)]
      + if s.inFlight.AfterRelease? then [RenewRaises(me, true)] else []
    else [CloseUnlocked(me)]
  }

  function Story(me: WorkerId, s: Script, granted: bool): seq<Event> {
    [Begin(me)] + Try(me, s, granted)
    + (if TryRaises(s, granted) then Except(me, s, granted) else [])
    + Finally(me, s, granted)
  }

  lemma Regrouped(done: seq<Event>, a: seq<Event>, b: seq<Event>, c: seq<Event>, d: seq<Event>)
    ensures done + a + b + c + d == done + (a + b + c + d)
  {
  }

  class JobRunner {
    const locks: RedisLockManager
    const lock: string
    const me: WorkerId
    const begin: int
    var handle: Option<LockHandle>
    var sys: System
    var turn: nat
    ghost var log: seq<Timed>

    // The log is a run of the interleaving model, and the server is where that run leaves it.
    ghost predicate Valid()
      reads this, locks.r
    {
      Exec(lock, log, begin) == Some(sys) && locks.r.keys == sys.keys && sys.lock == lock
    }

    ghost predicate Stands(pc: Pc)
      reads this, locks.r
    {
      && Valid() && me in sys.workers
      && sys.workers[me].pc == pc && sys.workers[me].handle == handle && !sys.workers[me].attempted
    }

    ghost predicate Off(token: Token)
      reads this, locks.r
    {
      !RedisCurrent(locks.r.keys, lock, token, sys.now)
    }

    // What this worker has done so far.
    ghost function Done(): seq<Event>
      reads this
    {
      Did(log, me)
    }

    // A worker process joins a server on which `log` has happened.
    constructor (locks: RedisLockManager, lock: string, me: WorkerId, begin: int, sys: System, ghost log: seq<Timed>)
      requires Exec(lock, log, begin) == Some(sys) && locks.r.keys == sys.keys && sys.lock == lock
      ensures Valid() && this.locks == locks && this.lock == lock && this.me == me && this.log == log && this.sys == sys
    {
      this.locks, this.lock, this.me, this.begin, this.handle := locks, lock, me, begin, None;
      this.log, this.sys, this.turn := log, sys, 0;
    }

    // The model's account of what has just been done.
    method Note(t: Timed)
      requires Exec(lock, log, begin) == Some(sys) && sys.lock == lock && Enabled(sys, t)
      modifies this`log, this`sys
      ensures Exec(lock, log, begin) == Some(sys) && log == old(log) + [t] && sys == Next(old(sys), t)
      ensures sys.lock == lock
      ensures Done() == old(Done()) + if By(t.event, me) then [t.event] else []
    {
      ExecSnoc(lock, log, begin, t);
      DidSnoc(log, t, me);
      log := log + [t];
      sys := Next(sys, t);
    }

    // Another process does what it tries, if it can.
    method Other(t: Timed, token: Token)
      requires Valid() && Foreign(t.event, me, token)
      modifies this`log, this`sys, locks.r
      ensures Valid() && old(log) <= log && old(sys.now) <= sys.now && Done() == old(Done())
      ensures me in sys.workers <==> me in old(sys.workers)
      ensures me in sys.workers ==> sys.workers[me] == old(sys.workers)[me]
      ensures token !in old(sys.drawn) ==> token !in sys.drawn
      ensures old(Off(token)) ==> Off(token)
    {
      if Enabled(sys, t) {
        var c := Sent(sys, t);
        if c.Some? {
          if !RedisCurrent(sys.keys, lock, token, sys.now) {
            StaysOff(sys.keys, lock, token, c.value, sys.now);
          }
          locks.r.keys := RedisNext(locks.r.keys, c.value);
        }
        Note(t);
      }
    }

    // The others' turn, before a step of this worker.
    method Yield(s: Script)
      requires Valid()
      modifies this`log, this`sys, this`turn, locks.r
      ensures Valid() && old(log) <= log && old(sys.now) <= sys.now && Done() == old(Done())
      ensures me in sys.workers <==> me in old(sys.workers)
      ensures me in sys.workers ==> sys.workers[me] == old(sys.workers)[me]
      ensures s.token !in old(sys.drawn) ==> s.token !in sys.drawn
      ensures old(Off(s.token)) ==> Off(s.token)
    {
      var events := s.others(turn);
      turn := turn + 1;
      for i := 0 to |events|
        invariant Valid() && old(log) <= log && old(sys.now) <= sys.now && Done() == old(Done())
        invariant me in sys.workers <==> me in old(sys.workers)
        invariant me in sys.workers ==> sys.workers[me] == old(sys.workers)[me]
        invariant s.token !in old(sys.drawn) ==> s.token !in sys.drawn
        invariant old(Off(s.token)) ==> Off(s.token)
      {
        if Foreign(events[i].event, me, s.token) {
          Other(events[i], s.token);
        }
      }
    }

    // A step of this worker that sends nothing to the server and only moves it on.
    method Quiet(s: Script, event: Event, from: Pc, to: Pc)
      requires Stands(from) && to != Closed
      requires (event, from, to) in {
        (LeaseGranted(me), Starting, Leased), (LeaseRaises(me), Starting, Handling), (Cancelled(me), Starting, Finishing),
        (RetryScheduled(me), Contended, Finishing), (RetryRaises(me), Contended, Handling),
        (Cancelled(me), Contended, Finishing), (BodyReturns(me), Running, Finishing), (BodyRaises(me), Running, Handling),
        (Cancelled(me), Running, Finishing), (HandlerEnds(me), Handling, Finishing), (Cancelled(me), Handling, Finishing)
      }
      modifies this`log, this`sys, this`turn, locks.r
      ensures Stands(to) && old(log) < log && Done() == old(Done()) + [event]
      ensures s.token !in old(sys.drawn) ==> s.token !in sys.drawn
    {
      Yield(s);
      Note(Timed(sys.now, event));
    }

    // await lock_mgr.acquire(...)
    method AcquireLock(s: Script) returns (end: End)
      requires Stands(Leased) && handle == None && s.token !in sys.drawn
      modifies this`handle, this`log, this`sys, this`turn, locks.r
      ensures old(log) < log && Done() == old(Done()) + [AcquireEvent(me, s)]
      ensures end == Returned <==> s.acquire == Answered
      ensures end == Raised <==> s.acquire.Failed?
      ensures end == Returned ==> Stands(if handle.Some? then Running else Contended)
      ensures end == Raised ==> Stands(Handling) && handle == None
      ensures end == Stopped ==> Stands(Finishing) && handle == None
      ensures handle.Some? ==> handle.value.name == lock && handle.value.token == s.token
    {
      Yield(s);
      var at := Later(sys.now, s.acquireAt);
      if s.acquire == Answered || s.acquire.applied {
        var reply := locks.TryAcquire(at, lock, s.owner, LOCK_TTL, s.token);
        if s.acquire == Answered && reply.Granted? {
          handle := Some(reply.handle);
        }
      }
      Note(Timed(at, AcquireEvent(me, s)));
      end := match s.acquire
             case Answered => Returned
             case Failed(_) => Raised
             case Cut(_) => Stopped;
    }

    // One turn of `_lock_renew_loop`: whatever comes of it, the loop goes on.
    method RenewOnce(s: Script, renewal: Renewal, pc: Pc)
      requires pc == Running || pc == Handling
      requires Stands(pc) && handle.Some?
      modifies this`log, this`sys, this`turn, locks.r
      ensures Stands(pc) && old(log) < log && Done() == old(Done()) + [RenewEvent(me, renewal.ack)]
      ensures renewal.ack == Replied ==> exists at :: renewal.at <= at && log[|log| - 1] == Timed(at, RenewReturns(me))
    {
      Yield(s);
      var at := Later(sys.now, renewal.at);
      if renewal.ack == Replied || renewal.ack.applied {
        var ok := locks.TryRenew(at, handle.value, LOCK_TTL);
      }
      Note(Timed(at, if renewal.ack == Replied then RenewReturns(me) else RenewRaises(me, renewal.ack.applied)));
    }

    // `_lock_renew_loop`, as far as it gets before it is cancelled.
    method RenewLoop(s: Script, renewals: seq<Renewal>, pc: Pc)
      requires pc == Running || pc == Handling
      requires Stands(pc) && handle.Some?
      modifies this`log, this`sys, this`turn, locks.r
      ensures Stands(pc) && old(log) <= log && Done() == old(Done()) + Asked(me, renewals)
    {
      for i := 0 to |renewals|
        invariant Stands(pc) && old(log) <= log && Done() == old(Done()) + Asked(me, renewals[..i])
      {
        RenewOnce(s, renewals[i], pc);
        assert renewals[..i + 1][..i] == renewals[..i];
      }
      assert renewals[..|renewals|] == renewals;
    }

    // A renewal under way reaches the server; nobody waits for its reply.
    method Straggle(s: Script, renewAt: int)
      requires Valid() && AtWithLock(sys, me, {Finishing, Closed}) && sys.workers[me].handle == handle
      requires handle.value.name == lock && handle.value.token == s.token
      modifies this`log, this`sys, this`turn, locks.r
      ensures Valid() && old(log) < log && me in sys.workers && sys.workers[me] == old(sys.workers)[me]
      ensures Done() == old(Done()) + [RenewRaises(me, true)]
      ensures old(Off(s.token)) ==> Off(s.token)
    {
      Yield(s);
      var at := Later(sys.now, renewAt);
      if !RedisCurrent(sys.keys, lock, s.token, sys.now) {
        StaysOff(sys.keys, lock, s.token, Renew(at, handle.value, LOCK_TTL), sys.now);
      }
      var ok := locks.TryRenew(at, handle.value, LOCK_TTL);
      Note(Timed(at, RenewRaises(me, true)));
    }

    // The release in the `finally` block; its errors are swallowed.
    method ReleaseLock(s: Script)
      requires Stands(Finishing) && handle.Some?
      requires handle.value.name == lock && handle.value.token == s.token
      modifies this`log, this`sys, this`turn, locks.r
      ensures Valid() && old(log) < log && me in sys.workers && sys.workers[me].pc == Closed
      ensures sys.workers[me].handle == handle && sys.workers[me].attempted
      ensures Done() == old(Done())
        + [if s.release == Replied then ReleaseReturns(me) else ReleaseRaises(me, s.release.applied)]
      ensures s.release == Replied ==> Off(s.token)
    {
      Yield(s);
      var at := Later(sys.now, s.releaseAt);
      if s.release == Replied || s.release.applied {
        var ok := locks.TryRelease(at, handle.value);
      }
      var event := if s.release == Replied then ReleaseReturns(me) else ReleaseRaises(me, s.release.applied);
      LeavingIsReleasing(sys, Timed(at, event), me);
      Note(Timed(at, event));
    }

    // The `finally` block.
    method Finish(s: Script)
      requires Stands(Finishing)
      requires handle.Some? ==> handle.value.name == lock && handle.value.token == s.token
      modifies this`log, this`sys, this`turn, locks.r
      ensures Valid() && old(log) < log && me in sys.workers && sys.workers[me].pc == Closed
      ensures sys.workers[me].handle == handle && (handle.Some? <==> sys.workers[me].attempted)
      ensures Done() == old(Done()) + Finally(me, s, handle.Some?)
      ensures handle.Some? && s.release == Replied ==> Off(s.token)
    {
      hide Exec, Did;
      if handle.Some? {
        if s.inFlight.BeforeRelease? {
          Straggle(s, s.inFlight.at);
        }
        ReleaseLock(s);
        if s.inFlight.AfterRelease? {
          Straggle(s, s.inFlight.at);
        }
      } else {
        Yield(s);
        Note(Timed(sys.now, CloseUnlocked(me)));
      }
    }

    // Another worker holds the lock.
    method Reschedule(s: Script) returns (end: End)
      requires Stands(Contended) && handle == None
      modifies this`log, this`sys, this`turn, locks.r
      ensures old(log) < log && end == s.retry
      ensures Done() == old(Done()) + Ending(s.retry, RetryScheduled(me), RetryRaises(me), Cancelled(me))
      ensures Stands(if end == Raised then Handling else Finishing)
    {
      end := s.retry;
      match end
      case Returned => Quiet(s, RetryScheduled(me), Contended, Finishing);
      case Raised => Quiet(s, RetryRaises(me), Contended, Handling);
      case Stopped => Quiet(s, Cancelled(me), Contended, Finishing);
    }

    // The job body under the lock.
    method Work(s: Script) returns (end: End)
      requires Stands(Running) && handle.Some?
      modifies this`log, this`sys, this`turn, locks.r
      ensures old(log) < log && end == s.body
      ensures Done() == old(Done())
        + (Asked(me, s.duringBody) + Ending(s.body, BodyReturns(me), BodyRaises(me), Cancelled(me)))
      ensures Stands(if end == Raised then Handling else Finishing)
    {
      RenewLoop(s, s.duringBody, Running);
      end := s.body;
      match end
      case Returned => Quiet(s, BodyReturns(me), Running, Finishing);
      case Raised => Quiet(s, BodyRaises(me), Running, Handling);
      case Stopped => Quiet(s, Cancelled(me), Running, Finishing);
    }

    // The rest of the `try` block once the job is leased.
    method UnderLease(s: Script) returns (end: End)
      requires Stands(Leased) && handle == None && s.token !in sys.drawn
      modifies this`handle, this`log, this`sys, this`turn, locks.r
      ensures old(log) < log && Done() == old(Done()) + ([AcquireEvent(me, s)] + Afterwards(me, s, handle.Some?))
      ensures Stands(if end == Raised then Handling else Finishing)
      ensures end == Raised <==> LeasedRaises(s, handle.Some?)
      ensures handle.Some? ==> s.acquire == Answered
      ensures handle.Some? ==> handle.value.name == lock && handle.value.token == s.token
    {
      hide Exec, Did;
      end := AcquireLock(s);
      if end == Returned && handle.None? {
        end := Reschedule(s);
      } else if end == Returned {
        end := Work(s);
      }
    }

    // The `try` block.
    method Attempt(s: Script) returns (end: End)
      requires Stands(Starting) && handle == None && s.token !in sys.drawn
      modifies this`handle, this`log, this`sys, this`turn, locks.r
      ensures old(log) < log && Done() == old(Done()) + Try(me, s, handle.Some?)
      ensures Stands(if end == Raised then Handling else Finishing)
      ensures end == Raised <==> TryRaises(s, handle.Some?)
      ensures handle.Some? ==> s.lease == Returned && s.acquire == Answered
      ensures handle.Some? ==> handle.value.name == lock && handle.value.token == s.token
    {
      hide Exec, Did;
      end := s.lease;
      match end {
        case Raised => Quiet(s, LeaseRaises(me), Starting, Handling);
        case Stopped => Quiet(s, Cancelled(me), Starting, Finishing);
        case Returned =>
          Quiet(s, LeaseGranted(me), Starting, Leased);
          end := UnderLease(s);
      }
    }

    // The `except` block, with the renewals that go on during it.
    method Recover(s: Script)
      requires Stands(Handling)
      modifies this`log, this`sys, this`turn, locks.r
      ensures Stands(Finishing) && old(log) < log
      ensures Done() == old(Done()) + Except(me, s, handle.Some?)
    {
      if handle.Some? {
        RenewLoop(s, s.duringHandler, Handling);
      }
      if s.handler == Stopped {
        Quiet(s, Cancelled(me), Handling, Finishing);
      } else {
        Quiet(s, HandlerEnds(me), Handling, Finishing);
      }
    }

    // The state before the `try` block.
    method Start()
      requires Valid() && me !in sys.workers
      modifies this`handle, this`log, this`sys
      ensures Stands(Starting) && handle == None && old(log) < log && Done() == old(Done()) + [Begin(me)]
      ensures sys.drawn == old(sys.drawn)
    {
      handle := None;
      Note(Timed(sys.now, Begin(me)));
    }

    /** A whole `run_job`, whatever it meets and whatever other workers do before and between its
        steps, is a run of the interleaving model that ends closed. It has attempted the release
        if and only if the acquire gave it a handle; a release that came back leaves its token
        not current, even if a late renewal arrives after it. */
    method RunJob(s: Script)
      requires Valid() && me !in sys.workers && s.token !in sys.drawn
      modifies this`handle, this`log, this`sys, this`turn, locks.r
      ensures Valid() && old(log) < log
      ensures Done() == old(Done()) + Story(me, s, handle.Some?)
      ensures me in sys.workers && sys.workers[me].pc == Closed && sys.workers[me].handle == handle
      ensures sys.workers[me].attempted <==> handle.Some?
      ensures handle.Some? ==> s.lease == Returned && s.acquire == Answered
      ensures handle.Some? ==> handle.value.name == lock && handle.value.token == s.token
      ensures handle.Some? && s.release == Replied ==> Off(s.token)
    {
      hide Exec, Did;
      Start();
      var end := Attempt(s);
      if end == Raised {
        Recover(s);
      }
      Finish(s);
      Regrouped(
        old(Done()), [Begin(me)], Try(me, s, handle.Some?), if end == Raised then Except(me, s, handle.Some?) else [],
        Finally(me, s, handle.Some?));
      if handle.Some? {
        ClosedMeansAttempted(lock, log, begin, me);
      }
    }
  }
}
