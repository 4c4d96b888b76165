// What holds of the browser pool and the context allocator over any sequence of
// allocations, closes, restarts and stops, whatever fails in between.

module BrowserRuns {
  import opened Collections
  import opened Browsers

  datatype Op =
    | AllocateOp(session: Id, workspace: Path, w: AllocWorld)
    | CloseOp(session: Id)
    | RestartOp(close: Outcome, stop: Outcome, start: Outcome)
    | StopOp(close: Outcome, stop: Outcome)

  const EMPTY := Engine(Pool(false, [], map[], 0, {}, 0), map[], {}, 0, multiset{}, {})

  // Identifiers are drawn new; a session is closed once.
  predicate Possible(e: Engine, op: Op) {
    match op
    case AllocateOp(session, _, w) =>
      && session !in e.sessions
      && w.acquire.id != w.again.id
      && IsNew(e, w.acquire.id) && IsNew(e, w.again.id)
    case CloseOp(session) => session in e.sessions
    case _ => true
  }

  predicate IsNew(e: Engine, id: Id) {
    id !in e.pool.contexts && id !in e.asked && id !in e.pool.unclosed
  }

  function Perform(st: Settings, e: Engine, op: Op): Engine
    requires Possible(e, op)
  {
    match op
    case AllocateOp(session, workspace, w) => Allocate(st, e, session, workspace, w)
    case CloseOp(session) => Close(e, session)
    case RestartOp(close, stop, start) => e.(pool := RestartPool(e.pool, close, stop, start).pool)
    case StopOp(close, stop) => e.(pool := StopPool(e.pool, close, stop).pool)
  }

  function Exec(st: Settings, ops: seq<Op>): Option<Engine> {
    if ops == [] then Some(EMPTY)
    else
      var e := Exec(st, ops[..|ops| - 1]);
      if e.Some? && Possible(e.value, ops[|ops| - 1]) then Some(Perform(st, e.value, ops[|ops| - 1])) else None
  }

  // ---------------------------------------------------------------- one listed browser

  // A new browser always gets one context, even if the setting allows none.
  function Limit(st: Settings): nat {
    if st.maxContexts < 1 then 1 else st.maxContexts
  }

  ghost predicate PoolOk(st: Settings, s: Pool) {
    && |s.browsers| <= 1
    && s.contexts.Keys == (if s.browsers == [] then {} else {s.browsers[0].id})
    && (forall id :: id in s.contexts ==> s.contexts[id] <= Limit(st))
    && s.contexts.Keys <= s.unclosed
    && |s.unclosed| <= s.most
  }

  ghost predicate CountsOk(st: Settings, s: Pool, asked: multiset<Id>) {
    && (forall id :: id in s.contexts ==> asked[id] == s.contexts[id])
    && (forall id :: asked[id] <= Limit(st))
  }

  // The browsers that no list names any more though they were not closed.
  function Lost(s: Pool): set<Id> { s.unclosed - s.contexts.Keys }

  predicate Ignored(close: Outcome) { close != Done && close != Cancelled }

  // What forgetting the listed browser does, if its close is not cancelled.
  lemma ForgetSpec(st: Settings, s: Pool, close: Outcome)
    requires PoolOk(st, s) && (s.browsers != [] ==> close != Cancelled)
    ensures var t := Forget(s, close);
      && t.browsers == [] && |t.unclosed| <= s.most
      && t.unclosed == (if s.browsers != [] && Ignored(close) then s.unclosed else Lost(s))
  {
    if s.browsers == [] {
      assert Ids(s.browsers) == {};
    } else {
      assert s.browsers == [s.browsers[0]];
      assert Ids(s.browsers) == s.contexts.Keys;
      Fewer(s.unclosed, s.unclosed - s.contexts.Keys);
    }
  }

  lemma Fewer(a: set<Id>, b: set<Id>)
    requires b <= a
    ensures |b| <= |a|
  {
    assert a == b + (a - b);
  }

  lemma StopSpec(st: Settings, s: Pool, close: Outcome, stop: Outcome)
    requires PoolOk(st, s)
    ensures var t := StopPool(s, close, stop).pool;
      if s.browsers != [] && close == Cancelled then t == s
      else
        && PoolOk(st, t) && t.browsers == [] && t.contexts == map[] && t.most == s.most
        && t.unclosed == (if s.browsers != [] && Ignored(close) then s.unclosed else Lost(s))
  {
    if !(s.browsers != [] && close == Cancelled) {
      ForgetSpec(st, s, close);
    }
  }

  // A restart leaves of the pool what its stop leaves, but for `started`.
  lemma RestartSpec(st: Settings, s: Pool, close: Outcome, stop: Outcome, start: Outcome)
    requires PoolOk(st, s)
    ensures RestartPool(s, close, stop, start).pool
      == StopPool(s, close, stop).pool.(started := RestartPool(s, close, stop, start).pool.started)
  {
  }

  lemma RetireSpec(st: Settings, s: Pool, close: Outcome, offline: Outcome)
    requires PoolOk(st, s) && s.browsers != []
    ensures var t := Retire(s, close, offline).pool;
      if close == Cancelled then t == s
      else
        && PoolOk(st, t) && t.browsers == [] && t.contexts == map[] && t.gauge == 0 && t.most == s.most
        && t.unclosed == (if Ignored(close) then s.unclosed else Lost(s))
  {
    if close != Cancelled {
      ForgetSpec(st, s, close);
      assert s.contexts - {s.browsers[0].id} == map[];
    }
  }

  // The launch comes back with a browser.
  predicate LaunchWorks(w: World) {
    w.launch == Done || (w.launch == Stale && w.stop == Done && w.restart == Done && w.relaunch == Done)
  }

  // What the restart of a stale launch leaves of an empty, started pool.
  lemma StaleLaunchSpec(st: Settings, s: Pool, w: World)
    requires PoolOk(st, s) && s.browsers == [] && s.started
    ensures var e := RestartPool(s, w.close, w.stop, w.restart);
      && (e.outcome == Done <==> w.stop == Done && w.restart == Done)
      && e.pool.browsers == [] && e.pool.contexts == map[] && e.pool.unclosed == s.unclosed && e.pool.most == s.most
      && (s.gauge == 0 ==> e.pool.gauge == 0)
  {
    StopSpec(st, s, w.close, w.stop);
    RestartSpec(st, s, w.close, w.stop, w.restart);
    assert s.contexts == map[] && Lost(s) == s.unclosed;
  }

  // A launch into an empty, started pool.
  lemma LaunchSpec(st: Settings, s: Pool, w: World)
    requires PoolOk(st, s) && s.browsers == [] && s.started
    ensures var got := LaunchInto(s, w);
      && (got.Handed? <==> LaunchWorks(w) && w.register == Done)
      && (got.Handed? ==> got.live == Live(w.id, w.now))
      && (if LaunchWorks(w) then Launched(s, got.pool, w) else Unlaunched(s, got.pool))
      && (s.gauge == 0 ==> got.pool.gauge == if got.Handed? then 1 else 0)
  {
    assert s.contexts == map[];
    if w.launch == Stale {
      StaleLaunchSpec(st, s, w);
    }
  }

  predicate Launched(s: Pool, t: Pool, w: World) {
    && t.browsers == [Live(w.id, w.now)] && t.contexts == map[w.id := 0]
    && t.unclosed == s.unclosed + {w.id} && t.most == Max(s.most, |s.unclosed + {w.id}|)
  }

  predicate Unlaunched(s: Pool, t: Pool) {
    t.browsers == [] && t.contexts == map[] && t.unclosed == s.unclosed && t.most == s.most
  }

  // The listed browser goes; the acquire comes to a launch.
  predicate Retires(st: Settings, s: Pool, w: World) {
    (s.started || w.start == Done) && s.browsers != [] && Worn(st, s, w.now)
  }

  predicate ComesToLaunch(st: Settings, s: Pool, w: World) {
    && (s.started || w.start == Done)
    && (s.browsers != [] ==> Worn(st, s, w.now) && w.close != Cancelled && w.offline != Cancelled)
  }

  // The pool that a launch goes into.
  function BeforeLaunch(s: Pool, w: World): Pool {
    var t := s.(started := true);
    if t.browsers == [] then t else Retire(t, w.close, w.offline).pool
  }

  lemma BeforeLaunchSpec(st: Settings, s: Pool, w: World)
    requires PoolOk(st, s) && ComesToLaunch(st, s, w)
    ensures var t := BeforeLaunch(s, w);
      && PoolOk(st, t) && t.started && t.browsers == [] && t.most == s.most
      && t.gauge == (if s.browsers == [] then s.gauge else 0)
      && t.unclosed == (if s.browsers != [] && Ignored(w.close) then s.unclosed else Lost(s))
      && Acquire(st, s, w) == LaunchInto(t, w)
  {
    var t := s.(started := true);
    if s.browsers != [] {
      RetireSpec(st, t, w.close, w.offline);
    }
  }

  // Without a launch the acquire changes little.
  lemma NoLaunchSpec(st: Settings, s: Pool, w: World)
    requires PoolOk(st, s) && !ComesToLaunch(st, s, w)
    ensures var t := Acquire(st, s, w).pool;
      if Retires(st, s, w) && w.close != Cancelled then
        && PoolOk(st, t) && t.browsers == [] && t.contexts == map[] && t.most == s.most && t.gauge == 0
        && t.unclosed == (if Ignored(w.close) then s.unclosed else Lost(s))
      else
        t == s.(started := t.started)
    ensures Acquire(st, s, w).Handed? ==>
      s.browsers != [] && Acquire(st, s, w).live == s.browsers[0] && !Worn(st, s, w.now)
  {
    var t := s.(started := true);
    if Retires(st, s, w) {
      RetireSpec(st, t, w.close, w.offline);
    }
  }

  lemma LaunchKeepsPool(st: Settings, s: Pool, w: World)
    requires PoolOk(st, s) && s.browsers == [] && s.started
    ensures PoolOk(st, LaunchInto(s, w).pool) && LaunchInto(s, w).pool.contexts.Keys <= {w.id}
  {
    LaunchSpec(st, s, w);
  }

  lemma AcquireKeepsPool(st: Settings, s: Pool, w: World)
    requires PoolOk(st, s)
    ensures PoolOk(st, Acquire(st, s, w).pool)
    ensures Acquire(st, s, w).pool.contexts.Keys <= s.contexts.Keys + {w.id}
  {
    if ComesToLaunch(st, s, w) {
      BeforeLaunchSpec(st, s, w);
      LaunchKeepsPool(st, BeforeLaunch(s, w), w);
    } else {
      NoLaunchSpec(st, s, w);
    }
  }

  lemma HandedSpec(st: Settings, s: Pool, w: World)
    requires PoolOk(st, s) && Acquire(st, s, w).Handed?
    ensures var got := Acquire(st, s, w);
      && got.pool.started && got.pool.browsers == [got.live] && got.live.id in got.pool.contexts
      && Created(got.pool, got.live.id) < Limit(st)
  {
    if ComesToLaunch(st, s, w) {
      BeforeLaunchSpec(st, s, w);
      LaunchSpec(st, BeforeLaunch(s, w), w);
      LaunchStarts(BeforeLaunch(s, w), w);
    } else {
      NoLaunchSpec(st, s, w);
    }
  }

  lemma LaunchStarts(s: Pool, w: World)
    requires s.started && LaunchInto(s, w).Handed?
    ensures LaunchInto(s, w).pool.started
  {
  }

  lemma AcquireKeepsCounts(st: Settings, s: Pool, w: World, asked: multiset<Id>)
    requires PoolOk(st, s) && CountsOk(st, s, asked) && w.id !in asked
    ensures CountsOk(st, Acquire(st, s, w).pool, asked)
  {
    if ComesToLaunch(st, s, w) {
      BeforeLaunchSpec(st, s, w);
      LaunchSpec(st, BeforeLaunch(s, w), w);
    } else {
      NoLaunchSpec(st, s, w);
    }
  }

  lemma CountingKeepsPool(st: Settings, s: Pool, live: Live, asked: multiset<Id>)
    requires PoolOk(st, s) && CountsOk(st, s, asked)
    requires s.browsers == [live] && Created(s, live.id) < Limit(st)
    ensures PoolOk(st, CountContext(s, live.id)) && CountsOk(st, CountContext(s, live.id), asked + multiset{live.id})
    ensures CountContext(s, live.id).contexts.Keys == s.contexts.Keys
  {
  }

  // The pool after the restart that answers a stale context.
  function Restarted(s: Pool, live: Live, w: AllocWorld): Pool {
    RestartPool(CountContext(s, live.id), w.close, w.stop, w.restart).pool
  }

  predicate RestartWorks(w: AllocWorld) { w.close != Cancelled && w.stop == Done && w.restart == Done }

  lemma RestartedSpec(st: Settings, s: Pool, asked: multiset<Id>, live: Live, w: AllocWorld)
    requires PoolOk(st, s) && CountsOk(st, s, asked) && s.started
    requires s.browsers == [live] && Created(s, live.id) < Limit(st)
    ensures var t := Restarted(s, live, w);
      && PoolOk(st, t) && CountsOk(st, t, asked + multiset{live.id})
      && (RestartPool(CountContext(s, live.id), w.close, w.stop, w.restart).outcome == Done <==> RestartWorks(w))
      && t.most == s.most
      && t.unclosed == (if w.close == Done then Lost(s) else s.unclosed)
      && (w.close != Cancelled ==> t.browsers == [] && t.contexts == map[])
      && (w.close == Cancelled ==> t == CountContext(s, live.id))
      && (RestartWorks(w) ==> t.started)
  {
    var c := CountContext(s, live.id);
    CountingKeepsPool(st, s, live, asked);
    StopSpec(st, c, w.close, w.stop);
    RestartSpec(st, c, w.close, w.stop, w.restart);
    assert Lost(c) == Lost(s);
  }

  lemma OpenKeepsPool(st: Settings, s: Pool, asked: multiset<Id>, live: Live, w: AllocWorld)
    requires PoolOk(st, s) && CountsOk(st, s, asked) && s.started
    requires s.browsers == [live] && Created(s, live.id) < Limit(st)
    requires w.again.id !in asked && w.again.id != live.id
    ensures var a := OpenContext(st, s, asked, live, w); PoolOk(st, a.pool) && CountsOk(st, a.pool, a.asked)
  {
    CountingKeepsPool(st, s, live, asked);
    if w.context == Stale {
      var t, asked1 := Restarted(s, live, w), asked + multiset{live.id};
      RestartedSpec(st, s, asked, live, w);
      if RestartWorks(w) {
        AcquireKeepsPool(st, t, w.again);
        AcquireKeepsCounts(st, t, w.again, asked1);
        var got := Acquire(st, t, w.again);
        if got.Handed? {
          HandedSpec(st, t, w.again);
          CountingKeepsPool(st, got.pool, got.live, asked1);
        }
      }
    }
  }

  ghost predicate EngineOk(st: Settings, e: Engine) {
    PoolOk(st, e.pool) && CountsOk(st, e.pool, e.asked)
  }

  lemma AllocateKeepsPool(st: Settings, e: Engine, workspace: Path, w: AllocWorld)
    requires EngineOk(st, e) && IsNew(e, w.acquire.id) && IsNew(e, w.again.id) && w.acquire.id != w.again.id
    ensures var a := PoolAfter(st, e, workspace, w); PoolOk(st, a.pool) && CountsOk(st, a.pool, a.asked)
  {
    AcquireKeepsPool(st, e.pool, w.acquire);
    AcquireKeepsCounts(st, e.pool, w.acquire, e.asked);
    var got := Acquire(st, e.pool, w.acquire);
    if got.Handed? {
      HandedSpec(st, e.pool, w.acquire);
      OpenKeepsPool(st, got.pool, e.asked, got.live, w);
    }
  }

  lemma StepKeepsPool(st: Settings, e: Engine, op: Op)
    requires EngineOk(st, e) && Possible(e, op)
    ensures EngineOk(st, Perform(st, e, op))
  {
    match op
    case AllocateOp(_, workspace, w) => AllocateKeepsPool(st, e, workspace, w);
    case CloseOp(_) =>
    case RestartOp(close, stop, start) =>
      StopSpec(st, e.pool, close, stop);
      RestartSpec(st, e.pool, close, stop, start);
    case StopOp(close, stop) => StopSpec(st, e.pool, close, stop);
  }

  /** After any run: at most one browser is listed, the counters are exactly those of listed
      browsers, a listed browser has not been closed, and no browser was ever asked for more
      contexts than the limit. */
  lemma {:induction false} OneBrowserWithinLimit(st: Settings, ops: seq<Op>)
    requires Exec(st, ops).Some?
    ensures var e := Exec(st, ops).value;
      && |e.pool.browsers| <= 1
      && e.pool.contexts.Keys == Ids(e.pool.browsers)
      && Ids(e.pool.browsers) <= e.pool.unclosed
      && (forall id :: e.asked[id] <= Limit(st))
      && EngineOk(st, e)
  {
    if ops != [] {
      var n := |ops| - 1;
      OneBrowserWithinLimit(st, ops[..n]);
      StepKeepsPool(st, Exec(st, ops[..n]).value, ops[n]);
    }
    var s := Exec(st, ops).value.pool;
    assert s.browsers != [] ==> s.browsers == [s.browsers[0]];
  }
}
