// Which failures the browser pool does not survive unharmed: exactly those that make the
// gauge wrong, lose an unclosed browser, or let two browsers be unclosed at once.

module BrowserFaults {
  import opened Collections
  import opened Browsers
  import opened BrowserRuns

  // ---------------------------------------------------------------- what an allocation reaches

  // The allocation reaches its guarded block and, there, the request for a context.
  predicate AsksForContext(st: Settings, e: Engine, workspace: Path, w: AllocWorld) {
    && Acquire(st, e.pool, w.acquire).Handed?
    && Makes(e, workspace, w) && w.mkDownloads && w.mkArtifacts && w.mkHar
  }

  // It reaches the restart that answers a stale context.
  predicate Retries(st: Settings, e: Engine, workspace: Path, w: AllocWorld) {
    AsksForContext(st, e, workspace, w) && w.context == Stale
  }

  // The pool after the first acquire, and what the allocation makes of it.
  lemma PoolAfterSpec(st: Settings, e: Engine, workspace: Path, w: AllocWorld)
    ensures var got := Acquire(st, e.pool, w.acquire);
      PoolAfter(st, e, workspace, w).pool
      == if AsksForContext(st, e, workspace, w) then OpenContext(st, got.pool, e.asked, got.live, w).pool else got.pool
  {
  }

  // After the restart a stale context is answered by a launch, if by anything.
  lemma SecondAcquire(st: Settings, s: Pool, asked: multiset<Id>, live: Live, w: AllocWorld)
    requires PoolOk(st, s) && CountsOk(st, s, asked) && s.started
    requires s.browsers == [live] && Created(s, live.id) < Limit(st) && w.context == Stale
    ensures var t, u := Restarted(s, live, w), OpenContext(st, s, asked, live, w).pool;
      if !RestartWorks(w) then u == t
      else
        && PoolOk(st, t) && t.browsers == [] && t.started
        && var got := LaunchInto(t, w.again);
           u == if got.Handed? then CountContext(got.pool, got.live.id) else got.pool
  {
    RestartedSpec(st, s, asked, live, w);
    if RestartWorks(w) {
      var t := Restarted(s, live, w);
      assert Acquire(st, t, w.again) == LaunchInto(t, w.again);
    }
  }

  // ---------------------------------------------------------------- the gauge

  predicate GaugeTrue(s: Pool) { s.gauge == |s.browsers| }

  // Playwright does not stop, and a browser was listed.
  predicate StopFails(s: Pool, close: Outcome, stop: Outcome) {
    s.started && s.browsers != [] && close != Cancelled && stop != Done
  }

  // A browser is launched and cannot be registered.
  predicate RegisterFails(st: Settings, s: Pool, w: World) {
    ComesToLaunch(st, s, w) && LaunchWorks(w) && w.register != Done
  }

  lemma StopGauge(st: Settings, s: Pool, close: Outcome, stop: Outcome, start: Outcome)
    requires PoolOk(st, s) && GaugeTrue(s)
    ensures GaugeTrue(StopPool(s, close, stop).pool) <==> !StopFails(s, close, stop)
    ensures GaugeTrue(RestartPool(s, close, stop, start).pool) <==> !StopFails(s, close, stop)
  {
    RestartSpec(st, s, close, stop, start);
  }

  lemma AcquireGauge(st: Settings, s: Pool, w: World)
    requires PoolOk(st, s) && GaugeTrue(s)
    ensures GaugeTrue(Acquire(st, s, w).pool) <==> !RegisterFails(st, s, w)
  {
    if ComesToLaunch(st, s, w) {
      BeforeLaunchSpec(st, s, w);
      LaunchSpec(st, BeforeLaunch(s, w), w);
    } else {
      NoLaunchSpec(st, s, w);
    }
  }

  /** A true gauge goes wrong in exactly two ways: a launched browser cannot be registered, or
      Playwright does not stop while a browser is listed. */
  lemma GaugeGoesWrongExactly(st: Settings, s: Pool, w: World, close: Outcome, stop: Outcome, start: Outcome)
    requires PoolOk(st, s) && GaugeTrue(s)
    ensures GaugeTrue(Acquire(st, s, w).pool) <==> !RegisterFails(st, s, w)
    ensures GaugeTrue(StopPool(s, close, stop).pool) <==> !StopFails(s, close, stop)
    ensures GaugeTrue(RestartPool(s, close, stop, start).pool) <==> !StopFails(s, close, stop)
  {
    AcquireGauge(st, s, w);
    StopGauge(st, s, close, stop, start);
  }

  // The same two failures on the way from a stale context to the second one.
  predicate RetryMisses(w: AllocWorld) {
    || (w.close != Cancelled && w.stop != Done)
    || (RestartWorks(w) && LaunchWorks(w.again) && w.again.register != Done)
  }

  lemma OpenGauge(st: Settings, s: Pool, asked: multiset<Id>, live: Live, w: AllocWorld)
    requires PoolOk(st, s) && CountsOk(st, s, asked) && GaugeTrue(s) && s.started
    requires s.browsers == [live] && Created(s, live.id) < Limit(st)
    ensures GaugeTrue(OpenContext(st, s, asked, live, w).pool) <==> !(w.context == Stale && RetryMisses(w))
  {
    if w.context == Stale {
      var c := CountContext(s, live.id);
      CountingKeepsPool(st, s, live, asked);
      StopGauge(st, c, w.close, w.stop, w.restart);
      SecondAcquire(st, s, asked, live, w);
      if RestartWorks(w) {
        LaunchSpec(st, Restarted(s, live, w), w.again);
      }
    }
  }

  // The operation hits one of the two failures.
  predicate Misses(st: Settings, e: Engine, op: Op) {
    match op
    case AllocateOp(_, workspace, w) =>
      RegisterFails(st, e.pool, w.acquire) || (Retries(st, e, workspace, w) && RetryMisses(w))
    case CloseOp(_) => false
    case RestartOp(close, stop, _) => StopFails(e.pool, close, stop)
    case StopOp(close, stop) => StopFails(e.pool, close, stop)
  }

  lemma AllocateGauge(st: Settings, e: Engine, workspace: Path, w: AllocWorld)
    requires EngineOk(st, e) && GaugeTrue(e.pool) && IsNew(e, w.acquire.id)
    ensures GaugeTrue(PoolAfter(st, e, workspace, w).pool) <==>
      !(RegisterFails(st, e.pool, w.acquire) || (Retries(st, e, workspace, w) && RetryMisses(w)))
  {
    var got := Acquire(st, e.pool, w.acquire);
    AcquireGauge(st, e.pool, w.acquire);
    AcquireKeepsPool(st, e.pool, w.acquire);
    AcquireKeepsCounts(st, e.pool, w.acquire, e.asked);
    PoolAfterSpec(st, e, workspace, w);
    if got.Handed? {
      HandedSpec(st, e.pool, w.acquire);
      HandedRegistered(st, e.pool, w.acquire);
      OpenGauge(st, got.pool, e.asked, got.live, w);
    }
  }

  lemma HandedRegistered(st: Settings, s: Pool, w: World)
    requires PoolOk(st, s) && Acquire(st, s, w).Handed?
    ensures ComesToLaunch(st, s, w) ==> LaunchWorks(w) && w.register == Done
  {
    if ComesToLaunch(st, s, w) {
      BeforeLaunchSpec(st, s, w);
      LaunchSpec(st, BeforeLaunch(s, w), w);
    }
  }

  lemma StepGaugeExactly(st: Settings, e: Engine, op: Op)
    requires EngineOk(st, e) && GaugeTrue(e.pool) && Possible(e, op)
    ensures GaugeTrue(Perform(st, e, op).pool) <==> !Misses(st, e, op)
  {
    match op
    case AllocateOp(_, workspace, w) => AllocateGauge(st, e, workspace, w);
    case CloseOp(_) =>
    case RestartOp(close, stop, start) => StopGauge(st, e.pool, close, stop, start);
    case StopOp(close, stop) => StopGauge(st, e.pool, close, stop, Done);
  }

  // At the end of the run and of every prefix of it.
  ghost predicate GaugeTrueThroughout(st: Settings, ops: seq<Op>)
    requires Exec(st, ops).Some?
  {
    GaugeTrue(Exec(st, ops).value.pool) && (ops == [] || GaugeTrueThroughout(st, ops[..|ops| - 1]))
  }

  // No operation of the run is bad where it is performed.
  ghost predicate Never(st: Settings, ops: seq<Op>, bad: (Engine, Op) -> bool)
    requires Exec(st, ops).Some?
  {
    ops == []
    || (Never(st, ops[..|ops| - 1], bad) && !bad(Exec(st, ops[..|ops| - 1]).value, ops[|ops| - 1]))
  }

  function Missing(st: Settings): (Engine, Op) -> bool { (e: Engine, op: Op) => Misses(st, e, op) }

  /** The gauge is the number of listed browsers throughout a run if and only if no operation
      of the run hits one of the two failures. */
  lemma {:induction false} GaugeIsTrueExactly(st: Settings, ops: seq<Op>)
    requires Exec(st, ops).Some?
    ensures GaugeTrueThroughout(st, ops) <==> Never(st, ops, Missing(st))
  {
    if ops != [] {
      var n := |ops| - 1;
      var e := Exec(st, ops[..n]).value;
      GaugeIsTrueExactly(st, ops[..n]);
      OneBrowserWithinLimit(st, ops[..n]);
      if GaugeTrueThroughout(st, ops[..n]) {
        assert GaugeTrue(e.pool);
        StepGaugeExactly(st, e, ops[n]);
      }
    }
  }

  /** A wrong gauge is repaired by the next stop, retirement or registration that works. */
  lemma GaugeIsRepaired(st: Settings, s: Pool, w: World, close: Outcome, stop: Outcome)
    requires PoolOk(st, s)
    ensures StopPool(s, close, stop).outcome == Done ==> GaugeTrue(StopPool(s, close, stop).pool)
    ensures s.browsers != [] && close != Cancelled ==> GaugeTrue(Retire(s, close, w.offline).pool)
    ensures ComesToLaunch(st, s, w) && Acquire(st, s, w).Handed? ==> GaugeTrue(Acquire(st, s, w).pool)
  {
    if ComesToLaunch(st, s, w) && Acquire(st, s, w).Handed? {
      BeforeLaunchSpec(st, s, w);
      HandedSpec(st, s, w);
      LaunchSpec(st, BeforeLaunch(s, w), w);
    }
  }

  // ---------------------------------------------------------------- lost browsers

  // A browser leaves the list though its close failed.
  predicate Loses(st: Settings, e: Engine, op: Op) {
    match op
    case AllocateOp(_, workspace, w) =>
      || (Retires(st, e.pool, w.acquire) && Ignored(w.acquire.close))
      || (Retries(st, e, workspace, w) && Ignored(w.close))
    case CloseOp(_) => false
    case RestartOp(close, _, _) => e.pool.browsers != [] && Ignored(close)
    case StopOp(close, _) => e.pool.browsers != [] && Ignored(close)
  }

  lemma ListedIsUnclosed(st: Settings, s: Pool)
    requires PoolOk(st, s) && s.browsers != []
    ensures s.browsers[0].id in s.unclosed && s.unclosed != {}
  {
    assert s.browsers[0].id in s.contexts.Keys;
  }

  lemma AcquireLost(st: Settings, s: Pool, w: World)
    requires PoolOk(st, s) && w.id !in s.unclosed
    ensures Lost(Acquire(st, s, w).pool) == if Retires(st, s, w) && Ignored(w.close) then s.unclosed else Lost(s)
  {
    if ComesToLaunch(st, s, w) {
      BeforeLaunchSpec(st, s, w);
      LaunchSpec(st, BeforeLaunch(s, w), w);
    } else {
      NoLaunchSpec(st, s, w);
    }
  }

  lemma OpenLost(st: Settings, s: Pool, asked: multiset<Id>, live: Live, w: AllocWorld)
    requires PoolOk(st, s) && CountsOk(st, s, asked) && s.started && w.again.id !in s.unclosed
    requires s.browsers == [live] && Created(s, live.id) < Limit(st)
    ensures Lost(OpenContext(st, s, asked, live, w).pool)
      == if w.context == Stale && Ignored(w.close) then s.unclosed else Lost(s)
  {
    CountingKeepsPool(st, s, live, asked);
    if w.context == Stale {
      RestartedSpec(st, s, asked, live, w);
      SecondAcquire(st, s, asked, live, w);
      if RestartWorks(w) {
        LaunchSpec(st, Restarted(s, live, w), w.again);
      }
    }
  }

  lemma AllocateLost(st: Settings, e: Engine, workspace: Path, w: AllocWorld)
    requires EngineOk(st, e) && IsNew(e, w.acquire.id) && IsNew(e, w.again.id) && w.acquire.id != w.again.id
    ensures Lost(PoolAfter(st, e, workspace, w).pool) == {} <==>
      Lost(e.pool) == {}
      && !(Retires(st, e.pool, w.acquire) && Ignored(w.acquire.close))
      && !(Retries(st, e, workspace, w) && Ignored(w.close))
  {
    var got := Acquire(st, e.pool, w.acquire);
    AcquireLost(st, e.pool, w.acquire);
    AcquireKeepsPool(st, e.pool, w.acquire);
    AcquireKeepsCounts(st, e.pool, w.acquire, e.asked);
    PoolAfterSpec(st, e, workspace, w);
    if e.pool.browsers != [] {
      ListedIsUnclosed(st, e.pool);
    }
    if got.Handed? {
      HandedSpec(st, e.pool, w.acquire);
      UnclosedGrowth(st, e.pool, w.acquire);
      ListedIsUnclosed(st, got.pool);
      OpenLost(st, got.pool, e.asked, got.live, w);
    }
  }

  lemma UnclosedGrowth(st: Settings, s: Pool, w: World)
    requires PoolOk(st, s)
    ensures Acquire(st, s, w).pool.unclosed <= s.unclosed + {w.id}
  {
    if ComesToLaunch(st, s, w) {
      BeforeLaunchSpec(st, s, w);
      LaunchSpec(st, BeforeLaunch(s, w), w);
    } else {
      NoLaunchSpec(st, s, w);
    }
  }

  lemma StopLost(st: Settings, s: Pool, close: Outcome, stop: Outcome, start: Outcome)
    requires PoolOk(st, s)
    ensures Lost(StopPool(s, close, stop).pool) == {} <==> Lost(s) == {} && !(s.browsers != [] && Ignored(close))
    ensures Lost(RestartPool(s, close, stop, start).pool) == Lost(StopPool(s, close, stop).pool)
  {
    StopSpec(st, s, close, stop);
    RestartSpec(st, s, close, stop, start);
    if s.browsers != [] {
      ListedIsUnclosed(st, s);
    }
  }

  lemma StepLosesExactly(st: Settings, e: Engine, op: Op)
    requires EngineOk(st, e) && Possible(e, op)
    ensures Lost(Perform(st, e, op).pool) == {} <==> Lost(e.pool) == {} && !Loses(st, e, op)
  {
    match op
    case AllocateOp(_, workspace, w) => AllocateLost(st, e, workspace, w);
    case CloseOp(_) =>
    case RestartOp(close, stop, start) => StopLost(st, e.pool, close, stop, start);
    case StopOp(close, stop) => StopLost(st, e.pool, close, stop, Done);
  }

  function Losing(st: Settings): (Engine, Op) -> bool { (e: Engine, op: Op) => Loses(st, e, op) }

  /** After a run every unclosed browser is still listed if and only if no operation of the run
      ignored the failing close of a listed browser. */
  lemma {:induction false} NoneIsLostExactly(st: Settings, ops: seq<Op>)
    requires Exec(st, ops).Some?
    ensures Lost(Exec(st, ops).value.pool) == {} <==> Never(st, ops, Losing(st))
  {
    if ops != [] {
      var n := |ops| - 1;
      NoneIsLostExactly(st, ops[..n]);
      OneBrowserWithinLimit(st, ops[..n]);
      StepLosesExactly(st, Exec(st, ops[..n]).value, ops[n]);
    }
  }

  // ---------------------------------------------------------------- two browsers at once

  // A launch comes back while a browser is still unclosed.
  predicate AcquireDoubles(st: Settings, s: Pool, w: World) {
    ComesToLaunch(st, s, w) && LaunchWorks(w) && (Lost(s) != {} || (s.browsers != [] && Ignored(w.close)))
  }

  predicate Doubles(st: Settings, e: Engine, op: Op) {
    op.AllocateOp? &&
      (|| AcquireDoubles(st, e.pool, op.w.acquire)
       || (&& Retries(st, e, op.workspace, op.w) && RestartWorks(op.w) && LaunchWorks(op.w.again)
           && (Lost(e.pool) != {} || Ignored(op.w.close))))
  }

  lemma OneMore(s: set<Id>, id: Id, most: nat)
    requires id !in s
    ensures Max(most, |s + {id}|) <= 1 <==> most <= 1 && s == {}
  {
    assert |s + {id}| == |s| + 1;
  }

  lemma AcquireMost(st: Settings, s: Pool, w: World)
    requires PoolOk(st, s) && w.id !in s.unclosed
    ensures Acquire(st, s, w).pool.most <= 1 <==> s.most <= 1 && !AcquireDoubles(st, s, w)
  {
    if ComesToLaunch(st, s, w) {
      var t := BeforeLaunch(s, w);
      BeforeLaunchSpec(st, s, w);
      LaunchSpec(st, t, w);
      OneMore(t.unclosed, w.id, t.most);
      if s.browsers != [] {
        ListedIsUnclosed(st, s);
      }
    } else {
      NoLaunchSpec(st, s, w);
    }
  }

  lemma OpenMost(st: Settings, s: Pool, asked: multiset<Id>, live: Live, w: AllocWorld)
    requires PoolOk(st, s) && CountsOk(st, s, asked) && s.started && w.again.id !in s.unclosed
    requires s.browsers == [live] && Created(s, live.id) < Limit(st)
    ensures OpenContext(st, s, asked, live, w).pool.most <= 1 <==>
      s.most <= 1
      && !(w.context == Stale && RestartWorks(w) && LaunchWorks(w.again) && (Lost(s) != {} || Ignored(w.close)))
  {
    if w.context == Stale {
      var t := Restarted(s, live, w);
      RestartedSpec(st, s, asked, live, w);
      SecondAcquire(st, s, asked, live, w);
      ListedIsUnclosed(st, s);
      if RestartWorks(w) {
        LaunchSpec(st, t, w.again);
        OneMore(t.unclosed, w.again.id, t.most);
      }
    }
  }

  lemma AllocateMost(st: Settings, e: Engine, session: Id, workspace: Path, w: AllocWorld)
    requires EngineOk(st, e) && IsNew(e, w.acquire.id) && IsNew(e, w.again.id) && w.acquire.id != w.again.id
    ensures PoolAfter(st, e, workspace, w).pool.most <= 1 <==>
      e.pool.most <= 1 && !Doubles(st, e, AllocateOp(session, workspace, w))
  {
    var got := Acquire(st, e.pool, w.acquire);
    AcquireMost(st, e.pool, w.acquire);
    AcquireLost(st, e.pool, w.acquire);
    AcquireKeepsPool(st, e.pool, w.acquire);
    AcquireKeepsCounts(st, e.pool, w.acquire, e.asked);
    PoolAfterSpec(st, e, workspace, w);
    if got.Handed? {
      HandedSpec(st, e.pool, w.acquire);
      HandedLaunched(st, e.pool, w.acquire);
      UnclosedGrowth(st, e.pool, w.acquire);
      OpenMost(st, got.pool, e.asked, got.live, w);
    }
  }

  // Who is handed a browser after a retirement is handed a new one.
  lemma HandedLaunched(st: Settings, s: Pool, w: World)
    requires PoolOk(st, s) && Acquire(st, s, w).Handed?
    ensures Retires(st, s, w) ==> ComesToLaunch(st, s, w) && LaunchWorks(w)
  {
    if ComesToLaunch(st, s, w) {
      HandedRegistered(st, s, w);
    } else {
      NoLaunchSpec(st, s, w);
    }
  }

  lemma StepDoublesExactly(st: Settings, e: Engine, op: Op)
    requires EngineOk(st, e) && Possible(e, op)
    ensures Perform(st, e, op).pool.most <= 1 <==> e.pool.most <= 1 && !Doubles(st, e, op)
  {
    match op
    case AllocateOp(session, workspace, w) => AllocateMost(st, e, session, workspace, w);
    case CloseOp(_) =>
    case RestartOp(close, stop, start) =>
      StopSpec(st, e.pool, close, stop);
      RestartSpec(st, e.pool, close, stop, start);
    case StopOp(close, stop) => StopSpec(st, e.pool, close, stop);
  }

  // The operation launches a browser after it, or one before it, ignored a failing close.
  predicate LaunchesAfterLoss(st: Settings, e: Engine, lost: bool, op: Op) {
    op.AllocateOp?
    && var w := op.w;
    var retired := Retires(st, e.pool, w.acquire) && Ignored(w.acquire.close);
    || (ComesToLaunch(st, e.pool, w.acquire) && LaunchWorks(w.acquire) && (lost || retired))
    || (&& Retries(st, e, op.workspace, w) && RestartWorks(w) && LaunchWorks(w.again)
        && (lost || retired || Ignored(w.close)))
  }

  ghost predicate NoLaunchAfterLoss(st: Settings, ops: seq<Op>)
    requires Exec(st, ops).Some?
  {
    ops == []
    || (var front := ops[..|ops| - 1];
        && NoLaunchAfterLoss(st, front)
        && !LaunchesAfterLoss(st, Exec(st, front).value, !Never(st, front, Losing(st)), ops[|ops| - 1]))
  }

  lemma DoublesMeansAfterLoss(st: Settings, e: Engine, op: Op)
    requires EngineOk(st, e)
    ensures Doubles(st, e, op) <==> LaunchesAfterLoss(st, e, Lost(e.pool) != {}, op)
  {
    if op.AllocateOp? && Retries(st, e, op.workspace, op.w) {
      HandedLaunched(st, e.pool, op.w.acquire);
    }
  }

  /** At most one browser was ever unclosed at a time if and only if no launch of the run came
      back after a failing close was ignored, in the same operation or an earlier one. */
  lemma {:induction false} OneUnclosedExactly(st: Settings, ops: seq<Op>)
    requires Exec(st, ops).Some?
    ensures Exec(st, ops).value.pool.most <= 1 <==> NoLaunchAfterLoss(st, ops)
  {
    if ops != [] {
      var n := |ops| - 1;
      var e := Exec(st, ops[..n]).value;
      OneUnclosedExactly(st, ops[..n]);
      OneBrowserWithinLimit(st, ops[..n]);
      NoneIsLostExactly(st, ops[..n]);
      StepDoublesExactly(st, e, ops[n]);
      DoublesMeansAfterLoss(st, e, ops[n]);
    }
  }

  // Everything succeeds.
  function Smooth(now: int, id: Id): World { World(now, id, Done, Done, Done, Done, Done, Done, Done, Done) }

  function Plain(now: int, id: Id): AllocWorld {
    AllocWorld(Smooth(now, id), true, true, true, true, Done, Done, Done, Done, Smooth(now, id + 1), Done, Done)
  }

  lemma FirstAcquire(st: Settings)
    ensures Acquire(st, EMPTY.pool, Smooth(0, 0))
      == Handed(Pool(true, [Live(0, 0)], map[0 := 0], 1, {0}, 1), Live(0, 0))
  {
    var s := EMPTY.pool.(started := true);
    assert Listed(s, Smooth(0, 0)) == Pool(true, [Live(0, 0)], map[0 := 0], 0, {0}, 1);
  }

  // The state after one allocation in which everything succeeds.
  const ONE_OPEN := Engine(
    Pool(true, [Live(0, 0)], map[0 := 1], 1, {0}, 1), map[0 := "a"], {"a"}, 1, multiset{0}, {})

  lemma FirstAllocation(st: Settings)
    ensures Exec(st, [AllocateOp(0, "a", Plain(0, 0))]) == Some(ONE_OPEN)
  {
    var op := AllocateOp(0, "a", Plain(0, 0));
    FirstAcquire(st);
    assert [op][..0] == [] && Possible(EMPTY, op);
    var a := PoolAfter(st, EMPTY, "a", op.w);
    assert a == Attempt(ONE_OPEN.pool, multiset{0}, Done);
    assert EMPTY.disk + {"a"} == {"a"} && EMPTY.sessions[0 := "a"] == map[0 := "a"];
  }

  /** Two browsers at once: the close of an aged browser fails, and the next one is launched
      beside it. */
  lemma FailedCloseDoubles(st: Settings)
    ensures var first := AllocateOp(0, "a", Plain(0, 0));
      var w := Plain(st.ttl, 2);
      var second := AllocateOp(1, "b", w.(acquire := w.acquire.(close := Raises)));
      Exec(st, [first, second]).Some? && Exec(st, [first, second]).value.pool.most > 1
  {
    var first := AllocateOp(0, "a", Plain(0, 0));
    var w := Plain(st.ttl, 2);
    var second := AllocateOp(1, "b", w.(acquire := w.acquire.(close := Raises)));
    FirstAllocation(st);
    assert [first, second][..1] == [first];
    OneBrowserWithinLimit(st, [first]);
    assert Possible(ONE_OPEN, second);
    assert AcquireDoubles(st, ONE_OPEN.pool, second.w.acquire);
    StepDoublesExactly(st, ONE_OPEN, second);
  }

  /** A run in which the gauge goes wrong: the browser of one allocation is launched and cannot
      be registered. */
  lemma UnregisteredBrowserIsNotCounted(st: Settings)
    ensures var w := Plain(0, 0);
      var ops := [AllocateOp(0, "a", w.(acquire := w.acquire.(register := Raises)))];
      Exec(st, ops).Some? && !GaugeTrue(Exec(st, ops).value.pool) && !Never(st, ops, Missing(st))
  {
    var w := Plain(0, 0);
    var op := AllocateOp(0, "a", w.(acquire := w.acquire.(register := Raises)));
    assert [op][..0] == [] && Possible(EMPTY, op);
    assert EngineOk(st, EMPTY) && GaugeTrue(EMPTY.pool);
    assert RegisterFails(st, EMPTY.pool, op.w.acquire) && Misses(st, EMPTY, op);
    StepGaugeExactly(st, EMPTY, op);
  }
}
