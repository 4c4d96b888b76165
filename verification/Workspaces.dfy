// Where the workspaces on disk come from: the unclosed sessions, and the allocations that left
// theirs behind, which is said exactly in terms of how their calls ended.

module Workspaces {
  import opened Collections
  import opened Browsers
  import opened BrowserRuns
  import opened BrowserFaults

  ghost predicate Distinct(sessions: map<Id, Path>) {
    forall i, j :: i in sessions && j in sessions && i != j ==> sessions[i] != sessions[j]
  }

  ghost predicate Accounts(sessions: map<Id, Path>, disk: set<Path>, leaked: set<Path>, active: int) {
    && Distinct(sessions)
    && leaked !! sessions.Values
    && disk == leaked + sessions.Values
    && active == |sessions|
  }

  ghost predicate SessionsOk(e: Engine) {
    Accounts(e.sessions, e.disk, e.leaked, e.active)
  }

  lemma LostSessionPaths(e: Engine, session: Id)
    requires SessionsOk(e) && session in e.sessions
    ensures (e.sessions - {session}).Values == e.sessions.Values - {e.sessions[session]}
    ensures |e.sessions - {session}| == |e.sessions| - 1
  {
    var after, gone := e.sessions - {session}, e.sessions[session];
    assert after.Keys == e.sessions.Keys - {session};
    forall p ensures p in after.Values <==> p in e.sessions.Values - {gone} {
      if p in e.sessions.Values - {gone} {
        var i :| i in e.sessions && e.sessions[i] == p;
        assert i in after && after[i] == p;
      }
    }
  }

  lemma CloseKeepsSessions(e: Engine, session: Id)
    requires SessionsOk(e) && session in e.sessions
    ensures SessionsOk(Close(e, session))
  {
    LostSessionPaths(e, session);
    assert e.sessions[session] in e.sessions.Values;
  }

  lemma NewSessionPaths(sessions: map<Id, Path>, session: Id, workspace: Path)
    requires session !in sessions
    ensures sessions[session := workspace].Values == sessions.Values + {workspace}
    ensures |sessions[session := workspace]| == |sessions| + 1
  {
    var after := sessions[session := workspace];
    forall p ensures p in after.Values <==> p in sessions.Values + {workspace} {
      if p in sessions.Values {
        var i :| i in sessions && sessions[i] == p;
        assert after[i] == p;
      }
      assert after[session] == workspace;
    }
    assert after.Keys == sessions.Keys + {session};
  }

  lemma NewSessionIsDistinct(sessions: map<Id, Path>, session: Id, workspace: Path)
    requires Distinct(sessions) && workspace !in sessions.Values
    ensures Distinct(sessions[session := workspace])
  {
    forall i | i in sessions ensures sessions[i] != workspace {
      assert sessions[i] in sessions.Values;
    }
  }

  lemma OpenedIsAccounted(
    sessions: map<Id, Path>, disk: set<Path>, leaked: set<Path>, active: int, session: Id, workspace: Path)
    requires Accounts(sessions, disk, leaked, active) && session !in sessions && workspace !in disk
    ensures Accounts(sessions[session := workspace], disk + {workspace}, leaked, active + 1)
  {
    NewSessionPaths(sessions, session, workspace);
    NewSessionIsDistinct(sessions, session, workspace);
    OneMorePath(sessions.Values, disk, leaked, workspace);
  }

  lemma OneMorePath(paths: set<Path>, disk: set<Path>, leaked: set<Path>, workspace: Path)
    requires leaked !! paths && disk == leaked + paths && workspace !in disk
    ensures leaked !! paths + {workspace} && disk + {workspace} == leaked + (paths + {workspace})
  {
  }

  lemma SettleKeepsSessions(e: Engine, session: Id, workspace: Path, fate: Fate)
    requires SessionsOk(e) && session !in e.sessions && (fate != NeverMade ==> workspace !in e.disk)
    ensures SessionsOk(Settle(e, session, workspace, fate))
  {
    match fate
    case Opened => OpenedIsAccounted(e.sessions, e.disk, e.leaked, e.active, session, workspace);
    case CleanedUp => assert e.disk + {workspace} - {workspace} == e.disk;
    case LeftBehind => LeakIsAccounted(e.sessions, e.disk, e.leaked, e.active, workspace);
    case NeverMade =>
  }

  lemma LeakIsAccounted(sessions: map<Id, Path>, disk: set<Path>, leaked: set<Path>, active: int, workspace: Path)
    requires Accounts(sessions, disk, leaked, active) && workspace !in disk
    ensures Accounts(sessions, disk + {workspace}, leaked + {workspace}, active)
  {
  }

  /** After any run the workspaces on disk are those of the unclosed sessions and the leaked
      ones, no session's workspace is shared or leaked, and the context gauge counts the
      unclosed sessions. */
  lemma {:induction false} DiskIsAccountedFor(st: Settings, ops: seq<Op>)
    requires Exec(st, ops).Some?
    ensures SessionsOk(Exec(st, ops).value)
  {
    if ops != [] {
      var n := |ops| - 1;
      var e := Exec(st, ops[..n]).value;
      DiskIsAccountedFor(st, ops[..n]);
      match ops[n]
      case AllocateOp(session, workspace, w) =>
        var a := PoolAfter(st, e, workspace, w);
        SettleKeepsSessions(e.(pool := a.pool, asked := a.asked), session, workspace, FateOf(st, e, workspace, w));
      case CloseOp(session) => CloseKeepsSessions(e, session);
      case _ =>
    }
  }

  // ---------------------------------------------------------------- who leaves a workspace behind

  // The answers that can end the calls of a launch, in the order in which they come.
  function LaunchAnswers(w: World): seq<Outcome> {
    (if w.launch == Stale then [w.stop, w.restart, w.relaunch] else [w.launch]) + [w.register]
  }

  // What a swallowing `except Exception` lets through.
  function Swallowed(o: Outcome): Outcome { if o == Cancelled then Cancelled else Done }

  // The same for a whole acquire_browser, given whether Playwright runs and whether a browser
  // is listed and due for retirement.
  function AcquireAnswers(st: Settings, s: Pool, w: World): seq<Outcome> {
    (if s.started then [] else [w.start])
    + (if s.browsers == [] then LaunchAnswers(w)
       else if Worn(st, s, w.now) then [Swallowed(w.close), Swallowed(w.offline)] + LaunchAnswers(w)
       else [])
  }

  // And for the guarded block of an allocation.
  function BlockAnswers(w: AllocWorld): seq<Outcome> {
    if !w.mkHar then [Raises]
    else if w.context != Stale then [w.context, w.setup]
    else [Swallowed(w.close), w.stop, w.restart] + LaunchAnswers(w.again) + [w.context2, w.setup]
  }

  predicate AllDone(answers: seq<Outcome>) { forall i :: 0 <= i < |answers| ==> answers[i] == Done }

  // The first answer that is not Done is a cancellation.
  predicate CutShort(answers: seq<Outcome>) {
    exists i :: 0 <= i < |answers| && answers[i] == Cancelled && AllDone(answers[..i])
  }

  // How calls with these answers end.
  function First(answers: seq<Outcome>): Outcome {
    if answers == [] then Done else if answers[0] != Done then answers[0] else First(answers[1..])
  }

  lemma {:induction false} FirstSpec(answers: seq<Outcome>)
    ensures First(answers) == Done <==> AllDone(answers)
    ensures First(answers) == Cancelled <==> CutShort(answers)
  {
    if answers != [] {
      var rest := answers[1..];
      FirstSpec(rest);
      assert AllDone(answers) <==> answers[0] == Done && AllDone(rest);
      CutShortCons(answers[0], rest);
      assert answers == [answers[0]] + rest;
    }
  }

  lemma CutShortCons(o: Outcome, rest: seq<Outcome>)
    ensures CutShort([o] + rest) <==> o == Cancelled || (o == Done && CutShort(rest))
  {
    var all := [o] + rest;
    if o == Cancelled {
      assert all[0] == Cancelled && AllDone(all[..0]);
    } else if o == Done && CutShort(rest) {
      var i :| 0 <= i < |rest| && rest[i] == Cancelled && AllDone(rest[..i]);
      assert all[i + 1] == Cancelled;
      var front := all[..i + 1];
      forall j | 0 <= j < i + 1 ensures front[j] == Done {
        assert j > 0 ==> rest[..i][j - 1] == Done;
      }
    }
    if CutShort(all) && o != Cancelled {
      var i :| 0 <= i < |all| && all[i] == Cancelled && AllDone(all[..i]);
      assert i > 0 && all[..i][0] == o;
      var front := rest[..i - 1];
      forall j | 0 <= j < i - 1 ensures front[j] == Done {
        assert all[..i][j + 1] == Done;
      }
      assert rest[i - 1] == Cancelled;
    }
  }

  lemma {:induction false} FirstOfConcat(a: seq<Outcome>, b: seq<Outcome>)
    ensures First(a + b) == if First(a) != Done then First(a) else First(b)
  {
    if a == [] {
      assert a + b == b;
    } else {
      FirstOfConcat(a[1..], b);
      assert (a + b)[1..] == a[1..] + b;
    }
  }

  function EndOf(got: Got): Outcome { if got.Handed? then Done else got.why }

  lemma FirstOfOne(a: Outcome)
    ensures First([a]) == a
  {
    assert [a][1..] == [];
  }

  lemma FirstOfTwo(a: Outcome, b: Outcome)
    ensures First([a, b]) == if a != Done then a else b
  {
    assert [a, b][1..] == [b];
    FirstOfOne(b);
  }

  lemma FirstOfThree(a: Outcome, b: Outcome, c: Outcome)
    ensures First([a, b, c]) == if a != Done then a else if b != Done then b else c
  {
    assert [a, b, c][1..] == [b, c];
    FirstOfTwo(b, c);
  }

  lemma LaunchEnds(st: Settings, s: Pool, w: World)
    requires PoolOk(st, s) && s.browsers == [] && s.started
    ensures LaunchInto(s, w).Failed? ==> LaunchInto(s, w).why != Done
    ensures EndOf(LaunchInto(s, w)) == First(LaunchAnswers(w))
  {
    FirstOfOne(w.launch);
    FirstOfOne(w.register);
    FirstOfThree(w.stop, w.restart, w.relaunch);
    FirstOfConcat(if w.launch == Stale then [w.stop, w.restart, w.relaunch] else [w.launch], [w.register]);
  }

  /** An acquire ends as its first unsuccessful answer says, and hands over a browser exactly
      when there is none. */
  lemma AcquireEnds(st: Settings, s: Pool, w: World)
    requires PoolOk(st, s)
    ensures EndOf(Acquire(st, s, w)) == First(AcquireAnswers(st, s, w))
    ensures Acquire(st, s, w).Handed? <==> AllDone(AcquireAnswers(st, s, w))
  {
    var first := if s.started then [] else [w.start];
    var last := if s.browsers == [] then LaunchAnswers(w)
      else if Worn(st, s, w.now) then [Swallowed(w.close), Swallowed(w.offline)] + LaunchAnswers(w) else [];
    FirstOfOne(w.start);
    FirstOfConcat(first, last);
    FirstOfTwo(Swallowed(w.close), Swallowed(w.offline));
    FirstOfConcat([Swallowed(w.close), Swallowed(w.offline)], LaunchAnswers(w));
    FirstSpec(AcquireAnswers(st, s, w));
    if ComesToLaunch(st, s, w) {
      BeforeLaunchSpec(st, s, w);
      LaunchEnds(st, BeforeLaunch(s, w), w);
    }
  }

  lemma ContextEnds(st: Settings, s: Pool, asked: multiset<Id>, live: Live, w: AllocWorld)
    requires PoolOk(st, s) && CountsOk(st, s, asked) && s.started
    requires s.browsers == [live] && Created(s, live.id) < Limit(st) && w.context == Stale
    ensures OpenContext(st, s, asked, live, w).outcome
      == First([Swallowed(w.close), w.stop, w.restart] + LaunchAnswers(w.again) + [w.context2])
  {
    var t := Restarted(s, live, w);
    RestartedSpec(st, s, asked, live, w);
    RestartEnds(st, CountContext(s, live.id), w);
    FirstOfConcat([Swallowed(w.close), w.stop, w.restart] + LaunchAnswers(w.again), [w.context2]);
    FirstOfConcat([Swallowed(w.close), w.stop, w.restart], LaunchAnswers(w.again));
    FirstOfOne(w.context2);
    if RestartWorks(w) {
      assert Acquire(st, t, w.again) == LaunchInto(t, w.again);
      LaunchEnds(st, t, w.again);
    }
  }

  lemma RestartEnds(st: Settings, s: Pool, w: AllocWorld)
    requires s.started && s.browsers != []
    ensures RestartPool(s, w.close, w.stop, w.restart).outcome == First([Swallowed(w.close), w.stop, w.restart])
  {
    FirstOfThree(Swallowed(w.close), w.stop, w.restart);
  }

  lemma BlockEnds(st: Settings, s: Pool, asked: multiset<Id>, live: Live, w: AllocWorld)
    requires PoolOk(st, s) && CountsOk(st, s, asked) && s.started
    requires s.browsers == [live] && Created(s, live.id) < Limit(st)
    ensures Guarded(st, s, asked, live, w).outcome == First(BlockAnswers(w))
  {
    FirstOfOne(Raises);
    FirstOfTwo(w.context, w.setup);
    if w.mkHar && w.context == Stale {
      var front := [Swallowed(w.close), w.stop, w.restart] + LaunchAnswers(w.again);
      ContextEnds(st, s, asked, live, w);
      FirstOfConcat(front + [w.context2], [w.setup]);
      FirstOfOne(w.setup);
      assert front + [w.context2, w.setup] == front + [w.context2] + [w.setup];
    }
  }

  // The allocation gets a browser and a new workspace, and then either cannot make its other
  // directories or is cancelled in the guarded block.
  predicate Leaks(st: Settings, e: Engine, op: Op) {
    op.AllocateOp?
    && AllDone(AcquireAnswers(st, e.pool, op.w.acquire)) && Makes(e, op.workspace, op.w)
    && (!op.w.mkDownloads || !op.w.mkArtifacts || CutShort(BlockAnswers(op.w)))
  }

  /** An allocation leaves its workspace behind if and only if it leaks in this sense. */
  lemma LeftBehindExactly(st: Settings, e: Engine, session: Id, workspace: Path, w: AllocWorld)
    requires EngineOk(st, e) && IsNew(e, w.acquire.id)
    ensures FateOf(st, e, workspace, w) == LeftBehind <==> Leaks(st, e, AllocateOp(session, workspace, w))
  {
    AcquireEnds(st, e.pool, w.acquire);
    AcquireKeepsPool(st, e.pool, w.acquire);
    AcquireKeepsCounts(st, e.pool, w.acquire, e.asked);
    var got := Acquire(st, e.pool, w.acquire);
    if got.Handed? && Makes(e, workspace, w) && w.mkDownloads && w.mkArtifacts {
      HandedSpec(st, e.pool, w.acquire);
      BlockEnds(st, got.pool, e.asked, got.live, w);
      FirstSpec(BlockAnswers(w));
    }
  }

  function Leaking(st: Settings): (Engine, Op) -> bool { (e: Engine, op: Op) => Leaks(st, e, op) }

  lemma {:induction false} NothingLeakedExactly(st: Settings, ops: seq<Op>)
    requires Exec(st, ops).Some?
    ensures Exec(st, ops).value.leaked == {} <==> Never(st, ops, Leaking(st))
  {
    if ops != [] {
      var n := |ops| - 1;
      var e := Exec(st, ops[..n]).value;
      NothingLeakedExactly(st, ops[..n]);
      OneBrowserWithinLimit(st, ops[..n]);
      if ops[n].AllocateOp? {
        LeftBehindExactly(st, e, ops[n].session, ops[n].workspace, ops[n].w);
      }
    }
  }

  /** The workspaces on disk after a run are exactly those of the unclosed sessions if and only
      if no allocation of the run leaks. */
  lemma DiskIsOpenSessionsExactly(st: Settings, ops: seq<Op>)
    requires Exec(st, ops).Some?
    ensures Exec(st, ops).value.disk == Exec(st, ops).value.sessions.Values <==> Never(st, ops, Leaking(st))
  {
    DiskIsAccountedFor(st, ops);
    NothingLeakedExactly(st, ops);
    var e := Exec(st, ops).value;
    assert e.disk == e.leaked + e.sessions.Values && e.leaked !! e.sessions.Values;
    if e.leaked != {} {
      var p :| p in e.leaked;
      assert p in e.disk && p !in e.sessions.Values;
    }
  }

  // An allocation that is cancelled while it restarts the pool for a stale context.
  const CANCELLED_RESTART := AllocWorld(
    Smooth(0, 0), true, true, true, true, Stale, Done, Cancelled, Done, Smooth(0, 1), Done, Done)

  /** A leaking run: one allocation, cancelled while a stale context makes it restart the pool,
      leaves a workspace that no session owns. */
  lemma CancelledRestartLeaks(st: Settings)
    ensures var e := Exec(st, [AllocateOp(0, "ws", CANCELLED_RESTART)]);
      e.Some? && e.value.sessions == map[] && e.value.disk == {"ws"} && e.value.leaked == {"ws"}
  {
    var op := AllocateOp(0, "ws", CANCELLED_RESTART);
    assert [op][..0] == [];
    assert Possible(EMPTY, op);
    var w := CANCELLED_RESTART;
    var answers := BlockAnswers(w);
    assert answers[0] == Done && answers[1] == Cancelled;
    assert AllDone(answers[..1]);
    assert CutShort(answers);
    assert AllDone(AcquireAnswers(st, EMPTY.pool, w.acquire));
    assert EngineOk(st, EMPTY);
    LeftBehindExactly(st, EMPTY, 0, "ws", w);
  }
}
