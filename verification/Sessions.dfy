// browser/session.py over browser/pool.py: what opening and closing a session does to the
// sessions, the workspaces and the gauge, and which sessions are open after a run.

module Sessions {
  import opened Collections
  import opened Browsers
  import opened BrowserRuns
  import opened BrowserFaults
  import opened Workspaces

  /** In any run the close of an open session takes away that session, its workspace and one
      from the gauge. Everything else stays, and every other session keeps its workspace. */
  lemma CloseIsExact(st: Settings, ops: seq<Op>, session: Id)
    requires Exec(st, ops).Some? && session in Exec(st, ops).value.sessions
    ensures Exec(st, ops + [CloseOp(session)]).Some?
    ensures var e, e' := Exec(st, ops).value, Exec(st, ops + [CloseOp(session)]).value;
      && session !in e'.sessions
      && e.sessions[session] !in e'.disk
      && e'.active == e.active - 1
      && (forall i :: i in e.sessions && i != session ==>
            i in e'.sessions && e'.sessions[i] == e.sessions[i] && e'.sessions[i] in e'.disk)
      && (forall i :: i in e'.sessions ==> i in e.sessions)
      && (forall p :: p in e.disk && p != e.sessions[session] ==> p in e'.disk)
      && e'.disk <= e.disk
      && e'.leaked == e.leaked && e'.pool == e.pool && e'.asked == e.asked
  {
    assert (ops + [CloseOp(session)])[..|ops|] == ops;
    DiskIsAccountedFor(st, ops);
    var e := Exec(st, ops).value;
    forall i | i in e.sessions && i != session ensures e.sessions[i] in e.disk && e.sessions[i] != e.sessions[session] {
      assert e.sessions[i] in e.sessions.Values;
    }
  }

  // Every call of the allocation succeeds, and its workspace is new.
  predicate Opens(st: Settings, e: Engine, op: Op) {
    && op.AllocateOp?
    && AllDone(AcquireAnswers(st, e.pool, op.w.acquire))
    && op.w.mkWorkspace && op.workspace !in e.disk && op.w.mkDownloads && op.w.mkArtifacts
    && AllDone(BlockAnswers(op.w))
  }

  // An allocation opens its session exactly if everything succeeds; otherwise it leaves its
  // workspace or nothing.
  ghost predicate AllocatedExactly(st: Settings, e: Engine, op: Op, e': Engine)
    requires op.AllocateOp?
  {
    if Opens(st, e, op) then
      && e'.sessions == e.sessions[op.session := op.workspace] && e'.disk == e.disk + {op.workspace}
      && e'.active == e.active + 1 && e'.leaked == e.leaked
    else if Leaks(st, e, op) then
      && e'.sessions == e.sessions && e'.disk == e.disk + {op.workspace}
      && e'.active == e.active && e'.leaked == e.leaked + {op.workspace}
    else
      e'.sessions == e.sessions && e'.disk == e.disk && e'.active == e.active && e'.leaked == e.leaked
  }

  lemma FateExactly(st: Settings, e: Engine, op: Op)
    requires EngineOk(st, e) && op.AllocateOp? && IsNew(e, op.w.acquire.id)
    ensures FateOf(st, e, op.workspace, op.w) == Opened <==> Opens(st, e, op)
    ensures FateOf(st, e, op.workspace, op.w) == LeftBehind <==> Leaks(st, e, op)
    ensures FateOf(st, e, op.workspace, op.w) == CleanedUp ==> op.workspace !in e.disk
  {
    var w := op.w;
    LeftBehindExactly(st, e, op.session, op.workspace, w);
    AcquireEnds(st, e.pool, w.acquire);
    AcquireKeepsPool(st, e.pool, w.acquire);
    AcquireKeepsCounts(st, e.pool, w.acquire, e.asked);
    var got := Acquire(st, e.pool, w.acquire);
    if got.Handed? && Makes(e, op.workspace, w) && w.mkDownloads && w.mkArtifacts {
      HandedSpec(st, e.pool, w.acquire);
      BlockEnds(st, got.pool, e.asked, got.live, w);
      FirstSpec(BlockAnswers(w));
    }
  }

  lemma OpensOrLeaks(st: Settings, e: Engine, op: Op)
    ensures !(Opens(st, e, op) && Leaks(st, e, op))
  {
    if op.AllocateOp? {
      FirstSpec(BlockAnswers(op.w));
    }
  }

  /** In any run an allocation opens its session if and only if every call of it succeeds, and
      what else it leaves is said by how its calls end. */
  lemma AllocationIsExact(st: Settings, ops: seq<Op>, op: Op)
    requires op.AllocateOp? && Exec(st, ops + [op]).Some?
    ensures Exec(st, ops).Some?
    ensures AllocatedExactly(st, Exec(st, ops).value, op, Exec(st, ops + [op]).value)
  {
    assert (ops + [op])[..|ops|] == ops;
    var e := Exec(st, ops).value;
    OneBrowserWithinLimit(st, ops);
    FateExactly(st, e, op);
    OpensOrLeaks(st, e, op);
    if FateOf(st, e, op.workspace, op.w) == CleanedUp {
      assert e.disk + {op.workspace} - {op.workspace} == e.disk;
    }
  }

  // ---------------------------------------------------------------- which sessions are open

  // Operation k opens session i in `workspace`, and no later one closes it.
  ghost predicate OpenedAt(st: Settings, ops: seq<Op>, k: nat, i: Id, workspace: Path)
    requires k < |ops|
  {
    && Exec(st, ops[..k]).Some? && Opens(st, Exec(st, ops[..k]).value, ops[k])
    && ops[k].session == i && ops[k].workspace == workspace
    && CloseOp(i) !in ops[k + 1..]
  }

  ghost predicate OpenedIn(st: Settings, ops: seq<Op>, i: Id, workspace: Path) {
    exists k :: 0 <= k < |ops| && OpenedAt(st, ops, k, i, workspace)
  }

  lemma OpenedEarlier(st: Settings, ops: seq<Op>, k: nat, i: Id, workspace: Path)
    requires k < |ops| - 1
    ensures OpenedAt(st, ops, k, i, workspace)
      <==> OpenedAt(st, ops[..|ops| - 1], k, i, workspace) && ops[|ops| - 1] != CloseOp(i)
  {
    hide Exec, Opens;
    var n := |ops| - 1;
    assert ops[..n][..k] == ops[..k];
    assert ops[k + 1..] == ops[..n][k + 1..] + [ops[n]];
  }

  lemma OpenedSnoc(st: Settings, ops: seq<Op>, e: Engine, i: Id, workspace: Path)
    requires ops != [] && Exec(st, ops[..|ops| - 1]) == Some(e)
    ensures var n := |ops| - 1;
      OpenedIn(st, ops, i, workspace) <==>
        || (OpenedIn(st, ops[..n], i, workspace) && ops[n] != CloseOp(i))
        || (Opens(st, e, ops[n]) && ops[n].session == i && ops[n].workspace == workspace)
  {
    hide Exec, Opens;
    var n := |ops| - 1;
    assert ops[n + 1..] == [];
    forall k: nat | k < n
      ensures OpenedAt(st, ops, k, i, workspace) <==> OpenedAt(st, ops[..n], k, i, workspace) && ops[n] != CloseOp(i)
    {
      OpenedEarlier(st, ops, k, i, workspace);
    }
    if OpenedIn(st, ops[..n], i, workspace) && ops[n] != CloseOp(i) {
      var k :| 0 <= k < n && OpenedAt(st, ops[..n], k, i, workspace);
      assert OpenedAt(st, ops, k, i, workspace);
    }
    OnlyAllocationsOpen(st, e, ops[n]);
    assert OpenedAt(st, ops, n, i, workspace) <==>
      Opens(st, e, ops[n]) && ops[n].session == i && ops[n].workspace == workspace;
  }

  predicate In(e: Engine, i: Id, workspace: Path) { i in e.sessions && e.sessions[i] == workspace }

  // One operation, seen by one session.
  lemma SessionStep(st: Settings, ops: seq<Op>, op: Op, e: Engine, i: Id, workspace: Path)
    requires Exec(st, ops) == Some(e) && Possible(e, op) && Exec(st, ops + [op]) == Some(Perform(st, e, op))
    ensures In(Perform(st, e, op), i, workspace) <==>
      || (In(e, i, workspace) && op != CloseOp(i))
      || (Opens(st, e, op) && op.session == i && op.workspace == workspace)
  {
    hide Exec, Opens, Leaks, Allocate;
    if op.AllocateOp? {
      AllocationIsExact(st, ops, op);
      assert !In(e, op.session, workspace);
    } else {
      OnlyAllocationsOpen(st, e, op);
    }
  }

  lemma OnlyAllocationsOpen(st: Settings, e: Engine, op: Op)
    ensures Opens(st, e, op) ==> op.AllocateOp?
  {
  }

  /** After a run a session is open in a workspace if and only if some allocation of the run
      opened it there, every call of it succeeding, and no later operation closed it. */
  lemma {:induction false} OpenExactly(st: Settings, ops: seq<Op>, i: Id, workspace: Path)
    requires Exec(st, ops).Some?
    ensures var e := Exec(st, ops).value;
      i in e.sessions && e.sessions[i] == workspace <==> OpenedIn(st, ops, i, workspace)
  {
    if ops != [] {
      var n := |ops| - 1;
      var e := Exec(st, ops[..n]).value;
      OpenExactly(st, ops[..n], i, workspace);
      OpenedSnoc(st, ops, e, i, workspace);
      assert ops == ops[..n] + [ops[n]];
      SessionStep(st, ops[..n], ops[n], e, i, workspace);
    }
  }

  // ---------------------------------------------------------------- which browser is handed out

  // The listed browser is within both limits of the settings.
  predicate MayGoOn(st: Settings, s: Pool, now: int) {
    && s.browsers != []
    && now - s.browsers[0].createdAt < st.ttl
    && (if s.browsers[0].id in s.contexts then s.contexts[s.browsers[0].id] else 0) < st.maxContexts
  }

  /** In any run an acquire that succeeds hands out the listed browser, changing nothing else, if
      and only if it is younger and less used than the settings allow; any other it has
      launched itself, and it is then the one that is listed, without contexts. */
  lemma HandedExactly(st: Settings, ops: seq<Op>, w: World)
    requires Exec(st, ops).Some? && AllDone(AcquireAnswers(st, Exec(st, ops).value.pool, w))
    ensures var s := Exec(st, ops).value.pool;
      && Acquire(st, s, w).Handed?
      && (if MayGoOn(st, s, w.now) then
            Acquire(st, s, w).live == s.browsers[0] && Acquire(st, s, w).pool == s.(started := true)
          else
            && Acquire(st, s, w).live == Live(w.id, w.now)
            && Acquire(st, s, w).pool.browsers == [Live(w.id, w.now)]
            && Acquire(st, s, w).pool.contexts == map[w.id := 0])
  {
    var s := Exec(st, ops).value.pool;
    OneBrowserWithinLimit(st, ops);
    AcquireEnds(st, s, w);
    if ComesToLaunch(st, s, w) {
      BeforeLaunchSpec(st, s, w);
      LaunchSpec(st, BeforeLaunch(s, w), w);
    } else {
      NoLaunchSpec(st, s, w);
    }
  }
}
