// The workflow that writes the replay log and the auditor that reads it were written
// separately. They agree: the audit passes exactly the runs that returned normally.

module ReplayAgreement {
  import opened Collections
  import opened ReplayLog
  import opened ReplayAudit

  const END := "workflow.completed"

  // A log in the making: line i carries reading i of the clock, nothing is completed yet,
  // and whatever it refers to is indexed.
  ghost predicate InProgress(clock: Clock, t: Trace) {
    && (forall i :: 0 <= i < |t.log| ==>
          t.log[i].Line? && t.log[i].scan.Some? && t.log[i].scan.value.ts == clock(i) && t.log[i].scan.value.kind != END)
    && AllIndexed(t.log, t.index)
  }

  // u continues t.
  ghost predicate Continues(clock: Clock, t: Trace, u: Trace) {
    InProgress(clock, u) && t.log <= u.log && t.index <= u.index
  }

  lemma EmitContinues(clock: Clock, t: Trace, kind: string, reference: Option<string>)
    requires InProgress(clock, t) && kind != END
    requires reference.Some? ==> reference.value in t.index
    ensures Continues(clock, t, Emit(clock, t, kind, reference))
  {
    var u := Emit(clock, t, kind, reference);
    assert u.log[..|t.log|] == t.log;
  }

  lemma IndexContinues(clock: Clock, t: Trace, path: string)
    requires InProgress(clock, t)
    ensures Continues(clock, t, t.(index := t.index + {path}))
  {
  }

  lemma KindsAreNotTheEnd()
    ensures "workflow.start" != END && "action.start" != END && "action.done" != END && "action.error" != END
    ensures "artifact.screenshot" != END && "download.saved" != END
  {
    assert END[9] == 'c';
  }

  lemma PerformContinues(clock: Clock, base: string, t: Trace, idx: nat, a: Action, w: World)
    requires InProgress(clock, t)
    ensures Continues(clock, t, Perform(clock, base, t, idx, a, w))
  {
    if a.kind == "screenshot" {
      ScreenshotContinues(clock, base, t, ShotName(a, idx), w);
    } else if a.kind == "download" {
      DownloadContinues(clock, base, t, idx, w);
    }
  }

  lemma DownloadContinues(clock: Clock, base: string, t: Trace, idx: nat, w: World)
    requires InProgress(clock, t)
    ensures Continues(clock, t, Download(clock, base, t, idx, w))
  {
    KindsAreNotTheEnd();
    if w.page == Done && w.index == Done {
      var path := DownloadPath(base, w, idx);
      IndexContinues(clock, t, path);
      EmitContinues(
        clock, t.(index := t.index + {path}), "download.saved",
        if w.file == "artifact.screenshot" then Some(path) else None);
    }
  }

  lemma ScreenshotContinues(clock: Clock, base: string, t: Trace, name: string, w: World)
    requires InProgress(clock, t)
    ensures Continues(clock, t, Screenshot(clock, base, t, name, w))
  {
    KindsAreNotTheEnd();
    if w.page == Done && w.index == Done {
      var path := ScreenshotPath(base, name);
      IndexContinues(clock, t, path);
      EmitContinues(clock, t.(index := t.index + {path}), "artifact.screenshot", Some(path));
    }
  }

  lemma TurnContinues(clock: Clock, base: string, t: Trace, idx: nat, a: Action, w: World)
    requires InProgress(clock, t)
    ensures Continues(clock, t, Turn(clock, base, t, idx, a, w))
  {
    KindsAreNotTheEnd();
    if w.chaos == Done && w.guard == Done {
      var t1 := Emit(clock, t, "action.start", None);
      EmitContinues(clock, t, "action.start", None);
      PerformContinues(clock, base, t1, idx, a, w);
      var t2 := Perform(clock, base, t1, idx, a, w);
      EmitContinues(clock, t2, "action.done", None);
      EmitContinues(clock, t2, "action.error", None);
    }
  }

  lemma {:induction false} TurnsContinue(
    clock: Clock, base: string, t: Trace, actions: seq<Action>, world: nat -> World, n: nat)
    requires InProgress(clock, t) && n <= |actions|
    ensures Continues(clock, t, Turns(clock, base, t, actions, world, n))
  {
    if n > 0 {
      TurnsContinue(clock, base, t, actions, world, n - 1);
      TurnContinues(clock, base, Turns(clock, base, t, actions, world, n - 1), n - 1, actions[n - 1], world(n - 1));
    }
  }

  lemma OpeningInProgress(clock: Clock, base: string, index: set<string>, p: Payload, first: World, shot: World)
    ensures var t := Opening(clock, base, index, p, first, shot);
      InProgress(clock, t) && t.log != [] && t.log[0].scan == Some(Stamp(clock(0), "workflow.start"))
  {
    KindsAreNotTheEnd();
    EmitContinues(clock, Trace([], index, Done), "workflow.start", None);
    ScreenshotContinues(clock, base, Emit(clock, Trace([], index, Done), "workflow.start", None), "start", shot);
  }

  // Everything but the closing line.
  function Body(
    clock: Clock, base: string, index: set<string>, p: Payload, first: World, shot: World, world: nat -> World): Trace
  {
    var t := Opening(clock, base, index, p, first, shot);
    if t.outcome == Done then Turns(clock, base, t, p.actions, world, |p.actions|) else t
  }

  lemma BodyInProgress(
    clock: Clock, base: string, index: set<string>, p: Payload, first: World, shot: World, world: nat -> World)
    ensures var t := Body(clock, base, index, p, first, shot, world);
      InProgress(clock, t) && t.log != [] && t.log[0].scan == Some(Stamp(clock(0), "workflow.start"))
  {
    var t := Opening(clock, base, index, p, first, shot);
    OpeningInProgress(clock, base, index, p, first, shot);
    if t.outcome == Done {
      TurnsContinue(clock, base, t, p.actions, world, |p.actions|);
    }
  }

  // ---------------------------------------------------------------- reading it back

  // Every line of the log parses, with reading i of the clock on line i.
  ghost predicate Stamped(clock: Clock, lines: seq<Line>) {
    forall i :: 0 <= i < |lines| ==> lines[i].Line? && lines[i].scan.Some? && lines[i].scan.value.ts == clock(i)
  }

  lemma {:induction false} StampsOfStamped(clock: Clock, lines: seq<Line>)
    requires Stamped(clock, lines)
    ensures |Stamps(lines)| == |lines|
    ensures forall i :: 0 <= i < |lines| ==> Stamps(lines)[i] == lines[i].scan.value
  {
    if lines != [] {
      StampsOfStamped(clock, lines[..|lines| - 1]);
    }
  }

  ghost predicate ClockSorted(clock: Clock, n: nat) {
    && (forall i, j :: 0 <= i < j < n ==> clock(i) <= clock(j))
    && (forall i :: 0 <= i < n ==> -1 <= clock(i))
  }

  lemma StampedTimes(clock: Clock, lines: seq<Line>)
    requires Stamped(clock, lines)
    ensures TimeSorted(Stamps(lines)) <==> ClockSorted(clock, |lines|)
    ensures forall kind :: Has(Stamps(lines), kind) <==> exists i :: 0 <= i < |lines| && lines[i].scan.value.kind == kind
  {
    StampsOfStamped(clock, lines);
    var s := Stamps(lines);
    assert forall i :: 0 <= i < |lines| ==> s[i].ts == clock(i);
    forall kind ensures Has(s, kind) <==> exists i :: 0 <= i < |lines| && lines[i].scan.value.kind == kind {
      if Has(s, kind) {
        var i :| 0 <= i < |s| && s[i].kind == kind;
        assert lines[i].scan.value.kind == kind;
      }
      if i :| 0 <= i < |lines| && lines[i].scan.value.kind == kind {
        assert s[i].kind == kind;
      }
    }
  }

  // A log that has not been completed never passes, however it is cut.
  lemma UnfinishedFails(clock: Clock, t: Trace, lines: seq<Line>, index: set<string>)
    requires InProgress(clock, t) && Scanned(lines) <= t.log
    ensures !Sound(Some(lines), index)
  {
    var scanned := Scanned(lines);
    assert Stamped(clock, scanned) by {
      assert forall i :: 0 <= i < |scanned| ==> scanned[i] == t.log[i];
    }
    StampedTimes(clock, scanned);
    assert !Has(Stamps(scanned), END);
  }

  lemma FinishedPasses(clock: Clock, t: Trace)
    requires InProgress(clock, t) && t.log != [] && t.log[0].scan == Some(Stamp(clock(0), "workflow.start"))
    requires |t.log| < SCAN_LIMIT
    ensures var u := Emit(clock, t, END, None);
      Sound(Some(u.log), u.index) <==> ClockSorted(clock, |u.log|)
  {
    var u := Emit(clock, t, END, None);
    StampedTimes(clock, u.log);
    assert u.log[0].scan.value.kind == "workflow.start" && u.log[|t.log|].scan.value.kind == END;
    assert Has(Stamps(u.log), "workflow.start") && Has(Stamps(u.log), END);
    assert u.log[..|t.log|] == t.log;
    assert AllIndexed(u.log, u.index);
  }

  /** Whatever the actions, outcomes and clock: the audit of a fresh context passes if and
      only if the run returned normally, its log fits the scan, and the clock never went back. */
  lemma AuditAgreesWithRun(
    clock: Clock, base: string, index: set<string>, p: Payload, first: World, shot: World, world: nat -> World)
    ensures var t := Workflow(clock, base, index, p, first, shot, world);
      Sound(Some(t.log), t.index) <==> t.outcome == Done && |t.log| <= SCAN_LIMIT && ClockSorted(clock, |t.log|)
  {
    var body := Body(clock, base, index, p, first, shot, world);
    var t := Workflow(clock, base, index, p, first, shot, world);
    BodyInProgress(clock, base, index, p, first, shot, world);
    if body.outcome != Done {
      assert t == body && Scanned(t.log) <= t.log;
      UnfinishedFails(clock, body, t.log, t.index);
    } else {
      assert t == Emit(clock, body, END, None);
      if |t.log| > SCAN_LIMIT {
        assert Scanned(t.log) == t.log[..SCAN_LIMIT] && t.log[..SCAN_LIMIT] == body.log[..SCAN_LIMIT];
        UnfinishedFails(clock, body, t.log, t.index);
      } else {
        FinishedPasses(clock, body);
      }
    }
  }

  // What is left of a line that was being written.
  const HALF_LINE := Line(None, None)

  /** A worker that dies in mid-run leaves a proper prefix of the log, perhaps with half a line
      after it: neither ever passes. */
  lemma CrashIsDetected(
    clock: Clock, base: string, index: set<string>, p: Payload, first: World, shot: World, world: nat -> World,
    k: nat, indexNow: set<string>)
    requires k < |Workflow(clock, base, index, p, first, shot, world).log|
    ensures var log := Workflow(clock, base, index, p, first, shot, world).log;
      !Sound(Some(log[..k]), indexNow) && !Sound(Some(log[..k] + [HALF_LINE]), indexNow)
  {
    var body := Body(clock, base, index, p, first, shot, world);
    var t := Workflow(clock, base, index, p, first, shot, world);
    BodyInProgress(clock, base, index, p, first, shot, world);
    assert t.log[..k] == body.log[..k];
    assert Scanned(t.log[..k]) <= t.log[..k];
    UnfinishedFails(clock, body, t.log[..k], indexNow);
    var cut := t.log[..k] + [HALF_LINE];
    if k < SCAN_LIMIT {
      assert Scanned(cut)[k] == HALF_LINE;
    } else {
      assert Scanned(cut) == body.log[..SCAN_LIMIT];
      UnfinishedFails(clock, body, cut, indexNow);
    }
  }
}
