// validation/portal_smoke.py: when each action completes, and exactly which lines and index
// rows a whole run leaves.

module ReplayEffects {
  import opened Collections
  import opened ReplayLog

  // One line: its type, the path it adds to the index, and the path that a reader finds in it.
  datatype Written = Written(kind: string, artifact: Option<string>, reference: Option<string>)

  // What the action needs of its own fields.
  predicate Supplied(a: Action, w: World) {
    || (a.kind == "goto" && a.text.Some?)
    || (a.kind == "fill" && a.selector.Some? && a.value.Some?)
    || (a.kind == "click" && ((a.selectorKey.Some? && a.selectorKey.value != "") || a.selector.Some?))
    || (a.kind == "expect_text" && a.text.Some?)
    || (a.kind == "sleep_ms" && a.value.Some? && w.number)
    || a.kind == "screenshot"
    || (a.kind == "download" && (a.selectorKey.Some? || a.selector.Some?))
  }

  predicate Stores(a: Action) { a.kind in {"screenshot", "download"} }

  // The page did it, an expected text is shown, and a file is in the index.
  predicate Completes(a: Action, w: World) {
    && Supplied(a, w) && w.page == Done
    && (a.kind == "expect_text" ==> w.shown)
    && (Stores(a) ==> w.index == Done)
  }

  predicate IsCancelled(a: Action, w: World) {
    Supplied(a, w) && (w.page == Cancelled || (Stores(a) && w.page == Done && w.index == Cancelled))
  }

  function ActionOutcome(a: Action, w: World): Outcome {
    if Completes(a, w) then Done else if IsCancelled(a, w) then Cancelled else Raises
  }

  function TurnOutcome(a: Action, w: World): Outcome {
    if w.chaos != Done then w.chaos else if w.guard != Done then w.guard else ActionOutcome(a, w)
  }

  function Plain(kind: string): Written { Written(kind, None, None) }

  function Picture(base: string, name: string): Written {
    var path := base + "/screenshots/" + name + ".png";
    Written("artifact.screenshot", Some(path), Some(path))
  }

  // The line between the start and the end of an action.
  function Stored(base: string, idx: nat, a: Action, w: World): Written {
    if a.kind == "screenshot" then
      Picture(base, if a.name.Some? && a.name.value != "" then a.name.value else "step_" + Decimal(idx))
    else
      var path := base + "/downloads/" + if w.file == "" then "download_" + Decimal(idx) else w.file;
      Written("download.saved", Some(path), if w.file == "artifact.screenshot" then Some(path) else None)
  }

  function TurnLines(base: string, idx: nat, a: Action, w: World): seq<Written> {
    if w.chaos != Done || w.guard != Done then []
    else
      [Plain("action.start")]
      + (if Completes(a, w) && Stores(a) then [Stored(base, idx, a, w)] else [])
      + match ActionOutcome(a, w)
        case Done => [Plain("action.done")]
        case Raises => [Plain("action.error")]
        case Cancelled => []
  }

  ghost predicate Complete(actions: seq<Action>, world: nat -> World, n: nat)
    requires n <= |actions|
  {
    forall k :: 0 <= k < n ==> TurnOutcome(actions[k], world(k)) == Done
  }

  // The lines of the first n actions: those after one that did not complete write nothing.
  ghost function ActionLines(base: string, actions: seq<Action>, world: nat -> World, n: nat): seq<Written>
    requires n <= |actions|
  {
    if n == 0 then []
    else
      ActionLines(base, actions, world, n - 1)
      + if Complete(actions, world, n - 1) then TurnLines(base, n - 1, actions[n - 1], world(n - 1)) else []
  }

  predicate Opens(p: Payload, first: World, shot: World) {
    && first.guard == Done && first.page == Done
    && (p.takeScreenshots ==> shot.page == Done && shot.index == Done)
  }

  function OpeningLines(base: string, p: Payload, first: World, shot: World): seq<Written> {
    [Plain("workflow.start")] + if Opens(p, first, shot) && p.takeScreenshots then [Picture(base, "start")] else []
  }

  // The whole log of a run.
  ghost function Story(base: string, p: Payload, first: World, shot: World, world: nat -> World): seq<Written> {
    OpeningLines(base, p, first, shot)
    + if !Opens(p, first, shot) then []
      else
        ActionLines(base, p.actions, world, |p.actions|)
        + if Complete(p.actions, world, |p.actions|) then [Plain("workflow.completed")] else []
  }

  // Writing lines one by one, each with its own reading of the clock.
  function Write(clock: Clock, log: seq<Line>, lines: seq<Written>): seq<Line> {
    if lines == [] then log
    else
      var n := |lines| - 1;
      var log := Write(clock, log, lines[..n]);
      log + [Line(Some(Stamp(clock(|log|), lines[n].kind)), lines[n].reference)]
  }

  function Artifacts(lines: seq<Written>): set<string> {
    set l | l in lines && l.artifact.Some? :: l.artifact.value
  }

  ghost predicate Wrote(clock: Clock, t: Trace, t': Trace, lines: seq<Written>) {
    t'.log == Write(clock, t.log, lines) && t'.index == t.index + Artifacts(lines)
  }

  lemma WroteNothing(clock: Clock, t: Trace)
    ensures Wrote(clock, t, t, [])
  {
  }

  lemma WroteOne(clock: Clock, t: Trace, l: Written, t': Trace)
    requires t'.index == if l.artifact.Some? then t.index + {l.artifact.value} else t.index
    requires t'.log == t.log + [Line(Some(Stamp(clock(|t.log|), l.kind)), l.reference)]
    ensures Wrote(clock, t, t', [l])
  {
    assert [l][..0] == [];
    assert Artifacts([l]) == if l.artifact.Some? then {l.artifact.value} else {};
  }

  lemma {:induction false} WriteTwice(clock: Clock, log: seq<Line>, a: seq<Written>, b: seq<Written>)
    ensures Write(clock, Write(clock, log, a), b) == Write(clock, log, a + b)
  {
    if b == [] {
      assert a + b == a;
    } else {
      var n := |b| - 1;
      WriteTwice(clock, log, a, b[..n]);
      assert (a + b)[..|a| + n] == a + b[..n];
    }
  }

  lemma WroteTwice(clock: Clock, t: Trace, u: Trace, v: Trace, a: seq<Written>, b: seq<Written>)
    requires Wrote(clock, t, u, a) && Wrote(clock, u, v, b)
    ensures Wrote(clock, t, v, a + b)
  {
    WriteTwice(clock, t.log, a, b);
    assert Artifacts(a + b) == Artifacts(a) + Artifacts(b);
  }

  lemma StoreIsExact(clock: Clock, base: string, t: Trace, idx: nat, a: Action, w: World)
    requires t.outcome == Done
    ensures var t' := Perform(clock, base, t, idx, a, w);
      && t'.outcome == ActionOutcome(a, w)
      && Wrote(clock, t, t', if Completes(a, w) && Stores(a) then [Stored(base, idx, a, w)] else [])
  {
    var t' := Perform(clock, base, t, idx, a, w);
    if Completes(a, w) && Stores(a) {
      WroteOne(clock, t, Stored(base, idx, a, w), t');
    } else {
      WroteNothing(clock, t);
      assert t'.log == t.log && t'.index == t.index;
    }
  }

  /** One turn of the action loop: when it completes, and the lines and index rows it leaves. */
  lemma TurnIsExact(clock: Clock, base: string, t: Trace, idx: nat, a: Action, w: World)
    requires t.outcome == Done
    ensures var t' := Turn(clock, base, t, idx, a, w);
      t'.outcome == TurnOutcome(a, w) && Wrote(clock, t, t', TurnLines(base, idx, a, w))
  {
    if w.chaos != Done || w.guard != Done {
      WroteNothing(clock, t);
    } else {
      var t1 := Emit(clock, t, "action.start", None);
      var t2 := Perform(clock, base, t1, idx, a, w);
      var middle := if Completes(a, w) && Stores(a) then [Stored(base, idx, a, w)] else [];
      WroteOne(clock, t, Plain("action.start"), t1);
      StoreIsExact(clock, base, t1, idx, a, w);
      WroteTwice(clock, t, t1, t2, [Plain("action.start")], middle);
      var so := [Plain("action.start")] + middle;
      if t2.outcome == Done {
        LastLine(clock, t, t2, so, "action.done");
      } else if t2.outcome == Raises {
        LastLine(clock, t, t2, so, "action.error");
      } else {
        assert so + [] == so;
      }
    }
  }

  lemma LastLine(clock: Clock, t: Trace, u: Trace, lines: seq<Written>, kind: string)
    requires Wrote(clock, t, u, lines)
    ensures Wrote(clock, t, Emit(clock, u, kind, None), lines + [Plain(kind)])
  {
    WroteOne(clock, u, Plain(kind), Emit(clock, u, kind, None));
    WroteTwice(clock, t, u, Emit(clock, u, kind, None), lines, [Plain(kind)]);
  }

  lemma CompleteSnoc(actions: seq<Action>, world: nat -> World, n: nat)
    requires 0 < n <= |actions|
    ensures Complete(actions, world, n) <==>
      Complete(actions, world, n - 1) && TurnOutcome(actions[n - 1], world(n - 1)) == Done
  {
  }

  // A turn after the trace u, or none if u has not gone well so far.
  lemma OneMoreTurn(
    clock: Clock, base: string, t: Trace, u: Trace, v: Trace, lines: seq<Written>, idx: nat, a: Action, w: World,
    complete: bool)
    requires Wrote(clock, t, u, lines) && (u.outcome == Done <==> complete)
    requires v == if u.outcome == Done then Turn(clock, base, u, idx, a, w) else u
    ensures v.outcome == Done <==> complete && TurnOutcome(a, w) == Done
    ensures Wrote(clock, t, v, lines + if complete then TurnLines(base, idx, a, w) else [])
  {
    hide Wrote, Turn, TurnLines, TurnOutcome;
    if complete {
      TurnIsExact(clock, base, u, idx, a, w);
      WroteTwice(clock, t, u, v, lines, TurnLines(base, idx, a, w));
    } else {
      assert lines + [] == lines;
    }
  }

  lemma {:induction false} TurnsAreExact(
    clock: Clock, base: string, t: Trace, actions: seq<Action>, world: nat -> World, n: nat)
    requires t.outcome == Done && n <= |actions|
    ensures Turns(clock, base, t, actions, world, n).outcome == Done <==> Complete(actions, world, n)
    ensures Wrote(clock, t, Turns(clock, base, t, actions, world, n), ActionLines(base, actions, world, n))
  {
    if n == 0 {
      WroteNothing(clock, t);
    } else {
      TurnsAreExact(clock, base, t, actions, world, n - 1);
      CompleteSnoc(actions, world, n);
      hide Complete, Wrote, Turn, TurnLines, TurnOutcome;
      OneMoreTurn(
        clock, base, t, Turns(clock, base, t, actions, world, n - 1), Turns(clock, base, t, actions, world, n),
        ActionLines(base, actions, world, n - 1), n - 1, actions[n - 1], world(n - 1), Complete(actions, world, n - 1));
    }
  }

  lemma OpeningIsExact(clock: Clock, base: string, index: set<string>, p: Payload, first: World, shot: World)
    ensures var t := Opening(clock, base, index, p, first, shot);
      && (t.outcome == Done <==> Opens(p, first, shot))
      && Wrote(clock, Trace([], index, Done), t, OpeningLines(base, p, first, shot))
  {
    var begun := Trace([], index, Done);
    var t := Emit(clock, begun, "workflow.start", None);
    WroteOne(clock, begun, Plain("workflow.start"), t);
    assert [Plain("workflow.start")] + [] == [Plain("workflow.start")];
    if Opens(p, first, shot) && p.takeScreenshots {
      var u := Screenshot(clock, base, t, "start", shot);
      WroteOne(clock, t, Picture(base, "start"), u);
      WroteTwice(clock, begun, t, u, [Plain("workflow.start")], [Picture(base, "start")]);
    }
  }

  /** A run returns normally if and only if it opens and every one of its actions completes,
      and whatever happens its log and its index rows are exactly those of the story. */
  lemma RunIsExact(
    clock: Clock, base: string, index: set<string>, p: Payload, first: World, shot: World, world: nat -> World)
    ensures var t := Workflow(clock, base, index, p, first, shot, world);
      && (t.outcome == Done <==> Opens(p, first, shot) && Complete(p.actions, world, |p.actions|))
      && t.log == Write(clock, [], Story(base, p, first, shot, world))
      && t.index == index + Artifacts(Story(base, p, first, shot, world))
  {
    var begun, n := Trace([], index, Done), |p.actions|;
    var t := Opening(clock, base, index, p, first, shot);
    var opening := OpeningLines(base, p, first, shot);
    OpeningIsExact(clock, base, index, p, first, shot);
    if t.outcome == Done {
      FinishIsExact(clock, base, begun, t, opening, p.actions, world);
    } else {
      assert opening + [] == opening;
    }
  }

  lemma FinishIsExact(
    clock: Clock, base: string, begun: Trace, t: Trace, opening: seq<Written>, actions: seq<Action>, world: nat -> World)
    requires t.outcome == Done && Wrote(clock, begun, t, opening)
    ensures var u := Turns(clock, base, t, actions, world, |actions|);
      var turns := ActionLines(base, actions, world, |actions|);
      && (u.outcome == Done <==> Complete(actions, world, |actions|))
      && (if u.outcome == Done then
            Wrote(
              clock, begun, Emit(clock, u, "workflow.completed", None),
              opening + (turns + [Plain("workflow.completed")]))
          else Wrote(clock, begun, u, opening + (turns + [])))
  {
    hide Turns, ActionLines, Complete;
    var u := Turns(clock, base, t, actions, world, |actions|);
    var turns := ActionLines(base, actions, world, |actions|);
    TurnsAreExact(clock, base, t, actions, world, |actions|);
    WroteTwice(clock, begun, t, u, opening, turns);
    LastLine(clock, begun, u, opening + turns, "workflow.completed");
    assert opening + turns + [Plain("workflow.completed")] == opening + (turns + [Plain("workflow.completed")]);
    assert opening + (turns + []) == opening + turns;
  }

  // ---------------------------------------------------------------- step numbers

  function Digits(s: string): nat {
    if s == [] then 0 else 10 * Digits(s[..|s| - 1]) + (s[|s| - 1] as int - '0' as int) % 10
  }

  /** Step numbers are written so that they read back: no two steps share a default name. */
  lemma {:induction false} DecimalReadsBack(n: nat)
    ensures Digits(Decimal(n)) == n
  {
    var s := Decimal(n);
    var digit := ['0', '1', '2', '3', '4', '5', '6', '7', '8', '9'][n % 10];
    assert digit as int == '0' as int + n % 10;
    if n >= 10 {
      DecimalReadsBack(n / 10);
      assert s[..|s| - 1] == Decimal(n / 10);
    } else {
      assert s == [digit] && s[..0] == [];
    }
  }
}
