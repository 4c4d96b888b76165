// validation/portal_smoke.py and validation/recorder.py: the workflow that writes a
// replay log. Page, lease guard, chaos and index calls are outcomes.

module ReplayLog {
  import opened Collections

  datatype Outcome = Done | Raises | Cancelled

  // What a reader gets out of one line: the stamp the scan parses, if it parses, and the
  // artifact path the correlation pass extracts, if any.
  datatype Stamp = Stamp(ts: int, kind: string)
  datatype Line = Blank | Line(scan: Option<Stamp>, reference: Option<string>)

  datatype Action = Action(
    kind: string, selector: Option<string>, selectorKey: Option<string>, text: Option<string>, value: Option<string>,
    name: Option<string>)

  datatype Payload = Payload(actions: seq<Action>, takeScreenshots: bool)

  // The outside world during one step. `shown`: the expected text is on the page;
  // `number`: the sleep value parses; `file`: the suggested name of a download.
  datatype World = World(
    chaos: Outcome, guard: Outcome, page: Outcome, index: Outcome, shown: bool, number: bool, file: string)

  // The k-th reading of the clock is taken for the k-th line.
  type Clock = nat -> int

  datatype Trace = Trace(log: seq<Line>, index: set<string>, outcome: Outcome)

  function Emit(clock: Clock, t: Trace, kind: string, reference: Option<string>): Trace {
    t.(log := t.log + [Line(Some(Stamp(clock(|t.log|), kind)), reference)])
  }

  function Decimal(n: nat): string {
    (if n < 10 then "" else Decimal(n / 10)) + [['0', '1', '2', '3', '4', '5', '6', '7', '8', '9'][n % 10]]
  }

  // Python's truth of an optional string.
  predicate Truthy(s: Option<string>) { s.Some? && s.value != "" }

  function ScreenshotPath(base: string, name: string): string { base + "/screenshots/" + name + ".png" }

  function ShotName(a: Action, idx: nat): string {
    if Truthy(a.name) then a.name.value else "step_" + Decimal(idx)
  }

  function DownloadPath(base: string, w: World, idx: nat): string {
    base + "/downloads/" + if w.file != "" then w.file else "download_" + Decimal(idx)
  }

  // `_screenshot`: picture, index row, log line, in this order.
  function Screenshot(clock: Clock, base: string, t: Trace, name: string, w: World): Trace {
    if w.page != Done then t.(outcome := w.page)
    else if w.index != Done then t.(outcome := w.index)
    else
      var path := ScreenshotPath(base, name);
      Emit(clock, t.(index := t.index + {path}), "artifact.screenshot", Some(path))
  }

  // A line about a download is taken for a screenshot reference if the file is named like the event.
  function Download(clock: Clock, base: string, t: Trace, idx: nat, w: World): Trace {
    if w.page != Done then t.(outcome := w.page)
    else if w.index != Done then t.(outcome := w.index)
    else
      var path := DownloadPath(base, w, idx);
      Emit(
        clock, t.(index := t.index + {path}), "download.saved",
        if w.file == "artifact.screenshot" then Some(path) else None)
  }

  // The dispatch on `kind`, without the lines around it.
  function Perform(clock: Clock, base: string, t: Trace, idx: nat, a: Action, w: World): Trace {
    if a.kind == "goto" then t.(outcome := if a.text == None then Raises else w.page)
    else if a.kind == "fill" then t.(outcome := if a.selector == None || a.value == None then Raises else w.page)
    else if a.kind == "click" then t.(outcome := if !Truthy(a.selectorKey) && a.selector == None then Raises else w.page)
    else if a.kind == "expect_text" then
      t.(outcome := if a.text == None then Raises else if w.page != Done then w.page else if w.shown then Done else Raises)
    else if a.kind == "sleep_ms" then t.(outcome := if a.value == None || !w.number then Raises else w.page)
    else if a.kind == "screenshot" then Screenshot(clock, base, t, ShotName(a, idx), w)
    else if a.kind == "download" then
      if a.selectorKey == None && a.selector == None then t.(outcome := Raises) else Download(clock, base, t, idx, w)
    else t.(outcome := Raises)
  }

  // `_run_action`
  function RunAction(clock: Clock, base: string, t: Trace, idx: nat, a: Action, w: World): Trace {
    var t := Perform(clock, base, Emit(clock, t, "action.start", None), idx, a, w);
    if t.outcome == Done then Emit(clock, t, "action.done", None) else t
  }

  // One turn of the action loop: an exception is logged, a cancellation is not.
  function Turn(clock: Clock, base: string, t: Trace, idx: nat, a: Action, w: World): Trace {
    if w.chaos != Done then t.(outcome := w.chaos)
    else if w.guard != Done then t.(outcome := w.guard)
    else
      var t := RunAction(clock, base, t, idx, a, w);
      if t.outcome == Raises then Emit(clock, t, "action.error", None) else t
  }

  // The state after the first n actions, or after the one that did not complete.
  function Turns(clock: Clock, base: string, t: Trace, actions: seq<Action>, world: nat -> World, n: nat): Trace
    requires n <= |actions|
  {
    if n == 0 then t
    else
      var t := Turns(clock, base, t, actions, world, n - 1);
      if t.outcome == Done then Turn(clock, base, t, n - 1, actions[n - 1], world(n - 1)) else t
  }

  // Up to the first action.
  function Opening(clock: Clock, base: string, index: set<string>, p: Payload, first: World, shot: World): Trace {
    var t := Emit(clock, Trace([], index, Done), "workflow.start", None);
    if first.guard != Done then t.(outcome := first.guard)
    else if first.page != Done then t.(outcome := first.page)
    else if p.takeScreenshots then Screenshot(clock, base, t, "start", shot)
    else t
  }

  // A whole run in a fresh context.
  function Workflow(
    clock: Clock, base: string, index: set<string>, p: Payload, first: World, shot: World, world: nat -> World): Trace
  {
    var t := Opening(clock, base, index, p, first, shot);
    var t := if t.outcome == Done then Turns(clock, base, t, p.actions, world, |p.actions|) else t;
    if t.outcome == Done then Emit(clock, t, "workflow.completed", None) else t
  }

  class PortalSmokeWorkflow {
    const clock: Clock
    const base: string
    var log: seq<Line>
    var index: set<string>

    ghost function Contents(outcome: Outcome): Trace
      reads this
    {
      Trace(log, index, outcome)
    }

    constructor (clock: Clock, base: string, index: set<string>)
      ensures this.clock == clock && this.base == base && Contents(Done) == Trace([], index, Done)
    {
      this.clock, this.base := clock, base;
      this.log, this.index := [], index;
    }

    // WorkflowRecorder: append one line.
    method Record(kind: string, reference: Option<string>)
      modifies this
      ensures Contents(Done) == Emit(clock, old(Contents(Done)), kind, reference)
    {
      log := log + [Line(Some(Stamp(clock(|log|), kind)), reference)];
    }

    method TakeScreenshot(name: string, w: World) returns (outcome: Outcome)
      modifies this
      ensures Contents(outcome) == Screenshot(clock, base, old(Contents(Done)), name, w)
    {
      if w.page != Done {
        return w.page;
      }
      if w.index != Done {
        return w.index;
      }
      var path := ScreenshotPath(base, name);
      index := index + {path};
      Record("artifact.screenshot", Some(path));
      return Done;
    }

    method SaveDownload(idx: nat, w: World) returns (outcome: Outcome)
      modifies this
      ensures Contents(outcome) == Download(clock, base, old(Contents(Done)), idx, w)
    {
      if w.page != Done {
        return w.page;
      }
      if w.index != Done {
        return w.index;
      }
      var path := DownloadPath(base, w, idx);
      index := index + {path};
      Record("download.saved", if w.file == "artifact.screenshot" then Some(path) else None);
      return Done;
    }

    method DoAction(idx: nat, a: Action, w: World) returns (outcome: Outcome)
      modifies this
      ensures Contents(outcome) == RunAction(clock, base, old(Contents(Done)), idx, a, w)
    {
      Record("action.start", None);
      outcome := Raises;
      if a.kind == "goto" {
        if a.text.Some? {
          outcome := w.page;
        }
      } else if a.kind == "fill" {
        if a.selector.Some? && a.value.Some? {
          outcome := w.page;
        }
      } else if a.kind == "click" {
        if Truthy(a.selectorKey) || a.selector.Some? {
          outcome := w.page;
        }
      } else if a.kind == "expect_text" {
        if a.text.Some? && (w.page != Done || w.shown) {
          outcome := w.page;
        }
      } else if a.kind == "sleep_ms" {
        if a.value.Some? && w.number {
          outcome := w.page;
        }
      } else if a.kind == "screenshot" {
        outcome := TakeScreenshot(ShotName(a, idx), w);
      } else if a.kind == "download" {
        if a.selectorKey.Some? || a.selector.Some? {
          outcome := SaveDownload(idx, w);
        }
      }
      if outcome == Done {
        Record("action.done", None);
      }
    }

    method Open(p: Payload, first: World, shot: World) returns (outcome: Outcome)
      requires log == []
      modifies this
      ensures Contents(outcome) == Opening(clock, base, old(index), p, first, shot)
    {
      Record("workflow.start", None);
      if first.guard != Done {
        return first.guard;
      }
      if first.page != Done {
        return first.page;
      }
      outcome := Done;
      if p.takeScreenshots {
        outcome := TakeScreenshot("start", shot);
      }
    }

    method DoTurn(idx: nat, a: Action, w: World) returns (outcome: Outcome)
      modifies this
      ensures Contents(outcome) == Turn(clock, base, old(Contents(Done)), idx, a, w)
    {
      if w.chaos != Done {
        return w.chaos;
      }
      if w.guard != Done {
        return w.guard;
      }
      outcome := DoAction(idx, a, w);
      if outcome == Raises {
        Record("action.error", None);
      }
    }

    // The action loop.
    method DoActions(actions: seq<Action>, world: nat -> World) returns (outcome: Outcome)
      modifies this
      ensures Contents(outcome) == Turns(clock, base, old(Contents(Done)), actions, world, |actions|)
    {
      ghost var begun := Contents(Done);
      for idx := 0 to |actions|
        invariant Contents(Done) == Turns(clock, base, begun, actions, world, idx)
      {
        outcome := DoTurn(idx, actions[idx], world(idx));
        if outcome != Done {
          StopsAt(clock, base, begun, actions, world, idx + 1, |actions|);
          return;
        }
      }
      return Done;
    }

    method Run(p: Payload, first: World, shot: World, world: nat -> World) returns (outcome: Outcome)
      requires log == []
      modifies this
      ensures Contents(outcome) == Workflow(clock, base, old(index), p, first, shot, world)
    {
      outcome := Open(p, first, shot);
      if outcome == Done {
        outcome := DoActions(p.actions, world);
      }
      if outcome == Done {
        Record("workflow.completed", None);
      }
    }
  }

  lemma {:induction false} StopsAt(
    clock: Clock, base: string, t: Trace, actions: seq<Action>, world: nat -> World, k: nat, n: nat)
    requires k <= n <= |actions| && Turns(clock, base, t, actions, world, k).outcome != Done
    ensures Turns(clock, base, t, actions, world, n) == Turns(clock, base, t, actions, world, k)
    decreases n
  {
    if k < n {
      StopsAt(clock, base, t, actions, world, k, n - 1);
    }
  }
}
