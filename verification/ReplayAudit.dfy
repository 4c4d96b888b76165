// validation/replay_integrity.py: the auditor of replay logs, and its agreement with the
// workflow that writes them.

module ReplayAudit {
  import opened Collections
  import opened ReplayLog

  const SCAN_LIMIT := 5000
  const REPORT_LIMIT := 50

  datatype Disorder = Disorder(line: nat, ts: int, prev: int)

  // The issues dictionary: absent keys are false, zero or empty.
  datatype Issues = Issues(
    missingReplay: bool, emptyReplay: bool, nonMonotonic: seq<Disorder>, parseErrors: nat,
    missingStart: bool, missingCompleted: bool, missingArtifacts: seq<string>)

  const NO_ISSUES := Issues(false, false, [], 0, false, false, [])

  datatype Audit = Audit(status: string, issues: Issues)

  // The lines the scan looks at.
  function Scanned(lines: seq<Line>): seq<Line> {
    if |lines| <= SCAN_LIMIT then lines else lines[..SCAN_LIMIT]
  }

  // The stamps of the lines that parse.
  function Stamps(lines: seq<Line>): seq<Stamp> {
    if lines == [] then []
    else
      var n := |lines| - 1;
      if lines[n].Line? && lines[n].scan.Some? then Stamps(lines[..n]) + [lines[n].scan.value] else Stamps(lines[..n])
  }

  function References(lines: seq<Line>): seq<string> {
    if lines == [] then []
    else
      var n := |lines| - 1;
      if lines[n].Line? && lines[n].reference.Some? then References(lines[..n]) + [lines[n].reference.value]
      else References(lines[..n])
  }

  ghost predicate Parses(lines: seq<Line>) {
    forall i :: 0 <= i < |lines| && lines[i].Line? ==> lines[i].scan.Some?
  }

  ghost predicate Has(stamps: seq<Stamp>, kind: string) {
    exists i :: 0 <= i < |stamps| && stamps[i].kind == kind
  }

  // All timestamps in order, and none before -1, where the scan starts.
  ghost predicate TimeSorted(stamps: seq<Stamp>) {
    && (forall i, j :: 0 <= i < j < |stamps| ==> stamps[i].ts <= stamps[j].ts)
    && (forall i :: 0 <= i < |stamps| ==> -1 <= stamps[i].ts)
  }

  ghost predicate AllIndexed(lines: seq<Line>, index: set<string>) {
    forall r :: r in References(lines) ==> r in index
  }

  /** What a clean log is: no word about how it is scanned. */
  ghost predicate Sound(file: Option<seq<Line>>, index: set<string>) {
    file.Some? && file.value != []
    && var stamps := Stamps(Scanned(file.value));
    && Parses(Scanned(file.value))
    && Has(stamps, "workflow.start") && Has(stamps, "workflow.completed")
    && TimeSorted(stamps)
    && AllIndexed(file.value, index)
  }

  // ---------------------------------------------------------------- what each issue says

  function First<T>(s: seq<T>, n: nat): seq<T> {
    if |s| <= n then s else s[..n]
  }

  // The lines that are neither blank nor parse.
  function Unparsed(lines: seq<Line>): set<nat> {
    set i | 0 <= i < |lines| && lines[i].Line? && lines[i].scan == None
  }

  predicate StampedAt(lines: seq<Line>, i: nat, ts: int) {
    i < |lines| && lines[i].Line? && lines[i].scan.Some? && lines[i].scan.value.ts == ts
  }

  // The last line before i that parses is stamped `prev`; -1 if there is none.
  ghost predicate Previous(lines: seq<Line>, i: nat, prev: int)
    requires i <= |lines|
  {
    if exists j :: 0 <= j < i && lines[j].Line? && lines[j].scan.Some? then
      exists j :: 0 <= j < i && StampedAt(lines, j, prev)
        && forall k :: j < k < i ==> !(lines[k].Line? && lines[k].scan.Some?)
    else prev == -1
  }

  // Line d.line is stamped before the last line in front of it that parses.
  ghost predicate Backwards(lines: seq<Line>, d: Disorder) {
    d.line < |lines| && StampedAt(lines, d.line, d.ts) && Previous(lines, d.line, d.prev) && d.ts < d.prev
  }

  // All such lines, in order.
  ghost predicate Disorders(lines: seq<Line>, found: seq<Disorder>) {
    && (forall d :: d in found <==> Backwards(lines, d))
    && (forall i, j :: 0 <= i < j < |found| ==> found[i].line < found[j].line)
  }

  // The references that the index does not have, in order, as often as they occur.
  function Outside(references: seq<string>, index: set<string>): seq<string> {
    if references == [] then []
    else
      var n := |references| - 1;
      Outside(references[..n], index) + if references[n] in index then [] else [references[n]]
  }

  class ReplayIntegrityValidator {
    var audits: seq<Audit>

    constructor ()
      ensures audits == []
    {
      audits := [];
    }

    method Note(status: string, issues: Issues) returns (r: Audit)
      modifies this
      ensures r == Audit(status, issues) && audits == old(audits) + [r]
    {
      r := Audit(status, issues);
      audits := audits + [r];
    }

    /** `validate_context`: the verdict is "ok" exactly for a sound log, although only
        neighbouring timestamps are compared. Every verdict is recorded. */
    method ValidateContext(file: Option<seq<Line>>, index: set<string>) returns (r: Audit)
      modifies this
      ensures r.status == "ok" <==> Sound(file, index)
      ensures r.status == "ok" || r.status == "violation"
      ensures r.status == "ok" <==> r.issues == NO_ISSUES
      ensures r.issues.missingReplay <==> file == None
      ensures r.issues.emptyReplay <==> file == Some([])
      ensures file == None || file == Some([]) ==>
        && r.issues.nonMonotonic == [] && r.issues.parseErrors == 0 && r.issues.missingArtifacts == []
        && !r.issues.missingStart && !r.issues.missingCompleted
      ensures file.Some? && file.value != [] ==>
        var scanned := First(file.value, 5000);
        && (r.issues.missingStart <==> !Has(Stamps(scanned), "workflow.start"))
        && (r.issues.missingCompleted <==> !Has(Stamps(scanned), "workflow.completed"))
        && r.issues.parseErrors == |Unparsed(scanned)|
        && Disorders(scanned, r.issues.nonMonotonic)
        && r.issues.missingArtifacts == First(Outside(References(file.value), index), 50)
      ensures audits == old(audits) + [r]
    {
      if file == None {
        r := Note("violation", NO_ISSUES.(missingReplay := true));
        return;
      }
      var lines := file.value;
      if lines == [] {
        r := Note("violation", NO_ISSUES.(emptyReplay := true));
        return;
      }
      var issues := Scan(Scanned(lines));
      var missing := Correlate(lines, index);
      if missing != [] {
        issues := issues.(missingArtifacts := if |missing| <= REPORT_LIMIT then missing else missing[..REPORT_LIMIT]);
      }
      var status := "ok";
      if issues != NO_ISSUES {
        status := "violation";
      }
      r := Note(status, issues);
    }

    method Scan(lines: seq<Line>) returns (issues: Issues)
      ensures issues == NO_ISSUES <==>
        && Parses(lines) && TimeSorted(Stamps(lines))
        && Has(Stamps(lines), "workflow.start") && Has(Stamps(lines), "workflow.completed")
      ensures !issues.missingReplay && !issues.emptyReplay && issues.missingArtifacts == []
      ensures issues.missingStart <==> !Has(Stamps(lines), "workflow.start")
      ensures issues.missingCompleted <==> !Has(Stamps(lines), "workflow.completed")
      ensures issues.parseErrors == |Unparsed(lines)|
      ensures Disorders(lines, issues.nonMonotonic)
    {
      issues := NO_ISSUES;
      var seenStart, seenDone, lastTs, parseErrors: nat := false, false, -1, 0;
      for i := 0 to |lines|
        invariant issues == NO_ISSUES.(nonMonotonic := issues.nonMonotonic)
        invariant Knows(lines[..i], seenStart, seenDone, parseErrors, lastTs, issues.nonMonotonic)
      {
        hide Knows;
        KnowsSnoc(lines[..i], lines[i], seenStart, seenDone, parseErrors, lastTs, issues.nonMonotonic);
        assert lines[..i + 1] == lines[..i] + [lines[i]];
        if lines[i].Line? {
          if lines[i].scan.Some? {
            var s := lines[i].scan.value;
            if s.kind == "workflow.start" {
              seenStart := true;
            }
            if s.kind == "workflow.completed" {
              seenDone := true;
            }
            if s.ts < lastTs {
              issues := issues.(nonMonotonic := issues.nonMonotonic + [Disorder(i, s.ts, lastTs)]);
            }
            lastTs := s.ts;
          } else {
            parseErrors := parseErrors + 1;
          }
        }
      }
      assert lines[..|lines|] == lines;
      issues := issues.(parseErrors := parseErrors, missingStart := !seenStart, missingCompleted := !seenDone);
    }

    method Correlate(lines: seq<Line>, index: set<string>) returns (missing: seq<string>)
      ensures missing == [] <==> AllIndexed(lines, index)
      ensures missing == Outside(References(lines), index)
    {
      var referenced: seq<string> := [];
      for i := 0 to |lines|
        invariant referenced == References(lines[..i])
      {
        assert lines[..i + 1][..i] == lines[..i];
        if lines[i].Line? && lines[i].reference.Some? {
          referenced := referenced + [lines[i].reference.value];
        }
      }
      assert lines[..|lines|] == lines;
      missing := [];
      for i := 0 to |referenced|
        invariant missing == Outside(referenced[..i], index)
      {
        assert referenced[..i + 1][..i] == referenced[..i];
        if referenced[i] !in index {
          missing := missing + [referenced[i]];
        }
      }
      assert referenced[..|referenced|] == referenced;
      OutsideSpec(referenced, index);
      NoMembersMeansEmpty(missing);
    }
  }

  lemma {:induction false} OutsideSpec(references: seq<string>, index: set<string>)
    ensures forall m :: m in Outside(references, index) <==> m in references && m !in index
  {
    if references != [] {
      var n := |references| - 1;
      OutsideSpec(references[..n], index);
      assert references == references[..n] + [references[n]];
    }
  }

  lemma UnparsedSnoc(lines: seq<Line>, l: Line)
    ensures |Unparsed(lines + [l])| == |Unparsed(lines)| + if l.Line? && l.scan == None then 1 else 0
  {
    assert Unparsed(lines + [l]) == Unparsed(lines) + if l.Line? && l.scan == None then {|lines|} else {};
  }

  lemma PreviousOfPrefix(lines: seq<Line>, l: Line, i: nat, prev: int)
    requires i <= |lines|
    ensures Previous(lines + [l], i, prev) <==> Previous(lines, i, prev)
  {
    assert forall j :: 0 <= j < |lines| ==> (lines + [l])[j] == lines[j];
    assert forall j: nat :: j < i ==> (StampedAt(lines + [l], j, prev) <==> StampedAt(lines, j, prev));
  }

  lemma PreviousIsUnique(lines: seq<Line>, i: nat, a: int, b: int)
    requires i <= |lines| && Previous(lines, i, a) && Previous(lines, i, b)
    ensures a == b
  {
  }

  lemma PreviousSnoc(lines: seq<Line>, l: Line, prev: int)
    requires Previous(lines, |lines|, prev)
    ensures Previous(lines + [l], |lines| + 1, if l.Line? && l.scan.Some? then l.scan.value.ts else prev)
  {
    var all := lines + [l];
    assert forall j :: 0 <= j < |lines| ==> all[j] == lines[j];
    if l.Line? && l.scan.Some? {
      assert StampedAt(all, |lines|, l.scan.value.ts);
    } else if j :| 0 <= j < |lines| && lines[j].Line? && lines[j].scan.Some? {
      assert all[j].Line? && all[j].scan.Some?;
      var k :| 0 <= k < |lines| && StampedAt(lines, k, prev)
        && forall m :: k < m < |lines| ==> !(lines[m].Line? && lines[m].scan.Some?);
      assert StampedAt(all, k, prev);
    }
  }

  lemma DisordersSnoc(lines: seq<Line>, l: Line, prev: int, found: seq<Disorder>)
    requires Previous(lines, |lines|, prev) && Disorders(lines, found)
    ensures
      if l.Line? && l.scan.Some? then
        var ts := l.scan.value.ts;
        && Previous(lines + [l], |lines| + 1, ts)
        && Disorders(lines + [l], if ts < prev then found + [Disorder(|lines|, ts, prev)] else found)
      else Previous(lines + [l], |lines| + 1, prev) && Disorders(lines + [l], found)
  {
    var all := lines + [l];
    PreviousSnoc(lines, l, prev);
    forall d: Disorder ensures Backwards(all, d) <==>
      if d.line == |lines| then StampedAt(all, d.line, d.ts) && d.prev == prev && d.ts < prev
      else Backwards(lines, d)
    {
      if d.line <= |lines| {
        PreviousOfPrefix(lines, l, d.line, d.prev);
        PreviousOfPrefix(lines, l, d.line, prev);
      }
      if d.line == |lines| && Previous(lines, d.line, d.prev) {
        PreviousIsUnique(lines, d.line, d.prev, prev);
      }
    }
    assert forall d :: d in found ==> Backwards(lines, d) && d.line < |lines|;
  }

  // What the scan's variables say about the lines it has read.
  ghost predicate Summary(lines: seq<Line>, start: bool, done: bool, parses: bool, lastTs: int, sorted: bool) {
    Reads(Stamps(lines), start, done, lastTs, sorted) && (parses <==> Parses(lines))
  }

  ghost predicate Reads(stamps: seq<Stamp>, start: bool, done: bool, lastTs: int, sorted: bool) {
    && (start <==> Has(stamps, "workflow.start"))
    && (done <==> Has(stamps, "workflow.completed"))
    && lastTs == LastTs(stamps)
    && (sorted <==> TimeSorted(stamps))
  }

  lemma ReadsSnoc(stamps: seq<Stamp>, s: Stamp, start: bool, done: bool, lastTs: int, sorted: bool)
    requires Reads(stamps, start, done, lastTs, sorted)
    ensures Reads(
      stamps + [s], start || s.kind == "workflow.start", done || s.kind == "workflow.completed", s.ts,
      sorted && s.ts >= lastTs)
  {
    hide Has, TimeSorted;
    StampSnoc(stamps, s);
  }

  lemma SummarySnoc(lines: seq<Line>, l: Line, start: bool, done: bool, parses: bool, lastTs: int, sorted: bool)
    requires Summary(lines, start, done, parses, lastTs, sorted)
    ensures
      if l.Line? && l.scan.Some? then
        var s := l.scan.value;
        Summary(
          lines + [l], start || s.kind == "workflow.start", done || s.kind == "workflow.completed", parses, s.ts,
          sorted && s.ts >= lastTs)
      else Summary(lines + [l], start, done, parses && l == Blank, lastTs, sorted)
  {
    LineBehind(lines, l);
    ParsesSnoc(lines, l);
    hide Stamps, Parses, Reads;
    if l.Line? && l.scan.Some? {
      ReadsSnoc(Stamps(lines), l.scan.value, start, done, lastTs, sorted);
    } else {
      assert Stamps(lines) + [] == Stamps(lines);
    }
  }

  // All that the scan knows about the lines it has read.
  ghost predicate Knows(lines: seq<Line>, start: bool, done: bool, errors: nat, lastTs: int, found: seq<Disorder>) {
    && Summary(lines, start, done, errors == 0, lastTs, found == [])
    && errors == |Unparsed(lines)|
    && Previous(lines, |lines|, lastTs) && Disorders(lines, found)
  }

  lemma KnowsSnoc(lines: seq<Line>, l: Line, start: bool, done: bool, errors: nat, lastTs: int, found: seq<Disorder>)
    requires Knows(lines, start, done, errors, lastTs, found)
    ensures
      if l.Line? && l.scan.Some? then
        var s := l.scan.value;
        Knows(
          lines + [l], start || s.kind == "workflow.start", done || s.kind == "workflow.completed", errors, s.ts,
          if s.ts < lastTs then found + [Disorder(|lines|, s.ts, lastTs)] else found)
      else Knows(lines + [l], start, done, if l == Blank then errors else errors + 1, lastTs, found)
  {
    hide Summary, Unparsed, Previous, Disorders;
    SummarySnoc(lines, l, start, done, errors == 0, lastTs, found == []);
    UnparsedSnoc(lines, l);
    DisordersSnoc(lines, l, lastTs, found);
  }

  function LastTs(stamps: seq<Stamp>): int {
    if stamps == [] then -1 else stamps[|stamps| - 1].ts
  }

  lemma ParsesSnoc(lines: seq<Line>, l: Line)
    ensures Parses(lines + [l]) <==> Parses(lines) && (l.Line? ==> l.scan.Some?)
  {
    assert forall i :: 0 <= i < |lines| ==> (lines + [l])[i] == lines[i];
    assert (lines + [l])[|lines|] == l;
  }

  // Comparing with the neighbour is enough.
  lemma StampSnoc(stamps: seq<Stamp>, s: Stamp)
    ensures TimeSorted(stamps + [s]) <==> TimeSorted(stamps) && s.ts >= LastTs(stamps)
    ensures forall kind :: Has(stamps + [s], kind) <==> Has(stamps, kind) || s.kind == kind
  {
    var all := stamps + [s];
    assert forall i :: 0 <= i < |stamps| ==> all[i] == stamps[i];
    assert all[|stamps|] == s;
    if TimeSorted(all) && stamps != [] {
      assert all[|stamps| - 1].ts <= all[|stamps|].ts;
    }
  }

  // ---------------------------------------------------------------- which lines count

  function StampOf(l: Line): seq<Stamp> {
    match l case Line(Some(stamp), _) => [stamp] case _ => []
  }

  function ReferenceOf(l: Line): seq<string> {
    match l case Line(_, Some(path)) => [path] case _ => []
  }

  lemma LineBehind(lines: seq<Line>, l: Line)
    ensures Stamps(lines + [l]) == Stamps(lines) + StampOf(l)
    ensures References(lines + [l]) == References(lines) + ReferenceOf(l)
  {
    assert (lines + [l])[..|lines|] == lines;
  }

  lemma {:induction false} StampsOfConcat(a: seq<Line>, b: seq<Line>)
    ensures Stamps(a + b) == Stamps(a) + Stamps(b)
  {
    if b == [] {
      assert a + b == a;
    } else {
      var front, last := b[..|b| - 1], b[|b| - 1];
      StampsOfConcat(a, front);
      LineBehind(front, last);
      LineBehind(a + front, last);
      hide Stamps, StampOf;
      assert b == front + [last] && a + b == a + front + [last];
    }
  }

  lemma {:induction false} ReferencesOfConcat(a: seq<Line>, b: seq<Line>)
    ensures References(a + b) == References(a) + References(b)
  {
    if b == [] {
      assert a + b == a;
    } else {
      var front, last := b[..|b| - 1], b[|b| - 1];
      ReferencesOfConcat(a, front);
      LineBehind(front, last);
      LineBehind(a + front, last);
      hide References, ReferenceOf;
      assert b == front + [last] && a + b == a + front + [last];
    }
  }

  /** Each line adds its own stamp and its own reference behind those of the lines before it,
      the one whether or not it has the other. */
  lemma LinesCountExactly(before: seq<Line>, l: Line, after: seq<Line>)
    ensures Stamps(before + [l] + after) == Stamps(before) + StampOf(l) + Stamps(after)
    ensures References(before + [l] + after) == References(before) + ReferenceOf(l) + References(after)
  {
    hide Stamps, References, StampOf, ReferenceOf;
    LineBehind(before, l);
    StampsOfConcat(before + [l], after);
    ReferencesOfConcat(before + [l], after);
  }
}
