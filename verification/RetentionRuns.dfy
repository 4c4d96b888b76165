// What retention passes add up to: every examined row is accounted for, only due rows go,
// and repeated passes clear a queue exactly when its blocked rows do not fill the limit.

module RetentionRuns {
  import opened Collections
  import opened Retention

  // ---------------------------------------------------------------- accounting

  function CountOf(actions: seq<Action>, word: string): nat {
    if actions == [] then 0
    else CountOf(actions[..|actions| - 1], word) + if actions[|actions| - 1].action == word then 1 else 0
  }

  // The counters say what the action log says.
  ghost predicate Tallied(s: Sweep) {
    && s.deleted == CountOf(s.actions, "delete")
    && s.kept == CountOf(s.actions, "keep")
    && s.errors == CountOf(s.actions, "error")
    && s.deleted + s.kept + s.errors == |s.actions|
  }

  lemma CountSnoc(actions: seq<Action>, a: Action, word: string)
    ensures CountOf(actions + [a], word) == CountOf(actions, word) + if a.action == word then 1 else 0
  {
    assert (actions + [a])[..|actions|] == actions;
  }

  // Exactly the counter that the action names grows.
  lemma OneMoreTallied(s: Sweep, t: Sweep, a: Action)
    requires Tallied(s) && t.actions == s.actions + [a]
    requires a.action == "delete" ==> (t.deleted, t.kept, t.errors) == (s.deleted + 1, s.kept, s.errors)
    requires a.action == "keep" ==> (t.deleted, t.kept, t.errors) == (s.deleted, s.kept + 1, s.errors)
    requires a.action == "error" ==> (t.deleted, t.kept, t.errors) == (s.deleted, s.kept, s.errors + 1)
    requires a.action == "delete" || a.action == "keep" || a.action == "error"
    ensures Tallied(t)
  {
    CountSnoc(s.actions, a, "delete");
    CountSnoc(s.actions, a, "keep");
    CountSnoc(s.actions, a, "error");
    assert "delete"[0] == 'd' && "keep"[0] == 'k' && "error"[0] == 'e';
  }

  lemma ExamineTallies(w: World, dryRun: bool, kind: string, s: Sweep, r: Artifact)
    requires Tallied(s)
    ensures var t := Examine(w, dryRun, kind, s, r);
      Tallied(t) && |t.actions| == |s.actions| + 1
  {
    var t := Examine(w, dryRun, kind, s, r);
    OneMoreTallied(s, t, t.actions[|s.actions|]);
  }

  lemma {:induction false} ExamineAllTallies(w: World, dryRun: bool, kind: string, s: Sweep, rows: seq<Artifact>)
    requires Tallied(s)
    ensures var t := ExamineAll(w, dryRun, kind, s, rows);
      Tallied(t) && |t.actions| == |s.actions| + |rows|
  {
    if rows != [] {
      var n := |rows| - 1;
      ExamineAllTallies(w, dryRun, kind, s, rows[..n]);
      ExamineTallies(w, dryRun, kind, ExamineAll(w, dryRun, kind, s, rows[..n]), rows[n]);
    }
  }

  // The rows that a sweep over the policies looks at.
  function Examined(w: World, dryRun: bool, limit: nat, now: int, s: Sweep, policies: seq<Policy>): nat {
    if policies == [] then 0
    else
      var n := |policies| - 1;
      var t := EnforceAll(w, dryRun, limit, now, s, policies[..n]);
      Examined(w, dryRun, limit, now, s, policies[..n])
      + if Applies(policies[n]) then |Take(Queue(t.index, policies[n].kind, Cutoff(now, policies[n])), limit)| else 0
  }

  /** Conservation: each examined row is deleted, kept or an error, the counters are those
      of the action log, and one action is written per examined row. */
  lemma {:induction false} EveryRowIsAccountedFor(
    w: World, dryRun: bool, limit: nat, now: int, s: Sweep, policies: seq<Policy>)
    requires Tallied(s)
    ensures var t := EnforceAll(w, dryRun, limit, now, s, policies);
      Tallied(t) && |t.actions| == |s.actions| + Examined(w, dryRun, limit, now, s, policies)
  {
    if policies != [] {
      var n := |policies| - 1;
      var p := policies[n];
      EveryRowIsAccountedFor(w, dryRun, limit, now, s, policies[..n]);
      var t := EnforceAll(w, dryRun, limit, now, s, policies[..n]);
      if Applies(p) {
        ExamineAllTallies(w, dryRun, p.kind, t, Take(Queue(t.index, p.kind, Cutoff(now, p)), limit));
      }
    }
  }

  // ---------------------------------------------------------------- what is deleted

  ghost predicate DistinctIds(s: seq<Artifact>) {
    forall i, j :: 0 <= i < j < |s| ==> s[i].id != s[j].id
  }

  lemma {:induction false} WithoutIdSpec(s: seq<Artifact>, id: nat)
    requires DistinctIds(s)
    ensures DistinctIds(WithoutId(s, id))
    ensures forall a :: a in WithoutId(s, id) <==> a in s && a.id != id
  {
    if s != [] {
      var n := |s| - 1;
      WithoutIdSpec(s[..n], id);
      assert s == s[..n] + [s[n]];
      DistinctSnoc(s[..n], s[n]);
    }
  }

  lemma DistinctSnoc(s: seq<Artifact>, a: Artifact)
    requires DistinctIds(s + [a])
    ensures DistinctIds(s) && forall b :: b in s ==> b.id != a.id
  {
    var l := s + [a];
    assert forall i :: 0 <= i < |s| ==> l[i] == s[i];
    forall b | b in s ensures b.id != a.id {
      var i :| 0 <= i < |s| && s[i] == b;
      assert l[i].id != l[|s|].id;
    }
  }

  lemma {:induction false} WithoutIdLength(s: seq<Artifact>, r: Artifact)
    requires DistinctIds(s) && r in s
    ensures |WithoutId(s, r.id)| == |s| - 1
  {
    var n := |s| - 1;
    assert s == s[..n] + [s[n]];
    DistinctSnoc(s[..n], s[n]);
    if s[n] == r {
      WithoutAbsent(s[..n], r.id);
    } else {
      WithoutIdLength(s[..n], r);
    }
  }

  lemma {:induction false} WithoutAbsent(s: seq<Artifact>, id: nat)
    requires forall a :: a in s ==> a.id != id
    ensures WithoutId(s, id) == s
  {
    if s != [] {
      var n := |s| - 1;
      assert s == s[..n] + [s[n]];
      WithoutAbsent(s[..n], id);
    }
  }

  // A sweep that may delete only rows that `due` allows, and counts what it deletes.
  ghost predicate Shrinks(s: Sweep, t: Sweep, due: set<Artifact>) {
    && DistinctIds(t.index)
    && (forall a :: a in t.index ==> a in s.index)
    && (forall a :: a in s.index && a !in t.index ==> a in due)
    && |t.index| + t.deleted == |s.index| + s.deleted
  }

  lemma ExamineShrinks(w: World, dryRun: bool, kind: string, s: Sweep, r: Artifact)
    requires DistinctIds(s.index) && r in s.index
    ensures Shrinks(s, Examine(w, dryRun, kind, s, r), if w.escapes(r.relpath) || dryRun then {} else {r})
  {
    WithoutIdSpec(s.index, r.id);
    WithoutIdLength(s.index, r);
    forall a | a in s.index && a.id == r.id ensures a == r {
      var i :| 0 <= i < |s.index| && s.index[i] == a;
      var j :| 0 <= j < |s.index| && s.index[j] == r;
    }
  }

  lemma ShrinksTwice(s: Sweep, t: Sweep, u: Sweep, a: set<Artifact>, b: set<Artifact>)
    requires Shrinks(s, t, a) && Shrinks(t, u, b)
    ensures Shrinks(s, u, a + b)
  {
  }

  function Due(w: World, dryRun: bool, rows: seq<Artifact>): set<Artifact> {
    if dryRun then {} else set r | r in rows && !w.escapes(r.relpath)
  }

  lemma {:induction false} ExamineAllShrinks(w: World, dryRun: bool, kind: string, s: Sweep, rows: seq<Artifact>)
    requires DistinctIds(s.index) && DistinctIds(rows) && forall r :: r in rows ==> r in s.index
    ensures Shrinks(s, ExamineAll(w, dryRun, kind, s, rows), Due(w, dryRun, rows))
  {
    if rows != [] {
      var n := |rows| - 1;
      assert rows == rows[..n] + [rows[n]];
      ExamineAllShrinks(w, dryRun, kind, s, rows[..n]);
      var t := ExamineAll(w, dryRun, kind, s, rows[..n]);
      assert rows[n] !in rows[..n];
      assert rows[n] in t.index;
      ExamineShrinks(w, dryRun, kind, t, rows[n]);
      var last := if w.escapes(rows[n].relpath) || dryRun then {} else {rows[n]};
      ShrinksTwice(s, t, Examine(w, dryRun, kind, t, rows[n]), Due(w, dryRun, rows[..n]), last);
      assert Due(w, dryRun, rows[..n]) + last == Due(w, dryRun, rows);
    }
  }

  lemma {:induction false} ExpiredMembers(index: seq<Artifact>, kind: string, cutoff: int)
    ensures forall a :: a in Expired(index, kind, cutoff) <==> a in index && a.kind == kind && a.createdAt < cutoff
  {
    if index != [] {
      var n := |index| - 1;
      ExpiredMembers(index[..n], kind, cutoff);
      assert index == index[..n] + [index[n]];
    }
  }

  lemma {:induction false} ExpiredAreDistinct(index: seq<Artifact>, kind: string, cutoff: int)
    requires DistinctIds(index)
    ensures DistinctIds(Expired(index, kind, cutoff))
  {
    if index != [] {
      var front, last := index[..|index| - 1], index[|index| - 1];
      assert index == front + [last];
      DistinctSnoc(front, last);
      ExpiredAreDistinct(front, kind, cutoff);
      ExpiredMembers(front, kind, cutoff);
      OneMoreDistinct(Expired(front, kind, cutoff), last);
    }
  }

  lemma OneMoreDistinct(s: seq<Artifact>, a: Artifact)
    requires DistinctIds(s) && forall b :: b in s ==> b.id != a.id
    ensures DistinctIds(s + [a])
  {
    assert forall i :: 0 <= i < |s| ==> s[i] in s;
  }

  lemma OlderIsTotalPreorder()
    ensures TotalPreorder(Older)
  {
  }

  lemma {:induction false} InsertKeepsIds(x: Artifact, s: seq<Artifact>)
    requires DistinctIds(s) && forall a :: a in s ==> a.id != x.id
    ensures DistinctIds(Insert(Older, x, s))
    ensures forall a :: a in Insert(Older, x, s) <==> a == x || a in s
  {
    if s != [] && !Older(x, s[0]) {
      InsertKeepsIds(x, s[1..]);
      assert s == [s[0]] + s[1..];
      var r := Insert(Older, x, s[1..]);
      forall i | 0 <= i < |r| ensures r[i].id != s[0].id {
        assert r[i] in r;
      }
    }
  }

  lemma {:induction false} SortKeepsIds(s: seq<Artifact>)
    requires DistinctIds(s)
    ensures DistinctIds(StableSort(Older, s))
    ensures forall a :: a in StableSort(Older, s) <==> a in s
  {
    if s != [] {
      SortKeepsIds(s[1..]);
      assert s == [s[0]] + s[1..];
      InsertKeepsIds(s[0], StableSort(Older, s[1..]));
    }
  }

  lemma QueueSpec(index: seq<Artifact>, kind: string, cutoff: int)
    requires DistinctIds(index)
    ensures DistinctIds(Queue(index, kind, cutoff)) && Sorted(Older, Queue(index, kind, cutoff))
    ensures forall a :: a in Queue(index, kind, cutoff) <==> a in index && a.kind == kind && a.createdAt < cutoff
  {
    ExpiredMembers(index, kind, cutoff);
    ExpiredAreDistinct(index, kind, cutoff);
    OlderIsTotalPreorder();
    StableSortSpec(Older, Expired(index, kind, cutoff));
    SortKeepsIds(Expired(index, kind, cutoff));
  }

  lemma TakeMembers(s: seq<Artifact>, limit: nat)
    requires DistinctIds(s)
    ensures DistinctIds(Take(s, limit)) && forall a :: a in Take(s, limit) ==> a in s
  {
  }

  // Past its time under an enabled policy that does not preserve, with a path inside the root.
  predicate MayGo(w: World, now: int, policies: seq<Policy>, a: Artifact) {
    !w.escapes(a.relpath) && exists p :: p in policies && Applies(p) && a.kind == p.kind && a.createdAt < Cutoff(now, p)
  }

  /** The index loses exactly as many rows as are counted deleted, gains none, and every row
      it loses is past the time of an enabled, non-preserving policy and lies inside the
      root. In a dry run it loses none. */
  lemma {:induction false} OnlyDueRowsGo(w: World, dryRun: bool, limit: nat, now: int, s: Sweep, policies: seq<Policy>)
    requires DistinctIds(s.index)
    ensures var t := EnforceAll(w, dryRun, limit, now, s, policies);
      && DistinctIds(t.index)
      && (forall a :: a in t.index ==> a in s.index)
      && (forall a :: a in s.index && a !in t.index ==> !dryRun && MayGo(w, now, policies, a))
      && |t.index| + t.deleted == |s.index| + s.deleted
  {
    if policies != [] {
      var n := |policies| - 1;
      var p := policies[n];
      OnlyDueRowsGo(w, dryRun, limit, now, s, policies[..n]);
      var t := EnforceAll(w, dryRun, limit, now, s, policies[..n]);
      var u := EnforcePolicy(w, dryRun, limit, now, t, p);
      assert forall q :: q in policies[..n] ==> q in policies;
      assert p in policies;
      PolicyShrinks(w, dryRun, limit, now, t, p);
      forall a | a in s.index && a !in u.index ensures !dryRun && MayGo(w, now, policies, a) {
        if a in t.index {
          assert MayGo(w, now, [p], a);
        } else {
          assert MayGo(w, now, policies[..n], a);
        }
      }
    }
  }

  lemma PolicyShrinks(w: World, dryRun: bool, limit: nat, now: int, s: Sweep, p: Policy)
    requires DistinctIds(s.index)
    ensures var t := EnforcePolicy(w, dryRun, limit, now, s, p);
      && DistinctIds(t.index)
      && (forall a :: a in t.index ==> a in s.index)
      && (forall a :: a in s.index && a !in t.index ==> !dryRun && MayGo(w, now, [p], a))
      && |t.index| + t.deleted == |s.index| + s.deleted
  {
    if Applies(p) {
      var q := Queue(s.index, p.kind, Cutoff(now, p));
      QueueSpec(s.index, p.kind, Cutoff(now, p));
      TakeMembers(q, limit);
      ExamineAllShrinks(w, dryRun, p.kind, s, Take(q, limit));
      assert p in [p];
    }
  }

  lemma {:induction false} DryRunChangesNothing(w: World, limit: nat, now: int, s: Sweep, policies: seq<Policy>)
    ensures var t := EnforceAll(w, true, limit, now, s, policies);
      t.index == s.index && t.files == s.files && t.deleted == s.deleted
  {
    if policies != [] {
      var n := |policies| - 1;
      var p := policies[n];
      DryRunChangesNothing(w, limit, now, s, policies[..n]);
      var t := EnforceAll(w, true, limit, now, s, policies[..n]);
      DryRowsChangeNothing(w, p.kind, t, Take(Queue(t.index, p.kind, Cutoff(now, p)), limit));
    }
  }

  lemma {:induction false} DryRowsChangeNothing(w: World, kind: string, s: Sweep, rows: seq<Artifact>)
    ensures var t := ExamineAll(w, true, kind, s, rows);
      t.index == s.index && t.files == s.files && t.deleted == s.deleted
  {
    if rows != [] {
      DryRowsChangeNothing(w, kind, s, rows[..|rows| - 1]);
    }
  }
}
