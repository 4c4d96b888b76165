// validation/retention.py: what a pass does to the files, and what it writes about each row.

module RetentionFiles {
  import opened Collections
  import opened Retention
  import opened RetentionRuns
  import opened RetentionIndex

  // The row is older than its policy's days allow.
  predicate Overdue(now: int, p: Policy, a: Artifact) {
    p.enabled && !p.preserve && a.kind == p.kind && a.createdAt < now - p.ttlDays * 86_400_000_000
  }

  // A row of `rows` whose path stays inside the root and leads to the file.
  ghost predicate Owns(w: World, rows: seq<Artifact>, file: string) {
    exists a :: a in rows && !w.escapes(a.relpath) && w.target(a.relpath) == file
  }

  // Rows and files after a sweep of `rows`: the file of a row that went is gone, and no file
  // goes but that of a row that was swept.
  ghost predicate FilesFollow(w: World, s: Sweep, t: Sweep, rows: seq<Artifact>) {
    && t.files <= s.files
    && (forall a :: a in s.index && a !in t.index ==> w.target(a.relpath) !in t.files)
    && (forall f :: f in s.files && f !in t.files ==> Owns(w, rows, f))
  }

  // What is written about rows: each that went has its action, and nothing else is said to
  // have gone.
  ghost predicate ActionsFollow(kind: string, s: Sweep, t: Sweep) {
    && s.actions <= t.actions
    && (forall a :: a in s.index && a !in t.index ==>
          Action(kind, a.relpath, "delete", "ttl_expired") in t.actions[|s.actions|..])
  }

  lemma RowFilesFollow(w: World, dryRun: bool, kind: string, s: Sweep, r: Artifact)
    requires DistinctIds(s.index) && r in s.index
    ensures FilesFollow(w, s, Examine(w, dryRun, kind, s, r), [r])
    ensures ActionsFollow(kind, s, Examine(w, dryRun, kind, s, r))
    ensures dryRun ==> Examine(w, dryRun, kind, s, r).files == s.files
  {
    var t := Examine(w, dryRun, kind, s, r);
    WithoutIdSpec(s.index, r.id);
    forall a | a in s.index && a !in t.index ensures a == r {
      DistinctRows(s.index, a, r);
    }
    forall f | f in s.files && f !in t.files ensures Owns(w, [r], f) {
      assert r in [r];
    }
  }

  lemma FollowTwice(w: World, kind: string, s: Sweep, t: Sweep, u: Sweep, a: seq<Artifact>, b: seq<Artifact>)
    requires FilesFollow(w, s, t, a) && FilesFollow(w, t, u, b)
    ensures FilesFollow(w, s, u, a + b)
  {
    forall f | f in s.files && f !in u.files ensures Owns(w, a + b, f) {
      if f in t.files {
        var r :| r in b && !w.escapes(r.relpath) && w.target(r.relpath) == f;
        assert r in a + b;
      } else {
        var r :| r in a && !w.escapes(r.relpath) && w.target(r.relpath) == f;
        assert r in a + b;
      }
    }
  }

  lemma SayTwice(kind: string, s: Sweep, t: Sweep, u: Sweep)
    requires ActionsFollow(kind, s, t) && ActionsFollow(kind, t, u)
    ensures ActionsFollow(kind, s, u)
  {
    var n := |s.actions|;
    assert u.actions[n..] == t.actions[n..] + u.actions[|t.actions|..];
  }

  lemma {:induction false} RowsFilesFollow(w: World, dryRun: bool, kind: string, s: Sweep, rows: seq<Artifact>)
    requires DistinctIds(s.index) && DistinctIds(rows) && forall r :: r in rows ==> r in s.index
    ensures FilesFollow(w, s, ExamineAll(w, dryRun, kind, s, rows), rows)
    ensures ActionsFollow(kind, s, ExamineAll(w, dryRun, kind, s, rows))
    ensures dryRun ==> ExamineAll(w, dryRun, kind, s, rows).files == s.files
  {
    if rows != [] {
      var n := |rows| - 1;
      assert rows == rows[..n] + [rows[n]];
      RowsFilesFollow(w, dryRun, kind, s, rows[..n]);
      ExamineAllShrinks(w, dryRun, kind, s, rows[..n]);
      var t := ExamineAll(w, dryRun, kind, s, rows[..n]);
      assert rows[n] !in rows[..n];
      assert rows[n] in t.index;
      RowFilesFollow(w, dryRun, kind, t, rows[n]);
      var u := Examine(w, dryRun, kind, t, rows[n]);
      FollowTwice(w, kind, s, t, u, rows[..n], [rows[n]]);
      SayTwice(kind, s, t, u);
    }
  }

  // A file may go if it belongs to a row that was overdue under one of the policies.
  ghost predicate FileMayGo(w: World, now: int, policies: seq<Policy>, index: seq<Artifact>, file: string) {
    exists a, p :: a in index && p in policies && Overdue(now, p, a) && !w.escapes(a.relpath) && w.target(a.relpath) == file
  }

  ghost predicate Passed(w: World, dryRun: bool, now: int, s: Sweep, t: Sweep, policies: seq<Policy>) {
    && t.files <= s.files && (dryRun ==> t.files == s.files)
    && (forall a :: a in t.index ==> a in s.index)
    && (forall a :: a in s.index && a !in t.index ==> w.target(a.relpath) !in t.files)
    && (forall f :: f in s.files && f !in t.files ==> FileMayGo(w, now, policies, s.index, f))
    && s.actions <= t.actions
    && (forall a :: a in s.index && a !in t.index ==>
          Action(a.kind, a.relpath, "delete", "ttl_expired") in t.actions[|s.actions|..])
  }

  lemma PolicyPassed(w: World, dryRun: bool, limit: nat, now: int, s: Sweep, p: Policy)
    requires DistinctIds(s.index)
    ensures Passed(w, dryRun, now, s, EnforcePolicy(w, dryRun, limit, now, s, p), [p])
  {
    if Applies(p) {
      var q := Queue(s.index, p.kind, Cutoff(now, p));
      var rows := Take(q, limit);
      var t := ExamineAll(w, dryRun, p.kind, s, rows);
      QueueSpec(s.index, p.kind, Cutoff(now, p));
      TakeMembers(q, limit);
      RowsFilesFollow(w, dryRun, p.kind, s, rows);
      ExamineAllShrinks(w, dryRun, p.kind, s, rows);
      forall f | f in s.files && f !in t.files ensures FileMayGo(w, now, [p], s.index, f) {
        assert Owns(w, rows, f);
        var a :| a in rows && !w.escapes(a.relpath) && w.target(a.relpath) == f;
        assert a in q && p in [p] && Overdue(now, p, a);
      }
      forall a | a in s.index && a !in t.index ensures a.kind == p.kind {
        assert a in Due(w, dryRun, rows);
      }
    }
  }

  lemma PassedTwice(
    w: World, dryRun: bool, now: int, s: Sweep, t: Sweep, u: Sweep, policies: seq<Policy>, p: Policy)
    requires Passed(w, dryRun, now, s, t, policies) && Passed(w, dryRun, now, t, u, [p])
    ensures Passed(w, dryRun, now, s, u, policies + [p])
  {
    var n := |s.actions|;
    assert u.actions[n..] == t.actions[n..] + u.actions[|t.actions|..];
    forall f | f in s.files && f !in u.files ensures FileMayGo(w, now, policies + [p], s.index, f) {
      if f in t.files {
        var a, q :| a in t.index && q in [p] && Overdue(now, q, a) && !w.escapes(a.relpath) && w.target(a.relpath) == f;
        assert a in s.index && q in policies + [p];
      } else {
        var a, q :| a in s.index && q in policies && Overdue(now, q, a) && !w.escapes(a.relpath) && w.target(a.relpath) == f;
        assert q in policies + [p];
      }
    }
  }

  /** A pass deletes the file of every row that it takes out of the index, and says so; it adds
      no file, and every file it deletes belonged to an indexed row that was overdue under an
      enabled, non-preserving policy and lay inside the root. A dry run deletes none. */
  lemma {:induction false} FilesFollowRows(
    w: World, dryRun: bool, limit: nat, now: int, s: Sweep, policies: seq<Policy>)
    requires DistinctIds(s.index)
    ensures var t := EnforceAll(w, dryRun, limit, now, s, policies);
      && (forall a :: a in s.index && a !in t.index ==> w.target(a.relpath) !in t.files)
      && s.actions <= t.actions
      && (forall a :: a in s.index && a !in t.index ==>
            Action(a.kind, a.relpath, "delete", "ttl_expired") in t.actions[|s.actions|..])
      && t.files <= s.files && (dryRun ==> t.files == s.files)
      && (forall f :: f in s.files && f !in t.files ==> FileMayGo(w, now, policies, s.index, f))
      && Passed(w, dryRun, now, s, t, policies)
  {
    if policies != [] {
      var n := |policies| - 1;
      var t := EnforceAll(w, dryRun, limit, now, s, policies[..n]);
      FilesFollowRows(w, dryRun, limit, now, s, policies[..n]);
      OnlyDueRowsGo(w, dryRun, limit, now, s, policies[..n]);
      PolicyPassed(w, dryRun, limit, now, t, policies[n]);
      assert policies == policies[..n] + [policies[n]];
      PassedTwice(
        w, dryRun, now, s, t, EnforcePolicy(w, dryRun, limit, now, t, policies[n]), policies[..n], policies[n]);
    } else {
      assert s.actions[|s.actions|..] == [];
    }
  }

  // ---------------------------------------------------------------- what the policies are

  /** The rows that may go and the order they are taken in, in their own terms. */
  lemma OldestOverdueFirst(index: seq<Artifact>, now: int, p: Policy)
    requires DistinctIds(index) && p.enabled && !p.preserve
    ensures var q := Queue(index, p.kind, Cutoff(now, p));
      && (forall a :: a in q <==> a in index && Overdue(now, p, a))
      && (forall i, j :: 0 <= i < j < |q| ==> q[i].createdAt <= q[j].createdAt)
    ensures Applies(p)
  {
    QueueSpec(index, p.kind, Cutoff(now, p));
    var q := Queue(index, p.kind, Cutoff(now, p));
    assert forall i, j :: 0 <= i < j < |q| ==> Older(q[i], q[j]);
  }

  // The retention days of the default kinds.
  function DefaultDays(kind: string): Option<int> {
    if kind in {"trace", "har", "screenshot", "replay"} then Some(14)
    else if kind in {"download", "console"} then Some(7)
    else None
  }

  // A policy as `ensure_defaults` makes it.
  predicate IsDefault(p: Policy) {
    p.enabled && !p.preserve && DefaultDays(p.kind) == Some(p.ttlDays)
  }

  lemma {:induction false} AddedAreDefaults(policies: seq<Policy>, n: nat)
    requires n <= |DEFAULTS|
    ensures forall p :: p in WithDefaults(policies, n) ==> p in policies || IsDefault(p)
  {
    if n > 0 {
      AddedAreDefaults(policies, n - 1);
      var d := DEFAULTS[n - 1];
      assert IsDefault(Policy(d.0, d.1, true, false));
    }
  }

  lemma DefaultKinds(kind: string)
    ensures DefaultDays(kind).Some? ==> exists i :: 0 <= i < |DEFAULTS| && DEFAULTS[i].0 == kind
  {
    assert DEFAULTS[0].0 == "trace" && DEFAULTS[1].0 == "har" && DEFAULTS[2].0 == "screenshot";
    assert DEFAULTS[3].0 == "download" && DEFAULTS[4].0 == "console" && DEFAULTS[5].0 == "replay";
  }

  lemma NewKindsOnly(policies: seq<Policy>, after: seq<Policy>)
    requires policies <= after && DistinctKinds(after)
    ensures forall p, q :: p in after && p !in policies && q in policies ==> p.kind != q.kind
  {
    forall p, q | p in after && p !in policies && q in policies ensures p.kind != q.kind {
      var i :| 0 <= i < |after| && after[i] == p;
      var j :| 0 <= j < |policies| && policies[j] == q;
      assert i >= |policies| && after[j] == q;
    }
  }

  /** Afterwards each of the six default kinds has a policy, and every policy that was not
      stored before is enabled, preserves nothing and has the days of its kind. */
  lemma DefaultsAreThese(policies: seq<Policy>, kind: string)
    requires DistinctKinds(policies)
    ensures var after := WithDefaults(policies, |DEFAULTS|);
      && (DefaultDays(kind).Some? ==> Covers(after, kind))
      && (forall p :: p in after ==> p in policies || (IsDefault(p) && !Covers(policies, p.kind)))
  {
    hide WithDefaults, DefaultDays, IsDefault;
    var n := |DEFAULTS|;
    DefaultsAreAdded(policies, n);
    AddedAreDefaults(policies, n);
    DefaultKinds(kind);
    NewKindsOnly(policies, WithDefaults(policies, n));
  }
}
