// Repeated retention passes at a fixed time: when they clear the expired rows.
//
// A row whose path leaves the root, whose file cannot be unlinked, or that the database refuses
// to delete, stays at its place in the queue and is looked at again by every pass. Enough of
// them, old enough, keep everything younger out of reach.

module RetentionProgress {
  import opened Collections
  import opened Retention
  import opened RetentionRuns

  // ---------------------------------------------------------------- one queue

  // The world's answers and the files at the outset.
  datatype View = View(w: World, files: set<string>)

  // A row that no pass deletes.
  predicate Blocked(v: View, a: Artifact) {
    v.w.escapes(a.relpath) || Stuck(v.w, v.files, v.w.target(a.relpath)) || v.w.deleteRaises(a.id)
  }

  function KeepBlocked(v: View, q: seq<Artifact>): seq<Artifact> {
    if q == [] then []
    else if Blocked(v, q[0]) then [q[0]] + KeepBlocked(v, q[1..])
    else KeepBlocked(v, q[1..])
  }

  // What one pass leaves of a queue.
  function PassQueue(v: View, limit: nat, q: seq<Artifact>): seq<Artifact> {
    if |q| <= limit then KeepBlocked(v, q) else KeepBlocked(v, q[..limit]) + q[limit..]
  }

  function Passes(v: View, limit: nat, q: seq<Artifact>, n: nat): seq<Artifact>
    decreases n
  {
    if n == 0 then q else Passes(v, limit, PassQueue(v, limit, q), n - 1)
  }

  predicate Cleared(v: View, q: seq<Artifact>) {
    forall i :: 0 <= i < |q| ==> Blocked(v, q[i])
  }

  function CountBlocked(v: View, q: seq<Artifact>): nat {
    if q == [] then 0 else (if Blocked(v, q[0]) then 1 else 0) + CountBlocked(v, q[1..])
  }

  // The blocked rows that stand before the last deletable one.
  function Blockers(v: View, q: seq<Artifact>): nat {
    if Cleared(v, q) then 0 else (if Blocked(v, q[0]) then 1 else 0) + Blockers(v, q[1..])
  }

  lemma {:induction false} KeepBlockedSpec(v: View, q: seq<Artifact>)
    ensures Cleared(v, KeepBlocked(v, q)) && |KeepBlocked(v, q)| == CountBlocked(v, q) <= |q|
    ensures CountBlocked(v, KeepBlocked(v, q)) == CountBlocked(v, q)
    ensures CountBlocked(v, q) == |q| <==> Cleared(v, q)
  {
    if q != [] {
      KeepBlockedSpec(v, q[1..]);
      var r := KeepBlocked(v, q[1..]);
      assert ([q[0]] + r)[1..] == r;
      assert Cleared(v, q) <==> Blocked(v, q[0]) && Cleared(v, q[1..]);
    }
  }

  lemma {:induction false} BlockersOfConcat(v: View, a: seq<Artifact>, b: seq<Artifact>)
    requires !Cleared(v, b)
    ensures Blockers(v, a + b) == CountBlocked(v, a) + Blockers(v, b)
  {
    if a == [] {
      assert a + b == b;
    } else {
      BlockersOfConcat(v, a[1..], b);
      assert (a + b)[1..] == a[1..] + b && (a + b)[0] == a[0];
      var i :| 0 <= i < |b| && !Blocked(v, b[i]);
      assert !Blocked(v, (a + b)[|a| + i]);
    }
  }

  // A pass keeps the blockers of a queue that it does not clear.
  lemma PassKeepsBlockers(v: View, limit: nat, q: seq<Artifact>)
    requires !Cleared(v, PassQueue(v, limit, q))
    ensures Blockers(v, PassQueue(v, limit, q)) == Blockers(v, q) && !Cleared(v, q)
  {
    if |q| <= limit {
      KeepBlockedSpec(v, q);
    } else {
      var a, b := q[..limit], q[limit..];
      assert q == a + b;
      KeepBlockedSpec(v, a);
      if Cleared(v, b) {
        ClearedConcat(v, KeepBlocked(v, a), b);
      }
      BlockersOfConcat(v, a, b);
      BlockersOfConcat(v, KeepBlocked(v, a), b);
      var i :| 0 <= i < |b| && !Blocked(v, b[i]);
      assert q[limit + i] == b[i];
    }
  }

  lemma ClearedConcat(v: View, a: seq<Artifact>, b: seq<Artifact>)
    requires Cleared(v, a) && Cleared(v, b)
    ensures Cleared(v, a + b)
  {
  }

  // A pass that meets something deletable shortens the queue.
  lemma PassShortens(v: View, limit: nat, q: seq<Artifact>)
    requires !Cleared(v, q) && Blockers(v, q) < limit
    ensures |PassQueue(v, limit, q)| < |q|
  {
    if |q| <= limit {
      KeepBlockedSpec(v, q);
    } else {
      var a, b := q[..limit], q[limit..];
      assert q == a + b;
      KeepBlockedSpec(v, a);
      if Cleared(v, a) {
        if Cleared(v, b) {
          ClearedConcat(v, a, b);
        }
        BlockersOfConcat(v, a, b);
      }
    }
  }

  lemma {:induction false} ClearedConcatOfKept(v: View, a: seq<Artifact>, b: seq<Artifact>)
    requires Cleared(v, b)
    ensures Cleared(v, KeepBlocked(v, a) + b)
  {
    KeepBlockedSpec(v, a);
    ClearedConcat(v, KeepBlocked(v, a), b);
  }

  lemma {:induction false} StaysCleared(v: View, limit: nat, q: seq<Artifact>, n: nat)
    requires Cleared(v, q)
    ensures Cleared(v, Passes(v, limit, q, n))
    decreases n
  {
    if n > 0 {
      KeepBlockedSpec(v, q);
      if |q| > limit {
        ClearedConcatOfKept(v, q[..limit], q[limit..]);
      }
      StaysCleared(v, limit, PassQueue(v, limit, q), n - 1);
    }
  }

  lemma {:induction false} ClearsWithFewBlockers(v: View, limit: nat, q: seq<Artifact>, n: nat)
    requires Blockers(v, q) < limit && n >= |q|
    ensures Cleared(v, Passes(v, limit, q, n))
    decreases n
  {
    if Cleared(v, q) {
      StaysCleared(v, limit, q, n);
    } else {
      var r := PassQueue(v, limit, q);
      PassShortens(v, limit, q);
      if Cleared(v, r) {
        StaysCleared(v, limit, r, n - 1);
      } else {
        PassKeepsBlockers(v, limit, q);
        ClearsWithFewBlockers(v, limit, r, n - 1);
      }
    }
  }

  lemma {:induction false} BlockersWithin(v: View, q: seq<Artifact>)
    ensures Blockers(v, q) <= |q| && (Blockers(v, q) > 0 ==> !Cleared(v, q))
    ensures Blockers(v, q) <= CountBlocked(v, q)
  {
    if !Cleared(v, q) {
      BlockersWithin(v, q[1..]);
    }
  }

  lemma {:induction false} StuckBehindBlockers(v: View, limit: nat, q: seq<Artifact>, n: nat)
    requires Blockers(v, q) >= limit > 0
    ensures !Cleared(v, Passes(v, limit, q, n))
    decreases n
  {
    BlockersWithin(v, q);
    if n > 0 {
      var r := PassQueue(v, limit, q);
      if Cleared(v, r) {
        assert |q| > limit by {
          if |q| <= limit {
            BlockersFill(v, q);
          }
        }
        var a, b := q[..limit], q[limit..];
        assert q == a + b;
        KeepBlockedSpec(v, a);
        TailOfCleared(v, KeepBlocked(v, a), b);
        BlockersOfClearedTail(v, a, b);
        BlockersWithin(v, a);
        BlockersFill(v, a);
        assert false;
      }
      PassKeepsBlockers(v, limit, q);
      StuckBehindBlockers(v, limit, r, n - 1);
    }
  }

  // Blockers leave room for the deletable row behind them.
  lemma {:induction false} BlockersFill(v: View, q: seq<Artifact>)
    ensures q != [] ==> Blockers(v, q) < |q|
  {
    if !Cleared(v, q) && |q| > 1 {
      BlockersFill(v, q[1..]);
    }
  }

  lemma TailOfCleared(v: View, a: seq<Artifact>, b: seq<Artifact>)
    requires Cleared(v, a + b)
    ensures Cleared(v, b)
  {
    forall i | 0 <= i < |b| ensures Blocked(v, b[i]) {
      assert (a + b)[|a| + i] == b[i];
    }
  }

  lemma {:induction false} BlockersOfClearedTail(v: View, a: seq<Artifact>, b: seq<Artifact>)
    requires Cleared(v, b)
    ensures Blockers(v, a + b) == Blockers(v, a)
  {
    if a == [] {
      assert a + b == b;
    } else {
      BlockersOfClearedTail(v, a[1..], b);
      assert (a + b)[1..] == a[1..] + b;
      if Cleared(v, a) {
        ClearedConcat(v, a, b);
      } else {
        var i :| 0 <= i < |a| && !Blocked(v, a[i]);
        assert !Blocked(v, (a + b)[i]);
      }
    }
  }

  /** Passes with a positive limit clear a queue if and only if fewer than `limit` blocked
      rows stand before its last deletable one; as many passes as it has rows then do. */
  lemma ClearsExactly(v: View, limit: nat, q: seq<Artifact>, n: nat)
    requires limit > 0
    ensures Blockers(v, q) < limit && n >= |q| ==> Cleared(v, Passes(v, limit, q, n))
    ensures Cleared(v, Passes(v, limit, q, n)) ==> Blockers(v, q) < limit
  {
    if Blockers(v, q) >= limit {
      StuckBehindBlockers(v, limit, q, n);
    } else if n >= |q| {
      ClearsWithFewBlockers(v, limit, q, n);
    }
  }
}
