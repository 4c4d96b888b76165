// Retention passes over the whole index: each pass takes every policy's queue one step, so
// the queues decide when repeated enforcement leaves nothing overdue.

module RetentionIndex {
  import opened Collections
  import opened Retention
  import opened RetentionRuns
  import opened RetentionProgress

  // ---------------------------------------------------------------- removing one row

  lemma {:induction false} WithoutIdOfConcat(a: seq<Artifact>, b: seq<Artifact>, id: nat)
    ensures WithoutId(a + b, id) == WithoutId(a, id) + WithoutId(b, id)
  {
    if b == [] {
      assert a + b == a;
    } else {
      var n := |b| - 1;
      WithoutIdOfConcat(a, b[..n], id);
      assert (a + b)[..|a| + n] == a + b[..n];
    }
  }

  lemma {:induction false} WithoutIdFirst(s: seq<Artifact>, id: nat)
    requires s != []
    ensures WithoutId(s, id) == if s[0].id == id then WithoutId(s[1..], id) else [s[0]] + WithoutId(s[1..], id)
  {
    assert s == [s[0]] + s[1..];
    WithoutIdOfConcat([s[0]], s[1..], id);
    assert [s[0]][..0] == [];
  }

  lemma {:induction false} WithoutIdKeepsOrder(s: seq<Artifact>, id: nat)
    requires Sorted(Older, s)
    ensures Sorted(Older, WithoutId(s, id))
    ensures forall a :: a in WithoutId(s, id) ==> a in s
  {
    if s != [] {
      var n := |s| - 1;
      WithoutIdKeepsOrder(s[..n], id);
      var r := WithoutId(s[..n], id);
      forall i | 0 <= i < |r| ensures Older(r[i], s[n]) {
        assert r[i] in s[..n];
        var j :| 0 <= j < n && s[j] == r[i];
      }
    }
  }

  // Inserting something no newer than anything in s puts it first.
  lemma InsertFirst(x: Artifact, s: seq<Artifact>)
    requires forall a :: a in s ==> Older(x, a)
    ensures Insert(Older, x, s) == [x] + s
  {
    if s != [] {
      assert s[0] in s;
    }
  }

  lemma {:induction false} InsertWithoutId(x: Artifact, s: seq<Artifact>, id: nat)
    requires Sorted(Older, s)
    ensures WithoutId(Insert(Older, x, s), id)
      == if x.id == id then WithoutId(s, id) else Insert(Older, x, WithoutId(s, id))
  {
    if s == [] || Older(x, s[0]) {
      InsertFirst(x, s);
      WithoutIdFirst([x] + s, id);
      assert ([x] + s)[1..] == s;
      WithoutIdKeepsOrder(s, id);
      InsertFirst(x, WithoutId(s, id));
    } else {
      InsertWithoutId(x, s[1..], id);
      InsertBehind(x, s, id);
    }
  }

  lemma InsertBehind(x: Artifact, s: seq<Artifact>, id: nat)
    requires s != [] && !Older(x, s[0])
    requires WithoutId(Insert(Older, x, s[1..]), id)
      == if x.id == id then WithoutId(s[1..], id) else Insert(Older, x, WithoutId(s[1..], id))
    ensures WithoutId(Insert(Older, x, s), id)
      == if x.id == id then WithoutId(s, id) else Insert(Older, x, WithoutId(s, id))
  {
    var i := Insert(Older, x, s[1..]);
    WithoutIdFirst(s, id);
    WithoutIdFirst([s[0]] + i, id);
    assert ([s[0]] + i)[1..] == i;
    if s[0].id != id {
      var r := WithoutId(s[1..], id);
      assert ([s[0]] + r)[1..] == r;
    }
  }

  lemma {:induction false} SortWithoutId(s: seq<Artifact>, id: nat)
    ensures StableSort(Older, WithoutId(s, id)) == WithoutId(StableSort(Older, s), id)
  {
    if s != [] {
      var rest := StableSort(Older, s[1..]);
      SortWithoutId(s[1..], id);
      WithoutIdFirst(s, id);
      OlderIsTotalPreorder();
      StableSortSpec(Older, s[1..]);
      InsertWithoutId(s[0], rest, id);
      if s[0].id != id {
        var r := WithoutId(s[1..], id);
        assert ([s[0]] + r)[1..] == r;
      }
    }
  }

  lemma {:induction false} ExpiredWithoutId(index: seq<Artifact>, kind: string, cutoff: int, id: nat)
    ensures Expired(WithoutId(index, id), kind, cutoff) == WithoutId(Expired(index, kind, cutoff), id)
  {
    if index != [] {
      var n := |index| - 1;
      ExpiredWithoutId(index[..n], kind, cutoff, id);
      var e, r := Expired(index[..n], kind, cutoff), WithoutId(index[..n], id);
      assert (r + [index[n]])[..|r|] == r;
      assert (e + [index[n]])[..|e|] == e;
    }
  }

  lemma QueueWithoutId(index: seq<Artifact>, kind: string, cutoff: int, id: nat)
    ensures Queue(WithoutId(index, id), kind, cutoff) == WithoutId(Queue(index, kind, cutoff), id)
  {
    ExpiredWithoutId(index, kind, cutoff, id);
    SortWithoutId(Expired(index, kind, cutoff), id);
  }

  // ---------------------------------------------------------------- one pass of one policy

  // The rows of q after the deletable ones among `rows` are removed.
  function Cleaned(v: View, q: seq<Artifact>, rows: seq<Artifact>): seq<Artifact> {
    if rows == [] then q
    else
      var n := |rows| - 1;
      var r := Cleaned(v, q, rows[..n]);
      if Blocked(v, rows[n]) then r else WithoutId(r, rows[n].id)
  }

  // No file that mattered at the outset has become removable, and none has become stuck.
  ghost predicate Sees(v: View, s: Sweep) {
    forall file :: Stuck(v.w, s.files, file) <==> Stuck(v.w, v.files, file)
  }

  lemma {:induction false} ExamineAllSees(v: View, kind: string, s: Sweep, rows: seq<Artifact>)
    requires Sees(v, s)
    ensures Sees(v, ExamineAll(v.w, false, kind, s, rows))
  {
    if rows != [] {
      ExamineAllSees(v, kind, s, rows[..|rows| - 1]);
    }
  }

  lemma {:induction false} EnforceAllSees(v: View, limit: nat, now: int, s: Sweep, policies: seq<Policy>)
    requires Sees(v, s)
    ensures Sees(v, EnforceAll(v.w, false, limit, now, s, policies))
  {
    if policies != [] {
      var n := |policies| - 1;
      var p := policies[n];
      EnforceAllSees(v, limit, now, s, policies[..n]);
      var t := EnforceAll(v.w, false, limit, now, s, policies[..n]);
      ExamineAllSees(v, p.kind, t, Take(Queue(t.index, p.kind, Cutoff(now, p)), limit));
    }
  }

  lemma {:induction false} ExamineAllCleans(v: View, kind: string, s: Sweep, rows: seq<Artifact>)
    requires Sees(v, s)
    ensures ExamineAll(v.w, false, kind, s, rows).index == Cleaned(v, s.index, rows)
  {
    if rows != [] {
      var n := |rows| - 1;
      ExamineAllCleans(v, kind, s, rows[..n]);
      ExamineAllSees(v, kind, s, rows[..n]);
    }
  }

  lemma {:induction false} QueueOfCleaned(v: View, index: seq<Artifact>, rows: seq<Artifact>, kind: string, cutoff: int)
    ensures Queue(Cleaned(v, index, rows), kind, cutoff) == Cleaned(v, Queue(index, kind, cutoff), rows)
  {
    if rows != [] {
      var n := |rows| - 1;
      QueueOfCleaned(v, index, rows[..n], kind, cutoff);
      QueueWithoutId(Cleaned(v, index, rows[..n]), kind, cutoff, rows[n].id);
    }
  }

  lemma {:induction false} CleanedOfStrangers(v: View, q: seq<Artifact>, rows: seq<Artifact>)
    requires forall a, r :: a in q && r in rows ==> a.id != r.id
    ensures Cleaned(v, q, rows) == q
  {
    if rows != [] {
      var n := |rows| - 1;
      assert rows == rows[..n] + [rows[n]];
      CleanedOfStrangers(v, q, rows[..n]);
      WithoutAbsent(q, rows[n].id);
    }
  }

  lemma {:induction false} KeepBlockedSnoc(v: View, q: seq<Artifact>, x: Artifact)
    ensures KeepBlocked(v, q + [x]) == if Blocked(v, x) then KeepBlocked(v, q) + [x] else KeepBlocked(v, q)
  {
    if q == [] {
      assert [x][1..] == [] && q + [x] == [x];
    } else {
      KeepBlockedSnoc(v, q[1..], x);
      assert (q + [x])[1..] == q[1..] + [x];
    }
  }

  lemma {:induction false} KeepBlockedMembers(v: View, q: seq<Artifact>)
    ensures forall a :: a in KeepBlocked(v, q) ==> a in q
  {
    if q != [] {
      KeepBlockedMembers(v, q[1..]);
    }
  }

  lemma CleanedSnoc(v: View, q: seq<Artifact>, rows: seq<Artifact>, x: Artifact)
    ensures Cleaned(v, q, rows + [x])
      == if Blocked(v, x) then Cleaned(v, q, rows) else WithoutId(Cleaned(v, q, rows), x.id)
  {
    assert (rows + [x])[..|rows|] == rows;
  }

  // Removing the leading rows one by one keeps the blocked ones, in front of the rest.
  lemma {:induction false} CleanedPrefix(v: View, q: seq<Artifact>, k: seq<Artifact>, rest: seq<Artifact>)
    requires DistinctIds(q) && q == k + rest
    ensures Cleaned(v, q, k) == KeepBlocked(v, k) + rest
    decreases |k|
  {
    if k != [] {
      var front, x := k[..|k| - 1], k[|k| - 1];
      assert k == front + [x] && q == front + ([x] + rest);
      CleanedPrefix(v, q, front, [x] + rest);
      CleanedStep(v, q, front, x, rest);
    }
  }

  lemma CleanedStep(v: View, q: seq<Artifact>, k: seq<Artifact>, x: Artifact, rest: seq<Artifact>)
    requires DistinctIds(q) && q == k + ([x] + rest)
    requires Cleaned(v, q, k) == KeepBlocked(v, k) + ([x] + rest)
    ensures Cleaned(v, q, k + [x]) == KeepBlocked(v, k + [x]) + rest
  {
    CleanedSnoc(v, q, k, x);
    KeepBlockedSnoc(v, k, x);
    if Blocked(v, x) {
      assert KeepBlocked(v, k) + ([x] + rest) == (KeepBlocked(v, k) + [x]) + rest;
    } else {
      RemoveInside(v, k, x, rest, q);
    }
  }

  lemma RemoveInside(v: View, k: seq<Artifact>, x: Artifact, rest: seq<Artifact>, q: seq<Artifact>)
    requires DistinctIds(q) && q == k + ([x] + rest)
    ensures WithoutId(KeepBlocked(v, k) + ([x] + rest), x.id) == KeepBlocked(v, k) + rest
  {
    var b := KeepBlocked(v, k);
    KeepBlockedMembers(v, k);
    forall a | a in k ensures a.id != x.id {
      var i :| 0 <= i < |k| && k[i] == a;
      assert q[i] == a && q[|k|] == x;
    }
    forall a | a in rest ensures a.id != x.id {
      var i :| 0 <= i < |rest| && rest[i] == a;
      assert q[|k| + 1 + i] == a && q[|k|] == x;
    }
    WithoutIdOfConcat(b, [x] + rest, x.id);
    WithoutIdFirst([x] + rest, x.id);
    assert ([x] + rest)[1..] == rest;
    WithoutAbsent(b, x.id);
    WithoutAbsent(rest, x.id);
  }

  lemma TakeCleans(v: View, q: seq<Artifact>, limit: nat)
    requires DistinctIds(q)
    ensures Cleaned(v, q, Take(q, limit)) == PassQueue(v, limit, q)
  {
    var m := if limit <= |q| then limit else |q|;
    CleanedPrefix(v, q, q[..m], q[m..]);
    assert q[..|q|] == q && KeepBlocked(v, q) + [] == KeepBlocked(v, q);
    assert Take(q, limit) == q[..m];
  }

  // What a policy's pass does to the queue of any kind.
  lemma PolicyPass(v: View, limit: nat, now: int, s: Sweep, p: Policy, kind: string, cutoff: int)
    requires Sees(v, s) && DistinctIds(s.index)
    requires kind == p.kind ==> cutoff == Cutoff(now, p)
    ensures Queue(EnforcePolicy(v.w, false, limit, now, s, p).index, kind, cutoff)
      == if Applies(p) && p.kind == kind then PassQueue(v, limit, Queue(s.index, kind, cutoff))
         else Queue(s.index, kind, cutoff)
  {
    if Applies(p) {
      var mine := Queue(s.index, p.kind, Cutoff(now, p));
      var theirs := Queue(s.index, kind, cutoff);
      var rows := Take(mine, limit);
      QueueSpec(s.index, p.kind, Cutoff(now, p));
      QueueSpec(s.index, kind, cutoff);
      TakeMembers(mine, limit);
      ExamineAllCleans(v, p.kind, s, rows);
      QueueOfCleaned(v, s.index, rows, kind, cutoff);
      if p.kind == kind {
        TakeCleans(v, mine, limit);
      } else {
        forall a, r | a in theirs && r in rows ensures a.id != r.id {
          DistinctRows(s.index, a, r);
        }
        CleanedOfStrangers(v, theirs, rows);
      }
    }
  }

  lemma DistinctRows(s: seq<Artifact>, a: Artifact, b: Artifact)
    requires DistinctIds(s) && a in s && b in s
    ensures a.id == b.id ==> a == b
  {
    var i :| 0 <= i < |s| && s[i] == a;
    var j :| 0 <= j < |s| && s[j] == b;
  }

  // ---------------------------------------------------------------- repeated enforcement

  // The kind is the key of the policy table.
  ghost predicate DistinctKinds(policies: seq<Policy>) {
    forall i, j :: 0 <= i < j < |policies| ==> policies[i].kind != policies[j].kind
  }

  lemma EnforceAllKeepsIds(w: World, limit: nat, now: int, s: Sweep, policies: seq<Policy>)
    requires DistinctIds(s.index)
    ensures DistinctIds(EnforceAll(w, false, limit, now, s, policies).index)
  {
    OnlyDueRowsGo(w, false, limit, now, s, policies);
  }

  lemma {:induction false} NoPolicyNoChange(
    v: View, limit: nat, now: int, s: Sweep, policies: seq<Policy>, kind: string, cutoff: int)
    requires Sees(v, s) && DistinctIds(s.index)
    requires forall i :: 0 <= i < |policies| ==> policies[i].kind != kind
    ensures Queue(EnforceAll(v.w, false, limit, now, s, policies).index, kind, cutoff) == Queue(s.index, kind, cutoff)
  {
    if policies != [] {
      var n := |policies| - 1;
      NoPolicyNoChange(v, limit, now, s, policies[..n], kind, cutoff);
      EnforceAllKeepsIds(v.w, limit, now, s, policies[..n]);
      EnforceAllSees(v, limit, now, s, policies[..n]);
      var t := EnforceAll(v.w, false, limit, now, s, policies[..n]);
      PolicyPass(v, limit, now, t, policies[n], kind, cutoff);
    }
  }

  // One enforcement takes each applying policy's queue one step.
  lemma {:induction false} EnforcementPass(
    v: View, limit: nat, now: int, s: Sweep, policies: seq<Policy>, p: Policy)
    requires Sees(v, s) && DistinctIds(s.index) && DistinctKinds(policies)
    requires p in policies && Applies(p)
    ensures Queue(EnforceAll(v.w, false, limit, now, s, policies).index, p.kind, Cutoff(now, p))
      == PassQueue(v, limit, Queue(s.index, p.kind, Cutoff(now, p)))
  {
    var n := |policies| - 1;
    var t := EnforceAll(v.w, false, limit, now, s, policies[..n]);
    EnforceAllKeepsIds(v.w, limit, now, s, policies[..n]);
    EnforceAllSees(v, limit, now, s, policies[..n]);
    LastPolicy(policies, p);
    PolicyPass(v, limit, now, t, policies[n], p.kind, Cutoff(now, p));
    if p != policies[n] {
      EnforcementPass(v, limit, now, s, policies[..n], p);
    } else {
      NoPolicyNoChange(v, limit, now, s, policies[..n], p.kind, Cutoff(now, p));
    }
  }

  lemma LastPolicy(policies: seq<Policy>, p: Policy)
    requires DistinctKinds(policies) && p in policies
    ensures var n := |policies| - 1;
      && DistinctKinds(policies[..n])
      && (p == policies[n] ==> forall i :: 0 <= i < n ==> policies[..n][i].kind != p.kind)
      && (p != policies[n] ==> p in policies[..n] && p.kind != policies[n].kind)
  {
    var n := |policies| - 1;
    assert policies == policies[..n] + [policies[n]];
    if p != policies[n] {
      var i :| 0 <= i < n && policies[i] == p;
    }
  }

  function Enforcements(w: World, limit: nat, now: int, s: Sweep, policies: seq<Policy>, n: nat): Sweep
    decreases n
  {
    if n == 0 then s
    else Enforcements(w, limit, now, EnforceAll(w, false, limit, now, s, policies), policies, n - 1)
  }

  lemma {:induction false} EnforcementsPass(
    v: View, limit: nat, now: int, s: Sweep, policies: seq<Policy>, p: Policy, n: nat)
    requires Sees(v, s) && DistinctIds(s.index) && DistinctKinds(policies)
    requires p in policies && Applies(p)
    ensures Queue(Enforcements(v.w, limit, now, s, policies, n).index, p.kind, Cutoff(now, p))
      == Passes(v, limit, Queue(s.index, p.kind, Cutoff(now, p)), n)
    decreases n
  {
    if n > 0 {
      var t := EnforceAll(v.w, false, limit, now, s, policies);
      EnforcementPass(v, limit, now, s, policies, p);
      EnforceAllKeepsIds(v.w, limit, now, s, policies);
      EnforceAllSees(v, limit, now, s, policies);
      EnforcementsPass(v, limit, now, t, policies, p, n - 1);
      OnePassMore(v, limit, Queue(s.index, p.kind, Cutoff(now, p)), n);
      assert Enforcements(v.w, limit, now, s, policies, n) == Enforcements(v.w, limit, now, t, policies, n - 1);
    }
  }

  lemma OnePassMore(v: View, limit: nat, q: seq<Artifact>, n: nat)
    requires n > 0
    ensures Passes(v, limit, q, n) == Passes(v, limit, PassQueue(v, limit, q), n - 1)
  {
  }

  lemma {:induction false} QueueIsSmaller(index: seq<Artifact>, kind: string, cutoff: int)
    ensures |Queue(index, kind, cutoff)| <= |index|
  {
    OlderIsTotalPreorder();
    StableSortSpec(Older, Expired(index, kind, cutoff));
    ExpiredIsSmaller(index, kind, cutoff);
  }

  lemma {:induction false} ExpiredIsSmaller(index: seq<Artifact>, kind: string, cutoff: int)
    ensures |Expired(index, kind, cutoff)| <= |index|
  {
    if index != [] {
      ExpiredIsSmaller(index[..|index| - 1], kind, cutoff);
    }
  }

  // Everything that is overdue under a policy can no longer be deleted.
  ghost predicate Settled(v: View, now: int, s: Sweep, p: Policy) {
    forall a :: a in s.index && a.kind == p.kind && a.createdAt < Cutoff(now, p) ==> Blocked(v, a)
  }

  lemma SettledMeansCleared(v: View, now: int, s: Sweep, p: Policy)
    requires DistinctIds(s.index)
    ensures Settled(v, now, s, p) <==> Cleared(v, Queue(s.index, p.kind, Cutoff(now, p)))
  {
    var q := Queue(s.index, p.kind, Cutoff(now, p));
    QueueSpec(s.index, p.kind, Cutoff(now, p));
    if Settled(v, now, s, p) {
      forall i | 0 <= i < |q| ensures Blocked(v, q[i]) {
        assert q[i] in q;
      }
    }
  }

  lemma {:induction false} EnforcementsKeepIds(w: World, limit: nat, now: int, s: Sweep, policies: seq<Policy>, n: nat)
    requires DistinctIds(s.index)
    ensures DistinctIds(Enforcements(w, limit, now, s, policies, n).index)
    decreases n
  {
    if n > 0 {
      EnforceAllKeepsIds(w, limit, now, s, policies);
      EnforcementsKeepIds(w, limit, now, EnforceAll(w, false, limit, now, s, policies), policies, n - 1);
    }
  }

  /** Repeated enforcement at a fixed time deletes everything overdue under a policy that can
      be deleted if and only if fewer than `limit` undeletable rows of its kind are older
      than its last deletable one; as many passes as the index has rows are then enough. */
  lemma EnforcementSettlesExactly(
    w: World, limit: nat, now: int, s: Sweep, policies: seq<Policy>, p: Policy, n: nat)
    requires DistinctIds(s.index) && DistinctKinds(policies)
    requires p in policies && Applies(p) && limit > 0
    ensures var v := View(w, s.files);
      var few := Blockers(v, Queue(s.index, p.kind, Cutoff(now, p))) < limit;
      var t := Enforcements(w, limit, now, s, policies, n);
      (few && n >= |s.index| ==> Settled(v, now, t, p)) && (Settled(v, now, t, p) ==> few)
  {
    var v := View(w, s.files);
    var t := Enforcements(w, limit, now, s, policies, n);
    EnforcementsPass(v, limit, now, s, policies, p, n);
    EnforcementsKeepIds(w, limit, now, s, policies, n);
    SettledMeansCleared(v, now, t, p);
    QueueIsSmaller(s.index, p.kind, Cutoff(now, p));
    ClearsExactly(v, limit, Queue(s.index, p.kind, Cutoff(now, p)), n);
  }

  /** One old row that cannot be deleted, and a limit of one: no number of passes ever deletes
      the overdue row behind it. */
  lemma StuckRowStarvesQueue(w: World, now: int, s: Sweep, p: Policy, a: Artifact, b: Artifact, n: nat)
    requires Applies(p) && s.index == [a, b] && a.id != b.id
    requires a.kind == p.kind == b.kind && a.createdAt < b.createdAt < Cutoff(now, p)
    requires Blocked(View(w, s.files), a) && !Blocked(View(w, s.files), b)
    ensures !Settled(View(w, s.files), now, Enforcements(w, 1, now, s, [p], n), p)
  {
    var c, v := Cutoff(now, p), View(w, s.files);
    assert [a, b][..1] == [a] && [a][..0] == [];
    assert Expired([a], p.kind, c) == [a];
    assert Expired([a, b], p.kind, c) == [a, b];
    assert [a, b][1..] == [b] && [b][1..] == [];
    assert StableSort(Older, [b]) == [b];
    assert Queue(s.index, p.kind, c) == [a, b];
    assert !Blocked(v, [b][0]) && !Blocked(v, [a, b][1]);
    assert Blockers(v, [a, b]) >= 1;
    EnforcementSettlesExactly(w, 1, now, s, [p], p, n);
  }

  /** With no undeletable rows, as many passes as the index has rows leave nothing overdue. */
  lemma NothingOverdueIsLeft(w: World, limit: nat, now: int, s: Sweep, policies: seq<Policy>, a: Artifact)
    requires DistinctIds(s.index) && DistinctKinds(policies) && limit > 0
    requires forall b: Artifact :: !Blocked(View(w, s.files), b)
    ensures var t := Enforcements(w, limit, now, s, policies, |s.index|);
      a in t.index ==> !MayGo(w, now, policies, a)
  {
    var v := View(w, s.files);
    var t := Enforcements(w, limit, now, s, policies, |s.index|);
    if a in t.index && MayGo(w, now, policies, a) {
      var p :| p in policies && Applies(p) && a.kind == p.kind && a.createdAt < Cutoff(now, p);
      NoBlockers(v, Queue(s.index, p.kind, Cutoff(now, p)));
      EnforcementSettlesExactly(w, limit, now, s, policies, p, |s.index|);
      assert false;
    }
  }

  lemma {:induction false} NoBlockers(v: View, q: seq<Artifact>)
    requires forall b: Artifact :: !Blocked(v, b)
    ensures Blockers(v, q) == 0
  {
    if q != [] {
      NoBlockers(v, q[1..]);
    }
  }

  // ---------------------------------------------------------------- default policies

  lemma {:induction false} HasPolicyMeans(policies: seq<Policy>, kind: string)
    ensures HasPolicy(policies, kind) <==> Covers(policies, kind)
  {
    if policies != [] {
      var n := |policies| - 1;
      HasPolicyMeans(policies[..n], kind);
      assert policies == policies[..n] + [policies[n]];
    }
  }

  /** `ensure_defaults` keeps every stored policy and the key, and gives every default kind
      a policy. */
  lemma {:induction false} DefaultsAreAdded(policies: seq<Policy>, n: nat)
    requires n <= |DEFAULTS| && DistinctKinds(policies)
    ensures policies <= WithDefaults(policies, n) && DistinctKinds(WithDefaults(policies, n))
    ensures forall i :: 0 <= i < n ==> Covers(WithDefaults(policies, n), DEFAULTS[i].0)
  {
    if n > 0 {
      DefaultsAreAdded(policies, n - 1);
      var before, d := WithDefaults(policies, n - 1), DEFAULTS[n - 1];
      HasPolicyMeans(before, d.0);
      if !HasPolicy(before, d.0) {
        DefaultAdded(before, Policy(d.0, d.1, true, false));
      }
    }
  }

  ghost predicate Covers(policies: seq<Policy>, kind: string) { exists p :: p in policies && p.kind == kind }

  lemma DefaultAdded(policies: seq<Policy>, p: Policy)
    requires DistinctKinds(policies) && !Covers(policies, p.kind)
    ensures DistinctKinds(policies + [p]) && Covers(policies + [p], p.kind)
    ensures forall kind :: Covers(policies, kind) ==> Covers(policies + [p], kind)
  {
    assert p in policies + [p];
    forall i | 0 <= i < |policies| ensures policies[i].kind != p.kind {
      assert policies[i] in policies;
    }
    forall kind | Covers(policies, kind) ensures Covers(policies + [p], kind) {
      var q :| q in policies && q.kind == kind;
      assert q in policies + [p];
    }
  }
}
