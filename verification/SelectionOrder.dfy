// scheduler/fairness.py: in which order a selection serves the jobs, said on the jobs' own
// fields and on the arguments of the call alone.

module SelectionOrder {
  import opened Collections
  import opened FairScheduler

  // Jobs without a client share one bucket, with the client whose UUID is zero.
  predicate SameClient(a: Job, b: Job) {
    || a.clientId == b.clientId
    || (a.clientId == None && b.clientId == Some(0))
    || (a.clientId == Some(0) && b.clientId == None)
  }

  // a is to be served before b: queued before anything else, then the smaller priority number,
  // then the older.
  predicate Precedes(a: Job, b: Job) {
    || (a.state == "queued" && b.state != "queued")
    || ((a.state == "queued" <==> b.state == "queued")
        && (a.priority < b.priority || (a.priority == b.priority && a.createdAt < b.createdAt)))
  }

  predicate SameKey(a: Job, b: Job) {
    (a.state == "queued" <==> b.state == "queued") && a.priority == b.priority && a.createdAt == b.createdAt
  }

  // Every occurrence of a stands before every occurrence of b.
  ghost predicate AllBefore(list: seq<Job>, a: Job, b: Job) {
    forall i, j :: 0 <= i < |list| && 0 <= j < |list| && list[i] == a && list[j] == b ==> i < j
  }

  // Of two jobs of one client the one to be served first is in the list whenever the other is,
  // and stands before it.
  ghost predicate InTurn(runnable: seq<Job>, list: seq<Job>, a: Job, b: Job) {
    (b in list ==> multiset(list)[a] == multiset(runnable)[a]) && AllBefore(list, a, b)
  }

  ghost predicate ServedInOrder(runnable: seq<Job>, list: seq<Job>) {
    forall a, b :: a in runnable && b in runnable && SameClient(a, b) && Precedes(a, b) ==> InTurn(runnable, list, a, b)
  }

  // The jobs of x's client with x's key, in the order of the list.
  function Alike(jobs: seq<Job>, x: Job): seq<Job> {
    if jobs == [] then []
    else
      var n := |jobs| - 1;
      if SameClient(jobs[n], x) && SameKey(jobs[n], x) then Alike(jobs[..n], x) + [jobs[n]] else Alike(jobs[..n], x)
  }

  // Equal jobs of one client are served in the order in which they were given.
  ghost predicate StablyServed(runnable: seq<Job>, list: seq<Job>) {
    forall x :: Alike(list, x) <= Alike(runnable, x)
  }

  // The dictionary afterwards: each client's entry has grown by its selected jobs, a missing
  // one counting as zero, and no other entry has appeared.
  ghost predicate Counted(before: map<Uuid, int>, list: seq<Job>, after: map<Uuid, int>) {
    forall c :: CountedFor(before, OfClient(list, c), after, c)
  }

  predicate CountedFor(before: map<Uuid, int>, taken: seq<Job>, after: map<Uuid, int>, c: Uuid) {
    && (c in after <==> c in before || taken != [])
    && (c in after ==> after[c] == (if c in before then before[c] else 0) + |taken|)
  }

  // ---------------------------------------------------------------- order

  lemma PrecedesMeansBefore(a: Job, b: Job)
    ensures Precedes(a, b) ==> Before(a, b) && !Before(b, a)
    ensures SameKey(a, b) <==> Before(a, b) && Before(b, a)
    ensures SameClient(a, b) <==> ClientOf(a) == ClientOf(b)
  {
  }

  // Two jobs of one client keep their order among that client's jobs.
  lemma {:induction false} OfClientKeepsOrder(jobs: seq<Job>, i: nat, j: nat, c: Uuid) returns (p: nat, q: nat)
    requires i < j < |jobs| && ClientOf(jobs[i]) == c && ClientOf(jobs[j]) == c
    ensures p < q < |OfClient(jobs, c)| && OfClient(jobs, c)[p] == jobs[i] && OfClient(jobs, c)[q] == jobs[j]
  {
    var n := |jobs| - 1;
    if j < n {
      p, q := OfClientKeepsOrder(jobs[..n], i, j, c);
    } else {
      assert jobs[i] in jobs[..n] by { assert jobs[..n][i] == jobs[i]; }
      OfClientMembers(jobs[..n], c);
      p :| 0 <= p < |OfClient(jobs[..n], c)| && OfClient(jobs[..n], c)[p] == jobs[i];
      q := |OfClient(jobs[..n], c)|;
    }
  }

  // In a sorted list nothing stands after something it precedes.
  lemma PrecedesInBucket(runnable: seq<Job>, c: Uuid, p: nat, q: nat)
    requires p < q < |Bucket(runnable, c)|
    ensures !Precedes(Bucket(runnable, c)[q], Bucket(runnable, c)[p])
  {
    BucketSpec(runnable, c);
    PrecedesMeansBefore(Bucket(runnable, c)[q], Bucket(runnable, c)[p]);
    assert Before(Bucket(runnable, c)[p], Bucket(runnable, c)[q]);
  }

  lemma SelectedBefore(p: Policy, runnable: seq<Job>, before: map<Uuid, int>, selected: seq<Job>, after: map<Uuid, int>,
    a: Job, b: Job)
    requires Delivers(p, runnable, before, selected, after) && SameClient(a, b) && Precedes(a, b)
    ensures AllBefore(selected, a, b)
  {
    PrecedesMeansBefore(a, b);
    var c := ClientOf(a);
    forall i, j | 0 <= i < |selected| && 0 <= j < |selected| && selected[i] == a && selected[j] == b ensures i < j {
      if j < i {
        var x, y := OfClientKeepsOrder(selected, j, i, c);
        assert OfClient(selected, c) <= Bucket(runnable, c);
        PrecedesInBucket(runnable, c, x, y);
        assert false;
      }
    }
  }

  // What a prefix leaves out does not precede what it holds.
  lemma PrefixHoldsAll(bucket: seq<Job>, taken: seq<Job>, a: Job, q: nat)
    requires taken <= bucket && q < |taken|
    requires forall i :: q < i < |bucket| ==> bucket[i] != a
    ensures multiset(taken)[a] == multiset(bucket)[a]
  {
    var rest := bucket[|taken|..];
    assert bucket == taken + rest;
    assert multiset(bucket) == multiset(taken) + multiset(rest);
    forall i | 0 <= i < |rest| ensures rest[i] != a {
      assert rest[i] == bucket[|taken| + i];
    }
    assert multiset(rest)[a] == 0;
  }

  lemma SelectedOnlyAfter(p: Policy, runnable: seq<Job>, before: map<Uuid, int>, selected: seq<Job>,
    after: map<Uuid, int>, a: Job, b: Job)
    requires Delivers(p, runnable, before, selected, after) && SameClient(a, b) && Precedes(a, b) && b in selected
    ensures multiset(selected)[a] == multiset(runnable)[a]
  {
    PrecedesMeansBefore(a, b);
    var c := ClientOf(a);
    var bucket, taken := Bucket(runnable, c), OfClient(selected, c);
    assert taken <= bucket;
    OfClientMembers(selected, c);
    var q :| 0 <= q < |taken| && taken[q] == b;
    forall i | q < i < |bucket| ensures bucket[i] != a {
      PrecedesInBucket(runnable, c, q, i);
    }
    PrefixHoldsAll(bucket, taken, a, q);
    BucketSpec(runnable, c);
    OfClientCounts(runnable, a);
    OfClientCounts(selected, a);
  }

  // ---------------------------------------------------------------- stability

  lemma {:induction false} TiesSnoc(x: Job, s: seq<Job>, j: Job)
    ensures Ties(Before, x, s + [j])
      == if Before(x, j) && Before(j, x) then Ties(Before, x, s) + [j] else Ties(Before, x, s)
  {
    if s == [] {
      assert [j][1..] == [] && s + [j] == [j];
    } else {
      TiesSnoc(x, s[1..], j);
      assert (s + [j])[1..] == s[1..] + [j] && (s + [j])[0] == s[0];
    }
  }

  lemma {:induction false} AlikeAreTies(jobs: seq<Job>, x: Job)
    ensures Alike(jobs, x) == Ties(Before, x, OfClient(jobs, ClientOf(x)))
  {
    if jobs != [] {
      var front, last := jobs[..|jobs| - 1], jobs[|jobs| - 1];
      AlikeAreTies(front, x);
      PrecedesMeansBefore(last, x);
      assert jobs == front + [last];
      OfClientSnoc(front, last, ClientOf(x));
      if ClientOf(last) == ClientOf(x) {
        TiesSnoc(x, OfClient(front, ClientOf(x)), last);
      } else {
        assert OfClient(jobs, ClientOf(x)) == OfClient(front, ClientOf(x));
      }
    }
  }

  lemma {:induction false} TiesOfPrefix(x: Job, s: seq<Job>, rest: seq<Job>)
    ensures Ties(Before, x, s) <= Ties(Before, x, s + rest)
  {
    if s != [] {
      TiesOfPrefix(x, s[1..], rest);
      assert (s + rest)[1..] == s[1..] + rest && (s + rest)[0] == s[0];
    }
  }

  lemma SelectedStably(p: Policy, runnable: seq<Job>, before: map<Uuid, int>, selected: seq<Job>, after: map<Uuid, int>,
    x: Job)
    requires Delivers(p, runnable, before, selected, after)
    ensures Alike(selected, x) <= Alike(runnable, x)
  {
    var c := ClientOf(x);
    var bucket, taken := Bucket(runnable, c), OfClient(selected, c);
    assert taken <= bucket;
    assert bucket == taken + bucket[|taken|..];
    TiesOfPrefix(x, taken, bucket[|taken|..]);
    AlikeAreTies(selected, x);
    AlikeAreTies(runnable, x);
    BucketSpec(runnable, c);
  }

  /** Whatever delivers serves each client's jobs queued first, then by priority, then by age,
      and equal ones in the order given. */
  lemma DeliveryIsInOrder(p: Policy, runnable: seq<Job>, before: map<Uuid, int>, selected: seq<Job>,
    after: map<Uuid, int>)
    requires Delivers(p, runnable, before, selected, after)
    ensures ServedInOrder(runnable, selected) && StablyServed(runnable, selected)
  {
    forall a, b | a in runnable && b in runnable && SameClient(a, b) && Precedes(a, b)
      ensures InTurn(runnable, selected, a, b)
    {
      SelectedBefore(p, runnable, before, selected, after, a, b);
      if b in selected {
        SelectedOnlyAfter(p, runnable, before, selected, after, a, b);
      }
    }
    forall x ensures Alike(selected, x) <= Alike(runnable, x) {
      SelectedStably(p, runnable, before, selected, after, x);
    }
  }

  // ---------------------------------------------------------------- the dictionary

  lemma CountedAfterPass(p: Policy, runnable: seq<Job>, inflight: map<Uuid, int>, s: State, c: Uuid)
    requires Inv(p, runnable, inflight, s) && Live(p, s)
    requires CountedFor(inflight, OfClient(s.selected, c), s.inflight, c)
    ensures CountedFor(inflight, OfClient(Step(p, s).selected, c), Step(p, s).inflight, c)
  {
    var d := Current(s);
    if s.Inflight(d) < p.perClientConcurrency && s.Queue(d) != [] {
      var j := s.Queue(d)[0];
      assert Accounted(p, runnable, inflight, s, d);
      HeadOfQueue(p, runnable, inflight, s, d);
      CountedAfterTaking(inflight, s.selected, s.inflight, j, d, c);
    }
  }

  lemma CountedAfterTaking(before: map<Uuid, int>, selected: seq<Job>, now: map<Uuid, int>, j: Job, d: Uuid, c: Uuid)
    requires ClientOf(j) == d && CountedFor(before, OfClient(selected, c), now, c)
    ensures CountedFor(before, OfClient(selected + [j], c), now[d := Count(now, d) + 1], c)
  {
    OfClientSnoc(selected, j, c);
  }

  lemma {:induction false} CountedAlong(p: Policy, runnable: seq<Job>, inflight: map<Uuid, int>, s: State, n: nat, c: Uuid)
    requires Inv(p, runnable, inflight, s) && CountedFor(inflight, OfClient(s.selected, c), s.inflight, c)
    ensures CountedFor(inflight, OfClient(Run(p, s, n).selected, c), Run(p, s, n).inflight, c)
    decreases n
  {
    if n > 0 && Live(p, s) {
      CountedAfterPass(p, runnable, inflight, s, c);
      InvAfterStep(p, runnable, inflight, s);
      CountedAlong(p, runnable, inflight, Step(p, s), n - 1, c);
    }
  }

  /** At every moment of every run the dictionary has grown by exactly the selected jobs. */
  lemma DictionaryIsCounted(p: Policy, runnable: seq<Job>, inflight: map<Uuid, int>, n: nat)
    ensures var s := Run(p, Start(runnable, inflight), n);
      Counted(inflight, s.selected, s.inflight)
  {
    var s := Run(p, Start(runnable, inflight), n);
    forall c ensures CountedFor(inflight, OfClient(s.selected, c), s.inflight, c) {
      InvInitially(p, runnable, inflight);
      CountedAlong(p, runnable, inflight, Start(runnable, inflight), n, c);
    }
  }

  // ---------------------------------------------------------------- turns

  lemma {:induction false} PassesAreCounted(p: Policy, s: State, n: nat)
    requires Live(p, Run(p, s, n))
    ensures Run(p, s, n).idx == s.idx + n
    decreases n
  {
    if n > 0 {
      PassesAreCounted(p, Step(p, s), n - 1);
    }
  }

  // Which client has the k-th turn, counted from 0: the ids still listed take turns.
  function TurnOf(ids: seq<Uuid>, k: nat): Uuid
    requires ids != []
  {
    ids[k % |ids|]
  }

  /** The n-th pass serves the client whose turn it is among those still listed: at most one of
      its jobs is selected, and only that client can leave the list. The list starts with the
      clients of the runnable jobs in ascending order. */
  lemma TurnsGoRound(p: Policy, runnable: seq<Job>, inflight: map<Uuid, int>, n: nat)
    requires Live(p, Run(p, Start(runnable, inflight), n))
    ensures var s, t := Run(p, Start(runnable, inflight), n), Run(p, Start(runnable, inflight), n + 1);
      Passed(s, t, TurnOf(s.clients, n))
    ensures AscendingClients(runnable, Start(runnable, inflight).clients)
  {
    InvInitially(p, runnable, inflight);
    TurnsFrom(p, runnable, inflight, Start(runnable, inflight), n);
    StartIsAscending(runnable, inflight);
  }

  lemma TurnsFrom(p: Policy, runnable: seq<Job>, inflight: map<Uuid, int>, start: State, n: nat)
    requires Inv(p, runnable, inflight, start) && start.idx == 0 && Live(p, Run(p, start, n))
    ensures Passed(Run(p, start, n), Run(p, start, n + 1), TurnOf(Run(p, start, n).clients, n))
  {
    RunOneMore(p, start, n);
    PassesAreCounted(p, start, n);
    InvAlong(p, runnable, inflight, start, n);
    OnePass(p, runnable, inflight, Run(p, start, n));
  }

  lemma OnePass(p: Policy, runnable: seq<Job>, inflight: map<Uuid, int>, s: State)
    requires Inv(p, runnable, inflight, s) && Live(p, s)
    ensures Passed(s, Step(p, s), Current(s))
  {
    var c := Current(s);
    if s.Inflight(c) < p.perClientConcurrency && s.Queue(c) != [] {
      assert Accounted(p, runnable, inflight, s, c);
      HeadOfQueue(p, runnable, inflight, s, c);
    }
  }

  predicate Passed(s: State, t: State, c: Uuid) {
    && (t.selected == s.selected
        || (|t.selected| == |s.selected| + 1 && s.selected <= t.selected
            && ClientOf(t.selected[|s.selected|]) == c && t.clients == s.clients))
    && (t.clients == s.clients || t.clients == Without(s.clients, c))
  }

  ghost predicate AscendingClients(runnable: seq<Job>, ids: seq<Uuid>) {
    && (forall i, j :: 0 <= i < j < |ids| ==> ids[i] < ids[j])
    && (forall c :: c in ids <==> exists j :: j in runnable && ClientOf(j) == c)
  }

  lemma StartIsAscending(runnable: seq<Job>, inflight: map<Uuid, int>)
    ensures AscendingClients(runnable, Start(runnable, inflight).clients)
  {
    AscendingIsSorted(ClientsOf(runnable));
  }
}
