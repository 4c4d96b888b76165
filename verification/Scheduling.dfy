// The mutating form of `FairScheduler.select`, and the part of the watchdog tick
// that calls it and dispatches what it returns (watchdog/service.py).

module Scheduling {
  import opened Collections
  import opened FairScheduler
  import opened SelectionOrder

  // The `inflight_by_client` dictionary, which `select` updates for its caller.
  class InflightTable {
    var counts: map<Uuid, int>

    constructor (counts: map<Uuid, int>)
      ensures this.counts == counts
    {
      this.counts := counts;
    }
  }

  function Buckets(runnable: seq<Job>): map<Uuid, seq<Job>> {
    map c | c in ClientsOf(runnable) :: OfClient(runnable, c)
  }

  lemma ClientsSnoc(jobs: seq<Job>, j: Job)
    ensures ClientsOf(jobs + [j]) == ClientsOf(jobs) + {ClientOf(j)}
  {
    assert forall k :: k in jobs + [j] <==> k in jobs || k == j;
  }

  lemma NewClientHasNoJobs(jobs: seq<Job>, c: Uuid)
    ensures c !in ClientsOf(jobs) ==> OfClient(jobs, c) == []
  {
    OfClientMembers(jobs, c);
    NoMembersMeansEmpty(OfClient(jobs, c));
  }

  lemma BucketsSnoc(jobs: seq<Job>, j: Job)
    ensures var b, c := Buckets(jobs), ClientOf(j);
      Buckets(jobs + [j]) == b[c := (if c in b then b[c] else []) + [j]]
  {
    var b, c := Buckets(jobs), ClientOf(j);
    ClientsSnoc(jobs, j);
    NewClientHasNoJobs(jobs, c);
    var updated := b[c := (if c in b then b[c] else []) + [j]];
    assert Buckets(jobs + [j]).Keys == updated.Keys;
    forall d | d in updated ensures Buckets(jobs + [j])[d] == updated[d] {
      OfClientSnoc(jobs, j, d);
    }
  }

  // Everything one pass needs to know.
  lemma Pass(p: Policy, start: State, s: State)
    requires s == Run(p, start, s.idx) && Live(p, s) && Distinct(s.clients) && WillReturn(p, s)
    ensures var t := Step(p, s);
      && t == Run(p, start, t.idx) && Distinct(t.clients) && WillReturn(p, t)
      && (|| Backlog(t, t.clients) < Backlog(s, s.clients)
          || (Backlog(t, t.clients) == Backlog(s, s.clients) && Wait(p, t) < Wait(p, s)))
  {
    RunOneMore(p, start, s.idx);
    WillReturnIsInvariant(p, s);
    PassMakesProgress(p, s);
  }

  class Scheduler {
    const policy: Policy

    constructor (policy: Policy)
      ensures this.policy == policy
    {
      this.policy := policy;
    }

    static method Partition(runnable: seq<Job>) returns (buckets: map<Uuid, seq<Job>>)
      ensures buckets == Buckets(runnable)
    {
      buckets := map[];
      for i := 0 to |runnable|
        invariant buckets == Buckets(runnable[..i])
      {
        var c := ClientOf(runnable[i]);
        BucketsSnoc(runnable[..i], runnable[i]);
        assert runnable[..i + 1] == runnable[..i] + [runnable[i]];
        buckets := buckets[c := (if c in buckets then buckets[c] else []) + [runnable[i]]];
      }
      assert runnable[..|runnable|] == runnable;
    }

    static method SortBuckets(buckets: map<Uuid, seq<Job>>) returns (sorted: map<Uuid, seq<Job>>)
      ensures sorted == map c | c in buckets :: StableSort(Before, buckets[c])
    {
      sorted := buckets;
      var todo := buckets.Keys;
      while todo != {}
        invariant todo <= buckets.Keys && sorted.Keys == buckets.Keys
        invariant forall c :: c in buckets ==> sorted[c] == if c in todo then buckets[c] else StableSort(Before, buckets[c])
        decreases |todo|
      {
        var c :| c in todo;
        sorted := sorted[c := StableSort(Before, sorted[c])];
        todo := todo - {c};
      }
    }

    static method Prepare(runnable: seq<Job>) returns (clientIds: seq<Uuid>, buckets: map<Uuid, seq<Job>>)
      ensures forall inflight :: Start(runnable, inflight) == State(clientIds, buckets, inflight, 0, [])
      ensures Distinct(clientIds) && AscendingClients(runnable, clientIds)
    {
      var unsorted := Partition(runnable);
      buckets := SortBuckets(unsorted);
      clientIds := Ascending(buckets.Keys);
      AscendingIsSorted(buckets.Keys);
      assert buckets.Keys == ClientsOf(runnable);
      assert AscendingClients(runnable, clientIds) by { StartIsAscending(runnable, map[]); }
      assert buckets == map c | c in ClientsOf(runnable) :: Bucket(runnable, c);
    }

    // The while loop.
    method RoundRobin(ghost start: State, clients: seq<Uuid>, queues: map<Uuid, seq<Job>>, inflight: InflightTable)
      returns (selected: seq<Job>, ghost passes: nat)
      requires start == State(clients, queues, inflight.counts, 0, [])
      requires Distinct(clients) && WillReturn(policy, start)
      modifies inflight
      ensures !Live(policy, Run(policy, start, passes))
      ensures selected == Run(policy, start, passes).selected
      ensures inflight.counts == Run(policy, start, passes).inflight
    {
      var clientIds, buckets, idx: nat := clients, queues, 0;
      selected := [];
      ghost var now := start;
      while |selected| < policy.maxEnqueuePerTick && clientIds != []
        invariant now == State(clientIds, buckets, inflight.counts, idx, selected)
        invariant now == Run(policy, start, idx)
        invariant Distinct(clientIds) && WillReturn(policy, now)
        decreases Backlog(now, now.clients), Wait(policy, now)
      {
        Pass(policy, start, now);
        now := Step(policy, now);
        var cid := clientIds[idx % |clientIds|];
        idx := idx + 1;
        var running := Count(inflight.counts, cid);
        if running < policy.perClientConcurrency {
          var q := if cid in buckets then buckets[cid] else [];
          if q == [] {
            clientIds := Without(clientIds, cid);
          } else {
            buckets := buckets[cid := q[1..]];
            selected := selected + [q[0]];
            inflight.counts := inflight.counts[cid := running + 1];
          }
        }
      }
      passes := idx;
    }

    /** `select`. The source has no precondition: this one is exactly the condition under
        which the call comes back (FairScheduler.ExactTermination). */
    method Select(runnable: seq<Job>, inflight: InflightTable) returns (selected: seq<Job>)
      requires WillReturn(policy, Start(runnable, inflight.counts))
      modifies inflight
      ensures Delivers(policy, runnable, old(inflight.counts), selected, inflight.counts)
      ensures exists n: nat ::
        var s := Run(policy, Start(runnable, old(inflight.counts)), n);
        !Live(policy, s) && selected == s.selected && inflight.counts == s.inflight
      ensures ServedInOrder(runnable, selected) && StablyServed(runnable, selected)
      ensures Counted(old(inflight.counts), selected, inflight.counts)
    {
      ghost var before := inflight.counts;
      var clientIds, buckets := Prepare(runnable);
      ghost var passes;
      selected, passes := RoundRobin(Start(runnable, before), clientIds, buckets, inflight);
      EveryReturnDelivers(policy, runnable, before, passes);
      DeliveryIsInOrder(policy, runnable, before, selected, inflight.counts);
      DictionaryIsCounted(policy, runnable, before, passes);
    }
  }

  // ---------------------------------------------------------------- the tick

  // Back-pressure: low-priority jobs for an overloaded queue are not sent.
  predicate HeldBack(j: Job, overload: map<string, bool>, pauseLowPriority: bool) {
    j.queue in overload && overload[j.queue] && pauseLowPriority && j.priority >= 4
  }

  function Dispatched(selected: seq<Job>, overload: map<string, bool>, pauseLowPriority: bool): seq<Job> {
    if selected == [] then []
    else
      var n := |selected| - 1;
      var sent := Dispatched(selected[..n], overload, pauseLowPriority);
      if HeldBack(selected[n], overload, pauseLowPriority) then sent else sent + [selected[n]]
  }

  method Dispatch(selected: seq<Job>, overload: map<string, bool>, pauseLowPriority: bool) returns (sent: seq<Job>)
    ensures sent == Dispatched(selected, overload, pauseLowPriority)
  {
    sent := [];
    for i := 0 to |selected|
      invariant sent == Dispatched(selected[..i], overload, pauseLowPriority)
    {
      assert selected[..i + 1][..i] == selected[..i];
      if !HeldBack(selected[i], overload, pauseLowPriority) {
        sent := sent + [selected[i]];
      }
    }
    assert selected[..|selected|] == selected;
  }

  ghost predicate Subsequence(a: seq<Job>, b: seq<Job>)
    decreases |b|
  {
    if a == [] then true
    else if b == [] then false
    else
      var m, n := |a| - 1, |b| - 1;
      (a[m] == b[n] && Subsequence(a[..m], b[..n])) || Subsequence(a, b[..n])
  }

  lemma SubsequenceSnoc(a: seq<Job>, b: seq<Job>, j: Job)
    requires Subsequence(a, b)
    ensures Subsequence(a, b + [j]) && Subsequence(a + [j], b + [j])
  {
    var c, d := a + [j], b + [j];
    assert d[..|b|] == b && c[..|a|] == a && d[|b|] == j && c[|a|] == j;
    assert a != [] ==> Subsequence(a, d[..|b|]);
  }

  lemma {:induction false} DispatchedIsSubsequence(selected: seq<Job>, overload: map<string, bool>, pause: bool)
    ensures Subsequence(Dispatched(selected, overload, pause), selected)
  {
    if selected != [] {
      var front, last := selected[..|selected| - 1], selected[|selected| - 1];
      DispatchedIsSubsequence(front, overload, pause);
      hide Subsequence;
      SubsequenceSnoc(Dispatched(front, overload, pause), front, last);
      assert selected == front + [last];
    }
  }

  lemma {:induction false} DispatchedPerClient(selected: seq<Job>, overload: map<string, bool>, pause: bool, c: Uuid)
    ensures |OfClient(Dispatched(selected, overload, pause), c)| <= |OfClient(selected, c)|
  {
    if selected != [] {
      var n := |selected| - 1;
      DispatchedPerClient(selected[..n], overload, pause, c);
      OfClientSnoc(Dispatched(selected[..n], overload, pause), selected[n], c);
    }
  }

  lemma {:induction false} DispatchedMembers(selected: seq<Job>, overload: map<string, bool>, pause: bool, j: Job)
    ensures j in Dispatched(selected, overload, pause) <==> j in selected && !HeldBack(j, overload, pause)
  {
    if selected != [] {
      var n := |selected| - 1;
      DispatchedMembers(selected[..n], overload, pause, j);
      assert selected == selected[..n] + [selected[n]];
    }
  }

  lemma {:induction false} DispatchedCounts(selected: seq<Job>, overload: map<string, bool>, pause: bool, j: Job)
    ensures multiset(Dispatched(selected, overload, pause))[j]
      == if HeldBack(j, overload, pause) then 0 else multiset(selected)[j]
  {
    if selected != [] {
      var front, last := selected[..|selected| - 1], selected[|selected| - 1];
      DispatchedCounts(front, overload, pause, j);
      assert selected == front + [last];
      CountSnoc(front, last, j);
      CountSnoc(Dispatched(front, overload, pause), last, j);
    }
  }

  // What is sent keeps the order of the selection.
  lemma {:induction false} DispatchedKeepsOrder(
    selected: seq<Job>, overload: map<string, bool>, pause: bool, i: nat, j: nat) returns (p: nat, q: nat)
    requires i < j < |Dispatched(selected, overload, pause)|
    ensures p < q < |selected|
    ensures selected[p] == Dispatched(selected, overload, pause)[i]
    ensures selected[q] == Dispatched(selected, overload, pause)[j]
  {
    var n := |selected| - 1;
    var sent := Dispatched(selected[..n], overload, pause);
    if j < |sent| {
      p, q := DispatchedKeepsOrder(selected[..n], overload, pause, i, j);
    } else {
      DispatchedMembers(selected[..n], overload, pause, sent[i]);
      p :| 0 <= p < n && selected[p] == sent[i];
      q := n;
    }
  }

  // Sent jobs of one client keep the order of the selection, and what is sent is missing none
  // that had to come first, other than those held back.
  ghost predicate SentInOrder(runnable: seq<Job>, sent: seq<Job>, overload: map<string, bool>, pause: bool) {
    forall a, b :: a in runnable && b in runnable && SameClient(a, b) && Precedes(a, b) ==>
      && AllBefore(sent, a, b)
      && (b in sent && !(pause && a.priority >= 4 && a.queue in overload && overload[a.queue])
          ==> multiset(sent)[a] == multiset(runnable)[a])
  }

  lemma DispatchIsInOrder(runnable: seq<Job>, selected: seq<Job>, overload: map<string, bool>, pause: bool)
    requires ServedInOrder(runnable, selected)
    ensures SentInOrder(runnable, Dispatched(selected, overload, pause), overload, pause)
  {
    var sent := Dispatched(selected, overload, pause);
    forall a, b | a in runnable && b in runnable && SameClient(a, b) && Precedes(a, b)
      ensures AllBefore(sent, a, b)
      ensures b in sent && !(pause && a.priority >= 4 && a.queue in overload && overload[a.queue])
        ==> multiset(sent)[a] == multiset(runnable)[a]
    {
      assert InTurn(runnable, selected, a, b);
      DispatchedMembers(selected, overload, pause, b);
      DispatchedCounts(selected, overload, pause, a);
      SentBefore(selected, overload, pause, a, b);
    }
  }

  lemma SentBefore(selected: seq<Job>, overload: map<string, bool>, pause: bool, a: Job, b: Job)
    requires AllBefore(selected, a, b) && a != b
    ensures AllBefore(Dispatched(selected, overload, pause), a, b)
  {
    var sent := Dispatched(selected, overload, pause);
    forall i, j | 0 <= i < |sent| && 0 <= j < |sent| && sent[i] == a && sent[j] == b ensures i < j {
      if j < i {
        var p, q := DispatchedKeepsOrder(selected, overload, pause, j, i);
        assert false;
      }
    }
  }

  ghost predicate KeepsCaps(
    p: Policy, runnable: seq<Job>, before: map<Uuid, int>, selected: seq<Job>, sent: seq<Job>,
    overload: map<string, bool>, pause: bool)
  {
    && Subsequence(sent, selected)
    && (forall j :: j in sent <==>
          j in selected && !(pause && j.priority >= 4 && j.queue in overload && overload[j.queue]))
    && (forall j :: j in sent ==> j in runnable)
    && (forall c :: Count(before, c) + |OfClient(sent, c)|
          <= if OfClient(sent, c) == [] then Count(before, c) else p.perClientConcurrency)
  }

  /** One tick: what is sent is a subsequence of the selection, every sent job was runnable,
      and no client that was within its cap is pushed above it. */
  lemma TickKeepsCaps(
    p: Policy, runnable: seq<Job>, before: map<Uuid, int>, selected: seq<Job>, after: map<Uuid, int>,
    overload: map<string, bool>, pause: bool)
    requires Delivers(p, runnable, before, selected, after)
    ensures KeepsCaps(p, runnable, before, selected, Dispatched(selected, overload, pause), overload, pause)
  {
    DispatchedIsSubsequence(selected, overload, pause);
    forall j
      ensures j in Dispatched(selected, overload, pause) <==> j in selected && !HeldBack(j, overload, pause)
      ensures j in selected ==> j in runnable
    {
      DispatchedMembers(selected, overload, pause, j);
      assert j in selected ==> j in multiset(selected) && j in multiset(runnable);
    }
    forall c ensures |OfClient(Dispatched(selected, overload, pause), c)| <= |OfClient(selected, c)| {
      DispatchedPerClient(selected, overload, pause, c);
    }
  }

  /** The scheduling part of a tick: select, then send what is not held back. It comes back
      exactly when `select` does. */
  method Tick(
    policy: Policy, runnable: seq<Job>, inflight: InflightTable, overload: map<string, bool>, pause: bool)
    returns (selected: seq<Job>, sent: seq<Job>)
    requires WillReturn(policy, Start(runnable, inflight.counts))
    modifies inflight
    ensures Delivers(policy, runnable, old(inflight.counts), selected, inflight.counts)
    ensures sent == Dispatched(selected, overload, pause)
    ensures KeepsCaps(policy, runnable, old(inflight.counts), selected, sent, overload, pause)
    ensures SentInOrder(runnable, sent, overload, pause)
  {
    var scheduler := new Scheduler(policy);
    selected := scheduler.Select(runnable, inflight);
    sent := Dispatch(selected, overload, pause);
    TickKeepsCaps(policy, runnable, old(inflight.counts), selected, inflight.counts, overload, pause);
    DispatchIsInOrder(runnable, selected, overload, pause);
  }

  /** The scheduler's own test: two clients, two jobs and one job, cap 1, limit 10. The call
      it makes does not come back. */
  lemma OwnTestSpins(c1: Uuid, c2: Uuid, a: Job, b: Job, c: Job)
    requires c1 != c2
    requires a.clientId == b.clientId == Some(c1) && c.clientId == Some(c2)
    ensures !Returns(Policy(1, 10), Start([a, b, c], map[]))
  {
    DefaultCapSpins(Policy(1, 10), [a, b, c], map[]);
  }
}
