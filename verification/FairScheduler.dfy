// scheduler/fairness.py: round-robin selection over per-client buckets.
//
// `State` is what the while loop changes, `Step` is one pass of its body. The
// method itself is in Scheduling.dfy and is proved to walk exactly these
// states. Whether the loop stops at all is the first theorem.

module FairScheduler {
  import opened Arithmetic
  import opened Collections

  // A UUID is its 128-bit value: Python sorts the keys by their fixed-width hex
  // text, which is numeric order.
  type Uuid = nat
  const NIL: Uuid := 0

  datatype Job = Job(id: Uuid, clientId: Option<Uuid>, state: string, queue: string, priority: int, createdAt: int)
  datatype Policy = Policy(perClientConcurrency: int, maxEnqueuePerTick: int)

  function ClientOf(j: Job): Uuid {
    if j.clientId.Some? then j.clientId.value else NIL
  }

  function Rank(j: Job): int {
    if j.state == "queued" then 0 else 1
  }

  // The sort key (queued first, priority, age), compared as a tuple.
  predicate Before(a: Job, b: Job) {
    || Rank(a) < Rank(b)
    || (Rank(a) == Rank(b) && a.priority < b.priority)
    || (Rank(a) == Rank(b) && a.priority == b.priority && a.createdAt <= b.createdAt)
  }

  // The jobs of client c, in the order they appear in jobs.
  function OfClient(jobs: seq<Job>, c: Uuid): seq<Job> {
    if jobs == [] then []
    else OfClient(jobs[..|jobs| - 1], c) + (if ClientOf(jobs[|jobs| - 1]) == c then [jobs[|jobs| - 1]] else [])
  }

  function Bucket(runnable: seq<Job>, c: Uuid): seq<Job> {
    StableSort(Before, OfClient(runnable, c))
  }

  function ClientsOf(runnable: seq<Job>): set<Uuid> {
    set j | j in runnable :: ClientOf(j)
  }

  // `inflight_by_client.get(c, 0)`
  function Count(inflight: map<Uuid, int>, c: Uuid): int {
    if c in inflight then inflight[c] else 0
  }

  datatype State = State(
    clients: seq<Uuid>, queues: map<Uuid, seq<Job>>, inflight: map<Uuid, int>, idx: nat, selected: seq<Job>)
  {
    function Queue(c: Uuid): seq<Job> {
      if c in queues then queues[c] else []
    }
    function Inflight(c: Uuid): int {
      Count(inflight, c)
    }
  }

  function Start(runnable: seq<Job>, inflight: map<Uuid, int>): State {
    State(Ascending(ClientsOf(runnable)), map c | c in ClientsOf(runnable) :: Bucket(runnable, c), inflight, 0, [])
  }

  predicate Live(p: Policy, s: State) {
    |s.selected| < p.maxEnqueuePerTick && s.clients != []
  }

  function Current(s: State): Uuid
    requires s.clients != []
  {
    s.clients[s.idx % |s.clients|]
  }

  function Without(ids: seq<Uuid>, c: Uuid): seq<Uuid> {
    if ids == [] then []
    else if ids[0] == c then Without(ids[1..], c)
    else [ids[0]] + Without(ids[1..], c)
  }

  // One pass of the loop body.
  function Step(p: Policy, s: State): State
    requires Live(p, s)
  {
    var c := Current(s);
    var next := s.(idx := s.idx + 1);
    if s.Inflight(c) >= p.perClientConcurrency then next
    else if s.Queue(c) == [] then next.(clients := Without(s.clients, c))
    else next.(
      queues := s.queues[c := s.Queue(c)[1..]],
      selected := s.selected + [s.Queue(c)[0]],
      inflight := s.inflight[c := s.Inflight(c) + 1])
  }

  // The state after n passes, or the state in which the loop stopped before that.
  ghost function Run(p: Policy, s: State, n: nat): State
    decreases n
  {
    if n == 0 || !Live(p, s) then s else Run(p, Step(p, s), n - 1)
  }

  ghost predicate Returns(p: Policy, s: State) {
    exists n: nat :: !Live(p, Run(p, s, n))
  }

  lemma {:induction false} RunOneMore(p: Policy, s: State, n: nat)
    decreases n
    ensures Run(p, s, n + 1) == if Live(p, Run(p, s, n)) then Step(p, Run(p, s, n)) else Run(p, s, n)
  {
    if n > 0 && Live(p, s) {
      RunOneMore(p, Step(p, s), n - 1);
    }
  }

  // ---------------------------------------------------------------- when the loop stops

  function Max0(x: int): nat { if x < 0 then 0 else x }
  function Min(x: int, y: int): int { if x < y then x else y }

  // How many of c's queued jobs its cap still lets through.
  function Spare(p: Policy, s: State, c: Uuid): nat {
    Min(|s.Queue(c)|, Max0(p.perClientConcurrency - s.Inflight(c)))
  }

  function Capacity(p: Policy, s: State, ids: seq<Uuid>): nat {
    if ids == [] then 0 else Spare(p, s, ids[0]) + Capacity(p, s, ids[1..])
  }

  // c would still be below its cap after all of its queue had been selected.
  predicate Roomy(p: Policy, s: State, c: Uuid) {
    |s.Queue(c)| + s.Inflight(c) < p.perClientConcurrency
  }

  // Either the tick limit can be filled, or every bucket can be drained below its cap.
  predicate WillReturn(p: Policy, s: State) {
    || p.maxEnqueuePerTick - |s.selected| <= Capacity(p, s, s.clients)
    || forall c :: c in s.clients ==> Roomy(p, s, c)
  }

  predicate Distinct(ids: seq<Uuid>) {
    forall i, j :: 0 <= i < j < |ids| ==> ids[i] != ids[j]
  }

  lemma {:induction false} WithoutSpec(ids: seq<Uuid>, c: Uuid)
    ensures forall x :: x in Without(ids, c) <==> x in ids && x != c
    ensures |Without(ids, c)| <= |ids|
    ensures c in ids ==> |Without(ids, c)| < |ids|
    ensures Distinct(ids) ==> Distinct(Without(ids, c))
  {
    if ids != [] {
      WithoutSpec(ids[1..], c);
      assert ids == [ids[0]] + ids[1..];
      if Distinct(ids) {
        var r := Without(ids[1..], c);
        forall j | 0 <= j < |r| ensures r[j] != ids[0] {
          assert r[j] in r && r[j] in ids[1..];
        }
      }
    }
  }

  lemma {:induction false} CapacityFrame(p: Policy, s: State, t: State, ids: seq<Uuid>)
    requires forall c :: c in ids ==> Spare(p, s, c) == Spare(p, t, c)
    ensures Capacity(p, s, ids) == Capacity(p, t, ids)
  {
    if ids != [] {
      assert ids[0] in ids && forall c :: c in ids[1..] ==> c in ids;
      CapacityFrame(p, s, t, ids[1..]);
    }
  }

  lemma {:induction false} CapacityOfPop(p: Policy, s: State, t: State, ids: seq<Uuid>, c: Uuid)
    requires Distinct(ids) && c in ids
    requires forall d :: d in ids && d != c ==> Spare(p, s, d) == Spare(p, t, d)
    requires Spare(p, t, c) == Spare(p, s, c) - 1
    ensures Capacity(p, t, ids) == Capacity(p, s, ids) - 1
  {
    assert ids == [ids[0]] + ids[1..];
    if ids[0] == c {
      CapacityFrame(p, s, t, ids[1..]);
    } else {
      CapacityOfPop(p, s, t, ids[1..], c);
    }
  }

  lemma {:induction false} CapacityOfRemoval(p: Policy, s: State, ids: seq<Uuid>, c: Uuid)
    requires Spare(p, s, c) == 0
    ensures Capacity(p, s, Without(ids, c)) == Capacity(p, s, ids)
  {
    if ids != [] {
      CapacityOfRemoval(p, s, ids[1..], c);
      assert ids[0] != c ==> Without(ids, c)[0] == ids[0] && Without(ids, c)[1..] == Without(ids[1..], c);
    }
  }

  // A pass can neither create nor destroy the condition.
  lemma WillReturnAfterRemoval(p: Policy, s: State)
    requires Live(p, s) && Distinct(s.clients)
    requires s.Inflight(Current(s)) < p.perClientConcurrency && s.Queue(Current(s)) == []
    ensures Distinct(Step(p, s).clients)
    ensures WillReturn(p, Step(p, s)) <==> WillReturn(p, s)
  {
    var c, t := Current(s), Step(p, s);
    WithoutSpec(s.clients, c);
    CapacityOfRemoval(p, s, s.clients, c);
    CapacityFrame(p, s, t, t.clients);
    assert Roomy(p, s, c);
    assert forall d :: Roomy(p, t, d) <==> Roomy(p, s, d);
  }

  lemma WillReturnAfterPop(p: Policy, s: State)
    requires Live(p, s) && Distinct(s.clients)
    requires s.Inflight(Current(s)) < p.perClientConcurrency && s.Queue(Current(s)) != []
    ensures WillReturn(p, Step(p, s)) <==> WillReturn(p, s)
  {
    var c, t := Current(s), Step(p, s);
    assert c in s.clients;
    CapacityOfPop(p, s, t, s.clients, c);
    assert forall d :: Roomy(p, t, d) <==> Roomy(p, s, d);
  }

  lemma WillReturnIsInvariant(p: Policy, s: State)
    requires Live(p, s) && Distinct(s.clients)
    ensures Distinct(Step(p, s).clients)
    ensures WillReturn(p, Step(p, s)) <==> WillReturn(p, s)
  {
    var c, t := Current(s), Step(p, s);
    if s.Inflight(c) >= p.perClientConcurrency {
      CapacityFrame(p, s, t, s.clients);
      assert forall d :: Roomy(p, t, d) <==> Roomy(p, s, d);
    } else if s.Queue(c) == [] {
      WillReturnAfterRemoval(p, s);
    } else {
      WillReturnAfterPop(p, s);
    }
  }

  lemma {:induction false} WillReturnAlongRun(p: Policy, s: State, n: nat)
    requires Distinct(s.clients)
    ensures Distinct(Run(p, s, n).clients)
    ensures WillReturn(p, Run(p, s, n)) <==> WillReturn(p, s)
    decreases n
  {
    if n > 0 && Live(p, s) {
      WillReturnIsInvariant(p, s);
      WillReturnAlongRun(p, Step(p, s), n - 1);
    }
  }

  lemma {:induction false} CapacityNeedsRoom(p: Policy, s: State, ids: seq<Uuid>)
    requires Capacity(p, s, ids) > 0
    ensures exists c :: c in ids && s.Inflight(c) < p.perClientConcurrency
  {
    if Spare(p, s, ids[0]) > 0 {
      assert ids[0] in ids;
    } else {
      CapacityNeedsRoom(p, s, ids[1..]);
      var c :| c in ids[1..] && s.Inflight(c) < p.perClientConcurrency;
      assert c in ids;
    }
  }

  // Pass number k would visit a client that is below its cap.
  ghost predicate Useful(p: Policy, s: State, k: nat) {
    s.clients != [] && s.Inflight(s.clients[k % |s.clients|]) < p.perClientConcurrency
  }

  lemma UsefulPassAhead(p: Policy, s: State)
    requires Live(p, s) && WillReturn(p, s)
    ensures exists k: nat :: s.idx <= k && Useful(p, s, k)
  {
    var n := |s.clients|;
    if p.maxEnqueuePerTick - |s.selected| <= Capacity(p, s, s.clients) {
      CapacityNeedsRoom(p, s, s.clients);
    } else {
      assert s.clients[0] in s.clients;
    }
    var c :| c in s.clients && s.Inflight(c) < p.perClientConcurrency;
    var i :| 0 <= i < n && s.clients[i] == c;
    var k := s.idx * n + i;
    DivModUnique(k, s.idx, i, n);
    MultipleIsLarge(n, s.idx);
    assert Useful(p, s, k);
  }

  // Work left: queued jobs plus listed clients.
  function Backlog(s: State, ids: seq<Uuid>): nat {
    if ids == [] then 0 else 1 + |s.Queue(ids[0])| + Backlog(s, ids[1..])
  }

  lemma {:induction false} BacklogFrame(s: State, t: State, ids: seq<Uuid>)
    requires forall c :: c in ids ==> |s.Queue(c)| == |t.Queue(c)|
    ensures Backlog(s, ids) == Backlog(t, ids)
  {
    if ids != [] {
      assert ids[0] in ids && forall c :: c in ids[1..] ==> c in ids;
      BacklogFrame(s, t, ids[1..]);
    }
  }

  lemma {:induction false} BacklogOfPop(s: State, t: State, ids: seq<Uuid>, c: Uuid)
    requires Distinct(ids) && c in ids
    requires forall d :: d in ids && d != c ==> |s.Queue(d)| == |t.Queue(d)|
    requires |t.Queue(c)| == |s.Queue(c)| - 1
    ensures Backlog(t, ids) == Backlog(s, ids) - 1
  {
    assert ids == [ids[0]] + ids[1..];
    if ids[0] == c {
      BacklogFrame(s, t, ids[1..]);
    } else {
      BacklogOfPop(s, t, ids[1..], c);
    }
  }

  lemma {:induction false} BacklogOfRemoval(s: State, ids: seq<Uuid>, c: Uuid)
    ensures Backlog(s, Without(ids, c)) <= Backlog(s, ids)
    ensures c in ids ==> Backlog(s, Without(ids, c)) < Backlog(s, ids)
  {
    if ids != [] {
      BacklogOfRemoval(s, ids[1..], c);
      assert ids == [ids[0]] + ids[1..];
      assert ids[0] != c ==> Without(ids, c)[0] == ids[0] && Without(ids, c)[1..] == Without(ids[1..], c);
    }
  }

  // The first such pass from now on.
  ghost function NextUseful(p: Policy, s: State): (k: nat)
    requires Live(p, s) && WillReturn(p, s)
    ensures s.idx <= k && Useful(p, s, k)
    ensures forall i: nat :: s.idx <= i < k ==> !Useful(p, s, i)
  {
    UsefulPassAhead(p, s);
    var k: nat :| s.idx <= k && Useful(p, s, k);
    FirstUseful(p, s, s.idx, k)
  }

  ghost function FirstUseful(p: Policy, s: State, from: nat, k: nat): (first: nat)
    requires from <= k && Useful(p, s, k)
    ensures from <= first && Useful(p, s, first)
    ensures forall i: nat :: from <= i < first ==> !Useful(p, s, i)
    decreases k - from
  {
    if Useful(p, s, from) then from else FirstUseful(p, s, from + 1, k)
  }

  // Passes wasted on capped clients before the next useful one.
  ghost function Wait(p: Policy, s: State): nat {
    if Live(p, s) && WillReturn(p, s) then NextUseful(p, s) - s.idx else 0
  }

  /** The measure of a returning run: every pass shortens the backlog or the wait. */
  lemma PassMakesProgress(p: Policy, s: State)
    requires Live(p, s) && Distinct(s.clients) && WillReturn(p, s)
    ensures var t := Step(p, s);
      || Backlog(t, t.clients) < Backlog(s, s.clients)
      || (Backlog(t, t.clients) == Backlog(s, s.clients) && Wait(p, t) < Wait(p, s))
  {
    WillReturnIsInvariant(p, s);
    var c, t := Current(s), Step(p, s);
    assert c in s.clients;
    if s.Inflight(c) >= p.perClientConcurrency {
      BacklogFrame(s, t, s.clients);
      assert !Useful(p, s, s.idx);
      assert Useful(p, t, NextUseful(p, s));
    } else if s.Queue(c) == [] {
      BacklogOfRemoval(s, s.clients, c);
      BacklogFrame(s, t, t.clients);
    } else {
      BacklogOfPop(s, t, s.clients, c);
    }
  }

  lemma {:induction false} ReturnsWhenPossible(p: Policy, s: State)
    requires Distinct(s.clients) && WillReturn(p, s)
    ensures Returns(p, s)
    decreases Backlog(s, s.clients), Wait(p, s)
  {
    if Live(p, s) {
      var t := Step(p, s);
      PassMakesProgress(p, s);
      WillReturnIsInvariant(p, s);
      ReturnsWhenPossible(p, t);
      var n: nat :| !Live(p, Run(p, t, n));
      assert Run(p, s, n + 1) == Run(p, t, n);
    } else {
      assert !Live(p, Run(p, s, 0));
    }
  }

  /** `select` returns if and only if the tick limit is within the capacity of the
      buckets, or no bucket can fill its client's cap. */
  lemma ExactTermination(p: Policy, runnable: seq<Job>, inflight: map<Uuid, int>)
    ensures var s := Start(runnable, inflight);
      Returns(p, s) <==> WillReturn(p, s)
  {
    var s := Start(runnable, inflight);
    AscendingIsSorted(ClientsOf(runnable));
    if WillReturn(p, s) {
      ReturnsWhenPossible(p, s);
    }
    if Returns(p, s) {
      var n: nat :| !Live(p, Run(p, s, n));
      WillReturnAlongRun(p, s, n);
    }
  }

  /** With a cap of at most one (the default) and fewer runnable jobs than the tick limit,
      `select` never returns: it spins on the first client it has filled. */
  lemma DefaultCapSpins(p: Policy, runnable: seq<Job>, inflight: map<Uuid, int>)
    requires p.perClientConcurrency <= 1
    requires 0 < |runnable| < p.maxEnqueuePerTick
    requires forall c :: c in inflight ==> inflight[c] >= 0
    ensures !Returns(p, Start(runnable, inflight))
  {
    var s, c := Start(runnable, inflight), ClientOf(runnable[0]);
    StartSpec(runnable, inflight);
    FirstClientWaits(runnable, inflight);
    assert s.Inflight(c) >= 0 && !Roomy(p, s, c);
    CapacityWithinRunnable(p, runnable, s, s.clients);
    ExactTermination(p, runnable, inflight);
  }

  lemma StartSpec(runnable: seq<Job>, inflight: map<Uuid, int>)
    ensures var s := Start(runnable, inflight);
      Distinct(s.clients) && forall c :: c in s.clients ==> s.Queue(c) == Bucket(runnable, c)
  {
    AscendingIsSorted(ClientsOf(runnable));
  }

  lemma FirstClientWaits(runnable: seq<Job>, inflight: map<Uuid, int>)
    requires runnable != []
    ensures var s, c := Start(runnable, inflight), ClientOf(runnable[0]);
      c in s.clients && s.Queue(c) != []
  {
    var c := ClientOf(runnable[0]);
    BucketSpec(runnable, c);
    assert runnable[0] in runnable && c in ClientsOf(runnable);
    assert runnable[0] in Bucket(runnable, c);
  }

  // Jobs of the listed clients only.
  function OfClients(jobs: seq<Job>, ids: seq<Uuid>): seq<Job> {
    if jobs == [] then []
    else OfClients(jobs[..|jobs| - 1], ids) + (if ClientOf(jobs[|jobs| - 1]) in ids then [jobs[|jobs| - 1]] else [])
  }

  lemma {:induction false} OfClientsSplit(jobs: seq<Job>, ids: seq<Uuid>)
    requires ids != [] && ids[0] !in ids[1..]
    ensures |OfClients(jobs, ids)| == |OfClient(jobs, ids[0])| + |OfClients(jobs, ids[1..])|
  {
    if jobs != [] {
      OfClientsSplit(jobs[..|jobs| - 1], ids);
      assert forall x :: x in ids <==> x == ids[0] || x in ids[1..];
    }
  }

  lemma {:induction false} OfClientsIsSmaller(jobs: seq<Job>, ids: seq<Uuid>)
    ensures |OfClients(jobs, ids)| <= |jobs|
  {
    if jobs != [] {
      OfClientsIsSmaller(jobs[..|jobs| - 1], ids);
    }
  }

  lemma {:induction false} CapacityWithin(p: Policy, runnable: seq<Job>, s: State, ids: seq<Uuid>)
    requires Distinct(ids)
    requires forall c :: c in ids ==> |s.Queue(c)| == |OfClient(runnable, c)|
    ensures Capacity(p, s, ids) <= |OfClients(runnable, ids)|
  {
    if ids != [] {
      assert ids[0] in ids && forall c :: c in ids[1..] ==> c in ids;
      CapacityWithin(p, runnable, s, ids[1..]);
      OfClientsSplit(runnable, ids);
    }
  }

  lemma CapacityWithinRunnable(p: Policy, runnable: seq<Job>, s: State, ids: seq<Uuid>)
    requires Distinct(ids)
    requires forall c :: c in ids ==> s.Queue(c) == Bucket(runnable, c)
    ensures Capacity(p, s, ids) <= |runnable|
  {
    forall c | c in ids ensures |s.Queue(c)| == |OfClient(runnable, c)| {
      BucketSpec(runnable, c);
    }
    CapacityWithin(p, runnable, s, ids);
    OfClientsIsSmaller(runnable, ids);
  }

  // ---------------------------------------------------------------- buckets

  lemma BeforeIsTotalPreorder()
    ensures TotalPreorder(Before)
  {
  }

  lemma {:induction false} OfClientMembers(jobs: seq<Job>, c: Uuid)
    ensures forall j :: j in OfClient(jobs, c) <==> j in jobs && ClientOf(j) == c
  {
    if jobs != [] {
      var n := |jobs| - 1;
      OfClientMembers(jobs[..n], c);
      assert jobs == jobs[..n] + [jobs[n]];
    }
  }

  lemma {:induction false} OfClientCounts(jobs: seq<Job>, j: Job)
    ensures multiset(OfClient(jobs, ClientOf(j)))[j] == multiset(jobs)[j]
  {
    if jobs != [] {
      var n := |jobs| - 1;
      OfClientCounts(jobs[..n], j);
      assert jobs == jobs[..n] + [jobs[n]];
      CountSnoc(jobs[..n], jobs[n], j);
      CountSnoc(OfClient(jobs[..n], ClientOf(j)), jobs[n], j);
    }
  }

  // b does not have to stand before a: queued jobs come first, then smaller priority numbers,
  // then older jobs.
  predicate MayStandBefore(a: Job, b: Job) {
    if a.state == "queued" && b.state != "queued" then true
    else if a.state != "queued" && b.state == "queued" then false
    else a.priority < b.priority || (a.priority == b.priority && a.createdAt <= b.createdAt)
  }

  lemma KeyOrder(list: seq<Job>)
    requires Sorted(Before, list)
    ensures forall i, j :: 0 <= i < j < |list| ==> MayStandBefore(list[i], list[j])
  {
    forall i, j | 0 <= i < j < |list| ensures MayStandBefore(list[i], list[j]) {
      assert Before(list[i], list[j]);
    }
  }

  /** A bucket holds its client's jobs and nothing else, in key order, ties in arrival order. */
  lemma BucketSpec(runnable: seq<Job>, c: Uuid)
    ensures var b := Bucket(runnable, c); forall i, j :: 0 <= i < j < |b| ==> MayStandBefore(b[i], b[j])
    ensures Sorted(Before, Bucket(runnable, c))
    ensures multiset(Bucket(runnable, c)) == multiset(OfClient(runnable, c))
    ensures |Bucket(runnable, c)| == |OfClient(runnable, c)|
    ensures forall t :: Ties(Before, t, Bucket(runnable, c)) == Ties(Before, t, OfClient(runnable, c))
    ensures forall j :: j in Bucket(runnable, c) <==> j in runnable && ClientOf(j) == c
  {
    BeforeIsTotalPreorder();
    StableSortSpec(Before, OfClient(runnable, c));
    OfClientMembers(runnable, c);
    SameMultisetSameElements(Bucket(runnable, c), OfClient(runnable, c));
    KeyOrder(Bucket(runnable, c));
  }

  // ---------------------------------------------------------------- what a run preserves

  // What holds of client c between passes, relative to the arguments of the call.
  ghost predicate Accounted(p: Policy, runnable: seq<Job>, inflight: map<Uuid, int>, s: State, c: Uuid) {
    var taken := OfClient(s.selected, c);
    && taken + s.Queue(c) == Bucket(runnable, c)
    && s.Inflight(c) == Count(inflight, c) + |taken|
    && (taken != [] ==> s.Inflight(c) <= p.perClientConcurrency)
    && (c !in s.clients ==> s.Queue(c) == [])
  }

  ghost predicate Inv(p: Policy, runnable: seq<Job>, inflight: map<Uuid, int>, s: State) {
    && Distinct(s.clients)
    && (forall c :: Accounted(p, runnable, inflight, s, c))
    && |s.selected| <= Max0(p.maxEnqueuePerTick)
  }

  lemma OfClientSnoc(jobs: seq<Job>, j: Job, c: Uuid)
    ensures OfClient(jobs + [j], c) == OfClient(jobs, c) + (if ClientOf(j) == c then [j] else [])
  {
    assert (jobs + [j])[..|jobs|] == jobs;
  }

  lemma InvInitially(p: Policy, runnable: seq<Job>, inflight: map<Uuid, int>)
    ensures Inv(p, runnable, inflight, Start(runnable, inflight))
  {
    StartSpec(runnable, inflight);
    forall c ensures Accounted(p, runnable, inflight, Start(runnable, inflight), c) {
      StartAccounts(p, runnable, inflight, c);
    }
  }

  lemma StartAccounts(p: Policy, runnable: seq<Job>, inflight: map<Uuid, int>, c: Uuid)
    ensures Accounted(p, runnable, inflight, Start(runnable, inflight), c)
  {
    if c !in ClientsOf(runnable) {
      StrangerHasNoBucket(runnable, c);
    }
    assert [] + Bucket(runnable, c) == Bucket(runnable, c);
  }

  lemma StrangerHasNoBucket(runnable: seq<Job>, c: Uuid)
    requires c !in ClientsOf(runnable)
    ensures Bucket(runnable, c) == []
  {
    BucketSpec(runnable, c);
    NoMembersMeansEmpty(Bucket(runnable, c));
  }

  // The front of a client's queue is that client's next job.
  lemma HeadOfQueue(p: Policy, runnable: seq<Job>, inflight: map<Uuid, int>, s: State, c: Uuid)
    requires Accounted(p, runnable, inflight, s, c) && s.Queue(c) != []
    ensures ClientOf(s.Queue(c)[0]) == c
  {
    BucketSpec(runnable, c);
    assert s.Queue(c)[0] == Bucket(runnable, c)[|OfClient(s.selected, c)|];
  }

  lemma AccountedAfterPop(p: Policy, runnable: seq<Job>, inflight: map<Uuid, int>, s: State, d: Uuid)
    requires Live(p, s) && s.Inflight(Current(s)) < p.perClientConcurrency && s.Queue(Current(s)) != []
    requires ClientOf(s.Queue(Current(s))[0]) == Current(s)
    requires Accounted(p, runnable, inflight, s, d)
    ensures Accounted(p, runnable, inflight, Step(p, s), d)
  {
    hide OfClient, Bucket, Current, ClientOf;
    var c, t := Current(s), Step(p, s);
    var j := s.Queue(c)[0];
    OfClientSnoc(s.selected, j, d);
    if d == c {
      MoveHead(OfClient(s.selected, c), s.Queue(c));
    }
  }

  lemma MoveHead(taken: seq<Job>, queue: seq<Job>)
    requires queue != []
    ensures (taken + [queue[0]]) + queue[1..] == taken + queue
  {
  }

  lemma AccountedAfterSkip(p: Policy, runnable: seq<Job>, inflight: map<Uuid, int>, s: State, d: Uuid)
    requires Live(p, s) && (s.Inflight(Current(s)) >= p.perClientConcurrency || s.Queue(Current(s)) == [])
    requires Accounted(p, runnable, inflight, s, d)
    ensures Accounted(p, runnable, inflight, Step(p, s), d)
  {
    WithoutSpec(s.clients, Current(s));
  }

  lemma InvAfterStep(p: Policy, runnable: seq<Job>, inflight: map<Uuid, int>, s: State)
    requires Inv(p, runnable, inflight, s) && Live(p, s)
    ensures Inv(p, runnable, inflight, Step(p, s))
  {
    var c := Current(s);
    WithoutSpec(s.clients, c);
    assert Accounted(p, runnable, inflight, s, c);
    forall d ensures Accounted(p, runnable, inflight, Step(p, s), d) {
      assert Accounted(p, runnable, inflight, s, d);
      if s.Inflight(c) >= p.perClientConcurrency || s.Queue(c) == [] {
        AccountedAfterSkip(p, runnable, inflight, s, d);
      } else {
        HeadOfQueue(p, runnable, inflight, s, c);
        AccountedAfterPop(p, runnable, inflight, s, d);
      }
    }
  }

  lemma {:induction false} InvAlong(p: Policy, runnable: seq<Job>, inflight: map<Uuid, int>, s: State, n: nat)
    requires Inv(p, runnable, inflight, s)
    ensures Inv(p, runnable, inflight, Run(p, s, n))
    decreases n
  {
    if n > 0 && Live(p, s) {
      InvAfterStep(p, runnable, inflight, s);
      InvAlong(p, runnable, inflight, Step(p, s), n - 1);
    }
  }

  lemma InvAlongRun(p: Policy, runnable: seq<Job>, inflight: map<Uuid, int>, n: nat)
    ensures Inv(p, runnable, inflight, Run(p, Start(runnable, inflight), n))
  {
    InvInitially(p, runnable, inflight);
    InvAlong(p, runnable, inflight, Start(runnable, inflight), n);
  }

  // ---------------------------------------------------------------- what a call delivers

  // The promises of one call: arguments, returned list, dictionary afterwards.
  ghost predicate Delivers(
    p: Policy, runnable: seq<Job>, before: map<Uuid, int>, selected: seq<Job>, after: map<Uuid, int>)
  {
    // Each client gets a prefix of its sorted bucket.
    && (forall c :: OfClient(selected, c) <= Bucket(runnable, c))
    // The dictionary grows by what was selected, and selecting never passes the cap.
    && (forall c :: Count(after, c) == Count(before, c) + |OfClient(selected, c)|)
    && (forall c :: OfClient(selected, c) != [] ==> Count(after, c) <= p.perClientConcurrency)
    // Nothing is selected that was not runnable, nor twice.
    && multiset(selected) <= multiset(runnable)
    // The tick is filled, or nothing runnable is left.
    && |selected| <= Max0(p.maxEnqueuePerTick)
    && (|selected| == Max0(p.maxEnqueuePerTick) || multiset(selected) == multiset(runnable))
  }

  lemma SelectedIsRunnable(p: Policy, runnable: seq<Job>, inflight: map<Uuid, int>, s: State, j: Job)
    requires Inv(p, runnable, inflight, s)
    ensures multiset(runnable)[j] == multiset(s.selected)[j] + multiset(s.Queue(ClientOf(j)))[j]
  {
    var c := ClientOf(j);
    BucketSpec(runnable, c);
    OfClientCounts(runnable, j);
    OfClientCounts(s.selected, j);
    assert Accounted(p, runnable, inflight, s, c);
    assert multiset(OfClient(s.selected, c) + s.Queue(c)) == multiset(OfClient(s.selected, c)) + multiset(s.Queue(c));
  }

  /** Conservation at every moment of every run, stopped or not: a job is either selected or
      still in its client's queue. */
  lemma NoJobIsLost(p: Policy, runnable: seq<Job>, inflight: map<Uuid, int>, n: nat, j: Job)
    ensures var s := Run(p, Start(runnable, inflight), n);
      multiset(runnable)[j] == multiset(s.selected)[j] + multiset(s.Queue(ClientOf(j)))[j]
  {
    InvAlongRun(p, runnable, inflight, n);
    SelectedIsRunnable(p, runnable, inflight, Run(p, Start(runnable, inflight), n), j);
  }

  lemma StoppedDelivers(p: Policy, runnable: seq<Job>, inflight: map<Uuid, int>, s: State)
    requires Inv(p, runnable, inflight, s) && !Live(p, s)
    ensures Delivers(p, runnable, inflight, s.selected, s.inflight)
  {
    forall c
      ensures OfClient(s.selected, c) <= Bucket(runnable, c)
      ensures Count(s.inflight, c) == Count(inflight, c) + |OfClient(s.selected, c)|
      ensures OfClient(s.selected, c) != [] ==> Count(s.inflight, c) <= p.perClientConcurrency
    {
      assert Accounted(p, runnable, inflight, s, c);
    }
    forall j ensures multiset(s.selected)[j] <= multiset(runnable)[j] {
      SelectedIsRunnable(p, runnable, inflight, s, j);
    }
    if |s.selected| != Max0(p.maxEnqueuePerTick) {
      assert s.clients == [];
      forall j ensures multiset(s.selected)[j] == multiset(runnable)[j] {
        SelectedIsRunnable(p, runnable, inflight, s, j);
        assert Accounted(p, runnable, inflight, s, ClientOf(j));
      }
      assert multiset(s.selected) == multiset(runnable);
    }
  }

  /** Whenever the loop stops, it has delivered. */
  lemma EveryReturnDelivers(p: Policy, runnable: seq<Job>, inflight: map<Uuid, int>, n: nat)
    requires !Live(p, Run(p, Start(runnable, inflight), n))
    ensures var s := Run(p, Start(runnable, inflight), n);
      Delivers(p, runnable, inflight, s.selected, s.inflight)
  {
    InvAlongRun(p, runnable, inflight, n);
    StoppedDelivers(p, runnable, inflight, Run(p, Start(runnable, inflight), n));
  }

  // ---------------------------------------------------------------- round-robin fairness

  // How often position i is visited in the first k passes over n clients.
  function Visits(k: nat, n: nat, i: nat): nat
    requires n > 0
  {
    if k == 0 then 0 else Visits(k - 1, n, i) + (if (k - 1) % n == i then 1 else 0)
  }

  lemma {:induction false} VisitsAreEven(k: nat, n: nat, i: nat)
    requires i < n
    ensures Visits(k, n, i) == k / n + (if i < k % n then 1 else 0)
  {
    if k == 0 {
      DivModUnique(0, 0, 0, n);
    } else {
      VisitsAreEven(k - 1, n, i);
      NextDivMod(k - 1, n);
    }
  }

  lemma OneMoreVisit(cap: int, before: int, visits: nat, taken: nat, visited: bool)
    requires taken == Min(visits, Max0(cap - before))
    ensures taken + (if visited && before + taken < cap then 1 else 0)
      == Min(visits + (if visited then 1 else 0), Max0(cap - before))
  {
  }

  // Position i of n clients has been served min(visits, spare slots) times.
  predicate Served(p: Policy, inflight: map<Uuid, int>, s: State, i: nat)
    requires i < |s.clients|
  {
    |OfClient(s.selected, s.clients[i])|
      == Min(Visits(s.idx, |s.clients|, i), Max0(p.perClientConcurrency - Count(inflight, s.clients[i])))
  }

  lemma ServedAfterPass(p: Policy, runnable: seq<Job>, inflight: map<Uuid, int>, r: State, i: nat)
    requires Inv(p, runnable, inflight, r) && Live(p, r) && i < |r.clients| && Served(p, inflight, r, i)
    requires Step(p, r).clients == r.clients
    ensures Served(p, inflight, Step(p, r), i)
  {
    assert Accounted(p, runnable, inflight, r, r.clients[i]);
    PassServes(p, runnable, inflight, r, i);
    ServedNext(p, inflight, r, Step(p, r), i);
  }

  // The same in terms of what a pass does to one client.
  lemma ServedNext(p: Policy, inflight: map<Uuid, int>, r: State, t: State, i: nat)
    requires i < |r.clients| && Served(p, inflight, r, i) && t.clients == r.clients && t.idx == r.idx + 1
    requires var c := r.clients[i];
      && r.Inflight(c) == Count(inflight, c) + |OfClient(r.selected, c)|
      && |OfClient(t.selected, c)| == |OfClient(r.selected, c)|
        + (if r.idx % |r.clients| == i && r.Inflight(c) < p.perClientConcurrency then 1 else 0)
    ensures Served(p, inflight, t, i)
  {
    var c, n := r.clients[i], |r.clients|;
    NextVisits(r.idx, n, i);
    OneMoreVisit(
      p.perClientConcurrency, Count(inflight, c), Visits(r.idx, n, i), |OfClient(r.selected, c)|, r.idx % n == i);
  }

  lemma NextVisits(k: nat, n: nat, i: nat)
    requires n > 0
    ensures Visits(k + 1, n, i) == Visits(k, n, i) + (if k % n == i then 1 else 0)
  {
  }

  lemma {:induction false} ServedAlongRun(
    p: Policy, runnable: seq<Job>, inflight: map<Uuid, int>, s0: State, k: nat, i: nat)
    requires Inv(p, runnable, inflight, s0) && s0.idx == 0 && s0.selected == [] && i < |s0.clients|
    requires Run(p, s0, k).clients == s0.clients && Run(p, s0, k).idx == k
    ensures Served(p, inflight, Run(p, s0, k), i)
    decreases k
  {
    if k > 0 {
      LastPassWasLive(p, s0, k);
      ServedAlongRun(p, runnable, inflight, s0, k - 1, i);
      InvAlong(p, runnable, inflight, s0, k - 1);
      ServedAfterPass(p, runnable, inflight, Run(p, s0, k - 1), i);
    }
  }

  lemma LastPassWasLive(p: Policy, s0: State, k: nat)
    requires k > 0 && s0.idx == 0
    requires Run(p, s0, k).clients == s0.clients && Run(p, s0, k).idx == k
    ensures var r := Run(p, s0, k - 1);
      Live(p, r) && r.idx == k - 1 && r.clients == s0.clients && Run(p, s0, k) == Step(p, r)
  {
    RunOneMore(p, s0, k - 1);
    IdxCountsPasses(p, s0, k - 1);
    ClientsOnlyShrink(p, s0, k - 1);
    NoRemovalBefore(p, Run(p, s0, k - 1), s0.clients);
  }

  /** As long as no bucket has been removed, each of n clients has had floor(k/n) or ceil(k/n)
      visits after k passes, and exactly min(visits, spare slots) of its jobs are selected. */
  lemma RoundRobinShares(p: Policy, runnable: seq<Job>, inflight: map<Uuid, int>, k: nat, i: nat)
    requires i < |Start(runnable, inflight).clients|
    requires Run(p, Start(runnable, inflight), k).clients == Start(runnable, inflight).clients
    requires Run(p, Start(runnable, inflight), k).idx == k
    ensures var s0 := Start(runnable, inflight);
      var visits := k / |s0.clients| + (if i < k % |s0.clients| then 1 else 0);
      |OfClient(Run(p, s0, k).selected, s0.clients[i])|
      == Min(visits, Max0(p.perClientConcurrency - Count(inflight, s0.clients[i])))
  {
    InvInitially(p, runnable, inflight);
    ServedAlongRun(p, runnable, inflight, Start(runnable, inflight), k, i);
    VisitsAreEven(k, |Start(runnable, inflight).clients|, i);
  }

  /** In those runs two clients that still have spare slots differ by at most one job. */
  lemma SharesDifferByOne(p: Policy, runnable: seq<Job>, inflight: map<Uuid, int>, k: nat, i: nat, j: nat)
    requires i < |Start(runnable, inflight).clients| && j < |Start(runnable, inflight).clients|
    requires Run(p, Start(runnable, inflight), k).clients == Start(runnable, inflight).clients
    requires Run(p, Start(runnable, inflight), k).idx == k
    requires var s := Run(p, Start(runnable, inflight), k);
      s.Inflight(s.clients[i]) < p.perClientConcurrency && s.Inflight(s.clients[j]) < p.perClientConcurrency
    ensures var s := Run(p, Start(runnable, inflight), k);
      |OfClient(s.selected, s.clients[i])| <= |OfClient(s.selected, s.clients[j])| + 1
  {
    var s := Run(p, Start(runnable, inflight), k);
    InvAlongRun(p, runnable, inflight, k);
    assert Accounted(p, runnable, inflight, s, s.clients[i]) && Accounted(p, runnable, inflight, s, s.clients[j]);
    RoundRobinShares(p, runnable, inflight, k, i);
    RoundRobinShares(p, runnable, inflight, k, j);
  }

  // One pass that removes nobody selects one job for the visited client if it has a spare slot.
  lemma PassServes(p: Policy, runnable: seq<Job>, inflight: map<Uuid, int>, r: State, i: nat)
    requires Inv(p, runnable, inflight, r) && Live(p, r) && i < |r.clients|
    requires Step(p, r).clients == r.clients
    ensures |OfClient(Step(p, r).selected, r.clients[i])| == |OfClient(r.selected, r.clients[i])|
      + (if r.idx % |r.clients| == i && r.Inflight(r.clients[i]) < p.perClientConcurrency then 1 else 0)
  {
    var c := Current(r);
    WithoutSpec(r.clients, c);
    assert c in r.clients && Accounted(p, runnable, inflight, r, c);
    if r.Inflight(c) < p.perClientConcurrency {
      HeadOfQueue(p, runnable, inflight, r, c);
      OfClientSnoc(r.selected, r.Queue(c)[0], r.clients[i]);
    }
  }

  lemma {:induction false} IdxWithin(p: Policy, s: State, k: nat)
    ensures Run(p, s, k).idx <= s.idx + k
    decreases k
  {
    if k > 0 && Live(p, s) {
      IdxWithin(p, Step(p, s), k - 1);
    }
  }

  lemma IdxCountsPasses(p: Policy, s: State, k: nat)
    requires Run(p, s, k + 1).idx == s.idx + k + 1
    ensures Live(p, Run(p, s, k)) && Run(p, s, k).idx == s.idx + k
  {
    RunOneMore(p, s, k);
    IdxWithin(p, s, k);
  }

  lemma {:induction false} ClientsOnlyShrink(p: Policy, s: State, k: nat)
    ensures |Run(p, s, k).clients| <= |s.clients|
    ensures |Run(p, s, k).clients| == |s.clients| ==> Run(p, s, k).clients == s.clients
    decreases k
  {
    if k > 0 && Live(p, s) {
      assert Current(s) in s.clients;
      WithoutSpec(s.clients, Current(s));
      ClientsOnlyShrink(p, Step(p, s), k - 1);
    }
  }

  lemma NoRemovalBefore(p: Policy, r: State, ids: seq<Uuid>)
    requires Live(p, r) && Step(p, r).clients == ids
    requires |r.clients| <= |ids| && (|r.clients| == |ids| ==> r.clients == ids)
    ensures r.clients == ids
  {
    assert Current(r) in r.clients;
    WithoutSpec(r.clients, Current(r));
  }
}
