// orchestration/fsm.py: the transition relation of jobs, and what it forces on whole
// histories that start in "pending".

module JobHistory {
  datatype State =
    | Pending | Queued | Leased | Running | Retrying | Paused | Failed | Completed | DeadLettered | Cancelled
    | Unknown(name: string)

  const ALLOWED: set<(State, State)> := {
    (Pending, Queued), (Pending, Cancelled),
    (Queued, Leased), (Queued, Paused), (Queued, Cancelled),
    (Leased, Running), (Leased, Retrying), (Leased, DeadLettered),
    (Running, Completed), (Running, Retrying), (Running, Failed), (Running, DeadLettered),
    (Retrying, Queued), (Retrying, DeadLettered),
    (Paused, Queued), (Paused, Cancelled),
    (Failed, Retrying), (Failed, DeadLettered)
  }

  datatype Verdict = Accepted | NoOpRejected | Illegal

  // `assert_allowed`, with its two ways to raise.
  function AssertAllowed(from: State, to: State): Verdict {
    if from == to then NoOpRejected else if (from, to) !in ALLOWED then Illegal else Accepted
  }

  /** The verdict on a move, by the state it would leave; a state that no rule names can be
      neither left nor entered. */
  lemma VerdictExactly(from: State, to: State)
    ensures AssertAllowed(from, to) == NoOpRejected <==> from == to
    ensures AssertAllowed(from, to) == Accepted <==>
      match from
      case Pending => to in {Queued, Cancelled}
      case Queued => to in {Leased, Paused, Cancelled}
      case Leased => to in {Running, Retrying, DeadLettered}
      case Running => to in {Completed, Retrying, Failed, DeadLettered}
      case Retrying => to in {Queued, DeadLettered}
      case Paused => to in {Queued, Cancelled}
      case Failed => to in {Retrying, DeadLettered}
      case _ => false
  {
  }

  // The states of one job, oldest first.
  ghost predicate History(h: seq<State>) {
    && h != [] && h[0] == Pending
    && forall i :: 0 < i < |h| ==> AssertAllowed(h[i - 1], h[i]) == Accepted
  }

  lemma HistoryPrefix(h: seq<State>)
    requires History(h) && |h| > 1
    ensures History(h[..|h| - 1]) && AssertAllowed(h[|h| - 2], h[|h| - 1]) == Accepted
  {
  }

  /** No history goes on after completed, dead_lettered or cancelled, and these are the only
      reachable states where none can. */
  lemma TerminalExactly(h: seq<State>)
    requires History(h)
    ensures h[|h| - 1] in {Completed, DeadLettered, Cancelled} <==> forall next :: !History(h + [next])
    ensures forall i :: 0 <= i < |h| - 1 ==> h[i] !in {Completed, DeadLettered, Cancelled}
  {
    var last := h[|h| - 1];
    LastIsKnown(h);
    if last !in {Completed, DeadLettered, Cancelled} {
      var next := if last == Pending || last == Retrying || last == Paused then Queued
        else if last == Queued then Leased else Retrying;
      assert AssertAllowed(last, next) == Accepted;
      assert History(h + [next]);
    } else {
      forall next ensures !History(h + [next]) {
        var g := h + [next];
        assert g[|h| - 1] == last && g[|h|] == next;
      }
    }
    forall i | 0 <= i < |h| - 1 ensures h[i] !in {Completed, DeadLettered, Cancelled} {
      assert AssertAllowed(h[i], h[i + 1]) == Accepted;
    }
  }

  lemma LastIsKnown(h: seq<State>)
    requires History(h)
    ensures !h[|h| - 1].Unknown?
  {
    if |h| > 1 {
      HistoryPrefix(h);
    }
  }

  /** A job completes only straight out of queued, leased, running. */
  lemma CompletedEnds(h: seq<State>)
    requires History(h) && h[|h| - 1] == Completed
    ensures |h| > 4 && h[|h| - 4..] == [Queued, Leased, Running, Completed]
  {
    var n := |h|;
    OnlyFrom(h, n - 1);
    OnlyFrom(h, n - 2);
    OnlyFrom(h, n - 3);
    OnlyFrom(h, n - 4);
  }

  // The states with one predecessor.
  lemma OnlyFrom(h: seq<State>, i: nat)
    requires History(h) && i < |h|
    ensures h[i] == Completed ==> i > 0 && h[i - 1] == Running
    ensures h[i] == Running ==> i > 0 && h[i - 1] == Leased
    ensures h[i] == Leased ==> i > 0 && h[i - 1] == Queued
    ensures h[i] == Queued ==> i > 0
  {
    if i > 0 {
      assert AssertAllowed(h[i - 1], h[i]) == Accepted;
    }
  }

  // ---------------------------------------------------------------- alternation

  // The visits to leased and retrying, in order.
  function Marks(h: seq<State>): seq<State> {
    if h == [] then []
    else Marks(h[..|h| - 1]) + if h[|h| - 1] in {Leased, Retrying} then [h[|h| - 1]] else []
  }

  /** Leases and retries strictly alternate, beginning with a lease. */
  lemma {:induction false} LeasesAndRetriesAlternate(h: seq<State>)
    requires History(h)
    ensures forall i :: 0 <= i < |Marks(h)| ==> Marks(h)[i] == if i % 2 == 0 then Leased else Retrying
    ensures h[|h| - 1] in {Leased, Running, Failed, Completed} ==> |Marks(h)| % 2 == 1
    ensures h[|h| - 1] in {Pending, Queued, Paused, Retrying, Cancelled} ==> |Marks(h)| % 2 == 0
  {
    if |h| > 1 {
      HistoryPrefix(h);
      LeasesAndRetriesAlternate(h[..|h| - 1]);
    } else {
      assert h[..0] == [];
    }
  }

  // ---------------------------------------------------------------- length

  // Returns to the queue, from a retry or a pause.
  function Requeues(h: seq<State>): nat {
    if |h| < 2 then 0
    else Requeues(h[..|h| - 1]) + if h[|h| - 1] == Queued && h[|h| - 2] in {Retrying, Paused} then 1 else 0
  }

  // The longest a history without requeues can be when it reaches a state.
  function Reach(s: State): nat {
    match s
    case Pending => 1
    case Queued => 2
    case Leased => 3
    case Paused => 3
    case Running => 4
    case Cancelled => 4
    case Failed => 5
    case Completed => 5
    case Retrying => 6
    case _ => 7
  }

  lemma ReachGrows(from: State, to: State)
    requires AssertAllowed(from, to) == Accepted
    ensures Reach(from) + 1 <= Reach(to) + if to == Queued && from in {Retrying, Paused} then 5 else 0
  {
  }

  lemma {:induction false} LengthWithin(h: seq<State>)
    requires History(h)
    ensures |h| <= 5 * Requeues(h) + Reach(h[|h| - 1])
  {
    if |h| > 1 {
      HistoryPrefix(h);
      LengthWithin(h[..|h| - 1]);
      ReachGrows(h[|h| - 2], h[|h| - 1]);
    }
  }

  // k full rounds of failing and retrying.
  function Rounds(k: nat): seq<State> {
    if k == 0 then [Pending, Queued, Leased, Running, Failed, Retrying]
    else Rounds(k - 1) + [Queued, Leased, Running, Failed, Retrying]
  }

  lemma RequeuesSnoc(h: seq<State>, s: State)
    requires h != []
    ensures Requeues(h + [s]) == Requeues(h) + if s == Queued && h[|h| - 1] in {Retrying, Paused} then 1 else 0
  {
    assert (h + [s])[..|h|] == h;
  }

  lemma HistorySnoc(h: seq<State>, s: State)
    requires History(h) && AssertAllowed(h[|h| - 1], s) == Accepted
    ensures History(h + [s])
  {
  }

  lemma OneRound(h: seq<State>)
    requires History(h) && h[|h| - 1] == Retrying
    ensures var g := h + [Queued, Leased, Running, Failed, Retrying];
      History(g) && Requeues(g) == Requeues(h) + 1
  {
    var h1 := h + [Queued];
    var h2 := h1 + [Leased];
    var h3 := h2 + [Running];
    var h4 := h3 + [Failed];
    HistorySnoc(h, Queued);
    HistorySnoc(h1, Leased);
    HistorySnoc(h2, Running);
    HistorySnoc(h3, Failed);
    HistorySnoc(h4, Retrying);
    RequeuesSnoc(h, Queued);
    RequeuesSnoc(h1, Leased);
    RequeuesSnoc(h2, Running);
    RequeuesSnoc(h3, Failed);
    RequeuesSnoc(h4, Retrying);
    assert h + [Queued, Leased, Running, Failed, Retrying] == h4 + [Retrying];
  }

  lemma FirstRound()
    ensures History(Rounds(0)) && Requeues(Rounds(0)) == 0
  {
    var h1 := [Pending, Queued];
    var h2 := h1 + [Leased];
    var h3 := h2 + [Running];
    var h4 := h3 + [Failed];
    RequeuesSnoc([Pending], Queued);
    assert [Pending] + [Queued] == h1;
    RequeuesSnoc(h1, Leased);
    RequeuesSnoc(h2, Running);
    RequeuesSnoc(h3, Failed);
    RequeuesSnoc(h4, Retrying);
    assert Rounds(0) == h4 + [Retrying];
  }

  lemma {:induction false} RoundsAreHistories(k: nat)
    ensures History(Rounds(k)) && |Rounds(k)| == 5 * k + 6
    ensures Rounds(k)[|Rounds(k)| - 1] == Retrying && Requeues(Rounds(k)) == k
  {
    if k == 0 {
      FirstRound();
    } else {
      RoundsAreHistories(k - 1);
      OneRound(Rounds(k - 1));
    }
  }

  /** A history with k requeues visits at most 5k + 7 states, and for every k some history
      visits that many. */
  lemma LengthBoundIsTight(k: nat)
    ensures forall h :: History(h) && Requeues(h) == k ==> |h| <= 5 * k + 7
    ensures exists h :: History(h) && Requeues(h) == k && |h| == 5 * k + 7
  {
    forall h | History(h) && Requeues(h) == k ensures |h| <= 5 * k + 7 {
      LengthWithin(h);
    }
    RoundsAreHistories(k);
    var h := Rounds(k) + [DeadLettered];
    HistorySnoc(Rounds(k), DeadLettered);
    RequeuesSnoc(Rounds(k), DeadLettered);
    assert History(h) && Requeues(h) == k;
  }
}
