// watchdog/anomaly.py: alerts limited by a per-type cooldown and a global cap that
// is counted from one state row per type instead of from the alert history.

module AnomalyLimiter {
  import opened Collections

  // Times are microseconds.
  const SECOND := 1_000_000
  const WINDOW := 60 * SECOND

  datatype Policy = Policy(cooldownSeconds: int, maxAlertsPerMinute: int)
  datatype Anomaly = Anomaly(anomalyType: string, severity: string, score: int, message: string, details: string)
  datatype Row = Row(anomaly: Anomaly, createdAt: int)
  datatype TypeState = TypeState(lastSeenAt: int, lastAlertedAt: Option<int>, consecutiveCount: int)
  datatype Alert = Alert(anomalyType: string, at: int)

  // The anomaly rows, the state rows by type, and the published events.
  datatype Db = Db(rows: seq<Row>, states: map<string, TypeState>, alerts: seq<Alert>)

  function LastAlertedAt(states: map<string, TypeState>, t: string): Option<int> {
    if t in states then states[t].lastAlertedAt else None
  }

  predicate CooledDown(p: Policy, last: Option<int>, now: int) {
    last == None || now - last.value >= p.cooldownSeconds * SECOND
  }

  // The types whose last alert is at most a window old: what the cap is counted from.
  function RecentTypes(states: map<string, TypeState>, cutoff: int): set<string> {
    set t | t in states && states[t].lastAlertedAt.Some? && states[t].lastAlertedAt.value >= cutoff
  }

  predicate Alerts(p: Policy, db: Db, now: int, t: string) {
    CooledDown(p, LastAlertedAt(db.states, t), now) && |RecentTypes(db.states, now - WINDOW)| < p.maxAlertsPerMinute
  }

  function Step(p: Policy, db: Db, now: int, a: Anomaly): Db {
    var t := a.anomalyType;
    var alert := Alerts(p, db, now, t);
    var last := if alert then Some(now) else LastAlertedAt(db.states, t);
    Db(
      db.rows + [Row(a, now)],
      db.states[t := TypeState(now, last, if t in db.states then db.states[t].consecutiveCount + 1 else 1)],
      if alert then db.alerts + [Alert(t, now)] else db.alerts)
  }

  datatype Call = Call(now: int, anomaly: Anomaly)

  function Exec(p: Policy, calls: seq<Call>): Db {
    if calls == [] then Db([], map[], [])
    else Step(p, Exec(p, calls[..|calls| - 1]), calls[|calls| - 1].now, calls[|calls| - 1].anomaly)
  }

  // The clock never goes back.
  ghost predicate Monotone(calls: seq<Call>) {
    forall i, j :: 0 <= i < j < |calls| ==> calls[i].now <= calls[j].now
  }

  class AnomalyService {
    const policy: Policy
    var rows: seq<Row>
    var states: map<string, TypeState>
    var alerts: seq<Alert>

    ghost function Contents(): Db
      reads this
    {
      Db(rows, states, alerts)
    }

    constructor (policy: Policy)
      ensures this.policy == policy && Contents() == Exec(policy, [])
    {
      this.policy := policy;
      rows, states, alerts := [], map[], [];
    }

    /** One pass over the state rows, in whatever order they come. */
    method CountRecentAlerts(now: int) returns (count: nat)
      ensures count == |RecentTypes(states, now - WINDOW)|
    {
      var cutoff := now - WINDOW;
      var todo := states.Keys;
      count := 0;
      ghost var counted: set<string> := {};
      while todo != {}
        invariant todo <= states.Keys && counted == RecentTypes(states, cutoff) - todo
        invariant count == |counted|
        decreases |todo|
      {
        var t :| t in todo;
        todo := todo - {t};
        if states[t].lastAlertedAt.Some? && states[t].lastAlertedAt.value >= cutoff {
          count := count + 1;
          counted := counted + {t};
        }
      }
      assert counted == RecentTypes(states, cutoff);
    }

    method Record(now: int, a: Anomaly) returns (shouldAlert: bool)
      modifies this
      ensures Contents() == Step(policy, old(Contents()), now, a)
      ensures shouldAlert == Alerts(policy, old(Contents()), now, a.anomalyType)
    {
      var t := a.anomalyType;
      shouldAlert := t !in states || CooledDown(policy, states[t].lastAlertedAt, now);
      if shouldAlert {
        var recent := CountRecentAlerts(now);
        if recent >= policy.maxAlertsPerMinute {
          shouldAlert := false;
        }
      }
      rows := rows + [Row(a, now)];
      if t !in states {
        states := states[t := TypeState(now, if shouldAlert then Some(now) else None, 1)];
      } else {
        var st := states[t].(lastSeenAt := now, consecutiveCount := states[t].consecutiveCount + 1);
        states := states[t := if shouldAlert then st.(lastAlertedAt := Some(now)) else st];
      }
      if shouldAlert {
        alerts := alerts + [Alert(t, now)];
      }
    }
  }

  // ---------------------------------------------------------------- the history

  function Max0(x: int): nat { if x < 0 then 0 else x }

  // The time of the latest alert of type t in the history.
  function LastAlert(alerts: seq<Alert>, t: string): Option<int> {
    if alerts == [] then None
    else
      var n := |alerts| - 1;
      if alerts[n].anomalyType == t then Some(alerts[n].at) else LastAlert(alerts[..n], t)
  }

  // How many alerts of the history lie in the closed interval [lo, hi].
  function WindowCount(alerts: seq<Alert>, lo: int, hi: int): nat {
    if alerts == [] then 0
    else
      var n := |alerts| - 1;
      WindowCount(alerts[..n], lo, hi) + if lo <= alerts[n].at <= hi then 1 else 0
  }

  function AlertedSince(alerts: seq<Alert>, lo: int): set<string> {
    if alerts == [] then {}
    else
      var n := |alerts| - 1;
      AlertedSince(alerts[..n], lo) + if alerts[n].at >= lo then {alerts[n].anomalyType} else {}
  }

  ghost predicate Spaced(p: Policy, alerts: seq<Alert>) {
    forall i, j :: 0 <= i < j < |alerts| && alerts[i].anomalyType == alerts[j].anomalyType
      ==> alerts[j].at - alerts[i].at >= p.cooldownSeconds * SECOND
  }

  ghost predicate Ordered(alerts: seq<Alert>, now: int) {
    && (forall i, j :: 0 <= i < j < |alerts| ==> alerts[i].at <= alerts[j].at)
    && (forall i :: 0 <= i < |alerts| ==> alerts[i].at <= now)
  }

  // The state rows are an index of the history.
  ghost predicate Indexes(db: Db) {
    forall t :: LastAlertedAt(db.states, t) == LastAlert(db.alerts, t)
  }

  lemma {:induction false} LastAlertIsLatest(alerts: seq<Alert>, t: string, now: int)
    requires Ordered(alerts, now)
    ensures LastAlert(alerts, t) == None <==> forall i :: 0 <= i < |alerts| ==> alerts[i].anomalyType != t
    ensures LastAlert(alerts, t).Some? ==>
      && Alert(t, LastAlert(alerts, t).value) in alerts
      && forall i :: 0 <= i < |alerts| && alerts[i].anomalyType == t ==> alerts[i].at <= LastAlert(alerts, t).value
  {
    if alerts != [] {
      var n := |alerts| - 1;
      assert alerts == alerts[..n] + [alerts[n]];
      LastAlertIsLatest(alerts[..n], t, now);
    }
  }

  lemma StepKeepsIndex(p: Policy, db: Db, now: int, a: Anomaly)
    requires Indexes(db)
    ensures Indexes(Step(p, db, now, a))
  {
    var db' := Step(p, db, now, a);
    forall t ensures LastAlertedAt(db'.states, t) == LastAlert(db'.alerts, t) {
      assert LastAlertedAt(db.states, t) == LastAlert(db.alerts, t);
      assert (db.alerts + [Alert(a.anomalyType, now)])[..|db.alerts|] == db.alerts;
    }
  }

  lemma StepKeepsSpacing(p: Policy, db: Db, now: int, a: Anomaly)
    requires Indexes(db) && Spaced(p, db.alerts) && Ordered(db.alerts, now)
    ensures Spaced(p, Step(p, db, now, a).alerts) && Ordered(Step(p, db, now, a).alerts, now)
  {
    LastAlertIsLatest(db.alerts, a.anomalyType, now);
    assert LastAlertedAt(db.states, a.anomalyType) == LastAlert(db.alerts, a.anomalyType);
  }

  ghost predicate Reached(p: Policy, db: Db, now: int) {
    Indexes(db) && Spaced(p, db.alerts) && Ordered(db.alerts, now)
  }

  lemma {:induction false} ReachedByRun(p: Policy, calls: seq<Call>, now: int)
    requires Monotone(calls) && (calls != [] ==> calls[|calls| - 1].now <= now)
    ensures Reached(p, Exec(p, calls), now)
  {
    if calls != [] {
      var n := |calls| - 1;
      ReachedByRun(p, calls[..n], calls[n].now);
      StepKeepsIndex(p, Exec(p, calls[..n]), calls[n].now, calls[n].anomaly);
      StepKeepsSpacing(p, Exec(p, calls[..n]), calls[n].now, calls[n].anomaly);
    }
  }

  /** Two alerts of one type are at least the cooldown apart, over every run. */
  lemma CooldownHolds(p: Policy, calls: seq<Call>)
    requires Monotone(calls)
    ensures Spaced(p, Exec(p, calls).alerts)
  {
    ReachedByRun(p, calls, if calls == [] then 0 else calls[|calls| - 1].now);
  }

  /** The cap limits events only: every call leaves its row, alerted or not. */
  lemma {:induction false} EveryCallIsRecorded(p: Policy, calls: seq<Call>, i: nat)
    requires i < |calls|
    ensures |Exec(p, calls).rows| == |calls| && Exec(p, calls).rows[i] == Row(calls[i].anomaly, calls[i].now)
  {
    var n := |calls| - 1;
    if n > 0 {
      EveryCallIsRecorded(p, calls[..n], if i < n then i else 0);
    }
  }

  // ---------------------------------------------------------------- the approximation

  lemma {:induction false} AlertedMeansLastIsRecent(alerts: seq<Alert>, t: string, lo: int, now: int)
    requires Ordered(alerts, now)
    ensures t in AlertedSince(alerts, lo) <==> LastAlert(alerts, t).Some? && LastAlert(alerts, t).value >= lo
  {
    if alerts != [] {
      var n := |alerts| - 1;
      LastAlertIsLatest(alerts[..n], t, alerts[n].at);
      AlertedMeansLastIsRecent(alerts[..n], t, lo, now);
    }
  }

  lemma RecentTypesAreAlerted(p: Policy, db: Db, now: int, lo: int)
    requires Reached(p, db, now)
    ensures RecentTypes(db.states, lo) == AlertedSince(db.alerts, lo)
  {
    forall t ensures t in RecentTypes(db.states, lo) <==> t in AlertedSince(db.alerts, lo) {
      AlertedMeansLastIsRecent(db.alerts, t, lo, now);
      assert LastAlertedAt(db.states, t) == LastAlert(db.alerts, t);
    }
  }

  lemma {:induction false} AlertedSinceMembers(alerts: seq<Alert>, lo: int, t: string)
    ensures t in AlertedSince(alerts, lo) <==>
      exists i :: 0 <= i < |alerts| && alerts[i].anomalyType == t && alerts[i].at >= lo
  {
    if alerts != [] {
      var n := |alerts| - 1;
      AlertedSinceMembers(alerts[..n], lo, t);
      assert forall i :: 0 <= i < n ==> alerts[..n][i] == alerts[i];
    }
  }

  // No two alerts since lo are of one type.
  ghost predicate DistinctSince(alerts: seq<Alert>, lo: int) {
    forall i, j :: 0 <= i < j < |alerts| && alerts[i].at >= lo && alerts[j].at >= lo
      ==> alerts[i].anomalyType != alerts[j].anomalyType
  }

  lemma {:induction false} NoTypesNoAlerts(alerts: seq<Alert>, lo: int, hi: int)
    ensures AlertedSince(alerts, lo) == {} ==> WindowCount(alerts, lo, hi) == 0
  {
    if alerts != [] {
      NoTypesNoAlerts(alerts[..|alerts| - 1], lo, hi);
    }
  }

  lemma {:induction false} TypesCountAlerts(alerts: seq<Alert>, lo: int, now: int)
    requires Ordered(alerts, now) && DistinctSince(alerts, lo)
    ensures |AlertedSince(alerts, lo)| == WindowCount(alerts, lo, now)
  {
    if alerts != [] {
      var n := |alerts| - 1;
      TypesCountAlerts(alerts[..n], lo, now);
      AlertedSinceMembers(alerts[..n], lo, alerts[n].anomalyType);
    }
  }

  /** With a cooldown of more than a minute the cheap count is the true one. */
  lemma ApproximationIsExact(p: Policy, calls: seq<Call>, now: int)
    requires Monotone(calls) && (calls != [] ==> calls[|calls| - 1].now <= now)
    requires p.cooldownSeconds > 60
    ensures var db := Exec(p, calls);
      |RecentTypes(db.states, now - WINDOW)| == WindowCount(db.alerts, now - WINDOW, now)
  {
    var db := Exec(p, calls);
    ReachedByRun(p, calls, now);
    RecentTypesAreAlerted(p, db, now, now - WINDOW);
    TypesCountAlerts(db.alerts, now - WINDOW, now);
  }

  // ---------------------------------------------------------------- the cap

  // Alerts in the closed minute that begins at lo.
  function MinuteCount(alerts: seq<Alert>, lo: int): nat {
    WindowCount(alerts, lo, lo + WINDOW)
  }

  ghost predicate Capped(p: Policy, alerts: seq<Alert>) {
    forall lo :: MinuteCount(alerts, lo) <= Max0(p.maxAlertsPerMinute)
  }

  lemma {:induction false} WiderWindow(alerts: seq<Alert>, lo: int, hi: int, lo': int, now: int)
    requires Ordered(alerts, now) && lo' <= lo
    ensures WindowCount(alerts, lo, hi) <= WindowCount(alerts, lo', now)
  {
    if alerts != [] {
      WiderWindow(alerts[..|alerts| - 1], lo, hi, lo', now);
    }
  }

  // The index says there is room only when the history has room.
  lemma RoomIsReal(p: Policy, calls: seq<Call>, now: int)
    requires Monotone(calls) && (calls != [] ==> calls[|calls| - 1].now <= now)
    requires p.cooldownSeconds > 60 || p.maxAlertsPerMinute <= 1
    requires |RecentTypes(Exec(p, calls).states, now - WINDOW)| < p.maxAlertsPerMinute
    ensures WindowCount(Exec(p, calls).alerts, now - WINDOW, now) < p.maxAlertsPerMinute
  {
    var db := Exec(p, calls);
    if p.cooldownSeconds > 60 {
      ApproximationIsExact(p, calls, now);
    } else {
      ReachedByRun(p, calls, now);
      RecentTypesAreAlerted(p, db, now, now - WINDOW);
      NoTypesNoAlerts(db.alerts, now - WINDOW, now);
    }
  }

  lemma CapAfterAlert(p: Policy, alerts: seq<Alert>, a: Alert)
    requires Ordered(alerts, a.at) && Capped(p, alerts)
    requires WindowCount(alerts, a.at - WINDOW, a.at) < p.maxAlertsPerMinute
    ensures Capped(p, alerts + [a])
  {
    assert (alerts + [a])[..|alerts|] == alerts;
    forall lo ensures MinuteCount(alerts + [a], lo) <= p.maxAlertsPerMinute {
      assert MinuteCount(alerts, lo) <= p.maxAlertsPerMinute;
      if lo <= a.at <= lo + WINDOW {
        WiderWindow(alerts, lo, lo + WINDOW, a.at - WINDOW, a.at);
      }
    }
  }

  lemma {:induction false} CapHolds(p: Policy, calls: seq<Call>)
    requires Monotone(calls)
    requires p.cooldownSeconds > 60 || p.maxAlertsPerMinute <= 1
    ensures Capped(p, Exec(p, calls).alerts)
  {
    if calls != [] {
      var n := |calls| - 1;
      var db, now := Exec(p, calls[..n]), calls[n].now;
      CapHolds(p, calls[..n]);
      if Alerts(p, db, now, calls[n].anomaly.anomalyType) {
        ReachedByRun(p, calls[..n], now);
        RoomIsReal(p, calls[..n], now);
        CapAfterAlert(p, db.alerts, Alert(calls[n].anomaly.anomalyType, now));
      }
    }
  }

  // A run that outwits the index when the cooldown is short: type 0 alerts twice inside
  // the window, yet counts once; n other types follow.
  function Name(n: nat): string { seq(n, _ => 'x') }

  function Sample(n: nat): Anomaly { Anomaly(Name(n), "INFO", 0, "", "{}") }

  function Burst(k: int, n: nat): seq<Call> {
    if n == 0 then [Call(0, Sample(0)), Call(k, Sample(0))] else Burst(k, n - 1) + [Call(k, Sample(n))]
  }

  lemma {:induction false} BurstIsMonotone(k: int, n: nat)
    requires k >= 0
    ensures Monotone(Burst(k, n)) && forall i :: 0 <= i < |Burst(k, n)| ==> Burst(k, n)[i].now <= k
  {
    if n > 0 {
      BurstIsMonotone(k, n - 1);
    }
  }

  ghost predicate BurstAlerts(db: Db, k: int, n: nat) {
    && |db.states.Keys| == n + 1
    && (forall t :: t in db.states ==> |t| <= n && db.states[t].lastAlertedAt == Some(k))
    && MinuteCount(db.alerts, 0) == n + 2
  }

  // The database after the burst.
  function BurstDb(p: Policy, k: int, n: nat): Db {
    if n == 0 then Step(p, FirstDb(), k, Sample(0)) else Step(p, BurstDb(p, k, n - 1), k, Sample(n))
  }

  function FirstDb(): Db {
    Db([Row(Sample(0), 0)], map[Name(0) := TypeState(0, Some(0), 1)], [Alert(Name(0), 0)])
  }

  lemma FirstAlert(p: Policy)
    requires p.maxAlertsPerMinute >= 2
    ensures Exec(p, [Call(0, Sample(0))]) == FirstDb()
  {
    assert [Call(0, Sample(0))][..0] == [];
    assert RecentTypes(Exec(p, []).states, 0 - WINDOW) == {};
  }

  lemma {:induction false} BurstRuns(p: Policy, k: int, n: nat)
    requires p.maxAlertsPerMinute >= 2
    ensures Exec(p, Burst(k, n)) == BurstDb(p, k, n)
  {
    if n == 0 {
      FirstAlert(p);
      assert Burst(k, 0)[..1] == [Call(0, Sample(0))];
    } else {
      BurstRuns(p, k, n - 1);
      assert Burst(k, n)[..|Burst(k, n)| - 1] == Burst(k, n - 1);
    }
  }

  lemma BurstBegins(p: Policy, k: int)
    requires p.cooldownSeconds <= 60 && p.maxAlertsPerMinute >= 2 && k == Max0(p.cooldownSeconds) * SECOND
    ensures BurstAlerts(BurstDb(p, k, 0), k, 0)
  {
    var a, db1 := Sample(0), FirstDb();
    FirstTypeCountsOnce(db1.states, k - WINDOW);
    assert Alerts(p, db1, k, Name(0));
    var db2 := Step(p, db1, k, a);
    assert db2.states.Keys == {Name(0)};
    assert db2.alerts[..1] == db1.alerts;
    assert WindowCount(db1.alerts, 0, WINDOW) == 1;
  }

  lemma FirstTypeCountsOnce(states: map<string, TypeState>, lo: int)
    requires states.Keys == {Name(0)}
    ensures |RecentTypes(states, lo)| <= 1
  {
    assert RecentTypes(states, lo) <= {Name(0)};
    SubsetSize(RecentTypes(states, lo), {Name(0)});
  }

  lemma SubsetSize<T>(a: set<T>, b: set<T>)
    requires a <= b
    ensures |a| <= |b|
  {
    assert b == a + (b - a);
  }

  lemma BurstStep(p: Policy, db: Db, k: int, n: nat)
    requires 0 <= k <= WINDOW && n + 1 < p.maxAlertsPerMinute && BurstAlerts(db, k, n)
    ensures BurstAlerts(Step(p, db, k, Sample(n + 1)), k, n + 1)
  {
    var t := Name(n + 1);
    assert |t| == n + 1 && t !in db.states;
    assert RecentTypes(db.states, k - WINDOW) == db.states.Keys;
    assert Alerts(p, db, k, t);
    var states' := db.states[t := TypeState(k, Some(k), 1)];
    var alerts' := db.alerts + [Alert(t, k)];
    assert Step(p, db, k, Sample(n + 1)) == Db(db.rows + [Row(Sample(n + 1), k)], states', alerts');
    assert alerts'[..|db.alerts|] == db.alerts;
    assert states'.Keys == db.states.Keys + {t};
  }

  lemma {:induction false} BurstGoesOn(p: Policy, k: int, n: nat)
    requires p.cooldownSeconds <= 60 && p.maxAlertsPerMinute >= 2 && k == Max0(p.cooldownSeconds) * SECOND
    requires n < p.maxAlertsPerMinute
    ensures BurstAlerts(BurstDb(p, k, n), k, n)
  {
    if n == 0 {
      BurstBegins(p, k);
    } else {
      BurstGoesOn(p, k, n - 1);
      BurstStep(p, BurstDb(p, k, n - 1), k, n - 1);
    }
  }

  /** The minute cap holds over every run if and only if the cooldown exceeds the minute
      or the cap is at most one. */
  lemma CapIsExact(p: Policy)
    ensures (forall calls | Monotone(calls) :: Capped(p, Exec(p, calls).alerts))
      <==> (p.cooldownSeconds > 60 || p.maxAlertsPerMinute <= 1)
  {
    if p.cooldownSeconds > 60 || p.maxAlertsPerMinute <= 1 {
      forall calls | Monotone(calls) ensures Capped(p, Exec(p, calls).alerts) {
        CapHolds(p, calls);
      }
    } else {
      var k, n := Max0(p.cooldownSeconds) * SECOND, p.maxAlertsPerMinute - 1;
      BurstIsMonotone(k, n);
      BurstGoesOn(p, k, n);
      BurstRuns(p, k, n);
      assert MinuteCount(Exec(p, Burst(k, n)).alerts, 0) == p.maxAlertsPerMinute + 1;
    }
  }

  // ---------------------------------------------------------------- alerts and states from the calls alone

  // Said of the history: every alert of the type is at least the cooldown old, and fewer types
  // than the cap have alerted within the last 60 s.
  ghost predicate MayAlert(p: Policy, alerts: seq<Alert>, t: string, now: int) {
    && (forall i :: 0 <= i < |alerts| && alerts[i].anomalyType == t ==>
          now - alerts[i].at >= p.cooldownSeconds * 1_000_000)
    && |set al | al in alerts && al.at >= now - 60_000_000 :: al.anomalyType| < p.maxAlertsPerMinute
  }

  lemma AlertedSinceIs(alerts: seq<Alert>, lo: int)
    ensures AlertedSince(alerts, lo) == set al | al in alerts && al.at >= lo :: al.anomalyType
  {
    forall t ensures t in AlertedSince(alerts, lo) <==> exists al :: al in alerts && al.at >= lo && al.anomalyType == t {
      AlertedSinceMembers(alerts, lo, t);
    }
  }

  lemma AlertsInTerms(p: Policy, db: Db, now: int, t: string)
    requires Reached(p, db, now)
    ensures Alerts(p, db, now, t) <==> MayAlert(p, db.alerts, t, now)
  {
    LastAlertIsLatest(db.alerts, t, now);
    RecentTypesAreAlerted(p, db, now, now - WINDOW);
    AlertedSinceIs(db.alerts, now - WINDOW);
    assert LastAlertedAt(db.states, t) == LastAlert(db.alerts, t);
  }

  /** A call alerts if and only if the history of alerts allows it, whatever the state rows are. */
  lemma AlertsExactly(p: Policy, calls: seq<Call>)
    requires Monotone(calls) && calls != []
    ensures var n := |calls| - 1;
      var c, before := calls[n], Exec(p, calls[..n]).alerts;
      Exec(p, calls).alerts
        == before
        + if MayAlert(p, before, c.anomaly.anomalyType, c.now) then [Alert(c.anomaly.anomalyType, c.now)] else []
  {
    var n := |calls| - 1;
    ReachedByRun(p, calls[..n], calls[n].now);
    AlertsInTerms(p, Exec(p, calls[..n]), calls[n].now, calls[n].anomaly.anomalyType);
  }

  // The calls of one type.
  function Of(calls: seq<Call>, t: string): seq<Call> {
    if calls == [] then []
    else
      var n := |calls| - 1;
      Of(calls[..n], t) + if calls[n].anomaly.anomalyType == t then [calls[n]] else []
  }

  /** The state row of a type counts its calls and keeps the times of its last call and its last
      alert; there is one exactly for the types that were called. */
  lemma {:induction false} StatesSummarise(p: Policy, calls: seq<Call>, t: string)
    ensures var db, mine := Exec(p, calls), Of(calls, t);
      && (t in db.states <==> mine != [])
      && (mine != [] ==> db.states[t].consecutiveCount == |mine| && db.states[t].lastSeenAt == mine[|mine| - 1].now)
      && LastAlertedAt(db.states, t) == LastAlert(db.alerts, t)
  {
    if calls != [] {
      var n := |calls| - 1;
      StatesSummarise(p, calls[..n], t);
      var before, c := Exec(p, calls[..n]), calls[n];
      if Alerts(p, before, c.now, c.anomaly.anomalyType) {
        LastAlertSnoc(before.alerts, Alert(c.anomaly.anomalyType, c.now), t);
      }
    }
  }

  lemma LastAlertSnoc(alerts: seq<Alert>, al: Alert, t: string)
    ensures LastAlert(alerts + [al], t) == if al.anomalyType == t then Some(al.at) else LastAlert(alerts, t)
  {
    assert (alerts + [al])[..|alerts|] == alerts;
  }
}
