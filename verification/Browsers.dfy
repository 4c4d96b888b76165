// browser/pool.py and browser/session.py: one recycled browser per worker process, and
// the allocator of isolated contexts and workspaces on top of it. Calls into Playwright,
// the file system and the database are outcomes.

module Browsers {
  import opened Collections

  type Id = nat
  type Path = string

  datatype Settings = Settings(ttl: int, maxContexts: int)
  datatype Live = Live(id: Id, createdAt: int)

  // `unclosed` are the browsers that a launch handed over and whose close has not come back;
  // `most` is how many of them there ever were at once.
  datatype Pool = Pool(
    started: bool, browsers: seq<Live>, contexts: map<Id, nat>, gauge: int, unclosed: set<Id>, most: nat)

  // How an awaited call ends. Stale is an AttributeError of the kind that a restart answers.
  datatype Outcome = Done | Stale | Raises | Cancelled

  // Answers to the calls of one acquire_browser; `id` is the identifier it draws. `close` and
  // `offline` belong to a retirement, `stop`, `restart` and `relaunch` to a stale launch.
  datatype World = World(
    now: int, id: Id, start: Outcome, close: Outcome, offline: Outcome, launch: Outcome, stop: Outcome,
    restart: Outcome, relaunch: Outcome, register: Outcome)

  // A pool and how the call on it ended.
  datatype Ended = Ended(pool: Pool, outcome: Outcome)

  // A pool and the browser handed out, or what ended the call.
  datatype Got = Handed(pool: Pool, live: Live) | Failed(pool: Pool, why: Outcome)

  function Ids(browsers: seq<Live>): set<Id> { set b | b in browsers :: b.id }

  function StartPool(s: Pool, start: Outcome): Ended {
    if s.started then Ended(s, Done) else if start == Done then Ended(s.(started := true), Done) else Ended(s, start)
  }

  // The listed browsers are forgotten, whether or not they could be closed.
  function Forget(s: Pool, close: Outcome): Pool {
    s.(browsers := [], unclosed := if close == Done then s.unclosed - Ids(s.browsers) else s.unclosed)
  }

  // A close that raises is ignored, one that is cancelled ends everything.
  function StopPool(s: Pool, close: Outcome, stop: Outcome): Ended {
    if s.browsers != [] && close == Cancelled then Ended(s, Cancelled)
    else
      var t := Forget(s, close).(contexts := map[]);
      if t.started && stop != Done then Ended(t, stop) else Ended(t.(started := false, gauge := 0), Done)
  }

  // Stop then start.
  function RestartPool(s: Pool, close: Outcome, stop: Outcome, start: Outcome): Ended {
    var e := StopPool(s, close, stop);
    if e.outcome != Done then e else StartPool(e.pool, start)
  }

  function Created(s: Pool, id: Id): nat {
    if id in s.contexts then s.contexts[id] else 0
  }

  predicate Worn(st: Settings, s: Pool, now: int)
    requires s.browsers != []
  {
    var b := s.browsers[0];
    now - b.createdAt >= st.ttl || Created(s, b.id) >= st.maxContexts
  }

  // The retirement of the first browser; only a cancellation keeps the caller from going on.
  function Retire(s: Pool, close: Outcome, offline: Outcome): Ended
    requires s.browsers != []
  {
    if close == Cancelled then Ended(s, Cancelled)
    else
      Ended(
        Forget(s, close).(contexts := s.contexts - {s.browsers[0].id}, gauge := 0),
        if offline == Cancelled then Cancelled else Done)
  }

  // Launch into a started pool, restarting it once if the connection is stale.
  function LaunchInto(s: Pool, w: World): Got {
    if w.launch == Done then Register(s, w)
    else if w.launch != Stale then Failed(s, w.launch)
    else
      var e := RestartPool(s, w.close, w.stop, w.restart);
      if e.outcome != Done then Failed(e.pool, e.outcome)
      else if w.relaunch != Done then Failed(e.pool, w.relaunch)
      else Register(e.pool, w)
  }

  function Max(a: nat, b: nat): nat { if a < b then b else a }

  function Listed(s: Pool, w: World): Pool {
    var unclosed := s.unclosed + {w.id};
    s.(
      browsers := s.browsers + [Live(w.id, w.now)], contexts := s.contexts[w.id := 0],
      unclosed := unclosed, most := Max(s.most, |unclosed|))
  }

  function Register(s: Pool, w: World): Got {
    var t := Listed(s, w);
    if w.register == Done then Handed(t.(gauge := |t.browsers|), t.browsers[0]) else Failed(t, w.register)
  }

  function Acquire(st: Settings, s: Pool, w: World): Got {
    var e := StartPool(s, w.start);
    if e.outcome != Done then Failed(e.pool, e.outcome)
    else if e.pool.browsers == [] then LaunchInto(e.pool, w)
    else if !Worn(st, e.pool, w.now) then Handed(e.pool, e.pool.browsers[0])
    else
      var r := Retire(e.pool, w.close, w.offline);
      if r.outcome != Done then Failed(r.pool, r.outcome) else LaunchInto(r.pool, w)
  }

  function CountContext(s: Pool, id: Id): Pool {
    s.(contexts := s.contexts[id := Created(s, id) + 1])
  }

  class BrowserPool {
    const settings: Settings
    var started: bool
    var browsers: seq<Live>
    var contextsCreated: map<Id, nat>
    var gauge: int
    ghost var unclosed: set<Id>
    ghost var most: nat

    ghost function Contents(): Pool
      reads this
    {
      Pool(started, browsers, contextsCreated, gauge, unclosed, most)
    }

    constructor (settings: Settings)
      ensures this.settings == settings && Contents() == Pool(false, [], map[], 0, {}, 0)
    {
      this.settings := settings;
      started, browsers, contextsCreated, gauge := false, [], map[], 0;
      unclosed, most := {}, 0;
    }

    method Start(start: Outcome) returns (outcome: Outcome)
      modifies this
      ensures Ended(Contents(), outcome) == StartPool(old(Contents()), start)
    {
      if started {
        return Done;
      }
      if start == Done {
        started := true;
      }
      return start;
    }

    method Stop(close: Outcome, stop: Outcome) returns (outcome: Outcome)
      modifies this
      ensures Ended(Contents(), outcome) == StopPool(old(Contents()), close, stop)
    {
      if browsers != [] && close == Cancelled {
        return Cancelled;
      }
      unclosed := if close == Done then unclosed - Ids(browsers) else unclosed;
      browsers := [];
      contextsCreated := map[];
      if started {
        if stop != Done {
          return stop;
        }
        started := false;
      }
      gauge := 0;
      return Done;
    }

    method Restart(close: Outcome, stop: Outcome, start: Outcome) returns (outcome: Outcome)
      modifies this
      ensures Ended(Contents(), outcome) == RestartPool(old(Contents()), close, stop, start)
    {
      outcome := Stop(close, stop);
      if outcome == Done {
        outcome := Start(start);
      }
    }

    // `_maybe_retire_current`: whether the browser was retired, if the call came back.
    method MaybeRetireCurrent(now: int, close: Outcome, offline: Outcome) returns (retired: bool, outcome: Outcome)
      modifies this
      ensures retired <==> old(browsers) != [] && Worn(settings, old(Contents()), now) && outcome == Done
      ensures retired ==> browsers == [] && gauge == 0
      ensures outcome == Done && !retired && old(browsers) != [] ==>
        var b := old(browsers)[0];
        && now - b.createdAt < settings.ttl
        && (if b.id in old(contextsCreated) then old(contextsCreated)[b.id] else 0) < settings.maxContexts
      ensures retired ==>
        var b := old(browsers)[0];
        || now - b.createdAt >= settings.ttl
        || (if b.id in old(contextsCreated) then old(contextsCreated)[b.id] else 0) >= settings.maxContexts
      ensures Ended(Contents(), outcome)
        == if old(browsers) != [] && Worn(settings, old(Contents()), now) then Retire(old(Contents()), close, offline)
           else Ended(old(Contents()), Done)
    {
      if browsers == [] {
        return false, Done;
      }
      var b := browsers[0];
      var created := if b.id in contextsCreated then contextsCreated[b.id] else 0;
      if now - b.createdAt < settings.ttl && created < settings.maxContexts {
        return false, Done;
      }
      if close == Cancelled {
        return false, Cancelled;
      }
      unclosed := if close == Done then unclosed - Ids(browsers) else unclosed;
      browsers := [];
      contextsCreated := contextsCreated - {b.id};
      gauge := 0;
      if offline == Cancelled {
        return false, Cancelled;
      }
      return true, Done;
    }

    // The part of `acquire_browser` after the decision to launch.
    method Launch(w: World) returns (live: Option<Live>, outcome: Outcome)
      modifies this
      ensures (if live.Some? then Handed(Contents(), live.value) else Failed(Contents(), outcome))
        == LaunchInto(old(Contents()), w)
      ensures live.Some? ==> outcome == Done
    {
      outcome := w.launch;
      if outcome == Stale {
        outcome := Restart(w.close, w.stop, w.restart);
        if outcome == Done {
          outcome := w.relaunch;
        }
      }
      if outcome != Done {
        return None, outcome;
      }
      browsers := browsers + [Live(w.id, w.now)];
      contextsCreated := contextsCreated[w.id := 0];
      unclosed := unclosed + {w.id};
      most := Max(most, |unclosed|);
      outcome := w.register;
      if outcome != Done {
        return None, outcome;
      }
      gauge := |browsers|;
      return Some(browsers[0]), Done;
    }

    method AcquireBrowser(w: World) returns (live: Option<Live>, outcome: Outcome)
      modifies this
      ensures (if live.Some? then Handed(Contents(), live.value) else Failed(Contents(), outcome))
        == Acquire(settings, old(Contents()), w)
      ensures live.Some? ==> outcome == Done
    {
      outcome := Start(w.start);
      if outcome != Done {
        return None, outcome;
      }
      if browsers != [] {
        var retired: bool;
        retired, outcome := MaybeRetireCurrent(w.now, w.close, w.offline);
        if outcome != Done {
          return None, outcome;
        }
        if !retired {
          return Some(browsers[0]), Done;
        }
      }
      live, outcome := Launch(w);
    }

    method NewContext(live: Live, created: Outcome) returns (outcome: Outcome)
      modifies this
      ensures Contents() == CountContext(old(Contents()), live.id) && outcome == created
    {
      var before := if live.id in contextsCreated then contextsCreated[live.id] else 0;
      contextsCreated := contextsCreated[live.id := before + 1];
      outcome := created;
    }
  }

  // ---------------------------------------------------------------- contexts and workspaces

  // Answers to the calls of one allocate: which directories could be made, the context, and
  // the restart, second acquire and second context that answer a stale one. `setup` is what
  // follows the context: scripts, tracing and the database record.
  datatype AllocWorld = AllocWorld(
    acquire: World, mkWorkspace: bool, mkDownloads: bool, mkArtifacts: bool, mkHar: bool, context: Outcome,
    close: Outcome, stop: Outcome, restart: Outcome, again: World, context2: Outcome, setup: Outcome)

  // `sessions` are the unclosed ones with their workspaces; `disk` the workspaces that
  // exist; `asked` one browser id per new_context call; `leaked` the workspaces that an
  // allocation left behind.
  datatype Engine = Engine(
    pool: Pool, sessions: map<Id, Path>, disk: set<Path>, active: int, asked: multiset<Id>, leaked: set<Path>)

  // The pool part of the guarded block, from a browser to a context.
  datatype Attempt = Attempt(pool: Pool, asked: multiset<Id>, outcome: Outcome)

  function OpenContext(st: Settings, s: Pool, asked: multiset<Id>, live: Live, w: AllocWorld): Attempt {
    var s := CountContext(s, live.id);
    var asked := asked + multiset{live.id};
    if w.context != Stale then Attempt(s, asked, w.context)
    else
      var e := RestartPool(s, w.close, w.stop, w.restart);
      if e.outcome != Done then Attempt(e.pool, asked, e.outcome)
      else
        match Acquire(st, e.pool, w.again)
        case Failed(p, why) => Attempt(p, asked, why)
        case Handed(p, again) => Attempt(CountContext(p, again.id), asked + multiset{again.id}, w.context2)
  }

  // The guarded block: har directory, context, setup.
  function Guarded(st: Settings, s: Pool, asked: multiset<Id>, live: Live, w: AllocWorld): Attempt {
    if !w.mkHar then Attempt(s, asked, Raises)
    else
      var a := OpenContext(st, s, asked, live, w);
      if a.outcome == Done then a.(outcome := w.setup) else a
  }

  // The workspace is made, under a name that no other has.
  predicate Makes(e: Engine, workspace: Path, w: AllocWorld) { w.mkWorkspace && workspace !in e.disk }

  // The pool after the whole allocation.
  function PoolAfter(st: Settings, e: Engine, workspace: Path, w: AllocWorld): Attempt {
    match Acquire(st, e.pool, w.acquire)
    case Failed(p, why) => Attempt(p, e.asked, why)
    case Handed(p, live) =>
      if Makes(e, workspace, w) && w.mkDownloads && w.mkArtifacts then Guarded(st, p, e.asked, live, w)
      else Attempt(p, e.asked, Raises)
  }

  // What becomes of the workspace. Only the guarded block cleans up, and not when cancelled.
  datatype Fate = NeverMade | LeftBehind | Opened | CleanedUp

  function FateOf(st: Settings, e: Engine, workspace: Path, w: AllocWorld): Fate {
    if Acquire(st, e.pool, w.acquire).Failed? || !Makes(e, workspace, w) then NeverMade
    else if !w.mkDownloads || !w.mkArtifacts then LeftBehind
    else FateAfter(PoolAfter(st, e, workspace, w).outcome)
  }

  function FateAfter(outcome: Outcome): Fate {
    match outcome
    case Done => Opened
    case Cancelled => LeftBehind
    case _ => CleanedUp
  }

  function Allocate(st: Settings, e: Engine, session: Id, workspace: Path, w: AllocWorld): Engine {
    var a := PoolAfter(st, e, workspace, w);
    Settle(e.(pool := a.pool, asked := a.asked), session, workspace, FateOf(st, e, workspace, w))
  }

  function Settle(e: Engine, session: Id, workspace: Path, fate: Fate): Engine {
    match fate
    case NeverMade => e
    case LeftBehind => e.(disk := e.disk + {workspace}, leaked := e.leaked + {workspace})
    case Opened =>
      e.(disk := e.disk + {workspace}, sessions := e.sessions[session := workspace], active := e.active + 1)
    case CleanedUp => e.(disk := e.disk + {workspace} - {workspace})
  }

  lemma SettleOnceMade(e: Engine, session: Id, workspace: Path, fate: Fate)
    requires fate != NeverMade
    ensures Settle(e.(disk := e.disk + {workspace}), session, workspace, fate) == Settle(e, session, workspace, fate)
  {
    assert e.disk + {workspace} + {workspace} == e.disk + {workspace};
  }

  // Whatever raises inside close, the gauge is lowered and the workspace removed.
  function Close(e: Engine, session: Id): Engine
    requires session in e.sessions
  {
    e.(sessions := e.sessions - {session}, disk := e.disk - {e.sessions[session]}, active := e.active - 1)
  }

  class ContextIsolationEngine {
    const pool: BrowserPool
    var sessions: map<Id, Path>
    var disk: set<Path>
    var active: int
    ghost var asked: multiset<Id>
    ghost var leaked: set<Path>

    ghost function Contents(): Engine
      reads this, pool
    {
      Engine(pool.Contents(), sessions, disk, active, asked, leaked)
    }

    constructor (pool: BrowserPool)
      ensures this.pool == pool && Contents() == Engine(pool.Contents(), map[], {}, 0, multiset{}, {})
    {
      this.pool := pool;
      sessions, disk, active := map[], {}, 0;
      asked, leaked := multiset{}, {};
    }

    method GuardedBlock(live: Live, w: AllocWorld) returns (outcome: Outcome)
      modifies pool, this`asked
      ensures Attempt(pool.Contents(), asked, outcome) == Guarded(pool.settings, old(pool.Contents()), old(asked), live, w)
    {
      if !w.mkHar {
        return Raises;
      }
      outcome := pool.NewContext(live, w.context);
      asked := asked + multiset{live.id};
      if outcome == Stale {
        outcome := pool.Restart(w.close, w.stop, w.restart);
        if outcome != Done {
          return;
        }
        var renewed: Option<Live>;
        renewed, outcome := pool.AcquireBrowser(w.again);
        if renewed == None {
          return;
        }
        outcome := pool.NewContext(renewed.value, w.context2);
        asked := asked + multiset{renewed.value.id};
      }
      if outcome == Done {
        outcome := w.setup;
      }
    }

    // What follows the guarded block: a session, a removed workspace, or neither.
    method Conclude(session: Id, workspace: Path, outcome: Outcome)
      requires workspace in disk
      modifies this`sessions, this`disk, this`active, this`leaked
      ensures Contents() == Settle(old(Contents()), session, workspace, FateAfter(outcome))
    {
      assert disk + {workspace} == disk;
      if outcome == Done {
        sessions := sessions[session := workspace];
        active := active + 1;
      } else if outcome == Cancelled {
        leaked := leaked + {workspace};
      } else {
        disk := disk - {workspace};
      }
    }

    // The try block, entered with the workspace made.
    method FillWorkspace(session: Id, workspace: Path, live: Live, w: AllocWorld) returns (outcome: Outcome)
      modifies this, pool
      ensures var a := Guarded(pool.settings, old(pool.Contents()), old(asked), live, w);
        && outcome == a.outcome
        && Contents()
          == Settle(old(Contents()).(pool := a.pool, asked := a.asked), session, workspace, FateAfter(outcome))
    {
      ghost var before := Contents();
      disk := disk + {workspace};
      outcome := GuardedBlock(live, w);
      SettleOnceMade(before.(pool := pool.Contents(), asked := asked), session, workspace, FateAfter(outcome));
      Conclude(session, workspace, outcome);
    }

    method AllocateSession(session: Id, workspace: Path, w: AllocWorld) returns (ok: bool)
      modifies this, pool
      ensures Contents() == Allocate(pool.settings, old(Contents()), session, workspace, w)
      ensures ok <==> FateOf(pool.settings, old(Contents()), workspace, w) == Opened
    {
      var live, outcome := pool.AcquireBrowser(w.acquire);
      if live == None || !w.mkWorkspace || workspace in disk {
        return false;
      }
      if !w.mkDownloads || !w.mkArtifacts {
        disk := disk + {workspace};
        leaked := leaked + {workspace};
        return false;
      }
      outcome := FillWorkspace(session, workspace, live.value, w);
      ok := outcome == Done;
    }

    method CloseSession(session: Id)
      requires session in sessions
      modifies this
      ensures Contents() == Close(old(Contents()), session)
      ensures session !in sessions && old(sessions)[session] !in disk && active == old(active) - 1
      ensures forall i :: i in old(sessions) && i != session ==> i in sessions && sessions[i] == old(sessions)[i]
      ensures forall p :: p in old(disk) && p != old(sessions)[session] ==> p in disk
      ensures leaked == old(leaked) && asked == old(asked) && pool.Contents() == old(pool.Contents())
    {
      disk := disk - {sessions[session]};
      sessions := sessions - {session};
      active := active - 1;
    }
  }
}
