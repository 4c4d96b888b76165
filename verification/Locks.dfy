// locks/db_lock.py and locks/redis_lock.py: two lock managers for one protocol.
//
// Each call is one atomic step at a time read from a common clock. `Db...` and
// `Redis...` say what a call replies and leaves behind; the two classes are the
// managers and are proved to do exactly that.

module Locks {
  import opened Collections

  // Times are microseconds.
  const SECOND := 1_000_000

  type Token = string
  datatype LockHandle = LockHandle(name: string, token: Token, owner: string)
  datatype LockRow = LockRow(ownerName: string, token: Token, acquiredAt: int, renewedAt: int, expiresAt: int)
  datatype Entry = Entry(token: Token, expiresAt: int)

  type Rows = map<string, LockRow>
  type Keys = map<string, Entry>

  // `token` is the owner and the random part that the call draws.
  datatype Call =
    | Acquire(now: int, name: string, owner: string, ttlSeconds: int, token: Token)
    | Renew(now: int, handle: LockHandle, ttlSeconds: int)
    | Release(now: int, handle: LockHandle)

  // Granted/Denied answer acquire, Yes/No answer renew and release, Rejected is an error reply.
  datatype Reply = Granted(handle: LockHandle) | Denied | Yes | No | Rejected

  function Expiry(now: int, ttlSeconds: int): int { now + ttlSeconds * SECOND }

  function LockName(c: Call): string {
    if c.Acquire? then c.name else c.handle.name
  }

  // ---------------------------------------------------------------- the database manager

  predicate Matches(rows: Rows, h: LockHandle) {
    h.name in rows && rows[h.name].token == h.token
  }

  function DbReply(rows: Rows, c: Call): Reply {
    match c
    case Acquire(now, name, owner, _, token) =>
      if name !in rows || rows[name].expiresAt <= now then Granted(LockHandle(name, token, owner)) else Denied
    case Renew(_, h, _) => if Matches(rows, h) then Yes else No
    case Release(_, h) => if Matches(rows, h) then Yes else No
  }

  function DbNext(rows: Rows, c: Call): Rows {
    match c
    case Acquire(now, name, owner, ttl, token) =>
      if DbReply(rows, c) == Denied then rows
      else
        var since := if name in rows then rows[name].acquiredAt else now;
        rows[name := LockRow(owner, token, since, now, Expiry(now, ttl))]
    case Renew(now, h, ttl) =>
      if Matches(rows, h) then rows[h.name := rows[h.name].(renewedAt := now, expiresAt := Expiry(now, ttl))] else rows
    case Release(_, h) => if Matches(rows, h) then rows - {h.name} else rows
  }

  class DbLockManager {
    var rows: Rows

    constructor ()
      ensures rows == map[]
    {
      rows := map[];
    }

    method TryAcquire(now: int, name: string, owner: string, ttlSeconds: int, token: Token) returns (h: Option<LockHandle>)
      modifies this
      ensures rows == DbNext(old(rows), Acquire(now, name, owner, ttlSeconds, token))
      ensures DbReply(old(rows), Acquire(now, name, owner, ttlSeconds, token))
        == if h.Some? then Granted(h.value) else Denied
      ensures h.Some? <==> name !in old(rows) || old(rows)[name].expiresAt <= now
      ensures h.Some? ==> h.value == LockHandle(name, token, owner)
      ensures h == None ==> rows == old(rows)
      // A new row, or the row of an expired holder under its new holder and first date.
      ensures h.Some? && name !in old(rows) ==>
        rows == old(rows)[name := LockRow(owner, token, now, now, now + ttlSeconds * 1_000_000)]
      ensures h.Some? && name in old(rows) ==>
        rows == old(rows)[name := LockRow(owner, token, old(rows)[name].acquiredAt, now, now + ttlSeconds * 1_000_000)]
    {
      var expiresAt := now + ttlSeconds * SECOND;
      if name !in rows {
        rows := rows[name := LockRow(owner, token, now, now, expiresAt)];
        return Some(LockHandle(name, token, owner));
      }
      if rows[name].expiresAt <= now {
        rows := rows[name := rows[name].(ownerName := owner, token := token, renewedAt := now, expiresAt := expiresAt)];
        return Some(LockHandle(name, token, owner));
      }
      return None;
    }

    method TryRenew(now: int, h: LockHandle, ttlSeconds: int) returns (ok: bool)
      modifies this
      ensures rows == DbNext(old(rows), Renew(now, h, ttlSeconds))
      ensures DbReply(old(rows), Renew(now, h, ttlSeconds)) == if ok then Yes else No
      ensures ok <==> h.name in old(rows) && old(rows)[h.name].token == h.token
      ensures !ok ==> rows == old(rows)
      ensures ok ==>
        var was := old(rows)[h.name];
        rows == old(rows)[h.name := LockRow(was.ownerName, h.token, was.acquiredAt, now, now + ttlSeconds * 1_000_000)]
    {
      if h.name !in rows || rows[h.name].token != h.token {
        return false;
      }
      rows := rows[h.name := rows[h.name].(renewedAt := now, expiresAt := now + ttlSeconds * SECOND)];
      return true;
    }

    method TryRelease(now: int, h: LockHandle) returns (ok: bool)
      modifies this
      ensures rows == DbNext(old(rows), Release(now, h))
      ensures DbReply(old(rows), Release(now, h)) == if ok then Yes else No
      ensures ok <==> h.name in old(rows) && old(rows)[h.name].token == h.token
      ensures rows == if ok then old(rows) - {h.name} else old(rows)
    {
      if h.name !in rows || rows[h.name].token != h.token {
        return false;
      }
      rows := rows - {h.name};
      return true;
    }
  }

  // ---------------------------------------------------------------- the Redis manager

  function Key(name: string): string { "lock:" + name }

  lemma KeyIsInjective(a: string, b: string)
    ensures Key(a) == Key(b) <==> a == b
  {
    assert Key(a)[5..] == a && Key(b)[5..] == b;
  }

  // GET: a key is gone once its expiry has passed.
  function Get(keys: Keys, key: string, now: int): Option<Entry> {
    if key in keys && now < keys[key].expiresAt then Some(keys[key]) else None
  }

  predicate Owns(keys: Keys, h: LockHandle, now: int) {
    Get(keys, Key(h.name), now).Some? && keys[Key(h.name)].token == h.token
  }

  // SET NX refuses a non-positive EX; EXPIRE with one deletes the key.
  function RedisReply(keys: Keys, c: Call): Reply {
    match c
    case Acquire(now, name, owner, ttl, token) =>
      if ttl <= 0 then Rejected
      else if Get(keys, Key(name), now).Some? then Denied
      else Granted(LockHandle(name, token, owner))
    case Renew(now, h, _) => if Owns(keys, h, now) then Yes else No
    case Release(now, h) => if Owns(keys, h, now) then Yes else No
  }

  function RedisNext(keys: Keys, c: Call): Keys {
    match c
    case Acquire(now, name, _, ttl, token) =>
      if RedisReply(keys, c).Granted? then keys[Key(name) := Entry(token, Expiry(now, ttl))] else keys
    case Renew(now, h, ttl) =>
      if Owns(keys, h, now) then keys[Key(h.name) := Entry(h.token, Expiry(now, ttl))] else keys
    case Release(now, h) => if Owns(keys, h, now) then keys - {Key(h.name)} else keys
  }

  // The server: the commands the manager issues, each atomic.
  class RedisServer {
    var keys: Keys

    constructor ()
      ensures keys == map[]
    {
      keys := map[];
    }

    method SetNxEx(now: int, key: string, token: Token, ex: int) returns (ok: bool)
      requires ex > 0
      modifies this
      ensures ok == Get(old(keys), key, now).None?
      ensures keys == if ok then old(keys)[key := Entry(token, Expiry(now, ex))] else old(keys)
    {
      ok := Get(keys, key, now).None?;
      if ok {
        keys := keys[key := Entry(token, now + ex * SECOND)];
      }
    }

    method EvalExpire(now: int, key: string, token: Token, ex: int) returns (res: int)
      modifies this
      ensures res == if Get(old(keys), key, now).Some? && old(keys)[key].token == token then 1 else 0
      ensures keys == if res == 1 then old(keys)[key := Entry(token, Expiry(now, ex))] else old(keys)
    {
      if Get(keys, key, now).Some? && keys[key].token == token {
        keys := keys[key := keys[key].(expiresAt := now + ex * SECOND)];
        return 1;
      }
      return 0;
    }

    method EvalDelete(now: int, key: string, token: Token) returns (res: int)
      modifies this
      ensures res == if Get(old(keys), key, now).Some? && old(keys)[key].token == token then 1 else 0
      ensures keys == if res == 1 then old(keys) - {key} else old(keys)
    {
      if Get(keys, key, now).Some? && keys[key].token == token {
        keys := keys - {key};
        return 1;
      }
      return 0;
    }
  }

  class RedisLockManager {
    const r: RedisServer

    constructor (r: RedisServer)
      ensures this.r == r
    {
      this.r := r;
    }

    // The reply keeps the server's error apart from a contended lock.
    method TryAcquire(now: int, name: string, owner: string, ttlSeconds: int, token: Token) returns (reply: Reply)
      modifies r
      ensures r.keys == RedisNext(old(r.keys), Acquire(now, name, owner, ttlSeconds, token))
      ensures reply == RedisReply(old(r.keys), Acquire(now, name, owner, ttlSeconds, token))
      ensures var key, keys := "lock:" + name, old(r.keys);
        if ttlSeconds <= 0 then reply == Rejected && r.keys == keys
        else if key in keys && now < keys[key].expiresAt then reply == Denied && r.keys == keys
        else
          && reply == Granted(LockHandle(name, token, owner))
          && r.keys == keys[key := Entry(token, now + ttlSeconds * 1_000_000)]
    {
      if ttlSeconds <= 0 {
        return Rejected;
      }
      var ok := r.SetNxEx(now, Key(name), token, ttlSeconds);
      reply := if ok then Granted(LockHandle(name, token, owner)) else Denied;
    }

    method TryRenew(now: int, h: LockHandle, ttlSeconds: int) returns (ok: bool)
      modifies r
      ensures r.keys == RedisNext(old(r.keys), Renew(now, h, ttlSeconds))
      ensures RedisReply(old(r.keys), Renew(now, h, ttlSeconds)) == if ok then Yes else No
      ensures var key, keys := "lock:" + h.name, old(r.keys);
        && (ok <==> key in keys && now < keys[key].expiresAt && keys[key].token == h.token)
        && r.keys == if ok then keys[key := Entry(h.token, now + ttlSeconds * 1_000_000)] else keys
    {
      var res := r.EvalExpire(now, Key(h.name), h.token, ttlSeconds);
      ok := res == 1;
    }

    method TryRelease(now: int, h: LockHandle) returns (ok: bool)
      modifies r
      ensures r.keys == RedisNext(old(r.keys), Release(now, h))
      ensures RedisReply(old(r.keys), Release(now, h)) == if ok then Yes else No
      ensures var key, keys := "lock:" + h.name, old(r.keys);
        && (ok <==> key in keys && now < keys[key].expiresAt && keys[key].token == h.token)
        && r.keys == if ok then keys - {key} else keys
    {
      var res := r.EvalDelete(now, Key(h.name), h.token);
      ok := res == 1;
    }
  }

  // ---------------------------------------------------------------- runs

  ghost predicate Monotone(calls: seq<Call>) {
    forall i, j :: 0 <= i < j < |calls| ==> calls[i].now <= calls[j].now
  }

  ghost predicate NotBefore(calls: seq<Call>, now: int) {
    calls != [] ==> calls[|calls| - 1].now <= now
  }

  function DbRun(calls: seq<Call>): Rows {
    if calls == [] then map[] else DbNext(DbRun(calls[..|calls| - 1]), calls[|calls| - 1])
  }

  function RedisRun(calls: seq<Call>): Keys {
    if calls == [] then map[] else RedisNext(RedisRun(calls[..|calls| - 1]), calls[|calls| - 1])
  }

  function DbReplies(calls: seq<Call>): (r: seq<Reply>)
    ensures |r| == |calls|
  {
    if calls == [] then []
    else DbReplies(calls[..|calls| - 1]) + [DbReply(DbRun(calls[..|calls| - 1]), calls[|calls| - 1])]
  }

  function RedisReplies(calls: seq<Call>): (r: seq<Reply>)
    ensures |r| == |calls|
  {
    if calls == [] then []
    else RedisReplies(calls[..|calls| - 1]) + [RedisReply(RedisRun(calls[..|calls| - 1]), calls[|calls| - 1])]
  }

  // What the holder of (name, token) was last told: the time up to which it may consider
  // the lock its own. It looks only at calls and replies, not at any store.
  function Promise(calls: seq<Call>, replies: seq<Reply>, name: string, token: Token): Option<int>
    requires |calls| == |replies|
  {
    if calls == [] then None
    else
      var n := |calls| - 1;
      match (calls[n], replies[n])
      case (Acquire(now, nm, _, ttl, tk), Granted(_)) =>
        if nm == name && tk == token then Some(Expiry(now, ttl)) else Promise(calls[..n], replies[..n], name, token)
      case (Renew(now, h, ttl), Yes) =>
        if h.name == name && h.token == token then Some(Expiry(now, ttl)) else Promise(calls[..n], replies[..n], name, token)
      case (Release(_, h), Yes) =>
        if h.name == name && h.token == token then None else Promise(calls[..n], replies[..n], name, token)
      case _ => Promise(calls[..n], replies[..n], name, token)
  }

  // (name, token) still has an unexpired promise at `now`.
  predicate Holds(calls: seq<Call>, replies: seq<Reply>, name: string, token: Token, now: int)
    requires |calls| == |replies|
  {
    var p := Promise(calls, replies, name, token);
    p.Some? && now < p.value
  }

  ghost predicate Held(calls: seq<Call>, replies: seq<Reply>, name: string, now: int)
    requires |calls| == |replies|
  {
    exists token :: Holds(calls, replies, name, token, now)
  }

  // ---------------------------------------------------------------- mutual exclusion

  // What a manager stores under a name, if it has not expired.
  function Unexpired(rows: Rows, name: string, now: int): Option<Entry> {
    if name in rows && now < rows[name].expiresAt then Some(Entry(rows[name].token, rows[name].expiresAt)) else None
  }

  // The unexpired promises for `name` are exactly what is stored: one, or none.
  ghost predicate Backed(calls: seq<Call>, replies: seq<Reply>, stored: Option<Entry>, name: string, now: int)
    requires |calls| == |replies|
  {
    && (forall token :: Holds(calls, replies, name, token, now) ==> stored.Some? && stored.value.token == token)
    && (stored.Some? ==> Promise(calls, replies, name, stored.value.token) == Some(stored.value.expiresAt))
  }

  // A stored entry after one more call, given that it was backed before.
  lemma StepBacked(
    calls: seq<Call>, replies: seq<Reply>, before: Option<Entry>, after: Option<Entry>, name: string, now: int)
    requires 0 < |calls| == |replies| && calls[|calls| - 1].now <= now
    requires var n := |calls| - 1; Backed(calls[..n], replies[..n], before, name, calls[n].now)
    requires var n := |calls| - 1;
      LockName(calls[n]) == name && (replies[n].Granted? || replies[n].Yes?) ==>
        match calls[n]
        case Acquire(at, _, _, ttl, token) =>
          before == None && replies[n].Granted?
          && after == if now < Expiry(at, ttl) then Some(Entry(token, Expiry(at, ttl))) else None
        case Renew(at, h, ttl) =>
          && (before.Some? ==> before.value.token == h.token)
          && replies[n].Yes? && after == if now < Expiry(at, ttl) then Some(Entry(h.token, Expiry(at, ttl))) else None
        case Release(_, h) => (before.Some? ==> before.value.token == h.token) && replies[n].Yes? && after == None
    requires var n := |calls| - 1;
      !(LockName(calls[n]) == name && (replies[n].Granted? || replies[n].Yes?)) ==>
        after == if before.Some? && now < before.value.expiresAt then before else None
    ensures Backed(calls, replies, after, name, now)
  {
    var n := |calls| - 1;
    forall token | Holds(calls, replies, name, token, now) ensures after.Some? && after.value.token == token {
      if Promise(calls, replies, name, token) == Promise(calls[..n], replies[..n], name, token) {
        assert Holds(calls[..n], replies[..n], name, token, calls[n].now);
      }
    }
  }

  lemma {:induction false} DbPromisesAreBacked(calls: seq<Call>, name: string, now: int)
    requires Monotone(calls) && NotBefore(calls, now)
    ensures Backed(calls, DbReplies(calls), Unexpired(DbRun(calls), name, now), name, now)
  {
    if calls != [] {
      var n := |calls| - 1;
      DbPromisesAreBacked(calls[..n], name, calls[n].now);
      assert DbReplies(calls)[..n] == DbReplies(calls[..n]);
      StepBacked(
        calls, DbReplies(calls), Unexpired(DbRun(calls[..n]), name, calls[n].now), Unexpired(DbRun(calls), name, now),
        name, now);
    }
  }

  lemma {:induction false} RedisPromisesAreBacked(calls: seq<Call>, name: string, now: int)
    requires Monotone(calls) && NotBefore(calls, now)
    ensures Backed(calls, RedisReplies(calls), Get(RedisRun(calls), Key(name), now), name, now)
  {
    if calls != [] {
      var n := |calls| - 1;
      RedisPromisesAreBacked(calls[..n], name, calls[n].now);
      assert RedisReplies(calls)[..n] == RedisReplies(calls[..n]);
      KeyIsInjective(name, LockName(calls[n]));
      StepBacked(
        calls, RedisReplies(calls), Get(RedisRun(calls[..n]), Key(name), calls[n].now),
        Get(RedisRun(calls), Key(name), now), name, now);
    }
  }

  /** Over every run of either manager, at no time do two tokens hold one lock. */
  lemma MutualExclusion(calls: seq<Call>, now: int, name: string, a: Token, b: Token)
    requires Monotone(calls) && NotBefore(calls, now)
    ensures Holds(calls, DbReplies(calls), name, a, now) && Holds(calls, DbReplies(calls), name, b, now) ==> a == b
    ensures Holds(calls, RedisReplies(calls), name, a, now) && Holds(calls, RedisReplies(calls), name, b, now) ==> a == b
  {
    DbPromisesAreBacked(calls, name, now);
    RedisPromisesAreBacked(calls, name, now);
  }

  lemma StoredMeansHeld(calls: seq<Call>, replies: seq<Reply>, stored: Option<Entry>, name: string, now: int)
    requires |calls| == |replies| && Backed(calls, replies, stored, name, now)
    requires stored.Some? ==> now < stored.value.expiresAt
    ensures stored.Some? <==> Held(calls, replies, name, now)
  {
    if stored.Some? {
      assert Holds(calls, replies, name, stored.value.token, now);
    }
  }

  /** An acquire is denied exactly while somebody holds an unexpired promise. */
  lemma DeniedExactlyWhileHeld(calls: seq<Call>, c: Call)
    requires Monotone(calls) && NotBefore(calls, c.now) && c.Acquire?
    ensures DbReply(DbRun(calls), c) == Denied <==> Held(calls, DbReplies(calls), c.name, c.now)
    ensures c.ttlSeconds > 0 ==>
      (RedisReply(RedisRun(calls), c) == Denied <==> Held(calls, RedisReplies(calls), c.name, c.now))
  {
    DbPromisesAreBacked(calls, c.name, c.now);
    RedisPromisesAreBacked(calls, c.name, c.now);
    StoredMeansHeld(calls, DbReplies(calls), Unexpired(DbRun(calls), c.name, c.now), c.name, c.now);
    StoredMeansHeld(calls, RedisReplies(calls), Get(RedisRun(calls), Key(c.name), c.now), c.name, c.now);
  }

  // ---------------------------------------------------------------- tokens are used once

  // No two acquires draw the same token.
  ghost predicate FreshTokens(calls: seq<Call>) {
    forall i, j :: 0 <= i < j < |calls| && calls[i].Acquire? && calls[j].Acquire? ==> calls[i].token != calls[j].token
  }

  ghost predicate Drawn(calls: seq<Call>, token: Token, from: nat) {
    exists i :: from <= i < |calls| && calls[i].Acquire? && calls[i].token == token
  }

  predicate DbCurrent(rows: Rows, name: string, token: Token) {
    name in rows && rows[name].token == token
  }

  predicate RedisCurrent(keys: Keys, name: string, token: Token, now: int) {
    Get(keys, Key(name), now).Some? && keys[Key(name)].token == token
  }

  // A token becomes current only by being drawn.
  lemma {:induction false} DbCurrentWasDrawn(calls: seq<Call>, name: string, token: Token, from: nat)
    requires from <= |calls| && DbCurrent(DbRun(calls), name, token)
    requires !DbCurrent(DbRun(calls[..from]), name, token)
    ensures Drawn(calls, token, from)
  {
    assert calls[..|calls|] == calls;
    var n := |calls| - 1;
    if DbCurrent(DbRun(calls[..n]), name, token) {
      assert calls[..n][..from] == calls[..from];
      DbCurrentWasDrawn(calls[..n], name, token, from);
      var i :| from <= i < n && calls[..n][i].Acquire? && calls[..n][i].token == token;
      assert calls[i].Acquire? && calls[i].token == token;
    } else {
      assert calls[n].Acquire? && calls[n].token == token;
    }
  }

  lemma {:induction false} RedisCurrentWasDrawn(
    calls: seq<Call>, name: string, token: Token, from: nat, earlier: int, now: int)
    requires Monotone(calls) && NotBefore(calls, now) && from <= |calls|
    requires earlier <= now && (from < |calls| ==> earlier <= calls[from].now)
    requires RedisCurrent(RedisRun(calls), name, token, now)
    requires !RedisCurrent(RedisRun(calls[..from]), name, token, earlier)
    ensures Drawn(calls, token, from)
  {
    assert calls[..|calls|] == calls;
    var n := |calls| - 1;
    assert n >= from;
    if RedisCurrent(RedisRun(calls[..n]), name, token, calls[n].now) {
      assert calls[..n][..from] == calls[..from];
      RedisCurrentWasDrawn(calls[..n], name, token, from, earlier, calls[n].now);
      var i :| from <= i < n && calls[..n][i].Acquire? && calls[..n][i].token == token;
      assert calls[i].Acquire? && calls[i].token == token;
    } else {
      KeyIsInjective(name, LockName(calls[n]));
      assert calls[n].Acquire? && calls[n].token == token;
    }
  }

  lemma DrawnOnce(calls: seq<Call>, token: Token, i: nat, j: nat)
    requires FreshTokens(calls) && i <= j <= |calls|
    requires Drawn(calls[..i], token, 0)
    ensures !Drawn(calls, token, j)
  {
    var k :| 0 <= k < i && calls[..i][k].Acquire? && calls[..i][k].token == token;
    assert calls[k].Acquire? && calls[k].token == token;
  }

  /** A token that was displaced or released never becomes current again. In Redis this
      includes a token that merely lapsed. */
  lemma NeverCurrentAgain(calls: seq<Call>, name: string, token: Token, i: nat, j: nat, at: int, earlier: int, now: int)
    requires Monotone(calls) && FreshTokens(calls) && i <= j <= |calls|
    requires NotBefore(calls[..i], at) && NotBefore(calls, now) && earlier <= now
    requires j < |calls| ==> earlier <= calls[j].now
    ensures DbCurrent(DbRun(calls[..i]), name, token) && !DbCurrent(DbRun(calls[..j]), name, token)
      ==> !DbCurrent(DbRun(calls), name, token)
    ensures RedisCurrent(RedisRun(calls[..i]), name, token, at) && !RedisCurrent(RedisRun(calls[..j]), name, token, earlier)
      ==> !RedisCurrent(RedisRun(calls), name, token, now)
  {
    assert calls[..i][..0] == [];
    if DbCurrent(DbRun(calls[..i]), name, token) && !DbCurrent(DbRun(calls[..j]), name, token) {
      DbCurrentWasDrawn(calls[..i], name, token, 0);
      DrawnOnce(calls, token, i, j);
      if DbCurrent(DbRun(calls), name, token) {
        DbCurrentWasDrawn(calls, name, token, j);
      }
    }
    if RedisCurrent(RedisRun(calls[..i]), name, token, at) && !RedisCurrent(RedisRun(calls[..j]), name, token, earlier) {
      var begin := if i == 0 then at else if calls[0].now < at then calls[0].now else at;
      RedisCurrentWasDrawn(calls[..i], name, token, 0, begin, at);
      DrawnOnce(calls, token, i, j);
      if RedisCurrent(RedisRun(calls), name, token, now) {
        RedisCurrentWasDrawn(calls, name, token, j, earlier, now);
      }
    }
  }

  // ---------------------------------------------------------------- the two managers compared

  // The one call on which they disagree: a renew or release by a handle whose lease has
  // run out but whose row nobody has taken over.
  predicate Lapsed(rows: Rows, c: Call) {
    !c.Acquire? && Matches(rows, c.handle) && rows[c.handle.name].expiresAt <= c.now
  }

  ghost predicate NeverLapsed(calls: seq<Call>) {
    forall i :: 0 <= i < |calls| ==> !Lapsed(DbRun(calls[..i]), calls[i])
  }

  lemma NeverLapsedSnoc(calls: seq<Call>)
    requires calls != []
    ensures var n := |calls| - 1;
      NeverLapsed(calls) <==> NeverLapsed(calls[..n]) && !Lapsed(DbRun(calls[..n]), calls[n])
  {
    var n := |calls| - 1;
    assert forall i :: 0 <= i < n ==> calls[..n][..i] == calls[..i] && calls[..n][i] == calls[i];
  }

  ghost predicate PositiveTtls(calls: seq<Call>) {
    forall i :: 0 <= i < |calls| && calls[i].Acquire? ==> calls[i].ttlSeconds > 0
  }

  // Simulation: the unexpired rows are the live keys.
  ghost predicate Agree(rows: Rows, keys: Keys, now: int) {
    forall name :: AgreeOn(rows, keys, name, now)
  }

  predicate AgreeOn(rows: Rows, keys: Keys, name: string, now: int) {
    Get(keys, Key(name), now) == Unexpired(rows, name, now)
  }

  lemma StepKeepsAgreement(rows: Rows, keys: Keys, c: Call, now: int)
    requires now <= c.now && Agree(rows, keys, now)
    requires !Lapsed(rows, c) && (c.Acquire? ==> c.ttlSeconds > 0)
    ensures DbReply(rows, c) == RedisReply(keys, c)
    ensures Agree(DbNext(rows, c), RedisNext(keys, c), c.now)
  {
    var target := LockName(c);
    assert AgreeOn(rows, keys, target, now);
    forall name ensures AgreeOn(DbNext(rows, c), RedisNext(keys, c), name, c.now) {
      assert AgreeOn(rows, keys, name, now);
      KeyIsInjective(name, target);
    }
  }

  lemma {:induction false} AgreeWithoutLapse(calls: seq<Call>, now: int)
    requires Monotone(calls) && NotBefore(calls, now) && PositiveTtls(calls) && NeverLapsed(calls)
    ensures DbReplies(calls) == RedisReplies(calls)
    ensures Agree(DbRun(calls), RedisRun(calls), now)
  {
    if calls != [] {
      var n := |calls| - 1;
      NeverLapsedSnoc(calls);
      AgreeWithoutLapse(calls[..n], calls[n].now);
      StepKeepsAgreement(DbRun(calls[..n]), RedisRun(calls[..n]), calls[n], calls[n].now);
      forall name ensures AgreeOn(DbRun(calls), RedisRun(calls), name, now) {
        assert AgreeOn(DbRun(calls), RedisRun(calls), name, calls[n].now);
      }
    }
  }

  lemma LapseSeparates(rows: Rows, keys: Keys, c: Call)
    requires Agree(rows, keys, c.now) && Lapsed(rows, c)
    ensures DbReply(rows, c) == Yes && RedisReply(keys, c) == No
  {
    assert AgreeOn(rows, keys, c.handle.name, c.now);
  }

  lemma {:induction false} DifferAfterLapse(calls: seq<Call>)
    requires Monotone(calls) && PositiveTtls(calls) && !NeverLapsed(calls)
    ensures DbReplies(calls) != RedisReplies(calls)
  {
    var n := |calls| - 1;
    var init := calls[..n];
    assert DbReplies(calls)[..n] == DbReplies(init) && RedisReplies(calls)[..n] == RedisReplies(init);
    if NeverLapsed(init) {
      NeverLapsedSnoc(calls);
      AgreeWithoutLapse(init, calls[n].now);
      LapseSeparates(DbRun(init), RedisRun(init), calls[n]);
      assert DbReplies(calls)[n] != RedisReplies(calls)[n];
    } else {
      DifferAfterLapse(init);
    }
  }

  /** The database and Redis managers give the same replies in exactly the runs in which no
      renew or release is presented by a handle that has lapsed without being replaced. */
  lemma ManagersAreEquivalent(calls: seq<Call>)
    requires Monotone(calls) && PositiveTtls(calls)
    ensures DbReplies(calls) == RedisReplies(calls) <==> NeverLapsed(calls)
  {
    if NeverLapsed(calls) {
      AgreeWithoutLapse(calls, if calls == [] then 0 else calls[|calls| - 1].now);
    } else {
      DifferAfterLapse(calls);
    }
  }

  /** Two calls tell the managers apart: an acquire, and a renewal once its lease has lapsed. */
  lemma LapsedRenewalDiffers(name: string, owner: string, token: Token, begin: int, ttl: int, late: int)
    requires ttl > 0 && Expiry(begin, ttl) <= late
    ensures var calls := [Acquire(begin, name, owner, ttl, token), Renew(late, LockHandle(name, token, owner), ttl)];
      && DbReplies(calls) == [Granted(LockHandle(name, token, owner)), Yes]
      && RedisReplies(calls) == [Granted(LockHandle(name, token, owner)), No]
  {
    var h := LockHandle(name, token, owner);
    var calls := [Acquire(begin, name, owner, ttl, token), Renew(late, h, ttl)];
    assert calls[..1] == [calls[0]] && calls[..1][..0] == [];
    assert DbReplies([calls[0]]) == [Granted(h)] && RedisReplies([calls[0]]) == [Granted(h)];
    assert DbReplies(calls) == DbReplies(calls[..1]) + [Yes];
    assert RedisReplies(calls) == RedisReplies(calls[..1]) + [No];
  }
}
