// validation/retention.py: artifact retention. Each pass examines, per policy, at most
// `limit` of the oldest expired rows of the artifact index.

module Retention {
  import opened Collections

  // Times are microseconds.
  const DAY := 86_400 * 1_000_000

  datatype Artifact = Artifact(id: nat, kind: string, relpath: string, createdAt: int)
  datatype Policy = Policy(kind: string, ttlDays: int, enabled: bool, preserve: bool)
  datatype Action = Action(kind: string, relpath: string, action: string, reason: string)

  // What the file system and the database answer: the file a path resolves to, and whether it
  // leaves the root; whether a file that is there cannot be unlinked; whether a row cannot be
  // deleted.
  datatype World = World(
    target: string -> string, escapes: string -> bool, unlinkRaises: string -> bool, deleteRaises: nat -> bool)

  datatype Sweep = Sweep(
    index: seq<Artifact>, files: set<string>, actions: seq<Action>, deleted: nat, kept: nat, errors: nat)

  const DEFAULTS: seq<(string, int)> := [
    ("trace", 14), ("har", 14), ("screenshot", 14), ("download", 7), ("console", 7), ("replay", 14)
  ]

  function HasPolicy(policies: seq<Policy>, kind: string): bool {
    policies != [] && (policies[|policies| - 1].kind == kind || HasPolicy(policies[..|policies| - 1], kind))
  }

  // `ensure_defaults`: add a policy for each default kind that has none.
  function WithDefaults(policies: seq<Policy>, n: nat): seq<Policy>
    requires n <= |DEFAULTS|
  {
    if n == 0 then policies
    else
      var p, d := WithDefaults(policies, n - 1), DEFAULTS[n - 1];
      if HasPolicy(p, d.0) then p else p + [Policy(d.0, d.1, true, false)]
  }

  predicate Older(a: Artifact, b: Artifact) { a.createdAt <= b.createdAt }

  function Expired(index: seq<Artifact>, kind: string, cutoff: int): seq<Artifact> {
    if index == [] then []
    else
      var n := |index| - 1;
      var e := Expired(index[..n], kind, cutoff);
      if index[n].kind == kind && index[n].createdAt < cutoff then e + [index[n]] else e
  }

  // The expired rows of a kind, oldest first.
  function Queue(index: seq<Artifact>, kind: string, cutoff: int): seq<Artifact> {
    StableSort(Older, Expired(index, kind, cutoff))
  }

  function Take<T>(s: seq<T>, limit: nat): seq<T> {
    if limit <= |s| then s[..limit] else s
  }

  // DELETE ... WHERE id = ...
  function WithoutId(index: seq<Artifact>, id: nat): seq<Artifact> {
    if index == [] then []
    else
      var n := |index| - 1;
      if index[n].id == id then WithoutId(index[..n], id) else WithoutId(index[..n], id) + [index[n]]
  }

  lemma {:induction false} WithoutIdIsWithout(index: seq<Artifact>, id: nat)
    ensures forall a :: a in WithoutId(index, id) <==> a in index && a.id != id
  {
    if index != [] {
      var n := |index| - 1;
      WithoutIdIsWithout(index[..n], id);
      assert index == index[..n] + [index[n]];
    }
  }

  function Note(s: Sweep, kind: string, r: Artifact, action: string, reason: string): Sweep {
    s.(actions := s.actions + [Action(kind, r.relpath, action, reason)])
  }

  // A file that is there and stays there.
  predicate Stuck(w: World, files: set<string>, file: string) { file in files && w.unlinkRaises(file) }

  // One row of one policy.
  function Examine(w: World, dryRun: bool, kind: string, s: Sweep, r: Artifact): Sweep {
    if w.escapes(r.relpath) then Note(s.(errors := s.errors + 1), kind, r, "error", "path_escape")
    else if dryRun then Note(s.(kept := s.kept + 1), kind, r, "keep", "dry_run")
    else if Stuck(w, s.files, w.target(r.relpath)) then
      Note(s.(errors := s.errors + 1), kind, r, "error", "delete_failed")
    else if w.deleteRaises(r.id) then
      Note(s.(files := s.files - {w.target(r.relpath)}, errors := s.errors + 1), kind, r, "error", "delete_failed")
    else
      Note(
        s.(files := s.files - {w.target(r.relpath)}, index := WithoutId(s.index, r.id), deleted := s.deleted + 1),
        kind, r, "delete", "ttl_expired")
  }

  function ExamineAll(w: World, dryRun: bool, kind: string, s: Sweep, rows: seq<Artifact>): Sweep {
    if rows == [] then s
    else Examine(w, dryRun, kind, ExamineAll(w, dryRun, kind, s, rows[..|rows| - 1]), rows[|rows| - 1])
  }

  function Cutoff(now: int, p: Policy): int { now - p.ttlDays * DAY }

  predicate Applies(p: Policy) { p.enabled && !p.preserve }

  function EnforcePolicy(w: World, dryRun: bool, limit: nat, now: int, s: Sweep, p: Policy): Sweep {
    if !Applies(p) then s
    else ExamineAll(w, dryRun, p.kind, s, Take(Queue(s.index, p.kind, Cutoff(now, p)), limit))
  }

  function EnforceAll(w: World, dryRun: bool, limit: nat, now: int, s: Sweep, policies: seq<Policy>): Sweep {
    if policies == [] then s
    else
      var n := |policies| - 1;
      EnforcePolicy(w, dryRun, limit, now, EnforceAll(w, dryRun, limit, now, s, policies[..n]), policies[n])
  }

  class RetentionService {
    var policies: seq<Policy>
    var index: seq<Artifact>
    var files: set<string>
    var actions: seq<Action>

    constructor (policies: seq<Policy>, index: seq<Artifact>, files: set<string>)
      ensures this.policies == policies && this.index == index && this.files == files && actions == []
    {
      this.policies, this.index, this.files, this.actions := policies, index, files, [];
    }

    method EnsureDefaults()
      modifies this`policies
      ensures policies == WithDefaults(old(policies), |DEFAULTS|)
    {
      for i := 0 to |DEFAULTS|
        invariant policies == WithDefaults(old(policies), i)
      {
        if !HasPolicy(policies, DEFAULTS[i].0) {
          policies := policies + [Policy(DEFAULTS[i].0, DEFAULTS[i].1, true, false)];
        }
      }
    }

    method Append(kind: string, r: Artifact, action: string, reason: string)
      modifies this`actions
      ensures actions == old(actions) + [Action(kind, r.relpath, action, reason)]
    {
      actions := actions + [Action(kind, r.relpath, action, reason)];
    }

    method ExamineRow(w: World, dryRun: bool, kind: string, r: Artifact, d: nat, k: nat, e: nat)
      returns (deleted: nat, kept: nat, errors: nat)
      modifies this`index, this`files, this`actions
      ensures Sweep(index, files, actions, deleted, kept, errors)
        == Examine(w, dryRun, kind, Sweep(old(index), old(files), old(actions), d, k, e), r)
      ensures w.escapes(r.relpath) ==>
        && (deleted, kept, errors) == (d, k, e + 1) && index == old(index) && files == old(files)
        && actions == old(actions) + [Action(kind, r.relpath, "error", "path_escape")]
      ensures !w.escapes(r.relpath) && dryRun ==>
        && (deleted, kept, errors) == (d, k + 1, e) && index == old(index) && files == old(files)
        && actions == old(actions) + [Action(kind, r.relpath, "keep", "dry_run")]
      ensures !w.escapes(r.relpath) && !dryRun ==>
        var stuck := w.target(r.relpath) in old(files) && w.unlinkRaises(w.target(r.relpath));
        && files == (if stuck then old(files) else old(files) - {w.target(r.relpath)})
        && if stuck || w.deleteRaises(r.id) then
             && (deleted, kept, errors) == (d, k, e + 1) && index == old(index)
             && actions == old(actions) + [Action(kind, r.relpath, "error", "delete_failed")]
           else
             && (deleted, kept, errors) == (d + 1, k, e)
             && (forall a :: a in index <==> a in old(index) && a.id != r.id)
             && actions == old(actions) + [Action(kind, r.relpath, "delete", "ttl_expired")]
    {
      WithoutIdIsWithout(index, r.id);
      deleted, kept, errors := d, k, e;
      if w.escapes(r.relpath) {
        errors := errors + 1;
        Append(kind, r, "error", "path_escape");
      } else if dryRun {
        kept := kept + 1;
        Append(kind, r, "keep", "dry_run");
      } else if w.target(r.relpath) in files && w.unlinkRaises(w.target(r.relpath)) {
        errors := errors + 1;
        Append(kind, r, "error", "delete_failed");
      } else {
        files := files - {w.target(r.relpath)};
        if w.deleteRaises(r.id) {
          errors := errors + 1;
          Append(kind, r, "error", "delete_failed");
        } else {
          index := WithoutId(index, r.id);
          deleted := deleted + 1;
          Append(kind, r, "delete", "ttl_expired");
        }
      }
    }

    method ExamineRows(w: World, dryRun: bool, kind: string, rows: seq<Artifact>, d: nat, k: nat, e: nat)
      returns (deleted: nat, kept: nat, errors: nat)
      modifies this`index, this`files, this`actions
      ensures Sweep(index, files, actions, deleted, kept, errors)
        == ExamineAll(w, dryRun, kind, Sweep(old(index), old(files), old(actions), d, k, e), rows)
    {
      deleted, kept, errors := d, k, e;
      ghost var start := Sweep(index, files, actions, d, k, e);
      for i := 0 to |rows|
        invariant Sweep(index, files, actions, deleted, kept, errors) == ExamineAll(w, dryRun, kind, start, rows[..i])
      {
        assert rows[..i + 1][..i] == rows[..i];
        deleted, kept, errors := ExamineRow(w, dryRun, kind, rows[i], deleted, kept, errors);
      }
      assert rows[..|rows|] == rows;
    }

    method EnforceOne(w: World, dryRun: bool, limit: nat, now: int, p: Policy, d: nat, k: nat, e: nat)
      returns (deleted: nat, kept: nat, errors: nat)
      modifies this`index, this`files, this`actions
      ensures Sweep(index, files, actions, deleted, kept, errors)
        == EnforcePolicy(w, dryRun, limit, now, Sweep(old(index), old(files), old(actions), d, k, e), p)
    {
      deleted, kept, errors := d, k, e;
      if p.enabled && !p.preserve {
        var rows := Take(Queue(index, p.kind, now - p.ttlDays * DAY), limit);
        deleted, kept, errors := ExamineRows(w, dryRun, p.kind, rows, deleted, kept, errors);
      }
    }

    method EnforceEach(w: World, dryRun: bool, limit: nat, now: int) returns (deleted: nat, kept: nat, errors: nat)
      modifies this`index, this`files, this`actions
      ensures Sweep(index, files, actions, deleted, kept, errors)
        == EnforceAll(w, dryRun, limit, now, Sweep(old(index), old(files), old(actions), 0, 0, 0), policies)
    {
      deleted, kept, errors := 0, 0, 0;
      ghost var start := Sweep(index, files, actions, 0, 0, 0);
      for i := 0 to |policies|
        invariant Sweep(index, files, actions, deleted, kept, errors)
          == EnforceAll(w, dryRun, limit, now, start, policies[..i])
      {
        assert policies[..i + 1][..i] == policies[..i];
        deleted, kept, errors := EnforceOne(w, dryRun, limit, now, policies[i], deleted, kept, errors);
      }
      assert policies[..|policies|] == policies;
    }

    method Enforce(w: World, dryRun: bool, limit: nat, now: int) returns (deleted: nat, kept: nat, errors: nat)
      modifies this
      ensures policies == WithDefaults(old(policies), |DEFAULTS|)
      ensures Sweep(index, files, actions, deleted, kept, errors)
        == EnforceAll(w, dryRun, limit, now, Sweep(old(index), old(files), old(actions), 0, 0, 0), policies)
    {
      EnsureDefaults();
      deleted, kept, errors := EnforceEach(w, dryRun, limit, now);
    }
  }
}
