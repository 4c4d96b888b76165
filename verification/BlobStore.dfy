// storage/local_store.py: blobs in a directory tree, each written beside its destination
// under the destination's name plus ".tmp" and then moved over it.

module BlobStore {
  import opened Collections
  import opened Sanitize

  // Paths below the root; the root itself is the empty path.
  type Path = seq<string>
  type Bytes = seq<bv8>

  datatype Tree = Tree(files: map<Path, Bytes>, dirs: set<Path>)

  datatype Error = InvalidRelpath | NotFound | OsError

  datatype Result<+T> = Ok(value: T) | Err(error: Error)

  datatype Stored = Stored(path: Path, byteSize: nat)

  function Parent(p: Path): Path
    requires p != []
  {
    p[..|p| - 1]
  }

  function Name(p: Path): string
    requires p != []
  {
    p[|p| - 1]
  }

  // PurePath.suffix: from the last dot, unless that dot starts or ends the name.
  function LastDot(name: string): Option<nat> {
    if name == "" then None
    else if name[|name| - 1] == '.' then Some(|name| - 1)
    else LastDot(name[..|name| - 1])
  }

  function Suffix(name: string): string {
    match LastDot(name)
    case Some(i) => if 0 < i < |name| - 1 then name[i..] else ""
    case None => ""
  }

  function WithSuffix(name: string, suffix: string): string {
    if |Suffix(name)| <= |name| then name[..|name| - |Suffix(name)|] + suffix else suffix
  }

  function Temp(dest: Path): Path
    requires dest != []
  {
    Parent(dest) + [WithSuffix(Name(dest), Suffix(Name(dest)) + ".tmp")]
  }

  // Every proper prefix of p, the root included.
  function Above(p: Path): set<Path> {
    if p == [] then {} else {Parent(p)} + Above(Parent(p))
  }

  // `mkdir(parents=True, exist_ok=True)` fails when a file stands where a directory should.
  predicate MkdirFails(t: Tree, dest: Path) { exists p :: p in Above(dest) && p in t.files }

  // `put_bytes`, once the destination and its temporary file are known.
  function Place(t: Tree, tmp: Path, dest: Path, payload: Bytes): (Tree, Result<Stored>) {
    if MkdirFails(t, dest) then (t, Err(OsError))
    else
      var u := t.(dirs := t.dirs + Above(dest));
      if tmp in u.dirs then (u, Err(OsError))
      else if dest in u.dirs then (u.(files := u.files[tmp := payload]), Err(OsError))
      else (u.(files := (u.files - {tmp})[dest := payload]), Ok(Stored(dest, |payload|)))
  }

  function Put(t: Tree, relpath: string, payload: Bytes): (Tree, Result<Stored>) {
    match Resolve(relpath)
    case None => (t, Err(InvalidRelpath))
    case Some(dest) => ResolveSpec(relpath); Place(t, Temp(dest), dest, payload)
  }

  function Get(t: Tree, relpath: string): Result<Path> {
    match Resolve(relpath)
    case None => Err(InvalidRelpath)
    case Some(dest) => if dest in t.files || dest in t.dirs then Ok(dest) else Err(NotFound)
  }

  class LocalBlobStore {
    var files: map<Path, Bytes>
    var dirs: set<Path>

    ghost function Contents(): Tree
      reads this
    {
      Tree(files, dirs)
    }

    method Mkdir(dest: Path) returns (ok: bool)
      modifies this`dirs
      ensures ok == !MkdirFails(old(Contents()), dest)
      ensures dirs == if ok then old(dirs) + Above(dest) else old(dirs)
    {
      var n := |dest|;
      var made: set<Path> := {};
      ok := true;
      assert dest[..|dest|] == dest;
      while n > 0 && ok
        invariant 0 <= n <= |dest|
        invariant made + Above(dest[..n]) == Above(dest) || !ok
        invariant ok ==> forall p :: p in made ==> p !in files
        invariant !ok ==> MkdirFails(old(Contents()), dest)
        decreases n, ok
      {
        var above := dest[..n - 1];
        assert above == Parent(dest[..n]);
        if above in files {
          assert above in Above(dest);
          ok := false;
        } else {
          made := made + {above};
          n := n - 1;
        }
      }
      if ok {
        assert made == Above(dest);
        dirs := dirs + made;
      }
    }

    method Replace(tmp: Path, dest: Path, payload: Bytes) returns (r: Result<Stored>)
      requires tmp != dest
      modifies this
      ensures (Contents(), r) == Place(old(Contents()), tmp, dest, payload)
    {
      var made := Mkdir(dest);
      if !made || tmp in dirs {
        return Err(OsError);
      }
      files := files[tmp := payload];
      if dest in dirs {
        return Err(OsError);
      }
      files := (files - {tmp})[dest := payload];
      assert files == (old(files) - {tmp})[dest := payload];
      return Ok(Stored(dest, |payload|));
    }

    method PutBytes(relpath: string, payload: Bytes) returns (r: Result<Stored>)
      modifies this
      ensures (Contents(), r) == Put(old(Contents()), relpath, payload)
    {
      var dest := Resolve(relpath);
      if dest == None {
        return Err(InvalidRelpath);
      }
      ResolveSpec(relpath);
      TempIsBeside(dest.value);
      r := Replace(Temp(dest.value), dest.value, payload);
    }

    method GetPath(relpath: string) returns (r: Result<Path>)
      ensures r == Get(Contents(), relpath)
    {
      var dest := Resolve(relpath);
      if dest == None {
        return Err(InvalidRelpath);
      }
      if dest.value !in files && dest.value !in dirs {
        return Err(NotFound);
      }
      return Ok(dest.value);
    }
  }

  // ---------------------------------------------------------------- the temporary name

  lemma {:induction false} LastDotInside(name: string)
    ensures LastDot(name).Some? ==> LastDot(name).value < |name|
  {
    if name != "" && name[|name| - 1] != '.' {
      LastDotInside(name[..|name| - 1]);
    }
  }

  /** The temporary file is the destination's name followed by ".tmp", in the same directory;
      it is a safe path too, so it can be the name of another blob. */
  lemma TempIsBeside(dest: Path)
    requires dest != []
    ensures Temp(dest) == Parent(dest) + [Name(dest) + ".tmp"] && Temp(dest) != dest
    ensures SafePath(dest) ==> SafePath(Temp(dest))
  {
    var name := Name(dest);
    LastDotInside(name);
    var s := Suffix(name);
    assert name[..|name| - |s|] + s == name;
    assert name[..|name| - |s|] + (s + ".tmp") == name + ".tmp";
    assert |Temp(dest)[|dest| - 1]| == |name| + 4;
    if SafePath(dest) {
      var t := name + ".tmp";
      assert Safe(name);
      forall i | 0 <= i < |t| ensures Allowed(t[i]) {
        assert i >= |name| ==> t[i] == ".tmp"[i - |name|];
      }
      assert Safe(t);
    }
  }

  // ---------------------------------------------------------------- one call

  lemma Placed(t: Tree, tmp: Path, dest: Path, payload: Bytes)
    requires tmp != dest
    ensures var (u, r) := Place(t, tmp, dest, payload);
      r.Ok? ==> r.value == Stored(dest, |payload|) && dest in u.files && u.files[dest] == payload
  {
  }

  /** What was put is what is found: the path returned by a successful put is the one a later
      `get_path` with the same name returns, and it holds the payload. */
  lemma PutThenGet(t: Tree, relpath: string, payload: Bytes)
    ensures var (u, r) := Put(t, relpath, payload);
      r.Ok? ==>
        && Get(u, relpath) == Ok(r.value.path)
        && r.value.path in u.files && u.files[r.value.path] == payload
        && r.value.byteSize == |payload|
  {
    ResolveSpec(relpath);
    if Resolve(relpath).Some? {
      var dest := Resolve(relpath).value;
      TempIsBeside(dest);
      Placed(t, Temp(dest), dest, payload);
    }
  }

  lemma PlaceDisturbsOnlyTemp(t: Tree, tmp: Path, dest: Path, payload: Bytes, p: Path)
    requires p in t.files && p != dest
    ensures var (u, r) := Place(t, tmp, dest, payload);
      && (p in u.files <==> r.Err? || p != tmp)
      && (p in u.files && (r.Ok? || p != tmp) ==> u.files[p] == t.files[p])
  {
  }

  /** A put leaves every other blob as it was, except one stored under its temporary name: a
      successful put removes that blob, and a failed put may overwrite it. */
  lemma PutDisturbsOnlyTemp(t: Tree, relpath: string, payload: Bytes, p: Path)
    requires p in t.files && Resolve(relpath).Some? && Resolve(relpath).value != p
    ensures Resolve(relpath).value != []
    ensures var (u, r) := Put(t, relpath, payload);
      var tmp := Temp(Resolve(relpath).value);
      && (p in u.files <==> r.Err? || p != tmp)
      && (p in u.files && (r.Ok? || p != tmp) ==> u.files[p] == t.files[p])
  {
    ResolveSpec(relpath);
    var dest := Resolve(relpath).value;
    PlaceDisturbsOnlyTemp(t, Temp(dest), dest, payload, p);
  }

  // ---------------------------------------------------------------- every run

  ghost predicate WellFormed(t: Tree) {
    && (forall p :: p in t.files ==> p != [] && p !in t.dirs && SafePath(p) && Parent(p) in t.dirs)
    && (forall p :: p in t.dirs ==> SafePath(p) && (p != [] ==> Parent(p) in t.dirs))
  }

  lemma {:induction false} AboveSpec(p: Path)
    requires SafePath(p)
    ensures forall q :: q in Above(p) ==> SafePath(q) && |q| < |p| && (q != [] ==> Parent(q) in Above(p))
    ensures p != [] ==> Parent(p) in Above(p)
  {
    if p != [] {
      AboveSpec(Parent(p));
    }
  }

  lemma PlaceKeepsTree(t: Tree, tmp: Path, dest: Path, payload: Bytes)
    requires WellFormed(t) && dest != [] && tmp != [] && Parent(tmp) == Parent(dest)
    requires SafePath(dest) && SafePath(tmp)
    ensures WellFormed(Place(t, tmp, dest, payload).0)
  {
    if !MkdirFails(t, dest) {
      AboveSpec(dest);
      DirsMade(t, dest);
      var u := t.(dirs := t.dirs + Above(dest));
      if tmp !in u.dirs {
        FileAdded(u, tmp, payload);
      }
      if dest !in u.dirs {
        FileRemoved(u, tmp);
        FileAdded(u.(files := u.files - {tmp}), dest, payload);
      }
    }
  }

  /** The tree stays one: files stand only in directories, no path is both, and every path is
      a list of safe segments below the root. */
  lemma PutKeepsTree(t: Tree, relpath: string, payload: Bytes)
    requires WellFormed(t)
    ensures WellFormed(Put(t, relpath, payload).0)
  {
    ResolveSpec(relpath);
    if Resolve(relpath).Some? {
      var dest := Resolve(relpath).value;
      TempIsBeside(dest);
      PlaceKeepsTree(t, Temp(dest), dest, payload);
    }
  }

  lemma DirsMade(t: Tree, dest: Path)
    requires WellFormed(t) && SafePath(dest) && !MkdirFails(t, dest)
    ensures WellFormed(t.(dirs := t.dirs + Above(dest)))
  {
    AboveSpec(dest);
  }

  lemma FileAdded(t: Tree, p: Path, payload: Bytes)
    requires WellFormed(t) && p != [] && SafePath(p) && p !in t.dirs && Parent(p) in t.dirs
    ensures WellFormed(t.(files := t.files[p := payload]))
  {
  }

  lemma FileRemoved(t: Tree, p: Path)
    requires WellFormed(t)
    ensures WellFormed(t.(files := t.files - {p}))
  {
  }

  function PutAll(t: Tree, puts: seq<(string, Bytes)>): Tree {
    if puts == [] then t
    else Put(PutAll(t, puts[..|puts| - 1]), puts[|puts| - 1].0, puts[|puts| - 1].1).0
  }

  /** Over any run of puts nothing is ever written outside the root. */
  lemma {:induction false} NothingLeavesTheRoot(t: Tree, puts: seq<(string, Bytes)>)
    requires WellFormed(t)
    ensures WellFormed(PutAll(t, puts))
  {
    if puts != [] {
      NothingLeavesTheRoot(t, puts[..|puts| - 1]);
      PutKeepsTree(PutAll(t, puts[..|puts| - 1]), puts[|puts| - 1].0, puts[|puts| - 1].1);
    }
  }

  // A put that writes the blob at p or uses p as its temporary name.
  predicate Touches(put: (string, Bytes), p: Path) {
    Resolve(put.0).Some? && Resolve(put.0).value != []
    && (Resolve(put.0).value == p || Temp(Resolve(put.0).value) == p)
  }

  lemma UntouchedSurvives(t: Tree, put: (string, Bytes), p: Path)
    requires p in t.files && !Touches(put, p)
    ensures p in Put(t, put.0, put.1).0.files && Put(t, put.0, put.1).0.files[p] == t.files[p]
  {
    ResolveSpec(put.0);
    if Resolve(put.0).Some? {
      PutDisturbsOnlyTemp(t, put.0, put.1, p);
    }
  }

  // ---------------------------------------------------------------- exactly when a blob survives

  lemma {:induction false} DirsAboveFile(t: Tree, dest: Path)
    requires WellFormed(t) && dest != [] && Parent(dest) in t.dirs
    ensures Above(dest) <= t.dirs
  {
    if Parent(dest) != [] {
      DirsAboveFile(t, Parent(dest));
    }
  }

  // What a put does where its destination's directory is there already.
  lemma PlaceBeside(t: Tree, tmp: Path, dest: Path, payload: Bytes)
    requires WellFormed(t) && dest != [] && Parent(dest) in t.dirs
    ensures Place(t, tmp, dest, payload).0
      == if tmp in t.dirs then t
         else if dest in t.dirs then t.(files := t.files[tmp := payload])
         else t.(files := (t.files - {tmp})[dest := payload])
  {
    DirsAboveFile(t, dest);
    assert t.dirs + Above(dest) == t.dirs;
    assert !MkdirFails(t, dest);
  }

  lemma PlaceSparesExactly(t: Tree, tmp: Path, dest: Path, payload: Bytes, p: Path)
    requires WellFormed(t) && p in t.files && p != dest && dest != [] && tmp != [] && Parent(tmp) == Parent(dest)
    ensures var u := Place(t, tmp, dest, payload).0;
      && (p in u.files <==> p != tmp || dest in t.dirs)
      && (p in u.files && u.files[p] == t.files[p] <==> p != tmp || (dest in t.dirs && t.files[p] == payload))
  {
    PlaceDisturbsOnlyTemp(t, tmp, dest, payload, p);
    if p == tmp {
      PlaceBeside(t, tmp, dest, payload);
    }
  }

  /** A put of another name loses the blob at p if and only if p is its temporary name and its
      destination is not a directory; and it leaves p with its bytes if and only if p is not
      its temporary name, or the destination is a directory and the payload is the same. */
  lemma PutSparesExactly(t: Tree, relpath: string, payload: Bytes, p: Path)
    requires WellFormed(t) && p in t.files && Resolve(relpath).Some? && Resolve(relpath).value != p
    ensures Resolve(relpath).value != []
    ensures var dest := Resolve(relpath).value;
      var tmp, u := Temp(dest), Put(t, relpath, payload).0;
      && (p in u.files <==> p != tmp || dest in t.dirs)
      && (p in u.files && u.files[p] == t.files[p] <==> p != tmp || (dest in t.dirs && t.files[p] == payload))
  {
    ResolveSpec(relpath);
    var dest := Resolve(relpath).value;
    TempIsBeside(dest);
    PlaceSparesExactly(t, Temp(dest), dest, payload, p);
  }

  /** A put of the name of a stored blob replaces its bytes, unless its temporary name is a
      directory. */
  lemma PutReplacesExactly(t: Tree, relpath: string, payload: Bytes, p: Path)
    requires WellFormed(t) && p in t.files && Resolve(relpath) == Some(p)
    ensures p in Put(t, relpath, payload).0.files
    ensures Put(t, relpath, payload).0.files[p] == if Temp(p) in t.dirs then t.files[p] else payload
  {
    ResolveSpec(relpath);
    TempIsBeside(p);
    PlaceBeside(t, Temp(p), p, payload);
  }

  // The put takes the blob at p, or its bytes, away.
  predicate Harms(t: Tree, put: (string, Bytes), p: Path, bytes: Bytes) {
    Resolve(put.0).Some? && Resolve(put.0).value != [] && p != []
    && var dest := Resolve(put.0).value;
    if dest == p then Temp(p) !in t.dirs && put.1 != bytes
    else p == Temp(dest) && !(dest in t.dirs && put.1 == bytes)
  }

  predicate Holds(t: Tree, p: Path, bytes: Bytes) { p in t.files && t.files[p] == bytes }

  lemma PutHarmsExactly(t: Tree, put: (string, Bytes), p: Path, bytes: Bytes)
    requires WellFormed(t) && Holds(t, p, bytes)
    ensures Holds(Put(t, put.0, put.1).0, p, bytes) <==> !Harms(t, put, p, bytes)
  {
    ResolveSpec(put.0);
    if Resolve(put.0) == Some(p) {
      PutReplacesExactly(t, put.0, put.1, p);
    } else if Resolve(put.0).Some? {
      PutSparesExactly(t, put.0, put.1, p);
    }
  }

  // After the run and after every prefix of it.
  predicate HoldsThroughout(t: Tree, puts: seq<(string, Bytes)>, p: Path, bytes: Bytes) {
    Holds(PutAll(t, puts), p, bytes) && (puts == [] || HoldsThroughout(t, puts[..|puts| - 1], p, bytes))
  }

  predicate NeverHarmed(t: Tree, puts: seq<(string, Bytes)>, p: Path, bytes: Bytes) {
    puts == []
    || (&& NeverHarmed(t, puts[..|puts| - 1], p, bytes)
        && !Harms(PutAll(t, puts[..|puts| - 1]), puts[|puts| - 1], p, bytes))
  }

  /** A blob keeps its bytes throughout any run of puts if and only if no put of the run harms
      it where it is made. */
  lemma {:induction false} BlobSurvivesExactly(t: Tree, puts: seq<(string, Bytes)>, p: Path, bytes: Bytes)
    requires WellFormed(t) && Holds(t, p, bytes)
    ensures HoldsThroughout(t, puts, p, bytes) <==> NeverHarmed(t, puts, p, bytes)
  {
    if puts != [] {
      var n := |puts| - 1;
      var u := PutAll(t, puts[..n]);
      BlobSurvivesExactly(t, puts[..n], p, bytes);
      NothingLeavesTheRoot(t, puts[..n]);
      if HoldsThroughout(t, puts[..n], p, bytes) {
        assert Holds(u, p, bytes);
        PutHarmsExactly(u, puts[n], p, bytes);
      }
    }
  }

  /** A blob keeps its bytes through any run of puts that neither write it nor use its name as
      their temporary name. */
  lemma {:induction false} BlobsSurvive(t: Tree, puts: seq<(string, Bytes)>, p: Path)
    requires p in t.files && forall i :: 0 <= i < |puts| ==> !Touches(puts[i], p)
    ensures p in PutAll(t, puts).files && PutAll(t, puts).files[p] == t.files[p]
  {
    if puts != [] {
      var n := |puts| - 1;
      BlobsSurvive(t, puts[..n], p);
      UntouchedSurvives(PutAll(t, puts[..n]), puts[n], p);
    }
  }

  lemma OneSegment(name: string)
    requires Safe(name)
    ensures Resolve(name) == Some([name]) && Above([name]) == {[]} && Temp([name]) == [name + ".tmp"]
  {
    ResolveIsStable([name]);
    TempIsBeside([name]);
    assert [name][..0] == [] && Parent([name]) == [];
    assert [] + [name + ".tmp"] == [name + ".tmp"];
  }

  lemma PlaceInRoot(t: Tree, tmp: Path, dest: Path, payload: Bytes)
    requires WellFormed(t) && tmp in t.files && tmp != dest && tmp != [] && dest != [] && dest !in t.dirs
    requires Above(dest) == {[]}
    ensures var (u, r) := Place(t, tmp, dest, payload);
      r.Ok? && tmp !in u.files && tmp !in u.dirs
  {
    assert [] !in t.files;
  }

  /** The exception is real: storing a name deletes the blob stored as that name with ".tmp". */
  lemma TempNameIsLost(t: Tree, name: string, payload: Bytes)
    requires WellFormed(t) && Safe(name) && [name + ".tmp"] in t.files && [name] !in t.dirs
    ensures Get(t, name + ".tmp") == Ok([name + ".tmp"])
    ensures var (u, r) := Put(t, name, payload);
      r.Ok? && Get(u, name + ".tmp") == Err(NotFound)
  {
    OneSegment(name);
    assert Safe(name + ".tmp") by { assert Safe([name + ".tmp"][0]); }
    OneSegment(name + ".tmp");
    assert [name + ".tmp"] != [name] by { assert |[name + ".tmp"][0]| != |[name][0]|; }
    PlaceInRoot(t, [name + ".tmp"], [name], payload);
  }

  /** A second way: where the name is a directory the put fails, and has overwritten the blob. */
  lemma TempNameIsOverwritten(t: Tree, name: string, payload: Bytes)
    requires WellFormed(t) && Safe(name) && [name + ".tmp"] in t.files && [name] in t.dirs
    ensures var (u, r) := Put(t, name, payload);
      r == Err(OsError) && Holds(u, [name + ".tmp"], payload)
  {
    var tmp, dest := [name + ".tmp"], [name];
    OneSegment(name);
    assert tmp != dest by { assert |tmp[0]| != |dest[0]|; }
    assert Parent(tmp) == [] && Parent(dest) == [];
    assert Parent(tmp) in t.dirs && tmp !in t.dirs;
    PlaceBeside(t, tmp, dest, payload);
    DirsAboveFile(t, dest);
    assert !MkdirFails(t, dest);
  }

  // ---------------------------------------------------------------- when a put succeeds

  lemma {:induction false} AboveMembers(p: Path, q: Path)
    ensures q in Above(p) <==> |q| < |p| && q == p[..|q|]
  {
    if p != [] {
      AboveMembers(Parent(p), q);
      if |q| < |p| - 1 {
        assert Parent(p)[..|q|] == p[..|q|];
      }
    }
  }

  // No file stands where a directory of the path should be.
  ghost predicate Passable(t: Tree, dest: Path) { forall k :: 0 <= k < |dest| ==> dest[..k] !in t.files }

  // The directories as they are once those of the path are made.
  ghost predicate DirsMadeFor(t: Tree, dest: Path, dirs: set<Path>) {
    forall q :: q in dirs <==> q in t.dirs || (|q| < |dest| && q == dest[..|q|])
  }

  lemma PassableExactly(t: Tree, dest: Path)
    ensures MkdirFails(t, dest) <==> !Passable(t, dest)
    ensures DirsMadeFor(t, dest, t.dirs + Above(dest))
  {
    forall q ensures q in Above(dest) <==> |q| < |dest| && q == dest[..|q|] {
      AboveMembers(dest, q);
    }
    if !Passable(t, dest) {
      var k :| 0 <= k < |dest| && dest[..k] in t.files;
      assert dest[..k] in Above(dest);
    }
  }

  /** A put succeeds if and only if its path has a segment, no file stands in the way of its
      directories, and neither the destination nor the destination with ".tmp" is a directory.
      What each kind of failure leaves behind is said too. */
  lemma PutExactly(t: Tree, relpath: string, payload: Bytes)
    ensures var (u, r) := Put(t, relpath, payload);
      if Segments(relpath) == [] then r == Err(InvalidRelpath) && u == t
      else
        && Resolve(relpath).Some? && Resolve(relpath).value != []
        && var dest := Resolve(relpath).value;
        var tmp := dest[..|dest| - 1] + [dest[|dest| - 1] + ".tmp"];
        if !Passable(t, dest) then r == Err(OsError) && u == t
        else
          && DirsMadeFor(t, dest, u.dirs)
          && if tmp in t.dirs then r == Err(OsError) && u.files == t.files
             else if dest in t.dirs then r == Err(OsError) && u.files == t.files[tmp := payload]
             else r == Ok(Stored(dest, |payload|)) && u.files == (t.files - {tmp})[dest := payload]
  {
    ResolveSpec(relpath);
    if Resolve(relpath).Some? {
      var dest := Resolve(relpath).value;
      PlaceExactly(t, dest, payload);
    }
  }

  lemma PlaceExactly(t: Tree, dest: Path, payload: Bytes)
    requires dest != []
    ensures var (u, r) := Place(t, Temp(dest), dest, payload);
      var tmp := dest[..|dest| - 1] + [dest[|dest| - 1] + ".tmp"];
      if !Passable(t, dest) then r == Err(OsError) && u == t
      else
        && DirsMadeFor(t, dest, u.dirs)
        && if tmp in t.dirs then r == Err(OsError) && u.files == t.files
           else if dest in t.dirs then r == Err(OsError) && u.files == t.files[tmp := payload]
           else r == Ok(Stored(dest, |payload|)) && u.files == (t.files - {tmp})[dest := payload]
  {
    TempIsBeside(dest);
    PassableExactly(t, dest);
    AboveMembers(dest, dest);
    AboveMembers(dest, Temp(dest));
    hide Temp, Above, Passable, DirsMadeFor, MkdirFails;
  }

  /** A get answers with the resolved path if and only if a file or directory is there. */
  lemma GetExactly(t: Tree, relpath: string)
    ensures Get(t, relpath) == Err(InvalidRelpath) <==> Segments(relpath) == []
    ensures Get(t, relpath).Ok? <==>
      Resolve(relpath).Some? && (Resolve(relpath).value in t.files || Resolve(relpath).value in t.dirs)
    ensures Get(t, relpath).Ok? ==> Get(t, relpath).value == Resolve(relpath).value
  {
    ResolveSpec(relpath);
  }
}
