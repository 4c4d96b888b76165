// Shared vocabulary: an optional value, and Python's stable `list.sort`.

module Collections {
  datatype Option<+T> = None | Some(value: T)

  ghost predicate TotalPreorder<T(!new)>(le: (T, T) -> bool) {
    && (forall x, y :: le(x, y) || le(y, x))
    && (forall x, y, z :: le(x, y) && le(y, z) ==> le(x, z))
  }

  ghost predicate Sorted<T>(le: (T, T) -> bool, s: seq<T>) {
    forall i, j :: 0 <= i < j < |s| ==> le(s[i], s[j])
  }

  // The elements of s that compare equal to x, in the order they have in s.
  ghost function Ties<T>(le: (T, T) -> bool, x: T, s: seq<T>): seq<T> {
    if s == [] then []
    else (if le(x, s[0]) && le(s[0], x) then [s[0]] else []) + Ties(le, x, s[1..])
  }

  function Insert<T>(le: (T, T) -> bool, x: T, s: seq<T>): seq<T> {
    if s == [] || le(x, s[0]) then [x] + s else [s[0]] + Insert(le, x, s[1..])
  }

  // `list.sort(key=...)`: ordered by le, equal elements keep their order.
  function StableSort<T>(le: (T, T) -> bool, s: seq<T>): seq<T> {
    if s == [] then [] else Insert(le, s[0], StableSort(le, s[1..]))
  }

  lemma {:induction false} InsertMembers<T>(le: (T, T) -> bool, x: T, s: seq<T>)
    ensures multiset(Insert(le, x, s)) == multiset{x} + multiset(s)
    ensures forall y :: y in Insert(le, x, s) <==> y == x || y in s
  {
    if s == [] || le(x, s[0]) {
      assert multiset([x] + s) == multiset{x} + multiset(s);
    } else {
      InsertMembers(le, x, s[1..]);
      assert s == [s[0]] + s[1..];
    }
  }

  lemma {:induction false} InsertIsOrdered<T(!new)>(le: (T, T) -> bool, x: T, s: seq<T>)
    requires TotalPreorder(le) && Sorted(le, s)
    ensures Sorted(le, Insert(le, x, s))
  {
    if s == [] {
    } else if le(x, s[0]) {
      FirstIsLeast(le, x, s);
    } else {
      InsertIsOrdered(le, x, s[1..]);
      InsertMembers(le, x, s[1..]);
      FirstIsLeast(le, s[0], Insert(le, x, s[1..]));
    }
  }

  lemma FirstIsLeast<T(!new)>(le: (T, T) -> bool, x: T, s: seq<T>)
    requires TotalPreorder(le) && Sorted(le, s)
    requires s != [] ==> le(x, s[0]) || forall y :: y in s ==> le(x, y)
    ensures Sorted(le, [x] + s)
  {
    forall i | 0 <= i < |s| ensures le(x, s[i]) {
      assert s[i] in s && (i > 0 ==> le(s[0], s[i]));
    }
  }

  lemma {:induction false} InsertKeepsTies<T(!new)>(le: (T, T) -> bool, x: T, s: seq<T>, t: T)
    requires TotalPreorder(le)
    ensures Ties(le, t, Insert(le, x, s)) == Ties(le, t, [x] + s)
  {
    if s == [] || le(x, s[0]) {
    } else {
      InsertKeepsTies(le, x, s[1..], t);
      assert ([x] + s)[1..] == s && ([x] + s[1..])[1..] == s[1..];
      assert Insert(le, x, s)[1..] == Insert(le, x, s[1..]);
    }
  }

  /** Sorting orders the list, loses and invents nothing, and is stable. */
  lemma {:induction false} StableSortSpec<T(!new)>(le: (T, T) -> bool, s: seq<T>)
    requires TotalPreorder(le)
    ensures Sorted(le, StableSort(le, s))
    ensures multiset(StableSort(le, s)) == multiset(s)
    ensures |StableSort(le, s)| == |s|
    ensures forall t :: Ties(le, t, StableSort(le, s)) == Ties(le, t, s)
  {
    if s != [] {
      StableSortSpec(le, s[1..]);
      InsertIsOrdered(le, s[0], StableSort(le, s[1..]));
      InsertMembers(le, s[0], StableSort(le, s[1..]));
      assert s == [s[0]] + s[1..];
      assert |multiset(StableSort(le, s))| == |multiset(s)|;
      forall t ensures Ties(le, t, StableSort(le, s)) == Ties(le, t, s) {
        var rest := StableSort(le, s[1..]);
        InsertKeepsTies(le, s[0], rest, t);
        assert ([s[0]] + rest)[1..] == rest;
      }
    }
  }

  lemma SameMultisetSameElements<T>(a: seq<T>, b: seq<T>)
    requires multiset(a) == multiset(b)
    ensures forall x :: x in a <==> x in b
  {
    forall x ensures x in a <==> x in b {
      assert x in a <==> x in multiset(a);
      assert x in b <==> x in multiset(b);
    }
  }

  lemma CountSnoc<T>(s: seq<T>, x: T, y: T)
    ensures multiset(s + [x])[y] == multiset(s)[y] + if x == y then 1 else 0
  {
    assert multiset(s + [x]) == multiset(s) + multiset{x};
  }

  lemma NoMembersMeansEmpty<T>(s: seq<T>)
    ensures (forall x :: x !in s) ==> s == []
  {
    if s != [] {
      assert s[0] in s;
    }
  }

  // `sorted(s)` of a set of naturals, ascending.
  predicate IsLeast(m: nat, s: set<nat>) {
    m in s && forall x :: x in s ==> m <= x
  }

  lemma {:induction false} LeastExists(s: set<nat>)
    requires s != {}
    ensures exists m :: IsLeast(m, s)
  {
    var m :| m in s;
    var rest := s - {m};
    assert s == rest + {m};
    if rest == {} {
      assert IsLeast(m, s);
    } else {
      LeastExists(rest);
      var k :| IsLeast(k, rest);
      assert IsLeast(if m < k then m else k, s);
    }
  }

  function Least(s: set<nat>): (m: nat)
    requires s != {}
    ensures IsLeast(m, s)
  {
    LeastExists(s);
    var m :| IsLeast(m, s);
    m
  }

  function Ascending(s: set<nat>): (r: seq<nat>)
    ensures forall x :: x in r <==> x in s
  {
    if s == {} then [] else [Least(s)] + Ascending(s - {Least(s)})
  }

  lemma {:induction false} AscendingIsSorted(s: set<nat>)
    ensures forall i, j :: 0 <= i < j < |Ascending(s)| ==> Ascending(s)[i] < Ascending(s)[j]
  {
    if s != {} {
      var rest := Ascending(s - {Least(s)});
      AscendingIsSorted(s - {Least(s)});
      forall j | 0 <= j < |rest| ensures Least(s) < rest[j] {
        assert rest[j] in rest;
      }
    }
  }
}
