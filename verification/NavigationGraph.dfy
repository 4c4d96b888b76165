// gst/observation.py: the navigation graph built from a replay log. Its sequence is a
// normal form: the log without repetitions of the page just left.

module NavigationGraph {
  import opened Collections

  // One line: blank, not JSON, JSON that is not an object (asking it for a key raises), an
  // object whose type is a list or an object (looking it up in a set raises), or any other
  // object, with a type and perhaps a textual url.
  datatype LogLine = Blank | Broken | NotAnObject | Unhashable | Record(kind: string, url: Option<string>)

  predicate Fatal(l: LogLine) { l == NotAnObject || l == Unhashable }
  datatype Edge = Edge(from: string, to: string)
  datatype Graph = Graph(nodes: seq<string>, edges: seq<Edge>, sequence: Option<seq<string>>)

  predicate Visit(l: LogLine) {
    l.Record? && (l.kind == "nav" || l.kind == "auth.state") && l.url.Some?
  }

  function Urls(lines: seq<LogLine>): seq<string> {
    if lines == [] then []
    else
      var n := |lines| - 1;
      if Visit(lines[n]) then Urls(lines[..n]) + [lines[n].url.value] else Urls(lines[..n])
  }

  // Drop what repeats its predecessor.
  function Destutter(urls: seq<string>): seq<string> {
    if urls == [] then []
    else
      var n := |urls| - 1;
      var s := Destutter(urls[..n]);
      if s == [] || s[|s| - 1] != urls[n] then s + [urls[n]] else s
  }

  function Edges(s: seq<string>): seq<Edge> {
    if |s| < 2 then [] else Edges(s[..|s| - 1]) + [Edge(s[|s| - 2], s[|s| - 1])]
  }

  // Code point order of strings.
  predicate Before(a: string, b: string) {
    a == [] || (b != [] && (a[0] < b[0] || (a[0] == b[0] && Before(a[1..], b[1..]))))
  }

  // First occurrences.
  function DistinctOf(s: seq<string>): seq<string> {
    if s == [] then []
    else
      var d := DistinctOf(s[..|s| - 1]);
      if s[|s| - 1] in d then d else d + [s[|s| - 1]]
  }

  function GraphOf(urls: seq<string>): Graph {
    var s := Destutter(urls);
    Graph(StableSort(Before, DistinctOf(s)), Edges(s), Some(s))
  }

  /** None is the uncaught error on a line that is JSON but not an object, or whose type is a
      list or an object. */
  method BuildGraphFromReplay(file: Option<seq<LogLine>>) returns (g: Option<Graph>)
    ensures g == None <==> file.Some? && (NotAnObject in file.value || Unhashable in file.value)
    ensures g.Some? ==> g.value == if file == None then Graph([], [], None) else GraphOf(Urls(file.value))
  {
    if file == None {
      return Some(Graph([], [], None));
    }
    var lines := file.value;
    var urls: seq<string> := [];
    for i := 0 to |lines|
      invariant urls == Urls(lines[..i]) && forall l :: l in lines[..i] ==> !Fatal(l)
    {
      assert lines[..i + 1] == lines[..i] + [lines[i]];
      assert lines[..i + 1][..i] == lines[..i];
      if Fatal(lines[i]) {
        return None;
      }
      if Visit(lines[i]) {
        urls := urls + [lines[i].url.value];
      }
    }
    assert lines[..|lines|] == lines;
    var s: seq<string> := [];
    for i := 0 to |urls|
      invariant s == Destutter(urls[..i])
    {
      assert urls[..i + 1][..i] == urls[..i];
      if s == [] || s[|s| - 1] != urls[i] {
        s := s + [urls[i]];
      }
    }
    assert urls[..|urls|] == urls;
    hide Urls, Destutter, DistinctOf, StableSort, Before;
    var edges: seq<Edge> := [];
    var i := 0;
    while i + 1 < |s|
      invariant i <= |s| && (s != [] ==> i < |s|)
      invariant edges == Edges(if s == [] then [] else s[..i + 1])
    {
      assert s[..i + 2][..i + 1] == s[..i + 1];
      edges := edges + [Edge(s[i], s[i + 1])];
      i := i + 1;
    }
    assert s != [] ==> s[..|s|] == s;
    g := Some(Graph(StableSort(Before, DistinctOf(s)), edges, Some(s)));
  }

  // ---------------------------------------------------------------- stuttering

  predicate StutterFree(s: seq<string>) {
    forall i :: 0 < i < |s| ==> s[i - 1] != s[i]
  }

  // l is s with every element repeated at least once in place.
  predicate Repeats(s: seq<string>, l: seq<string>) {
    if l == [] || s == [] then l == [] && s == []
    else
      var m, n := |s| - 1, |l| - 1;
      s[m] == l[n] && (Repeats(s, l[..n]) || Repeats(s[..m], l[..n]))
  }

  // Two logs say the same but for repetitions.
  ghost predicate StutterEquivalent(a: seq<string>, b: seq<string>) {
    exists s :: Repeats(s, a) && Repeats(s, b)
  }

  lemma {:induction false} DestutterRepeats(l: seq<string>)
    ensures StutterFree(Destutter(l)) && Repeats(Destutter(l), l)
  {
    if l != [] {
      var n := |l| - 1;
      var s := Destutter(l[..n]);
      DestutterRepeats(l[..n]);
      assert (s + [l[n]])[..|s|] == s;
    }
  }

  lemma {:induction false} RepeatsKeepsNormalForm(s: seq<string>, l: seq<string>)
    requires Repeats(s, l)
    ensures Destutter(l) == Destutter(s)
    decreases |l|
  {
    if l != [] {
      var m, n := |s| - 1, |l| - 1;
      if Repeats(s, l[..n]) {
        RepeatsKeepsNormalForm(s, l[..n]);
        DestutterLast(s);
      } else {
        RepeatsKeepsNormalForm(s[..m], l[..n]);
      }
    }
  }

  lemma {:induction false} DestutterLast(s: seq<string>)
    requires s != []
    ensures Destutter(s) != [] && Destutter(s)[|Destutter(s)| - 1] == s[|s| - 1]
  {
  }

  lemma StutterFreeSnoc(s: seq<string>, u: string)
    requires StutterFree(s + [u])
    ensures StutterFree(s) && (s != [] ==> s[|s| - 1] != u)
  {
    var l := s + [u];
    forall i | 0 < i < |s| ensures s[i - 1] != s[i] {
      assert l[i - 1] == s[i - 1] && l[i] == s[i];
    }
    if s != [] {
      assert l[|s| - 1] == s[|s| - 1] && l[|s|] == u;
    }
  }

  lemma {:induction false} StutterFreeIsFixed(s: seq<string>)
    requires StutterFree(s)
    ensures Destutter(s) == s
  {
    if s != [] {
      var front, last := s[..|s| - 1], s[|s| - 1];
      assert s == front + [last];
      StutterFreeSnoc(front, last);
      StutterFreeIsFixed(front);
    }
  }

  /** The sequence is the one stutter-free sequence that the log repeats. */
  lemma NormalFormIsUnique(l: seq<string>, s: seq<string>)
    ensures StutterFree(s) && Repeats(s, l) <==> s == Destutter(l)
  {
    DestutterRepeats(l);
    if StutterFree(s) && Repeats(s, l) {
      RepeatsKeepsNormalForm(s, l);
      StutterFreeIsFixed(s);
    }
  }

  /** Two logs have the same sequence if and only if they are stutter-equivalent. */
  lemma SequenceDecidesEquivalence(a: seq<string>, b: seq<string>)
    ensures Destutter(a) == Destutter(b) <==> StutterEquivalent(a, b)
  {
    DestutterRepeats(a);
    DestutterRepeats(b);
    if StutterEquivalent(a, b) {
      var s :| Repeats(s, a) && Repeats(s, b);
      RepeatsKeepsNormalForm(s, a);
      RepeatsKeepsNormalForm(s, b);
    }
  }

  // ---------------------------------------------------------------- edges and nodes

  // Follow the edges from the first one's origin.
  function Walk(edges: seq<Edge>): seq<string>
    requires edges != []
  {
    if |edges| == 1 then [edges[0].from, edges[0].to] else Walk(edges[..|edges| - 1]) + [edges[|edges| - 1].to]
  }

  /** Edge i leads from page i of the sequence to page i + 1. */
  lemma {:induction false} EdgesAre(s: seq<string>)
    ensures |Edges(s)| == if |s| < 2 then 0 else |s| - 1
    ensures forall i :: 0 <= i < |Edges(s)| ==> Edges(s)[i] == Edge(s[i], s[i + 1])
  {
    if |s| >= 2 {
      EdgesAre(s[..|s| - 1]);
    }
  }

  lemma {:induction false} WalkRebuilds(s: seq<string>)
    requires |s| >= 2
    ensures Edges(s) != [] && Walk(Edges(s)) == s
  {
    var n := |s| - 1;
    if n > 1 {
      WalkRebuilds(s[..n]);
      WalkSnoc(Edges(s[..n]), Edge(s[n - 1], s[n]));
      assert s == s[..n] + [s[n]];
    } else {
      assert Edges(s[..n]) == [];
      assert s == [s[0], s[1]];
    }
  }

  lemma WalkSnoc(edges: seq<Edge>, e: Edge)
    requires edges != []
    ensures Walk(edges + [e]) == Walk(edges) + [e.to]
  {
    assert (edges + [e])[..|edges|] == edges;
  }

  lemma {:induction false} BeforeIsOrder(a: string, b: string, c: string)
    ensures Before(a, b) || Before(b, a)
    ensures Before(a, b) && Before(b, a) ==> a == b
    ensures Before(a, b) && Before(b, c) ==> Before(a, c)
    decreases |a| + |b| + |c|
  {
    if a != [] && b != [] {
      BeforeIsOrder(a[1..], b[1..], if c == [] then [] else c[1..]);
      assert a == [a[0]] + a[1..] && b == [b[0]] + b[1..];
    }
  }

  lemma BeforeIsTotalPreorder()
    ensures TotalPreorder(Before)
  {
    forall x, y, z ensures (Before(x, y) || Before(y, x)) && (Before(x, y) && Before(y, z) ==> Before(x, z)) {
      BeforeIsOrder(x, y, z);
    }
  }

  predicate NoDuplicates(s: seq<string>) {
    forall i, j :: 0 <= i < j < |s| ==> s[i] != s[j]
  }

  lemma {:induction false} DistinctOfSpec(s: seq<string>)
    ensures NoDuplicates(DistinctOf(s))
    ensures forall x :: x in DistinctOf(s) <==> x in s
  {
    if s != [] {
      var n := |s| - 1;
      DistinctOfSpec(s[..n]);
      assert s == s[..n] + [s[n]];
    }
  }

  lemma SameMultisetNoDuplicates(a: seq<string>, b: seq<string>)
    requires multiset(a) == multiset(b) && NoDuplicates(a)
    ensures NoDuplicates(b)
  {
    forall i, j | 0 <= i < j < |b| ensures b[i] != b[j] {
      if b[i] == b[j] {
        TwiceInMultiset(b, i, j);
        OnceInMultiset(a, b[i]);
      }
    }
  }

  lemma TwiceInMultiset(s: seq<string>, i: nat, j: nat)
    requires i < j < |s| && s[i] == s[j]
    ensures multiset(s)[s[i]] >= 2
  {
    assert s == s[..j] + s[j..] && s[i] in s[..j] && s[j] in s[j..];
    assert multiset(s) == multiset(s[..j]) + multiset(s[j..]);
  }

  lemma {:induction false} OnceInMultiset(s: seq<string>, x: string)
    requires NoDuplicates(s)
    ensures multiset(s)[x] <= 1
  {
    if s != [] {
      var n := |s| - 1;
      OnceInMultiset(s[..n], x);
      assert s == s[..n] + [s[n]];
      CountSnoc(s[..n], s[n], x);
    }
  }

  /** The graph of a log: every edge moves, consecutive edges meet, the edges alone rebuild a
      sequence of two or more pages, and the nodes are its pages in strict order. */
  lemma GraphSpec(urls: seq<string>)
    ensures var g := GraphOf(urls); var s := Destutter(urls);
      && g.sequence == Some(s)
      && (forall e :: e in g.edges ==> e.from != e.to)
      && (forall i :: 0 < i < |g.edges| ==> g.edges[i - 1].to == g.edges[i].from)
      && (|s| >= 2 ==> g.edges != [] && Walk(g.edges) == s)
      && (forall x :: x in g.nodes <==> x in s)
      && (forall x :: x in s <==> x in urls)
      && Sorted(Before, g.nodes) && NoDuplicates(g.nodes)
  {
    hide Walk, DistinctOf, StableSort, Before;
    var s := Destutter(urls);
    DestutterRepeats(urls);
    EdgesAre(s);
    if |s| >= 2 {
      WalkRebuilds(s);
    }
    NodesSpec(s);
    DestutterMembers(urls);
  }

  lemma NodesSpec(s: seq<string>)
    ensures var nodes := StableSort(Before, DistinctOf(s));
      Sorted(Before, nodes) && NoDuplicates(nodes) && forall x :: x in nodes <==> x in s
  {
    BeforeIsTotalPreorder();
    DistinctOfSpec(s);
    StableSortSpec(Before, DistinctOf(s));
    SameMultisetSameElements(StableSort(Before, DistinctOf(s)), DistinctOf(s));
    SameMultisetNoDuplicates(DistinctOf(s), StableSort(Before, DistinctOf(s)));
  }

  lemma {:induction false} DestutterMembers(l: seq<string>)
    ensures forall x :: x in Destutter(l) <==> x in l
  {
    if l != [] {
      var n := |l| - 1;
      DestutterMembers(l[..n]);
      assert l == l[..n] + [l[n]];
    }
  }

  // ---------------------------------------------------------------- which lines count, and how

  lemma {:induction false} UrlsOfConcat(a: seq<LogLine>, b: seq<LogLine>)
    ensures Urls(a + b) == Urls(a) + Urls(b)
  {
    if b == [] {
      assert a + b == a;
    } else {
      var n := |b| - 1;
      UrlsOfConcat(a, b[..n]);
      assert (a + b)[..|a| + n] == a + b[..n];
    }
  }

  /** Each line adds its own pages behind those of the lines before it: its url if it is an
      object of type "nav" or "auth.state" with a textual url, and nothing otherwise. */
  lemma VisitsExactly(before: seq<LogLine>, l: LogLine, after: seq<LogLine>)
    ensures Urls(before + [l] + after)
      == Urls(before)
      + (match l
         case Record(kind, Some(url)) => if kind in {"nav", "auth.state"} then [url] else []
         case _ => [])
      + Urls(after)
  {
    UrlsOfConcat(before + [l], after);
    UrlsOfConcat(before, [l]);
    assert [l][..0] == [];
  }

  // The first difference of two strings is at k.
  predicate DifferAt(a: string, b: string, k: nat) { k < |a| && k < |b| && a[..k] == b[..k] && a[k] != b[k] }

  lemma DifferLater(a: string, b: string, k: nat)
    requires a != [] && b != [] && a[0] == b[0]
    ensures DifferAt(a[1..], b[1..], k) <==> DifferAt(a, b, k + 1)
  {
    var x, y := a[1..], b[1..];
    if k < |x| && k < |y| {
      assert a[..k + 1] == [a[0]] + x[..k] && b[..k + 1] == [b[0]] + y[..k];
      assert a[..k + 1][1..] == x[..k] && b[..k + 1][1..] == y[..k];
    }
  }

  lemma {:induction false} PrefixIsBefore(a: string, b: string)
    requires a <= b
    ensures Before(a, b)
  {
    if a != [] {
      PrefixIsBefore(a[1..], b[1..]);
    }
  }

  lemma {:induction false} DifferenceDecides(a: string, b: string, k: nat)
    requires DifferAt(a, b, k)
    ensures Before(a, b) <==> a[k] < b[k]
    decreases k
  {
    if k > 0 {
      assert a[0] == a[..k][0] && b[0] == b[..k][0];
      DifferLater(a, b, k - 1);
      DifferenceDecides(a[1..], b[1..], k - 1);
    }
  }

  /** The nodes are ordered as Python orders strings: a prefix comes first, and otherwise the
      first character that differs decides. */
  lemma {:induction false} BeforeExactly(a: string, b: string)
    ensures Before(a, b) <==> a <= b || exists k: nat :: DifferAt(a, b, k) && a[k] < b[k]
  {
    if a <= b {
      PrefixIsBefore(a, b);
    } else if k: nat :| DifferAt(a, b, k) && a[k] < b[k] {
      DifferenceDecides(a, b, k);
    } else if Before(a, b) {
      if a[0] == b[0] {
        BeforeExactly(a[1..], b[1..]);
        assert a == [a[0]] + a[1..] && b == [b[0]] + b[1..];
        var k: nat :| DifferAt(a[1..], b[1..], k) && a[1..][k] < b[1..][k];
        DifferLater(a, b, k);
      } else {
        assert DifferAt(a, b, 0);
      }
      assert false;
    }
  }
}
