// storage/sanitize.py: turning any string into one safe path segment, and the part of
// storage/local_store.py that turns a relative path into safe segments.

module Sanitize {
  import opened Collections

  predicate Alnum(c: char) { 'a' <= c <= 'z' || 'A' <= c <= 'Z' || '0' <= c <= '9' }

  predicate Edge(c: char) { c == '.' || c == '_' || c == '-' }

  // [a-zA-Z0-9._-]
  predicate Allowed(c: char) { Alnum(c) || Edge(c) }

  predicate Slash(c: char) { c == '/' || c == '\\' }

  // The characters that `str.strip()` removes.
  predicate Space(c: char) {
    || '\t' <= c <= '\r' || '\U{1C}' <= c <= ' ' || c == '\U{85}' || c == '\U{A0}' || c == '\U{1680}'
    || '\U{2000}' <= c <= '\U{200A}' || c == '\U{2028}' || c == '\U{2029}' || c == '\U{202F}'
    || c == '\U{205F}' || c == '\U{3000}'
  }

  function LStrip(p: char -> bool, s: string): string {
    if s != "" && p(s[0]) then LStrip(p, s[1..]) else s
  }

  function RStrip(p: char -> bool, s: string): string {
    if s != "" && p(s[|s| - 1]) then RStrip(p, s[..|s| - 1]) else s
  }

  function Strip(p: char -> bool, s: string): string { RStrip(p, LStrip(p, s)) }

  // replace("/", "_").replace("\\", "_")
  function Underscored(s: string): string {
    if s == "" then "" else [if Slash(s[0]) then '_' else s[0]] + Underscored(s[1..])
  }

  // Each maximal run of other characters becomes one "_".
  function Collapsed(s: string, inRun: bool): string {
    if s == "" then "" else Shown(s[0], inRun) + Collapsed(s[1..], !Allowed(s[0]))
  }

  function Shown(c: char, inRun: bool): string {
    if Allowed(c) then [c] else if inRun then "" else "_"
  }

  function Cleaned(s: string): string { Strip(Edge, Collapsed(Underscored(s), false)) }

  function SafeSegment(value: string): string {
    var v := Cleaned(Strip(Space, value));
    if v == "" then "unknown" else v
  }

  // What a safe segment is, independently of how one is made.
  predicate Safe(s: string) {
    && s != ""
    && (forall i :: 0 <= i < |s| ==> Allowed(s[i]))
    && !Edge(s[0]) && !Edge(s[|s| - 1])
  }

  // ---------------------------------------------------------------- stripping

  lemma {:induction false} LStripSpec(p: char -> bool, s: string)
    ensures |LStrip(p, s)| <= |s| && LStrip(p, s) == s[|s| - |LStrip(p, s)|..]
    ensures LStrip(p, s) != "" ==> !p(LStrip(p, s)[0])
  {
    if s != "" && p(s[0]) {
      LStripSpec(p, s[1..]);
    }
  }

  lemma {:induction false} RStripSpec(p: char -> bool, s: string)
    ensures |RStrip(p, s)| <= |s| && RStrip(p, s) == s[..|RStrip(p, s)|]
    ensures RStrip(p, s) != "" ==> !p(RStrip(p, s)[|RStrip(p, s)| - 1])
  {
    if s != "" && p(s[|s| - 1]) {
      RStripSpec(p, s[..|s| - 1]);
    }
  }

  lemma StripSpec(p: char -> bool, s: string)
    ensures var r := Strip(p, s);
      && (r != "" ==> !p(r[0]) && !p(r[|r| - 1]))
      && (forall c :: c in r ==> c in s)
  {
    LStripSpec(p, s);
    RStripSpec(p, LStrip(p, s));
  }

  lemma {:induction false} CollapsedIsAllowed(s: string, inRun: bool)
    ensures forall i :: 0 <= i < |Collapsed(s, inRun)| ==> Allowed(Collapsed(s, inRun)[i])
  {
    if s != "" {
      CollapsedIsAllowed(s[1..], !Allowed(s[0]));
    }
  }

  lemma {:induction false} AllowedIsKept(s: string)
    requires forall i :: 0 <= i < |s| ==> Allowed(s[i])
    ensures Underscored(s) == s && Collapsed(s, false) == s
  {
    if s != "" {
      AllowedIsKept(s[1..]);
      assert s == [s[0]] + s[1..];
    }
  }

  lemma ResultIsSafe(value: string)
    ensures Safe(SafeSegment(value))
  {
    var c := Collapsed(Underscored(Strip(Space, value)), false);
    var v := Strip(Edge, c);
    CollapsedIsAllowed(Underscored(Strip(Space, value)), false);
    StripSpec(Edge, c);
    forall i | 0 <= i < |v| ensures Allowed(v[i]) {
      assert v[i] in v;
    }
  }

  /** The fixed points are exactly the safe segments: non-empty, over [A-Za-z0-9._-], with
      neither end one of ".", "_", "-". */
  lemma FixedPointsAreSafe(value: string)
    ensures SafeSegment(value) == value <==> Safe(value)
  {
    ResultIsSafe(value);
    if Safe(value) {
      assert Strip(Space, value) == value;
      AllowedIsKept(value);
      assert Strip(Edge, value) == value;
    }
  }

  /** Sanitizing twice is sanitizing once. */
  lemma Idempotent(value: string)
    ensures SafeSegment(SafeSegment(value)) == SafeSegment(value)
  {
    ResultIsSafe(value);
    FixedPointsAreSafe(SafeSegment(value));
  }

  /** A safe segment names an entry of its directory and nothing else. */
  lemma NoTraversal(value: string)
    ensures var r := SafeSegment(value); r != "." && r != ".." && '/' !in r && '\\' !in r
  {
    ResultIsSafe(value);
    var r := SafeSegment(value);
    assert !Edge(r[0]);
    assert !Allowed('/') && !Allowed('\\');
  }

  // ---------------------------------------------------------------- what survives

  function Kept(s: string): string {
    if s == "" then "" else if Alnum(s[0]) then [s[0]] + Kept(s[1..]) else Kept(s[1..])
  }

  lemma {:induction false} KeptOfConcat(a: string, b: string)
    ensures Kept(a + b) == Kept(a) + Kept(b)
  {
    if a == "" {
      assert a + b == b;
    } else {
      KeptOfConcat(a[1..], b);
      assert (a + b)[1..] == a[1..] + b && (a + b)[0] == a[0];
    }
  }

  predicate StripsNoAlnum(p: char -> bool) { forall c :: p(c) ==> !Alnum(c) }

  lemma {:induction false} KeptOfLStrip(p: char -> bool, s: string)
    requires StripsNoAlnum(p)
    ensures Kept(LStrip(p, s)) == Kept(s)
  {
    if s != "" && p(s[0]) {
      KeptOfLStrip(p, s[1..]);
    }
  }

  lemma {:induction false} KeptOfRStrip(p: char -> bool, s: string)
    requires StripsNoAlnum(p)
    ensures Kept(RStrip(p, s)) == Kept(s)
  {
    if s != "" && p(s[|s| - 1]) {
      KeptOfRStrip(p, s[..|s| - 1]);
      KeptOfConcat(s[..|s| - 1], [s[|s| - 1]]);
      assert s == s[..|s| - 1] + [s[|s| - 1]];
    }
  }

  lemma {:induction false} KeptOfCollapsed(s: string, inRun: bool)
    ensures Kept(Collapsed(Underscored(s), inRun)) == Kept(s)
  {
    if s != "" {
      var u := Underscored(s);
      assert u[1..] == Underscored(s[1..]);
      KeptOfCollapsed(s[1..], !Allowed(u[0]));
      var r := Collapsed(u[1..], !Allowed(u[0]));
      KeptOfConcat(Shown(u[0], inRun), r);
      assert "_"[1..] == "" && [u[0]][1..] == "";
    }
  }

  lemma {:induction false} NothingKept(s: string)
    requires Kept(s) == ""
    ensures forall i :: 0 <= i < |s| ==> !Alnum(s[i])
  {
    if s != "" {
      NothingKept(s[1..]);
    }
  }

  /** Letters and digits survive, in order, and nothing else identifies the result when there
      are none: it is then "unknown". */
  lemma LettersAndDigitsSurvive(value: string)
    ensures if Kept(value) == "" then SafeSegment(value) == "unknown" else Kept(SafeSegment(value)) == Kept(value)
  {
    var s := Strip(Space, value);
    KeptOfLStrip(Space, value);
    KeptOfRStrip(Space, LStrip(Space, value));
    var c := Collapsed(Underscored(s), false);
    KeptOfCollapsed(s, false);
    KeptOfLStrip(Edge, c);
    KeptOfRStrip(Edge, LStrip(Edge, c));
    if Kept(value) == "" {
      ResultIsSafe(value);
      NothingKept(Cleaned(s));
    }
  }

  // ---------------------------------------------------------------- what is forgotten

  lemma {:induction false} UnderscoredOfConcat(a: string, b: string)
    ensures Underscored(a + b) == Underscored(a) + Underscored(b)
  {
    if a == "" {
      assert a + b == b;
    } else {
      UnderscoredOfConcat(a[1..], b);
      assert (a + b)[1..] == a[1..] + b;
    }
  }

  predicate EndsInRun(s: string, inRun: bool) { if s == "" then inRun else !Allowed(s[|s| - 1]) }

  lemma {:induction false} CollapsedOfConcat(a: string, b: string, inRun: bool)
    ensures Collapsed(a + b, inRun) == Collapsed(a, inRun) + Collapsed(b, EndsInRun(a, inRun))
  {
    if a == "" {
      assert a + b == b;
    } else {
      CollapsedOfConcat(a[1..], b, !Allowed(a[0]));
      EndsInRunRest(a, inRun);
      assert (a + b)[1..] == a[1..] + b && (a + b)[0] == a[0];
      Associate(Shown(a[0], inRun), Collapsed(a[1..], !Allowed(a[0])), Collapsed(b, EndsInRun(a, inRun)));
    }
  }

  lemma Associate(a: string, b: string, c: string)
    ensures a + (b + c) == (a + b) + c
  {
  }

  lemma EndsInRunRest(a: string, inRun: bool)
    requires a != ""
    ensures EndsInRun(a, inRun) == EndsInRun(a[1..], !Allowed(a[0]))
  {
  }

  predicate Run(r: string) { r != "" && forall i :: 0 <= i < |r| ==> !Allowed(r[i]) && !Slash(r[i]) }

  lemma {:induction false} CollapsedRun(r: string, inRun: bool)
    requires forall i :: 0 <= i < |r| ==> !Allowed(r[i]) && !Slash(r[i])
    ensures Underscored(r) == r
    ensures Collapsed(r, inRun) == if inRun || r == "" then "" else "_"
  {
    if r != "" {
      CollapsedRun(r[1..], true);
      assert r == [r[0]] + r[1..];
    }
  }

  lemma RunsCollapseAlike(a: string, r: string, q: string, b: string)
    requires Run(r) && Run(q)
    ensures Cleaned(a + r + b) == Cleaned(a + q + b)
  {
    UnderscoredRun(a, r, b);
    UnderscoredRun(a, q, b);
  }

  lemma UnderscoredRun(a: string, r: string, b: string)
    requires Run(r)
    ensures Collapsed(Underscored(a + r + b), false)
      == Collapsed(Underscored(a), false)
      + (if EndsInRun(Underscored(a), false) then "" else "_") + Collapsed(Underscored(b), true)
  {
    var u := Underscored(a);
    UnderscoredOfConcat(a + r, b);
    UnderscoredOfConcat(a, r);
    CollapsedRun(r, EndsInRun(u, false));
    CollapsedOfConcat(u + r, Underscored(b), false);
    CollapsedOfConcat(u, r, false);
    assert (u + r)[|u + r| - 1] == r[|r| - 1];
  }

  // Leading and trailing edge characters do not matter to the final strip.
  lemma {:induction false} LStripOfConcat(p: char -> bool, a: string, b: string)
    ensures LStrip(p, a + b) == if LStrip(p, a) == "" then LStrip(p, b) else LStrip(p, a) + b
  {
    if a == "" {
      assert a + b == b;
    } else if p(a[0]) {
      LStripOfConcat(p, a[1..], b);
      assert (a + b)[1..] == a[1..] + b;
    }
  }

  lemma {:induction false} RStripOfConcat(p: char -> bool, a: string, b: string)
    ensures RStrip(p, a + b) == if RStrip(p, b) == "" then RStrip(p, a) else a + RStrip(p, b)
  {
    if b == "" {
      assert a + b == a;
    } else if p(b[|b| - 1]) {
      var n := |b| - 1;
      RStripOfConcat(p, a, b[..n]);
      assert (a + b)[..|a| + n] == a + b[..n];
    }
  }

  lemma EdgeInFront(x: string)
    ensures Strip(Edge, "_" + x) == Strip(Edge, x)
  {
    assert ("_" + x)[1..] == x;
  }

  lemma EdgeBehind(x: string)
    ensures Strip(Edge, x + "_") == Strip(Edge, x)
  {
    LStripOfConcat(Edge, x, "_");
    RStripOfConcat(Edge, LStrip(Edge, x), "_");
    assert "_"[..0] == "" && "_"[1..] == "";
  }

  // Entering a string inside a run costs at most one leading "_".
  lemma CollapsedInRun(s: string)
    ensures Strip(Edge, Collapsed(s, true)) == Strip(Edge, Collapsed(s, false))
  {
    if s != "" && !Allowed(s[0]) {
      var rest := Collapsed(s[1..], true);
      assert "" + rest == rest;
      EdgeInFront(rest);
    }
  }

  lemma {:induction false} LeadingSpaceIsIgnored(s: string)
    ensures Cleaned(LStrip(Space, s)) == Cleaned(s)
  {
    if s != "" && Space(s[0]) {
      LeadingSpaceIsIgnored(s[1..]);
      var u := Underscored(s);
      assert u == [s[0]] + Underscored(s[1..]) && u[1..] == Underscored(s[1..]);
      EdgeInFront(Collapsed(u[1..], true));
      CollapsedInRun(u[1..]);
    }
  }

  lemma {:induction false} TrailingSpaceIsIgnored(s: string)
    ensures Cleaned(RStrip(Space, s)) == Cleaned(s)
  {
    if s != "" && Space(s[|s| - 1]) {
      var a, r := s[..|s| - 1], [s[|s| - 1]];
      TrailingSpaceIsIgnored(a);
      assert s == a + r + "";
      UnderscoredRun(a, r, "");
      var x := Collapsed(Underscored(a), false);
      EdgeBehind(x);
      assert x + "_" + "" == x + "_" && x + "" + "" == x;
    }
  }

  /** The initial strip never matters. */
  lemma FirstStripIsRedundant(value: string)
    ensures Cleaned(Strip(Space, value)) == Cleaned(value)
  {
    LeadingSpaceIsIgnored(value);
    TrailingSpaceIsIgnored(LStrip(Space, value));
  }

  /** How long a run of other characters is, and which characters it holds, never matters. */
  lemma RunsAreForgotten(a: string, r: string, q: string, b: string)
    requires Run(r) && Run(q)
    ensures SafeSegment(a + r + b) == SafeSegment(a + q + b)
  {
    FirstStripIsRedundant(a + r + b);
    FirstStripIsRedundant(a + q + b);
    RunsCollapseAlike(a, r, q, b);
  }

  predicate Slashes(m: string) { forall i :: 0 <= i < |m| ==> m[i] == '/' || m[i] == '\\' }

  function Repeat(c: char, n: nat): string { seq(n, i => c) }

  lemma {:induction false} UnderscoredSlashes(m: string)
    requires Slashes(m)
    ensures Underscored(m) == Repeat('_', |m|)
  {
    if m != "" {
      UnderscoredSlashes(m[1..]);
    }
  }

  lemma CollapsedBetween(a: string, m: string, b: string)
    requires Safe(a) && Safe(b)
    ensures Collapsed(Underscored(a + m + b), false) == a + Collapsed(Underscored(m), false) + b
  {
    hide Strip;
    var u := Underscored(m);
    AllowedIsKept(a);
    AllowedIsKept(b);
    UnderscoredOfConcat(a + m, b);
    UnderscoredOfConcat(a, m);
    CollapsedOfConcat(a + u, b, false);
    CollapsedOfConcat(a, u, false);
    FirstIsShown(b, EndsInRun(a + u, false));
  }

  lemma NothingToStrip(p: char -> bool, a: string, m: string, b: string)
    requires a != "" && !p(a[0]) && b != "" && !p(b[|b| - 1])
    ensures Strip(p, a + m + b) == a + m + b
  {
    var s := a + m + b;
    assert s[0] == a[0] && s[|s| - 1] == b[|b| - 1];
  }

  // Between two safe segments nothing but what stands between them is rewritten.
  lemma CleanedBetween(a: string, m: string, b: string)
    requires Safe(a) && Safe(b)
    ensures SafeSegment(a + m + b) == a + Collapsed(Underscored(m), false) + b
  {
    hide Collapsed, Underscored, Strip;
    CollapsedBetween(a, m, b);
    NothingToStrip(Space, a, m, b);
    NothingToStrip(Edge, a, Collapsed(Underscored(m), false), b);
  }

  lemma FirstIsShown(b: string, inRun: bool)
    requires b != "" && Allowed(b[0])
    ensures Collapsed(b, inRun) == Collapsed(b, false)
  {
  }

  /** Between safe segments each slash, of either kind, becomes one underscore, and a run of
      other characters becomes one however long it is. */
  lemma SeparatorsExactly(a: string, m: string, b: string)
    requires Safe(a) && Safe(b)
    ensures Slashes(m) ==> SafeSegment(a + m + b) == a + Repeat('_', |m|) + b
    ensures Run(m) ==> SafeSegment(a + m + b) == a + "_" + b
  {
    CleanedBetween(a, m, b);
    if Slashes(m) {
      UnderscoredSlashes(m);
      AllowedIsKept(Repeat('_', |m|));
    }
    if Run(m) {
      CollapsedRun(m, false);
    }
  }

  /** The alphabet, letter by letter: what a segment must be to be left alone. */
  lemma AlphabetExactly(value: string)
    ensures SafeSegment(value) == value <==>
      && value != ""
      && (forall i :: 0 <= i < |value| ==>
            'a' <= value[i] <= 'z' || 'A' <= value[i] <= 'Z' || '0' <= value[i] <= '9' || value[i] in "._-")
      && value[0] !in "._-" && value[|value| - 1] !in "._-"
  {
    FixedPointsAreSafe(value);
    assert forall c: char :: c in "._-" <==> Edge(c);
  }

  // ---------------------------------------------------------------- relative paths

  // s.split(sep), for one separator character.
  function Split(s: string, sep: char): (r: seq<string>)
    ensures r != []
  {
    if s == "" then [""]
    else
      var rest := Split(s[1..], sep);
      if s[0] == sep then [""] + rest else [[s[0]] + rest[0]] + rest[1..]
  }

  function Joined(parts: seq<string>, sep: char): string {
    if parts == [] then ""
    else if |parts| == 1 then parts[0]
    else parts[0] + [sep] + Joined(parts[1..], sep)
  }

  lemma JoinedWithHead(a: string, rest: seq<string>, sep: char)
    requires rest != []
    ensures Joined([a] + rest, sep) == a + [sep] + Joined(rest, sep)
    ensures Joined([a + rest[0]] + rest[1..], sep) == a + Joined(rest, sep)
  {
    assert ([a] + rest)[1..] == rest;
    assert ([a + rest[0]] + rest[1..])[1..] == rest[1..];
    if |rest| > 1 {
      assert (a + rest[0]) + [sep] + Joined(rest[1..], sep) == a + (rest[0] + [sep] + Joined(rest[1..], sep));
    }
  }

  /** Splitting and joining are inverse: joining what was split gives the string back, and
      splitting a join of separator-free parts gives the parts back. */
  lemma {:induction false} JoinOfSplit(s: string, sep: char)
    ensures Joined(Split(s, sep), sep) == s
    ensures forall i :: 0 <= i < |Split(s, sep)| ==> sep !in Split(s, sep)[i]
  {
    if s != "" {
      JoinOfSplit(s[1..], sep);
      var rest := Split(s[1..], sep);
      assert s == [s[0]] + s[1..];
      if s[0] == sep {
        JoinedWithHead("", rest, sep);
      } else {
        JoinedWithHead([s[0]], rest, sep);
      }
    }
  }

  lemma {:induction false} SplitOfPrefix(a: string, b: string, sep: char)
    requires sep !in a
    ensures Split(a + [sep] + b, sep) == [a] + Split(b, sep)
    ensures Split(a, sep) == [a]
  {
    if a == "" {
      assert (a + [sep] + b)[1..] == b;
    } else {
      SplitOfPrefix(a[1..], b, sep);
      assert (a + [sep] + b)[1..] == a[1..] + [sep] + b;
      assert a == [a[0]] + a[1..];
    }
  }

  lemma {:induction false} SplitOfJoin(parts: seq<string>, sep: char)
    requires parts != [] && forall i :: 0 <= i < |parts| ==> sep !in parts[i]
    ensures Split(Joined(parts, sep), sep) == parts
  {
    assert parts == [parts[0]] + parts[1..];
    if |parts| == 1 {
      SplitOfPrefix(parts[0], "", sep);
    } else {
      SplitOfJoin(parts[1..], sep);
      SplitOfPrefix(parts[0], Joined(parts[1..], sep), sep);
    }
  }

  // replace("\\", "/")
  function Slashed(s: string): string {
    if s == "" then "" else [if s[0] == '\\' then '/' else s[0]] + Slashed(s[1..])
  }

  function NonEmpty(parts: seq<string>): seq<string> {
    if parts == [] then [] else if parts[0] == "" then NonEmpty(parts[1..]) else [parts[0]] + NonEmpty(parts[1..])
  }

  function SafeSegments(parts: seq<string>): seq<string> {
    if parts == [] then [] else [SafeSegment(parts[0])] + SafeSegments(parts[1..])
  }

  function Segments(relpath: string): seq<string> { NonEmpty(Split(Slashed(relpath), '/')) }

  // `_resolve`, relative to the root; None is the StorageError.
  function Resolve(relpath: string): Option<seq<string>> {
    var parts := SafeSegments(Segments(relpath));
    if parts == [] then None else Some(parts)
  }

  lemma {:induction false} SlashedOfConcat(a: string, b: string)
    ensures Slashed(a + b) == Slashed(a) + Slashed(b)
  {
    if a == "" {
      assert a + b == b;
    } else {
      SlashedOfConcat(a[1..], b);
      assert (a + b)[1..] == a[1..] + b;
    }
  }

  lemma HeadOfConcat(c: char, rest: seq<string>, others: seq<string>)
    requires rest != []
    ensures [[c] + (rest + others)[0]] + (rest + others)[1..] == ([[c] + rest[0]] + rest[1..]) + others
    ensures [""] + (rest + others) == ([""] + rest) + others
  {
  }

  lemma {:induction false} SplitOfConcat(a: string, b: string, sep: char)
    ensures Split(a + [sep] + b, sep) == Split(a, sep) + Split(b, sep)
  {
    if a == "" {
      assert (a + [sep] + b)[1..] == b;
    } else {
      var all, rest := a + [sep] + b, Split(a[1..], sep);
      SplitOfConcat(a[1..], b, sep);
      assert all[1..] == a[1..] + [sep] + b && all[0] == a[0];
      HeadOfConcat(a[0], rest, Split(b, sep));
    }
  }

  lemma NonEmptyOfCons(part: string, rest: seq<string>)
    ensures NonEmpty([part] + rest) == (if part == "" then [] else [part]) + NonEmpty(rest)
  {
    assert ([part] + rest)[1..] == rest;
  }

  lemma {:induction false} NonEmptyOfConcat(a: seq<string>, b: seq<string>)
    ensures NonEmpty(a + b) == NonEmpty(a) + NonEmpty(b)
  {
    if a == [] {
      assert a + b == b;
    } else {
      var part, rest := a[0], a[1..];
      NonEmptyOfConcat(rest, b);
      NonEmptyOfCons(part, rest);
      NonEmptyOfCons(part, rest + b);
      hide NonEmpty;
      assert a == [part] + rest && a + b == [part] + (rest + b);
    }
  }

  /** A path has the segments of what stands before a slash of either kind, then those of what
      stands after it; without a slash it has itself, unless it is empty. */
  lemma SegmentsOfPath(a: string, slash: char, b: string)
    ensures slash == '/' || slash == '\\' ==> Segments(a + [slash] + b) == Segments(a) + Segments(b)
    ensures '/' !in a && '\\' !in a ==> Segments(a) == if a == "" then [] else [a]
  {
    if slash == '/' || slash == '\\' {
      SlashedOfConcat(a + [slash], b);
      SlashedOfConcat(a, [slash]);
      assert [slash][1..] == "";
      assert Slashed([slash]) == "/";
      SplitOfConcat(Slashed(a), Slashed(b), '/');
      NonEmptyOfConcat(Split(Slashed(a), '/'), Split(Slashed(b), '/'));
    }
    if '/' !in a && '\\' !in a {
      NoBackslash(a);
      SplitOfPrefix(a, "", '/');
      assert [a][1..] == [];
    }
  }

  predicate SafePath(p: seq<string>) { forall i :: 0 <= i < |p| ==> Safe(p[i]) }

  lemma {:induction false} SafeSegmentsEach(parts: seq<string>)
    ensures |SafeSegments(parts)| == |parts|
    ensures forall i :: 0 <= i < |parts| ==> SafeSegments(parts)[i] == SafeSegment(parts[i])
  {
    if parts != [] {
      var rest, r := parts[1..], SafeSegments(parts);
      SafeSegmentsEach(rest);
      assert r[1..] == SafeSegments(rest);
      forall i | 0 < i < |parts| ensures r[i] == SafeSegment(parts[i]) {
        assert r[i] == r[1..][i - 1] && parts[i] == rest[i - 1];
      }
    }
  }

  lemma SafeSegmentsSpec(parts: seq<string>)
    ensures SafePath(SafeSegments(parts)) && |SafeSegments(parts)| == |parts|
    ensures SafePath(parts) ==> SafeSegments(parts) == parts
  {
    var r := SafeSegments(parts);
    SafeSegmentsEach(parts);
    forall i | 0 <= i < |parts| ensures Safe(r[i]) && (Safe(parts[i]) ==> r[i] == parts[i]) {
      ResultIsSafe(parts[i]);
      FixedPointsAreSafe(parts[i]);
    }
  }

  /** One safe segment for each non-empty input segment, in order; an error exactly when
      there is none. */
  lemma ResolveSpec(relpath: string)
    ensures Resolve(relpath) == None <==> Segments(relpath) == []
    ensures Resolve(relpath).Some? ==>
      var p := Resolve(relpath).value;
      p != [] && SafePath(p) && |p| == |Segments(relpath)|
      && forall i :: 0 <= i < |p| ==> p[i] == SafeSegment(Segments(relpath)[i])
  {
    SafeSegmentsEach(Segments(relpath));
    SafeSegmentsSpec(Segments(relpath));
  }

  lemma {:induction false} NothingToRemove(parts: seq<string>)
    requires SafePath(parts)
    ensures NonEmpty(parts) == parts
  {
    if parts != [] {
      NothingToRemove(parts[1..]);
      assert Safe(parts[0]) && parts == [parts[0]] + parts[1..];
    }
  }

  lemma {:induction false} NoBackslash(s: string)
    requires '\\' !in s
    ensures Slashed(s) == s
  {
    if s != "" {
      NoBackslash(s[1..]);
      assert s == [s[0]] + s[1..];
    }
  }

  lemma {:induction false} JoinedHasNoBackslash(parts: seq<string>)
    requires SafePath(parts)
    ensures '\\' !in Joined(parts, '/')
  {
    assert !Allowed('\\');
    if parts != [] {
      JoinedHasNoBackslash(parts[1..]);
      assert Safe(parts[0]);
    }
  }

  /** Every non-empty list of safe segments is the resolution of its own join, so resolving a
      resolved path again changes nothing, and these lists are all the resolutions there are. */
  lemma ResolveIsStable(p: seq<string>)
    ensures p != [] && SafePath(p) <==> Resolve(Joined(p, '/')) == Some(p)
  {
    if p != [] && SafePath(p) {
      forall i | 0 <= i < |p| ensures '/' !in p[i] {
        assert Safe(p[i]) && !Allowed('/');
      }
      JoinedHasNoBackslash(p);
      NoBackslash(Joined(p, '/'));
      SplitOfJoin(p, '/');
      NothingToRemove(p);
      SafeSegmentsSpec(p);
    }
    ResolveSpec(Joined(p, '/'));
  }
}
