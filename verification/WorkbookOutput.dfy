// clients/excel_parser.py: what the parser says and returns, column by column and error by
// error.

module WorkbookOutput {
  import opened Collections
  import opened Sanitize
  import opened Workbook
  import opened WorkbookRules

  // ---------------------------------------------------------------- the errors of a row

  // The required field is empty.
  predicate Lacks(row: seq<Cell>, field: string) {
    || (field == "client_name" && Get(row, 1) == None)
    || (field == "gstin" && Get(row, 2) == None)
    || (field == "username" && Get(row, 3) == None)
    || (field == "password" && Get(row, 4) == None)
    || (field == "client_email" && Get(row, 5) == None)
    || (field == "financial_year" && Get(row, 6) == None)
    || (field == "active" && Get(row, 7) == None)
    || (field == "priority" && Get(row, 8) == None)
    || (field == "preferred_run_window" && Get(row, 10) == None)
  }

  lemma {:induction false} MissingMembers(row: seq<Cell>, i: nat, n: nat, err: RowError)
    requires n <= |REQUIRED|
    ensures err in MissingErrors(row, i, n) <==>
      exists j :: 0 <= j < n && Get(row, REQUIRED[j]) == None && err == RowError(i, COLUMNS[REQUIRED[j]], "missing")
  {
    if n > 0 {
      MissingMembers(row, i, n - 1, err);
    }
  }

  lemma LacksExactly(row: seq<Cell>, field: string)
    ensures Lacks(row, field) <==>
      exists j :: 0 <= j < |REQUIRED| && Get(row, REQUIRED[j]) == None && COLUMNS[REQUIRED[j]] == field
  {
    hide Get;
    assert REQUIRED[0] == 1 && REQUIRED[1] == 2 && REQUIRED[2] == 3 && REQUIRED[3] == 4 && REQUIRED[4] == 5;
    assert REQUIRED[5] == 6 && REQUIRED[6] == 7 && REQUIRED[7] == 8 && REQUIRED[8] == 10;
  }

  lemma {:induction false} BadEmailMembers(e: Env, parts: seq<string>, i: nat, err: RowError)
    ensures err in BadEmails(e, parts, i) <==>
      exists p :: p in parts && !e.emailMatches(p) && err == RowError(i, "client_email", "invalid email: " + p)
  {
    if parts != [] {
      var n := |parts| - 1;
      BadEmailMembers(e, parts[..n], i, err);
      assert parts == parts[..n] + [parts[n]];
    }
  }

  // One error about the e-mail field.
  ghost predicate EmailFault(e: Env, row: seq<Cell>, message: string) {
    && Get(row, 5).Some?
    && var parts := SplitEmails(Get(row, 5).value);
      || (parts == [] && message == "missing")
      || exists p :: p in parts && !e.emailMatches(p) && message == "invalid email: " + p
  }

  // One error about the GSTIN or the user name.
  predicate IdentityFault(
    e: Env, row: seq<Cell>, gstins: set<string>, usernames: set<string>, field: string, message: string)
  {
    || (field == "gstin" && Get(row, 2).Some? &&
        var g := Unspaced(e.upper(Get(row, 2).value));
        || (|g| != 15 && message == "must be 15 characters")
        || (|g| == 15 && !e.gstinMatches(g) && message == "invalid GSTIN format")
        || (g in gstins && message == "duplicate GSTIN"))
    || (field == "username" && message == "duplicate username" && Get(row, 3).Some?
        && Strip(Space, Get(row, 3).value) in usernames)
  }

  // One error about a field with a choice of values.
  predicate YearFault(row: seq<Cell>) {
    Get(row, 6).Some? && Get(row, 6).value !in {"2024-25", "2025-26", "2026-27"}
  }

  predicate ActiveFault(e: Env, row: seq<Cell>) {
    Get(row, 7).Some?
    && e.upper(Strip(Space, Get(row, 7).value)) !in {"TRUE", "1", "YES", "Y", "FALSE", "0", "NO", "N"}
  }

  predicate PriorityFault(e: Env, row: seq<Cell>) {
    Get(row, 8).Some? && e.upper(Get(row, 8).value) !in {"HIGH", "MEDIUM", "LOW"}
  }

  predicate WindowFault(e: Env, row: seq<Cell>) {
    Get(row, 10).Some? && var w := e.parseInt(Get(row, 10).value); w == None || w.value < 15 || 20 < w.value
  }

  predicate ChoiceFault(e: Env, row: seq<Cell>, field: string, message: string) {
    || (YearFault(row) && field == "financial_year" && message == "invalid financial_year")
    || (ActiveFault(e, row) && field == "active" && message == "must be TRUE/FALSE")
    || (PriorityFault(e, row) && field == "priority" && message == "invalid priority (HIGH/MEDIUM/LOW)")
    || (WindowFault(e, row) && field == "preferred_run_window"
        && message == "invalid run window (15\U{2013}20)")
  }

  lemma ChoicesAreThese(e: Env, row: seq<Cell>, i: nat)
    ensures YearErrors(row, i) == if YearFault(row) then [RowError(i, "financial_year", "invalid financial_year")] else []
    ensures ActiveErrors(e, row, i)
      == if ActiveFault(e, row) then [RowError(i, "active", "must be TRUE/FALSE")] else []
    ensures PriorityErrors(e, row, i)
      == if PriorityFault(e, row) then [RowError(i, "priority", "invalid priority (HIGH/MEDIUM/LOW)")] else []
    ensures WindowErrors(e, row, i)
      == if WindowFault(e, row) then [RowError(i, "preferred_run_window", "invalid run window (15\U{2013}20)")] else []
  {
    hide Get;
  }

  lemma ChoiceMembers(e: Env, row: seq<Cell>, i: nat, err: RowError)
    ensures err in ChoiceErrors(e, row, i) <==> err.row == i && ChoiceFault(e, row, err.field, err.message)
  {
    ChoicesAreThese(e, row, i);
    hide YearFault, ActiveFault, PriorityFault, WindowFault, YearErrors, ActiveErrors, PriorityErrors, WindowErrors;
  }

  lemma IdentityMembers(e: Env, row: seq<Cell>, i: nat, gstins: set<string>, usernames: set<string>, err: RowError)
    ensures err in IdentityErrors(e, row, i, gstins, usernames) <==>
      err.row == i && IdentityFault(e, row, gstins, usernames, err.field, err.message)
  {
    hide Get;
  }

  lemma EmailMembers(e: Env, row: seq<Cell>, i: nat, err: RowError)
    ensures err in EmailErrors(e, row, i) <==>
      err.row == i && err.field == "client_email" && EmailFault(e, row, err.message)
  {
    hide Get;
    var v := Get(row, 5);
    if v.Some? {
      BadEmailMembers(e, SplitEmails(v.value), i, err);
    }
  }

  /** The errors of a row are exactly these, each under its field and with its message. */
  lemma ErrorsAreThese(e: Env, row: seq<Cell>, i: nat, gstins: set<string>, usernames: set<string>, err: RowError)
    ensures err in RowErrors(e, row, i, gstins, usernames) <==>
      && err.row == i
      && (|| (err.message == "missing" && Lacks(row, err.field))
          || IdentityFault(e, row, gstins, usernames, err.field, err.message)
          || (err.field == "client_email" && EmailFault(e, row, err.message))
          || ChoiceFault(e, row, err.field, err.message))
  {
    MissingMembers(row, i, |REQUIRED|, err);
    LacksExactly(row, err.field);
    IdentityMembers(e, row, i, gstins, usernames, err);
    EmailMembers(e, row, i, err);
    ChoiceMembers(e, row, i, err);
    hide MissingErrors, IdentityErrors, EmailErrors, ChoiceErrors, Lacks, IdentityFault, EmailFault, ChoiceFault;
  }

  // ---------------------------------------------------------------- the values of a row

  /** The returned values, column by column: three are put into upper case, one of them without
      its spaces, the addresses are listed anew, and the rest are as normalized. */
  lemma ReturnedValues(e: Env, row: seq<Cell>, k: nat)
    requires k < 12
    ensures |OutValues(e, row, |COLUMNS|)| == 12
    ensures var out, v := OutValues(e, row, |COLUMNS|)[k], Get(row, k);
      && (v == None ==> out == None)
      && (v.Some? && k == 2 ==> out == Some(e.upper(Unspaced(v.value))))
      && (v.Some? && k == 5 ==> out == Some(CommaJoined(SplitEmails(v.value))))
      && (v.Some? && (k == 7 || k == 8) ==> out == Some(e.upper(v.value)))
      && (v.Some? && k !in {2, 5, 7, 8} ==> out == v)
  {
    hide OutValues, Get;
    OutValuesSpec(e, row, |COLUMNS|);
  }

  lemma {:induction false} BlankCells(row: seq<Cell>, n: nat)
    ensures Blank(row, n) <==> forall k :: 0 <= k < n ==> Get(row, k) == None
  {
    if n > 0 {
      BlankCells(row, n - 1);
    }
  }

  /** A row is skipped if and only if each of its first twelve cells is as good as empty. */
  lemma BlankExactly(row: seq<Cell>)
    ensures IsBlank(row) <==> forall k :: 0 <= k < 12 ==> Get(row, k) == None
  {
    BlankCells(row, |COLUMNS|);
  }

  // An address as the split leaves it.
  predicate Plain(part: string) { part != "" && Strip(Space, part) == part && ',' !in part }

  lemma TrimmedOfCons(part: string, rest: seq<string>)
    ensures Trimmed([part] + rest)
      == (if Strip(Space, part) == "" then [] else [Strip(Space, part)]) + Trimmed(rest)
  {
    assert ([part] + rest)[1..] == rest;
  }

  lemma {:induction false} TrimmedArePlain(parts: seq<string>)
    requires forall i :: 0 <= i < |parts| ==> ',' !in parts[i]
    ensures forall p :: p in Trimmed(parts) ==> Plain(p)
  {
    if parts != [] {
      TrimmedArePlain(parts[1..]);
      TrimmedOfCons(parts[0], parts[1..]);
      assert parts == [parts[0]] + parts[1..];
      StripSpec(Space, parts[0]);
    }
  }

  lemma SpaceInFront(s: string)
    ensures SplitEmails(" " + s) == SplitEmails(s)
  {
    var parts := Split(s, ',');
    assert (" " + s)[1..] == s;
    assert Split(" " + s, ',') == [" " + parts[0]] + parts[1..];
    assert (" " + parts[0])[1..] == parts[0];
    TrimmedOfCons(" " + parts[0], parts[1..]);
    TrimmedOfCons(parts[0], parts[1..]);
    assert parts == [parts[0]] + parts[1..];
  }

  lemma {:induction false} SplitOfList(parts: seq<string>)
    requires forall p :: p in parts ==> Plain(p)
    ensures SplitEmails(CommaJoined(parts)) == parts
  {
    if parts != [] {
      var p, rest := parts[0], parts[1..];
      assert Plain(p) && parts == [p] + rest;
      if rest == [] {
        SplitOfPrefix(p, "", ',');
        TrimmedOfCons(p, []);
      } else {
        SplitOfList(rest);
        SplitOfPrefix(p, " " + CommaJoined(rest), ',');
        assert p + "," + (" " + CommaJoined(rest)) == p + ", " + CommaJoined(rest);
        TrimmedOfCons(p, Split(" " + CommaJoined(rest), ','));
        SpaceInFront(CommaJoined(rest));
      }
    }
  }

  /** The list of addresses as returned splits into the addresses that were checked. */
  lemma AddressesReadBack(v: string)
    ensures SplitEmails(CommaJoined(SplitEmails(v))) == SplitEmails(v)
  {
    JoinOfSplit(v, ',');
    TrimmedArePlain(Split(v, ','));
    SplitOfList(SplitEmails(v));
  }

  // ---------------------------------------------------------------- normal text

  function Flushed(word: string): seq<string> { if word == "" then [] else [word] }

  // s.split(), with `word` already read.
  function WordsFrom(s: string, word: string): seq<string> {
    if s == "" then Flushed(word)
    else if Space(s[0]) then Flushed(word) + WordsFrom(s[1..], "")
    else WordsFrom(s[1..], word + [s[0]])
  }

  function Words(s: string): seq<string> { WordsFrom(s, "") }

  predicate EndsInWord(s: string) { s != "" && !Space(s[|s| - 1]) }

  // Reading on inside a word, and reading on after a space.
  lemma {:induction false} RespacedInWord(s: string, word: string, c: char)
    requires word != "" && (s == "" || EndsInWord(s))
    ensures WordsFrom(s, word) != []
    ensures Joined(WordsFrom(s, word), c) == word + Respaced(s, c, false)
    decreases s, 0
  {
    if s == "" {
      assert word + "" == word;
    } else if Space(s[0]) {
      RespacedAfterSpace(s[1..], c);
      JoinedWithHead(word, WordsFrom(s[1..], ""), c);
      assert word + [c] + Respaced(s[1..], c, true) == word + ([c] + Respaced(s[1..], c, true));
    } else {
      RespacedInWord(s[1..], word + [s[0]], c);
      assert word + [s[0]] + Respaced(s[1..], c, false) == word + ([s[0]] + Respaced(s[1..], c, false));
    }
  }

  lemma {:induction false} RespacedAfterSpace(s: string, c: char)
    requires EndsInWord(s)
    ensures WordsFrom(s, "") != []
    ensures Joined(WordsFrom(s, ""), c) == Respaced(s, c, true)
    decreases s, 1
  {
    if Space(s[0]) {
      RespacedAfterSpace(s[1..], c);
      assert [] + WordsFrom(s[1..], "") == WordsFrom(s[1..], "");
    } else {
      RespacedInWord(s[1..], [s[0]], c);
      assert "" + [s[0]] == [s[0]];
    }
  }

  lemma {:induction false} WordsOfLStrip(s: string)
    ensures Words(LStrip(Space, s)) == Words(s)
  {
    if s != "" && Space(s[0]) {
      WordsOfLStrip(s[1..]);
      assert [] + WordsFrom(s[1..], "") == WordsFrom(s[1..], "");
    }
  }

  lemma {:induction false} SpaceBehind(s: string, c: char, word: string)
    requires Space(c)
    ensures WordsFrom(s + [c], word) == WordsFrom(s, word)
  {
    if s == "" {
      assert [c][1..] == "" && s + [c] == [c];
      assert Flushed(word) + [] == Flushed(word);
    } else {
      assert (s + [c])[1..] == s[1..] + [c] && (s + [c])[0] == s[0];
      if Space(s[0]) {
        SpaceBehind(s[1..], c, "");
      } else {
        SpaceBehind(s[1..], c, word + [s[0]]);
      }
    }
  }

  lemma {:induction false} WordsOfRStrip(s: string)
    ensures Words(RStrip(Space, s)) == Words(s)
  {
    if s != "" && Space(s[|s| - 1]) {
      var front, last := s[..|s| - 1], s[|s| - 1];
      WordsOfRStrip(front);
      SpaceBehind(front, last, "");
      assert s == front + [last];
    }
  }

  /** Normalizing a text is joining its words with single spaces; a text without words is as
      good as empty, and a boolean cell is its name. */
  lemma NormalIsWords(s: string)
    ensures NormStr(Text(s)) == if Words(s) == [] then None else Some(Joined(Words(s), ' '))
    ensures NormStr(Empty) == None
    ensures NormStr(Boolean(true)) == Some("TRUE") && NormStr(Boolean(false)) == Some("FALSE")
  {
    var t := Strip(Space, s);
    WordsOfLStrip(s);
    WordsOfRStrip(LStrip(Space, s));
    StripSpec(Space, s);
    if t != "" {
      RespacedInWord(t[1..], [t[0]], ' ');
      assert "" + [t[0]] == [t[0]];
    }
  }

  /** A heading is the words of its normal text in lower case, joined with underscores, provided
      that lower case neither begins nor ends it with a space. */
  lemma HeadingIsWords(e: Env, s: string)
    requires var low := e.lower(Joined(Words(s), ' ')); EndsInWord(low) && !Space(low[0])
    requires Words(s) != []
    ensures NormHeader(e, Text(s)) == Some(Joined(Words(e.lower(Joined(Words(s), ' '))), '_'))
    ensures NormHeader(e, Empty) == None
  {
    var normal := Joined(Words(s), ' ');
    var low := e.lower(normal);
    NormalIsWords(s);
    NormalFormOf(Text(s));
    assert Strip(Space, normal) == normal;
    RespacedInWord(low[1..], [low[0]], '_');
    assert "" + [low[0]] == [low[0]];
  }

  /** Taking out the spaces takes out each of them and nothing else. */
  lemma {:induction false} UnspacedExactly(a: string, b: string)
    ensures Unspaced(a + b) == Unspaced(a) + Unspaced(b)
    ensures Unspaced(" ") == "" && ' ' !in Unspaced(a)
    ensures ' ' !in a ==> Unspaced(a) == a
  {
    assert " "[1..] == "";
    if a == "" {
      assert a + b == b;
    } else {
      UnspacedExactly(a[1..], b);
      assert (a + b)[1..] == a[1..] + b && a == [a[0]] + a[1..];
    }
  }
}
