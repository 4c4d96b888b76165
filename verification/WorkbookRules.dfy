// What validating a workbook means: no errors exactly when every filled row meets the field
// rules and no GSTIN or user name comes twice; and how many errors repetitions cost.

module WorkbookRules {
  import opened Collections
  import opened Sanitize
  import opened Workbook

  // ---------------------------------------------------------------- the field rules

  predicate GoodGstin(e: Env, row: seq<Cell>) {
    var g := GstinOf(e, row);
    g.Some? && |g.value| == 15 && e.gstinMatches(g.value)
  }

  predicate GoodEmails(e: Env, row: seq<Cell>) {
    var v := Get(row, EMAIL);
    v.Some? && SplitEmails(v.value) != [] && forall p :: p in SplitEmails(v.value) ==> e.emailMatches(p)
  }

  predicate GoodChoices(e: Env, row: seq<Cell>) {
    var year, active, priority, window := Get(row, YEAR), Get(row, ACTIVE), Get(row, PRIORITY), Get(row, WINDOW);
    && year.Some? && year.value in YEARS
    && active.Some? && e.upper(Strip(Space, active.value)) in BOOLEANS
    && priority.Some? && e.upper(priority.value) in PRIORITIES
    && window.Some? && GoodWindow(e.parseInt(window.value))
  }

  predicate RowValid(e: Env, row: seq<Cell>) {
    && (forall k :: k in REQUIRED ==> Get(row, k).Some?)
    && GoodGstin(e, row) && GoodEmails(e, row) && GoodChoices(e, row)
  }

  predicate Repeats(value: Option<string>, seen: set<string>) { value.Some? && value.value in seen }

  lemma {:induction false} MissingExactly(row: seq<Cell>, i: nat, n: nat)
    requires n <= |REQUIRED|
    ensures MissingErrors(row, i, n) == [] <==> forall j :: 0 <= j < n ==> Get(row, REQUIRED[j]).Some?
  {
    if n > 0 {
      MissingExactly(row, i, n - 1);
    }
  }

  lemma {:induction false} BadEmailsExactly(e: Env, parts: seq<string>, i: nat)
    ensures BadEmails(e, parts, i) == [] <==> forall p :: p in parts ==> e.emailMatches(p)
  {
    if parts != [] {
      var n := |parts| - 1;
      BadEmailsExactly(e, parts[..n], i);
      assert parts == parts[..n] + [parts[n]];
    }
  }

  lemma RequiredExactly(row: seq<Cell>, i: nat)
    ensures MissingErrors(row, i, |REQUIRED|) == [] <==> forall k :: k in REQUIRED ==> Get(row, k).Some?
  {
    MissingExactly(row, i, |REQUIRED|);
    if forall k :: k in REQUIRED ==> Get(row, k).Some? {
      forall j | 0 <= j < |REQUIRED| ensures Get(row, REQUIRED[j]).Some? {
        assert REQUIRED[j] in REQUIRED;
      }
    }
  }

  lemma ChoicesExactly(e: Env, row: seq<Cell>, i: nat)
    requires Get(row, YEAR).Some? && Get(row, ACTIVE).Some? && Get(row, PRIORITY).Some? && Get(row, WINDOW).Some?
    ensures ChoiceErrors(e, row, i) == [] <==> GoodChoices(e, row)
  {
  }

  lemma EmailsExactly(e: Env, row: seq<Cell>, i: nat)
    requires Get(row, EMAIL).Some?
    ensures EmailErrors(e, row, i) == [] <==> GoodEmails(e, row)
  {
    BadEmailsExactly(e, SplitEmails(Get(row, EMAIL).value), i);
  }

  lemma IdentityExactly(e: Env, row: seq<Cell>, i: nat, gstins: set<string>, usernames: set<string>)
    requires Get(row, GSTIN).Some?
    ensures IdentityErrors(e, row, i, gstins, usernames) == [] <==>
      GoodGstin(e, row) && !Repeats(GstinOf(e, row), gstins) && !Repeats(UsernameOf(row), usernames)
  {
  }

  lemma RequiredFieldsArePresent(row: seq<Cell>)
    requires forall k :: k in REQUIRED ==> Get(row, k).Some?
    ensures Get(row, GSTIN).Some? && Get(row, USERNAME).Some? && Get(row, EMAIL).Some?
    ensures Get(row, YEAR).Some? && Get(row, ACTIVE).Some? && Get(row, PRIORITY).Some? && Get(row, WINDOW).Some?
  {
    assert REQUIRED[1] == GSTIN && REQUIRED[2] == USERNAME && REQUIRED[4] == EMAIL;
    assert REQUIRED[5] == YEAR && REQUIRED[6] == ACTIVE && REQUIRED[7] == PRIORITY && REQUIRED[8] == WINDOW;
  }

  /** A row causes no error exactly when it meets the field rules and repeats neither a GSTIN
      nor a user name seen before. */
  lemma RowErrorsExactly(e: Env, row: seq<Cell>, i: nat, gstins: set<string>, usernames: set<string>)
    ensures RowErrors(e, row, i, gstins, usernames) == [] <==>
      RowValid(e, row) && !Repeats(GstinOf(e, row), gstins) && !Repeats(UsernameOf(row), usernames)
  {
    RequiredExactly(row, i);
    if MissingErrors(row, i, |REQUIRED|) == [] {
      RequiredFieldsArePresent(row);
      ChoicesExactly(e, row, i);
      EmailsExactly(e, row, i);
      IdentityExactly(e, row, i, gstins, usernames);
    }
  }

  // ---------------------------------------------------------------- the whole sheet

  // The normalized GSTINs and user names of the filled rows, in order.
  function Gstins(e: Env, rows: seq<seq<Cell>>): seq<string> {
    if rows == [] then []
    else
      var n := |rows| - 1;
      if IsBlank(rows[n]) then Gstins(e, rows[..n]) else Noted(Gstins(e, rows[..n]), GstinOf(e, rows[n]))
  }

  function Usernames(rows: seq<seq<Cell>>): seq<string> {
    if rows == [] then []
    else
      var n := |rows| - 1;
      if IsBlank(rows[n]) then Usernames(rows[..n]) else Noted(Usernames(rows[..n]), UsernameOf(rows[n]))
  }

  function Elements(s: seq<string>): set<string> {
    if s == [] then {} else Elements(s[..|s| - 1]) + {s[|s| - 1]}
  }

  ghost predicate Distinct(s: seq<string>) { forall i, j :: 0 <= i < j < |s| ==> s[i] != s[j] }

  ghost predicate AllValid(e: Env, rows: seq<seq<Cell>>) {
    forall j :: 0 <= j < |rows| && !IsBlank(rows[j]) ==> RowValid(e, rows[j])
  }

  lemma {:induction false} ElementsSpec(s: seq<string>)
    ensures forall x :: x in Elements(s) <==> x in s
  {
    if s != [] {
      ElementsSpec(s[..|s| - 1]);
      assert s == s[..|s| - 1] + [s[|s| - 1]];
    }
  }

  lemma NotedSpec(list: seq<string>, value: Option<string>)
    ensures Elements(Noted(list, value)) == Seen(value, Elements(list))
    ensures Distinct(Noted(list, value)) <==> Distinct(list) && !Repeats(value, Elements(list))
    ensures |Noted(list, value)| - |Elements(Noted(list, value))|
      == |list| - |Elements(list)| + if Repeats(value, Elements(list)) then 1 else 0
  {
    ElementsSpec(list);
    if value.Some? {
      var r := list + [value.value];
      assert r[..|list|] == list;
      if Distinct(r) {
        assert forall i :: 0 <= i < |list| ==> list[i] == r[i];
        assert forall i :: 0 <= i < |list| ==> r[i] != r[|list|];
      }
      if value.value in Elements(list) {
        assert Elements(list) + {value.value} == Elements(list);
      }
    }
  }

  lemma {:induction false} SeenExactly(e: Env, rows: seq<seq<Cell>>)
    ensures ScanAll(e, rows).gstins == Elements(Gstins(e, rows))
    ensures ScanAll(e, rows).usernames == Elements(Usernames(rows))
  {
    if rows != [] {
      var n := |rows| - 1;
      SeenExactly(e, rows[..n]);
      NotedSpec(Gstins(e, rows[..n]), GstinOf(e, rows[n]));
      NotedSpec(Usernames(rows[..n]), UsernameOf(rows[n]));
    }
  }

  lemma AllValidSnoc(e: Env, rows: seq<seq<Cell>>)
    requires rows != []
    ensures var n := |rows| - 1;
      AllValid(e, rows) <==> AllValid(e, rows[..n]) && (IsBlank(rows[n]) || RowValid(e, rows[n]))
  {
  }

  /** Sound and complete: no errors if and only if every filled row meets every field rule and
      the normalized GSTINs, and the user names, are pairwise distinct. */
  lemma {:induction false} NoErrorsExactly(e: Env, rows: seq<seq<Cell>>)
    ensures ScanAll(e, rows).errors == [] <==>
      AllValid(e, rows) && Distinct(Gstins(e, rows)) && Distinct(Usernames(rows))
  {
    if rows != [] {
      var n := |rows| - 1;
      NoErrorsExactly(e, rows[..n]);
      SeenExactly(e, rows[..n]);
      AllValidSnoc(e, rows);
      if !IsBlank(rows[n]) {
        var s := ScanAll(e, rows[..n]);
        RowErrorsExactly(e, rows[n], n + 2, s.gstins, s.usernames);
        NotedSpec(Gstins(e, rows[..n]), GstinOf(e, rows[n]));
        NotedSpec(Usernames(rows[..n]), UsernameOf(rows[n]));
      }
    }
  }

  // ---------------------------------------------------------------- counting repetitions

  function CountOf(errors: seq<RowError>, message: string): nat {
    if errors == [] then 0
    else CountOf(errors[..|errors| - 1], message) + if errors[|errors| - 1].message == message then 1 else 0
  }

  lemma {:induction false} CountOfConcat(a: seq<RowError>, b: seq<RowError>, message: string)
    ensures CountOf(a + b, message) == CountOf(a, message) + CountOf(b, message)
  {
    if b == [] {
      assert a + b == a;
    } else {
      var n := |b| - 1;
      CountOfConcat(a, b[..n], message);
      assert (a + b)[..|a| + n] == a + b[..n];
    }
  }

  // Errors that are not about a repetition.
  predicate Plain(errors: seq<RowError>) {
    forall j :: 0 <= j < |errors| ==> errors[j].message != "" && errors[j].message[0] in {'m', 'i'}
  }

  lemma {:induction false} PlainCountsNothing(errors: seq<RowError>, message: string)
    requires Plain(errors) && message != "" && message[0] == 'd'
    ensures CountOf(errors, message) == 0
  {
    if errors != [] {
      PlainCountsNothing(errors[..|errors| - 1], message);
    }
  }

  lemma {:induction false} MissingIsPlain(row: seq<Cell>, i: nat, n: nat)
    requires n <= |REQUIRED|
    ensures Plain(MissingErrors(row, i, n))
  {
    assert "missing"[0] == 'm';
    if n > 0 {
      MissingIsPlain(row, i, n - 1);
    }
  }

  lemma {:induction false} BadEmailsArePlain(e: Env, parts: seq<string>, i: nat)
    ensures Plain(BadEmails(e, parts, i))
  {
    if parts != [] {
      var n := |parts| - 1;
      BadEmailsArePlain(e, parts[..n], i);
      assert ("invalid email: " + parts[n])[0] == 'i';
    }
  }

  lemma GstinErrorsArePlain(e: Env, row: seq<Cell>, i: nat)
    ensures Plain(GstinErrors(e, row, i))
  {
    assert "must be 15 characters"[0] == 'm' && "invalid GSTIN format"[0] == 'i';
  }

  lemma EmailErrorsArePlain(e: Env, row: seq<Cell>, i: nat)
    ensures Plain(EmailErrors(e, row, i))
  {
    if Get(row, EMAIL).Some? {
      BadEmailsArePlain(e, SplitEmails(Get(row, EMAIL).value), i);
      assert "missing"[0] == 'm';
    }
  }

  lemma ChoiceErrorsArePlain(e: Env, row: seq<Cell>, i: nat)
    ensures Plain(ChoiceErrors(e, row, i))
  {
    assert "invalid financial_year"[0] == 'i' && "must be TRUE/FALSE"[0] == 'm';
    assert "invalid priority (HIGH/MEDIUM/LOW)"[0] == 'i' && "invalid run window (15\U{2013}20)"[0] == 'i';
    assert Plain(YearErrors(row, i)) && Plain(ActiveErrors(e, row, i));
    assert Plain(PriorityErrors(e, row, i)) && Plain(WindowErrors(e, row, i));
  }

  lemma MessagesDiffer()
    ensures DUP_GSTIN != DUP_USERNAME && DUP_GSTIN[0] == 'd' && DUP_USERNAME[0] == 'd'
  {
    assert |DUP_GSTIN| != |DUP_USERNAME|;
  }

  lemma OneOf(error: RowError, message: string)
    ensures CountOf([error], message) == if error.message == message then 1 else 0
  {
    assert [error][..0] == [];
  }

  lemma IdentityCounts(e: Env, row: seq<Cell>, i: nat, gstins: set<string>, usernames: set<string>)
    ensures CountOf(IdentityErrors(e, row, i, gstins, usernames), DUP_GSTIN)
      == if Repeats(GstinOf(e, row), gstins) then 1 else 0
    ensures CountOf(IdentityErrors(e, row, i, gstins, usernames), DUP_USERNAME)
      == if Repeats(UsernameOf(row), usernames) then 1 else 0
  {
    var a, b := GstinErrors(e, row, i), Duplicate(i, "gstin", DUP_GSTIN, GstinOf(e, row), gstins);
    var c := Duplicate(i, "username", DUP_USERNAME, UsernameOf(row), usernames);
    MessagesDiffer();
    GstinErrorsArePlain(e, row, i);
    forall message | message == DUP_GSTIN || message == DUP_USERNAME
      ensures CountOf(a + b + c, message) == CountOf(b, message) + CountOf(c, message)
    {
      PlainCountsNothing(a, message);
      CountOfConcat(a, b, message);
      CountOfConcat(a + b, c, message);
    }
    OneOf(RowError(i, "gstin", DUP_GSTIN), DUP_GSTIN);
    OneOf(RowError(i, "gstin", DUP_GSTIN), DUP_USERNAME);
    OneOf(RowError(i, "username", DUP_USERNAME), DUP_GSTIN);
    OneOf(RowError(i, "username", DUP_USERNAME), DUP_USERNAME);
  }

  lemma RowCounts(e: Env, row: seq<Cell>, i: nat, gstins: set<string>, usernames: set<string>, message: string)
    requires message == DUP_GSTIN || message == DUP_USERNAME
    ensures CountOf(RowErrors(e, row, i, gstins, usernames), message)
      == CountOf(IdentityErrors(e, row, i, gstins, usernames), message)
  {
    var a, b := MissingErrors(row, i, |REQUIRED|), IdentityErrors(e, row, i, gstins, usernames);
    var c, d := EmailErrors(e, row, i), ChoiceErrors(e, row, i);
    MessagesDiffer();
    MissingIsPlain(row, i, |REQUIRED|);
    EmailErrorsArePlain(e, row, i);
    ChoiceErrorsArePlain(e, row, i);
    PlainCountsNothing(a, message);
    PlainCountsNothing(c, message);
    PlainCountsNothing(d, message);
    CountOfConcat(a, b, message);
    CountOfConcat(a + b, c, message);
    CountOfConcat(a + b + c, d, message);
  }

  /** The duplicate errors are as many as the rows that carry a GSTIN (a user name) less the
      different ones among them. */
  lemma {:induction false} DuplicatesAreCounted(e: Env, rows: seq<seq<Cell>>)
    ensures CountOf(ScanAll(e, rows).errors, DUP_GSTIN) == |Gstins(e, rows)| - |Elements(Gstins(e, rows))|
    ensures CountOf(ScanAll(e, rows).errors, DUP_USERNAME) == |Usernames(rows)| - |Elements(Usernames(rows))|
  {
    if rows != [] {
      var n := |rows| - 1;
      DuplicatesAreCounted(e, rows[..n]);
      if !IsBlank(rows[n]) {
        DuplicatesOfRow(e, rows[..n], rows[n]);
      }
    }
  }

  lemma DuplicatesOfRow(e: Env, rows: seq<seq<Cell>>, row: seq<Cell>)
    ensures var s := ScanAll(e, rows);
      var r := s.errors + RowErrors(e, row, |rows| + 2, s.gstins, s.usernames);
      var g, u := Gstins(e, rows), Usernames(rows);
      var h, v := Noted(g, GstinOf(e, row)), Noted(u, UsernameOf(row));
      && CountOf(r, DUP_GSTIN) - CountOf(s.errors, DUP_GSTIN) == (|h| - |Elements(h)|) - (|g| - |Elements(g)|)
      && CountOf(r, DUP_USERNAME) - CountOf(s.errors, DUP_USERNAME) == (|v| - |Elements(v)|) - (|u| - |Elements(u)|)
  {
    var s := ScanAll(e, rows);
    var i := |rows| + 2;
    SeenExactly(e, rows);
    NotedSpec(Gstins(e, rows), GstinOf(e, row));
    NotedSpec(Usernames(rows), UsernameOf(row));
    IdentityCounts(e, row, i, s.gstins, s.usernames);
    RowCounts(e, row, i, s.gstins, s.usernames, DUP_GSTIN);
    RowCounts(e, row, i, s.gstins, s.usernames, DUP_USERNAME);
    CountOfConcat(s.errors, RowErrors(e, row, i, s.gstins, s.usernames), DUP_GSTIN);
    CountOfConcat(s.errors, RowErrors(e, row, i, s.gstins, s.usernames), DUP_USERNAME);
  }

  // ---------------------------------------------------------------- the returned rows

  // What the output for a row has to be.
  function Describes(e: Env): (seq<Cell>, OutRow) -> bool {
    (row: seq<Cell>, out: OutRow) => !IsBlank(row) && out.values == OutValues(e, row, |COLUMNS|)
  }

  // Rows in order, each numbered and described after one row of the sheet.
  ghost predicate Faithful(d: (seq<Cell>, OutRow) -> bool, rows: seq<seq<Cell>>, r: seq<OutRow>) {
    && (forall j :: 0 <= j < |r| ==> 2 <= r[j].rownum < |rows| + 2 && d(rows[r[j].rownum - 2], r[j]))
    && (forall i, j :: 0 <= i < j < |r| ==> r[i].rownum < r[j].rownum)
  }

  ghost predicate Returned(r: seq<OutRow>, number: nat) { exists j :: 0 <= j < |r| && r[j].rownum == number }

  lemma FaithfulGrows(d: (seq<Cell>, OutRow) -> bool, rows: seq<seq<Cell>>, row: seq<Cell>, r: seq<OutRow>, out: OutRow)
    requires Faithful(d, rows, r)
    ensures Faithful(d, rows + [row], r)
    ensures d(row, out) && out.rownum == |rows| + 2 ==> Faithful(d, rows + [row], r + [out])
  {
  }

  lemma ReturnedGrows(r: seq<OutRow>, out: OutRow, number: nat)
    ensures Returned(r, number) || out.rownum == number ==> Returned(r + [out], number)
  {
    if Returned(r, number) {
      var j :| 0 <= j < |r| && r[j].rownum == number;
      assert (r + [out])[j] == r[j];
    } else if out.rownum == number {
      assert (r + [out])[|r|] == out;
    }
  }

  lemma {:induction false} OnlyFilledRowsAreReturned(e: Env, rows: seq<seq<Cell>>)
    ensures Faithful(Describes(e), rows, ScanAll(e, rows).rows)
  {
    if rows != [] {
      var n := |rows| - 1;
      OnlyFilledRowsAreReturned(e, rows[..n]);
      assert rows == rows[..n] + [rows[n]];
      var out := OutRow(n + 2, OutValues(e, rows[n], |COLUMNS|));
      FaithfulGrows(Describes(e), rows[..n], rows[n], ScanAll(e, rows[..n]).rows, out);
    }
  }

  lemma {:induction false} FilledRowIsReturned(e: Env, rows: seq<seq<Cell>>, i: nat)
    requires i < |rows| && !IsBlank(rows[i])
    ensures Returned(ScanAll(e, rows).rows, i + 2)
  {
    var n := |rows| - 1;
    var r := ScanAll(e, rows[..n]).rows;
    if i < n {
      FilledRowIsReturned(e, rows[..n], i);
    }
    ReturnedGrows(r, OutRow(n + 2, OutValues(e, rows[n], |COLUMNS|)), i + 2);
  }

  /** Every filled row, and no other, is returned, in order, under its number and with its own
      values, whatever its errors. */
  lemma FilledRowsAreReturned(e: Env, rows: seq<seq<Cell>>)
    ensures Faithful(Describes(e), rows, ScanAll(e, rows).rows)
    ensures forall i :: 0 <= i < |rows| && !IsBlank(rows[i]) ==> Returned(ScanAll(e, rows).rows, i + 2)
  {
    OnlyFilledRowsAreReturned(e, rows);
    forall i | 0 <= i < |rows| && !IsBlank(rows[i]) ensures Returned(ScanAll(e, rows).rows, i + 2) {
      FilledRowIsReturned(e, rows, i);
    }
  }

  // No character's upper case is or loses a space.
  ghost predicate UpperKeepsSpaces(e: Env) { forall s :: Unspaced(e.upper(s)) == e.upper(Unspaced(s)) }

  lemma {:induction false} OutValuesSpec(e: Env, row: seq<Cell>, n: nat)
    ensures |OutValues(e, row, n)| == n
    ensures forall k :: 0 <= k < n ==> OutValues(e, row, n)[k] == OutValue(e, row, k)
  {
    if n > 0 {
      OutValuesSpec(e, row, n - 1);
    }
  }

  /** In a workbook of valid rows the j-th returned row carries the j-th GSTIN that was checked,
      although the check and the output normalize in opposite orders. */
  lemma {:induction false} AcceptedGstins(e: Env, rows: seq<seq<Cell>>)
    requires UpperKeepsSpaces(e) && AllValid(e, rows)
    ensures var r := ScanAll(e, rows).rows;
      |r| == |Gstins(e, rows)|
      && forall j :: 0 <= j < |r| ==>
          && |r[j].values| == |COLUMNS| && r[j].values[GSTIN] == Some(Gstins(e, rows)[j])
          && |Gstins(e, rows)[j]| == 15 && e.gstinMatches(Gstins(e, rows)[j])
  {
    if rows != [] {
      var n := |rows| - 1;
      var row := rows[n];
      AllValidSnoc(e, rows);
      AcceptedGstins(e, rows[..n]);
      if !IsBlank(row) {
        OutValuesSpec(e, row, |COLUMNS|);
        assert GoodGstin(e, row);
        var g := Get(row, GSTIN).value;
        assert Unspaced(e.upper(g)) == e.upper(Unspaced(g));
      }
    }
  }

  // ---------------------------------------------------------------- the header

  lemma {:induction false} HeadersOfConcat(e: Env, a: seq<Cell>, b: seq<Cell>)
    ensures NormHeaders(e, a + b) == NormHeaders(e, a) + NormHeaders(e, b)
  {
    if b == [] {
      assert a + b == a;
    } else {
      var n := |b| - 1;
      HeadersOfConcat(e, a, b[..n]);
      assert (a + b)[..|a| + n] == a + b[..n];
      NotedBehind(NormHeaders(e, a), NormHeaders(e, b[..n]), NormHeader(e, b[n]));
    }
  }

  lemma NotedBehind(a: seq<string>, b: seq<string>, value: Option<string>)
    ensures Noted(a + b, value) == a + Noted(b, value)
  {
  }

  /** A blank cell among the headers changes nothing: the sheet is accepted as before and its
      data columns are read at the same places, one to the left of their headings. */
  lemma BlankHeadingIsIgnored(e: Env, a: seq<Cell>, b: seq<Cell>, rows: seq<seq<Cell>>)
    ensures ParseSheet(e, Sheet(a + [Empty] + b, rows)) == ParseSheet(e, Sheet(a + b, rows))
  {
    assert [Empty][..0] == [];
    assert NormHeaders(e, [Empty]) == [];
    HeadersOfConcat(e, a + [Empty], b);
    HeadersOfConcat(e, a, [Empty]);
    HeadersOfConcat(e, a, b);
  }

  lemma {:induction false} HeadersAreFew(e: Env, header: seq<Cell>)
    ensures |NormHeaders(e, header)| <= |header|
  {
    if header != [] {
      HeadersAreFew(e, header[..|header| - 1]);
    }
  }

  lemma {:induction false} HeadersAlign(e: Env, header: seq<Cell>)
    requires |NormHeaders(e, header)| == |header|
    ensures forall k :: 0 <= k < |header| ==> NormHeader(e, header[k]) == Some(NormHeaders(e, header)[k])
  {
    if header != [] {
      HeadersAreFew(e, header[..|header| - 1]);
      HeadersAlign(e, header[..|header| - 1]);
    }
  }

  lemma {:induction false} NoHeadingIsLost(e: Env, header: seq<Cell>)
    requires forall k :: 0 <= k < |header| ==> NormHeader(e, header[k]).Some?
    ensures |NormHeaders(e, header)| == |header|
  {
    if header != [] {
      NoHeadingIsLost(e, header[..|header| - 1]);
    }
  }

  /** With an accepted header each of the twelve data columns stands under its own heading if
      and only if none of the first twelve headings is blank. */
  lemma ColumnsLineUpExactly(e: Env, header: seq<Cell>)
    requires NormHeaders(e, header) == COLUMNS
    ensures |header| >= |COLUMNS|
    ensures (forall k :: 0 <= k < |COLUMNS| ==> NormHeader(e, header[k]) == Some(COLUMNS[k])) <==>
      (forall k :: 0 <= k < |COLUMNS| ==> NormHeader(e, header[k]).Some?)
  {
    HeadersAreFew(e, header);
    var a, b := header[..|COLUMNS|], header[|COLUMNS|..];
    assert header == a + b;
    HeadersOfConcat(e, a, b);
    if forall k :: 0 <= k < |COLUMNS| ==> NormHeader(e, header[k]).Some? {
      NoHeadingIsLost(e, a);
      HeadersAlign(e, a);
      forall k | 0 <= k < |COLUMNS| ensures NormHeader(e, header[k]) == Some(COLUMNS[k]) {
        assert a[k] == header[k];
      }
    }
  }

  /** A blank cell before an accepted header is accepted too: no cell is read elsewhere, yet the
      first data column stands under the blank instead of its heading. */
  lemma BlankFirstHeadingShifts(e: Env, header: seq<Cell>, rows: seq<seq<Cell>>)
    requires NormHeaders(e, header) == COLUMNS
    ensures var shifted := [Empty] + header;
      && NormHeaders(e, shifted) == COLUMNS
      && ParseSheet(e, Sheet(shifted, rows)) == ParseSheet(e, Sheet(header, rows))
      && |shifted| > |COLUMNS|
      && !(forall k :: 0 <= k < |COLUMNS| ==> NormHeader(e, shifted[k]) == Some(COLUMNS[k]))
  {
    var shifted := [Empty] + header;
    assert [Empty][..0] == [] && NormHeaders(e, [Empty]) == [];
    HeadersOfConcat(e, [Empty], header);
    HeadersAreFew(e, header);
    assert [] + [Empty] + header == shifted && [] + header == header;
    BlankHeadingIsIgnored(e, [], header, rows);
    ColumnsLineUpExactly(e, shifted);
    assert NormHeader(e, shifted[0]) == None;
  }

  // ---------------------------------------------------------------- normal strings

  // Every space is an ordinary one and does not follow another.
  predicate SingleSpaced(s: string, afterSpace: bool) {
    s == "" || ((Space(s[0]) ==> s[0] == ' ' && !afterSpace) && SingleSpaced(s[1..], Space(s[0])))
  }

  // Trimmed, and separated by single ordinary spaces.
  predicate Normal(s: string) {
    s != "" && !Space(s[0]) && !Space(s[|s| - 1]) && SingleSpaced(s, false)
  }

  lemma {:induction false} RespacedIsSingleSpaced(s: string, inRun: bool)
    ensures SingleSpaced(Respaced(s, ' ', inRun), inRun)
  {
    if s != "" {
      RespacedIsSingleSpaced(s[1..], Space(s[0]));
      var rest := Respaced(s[1..], ' ', Space(s[0]));
      assert ([s[0]] + rest)[1..] == rest && ([' '] + rest)[1..] == rest;
    }
  }

  lemma {:induction false} RespacedKeepsLast(s: string, inRun: bool)
    requires s != "" && !Space(s[|s| - 1])
    ensures var r := Respaced(s, ' ', inRun); r != "" && r[|r| - 1] == s[|s| - 1]
  {
    if |s| > 1 {
      RespacedKeepsLast(s[1..], Space(s[0]));
    }
  }

  lemma {:induction false} SingleSpacedIsKept(s: string, inRun: bool)
    requires SingleSpaced(s, inRun)
    ensures Respaced(s, ' ', inRun) == s
  {
    if s != "" {
      SingleSpacedIsKept(s[1..], Space(s[0]));
      assert s == [s[0]] + s[1..];
    }
  }

  /** Normalizing yields trimmed text with single spaces, and such text is exactly what it
      leaves alone: so it is idempotent, and trimming a user name again is harmless. */
  lemma NormalFormsAreFixed(v: Cell, s: string)
    ensures NormStr(v) == Some(s) ==> Normal(s)
    ensures Normal(s) <==> NormStr(Text(s)) == Some(s)
    ensures Normal(s) ==> Strip(Space, s) == s
  {
    NormalFormOf(v);
    NormalFormOf(Text(s));
    if Normal(s) {
      SingleSpacedIsKept(s, false);
    }
  }

  lemma NormalFormOf(v: Cell)
    ensures NormStr(v).Some? ==> Normal(NormStr(v).value)
  {
    assert !Space('T') && !Space('R') && !Space('U') && !Space('E') && !Space('F') && !Space('A');
    assert !Space('L') && !Space('S');
    WordIsNormal("TRUE");
    WordIsNormal("FALSE");
    if v.Text? {
      TrimmedIsNormal(Strip(Space, v.s));
      StripSpec(Space, v.s);
    }
  }

  lemma {:induction false} WordIsNormal(s: string)
    requires forall i :: 0 <= i < |s| ==> !Space(s[i])
    ensures SingleSpaced(s, false)
  {
    if s != "" {
      WordIsNormal(s[1..]);
    }
  }

  lemma TrimmedIsNormal(t: string)
    ensures t != "" && !Space(t[0]) && !Space(t[|t| - 1]) ==> Normal(Respaced(t, ' ', false))
  {
    if t != "" && !Space(t[0]) && !Space(t[|t| - 1]) {
      RespacedIsSingleSpaced(t, false);
      RespacedKeepsLast(t, false);
    }
  }
}
