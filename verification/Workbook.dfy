// clients/excel_parser.py: reading and validating the client master workbook.

module Workbook {
  import opened Collections
  import opened Sanitize

  // A cell is empty, a boolean, or anything else as Python prints it.
  datatype Cell = Empty | Boolean(b: bool) | Text(s: string)

  datatype Sheet = Sheet(header: seq<Cell>, rows: seq<seq<Cell>>)

  datatype RowError = RowError(row: nat, field: string, message: string)

  // str.upper and str.lower, int(), and the two regular expressions.
  datatype Env = Env(
    upper: string -> string, lower: string -> string, parseInt: string -> Option<int>,
    gstinMatches: string -> bool, emailMatches: string -> bool)

  const COLUMNS: seq<string> := [
    "client_id", "client_name", "gstin", "username", "password", "client_email",
    "financial_year", "active", "priority", "tags", "preferred_run_window", "notes"
  ]

  const GSTIN := 2
  const USERNAME := 3
  const EMAIL := 5
  const YEAR := 6
  const ACTIVE := 7
  const PRIORITY := 8
  const WINDOW := 10

  // The columns of the required fields, in one of the orders Python may visit them.
  const REQUIRED: seq<nat> := [1, 2, 3, 4, 5, 6, 7, 8, 10]

  const YEARS := ["2024-25", "2025-26", "2026-27"]
  const PRIORITIES := ["HIGH", "MEDIUM", "LOW"]
  const WINDOWS := [15, 16, 17, 18, 19, 20]
  const BOOLEANS := ["TRUE", "1", "YES", "Y", "FALSE", "0", "NO", "N"]

  // ---------------------------------------------------------------- normalizing

  // re.sub(r"\s+", c, s)
  function Respaced(s: string, c: char, inRun: bool): string {
    if s == "" then ""
    else if !Space(s[0]) then [s[0]] + Respaced(s[1..], c, false)
    else if inRun then Respaced(s[1..], c, true)
    else [c] + Respaced(s[1..], c, true)
  }

  // `_norm_str`
  function NormStr(v: Cell): Option<string> {
    match v
    case Empty => None
    case Boolean(b) => Some(if b then "TRUE" else "FALSE")
    case Text(s) =>
      var t := Strip(Space, s);
      if t == "" then None else Some(Respaced(t, ' ', false))
  }

  // `_norm_header`
  function NormHeader(e: Env, v: Cell): Option<string> {
    match NormStr(v)
    case None => None
    case Some(s) => Some(Respaced(e.lower(Strip(Space, s)), '_', false))
  }

  function Noted(list: seq<string>, value: Option<string>): seq<string> {
    if value.Some? then list + [value.value] else list
  }

  function NormHeaders(e: Env, header: seq<Cell>): seq<string> {
    if header == [] then [] else Noted(NormHeaders(e, header[..|header| - 1]), NormHeader(e, header[|header| - 1]))
  }

  // The value of column k; cells beyond the row are empty.
  function Get(row: seq<Cell>, k: nat): Option<string> {
    if k < |row| then NormStr(row[k]) else None
  }

  function Blank(row: seq<Cell>, n: nat): bool {
    n == 0 || (Get(row, n - 1) == None && Blank(row, n - 1))
  }

  predicate IsBlank(row: seq<Cell>) { Blank(row, |COLUMNS|) }

  function Unspaced(s: string): string {
    if s == "" then "" else if s[0] == ' ' then Unspaced(s[1..]) else [s[0]] + Unspaced(s[1..])
  }

  // `_split_emails`
  function Trimmed(parts: seq<string>): seq<string> {
    if parts == [] then []
    else if Strip(Space, parts[0]) == "" then Trimmed(parts[1..])
    else [Strip(Space, parts[0])] + Trimmed(parts[1..])
  }

  function SplitEmails(v: string): seq<string> { Trimmed(Split(v, ',')) }

  // The GSTIN and the user name by which rows are compared.
  function GstinOf(e: Env, row: seq<Cell>): Option<string> {
    match Get(row, GSTIN) case None => None case Some(g) => Some(Unspaced(e.upper(g)))
  }

  function UsernameOf(row: seq<Cell>): Option<string> {
    match Get(row, USERNAME) case None => None case Some(u) => Some(Strip(Space, u))
  }

  // ---------------------------------------------------------------- the errors of one row

  function MissingErrors(row: seq<Cell>, i: nat, n: nat): seq<RowError>
    requires n <= |REQUIRED|
  {
    if n == 0 then []
    else if Get(row, REQUIRED[n - 1]) == None then
      MissingErrors(row, i, n - 1) + [RowError(i, COLUMNS[REQUIRED[n - 1]], "missing")]
    else MissingErrors(row, i, n - 1)
  }

  function GstinErrors(e: Env, row: seq<Cell>, i: nat): seq<RowError> {
    match GstinOf(e, row)
    case None => []
    case Some(g) =>
      if |g| != 15 then [RowError(i, "gstin", "must be 15 characters")]
      else if !e.gstinMatches(g) then [RowError(i, "gstin", "invalid GSTIN format")]
      else []
  }

  function Duplicate(i: nat, field: string, message: string, value: Option<string>, seen: set<string>): seq<RowError> {
    if value.Some? && value.value in seen then [RowError(i, field, message)] else []
  }

  function Seen(value: Option<string>, seen: set<string>): set<string> {
    if value.Some? then seen + {value.value} else seen
  }

  function BadEmails(e: Env, parts: seq<string>, i: nat): seq<RowError> {
    if parts == [] then []
    else
      var n := |parts| - 1;
      var front := BadEmails(e, parts[..n], i);
      if e.emailMatches(parts[n]) then front
      else front + [RowError(i, "client_email", "invalid email: " + parts[n])]
  }

  function EmailErrors(e: Env, row: seq<Cell>, i: nat): seq<RowError> {
    match Get(row, EMAIL)
    case None => []
    case Some(v) =>
      var parts := SplitEmails(v);
      if parts == [] then [RowError(i, "client_email", "missing")] else BadEmails(e, parts, i)
  }

  function YearErrors(row: seq<Cell>, i: nat): seq<RowError> {
    var v := Get(row, YEAR);
    if v.Some? && v.value !in YEARS then [RowError(i, "financial_year", "invalid financial_year")] else []
  }

  function ActiveErrors(e: Env, row: seq<Cell>, i: nat): seq<RowError> {
    var v := Get(row, ACTIVE);
    if v.Some? && e.upper(Strip(Space, v.value)) !in BOOLEANS then [RowError(i, "active", "must be TRUE/FALSE")]
    else []
  }

  function PriorityErrors(e: Env, row: seq<Cell>, i: nat): seq<RowError> {
    var v := Get(row, PRIORITY);
    if v.Some? && e.upper(v.value) !in PRIORITIES then
      [RowError(i, "priority", "invalid priority (HIGH/MEDIUM/LOW)")]
    else []
  }

  predicate GoodWindow(w: Option<int>) { w.Some? && w.value in WINDOWS }

  function WindowErrors(e: Env, row: seq<Cell>, i: nat): seq<RowError> {
    var v := Get(row, WINDOW);
    if v.Some? && !GoodWindow(e.parseInt(v.value)) then
      [RowError(i, "preferred_run_window", "invalid run window (15\U{2013}20)")]
    else []
  }

  const DUP_GSTIN := "duplicate GSTIN"
  const DUP_USERNAME := "duplicate username"

  function ChoiceErrors(e: Env, row: seq<Cell>, i: nat): seq<RowError> {
    YearErrors(row, i) + ActiveErrors(e, row, i) + PriorityErrors(e, row, i) + WindowErrors(e, row, i)
  }

  function IdentityErrors(e: Env, row: seq<Cell>, i: nat, gstins: set<string>, usernames: set<string>): seq<RowError> {
    GstinErrors(e, row, i) + Duplicate(i, "gstin", DUP_GSTIN, GstinOf(e, row), gstins)
    + Duplicate(i, "username", DUP_USERNAME, UsernameOf(row), usernames)
  }

  function RowErrors(e: Env, row: seq<Cell>, i: nat, gstins: set<string>, usernames: set<string>): seq<RowError> {
    MissingErrors(row, i, |REQUIRED|)
    + IdentityErrors(e, row, i, gstins, usernames) + EmailErrors(e, row, i) + ChoiceErrors(e, row, i)
  }

  lemma Regroup<T>(s: seq<T>, a: seq<T>, b: seq<T>, c: seq<T>, d: seq<T>)
    ensures s + a + b + c + d == s + (a + b + c + d)
  {
  }

  // ---------------------------------------------------------------- the rows of a sheet

  // A row as returned: its number and its normalized values, some of them rewritten.
  datatype OutRow = OutRow(rownum: nat, values: seq<Option<string>>)

  // ", ".join(...)
  function CommaJoined(parts: seq<string>): string {
    if parts == [] then "" else if |parts| == 1 then parts[0] else parts[0] + ", " + CommaJoined(parts[1..])
  }

  function OutValue(e: Env, row: seq<Cell>, k: nat): Option<string> {
    var v := Get(row, k);
    if v == None then None
    else if k == GSTIN then Some(e.upper(Unspaced(v.value)))
    else if k == PRIORITY || k == ACTIVE then Some(e.upper(v.value))
    else if k == EMAIL then Some(CommaJoined(SplitEmails(v.value)))
    else v
  }

  function OutValues(e: Env, row: seq<Cell>, n: nat): seq<Option<string>> {
    if n == 0 then [] else OutValues(e, row, n - 1) + [OutValue(e, row, n - 1)]
  }

  datatype Scan = Scan(gstins: set<string>, usernames: set<string>, errors: seq<RowError>, rows: seq<OutRow>)

  const START := Scan({}, {}, [], [])

  function ScanRow(e: Env, s: Scan, row: seq<Cell>, i: nat): Scan {
    if IsBlank(row) then s
    else
      Scan(
        Seen(GstinOf(e, row), s.gstins), Seen(UsernameOf(row), s.usernames),
        s.errors + RowErrors(e, row, i, s.gstins, s.usernames),
        s.rows + [OutRow(i, OutValues(e, row, |COLUMNS|))])
  }

  // Data rows are numbered from 2.
  function ScanAll(e: Env, rows: seq<seq<Cell>>): Scan {
    if rows == [] then START
    else ScanRow(e, ScanAll(e, rows[..|rows| - 1]), rows[|rows| - 1], |rows| + 1)
  }

  datatype ParseResult = ParseResult(rows: seq<OutRow>, errors: seq<RowError>)

  const NO_SHEET := RowError(0, "sheet", "missing 'CLIENT_MASTER' sheet")
  const DIAGNOSTIC := RowError(0, "diagnostic", "sheetnames")
  const BAD_HEADER := RowError(1, "header", "invalid header")

  function ParseSheet(e: Env, sheet: Sheet): ParseResult {
    if NormHeaders(e, sheet.header) != COLUMNS then ParseResult([], [DIAGNOSTIC, BAD_HEADER])
    else ParseResult(ScanAll(e, sheet.rows).rows, ScanAll(e, sheet.rows).errors)
  }

  // `parse`, on the sheets of a workbook by name.
  function ParseBook(e: Env, book: map<string, Sheet>): ParseResult {
    if "CLIENT_MASTER" in book then ParseSheet(e, book["CLIENT_MASTER"])
    else if "clients" in book then ParseSheet(e, book["clients"])
    else ParseResult([], [NO_SHEET])
  }

  class ClientMasterParser {
    const env: Env
    var gstins: set<string>
    var usernames: set<string>
    var errors: seq<RowError>
    var rows: seq<OutRow>

    ghost function State(): Scan
      reads this
    {
      Scan(gstins, usernames, errors, rows)
    }

    method CheckMissing(row: seq<Cell>, i: nat)
      modifies this`errors
      ensures errors == old(errors) + MissingErrors(row, i, |REQUIRED|)
    {
      for n := 0 to |REQUIRED|
        invariant errors == old(errors) + MissingErrors(row, i, n)
      {
        if Get(row, REQUIRED[n]) == None {
          errors := errors + [RowError(i, COLUMNS[REQUIRED[n]], "missing")];
        }
      }
    }

    method CheckGstin(row: seq<Cell>, i: nat)
      modifies this`errors, this`gstins
      ensures errors == old(errors) + GstinErrors(env, row, i)
        + Duplicate(i, "gstin", DUP_GSTIN, GstinOf(env, row), old(gstins))
      ensures gstins == Seen(GstinOf(env, row), old(gstins))
    {
      var gstin := Get(row, GSTIN);
      if gstin.Some? {
        var u := Unspaced(env.upper(gstin.value));
        if |u| != 15 {
          errors := errors + [RowError(i, "gstin", "must be 15 characters")];
        } else if !env.gstinMatches(u) {
          errors := errors + [RowError(i, "gstin", "invalid GSTIN format")];
        }
        if u in gstins {
          errors := errors + [RowError(i, "gstin", DUP_GSTIN)];
        }
        gstins := gstins + {u};
      }
    }

    method CheckUsername(row: seq<Cell>, i: nat)
      modifies this`errors, this`usernames
      ensures errors == old(errors) + Duplicate(i, "username", DUP_USERNAME, UsernameOf(row), old(usernames))
      ensures usernames == Seen(UsernameOf(row), old(usernames))
    {
      var username := Get(row, USERNAME);
      if username.Some? {
        var u := Strip(Space, username.value);
        if u in usernames {
          errors := errors + [RowError(i, "username", DUP_USERNAME)];
        }
        usernames := usernames + {u};
      }
    }

    method CheckEmails(row: seq<Cell>, i: nat)
      modifies this`errors
      ensures errors == old(errors) + EmailErrors(env, row, i)
    {
      var emails := Get(row, EMAIL);
      if emails.Some? {
        var parts := SplitEmails(emails.value);
        if parts == [] {
          errors := errors + [RowError(i, "client_email", "missing")];
        } else {
          for n := 0 to |parts|
            invariant errors == old(errors) + BadEmails(env, parts[..n], i)
          {
            assert parts[..n + 1][..n] == parts[..n];
            if !env.emailMatches(parts[n]) {
              errors := errors + [RowError(i, "client_email", "invalid email: " + parts[n])];
            }
          }
          assert parts[..|parts|] == parts;
        }
      }
    }

    method CheckChoices(row: seq<Cell>, i: nat)
      modifies this`errors
      ensures errors == old(errors) + ChoiceErrors(env, row, i)
    {
      ghost var was := errors;
      errors := errors + YearErrors(row, i);
      errors := errors + ActiveErrors(env, row, i);
      errors := errors + PriorityErrors(env, row, i);
      errors := errors + WindowErrors(env, row, i);
      Regroup(
        was, YearErrors(row, i), ActiveErrors(env, row, i), PriorityErrors(env, row, i), WindowErrors(env, row, i));
    }

    method CheckIdentity(row: seq<Cell>, i: nat)
      modifies this`errors, this`gstins, this`usernames
      ensures errors == old(errors) + IdentityErrors(env, row, i, old(gstins), old(usernames))
      ensures gstins == Seen(GstinOf(env, row), old(gstins))
      ensures usernames == Seen(UsernameOf(row), old(usernames))
    {
      CheckGstin(row, i);
      CheckUsername(row, i);
    }

    method CheckFields(row: seq<Cell>, i: nat)
      modifies this`errors, this`gstins, this`usernames
      ensures errors == old(errors) + RowErrors(env, row, i, old(gstins), old(usernames))
      ensures gstins == Seen(GstinOf(env, row), old(gstins))
      ensures usernames == Seen(UsernameOf(row), old(usernames))
    {
      ghost var was, g, u := errors, gstins, usernames;
      CheckMissing(row, i);
      CheckIdentity(row, i);
      CheckEmails(row, i);
      CheckChoices(row, i);
      Regroup(
        was, MissingErrors(row, i, |REQUIRED|), IdentityErrors(env, row, i, g, u), EmailErrors(env, row, i),
        ChoiceErrors(env, row, i));
    }

    method CheckRow(row: seq<Cell>, i: nat)
      requires !IsBlank(row)
      modifies this
      ensures State() == ScanRow(env, old(State()), row, i)
    {
      CheckFields(row, i);
      rows := rows + [OutRow(i, OutValues(env, row, |COLUMNS|))];
    }

    method ScanRows(data: seq<seq<Cell>>)
      requires State() == START
      modifies this
      ensures State() == ScanAll(env, data)
    {
      for n := 0 to |data|
        invariant State() == ScanAll(env, data[..n])
      {
        assert data[..n + 1][..n] == data[..n];
        if !IsBlank(data[n]) {
          CheckRow(data[n], n + 2);
        }
      }
      assert data[..|data|] == data;
    }

    method Parse(book: map<string, Sheet>) returns (r: ParseResult)
      modifies this
      ensures r == ParseBook(env, book)
      ensures "CLIENT_MASTER" !in book && "clients" !in book ==>
        r == ParseResult([], [RowError(0, "sheet", "missing 'CLIENT_MASTER' sheet")])
      ensures "CLIENT_MASTER" in book || "clients" in book ==>
        var sheet := if "CLIENT_MASTER" in book then book["CLIENT_MASTER"] else book["clients"];
        if NormHeaders(env, sheet.header)
          == ["client_id", "client_name", "gstin", "username", "password", "client_email", "financial_year",
              "active", "priority", "tags", "preferred_run_window", "notes"]
        then r.rows == ScanAll(env, sheet.rows).rows && r.errors == ScanAll(env, sheet.rows).errors
        else
          && r.rows == [] && |r.errors| == 2
          && r.errors[0].row == 0 && r.errors[0].field == "diagnostic"
          && r.errors[1].row == 1 && r.errors[1].field == "header"
    {
      gstins, usernames, errors, rows := {}, {}, [], [];
      var sheet: Sheet;
      if "CLIENT_MASTER" in book {
        sheet := book["CLIENT_MASTER"];
      } else if "clients" in book {
        sheet := book["clients"];
      } else {
        return ParseResult([], [NO_SHEET]);
      }
      if NormHeaders(env, sheet.header) != COLUMNS {
        return ParseResult([], [DIAGNOSTIC, BAD_HEADER]);
      }
      ScanRows(sheet.rows);
      return ParseResult(rows, errors);
    }
  }
}
