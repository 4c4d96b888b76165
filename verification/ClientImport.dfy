// clients/service.py: importing client rows into the client, configuration and credential
// tables and into the vault (vault/file_vault.py), and reading the credentials back.

module ClientImport {
  import opened Collections

  // The canonical text of a client's UUID.
  type ClientId = string

  datatype Row = Row(
    id: ClientId, name: string, gstin: string, username: string, password: string, email: string,
    financialYear: string, active: bool, priority: string, tags: Option<string>, runWindow: int,
    notes: Option<string>, folderRoot: string, retryPolicy: string, sessionReuse: bool)

  datatype Client = Client(gstin: string, displayName: string, status: string)

  datatype Config = Config(
    email: string, ccEmail: Option<string>, active: int, priority: int, folderRoot: string, retryPolicy: string,
    sessionReuse: int, financialYear: string, runWindow: int, tags: Option<string>, notes: Option<string>)

  datatype CredentialRef = CredentialRef(username: string, secretKey: string)

  datatype Store = Store(
    clients: map<ClientId, Client>, configs: map<ClientId, Config>, refs: map<ClientId, CredentialRef>,
    vault: map<string, string>)

  // str.upper, and the vault's cipher: a token depends on a fresh nonce.
  datatype Env = Env(upper: string -> string, encrypt: (nat, string) -> string, decrypt: string -> Option<string>)

  ghost predicate Decrypts(e: Env) { forall n, p :: e.decrypt(e.encrypt(n, p)) == Some(p) }

  const PRIORITY_MAP := map["HIGH" := 2, "MEDIUM" := 5, "LOW" := 8]

  function PriorityOf(e: Env, r: Row): int {
    var u := e.upper(r.priority);
    if u in PRIORITY_MAP then PRIORITY_MAP[u] else 5
  }

  function ClientOf(e: Env, r: Row): Client {
    Client(e.upper(r.gstin), r.name, if r.active then "active" else "disabled")
  }

  function ConfigOf(e: Env, r: Row): Config {
    Config(
      r.email, None, if r.active then 1 else 0, PriorityOf(e, r), r.folderRoot, r.retryPolicy,
      if r.sessionReuse then 1 else 0, r.financialYear, r.runWindow, r.tags, r.notes)
  }

  const NAMESPACE := "client"

  function SecretName(id: ClientId): string { id + ":gst_password" }

  // SecretRef.to_id
  function RefId(namespace: string, key: string): string { namespace + ":" + key }

  function SecretKey(id: ClientId): string { RefId(NAMESPACE, SecretName(id)) }

  function Upsert(e: Env, s: Store, r: Row, nonce: nat): Store {
    Store(
      s.clients[r.id := ClientOf(e, r)],
      s.configs[r.id := ConfigOf(e, r)],
      s.refs[r.id := CredentialRef(r.username, SecretKey(r.id))],
      s.vault[SecretKey(r.id) := e.encrypt(nonce, r.password)])
  }

  // The store after all rows; row i is encrypted with nonces(i).
  function Import(e: Env, s: Store, rows: seq<Row>, nonces: nat -> nat): Store {
    if rows == [] then s
    else
      var n := |rows| - 1;
      Upsert(e, Import(e, s, rows[..n], nonces), rows[n], nonces(n))
  }

  // value.split(":", 1)
  function SplitOnce(s: string): Option<(string, string)> {
    if s == "" then None
    else if s[0] == ':' then Some(("", s[1..]))
    else
      match SplitOnce(s[1..])
      case Some(p) => Some(([s[0]] + p.0, p.1))
      case None => None
  }

  function GetSecret(e: Env, vault: map<string, string>, namespace: string, key: string): Option<string> {
    if RefId(namespace, key) in vault then e.decrypt(vault[RefId(namespace, key)]) else None
  }

  // `get_credentials`; None is an exception.
  function Credentials(e: Env, s: Store, id: ClientId): Option<(string, string)> {
    if id !in s.refs then None
    else
      match SplitOnce(s.refs[id].secretKey)
      case None => None
      case Some(p) =>
        match GetSecret(e, s.vault, p.0, p.1)
        case None => None
        case Some(password) => Some((s.refs[id].username, password))
  }

  function Ids(rows: seq<Row>): set<ClientId> {
    if rows == [] then {} else Ids(rows[..|rows| - 1]) + {rows[|rows| - 1].id}
  }

  // How many clients of the rows are not known yet.
  ghost function NewIds(known: set<ClientId>, rows: seq<Row>): nat { |Ids(rows) - known| }

  class ClientService {
    const env: Env
    var clients: map<ClientId, Client>
    var configs: map<ClientId, Config>
    var refs: map<ClientId, CredentialRef>
    var vault: map<string, string>

    ghost function Contents(): Store
      reads this
    {
      Store(clients, configs, refs, vault)
    }

    method PutClient(r: Row) returns (isNew: bool)
      modifies this`clients
      ensures isNew == (r.id !in old(clients))
      ensures clients == old(clients)[r.id := ClientOf(env, r)]
    {
      isNew := r.id !in clients;
      if isNew {
        clients := clients[r.id := Client(env.upper(r.gstin), r.name, if r.active then "active" else "disabled")];
      } else {
        var client := clients[r.id];
        client := client.(displayName := r.name);
        client := client.(gstin := env.upper(r.gstin));
        client := client.(status := if r.active then "active" else "disabled");
        clients := clients[r.id := client];
      }
    }

    method PutConfig(r: Row)
      modifies this`configs
      ensures configs == old(configs)[r.id := ConfigOf(env, r)]
    {
      if r.id !in configs {
        configs := configs[r.id := ConfigOf(env, r)];
      } else {
        var c := configs[r.id];
        c := c.(email := r.email, ccEmail := None, active := if r.active then 1 else 0);
        c := c.(priority := PriorityOf(env, r), folderRoot := r.folderRoot, retryPolicy := r.retryPolicy);
        c := c.(sessionReuse := if r.sessionReuse then 1 else 0, financialYear := r.financialYear);
        c := c.(runWindow := r.runWindow, tags := r.tags, notes := r.notes);
        configs := configs[r.id := c];
      }
    }

    method PutCredentials(r: Row, nonce: nat)
      modifies this`refs, this`vault
      ensures refs == old(refs)[r.id := CredentialRef(r.username, SecretKey(r.id))]
      ensures vault == old(vault)[SecretKey(r.id) := env.encrypt(nonce, r.password)]
    {
      var key := RefId(NAMESPACE, SecretName(r.id));
      vault := vault[key := env.encrypt(nonce, r.password)];
      if r.id !in refs {
        refs := refs[r.id := CredentialRef(r.username, key)];
      } else {
        var ref := refs[r.id];
        ref := ref.(username := r.username);
        ref := ref.(secretKey := key);
        refs := refs[r.id := ref];
      }
    }

    method UpsertRow(r: Row, nonce: nat) returns (isNew: bool)
      modifies this
      ensures Contents() == Upsert(env, old(Contents()), r, nonce)
      ensures isNew == (r.id !in old(clients))
    {
      isNew := PutClient(r);
      PutConfig(r);
      PutCredentials(r, nonce);
    }

    method UpsertFromImport(rows: seq<Row>, nonces: nat -> nat) returns (created: nat, updated: nat)
      modifies this
      ensures Contents() == Import(env, old(Contents()), rows, nonces)
      ensures created == NewIds(old(clients).Keys, rows)
      ensures created == |(set r | r in rows :: r.id) - old(clients).Keys|
      ensures created + updated == |rows|
    {
      created, updated := 0, 0;
      ghost var start := Contents();
      assert Import(env, start, rows[..0], nonces) == start && NewIds(start.clients.Keys, rows[..0]) == 0;
      hide Import, Upsert, Ids, NewIds;
      for i := 0 to |rows|
        invariant Contents() == Import(env, start, rows[..i], nonces)
        invariant created == NewIds(start.clients.Keys, rows[..i])
        invariant created + updated == i
      {
        OneMoreRow(env, start, rows, nonces, i);
        var isNew := UpsertRow(rows[i], nonces(i));
        if isNew {
          created := created + 1;
        } else {
          updated := updated + 1;
        }
      }
      assert rows[..|rows|] == rows;
      NewIdsAre(start.clients.Keys, rows);
    }

    method GetCredentials(id: ClientId) returns (r: Option<(string, string)>)
      ensures r == Credentials(env, Contents(), id)
    {
      if id !in refs {
        return None;
      }
      var parts := SplitOnce(refs[id].secretKey);
      if parts == None {
        return None;
      }
      var password := GetSecret(env, vault, parts.value.0, parts.value.1);
      return if password == None then None else Some((refs[id].username, password.value));
    }
  }

  lemma {:induction false} IdsOf(rows: seq<Row>)
    ensures Ids(rows) == set r | r in rows :: r.id
  {
    if rows != [] {
      var n := |rows| - 1;
      IdsOf(rows[..n]);
      assert rows == rows[..n] + [rows[n]];
    }
  }

  lemma ImportSnoc(e: Env, s: Store, rows: seq<Row>, nonces: nat -> nat, i: nat)
    requires i < |rows|
    ensures Import(e, s, rows[..i + 1], nonces) == Upsert(e, Import(e, s, rows[..i], nonces), rows[i], nonces(i))
    ensures rows[..i + 1] == rows[..i] + [rows[i]]
  {
    assert rows[..i + 1][..i] == rows[..i];
  }

  lemma NewIdsSnoc(known: set<ClientId>, rows: seq<Row>, r: Row)
    ensures NewIds(known, rows + [r]) == NewIds(known, rows) + if r.id in known + Ids(rows) then 0 else 1
  {
    assert (rows + [r])[..|rows|] == rows;
    var was := Ids(rows) - known;
    if r.id in known + Ids(rows) {
      assert Ids(rows + [r]) - known == was;
    } else {
      assert Ids(rows + [r]) - known == was + {r.id};
    }
  }

  lemma {:induction false} ImportedIds(e: Env, s: Store, rows: seq<Row>, nonces: nat -> nat)
    ensures Import(e, s, rows, nonces).clients.Keys == s.clients.Keys + Ids(rows)
  {
    if rows != [] {
      ImportedIds(e, s, rows[..|rows| - 1], nonces);
    }
  }

  lemma OneMoreRow(e: Env, s: Store, rows: seq<Row>, nonces: nat -> nat, i: nat)
    requires i < |rows|
    ensures var t, known := Import(e, s, rows[..i], nonces), s.clients.Keys;
      && Import(e, s, rows[..i + 1], nonces) == Upsert(e, t, rows[i], nonces(i))
      && NewIds(known, rows[..i + 1]) == NewIds(known, rows[..i]) + if rows[i].id in t.clients then 0 else 1
  {
    hide Upsert, NewIds;
    ImportedIds(e, s, rows[..i], nonces);
    ImportSnoc(e, s, rows, nonces, i);
    NewIdsSnoc(s.clients.Keys, rows[..i], rows[i]);
  }

  lemma NewIdsAre(known: set<ClientId>, rows: seq<Row>)
    ensures NewIds(known, rows) == |(set r | r in rows :: r.id) - known|
  {
    IdsOf(rows);
  }

  // ---------------------------------------------------------------- secret names

  lemma {:induction false} SplitAtFirst(a: string, b: string)
    requires ':' !in a
    ensures SplitOnce(a + ":" + b) == Some((a, b))
  {
    if a == "" {
      assert (a + ":" + b)[1..] == b;
    } else {
      SplitAtFirst(a[1..], b);
      assert (a + ":" + b)[1..] == a[1..] + ":" + b;
      assert a == [a[0]] + a[1..];
    }
  }

  lemma SecretKeysAreDistinct(a: ClientId, b: ClientId)
    ensures SecretKey(a) == SecretKey(b) ==> a == b
  {
    var x, y := SecretKey(a), SecretKey(b);
    assert x == "client:" + a + ":gst_password" && y == "client:" + b + ":gst_password";
    if x == y {
      assert a == x[7..|x| - 13] && b == y[7..|y| - 13];
    }
  }

  // ---------------------------------------------------------------- the last row of an id

  function LastRow(rows: seq<Row>, id: ClientId): Option<Row> {
    if rows == [] then None
    else if rows[|rows| - 1].id == id then Some(rows[|rows| - 1])
    else LastRow(rows[..|rows| - 1], id)
  }

  function Found<V>(m: map<ClientId, V>, id: ClientId): Option<V> {
    if id in m then Some(m[id]) else None
  }

  // The password that the vault holds for a client, read under its own key.
  function Password(e: Env, s: Store, id: ClientId): Option<string> {
    GetSecret(e, s.vault, NAMESPACE, SecretName(id))
  }

  // What the store says of one client.
  datatype Facts = Facts(
    client: Option<Client>, config: Option<Config>, ref: Option<CredentialRef>, password: Option<string>)

  function FactsOf(e: Env, s: Store, id: ClientId): Facts {
    Facts(Found(s.clients, id), Found(s.configs, id), Found(s.refs, id), Password(e, s, id))
  }

  function FactsFrom(e: Env, r: Row): Facts {
    Facts(
      Some(ClientOf(e, r)), Some(ConfigOf(e, r)), Some(CredentialRef(r.username, SecretKey(r.id))), Some(r.password))
  }

  lemma UpsertFacts(e: Env, s: Store, r: Row, nonce: nat, id: ClientId)
    requires Decrypts(e)
    ensures FactsOf(e, Upsert(e, s, r, nonce), id) == if r.id == id then FactsFrom(e, r) else FactsOf(e, s, id)
  {
    SecretKeysAreDistinct(r.id, id);
    assert e.decrypt(e.encrypt(nonce, r.password)) == Some(r.password);
  }

  /** After an import, what the store says of a client is what the last row with its id says;
      a client without a row is left as it was, its stored password included. */
  lemma {:induction false} LastRowWins(e: Env, s: Store, rows: seq<Row>, nonces: nat -> nat, id: ClientId)
    requires Decrypts(e)
    ensures FactsOf(e, Import(e, s, rows, nonces), id)
      == match LastRow(rows, id) case Some(r) => FactsFrom(e, r) case None => FactsOf(e, s, id)
    ensures LastRow(rows, id).Some? ==> LastRow(rows, id).value.id == id
  {
    if rows != [] {
      var n := |rows| - 1;
      LastRowWins(e, s, rows[..n], nonces, id);
      UpsertFacts(e, Import(e, s, rows[..n], nonces), rows[n], nonces(n), id);
    }
  }

  // Row k is the last one with its id.
  ghost predicate IsLast(rows: seq<Row>, k: nat) {
    k < |rows| && forall j :: k < j < |rows| ==> rows[j].id != rows[k].id
  }

  lemma {:induction false} LastRowIs(rows: seq<Row>, k: nat)
    requires IsLast(rows, k)
    ensures LastRow(rows, rows[k].id) == Some(rows[k])
  {
    var n := |rows| - 1;
    if k < n {
      assert IsLast(rows[..n], k);
      LastRowIs(rows[..n], k);
    }
  }

  /** Field by field: what a client's tables and its secret hold after an import, given its last
      row. */
  lemma ImportedExactly(e: Env, s: Store, rows: seq<Row>, nonces: nat -> nat, k: nat)
    requires Decrypts(e) && IsLast(rows, k)
    ensures var r, t := rows[k], Import(e, s, rows, nonces);
      var id, priority := r.id, e.upper(r.priority);
      && id in t.clients && t.clients[id].gstin == e.upper(r.gstin) && t.clients[id].displayName == r.name
      && t.clients[id].status == (if r.active then "active" else "disabled")
      && id in t.configs && t.configs[id].email == r.email && t.configs[id].ccEmail == None
      && t.configs[id].active == (if r.active then 1 else 0)
      && t.configs[id].priority == (if priority == "HIGH" then 2 else if priority == "LOW" then 8 else 5)
      && t.configs[id].folderRoot == r.folderRoot && t.configs[id].retryPolicy == r.retryPolicy
      && t.configs[id].sessionReuse == (if r.sessionReuse then 1 else 0)
      && t.configs[id].financialYear == r.financialYear && t.configs[id].runWindow == r.runWindow
      && t.configs[id].tags == r.tags && t.configs[id].notes == r.notes
      && id in t.refs && t.refs[id] == CredentialRef(r.username, "client:" + id + ":gst_password")
      && "client:" + id + ":gst_password" in t.vault
      && e.decrypt(t.vault["client:" + id + ":gst_password"]) == Some(r.password)
  {
    var r, t := rows[k], Import(e, s, rows, nonces);
    LastRowIs(rows, k);
    LastRowWins(e, s, rows, nonces, r.id);
    assert FactsOf(e, t, r.id) == FactsFrom(e, r);
    assert "client:" + r.id + ":gst_password" == "client" + ":" + (r.id + ":gst_password");
  }

  /** A client without a row keeps its record, its configuration and its reference. */
  lemma OthersAreUntouched(e: Env, s: Store, rows: seq<Row>, nonces: nat -> nat, id: ClientId)
    requires Decrypts(e) && forall r :: r in rows ==> r.id != id
    ensures var t := Import(e, s, rows, nonces);
      && (id in t.clients <==> id in s.clients) && (id in s.clients ==> t.clients[id] == s.clients[id])
      && (id in t.configs <==> id in s.configs) && (id in s.configs ==> t.configs[id] == s.configs[id])
      && (id in t.refs <==> id in s.refs) && (id in s.refs ==> t.refs[id] == s.refs[id])
  {
    NoLastRow(rows, id);
    LastRowWins(e, s, rows, nonces, id);
    assert FactsOf(e, Import(e, s, rows, nonces), id) == FactsOf(e, s, id);
  }

  lemma {:induction false} NoLastRow(rows: seq<Row>, id: ClientId)
    requires forall r :: r in rows ==> r.id != id
    ensures LastRow(rows, id) == None
  {
    if rows != [] {
      NoLastRow(rows[..|rows| - 1], id);
    }
  }

  // What the vault yields under a key.
  function Reading(e: Env, s: Store, key: string): Option<string> {
    if key in s.vault then e.decrypt(s.vault[key]) else None
  }

  function LastUnder(rows: seq<Row>, key: string): Option<Row> {
    if rows == [] then None
    else if SecretKey(rows[|rows| - 1].id) == key then Some(rows[|rows| - 1])
    else LastUnder(rows[..|rows| - 1], key)
  }

  lemma {:induction false} ReadingAfterImport(e: Env, s: Store, rows: seq<Row>, nonces: nat -> nat, key: string)
    requires Decrypts(e)
    ensures Reading(e, Import(e, s, rows, nonces), key)
      == match LastUnder(rows, key) case Some(r) => Some(r.password) case None => Reading(e, s, key)
  {
    if rows != [] {
      var n := |rows| - 1;
      ReadingAfterImport(e, s, rows[..n], nonces, key);
      assert e.decrypt(e.encrypt(nonces(n), rows[n].password)) == Some(rows[n].password);
    }
  }

  lemma SameReadingsSameCredentials(e: Env, s: Store, t: Store, id: ClientId)
    requires Found(s.refs, id) == Found(t.refs, id)
    requires forall key :: Reading(e, s, key) == Reading(e, t, key)
    ensures Credentials(e, s, id) == Credentials(e, t, id)
  {
    if id in s.refs {
      match SplitOnce(s.refs[id].secretKey)
      case None =>
      case Some(p) => assert Reading(e, s, RefId(p.0, p.1)) == Reading(e, t, RefId(p.0, p.1));
    }
  }

  /** Importing the same rows again, whatever they are and with other nonces, creates nothing
      and changes nothing that can be read. */
  lemma ReimportChangesNothing(
    e: Env, s: Store, rows: seq<Row>, nonces: nat -> nat, again: nat -> nat, id: ClientId)
    requires Decrypts(e)
    ensures var once := Import(e, s, rows, nonces);
      var twice := Import(e, once, rows, again);
      && NewIds(once.clients.Keys, rows) == 0
      && FactsOf(e, twice, id) == FactsOf(e, once, id)
      && Credentials(e, twice, id) == Credentials(e, once, id)
  {
    var once := Import(e, s, rows, nonces);
    ImportedIds(e, s, rows, nonces);
    assert Ids(rows) - once.clients.Keys == {};
    LastRowWins(e, s, rows, nonces, id);
    LastRowWins(e, once, rows, again, id);
    forall key ensures Reading(e, once, key) == Reading(e, Import(e, once, rows, again), key) {
      ReadingAfterImport(e, s, rows, nonces, key);
      ReadingAfterImport(e, once, rows, again, key);
    }
    SameReadingsSameCredentials(e, once, Import(e, once, rows, again), id);
  }

  // ---------------------------------------------------------------- reading credentials back

  lemma CredentialsFromFacts(e: Env, s: Store, id: ClientId, r: Row)
    requires r.id == id && FactsOf(e, s, id) == FactsFrom(e, r)
    ensures Credentials(e, s, id) == Some((r.username, r.password))
  {
    assert NAMESPACE + ":" + SecretName(id) == SecretKey(id);
    SplitAtFirst(NAMESPACE, SecretName(id));
  }

  /** The credentials of an imported client are the user name and password of its last row. */
  lemma CredentialsRoundTrip(e: Env, s: Store, rows: seq<Row>, nonces: nat -> nat, id: ClientId)
    requires Decrypts(e) && LastRow(rows, id).Some?
    ensures var r := LastRow(rows, id).value;
      Credentials(e, Import(e, s, rows, nonces), id) == Some((r.username, r.password))
  {
    LastRowWins(e, s, rows, nonces, id);
    CredentialsFromFacts(e, Import(e, s, rows, nonces), id, LastRow(rows, id).value);
  }

  // Each reference names the client's own secret, as every import leaves it.
  ghost predicate OwnKeys(s: Store) {
    forall id :: id in s.refs ==> s.refs[id].secretKey == SecretKey(id)
  }

  lemma {:induction false} ImportKeepsOwnKeys(e: Env, s: Store, rows: seq<Row>, nonces: nat -> nat)
    requires OwnKeys(s)
    ensures OwnKeys(Import(e, s, rows, nonces))
  {
    if rows != [] {
      ImportKeepsOwnKeys(e, s, rows[..|rows| - 1], nonces);
    }
  }

  /** A client without a row keeps its credentials. */
  lemma OthersKeepCredentials(e: Env, s: Store, rows: seq<Row>, nonces: nat -> nat, id: ClientId)
    requires Decrypts(e) && OwnKeys(s) && LastRow(rows, id) == None
    ensures Credentials(e, Import(e, s, rows, nonces), id) == Credentials(e, s, id)
  {
    LastRowWins(e, s, rows, nonces, id);
    assert NAMESPACE + ":" + SecretName(id) == SecretKey(id);
    SplitAtFirst(NAMESPACE, SecretName(id));
  }
}
