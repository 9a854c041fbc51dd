/** Client records: a few administrative fields every record has, plus a
    free-form map from column id to text that grows as the schema grows
    (src/App.jsx, `addClient`, `updateClient`, `addLog`, `deleteClient`). */
module Clients {
  import opened Wrappers
  import opened Seqs
  import opened Text

  /** One activity-log entry: a clock reading as id, a display timestamp and the note. */
  datatype Log = Log(id: int, date: string, text: string)

  /** A client record. `logs` is None for a record saved without a log list;
      `fields` holds every other key, including keys of columns deleted since. */
  datatype Client = Client(
    id: string,
    status: string,
    lastContact: string,
    logs: Option<seq<Log>>,
    fields: map<string, string>)

  /** The keys held by the administrative fields rather than by `fields`. */
  predicate IsAdminKey(k: string) {
    k == "id" || k == "status" || k == "lastContact" || k == "logs"
  }

  /** No key is stored twice: `fields` never shadows an administrative field. */
  predicate WellFormed(c: Client) {
    forall k :: k in c.fields ==> !IsAdminKey(k)
  }

  /** The key a client is identified by. */
  function ClientKey(c: Client): string {
    c.id
  }

  /** The key a log entry is identified by. */
  function LogKey(l: Log): int {
    l.id
  }

  /** The log list, with a missing one read as empty: `c.logs || []`. */
  function LogsOrEmpty(logs: Option<seq<Log>>): seq<Log> {
    logs.GetOr([])
  }

  /** What JavaScript prints for any plain object. */
  const ObjectText := "[object Object]"

  /** `Array.prototype.toString` of a log list: one `[object Object]` per
      entry, separated by commas. */
  function LogsText(logs: seq<Log>): (r: string)
    ensures r == [] <==> logs == []
    ensures logs != [] ==> |r| >= |ObjectText| && r[..|ObjectText|] == ObjectText
  {
    if |logs| == 0 then ""
    else if |logs| == 1 then ObjectText
    else ObjectText + "," + LogsText(logs[1..])
  }

  /** The keys present on a record, as `Object.keys` lists them. */
  function Keys(c: Client): set<string> {
    {"id", "status", "lastContact"} + (if c.logs.Some? then {"logs"} else {}) + c.fields.Keys
  }

  /** Reading key `f` of a record as text, `client[f] || ''`: absent keys read
      as the empty string, and the log list reads as it prints. */
  function Cell(c: Client, f: string): string {
    if f == "id" then c.id
    else if f == "status" then c.status
    else if f == "lastContact" then c.lastContact
    else if f == "logs" then LogsText(LogsOrEmpty(c.logs))
    else if f in c.fields then c.fields[f]
    else ""
  }

  /** Tolerant read: a key the record does not have reads as empty text. */
  lemma MissingKeyReadsEmpty(c: Client, f: string)
    requires f !in Keys(c)
    ensures Cell(c, f) == ""
  {
  }

  /** Cells, keys and logs are a complete view of a well-formed record: two
      records that agree on all three are the same record. */
  lemma CellsDetermineClient(a: Client, b: Client)
    requires WellFormed(a) && WellFormed(b)
    requires Keys(a) == Keys(b)
    requires a.logs == b.logs
    requires forall f :: Cell(a, f) == Cell(b, f)
    ensures a == b
  {
    assert Cell(a, "id") == Cell(b, "id");
    assert Cell(a, "status") == Cell(b, "status");
    assert Cell(a, "lastContact") == Cell(b, "lastContact");
    assert a.fields.Keys == b.fields.Keys by {
      forall k | k in a.fields
        ensures k in b.fields
      {
        assert k in Keys(b);
      }
      forall k | k in b.fields
        ensures k in a.fields
      {
        assert k in Keys(a);
      }
    }
    forall k | k in a.fields
      ensures a.fields[k] == b.fields[k]
    {
      assert Cell(a, k) == Cell(b, k);
    }
  }

  // ---------------------------------------------------------------- adding

  /** The text fields a new record is created with, all empty. */
  const StarterFields: map<string, string> :=
    map["company" := "", "industry" := "", "contact" := "", "email" := "", "demoLink" := ""]

  /** `addClient` with the clock reading `id` and today's date `today`: the new
      record goes first, the old ones follow unchanged. */
  function AddClient(clients: seq<Client>, id: string, today: string): (r: seq<Client>)
    ensures |r| == |clients| + 1
    ensures r[1..] == clients
    ensures r[0].id == id && r[0].status == "Lead" && r[0].lastContact == today
    ensures r[0].logs == Some([])
    ensures WellFormed(r[0])
    ensures r[0].fields.Keys == {"company", "industry", "contact", "email", "demoLink"}
    ensures forall f :: !IsAdminKey(f) ==> Cell(r[0], f) == ""
  {
    [Client(id, "Lead", today, Some([]), StarterFields)] + clients
  }

  // ---------------------------------------------------------------- editing

  /** `{ ...c, [f]: v }` for a key other than `logs`. */
  function SetField(c: Client, f: string, v: string): (r: Client)
    requires f != "logs"
    ensures Cell(r, f) == v
    ensures forall g :: g != f ==> Cell(r, g) == Cell(c, g)
    ensures r.logs == c.logs
    ensures Keys(r) == Keys(c) + {f}
    ensures WellFormed(c) ==> WellFormed(r)
  {
    if f == "id" then c.(id := v)
    else if f == "status" then c.(status := v)
    else if f == "lastContact" then c.(lastContact := v)
    else c.(fields := c.fields[f := v])
  }

  /** `updateClient(id, field, value)`: every record with that id gets the field
      written; every other record, and the order, stay as they were. */
  function UpdateClient(clients: seq<Client>, id: string, field: string, value: string): (r: seq<Client>)
    requires field != "logs"
    ensures |r| == |clients|
    ensures forall i :: 0 <= i < |clients| && clients[i].id == id ==>
      && Cell(r[i], field) == value
      && (forall g :: g != field ==> Cell(r[i], g) == Cell(clients[i], g))
      && Keys(r[i]) == Keys(clients[i]) + {field}
      && r[i].logs == clients[i].logs
    ensures forall i :: 0 <= i < |clients| && clients[i].id != id ==> r[i] == clients[i]
    ensures FreshKey(clients, ClientKey, id) ==> r == clients
  {
    seq(|clients|, i requires 0 <= i < |clients| =>
      if clients[i].id == id then SetField(clients[i], field, value) else clients[i])
  }

  // ---------------------------------------------------------------- deleting

  /** Keeps the records whose id is not `id`. */
  function OtherClient(id: string): Client -> bool {
    (c: Client) => c.id != id
  }

  /** Dropping an id no record carries drops nothing. */
  lemma AbsentClientKeepsAll(clients: seq<Client>, id: string)
    ensures FreshKey(clients, ClientKey, id) ==> Filter(clients, OtherClient(id)) == clients
  {
    if FreshKey(clients, ClientKey, id) {
      FilterKeepsAll(clients, OtherClient(id));
    }
  }

  /** `deleteClient(id)` with the confirmation answer `confirmed`: when confirmed,
      exactly the records with a different id remain. */
  function DeleteClient(clients: seq<Client>, id: string, confirmed: bool): (r: seq<Client>)
    ensures !confirmed ==> r == clients
    ensures confirmed ==>
      && (forall i :: 0 <= i < |r| ==> r[i] in clients && r[i].id != id)
      && (forall i :: 0 <= i < |clients| && clients[i].id != id ==> clients[i] in r)
    ensures FreshKey(clients, ClientKey, id) ==> r == clients
  {
    if confirmed then
      AbsentClientKeepsAll(clients, id);
      Filter(clients, OtherClient(id))
    else clients
  }

  /** The surviving records keep their order and their multiplicity. */
  lemma DeleteClientKeepsOrder(clients: seq<Client>, id: string, confirmed: bool)
    ensures IsSubseq(DeleteClient(clients, id, confirmed), clients)
    ensures forall c: Client :: c.id != id ==> multiset(DeleteClient(clients, id, confirmed))[c] == multiset(clients)[c]
  {
    if confirmed {
      FilterIsSubseq(clients, OtherClient(id));
      forall c: Client | c.id != id
        ensures multiset(DeleteClient(clients, id, confirmed))[c] == multiset(clients)[c]
      {
        FilterMultiplicity(clients, OtherClient(id), c);
      }
    } else {
      SubseqOfSelf(clients);
    }
  }

  // ---------------------------------------------------------------- logging

  /** Records `entry` on client `c` dated `today`: newest entry first. */
  function Logged(c: Client, entry: Log, today: string): Client {
    c.(logs := Some([entry] + LogsOrEmpty(c.logs)), lastContact := today)
  }

  /** `addLog(clientId)` for the draft text `text`, with the clock reading `logId`,
      the display timestamp `stamp` and today's date `today`. Blank text changes
      nothing; otherwise each record with that id gets the entry, holding the
      text exactly as typed, ahead of its old entries, and its last-contact date
      moves to today. */
  function AddLog(clients: seq<Client>, clientId: string, text: string, logId: int, stamp: string, today: string): (r: seq<Client>)
    ensures IsBlank(text) ==> r == clients
    ensures |r| == |clients|
    ensures !IsBlank(text) ==> forall i :: 0 <= i < |clients| && clients[i].id == clientId ==>
      && r[i].logs == Some([Log(logId, stamp, text)] + LogsOrEmpty(clients[i].logs))
      && r[i].lastContact == today
      && r[i].id == clients[i].id
      && r[i].status == clients[i].status
      && r[i].fields == clients[i].fields
    ensures forall i :: 0 <= i < |clients| && clients[i].id != clientId ==> r[i] == clients[i]
  {
    if IsBlank(text) then clients
    else
      seq(|clients|, i requires 0 <= i < |clients| =>
        if clients[i].id == clientId then Logged(clients[i], Log(logId, stamp, text), today) else clients[i])
  }

  /** Whitespace-only notes are exactly the ones refused. */
  lemma AddLogRefusesOnlyWhitespace(clients: seq<Client>, clientId: string, text: string, logId: int, stamp: string, today: string)
    requires exists i :: 0 <= i < |clients| && clients[i].id == clientId
    ensures AddLog(clients, clientId, text, logId, stamp, today) == clients <==> AllSpace(text)
  {
    BlankIffAllSpace(text);
    var i :| 0 <= i < |clients| && clients[i].id == clientId;
    var r := AddLog(clients, clientId, text, logId, stamp, today);
    if !AllSpace(text) {
      assert |LogsOrEmpty(r[i].logs)| == |LogsOrEmpty(clients[i].logs)| + 1;
    }
  }

  // ---------------------------------------------------------------- invariant

  /** What the store keeps true of its records: unique ids, no shadowed keys,
      and unique log ids within each record. */
  ghost predicate ValidClients(clients: seq<Client>) {
    && DistinctBy(clients, ClientKey)
    && forall i :: 0 <= i < |clients| ==>
         WellFormed(clients[i]) && DistinctBy(LogsOrEmpty(clients[i].logs), LogKey)
  }

  /** A record created with a fresh id keeps the records valid. */
  lemma AddClientKeepsValid(clients: seq<Client>, id: string, today: string)
    requires ValidClients(clients)
    requires FreshKey(clients, ClientKey, id)
    ensures ValidClients(AddClient(clients, id, today))
  {
    var r := AddClient(clients, id, today);
    PrependFresh(clients, ClientKey, r[0]);
    assert r == [r[0]] + clients;
  }

  /** Writing any field but the id and the log list keeps the records valid. */
  lemma UpdateClientKeepsValid(clients: seq<Client>, id: string, field: string, value: string)
    requires ValidClients(clients)
    requires field != "logs" && field != "id"
    ensures ValidClients(UpdateClient(clients, id, field, value))
  {
    var r := UpdateClient(clients, id, field, value);
    assert forall i :: 0 <= i < |r| ==> r[i].id == clients[i].id;
  }

  /** Deleting keeps the records valid. */
  lemma DeleteClientKeepsValid(clients: seq<Client>, id: string, confirmed: bool)
    requires ValidClients(clients)
    ensures ValidClients(DeleteClient(clients, id, confirmed))
  {
    if confirmed {
      FilterKeepsDistinct(clients, ClientKey, OtherClient(id));
    }
  }

  /** A log entry with an id fresh for its record keeps the records valid. */
  lemma AddLogKeepsValid(clients: seq<Client>, clientId: string, text: string, logId: int, stamp: string, today: string)
    requires ValidClients(clients)
    requires forall i :: 0 <= i < |clients| && clients[i].id == clientId ==>
      FreshKey(LogsOrEmpty(clients[i].logs), LogKey, logId)
    ensures ValidClients(AddLog(clients, clientId, text, logId, stamp, today))
  {
    var r := AddLog(clients, clientId, text, logId, stamp, today);
    assert forall i :: 0 <= i < |r| ==> r[i].id == clients[i].id;
    forall i | 0 <= i < |r|
      ensures WellFormed(r[i]) && DistinctBy(LogsOrEmpty(r[i].logs), LogKey)
    {
      if !IsBlank(text) && clients[i].id == clientId {
        PrependFresh(LogsOrEmpty(clients[i].logs), LogKey, Log(logId, stamp, text));
      }
    }
  }
}
