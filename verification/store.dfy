/** The record store as a whole: the three collections the app keeps, what
    is loaded at start-up, and each user action as a transition between
    store states (src/App.jsx, the state hooks and event handlers of `App`). */
module RecordStore {
  import opened Wrappers
  import opened Seqs
  import opened Text
  import opened Schema
  import opened Clients
  import opened Assets
  import opened Metrics

  /** The three independently saved collections. */
  datatype Store = Store(columns: seq<Column>, clients: seq<Client>, assets: seq<Asset>)

  /** The store at start-up from what local storage held for each collection
      (None when nothing was saved): no clients, the default schema, no assets. */
  function Initial(savedColumns: Option<seq<Column>>, savedClients: Option<seq<Client>>, savedAssets: Option<seq<Asset>>): (s: Store)
    ensures savedColumns == None ==> s.columns == DefaultColumns
    ensures savedClients == None ==> s.clients == []
    ensures savedAssets == None ==> s.assets == []
    ensures savedColumns.Some? ==> s.columns == savedColumns.value
    ensures savedClients.Some? ==> s.clients == savedClients.value
    ensures savedAssets.Some? ==> s.assets == savedAssets.value
  {
    Store(savedColumns.GetOr(DefaultColumns), savedClients.GetOr([]), savedAssets.GetOr([]))
  }

  /** One user action, with the clock readings, dates and dialog answers it
      consumes passed in. */
  datatype Command =
    | NewClient(id: string, today: string)
    | EditCell(clientId: string, field: string, value: string)
    | RemoveClient(clientId: string, confirmed: bool)
    | AppendLog(clientId: string, text: string, logId: int, stamp: string, today: string)
    | NewAsset(name: Option<string>, url: Option<string>, assetId: int)
    | InsertColumn(position: int, answer: Option<string>, token: string)
    | RemoveColumn(columnId: string, confirmed: bool)
  {
    /** Commands that only touch the client list. */
    predicate OnClients() {
      NewClient? || EditCell? || RemoveClient? || AppendLog?
    }
  }

  /** Applies one action. A refused column deletion leaves the store as it was. */
  function Apply(s: Store, cmd: Command): (r: Store)
    requires cmd.EditCell? ==> cmd.field != "logs"
    ensures cmd.OnClients() ==> r.columns == s.columns && r.assets == s.assets
    ensures cmd.NewAsset? ==> r.columns == s.columns && r.clients == s.clients
    ensures cmd.InsertColumn? || cmd.RemoveColumn? ==> r.clients == s.clients && r.assets == s.assets
    ensures cmd.RemoveColumn? && |s.columns| <= 1 ==> r == s
    ensures cmd.NewClient? ==> |r.clients| == |s.clients| + 1 && r.clients[1..] == s.clients
    ensures cmd.NewAsset? ==> |r.assets| <= |s.assets| + 1
  {
    match cmd
    case NewClient(id, today) => s.(clients := AddClient(s.clients, id, today))
    case EditCell(clientId, field, value) => s.(clients := UpdateClient(s.clients, clientId, field, value))
    case RemoveClient(clientId, confirmed) => s.(clients := DeleteClient(s.clients, clientId, confirmed))
    case AppendLog(clientId, text, logId, stamp, today) =>
      s.(clients := AddLog(s.clients, clientId, text, logId, stamp, today))
    case NewAsset(name, url, assetId) => s.(assets := AddAssetFromPrompts(s.assets, name, url, assetId))
    case InsertColumn(position, answer, token) => s.(columns := AddColumn(s.columns, position, answer, token))
    case RemoveColumn(columnId, confirmed) => s.(columns := DeleteColumn(s.columns, columnId, confirmed).GetOr(s.columns))
  }

  /** What the store keeps true: a valid schema, valid records, unique asset ids. */
  ghost predicate Valid(s: Store) {
    ValidSchema(s.columns) && ValidClients(s.clients) && DistinctBy(s.assets, AssetKey)
  }

  /** What the caller guarantees of an action: every clock reading that becomes an
      id is fresh in its collection, and a cell is edited only through a column of
      the current schema. */
  ghost predicate Admissible(s: Store, cmd: Command) {
    match cmd
    case NewClient(id, _) => FreshKey(s.clients, ClientKey, id)
    case EditCell(_, field, _) => exists i :: 0 <= i < |s.columns| && s.columns[i].id == field
    case RemoveClient(_, _) => true
    case AppendLog(clientId, _, logId, _, _) =>
      forall i :: 0 <= i < |s.clients| && s.clients[i].id == clientId ==>
        FreshKey(LogsOrEmpty(s.clients[i].logs), LogKey, logId)
    case NewAsset(_, _, assetId) => FreshKey(s.assets, AssetKey, assetId)
    case InsertColumn(_, answer, token) =>
      answer.Some? ==> FreshKey(s.columns, ColumnKey, ColumnId(answer.value, token))
    case RemoveColumn(_, _) => true
  }

  /** With nothing saved, the store starts valid. */
  lemma InitialIsValid()
    ensures Valid(Initial(None, None, None))
  {
    DefaultColumnsValid();
  }

  /** Every admissible action keeps a valid store valid. */
  lemma ApplyKeepsValid(s: Store, cmd: Command)
    requires Valid(s) && Admissible(s, cmd)
    ensures cmd.EditCell? ==> cmd.field != "logs" && cmd.field != "id"
    ensures Valid(Apply(s, cmd))
  {
    match cmd
    case NewClient(id, today) => AddClientKeepsValid(s.clients, id, today);
    case EditCell(clientId, field, value) =>
      var i :| 0 <= i < |s.columns| && s.columns[i].id == field;
      assert !IsStructuralKey(s.columns[i].id);
      UpdateClientKeepsValid(s.clients, clientId, field, value);
    case RemoveClient(clientId, confirmed) => DeleteClientKeepsValid(s.clients, clientId, confirmed);
    case AppendLog(clientId, text, logId, stamp, today) =>
      AddLogKeepsValid(s.clients, clientId, text, logId, stamp, today);
    case NewAsset(name, url, assetId) => AddAssetKeepsDistinct(s.assets, name, url, assetId);
    case InsertColumn(position, answer, token) => AddColumnKeepsValid(s.columns, position, answer, token);
    case RemoveColumn(columnId, confirmed) => DeleteColumnKeepsValid(s.columns, columnId, confirmed);
  }

  /** A run of actions each admissible in the state it meets. An edited cell is
      never `logs`, so every step is one `Apply` accepts. */
  ghost predicate AdmissibleRun(s: Store, cmds: seq<Command>)
    decreases |cmds|
  {
    |cmds| == 0 ||
      (Admissible(s, cmds[0]) &&
       (cmds[0].EditCell? ==> cmds[0].field != "logs") &&
       AdmissibleRun(Apply(s, cmds[0]), cmds[1..]))
  }

  /** The state after a run of actions. */
  ghost function Run(s: Store, cmds: seq<Command>): Store
    requires AdmissibleRun(s, cmds)
    decreases |cmds|
  {
    if |cmds| == 0 then s
    else Run(Apply(s, cmds[0]), cmds[1..])
  }

  /** However long the run, a store that starts valid stays valid: ids stay unique
      in every collection and the schema never empties. */
  lemma {:induction false} RunKeepsValid(s: Store, cmds: seq<Command>)
    requires Valid(s) && AdmissibleRun(s, cmds)
    ensures Valid(Run(s, cmds))
    ensures |Run(s, cmds).columns| >= 1
    decreases |cmds|
  {
    if |cmds| > 0 {
      ApplyKeepsValid(s, cmds[0]);
      RunKeepsValid(Apply(s, cmds[0]), cmds[1..]);
    }
  }

  /** Removing a column hides its data but keeps it: every cell of every record
      reads as before, so a column re-created under the same id shows it again. */
  lemma RemoveColumnKeepsCells(s: Store, columnId: string, confirmed: bool, i: nat, f: string)
    requires i < |s.clients|
    ensures i < |Apply(s, RemoveColumn(columnId, confirmed)).clients|
    ensures Cell(Apply(s, RemoveColumn(columnId, confirmed)).clients[i], f) == Cell(s.clients[i], f)
  {
  }

  /** The client list after a new client is given a company, moved to
      "Demo Built", and given a log entry, starting from an empty store. */
  function DemoScenario(id: string, today: string, note: string, logId: int, stamp: string, later: string): seq<Client> {
    var s0 := Initial(None, None, None);
    var s1 := Apply(s0, NewClient(id, today));
    var s2 := Apply(s1, EditCell(id, "company", "Acme"));
    var s3 := Apply(s2, EditCell(id, "status", "Demo Built"));
    Apply(s3, AppendLog(id, note, logId, stamp, later)).clients
  }

  /** The client list of the demo scenario before its log entry: one record with
      the id, the company and the status that were entered. */
  lemma DemoScenarioEdits(id: string, today: string)
    ensures var clients := UpdateClient(UpdateClient(AddClient([], id, today), id, "company", "Acme"), id, "status", "Demo Built");
      && |clients| == 1
      && clients[0].id == id
      && clients[0].status == "Demo Built"
      && clients[0].logs == Some([])
      && Cell(clients[0], "company") == "Acme"
  {
    var c1 := AddClient([], id, today);
    assert Cell(c1[0], "id") == id;
    var c2 := UpdateClient(c1, id, "company", "Acme");
    assert Cell(c2[0], "id") == id;
    var c3 := UpdateClient(c2, id, "status", "Demo Built");
    assert Cell(c3[0], "id") == id && Cell(c3[0], "status") == "Demo Built";
  }

  /** The demo scenario, run through the store, is the same chain of record operations. */
  lemma DemoScenarioSteps(id: string, today: string, note: string, logId: int, stamp: string, later: string)
    ensures DemoScenario(id, today, note, logId, stamp, later) ==
      AddLog(UpdateClient(UpdateClient(AddClient([], id, today), id, "company", "Acme"), id, "status", "Demo Built"),
             id, note, logId, stamp, later)
  {
    var s0 := Initial(None, None, None);
    assert s0.clients == [];
    var s1 := Apply(s0, NewClient(id, today));
    assert s1.clients == AddClient([], id, today);
    var s2 := Apply(s1, EditCell(id, "company", "Acme"));
    assert s2.clients == UpdateClient(s1.clients, id, "company", "Acme");
    var s3 := Apply(s2, EditCell(id, "status", "Demo Built"));
    assert s3.clients == UpdateClient(s2.clients, id, "status", "Demo Built");
  }

  /** After the demo scenario with a non-blank note there is one client, one in
      Demo Built, none Won, and a 0 percent conversion rate; the client shows the
      company, the note, and the date of the note as its last contact. */
  lemma NewClientScenario(id: string, today: string, note: string, logId: int, stamp: string, later: string)
    requires !IsBlank(note)
    ensures var clients := DemoScenario(id, today, note, logId, stamp, later);
      && |clients| == 1
      && CountStatus(clients, "Demo Built") == 1
      && CountStatus(clients, "Won") == 0
      && ConversionRate(clients) == 0
      && Cell(clients[0], "company") == "Acme"
      && clients[0].lastContact == later
      && clients[0].logs == Some([Log(logId, stamp, note)])
  {
    var edited := UpdateClient(UpdateClient(AddClient([], id, today), id, "company", "Acme"), id, "status", "Demo Built");
    DemoScenarioEdits(id, today);
    var e := edited[0];
    assert DemoScenario(id, today, note, logId, stamp, later) == [Logged(e, Log(logId, stamp, note), later)] by {
      assert edited == [e];
      DemoScenarioSteps(id, today, note, logId, stamp, later);
      OneRecordLog(e, note, logId, stamp, later);
    }
    LoggedDemoRecord(e, Log(logId, stamp, note), later);
  }

  /** A Demo Built record with company Acme and no log entries, once logged, is
      the only client, the only one in Demo Built, and keeps its company. */
  lemma LoggedDemoRecord(e: Client, entry: Log, later: string)
    requires e.status == "Demo Built" && e.logs == Some([]) && Cell(e, "company") == "Acme"
    ensures var clients := [Logged(e, entry, later)];
      && CountStatus(clients, "Demo Built") == 1
      && CountStatus(clients, "Won") == 0
      && ConversionRate(clients) == 0
      && Cell(clients[0], "company") == "Acme"
      && clients[0].lastContact == later
      && clients[0].logs == Some([entry])
  {
    var c := Logged(e, entry, later);
    assert c.logs == Some([entry]) by {
      assert [entry] + [] == [entry];
    }
    assert Cell(c, "company") == Cell(e, "company");
    OneClientCounts(c, "Demo Built");
    OneClientCounts(c, "Won");
    ConversionRateExtremes([c]);
  }

  /** Logging a non-blank note on a one-record list logs it on that record. */
  lemma OneRecordLog(c: Client, note: string, logId: int, stamp: string, later: string)
    requires !IsBlank(note)
    ensures AddLog([c], c.id, note, logId, stamp, later) == [Logged(c, Log(logId, stamp, note), later)]
  {
  }

  /** A board of one client counts it in its own status and nowhere else. */
  lemma OneClientCounts(c: Client, s: string)
    ensures CountStatus([c], s) == if c.status == s then 1 else 0
  {
    assert [c][1..] == [];
  }
}
