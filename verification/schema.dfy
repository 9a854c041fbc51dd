/** The column schema: an ordered, user-editable sequence of column
    definitions that decides which fields of a client record are shown
    (src/App.jsx, `DEFAULT_COLUMNS`, `addColumn`, `deleteColumn`). */
module Schema {
  import opened Wrappers
  import opened Seqs
  import opened Text

  /** The input widget a column is edited with. */
  datatype ColumnType = TextType | EmailType | DateType | UrlType | SelectType

  /** One column definition; `options` is present only on select columns. */
  datatype Column = Column(id: string, title: string, kind: ColumnType, options: Option<seq<string>>)

  /** The pipeline stages a client moves through, in display order. */
  const Statuses: seq<string> := ["Lead", "Contacted", "Demo Built", "Won", "Lost"]

  /** The schema used when none has been saved. */
  const DefaultColumns: seq<Column> := [
    Column("company", "Company", TextType, None),
    Column("industry", "Industry", TextType, None),
    Column("contact", "Contact Person", TextType, None),
    Column("email", "Email", EmailType, None),
    Column("status", "Status", SelectType, Some(Statuses)),
    Column("lastContact", "Last Contact", DateType, None),
    Column("demoLink", "Demo Link", UrlType, None)
  ]

  /** The key a column is identified by. */
  function ColumnKey(c: Column): string {
    c.id
  }

  /** The record keys that no column may name: `id` is the record's own identity
      and `logs` holds its activity log rather than a text value. */
  predicate IsStructuralKey(k: string) {
    k == "id" || k == "logs"
  }

  /** What the store keeps true of its schema: never empty, ids unique, and no
      column standing for the record's identity or its log. */
  ghost predicate ValidSchema(cols: seq<Column>) {
    && |cols| >= 1
    && DistinctBy(cols, ColumnKey)
    && forall i :: 0 <= i < |cols| ==> !IsStructuralKey(cols[i].id)
  }

  /** The default schema has seven columns with pairwise distinct ids, the select
      column offers exactly the five statuses, and options appear only on select columns. */
  lemma DefaultColumnsValid()
    ensures |DefaultColumns| == 7
    ensures ValidSchema(DefaultColumns)
    ensures forall i :: 0 <= i < |DefaultColumns| ==>
      (DefaultColumns[i].options.Some? <==> DefaultColumns[i].kind == SelectType)
    ensures DefaultColumns[4].id == "status" && DefaultColumns[4].options == Some(Statuses)
  {
  }

  // ---------------------------------------------------------------- adding

  /** A uniqueness token made of decimal digits, as a millisecond clock reading prints. */
  predicate IsDigits(t: string) {
    forall i :: 0 <= i < |t| ==> '0' <= t[i] <= '9'
  }

  /** The id given to a column created with title `title` and uniqueness token `token`. */
  function ColumnId(title: string, token: string): string {
    Slug(title) + "_" + token
  }

  /** The column `addColumn` creates: a text column titled as typed. */
  function NewColumn(title: string, token: string): Column {
    Column(ColumnId(title, token), title, TextType, None)
  }

  /** Where `Array.prototype.splice` inserts for a requested start `position`
      on an array of length `len`: negative starts count from the end, and
      both ends are clamped. */
  function SpliceStart(position: int, len: nat): (k: nat)
    ensures k <= len
    ensures 0 <= position <= len ==> k == position
    ensures position > len ==> k == len
    ensures position < 0 ==> k == if len + position < 0 then 0 else len + position
  {
    if position < 0 then (if len + position < 0 then 0 else len + position)
    else if position > len then len
    else position
  }

  /** `addColumn(position)` with the prompt's answer `answer` (None when cancelled)
      and the clock reading `token`. A missing or empty title changes nothing;
      otherwise the new text column is spliced in at `position` and the old
      columns keep their order around it. */
  function AddColumn(cols: seq<Column>, position: int, answer: Option<string>, token: string): (r: seq<Column>)
    ensures answer == None || answer == Some("") ==> r == cols
    ensures answer.Some? && answer.value != "" ==>
      && |r| == |cols| + 1
      && r[SpliceStart(position, |cols|)] == NewColumn(answer.value, token)
      && RemoveAt(r, SpliceStart(position, |cols|)) == cols
    ensures answer.Some? && answer.value != "" && 0 <= position <= |cols| ==>
      && r[position].id == Slug(answer.value) + "_" + token
      && r[position].kind == TextType
      && r[..position] == cols[..position]
      && r[position + 1..] == cols[position..]
  {
    match answer
    case None => cols
    case Some(title) =>
      if title == "" then cols
      else
        var k := SpliceStart(position, |cols|);
        RemoveInserted(cols, k, NewColumn(title, token));
        InsertAt(cols, k, NewColumn(title, token))
  }

  /** The old columns survive an insertion as an order-preserving subsequence. */
  lemma AddColumnKeepsOrder(cols: seq<Column>, position: int, answer: Option<string>, token: string)
    ensures IsSubseq(cols, AddColumn(cols, position, answer, token))
  {
    if answer.Some? && answer.value != "" {
      InsertKeepsOrder(cols, SpliceStart(position, |cols|), NewColumn(answer.value, token));
    } else {
      SubseqOfSelf(cols);
    }
  }

  /** A derived id always contains `_`, so it never names the record's identity,
      its log, or the two administrative fields `status` and `lastContact`. */
  lemma ColumnIdIsNotAdministrative(title: string, token: string)
    ensures !IsStructuralKey(ColumnId(title, token))
    ensures ColumnId(title, token) != "status" && ColumnId(title, token) != "lastContact"
  {
    var id := ColumnId(title, token);
    assert id[|Slug(title)|] == '_';
    assert '_' in id;
  }

  /** Ids derived with different digit tokens differ, whatever the titles: the
      token is everything after the last `_`. */
  lemma ColumnIdsDifferByToken(title1: string, token1: string, title2: string, token2: string)
    requires IsDigits(token1) && IsDigits(token2)
    requires token1 != token2
    ensures ColumnId(title1, token1) != ColumnId(title2, token2)
  {
    var a := ColumnId(title1, token1);
    var b := ColumnId(title2, token2);
    if |a| == |b| {
      if |token1| < |token2| {
        var n := |a| - |token1| - 1;
        assert a[n] == '_';
        assert b[n] == token2[|token2| - |token1| - 1];
      } else if |token2| < |token1| {
        var n := |b| - |token2| - 1;
        assert b[n] == '_';
        assert a[n] == token1[|token1| - |token2| - 1];
      } else {
        assert a[|a| - |token1|..] == token1;
        assert b[|b| - |token2|..] == token2;
      }
    }
  }

  /** Adding a column whose derived id is fresh keeps the schema valid. */
  lemma AddColumnKeepsValid(cols: seq<Column>, position: int, answer: Option<string>, token: string)
    requires ValidSchema(cols)
    requires answer.Some? ==> FreshKey(cols, ColumnKey, ColumnId(answer.value, token))
    ensures ValidSchema(AddColumn(cols, position, answer, token))
  {
    if answer.Some? && answer.value != "" {
      var k := SpliceStart(position, |cols|);
      var c := NewColumn(answer.value, token);
      InsertFresh(cols, ColumnKey, k, c);
      ColumnIdIsNotAdministrative(answer.value, token);
    }
  }

  // ---------------------------------------------------------------- deleting

  /** The notice shown when deleting the only column is refused. */
  const LastColumnNotice := "You must have at least one column."

  /** Keeps the columns whose id is not `id`. */
  function OtherId(id: string): Column -> bool {
    (c: Column) => c.id != id
  }

  /** `deleteColumn(id)` with the confirmation answer `confirmed`. A schema of at
      most one column is refused before anything is asked; a declined
      confirmation changes nothing; otherwise exactly the columns with that id
      are dropped. */
  function DeleteColumn(cols: seq<Column>, id: string, confirmed: bool): (r: Result<seq<Column>, string>)
    ensures r.Failure? <==> |cols| <= 1
    ensures r.Failure? ==> r.error == LastColumnNotice
    ensures |cols| > 1 && !confirmed ==> r == Success(cols)
    ensures r.Success? && confirmed ==>
      && (forall i :: 0 <= i < |r.value| ==> r.value[i] in cols && r.value[i].id != id)
      && (forall i :: 0 <= i < |cols| && cols[i].id != id ==> cols[i] in r.value)
    ensures r.Success? && FreshKey(cols, ColumnKey, id) ==> r == Success(cols)
  {
    if |cols| <= 1 then Failure(LastColumnNotice)
    else if !confirmed then Success(cols)
    else
      AbsentIdKeepsAll(cols, id);
      Success(Filter(cols, OtherId(id)))
  }

  /** Dropping an id no column carries drops nothing. */
  lemma AbsentIdKeepsAll(cols: seq<Column>, id: string)
    ensures FreshKey(cols, ColumnKey, id) ==> Filter(cols, OtherId(id)) == cols
  {
    if FreshKey(cols, ColumnKey, id) {
      FilterKeepsAll(cols, OtherId(id));
    }
  }

  /** The surviving columns keep their relative order, and every copy of a column
      with another id survives, while a confirmed deletion leaves no copy of a
      column carrying the id. */
  lemma DeleteColumnKeepsOrder(cols: seq<Column>, id: string, confirmed: bool)
    requires DeleteColumn(cols, id, confirmed).Success?
    ensures IsSubseq(DeleteColumn(cols, id, confirmed).value, cols)
    ensures forall c: Column ::
              multiset(DeleteColumn(cols, id, confirmed).value)[c] == if confirmed && c.id == id then 0 else multiset(cols)[c]
  {
    if confirmed {
      FilterIsSubseq(cols, OtherId(id));
      forall c: Column
        ensures multiset(DeleteColumn(cols, id, confirmed).value)[c] == if c.id == id then 0 else multiset(cols)[c]
      {
        FilterMultiplicity(cols, OtherId(id), c);
      }
    } else {
      SubseqOfSelf(cols);
    }
  }

  /** With unique ids a deletion removes at most one column. */
  lemma {:induction false} DropUniqueId(cols: seq<Column>, id: string)
    requires DistinctBy(cols, ColumnKey)
    ensures |Filter(cols, OtherId(id))| >= |cols| - 1
  {
    if |cols| > 0 {
      if cols[0].id == id {
        FilterKeepsAll(cols[1..], OtherId(id));
      } else {
        DropUniqueId(cols[1..], id);
      }
    }
  }

  /** The floor holds: when column ids are unique, no deletion empties the schema,
      and a valid schema stays valid. */
  lemma DeleteColumnKeepsValid(cols: seq<Column>, id: string, confirmed: bool)
    requires ValidSchema(cols)
    ensures DeleteColumn(cols, id, confirmed).Success? ==>
      |DeleteColumn(cols, id, confirmed).value| >= 1
    ensures ValidSchema(DeleteColumn(cols, id, confirmed).GetOr(cols))
  {
    if |cols| > 1 && confirmed {
      DropUniqueId(cols, id);
      FilterKeepsDistinct(cols, ColumnKey, OtherId(id));
    }
  }

  /** Without unique ids the floor does not hold: two columns sharing an id are
      both removed by one deletion, leaving no column at all. */
  lemma DuplicateIdsCanEmptySchema()
    ensures var twins := [Column("notes_1", "Notes", TextType, None), Column("notes_1", "Notes", TextType, None)];
      DeleteColumn(twins, "notes_1", true) == Success([])
  {
    var twins := [Column("notes_1", "Notes", TextType, None), Column("notes_1", "Notes", TextType, None)];
    assert Filter(twins[1..], OtherId("notes_1")) == [];
  }

  /** Deleting a column that was just added, with a fresh id, restores the schema. */
  lemma DeleteUndoesAdd(cols: seq<Column>, position: int, title: string, token: string)
    requires |cols| >= 1
    requires title != ""
    requires FreshKey(cols, ColumnKey, ColumnId(title, token))
    ensures DeleteColumn(AddColumn(cols, position, Some(title), token), ColumnId(title, token), true)
      == Success(cols)
  {
    var k := SpliceStart(position, |cols|);
    var c := NewColumn(title, token);
    var left, right := cols[..k], cols[k..];
    assert AddColumn(cols, position, Some(title), token) == left + [c] + right;
    assert forall i :: 0 <= i < |left| ==> left[i] == cols[i];
    assert forall i :: 0 <= i < |right| ==> right[i] == cols[k + i];
    FilterDropsInserted(left, c, right, OtherId(c.id));
    assert left + right == cols;
  }
}
