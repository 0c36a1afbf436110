/** `process_concept_table_action`: every action on the concept table and the diff it returns. */
module ConceptReducer {
  import opened Outcomes
  import opened QueryBuilder
  import opened Repositories
  import opened Diffs
  import opened UndoRuns
  import opened TableActions

  const CONCEPT_SCHEMA: Schema := map[
    "id" := ColumnType(TextColumn, false),
    "coding_context_id" := ColumnType(TextColumn, false),
    "word" := ColumnType(TextColumn, false),
    "description" := ColumnType(TextColumn, true),
    "is_marked" := ColumnType(BoolColumn, true)]

  /** An entry of an action's payload, its id already resolved (given or fresh).
      A missing description or mark is Null. */
  datatype Entry = Entry(id: string, word: string, description: Value, mark: Value)

  datatype Action =
    | Initialize(entries: seq<Entry>)
    | SetAll(mark: Value)
    | AddMany(entries: seq<Entry>)
    | UpdateField(index: int, field: string, value: Value)
    | ToggleMark(index: int, mark: Value)
    | AddRow(entry: Entry)
    | UndoDeleteRow(entry: Entry)
    | DeleteRow(index: int)
    | UpdateFields(index: int, changes: Cells)
    | Reset
    | RestoreState(entries: seq<Entry>)
    | Restore(payload: Diff)

  function RowOf(ws: string, e: Entry): Row {
    Row(Text(e.id), map["coding_context_id" := Text(ws), "word" := Text(e.word),
                        "description" := e.description, "is_marked" := e.mark])
  }

  function RowsOf(ws: string, es: seq<Entry>): seq<Row> {
    seq(|es|, i requires 0 <= i < |es| => RowOf(ws, es[i]))
  }

  /** `bool(x)`: Null and 0 are false. */
  function AsBool(v: Value): Value {
    Num(if v.Null? || v == Num(0) || v == Text("") then 0 else 1)
  }

  function WithBools(es: seq<Entry>): seq<Entry> {
    seq(|es|, i requires 0 <= i < |es| => es[i].(mark := AsBool(es[i].mark)))
  }

  function InWorkspace(ws: string): FilterMap {
    [Equals("coding_context_id", Text(ws))]
  }

  /** The filter ADD_MANY clears with: marks in the list [False, None]. */
  function Unmarked(ws: string): FilterMap {
    [Equals("coding_context_id", Text(ws)), ("is_marked", Plain(Many([Num(0), Null])))]
  }

  function Scope(t: Table, ws: string): set<Value> {
    Selected(CONCEPT_SCHEMA, t, InWorkspace(ws))
  }

  function WordsIn(t: Table, ws: string): set<Value> {
    set id | id in Scope(t, ws) :: At(t[id], "word")
  }

  function NewEntries(es: seq<Entry>, words: set<Value>): seq<Entry> {
    if es == [] then []
    else
      var front := NewEntries(es[..|es| - 1], words);
      var e := es[|es| - 1];
      if Text(e.word) in words then front else front + [e]
  }

  /** One row of the workspace rewritten; which one an index names is the
      database's choice of order.  An index out of range changes nothing. */
  ghost predicate OneRewritten(t: Table, ws: string, index: int, changes: Cells, t': Table) {
    if 0 <= index < |Scope(t, ws)|
    then exists id :: id in Scope(t, ws) && t' == Overwrite(t, {id}, Stored(CONCEPT_SCHEMA, changes))
    else t' == t
  }

  /** What each action does to the table when it succeeds. */
  ghost predicate Outcome(t: Table, ws: string, a: Action, t': Table) {
    match a
    case Initialize(es) => t' == Replaced(CONCEPT_SCHEMA, t, Scope(t, ws), RowsOf(ws, es))
    case SetAll(mark) => t' == Overwrite(t, Scope(t, ws), Stored(CONCEPT_SCHEMA, map["is_marked" := mark]))
    case AddMany(es) =>
      t' == Replaced(CONCEPT_SCHEMA, t, Selected(CONCEPT_SCHEMA, t, Unmarked(ws)), RowsOf(ws, NewEntries(es, WordsIn(t, ws))))
    case UpdateField(i, f, v) => OneRewritten(t, ws, i, map[f := v], t')
    case ToggleMark(i, mark) => OneRewritten(t, ws, i, map["is_marked" := mark], t')
    case AddRow(e) => t' == Replaced(CONCEPT_SCHEMA, t, {}, [RowOf(ws, e.(mark := Num(1)))])
    case UndoDeleteRow(e) => t' == Replaced(CONCEPT_SCHEMA, t, {}, [RowOf(ws, e)])
    case DeleteRow(i) =>
      if 0 <= i < |Scope(t, ws)| then exists id :: id in Scope(t, ws) && t' == t - {id} else t' == t
    case UpdateFields(i, changes) => OneRewritten(t, ws, i, changes, t')
    case Reset => t' == t - Scope(t, ws)
    case RestoreState(es) => t' == Replaced(CONCEPT_SCHEMA, t, Scope(t, ws), RowsOf(ws, WithBools(es)))
    case Restore(d) => exists u :: Restores(CONCEPT_SCHEMA, t, d, t', u)
  }

  predicate Rewritable(t: Table, ws: string, index: int, changes: Cells) {
    0 <= index < |Scope(t, ws)| ==> UpdatesRun(CONCEPT_SCHEMA, changes)
  }

  /** When an action succeeds: inserted ids clash with no surviving row, inserted and
      written values have their column's type, a restored diff can be played back. */
  predicate Succeeds(t: Table, ws: string, a: Action) {
    match a
    case Initialize(es) => Fits(CONCEPT_SCHEMA, t, Scope(t, ws), RowsOf(ws, es))
    case SetAll(mark) => UpdatesRun(CONCEPT_SCHEMA, map["is_marked" := mark])
    case AddMany(es) =>
      Fits(CONCEPT_SCHEMA, t, Selected(CONCEPT_SCHEMA, t, Unmarked(ws)), RowsOf(ws, NewEntries(es, WordsIn(t, ws))))
    case UpdateField(i, f, v) => Rewritable(t, ws, i, map[f := v])
    case ToggleMark(i, mark) => Rewritable(t, ws, i, map["is_marked" := mark])
    case AddRow(e) => Fits(CONCEPT_SCHEMA, t, {}, [RowOf(ws, e.(mark := Num(1)))])
    case UndoDeleteRow(e) => Fits(CONCEPT_SCHEMA, t, {}, [RowOf(ws, e)])
    case DeleteRow(_) => true
    case UpdateFields(i, changes) => Rewritable(t, ws, i, changes)
    case Reset => true
    case RestoreState(es) => Fits(CONCEPT_SCHEMA, t, Scope(t, ws), RowsOf(ws, WithBools(es)))
    case Restore(d) => CanRestore(CONCEPT_SCHEMA, t, d)
  }

  lemma WorkspaceFilterRuns(ws: string)
    ensures Runs(CONCEPT_SCHEMA, InWorkspace(ws)) && Runs(CONCEPT_SCHEMA, Unmarked(ws))
  {
    var c := Condition("coding_context_id", Eq, One(Text(ws)));
    var m := Condition("is_marked", In, Many([Num(0), Null]));
    assert Conditions(InWorkspace(ws)) == [c];
    assert Conditions(Unmarked(ws)) == [c, m];
    assert [c, m][..1] == [c];
    RenderOne(CONCEPT_SCHEMA, c);
    assert FormatFilter(CONCEPT_SCHEMA, m).Ok?;
  }

  lemma RowsHaveColumns(ws: string, es: seq<Entry>)
    ensures AllColumns(CONCEPT_SCHEMA, RowsOf(ws, es))
  {
  }

  /** One row is inserted when its id is free, its description is text or missing,
      and its mark is a number or missing. */
  lemma OneFits(t: Table, ws: string, e: Entry)
    ensures Fits(CONCEPT_SCHEMA, t, {}, [RowOf(ws, e)]) <==> Text(e.id) !in t && !e.description.Num? && !e.mark.Text?
  {
    var r := RowOf(ws, e);
    assert [r][0] in [r];
    assert Storable(CONCEPT_SCHEMA, "description", r.cells["description"]) <==> !e.description.Num?;
    assert Storable(CONCEPT_SCHEMA, "is_marked", r.cells["is_marked"]) <==> !e.mark.Text?;
  }

  /** Actions the payload of which the server reads as it stands. */
  predicate Admissible(a: Action) {
    && (a.UpdateField? ==> a.field != "id")
    && (a.UpdateFields? ==> "id" !in a.changes)
    && (a.Restore? ==> Shaped(CONCEPT_SCHEMA, a.payload))
  }

  method Process(repo: Repository, ws: string, a: Action) returns (r: Result<Diff>)
    requires repo.builder.schema == CONCEPT_SCHEMA && Conforms(CONCEPT_SCHEMA, repo.rows) && Admissible(a)
    modifies repo`rows, repo.builder
    ensures Conforms(CONCEPT_SCHEMA, repo.rows)
    ensures r.Ok? <==> Succeeds(old(repo.rows), ws, a)
    ensures r.Ok? ==> Outcome(old(repo.rows), ws, a, repo.rows)
    ensures r.Ok? && !a.Restore? ==> Faithful(old(repo.rows), r.value, repo.rows)
    ensures r.Ok? && a.Restore? ==> Restores(CONCEPT_SCHEMA, old(repo.rows), a.payload, repo.rows, r.value)
  {
    WorkspaceFilterRuns(ws);
    hide Conforms, FilterRuns, Fits, Replaced, Faithful, Restores, CanRestore, RowOf, RowsOf, Shaped, Selected, Overwrite, UpdatesRun;
    match a {
      case Initialize(es) =>
        RowsHaveColumns(ws, es);
        r := ReplaceRecorded(repo, InWorkspace(ws), RowsOf(ws, es));
      case SetAll(mark) =>
        r := MarkAll(repo, ws, mark);
      case AddMany(es) =>
        r := AddNew(repo, ws, es);
      case UpdateField(i, f, v) =>
        r := RewriteAt(repo, ws, i, map[f := v]);
      case ToggleMark(i, mark) =>
        r := RewriteAt(repo, ws, i, map["is_marked" := mark]);
      case AddRow(e) =>
        r := InsertOne(repo, ws, e.(mark := Num(1)));
      case UndoDeleteRow(e) =>
        r := InsertOne(repo, ws, e);
      case DeleteRow(i) =>
        r := DeleteAt(repo, ws, i);
      case UpdateFields(i, changes) =>
        r := RewriteAt(repo, ws, i, changes);
      case Reset =>
        r := DeleteRecorded(repo, InWorkspace(ws));
      case RestoreState(es) =>
        RowsHaveColumns(ws, WithBools(es));
        r := ReplaceRecorded(repo, InWorkspace(ws), RowsOf(ws, WithBools(es)));
      case Restore(d) =>
        r := RestoreDiff(repo, d);
    }
  }

  method InsertOne(repo: Repository, ws: string, e: Entry) returns (r: Result<Diff>)
    requires repo.builder.schema == CONCEPT_SCHEMA && Conforms(CONCEPT_SCHEMA, repo.rows)
    modifies repo`rows
    ensures Conforms(CONCEPT_SCHEMA, repo.rows)
    ensures r.Ok? <==> Fits(CONCEPT_SCHEMA, old(repo.rows), {}, [RowOf(ws, e)])
    ensures repo.rows == Replaced(CONCEPT_SCHEMA, old(repo.rows), {}, [RowOf(ws, e)])
    ensures r.Ok? ==> Faithful(old(repo.rows), r.value, repo.rows)
  {
    hide Conforms, Fits, Replaced, Faithful;
    assert AllColumns(CONCEPT_SCHEMA, [RowOf(ws, e)]);
    r := InsertRecorded(repo, [RowOf(ws, e)]);
  }

  /** ADD_MANY: reads the words of the workspace, clears what its filter matches, and
      inserts the entries with other words. */
  method AddNew(repo: Repository, ws: string, es: seq<Entry>) returns (r: Result<Diff>)
    requires repo.builder.schema == CONCEPT_SCHEMA && Conforms(CONCEPT_SCHEMA, repo.rows)
    modifies repo`rows, repo.builder
    ensures Conforms(CONCEPT_SCHEMA, repo.rows)
    ensures r.Ok? <==> Succeeds(old(repo.rows), ws, AddMany(es))
    ensures r.Ok? ==> Outcome(old(repo.rows), ws, AddMany(es), repo.rows) && Faithful(old(repo.rows), r.value, repo.rows)
  {
    WorkspaceFilterRuns(ws);
    hide Conforms, FilterRuns, Fits, Replaced, Faithful, RowOf, RowsOf, Lists, WordsIn, NewEntries;
    var current := repo.Find(InWorkspace(ws));
    var words := WordsOf(current.value, repo.rows, ws);
    var added, at := Filter(es, words);
    RowsHaveColumns(ws, added);
    r := ReplaceRecorded(repo, Unmarked(ws), RowsOf(ws, added));
  }

  method MarkAll(repo: Repository, ws: string, mark: Value) returns (r: Result<Diff>)
    requires repo.builder.schema == CONCEPT_SCHEMA && Conforms(CONCEPT_SCHEMA, repo.rows)
    modifies repo`rows, repo.builder
    ensures Conforms(CONCEPT_SCHEMA, repo.rows)
    ensures r.Ok? <==> UpdatesRun(CONCEPT_SCHEMA, map["is_marked" := mark])
    ensures r.Ok? ==> Faithful(old(repo.rows), r.value, repo.rows)
                      && repo.rows == Overwrite(old(repo.rows), Scope(old(repo.rows), ws), Stored(CONCEPT_SCHEMA, map["is_marked" := mark]))
  {
    WorkspaceFilterRuns(ws);
    ghost var before := repo.rows;
    var us :- UpdateRecorded(repo, InWorkspace(ws), map["is_marked" := mark], true);
    OverwriteFaithful(before, Scope(before, ws), Stored(CONCEPT_SCHEMA, map["is_marked" := mark]), us);
    return Ok(Diff([], [], us));
  }

  /** The row the index names in the order the database returned, if any. */
  method PickAt(repo: Repository, ws: string, index: int) returns (picked: Option<Value>)
    requires repo.builder.schema == CONCEPT_SCHEMA
    modifies repo.builder
    ensures picked.Some? <==> 0 <= index < |Scope(repo.rows, ws)|
    ensures picked.Some? ==> picked.value in Scope(repo.rows, ws)
  {
    WorkspaceFilterRuns(ws);
    var found := repo.Find(InWorkspace(ws));
    var entries := found.value;
    CountRows(entries);
    if 0 <= index < |entries| {
      assert entries[index] in entries && entries[index].id in RowIds(entries);
      return Some(entries[index].id);
    }
    return None;
  }

  lemma {:induction false} CountRows(rows: seq<Row>)
    requires DistinctRows(rows)
    ensures |RowIds(rows)| == |rows|
    decreases |rows|
  {
    if rows != [] {
      LastRow(rows);
      CountRows(rows[..|rows| - 1]);
    }
  }

  method RewriteAt(repo: Repository, ws: string, index: int, changes: Cells) returns (r: Result<Diff>)
    requires repo.builder.schema == CONCEPT_SCHEMA && Conforms(CONCEPT_SCHEMA, repo.rows)
    requires "id" !in changes
    modifies repo`rows, repo.builder
    ensures Conforms(CONCEPT_SCHEMA, repo.rows)
    ensures r.Ok? ==> Faithful(old(repo.rows), r.value, repo.rows)
                      && OneRewritten(old(repo.rows), ws, index, changes, repo.rows)
    ensures r.Ok? <==> Rewritable(old(repo.rows), ws, index, changes)
    ensures r.Err? ==> repo.rows == old(repo.rows)
  {
    ghost var before := repo.rows;
    var picked := PickAt(repo, ws, index);
    match picked {
      case None =>
        OverwriteFaithful(before, {}, map[], []);
        assert Overwrite(before, {}, map[]) == before;
        return Ok(Diff([], [], []));
      case Some(id) =>
        ByIdSelects(CONCEPT_SCHEMA, before, id);
        assert {id} * before.Keys == {id};
        var us :- UpdateRecorded(repo, ById(id), changes, false);
        OverwriteFaithful(before, {id}, Stored(CONCEPT_SCHEMA, changes), us);
        return Ok(Diff([], [], us));
    }
  }

  method DeleteAt(repo: Repository, ws: string, index: int) returns (r: Result<Diff>)
    requires repo.builder.schema == CONCEPT_SCHEMA && Conforms(CONCEPT_SCHEMA, repo.rows)
    modifies repo`rows, repo.builder
    ensures Conforms(CONCEPT_SCHEMA, repo.rows)
    ensures r.Ok? && Faithful(old(repo.rows), r.value, repo.rows)
    ensures Outcome(old(repo.rows), ws, DeleteRow(index), repo.rows)
  {
    ghost var before := repo.rows;
    var picked := PickAt(repo, ws, index);
    match picked {
      case None =>
        OverwriteFaithful(before, {}, map[], []);
        assert Overwrite(before, {}, map[]) == before;
        return Ok(Diff([], [], []));
      case Some(id) =>
        ByIdSelects(CONCEPT_SCHEMA, before, id);
        assert {id} * before.Keys == {id};
        r := DeleteRecorded(repo, ById(id));
    }
  }

  method WordsOf(rows: seq<Row>, t: Table, ws: string) returns (words: set<Value>)
    requires Lists(rows, t, Scope(t, ws))
    ensures words == WordsIn(t, ws)
  {
    words := set r | r in rows :: At(r.cells, "word");
    forall w | w in WordsIn(t, ws) ensures w in words {
      var id :| id in Scope(t, ws) && At(t[id], "word") == w;
      assert id in RowIds(rows);
      var r :| r in rows && r.id == id;
    }
    forall w | w in words ensures w in WordsIn(t, ws) {
      var r :| r in rows && At(r.cells, "word") == w;
      assert r.id in RowIds(rows);
    }
  }

  /** `added` are exactly the entries at the positions `at`, whose words are new. */
  method Filter(es: seq<Entry>, words: set<Value>) returns (added: seq<Entry>, ghost at: seq<nat>)
    ensures added == NewEntries(es, words)
    ensures Sifted(es, added, at) && forall i :: 0 <= i < |es| ==> (i in at <==> Text(es[i].word) !in words)
    ensures forall e :: e in added <==> e in es && Text(e.word) !in words
  {
    added, at := [], [];
    for i := 0 to |es|
      invariant added == NewEntries(es[..i], words)
      invariant Sifted(es[..i], added, at)
      invariant forall k :: 0 <= k < i ==> (k in at <==> Text(es[k].word) !in words)
    {
      assert es[..i + 1] == es[..i] + [es[i]];
      if Text(es[i].word) !in words {
        added, at := added + [es[i]], at + [i];
      }
    }
    assert es[..|es|] == es;
    forall e ensures e in added <==> e in es && Text(e.word) !in words {
      SiftedIn(es, added, at, e);
    }
  }

  /** ADD_MANY clears the rows marked false and keeps the unmarked ones: the None
      in its list matches no row. */
  lemma AddManyKeepsUnmarked(t: Table, ws: string, id: Value)
    requires id in t
    ensures id in Selected(CONCEPT_SCHEMA, t, Unmarked(ws)) <==>
            At(View(id, t[id]), "coding_context_id") == Text(ws) && At(View(id, t[id]), "is_marked") == Num(0)
  {
    var c := Condition("coding_context_id", Eq, One(Text(ws)));
    var m := Condition("is_marked", In, Many([Num(0), Null]));
    var cells := View(id, t[id]);
    assert Conditions(Unmarked(ws)) == [c, m];
    assert Matches(CONCEPT_SCHEMA, [c, m], cells) <==>
      Meets(CONCEPT_SCHEMA[c.column], [c, m][0], At(cells, c.column)) && Meets(CONCEPT_SCHEMA[m.column], [c, m][1], At(cells, m.column));
    var vs := [Num(0), Null];
    assert Normalize(CONCEPT_SCHEMA["is_marked"], vs[0]) == Num(0);
    assert Normalize(CONCEPT_SCHEMA["is_marked"], vs[1]) == Null;
  }
}
