/** What each concept action leaves in the table, row by row. */
module ConceptRows {
  import opened Outcomes
  import opened QueryBuilder
  import opened Repositories
  import opened Diffs
  import opened UndoRuns
  import opened TableActions
  import opened ConceptReducer

  predicate InWs(cells: Cells, ws: string) {
    At(cells, "coding_context_id") == Text(ws)
  }

  function AsMark(v: Value): Value {
    if v.Num? then Num(if v.n == 0 then 0 else 1) else v
  }

  lemma ScopeIs(t: Table, ws: string)
    ensures Scope(t, ws) == set id | id in t && InWs(t[id], ws)
  {
    var c := Condition("coding_context_id", Eq, One(Text(ws)));
    assert Conditions(InWorkspace(ws)) == [c];
    forall id | id in t ensures id in Scope(t, ws) <==> InWs(t[id], ws) {
      assert At(View(id, t[id]), "coding_context_id") == At(t[id], "coding_context_id");
      assert [c][0] == c;
    }
  }

  // ------------------------------------------------------------ inserted rows

  /** The row an entry is stored as. */
  predicate Holds(t: Table, ws: string, e: Entry) {
    Text(e.id) in t &&
    var c := t[Text(e.id)];
    && InWs(c, ws) && At(c, "word") == Text(e.word) && At(c, "description") == e.description
    && At(c, "is_marked") == AsMark(e.mark)
  }

  /** `t'` is `t` without the rows in `gone`, and with a row for every entry. */
  ghost predicate Exchanged(t: Table, gone: set<Value>, ws: string, es: seq<Entry>, t': Table) {
    && t'.Keys == (t.Keys - gone) + (set e | e in es :: Text(e.id))
    && (forall id :: id in t && id !in gone ==> id in t' && t'[id] == t[id])
    && (forall e :: e in es ==> Holds(t', ws, e))
  }

  lemma HoldsStored(t: Table, ws: string, e: Entry)
    requires Text(e.id) in t && t[Text(e.id)] == Stored(CONCEPT_SCHEMA, RowOf(ws, e).cells)
    ensures Holds(t, ws, e)
  {
  }

  lemma RowIdsAre(ws: string, es: seq<Entry>)
    ensures RowIds(RowsOf(ws, es)) == set e | e in es :: Text(e.id)
  {
    var rows := RowsOf(ws, es);
    forall e | e in es ensures Text(e.id) in RowIds(rows) {
      var i :| 0 <= i < |es| && es[i] == e;
      assert rows[i] in rows;
    }
  }

  lemma InsertedRows(t: Table, gone: set<Value>, ws: string, es: seq<Entry>)
    requires Fits(CONCEPT_SCHEMA, t, gone, RowsOf(ws, es))
    ensures Exchanged(t, gone, ws, es, Replaced(CONCEPT_SCHEMA, t, gone, RowsOf(ws, es)))
  {
    var rows := RowsOf(ws, es);
    FitsDisjoint(CONCEPT_SCHEMA, t, gone, rows);
    RefillsAdd(CONCEPT_SCHEMA, t - gone, rows);
    RowIdsAre(ws, es);
    var t' := Replaced(CONCEPT_SCHEMA, t, gone, rows);
    hide Refills, Fits, CONCEPT_SCHEMA, DistinctRows, Stored, Insertable, Holds;
    forall e | e in es ensures Holds(t', ws, e) {
      var i :| 0 <= i < |es| && es[i] == e;
      assert rows[i] in rows && rows[i] == RowOf(ws, e);
      HoldsStored(t', ws, e);
    }
  }

  /** INITIALIZE: the workspace holds exactly the entries, no other row changes. */
  lemma InitializeRows(t: Table, ws: string, es: seq<Entry>, t': Table)
    requires Succeeds(t, ws, Initialize(es)) && Outcome(t, ws, Initialize(es), t')
    ensures Exchanged(t, (set id | id in t && InWs(t[id], ws)), ws, es, t')
  {
    hide Exchanged, Fits, Replaced, CONCEPT_SCHEMA, Scope, RowsOf, InWs;
    ScopeIs(t, ws);
    InsertedRows(t, Scope(t, ws), ws, es);
  }

  /** RESTORE_STATE: the same, with every mark made true or false. */
  lemma RestoreStateRows(t: Table, ws: string, es: seq<Entry>, t': Table)
    requires Succeeds(t, ws, RestoreState(es)) && Outcome(t, ws, RestoreState(es), t')
    ensures var marked := seq(|es|, i requires 0 <= i < |es| =>
                              es[i].(mark := if es[i].mark in {Null, Num(0), Text("")} then Num(0) else Num(1)));
            Exchanged(t, (set id | id in t && InWs(t[id], ws)), ws, marked, t')
  {
    hide Exchanged, Fits, Replaced, CONCEPT_SCHEMA, Scope, RowsOf, InWs;
    ScopeIs(t, ws);
    InsertedRows(t, Scope(t, ws), ws, WithBools(es));
    assert WithBools(es) == seq(|es|, i requires 0 <= i < |es| =>
                                es[i].(mark := if es[i].mark in {Null, Num(0), Text("")} then Num(0) else Num(1)));
  }

  /** ADD_MANY: the rows of the workspace marked false go, and the entries come whose word
      no row of the workspace had. */
  lemma AddManyRows(t: Table, ws: string, es: seq<Entry>, t': Table)
    requires Succeeds(t, ws, AddMany(es)) && Outcome(t, ws, AddMany(es), t')
    ensures var added := NewEntries(es, WordsIn(t, ws));
            && Exchanged(t, (set id | id in t && InWs(t[id], ws) && At(t[id], "is_marked") == Num(0)), ws, added, t')
            && (forall e :: e in added <==> e in es && !(exists id :: id in t && InWs(t[id], ws) && At(t[id], "word") == Text(e.word)))
  {
    hide Exchanged, Fits, Replaced, CONCEPT_SCHEMA, Scope, RowsOf, InWs, Unmarked;
    var gone := set id | id in t && InWs(t[id], ws) && At(t[id], "is_marked") == Num(0);
    assert gone == Selected(CONCEPT_SCHEMA, t, Unmarked(ws)) by {
      forall id | id in t ensures id in gone <==> id in Selected(CONCEPT_SCHEMA, t, Unmarked(ws)) {
        AddManyKeepsUnmarked(t, ws, id);
        InWsIs(t[id], ws);
      }
    }
    InsertedRows(t, gone, ws, NewEntries(es, WordsIn(t, ws)));
    ScopeIs(t, ws);
    forall e ensures e in NewEntries(es, WordsIn(t, ws)) <==> e in es && Text(e.word) !in WordsIn(t, ws) {
      NewIff(es, WordsIn(t, ws), e);
    }
  }

  lemma InWsIs(cells: Cells, ws: string)
    ensures InWs(cells, ws) <==> At(cells, "coding_context_id") == Text(ws)
  {
  }

  lemma {:induction false} NewIff(es: seq<Entry>, words: set<Value>, e: Entry)
    ensures e in NewEntries(es, words) <==> e in es && Text(e.word) !in words
    decreases |es|
  {
    if es != [] {
      NewIff(es[..|es| - 1], words, e);
      assert es == es[..|es| - 1] + [es[|es| - 1]];
    }
  }

  /** ADD_ROW and UNDO_DELETE_ROW: one more row, the first always marked true. */
  lemma OneMoreRow(t: Table, ws: string, e: Entry, t': Table, undo: bool)
    requires var a := if undo then UndoDeleteRow(e) else AddRow(e); Succeeds(t, ws, a) && Outcome(t, ws, a, t')
    ensures Text(e.id) !in t && t'.Keys == t.Keys + {Text(e.id)} && forall id :: id in t ==> t'[id] == t[id]
    ensures Holds(t', ws, if undo then e else e.(mark := Num(1)))
  {
    hide Exchanged, Fits, Replaced, CONCEPT_SCHEMA, Holds;
    var one := if undo then e else e.(mark := Num(1));
    assert RowsOf(ws, [one]) == [RowOf(ws, one)];
    OneFits(t, ws, one);
    InsertedRows(t, {}, ws, [one]);
    OneExchanged(t, ws, one, t');
  }

  lemma OneExchanged(t: Table, ws: string, e: Entry, t': Table)
    requires Exchanged(t, {}, ws, [e], t')
    ensures t'.Keys == t.Keys + {Text(e.id)} && Holds(t', ws, e) && forall id :: id in t ==> t'[id] == t[id]
  {
    assert e in [e];
  }

  // ------------------------------------------------------------ rows rewritten or deleted

  lemma StoredMark(v: Value)
    ensures Stored(CONCEPT_SCHEMA, map["is_marked" := v]) == map["is_marked" := AsMark(v)]
  {
  }

  /** SET_ALL_CORRECT, SET_ALL_INCORRECT and SET_ALL_UNMARKED: every row of the workspace
      gets the mark, no other row changes. */
  lemma SetAllRows(t: Table, ws: string, mark: Value, t': Table)
    requires Outcome(t, ws, SetAll(mark), t')
    ensures t'.Keys == t.Keys
    ensures forall id :: id in t ==> t'[id] == if InWs(t[id], ws) then t[id]["is_marked" := AsMark(mark)] else t[id]
  {
    hide CONCEPT_SCHEMA, Scope, InWs, Stored;
    ScopeIs(t, ws);
    StoredMark(mark);
  }

  /** TOGGLE_MARK: an index in range names one row of the workspace, which gets the mark;
      no other row changes. */
  lemma ToggleMarkRow(t: Table, ws: string, index: int, mark: Value, t': Table)
    requires Outcome(t, ws, ToggleMark(index, mark), t')
    ensures var size := |set id | id in t && InWs(t[id], ws)|;
            if 0 <= index < size
            then exists id :: id in t && InWs(t[id], ws) && t' == t[id := t[id]["is_marked" := AsMark(mark)]]
            else t' == t
  {
    hide CONCEPT_SCHEMA, Scope, InWs, Stored;
    ScopeIs(t, ws);
    StoredMark(mark);
    RewrittenRow(t, ws, index, map["is_marked" := mark], t');
    if 0 <= index < |Scope(t, ws)| {
      var id :| id in Scope(t, ws) && id in t && t' == t[id := t[id] + Stored(CONCEPT_SCHEMA, map["is_marked" := mark])];
      assert t[id] + map["is_marked" := AsMark(mark)] == t[id]["is_marked" := AsMark(mark)];
      assert id in t && InWs(t[id], ws) && t' == t[id := t[id]["is_marked" := AsMark(mark)]];
    }
  }

  lemma RewrittenRow(t: Table, ws: string, index: int, changes: Cells, t': Table)
    requires OneRewritten(t, ws, index, changes, t')
    ensures 0 <= index < |Scope(t, ws)| ==>
              exists id :: id in Scope(t, ws) && id in t && t' == t[id := t[id] + Stored(CONCEPT_SCHEMA, changes)]
    ensures !(0 <= index < |Scope(t, ws)|) ==> t' == t
  {
    if 0 <= index < |Scope(t, ws)| {
      var id :| id in Scope(t, ws) && t' == Overwrite(t, {id}, Stored(CONCEPT_SCHEMA, changes));
      assert id in t;
      hide Scope, Stored, CONCEPT_SCHEMA;
      assert t' == t[id := t[id] + Stored(CONCEPT_SCHEMA, changes)];
    }
  }

  /** `t'` is `t` with the given columns of one row of the workspace changed. */
  ghost predicate ColumnsChanged(t: Table, ws: string, id: Value, changes: Cells, t': Table) {
    && id in t && InWs(t[id], ws) && t'.Keys == t.Keys
    && (forall other :: other in t && other != id ==> t'[other] == t[other])
    && (forall f :: At(t'[id], f) == if f !in changes then At(t[id], f)
                                     else if f == "is_marked" then AsMark(changes[f]) else changes[f])
  }

  lemma ChangedCells(cells: Cells, changes: Cells)
    requires UpdatesRun(CONCEPT_SCHEMA, changes)
    ensures forall f :: At(cells + Stored(CONCEPT_SCHEMA, changes), f) ==
              if f !in changes then At(cells, f) else if f == "is_marked" then AsMark(changes[f]) else changes[f]
  {
    hide CONCEPT_SCHEMA, Stored, UpdatesRun;
    forall f
      ensures At(cells + Stored(CONCEPT_SCHEMA, changes), f) ==
              if f !in changes then At(cells, f) else if f == "is_marked" then AsMark(changes[f]) else changes[f]
    {
      StoredAt(changes, f);
    }
  }

  /** UPDATE_FIELDS: the same with the given columns. */
  lemma UpdateFieldsRow(t: Table, ws: string, index: int, changes: Cells, t': Table)
    requires Outcome(t, ws, UpdateFields(index, changes), t') && Succeeds(t, ws, UpdateFields(index, changes))
    ensures var size := |set id | id in t && InWs(t[id], ws)|;
            if 0 <= index < size then exists id :: ColumnsChanged(t, ws, id, changes, t') else t' == t
  {
    hide CONCEPT_SCHEMA, Scope, InWs, Stored, UpdatesRun, OneRewritten;
    ScopeIs(t, ws);
    RewrittenRow(t, ws, index, changes, t');
    if 0 <= index < |Scope(t, ws)| {
      var id :| id in Scope(t, ws) && id in t && t' == t[id := t[id] + Stored(CONCEPT_SCHEMA, changes)];
      ChangedCells(t[id], changes);
      assert ColumnsChanged(t, ws, id, changes, t');
    }
  }

  /** UPDATE_FIELD: the same with one column. */
  lemma UpdateFieldRow(t: Table, ws: string, index: int, field: string, v: Value, t': Table)
    requires Outcome(t, ws, UpdateField(index, field, v), t') && Succeeds(t, ws, UpdateField(index, field, v))
    ensures var size := |set id | id in t && InWs(t[id], ws)|;
            if 0 <= index < size then exists id :: ColumnsChanged(t, ws, id, map[field := v], t') else t' == t
  {
    hide ColumnsChanged, OneRewritten, Rewritable, InWs;
    UpdateFieldsRow(t, ws, index, map[field := v], t');
  }

  lemma StoredAt(changes: Cells, f: string)
    requires UpdatesRun(CONCEPT_SCHEMA, changes)
    ensures f in Stored(CONCEPT_SCHEMA, changes) <==> f in changes
    ensures f in changes ==> Stored(CONCEPT_SCHEMA, changes)[f] == if f == "is_marked" then AsMark(changes[f]) else changes[f]
  {
  }

  /** DELETE_ROW and RESET: the row the index names, or the whole workspace, goes. */
  lemma DeletedRows(t: Table, ws: string, index: int, one: Table, none: Table)
    requires Outcome(t, ws, DeleteRow(index), one) && Outcome(t, ws, ConceptReducer.Reset, none)
    ensures var rows := set id | id in t && InWs(t[id], ws);
            && (if 0 <= index < |rows| then exists id :: id in rows && one == t - {id} else one == t)
            && none.Keys == t.Keys - rows && forall id :: id in none ==> none[id] == t[id]
  {
    ScopeIs(t, ws);
    hide Scope, InWs;
  }
}
