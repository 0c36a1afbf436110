/** Diffs: what they say about a table, playing one backwards, and composing two. */
module Diffs {
  import opened Outcomes
  import opened QueryBuilder
  import opened Repositories

  datatype Change = Change(old_: Value, new_: Value)
  type Changes = map<string, Change>
  datatype RowUpdate = RowUpdate(id: Value, changes: Changes)
  datatype Diff = Diff(inserted: seq<Row>, deleted: seq<Row>, updated: seq<RowUpdate>)

  function UpdateIds(us: seq<RowUpdate>): set<Value> {
    set u | u in us :: u.id
  }

  predicate DistinctUpdates(us: seq<RowUpdate>) {
    forall i, j :: 0 <= i < j < |us| ==> us[i].id != us[j].id
  }

  function Touched(d: Diff): set<Value> {
    RowIds(d.inserted) + RowIds(d.deleted) + UpdateIds(d.updated)
  }

  // ------------------------------------------------------- faithful diffs

  ghost predicate Rewrites(before: Cells, ch: Changes, after: Cells) {
    && before.Keys == after.Keys && ch.Keys <= before.Keys
    && (forall f :: f in ch ==> before[f] == ch[f].old_ && after[f] == ch[f].new_)
    && (forall f :: f in before && f !in ch ==> before[f] == after[f])
  }

  /** `d` says exactly how `after` differs from `before`: one entry per row, no
      row both updated and inserted or deleted.  A row may be deleted and
      inserted again with other cells. */
  ghost predicate Faithful(before: Table, d: Diff, after: Table) {
    && DistinctUpdates(d.updated) && DistinctRows(d.inserted) && DistinctRows(d.deleted)
    && UpdateIds(d.updated) !! (RowIds(d.inserted) + RowIds(d.deleted))
    && (forall u :: u in d.updated ==>
          u.id in before && u.id in after && Rewrites(before[u.id], u.changes, after[u.id]))
    && (forall r :: r in d.deleted ==> r.id in before && before[r.id] == r.cells)
    && (forall r :: r in d.inserted ==> r.id in after && after[r.id] == r.cells)
    && (forall id :: id in RowIds(d.inserted) - RowIds(d.deleted) ==> id !in before)
    && (forall id :: id in RowIds(d.deleted) - RowIds(d.inserted) ==> id !in after)
    && SameOff(before, after, Touched(d))
  }

  ghost predicate SameOff(a: Table, b: Table, ids: set<Value>) {
    forall id :: id !in ids ==> (id in a <==> id in b) && (id in a ==> a[id] == b[id])
  }

  // ------------------------------------------------------- playing a diff back

  /** The fields of one entry that differ from their old value, set back to it. */
  function RevertCells(current: Cells, ch: Changes): Cells {
    map f | f in ch && f in current && current[f] != ch[f].old_ :: ch[f].old_
  }

  datatype Reverted = Reverted(rows: Table, log: seq<RowUpdate>, ok: bool)

  /** Raises when the row is gone, an entry names no column, or a value to write
      back has the wrong type. */
  function RevertOne(schema: Schema, p: Reverted, u: RowUpdate): Reverted {
    if u.id !in p.rows || !(u.changes.Keys <= p.rows[u.id].Keys) then p.(ok := false)
    else
      var current := p.rows[u.id];
      var back := RevertCells(current, u.changes);
      if back == map[] then p
      else if !UpdatesRun(schema, back) then p.(ok := false)
      else Reverted(p.rows[u.id := current + Stored(schema, back)], p.log + [RevertEntry(schema, u.id, current, back)], true)
  }

  function RevertEntry(schema: Schema, id: Value, current: Cells, back: Cells): RowUpdate {
    var news := Stored(schema, back);
    RowUpdate(id, map f | f in back && f in current && f in news :: Change(current[f], news[f]))
  }

  /** All entries in list order; the first entry that raises ends the replay. */
  function Reverts(schema: Schema, t: Table, us: seq<RowUpdate>): Reverted {
    if us == [] then Reverted(t, [], true)
    else
      var p := Reverts(schema, t, us[..|us| - 1]);
      if !p.ok then p else RevertOne(schema, p, us[|us| - 1])
  }

  datatype Refilled = Refilled(rows: Table, ok: bool)

  /** Inserts rows in list order; the first id already there, or cell of the wrong
      type, raises. */
  function Refills(schema: Schema, t: Table, rows: seq<Row>): Refilled {
    if rows == [] then Refilled(t, true)
    else
      var p := Refills(schema, t, rows[..|rows| - 1]);
      var r := rows[|rows| - 1];
      if !p.ok || r.id in p.rows || !Insertable(schema, r) then p.(ok := false)
      else Refilled(p.rows[r.id := Stored(schema, r.cells)], true)
  }

  /** The rows as the table holds them once inserted. */
  function StoredRows(schema: Schema, rows: seq<Row>): seq<Row> {
    seq(|rows|, i requires 0 <= i < |rows| => Row(rows[i].id, Stored(schema, rows[i].cells)))
  }

  predicate TypedIds(schema: Schema, rows: seq<Row>) {
    forall r :: r in rows ==> TypedId(schema, r.id)
  }

  /** The table a restore leaves when nothing raises. */
  function AfterRestore(schema: Schema, t: Table, d: Diff): Refilled {
    Refills(schema, Reverts(schema, t, d.updated).rows - RowIds(d.inserted), d.deleted)
  }

  /** No step of the restore raises. */
  predicate CanRestore(schema: Schema, t: Table, d: Diff) {
    Reverts(schema, t, d.updated).ok && TypedIds(schema, d.inserted) && AfterRestore(schema, t, d).ok
  }

  /** Restoring `d` on `t` succeeds, leaves `t2` and returns `u`. */
  ghost predicate Restores(schema: Schema, t: Table, d: Diff, t2: Table, u: Diff) {
    var v := Reverts(schema, t, d.updated);
    && CanRestore(schema, t, d) && t2 == AfterRestore(schema, t, d).rows
    && u.updated == v.log && u.inserted == StoredRows(schema, d.deleted)
    && Lists(u.deleted, v.rows, RowIds(d.inserted) * v.rows.Keys)
  }

  /** A payload's rows name every column, and no entry rewrites an id. */
  predicate Shaped(schema: Schema, d: Diff) {
    && (forall r :: r in d.deleted ==> Columns(schema, r.cells))
    && (forall u :: u in d.updated ==> "id" !in u.changes)
  }

  /** Every id, old value and row of the payload is of the table's types. */
  predicate TypedDiff(schema: Schema, d: Diff) {
    && TypedIds(schema, d.inserted)
    && (forall r :: r in d.deleted ==> Insertable(schema, r) && Columns(schema, r.cells))
    && (forall u :: u in d.updated ==> TypedOlds(schema, u.changes))
  }

  predicate TypedOlds(schema: Schema, ch: Changes) {
    forall f :: f in ch ==> f != "id" && Storable(schema, f, ch[f].old_)
  }

  function ById(id: Value): FilterMap {
    [("id", Plain(One(id)))]
  }

  lemma RenderOne(schema: Schema, c: Condition)
    requires FormatFilter(schema, c).Ok?
    ensures var r := FormatFilter(schema, c).value;
            RenderWhere(schema, [c]) == Ok(Where([r.clause], r.params))
  {
    var r := FormatFilter(schema, c).value;
    assert [c][..0] == [];
    assert [] + [r.clause] == [r.clause] && [] + r.params == r.params;
    assert RenderWhere(schema, [c][..0]) == Ok(Where([], []));
  }

  lemma ByIdSelects(schema: Schema, t: Table, id: Value)
    requires KeyColumn(schema) && TypedId(schema, id)
    ensures FilterRuns(schema, ById(id))
    ensures Selected(schema, t, ById(id)) == {id} * t.Keys
  {
    var c := Condition("id", Eq, One(id));
    assert Conditions(ById(id)) == [c];
    RenderOne(schema, c);
    forall x | x in t
      ensures Matches(schema, [c], View(x, t[x])) <==> x == id
    {
      assert At(View(x, t[x]), "id") == x;
      assert [c][0] == c;
    }
  }

  function ByIds(ids: seq<Value>): FilterMap {
    [("id", Plain(Many(ids)))]
  }

  lemma ByIdsSelects(schema: Schema, t: Table, ids: seq<Value>)
    requires KeyColumn(schema) && ids != [] && forall i :: 0 <= i < |ids| ==> TypedId(schema, ids[i])
    ensures FilterRuns(schema, ByIds(ids))
    ensures Selected(schema, t, ByIds(ids)) == (set id | id in ids) * t.Keys
  {
    var c := Condition("id", In, Many(ids));
    assert Conditions(ByIds(ids)) == [c];
    assert seq(|ids|, i requires 0 <= i < |ids| => Normalize(schema["id"], ids[i])) == ids;
    assert FormatFilter(schema, c) == Ok(Rendered(ListClause("id", In, |ids|), ids));
    RenderOne(schema, c);
    forall x | x in t
      ensures Matches(schema, [c], View(x, t[x])) <==> x in ids && !x.Null?
    {
      assert At(View(x, t[x]), "id") == x;
      assert [c][0] == c;
    }
  }

  /** A null or ill-typed id matches no row: the filter asks for a null, or raises. */
  lemma ByIdRuns(schema: Schema, t: Table, id: Value)
    requires KeyColumn(schema) && Conforms(schema, t)
    ensures id in t ==> FilterRuns(schema, ById(id))
    ensures Selected(schema, t, ById(id)) == {id} * t.Keys
  {
    if TypedId(schema, id) {
      ByIdSelects(schema, t, id);
    } else {
      var c := Condition("id", Eq, One(id));
      assert Conditions(ById(id)) == [c];
      forall x | x in t
        ensures !Matches(schema, [c], View(x, t[x]))
      {
        assert At(View(x, t[x]), "id") == x && x != id;
        assert [c][0] == c;
      }
    }
  }

  /** Raises when no row has the id. */
  method FindOne(repo: Repository, id: Value) returns (r: Result<Cells>)
    requires KeyColumn(repo.builder.schema) && Conforms(repo.builder.schema, repo.rows)
    modifies repo.builder
    ensures r.Ok? <==> id in repo.rows
    ensures r.Ok? ==> r.value == repo.rows[id]
  {
    ByIdRuns(repo.builder.schema, repo.rows, id);
    var found :- repo.Find(ById(id));
    if found == [] {
      NoRow(found, repo.rows, id);
      return Err("record not found");
    }
    assert found[0] in found;
    assert found[0].id in RowIds(found);
    return Ok(found[0].cells);
  }

  method WriteOne(repo: Repository, id: Value, ups: Cells) returns (r: Result<Row>)
    requires KeyColumn(repo.builder.schema) && Conforms(repo.builder.schema, repo.rows) && id in repo.rows
    requires ups != map[] && "id" !in ups
    modifies repo`rows
    ensures Conforms(repo.builder.schema, repo.rows)
    ensures r.Ok? <==> UpdatesRun(repo.builder.schema, ups)
    ensures r.Err? ==> repo.rows == old(repo.rows)
    ensures r.Ok? ==> repo.rows == old(repo.rows)[id := old(repo.rows)[id] + Stored(repo.builder.schema, ups)]
                      && r.value == Row(id, repo.rows[id])
  {
    ghost var schema, before := repo.builder.schema, repo.rows;
    ByIdSelects(schema, before, id);
    assert {id} * before.Keys == {id};
    if UpdatesRun(schema, ups) {
      WrittenConforms(schema, before, id, ups);
    }
    hide Conforms, FilterRuns, Selected, UpdatesRun, Stored, Overwrite, ById;
    var changed :- repo.UpdateReturning(ById(id), ups);
    OneRow(changed, repo.rows, id);
    return Ok(changed[0]);
  }

  lemma WrittenConforms(schema: Schema, t: Table, id: Value, ups: Cells)
    requires Conforms(schema, t) && id in t && "id" !in ups && UpdatesRun(schema, ups)
    ensures Overwrite(t, {id}, Stored(schema, ups)) == t[id := t[id] + Stored(schema, ups)]
    ensures Conforms(schema, t[id := t[id] + Stored(schema, ups)])
  {
    OverwriteConforms(schema, t, {id}, ups);
    hide Conforms, Stored, Storable, UpdatesRun;
    assert Overwrite(t, {id}, Stored(schema, ups)) == t[id := t[id] + Stored(schema, ups)];
  }

  /** One step of the revert loop: reads the row, writes back the fields that differ. */
  method RevertUpdate(repo: Repository, u: RowUpdate, ghost log: seq<RowUpdate>) returns (r: Result<seq<RowUpdate>>)
    requires KeyColumn(repo.builder.schema) && Conforms(repo.builder.schema, repo.rows) && "id" !in u.changes
    modifies repo`rows, repo.builder
    ensures Conforms(repo.builder.schema, repo.rows)
    ensures var p := RevertOne(repo.builder.schema, Reverted(old(repo.rows), log, true), u);
            && (r.Ok? <==> p.ok) && repo.rows == p.rows
            && (r.Ok? ==> log + r.value == p.log)
  {
    hide Conforms, UpdatesRun, Stored, RevertEntry;
    var current :- FindOne(repo, u.id);
    if !(u.changes.Keys <= current.Keys) {
      return Err("no such field");
    }
    var back := RevertCells(current, u.changes);
    if back == map[] {
      assert log + [] == log;
      return Ok([]);
    }
    assert "id" !in back;
    hide RevertCells;
    var row :- WriteOne(repo, u.id, back);
    var entry := RowUpdate(row.id, map f | f in back && f in current && f in row.cells :: Change(current[f], row.cells[f]));
    EntryFromRow(repo.builder.schema, u.id, current, back);
    return Ok([entry]);
  }

  lemma EntryFromRow(schema: Schema, id: Value, current: Cells, back: Cells)
    requires back.Keys <= current.Keys && UpdatesRun(schema, back)
    ensures var cells := current + Stored(schema, back);
            RowUpdate(id, map f | f in back && f in current && f in cells :: Change(current[f], cells[f]))
            == RevertEntry(schema, id, current, back)
  {
    StoredTyped(schema, back);
  }

  method RevertUpdates(repo: Repository, us: seq<RowUpdate>) returns (r: Result<seq<RowUpdate>>)
    requires KeyColumn(repo.builder.schema) && Conforms(repo.builder.schema, repo.rows)
    requires forall u :: u in us ==> "id" !in u.changes
    modifies repo`rows, repo.builder
    ensures Conforms(repo.builder.schema, repo.rows)
    ensures var v := Reverts(repo.builder.schema, old(repo.rows), us);
            repo.rows == v.rows && (r.Ok? <==> v.ok) && (r.Ok? ==> r.value == v.log)
  {
    ghost var start, schema := repo.rows, repo.builder.schema;
    var updated := [];
    hide Conforms, RevertOne;
    for i := 0 to |us|
      invariant Reverts(schema, start, us[..i]) == Reverted(repo.rows, updated, true)
      invariant Conforms(schema, repo.rows)
    {
      assert us[i] in us && us[..i + 1][..i] == us[..i];
      var more := RevertUpdate(repo, us[i], updated);
      if more.Err? {
        RevertsStop(schema, start, us, i + 1);
        return Err(more.reason);
      }
      updated := updated + more.value;
    }
    assert us[..|us|] == us;
    return Ok(updated);
  }

  lemma InsertConforms(schema: Schema, t: Table, r: Row)
    requires Conforms(schema, t) && Insertable(schema, r) && Columns(schema, r.cells)
    ensures Conforms(schema, t[r.id := Stored(schema, r.cells)])
  {
    StoredTyped(schema, r.cells);
    hide TypedCells, Stored;
  }

  method Reinsert(repo: Repository, rows: seq<Row>) returns (r: Result<seq<Row>>)
    requires KeyColumn(repo.builder.schema) && Conforms(repo.builder.schema, repo.rows)
    requires forall row :: row in rows ==> Columns(repo.builder.schema, row.cells)
    modifies repo`rows
    ensures Conforms(repo.builder.schema, repo.rows)
    ensures var w := Refills(repo.builder.schema, old(repo.rows), rows);
            repo.rows == w.rows && (r.Ok? <==> w.ok) && (r.Ok? ==> r.value == StoredRows(repo.builder.schema, rows))
  {
    ghost var start, schema := repo.rows, repo.builder.schema;
    var inserted := [];
    hide Conforms, Insertable, Stored;
    for i := 0 to |rows|
      invariant Refills(schema, start, rows[..i]) == Refilled(repo.rows, true)
      invariant Conforms(schema, repo.rows)
      invariant inserted == StoredRows(schema, rows[..i])
    {
      ghost var now := repo.rows;
      assert rows[i] in rows && rows[..i + 1][..i] == rows[..i];
      var back := repo.InsertReturning(rows[i]);
      if back.Err? {
        RefillsStop(schema, start, rows, i + 1);
        return Err(back.reason);
      }
      InsertConforms(schema, now, rows[i]);
      inserted := inserted + [back.value];
      assert inserted == StoredRows(schema, rows[..i + 1]);
    }
    assert rows[..|rows|] == rows;
    return Ok(inserted);
  }

  /** Reverts the updates, then deletes the inserted ids, then re-inserts the deleted
      rows.  When a step raises, the table keeps what the steps before it did. */
  method RestoreDiff(repo: Repository, d: Diff) returns (r: Result<Diff>)
    requires KeyColumn(repo.builder.schema)
    requires Conforms(repo.builder.schema, repo.rows) && Shaped(repo.builder.schema, d)
    modifies repo`rows, repo.builder
    ensures Conforms(repo.builder.schema, repo.rows)
    ensures r.Ok? <==> CanRestore(repo.builder.schema, old(repo.rows), d)
    ensures r.Ok? ==> Restores(repo.builder.schema, old(repo.rows), d, repo.rows, r.value)
    ensures r.Err? ==>
              var v := Reverts(repo.builder.schema, old(repo.rows), d.updated);
              repo.rows == if v.ok && TypedIds(repo.builder.schema, d.inserted)
                           then AfterRestore(repo.builder.schema, old(repo.rows), d).rows
                           else v.rows
  {
    var updated :- RevertUpdates(repo, d.updated);
    hide Conforms, Reverts, Refills;
    var deleted :- DeleteInserted(repo, d.inserted);
    var inserted :- Reinsert(repo, d.deleted);
    return Ok(Diff(inserted, deleted, updated));
  }

  lemma RemovalConforms(schema: Schema, t: Table, ids: set<Value>)
    requires Conforms(schema, t)
    ensures Conforms(schema, t - ids)
  {
  }

  method DeleteInserted(repo: Repository, rows: seq<Row>) returns (r: Result<seq<Row>>)
    requires KeyColumn(repo.builder.schema) && Conforms(repo.builder.schema, repo.rows)
    modifies repo`rows
    ensures Conforms(repo.builder.schema, repo.rows)
    ensures r.Ok? <==> TypedIds(repo.builder.schema, rows)
    ensures r.Err? ==> repo.rows == old(repo.rows)
    ensures r.Ok? ==> repo.rows == old(repo.rows) - RowIds(rows)
                      && Lists(r.value, old(repo.rows), RowIds(rows) * old(repo.rows).Keys)
  {
    var ids := seq(|rows|, i requires 0 <= i < |rows| => rows[i].id);
    assert forall i :: 0 <= i < |ids| ==> rows[i] in rows;
    IdsListed(rows, ids);
    if ids == [] {
      assert RowIds([]) == {};
      return Ok([]);
    }
    IdsTyped(repo.builder.schema, rows, ids);
    RemovalConforms(repo.builder.schema, repo.rows, RowIds(rows));
    if TypedIds(repo.builder.schema, rows) {
      ByIdsSelects(repo.builder.schema, repo.rows, ids);
      assert repo.rows - RowIds(rows) * repo.rows.Keys == repo.rows - RowIds(rows);
    }
    r := repo.DeleteReturning(ByIds(ids));
  }

  lemma IdsTyped(schema: Schema, rows: seq<Row>, ids: seq<Value>)
    requires KeyColumn(schema) && !schema["id"].nullable
    requires |ids| == |rows| && ids != [] && forall i :: 0 <= i < |rows| ==> ids[i] == rows[i].id
    ensures FilterRuns(schema, ByIds(ids)) <==> TypedIds(schema, rows)
  {
    if TypedIds(schema, rows) {
      forall i | 0 <= i < |ids| ensures TypedId(schema, ids[i]) {
        assert rows[i] in rows;
      }
      ByIdsSelects(schema, map[], ids);
    } else {
      var r :| r in rows && !TypedId(schema, r.id);
      var i :| 0 <= i < |rows| && rows[i] == r;
      var c := Condition("id", In, Many(ids));
      assert Conditions(ByIds(ids)) == [c];
      var ns := seq(|ids|, k requires 0 <= k < |ids| => Normalize(schema["id"], ids[k]));
      assert !Accepts(schema["id"], ns[i]);
      RenderNeedsAll(schema, [c], 0);
    }
  }

  lemma IdsListed(rows: seq<Row>, ids: seq<Value>)
    requires |ids| == |rows| && forall i :: 0 <= i < |rows| ==> ids[i] == rows[i].id
    ensures (set id | id in ids) == RowIds(rows)
  {
    forall r | r in rows ensures r.id in ids {
      var i :| 0 <= i < |rows| && rows[i] == r;
      assert ids[i] in ids;
    }
  }

  lemma NoRow(rows: seq<Row>, t: Table, id: Value)
    requires Lists(rows, t, {id} * t.Keys) && rows == []
    ensures id !in t
  {
    assert RowIds([]) == {};
    assert id in t ==> id in {id} * t.Keys;
  }

  lemma OneRow(rows: seq<Row>, t: Table, id: Value)
    requires Lists(rows, t, {id})
    ensures |rows| == 1 && rows[0].id == id && rows[0].cells == t[id]
  {
    assert id in RowIds(rows);
    forall i | 0 <= i < |rows| ensures rows[i].id == id && rows[i].cells == t[id] {
      assert rows[i] in rows;
      assert rows[i].id in RowIds(rows);
    }
    var k := if |rows| > 1 then 1 else 0;
    assert rows[0].id == rows[k].id;
  }

  lemma {:induction false} RevertsStop(schema: Schema, t: Table, us: seq<RowUpdate>, k: nat)
    requires k <= |us| && !Reverts(schema, t, us[..k]).ok
    ensures Reverts(schema, t, us) == Reverts(schema, t, us[..k])
    decreases |us|
  {
    if k == |us| {
      assert us[..k] == us;
    } else {
      assert us[..|us| - 1][..k] == us[..k];
      RevertsStop(schema, t, us[..|us| - 1], k);
    }
  }

  lemma {:induction false} RefillsStop(schema: Schema, t: Table, rows: seq<Row>, k: nat)
    requires k <= |rows| && !Refills(schema, t, rows[..k]).ok
    ensures Refills(schema, t, rows) == Refills(schema, t, rows[..k])
    decreases |rows|
  {
    if k == |rows| {
      assert rows[..k] == rows;
    } else {
      assert rows[..|rows| - 1][..k] == rows[..k];
      RefillsStop(schema, t, rows[..|rows| - 1], k);
    }
  }

  // ------------------------------------------------------- a restore that stops halfway

  const WORD_SCHEMA: Schema :=
    map["id" := ColumnType(TextColumn, false), "word" := ColumnType(TextColumn, true)]

  function Word(w: string): Cells {
    map["word" := Text(w)]
  }

  function Rename(id: string, from: string, to: string): RowUpdate {
    RowUpdate(Text(id), map["word" := Change(Text(from), Text(to))])
  }

  function FirstRow(w: string): Table {
    map[Text("1") := Word(w)]
  }

  lemma FirstRowBack()
    ensures RevertOne(WORD_SCHEMA, Reverted(FirstRow("new"), [], true), Rename("1", "old", "new"))
            == Reverted(FirstRow("old"), [Rename("1", "new", "old")], true)
  {
    var one := Rename("1", "old", "new");
    assert RevertCells(Word("new"), one.changes) == Word("old");
    assert Stored(WORD_SCHEMA, Word("old")) == Word("old");
    assert Word("new") + Word("old") == Word("old");
    assert FirstRow("new")[Text("1") := Word("old")] == FirstRow("old");
    var entry := RevertEntry(WORD_SCHEMA, Text("1"), Word("new"), Word("old"));
    assert "word" in entry.changes && entry.changes.Keys == {"word"};
    assert entry.changes == map["word" := Change(Text("new"), Text("old"))];
  }

  /** Two rows are renamed and the second is deleted.  Restoring the renaming then puts
      the first row back, raises at the second, and leaves neither table. */
  lemma HalfRestored()
    ensures var d := Diff([], [], [Rename("1", "old", "new"), Rename("2", "old", "new")]);
            && KeyColumn(WORD_SCHEMA) && Conforms(WORD_SCHEMA, FirstRow("new"))
            && Shaped(WORD_SCHEMA, d) && TypedDiff(WORD_SCHEMA, d) && !CanRestore(WORD_SCHEMA, FirstRow("new"), d)
            && !Reverts(WORD_SCHEMA, FirstRow("new"), d.updated).ok
            && Reverts(WORD_SCHEMA, FirstRow("new"), d.updated).rows == FirstRow("old") != FirstRow("new")
  {
    hide Conforms, KeyColumn, Shaped, TypedDiff;
    HalfTyped();
    FirstRowBack();
    var one, two := Rename("1", "old", "new"), Rename("2", "old", "new");
    assert Text("2") !in FirstRow("old");
    assert FirstRow("old")[Text("1")]["word"] != FirstRow("new")[Text("1")]["word"];
    var us := [one, two];
    assert us[..1] == [one] && [one][..0] == [];
    assert Reverts(WORD_SCHEMA, FirstRow("new"), [one]) == RevertOne(WORD_SCHEMA, Reverted(FirstRow("new"), [], true), one);
  }

  lemma HalfTyped()
    ensures var d := Diff([], [], [Rename("1", "old", "new"), Rename("2", "old", "new")]);
            && KeyColumn(WORD_SCHEMA) && Conforms(WORD_SCHEMA, FirstRow("new"))
            && Shaped(WORD_SCHEMA, d) && TypedDiff(WORD_SCHEMA, d)
  {
  }
}
