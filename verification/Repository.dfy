/** A table and the calls the reducers make on it.

    A table maps a row's id to its other cells; ids are unique by construction.
    The database may return rows in any order, so every returned list is some
    enumeration of the rows it covers. */
module Repositories {
  import opened Outcomes
  import opened QueryBuilder

  type Table = map<Value, Cells>
  datatype Row = Row(id: Value, cells: Cells)

  /** The row as a statement sees it: its id is one more column. */
  function View(id: Value, cells: Cells): Cells {
    cells["id" := id]
  }

  function Selected(schema: Schema, t: Table, f: FilterMap): set<Value> {
    set id | id in t && Matches(schema, Conditions(f), View(id, t[id]))
  }

  function RowIds(rows: seq<Row>): set<Value> {
    set r | r in rows :: r.id
  }

  predicate DistinctRows(rows: seq<Row>) {
    forall i, j :: 0 <= i < j < |rows| ==> rows[i].id != rows[j].id
  }

  /** `rows` holds the rows of `t` with ids in `ids`, each once, in some order. */
  ghost predicate Lists(rows: seq<Row>, t: Table, ids: set<Value>) {
    && DistinctRows(rows)
    && RowIds(rows) == ids
    && forall r :: r in rows ==> r.id in t && r.cells == t[r.id]
  }

  function Overwrite(t: Table, ids: set<Value>, news: Cells): Table {
    map id | id in t :: if id in ids then t[id] + news else t[id]
  }

  predicate FilterRuns(schema: Schema, f: FilterMap) {
    var w := RenderWhere(schema, Conditions(f));
    w.Ok? && forall i :: 0 <= i < |w.value.clauses| ==> ValidSql(w.value.clauses[i])
  }

  function NewId(news: Cells): Value {
    if "id" in news then news["id"] else Null
  }

  /** At most one row is given the id, and no other row has it. */
  predicate Rekeyable(t: Table, ids: set<Value>, news: Cells) {
    |ids| <= 1 && (ids != {} && NewId(news) in t ==> NewId(news) in ids)
  }

  function Rekeyed(t: Table, k: Value, news: Cells): Table {
    if k in t then (t - {k})[NewId(news) := (t[k] + news) - {"id"}] else t
  }

  lemma OneOf(ids: set<Value>, k: Value)
    requires k in ids && |ids| <= 1
    ensures ids == {k}
  {
    var rest := ids - {k};
    assert ids == {k} + rest && |ids| == 1 + |rest|;
    assert rest == {};
  }

  predicate UpdatesRun(schema: Schema, ups: Cells) {
    && ups != map[]
    && forall f :: f in ups ==> Storable(schema, f, ups[f])
  }

  function Stored(schema: Schema, ups: Cells): Cells {
    map f | f in ups && f in schema :: Normalize(schema[f], ups[f])
  }

  // ------------------------------------------------------------- typed tables

  predicate KeyColumn(schema: Schema) {
    "id" in schema && !schema["id"].affinity.BoolColumn? && !schema["id"].nullable
  }

  predicate TypedId(schema: Schema, id: Value) {
    "id" in schema && !id.Null? && Accepts(schema["id"], id)
  }

  predicate Storable(schema: Schema, column: string, v: Value) {
    column in schema && Accepts(schema[column], Normalize(schema[column], v))
  }

  /** The value is one the column can hold: booleans are 0 or 1. */
  predicate TypedCell(schema: Schema, f: string, v: Value) {
    f in schema && Accepts(schema[f], v) && Normalize(schema[f], v) == v
  }

  predicate TypedCells(schema: Schema, cells: Cells) {
    forall f :: f in cells ==> TypedCell(schema, f, cells[f])
  }

  predicate Columns(schema: Schema, cells: Cells) {
    cells.Keys == schema.Keys - {"id"}
  }

  /** Every row has every column, and every cell is of its column's type. */
  predicate Conforms(schema: Schema, t: Table) {
    forall id :: id in t ==> TypedId(schema, id) && Columns(schema, t[id]) && TypedCells(schema, t[id])
  }

  /** What an insert checks of a row before it is written. */
  predicate Insertable(schema: Schema, r: Row) {
    TypedId(schema, r.id) && forall f :: f in r.cells ==> Storable(schema, f, r.cells[f])
  }

  lemma StoredTyped(schema: Schema, ups: Cells)
    requires forall f :: f in ups ==> Storable(schema, f, ups[f])
    ensures TypedCells(schema, Stored(schema, ups)) && Stored(schema, ups).Keys == ups.Keys
  {
  }

  lemma StoredSame(schema: Schema, cells: Cells)
    requires TypedCells(schema, cells)
    ensures Stored(schema, cells) == cells
    ensures forall f :: f in cells ==> Storable(schema, f, cells[f])
  {
  }

  lemma OverwriteConforms(schema: Schema, t: Table, ids: set<Value>, ups: Cells)
    requires Conforms(schema, t) && "id" !in ups && forall f :: f in ups ==> Storable(schema, f, ups[f])
    ensures Conforms(schema, Overwrite(t, ids, Stored(schema, ups)))
  {
    StoredTyped(schema, ups);
    hide Storable, TypedId, TypedCell, Stored;
  }

  /** The cells an UPDATE statement writes. */
  function SetCells(sets: seq<string>, values: seq<Value>): Cells
    requires |sets| == |values|
  {
    if sets == [] then map[]
    else SetCells(sets[..|sets| - 1], values[..|sets| - 1])[sets[|sets| - 1] := values[|sets| - 1]]
  }

  class Repository {
    const builder: Builder
    var rows: Table

    constructor (schema: Schema)
      ensures builder.schema == schema && fresh(builder) && rows == map[]
    {
      builder := new Builder(schema);
      rows := map[];
    }

    method Find(f: FilterMap) returns (r: Result<seq<Row>>)
      modifies builder
      ensures builder.filters == []
      ensures r.Ok? <==> FilterRuns(builder.schema, f)
      ensures r.Ok? ==> Lists(r.value, rows, Selected(builder.schema, rows, f))
    {
      builder.Reset();
      var s := builder.Find(f);
      ghost var conds := Conditions(f);
      assert conds + builder.filters == conds;
      if s.Err? {
        return Err(s.reason);
      }
      if !Executable(s.value) {
        return Err("syntax error");
      }
      assert WhereClauses(s.value) == RenderWhere(builder.schema, conds).value.clauses;
      forall id | id in rows
        ensures MarksLineUp(s.value)
          && (Selects(s.value, View(id, rows[id])) <==> Matches(builder.schema, conds, View(id, rows[id])))
      {
        RenderedMeans(builder.schema, conds, View(id, rows[id]));
      }
      RenderedMeans(builder.schema, conds, map[]);
      var ids := set id | id in rows && Selects(s.value, View(id, rows[id]));
      assert ids == Selected(builder.schema, rows, f);
      var found := Enumerate(rows, ids);
      return Ok(found);
    }

    /** A new id moves the row to it; two rows cannot get one id, and an id in use
        violates the primary key. */
    method UpdateReturning(f: FilterMap, ups: Cells) returns (r: Result<seq<Row>>)
      modifies this`rows
      ensures var ids, news := Selected(builder.schema, old(rows), f), Stored(builder.schema, ups);
        && (r.Ok? <==> f != [] && FilterRuns(builder.schema, f) && UpdatesRun(builder.schema, ups)
                       && ("id" in ups ==> Rekeyable(old(rows), ids, news)))
        && (r.Err? ==> rows == old(rows))
        && (r.Ok? && "id" !in ups ==> rows == Overwrite(old(rows), ids, news) && Lists(r.value, rows, ids))
        && (r.Ok? && "id" in ups ==>
              if ids == {} then rows == old(rows) && r.value == []
              else exists k :: ids == {k} && rows == Rekeyed(old(rows), k, news) && r.value == [Row(NewId(news), rows[NewId(news)])])
    {
      var listed := ListUpdates(ups);
      NormalizedCells(builder.schema, ups, listed);
      var s := builder.RenderUpdate(f, listed);
      ghost var conds := Conditions(f);
      if s.Err? {
        return Err(s.reason);
      }
      if !Executable(s.value) {
        return Err("syntax error");
      }
      ghost var values := NormalizeUpdates(builder.schema, listed).value;
      RenderedMeans(builder.schema, conds, map[]);
      assert s.value.params[|s.value.sets|..] == RenderWhere(builder.schema, conds).value.params;
      assert s.value.params[..|s.value.sets|] == values;
      forall id | id in rows
        ensures Selects(s.value, View(id, rows[id])) <==> Matches(builder.schema, conds, View(id, rows[id]))
      {
        RenderedMeans(builder.schema, conds, View(id, rows[id]));
      }
      var ids := set id | id in rows && Selects(s.value, View(id, rows[id]));
      assert ids == Selected(builder.schema, rows, f);
      r := Write(ids, SetCells(s.value.sets, s.value.params[..|s.value.sets|]));
    }

    /** Writes the cells over the rows. */
    method Write(ids: set<Value>, news: Cells) returns (r: Result<seq<Row>>)
      requires ids <= rows.Keys
      modifies this`rows
      ensures r.Ok? <==> ("id" in news ==> Rekeyable(old(rows), ids, news))
      ensures r.Err? ==> rows == old(rows)
      ensures r.Ok? && "id" !in news ==> rows == Overwrite(old(rows), ids, news) && Lists(r.value, rows, ids)
      ensures r.Ok? && "id" in news ==>
        if ids == {} then rows == old(rows) && r.value == []
        else exists k :: ids == {k} && rows == Rekeyed(old(rows), k, news) && r.value == [Row(NewId(news), rows[NewId(news)])]
    {
      if "id" !in news {
        rows := Overwrite(rows, ids, news);
        var changed := Enumerate(rows, ids);
        return Ok(changed);
      }
      if ids == {} {
        return Ok([]);
      }
      var k :| k in ids;
      if |ids| > 1 {
        return Err("primary key exists");
      }
      OneOf(ids, k);
      if NewId(news) != k && NewId(news) in rows {
        return Err("primary key exists");
      }
      rows := Rekeyed(rows, k, news);
      return Ok([Row(NewId(news), rows[NewId(news)])]);
    }

    method DeleteReturning(f: FilterMap) returns (r: Result<seq<Row>>)
      modifies this`rows
      ensures r.Ok? <==> f != [] && FilterRuns(builder.schema, f)
      ensures r.Err? ==> rows == old(rows)
      ensures r.Ok? ==>
        var ids := Selected(builder.schema, old(rows), f);
        rows == old(rows) - ids && Lists(r.value, old(rows), ids)
    {
      var s := builder.RenderDelete(f, false);
      ghost var conds := Conditions(f);
      if s.Err? {
        return Err(s.reason);
      }
      if !Executable(s.value) {
        return Err("syntax error");
      }
      RenderedMeans(builder.schema, conds, map[]);
      forall id | id in rows
        ensures Selects(s.value, View(id, rows[id])) <==> Matches(builder.schema, conds, View(id, rows[id]))
      {
        RenderedMeans(builder.schema, conds, View(id, rows[id]));
      }
      var ids := set id | id in rows && Selects(s.value, View(id, rows[id]));
      assert ids == Selected(builder.schema, rows, f);
      var gone := Enumerate(rows, ids);
      rows := rows - ids;
      return Ok(gone);
    }

    /** The cells are checked before the statement is sent; inserting an id that is
        already there violates the primary key. */
    method InsertReturning(row: Row) returns (r: Result<Row>)
      requires KeyColumn(builder.schema) && "id" !in row.cells
      modifies this`rows
      ensures r.Ok? <==> row.id !in old(rows) && Insertable(builder.schema, row)
      ensures r.Err? ==> rows == old(rows)
      ensures r.Ok? ==>
        var cells := Stored(builder.schema, row.cells);
        r.value == Row(row.id, cells) && rows == old(rows)[row.id := cells]
    {
      if row.id.Null? {
        return Err("invalid type");
      }
      var all := View(row.id, row.cells);
      var listed := ListUpdates(all);
      NormalizedCells(builder.schema, all, listed);
      InsertCells(builder.schema, row);
      var s := builder.RenderInsert(listed);
      if s.Err? {
        return Err(s.reason);
      }
      var written := SetCells(s.value.columns, s.value.params);
      var id, cells := written["id"], written - {"id"};
      if id in rows {
        return Err("primary key exists");
      }
      rows := rows[id := cells];
      return Ok(Row(id, cells));
    }
  }

  lemma InsertCells(schema: Schema, row: Row)
    requires KeyColumn(schema) && "id" !in row.cells && !row.id.Null?
    ensures var all := View(row.id, row.cells);
            && (Insertable(schema, row) <==> forall f :: f in all ==> Storable(schema, f, all[f]))
            && Stored(schema, all) == Stored(schema, row.cells)["id" := row.id]
            && Stored(schema, all) - {"id"} == Stored(schema, row.cells)
  {
    var all := View(row.id, row.cells);
    assert forall f :: f in row.cells ==> f != "id" && all[f] == row.cells[f];
    assert Storable(schema, "id", row.id) <==> TypedId(schema, row.id);
    if forall f :: f in all ==> Storable(schema, f, all[f]) {
      assert Storable(schema, "id", all["id"]);
    }
  }

  /** Lists the chosen rows in an order of the database's choosing. */
  method Enumerate(t: Table, ids: set<Value>) returns (rows: seq<Row>)
    requires ids <= t.Keys
    ensures Lists(rows, t, ids)
  {
    rows := [];
    var todo := ids;
    while todo != {}
      invariant todo <= ids
      invariant Lists(rows, t, ids - todo)
      decreases todo
    {
      var id :| id in todo;
      ListsGrows(rows, t, ids - todo, id);
      rows := rows + [Row(id, t[id])];
      assert ids - (todo - {id}) == (ids - todo) + {id};
      todo := todo - {id};
    }
    assert ids - {} == ids;
  }

  lemma ListsGrows(rows: seq<Row>, t: Table, ids: set<Value>, id: Value)
    requires Lists(rows, t, ids) && id in t && id !in ids
    ensures Lists(rows + [Row(id, t[id])], t, ids + {id})
  {
    var more := rows + [Row(id, t[id])];
    forall x ensures x in RowIds(more) <==> x in ids + {id} {
      if x in RowIds(rows) {
        var r :| r in rows && r.id == x;
        assert r in more;
      }
      assert Row(id, t[id]) in more;
    }
    forall i | 0 <= i < |rows| ensures rows[i].id != id {
      assert rows[i] in rows;
      assert rows[i].id in RowIds(rows);
    }
  }

  /** Turns a dictionary of new values into the list a statement renders. */
  method ListUpdates(ups: Cells) returns (listed: Updates)
    ensures listed == [] <==> ups == map[]
    ensures ListsCells(listed, ups)
    ensures forall f :: f in ups ==> f in Names(listed)
  {
    listed := [];
    var todo := ups.Keys;
    while todo != {}
      invariant todo <= ups.Keys
      invariant ListsCells(listed, ups)
      invariant forall f :: f in ups && f !in todo ==> f in Names(listed)
      invariant listed == [] ==> todo == ups.Keys
      decreases todo
    {
      var f :| f in todo;
      ghost var before := Names(listed);
      listed := listed + [(f, ups[f])];
      assert Names(listed) == before + [f];
      todo := todo - {f};
    }
    if listed != [] {
      assert Names(listed)[0] == listed[0].0;
    } else {
      assert ups.Keys == {};
    }
  }

  /** Whatever order the dictionary is listed in, the statement writes the same cells. */
  lemma NormalizedCells(schema: Schema, ups: Cells, listed: Updates)
    requires ListsCells(listed, ups)
    requires forall f :: f in ups ==> f in Names(listed)
    ensures NormalizeUpdates(schema, listed).Ok? <==>
            forall f :: f in ups ==> Storable(schema, f, ups[f])
    ensures NormalizeUpdates(schema, listed).Ok? ==>
              SetCells(Names(listed), NormalizeUpdates(schema, listed).value) == Stored(schema, ups)
  {
    NormalizesAll(schema, listed);
    forall f | f in ups ensures exists i :: 0 <= i < |listed| && listed[i].0 == f {
      var i :| 0 <= i < |Names(listed)| && Names(listed)[i] == f;
      assert listed[i].0 == f;
    }
    if NormalizeUpdates(schema, listed).Ok? {
      WritesAll(schema, ups, listed);
      assert SetCells(Names(listed), NormalizeUpdates(schema, listed).value).Keys == ups.Keys;
    }
  }

  ghost predicate ListsCells(listed: Updates, ups: Cells) {
    forall i :: 0 <= i < |listed| ==> listed[i].0 in ups && ups[listed[i].0] == listed[i].1
  }

  lemma {:induction false} NormalizesAll(schema: Schema, listed: Updates)
    ensures NormalizeUpdates(schema, listed).Ok? <==>
            forall i :: 0 <= i < |listed| ==> Storable(schema, listed[i].0, listed[i].1)
    decreases |listed|
  {
    if listed == [] {
    } else {
      var n := |listed| - 1;
      NormalizesAll(schema, listed[..n]);
      assert forall i :: 0 <= i < n ==> listed[..n][i] == listed[i];
    }
  }

  lemma {:induction false} WritesAll(schema: Schema, ups: Cells, listed: Updates)
    requires ListsCells(listed, ups) && NormalizeUpdates(schema, listed).Ok?
    ensures var cells := SetCells(Names(listed), NormalizeUpdates(schema, listed).value);
            && (forall f :: f in cells <==> f in Names(listed))
            && forall f :: f in cells ==> f in ups && f in schema && cells[f] == Normalize(schema[f], ups[f])
    decreases |listed|
  {
    if listed == [] {
    } else {
      var n := |listed| - 1;
      var front := listed[..n];
      WritesAll(schema, ups, front);
      var values := NormalizeUpdates(schema, listed).value;
      assert Names(listed) == Names(front) + [listed[n].0];
      assert values[..n] == NormalizeUpdates(schema, front).value;
      assert Names(listed)[..n] == Names(front);
    }
  }
}
