/** The three ways the reducers change a table, each with the diff it records:
    overwrite some columns of selected rows, delete selected rows, insert rows. */
module TableActions {
  import opened Outcomes
  import opened QueryBuilder
  import opened Repositories
  import opened Diffs
  import opened UndoRuns

  /** `some` holds the elements of `all` at the positions `at`, in their order. */
  ghost predicate Sifted<T>(all: seq<T>, some: seq<T>, at: seq<nat>) {
    && |some| == |at|
    && (forall k :: 0 <= k < |at| ==> at[k] < |all| && some[k] == all[at[k]])
    && (forall j, k :: 0 <= j < k < |at| ==> at[j] < at[k])
  }

  lemma SiftedIn<T>(all: seq<T>, some: seq<T>, at: seq<nat>, x: T)
    requires Sifted(all, some, at)
    ensures x in some <==> exists i :: 0 <= i < |all| && i in at && all[i] == x
  {
    if i :| 0 <= i < |all| && i in at && all[i] == x {
      var k :| 0 <= k < |at| && at[k] == i;
      assert some[k] == x;
    }
    if x in some {
      var k :| 0 <= k < |some| && some[k] == x;
      assert at[k] in at;
    }
  }

  function Equals(column: string, v: Value): (string, FilterValue) {
    (column, Plain(One(v)))
  }

  predicate Runs(schema: Schema, f: FilterMap) {
    f != [] && FilterRuns(schema, f)
  }

  predicate EntryRuns(schema: Schema, e: (string, FilterValue)) {
    var r := FormatFilter(schema, AsCondition(e));
    r.Ok? && ValidSql(r.value.clause)
  }

  lemma FilterMore(schema: Schema, front: FilterMap, e: (string, FilterValue))
    ensures FilterRuns(schema, front + [e]) <==> FilterRuns(schema, front) && EntryRuns(schema, e)
  {
    var f := front + [e];
    assert Conditions(f)[..|f| - 1] == Conditions(front);
    assert Conditions(f)[|f| - 1] == AsCondition(e);
    hide FormatFilter;
    if RenderWhere(schema, Conditions(f)).Ok? {
      var a, b := RenderWhere(schema, Conditions(f)).value.clauses, RenderWhere(schema, Conditions(front)).value.clauses;
      var c := FormatFilter(schema, AsCondition(e)).value.clause;
      assert a == b + [c] && a[|b|] == c;
      assert forall i :: 0 <= i < |b| ==> b[i] == a[i];
      assert (forall i :: 0 <= i < |a| ==> ValidSql(a[i])) <==> (forall i :: 0 <= i < |b| ==> ValidSql(b[i])) && ValidSql(c);
    }
  }

  /** A filter runs exactly when each of its entries does. */
  lemma {:induction false} FilterRunsIff(schema: Schema, f: FilterMap)
    ensures FilterRuns(schema, f) <==> forall i :: 0 <= i < |f| ==> EntryRuns(schema, f[i])
    decreases |f|
  {
    if f == [] {
      assert Conditions(f) == [];
    } else {
      var front, e := f[..|f| - 1], f[|f| - 1];
      assert f == front + [e];
      hide FilterRuns, EntryRuns;
      FilterRunsIff(schema, front);
      FilterMore(schema, front, e);
    }
  }

  /** A text column can be compared with any text, and with null, which asks for null. */
  lemma EqualsRuns(schema: Schema, column: string, v: Value)
    requires column in schema && schema[column].affinity.TextColumn?
    ensures EntryRuns(schema, Equals(column, v)) <==> !v.Num?
  {
  }

  /** Selected rows deleted, then `rows` inserted. */
  function Replaced(schema: Schema, t: Table, gone: set<Value>, rows: seq<Row>): Table {
    Refills(schema, t - gone, rows).rows
  }

  /** The inserted ids are new to the rows that stay, and the cells pass the checks. */
  predicate Fits(schema: Schema, t: Table, gone: set<Value>, rows: seq<Row>) {
    && DistinctRows(rows) && AllInsertable(schema, rows)
    && forall r :: r in rows ==> r.id in gone || r.id !in t
  }

  predicate AllColumns(schema: Schema, rows: seq<Row>) {
    forall r :: r in rows ==> Columns(schema, r.cells)
  }

  /** What one overwrite records: an entry per row, listing the written columns. */
  ghost predicate Records(t: Table, ids: set<Value>, news: Cells, us: seq<RowUpdate>) {
    && DistinctUpdates(us) && UpdateIds(us) <= ids
    && (forall u :: u in us ==> RecordsRow(t, news, u))
    && (forall id :: id in ids - UpdateIds(us) ==> id in t && t[id] + news == t[id])
  }

  predicate RecordsRow(t: Table, news: Cells, u: RowUpdate) {
    && u.id in t && u.changes.Keys == news.Keys && news.Keys <= t[u.id].Keys
    && forall f :: f in u.changes ==> u.changes[f] == Change(t[u.id][f], news[f])
  }

  lemma OverwriteFaithful(t: Table, ids: set<Value>, news: Cells, us: seq<RowUpdate>)
    requires ids <= t.Keys && Records(t, ids, news, us)
    ensures Faithful(t, Diff([], [], us), Overwrite(t, ids, news))
  {
    var after := Overwrite(t, ids, news);
    forall u | u in us ensures u.id in after && Rewrites(t[u.id], u.changes, after[u.id]) {
      assert u.id in UpdateIds(us);
    }
  }

  lemma ReplaceFaithful(schema: Schema, t: Table, gone: set<Value>, rows: seq<Row>, deleted: seq<Row>)
    requires gone <= t.Keys && Lists(deleted, t, gone) && Fits(schema, t, gone, rows)
    ensures Faithful(t, Diff(StoredRows(schema, rows), deleted, []), Replaced(schema, t, gone, rows))
  {
    hide Insertable, Stored, Refills, StoredRows, Columns, TypedCells;
    FitsDisjoint(schema, t, gone, rows);
    RefillsAdd(schema, t - gone, rows);
    StoredIds(schema, rows);
    forall r | r in deleted ensures r.id in gone {
      assert r.id in RowIds(deleted);
    }
  }

  /** Storing rows changes no id. */
  lemma StoredIds(schema: Schema, rows: seq<Row>)
    ensures RowIds(StoredRows(schema, rows)) == RowIds(rows)
    ensures DistinctRows(StoredRows(schema, rows)) <==> DistinctRows(rows)
    ensures forall s :: s in StoredRows(schema, rows) ==> exists r :: r in rows && s == Row(r.id, Stored(schema, r.cells))
  {
    var kept := StoredRows(schema, rows);
    hide Stored;
    forall r | r in rows ensures r.id in RowIds(kept) {
      var i :| 0 <= i < |rows| && rows[i] == r;
      assert kept[i] in kept;
    }
    forall s | s in kept ensures exists r :: r in rows && s == Row(r.id, Stored(schema, r.cells)) {
      var i :| 0 <= i < |kept| && kept[i] == s;
      assert rows[i] in rows;
    }
    assert DistinctRows(kept) <==> DistinctRows(rows) by {
      assert forall i :: 0 <= i < |rows| ==> kept[i].id == rows[i].id;
    }
  }

  /** Reads the old values, overwrites, and records an entry for every updated row. */
  method UpdateRecorded(repo: Repository, f: FilterMap, ups: Cells, onlyChanged: bool) returns (r: Result<seq<RowUpdate>>)
    requires KeyColumn(repo.builder.schema) && Conforms(repo.builder.schema, repo.rows) && "id" !in ups
    modifies repo`rows, repo.builder
    ensures Conforms(repo.builder.schema, repo.rows)
    ensures r.Ok? <==> Runs(repo.builder.schema, f) && UpdatesRun(repo.builder.schema, ups)
    ensures r.Err? ==> repo.rows == old(repo.rows)
    ensures r.Ok? ==>
              var ids := Selected(repo.builder.schema, old(repo.rows), f);
              var news := Stored(repo.builder.schema, ups);
              && repo.rows == Overwrite(old(repo.rows), ids, news)
              && Records(old(repo.rows), ids, news, r.value)
              && (!onlyChanged ==> UpdateIds(r.value) == ids)
  {
    ghost var before := repo.rows;
    var oldRows :- repo.Find(f);
    var rows :- repo.UpdateReturning(f, ups);
    ghost var news := Stored(repo.builder.schema, ups);
    assert news.Keys == ups.Keys;
    OverwriteConforms(repo.builder.schema, before, Selected(repo.builder.schema, before, f), ups);
    var entries := RecordEntries(before, oldRows, rows, Selected(repo.builder.schema, before, f), ups.Keys, news, onlyChanged);
    return Ok(entries);
  }

  /** The entry one updated row gets; with `onlyChanged`, none when nothing changed. */
  function EntryFor(was: Cells, row: Row, columns: set<string>, onlyChanged: bool): seq<RowUpdate>
    requires columns <= was.Keys && columns <= row.cells.Keys
  {
    if !onlyChanged || (exists c :: c in columns && was[c] != row.cells[c])
    then [RowUpdate(row.id, map c | c in columns :: Change(was[c], row.cells[c]))]
    else []
  }

  /** A dictionary from id to the cells read before the update. */
  method OldCells(ghost before: Table, oldRows: seq<Row>, ghost ids: set<Value>) returns (olds: Table)
    requires Lists(oldRows, before, ids)
    ensures forall id :: id in ids ==> id in olds && id in before && olds[id] == before[id]
  {
    olds := map o | o in oldRows :: o.id := o.cells;
    assert forall id :: id in ids ==> id in RowIds(oldRows);
  }

  lemma NewCells(before: Table, rows: seq<Row>, ids: set<Value>, news: Cells)
    requires ids <= before.Keys && Lists(rows, Overwrite(before, ids, news), ids)
    ensures RowIds(rows) == ids && DistinctRows(rows)
    ensures forall k :: 0 <= k < |rows| ==> rows[k].id in ids && rows[k].cells == before[rows[k].id] + news
  {
    forall k | 0 <= k < |rows| ensures rows[k].id in ids && rows[k].cells == before[rows[k].id] + news {
      assert rows[k] in rows && rows[k].id in RowIds(rows);
    }
  }

  method RecordEntries(ghost before: Table, oldRows: seq<Row>, rows: seq<Row>, ghost ids: set<Value>,
                       columns: set<string>, ghost news: Cells, onlyChanged: bool)
    returns (entries: seq<RowUpdate>)
    requires ids <= before.Keys && Lists(oldRows, before, ids) && Lists(rows, Overwrite(before, ids, news), ids)
    requires columns == news.Keys && forall id :: id in ids ==> columns <= before[id].Keys
    ensures Records(before, ids, news, entries)
    ensures !onlyChanged ==> UpdateIds(entries) == ids
  {
    var olds := OldCells(before, oldRows, ids);
    NewCells(before, rows, ids, news);
    entries := [];
    ghost var seen := {};
    assert Records(before, seen, news, entries);
    assert RowIds(rows) == ids && DistinctRows(rows);
    hide Records, Lists;
    for k := 0 to |rows|
      invariant seen == RowIds(rows[..k])
      invariant Records(before, seen, news, entries)
      invariant !onlyChanged ==> UpdateIds(entries) == seen
    {
      assert rows[..k + 1][..k] == rows[..k];
      LastRow(rows[..k + 1]);
      RecordsStep(before, seen, news, entries, rows[k], onlyChanged);
      entries := entries + EntryFor(olds[rows[k].id], rows[k], columns, onlyChanged);
      seen := seen + {rows[k].id};
    }
    assert rows[..|rows|] == rows;
  }

  lemma RecordsStep(t: Table, ids: set<Value>, news: Cells, us: seq<RowUpdate>, row: Row, onlyChanged: bool)
    requires Records(t, ids, news, us) && row.id !in ids && row.id in t
    requires news.Keys <= t[row.id].Keys && row.cells == t[row.id] + news
    ensures var more := EntryFor(t[row.id], row, news.Keys, onlyChanged);
            && Records(t, ids + {row.id}, news, us + more)
            && (!onlyChanged ==> UpdateIds(us + more) == UpdateIds(us) + {row.id})
  {
    var more := EntryFor(t[row.id], row, news.Keys, onlyChanged);
    if more == [] {
      assert us + more == us;
      RecordsSame(t, ids, news, us, row.id);
    } else {
      RecordsMore(t, ids, news, us, more[0]);
    }
  }

  lemma RecordsMore(t: Table, ids: set<Value>, news: Cells, us: seq<RowUpdate>, u: RowUpdate)
    requires Records(t, ids, news, us) && u.id !in ids && RecordsRow(t, news, u)
    ensures Records(t, ids + {u.id}, news, us + [u]) && UpdateIds(us + [u]) == UpdateIds(us) + {u.id}
  {
    Grown(us, u);
    assert forall x :: x in us + [u] ==> x in us || x == u;
  }

  lemma RecordsSame(t: Table, ids: set<Value>, news: Cells, us: seq<RowUpdate>, id: Value)
    requires Records(t, ids, news, us) && id in t && news.Keys <= t[id].Keys
    requires forall c :: c in news ==> t[id][c] == news[c]
    ensures Records(t, ids + {id}, news, us)
  {
    assert t[id] + news == t[id];
  }

  /** Deletes the selected rows, then inserts; an id that is still there, or a cell of
      the wrong type, raises after the rows before it were inserted. */
  method ReplaceRecorded(repo: Repository, f: FilterMap, rows: seq<Row>) returns (r: Result<Diff>)
    requires KeyColumn(repo.builder.schema) && Conforms(repo.builder.schema, repo.rows)
    requires AllColumns(repo.builder.schema, rows)
    modifies repo`rows
    ensures Conforms(repo.builder.schema, repo.rows)
    ensures var schema, gone := repo.builder.schema, Selected(repo.builder.schema, old(repo.rows), f);
            && (r.Ok? <==> Runs(schema, f) && Fits(schema, old(repo.rows), gone, rows))
            && repo.rows == (if Runs(schema, f) then Replaced(schema, old(repo.rows), gone, rows) else old(repo.rows))
            && (r.Ok? ==> Faithful(old(repo.rows), r.value, repo.rows) && r.value.updated == []
                          && r.value.inserted == StoredRows(schema, rows) && RowIds(r.value.deleted) == gone)
  {
    ghost var schema, before := repo.builder.schema, repo.rows;
    hide Conforms, Refills, Insertable, DistinctRows, FilterRuns;
    var deleted :- repo.DeleteReturning(f);
    ghost var gone := Selected(schema, before, f);
    RemovalConforms(schema, before, gone);
    RefillsOk(schema, before - gone, rows);
    FitsDisjoint(schema, before, gone, rows);
    var inserted :- Reinsert(repo, rows);
    ReplaceFaithful(schema, before, gone, rows, deleted);
    return Ok(Diff(inserted, deleted, []));
  }

  lemma FitsDisjoint(schema: Schema, t: Table, gone: set<Value>, rows: seq<Row>)
    ensures Fits(schema, t, gone, rows) <==>
            DistinctRows(rows) && AllInsertable(schema, rows) && RowIds(rows) !! (t - gone).Keys
  {
    hide AllInsertable, DistinctRows;
    if RowIds(rows) !! (t - gone).Keys {
      forall r | r in rows ensures r.id in gone || r.id !in t {
        assert r.id in RowIds(rows);
      }
    }
  }

  method InsertRecorded(repo: Repository, rows: seq<Row>) returns (r: Result<Diff>)
    requires KeyColumn(repo.builder.schema) && Conforms(repo.builder.schema, repo.rows)
    requires AllColumns(repo.builder.schema, rows)
    modifies repo`rows
    ensures Conforms(repo.builder.schema, repo.rows)
    ensures r.Ok? <==> Fits(repo.builder.schema, old(repo.rows), {}, rows)
    ensures repo.rows == Replaced(repo.builder.schema, old(repo.rows), {}, rows)
    ensures r.Ok? ==> Faithful(old(repo.rows), r.value, repo.rows)
                      && r.value == Diff(StoredRows(repo.builder.schema, rows), [], [])
  {
    ghost var schema, before := repo.builder.schema, repo.rows;
    assert before - {} == before;
    RefillsOk(schema, before, rows);
    FitsDisjoint(schema, before, {}, rows);
    hide Conforms, Refills, Fits;
    var inserted :- Reinsert(repo, rows);
    assert Lists([], before, {}) by {
      assert RowIds([]) == {};
    }
    ReplaceFaithful(schema, before, {}, rows, []);
    return Ok(Diff(inserted, [], []));
  }

  method DeleteRecorded(repo: Repository, f: FilterMap) returns (r: Result<Diff>)
    requires KeyColumn(repo.builder.schema) && Conforms(repo.builder.schema, repo.rows)
    modifies repo`rows
    ensures Conforms(repo.builder.schema, repo.rows)
    ensures r.Ok? <==> Runs(repo.builder.schema, f)
    ensures r.Err? ==> repo.rows == old(repo.rows)
    ensures r.Ok? ==> repo.rows == old(repo.rows) - Selected(repo.builder.schema, old(repo.rows), f)
                      && Faithful(old(repo.rows), r.value, repo.rows)
    ensures r.Ok? ==> r.value == Diff([], r.value.deleted, [])
                      && RowIds(r.value.deleted) == Selected(repo.builder.schema, old(repo.rows), f)
  {
    ghost var schema, before := repo.builder.schema, repo.rows;
    hide Conforms, FilterRuns;
    var deleted :- repo.DeleteReturning(f);
    ghost var gone := Selected(schema, before, f);
    RemovalConforms(schema, before, gone);
    ReplaceFaithful(schema, before, gone, [], deleted);
    assert StoredRows(schema, []) == [];
    return Ok(Diff([], deleted, []));
  }
}
