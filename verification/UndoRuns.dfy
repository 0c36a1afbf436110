/** Undo and redo over whole editing sessions. */
module UndoRuns {
  import opened QueryBuilder
  import opened Repositories
  import opened Diffs

  /** The table `after` with the rows of the first `us` entries back as in `before`. */
  function PutBack(before: Table, after: Table, us: seq<RowUpdate>): Table {
    map id | id in after :: if id in UpdateIds(us) && id in before then before[id] else after[id]
  }

  /** A revert log describes going from `after` to `before` on the rows of `us`:
      rows without an entry did not differ. */
  ghost predicate LogFits(before: Table, after: Table, us: seq<RowUpdate>, log: seq<RowUpdate>) {
    && DistinctUpdates(log) && UpdateIds(log) <= UpdateIds(us)
    && (forall u :: u in log ==> u.id in before && u.id in after && Rewrites(after[u.id], u.changes, before[u.id]))
    && (forall id :: id in UpdateIds(us) - UpdateIds(log) ==> id in before && id in after && before[id] == after[id])
  }

  ghost predicate UpdatesFit(before: Table, us: seq<RowUpdate>, after: Table) {
    && DistinctUpdates(us)
    && (forall u :: u in us ==>
          u.id in before && u.id in after && Rewrites(before[u.id], u.changes, after[u.id]))
  }

  lemma LastEntry(us: seq<RowUpdate>)
    requires us != []
    ensures var front, u := us[..|us| - 1], us[|us| - 1];
            && UpdateIds(us) == UpdateIds(front) + {u.id}
            && (DistinctUpdates(us) ==> DistinctUpdates(front) && u.id !in UpdateIds(front))
  {
    var front, u := us[..|us| - 1], us[|us| - 1];
    assert us == front + [u];
    forall x | x in us ensures x in front || x == u {
    }
    if DistinctUpdates(us) {
      forall v | v in front ensures v.id != u.id {
        var i :| 0 <= i < |front| && front[i] == v;
        assert us[i] == v;
      }
    }
  }

  lemma Grown(log: seq<RowUpdate>, u: RowUpdate)
    requires DistinctUpdates(log) && u.id !in UpdateIds(log)
    ensures DistinctUpdates(log + [u]) && UpdateIds(log + [u]) == UpdateIds(log) + {u.id}
  {
    var more := log + [u];
    forall i | 0 <= i < |log| ensures log[i].id != u.id {
      assert log[i] in log;
    }
    forall x | x in log + [u] ensures x in log || x == u {
    }
    assert u in more;
    forall x | x in log ensures x in more {
    }
  }

  /** Of typed rows, what a revert writes back is what the entry recorded. */
  lemma BackTyped(schema: Schema, was: Cells, ch: Changes, current: Cells)
    requires TypedCells(schema, was) && Rewrites(was, ch, current)
    ensures var back := RevertCells(current, ch);
            && Stored(schema, back) == back && current + back == was
            && (back == map[] ==> current == was)
            && (back != map[] ==> UpdatesRun(schema, back))
  {
    var back := RevertCells(current, ch);
    assert forall f :: f in back ==> back[f] == was[f];
    StoredSame(schema, back);
    assert forall f :: f in current && f !in back ==> current[f] == was[f];
  }

  /** One entry of the revert loop, on a table where it is still to be reverted. */
  lemma RevertOneFits(schema: Schema, before: Table, front: seq<RowUpdate>, u: RowUpdate, after: Table, p: Reverted)
    requires u.id !in UpdateIds(front) && u.id in before && u.id in after
    requires Rewrites(before[u.id], u.changes, after[u.id]) && TypedCells(schema, before[u.id])
    requires p.ok && p.rows == PutBack(before, after, front) && LogFits(before, after, front, p.log)
    ensures var v := RevertOne(schema, p, u);
            && v.ok && v.rows == p.rows[u.id := before[u.id]]
            && LogFits(before, after, front + [u], v.log)
  {
    var current := p.rows[u.id];
    var back := RevertCells(current, u.changes);
    assert current == after[u.id];
    BackTyped(schema, before[u.id], u.changes, current);
    assert u.changes.Keys <= current.Keys;
    hide UpdatesRun, TypedCells, Stored, LogFits, PutBack, UpdateIds;
    if back == map[] {
      LogSame(before, after, front, u, p.log);
      assert p.rows == p.rows[u.id := before[u.id]];
    } else {
      EntryRewrites(schema, u.id, current, back, before[u.id]);
      hide Rewrites, RevertEntry, RevertCells;
      LogGrows(before, after, front, u, p.log, RevertEntry(schema, u.id, current, back));
    }
  }

  lemma EntryRewrites(schema: Schema, id: Value, current: Cells, back: Cells, was: Cells)
    requires back.Keys <= current.Keys && Stored(schema, back) == back && current + back == was
    ensures Rewrites(current, RevertEntry(schema, id, current, back).changes, was)
    ensures RevertEntry(schema, id, current, back).id == id
  {
    hide Stored;
  }

  lemma LogSame(before: Table, after: Table, front: seq<RowUpdate>, u: RowUpdate, log: seq<RowUpdate>)
    requires LogFits(before, after, front, log) && u.id !in UpdateIds(front)
    requires u.id in before && u.id in after && after[u.id] == before[u.id]
    ensures LogFits(before, after, front + [u], log)
  {
    MoreIds(front, u);
    hide Rewrites;
  }

  lemma MoreIds(front: seq<RowUpdate>, u: RowUpdate)
    ensures UpdateIds(front + [u]) == UpdateIds(front) + {u.id}
  {
    LastEntry(front + [u]);
    assert (front + [u])[..|front|] == front;
  }

  lemma LogGrows(before: Table, after: Table, front: seq<RowUpdate>, u: RowUpdate, log: seq<RowUpdate>, entry: RowUpdate)
    requires LogFits(before, after, front, log) && u.id !in UpdateIds(front) && entry.id == u.id
    requires u.id in before && u.id in after && Rewrites(after[u.id], entry.changes, before[u.id])
    ensures LogFits(before, after, front + [u], log + [entry])
  {
    MoreIds(front, u);
    Grown(log, entry);
    hide Rewrites, UpdateIds, DistinctUpdates;
    assert forall x :: x in log + [entry] ==> x in log || x == entry;
  }

  lemma PutBackMore(before: Table, front: seq<RowUpdate>, u: RowUpdate, after: Table)
    requires u.id in before && u.id in after
    ensures PutBack(before, after, front)[u.id := before[u.id]] == PutBack(before, after, front + [u])
  {
    MoreIds(front, u);
  }

  lemma FrontFits(before: Table, us: seq<RowUpdate>, after: Table)
    requires UpdatesFit(before, us, after) && us != []
    ensures var front, u := us[..|us| - 1], us[|us| - 1];
            && UpdatesFit(before, front, after) && u.id !in UpdateIds(front)
            && u.id in before && u.id in after && Rewrites(before[u.id], u.changes, after[u.id])
  {
    LastEntry(us);
    hide Rewrites;
  }

  /** Replaying `us` on `after` goes through, and puts their rows back. */
  ghost predicate PutsBack(schema: Schema, before: Table, us: seq<RowUpdate>, after: Table) {
    var v := Reverts(schema, after, us);
    v.ok && v.rows == PutBack(before, after, us) && LogFits(before, after, us, v.log)
  }

  lemma PutsBackMore(schema: Schema, before: Table, front: seq<RowUpdate>, u: RowUpdate, after: Table)
    requires PutsBack(schema, before, front, after) && u.id !in UpdateIds(front)
    requires u.id in before && u.id in after
    requires Rewrites(before[u.id], u.changes, after[u.id]) && TypedCells(schema, before[u.id])
    ensures PutsBack(schema, before, front + [u], after)
  {
    hide LogFits, RevertOne, PutBack, Rewrites, TypedCells, UpdateIds;
    RevertOneFits(schema, before, front, u, after, Reverts(schema, after, front));
    PutBackMore(before, front, u, after);
    assert (front + [u])[..|front|] == front;
  }

  lemma {:induction false} RevertsPutBack(schema: Schema, before: Table, us: seq<RowUpdate>, after: Table)
    requires UpdatesFit(before, us, after) && Conforms(schema, before)
    ensures PutsBack(schema, before, us, after)
    decreases |us|
  {
    if us == [] {
    } else {
      var front, u := us[..|us| - 1], us[|us| - 1];
      FrontFits(before, us, after);
      assert TypedCells(schema, before[u.id]);
      assert front + [u] == us;
      hide PutsBack, Rewrites, UpdatesFit, Conforms, TypedCells, UpdateIds;
      RevertsPutBack(schema, before, front, after);
      PutsBackMore(schema, before, front, u, after);
    }
  }

  lemma LastRow(rows: seq<Row>)
    requires rows != []
    ensures var front, r := rows[..|rows| - 1], rows[|rows| - 1];
            && RowIds(rows) == RowIds(front) + {r.id}
            && (DistinctRows(rows) ==> DistinctRows(front) && r.id !in RowIds(front))
  {
    var front, r := rows[..|rows| - 1], rows[|rows| - 1];
    assert rows == front + [r];
    if DistinctRows(rows) {
      forall s | s in front ensures s.id != r.id {
        var i :| 0 <= i < |front| && front[i] == s;
        assert rows[i] == s;
      }
    }
  }

  predicate AllInsertable(schema: Schema, rows: seq<Row>) {
    forall r :: r in rows ==> Insertable(schema, r)
  }

  /** Inserting distinct rows that are not there and pass the checks succeeds, and
      adds exactly them. */
  lemma {:induction false} RefillsAdd(schema: Schema, t: Table, rows: seq<Row>)
    requires DistinctRows(rows) && RowIds(rows) !! t.Keys && AllInsertable(schema, rows)
    ensures var w := Refills(schema, t, rows);
            && w.ok && w.rows.Keys == t.Keys + RowIds(rows)
            && (forall id :: id in t ==> w.rows[id] == t[id])
            && (forall r :: r in rows ==> w.rows[r.id] == Stored(schema, r.cells))
    decreases |rows|
  {
    if rows == [] {
    } else {
      LastRow(rows);
      hide Insertable, Stored;
      var front, r := rows[..|rows| - 1], rows[|rows| - 1];
      RefillsAdd(schema, t, front);
      forall x | x in rows ensures Refills(schema, t, rows).rows[x.id] == Stored(schema, x.cells) {
        if x in front {
          assert x.id in RowIds(front);
        }
      }
    }
  }

  lemma DistinctMore(front: seq<Row>, r: Row)
    ensures DistinctRows(front + [r]) <==> DistinctRows(front) && r.id !in RowIds(front)
    ensures RowIds(front + [r]) == RowIds(front) + {r.id}
  {
    var rows := front + [r];
    assert rows[..|rows| - 1] == front;
    LastRow(rows);
    if DistinctRows(front) && r.id !in RowIds(front) {
      forall i, j | 0 <= i < j < |rows| ensures rows[i].id != rows[j].id {
        assert i < |front| ==> front[i] in front;
      }
    }
  }

  /** The rows are distinct, new to the table, and pass the checks. */
  predicate AllNew(schema: Schema, t: Table, rows: seq<Row>) {
    DistinctRows(rows) && RowIds(rows) !! t.Keys && AllInsertable(schema, rows)
  }

  lemma AllNewMore(schema: Schema, t: Table, front: seq<Row>, r: Row)
    ensures AllNew(schema, t, front + [r]) <==>
            AllNew(schema, t, front) && r.id !in t && r.id !in RowIds(front) && Insertable(schema, r)
    ensures RowIds(front + [r]) == RowIds(front) + {r.id}
  {
    DistinctMore(front, r);
    assert forall x :: x in front + [r] <==> x in front || x == r;
    hide Insertable, DistinctRows, RowIds;
  }

  lemma AllNewNone(schema: Schema, t: Table)
    ensures AllNew(schema, t, []) && RowIds([]) == {}
  {
  }

  lemma RefillsMore(schema: Schema, t: Table, front: seq<Row>, r: Row)
    ensures var p, q := Refills(schema, t, front), Refills(schema, t, front + [r]);
            && (q.ok <==> p.ok && r.id !in p.rows && Insertable(schema, r))
            && q.rows == if q.ok then p.rows[r.id := Stored(schema, r.cells)] else p.rows
  {
    assert (front + [r])[..|front|] == front;
    hide Insertable, Stored;
  }

  lemma {:induction false} RefillsNew(schema: Schema, t: Table, rows: seq<Row>)
    ensures Refills(schema, t, rows).ok <==> AllNew(schema, t, rows)
    ensures Refills(schema, t, rows).rows.Keys >= t.Keys
    ensures Refills(schema, t, rows).ok ==> Refills(schema, t, rows).rows.Keys == t.Keys + RowIds(rows)
    decreases |rows|
  {
    if rows == [] {
      AllNewNone(schema, t);
    } else {
      var front, r := rows[..|rows| - 1], rows[|rows| - 1];
      assert rows == front + [r];
      hide Refills, AllNew, RowIds, Insertable, Stored;
      RefillsNew(schema, t, front);
      RefillsMore(schema, t, front, r);
      AllNewMore(schema, t, front, r);
    }
  }

  lemma RefillsOk(schema: Schema, t: Table, rows: seq<Row>)
    ensures Refills(schema, t, rows).ok <==> DistinctRows(rows) && RowIds(rows) !! t.Keys && AllInsertable(schema, rows)
    ensures Refills(schema, t, rows).rows.Keys >= t.Keys
    ensures Refills(schema, t, rows).ok ==> Refills(schema, t, rows).rows.Keys == t.Keys + RowIds(rows)
  {
    hide Refills, DistinctRows, AllInsertable, RowIds;
    RefillsNew(schema, t, rows);
  }

  // ------------------------------------------------- when a restore succeeds

  /** Every entry names columns and old values they can hold. */
  predicate Revertible(schema: Schema, t: Table, u: RowUpdate) {
    u.id in t && TypedOlds(schema, u.changes)
  }

  /** On a typed row a value of the wrong type differs from what is there, so it is
      always written back, and refused. */
  lemma BackRuns(schema: Schema, current: Cells, ch: Changes)
    requires Columns(schema, current) && TypedCells(schema, current) && "id" !in ch
    ensures var back := RevertCells(current, ch);
            ch.Keys <= current.Keys && (back == map[] || UpdatesRun(schema, back)) <==> TypedOlds(schema, ch)
  {
    var back := RevertCells(current, ch);
    if ch.Keys <= current.Keys {
      forall f | f in ch ensures f in back || Storable(schema, f, ch[f].old_) {
        assert TypedCell(schema, f, current[f]);
      }
    } else {
      var f :| f in ch.Keys && f !in current;
      assert f !in schema;
    }
  }

  lemma RevertOneOk(schema: Schema, p: Reverted, u: RowUpdate)
    requires KeyColumn(schema) && Conforms(schema, p.rows) && p.ok && "id" !in u.changes
    ensures RevertOne(schema, p, u).ok <==> Revertible(schema, p.rows, u)
    ensures Conforms(schema, RevertOne(schema, p, u).rows) && RevertOne(schema, p, u).rows.Keys == p.rows.Keys
  {
    if u.id in p.rows {
      var current := p.rows[u.id];
      var back := RevertCells(current, u.changes);
      BackRuns(schema, current, u.changes);
      assert "id" !in back;
      hide TypedOlds, UpdatesRun, RevertCells, Conforms, Stored, RevertEntry;
      if back != map[] && UpdatesRun(schema, back) {
        WrittenConforms(schema, p.rows, u.id, back);
      }
    }
  }

  lemma {:induction false} RevertsOk(schema: Schema, t: Table, us: seq<RowUpdate>)
    requires KeyColumn(schema) && Conforms(schema, t) && forall u :: u in us ==> "id" !in u.changes
    ensures Reverts(schema, t, us).ok <==> forall u :: u in us ==> Revertible(schema, t, u)
    ensures Conforms(schema, Reverts(schema, t, us).rows) && Reverts(schema, t, us).rows.Keys == t.Keys
    decreases |us|
  {
    if us != [] {
      var front, u := us[..|us| - 1], us[|us| - 1];
      assert us == front + [u];
      hide Conforms, RevertOne, TypedOlds;
      RevertsOk(schema, t, front);
      if Reverts(schema, t, front).ok {
        RevertOneOk(schema, Reverts(schema, t, front), u);
      }
    }
  }

  /** A restore goes through exactly when the payload is of the table's types, every
      updated row is there, and the rows to put back are distinct and find their
      ids free once the inserted ones are gone. */
  lemma CanRestoreIff(schema: Schema, t: Table, d: Diff)
    requires KeyColumn(schema) && Conforms(schema, t) && Shaped(schema, d)
    ensures CanRestore(schema, t, d) <==>
            && TypedDiff(schema, d) && (forall u :: u in d.updated ==> u.id in t)
            && DistinctRows(d.deleted) && RowIds(d.deleted) !! (t.Keys - RowIds(d.inserted))
  {
    hide Insertable, TypedIds, TypedOlds, Columns, Conforms, Refills, Reverts;
    RevertsOk(schema, t, d.updated);
    RefillsOk(schema, Reverts(schema, t, d.updated).rows - RowIds(d.inserted), d.deleted);
    assert (Reverts(schema, t, d.updated).rows - RowIds(d.inserted)).Keys == t.Keys - RowIds(d.inserted);
  }

  /** One entry of any payload played back: exactly the columns it names that differ from
      their old value get it, converted, and the log says so; nothing else changes. */
  lemma RevertOneSays(schema: Schema, p: Reverted, u: RowUpdate)
    requires p.ok && RevertOne(schema, p, u).ok
    ensures var q := RevertOne(schema, p, u);
            && u.id in p.rows && q.rows.Keys == p.rows.Keys
            && (forall id :: id in p.rows && id != u.id ==> q.rows[id] == p.rows[id])
            && (forall f :: f in u.changes ==> f in p.rows[u.id])
            && q.rows[u.id].Keys == p.rows[u.id].Keys
            && (forall f :: f in p.rows[u.id] ==>
                 var was := p.rows[u.id][f];
                 q.rows[u.id][f] == if f in u.changes && was != u.changes[f].old_ && f in schema
                                    then Normalize(schema[f], u.changes[f].old_) else was)
            && (if exists f :: f in u.changes && p.rows[u.id][f] != u.changes[f].old_
                then q.log == p.log + [RowUpdate(u.id, map f | f in u.changes && p.rows[u.id][f] != u.changes[f].old_ ::
                                                         Change(p.rows[u.id][f], q.rows[u.id][f]))]
                else q.log == p.log)
  {
    var current := p.rows[u.id];
    var back := RevertCells(current, u.changes);
    if back != map[] {
      assert forall f :: f in back ==> f in schema;
      var q := RevertOne(schema, p, u);
      var f :| f in back;
      assert f in u.changes && current[f] != u.changes[f].old_;
      assert RevertEntry(schema, u.id, current, back).changes ==
        map f | f in u.changes && current[f] != u.changes[f].old_ :: Change(current[f], q.rows[u.id][f]);
    } else {
      forall f | f in u.changes ensures current[f] == u.changes[f].old_ {
        assert f !in back;
      }
    }
  }

  lemma {:induction false} RevertsKeep(schema: Schema, t: Table, us: seq<RowUpdate>, id: Value)
    ensures Reverts(schema, t, us).rows.Keys == t.Keys
    ensures id in t && id !in UpdateIds(us) ==> Reverts(schema, t, us).rows[id] == t[id]
    decreases |us|
  {
    if us != [] {
      LastEntry(us);
      RevertsKeep(schema, t, us[..|us| - 1], id);
      hide RevertCells, RevertEntry, UpdatesRun, Stored;
    }
  }

  /** A restore of any payload that goes through: the rows it inserted are gone, those it
      deleted are there as given and converted, rows it updated are as the updates played
      back left them, and every other row is as it was. */
  lemma RestoredRows(schema: Schema, t: Table, d: Diff, id: Value)
    requires CanRestore(schema, t, d)
    ensures var t' := AfterRestore(schema, t, d).rows;
            && t'.Keys == (t.Keys - RowIds(d.inserted)) + RowIds(d.deleted)
            && (forall r :: r in d.deleted ==> t'[r.id] == Stored(schema, r.cells))
            && (id in t' && id !in RowIds(d.deleted) ==>
                 id in Reverts(schema, t, d.updated).rows && t'[id] == Reverts(schema, t, d.updated).rows[id])
            && (id in t' && id !in RowIds(d.deleted) && id !in UpdateIds(d.updated) ==> t'[id] == t[id])
  {
    RevertsKeep(schema, t, d.updated, id);
    var kept := Reverts(schema, t, d.updated).rows - RowIds(d.inserted);
    hide Reverts, Stored, Insertable;
    RefillsOk(schema, kept, d.deleted);
    RefillsAdd(schema, kept, d.deleted);
  }

  /** A diff between typed tables is a typed payload. */
  lemma FaithfulTyped(schema: Schema, before: Table, d: Diff, after: Table)
    requires KeyColumn(schema) && Conforms(schema, before) && Conforms(schema, after) && Faithful(before, d, after)
    ensures TypedDiff(schema, d) && Shaped(schema, d)
    ensures StoredRows(schema, d.deleted) == d.deleted
    ensures StoredRows(schema, d.inserted) == d.inserted
  {
    forall r | r in d.deleted ensures Insertable(schema, r) && Stored(schema, r.cells) == r.cells {
      StoredSame(schema, r.cells);
    }
    forall r | r in d.inserted ensures Stored(schema, r.cells) == r.cells {
      StoredSame(schema, r.cells);
    }
    forall u | u in d.updated ensures TypedOlds(schema, u.changes) {
      StoredSame(schema, before[u.id]);
      assert Rewrites(before[u.id], u.changes, after[u.id]);
    }
  }

  /** Playing a faithful diff backwards on the later table succeeds and gives the
      earlier table; whatever diff is returned is faithful for the way back. */
  lemma RestoreUndoes(schema: Schema, before: Table, d: Diff, after: Table)
    requires KeyColumn(schema) && Conforms(schema, before) && Conforms(schema, after) && Faithful(before, d, after)
    ensures CanRestore(schema, after, d) && AfterRestore(schema, after, d).rows == before
    ensures forall t, u | Restores(schema, after, d, t, u) :: t == before && Faithful(after, u, before)
  {
    FaithfulTyped(schema, before, d, after);
    RevertsPutBack(schema, before, d.updated, after);
    var v := Reverts(schema, after, d.updated);
    var emptied := v.rows - RowIds(d.inserted);
    assert RowIds(d.deleted) !! emptied.Keys by {
      hide Conforms, TypedDiff, Shaped;
    }
    assert AllInsertable(schema, d.deleted);
    StoredDeleted(schema, d.deleted);
    hide Conforms, TypedDiff, Shaped, Insertable, Stored, Reverts, LogFits, Faithful;
    RefillsAdd(schema, emptied, d.deleted);
    var w := Refills(schema, emptied, d.deleted);
    SameTable(before, d, after, v.rows, w.rows);
    forall t, u | Restores(schema, after, d, t, u) ensures t == before && Faithful(after, u, before) {
      ReturnedIsFaithful(before, d, after, v, u);
    }
  }

  lemma RestoredTable(schema: Schema, t: Table, d: Diff, t': Table, u: Diff)
    requires Restores(schema, t, d, t', u)
    ensures t' == AfterRestore(schema, t, d).rows && CanRestore(schema, t, d)
  {
  }

  lemma StoredDeleted(schema: Schema, rows: seq<Row>)
    requires StoredRows(schema, rows) == rows
    ensures forall r :: r in rows ==> Stored(schema, r.cells) == r.cells
  {
    forall r | r in rows ensures Stored(schema, r.cells) == r.cells {
      var i :| 0 <= i < |rows| && rows[i] == r;
      assert StoredRows(schema, rows)[i] == rows[i];
    }
  }

  lemma SameTable(before: Table, d: Diff, after: Table, reverted: Table, final: Table)
    requires Faithful(before, d, after) && reverted == PutBack(before, after, d.updated)
    requires final.Keys == (reverted.Keys - RowIds(d.inserted)) + RowIds(d.deleted)
    requires forall id :: id in reverted && id !in RowIds(d.inserted) ==> id in final && final[id] == reverted[id]
    requires forall r :: r in d.deleted ==> r.id in final && final[r.id] == r.cells
    ensures final == before
  {
    forall id ensures id in final <==> id in before {
    }
    forall id | id in before ensures final[id] == before[id] {
      if id in RowIds(d.deleted) {
        var r :| r in d.deleted && r.id == id;
      }
    }
  }

  lemma ReturnedIsFaithful(before: Table, d: Diff, after: Table, v: Reverted, u: Diff)
    requires Faithful(before, d, after) && v.rows == PutBack(before, after, d.updated)
    requires LogFits(before, after, d.updated, v.log)
    requires u.updated == v.log && u.inserted == d.deleted
    requires Lists(u.deleted, v.rows, RowIds(d.inserted) * v.rows.Keys)
    ensures Faithful(after, u, before)
  {
    ReturnedRows(before, d, after, v, u);
    ReturnedOff(before, d, after, v.log, u);
    hide Rewrites, SameOff, Touched, PutBack;
  }

  lemma ReturnedRows(before: Table, d: Diff, after: Table, v: Reverted, u: Diff)
    requires Faithful(before, d, after) && v.rows == PutBack(before, after, d.updated)
    requires Lists(u.deleted, v.rows, RowIds(d.inserted) * v.rows.Keys)
    ensures RowIds(u.deleted) == RowIds(d.inserted)
    ensures forall r :: r in u.deleted ==> r.id in after && after[r.id] == r.cells
  {
    forall id | id in RowIds(d.inserted) ensures id in after {
      var r :| r in d.inserted && r.id == id;
    }
    forall r | r in u.deleted ensures r.id in after && after[r.id] == r.cells {
      assert r.id in RowIds(u.deleted);
    }
  }

  lemma ReturnedOff(before: Table, d: Diff, after: Table, log: seq<RowUpdate>, u: Diff)
    requires Faithful(before, d, after) && LogFits(before, after, d.updated, log)
    requires u.updated == log && RowIds(u.inserted) == RowIds(d.deleted) && RowIds(u.deleted) == RowIds(d.inserted)
    ensures SameOff(after, before, Touched(u))
  {
    hide Rewrites, RowIds, UpdateIds, DistinctRows, DistinctUpdates;
  }

  // --------------------------------------------------------- editing sessions

  /** The table with the diffs that can be undone and redone, latest last.
      Undoing puts the diff that comes back on the redo stack, and the other way
      round; a new action clears the redo stack. */
  datatype Session = Session(rows: Table, undo: seq<Diff>, redo: seq<Diff>)
  datatype Move = Edit | Undo | Redo

  ghost predicate Steps(schema: Schema, s: Session, m: Move, s': Session) {
    match m
    case Edit =>
      Conforms(schema, s'.rows)
      && exists d :: Faithful(s.rows, d, s'.rows) && s' == Session(s'.rows, s.undo + [d], [])
    case Undo =>
      s.undo != [] && exists u ::
        Restores(schema, s.rows, s.undo[|s.undo| - 1], s'.rows, u)
        && s' == Session(s'.rows, s.undo[..|s.undo| - 1], s.redo + [u])
    case Redo =>
      s.redo != [] && exists u ::
        Restores(schema, s.rows, s.redo[|s.redo| - 1], s'.rows, u)
        && s' == Session(s'.rows, s.undo + [u], s.redo[..|s.redo| - 1])
  }

  /** The tables the session has been through, and where it is in them. */
  datatype Timeline = Timeline(tables: seq<Table>, at: nat)

  /** Each stacked diff leads to the current side from its neighbouring table. */
  ghost predicate Tracks(schema: Schema, s: Session, l: Timeline) {
    && (forall i :: 0 <= i < |l.tables| ==> Conforms(schema, l.tables[i]))
    && |l.tables| == |s.undo| + |s.redo| + 1 && l.at == |s.undo|
    && l.tables[l.at] == s.rows
    && (forall i :: 0 <= i < |s.undo| ==> Faithful(l.tables[i], s.undo[i], l.tables[i + 1]))
    && (forall j {:trigger s.redo[j]} :: 0 <= j < |s.redo| ==>
          Faithful(l.tables[|l.tables| - 1 - j], s.redo[j], l.tables[|l.tables| - 2 - j]))
  }

  function Moved(l: Timeline, m: Move, rows: Table): Timeline
    requires l.at < |l.tables|
  {
    match m
    case Edit => Timeline(l.tables[..l.at + 1] + [rows], l.at + 1)
    case Undo => if l.at == 0 then l else l.(at := l.at - 1)
    case Redo => if l.at + 1 == |l.tables| then l else l.(at := l.at + 1)
  }

  /** An undo is always possible while the undo stack holds a diff, and so is a redo. */
  lemma MovesEnabled(schema: Schema, s: Session, l: Timeline)
    requires KeyColumn(schema) && Tracks(schema, s, l)
    ensures s.undo != [] ==> CanRestore(schema, s.rows, s.undo[|s.undo| - 1])
    ensures s.redo != [] ==> CanRestore(schema, s.rows, s.redo[|s.redo| - 1])
  {
    hide Faithful, Conforms, CanRestore, AfterRestore, Restores;
    if s.undo != [] {
      RestoreUndoes(schema, l.tables[l.at - 1], s.undo[|s.undo| - 1], s.rows);
    }
    if s.redo != [] {
      var j := |s.redo| - 1;
      assert s.redo[j] == s.redo[|s.redo| - 1];
      RestoreUndoes(schema, l.tables[l.at + 1], s.redo[j], s.rows);
    }
  }

  lemma StepTracks(schema: Schema, s: Session, m: Move, s': Session, l: Timeline)
    requires KeyColumn(schema) && Tracks(schema, s, l) && Steps(schema, s, m, s')
    ensures Tracks(schema, s', Moved(l, m, s'.rows))
  {
    hide Faithful, Restores, Conforms;
    match m
    case Edit =>
    case Undo =>
      var k := |s.undo| - 1;
      var u :| Restores(schema, s.rows, s.undo[k], s'.rows, u) && s' == Session(s'.rows, s.undo[..k], s.redo + [u]);
      RestoreUndoes(schema, l.tables[k], s.undo[k], s.rows);
    case Redo =>
      var k := |s.redo| - 1;
      var u :| Restores(schema, s.rows, s.redo[k], s'.rows, u) && s' == Session(s'.rows, s.undo + [u], s.redo[..k]);
      RestoreUndoes(schema, l.tables[l.at + 1], s.redo[k], s.rows);
  }

  ghost predicate IsRun(schema: Schema, run: seq<Session>, moves: seq<Move>) {
    |run| == |moves| + 1 && forall i :: 0 <= i < |moves| ==> Steps(schema, run[i], moves[i], run[i + 1])
  }

  function Follow(l: Timeline, run: seq<Session>, moves: seq<Move>): (r: Timeline)
    requires |run| == |moves| + 1 && l.at < |l.tables|
    ensures r.at < |r.tables|
  {
    if moves == [] then l
    else Moved(Follow(l, run[..|moves|], moves[..|moves| - 1]), moves[|moves| - 1], run[|moves|].rows)
  }

  lemma RunFront(schema: Schema, run: seq<Session>, moves: seq<Move>)
    requires IsRun(schema, run, moves) && moves != []
    ensures IsRun(schema, run[..|moves|], moves[..|moves| - 1])
    ensures Steps(schema, run[|moves| - 1], moves[|moves| - 1], run[|moves|])
  {
    hide Steps;
    forall i | 0 <= i < |moves| - 1
      ensures Steps(schema, run[..|moves|][i], moves[..|moves| - 1][i], run[..|moves|][i + 1])
    {
      assert Steps(schema, run[i], moves[i], run[i + 1]);
    }
  }

  /** Every run of edits, undos and redos, whatever order the database returned
      rows in, stays on its timeline: the table is always the one the timeline
      says. */
  lemma {:induction false} SessionsTrack(schema: Schema, run: seq<Session>, moves: seq<Move>, l: Timeline)
    requires KeyColumn(schema) && IsRun(schema, run, moves) && Tracks(schema, run[0], l)
    ensures Tracks(schema, run[|moves|], Follow(l, run, moves))
    decreases |moves|
  {
    if moves == [] {
    } else {
      hide Tracks, Moved, Steps;
      var n := |moves| - 1;
      RunFront(schema, run, moves);
      hide IsRun;
      SessionsTrack(schema, run[..|moves|], moves[..n], l);
      StepTracks(schema, run[n], moves[n], run[|moves|], Follow(l, run[..|moves|], moves[..n]));
    }
  }

  ghost predicate Only(moves: seq<Move>, m: Move) {
    forall i :: 0 <= i < |moves| ==> moves[i] == m
  }

  function Shifted(l: Timeline, m: Move, n: nat): Timeline
    requires l.at < |l.tables|
  {
    match m
    case Edit => l
    case Undo => l.(at := if n <= l.at then l.at - n else 0)
    case Redo => l.(at := if l.at + n < |l.tables| then l.at + n else |l.tables| - 1)
  }

  lemma {:induction false} FollowOnly(l: Timeline, run: seq<Session>, moves: seq<Move>, m: Move)
    requires |run| == |moves| + 1 && l.at < |l.tables| && Only(moves, m) && m != Edit
    ensures Follow(l, run, moves) == Shifted(l, m, |moves|)
    decreases |moves|
  {
    if moves != [] {
      FollowOnly(l, run[..|moves|], moves[..|moves| - 1], m);
    }
  }

  /** A run of undos only, or of redos only, moves along the timeline. */
  lemma OnlyMoves(schema: Schema, run: seq<Session>, m: Move, n: nat, l: Timeline)
    requires KeyColumn(schema) && m != Edit && |run| == n + 1 && Tracks(schema, run[0], l)
    requires forall i :: 0 <= i < n ==> Steps(schema, run[i], m, run[i + 1])
    ensures Tracks(schema, run[n], Shifted(l, m, n))
  {
    var moves := seq(n, i => m);
    assert l.at < |l.tables|;
    hide Tracks, Steps, Shifted, Follow;
    SessionsTrack(schema, run, moves, l);
    FollowOnly(l, run, moves, m);
  }

  /** Undoing all the diffs of a session last-first gives back its first table;
      redoing what those undos returned, again last-first, replays to the last. */
  lemma UndoAllRedoAll(schema: Schema, tables: seq<Table>, diffs: seq<Diff>,
                       undos: seq<Session>, redos: seq<Session>, n: nat)
    requires KeyColumn(schema) && n == |diffs| && |tables| == n + 1
    requires forall i :: 0 <= i <= n ==> Conforms(schema, tables[i])
    requires forall i :: 0 <= i < n ==> Faithful(tables[i], diffs[i], tables[i + 1])
    requires |undos| == n + 1 && undos[0] == Session(tables[n], diffs, [])
    requires forall i :: 0 <= i < n ==> Steps(schema, undos[i], Undo, undos[i + 1])
    requires |redos| == n + 1 && redos[0] == undos[n]
    requires forall i :: 0 <= i < n ==> Steps(schema, redos[i], Redo, redos[i + 1])
    ensures undos[n].rows == tables[0] && undos[n].undo == []
    ensures redos[n].rows == tables[n] && redos[n].redo == []
  {
    hide Faithful, Conforms, Steps;
    var l := Timeline(tables, n);
    OnlyMoves(schema, undos, Undo, n, l);
    OnlyMoves(schema, redos, Redo, n, Shifted(l, Undo, n));
  }
}
