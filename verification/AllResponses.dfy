/** `process_all_responses_action` on RESTORE_DIFF: the payload's rows are split by
    codebook type, restored in two passes, and the two diffs are merged. */
module AllResponses {
  import opened Outcomes
  import opened QueryBuilder
  import opened Repositories
  import opened Diffs
  import opened UndoRuns
  import opened Merging
  import opened TableActions

  const INITIAL_COPY := Text("initial_copy")
  const FINAL := Text("final")

  predicate OfType(r: Row, ctype: Value) {
    At(r.cells, "codebook_type") == ctype
  }

  function Only(rows: seq<Row>, ctype: Value): (r: seq<Row>)
    ensures forall x :: x in r <==> x in rows && OfType(x, ctype)
    ensures DistinctRows(rows) ==> DistinctRows(r)
  {
    if rows == [] then []
    else
      LastRow(rows);
      var front := Only(rows[..|rows| - 1], ctype);
      var x := rows[|rows| - 1];
      assert rows == rows[..|rows| - 1] + [x];
      if OfType(x, ctype) then front + [x] else front
  }

  lemma OnlyPush(rows: seq<Row>, x: Row, ctype: Value)
    ensures Only(rows + [x], ctype) == Only(rows, ctype) + if OfType(x, ctype) then [x] else []
  {
    assert (rows + [x])[..|rows|] == rows;
  }

  /** Rows keep their order. */
  lemma {:induction false} OnlyJoins(a: seq<Row>, b: seq<Row>, ctype: Value)
    ensures Only(a + b, ctype) == Only(a, ctype) + Only(b, ctype)
    decreases |b|
  {
    if b == [] {
      OnlyNone(ctype);
      hide *;
      assert a + b == a;
    } else {
      hide *;
      var front, x := b[..|b| - 1], b[|b| - 1];
      assert a + b == (a + front) + [x] && b == front + [x];
      OnlyJoins(a, front, ctype);
      OnlyPush(a + front, x, ctype);
      OnlyPush(front, x, ctype);
    }
  }

  lemma OnlyNone(ctype: Value)
    ensures Only([], ctype) == []
  {
  }

  /** One pass: the rows of one type, and all the updates. */
  function Pass(d: Diff, ctype: Value): Diff {
    Diff(Only(d.inserted, ctype), Only(d.deleted, ctype), d.updated)
  }

  /** The two passes succeed one after the other and their merged diff comes back. */
  ghost predicate TwoPass(schema: Schema, t: Table, d: Diff, t': Table, u: Diff) {
    exists mid, u1, u2 ::
      Restores(schema, t, Pass(d, INITIAL_COPY), mid, u1) && Restores(schema, mid, Pass(d, FINAL), t', u2)
      && u == Merged(u1, u2)
  }

  function AfterPass(schema: Schema, t: Table, d: Diff, ctype: Value): Refilled {
    AfterRestore(schema, t, Pass(d, ctype))
  }

  /** Neither pass raises. */
  predicate TwoPassRuns(schema: Schema, t: Table, d: Diff) {
    CanRestore(schema, t, Pass(d, INITIAL_COPY))
    && CanRestore(schema, AfterPass(schema, t, d, INITIAL_COPY).rows, Pass(d, FINAL))
  }

  /** The table the two passes leave when they run. */
  function TwoPassTable(schema: Schema, t: Table, d: Diff): Table {
    AfterPass(schema, AfterPass(schema, t, d, INITIAL_COPY).rows, d, FINAL).rows
  }

  /** The two passes run without raising and end on `before`. */
  predicate TwoPassRestores(schema: Schema, after: Table, d: Diff, before: Table) {
    TwoPassRuns(schema, after, d) && TwoPassTable(schema, after, d) == before
  }

  lemma PassShaped(schema: Schema, d: Diff, ctype: Value)
    requires Shaped(schema, d)
    ensures Shaped(schema, Pass(d, ctype))
  {
    hide Columns;
  }

  method RestoreAll(repo: Repository, d: Diff) returns (r: Result<Diff>)
    requires KeyColumn(repo.builder.schema)
    requires Conforms(repo.builder.schema, repo.rows) && Shaped(repo.builder.schema, d)
    modifies repo`rows, repo.builder
    ensures Conforms(repo.builder.schema, repo.rows)
    ensures r.Ok? <==> TwoPassRuns(repo.builder.schema, old(repo.rows), d)
    ensures r.Ok? ==> repo.rows == TwoPassTable(repo.builder.schema, old(repo.rows), d)
                      && TwoPass(repo.builder.schema, old(repo.rows), d, repo.rows, r.value)
  {
    PassShaped(repo.builder.schema, d, INITIAL_COPY);
    PassShaped(repo.builder.schema, d, FINAL);
    hide Conforms, Shaped, CanRestore, AfterRestore, Pass, Reverts, Refills, Lists, StoredRows;
    var initial :- RestoreDiff(repo, Pass(d, INITIAL_COPY));
    var final :- RestoreDiff(repo, Pass(d, FINAL));
    r := MergeBoth(initial, final);
  }

  method MergeBoth(a: Diff, b: Diff) returns (r: Result<Diff>)
    ensures r == Ok(Merged(a, b))
  {
    var m := MergeDiffs(a, b);
    return Ok(m);
  }

  // ------------------------------------------- when two passes equal one restore

  /** Distinct rows as a table. */
  ghost function ByRow(rows: seq<Row>): (m: Table)
    requires DistinctRows(rows)
    ensures m.Keys == RowIds(rows)
    ensures forall r :: r in rows ==> m[r.id] == r.cells
    ensures forall id :: id in m ==> Row(id, m[id]) in rows
  {
    var m := map id | id in RowIds(rows) :: (var r :| r in rows && r.id == id; r.cells);
    assert forall id :: id in m ==> Row(id, m[id]) in rows by {
      forall id | id in m ensures Row(id, m[id]) in rows {
        var r :| r in rows && r.id == id && m[id] == r.cells;
        assert r == Row(id, m[id]);
      }
    }
    m
  }

  predicate HasType(cells: Cells, ctype: Value) {
    At(cells, "codebook_type") == ctype
  }

  function Typed(t: Table, ctype: Value): Table {
    map id | id in t && HasType(t[id], ctype) :: t[id]
  }

  predicate ForeignCells(cells: Cells) {
    !HasType(cells, INITIAL_COPY) && !HasType(cells, FINAL)
  }

  /** No row that the first pass puts back is inserted by the payload under another type. */
  predicate FirstClear(ins: Table, del: Table) {
    forall id :: id in del && HasType(del[id], INITIAL_COPY) && id in ins ==> HasType(ins[id], INITIAL_COPY)
  }

  /** No row that the second pass puts back is inserted under a type neither pass handles. */
  predicate SecondClear(ins: Table, del: Table) {
    forall id :: id in del && HasType(del[id], FINAL) && id in ins ==> !ForeignCells(ins[id])
  }

  /** Rows of other types, which neither pass touches, make no net difference. */
  predicate ForeignInert(ins: Table, del: Table) {
    forall id :: id in ins.Keys + del.Keys ==> InertAt(ins, del, id)
  }

  predicate InertAt(ins: Table, del: Table, id: Value) {
    && (id in ins && ForeignCells(ins[id]) ==> id in del && del[id] == ins[id])
    && (id in del && ForeignCells(del[id]) ==> id in ins && del[id] == ins[id])
  }

  /** The two passes do not get in each other's way; each part can be read off the payload. */
  ghost predicate Separable(d: Diff)
    requires DistinctRows(d.inserted) && DistinctRows(d.deleted)
  {
    var ins, del := ByRow(d.inserted), ByRow(d.deleted);
    FirstClear(ins, del) && SecondClear(ins, del) && ForeignInert(ins, del)
  }

  /** Once the first pass has reverted the updates, reverting them again does nothing. */
  lemma {:induction false} RevertsNothing(schema: Schema, before: Table, us: seq<RowUpdate>, mid: Table)
    requires forall u :: u in us ==> u.id in before && u.id in mid && mid[u.id] == before[u.id]
    requires forall u :: u in us ==> u.changes.Keys <= before[u.id].Keys
    requires forall u :: u in us ==> forall f :: f in u.changes ==> before[u.id][f] == u.changes[f].old_
    ensures Reverts(schema, mid, us) == Reverted(mid, [], true)
    decreases |us|
  {
    if us != [] {
      var u := us[|us| - 1];
      assert us == us[..|us| - 1] + [u];
      RevertsNothing(schema, before, us[..|us| - 1], mid);
      assert RevertCells(mid[u.id], u.changes) == map[];
    }
  }

  lemma OnlyTyped(rows: seq<Row>, ctype: Value)
    requires DistinctRows(rows)
    ensures ByRow(Only(rows, ctype)) == Typed(ByRow(rows), ctype)
  {
    hide ByRow, Only, Typed, DistinctRows;
    var a, b := ByRow(Only(rows, ctype)), Typed(ByRow(rows), ctype);
    forall id ensures (id in a <==> id in b) && (id in b ==> a[id] == b[id]) {
      OnlyTypedAt(rows, ctype, id);
    }
  }

  lemma OnlyTypedAt(rows: seq<Row>, ctype: Value, id: Value)
    requires DistinctRows(rows)
    ensures var a, b := ByRow(Only(rows, ctype)), Typed(ByRow(rows), ctype);
            (id in a <==> id in b) && (id in b ==> a[id] == b[id])
  {
    var mine := Only(rows, ctype);
    var a, all := ByRow(mine), ByRow(rows);
    hide ByRow, Only, DistinctRows;
    if id in all && HasType(all[id], ctype) {
      assert Row(id, all[id]) in mine;
      assert id in RowIds(mine);
    }
    if id in a {
      assert Row(id, a[id]) in mine && Row(id, a[id]) in rows;
      assert id in RowIds(rows) && all[id] == a[id];
    }
  }

  lemma RefillsAsTable(schema: Schema, t: Table, rows: seq<Row>)
    requires DistinctRows(rows) && AllInsertable(schema, rows) && StoredRows(schema, rows) == rows
    ensures Refills(schema, t, rows).ok <==> RowIds(rows) !! t.Keys
    ensures Refills(schema, t, rows).ok ==> Refills(schema, t, rows).rows == t + ByRow(rows)
  {
    hide Refills, AllInsertable, Stored;
    RefillsOk(schema, t, rows);
    StoredDeleted(schema, rows);
    if RowIds(rows) !! t.Keys {
      RefillsAdd(schema, t, rows);
      forall id | id in ByRow(rows) ensures Refills(schema, t, rows).rows[id] == ByRow(rows)[id] {
        assert Row(id, ByRow(rows)[id]) in rows;
      }
    }
  }

  /** The rows of a pass are typed when the payload's are. */
  lemma OnlyStored(schema: Schema, rows: seq<Row>, ctype: Value)
    requires AllInsertable(schema, rows) && StoredRows(schema, rows) == rows
    ensures AllInsertable(schema, Only(rows, ctype)) && StoredRows(schema, Only(rows, ctype)) == Only(rows, ctype)
  {
    StoredDeleted(schema, rows);
    hide Insertable, Stored;
    var mine := Only(rows, ctype);
    forall i | 0 <= i < |mine| ensures StoredRows(schema, mine)[i] == mine[i] {
      assert mine[i] in rows;
    }
  }

  ghost predicate TypedRows(schema: Schema, d: Diff) {
    && DistinctRows(d.inserted) && DistinctRows(d.deleted) && TypedIds(schema, d.inserted)
    && AllInsertable(schema, d.deleted) && StoredRows(schema, d.deleted) == d.deleted
  }

  /** A pass in terms of tables: it raises when a row to put back is still there. */
  lemma PassAsTables(schema: Schema, t: Table, d: Diff, ctype: Value)
    requires TypedRows(schema, d) && Reverts(schema, t, d.updated).ok
    ensures var gone, back := Typed(ByRow(d.inserted), ctype), Typed(ByRow(d.deleted), ctype);
            var start := Reverts(schema, t, d.updated).rows;
            && (CanRestore(schema, t, Pass(d, ctype)) <==> back.Keys !! (start.Keys - gone.Keys))
            && (CanRestore(schema, t, Pass(d, ctype)) ==> AfterPass(schema, t, d, ctype).rows == (start - gone.Keys) + back)
  {
    hide Typed, Insertable, Stored, Refills, Reverts, TypedId;
    OnlyTyped(d.inserted, ctype);
    OnlyTyped(d.deleted, ctype);
    OnlyStored(schema, d.deleted, ctype);
    var start := Reverts(schema, t, d.updated).rows;
    var gone := RowIds(Only(d.inserted, ctype));
    assert (start - gone).Keys == start.Keys - gone;
    RefillsAsTable(schema, start - gone, Only(d.deleted, ctype));
  }

  /** What a faithful diff says about its inserted and deleted rows, as tables;
      `start` is the later table with the updates already reverted. */
  ghost predicate RowsFit(before: Table, ins: Table, del: Table, start: Table) {
    && (forall id :: id in del ==> id in before && before[id] == del[id])
    && (forall id :: id in ins ==> id in start && start[id] == ins[id])
    && (forall id :: id in ins && id !in del ==> id !in before)
    && (forall id :: id in del && id !in ins ==> id !in start)
    && (forall id :: id !in ins && id !in del ==> (id in before <==> id in start) && (id in before ==> start[id] == before[id]))
  }

  lemma FaithfulRowsFit(before: Table, d: Diff, after: Table)
    requires Faithful(before, d, after)
    ensures RowsFit(before, ByRow(d.inserted), ByRow(d.deleted), PutBack(before, after, d.updated))
  {
    var ins, del := ByRow(d.inserted), ByRow(d.deleted);
    var start := PutBack(before, after, d.updated);
    forall id | id in del ensures id in before && before[id] == del[id] {
      assert Row(id, del[id]) in d.deleted;
    }
    forall id | id in ins ensures id in start && start[id] == ins[id] {
      assert Row(id, ins[id]) in d.inserted;
    }
    forall id | id !in ins && id !in del
      ensures (id in before <==> id in start) && (id in before ==> start[id] == before[id])
    {
      if id in UpdateIds(d.updated) {
        var u :| u in d.updated && u.id == id;
      } else {
        assert id !in Touched(d);
      }
    }
  }

  /** The passes on tables: each raises exactly when its condition fails, and
      the end is the earlier table exactly when foreign rows are inert. */
  lemma PassesOnTables(before: Table, ins: Table, del: Table, start: Table)
    requires RowsFit(before, ins, del, start)
    ensures var ia, da, jf, df := Typed(ins, INITIAL_COPY), Typed(del, INITIAL_COPY), Typed(ins, FINAL), Typed(del, FINAL);
            var mid := (start - ia.Keys) + da;
            var final := (mid - jf.Keys) + df;
            && (da.Keys !! (start.Keys - ia.Keys) <==> FirstClear(ins, del))
            && (FirstClear(ins, del) ==> (df.Keys !! (mid.Keys - jf.Keys) <==> SecondClear(ins, del)))
            && (FirstClear(ins, del) && SecondClear(ins, del) ==> (final == before <==> ForeignInert(ins, del)))
  {
    var ia, da, jf, df := Typed(ins, INITIAL_COPY), Typed(del, INITIAL_COPY), Typed(ins, FINAL), Typed(del, FINAL);
    var mid := (start - ia.Keys) + da;
    var final := (mid - jf.Keys) + df;
    FirstOnTables(before, ins, del, start);
    if FirstClear(ins, del) {
      SecondOnTables(before, ins, del, start, mid);
      if SecondClear(ins, del) {
        FinalOnTables(before, ins, del, start);
      }
    }
  }

  lemma FirstOnTables(before: Table, ins: Table, del: Table, start: Table)
    requires RowsFit(before, ins, del, start)
    ensures Typed(del, INITIAL_COPY).Keys !! (start.Keys - Typed(ins, INITIAL_COPY).Keys) <==> FirstClear(ins, del)
  {
    var ia, da := Typed(ins, INITIAL_COPY), Typed(del, INITIAL_COPY);
    if !FirstClear(ins, del) {
      var id :| id in del && HasType(del[id], INITIAL_COPY) && id in ins && !HasType(ins[id], INITIAL_COPY);
      assert id in da.Keys && id in start.Keys - ia.Keys;
    }
  }

  lemma SecondOnTables(before: Table, ins: Table, del: Table, start: Table, mid: Table)
    requires RowsFit(before, ins, del, start) && FirstClear(ins, del)
    requires mid == (start - Typed(ins, INITIAL_COPY).Keys) + Typed(del, INITIAL_COPY)
    ensures Typed(del, FINAL).Keys !! (mid.Keys - Typed(ins, FINAL).Keys) <==> SecondClear(ins, del)
  {
    var jf, df := Typed(ins, FINAL), Typed(del, FINAL);
    if !SecondClear(ins, del) {
      var id :| id in del && HasType(del[id], FINAL) && id in ins && ForeignCells(ins[id]);
      assert id in df.Keys && id in mid.Keys - jf.Keys;
    }
  }

  function Final(ins: Table, del: Table, start: Table): Table {
    ((start - Typed(ins, INITIAL_COPY).Keys) + Typed(del, INITIAL_COPY) - Typed(ins, FINAL).Keys) + Typed(del, FINAL)
  }

  lemma FinalAt(before: Table, ins: Table, del: Table, start: Table, id: Value)
    requires RowsFit(before, ins, del, start) && FirstClear(ins, del) && SecondClear(ins, del)
    ensures var final := Final(ins, del, start);
            ((id in final <==> id in before) && (id in before ==> final[id] == before[id])) <==> InertAt(ins, del, id)
  {
  }

  lemma FinalOnTables(before: Table, ins: Table, del: Table, start: Table)
    requires RowsFit(before, ins, del, start) && FirstClear(ins, del) && SecondClear(ins, del)
    ensures Final(ins, del, start) == before <==> ForeignInert(ins, del)
  {
    hide RowsFit, FirstClear, SecondClear, Final;
    forall id {
      FinalAt(before, ins, del, start, id);
    }
    if !ForeignInert(ins, del) {
      var id :| id in ins.Keys + del.Keys && !InertAt(ins, del, id);
    }
  }

  /** The table between the passes: updates reverted, rows of the first type exchanged. */
  ghost function Between(before: Table, d: Diff, after: Table): Table
    requires DistinctRows(d.inserted) && DistinctRows(d.deleted)
  {
    (PutBack(before, after, d.updated) - Typed(ByRow(d.inserted), INITIAL_COPY).Keys) + Typed(ByRow(d.deleted), INITIAL_COPY)
  }

  lemma FirstRuns(schema: Schema, before: Table, d: Diff, after: Table)
    requires Conforms(schema, before) && TypedRows(schema, d) && Faithful(before, d, after)
    ensures CanRestore(schema, after, Pass(d, INITIAL_COPY)) <==> FirstClear(ByRow(d.inserted), ByRow(d.deleted))
    ensures FirstClear(ByRow(d.inserted), ByRow(d.deleted)) ==>
              AfterPass(schema, after, d, INITIAL_COPY).rows == Between(before, d, after)
  {
    RevertsPutBack(schema, before, d.updated, after);
    FaithfulRowsFit(before, d, after);
    hide Conforms, CanRestore, Typed, ByRow, RowsFit, Faithful, PutBack, LogFits, FirstClear, SecondClear, ForeignInert, AfterPass, Pass, Reverts;
    PassesOnTables(before, ByRow(d.inserted), ByRow(d.deleted), PutBack(before, after, d.updated));
    PassAsTables(schema, after, d, INITIAL_COPY);
  }

  lemma SecondRuns(schema: Schema, before: Table, d: Diff, after: Table)
    requires TypedRows(schema, d) && Faithful(before, d, after) && FirstClear(ByRow(d.inserted), ByRow(d.deleted))
    ensures CanRestore(schema, Between(before, d, after), Pass(d, FINAL)) <==> SecondClear(ByRow(d.inserted), ByRow(d.deleted))
    ensures SecondClear(ByRow(d.inserted), ByRow(d.deleted)) ==>
              (AfterPass(schema, Between(before, d, after), d, FINAL).rows == before
               <==> ForeignInert(ByRow(d.inserted), ByRow(d.deleted)))
  {
    var mid := Between(before, d, after);
    UpdatesStay(schema, before, d, after, mid);
    FaithfulRowsFit(before, d, after);
    hide CanRestore, Typed, ByRow, RowsFit, Faithful, PutBack, FirstClear, SecondClear, ForeignInert, AfterPass, Pass, Reverts;
    PassesOnTables(before, ByRow(d.inserted), ByRow(d.deleted), PutBack(before, after, d.updated));
    PassAsTables(schema, mid, d, FINAL);
  }

  /** With faithful diffs, the two-pass restore succeeds and gives the earlier
      table exactly when the passes are separable; a single restore always does. */
  lemma TwoPassIff(schema: Schema, before: Table, d: Diff, after: Table)
    requires KeyColumn(schema) && Conforms(schema, before) && Conforms(schema, after) && Faithful(before, d, after)
    ensures TwoPassRestores(schema, after, d, before) <==> Separable(d)
  {
    FaithfulRows(schema, before, d, after);
    assert DistinctRows(d.inserted) && DistinctRows(d.deleted);
    hide Conforms, Faithful, CanRestore, AfterPass, FirstClear, SecondClear, ForeignInert, ByRow, Pass, Between, TypedRows, DistinctRows;
    FirstRuns(schema, before, d, after);
    if FirstClear(ByRow(d.inserted), ByRow(d.deleted)) {
      SecondRuns(schema, before, d, after);
    }
  }

  lemma FaithfulRows(schema: Schema, before: Table, d: Diff, after: Table)
    requires KeyColumn(schema) && Conforms(schema, before) && Conforms(schema, after) && Faithful(before, d, after)
    ensures TypedRows(schema, d)
  {
    FaithfulTyped(schema, before, d, after);
    hide Conforms, Insertable, TypedOlds, Rewrites;
  }

  lemma UpdatesStay(schema: Schema, before: Table, d: Diff, after: Table, mid: Table)
    requires Faithful(before, d, after) && mid == Between(before, d, after)
    ensures Reverts(schema, mid, d.updated) == Reverted(mid, [], true)
  {
    forall u | u in d.updated ensures u.id in mid && mid[u.id] == before[u.id] {
      UpdateStays(before, d, after, u);
    }
    RevertsNothing(schema, before, d.updated, mid);
  }

  /** An updated row is put back and is in neither payload. */
  lemma UpdateStays(before: Table, d: Diff, after: Table, u: RowUpdate)
    requires Faithful(before, d, after) && u in d.updated
    ensures u.id in PutBack(before, after, d.updated) && PutBack(before, after, d.updated)[u.id] == before[u.id]
    ensures u.id !in ByRow(d.inserted) && u.id !in ByRow(d.deleted)
  {
    assert u.id in UpdateIds(d.updated);
    hide Rewrites, ByRow;
  }

  // --------------------------------------------------- the diff that comes back

  lemma {:induction false} CoalesceDistinct(us: seq<RowUpdate>)
    requires DistinctUpdates(us)
    ensures Coalesce(us) == us
    decreases |us|
  {
    if us != [] {
      var n := |us| - 1;
      var front := us[..n];
      LastEntry(us);
      CoalesceDistinct(front);
      OrderDistinct(us);
      forall i | 0 <= i < |us| ensures Coalesce(us)[i] == us[i] {
        FieldsDistinct(us, us[i]);
      }
    }
  }

  lemma {:induction false} OrderDistinct(us: seq<RowUpdate>)
    requires DistinctUpdates(us)
    ensures |Order(us)| == |us| && forall i :: 0 <= i < |us| ==> Order(us)[i] == us[i].id
    decreases |us|
  {
    if us != [] {
      LastEntry(us);
      OrderDistinct(us[..|us| - 1]);
    }
  }

  /** A separable two-pass restore gives the earlier table, and the merged diff it
      returns is faithful for the way back: exactly what one restore would give. */
  lemma TwoPassReturns(schema: Schema, before: Table, d: Diff, after: Table, t: Table, u: Diff)
    requires KeyColumn(schema) && Conforms(schema, before) && Conforms(schema, after)
    requires Faithful(before, d, after) && Separable(d) && TwoPass(schema, after, d, t, u)
    ensures t == before && Faithful(after, u, before)
  {
    hide Conforms, Faithful, Separable, Restores;
    var mid, u1, u2 :| Restores(schema, after, Pass(d, INITIAL_COPY), mid, u1) && Restores(schema, mid, Pass(d, FINAL), t, u2)
      && u == Merged(u1, u2);
    FaithfulRows(schema, before, d, after);
    FirstPass(schema, before, d, after, mid, u1);
    SecondPass(schema, before, d, after, mid, t, u2);
    BackRows(before, d, after, mid, u1, u2);
    assert u1.updated + u2.updated == u1.updated;
    CoalesceDistinct(u1.updated);
    BackOff(before, d, after, u);
  }

  ghost predicate FirstDone(before: Table, d: Diff, after: Table, mid: Table, u1: Diff)
    requires DistinctRows(d.inserted) && DistinctRows(d.deleted)
  {
    var start := PutBack(before, after, d.updated);
    && mid == Between(before, d, after)
    && LogFits(before, after, d.updated, u1.updated) && DistinctUpdates(u1.updated)
    && u1.inserted == Only(d.deleted, INITIAL_COPY)
    && Lists(u1.deleted, start, Typed(ByRow(d.inserted), INITIAL_COPY).Keys * start.Keys)
  }

  lemma FirstPass(schema: Schema, before: Table, d: Diff, after: Table, mid: Table, u1: Diff)
    requires Conforms(schema, before) && TypedRows(schema, d)
    requires Faithful(before, d, after) && Restores(schema, after, Pass(d, INITIAL_COPY), mid, u1)
    ensures FirstDone(before, d, after, mid, u1)
  {
    RevertsPutBack(schema, before, d.updated, after);
    hide Conforms, CanRestore, AfterRestore, Typed, Insertable, Stored, Reverts, LogFits, PutBack;
    PassAsTables(schema, after, d, INITIAL_COPY);
    OnlyTyped(d.inserted, INITIAL_COPY);
    OnlyStored(schema, d.deleted, INITIAL_COPY);
  }

  lemma SecondPass(schema: Schema, before: Table, d: Diff, after: Table, mid: Table, t: Table, u2: Diff)
    requires TypedRows(schema, d) && Faithful(before, d, after) && Separable(d)
    requires Restores(schema, mid, Pass(d, FINAL), t, u2) && mid == Between(before, d, after)
    ensures t == before && u2.updated == [] && u2.inserted == Only(d.deleted, FINAL)
    ensures Lists(u2.deleted, mid, Typed(ByRow(d.inserted), FINAL).Keys * mid.Keys)
  {
    UpdatesStay(schema, before, d, after, mid);
    OnlyTyped(d.inserted, FINAL);
    OnlyStored(schema, d.deleted, FINAL);
    hide Faithful, CanRestore, AfterRestore, Typed, ByRow, Insertable, Stored, Reverts, Between, FirstClear, SecondClear, ForeignInert;
    SecondRuns(schema, before, d, after);
    RestoredTable(schema, mid, Pass(d, FINAL), t, u2);
  }

  /** The rows of either codebook type, listed apart, are together those of neither foreign type. */
  lemma TwoKinds(rows: seq<Row>, a: seq<Row>, b: seq<Row>)
    requires DistinctRows(rows) && DistinctRows(a) && DistinctRows(b)
    requires forall r :: r in a <==> r in rows && HasType(r.cells, INITIAL_COPY)
    requires forall r :: r in b <==> r in rows && HasType(r.cells, FINAL)
    ensures DistinctRows(a + b) && forall r :: r in a + b <==> r in rows && !ForeignCells(r.cells)
  {
    forall r, q | r in a && q in b ensures r.id != q.id {
      var i, j :| 0 <= i < |rows| && 0 <= j < |rows| && rows[i] == r && rows[j] == q;
    }
    DistinctConcat(a, b);
  }

  /** The rows the two passes delete and put back are the payload's non-foreign rows. */
  lemma BackRows(before: Table, d: Diff, after: Table, mid: Table, u1: Diff, u2: Diff)
    requires Faithful(before, d, after) && Separable(d) && FirstDone(before, d, after, mid, u1)
    requires u2.inserted == Only(d.deleted, FINAL)
    requires Lists(u2.deleted, mid, Typed(ByRow(d.inserted), FINAL).Keys * mid.Keys)
    ensures DistinctRows(u1.inserted + u2.inserted) && DistinctRows(u1.deleted + u2.deleted)
    ensures forall r :: r in u1.inserted + u2.inserted <==> r in d.deleted && !ForeignCells(r.cells)
    ensures forall r :: r in u1.deleted + u2.deleted <==> r in d.inserted && !ForeignCells(r.cells)
  {
    var start := PutBack(before, after, d.updated);
    var ins, del := ByRow(d.inserted), ByRow(d.deleted);
    FaithfulRowsFit(before, d, after);
    assert FirstClear(ins, del);
    hide Faithful, Separable, PutBack, FirstClear, RowsFit, Typed, ByRow, ForeignCells;
    StillThere(before, ins, del, start, mid);
    TwoKinds(d.deleted, u1.inserted, u2.inserted);
    ListsTyped(start, ins, INITIAL_COPY, u1.deleted, d.inserted);
    ListsTyped(mid, ins, FINAL, u2.deleted, d.inserted);
    TwoKinds(d.inserted, u1.deleted, u2.deleted);
  }

  lemma StillThere(before: Table, ins: Table, del: Table, start: Table, mid: Table)
    requires RowsFit(before, ins, del, start) && FirstClear(ins, del)
    requires mid == (start - Typed(ins, INITIAL_COPY).Keys) + Typed(del, INITIAL_COPY)
    ensures forall id :: id in Typed(ins, INITIAL_COPY) ==> id in start && start[id] == ins[id]
    ensures forall id :: id in Typed(ins, FINAL) ==> id in mid && mid[id] == ins[id]
  {
  }

  lemma ListsTyped(t: Table, ins: Table, ctype: Value, rows: seq<Row>, all: seq<Row>)
    requires DistinctRows(all) && ins == ByRow(all)
    requires Lists(rows, t, Typed(ins, ctype).Keys * t.Keys)
    requires forall id :: id in Typed(ins, ctype) ==> id in t && t[id] == ins[id]
    ensures forall r :: r in rows <==> r in all && HasType(r.cells, ctype)
  {
    forall r | r in rows ensures r in all && HasType(r.cells, ctype) {
      assert r.id in RowIds(rows);
      assert Row(r.id, ins[r.id]) in all;
      assert r == Row(r.id, ins[r.id]);
    }
    forall r | r in all && HasType(r.cells, ctype) ensures r in rows {
      assert ins[r.id] == r.cells && r.id in Typed(ins, ctype);
      assert r.id in RowIds(rows);
      var s :| s in rows && s.id == r.id;
      assert s == r;
    }
  }

  lemma BackIds(rows: seq<Row>, back: seq<Row>)
    requires DistinctRows(rows) && forall r :: r in back <==> r in rows && !ForeignCells(r.cells)
    ensures var m := ByRow(rows); forall id :: id in RowIds(back) <==> id in m && !ForeignCells(m[id])
  {
    var m := ByRow(rows);
    hide ByRow, ForeignCells;
    forall id ensures id in RowIds(back) <==> id in m && !ForeignCells(m[id]) {
      if id in m && !ForeignCells(m[id]) {
        assert Row(id, m[id]) in back;
      }
    }
  }

  /** A row the returned diff does not name has not moved. */
  lemma BackOffRow(before: Table, d: Diff, after: Table, u: Diff, id: Value)
    requires Faithful(before, d, after) && Separable(d) && LogFits(before, after, d.updated, u.updated)
    requires forall i :: i in RowIds(u.inserted) <==> i in ByRow(d.deleted) && !ForeignCells(ByRow(d.deleted)[i])
    requires forall i :: i in RowIds(u.deleted) <==> i in ByRow(d.inserted) && !ForeignCells(ByRow(d.inserted)[i])
    requires id !in Touched(u)
    ensures (id in after <==> id in before) && (id in after ==> after[id] == before[id])
  {
    FaithfulRowsFit(before, d, after);
    if id in UpdateIds(d.updated) {
      assert id in UpdateIds(d.updated) - UpdateIds(u.updated);
    }
    hide ByRow, ForeignCells, Rewrites;
  }

  /** What the returned diff deletes for good is not in `before`, and what it inserts
      anew is not in `after`. */
  lemma BackOffIds(before: Table, d: Diff, after: Table, u: Diff)
    requires Faithful(before, d, after) && Separable(d)
    requires forall i :: i in RowIds(u.inserted) <==> i in ByRow(d.deleted) && !ForeignCells(ByRow(d.deleted)[i])
    requires forall i :: i in RowIds(u.deleted) <==> i in ByRow(d.inserted) && !ForeignCells(ByRow(d.inserted)[i])
    ensures forall id :: id in RowIds(u.inserted) - RowIds(u.deleted) ==> id !in after
    ensures forall id :: id in RowIds(u.deleted) - RowIds(u.inserted) ==> id !in before
    ensures RowIds(u.inserted) <= RowIds(d.deleted) && RowIds(u.deleted) <= RowIds(d.inserted)
  {
    var ins, del := ByRow(d.inserted), ByRow(d.deleted);
    hide ByRow, ForeignCells, Rewrites;
    forall id | id in RowIds(u.inserted) - RowIds(u.deleted) ensures id !in after {
      assert InertAt(ins, del, id) || id !in ins;
    }
    forall id | id in RowIds(u.deleted) - RowIds(u.inserted) ensures id !in before {
      assert InertAt(ins, del, id) || id !in del;
    }
  }

  lemma BackSame(before: Table, d: Diff, after: Table, u: Diff)
    requires Faithful(before, d, after) && Separable(d) && LogFits(before, after, d.updated, u.updated)
    requires forall i :: i in RowIds(u.inserted) <==> i in ByRow(d.deleted) && !ForeignCells(ByRow(d.deleted)[i])
    requires forall i :: i in RowIds(u.deleted) <==> i in ByRow(d.inserted) && !ForeignCells(ByRow(d.inserted)[i])
    ensures SameOff(after, before, Touched(u))
  {
    hide Faithful, Separable, LogFits, Touched, ByRow, ForeignCells, RowIds, DistinctRows;
    forall id | id !in Touched(u) ensures (id in after <==> id in before) && (id in after ==> after[id] == before[id]) {
      BackOffRow(before, d, after, u, id);
    }
  }

  lemma BackOff(before: Table, d: Diff, after: Table, u: Diff)
    requires Faithful(before, d, after) && Separable(d)
    requires LogFits(before, after, d.updated, u.updated)
    requires DistinctRows(u.inserted) && DistinctRows(u.deleted)
    requires forall r :: r in u.inserted <==> r in d.deleted && !ForeignCells(r.cells)
    requires forall r :: r in u.deleted <==> r in d.inserted && !ForeignCells(r.cells)
    ensures Faithful(after, u, before)
  {
    assert DistinctRows(d.inserted) && DistinctRows(d.deleted);
    assert UpdateIds(u.updated) <= UpdateIds(d.updated);
    assert UpdateIds(d.updated) !! (RowIds(d.inserted) + RowIds(d.deleted));
    hide ByRow, Separable, Rewrites, Touched, ForeignCells, SameOff, RowIds, UpdateIds, DistinctRows;
    BackIds(d.deleted, u.inserted);
    BackIds(d.inserted, u.deleted);
    BackSame(before, d, after, u);
    BackOffIds(before, d, after, u);
  }
}
