/** `process_all_responses_action` on every action but RESTORE_DIFF: the action is run
    on the initial copy, then on the final codebook, and the two diffs are merged. */
module ResponsePasses {
  import opened Outcomes
  import opened QueryBuilder
  import opened Repositories
  import opened Diffs
  import opened UndoRuns
  import opened TableActions
  import opened Merging
  import A = AllResponses
  import R = ResponseReducer

  const COPY := "initial_copy"
  const LAST := "final"

  /** Read with `force`, these record nothing; see below. */
  predicate Forced(m: R.MarkAction) {
    m.SetAllCorrect? || m.SetAllIncorrect?
  }

  /** One action as the two passes read it. */
  predicate Twins(t: Table, a: R.Action, b: R.Action) {
    match a
    case ChangeRows(c) => b.ChangeRows? && SameRequest(t, c, b.c)
    case MarkMany(m) => a == b && !Forced(m)
    case Restore(_) => false
    case _ => a == b
  }

  /** The first pass removes the listed positions, the second the listed ids; without a
      list of its own a pass does nothing, as when no responses are added. */
  predicate SameRequest(t: Table, c: R.RowAction, d: R.RowAction) {
    match c
    case AddResponses(rs) => (d.AddResponses? && SameResponses(t, rs, d.responses)) || (rs == [] && d.RemoveIds?)
    case SetResponses(rs) => d.SetResponses? && SameResponses(t, rs, d.responses)
    case SetPartialResponses(rs) => d.SetPartialResponses? && SameResponses(t, rs, d.responses)
    case RemoveIds(_) => d.RemoveIds? || d == R.AddResponses([])
    case _ => c == d
  }

  /** An id the payload gives is read by both passes; a response without one gets a new
      id in each. */
  predicate SameResponses(t: Table, rs: seq<R.Response>, qs: seq<R.Response>) {
    && |rs| == |qs|
    && forall i :: 0 <= i < |rs| ==>
         rs[i].code == qs[i].code && rs[i].quote == qs[i].quote && (rs[i].id == qs[i].id || Text(qs[i].id) !in t)
  }

  // ------------------------------------------------------------ the second pass keeps clear

  /** An id the second pass inserts that was there before was inserted by the first. */
  lemma TwinIds(t: Table, c: R.RowAction, d: R.RowAction, id: Value)
    requires SameRequest(t, c, d) && id in R.NewIds(d) && id in t
    ensures id in R.NewIds(c)
  {
    var q :| q in R.Kept(d.responses) && id == Text(q.id);
    hide R.Kept, R.NonBlank;
    R.KeptIff(d.responses, q);
    var i :| 0 <= i < |d.responses| && d.responses[i] == q;
    assert c.responses[i].id == q.id;
    R.KeptIff(c.responses, c.responses[i]);
  }

  /** What the first pass inserts is of the other type than what the second deletes. */
  lemma RowsApart(t0: Table, c: R.RowAction, a: Diff, t1: Table, d: R.RowAction, b: Diff, t2: Table)
    requires Faithful(t0, a, t1) && Faithful(t1, b, t2) && SameRequest(t0, c, d)
    requires R.WithinType(COPY, c, a) && R.WithinType(LAST, d, b)
    ensures Apart(a, b)
  {
    hide R.NewIds, R.Kept;
    assert UpdateIds([]) == {};
    NoNewIds(c);
    if !d.RemoveIds? && !c.RemoveIds? {
      forall r, s | r in a.inserted && s in b.deleted ensures r.id != s.id {
        assert r.cells == s.cells || r.id != s.id;
      }
    }
  }

  lemma NoNewIds(c: R.RowAction)
    ensures c.RemoveIds? || c == R.AddResponses([]) ==> R.NewIds(c) == {}
  {
  }

  /** No row that was there before is inserted by the second pass. */
  lemma SecondInsertsNew(t0: Table, c: R.RowAction, a: Diff, t1: Table, d: R.RowAction, b: Diff, t2: Table, id: Value)
    requires Faithful(t0, a, t1) && Faithful(t1, b, t2) && SameRequest(t0, c, d) && Apart(a, b)
    requires R.WithinType(COPY, c, a) && R.WithinType(LAST, d, b)
    requires id in RowIds(b.inserted)
    ensures id !in t0
  {
    if id in t0 {
      TwinIds(t0, c, d, id);
    }
  }

  // ------------------------------------------------------------ undone through the same endpoint

  /** Where a row of a list of distinct rows stands in its table. */
  lemma ByRowAt(rows: seq<Row>, id: Value)
    requires DistinctRows(rows)
    ensures id in A.ByRow(rows) <==> id in RowIds(rows)
    ensures id in A.ByRow(rows) ==> Row(id, A.ByRow(rows)[id]) in rows
  {
  }

  /** No row removed is of a type that neither pass puts back. */
  predicate OfTheTwo(rows: seq<Row>) {
    forall r :: r in rows ==> !A.ForeignCells(r.cells)
  }

  lemma RowsSeparable(t0: Table, c: R.RowAction, a: Diff, t1: Table, d: R.RowAction, b: Diff, t2: Table)
    requires Faithful(t0, a, t1) && Faithful(t1, b, t2) && SameRequest(t0, c, d) && Apart(a, b)
    requires R.WithinType(COPY, c, a) && R.WithinType(LAST, d, b)
    requires Faithful(t0, Merged(a, b), t2)
    ensures A.Separable(Merged(a, b)) <==> OfTheTwo(a.deleted + b.deleted)
  {
    var m := Merged(a, b);
    var ins, del := A.ByRow(m.inserted), A.ByRow(m.deleted);
    forall id | id in ins ensures !A.ForeignCells(ins[id]) && (id in del ==> A.HasType(ins[id], A.INITIAL_COPY)) {
      ByRowAt(m.inserted, id);
      var r := Row(id, ins[id]);
      assert r in a.inserted || r in b.inserted;
      if r in b.inserted {
        SecondInsertsNew(t0, c, a, t1, d, b, t2, id);
        if id in del {
          ByRowAt(m.deleted, id);
          assert Row(id, del[id]) in m.deleted;
        }
      }
    }
    hide Faithful, R.WithinType, SameRequest, Apart, R.NewIds;
    assert A.FirstClear(ins, del) && A.SecondClear(ins, del);
    InertIff(ins, del, m.deleted);
  }

  lemma InertIff(ins: Table, del: Table, rows: seq<Row>)
    requires DistinctRows(rows) && del == A.ByRow(rows)
    requires forall id :: id in ins ==> !A.ForeignCells(ins[id])
    ensures A.ForeignInert(ins, del) <==> OfTheTwo(rows)
  {
    hide A.ForeignCells, A.ByRow;
    forall id | id in del ensures Row(id, del[id]) in rows {
      ByRowAt(rows, id);
    }
    if A.ForeignInert(ins, del) {
      forall r | r in rows ensures !A.ForeignCells(r.cells) {
        ByRowAt(rows, r.id);
        assert r.id in RowIds(rows);
        assert A.InertAt(ins, del, r.id);
        assert del[r.id] == r.cells;
      }
    }
  }

  /** None of the rows removed by id is of another codebook type. */
  predicate RemovesOnlyTheTwo(t: Table, a: R.Action, b: R.Action) {
    forall id :: id in Removed(a) + Removed(b) && id in t ==> !A.ForeignCells(t[id])
  }

  /** The rows removed by id. */
  function Removed(a: R.Action): set<Value> {
    if a.ChangeRows? && a.c.RemoveIds? then set id | id in a.c.ids else {}
  }

  lemma RemovedKeys(t: Table, ws: string, ctype: string, c: R.RowAction, useIndex: bool)
    requires R.RowsSucceed(t, ws, ctype, c, useIndex) && (c.RemoveIds? || c == R.AddResponses([]))
    ensures R.RowsAfter(t, ws, ctype, c) == t - Removed(R.ChangeRows(c))
  {
    var gone := Removed(R.ChangeRows(c));
    if c.RemoveIds? && c.ids != [] {
      forall i | 0 <= i < |c.ids| ensures TypedId(R.RESPONSE_SCHEMA, c.ids[i]) {
        assert c.ids[i] in c.ids;
      }
      ByIdsSelects(R.RESPONSE_SCHEMA, t, c.ids);
      assert t - gone * t.Keys == t - gone;
    } else {
      assert t - gone == t;
      assert R.RowsOf(ws, ctype, []) == [];
    }
  }

  /** A diff without other rows lists exactly the rows that are gone. */
  lemma GoneRows(t: Table, gone: set<Value>, d: Diff)
    requires Faithful(t, d, t - gone) && d.updated == [] && RowIds(d.inserted) == {}
    ensures RowIds(d.deleted) == gone * t.Keys
    ensures forall r :: r in d.deleted ==> r.id in gone && r.id in t && t[r.id] == r.cells
  {
    assert UpdateIds([]) == {};
    assert SameOff(t, t - gone, RowIds(d.deleted)) by {
      assert Touched(d) == RowIds(d.deleted);
    }
    forall r | r in d.deleted ensures r.id in gone {
      assert r.id in RowIds(d.deleted) - RowIds(d.inserted);
    }
    assert forall id :: id in RowIds(d.deleted) ==> id in gone && id in t;
    assert forall id :: id in gone && id in t ==> id in RowIds(d.deleted);
  }

  /** What was removed by id is of the two types exactly when the rows with those ids were. */
  lemma RemovedOfTheTwo(t0: Table, ws: string, c: R.RowAction, a: Diff, t1: Table, d: R.RowAction, b: Diff, t2: Table)
    requires Faithful(t0, a, t1) && Faithful(t1, b, t2) && SameRequest(t0, c, d)
    requires R.WithinType(COPY, c, a) && R.WithinType(LAST, d, b)
    requires R.RowsSucceed(t0, ws, COPY, c, true) && t1 == R.RowsAfter(t0, ws, COPY, c)
    requires R.RowsSucceed(t1, ws, LAST, d, false) && t2 == R.RowsAfter(t1, ws, LAST, d)
    ensures OfTheTwo(a.deleted + b.deleted) <==> RemovesOnlyTheTwo(t0, R.ChangeRows(c), R.ChangeRows(d))
  {
    hide R.RowsSucceed, R.RowsAfter, Faithful, R.NewIds;
    if c.RemoveIds? || d.RemoveIds? {
      NoNewIds(c);
      NoNewIds(d);
      RemovedKeys(t0, ws, COPY, c, true);
      RemovedKeys(t1, ws, LAST, d, false);
      GoneRows(t0, Removed(R.ChangeRows(c)), a);
      GoneRows(t1, Removed(R.ChangeRows(d)), b);
      IdsConcat(a, b);
      RowsCover(t0, Removed(R.ChangeRows(c)) + Removed(R.ChangeRows(d)), a.deleted + b.deleted);
    }
  }

  lemma RowsCover(t: Table, ids: set<Value>, rows: seq<Row>)
    requires forall r :: r in rows ==> r.id in ids && r.id in t && t[r.id] == r.cells
    requires forall id :: id in ids && id in t ==> id in RowIds(rows)
    ensures OfTheTwo(rows) <==> forall id :: id in ids && id in t ==> !A.ForeignCells(t[id])
  {
    hide A.ForeignCells;
    if OfTheTwo(rows) {
      forall id | id in ids && id in t ensures !A.ForeignCells(t[id]) {
        var r :| r in rows && r.id == id;
      }
    }
  }

  // ------------------------------------------------------------ the two passes

  /** One pass over the table with the diff it returned. */
  ghost predicate Ran(t: Table, ws: string, ctype: string, x: R.Action, useIndex: bool, d: Diff, t': Table) {
    && R.Succeeds(t, ws, ctype, x, useIndex) && t' == R.TableAfter(t, ws, ctype, x)
    && (if x.RestoreState? then R.Chained(t, d, t') else Faithful(t, d, t'))
    && (x.Write? || x.MarkMany? ==> R.UpdatesOnly(d)) && (x.ChangeRows? ==> R.WithinType(ctype, x.c, d))
  }

  lemma {:induction false} PlaysOn(t: Table, us: seq<RowUpdate>, vs: seq<RowUpdate>)
    requires Playable(t, us) && Playable(Play(t, us), vs)
    ensures Playable(t, us + vs) && Play(t, us + vs) == Play(Play(t, us), vs)
    decreases |vs|
  {
    if vs == [] {
      assert us + vs == us;
    } else {
      var n := |vs| - 1;
      PlaysOn(t, us, vs[..n]);
      assert us + vs == us + vs[..n] + [vs[n]];
      assert (us + vs)[..|us + vs| - 1] == us + vs[..n];
    }
  }

  lemma UpdatesSeparable(d: Diff)
    requires R.UpdatesOnly(d)
    ensures DistinctRows(d.inserted) && DistinctRows(d.deleted) && A.Separable(d)
  {
    forall id ensures id !in A.ByRow([]) {
      ByRowAt([], id);
    }
  }

  /** Updates, also of rows updated before, merge into what they changed together. */
  lemma UpdatesDescribe(t0: Table, ws: string, x: R.Action, y: R.Action, a: Diff, t1: Table, b: Diff, t2: Table)
    requires !x.ChangeRows? && Twins(t0, x, y) && Ran(t0, ws, COPY, x, true, a, t1) && Ran(t1, ws, LAST, y, false, b, t2)
    ensures Faithful(t0, Merged(a, b), t2) && R.UpdatesOnly(Merged(a, b))
  {
    hide R.Succeeds, R.TableAfter;
    if x.RestoreState? {
      PlaysOn(t0, a.updated, b.updated);
      CoalescedFaithful(t0, a.updated + b.updated);
      assert a.inserted + b.inserted == [] && a.deleted + b.deleted == [];
    } else {
      assert RowIds([]) == {};
      MergedIsFaithful(t0, a, t1, b, t2);
    }
  }

  lemma RowsDescribe(t0: Table, ws: string, x: R.Action, y: R.Action, a: Diff, t1: Table, b: Diff, t2: Table)
    requires x.ChangeRows? && Twins(t0, x, y) && Ran(t0, ws, COPY, x, true, a, t1) && Ran(t1, ws, LAST, y, false, b, t2)
    ensures Faithful(t0, Merged(a, b), t2)
    ensures A.Separable(Merged(a, b)) <==> RemovesOnlyTheTwo(t0, x, y)
  {
    hide Faithful, R.WithinType, R.RowsSucceed, R.RowsAfter, SameRequest, Apart, A.Separable, OfTheTwo;
    RowsApart(t0, x.c, a, t1, y.c, b, t2);
    MergedIsFaithful(t0, a, t1, b, t2);
    RowsSeparable(t0, x.c, a, t1, y.c, b, t2);
    RemovedOfTheTwo(t0, ws, x.c, a, t1, y.c, b, t2);
  }

  /** The merged diff describes the change made by both passes, and sending it back to
      the same endpoint gives the first table again exactly when no row removed by id
      was of another codebook type. */
  lemma PassesDescribe(t0: Table, ws: string, x: R.Action, y: R.Action, a: Diff, t1: Table, b: Diff, t2: Table)
    requires Conforms(R.RESPONSE_SCHEMA, t0) && Conforms(R.RESPONSE_SCHEMA, t2)
    requires Twins(t0, x, y) && Ran(t0, ws, COPY, x, true, a, t1) && Ran(t1, ws, LAST, y, false, b, t2)
    ensures Faithful(t0, Merged(a, b), t2)
    ensures A.TwoPassRestores(R.RESPONSE_SCHEMA, t2, Merged(a, b), t0) <==> RemovesOnlyTheTwo(t0, x, y)
  {
    var m := Merged(a, b);
    assert KeyColumn(R.RESPONSE_SCHEMA);
    hide Conforms, Ran, Twins, Merged, R.RESPONSE_SCHEMA, R.UpdatesOnly, A.Separable, A.TwoPassRestores;
    if x.ChangeRows? {
      RowsDescribe(t0, ws, x, y, a, t1, b, t2);
    } else {
      UpdatesDescribe(t0, ws, x, y, a, t1, b, t2);
      UpdatesSeparable(m);
      NothingRemoved(t0, x, y);
    }
    A.TwoPassIff(R.RESPONSE_SCHEMA, t0, m, t2);
  }

  lemma NothingRemoved(t: Table, x: R.Action, y: R.Action)
    requires !x.ChangeRows? && Twins(t, x, y)
    ensures RemovesOnlyTheTwo(t, x, y)
  {
  }

  /** Runs an action on both codebook types. */
  method ProcessAll(repo: Repository, ws: string, first: R.Action, second: R.Action) returns (r: Result<Diff>)
    requires repo.builder.schema == R.RESPONSE_SCHEMA && Conforms(R.RESPONSE_SCHEMA, repo.rows)
    requires Twins(repo.rows, first, second)
    modifies repo`rows, repo.builder
    ensures Conforms(R.RESPONSE_SCHEMA, repo.rows)
    ensures r.Ok? <==>
              && R.Succeeds(old(repo.rows), ws, COPY, first, true)
              && R.Succeeds(R.TableAfter(old(repo.rows), ws, COPY, first), ws, LAST, second, false)
    ensures r.Ok? ==>
              && repo.rows == R.TableAfter(R.TableAfter(old(repo.rows), ws, COPY, first), ws, LAST, second)
              && Faithful(old(repo.rows), r.value, repo.rows)
              && (A.TwoPassRestores(R.RESPONSE_SCHEMA, repo.rows, r.value, old(repo.rows)) <==>
                  RemovesOnlyTheTwo(old(repo.rows), first, second))
  {
    ghost var before := repo.rows;
    TwinsPlain(before, first, second);
    hide Conforms, Twins, Faithful, R.Succeeds, R.TableAfter, R.Chained, R.WithinType, R.UpdatesOnly, RemovesOnlyTheTwo,
      A.TwoPassRestores, R.RESPONSE_SCHEMA;
    var initial :- R.Process(repo, ws, COPY, first, true);
    ghost var mid := repo.rows;
    var final :- R.Process(repo, ws, LAST, second, false);
    PassesDescribe(before, ws, first, second, initial, mid, final, repo.rows);
    r := A.MergeBoth(initial, final);
  }

  lemma TwinsPlain(t: Table, x: R.Action, y: R.Action)
    requires Twins(t, x, y)
    ensures !x.Restore? && !y.Restore?
  {
  }

  lemma RowConforms(ws: string, ctype: string, r: R.Response)
    requires r.mark.None? && !r.createdAt.Num?
    ensures Conforms(R.RESPONSE_SCHEMA, map[Text(r.id) := R.RowOf(ws, ctype, r).cells])
  {
  }

  /** A response that brings its own id: the first pass inserts it and the second raises,
      because the row with that id is not one it replaces. */
  lemma GivenIdRaises(t0: Table, ws: string, c: R.RowAction, a: Diff, t1: Table, d: R.RowAction, id: Value)
    requires Faithful(t0, a, t1) && R.WithinType(COPY, c, a)
    requires id in R.NewIds(c) && id in R.NewIds(d)
    ensures !R.RowsSucceed(t1, ws, LAST, d, false)
  {
    var rows := R.RowsOf(ws, LAST, R.Kept(d.responses));
    var q :| q in R.Kept(d.responses) && id == Text(q.id);
    var i :| 0 <= i < |R.Kept(d.responses)| && R.Kept(d.responses)[i] == q;
    assert rows[i] in rows && rows[i].id == id;
    var r :| r in a.inserted && r.id == id;
    assert At(t1[id], "codebook_type") != Text(LAST);
    hide R.RowsOf, R.Kept, R.RESPONSE_SCHEMA, Selected, AllInsertable, DistinctRows;
    if d.SetResponses? {
      R.ScopeNotOther(t1, ws, LAST, R.Base(ws, LAST), id);
    } else if d.SetPartialResponses? {
      R.ScopeNotOther(t1, ws, LAST, R.OfPosts(ws, LAST, R.Kept(d.responses)), id);
    }
  }

  /** A response of the first codebook, removed by its position: both passes return, and
      sending the merged diff back to the endpoint does not bring it back. */
  lemma ForeignExample(ws: string, r: R.Response)
    requires r.mark.None? && !r.createdAt.Num?
    ensures var t := map[Text(r.id) := R.RowOf(ws, "initial", r).cells];
            var x, y := R.ChangeRows(R.RemoveIds([Text(r.id)])), R.ChangeRows(R.AddResponses([]));
            && Conforms(R.RESPONSE_SCHEMA, t) && Twins(t, x, y)
            && R.Succeeds(t, ws, COPY, x, true) && R.Succeeds(R.TableAfter(t, ws, COPY, x), ws, LAST, y, false)
            && !RemovesOnlyTheTwo(t, x, y)
  {
    var t: Table := map[Text(r.id) := R.RowOf(ws, "initial", r).cells];
    var x, y := R.ChangeRows(R.RemoveIds([Text(r.id)])), R.ChangeRows(R.AddResponses([]));
    RowConforms(ws, "initial", r);
    assert R.RowsOf(ws, LAST, []) == [];
    assert Text(r.id) in Removed(x) && A.ForeignCells(t[Text(r.id)]);
    assert Text(r.id) in Removed(x) + Removed(y);
  }

  // ------------------------------------------------------------ forced marks

  /** SET_ALL_CORRECT and SET_ALL_INCORRECT of this endpoint mark the rows of both types,
      whatever the pass. */
  function ForcedScope(ws: string): FilterMap {
    [Equals("workspace_id", Text(ws)), ("codebook_type", Plain(Many([Text(COPY), Text(LAST)])))]
  }

  lemma ForcedRuns(ws: string)
    ensures Runs(R.RESPONSE_SCHEMA, ForcedScope(ws))
  {
    var f := ForcedScope(ws);
    EqualsRuns(R.RESPONSE_SCHEMA, "workspace_id", Text(ws));
    FilterRunsIff(R.RESPONSE_SCHEMA, f);
    assert EntryRuns(R.RESPONSE_SCHEMA, f[1]);
    hide FilterRuns, EntryRuns;
  }

  /** An entry for every row whose mark is null; both actions write true as the new mark. */
  method RecordUnmarked(rows: seq<Row>) returns (updated: seq<RowUpdate>)
    ensures (forall r :: r in rows ==> At(r.cells, "is_marked") != Null) ==> updated == []
    ensures forall u :: u in updated <==>
      exists r :: r in rows && At(r.cells, "is_marked") == Null && u == RowUpdate(r.id, map["is_marked" := Change(Null, Num(1))])
  {
    updated := [];
    for k := 0 to |rows|
      invariant forall u :: u in updated <==>
        exists r :: r in rows[..k] && At(r.cells, "is_marked") == Null && u == RowUpdate(r.id, map["is_marked" := Change(Null, Num(1))])
    {
      assert rows[..k + 1] == rows[..k] + [rows[k]];
      if At(rows[k].cells, "is_marked") == Null {
        updated := updated + [RowUpdate(rows[k].id, map["is_marked" := Change(Null, Num(1))])];
      }
    }
    assert rows[..|rows|] == rows;
    if updated != [] {
      assert updated[0] in updated;
    }
  }

  /** The marks are read after the update, when none is null: nothing is recorded. */
  method ForceMarks(repo: Repository, ws: string, mark: int) returns (d: Diff)
    requires repo.builder.schema == R.RESPONSE_SCHEMA && Conforms(R.RESPONSE_SCHEMA, repo.rows)
    requires mark in {0, 1}
    modifies repo`rows
    ensures Conforms(R.RESPONSE_SCHEMA, repo.rows)
    ensures d == Diff([], [], []) && repo.rows == R.Marked(old(repo.rows), ForcedScope(ws), Num(mark))
  {
    ghost var before := repo.rows;
    var ups := map["is_marked" := Num(mark)];
    ForcedRuns(ws);
    MarkStored(before, ws, mark);
    hide Conforms, FilterRuns, ForcedScope, Stored, Selected, UpdatesRun, R.RESPONSE_SCHEMA;
    var changed := repo.UpdateReturning(ForcedScope(ws), ups);
    assert forall r :: r in changed.value ==> r.id in RowIds(changed.value);
    var updated := RecordUnmarked(changed.value);
    return Diff([], [], updated);
  }

  lemma MarkStored(t: Table, ws: string, mark: int)
    requires Conforms(R.RESPONSE_SCHEMA, t) && mark in {0, 1}
    ensures var ups := map["is_marked" := Num(mark)];
            && UpdatesRun(R.RESPONSE_SCHEMA, ups) && Stored(R.RESPONSE_SCHEMA, ups) == ups
            && Conforms(R.RESPONSE_SCHEMA, R.Marked(t, ForcedScope(ws), Num(mark)))
  {
    R.OneUpdateRuns("is_marked", Num(mark));
    assert Stored(R.RESPONSE_SCHEMA, map["is_marked" := Num(mark)]) == map["is_marked" := Num(mark)];
    OverwriteConforms(R.RESPONSE_SCHEMA, t, R.Sel(t, ForcedScope(ws)), map["is_marked" := Num(mark)]);
  }

  /** The rows of the workspace that belong to either codebook get the mark; nothing else
      changes. */
  lemma ForcedRows(t: Table, ws: string, mark: int, id: Value)
    requires mark in {0, 1} && id in t
    ensures var t' := R.Marked(t, ForcedScope(ws), Num(mark));
            && t'.Keys == t.Keys
            && t'[id] == if At(t[id], "workspace_id") == Text(ws) && At(t[id], "codebook_type") in {Text(COPY), Text(LAST)}
                         then t[id]["is_marked" := Num(mark)]
                         else t[id]
  {
    hide Stored, Matches, ForcedScope, R.RESPONSE_SCHEMA;
    MarkCell(mark);
    InForcedScope(ws, id, t[id]);
  }

  lemma MarkCell(mark: int)
    requires mark in {0, 1}
    ensures Stored(R.RESPONSE_SCHEMA, map["is_marked" := Num(mark)]) == map["is_marked" := Num(mark)]
  {
    R.OneUpdateRuns("is_marked", Num(mark));
  }

  lemma HaveMarks(t: Table)
    requires Conforms(R.RESPONSE_SCHEMA, t)
    ensures forall id :: id in t ==> "is_marked" in t[id]
  {
    assert forall id :: id in t ==> Columns(R.RESPONSE_SCHEMA, t[id]);
  }

  lemma NothingDescribed(t: Table, t': Table)
    ensures Faithful(t, Diff([], [], []), t') <==> t == t'
  {
    assert RowIds([]) == {} && UpdateIds([]) == {};
    assert Touched(Diff([], [], [])) == {};
  }

  /** What a forced marking changed is described by what it returns exactly when it
      changed nothing: when every row in scope had the mark already. */
  lemma ForcedDescribedIff(t: Table, ws: string, mark: int)
    requires Conforms(R.RESPONSE_SCHEMA, t) && mark in {0, 1}
    ensures Faithful(t, Diff([], [], []), R.Marked(t, ForcedScope(ws), Num(mark))) <==>
            forall id :: id in R.Sel(t, ForcedScope(ws)) ==> R.Mark(t, id) == Num(mark)
  {
    var ids, news := R.Sel(t, ForcedScope(ws)), map["is_marked" := Num(mark)];
    MarkStored(t, ws, mark);
    NothingDescribed(t, R.Marked(t, ForcedScope(ws), Num(mark)));
    HaveMarks(t);
    hide Conforms, Selected, Stored, Faithful, R.RESPONSE_SCHEMA;
    OverwrittenSame(t, ids, Num(mark));
  }

  lemma OverwrittenSame(t: Table, ids: set<Value>, mark: Value)
    requires forall id :: id in t ==> "is_marked" in t[id]
    ensures Overwrite(t, ids, map["is_marked" := mark]) == t <==>
            forall id :: id in ids && id in t ==> At(t[id], "is_marked") == mark
  {
    forall id | id in ids && id in t
      ensures t[id] + map["is_marked" := mark] == t[id] <==> At(t[id], "is_marked") == mark
    {
      if At(t[id], "is_marked") == mark {
        assert t[id] + map["is_marked" := mark] == t[id];
      } else {
        assert (t[id] + map["is_marked" := mark])["is_marked"] != t[id]["is_marked"];
      }
    }
    var after := Overwrite(t, ids, map["is_marked" := mark]);
    if after == t {
      forall id | id in ids && id in t ensures t[id] + map["is_marked" := mark] == t[id] {
        assert after[id] == t[id];
      }
    }
  }

  lemma OneOfTwo(t: ColumnType, x: Value)
    requires t.affinity.TextColumn?
    ensures Meets(t, Condition("codebook_type", In, Many([Text(COPY), Text(LAST)])), x) <==> x in {Text(COPY), Text(LAST)}
  {
    var vs := [Text(COPY), Text(LAST)];
    if x in {Text(COPY), Text(LAST)} {
      var i := if x == Text(COPY) then 0 else 1;
      assert x == Normalize(t, vs[i]);
    }
  }

  lemma InForcedScope(ws: string, id: Value, cells: Cells)
    ensures Matches(R.RESPONSE_SCHEMA, Conditions(ForcedScope(ws)), View(id, cells)) <==>
            At(cells, "workspace_id") == Text(ws) && At(cells, "codebook_type") in {Text(COPY), Text(LAST)}
  {
    var a, b := Condition("workspace_id", Eq, One(Text(ws))), Condition("codebook_type", In, Many([Text(COPY), Text(LAST)]));
    assert Conditions(ForcedScope(ws)) == [a, b];
    assert At(View(id, cells), "workspace_id") == At(cells, "workspace_id");
    assert At(View(id, cells), "codebook_type") == At(cells, "codebook_type");
    assert [a, b][0] == a && [a, b][1] == b;
    OneOfTwo(R.RESPONSE_SCHEMA["codebook_type"], At(cells, "codebook_type"));
  }

  /** An unmarked response, marked by the first pass, stays marked when what came back is
      restored. */
  lemma ForcedExample(ws: string, r: R.Response, mark: int)
    requires r.mark.None? && !r.createdAt.Num? && mark in {0, 1}
    ensures var t := map[Text(r.id) := R.RowOf(ws, COPY, r).cells];
            && Conforms(R.RESPONSE_SCHEMA, t)
            && !Faithful(t, Diff([], [], []), R.Marked(t, ForcedScope(ws), Num(mark)))
  {
    hide Conforms, Faithful, Matches, R.Marked, R.RESPONSE_SCHEMA;
    var t: Table := map[Text(r.id) := R.RowOf(ws, COPY, r).cells];
    InForcedScope(ws, Text(r.id), t[Text(r.id)]);
    RowConforms(ws, COPY, r);
    assert Text(r.id) in R.Sel(t, ForcedScope(ws)) && R.Mark(t, Text(r.id)) == Null;
    ForcedDescribedIff(t, ws, mark);
  }

  /** Marking both passes is marking once. */
  lemma ForcedTwice(t: Table, ws: string, mark: int)
    requires Conforms(R.RESPONSE_SCHEMA, t) && mark in {0, 1}
    ensures var once := R.Marked(t, ForcedScope(ws), Num(mark)); R.Marked(once, ForcedScope(ws), Num(mark)) == once
  {
    hide Conforms, Stored, Matches, R.RESPONSE_SCHEMA;
    var once := R.Marked(t, ForcedScope(ws), Num(mark));
    MarkStored(t, ws, mark);
    MarkStored(once, ws, mark);
    HaveMarks(once);
    OnceMarked(t, ws, mark);
    hide Selected;
    OverwrittenSame(once, R.Sel(once, ForcedScope(ws)), Num(mark));
  }

  lemma OnceMarked(t: Table, ws: string, mark: int)
    requires Conforms(R.RESPONSE_SCHEMA, t) && mark in {0, 1}
    ensures var once := R.Marked(t, ForcedScope(ws), Num(mark));
            forall id :: id in R.Sel(once, ForcedScope(ws)) ==> At(once[id], "is_marked") == Num(mark)
  {
    hide Conforms, Stored, Matches, R.RESPONSE_SCHEMA;
    var once := R.Marked(t, ForcedScope(ws), Num(mark));
    MarkStored(t, ws, mark);
    forall id | id in R.Sel(once, ForcedScope(ws)) ensures At(once[id], "is_marked") == Num(mark) {
      InForcedScope(ws, id, t[id]);
      InForcedScope(ws, id, once[id]);
    }
  }

  method ForceAll(repo: Repository, ws: string, mark: int) returns (r: Result<Diff>)
    requires repo.builder.schema == R.RESPONSE_SCHEMA && Conforms(R.RESPONSE_SCHEMA, repo.rows)
    requires mark in {0, 1}
    modifies repo`rows
    ensures Conforms(R.RESPONSE_SCHEMA, repo.rows)
    ensures r == Ok(Diff([], [], [])) && repo.rows == R.Marked(old(repo.rows), ForcedScope(ws), Num(mark))
  {
    ForcedTwice(repo.rows, ws, mark);
    hide Conforms, R.Marked, R.RESPONSE_SCHEMA;
    var initial := ForceMarks(repo, ws, mark);
    var final := ForceMarks(repo, ws, mark);
    assert Coalesce([] + []) == [];
    r := A.MergeBoth(initial, final);
  }
}
