/** Composing diffs: `merge_diffs`, the two-pass restore, and diffs whose update
    list mentions one row several times. */
module Merging {
  import opened Outcomes
  import opened QueryBuilder
  import opened Repositories
  import opened Diffs
  import opened UndoRuns

  /** Later changes on top of earlier ones: the old value of the first, the new
      value of the last. */
  function Compose(a: Changes, b: Changes): Changes {
    map f | f in a.Keys + b.Keys ::
      if f !in b then a[f] else if f !in a then b[f] else Change(a[f].old_, b[f].new_)
  }

  /** The ids of `us` in order of first mention. */
  function Order(us: seq<RowUpdate>): (r: seq<Value>)
    ensures forall id :: id in r <==> id in UpdateIds(us)
    ensures forall i, j :: 0 <= i < j < |r| ==> r[i] != r[j]
  {
    if us == [] then []
    else
      LastEntry(us);
      var front := Order(us[..|us| - 1]);
      var id := us[|us| - 1].id;
      if id in front then front else front + [id]
  }

  /** All changes `us` makes to one row, composed. */
  function Fields(us: seq<RowUpdate>, id: Value): Changes {
    if us == [] then map[]
    else
      var front := Fields(us[..|us| - 1], id);
      var u := us[|us| - 1];
      if u.id == id then Compose(front, u.changes) else front
  }

  function Coalesce(us: seq<RowUpdate>): (r: seq<RowUpdate>)
    ensures DistinctUpdates(r) && UpdateIds(r) == UpdateIds(us)
  {
    var order := Order(us);
    var r := seq(|order|, i requires 0 <= i < |order| => RowUpdate(order[i], Fields(us, order[i])));
    assert UpdateIds(r) == UpdateIds(us) by {
      forall id | id in UpdateIds(us) ensures id in UpdateIds(r) {
        var i :| 0 <= i < |order| && order[i] == id;
        assert r[i] in r;
      }
    }
    r
  }

  /** Entry `i` is the first of `us` to change field `f` of row `id`. */
  predicate FirstAt(us: seq<RowUpdate>, id: Value, f: string, i: nat) {
    && i < |us| && us[i].id == id && f in us[i].changes
    && forall k :: 0 <= k < i ==> !(us[k].id == id && f in us[k].changes)
  }

  predicate LastAt(us: seq<RowUpdate>, id: Value, f: string, i: nat) {
    && i < |us| && us[i].id == id && f in us[i].changes
    && forall k :: i < k < |us| ==> !(us[k].id == id && f in us[k].changes)
  }

  /** A merged field carries the old value of the first entry that changes it and
      the new value of the last; a field no entry changes is not merged. */
  lemma {:induction false} MergedField(us: seq<RowUpdate>, id: Value, f: string) returns (i: nat, j: nat)
    ensures f !in Fields(us, id) ==> forall k :: 0 <= k < |us| ==> !(us[k].id == id && f in us[k].changes)
    ensures f in Fields(us, id) ==>
              FirstAt(us, id, f, i) && LastAt(us, id, f, j)
              && Fields(us, id)[f] == Change(us[i].changes[f].old_, us[j].changes[f].new_)
    decreases |us|
  {
    i, j := 0, 0;
    if us != [] {
      var n := |us| - 1;
      var front := us[..n];
      i, j := MergedField(front, id, f);
      if us[n].id == id && f in us[n].changes {
        j := n;
        if f !in Fields(front, id) {
          i := n;
        }
      }
    }
  }

  function Merged(a: Diff, b: Diff): Diff {
    Diff(a.inserted + b.inserted, a.deleted + b.deleted, Coalesce(a.updated + b.updated))
  }

  function Listing(order: seq<Value>, merged: map<Value, Changes>): seq<RowUpdate>
    requires forall id :: id in order ==> id in merged
  {
    seq(|order|, i requires 0 <= i < |order| => RowUpdate(order[i], merged[order[i]]))
  }

  /** Folds one entry's changes, field by field, into what is already merged for its row. */
  method FoldChanges(start: Changes, changes: Changes) returns (existing: Changes)
    ensures existing == Compose(start, changes)
  {
    existing := start;
    var todo := changes.Keys;
    while todo != {}
      invariant todo <= changes.Keys
      invariant existing == Compose(start, map f | f in changes && f !in todo :: changes[f])
      decreases todo
    {
      var f :| f in todo;
      if f in existing {
        existing := existing[f := Change(existing[f].old_, changes[f].new_)];
      } else {
        existing := existing[f := changes[f]];
      }
      todo := todo - {f};
    }
    assert changes == map f | f in changes && f !in todo :: changes[f];
  }

  /** Concatenates the row lists and folds the updates of both diffs, in order,
      into one dictionary keyed by row id. */
  method MergeDiffs(a: Diff, b: Diff) returns (r: Diff)
    ensures r == Merged(a, b)
  {
    var order, merged := MergeUpdates(a.updated + b.updated);
    FoldedList(a.updated + b.updated, order, merged);
    hide Folded, Coalesce;
    return Diff(a.inserted + b.inserted, a.deleted + b.deleted, Listing(order, merged));
  }

  /** The dictionary of entries by row id, and the order in which ids first occurred. */
  method MergeUpdates(all: seq<RowUpdate>) returns (order: seq<Value>, merged: map<Value, Changes>)
    ensures Folded(all, order, merged)
  {
    order, merged := [], map[];
    assert Folded([], order, merged);
    hide Folded, Compose;
    for n := 0 to |all|
      invariant Folded(all[..n], order, merged)
    {
      var u := all[n];
      assert all[..n + 1] == all[..n] + [u];
      FoldsOn(all[..n], order, merged, u);
      if u.id !in merged {
        order := order + [u.id];
        merged := merged[u.id := u.changes];
      } else {
        var existing := FoldChanges(merged[u.id], u.changes);
        merged := merged[u.id := existing];
      }
    }
    assert all[..|all|] == all;
  }

  /** The dictionary and its key order stand for the updates folded so far. */
  ghost predicate Folded(us: seq<RowUpdate>, order: seq<Value>, merged: map<Value, Changes>) {
    && order == Order(us) && merged.Keys == UpdateIds(us)
    && forall id :: id in merged ==> merged[id] == Fields(us, id)
  }

  lemma FoldedList(us: seq<RowUpdate>, order: seq<Value>, merged: map<Value, Changes>)
    requires Folded(us, order, merged)
    ensures (forall id :: id in order ==> id in merged) && Listing(order, merged) == Coalesce(us)
  {
  }

  lemma FoldsOn(us: seq<RowUpdate>, order: seq<Value>, merged: map<Value, Changes>, u: RowUpdate)
    requires Folded(us, order, merged)
    ensures u.id !in merged ==> Folded(us + [u], order + [u.id], merged[u.id := u.changes])
    ensures u.id in merged ==> Folded(us + [u], order, merged[u.id := Compose(merged[u.id], u.changes)])
  {
    hide Fields, Order, Compose;
    FoldsIds(us, u);
    ComposeNone(u.changes);
    if u.id !in merged {
      NoFields(us, u.id);
    }
    var merged' := merged[u.id := if u.id in merged then Compose(merged[u.id], u.changes) else u.changes];
    forall id | id in merged' ensures merged'[id] == Fields(us + [u], id) {
      FoldsFields(us, u, id);
    }
    assert merged'.Keys == UpdateIds(us + [u]);
    hide UpdateIds;
  }

  lemma ComposeNone(c: Changes)
    ensures Compose(map[], c) == c
  {
  }

  lemma FoldsIds(us: seq<RowUpdate>, u: RowUpdate)
    ensures UpdateIds(us + [u]) == UpdateIds(us) + {u.id}
    ensures Order(us + [u]) == if u.id in UpdateIds(us) then Order(us) else Order(us) + [u.id]
  {
    assert (us + [u])[..|us|] == us;
    LastEntry(us + [u]);
  }

  lemma FoldsFields(us: seq<RowUpdate>, u: RowUpdate, id: Value)
    ensures Fields(us + [u], id) == if u.id == id then Compose(Fields(us, id), u.changes) else Fields(us, id)
  {
    assert (us + [u])[..|us|] == us;
  }

  lemma {:induction false} NoFields(us: seq<RowUpdate>, id: Value)
    requires id !in UpdateIds(us)
    ensures Fields(us, id) == map[]
    decreases |us|
  {
    if us != [] {
      LastEntry(us);
      NoFields(us[..|us| - 1], id);
    }
  }

  // ---------------------------------------------- two passes, one restore

  /** The second pass deletes and updates nothing the first inserted, and deletes
      nothing the first updated. */
  predicate Apart(a: Diff, b: Diff) {
    RowIds(a.inserted) !! RowIds(b.deleted) + UpdateIds(b.updated) && UpdateIds(a.updated) !! RowIds(b.deleted)
  }

  lemma {:induction false} FieldsConcat(us: seq<RowUpdate>, vs: seq<RowUpdate>, id: Value)
    ensures Fields(us + vs, id) == Compose(Fields(us, id), Fields(vs, id))
    decreases |vs|
  {
    if vs == [] {
      assert us + vs == us;
    } else {
      var n := |vs| - 1;
      assert (us + vs)[..|us + vs| - 1] == us + vs[..n];
      FieldsConcat(us, vs[..n], id);
    }
  }

  lemma {:induction false} FieldsDistinct(us: seq<RowUpdate>, u: RowUpdate)
    requires DistinctUpdates(us) && u in us
    ensures Fields(us, u.id) == u.changes
    decreases |us|
  {
    LastEntry(us);
    var front := us[..|us| - 1];
    if u in front {
      FieldsDistinct(front, u);
      assert u.id in UpdateIds(front);
    } else {
      NoFields(front, u.id);
    }
  }

  lemma FieldsFit(before: Table, us: seq<RowUpdate>, after: Table, id: Value)
    requires UpdatesFit(before, us, after)
    requires id in before && id in after && (id in UpdateIds(us) || before[id] == after[id])
    ensures Rewrites(before[id], Fields(us, id), after[id])
  {
    if id in UpdateIds(us) {
      var u :| u in us && u.id == id;
      FieldsDistinct(us, u);
    } else {
      NoFields(us, id);
    }
  }

  /** The merged diff of two passes in a row describes the change made by both exactly
      when the second keeps clear of the first's rows; one restore then undoes both. */
  lemma MergeFaithful(schema: Schema, t0: Table, a: Diff, t1: Table, b: Diff, t2: Table)
    requires KeyColumn(schema) && Conforms(schema, t0) && Conforms(schema, t2)
    requires Faithful(t0, a, t1) && Faithful(t1, b, t2)
    ensures Faithful(t0, Merged(a, b), t2) <==> Apart(a, b)
    ensures Apart(a, b) ==> CanRestore(schema, t2, Merged(a, b))
    ensures Apart(a, b) ==> forall t, u | Restores(schema, t2, Merged(a, b), t, u) :: t == t0 && Faithful(t2, u, t0)
  {
    hide Faithful, Merged, Conforms, CanRestore, Restores, Apart;
    if Apart(a, b) {
      MergedIsFaithful(t0, a, t1, b, t2);
      RestoreUndoes(schema, t0, Merged(a, b), t2);
    } else if Faithful(t0, Merged(a, b), t2) {
      MergedNeedsApart(t0, a, t1, b, t2);
    }
  }

  lemma MergedNeedsApart(t0: Table, a: Diff, t1: Table, b: Diff, t2: Table)
    requires Faithful(t0, a, t1) && Faithful(t1, b, t2) && Faithful(t0, Merged(a, b), t2)
    ensures Apart(a, b)
  {
    IdsConcat(a, b);
    forall id | id in RowIds(a.inserted) ensures id !in RowIds(b.deleted) {
      if id in RowIds(b.deleted) {
        InsertedDeleted(t0, a, t1, b, t2, id);
      }
    }
    hide Faithful, Coalesce, RowIds, UpdateIds;
    MergedIdsApart(t0, Merged(a, b), t2);
  }

  lemma MergedIdsApart(t0: Table, m: Diff, t2: Table)
    requires Faithful(t0, m, t2)
    ensures UpdateIds(m.updated) !! RowIds(m.inserted) + RowIds(m.deleted)
  {
  }

  lemma MergedIsFaithful(t0: Table, a: Diff, t1: Table, b: Diff, t2: Table)
    requires Faithful(t0, a, t1) && Faithful(t1, b, t2) && Apart(a, b)
    ensures Faithful(t0, Merged(a, b), t2)
  {
    var m := Merged(a, b);
    IdsConcat(a, b);
    forall u | u in m.updated
      ensures u.id in t0 && u.id in t2 && Rewrites(t0[u.id], u.changes, t2[u.id])
    {
      assert u.id in UpdateIds(m.updated);
      MergedRow(t0, a, t1, b, t2, u.id);
    }
    MergedRows(t0, a, t1, b, t2);
  }

  lemma IdsConcat(a: Diff, b: Diff)
    ensures UpdateIds(a.updated + b.updated) == UpdateIds(a.updated) + UpdateIds(b.updated)
    ensures RowIds(a.inserted + b.inserted) == RowIds(a.inserted) + RowIds(b.inserted)
    ensures RowIds(a.deleted + b.deleted) == RowIds(a.deleted) + RowIds(b.deleted)
  {
  }

  lemma RewritesCompose(c0: Cells, a: Changes, c1: Cells, b: Changes, c2: Cells)
    requires Rewrites(c0, a, c1) && Rewrites(c1, b, c2)
    ensures Rewrites(c0, Compose(a, b), c2)
  {
  }

  lemma PassRow(before: Table, d: Diff, after: Table, id: Value)
    requires Faithful(before, d, after) && id !in RowIds(d.inserted) + RowIds(d.deleted)
    requires id in before || id in after || id in UpdateIds(d.updated)
    ensures id in before && id in after && Rewrites(before[id], Fields(d.updated, id), after[id])
  {
    assert id in before && id in after by {
      if id in UpdateIds(d.updated) {
        var u :| u in d.updated && u.id == id;
      }
    }
    FieldsFit(before, d.updated, after, id);
  }

  /** A row inserted and then deleted would be deleted twice, or deleted without having
      been there. */
  lemma InsertedDeleted(t0: Table, a: Diff, t1: Table, b: Diff, t2: Table, id: Value)
    requires Faithful(t0, a, t1) && Faithful(t1, b, t2)
    requires id in RowIds(a.inserted) && id in RowIds(b.deleted)
    ensures !Faithful(t0, Merged(a, b), t2)
  {
    var m := Merged(a, b);
    var k :| 0 <= k < |b.deleted| && b.deleted[k].id == id;
    assert m.deleted[|a.deleted| + k] == b.deleted[k];
    assert m.deleted[|a.deleted| + k] in m.deleted;
    if id in RowIds(a.deleted) {
      var j :| 0 <= j < |a.deleted| && a.deleted[j].id == id;
      assert m.deleted[j] == a.deleted[j];
      assert !DistinctRows(m.deleted);
    } else {
      assert id !in t0;
    }
  }

  lemma MergedRow(t0: Table, a: Diff, t1: Table, b: Diff, t2: Table, id: Value)
    requires Faithful(t0, a, t1) && Faithful(t1, b, t2) && Apart(a, b)
    requires id in UpdateIds(a.updated) + UpdateIds(b.updated)
    ensures id in t0 && id in t2 && Rewrites(t0[id], Fields(a.updated + b.updated, id), t2[id])
  {
    hide Rewrites;
    FieldsConcat(a.updated, b.updated, id);
    if id in UpdateIds(a.updated) {
      PassRow(t0, a, t1, id);
      PassRow(t1, b, t2, id);
    } else {
      PassRow(t1, b, t2, id);
      PassRow(t0, a, t1, id);
    }
    RewritesCompose(t0[id], Fields(a.updated, id), t1[id], Fields(b.updated, id), t2[id]);
  }

  lemma MergedInserted(t0: Table, a: Diff, t1: Table, b: Diff, t2: Table)
    requires Faithful(t0, a, t1) && Faithful(t1, b, t2) && Apart(a, b)
    ensures forall r :: r in a.inserted + b.inserted ==> r.id in t2 && t2[r.id] == r.cells
    ensures forall id :: id in (RowIds(a.inserted) + RowIds(b.inserted)) - (RowIds(a.deleted) + RowIds(b.deleted)) ==> id !in t0
  {
    forall r | r in a.inserted + b.inserted ensures r.id in t2 && t2[r.id] == r.cells {
      if r in a.inserted {
        assert r.id in RowIds(a.inserted);
      }
    }
  }

  lemma MergedDeleted(t0: Table, a: Diff, t1: Table, b: Diff, t2: Table)
    requires Faithful(t0, a, t1) && Faithful(t1, b, t2) && Apart(a, b)
    ensures forall r :: r in a.deleted + b.deleted ==> r.id in t0 && t0[r.id] == r.cells
    ensures forall id :: id in (RowIds(a.deleted) + RowIds(b.deleted)) - (RowIds(a.inserted) + RowIds(b.inserted)) ==> id !in t2
  {
    forall r | r in a.deleted + b.deleted ensures r.id in t0 && t0[r.id] == r.cells {
      if r in b.deleted {
        assert r.id in RowIds(b.deleted);
      }
    }
  }

  lemma MergedDistinct(t0: Table, a: Diff, t1: Table, b: Diff, t2: Table)
    requires Faithful(t0, a, t1) && Faithful(t1, b, t2) && Apart(a, b)
    ensures DistinctRows(a.inserted + b.inserted) && DistinctRows(a.deleted + b.deleted)
    ensures (UpdateIds(a.updated) + UpdateIds(b.updated))
            !! (RowIds(a.inserted) + RowIds(b.inserted) + RowIds(a.deleted) + RowIds(b.deleted))
  {
    DistinctConcat(a.inserted, b.inserted);
    DistinctConcat(a.deleted, b.deleted);
    hide Rewrites, SameOff;
  }

  lemma MergedOff(t0: Table, a: Diff, t1: Table, b: Diff, t2: Table)
    requires Faithful(t0, a, t1) && Faithful(t1, b, t2)
    ensures SameOff(t0, t2, Touched(Merged(a, b)))
  {
    MergedTouched(a, b);
    assert SameOff(t0, t1, Touched(a)) && SameOff(t1, t2, Touched(b));
    hide Faithful, Touched, Merged;
  }

  lemma MergedTouched(a: Diff, b: Diff)
    ensures Touched(Merged(a, b)) == Touched(a) + Touched(b)
  {
    IdsConcat(a, b);
    hide Coalesce, RowIds, UpdateIds;
  }

  lemma MergedRows(t0: Table, a: Diff, t1: Table, b: Diff, t2: Table)
    requires Faithful(t0, a, t1) && Faithful(t1, b, t2) && Apart(a, b)
    ensures var m := Merged(a, b);
            && DistinctRows(m.inserted) && DistinctRows(m.deleted)
            && UpdateIds(m.updated) !! (RowIds(m.inserted) + RowIds(m.deleted))
            && (forall r :: r in m.deleted ==> r.id in t0 && t0[r.id] == r.cells)
            && (forall r :: r in m.inserted ==> r.id in t2 && t2[r.id] == r.cells)
            && (forall id :: id in RowIds(m.inserted) - RowIds(m.deleted) ==> id !in t0)
            && (forall id :: id in RowIds(m.deleted) - RowIds(m.inserted) ==> id !in t2)
            && SameOff(t0, t2, Touched(m))
  {
    IdsConcat(a, b);
    MergedDistinct(t0, a, t1, b, t2);
    MergedInserted(t0, a, t1, b, t2);
    MergedDeleted(t0, a, t1, b, t2);
    MergedOff(t0, a, t1, b, t2);
    hide Faithful, Apart, Coalesce, SameOff, RowIds, DistinctRows;
  }

  lemma DistinctConcat(a: seq<Row>, b: seq<Row>)
    requires DistinctRows(a) && DistinctRows(b) && RowIds(a) !! RowIds(b)
    ensures DistinctRows(a + b)
  {
    forall i, j | 0 <= i < |a| && 0 <= j < |b| ensures a[i].id != b[j].id {
      assert a[i] in a && b[j] in b;
      assert a[i].id in RowIds(a) && b[j].id in RowIds(b);
    }
  }

  // ------------------------------- update lists that mention a row repeatedly

  function Olds(ch: Changes): Cells {
    map f | f in ch :: ch[f].old_
  }

  function News(ch: Changes): Cells {
    map f | f in ch :: ch[f].new_
  }

  /** The table after making the changes of `us` one after the other. */
  function Play(t: Table, us: seq<RowUpdate>): Table {
    if us == [] then t
    else
      var p := Play(t, us[..|us| - 1]);
      var u := us[|us| - 1];
      if u.id in p then p[u.id := p[u.id] + News(u.changes)] else p
  }

  /** Every entry's old values are what the table holds when its turn comes. */
  ghost predicate Playable(t: Table, us: seq<RowUpdate>) {
    us != [] ==>
      var p := Play(t, us[..|us| - 1]);
      var u := us[|us| - 1];
      && Playable(t, us[..|us| - 1])
      && u.id in p && u.changes.Keys <= p[u.id].Keys
      && forall f :: f in u.changes ==> p[u.id][f] == u.changes[f].old_
  }

  lemma PlayNothing(t: Table)
    ensures Playable(t, []) && Play(t, []) == t
  {
  }

  lemma PlayMore(t: Table, us: seq<RowUpdate>, u: RowUpdate)
    requires Playable(t, us)
    requires u.id in Play(t, us) && u.changes.Keys <= Play(t, us)[u.id].Keys
    requires forall f :: f in u.changes ==> Play(t, us)[u.id][f] == u.changes[f].old_
    ensures Playable(t, us + [u])
    ensures Play(t, us + [u]) == Play(t, us)[u.id := Play(t, us)[u.id] + News(u.changes)]
  {
    assert (us + [u])[..|us|] == us;
  }

  lemma {:induction false} PlayedRow(t: Table, us: seq<RowUpdate>, id: Value)
    requires Playable(t, us)
    ensures id in Play(t, us) <==> id in t
    ensures id in UpdateIds(us) ==> id in t
    ensures id in t ==> Rewrites(t[id], Fields(us, id), Play(t, us)[id])
    decreases |us|
  {
    if us != [] {
      LastEntry(us);
      PlayedRow(t, us[..|us| - 1], id);
    }
  }

  /** Whatever list of updates was made one after the other, the coalesced list is
      a faithful diff, so restoring it undoes them all. */
  lemma CoalescedIsFaithful(schema: Schema, t: Table, us: seq<RowUpdate>)
    requires KeyColumn(schema) && Conforms(schema, t) && Conforms(schema, Play(t, us)) && Playable(t, us)
    ensures Faithful(t, Diff([], [], Coalesce(us)), Play(t, us))
    ensures CanRestore(schema, Play(t, us), Diff([], [], Coalesce(us)))
    ensures forall back, u | Restores(schema, Play(t, us), Diff([], [], Coalesce(us)), back, u) :: back == t
  {
    CoalescedFaithful(t, us);
    hide Faithful, Coalesce, Conforms, CanRestore, Restores, Play, Playable;
    RestoreUndoes(schema, t, Diff([], [], Coalesce(us)), Play(t, us));
  }

  lemma CoalescedFaithful(t: Table, us: seq<RowUpdate>)
    requires Playable(t, us)
    ensures Faithful(t, Diff([], [], Coalesce(us)), Play(t, us))
  {
    hide Play, Playable, Rewrites, SameOff;
    var d := Diff([], [], Coalesce(us));
    var after := Play(t, us);
    forall u | u in d.updated ensures u.id in t && u.id in after && Rewrites(t[u.id], u.changes, after[u.id]) {
      assert u.id in UpdateIds(d.updated);
      PlayedRow(t, us, u.id);
    }
    CoalescedOff(t, us);
  }

  lemma CoalescedOff(t: Table, us: seq<RowUpdate>)
    requires Playable(t, us)
    ensures SameOff(t, Play(t, us), Touched(Diff([], [], Coalesce(us))))
  {
    var after := Play(t, us);
    assert RowIds([]) == {};
    assert Touched(Diff([], [], Coalesce(us))) == UpdateIds(us);
    hide Play, Playable, Rewrites, Coalesce, UpdateIds, Touched;
    forall id | id !in UpdateIds(us) ensures (id in t <==> id in after) && (id in t ==> t[id] == after[id]) {
      PlayedRow(t, us, id);
      NoFields(us, id);
      if id in t {
        RewritesNone(t[id], after[id]);
      }
    }
  }

  lemma RewritesNone(a: Cells, b: Cells)
    requires Rewrites(a, map[], b)
    ensures a == b
  {
  }

  /** The old value each field of a row is set back to when the list is restored
      as it stands: the last entry wins. */
  function LastOlds(us: seq<RowUpdate>, id: Value): Cells {
    if us == [] then map[]
    else
      var front := LastOlds(us[..|us| - 1], id);
      if us[|us| - 1].id == id then front + Olds(us[|us| - 1].changes) else front
  }

  predicate AllOldsTyped(schema: Schema, us: seq<RowUpdate>) {
    forall u :: u in us ==> OldsTyped(schema, u.changes)
  }

  /** The old values are ones the columns hold, as all values read from the table are. */
  predicate OldsTyped(schema: Schema, ch: Changes) {
    forall f :: f in ch ==> TypedCell(schema, f, ch[f].old_)
  }

  /** Writing back the fields that differ writes back all of them. */
  lemma BackIsOlds(schema: Schema, current: Cells, ch: Changes)
    requires ch.Keys <= current.Keys && OldsTyped(schema, ch)
    ensures var back := RevertCells(current, ch);
            && current + Stored(schema, back) == current + Olds(ch)
            && (back == map[] ==> current + Olds(ch) == current)
            && (back != map[] ==> UpdatesRun(schema, back))
  {
    var back := RevertCells(current, ch);
    assert TypedCells(schema, back);
    StoredSame(schema, back);
    hide TypedCell, TypedCells, Stored, Storable;
  }

  /** One raw revert writes the entry's old values over the row, and nothing else. */
  lemma RawRevertOne(schema: Schema, p: Reverted, u: RowUpdate, id: Value)
    requires p.ok && u.id in p.rows && u.changes.Keys <= p.rows[u.id].Keys && OldsTyped(schema, u.changes)
    ensures var v := RevertOne(schema, p, u);
            && v.ok && v.rows.Keys == p.rows.Keys
            && (id in p.rows ==> v.rows[id] == if id == u.id then p.rows[id] + Olds(u.changes) else p.rows[id])
  {
    var current := p.rows[u.id];
    BackIsOlds(schema, current, u.changes);
    hide RevertCells, Stored, Olds, UpdatesRun, RevertEntry, OldsTyped;
  }

  ghost predicate RawReverted(start: Table, vs: seq<RowUpdate>, v: Reverted, id: Value) {
    && v.ok && v.rows.Keys == start.Keys
    && (id in start ==> v.rows[id] == start[id] + LastOlds(vs, id))
  }

  lemma LastOldsMore(front: seq<RowUpdate>, u: RowUpdate, id: Value)
    ensures LastOlds(front + [u], id) == if u.id == id then LastOlds(front, id) + Olds(u.changes) else LastOlds(front, id)
  {
    assert (front + [u])[..|front|] == front;
  }

  lemma OverlayShifts(a: Cells, b: Cells, c: Cells)
    ensures (a + b) + c == a + (b + c)
  {
  }

  lemma RawRevertMore(schema: Schema, start: Table, front: seq<RowUpdate>, u: RowUpdate, p: Reverted, id: Value)
    requires RawReverted(start, front, p, id) && RawReverted(start, front, p, u.id)
    requires u.id in start && u.changes.Keys <= start[u.id].Keys && OldsTyped(schema, u.changes)
    ensures RawReverted(start, front + [u], RevertOne(schema, p, u), id) && RevertOne(schema, p, u).ok
  {
    hide RevertOne, LastOlds, OldsTyped, Olds;
    RawRevertOne(schema, p, u, id);
    LastOldsMore(front, u, id);
    if id == u.id {
      OverlayShifts(start[id], LastOlds(front, id), Olds(u.changes));
    }
  }

  lemma {:induction false} RawRevert(schema: Schema, t: Table, us: seq<RowUpdate>, vs: seq<RowUpdate>, id: Value)
    requires Playable(t, us) && vs <= us && AllOldsTyped(schema, us)
    ensures RawReverted(Play(t, us), vs, Reverts(schema, Play(t, us), vs), id)
    ensures Reverts(schema, Play(t, us), vs).ok
    decreases |vs|
  {
    var start := Play(t, us);
    if vs == [] {
      assert id in start ==> start[id] + map[] == start[id];
    } else {
      var front, u := vs[..|vs| - 1], vs[|vs| - 1];
      assert front + [u] == vs && u == us[|vs| - 1] && u in us;
      KeysKept(t, us, vs);
      hide Playable, Play, RawReverted, OldsTyped, RevertOne;
      RawRevert(schema, t, us, front, id);
      RawRevert(schema, t, us, front, u.id);
      RawRevertMore(schema, start, front, u, Reverts(schema, start, front), id);
    }
  }

  lemma {:induction false} KeysKept(t: Table, us: seq<RowUpdate>, vs: seq<RowUpdate>)
    requires Playable(t, us) && vs != [] && vs <= us
    ensures vs[|vs| - 1].id in Play(t, us) && vs[|vs| - 1].changes.Keys <= Play(t, us)[vs[|vs| - 1].id].Keys
    decreases |us|
  {
    if vs == us {
    } else {
      var front := us[..|us| - 1];
      assert vs <= front;
      KeysKept(t, front, vs);
    }
  }

  lemma {:induction false} LastOldsKeys(t: Table, us: seq<RowUpdate>, vs: seq<RowUpdate>, id: Value)
    requires Playable(t, us) && vs <= us && id in Play(t, us)
    ensures LastOlds(vs, id).Keys <= Play(t, us)[id].Keys
    decreases |vs|
  {
    if vs != [] {
      LastOldsKeys(t, us, vs[..|vs| - 1], id);
      KeysKept(t, us, vs);
    }
  }

  /** For every field of every row, the last entry's old value is the first one's. */
  ghost predicate FirstOldIsLast(us: seq<RowUpdate>) {
    forall id, f, i: nat, j: nat | FirstAt(us, id, f, i) && LastAt(us, id, f, j) ::
      us[i].changes[f].old_ == us[j].changes[f].old_
  }

  lemma {:induction false} LastOldAt(us: seq<RowUpdate>, id: Value, f: string, j: nat)
    requires LastAt(us, id, f, j)
    ensures f in LastOlds(us, id) && LastOlds(us, id)[f] == us[j].changes[f].old_
    decreases |us|
  {
    if j < |us| - 1 {
      LastOldAt(us[..|us| - 1], id, f, j);
    }
  }

  lemma {:induction false} LastOldFrom(us: seq<RowUpdate>, id: Value, f: string) returns (j: nat)
    requires f in LastOlds(us, id)
    ensures LastAt(us, id, f, j)
    decreases |us|
  {
    var n := |us| - 1;
    if us[n].id == id && f in us[n].changes {
      j := n;
    } else {
      j := LastOldFrom(us[..n], id, f);
    }
  }

  /** Restoring an update list as it stands, without coalescing, gives the table
      back exactly when every repeated field ends on the old value it began with. */
  lemma RawRestoreIff(schema: Schema, t: Table, us: seq<RowUpdate>)
    requires Playable(t, us) && AllOldsTyped(schema, us)
    ensures Reverts(schema, Play(t, us), us).ok
    ensures Reverts(schema, Play(t, us), us).rows == t <==> FirstOldIsLast(us)
  {
    hide Playable, Play, Reverts, AllOldsTyped, FirstOldIsLast;
    RawRevert(schema, t, us, us, Null);
    if FirstOldIsLast(us) {
      RawRestoreGood(schema, t, us);
    } else {
      RawRestoreBad(schema, t, us);
    }
  }

  lemma RawRestoreGood(schema: Schema, t: Table, us: seq<RowUpdate>)
    requires Playable(t, us) && FirstOldIsLast(us) && AllOldsTyped(schema, us)
    ensures Reverts(schema, Play(t, us), us).rows == t
  {
    hide Playable, Play, Reverts, AllOldsTyped, FirstOldIsLast;
    var v := Reverts(schema, Play(t, us), us);
    forall id ensures (id in v.rows <==> id in t) && (id in t ==> v.rows[id] == t[id]) {
      RawRow(schema, t, us, id);
    }
  }

  lemma RawRow(schema: Schema, t: Table, us: seq<RowUpdate>, id: Value)
    requires Playable(t, us) && FirstOldIsLast(us) && AllOldsTyped(schema, us)
    ensures var v := Reverts(schema, Play(t, us), us);
            (id in v.rows <==> id in t) && (id in t ==> v.rows[id] == t[id])
  {
    hide Playable, Play, Reverts, AllOldsTyped, FirstOldIsLast;
    var v := Reverts(schema, Play(t, us), us);
    RawRevert(schema, t, us, us, id);
    PlayedRow(t, us, id);
    if id in t {
      LastOldsKeys(t, us, us, id);
      forall f | f in t[id] ensures f in v.rows[id] && v.rows[id][f] == t[id][f] {
        RawField(schema, t, us, id, f);
      }
    }
  }

  lemma RawRestoreBad(schema: Schema, t: Table, us: seq<RowUpdate>)
    requires Playable(t, us) && !FirstOldIsLast(us) && AllOldsTyped(schema, us)
    ensures Reverts(schema, Play(t, us), us).rows != t
  {
    hide Playable, Play, Reverts, AllOldsTyped;
    var id, f, i: nat, j: nat :| FirstAt(us, id, f, i) && LastAt(us, id, f, j)
      && us[i].changes[f].old_ != us[j].changes[f].old_;
    RawRevert(schema, t, us, us, id);
    assert us[i] in us && id in UpdateIds(us);
    PlayedRow(t, us, id);
    LastOldAt(us, id, f, j);
    var i', j' := MergedField(us, id, f);
    assert i' == i;
  }

  lemma RawField(schema: Schema, t: Table, us: seq<RowUpdate>, id: Value, f: string)
    requires Playable(t, us) && FirstOldIsLast(us) && AllOldsTyped(schema, us) && id in t && f in t[id]
    ensures var v := Reverts(schema, Play(t, us), us);
            id in v.rows && f in v.rows[id] && v.rows[id][f] == t[id][f]
  {
    hide Playable, Play, Reverts, AllOldsTyped;
    RawRevert(schema, t, us, us, id);
    PlayedRow(t, us, id);
    var i, j := MergedField(us, id, f);
    if f in Fields(us, id) {
      LastOldAt(us, id, f, j);
    } else if f in LastOlds(us, id) {
      var k := LastOldFrom(us, id, f);
      assert false;
    }
  }
}
