/** What runs of grouped-code actions keep. */
module BucketRuns {
  import opened Outcomes
  import opened QueryBuilder
  import opened Repositories
  import opened Diffs
  import opened UndoRuns
  import opened Merging
  import opened GroupedCodes

  type Spots = map<Value, Spot>

  function SpotsOf(t: Table): Spots {
    map id | id in t :: SpotOf(t[id])
  }

  function Moved(m: Spots, ids: set<Value>, s: Spot): Spots {
    map id | id in m :: if id in ids then s else m[id]
  }

  predicate GoodSpot(s: Spot) {
    (s.bucket.Null? <==> s.name.Null?) && (s.bucket == MISC_ID ==> s.name == MISC_NAME)
  }

  /** One name per bucket id, no id exactly when no name, and the miscellaneous
      bucket has its own name. */
  ghost predicate OneNameEach(m: Spots) {
    && (forall i, j :: i in m && j in m && m[i].bucket == m[j].bucket ==> m[i].name == m[j].name)
    && (forall i :: i in m ==> GoodSpot(m[i]))
  }

  /** The same over all workspaces' rows at once. */
  ghost predicate Consistent(t: Table) {
    OneNameEach(SpotsOf(t))
  }

  /** When giving `ids` a bucket keeps one name each. */
  ghost predicate GoodMove(m: Spots, ids: set<Value>, s: Spot) {
    ids != {} ==> GoodSpot(s) && forall id :: id in m && id !in ids && m[id].bucket == s.bucket ==> m[id].name == s.name
  }

  lemma MoveIff(m: Spots, ids: set<Value>, s: Spot)
    requires OneNameEach(m) && ids <= m.Keys
    ensures OneNameEach(Moved(m, ids, s)) <==> GoodMove(m, ids, s)
  {
    var m' := Moved(m, ids, s);
    if ids == {} {
      assert m' == m;
    } else {
      var k :| k in ids;
      assert m'[k] == s;
      if OneNameEach(m') {
        forall id | id in m && id !in ids && m[id].bucket == s.bucket ensures m[id].name == s.name {
          assert m'[id].bucket == m'[k].bucket;
        }
      }
    }
  }

  lemma SpotsPlace(t: Table, ids: set<Value>, bucket: Value, name: Value)
    ensures SpotsOf(Place(t, ids, bucket, name)) == Moved(SpotsOf(t), ids, Spot(bucket, name))
  {
  }

  lemma PlaceIff(t: Table, ids: set<Value>, bucket: Value, name: Value)
    requires Consistent(t) && ids <= t.Keys
    ensures Consistent(Place(t, ids, bucket, name)) <==> GoodMove(SpotsOf(t), ids, Spot(bucket, name))
  {
    SpotsPlace(t, ids, bucket, name);
    MoveIff(SpotsOf(t), ids, Spot(bucket, name));
  }

  function LastSpot(spots: seq<Spot>): Spot
    requires spots != []
  {
    spots[|spots| - 1]
  }

  /** The spots RESTORE_STATE gives to rows: where their codes are listed last. */
  ghost function GivenSpots(t: Table, ws: string, payload: seq<BucketData>): set<Spot> {
    set id | id in t && RowListings(t[id], ws, payload) != [] :: LastSpot(RowListings(t[id], ws, payload))
  }

  /** The given spots are good, agree with each other, and with other workspaces. */
  ghost predicate SpotsAgree(t: Table, ws: string, payload: seq<BucketData>) {
    forall s :: s in GivenSpots(t, ws, payload) ==>
      && GoodSpot(s)
      && (forall r :: r in GivenSpots(t, ws, payload) && r.bucket == s.bucket ==> r.name == s.name)
      && (forall id :: id in t && Ctx(t[id]) != Text(ws) && Bucket(t[id]) == s.bucket ==> Name(t[id]) == s.name)
  }

  /** The guard of each action but the restore of a diff: a move's target exists or is null, an added id is
      new, a rename is not of the null bucket, not to null, not of the
      miscellaneous bucket and not of an id other workspaces use under another
      name; the spots a payload gives to rows agree. */
  ghost predicate Guard(t: Table, ws: string, a: Action) {
    match a
    case AddBucket(_, b) =>
      Text(b) != MISC_ID && forall id :: id in t && Bucket(t[id]) == Text(b) ==> Name(t[id]) == NEW_BUCKET
    case DeleteBucket(_) => true
    case MoveCode(code, target) =>
      WithCode(t, ws, code) == {} || target.Null? || exists id :: id in t && Bucket(t[id]) == target
    case MoveUnplacedToMisc => true
    case UpdateBucketName(b, name) =>
      InBucket(t, ws, b) != {} ==>
        && (b.Null? <==> name.Null?) && (b == MISC_ID ==> name == MISC_NAME)
        && (forall id :: id in t && Ctx(t[id]) != Text(ws) && Bucket(t[id]) == b ==> Name(t[id]) == name)
    case RestoreState(payload) => SpotsAgree(t, ws, payload)
    case Restore(_) => false
  }

  lemma SpotsRename(t: Table, ws: string, b: Value, name: Value)
    ensures SpotsOf(Overwrite(t, InBucket(t, ws, b), map["higher_level_code" := name]))
            == Moved(SpotsOf(t), InBucket(t, ws, b), Spot(b, name))
  {
  }

  lemma AddSpotIff(m: Spots, k: Value, s: Spot)
    requires OneNameEach(m) && k !in m
    ensures OneNameEach(m[k := s]) <==> GoodSpot(s) && forall j :: j in m && m[j].bucket == s.bucket ==> m[j].name == s.name
  {
    var m' := m[k := s];
    assert m'[k] == s;
    if OneNameEach(m') {
      forall j | j in m && m[j].bucket == s.bucket ensures m[j].name == s.name {
        assert m'[j].bucket == m'[k].bucket;
      }
    }
  }

  lemma AddIff(t: Table, ws: string, rowId: Value, b: string, t': Table)
    requires Consistent(t) && Outcome(t, ws, AddBucket(rowId, b), t')
    ensures Consistent(t') <==> Guard(t, ws, AddBucket(rowId, b))
  {
    var m := SpotsOf(t);
    hide OneNameEach;
    AddSpotIff(m, rowId, Spot(Text(b), NEW_BUCKET));
    assert SpotsOf(t') == m[rowId := Spot(Text(b), NEW_BUCKET)];
    assert forall id :: id in t ==> m[id] == Spot(Bucket(t[id]), Name(t[id]));
  }

  lemma DeleteIff(t: Table, ws: string, b: string)
    requires Consistent(t)
    ensures Consistent(Place(t, InBucket(t, ws, Text(b)), Null, Null))
  {
    PlaceIff(t, InBucket(t, ws, Text(b)), Null, Null);
    assert forall id :: id in t ==> GoodSpot(SpotsOf(t)[id]);
  }

  lemma MiscIff(t: Table, ws: string)
    requires Consistent(t)
    ensures Consistent(Place(t, Unplaced(t, ws), MISC_ID, MISC_NAME))
  {
    PlaceIff(t, Unplaced(t, ws), MISC_ID, MISC_NAME);
    assert forall id :: id in t ==> GoodSpot(SpotsOf(t)[id]);
  }

  lemma RenameIff(t: Table, ws: string, b: Value, name: Value)
    requires Consistent(t)
    ensures Consistent(Overwrite(t, InBucket(t, ws, b), map["higher_level_code" := name])) <==>
            Guard(t, ws, UpdateBucketName(b, name))
  {
    SpotsRename(t, ws, b, name);
    MoveIff(SpotsOf(t), InBucket(t, ws, b), Spot(b, name));
    assert forall id :: id in t ==> SpotsOf(t)[id] == Spot(Bucket(t[id]), Name(t[id]));
  }

  /** Every action but the restore of a diff keeps consistency exactly when its guard holds. */
  lemma StepIff(t: Table, ws: string, a: Action, t': Table)
    requires Consistent(t) && Outcome(t, ws, a, t') && !a.Restore?
    ensures Consistent(t') <==> Guard(t, ws, a)
  {
    hide Consistent, Overwrite, Restored, SpotsAgree;
    match a
    case RestoreState(payload) => RestoredIff(t, ws, payload);
    case AddBucket(rowId, b) => AddIff(t, ws, rowId, b, t');
    case DeleteBucket(b) => DeleteIff(t, ws, b);
    case MoveCode(code, target) => MoveCodeIff(t, ws, code, target, t');
    case MoveUnplacedToMisc => MiscIff(t, ws);
    case UpdateBucketName(b, name) => RenameIff(t, ws, b, name);
  }

  lemma MoveCodeIff(t: Table, ws: string, code: Value, target: Value, t': Table)
    requires Consistent(t) && Outcome(t, ws, MoveCode(code, target), t')
    ensures Consistent(t') <==> Guard(t, ws, MoveCode(code, target))
  {
    var name :| TargetName(t, target, name) && t' == Place(t, WithCode(t, ws, code), target, name);
    PlaceIff(t, WithCode(t, ws, code), target, name);
    hide Consistent, Place;
    TargetGood(t, ws, code, target, name);
  }

  /** The name looked up for an existing target is the one its rows repeat. */
  lemma TargetGood(t: Table, ws: string, code: Value, target: Value, name: Value)
    requires Consistent(t) && TargetName(t, target, name)
    ensures GoodMove(SpotsOf(t), WithCode(t, ws, code), Spot(target, name)) <==> Guard(t, ws, MoveCode(code, target))
  {
    var m := SpotsOf(t);
    assert forall id :: id in t ==> GoodSpot(m[id]) && m[id] == SpotOf(t[id]);
    if id :| id in t && Bucket(t[id]) == target && Name(t[id]) == name {
      assert m[id] == Spot(target, name);
    }
    hide WithCode;
  }

  // --------------------------------------------------------------- RESTORE_STATE

  /** Where RESTORE_STATE leaves a row: where its code is listed last, or nowhere. */
  function RestoredSpot(c: Cells, ws: string, bs: seq<BucketData>): Spot {
    var spots := RowListings(c, ws, bs);
    if Ctx(c) != Text(ws) then SpotOf(c)
    else if spots == [] then Spot(Null, Null) else LastSpot(spots)
  }

  lemma RestoredRow(t: Table, ws: string, bs: seq<BucketData>, id: Value)
    requires id in t
    ensures id in Restored(t, ws, bs) && SpotOf(Restored(t, ws, bs)[id]) == RestoredSpot(t[id], ws, bs)
  {
    hide Restored, RowListings;
    RestoredAt(t, ws, bs, id);
    OtherUnlisted(t[id], ws, bs);
  }

  lemma OtherUnlisted(c: Cells, ws: string, bs: seq<BucketData>)
    ensures RowListings(c, ws, bs) != [] ==> Ctx(c) == Text(ws)
  {
  }

  lemma RestoredKeys(t: Table, ws: string, bs: seq<BucketData>)
    ensures Restored(t, ws, bs).Keys == t.Keys
  {
    BucketsKeys(Cleared(t, ws), ws, bs);
  }

  lemma RestoredSpots(t: Table, ws: string, bs: seq<BucketData>)
    ensures SpotsOf(Restored(t, ws, bs)) == map id | id in t :: RestoredSpot(t[id], ws, bs)
  {
    RestoredKeys(t, ws, bs);
    hide Restored, RestoredSpot, SpotOf;
    forall id | id in t ensures SpotOf(Restored(t, ws, bs)[id]) == RestoredSpot(t[id], ws, bs) {
      RestoredRow(t, ws, bs, id);
    }
  }

  /** RESTORE_STATE keeps consistency exactly when the spots it gives agree. */
  lemma RestoredIff(t: Table, ws: string, payload: seq<BucketData>)
    requires Consistent(t)
    ensures Consistent(Restored(t, ws, payload)) <==> SpotsAgree(t, ws, payload)
  {
    hide Restored, RowListings, OneNameEach;
    RestoredSpots(t, ws, payload);
    var m := SpotsOf(Restored(t, ws, payload));
    if SpotsAgree(t, ws, payload) {
      AgreeingSpots(t, ws, payload, m);
    }
    if OneNameEach(m) {
      SpotsThenAgree(t, ws, payload, m);
    }
  }

  /** A spot after RESTORE_STATE is given, empty, or that of a row of another workspace. */
  ghost predicate FoundAt(t: Table, ws: string, payload: seq<BucketData>, id: Value, s: Spot) {
    s in GivenSpots(t, ws, payload) || s == Spot(Null, Null)
    || (id in t && Ctx(t[id]) != Text(ws) && s == SpotOf(t[id]))
  }

  lemma RestoredFound(t: Table, ws: string, payload: seq<BucketData>, id: Value)
    requires id in t
    ensures FoundAt(t, ws, payload, id, RestoredSpot(t[id], ws, payload))
  {
    OtherUnlisted(t[id], ws, payload);
    hide RowListings;
  }

  lemma FoundAgree(t: Table, ws: string, payload: seq<BucketData>, i: Value, j: Value, r: Spot, s: Spot)
    requires Consistent(t) && SpotsAgree(t, ws, payload)
    requires FoundAt(t, ws, payload, i, r) && FoundAt(t, ws, payload, j, s)
    ensures GoodSpot(r) && (r.bucket == s.bucket ==> r.name == s.name)
  {
    var m := SpotsOf(t);
    assert i in t ==> m[i] == SpotOf(t[i]);
    assert j in t ==> m[j] == SpotOf(t[j]);
    hide GivenSpots;
  }

  lemma AgreeingSpots(t: Table, ws: string, payload: seq<BucketData>, m: Spots)
    requires Consistent(t) && SpotsAgree(t, ws, payload)
    requires m == map id | id in t :: RestoredSpot(t[id], ws, payload)
    ensures OneNameEach(m)
  {
    hide Consistent, SpotsAgree, RestoredSpot, FoundAt, GoodSpot;
    forall i, j | i in m && j in m
      ensures GoodSpot(m[i]) && (m[i].bucket == m[j].bucket ==> m[i].name == m[j].name)
    {
      RestoredFound(t, ws, payload, i);
      RestoredFound(t, ws, payload, j);
      FoundAgree(t, ws, payload, i, j, m[i], m[j]);
    }
  }

  lemma SpotsThenAgree(t: Table, ws: string, payload: seq<BucketData>, m: Spots)
    requires m == (map id | id in t :: RestoredSpot(t[id], ws, payload)) && OneNameEach(m)
    ensures SpotsAgree(t, ws, payload)
  {
    hide RowListings;
    forall s | s in GivenSpots(t, ws, payload) ensures exists i :: i in m && m[i] == s {
      var i :| i in t && RowListings(t[i], ws, payload) != [] && s == LastSpot(RowListings(t[i], ws, payload));
      OtherUnlisted(t[i], ws, payload);
      assert m[i] == s;
    }
    forall id | id in t && Ctx(t[id]) != Text(ws) ensures m[id] == SpotOf(t[id]) {
    }
    hide GivenSpots, RestoredSpot;
  }

  /** A payload is good when it names an id once, gives null ids no name, keeps the
      miscellaneous name, and agrees with the other workspaces. */
  ghost predicate PayloadGood(t: Table, ws: string, payload: seq<BucketData>) {
    && (forall b :: b in payload && !b.id.Null? ==>
          !b.name.Null? && (b.id == MISC_ID ==> b.name == MISC_NAME)
          && forall id :: id in t && Ctx(t[id]) != Text(ws) && Bucket(t[id]) == b.id ==> Name(t[id]) == b.name)
    && (forall b, c :: b in payload && c in payload && !b.id.Null? && b.id == c.id ==> b.name == c.name)
  }

  lemma {:induction false} SpotOfCode(b: BucketData, n: nat, code: string, s: Spot)
    requires n <= |b.codes| && s in CodeSpots(b, n, code)
    ensures s == Spot(b.id, b.name) && code in b.codes
    decreases n
  {
    if s in CodeSpots(b, n - 1, code) {
      SpotOfCode(b, n - 1, code, s);
    }
  }

  /** A listed spot is that of a payload bucket with an id that lists the code. */
  lemma {:induction false} SpotFrom(bs: seq<BucketData>, code: string, s: Spot) returns (b: BucketData)
    requires s in Listings(bs, code)
    ensures b in bs && !b.id.Null? && s == Spot(b.id, b.name) && code in b.codes
    decreases |bs|
  {
    b := bs[|bs| - 1];
    if s in Listings(bs[..|bs| - 1], code) {
      b := SpotFrom(bs[..|bs| - 1], code, s);
    } else {
      SpotOfCode(b, |b.codes|, code, s);
    }
  }

  /** A good payload keeps consistency, whatever rows and codes there are. */
  lemma BucketsKeep(t: Table, ws: string, payload: seq<BucketData>)
    requires Consistent(t) && PayloadGood(t, ws, payload)
    ensures Consistent(Restored(t, ws, payload))
  {
    forall s | s in GivenSpots(t, ws, payload)
      ensures exists b :: b in payload && !b.id.Null? && s == Spot(b.id, b.name)
    {
      var id :| id in t && RowListings(t[id], ws, payload) != [] && s == LastSpot(RowListings(t[id], ws, payload));
      var b := SpotFrom(payload, Code(t[id]).s, s);
    }
    hide GivenSpots, Consistent, Restored;
    RestoredIff(t, ws, payload);
  }

  // ------------------------------------------------------------------------ runs

  /** The code each row holds. */
  function Codes(t: Table): map<Value, Value> {
    map id | id in t :: Code(t[id])
  }

  lemma OverwriteCodes(t: Table, ids: set<Value>, news: Cells)
    requires "code" !in news
    ensures Codes(Overwrite(t, ids, news)) == Codes(t)
  {
  }

  lemma AddCodes(t: Table, ws: string, rowId: Value, b: string, t': Table)
    requires Outcome(t, ws, AddBucket(rowId, b), t')
    ensures Codes(t') == Codes(t)[rowId := Null]
  {
    assert Code(t'[rowId]) == Null;
  }

  lemma RestoredCodes(t: Table, ws: string, payload: seq<BucketData>)
    ensures Codes(Restored(t, ws, payload)) == Codes(t)
  {
    RestoredKeys(t, ws, payload);
    hide Restored;
    forall id | id in t ensures Code(Restored(t, ws, payload)[id]) == Code(t[id]) {
      RestoredAt(t, ws, payload, id);
    }
  }

  /** No action but the restore of a diff changes which code a row holds; adding a
      bucket adds one row without a code. */
  lemma StepCodes(t: Table, ws: string, a: Action, t': Table)
    requires Outcome(t, ws, a, t') && !a.Restore?
    ensures Codes(t') == if a.AddBucket? then Codes(t)[a.rowId := Null] else Codes(t)
  {
    hide Codes, Overwrite, Restored;
    match a
    case RestoreState(payload) => RestoredCodes(t, ws, payload);
    case AddBucket(rowId, b) => AddCodes(t, ws, rowId, b, t');
    case DeleteBucket(b) => OverwriteCodes(t, InBucket(t, ws, Text(b)), Placement(Null, Null));
    case MoveCode(code, target) =>
      var name :| TargetName(t, target, name) && t' == Place(t, WithCode(t, ws, code), target, name);
      OverwriteCodes(t, WithCode(t, ws, code), Placement(target, name));
    case MoveUnplacedToMisc => OverwriteCodes(t, Unplaced(t, ws), Placement(MISC_ID, MISC_NAME));
    case UpdateBucketName(b, name) => OverwriteCodes(t, InBucket(t, ws, b), map["higher_level_code" := name]);
  }

  datatype Step = Step(ws: string, action: Action)

  /** Step `k` is guarded, or restores a diff that leads back to a table the run has
      been through: an undo or a redo. */
  ghost predicate StepFits(tables: seq<Table>, k: nat, s: Step)
    requires k < |tables|
  {
    if s.action.Restore?
    then exists j :: 0 <= j <= k && Faithful(tables[j], s.action.diff, tables[k])
    else Guard(tables[k], s.ws, s.action)
  }

  ghost predicate IsRun(tables: seq<Table>, steps: seq<Step>) {
    && |tables| == |steps| + 1
    && (forall k :: 0 <= k < |tables| ==> Conforms(GROUP_SCHEMA, tables[k]))
    && forall k :: 0 <= k < |steps| ==>
         StepFits(tables, k, steps[k]) && Outcome(tables[k], steps[k].ws, steps[k].action, tables[k + 1])
  }

  function AddedRows(steps: seq<Step>): set<Value> {
    set s | s in steps && s.action.AddBucket? :: s.action.rowId
  }

  /** The rows of `t` are still there with their codes; the others are added and have none. */
  ghost predicate CodesKept(t: Table, now: Table, added: set<Value>) {
    && t.Keys <= now.Keys <= t.Keys + added
    && forall id :: id in now ==> Code(now[id]) == if id in t then Code(t[id]) else Null
  }

  lemma KeptOn(t: Table, now: Table, next: Table, added: set<Value>)
    requires CodesKept(t, now, added)
    requires Codes(next) == Codes(now) || exists id :: id in added && id !in now && Codes(next) == Codes(now)[id := Null]
    ensures CodesKept(t, next, added)
  {
    assert Codes(next).Keys == next.Keys && Codes(now).Keys == now.Keys;
    forall id | id in next ensures Code(next[id]) == if id in t then Code(t[id]) else Null {
      assert Codes(next)[id] == Code(next[id]);
      if id in now {
        assert Codes(now)[id] == Code(now[id]);
      }
    }
  }

  lemma StepKeeps(t0: Table, t: Table, s: Step, t': Table, added: set<Value>)
    requires Guard(t, s.ws, s.action) && Outcome(t, s.ws, s.action, t') && Consistent(t) && CodesKept(t0, t, added)
    requires s.action.AddBucket? ==> s.action.rowId in added
    ensures Consistent(t') && CodesKept(t0, t', added)
  {
    assert !s.action.Restore?;
    StepIff(t, s.ws, s.action, t');
    StepCodes(t, s.ws, s.action, t');
    assert s.action.AddBucket? ==> s.action.rowId !in t;
    hide Guard, Outcome, Consistent, Codes, CodesKept;
    KeptOn(t0, t, t', added);
  }

  lemma RunStep(tables: seq<Table>, steps: seq<Step>, k: nat)
    requires IsRun(tables, steps) && k < |steps|
    ensures StepFits(tables, k, steps[k]) && Outcome(tables[k], steps[k].ws, steps[k].action, tables[k + 1])
    ensures forall j :: 0 <= j <= k ==> Conforms(GROUP_SCHEMA, tables[j])
  {
  }

  /** At table `k` the buckets are consistent, and each row has the code it began with. */
  ghost predicate KeptAt(tables: seq<Table>, steps: seq<Step>, k: nat)
    requires k < |tables|
  {
    Consistent(tables[k]) && CodesKept(tables[0], tables[k], AddedRows(steps))
  }

  lemma UndoKeeps(tables: seq<Table>, steps: seq<Step>, k: nat)
    requires IsRun(tables, steps) && k < |steps| && steps[k].action.Restore?
    requires forall j :: 0 <= j <= k ==> KeptAt(tables, steps, j)
    ensures KeptAt(tables, steps, k + 1)
  {
    RunStep(tables, steps, k);
    hide IsRun, Outcome, KeptAt, Faithful, Conforms;
    var j :| 0 <= j <= k && Faithful(tables[j], steps[k].action.diff, tables[k]);
    UndoneTable(tables[j], steps[k].action.diff, tables[k], steps[k].ws, tables[k + 1]);
    SameKept(tables, steps, j, k + 1);
  }

  lemma SameKept(tables: seq<Table>, steps: seq<Step>, j: nat, k: nat)
    requires j < |tables| && k < |tables| && tables[j] == tables[k] && KeptAt(tables, steps, j)
    ensures KeptAt(tables, steps, k)
  {
  }

  lemma ActionKeeps(tables: seq<Table>, steps: seq<Step>, k: nat)
    requires IsRun(tables, steps) && k < |steps| && !steps[k].action.Restore? && KeptAt(tables, steps, k)
    ensures KeptAt(tables, steps, k + 1)
  {
    RunStep(tables, steps, k);
    var s := steps[k];
    assert s in steps;
    assert s.action.AddBucket? ==> s.action.rowId in AddedRows(steps);
    hide IsRun, Guard, Outcome, Consistent, CodesKept, Conforms, Faithful, AddedRows;
    StepKeeps(tables[0], tables[k], s, tables[k + 1], AddedRows(steps));
  }

  lemma StartKept(tables: seq<Table>, steps: seq<Step>)
    requires tables != [] && Consistent(tables[0])
    ensures KeptAt(tables, steps, 0)
  {
  }

  lemma {:induction false} RunsKept(tables: seq<Table>, steps: seq<Step>, k: nat)
    requires |tables| == |steps| + 1 && k <= |steps|
    requires IsRun(tables, steps) && Consistent(tables[0])
    ensures forall j :: 0 <= j <= k ==> KeptAt(tables, steps, j)
    decreases k
  {
    hide IsRun, Consistent, KeptAt;
    if k == 0 {
      StartKept(tables, steps);
    } else {
      RunsKept(tables, steps, k - 1);
      if steps[k - 1].action.Restore? {
        UndoKeeps(tables, steps, k - 1);
      } else {
        ActionKeeps(tables, steps, k - 1);
      }
    }
  }

  /** Every run of guarded actions, undos and redos, in any mix of workspaces, keeps
      one name per bucket id at every table, and leaves each row its code; the only
      other rows are the empty ones of added buckets. */
  lemma RunsKeepBuckets(tables: seq<Table>, steps: seq<Step>, k: nat)
    requires IsRun(tables, steps) && Consistent(tables[0]) && k <= |steps|
    ensures Consistent(tables[k]) && CodesKept(tables[0], tables[k], AddedRows(steps))
  {
    RunsKept(tables, steps, k);
    assert KeptAt(tables, steps, k);
    hide IsRun, Consistent, CodesKept, AddedRows;
  }

  lemma UndoneTable(before: Table, d: Diff, now: Table, ws: string, next: Table)
    requires Conforms(GROUP_SCHEMA, before) && Conforms(GROUP_SCHEMA, now)
    requires Faithful(before, d, now) && Outcome(now, ws, Restore(d), next)
    ensures next == before
  {
    hide Faithful, Conforms, AfterRestore, CanRestore;
    RestoreUndoes(GROUP_SCHEMA, before, d, now);
  }
}
