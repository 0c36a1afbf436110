/** `process_grouped_codes_action`: codes are rows, a bucket is a pair of id and
    name repeated on each of its rows. */
module GroupedCodes {
  import opened Outcomes
  import opened QueryBuilder
  import opened Repositories
  import opened Diffs
  import opened UndoRuns
  import opened TableActions
  import opened Merging

  const GROUP_SCHEMA: Schema := map[
    "id" := ColumnType(NumColumn, false),
    "coding_context_id" := ColumnType(TextColumn, false),
    "code" := ColumnType(TextColumn, true),
    "higher_level_code" := ColumnType(TextColumn, true),
    "higher_level_code_id" := ColumnType(TextColumn, true)]

  const MISC_ID := Text("miscellaneous")
  const MISC_NAME := Text("Miscellaneous")
  const NEW_BUCKET := Text("New Bucket")

  function Ctx(c: Cells): Value { At(c, "coding_context_id") }
  function Code(c: Cells): Value { At(c, "code") }
  function Name(c: Cells): Value { At(c, "higher_level_code") }
  function Bucket(c: Cells): Value { At(c, "higher_level_code_id") }

  datatype BucketData = BucketData(id: Value, name: Value, codes: seq<string>)

  datatype Action =
    | AddBucket(rowId: Value, bucketId: string)
    | DeleteBucket(bucketId: string)
    | MoveCode(code: Value, target: Value)
    | MoveUnplacedToMisc
    | UpdateBucketName(bucket: Value, newName: Value)
    | RestoreState(payload: seq<BucketData>)
    | Restore(diff: Diff)

  // ------------------------------------------------------------ the rows addressed

  function InContext(t: Table, ws: string): set<Value> {
    set id | id in t && Ctx(t[id]) == Text(ws)
  }

  function InBucket(t: Table, ws: string, bucket: Value): set<Value> {
    set id | id in t && Ctx(t[id]) == Text(ws) && Bucket(t[id]) == bucket
  }

  function WithCode(t: Table, ws: string, code: Value): set<Value> {
    set id | id in t && Ctx(t[id]) == Text(ws) && Code(t[id]) == code
  }

  function Unplaced(t: Table, ws: string): set<Value> {
    set id | id in t && Ctx(t[id]) == Text(ws) && Bucket(t[id]).Null? && Name(t[id]).Null?
  }

  function ContextFilter(ws: string): FilterMap {
    [Equals("coding_context_id", Text(ws))]
  }

  function BucketFilter(ws: string, bucket: Value): FilterMap {
    ContextFilter(ws) + [Equals("higher_level_code_id", bucket)]
  }

  function CodeFilter(ws: string, code: Value): FilterMap {
    ContextFilter(ws) + [Equals("code", code)]
  }

  function UnplacedFilter(ws: string): FilterMap {
    ContextFilter(ws) + [Equals("higher_level_code_id", Null), Equals("higher_level_code", Null)]
  }

  predicate TextOrNull(v: Value) {
    !v.Num?
  }

  predicate EqualsAll(f: FilterMap) {
    forall i :: 0 <= i < |f| ==>
      f[i].0 in GROUP_SCHEMA && f[i].0 != "id" && f[i].1.Plain? && f[i].1.operand.One? && TextOrNull(f[i].1.operand.v)
  }

  lemma EqualsRun(f: FilterMap)
    requires EqualsAll(f)
    ensures FilterRuns(GROUP_SCHEMA, f)
  {
    FilterRunsIff(GROUP_SCHEMA, f);
    hide FilterRuns, EntryRuns;
    forall i | 0 <= i < |f| ensures EntryRuns(GROUP_SCHEMA, f[i]) {
      EqualsRuns(GROUP_SCHEMA, f[i].0, f[i].1.operand.v);
      assert f[i] == Equals(f[i].0, f[i].1.operand.v);
    }
  }

  /** A number where a text is asked for makes the filter raise. */
  lemma NumberStops(ws: string, v: Value)
    requires v.Num?
    ensures !FilterRuns(GROUP_SCHEMA, BucketFilter(ws, v)) && !FilterRuns(GROUP_SCHEMA, CodeFilter(ws, v))
  {
    EqualsRuns(GROUP_SCHEMA, "higher_level_code_id", v);
    EqualsRuns(GROUP_SCHEMA, "code", v);
    hide FilterRuns, EntryRuns;
    FilterMore(GROUP_SCHEMA, ContextFilter(ws), Equals("higher_level_code_id", v));
    FilterMore(GROUP_SCHEMA, ContextFilter(ws), Equals("code", v));
  }

  /** Equality filters select the rows whose cells equal the given values, null included. */
  lemma EqualsSelect(t: Table, f: FilterMap, id: Value)
    requires EqualsAll(f) && id in t
    ensures id in Selected(GROUP_SCHEMA, t, f) <==>
            forall i :: 0 <= i < |f| ==> At(t[id], f[i].0) == f[i].1.operand.v
  {
    var conds := Conditions(f);
    var cells := View(id, t[id]);
    forall i | 0 <= i < |f|
      ensures conds[i].column in GROUP_SCHEMA
      ensures Meets(GROUP_SCHEMA[conds[i].column], conds[i], At(cells, conds[i].column)) <==>
              At(t[id], f[i].0) == f[i].1.operand.v
    {
      assert conds[i] == AsCondition(f[i]);
    }
    assert Matches(GROUP_SCHEMA, conds, cells) <==> forall i :: 0 <= i < |f| ==> At(t[id], f[i].0) == f[i].1.operand.v;
  }

  lemma FiltersSelect(t: Table, ws: string, v: Value)
    requires TextOrNull(v)
    ensures EqualsAll(ContextFilter(ws)) && EqualsAll(BucketFilter(ws, v)) && EqualsAll(CodeFilter(ws, v)) && EqualsAll(UnplacedFilter(ws))
    ensures Selected(GROUP_SCHEMA, t, ContextFilter(ws)) == InContext(t, ws)
    ensures Selected(GROUP_SCHEMA, t, BucketFilter(ws, v)) == InBucket(t, ws, v)
    ensures Selected(GROUP_SCHEMA, t, CodeFilter(ws, v)) == WithCode(t, ws, v)
    ensures Selected(GROUP_SCHEMA, t, UnplacedFilter(ws)) == Unplaced(t, ws)
  {
    forall id | id in t
      ensures id in Selected(GROUP_SCHEMA, t, ContextFilter(ws)) <==> id in InContext(t, ws)
      ensures id in Selected(GROUP_SCHEMA, t, BucketFilter(ws, v)) <==> id in InBucket(t, ws, v)
      ensures id in Selected(GROUP_SCHEMA, t, CodeFilter(ws, v)) <==> id in WithCode(t, ws, v)
      ensures id in Selected(GROUP_SCHEMA, t, UnplacedFilter(ws)) <==> id in Unplaced(t, ws)
    {
      ConditionsOn(t, ws, v, id);
    }
  }

  lemma EqualsAllFilters(ws: string, v: Value)
    requires TextOrNull(v)
    ensures EqualsAll(ContextFilter(ws)) && EqualsAll(BucketFilter(ws, v)) && EqualsAll(CodeFilter(ws, v)) && EqualsAll(UnplacedFilter(ws))
  {
  }

  lemma ConditionsOn(t: Table, ws: string, v: Value, id: Value)
    requires TextOrNull(v) && id in t
    ensures id in Selected(GROUP_SCHEMA, t, ContextFilter(ws)) <==> id in InContext(t, ws)
    ensures id in Selected(GROUP_SCHEMA, t, BucketFilter(ws, v)) <==> id in InBucket(t, ws, v)
    ensures id in Selected(GROUP_SCHEMA, t, CodeFilter(ws, v)) <==> id in WithCode(t, ws, v)
    ensures id in Selected(GROUP_SCHEMA, t, UnplacedFilter(ws)) <==> id in Unplaced(t, ws)
  {
    var a, b, c, d := ContextFilter(ws), BucketFilter(ws, v), CodeFilter(ws, v), UnplacedFilter(ws);
    hide Selected, EqualsAll;
    EqualsAllFilters(ws, v);
    EqualsSelect(t, a, id);
    EqualsSelect(t, b, id);
    EqualsSelect(t, c, id);
    EqualsSelect(t, d, id);
    assert a[0].0 == "coding_context_id" && b[0] == a[0] && c[0] == a[0] && d[0] == a[0];
    assert b[1] == Equals("higher_level_code_id", v) && c[1] == Equals("code", v);
    assert d[1] == Equals("higher_level_code_id", Null) && d[2] == Equals("higher_level_code", Null);
  }

  // ------------------------------------------------------------ what actions do

  function Placement(bucket: Value, name: Value): Cells {
    map["higher_level_code" := name, "higher_level_code_id" := bucket]
  }

  function Place(t: Table, ids: set<Value>, bucket: Value, name: Value): Table {
    Overwrite(t, ids, Placement(bucket, name))
  }

  /** The name MOVE_CODE finds for its target: that of some row carrying the id, in
      any workspace, or null when there is none. */
  ghost predicate TargetName(t: Table, target: Value, name: Value) {
    if exists id :: id in t && Bucket(t[id]) == target
    then exists id :: id in t && Bucket(t[id]) == target && Name(t[id]) == name
    else name == Null
  }

  /** The bucket a row is in: its id and the name it repeats. */
  datatype Spot = Spot(bucket: Value, name: Value)

  function SpotOf(c: Cells): Spot {
    Spot(Bucket(c), Name(c))
  }

  /** The first `n` codes of one payload bucket placed, in order. */
  function PlaceCodes(t: Table, ws: string, b: BucketData, n: nat): Table
    requires n <= |b.codes|
  {
    if n == 0 then t
    else
      var front := PlaceCodes(t, ws, b, n - 1);
      Place(front, WithCode(front, ws, Text(b.codes[n - 1])), b.id, b.name)
  }

  /** Payload buckets placed in order; one without an id is skipped. */
  function PlaceBuckets(t: Table, ws: string, bs: seq<BucketData>): Table {
    if bs == [] then t
    else
      var front := PlaceBuckets(t, ws, bs[..|bs| - 1]);
      var b := bs[|bs| - 1];
      if b.id.Null? then front else PlaceCodes(front, ws, b, |b.codes|)
  }

  function Cleared(t: Table, ws: string): Table {
    Place(t, InContext(t, ws), Null, Null)
  }

  ghost predicate Outcome(t: Table, ws: string, a: Action, t': Table) {
    match a
    case AddBucket(rowId, bucket) => rowId !in t && t' == t[rowId := NewRow(ws, bucket)]
    case DeleteBucket(bucket) => t' == Place(t, InBucket(t, ws, Text(bucket)), Null, Null)
    case MoveCode(code, target) =>
      exists name :: TargetName(t, target, name) && t' == Place(t, WithCode(t, ws, code), target, name)
    case MoveUnplacedToMisc => t' == Place(t, Unplaced(t, ws), MISC_ID, MISC_NAME)
    case UpdateBucketName(bucket, name) =>
      t' == Overwrite(t, InBucket(t, ws, bucket), map["higher_level_code" := name])
    case RestoreState(payload) => t' == Restored(t, ws, payload)
    case Restore(d) => CanRestore(GROUP_SCHEMA, t, d) && t' == AfterRestore(GROUP_SCHEMA, t, d).rows
  }

  function NewRow(ws: string, bucket: string): Cells {
    map["coding_context_id" := Text(ws), "code" := Null] + Placement(Text(bucket), NEW_BUCKET)
  }

  /** The table after RESTORE_STATE. */
  function Restored(t: Table, ws: string, bs: seq<BucketData>): Table {
    PlaceBuckets(Cleared(t, ws), ws, bs)
  }

  /** A payload bucket that is skipped, places nothing, or is of the columns' types. */
  predicate Placeable(b: BucketData) {
    b.id.Null? || b.codes == [] || (TextOrNull(b.id) && TextOrNull(b.name))
  }

  /** When an action returns rather than raises. */
  predicate Succeeds(t: Table, a: Action) {
    match a
    case AddBucket(rowId, _) => rowId.Num? && rowId !in t
    case DeleteBucket(bucket) => bucket != ""
    case MoveCode(code, target) => TextOrNull(code) && TextOrNull(target)
    case MoveUnplacedToMisc => true
    case UpdateBucketName(bucket, name) => TextOrNull(bucket) && TextOrNull(name)
    case RestoreState(payload) => payload != [] && forall b :: b in payload ==> Placeable(b)
    case Restore(d) => CanRestore(GROUP_SCHEMA, t, d)
  }

  // ------------------------------------------------- where RESTORE_STATE puts a row

  /** Where the first `n` codes of a bucket put a code, once for each mention. */
  function CodeSpots(b: BucketData, n: nat, code: string): seq<Spot>
    requires n <= |b.codes|
  {
    if n == 0 then []
    else CodeSpots(b, n - 1, code) + if b.codes[n - 1] == code then [Spot(b.id, b.name)] else []
  }

  /** Where the payload puts a code, in order. */
  function Listings(bs: seq<BucketData>, code: string): seq<Spot> {
    if bs == [] then []
    else
      var b := bs[|bs| - 1];
      Listings(bs[..|bs| - 1], code) + if b.id.Null? then [] else CodeSpots(b, |b.codes|, code)
  }

  /** The listings of the row's code, when it has one and is in the workspace. */
  function RowListings(c: Cells, ws: string, bs: seq<BucketData>): seq<Spot> {
    if Ctx(c) == Text(ws) && Code(c).Text? then Listings(bs, Code(c).s) else []
  }

  function PlacedAt(c: Cells, spots: seq<Spot>): Cells {
    if spots == [] then c else c + Placement(spots[|spots| - 1].bucket, spots[|spots| - 1].name)
  }

  lemma {:induction false} CodesPlaced(t: Table, ws: string, b: BucketData, n: nat, id: Value)
    requires n <= |b.codes| && id in t
    ensures var t' := PlaceCodes(t, ws, b, n);
            && id in t'
            && t'[id] == PlacedAt(t[id], if Ctx(t[id]) == Text(ws) && Code(t[id]).Text? then CodeSpots(b, n, Code(t[id]).s) else [])
    decreases n
  {
    if n > 0 {
      CodesPlaced(t, ws, b, n - 1, id);
    }
  }

  lemma PlacedTwice(c: Cells, a: seq<Spot>, b: seq<Spot>)
    ensures PlacedAt(PlacedAt(c, a), b) == PlacedAt(c, a + b)
    ensures Ctx(PlacedAt(c, a)) == Ctx(c) && Code(PlacedAt(c, a)) == Code(c)
  {
  }

  /** A row ends where its code is listed last, or stays where it was. */
  lemma {:induction false} BucketsPlaced(t: Table, ws: string, bs: seq<BucketData>, id: Value)
    requires id in t
    ensures var t' := PlaceBuckets(t, ws, bs);
            id in t' && t'[id] == PlacedAt(t[id], RowListings(t[id], ws, bs))
    decreases |bs|
  {
    if bs == [] {
    } else {
      var front, b := bs[..|bs| - 1], bs[|bs| - 1];
      hide PlacedAt, PlaceCodes, CodeSpots;
      BucketsPlaced(t, ws, front, id);
      PlacedTwice(t[id], RowListings(t[id], ws, front), []);
      assert RowListings(t[id], ws, front) + [] == RowListings(t[id], ws, front);
      if !b.id.Null? {
        CodesPlaced(PlaceBuckets(t, ws, front), ws, b, |b.codes|, id);
        PlacedTwice(t[id], RowListings(t[id], ws, front),
                    if Ctx(t[id]) == Text(ws) && Code(t[id]).Text? then CodeSpots(b, |b.codes|, Code(t[id]).s) else []);
      }
    }
  }

  lemma {:induction false} CodesKeys(t: Table, ws: string, b: BucketData, n: nat)
    requires n <= |b.codes|
    ensures PlaceCodes(t, ws, b, n).Keys == t.Keys
    decreases n
  {
    if n > 0 {
      CodesKeys(t, ws, b, n - 1);
    }
  }

  lemma {:induction false} BucketsKeys(t: Table, ws: string, bs: seq<BucketData>)
    ensures PlaceBuckets(t, ws, bs).Keys == t.Keys
    decreases |bs|
  {
    if bs != [] {
      BucketsKeys(t, ws, bs[..|bs| - 1]);
      var b := bs[|bs| - 1];
      if !b.id.Null? {
        CodesKeys(PlaceBuckets(t, ws, bs[..|bs| - 1]), ws, b, |b.codes|);
      }
    }
  }

  // ---------------------------------------------------------------- the actions

  method Process(repo: Repository, ws: string, a: Action) returns (r: Result<Diff>)
    requires repo.builder.schema == GROUP_SCHEMA && Conforms(GROUP_SCHEMA, repo.rows)
    requires a.Restore? ==> Shaped(GROUP_SCHEMA, a.diff)
    modifies repo`rows, repo.builder
    ensures Conforms(GROUP_SCHEMA, repo.rows)
    ensures r.Ok? <==> Succeeds(old(repo.rows), a)
    ensures r.Ok? ==> Outcome(old(repo.rows), ws, a, repo.rows)
    ensures r.Ok? && !a.RestoreState? && !a.Restore? ==> Faithful(old(repo.rows), r.value, repo.rows)
    ensures r.Ok? && a.RestoreState? ==>
              r.value.inserted == [] && r.value.deleted == [] && RecordedBy(old(repo.rows), ws, a.payload, r.value.updated, repo.rows)
    ensures r.Ok? && a.Restore? ==> Restores(GROUP_SCHEMA, old(repo.rows), a.diff, repo.rows, r.value)
    ensures r.Err? && !a.RestoreState? && !a.Restore? ==> repo.rows == old(repo.rows)
  {
    hide Conforms, FilterRuns, Faithful, Restores, CanRestore, Shaped, AfterRestore, RecordedBy, Restored, Overwrite, Placeable, TextsOrNulls;
    match a {
      case AddBucket(rowId, bucket) =>
        r := InsertBucket(repo, ws, rowId, bucket);
      case DeleteBucket(bucket) =>
        if bucket == "" {
          return Err("bucket id is required");
        }
        TextPlacement(Null, Null);
        r := RewriteBucket(repo, ws, Text(bucket), Placement(Null, Null));
      case MoveCode(code, target) =>
        var name :- LookUpName(repo, target);
        TextPlacement(target, name);
        r := RewriteCode(repo, ws, code, Placement(target, name));
      case MoveUnplacedToMisc =>
        FiltersSelect(repo.rows, ws, Null);
        EqualsRun(UnplacedFilter(ws));
        TextPlacement(MISC_ID, MISC_NAME);
        r := Rewrite(repo, UnplacedFilter(ws), Placement(MISC_ID, MISC_NAME));
      case UpdateBucketName(bucket, name) =>
        TextName(name);
        r := RewriteBucket(repo, ws, bucket, map["higher_level_code" := name]);
      case RestoreState(payload) =>
        if payload == [] {
          return Err("payload is required");
        }
        var us :- PlaceAll(repo, ws, payload);
        RecordedTable(old(repo.rows), ws, payload, us, repo.rows);
        return Ok(Diff([], [], us));
      case Restore(d) =>
        r := RestoreDiff(repo, d);
        if r.Ok? {
          RestoredTable(GROUP_SCHEMA, old(repo.rows), d, repo.rows, r.value);
        }
    }
  }

  lemma RecordedTable(before: Table, ws: string, bs: seq<BucketData>, us: seq<RowUpdate>, now: Table)
    requires RecordedBy(before, ws, bs, us, now)
    ensures now == Restored(before, ws, bs)
  {
  }

  method InsertBucket(repo: Repository, ws: string, rowId: Value, bucket: string) returns (r: Result<Diff>)
    requires repo.builder.schema == GROUP_SCHEMA && Conforms(GROUP_SCHEMA, repo.rows)
    modifies repo`rows
    ensures Conforms(GROUP_SCHEMA, repo.rows)
    ensures r.Ok? <==> rowId.Num? && rowId !in old(repo.rows)
    ensures r.Err? ==> repo.rows == old(repo.rows)
    ensures r.Ok? ==> repo.rows == old(repo.rows)[rowId := NewRow(ws, bucket)] && Faithful(old(repo.rows), r.value, repo.rows)
  {
    OneRefill(repo.rows, ws, rowId, bucket);
    hide Conforms, Faithful, Fits, Replaced, NewRow;
    r := InsertRecorded(repo, [Row(rowId, NewRow(ws, bucket))]);
  }

  lemma OneRefill(t: Table, ws: string, rowId: Value, bucket: string)
    ensures var rows := [Row(rowId, NewRow(ws, bucket))];
            && AllColumns(GROUP_SCHEMA, rows)
            && (Fits(GROUP_SCHEMA, t, {}, rows) <==> rowId.Num? && rowId !in t)
            && Replaced(GROUP_SCHEMA, t, {}, rows) == if rowId.Num? && rowId !in t then t[rowId := NewRow(ws, bucket)] else t
  {
    var row := Row(rowId, NewRow(ws, bucket));
    NewRowTyped(ws, rowId, bucket);
    hide Insertable, Stored, NewRow;
    assert t - {} == t;
    assert [row][..0] == [];
    assert Refills(GROUP_SCHEMA, t, [row][..0]) == Refilled(t, true);
    assert [row][0] in [row];
  }

  lemma NewRowTyped(ws: string, rowId: Value, bucket: string)
    ensures Columns(GROUP_SCHEMA, NewRow(ws, bucket)) && Stored(GROUP_SCHEMA, NewRow(ws, bucket)) == NewRow(ws, bucket)
    ensures Insertable(GROUP_SCHEMA, Row(rowId, NewRow(ws, bucket))) <==> rowId.Num?
  {
    assert TypedCells(GROUP_SCHEMA, NewRow(ws, bucket));
    StoredSame(GROUP_SCHEMA, NewRow(ws, bucket));
    hide Stored, Storable, TypedCells;
  }

  /** The cells written to rows: a name, or a name and an id. */
  predicate Assignable(ups: Cells) {
    "higher_level_code" in ups && ups.Keys <= {"higher_level_code", "higher_level_code_id"}
  }

  predicate TextsOrNulls(ups: Cells) {
    forall f :: f in ups ==> TextOrNull(ups[f])
  }

  lemma TextPlacement(bucket: Value, name: Value)
    ensures TextsOrNulls(Placement(bucket, name)) <==> TextOrNull(bucket) && TextOrNull(name)
  {
    var ups := Placement(bucket, name);
    assert ups["higher_level_code"] == name && ups["higher_level_code_id"] == bucket;
  }

  lemma TextName(name: Value)
    ensures TextsOrNulls(map["higher_level_code" := name]) <==> TextOrNull(name)
  {
    var ups := map["higher_level_code" := name];
    assert ups["higher_level_code"] == name;
  }

  lemma PlaceableIff(b: BucketData)
    requires !b.id.Null?
    ensures Placeable(b) <==> b.codes == [] || TextsOrNulls(Placement(b.id, b.name))
  {
    TextPlacement(b.id, b.name);
  }

  lemma AssignableStored(ups: Cells)
    requires Assignable(ups)
    ensures UpdatesRun(GROUP_SCHEMA, ups) <==> TextsOrNulls(ups)
    ensures Stored(GROUP_SCHEMA, ups) == ups
  {
  }

  method RewriteRecorded(repo: Repository, f: FilterMap, ups: Cells, onlyChanged: bool) returns (r: Result<seq<RowUpdate>>)
    requires repo.builder.schema == GROUP_SCHEMA && Conforms(GROUP_SCHEMA, repo.rows)
    requires f != [] && Assignable(ups)
    modifies repo`rows, repo.builder
    ensures Conforms(GROUP_SCHEMA, repo.rows)
    ensures r.Ok? <==> FilterRuns(GROUP_SCHEMA, f) && TextsOrNulls(ups)
    ensures r.Err? ==> repo.rows == old(repo.rows)
    ensures r.Ok? ==>
              var ids := Selected(GROUP_SCHEMA, old(repo.rows), f);
              && repo.rows == Overwrite(old(repo.rows), ids, ups)
              && Records(old(repo.rows), ids, ups, r.value)
              && (!onlyChanged ==> UpdateIds(r.value) == ids)
  {
    AssignableStored(ups);
    hide Conforms, FilterRuns, Records, Overwrite;
    r := UpdateRecorded(repo, f, ups, onlyChanged);
  }

  method Rewrite(repo: Repository, f: FilterMap, ups: Cells) returns (r: Result<Diff>)
    requires repo.builder.schema == GROUP_SCHEMA && Conforms(GROUP_SCHEMA, repo.rows)
    requires f != [] && Assignable(ups)
    modifies repo`rows, repo.builder
    ensures Conforms(GROUP_SCHEMA, repo.rows)
    ensures r.Ok? <==> FilterRuns(GROUP_SCHEMA, f) && TextsOrNulls(ups)
    ensures r.Err? ==> repo.rows == old(repo.rows)
    ensures r.Ok? ==> repo.rows == Overwrite(old(repo.rows), Selected(GROUP_SCHEMA, old(repo.rows), f), ups)
                      && Faithful(old(repo.rows), r.value, repo.rows)
  {
    ghost var before := repo.rows;
    hide Conforms, FilterRuns, Records, Overwrite, Faithful;
    var us :- RewriteRecorded(repo, f, ups, false);
    OverwriteFaithful(before, Selected(GROUP_SCHEMA, before, f), ups, us);
    return Ok(Diff([], [], us));
  }

  method RewriteBucket(repo: Repository, ws: string, bucket: Value, ups: Cells) returns (r: Result<Diff>)
    requires repo.builder.schema == GROUP_SCHEMA && Conforms(GROUP_SCHEMA, repo.rows) && Assignable(ups)
    modifies repo`rows, repo.builder
    ensures Conforms(GROUP_SCHEMA, repo.rows)
    ensures r.Ok? <==> TextOrNull(bucket) && TextsOrNulls(ups)
    ensures r.Err? ==> repo.rows == old(repo.rows)
    ensures r.Ok? ==> repo.rows == Overwrite(old(repo.rows), InBucket(old(repo.rows), ws, bucket), ups)
                      && Faithful(old(repo.rows), r.value, repo.rows)
  {
    if TextOrNull(bucket) {
      FiltersSelect(repo.rows, ws, bucket);
      EqualsRun(BucketFilter(ws, bucket));
    } else {
      NumberStops(ws, bucket);
    }
    hide Conforms, FilterRuns, Selected, Faithful, Overwrite, InBucket;
    r := Rewrite(repo, BucketFilter(ws, bucket), ups);
  }

  method RewriteCode(repo: Repository, ws: string, code: Value, ups: Cells) returns (r: Result<Diff>)
    requires repo.builder.schema == GROUP_SCHEMA && Conforms(GROUP_SCHEMA, repo.rows) && Assignable(ups)
    modifies repo`rows, repo.builder
    ensures Conforms(GROUP_SCHEMA, repo.rows)
    ensures r.Ok? <==> TextOrNull(code) && TextsOrNulls(ups)
    ensures r.Err? ==> repo.rows == old(repo.rows)
    ensures r.Ok? ==> repo.rows == Overwrite(old(repo.rows), WithCode(old(repo.rows), ws, code), ups)
                      && Faithful(old(repo.rows), r.value, repo.rows)
  {
    if TextOrNull(code) {
      FiltersSelect(repo.rows, ws, code);
      EqualsRun(CodeFilter(ws, code));
    } else {
      NumberStops(ws, code);
    }
    hide Conforms, FilterRuns, Selected, Faithful, Overwrite, WithCode;
    r := Rewrite(repo, CodeFilter(ws, code), ups);
  }

  method LookUpName(repo: Repository, target: Value) returns (r: Result<Value>)
    requires repo.builder.schema == GROUP_SCHEMA && Conforms(GROUP_SCHEMA, repo.rows)
    modifies repo.builder
    ensures r.Ok? <==> TextOrNull(target)
    ensures r.Ok? ==> TargetName(repo.rows, target, r.value) && TextOrNull(r.value)
  {
    var f := [Equals("higher_level_code_id", target)];
    TargetFilter(repo.rows, target);
    hide FilterRuns, Selected;
    var found :- repo.Find(f);
    if found == [] {
      assert RowIds([]) == {};
      forall id | id in repo.rows ensures Bucket(repo.rows[id]) != target {
        assert id in Selected(GROUP_SCHEMA, repo.rows, f) <==> Bucket(repo.rows[id]) == target;
      }
      return Ok(Null);
    }
    assert found[0] in found && found[0].id in RowIds(found);
    return Ok(Name(found[0].cells));
  }

  lemma TargetFilter(t: Table, target: Value)
    ensures var f := [Equals("higher_level_code_id", target)];
            && (FilterRuns(GROUP_SCHEMA, f) <==> TextOrNull(target))
            && (TextOrNull(target) ==> Selected(GROUP_SCHEMA, t, f) == set id | id in t && Bucket(t[id]) == target)
  {
    var f := [Equals("higher_level_code_id", target)];
    FilterRunsIff(GROUP_SCHEMA, f);
    EqualsRuns(GROUP_SCHEMA, "higher_level_code_id", target);
    hide FilterRuns, EntryRuns;
    assert f[0] == Equals("higher_level_code_id", target);
    if TextOrNull(target) {
      forall id | id in t ensures id in Selected(GROUP_SCHEMA, t, f) <==> Bucket(t[id]) == target {
        EqualsSelect(t, f, id);
      }
    }
  }

  // --------------------------------------------------- what RESTORE_STATE records

  /** The spot a row had just before its code was listed last. */
  function BeforeLast(spots: seq<Spot>): Spot
    requires spots != []
  {
    if |spots| == 1 then Spot(Null, Null) else spots[|spots| - 2]
  }

  /** What restoring the recorded list as it stands leaves of a row. */
  function RawBack(c: Cells, ws: string, bs: seq<BucketData>): Cells {
    var spots := RowListings(c, ws, bs);
    if spots == [] then c else c + Placement(BeforeLast(spots).bucket, BeforeLast(spots).name)
  }

  const PLACE_FIELDS := {"higher_level_code", "higher_level_code_id"}

  /** `us` was recorded while RESTORE_STATE took `before` to `now`: a chain of updates
      whose last old values lead each row back to where it was before its last one. */
  ghost predicate RecordedBy(before: Table, ws: string, bs: seq<BucketData>, us: seq<RowUpdate>, now: Table) {
    && Playable(before, us) && now == Play(before, us) && now == Restored(before, ws, bs)
    && AllOldsTyped(GROUP_SCHEMA, us)
    && forall id :: id in before ==> LeadsBack(before[id], ws, bs, now, us, id)
  }

  ghost predicate LeadsBack(was: Cells, ws: string, bs: seq<BucketData>, now: Table, us: seq<RowUpdate>, id: Value) {
    && id in now && LastOlds(us, id).Keys <= PLACE_FIELDS
    && now[id] + LastOlds(us, id) == RawBack(was, ws, bs)
  }

  /** RESTORE_STATE: clears every placement, then places the payload's codes in
      order, recording every overwrite it makes. */
  method PlaceAll(repo: Repository, ws: string, payload: seq<BucketData>) returns (r: Result<seq<RowUpdate>>)
    requires repo.builder.schema == GROUP_SCHEMA && Conforms(GROUP_SCHEMA, repo.rows)
    modifies repo`rows, repo.builder
    ensures Conforms(GROUP_SCHEMA, repo.rows)
    ensures r.Ok? <==> forall b :: b in payload ==> Placeable(b)
    ensures r.Ok? ==> RecordedBy(old(repo.rows), ws, payload, r.value, repo.rows)
  {
    ghost var before := repo.rows;
    FiltersSelect(before, ws, Null);
    EqualsRun(ContextFilter(ws));
    TextPlacement(Null, Null);
    var cleared := RewriteRecorded(repo, ContextFilter(ws), Placement(Null, Null), true);
    ClearRecorded(before, ws, cleared.value);
    var us := cleared.value;
    hide Conforms, RecordedBy, Placeable, Selected, Records, FilterRuns;
    for i := 0 to |payload|
      invariant Conforms(GROUP_SCHEMA, repo.rows)
      invariant RecordedBy(before, ws, payload[..i], us, repo.rows)
      invariant forall k :: 0 <= k < i ==> Placeable(payload[k])
    {
      var b := payload[i];
      assert b in payload && payload[..i + 1] == payload[..i] + [b];
      SkippedBucket(before, ws, payload[..i], b, us, repo.rows);
      if !b.id.Null? {
        us :- PlaceOne(repo, ws, b, before, payload[..i], us);
      }
    }
    assert payload[..|payload|] == payload;
    return Ok(us);
  }

  /** Payloads that place and list the same are recorded the same. */
  lemma SameRecord(before: Table, ws: string, bs: seq<BucketData>, cs: seq<BucketData>, us: seq<RowUpdate>, now: Table)
    requires RecordedBy(before, ws, bs, us, now) && Restored(before, ws, cs) == Restored(before, ws, bs)
    requires forall code :: Listings(cs, code) == Listings(bs, code)
    ensures RecordedBy(before, ws, cs, us, now)
  {
    hide Playable, Play, LastOlds, Restored, AllOldsTyped, Listings;
    forall id | id in before ensures RawBack(before[id], ws, cs) == RawBack(before[id], ws, bs) {
      assert Code(before[id]).Text? ==> Listings(cs, Code(before[id]).s) == Listings(bs, Code(before[id]).s);
    }
  }

  /** A bucket without an id is placeable, and changes nothing; nor does one without codes. */
  lemma SkippedBucket(before: Table, ws: string, bs: seq<BucketData>, b: BucketData, us: seq<RowUpdate>, now: Table)
    requires RecordedBy(before, ws, bs, us, now)
    ensures b.id.Null? ==> Placeable(b) && RecordedBy(before, ws, bs + [b], us, now)
    ensures RecordedBy(before, ws, bs + [b.(codes := [])], us, now)
  {
    var empty := b.(codes := []);
    assert (bs + [b])[..|bs|] == bs && (bs + [empty])[..|bs|] == bs;
    assert forall code :: CodeSpots(empty, 0, code) == [];
    assert forall code :: Listings(bs + [empty], code) == Listings(bs, code) + [];
    assert b.id.Null? ==> forall code :: Listings(bs + [b], code) == Listings(bs, code) + [];
    hide RecordedBy, Cleared, Listings;
    SameRecord(before, ws, bs, bs + [empty], us, now);
    if b.id.Null? {
      SameRecord(before, ws, bs, bs + [b], us, now);
    }
  }

  method PlaceOne(repo: Repository, ws: string, b: BucketData, ghost before: Table, ghost bs: seq<BucketData>, us: seq<RowUpdate>)
    returns (r: Result<seq<RowUpdate>>)
    requires repo.builder.schema == GROUP_SCHEMA && Conforms(GROUP_SCHEMA, repo.rows) && !b.id.Null?
    requires RecordedBy(before, ws, bs + [b.(codes := [])], us, repo.rows)
    modifies repo`rows, repo.builder
    ensures Conforms(GROUP_SCHEMA, repo.rows)
    ensures r.Ok? <==> Placeable(b)
    ensures r.Ok? ==> RecordedBy(before, ws, bs + [b], r.value, repo.rows)
  {
    var more := us;
    assert b.codes[..0] == [];
    PlaceableIff(b);
    hide Placeable, TextsOrNulls, Conforms, RecordedBy, Records, Place, WithCode, Placement, UpdateIds;
    for k := 0 to |b.codes|
      invariant Conforms(GROUP_SCHEMA, repo.rows)
      invariant RecordedBy(before, ws, bs + [b.(codes := b.codes[..k])], more, repo.rows)
      invariant k > 0 ==> Placeable(b)
    {
      ghost var now := repo.rows;
      var step :- PlaceCode(repo, ws, b.codes[k], b.id, b.name);
      CodeRecorded(before, ws, bs, b, k, more, now, step);
      more := more + step;
    }
    assert b.(codes := b.codes[..|b.codes|]) == b;
    return Ok(more);
  }

  method PlaceCode(repo: Repository, ws: string, code: string, bucket: Value, name: Value) returns (r: Result<seq<RowUpdate>>)
    requires repo.builder.schema == GROUP_SCHEMA && Conforms(GROUP_SCHEMA, repo.rows)
    modifies repo`rows, repo.builder
    ensures Conforms(GROUP_SCHEMA, repo.rows)
    ensures r.Ok? <==> TextsOrNulls(Placement(bucket, name))
    ensures r.Ok? ==>
              var ids := WithCode(old(repo.rows), ws, Text(code));
              && repo.rows == Place(old(repo.rows), ids, bucket, name)
              && Records(old(repo.rows), ids, Placement(bucket, name), r.value) && UpdateIds(r.value) == ids
  {
    FiltersSelect(repo.rows, ws, Text(code));
    EqualsRun(CodeFilter(ws, Text(code)));
    hide Conforms, Selected, Records, FilterRuns, TextsOrNulls, WithCode, Overwrite;
    r := RewriteRecorded(repo, CodeFilter(ws, Text(code)), Placement(bucket, name), false);
  }

  lemma RecordsTyped(t: Table, ids: set<Value>, news: Cells, us: seq<RowUpdate>)
    requires Conforms(GROUP_SCHEMA, t) && Records(t, ids, news, us) && Assignable(news)
    ensures AllOldsTyped(GROUP_SCHEMA, us)
  {
    hide TypedCell, Columns;
    forall u | u in us ensures OldsTyped(GROUP_SCHEMA, u.changes) {
      assert RecordsRow(t, news, u);
    }
  }

  lemma {:induction false} LastOldsConcat(us: seq<RowUpdate>, more: seq<RowUpdate>, id: Value)
    ensures LastOlds(us + more, id) == LastOlds(us, id) + LastOlds(more, id)
    decreases |more|
  {
    if more == [] {
      assert us + more == us && LastOlds([], id) == map[];
    } else {
      var front, u := more[..|more| - 1], more[|more| - 1];
      assert more == front + [u] && us + more == (us + front) + [u];
      hide LastOlds, Olds;
      LastOldsMore(us + front, u, id);
      LastOldsMore(front, u, id);
      LastOldsConcat(us, front, id);
      OverlayShifts(LastOlds(us, id), LastOlds(front, id), Olds(u.changes));
    }
  }

  /** One recorded overwrite holds at most one entry for a row: its cells before. */
  lemma {:induction false} LastOldsRecorded(t: Table, ids: set<Value>, news: Cells, more: seq<RowUpdate>, n: nat, id: Value)
    requires Records(t, ids, news, more) && n <= |more| && id in t
    ensures LastOlds(more[..n], id) ==
            if id in UpdateIds(more[..n]) then map f | f in news && f in t[id] :: t[id][f] else map[]
    ensures id in UpdateIds(more[..n]) ==> news.Keys <= t[id].Keys
    decreases n
  {
    if n == 0 {
      assert more[..0] == [];
    } else {
      var front, u := more[..n - 1], more[n - 1];
      NextEntry(t, ids, news, more, n);
      LastOldsMore(front, u, id);
      LastOldsRecorded(t, ids, news, more, n - 1, id);
      hide Records, LastOlds;
      if u.id == id {
        assert Olds(u.changes) == map f | f in news && f in t[id] :: t[id][f];
      }
    }
  }

  lemma ClearRecorded(before: Table, ws: string, cleared: seq<RowUpdate>)
    requires Conforms(GROUP_SCHEMA, before) && Records(before, InContext(before, ws), Placement(Null, Null), cleared)
    ensures RecordedBy(before, ws, [], cleared, Cleared(before, ws))
  {
    var now := Cleared(before, ws);
    PlayNothing(before);
    PlayRecords(before, [], InContext(before, ws), Placement(Null, Null), cleared);
    assert [] + cleared == cleared;
    RecordsTyped(before, InContext(before, ws), Placement(Null, Null), cleared);
    assert Restored(before, ws, []) == now;
    forall id | id in before ensures LeadsBack(before[id], ws, [], now, cleared, id) {
      ClearLeadsBack(before, ws, cleared, id);
    }
    hide Playable, Play, AllOldsTyped, LeadsBack;
  }

  lemma ClearLeadsBack(before: Table, ws: string, cleared: seq<RowUpdate>, id: Value)
    requires Records(before, InContext(before, ws), Placement(Null, Null), cleared) && id in before
    ensures LeadsBack(before[id], ws, [], Cleared(before, ws), cleared, id)
  {
    LastOldsRecorded(before, InContext(before, ws), Placement(Null, Null), cleared, |cleared|, id);
    assert cleared[..|cleared|] == cleared;
    assert Listings([], "") == [];
    hide LastOlds;
  }

  lemma {:induction false} PrefixSpots(b: BucketData, k: nat, n: nat, code: string)
    requires n <= k <= |b.codes|
    ensures CodeSpots(b.(codes := b.codes[..k]), n, code) == CodeSpots(b, n, code)
    decreases n
  {
    if n > 0 {
      PrefixSpots(b, k, n - 1, code);
    }
  }

  lemma {:induction false} PrefixCodes(t: Table, ws: string, b: BucketData, k: nat, n: nat)
    requires n <= k <= |b.codes|
    ensures PlaceCodes(t, ws, b.(codes := b.codes[..k]), n) == PlaceCodes(t, ws, b, n)
    decreases n
  {
    if n > 0 {
      PrefixCodes(t, ws, b, k, n - 1);
    }
  }

  lemma PlacesOneMore(t: Table, ws: string, bs: seq<BucketData>, b: BucketData, k: nat)
    requires k < |b.codes| && !b.id.Null?
    ensures var now := PlaceBuckets(t, ws, bs + [b.(codes := b.codes[..k])]);
            PlaceBuckets(t, ws, bs + [b.(codes := b.codes[..k + 1])])
            == Place(now, WithCode(now, ws, Text(b.codes[k])), b.id, b.name)
  {
    var front := PlaceBuckets(t, ws, bs);
    assert (bs + [b.(codes := b.codes[..k])])[..|bs|] == bs;
    assert (bs + [b.(codes := b.codes[..k + 1])])[..|bs|] == bs;
    hide Place, WithCode;
    PrefixCodes(front, ws, b, k, k);
    PrefixCodes(front, ws, b, k + 1, k + 1);
  }

  lemma ListsOneMore(bs: seq<BucketData>, b: BucketData, k: nat, code: string)
    requires k < |b.codes| && !b.id.Null?
    ensures Listings(bs + [b.(codes := b.codes[..k + 1])], code)
            == Listings(bs + [b.(codes := b.codes[..k])], code) + if b.codes[k] == code then [Spot(b.id, b.name)] else []
  {
    assert (bs + [b.(codes := b.codes[..k])])[..|bs|] == bs;
    assert (bs + [b.(codes := b.codes[..k + 1])])[..|bs|] == bs;
    PrefixSpots(b, k, k, code);
    PrefixSpots(b, k + 1, k + 1, code);
  }

  /** Placing one more code, and recording it, keeps the record good. */
  lemma CodeRecorded(before: Table, ws: string, bs: seq<BucketData>, b: BucketData, k: nat,
                     us: seq<RowUpdate>, now: Table, step: seq<RowUpdate>)
    requires k < |b.codes| && !b.id.Null? && Conforms(GROUP_SCHEMA, now)
    requires RecordedBy(before, ws, bs + [b.(codes := b.codes[..k])], us, now)
    requires Records(now, WithCode(now, ws, Text(b.codes[k])), Placement(b.id, b.name), step)
    requires UpdateIds(step) == WithCode(now, ws, Text(b.codes[k]))
    ensures RecordedBy(before, ws, bs + [b.(codes := b.codes[..k + 1])], us + step,
                       Place(now, WithCode(now, ws, Text(b.codes[k])), b.id, b.name))
  {
    var ids, news := WithCode(now, ws, Text(b.codes[k])), Placement(b.id, b.name);
    var next := Place(now, ids, b.id, b.name);
    PlayRecords(before, us, ids, news, step);
    PlacesOneMore(Cleared(before, ws), ws, bs, b, k);
    RecordsTyped(now, ids, news, step);
    assert AllOldsTyped(GROUP_SCHEMA, us + step);
    forall id | id in before
      ensures LeadsBack(before[id], ws, bs + [b.(codes := b.codes[..k + 1])], next, us + step, id)
    {
      CodeLeadsBack(before, ws, bs, b, k, us, now, step, id);
    }
    hide Playable, Play, AllOldsTyped, LeadsBack, Place, WithCode, Records;
  }

  lemma CodeLeadsBack(before: Table, ws: string, bs: seq<BucketData>, b: BucketData, k: nat,
                      us: seq<RowUpdate>, now: Table, step: seq<RowUpdate>, id: Value)
    requires k < |b.codes| && !b.id.Null? && id in before
    requires now == Restored(before, ws, bs + [b.(codes := b.codes[..k])])
    requires LeadsBack(before[id], ws, bs + [b.(codes := b.codes[..k])], now, us, id)
    requires Records(now, WithCode(now, ws, Text(b.codes[k])), Placement(b.id, b.name), step)
    requires UpdateIds(step) == WithCode(now, ws, Text(b.codes[k]))
    ensures LeadsBack(before[id], ws, bs + [b.(codes := b.codes[..k + 1])],
                      Place(now, WithCode(now, ws, Text(b.codes[k])), b.id, b.name), us + step, id)
  {
    var was, cur := before[id], now[id];
    var spots := RowListings(was, ws, bs + [b.(codes := b.codes[..k])]);
    var ids, to := WithCode(now, ws, Text(b.codes[k])), Spot(b.id, b.name);
    hide LastOlds, RowListings, Restored, UpdateIds, Placement, PLACE_FIELDS, Records, PlacedAt, Ctx, Code, BeforeLast;
    RestoredAt(before, ws, bs + [b.(codes := b.codes[..k])], id);
    RowListsOneMore(was, ws, bs, b, k);
    LastOldsConcat(us, step, id);
    LastOldsRecorded(now, ids, Placement(b.id, b.name), step, |step|, id);
    assert step[..|step|] == step;
    if id in ids {
      StepsBack(was, spots, cur, to, LastOlds(us, id));
    } else {
      assert LastOlds(us, id) + map[] == LastOlds(us, id);
      assert spots + [] == spots;
    }
  }

  lemma OverPlaced(c: Cells, a: Spot, b: Spot)
    ensures (c + Placement(a.bucket, a.name)) + Placement(b.bucket, b.name) == c + Placement(b.bucket, b.name)
  {
  }

  lemma OldPlacement(c: Cells, a: Spot, b: Spot, olds: Cells)
    requires olds.Keys <= PLACE_FIELDS
    ensures var cur := c + Placement(a.bucket, a.name);
            olds + (map f | f in Placement(b.bucket, b.name) && f in cur :: cur[f]) == Placement(a.bucket, a.name)
  {
  }

  lemma PlacementFields(a: Spot)
    ensures Placement(a.bucket, a.name).Keys == PLACE_FIELDS
  {
  }

  /** The cells of a placed row with its placement written over once more, and the
      old placement put back. */
  lemma StepsBack(was: Cells, spots: seq<Spot>, cur: Cells, to: Spot, olds: Cells)
    requires cur == PlacedAt(was + Placement(Null, Null), spots) && olds.Keys <= PLACE_FIELDS
    ensures var back := olds + map f | f in Placement(to.bucket, to.name) && f in cur :: cur[f];
            && back.Keys <= PLACE_FIELDS
            && (cur + Placement(to.bucket, to.name)) + back
               == was + Placement(BeforeLast(spots + [to]).bucket, BeforeLast(spots + [to]).name)
  {
    var s := BeforeLast(spots + [to]);
    var none := Spot(Null, Null);
    hide Placement, PLACE_FIELDS;
    OverPlaced(was, none, s);
    assert cur == was + Placement(s.bucket, s.name);
    OldPlacement(was, s, to, olds);
    OverPlaced(was, s, to);
    OverPlaced(was, to, s);
    PlacementFields(s);
  }

  lemma RowListsOneMore(c: Cells, ws: string, bs: seq<BucketData>, b: BucketData, k: nat)
    requires k < |b.codes| && !b.id.Null?
    ensures RowListings(c, ws, bs + [b.(codes := b.codes[..k + 1])])
            == RowListings(c, ws, bs + [b.(codes := b.codes[..k])])
               + if Ctx(c) == Text(ws) && Code(c) == Text(b.codes[k]) then [Spot(b.id, b.name)] else []
  {
    if Code(c).Text? {
      ListsOneMore(bs, b, k, Code(c).s);
    }
    hide Listings;
  }

  /** A row of the workspace loses its placement and gets that of its last listing. */
  lemma RestoredAt(t: Table, ws: string, bs: seq<BucketData>, id: Value)
    requires id in t
    ensures var c := if Ctx(t[id]) == Text(ws) then t[id] + Placement(Null, Null) else t[id];
            && id in Restored(t, ws, bs) && Restored(t, ws, bs)[id] == PlacedAt(c, RowListings(t[id], ws, bs))
            && Ctx(Restored(t, ws, bs)[id]) == Ctx(t[id]) && Code(Restored(t, ws, bs)[id]) == Code(t[id])
  {
    var c := if Ctx(t[id]) == Text(ws) then t[id] + Placement(Null, Null) else t[id];
    assert Cleared(t, ws)[id] == c && Ctx(c) == Ctx(t[id]) && Code(c) == Code(t[id]);
    PlacedTwice(c, RowListings(c, ws, bs), []);
    hide Listings, PlacedAt, PlaceBuckets, Cleared;
    BucketsPlaced(Cleared(t, ws), ws, bs, id);
  }

  /** A recorded overwrite continues a list of played updates. */
  lemma {:induction false} PlayRecords(t: Table, us: seq<RowUpdate>, ids: set<Value>, news: Cells, more: seq<RowUpdate>)
    requires Playable(t, us) && ids <= Play(t, us).Keys && Records(Play(t, us), ids, news, more)
    ensures Playable(t, us + more) && Play(t, us + more) == Overwrite(Play(t, us), ids, news)
  {
    PlayPart(t, us, ids, news, more, |more|);
    assert more[..|more|] == more;
    var now := Play(t, us);
    forall id | id in now ensures Play(t, us + more)[id] == Overwrite(now, ids, news)[id] {
    }
  }

  lemma NextEntry(t: Table, ids: set<Value>, news: Cells, more: seq<RowUpdate>, n: nat)
    requires Records(t, ids, news, more) && 0 < n <= |more|
    ensures var front, u := more[..n - 1], more[n - 1];
            && more[..n] == front + [u] && RecordsRow(t, news, u)
            && u.id !in UpdateIds(front) && UpdateIds(more[..n]) == UpdateIds(front) + {u.id}
  {
    assert more[..n] == more[..n - 1] + [more[n - 1]];
    assert more[n - 1] in more && DistinctUpdates(more[..n]);
    hide RecordsRow;
    LastEntry(more[..n]);
  }

  lemma {:induction false} PlayPart(t: Table, us: seq<RowUpdate>, ids: set<Value>, news: Cells, more: seq<RowUpdate>, n: nat)
    requires Playable(t, us) && Records(Play(t, us), ids, news, more) && n <= |more|
    ensures Playable(t, us + more[..n])
    ensures Play(t, us + more[..n]) == Overwrite(Play(t, us), UpdateIds(more[..n]), news)
    decreases n
  {
    hide Playable, Play, Records;
    if n == 0 {
      assert us + more[..0] == us && UpdateIds(more[..0]) == {};
      assert Overwrite(Play(t, us), {}, news) == Play(t, us);
    } else {
      hide UpdateIds;
      NextEntry(Play(t, us), ids, news, more, n);
      PlayPart(t, us, ids, news, more, n - 1);
      var u := more[n - 1];
      assert us + more[..n] == us + more[..n - 1] + [u];
      OverwriteMore(Play(t, us), UpdateIds(more[..n - 1]), u, news);
      hide Overwrite;
      PlayMore(t, us + more[..n - 1], u);
    }
  }

  lemma OverwriteMore(t: Table, ids: set<Value>, u: RowUpdate, news: Cells)
    requires u.id !in ids && RecordsRow(t, news, u)
    ensures var now := Overwrite(t, ids, news);
            && u.id in now && now[u.id] == t[u.id]
            && now[u.id := now[u.id] + News(u.changes)] == Overwrite(t, ids + {u.id}, news)
  {
    assert News(u.changes) == news;
  }
}
