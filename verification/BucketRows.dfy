/** What each bucket action leaves in the table of grouped codes, row by row. */
module BucketRows {
  import opened Outcomes
  import opened QueryBuilder
  import opened Repositories
  import opened Diffs
  import opened GroupedCodes

  predicate InWs(cells: Cells, ws: string) {
    At(cells, "coding_context_id") == Text(ws)
  }

  /** The row in a bucket: its id and its name. */
  function PutIn(cells: Cells, bucket: Value, name: Value): Cells {
    cells["higher_level_code_id" := bucket]["higher_level_code" := name]
  }

  lemma PlacedIn(cells: Cells, bucket: Value, name: Value)
    ensures cells + Placement(bucket, name) == PutIn(cells, bucket, name)
  {
  }

  /** ADD_BUCKET: one more row, of the workspace, without a code, in the new bucket. */
  lemma AddBucketRow(t: Table, ws: string, rowId: Value, bucket: string, t': Table)
    requires Outcome(t, ws, AddBucket(rowId, bucket), t')
    ensures rowId !in t && t'.Keys == t.Keys + {rowId} && forall id :: id in t ==> t'[id] == t[id]
    ensures var c := t'[rowId];
            && InWs(c, ws) && At(c, "code") == Null
            && At(c, "higher_level_code_id") == Text(bucket) && At(c, "higher_level_code") == Text("New Bucket")
  {
  }

  /** DELETE_BUCKET: the rows of the workspace in the bucket are in none. */
  lemma DeleteBucketRows(t: Table, ws: string, bucket: string, t': Table)
    requires Outcome(t, ws, DeleteBucket(bucket), t')
    ensures t'.Keys == t.Keys
    ensures forall id :: id in t ==>
              t'[id] == if InWs(t[id], ws) && At(t[id], "higher_level_code_id") == Text(bucket) then PutIn(t[id], Null, Null) else t[id]
  {
    PlacedRows(t, InBucket(t, ws, Text(bucket)), Null, Null);
    hide PutIn, Place;
  }

  /** MOVE_CODE: the rows of the workspace with the code are in the target bucket, under
      the name that some row of it has, or null when it has none. */
  lemma MoveCodeRows(t: Table, ws: string, code: Value, target: Value, t': Table) returns (name: Value)
    requires Outcome(t, ws, MoveCode(code, target), t')
    ensures t'.Keys == t.Keys
    ensures if exists id :: id in t && At(t[id], "higher_level_code_id") == target
            then exists id :: id in t && At(t[id], "higher_level_code_id") == target && At(t[id], "higher_level_code") == name
            else name == Null
    ensures forall id :: id in t ==>
              t'[id] == if InWs(t[id], ws) && At(t[id], "code") == code then PutIn(t[id], target, name) else t[id]
  {
    name :| TargetName(t, target, name) && t' == Place(t, WithCode(t, ws, code), target, name);
    PlacedRows(t, WithCode(t, ws, code), target, name);
    hide PutIn, Place;
  }

  lemma PlacedRows(t: Table, ids: set<Value>, bucket: Value, name: Value)
    ensures var t' := Place(t, ids, bucket, name);
            t'.Keys == t.Keys && forall id :: id in t ==> t'[id] == if id in ids then PutIn(t[id], bucket, name) else t[id]
  {
    forall id | id in t ensures t[id] + Placement(bucket, name) == PutIn(t[id], bucket, name) {
      PlacedIn(t[id], bucket, name);
    }
  }

  /** MOVE_UNPLACED_TO_MISC: the rows of the workspace in no bucket are in the
      miscellaneous one. */
  lemma MoveUnplacedRows(t: Table, ws: string, t': Table)
    requires Outcome(t, ws, MoveUnplacedToMisc, t')
    ensures t'.Keys == t.Keys
    ensures forall id :: id in t ==>
              t'[id] == if InWs(t[id], ws) && At(t[id], "higher_level_code_id") == Null && At(t[id], "higher_level_code") == Null
                        then PutIn(t[id], Text("miscellaneous"), Text("Miscellaneous")) else t[id]
  {
    PlacedRows(t, Unplaced(t, ws), MISC_ID, MISC_NAME);
    hide PutIn, Place;
  }

  /** UPDATE_BUCKET_NAME: the rows of the workspace in the bucket have the new name. */
  lemma UpdateNameRows(t: Table, ws: string, bucket: Value, name: Value, t': Table)
    requires Outcome(t, ws, UpdateBucketName(bucket, name), t')
    ensures t'.Keys == t.Keys
    ensures forall id :: id in t ==>
              t'[id] == if InWs(t[id], ws) && At(t[id], "higher_level_code_id") == bucket
                        then t[id]["higher_level_code" := name] else t[id]
  {
    forall id | id in t ensures t[id] + map["higher_level_code" := name] == t[id]["higher_level_code" := name] {
    }
  }

  /** What is refused: no bucket to delete, no payload to restore, a row id in use, and a
      number where the table holds text. */
  lemma Refusals(t: Table, bucket: string, code: Value, target: Value, rowId: Value)
    ensures Succeeds(t, DeleteBucket(bucket)) <==> bucket != ""
    ensures Succeeds(t, AddBucket(rowId, bucket)) <==> rowId.Num? && rowId !in t
    ensures Succeeds(t, MoveCode(code, target)) <==> !code.Num? && !target.Num?
    ensures Succeeds(t, UpdateBucketName(code, target)) <==> !code.Num? && !target.Num?
    ensures !Succeeds(t, GroupedCodes.RestoreState([])) && Succeeds(t, MoveUnplacedToMisc)
  {
  }

  // ------------------------------------------------------------ RESTORE_STATE

  predicate Mentions(b: BucketData, code: string) {
    !b.id.Null? && code in b.codes
  }

  /** Payload bucket k is the last that lists the code. */
  predicate LastMention(bs: seq<BucketData>, code: string, k: nat) {
    k < |bs| && Mentions(bs[k], code) && forall j :: k < j < |bs| ==> !Mentions(bs[j], code)
  }

  lemma {:induction false} SpotsOf(b: BucketData, n: nat, code: string)
    requires n <= |b.codes|
    ensures var spots := CodeSpots(b, n, code);
            && (spots != [] <==> code in b.codes[..n])
            && forall i :: 0 <= i < |spots| ==> spots[i] == Spot(b.id, b.name)
    decreases n
  {
    if n > 0 {
      SpotsOf(b, n - 1, code);
      assert b.codes[..n] == b.codes[..n - 1] + [b.codes[n - 1]];
    }
  }

  lemma {:induction false} NotListed(bs: seq<BucketData>, code: string)
    requires forall k :: 0 <= k < |bs| ==> !Mentions(bs[k], code)
    ensures Listings(bs, code) == []
    decreases |bs|
  {
    if bs != [] {
      var b := bs[|bs| - 1];
      NotListed(bs[..|bs| - 1], code);
      SpotsOf(b, |b.codes|, code);
      assert b.codes[..|b.codes|] == b.codes;
    }
  }

  lemma {:induction false} ListedLast(bs: seq<BucketData>, code: string, k: nat)
    requires LastMention(bs, code, k)
    ensures var spots := Listings(bs, code); spots != [] && spots[|spots| - 1] == Spot(bs[k].id, bs[k].name)
    decreases |bs|
  {
    hide CodeSpots;
    var n := |bs| - 1;
    var b := bs[n];
    SpotsOf(b, |b.codes|, code);
    assert b.codes[..|b.codes|] == b.codes;
    if k < n {
      assert !Mentions(bs[n], code);
      assert LastMention(bs[..n], code, k);
      ListedLast(bs[..n], code, k);
      assert Listings(bs, code) == Listings(bs[..n], code) + [] == Listings(bs[..n], code);
    }
  }

  /** RESTORE_STATE: every row stays but for its bucket. */
  lemma RestoredPlace(t: Table, ws: string, bs: seq<BucketData>, id: Value)
    requires id in t
    ensures var t' := Restored(t, ws, bs);
            && id in t'
            && t'[id] == if !InWs(t[id], ws) then t[id]
                         else PlacedAt(PutIn(t[id], Null, Null), if At(t[id], "code").Text? then Listings(bs, At(t[id], "code").s) else [])
  {
    PlacedRows(t, InContext(t, ws), Null, Null);
    BucketsPlaced(Cleared(t, ws), ws, bs, id);
    CodeStays(t[id], Null, Null);
    hide Listings, PlaceBuckets, PutIn, Place;
  }

  lemma CodeStays(cells: Cells, bucket: Value, name: Value)
    ensures At(PutIn(cells, bucket, name), "code") == At(cells, "code")
    ensures At(PutIn(cells, bucket, name), "coding_context_id") == At(cells, "coding_context_id")
  {
  }

  /** A row of the workspace whose code payload bucket k is the last to list is in that
      bucket; buckets without an id are skipped. */
  lemma RestoreListedRow(t: Table, ws: string, bs: seq<BucketData>, t': Table, id: Value, k: nat)
    requires Outcome(t, ws, GroupedCodes.RestoreState(bs), t') && id in t
    requires InWs(t[id], ws) && At(t[id], "code").Text? && LastMention(bs, At(t[id], "code").s, k)
    ensures id in t' && t'[id] == PutIn(t[id], bs[k].id, bs[k].name)
  {
    hide Listings, Restored, InWs, LastMention;
    RestoredPlace(t, ws, bs, id);
    ListedLast(bs, At(t[id], "code").s, k);
    Mentioned(bs, At(t[id], "code").s, k);
    PlacedIn(PutIn(t[id], Null, Null), bs[k].id, bs[k].name);
    assert PutIn(PutIn(t[id], Null, Null), bs[k].id, bs[k].name) == PutIn(t[id], bs[k].id, bs[k].name);
  }

  lemma Mentioned(bs: seq<BucketData>, code: string, k: nat)
    requires LastMention(bs, code, k)
    ensures k < |bs|
  {
  }

  /** Any other row of the workspace is in no bucket, and rows of other workspaces stay. */
  lemma RestoreOtherRow(t: Table, ws: string, bs: seq<BucketData>, t': Table, id: Value)
    requires Outcome(t, ws, GroupedCodes.RestoreState(bs), t') && id in t
    requires InWs(t[id], ws) && At(t[id], "code").Text? ==> forall k :: 0 <= k < |bs| ==> !Mentions(bs[k], At(t[id], "code").s)
    ensures id in t' && t'[id] == if InWs(t[id], ws) then PutIn(t[id], Null, Null) else t[id]
  {
    hide Listings, Restored, InWs, PutIn, Mentions;
    RestoredPlace(t, ws, bs, id);
    if InWs(t[id], ws) && At(t[id], "code").Text? {
      NotListed(bs, At(t[id], "code").s);
    }
  }
}
