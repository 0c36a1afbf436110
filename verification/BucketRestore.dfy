/** RESTORE_STATE on an export, and undoing RESTORE_STATE. */
module BucketRestore {
  import opened Outcomes
  import opened QueryBuilder
  import opened Repositories
  import opened Diffs
  import opened UndoRuns
  import opened Merging
  import opened GroupedCodes
  import opened BucketRuns
  import opened BucketExport

  lemma {:induction false} CodeSpotsFound(b: BucketData, n: nat, code: string)
    requires n <= |b.codes| && code in b.codes[..n]
    ensures CodeSpots(b, n, code) != []
    decreases n
  {
    if b.codes[n - 1] != code {
      assert code in b.codes[..n - 1];
      CodeSpotsFound(b, n - 1, code);
    }
  }

  lemma {:induction false} ListingFound(bs: seq<BucketData>, code: string, k: nat)
    requires k < |bs| && !bs[k].id.Null? && code in bs[k].codes
    ensures Listings(bs, code) != []
    decreases |bs|
  {
    if k < |bs| - 1 {
      ListingFound(bs[..|bs| - 1], code, k);
    } else {
      assert bs[k].codes[..|bs[k].codes|] == bs[k].codes;
      CodeSpotsFound(bs[k], |bs[k].codes|, code);
    }
  }

  // ------------------------------------------------------ restoring an export

  function Texts(codes: seq<Value>): seq<string> {
    seq(|codes|, i requires 0 <= i < |codes| => if codes[i].Text? then codes[i].s else "")
  }

  function AsPayload(groups: seq<Group>): seq<BucketData> {
    seq(|groups|, i requires 0 <= i < |groups| => BucketData(groups[i].id, groups[i].name, Texts(groups[i].codes)))
  }

  lemma {:induction false} InCodesOf(rows: seq<Row>, b: Value, v: Value)
    ensures v in CodesOf(rows, b) <==> exists x :: x in rows && Bucket(x.cells) == b && Code(x.cells) == v
    decreases |rows|
  {
    if rows != [] {
      var front, last := rows[..|rows| - 1], rows[|rows| - 1];
      InCodesOf(front, b, v);
      assert rows == front + [last];
    }
  }

  lemma {:induction false} InPresent(codes: seq<Value>, v: Value)
    ensures v in Present(codes) <==> v in codes && !v.Null? && v != Text("")
    decreases |codes|
  {
    if codes != [] {
      var n := |codes| - 1;
      InPresent(codes[..n], v);
      assert codes == codes[..n] + [codes[n]];
    }
  }

  lemma {:induction false} InGroupIds(rows: seq<Row>, x: Row)
    requires x in rows
    ensures Bucket(x.cells) in GroupIds(rows)
    decreases |rows|
  {
    var front, last := rows[..|rows| - 1], rows[|rows| - 1];
    assert rows == front + [last];
    if x in front {
      InGroupIds(front, x);
    }
  }

  predicate Coded(c: Cells) {
    Code(c).Text? && Code(c).s != ""
  }

  /** Rows of the workspace with the same code are in the same bucket. */
  ghost predicate OneBucketPerCode(t: Table, ws: string) {
    forall i, j :: i in InContext(t, ws) && j in InContext(t, ws) && Coded(t[i]) && Code(t[i]) == Code(t[j]) ==>
      Bucket(t[i]) == Bucket(t[j])
  }

  ghost predicate Exported(t: Table, ws: string, rows: seq<Row>, bs: seq<BucketData>) {
    Lists(rows, t, InContext(t, ws)) && bs == AsPayload(Formatted(rows))
      && forall id :: id in t ==> !Code(t[id]).Num?
  }

  /** A bucket of the export lists a code because some row of the bucket holds it. */
  lemma ListedBecause(t: Table, ws: string, rows: seq<Row>, bs: seq<BucketData>, b: BucketData, code: string) returns (x: Row)
    requires Exported(t, ws, rows, bs) && b in bs && code in b.codes && code != ""
    ensures x in rows && Bucket(x.cells) == b.id && Code(x.cells) == Text(code) && LastName(rows, b.id) == b.name
    ensures b.id in GroupIds(rows)
  {
    var k :| 0 <= k < |bs| && bs[k] == b;
    var g := Formatted(rows)[k];
    var i :| 0 <= i < |b.codes| && b.codes[i] == code;
    assert g.codes[i] == Text(code) && g.codes[i] in g.codes;
    InPresent(CodesOf(rows, g.id), Text(code));
    InCodesOf(rows, g.id, Text(code));
    x :| x in rows && Bucket(x.cells) == b.id && Code(x.cells) == Text(code);
  }

  lemma ListsIts(t: Table, ws: string, rows: seq<Row>, bs: seq<BucketData>, x: Row)
    requires Exported(t, ws, rows, bs) && x in rows && Coded(x.cells) && !Bucket(x.cells).Null?
    ensures Listings(bs, Code(x.cells).s) != []
  {
    InGroupIds(rows, x);
    var ids := GroupIds(rows);
    var k :| 0 <= k < |ids| && ids[k] == Bucket(x.cells);
    var g := Formatted(rows)[k];
    InCodesOf(rows, g.id, Code(x.cells));
    InPresent(CodesOf(rows, g.id), Code(x.cells));
    var i :| 0 <= i < |g.codes| && g.codes[i] == Code(x.cells);
    assert Texts(g.codes)[i] == Code(x.cells).s;
    ListingFound(bs, Code(x.cells).s, k);
  }

  /** Restoring an export puts a row with a code back where it was when each code
      has one bucket. */
  lemma ExportedRowBack(t: Table, ws: string, rows: seq<Row>, bs: seq<BucketData>, id: Value)
    requires Consistent(t) && Exported(t, ws, rows, bs) && OneBucketPerCode(t, ws)
    requires id in InContext(t, ws) && Coded(t[id])
    ensures RestoredSpot(t[id], ws, bs) == SpotOf(t[id])
  {
    var m := SpotsOf(t);
    var code := Code(t[id]).s;
    if Listings(bs, code) != [] {
      var b := SpotFrom(bs, code, LastSpot(Listings(bs, code)));
      var x := ListedBecause(t, ws, rows, bs, b, code);
      assert x.id in RowIds(rows);
      var y, z := NamesOf(rows, b.id);
      assert z.id in t && m[z.id].bucket == m[id].bucket;
    } else {
      assert id in RowIds(rows);
      var x :| x in rows && x.id == id;
      if !Bucket(t[id]).Null? {
        ListsIts(t, ws, rows, bs, x);
      }
      assert GoodSpot(m[id]);
    }
  }

  /** RESTORE_STATE of an export leaves rows without a code outside every bucket,
      leaves other workspaces alone, and puts every coded row back exactly when no
      code is in two buckets. */
  lemma ExportRoundTrip(t: Table, ws: string, rows: seq<Row>, bs: seq<BucketData>)
    requires Consistent(t) && Exported(t, ws, rows, bs)
    ensures var t' := Restored(t, ws, bs);
            && t'.Keys == t.Keys
            && (forall id :: id in t && Ctx(t[id]) != Text(ws) ==> SpotOf(t'[id]) == SpotOf(t[id]))
            && (forall id :: id in InContext(t, ws) && Code(t[id]).Null? ==> SpotOf(t'[id]) == Spot(Null, Null))
            && ((forall id :: id in InContext(t, ws) && Coded(t[id]) ==> SpotOf(t'[id]) == SpotOf(t[id]))
                <==> OneBucketPerCode(t, ws))
  {
    var t' := Restored(t, ws, bs);
    RestoredKeys(t, ws, bs);
    forall id | id in t ensures SpotOf(t'[id]) == RestoredSpot(t[id], ws, bs) {
      RestoredRow(t, ws, bs, id);
    }
    hide Restored, Exported, Consistent, Listings;
    if OneBucketPerCode(t, ws) {
      forall id | id in InContext(t, ws) && Coded(t[id]) ensures SpotOf(t'[id]) == SpotOf(t[id]) {
        ExportedRowBack(t, ws, rows, bs, id);
      }
    }
  }

  // ---------------------------------------------------------- undoing RESTORE_STATE

  /** Every row of the workspace whose code is listed was, before, where it is just
      before its last listing: nowhere when it is listed once. */
  ghost predicate BackWhereItWas(t: Table, ws: string, payload: seq<BucketData>) {
    forall id :: id in t && RowListings(t[id], ws, payload) != [] ==>
      BeforeLast(RowListings(t[id], ws, payload)) == SpotOf(t[id])
  }

  lemma RawBackIff(c: Cells, ws: string, payload: seq<BucketData>)
    requires Columns(GROUP_SCHEMA, c)
    ensures var spots := RowListings(c, ws, payload);
            RawBack(c, ws, payload) == c <==> (spots != [] ==> BeforeLast(spots) == SpotOf(c))
  {
    var spots := RowListings(c, ws, payload);
    hide RowListings;
    assert "higher_level_code" in c && "higher_level_code_id" in c;
    if spots != [] {
      var s := BeforeLast(spots);
      var back := c + Placement(s.bucket, s.name);
      assert back["higher_level_code"] == s.name && back["higher_level_code_id"] == s.bucket;
      if s == SpotOf(c) {
        assert back == c;
      }
    }
  }

  /** Restoring the list RESTORE_STATE recorded, as it stands, never raises, and gives
      the table back exactly when the payload leads every listed row through where it
      was: a condition on the table and the payload. */
  lemma RestoreStateUndoneIff(t: Table, ws: string, payload: seq<BucketData>, us: seq<RowUpdate>, now: Table)
    requires Conforms(GROUP_SCHEMA, t) && RecordedBy(t, ws, payload, us, now)
    ensures Reverts(GROUP_SCHEMA, now, us).ok
    ensures Reverts(GROUP_SCHEMA, now, us).rows == t <==> BackWhereItWas(t, ws, payload)
  {
    var v := Reverts(GROUP_SCHEMA, now, us);
    hide Playable, Play, Reverts, AllOldsTyped, RawBack, RowListings, BeforeLast, LastOlds, Restored;
    RawRevert(GROUP_SCHEMA, t, us, us, Null);
    RestoredKeys(t, ws, payload);
    forall id | id in t
      ensures id in v.rows && v.rows[id] == RawBack(t[id], ws, payload)
      ensures RawBack(t[id], ws, payload) == t[id] <==>
              (RowListings(t[id], ws, payload) != [] ==> BeforeLast(RowListings(t[id], ws, payload)) == SpotOf(t[id]))
    {
      RawRevert(GROUP_SCHEMA, t, us, us, id);
      assert LeadsBack(t[id], ws, payload, now, us, id);
      RawBackIff(t[id], ws, payload);
    }
  }

  /** One row, in the given bucket. */
  function RowIn(s: Spot): Cells {
    map["coding_context_id" := Text("w"), "code" := Text("c"), "higher_level_code" := s.name, "higher_level_code_id" := s.bucket]
  }

  function Single(s: Spot): Table {
    map[Num(1) := RowIn(s)]
  }

  function Moves(from: Spot, to: Spot): RowUpdate {
    RowUpdate(Num(1), map["higher_level_code" := Change(from.name, to.name), "higher_level_code_id" := Change(from.bucket, to.bucket)])
  }

  lemma PlayMove(t: Table, us: seq<RowUpdate>, from: Spot, to: Spot)
    requires Playable(t, us) && Play(t, us) == Single(from)
    ensures Playable(t, us + [Moves(from, to)]) && Play(t, us + [Moves(from, to)]) == Single(to)
  {
    hide Playable, Play;
    var ch := Moves(from, to).changes;
    assert ch.Keys == {"higher_level_code", "higher_level_code_id"};
    assert News(ch) == Placement(to.bucket, to.name);
    assert RowIn(from) + Placement(to.bucket, to.name) == RowIn(to);
    assert forall f :: f in ch ==> RowIn(from)[f] == ch[f].old_;
    PlayMore(t, us, Moves(from, to));
    assert Single(from)[Num(1) := RowIn(to)] == Single(to);
  }

  const A_SPOT := Spot(Text("a"), Text("A"))
  const B_SPOT := Spot(Text("b"), Text("B"))
  const NO_SPOT := Spot(Null, Null)

  /** What RESTORE_STATE records when its payload takes the row from bucket a to b. */
  const RECORDED := [Moves(A_SPOT, NO_SPOT), Moves(NO_SPOT, B_SPOT)]

  lemma RecordedPlays()
    ensures Playable(Single(A_SPOT), RECORDED) && Play(Single(A_SPOT), RECORDED) == Single(B_SPOT)
  {
    var t := Single(A_SPOT);
    assert Playable(t, []) && Play(t, []) == t;
    PlayMove(t, [], A_SPOT, NO_SPOT);
    PlayMove(t, [] + [Moves(A_SPOT, NO_SPOT)], NO_SPOT, B_SPOT);
    assert [] + [Moves(A_SPOT, NO_SPOT)] + [Moves(NO_SPOT, B_SPOT)] == RECORDED;
  }

  lemma Replaced(from: Spot, to: Spot, ids: set<Value>)
    requires Num(1) in ids
    ensures Place(Single(from), ids, to.bucket, to.name) == Single(to)
  {
    assert RowIn(from) + Placement(to.bucket, to.name) == RowIn(to);
  }

  lemma PayloadPlaced()
    ensures Restored(Single(A_SPOT), "w", PAYLOAD) == Single(B_SPOT)
  {
    var b := BucketData(Text("b"), Text("B"), ["c"]);
    var cleared := Cleared(Single(A_SPOT), "w");
    assert Num(1) in InContext(Single(A_SPOT), "w");
    Replaced(A_SPOT, NO_SPOT, InContext(Single(A_SPOT), "w"));
    assert [b][..0] == [] && PlaceBuckets(cleared, "w", [b][..0]) == cleared;
    assert PlaceCodes(cleared, "w", b, 0) == cleared;
    assert PlaceCodes(cleared, "w", b, 1) == Place(cleared, WithCode(cleared, "w", Text("c")), b.id, b.name);
    assert Num(1) in WithCode(cleared, "w", Text("c"));
    Replaced(NO_SPOT, B_SPOT, WithCode(cleared, "w", Text("c")));
  }

  const PAYLOAD := [BucketData(Text("b"), Text("B"), ["c"])]

  lemma PayloadListed()
    ensures RowListings(RowIn(A_SPOT), "w", PAYLOAD) == [B_SPOT]
  {
    var b := PAYLOAD[0];
    assert PAYLOAD[..0] == [] && Listings(PAYLOAD[..0], "c") == [];
    assert CodeSpots(b, 0, "c") == [] && CodeSpots(b, 1, "c") == [] + [B_SPOT];
    assert Listings(PAYLOAD, "c") == [] + CodeSpots(b, 1, "c");
  }

  lemma OldsOfMove(from: Spot, to: Spot)
    ensures Olds(Moves(from, to).changes) == Placement(from.bucket, from.name)
  {
  }

  lemma RecordedOlds()
    ensures LastOlds(RECORDED, Num(1)) == Placement(Null, Null)
  {
    var first, second := Moves(A_SPOT, NO_SPOT), Moves(NO_SPOT, B_SPOT);
    assert RECORDED == ([] + [first]) + [second];
    LastOldsMore([] + [first], second, Num(1));
    LastOldsMore([], first, Num(1));
    OldsOfMove(A_SPOT, NO_SPOT);
    OldsOfMove(NO_SPOT, B_SPOT);
    hide LastOlds, Olds;
    assert LastOlds([], Num(1)) == map[] by {
      NoOlds(Num(1));
    }
  }

  lemma NoOlds(id: Value)
    ensures LastOlds([], id) == map[]
  {
  }

  lemma RecordedTyped()
    ensures AllOldsTyped(GROUP_SCHEMA, RECORDED)
  {
    forall u | u in RECORDED ensures u == Moves(A_SPOT, NO_SPOT) || u == Moves(NO_SPOT, B_SPOT) {
    }
  }

  lemma SingleConforms()
    ensures Conforms(GROUP_SCHEMA, Single(A_SPOT))
  {
  }

  /** RESTORE_STATE records that list for the payload; restoring it as it is returned
      does not give the table back, and merging it first does. */
  lemma RestoreStateNotUndone()
    ensures RecordedBy(Single(A_SPOT), "w", PAYLOAD, RECORDED, Single(B_SPOT))
    ensures !BackWhereItWas(Single(A_SPOT), "w", PAYLOAD)
    ensures Reverts(GROUP_SCHEMA, Single(B_SPOT), RECORDED).ok
    ensures Reverts(GROUP_SCHEMA, Single(B_SPOT), RECORDED).rows != Single(A_SPOT)
    ensures Faithful(Single(A_SPOT), Diff([], [], Coalesce(RECORDED)), Single(B_SPOT))
  {
    PayloadListed();
    hide Playable, Play, Reverts, Coalesce, Faithful, LastOlds, Restored, RowListings, AllOldsTyped, Conforms;
    RecordedPlays();
    PayloadPlaced();
    RecordedOlds();
    RecordedTyped();
    SingleConforms();
    assert RawBack(RowIn(A_SPOT), "w", PAYLOAD) == RowIn(A_SPOT) + Placement(Null, Null);
    assert RowIn(B_SPOT) + Placement(Null, Null) == RowIn(A_SPOT) + Placement(Null, Null);
    assert LeadsBack(RowIn(A_SPOT), "w", PAYLOAD, Single(B_SPOT), RECORDED, Num(1));
    assert !BackWhereItWas(Single(A_SPOT), "w", PAYLOAD) by {
      assert Num(1) in Single(A_SPOT) && Single(A_SPOT)[Num(1)] == RowIn(A_SPOT);
    }
    RestoreStateUndoneIff(Single(A_SPOT), "w", PAYLOAD, RECORDED, Single(B_SPOT));
    CoalescedFaithful(Single(A_SPOT), RECORDED);
  }
}
