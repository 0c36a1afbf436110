/** The two exports of grouped codes, and what RESTORE_STATE makes of one. */
module BucketExport {
  import opened Outcomes
  import opened QueryBuilder
  import opened Repositories
  import opened Diffs
  import opened Merging
  import opened GroupedCodes
  import opened BucketRuns

  datatype Group = Group(id: Value, name: Value, codes: seq<Value>)

  /** Bucket ids in order of first appearance. */
  function GroupIds(rows: seq<Row>): seq<Value> {
    if rows == [] then []
    else
      var front := GroupIds(rows[..|rows| - 1]);
      var b := Bucket(rows[|rows| - 1].cells);
      if b in front then front else front + [b]
  }

  function CodesOf(rows: seq<Row>, b: Value): seq<Value> {
    if rows == [] then []
    else
      var front := CodesOf(rows[..|rows| - 1], b);
      var c := rows[|rows| - 1].cells;
      if Bucket(c) == b then front + [Code(c)] else front
  }

  function FirstName(rows: seq<Row>, b: Value): Value {
    if rows == [] then Null
    else
      var front, last := rows[..|rows| - 1], rows[|rows| - 1];
      if b in GroupIds(front) then FirstName(front, b)
      else if Bucket(last.cells) == b then Name(last.cells)
      else Null
  }

  function LastName(rows: seq<Row>, b: Value): Value {
    if rows == [] then Null
    else if Bucket(rows[|rows| - 1].cells) == b then Name(rows[|rows| - 1].cells)
    else LastName(rows[..|rows| - 1], b)
  }

  /** `filter(bool, codes)`. */
  function Present(codes: seq<Value>): seq<Value> {
    if codes == [] then []
    else
      var front := Present(codes[..|codes| - 1]);
      var c := codes[|codes| - 1];
      if c.Null? || c == Text("") then front else front + [c]
  }

  function Loaded(rows: seq<Row>): seq<Group> {
    var ids := GroupIds(rows);
    seq(|ids|, i requires 0 <= i < |ids| => Group(ids[i], FirstName(rows, ids[i]), CodesOf(rows, ids[i])))
  }

  function Formatted(rows: seq<Row>): seq<Group> {
    var ids := GroupIds(rows);
    seq(|ids|, i requires 0 <= i < |ids| => Group(ids[i], LastName(rows, ids[i]), Present(CodesOf(rows, ids[i]))))
  }

  /** The two dictionaries stand for the rows collected so far. */
  ghost predicate Gathered(rows: seq<Row>, order: seq<Value>, codes: map<Value, seq<Value>>) {
    && order == GroupIds(rows) && (forall b :: b in codes <==> b in order)
    && (forall b :: b in codes ==> codes[b] == CodesOf(rows, b))
  }

  lemma {:induction false} NoCodes(rows: seq<Row>, b: Value)
    requires b !in GroupIds(rows)
    ensures CodesOf(rows, b) == []
    decreases |rows|
  {
    if rows != [] {
      NoCodes(rows[..|rows| - 1], b);
    }
  }

  function AddCode(codes: map<Value, seq<Value>>, c: Cells): map<Value, seq<Value>> {
    var b := Bucket(c);
    codes[b := (if b in codes then codes[b] else []) + [Code(c)]]
  }

  lemma GathersOn(rows: seq<Row>, order: seq<Value>, codes: map<Value, seq<Value>>, row: Row)
    requires Gathered(rows, order, codes)
    ensures var b := Bucket(row.cells);
            Gathered(rows + [row], if b in codes then order else order + [b], AddCode(codes, row.cells))
  {
    assert (rows + [row])[..|rows|] == rows;
    if Bucket(row.cells) !in codes {
      NoCodes(rows, Bucket(row.cells));
    }
  }

  lemma NamesPush(rows: seq<Row>, row: Row, b: Value)
    ensures LastName(rows + [row], b) == if Bucket(row.cells) == b then Name(row.cells) else LastName(rows, b)
    ensures FirstName(rows + [row], b) ==
            if b in GroupIds(rows) then FirstName(rows, b) else if Bucket(row.cells) == b then Name(row.cells) else Null
  {
    assert (rows + [row])[..|rows|] == rows;
  }

  ghost predicate FirstNames(rows: seq<Row>, codes: map<Value, seq<Value>>, names: map<Value, Value>) {
    names.Keys == codes.Keys && forall b :: b in names ==> names[b] == FirstName(rows, b)
  }

  lemma FirstNamesOn(rows: seq<Row>, order: seq<Value>, codes: map<Value, seq<Value>>, names: map<Value, Value>, row: Row)
    requires Gathered(rows, order, codes) && FirstNames(rows, codes, names)
    ensures var b := Bucket(row.cells);
            FirstNames(rows + [row], AddCode(codes, row.cells), if b in names then names else names[b := Name(row.cells)])
  {
    var b := Bucket(row.cells);
    forall x | x in codes || x == b {
      NamesPush(rows, row, x);
    }
    hide FirstName, GroupIds, CodesOf;
  }

  /** Collects codes per bucket id; the first row's name of an id is kept. */
  method LoadGroupedCodes(rows: seq<Row>) returns (groups: seq<Group>)
    ensures groups == Loaded(rows)
  {
    var order: seq<Value> := [];
    var codes: map<Value, seq<Value>> := map[];
    var names: map<Value, Value> := map[];
    assert Gathered([], order, codes) && FirstNames([], codes, names);
    hide Gathered, FirstNames, AddCode;
    for i := 0 to |rows|
      invariant Gathered(rows[..i], order, codes) && FirstNames(rows[..i], codes, names)
    {
      var c := rows[i].cells;
      var b := Bucket(c);
      assert rows[..i + 1] == rows[..i] + [rows[i]];
      GathersOn(rows[..i], order, codes, rows[i]);
      FirstNamesOn(rows[..i], order, codes, names, rows[i]);
      if b !in names {
        names := names[b := Name(c)];
      }
      order := if b in codes then order else order + [b];
      codes := AddCode(codes, c);
    }
    assert rows[..|rows|] == rows;
    groups := seq(|order|, i requires 0 <= i < |order| => Group(order[i], names[order[i]], codes[order[i]]));
  }

  ghost predicate LastNames(rows: seq<Row>, codes: map<Value, seq<Value>>, names: map<Value, Value>) {
    names.Keys == codes.Keys && forall b :: b in names ==> names[b] == LastName(rows, b)
  }

  lemma LastNamesOn(rows: seq<Row>, order: seq<Value>, codes: map<Value, seq<Value>>, names: map<Value, Value>, row: Row)
    requires Gathered(rows, order, codes) && LastNames(rows, codes, names)
    ensures var b := Bucket(row.cells);
            LastNames(rows + [row], AddCode(codes, row.cells), names[b := Name(row.cells)])
  {
    var b := Bucket(row.cells);
    forall x | x in codes || x == b {
      NamesPush(rows, row, x);
    }
    hide LastName, GroupIds, CodesOf;
  }

  /** Collects codes per bucket id; the last row's name of an id is kept. */
  method FormatGroupedCodes(rows: seq<Row>) returns (groups: seq<Group>)
    ensures groups == Formatted(rows)
  {
    var order: seq<Value> := [];
    var codes: map<Value, seq<Value>> := map[];
    var names: map<Value, Value> := map[];
    assert Gathered([], order, codes) && LastNames([], codes, names);
    hide Gathered, LastNames, AddCode;
    for i := 0 to |rows|
      invariant Gathered(rows[..i], order, codes) && LastNames(rows[..i], codes, names)
    {
      var c := rows[i].cells;
      var b := Bucket(c);
      assert rows[..i + 1] == rows[..i] + [rows[i]];
      GathersOn(rows[..i], order, codes, rows[i]);
      LastNamesOn(rows[..i], order, codes, names, rows[i]);
      names := names[b := Name(c)];
      order := if b in codes then order else order + [b];
      codes := AddCode(codes, c);
    }
    assert rows[..|rows|] == rows;
    groups := seq(|order|, i requires 0 <= i < |order| => Group(order[i], names[order[i]], Present(codes[order[i]])));
  }

  // ------------------------------------------------------------ what the exports hold

  /** Row i is the first of the bucket. */
  predicate FirstOf(rows: seq<Row>, b: Value, i: nat) {
    i < |rows| && Bucket(rows[i].cells) == b && forall j :: 0 <= j < i ==> Bucket(rows[j].cells) != b
  }

  predicate LastOf(rows: seq<Row>, b: Value, i: nat) {
    i < |rows| && Bucket(rows[i].cells) == b && forall j :: i < j < |rows| ==> Bucket(rows[j].cells) != b
  }

  lemma {:induction false} ListedIff(rows: seq<Row>, b: Value)
    ensures b in GroupIds(rows) <==> exists i :: 0 <= i < |rows| && Bucket(rows[i].cells) == b
    decreases |rows|
  {
    if rows != [] {
      var n := |rows| - 1;
      ListedIff(rows[..n], b);
      assert forall i :: 0 <= i < n ==> rows[..n][i] == rows[i];
    }
  }

  lemma {:induction false} FirstServed(rows: seq<Row>, b: Value, i: nat)
    requires FirstOf(rows, b, i)
    ensures FirstName(rows, b) == Name(rows[i].cells)
    decreases |rows|
  {
    var n := |rows| - 1;
    ListedIff(rows[..n], b);
    assert forall j :: 0 <= j < n ==> rows[..n][j] == rows[j];
    if i < n {
      FirstServed(rows[..n], b, i);
    }
  }

  lemma {:induction false} LastServed(rows: seq<Row>, b: Value, i: nat)
    requires LastOf(rows, b, i)
    ensures LastName(rows, b) == Name(rows[i].cells)
    decreases |rows|
  {
    var n := |rows| - 1;
    assert forall j :: 0 <= j < n ==> rows[..n][j] == rows[j];
    if i < n {
      LastServed(rows[..n], b, i);
    }
  }

  /** The loader serves a bucket under the name of its first row, the formatter under
      that of its last. */
  lemma NamesServed(rows: seq<Row>, b: Value, first: nat, last: nat)
    requires FirstOf(rows, b, first) && LastOf(rows, b, last)
    ensures FirstName(rows, b) == Name(rows[first].cells) && LastName(rows, b) == Name(rows[last].cells)
  {
    FirstServed(rows, b, first);
    LastServed(rows, b, last);
  }

  /** Its codes are those of its rows, in row order. */
  lemma {:induction false} CodesServed(rows: seq<Row>, b: Value) returns (at: seq<nat>)
    ensures |at| == |CodesOf(rows, b)|
    ensures forall j, k :: 0 <= j < k < |at| ==> at[j] < at[k]
    ensures forall k :: 0 <= k < |at| ==> at[k] < |rows| && CodesOf(rows, b)[k] == Code(rows[at[k]].cells)
    ensures forall i :: 0 <= i < |rows| ==> (i in at <==> Bucket(rows[i].cells) == b)
    decreases |rows|
  {
    at := [];
    if rows != [] {
      var n := |rows| - 1;
      at := CodesServed(rows[..n], b);
      assert forall i :: 0 <= i < n ==> rows[..n][i] == rows[i];
      if Bucket(rows[n].cells) == b {
        at := at + [n];
      }
    }
  }

  /** Without the codes that are null or empty. */
  lemma {:induction false} PresentAre(codes: seq<Value>) returns (at: seq<nat>)
    ensures |at| == |Present(codes)|
    ensures forall j, k :: 0 <= j < k < |at| ==> at[j] < at[k]
    ensures forall k :: 0 <= k < |at| ==> at[k] < |codes| && Present(codes)[k] == codes[at[k]]
    ensures forall i :: 0 <= i < |codes| ==> (i in at <==> codes[i] != Null && codes[i] != Text(""))
    decreases |codes|
  {
    at := [];
    if codes != [] {
      var n := |codes| - 1;
      at := PresentAre(codes[..n]);
      assert forall i :: 0 <= i < n ==> codes[..n][i] == codes[i];
      if codes[n] != Null && codes[n] != Text("") {
        at := at + [n];
      }
    }
  }

  /** Buckets are listed once each, in the order of their first rows. */
  lemma {:induction false} GroupsInOrder(rows: seq<Row>, a: Value, b: Value, i: nat, j: nat) returns (x: nat, y: nat)
    requires FirstOf(rows, a, i) && FirstOf(rows, b, j) && i < j
    ensures x < y < |GroupIds(rows)| && GroupIds(rows)[x] == a && GroupIds(rows)[y] == b
    ensures forall u, v :: 0 <= u < v < |GroupIds(rows)| ==> GroupIds(rows)[u] != GroupIds(rows)[v]
    decreases |rows|
  {
    var n := |rows| - 1;
    var front := rows[..n];
    assert forall k :: 0 <= k < n ==> front[k] == rows[k];
    ListedIff(front, a);
    ListedIff(front, b);
    IdsDistinct(rows);
    if j < n {
      x, y := GroupsInOrder(front, a, b, i, j);
    } else {
      x :| 0 <= x < |GroupIds(front)| && GroupIds(front)[x] == a;
      y := |GroupIds(front)|;
    }
  }

  lemma {:induction false} IdsDistinct(rows: seq<Row>)
    ensures forall u, v :: 0 <= u < v < |GroupIds(rows)| ==> GroupIds(rows)[u] != GroupIds(rows)[v]
    decreases |rows|
  {
    if rows != [] {
      IdsDistinct(rows[..|rows| - 1]);
    }
  }

  /** The loader's groups as they are served: codes without blanks. */
  function Served(groups: seq<Group>): seq<Group> {
    seq(|groups|, i requires 0 <= i < |groups| => Group(groups[i].id, groups[i].name, Present(groups[i].codes)))
  }

  /** Loading and formatting the same rows give the same groups exactly when every
      bucket id's first and last row agree on the name. */
  lemma SameGroupsIff(rows: seq<Row>)
    ensures Served(Loaded(rows)) == Formatted(rows) <==>
            forall b :: b in GroupIds(rows) ==> FirstName(rows, b) == LastName(rows, b)
  {
    var ids := GroupIds(rows);
    var a, b := Served(Loaded(rows)), Formatted(rows);
    assert |a| == |ids| && |b| == |ids|;
    forall i | 0 <= i < |ids| ensures a[i] == b[i] <==> FirstName(rows, ids[i]) == LastName(rows, ids[i]) {
      assert a[i] == Group(ids[i], FirstName(rows, ids[i]), Present(CodesOf(rows, ids[i])));
    }
    if a != b {
      var i :| 0 <= i < |ids| && a[i] != b[i];
      assert ids[i] in ids;
    }
  }

  lemma {:induction false} NamesOf(rows: seq<Row>, b: Value) returns (x: Row, y: Row)
    requires b in GroupIds(rows)
    ensures x in rows && Bucket(x.cells) == b && FirstName(rows, b) == Name(x.cells)
    ensures y in rows && Bucket(y.cells) == b && LastName(rows, b) == Name(y.cells)
    decreases |rows|
  {
    var front, last := rows[..|rows| - 1], rows[|rows| - 1];
    assert rows == front + [last];
    if b in GroupIds(front) {
      x, y := NamesOf(front, b);
    } else {
      x := last;
    }
    if Bucket(last.cells) == b {
      y := last;
    }
  }

  /** On a consistent table both exports agree, whatever order the rows come in. */
  lemma ConsistentSameGroups(t: Table, ws: string, rows: seq<Row>)
    requires Consistent(t) && Lists(rows, t, InContext(t, ws))
    ensures Served(Loaded(rows)) == Formatted(rows)
  {
    forall b | b in GroupIds(rows) ensures FirstName(rows, b) == LastName(rows, b) {
      var x, y := NamesOf(rows, b);
      var m := SpotsOf(t);
      assert m[x.id].bucket == m[y.id].bucket;
    }
    SameGroupsIff(rows);
  }
}
