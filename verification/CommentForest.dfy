/** Comment threads: the recursive query, the attaching loop, and the flat form. */
module CommentForest {
  import opened Outcomes

  datatype Id = Id(text: string)
  datatype Row = Row(id: Id, parent: Option<Id>, post: Id)

  ghost predicate DistinctIds(rows: seq<Row>) {
    forall i, j :: 0 <= i < j < |rows| ==> rows[i].id != rows[j].id
  }

  /** Ids are unique and not empty, no comment has the id of the post, and a reply
      belongs to the post of the comment it answers. */
  ghost predicate Thread(scan: seq<Row>, post: Id) {
    && DistinctIds(scan)
    && (forall r :: r in scan ==> r.id != post && r.id != Id(""))
    && (forall r, q :: r in scan && q in scan && r.parent == Some(q.id) ==> r.post == q.post)
  }

  predicate IsTop(post: Id, r: Row) {
    r.post == post && r.parent == Some(post)
  }

  function Replies(rows: seq<Row>, id: Id): seq<Row> {
    if rows == [] then []
    else
      var last := rows[|rows| - 1];
      Replies(rows[..|rows| - 1], id) + (if last.parent == Some(id) then [last] else [])
  }

  function Tops(rows: seq<Row>, post: Id): seq<Row> {
    if rows == [] then []
    else
      var last := rows[|rows| - 1];
      Tops(rows[..|rows| - 1], post) + (if IsTop(post, last) then [last] else [])
  }

  lemma {:induction false} InReplies(rows: seq<Row>, id: Id, r: Row)
    ensures r in Replies(rows, id) <==> r in rows && r.parent == Some(id)
    decreases |rows|
  {
    if rows != [] {
      InReplies(rows[..|rows| - 1], id, r);
      assert rows == rows[..|rows| - 1] + [rows[|rows| - 1]];
    }
  }

  lemma {:induction false} InTops(rows: seq<Row>, post: Id, r: Row)
    ensures r in Tops(rows, post) <==> r in rows && IsTop(post, r)
    decreases |rows|
  {
    if rows != [] {
      InTops(rows[..|rows| - 1], post, r);
      assert rows == rows[..|rows| - 1] + [rows[|rows| - 1]];
    }
  }

  lemma {:induction false} RepliesDistinct(rows: seq<Row>, id: Id)
    requires DistinctIds(rows)
    ensures DistinctIds(Replies(rows, id))
    decreases |rows|
  {
    if rows != [] {
      var front, last := rows[..|rows| - 1], rows[|rows| - 1];
      RepliesDistinct(front, id);
      forall r | r in Replies(front, id) ensures r.id != last.id {
        InReplies(front, id, r);
      }
    }
  }

  lemma {:induction false} TopsDistinct(rows: seq<Row>, post: Id)
    requires DistinctIds(rows)
    ensures DistinctIds(Tops(rows, post))
    decreases |rows|
  {
    if rows != [] {
      var front, last := rows[..|rows| - 1], rows[|rows| - 1];
      TopsDistinct(front, post);
      forall r | r in Tops(front, post) ensures r.id != last.id {
        InTops(front, post, r);
      }
    }
  }

  // ------------------------------------------------------------ the recursive query

  /** Each row is a top comment or answers an earlier one among the first n. */
  ghost predicate Parented(rows: seq<Row>, n: nat, post: Id) {
    forall i :: 0 <= i < |rows| ==> IsTop(post, rows[i]) || AnswersBefore(rows, i, n)
  }

  ghost predicate AnswersBefore(rows: seq<Row>, i: nat, n: nat)
    requires i < |rows|
  {
    exists j :: 0 <= j < i && j < n && rows[i].parent == Some(rows[j].id)
  }

  /** Everything that answers one of the first n rows is there, and so is every top comment. */
  ghost predicate ClosedUnder(scan: seq<Row>, rows: seq<Row>, n: nat, post: Id)
    requires n <= |rows|
  {
    && (forall r :: r in scan && IsTop(post, r) ==> r in rows)
    && (forall r, j :: r in scan && 0 <= j < n && r.parent == Some(rows[j].id) ==> r in rows)
  }

  ghost predicate Walk(scan: seq<Row>, rows: seq<Row>, n: nat, post: Id) {
    && n <= |rows| && DistinctIds(rows) && (forall r :: r in rows ==> r in scan)
    && Parented(rows, n, post) && ClosedUnder(scan, rows, n, post)
  }

  lemma WalkStarts(scan: seq<Row>, post: Id)
    requires Thread(scan, post)
    ensures Walk(scan, Tops(scan, post), 0, post)
  {
    TopsDistinct(scan, post);
    forall r ensures r in Tops(scan, post) <==> r in scan && IsTop(post, r) {
      InTops(scan, post, r);
    }
    assert forall i :: 0 <= i < |Tops(scan, post)| ==> Tops(scan, post)[i] in Tops(scan, post);
  }

  lemma SameRow(scan: seq<Row>, a: Row, b: Row)
    requires DistinctIds(scan) && a in scan && b in scan && a.id == b.id
    ensures a == b
  {
  }

  lemma WalkDistinct(scan: seq<Row>, rows: seq<Row>, n: nat, post: Id)
    requires Thread(scan, post) && Walk(scan, rows, n, post) && n < |rows|
    ensures DistinctIds(rows + Replies(scan, rows[n].id))
  {
    var more := Replies(scan, rows[n].id);
    RepliesDistinct(scan, rows[n].id);
    forall a, b | a in rows && b in more ensures a.id != b.id {
      InReplies(scan, rows[n].id, b);
      if a.id == b.id {
        SameRow(scan, a, b);
      }
    }
  }

  lemma WalkParented(rows: seq<Row>, n: nat, post: Id, more: seq<Row>)
    requires Parented(rows, n, post) && n < |rows| && forall r :: r in more ==> r.parent == Some(rows[n].id)
    ensures Parented(rows + more, n + 1, post)
  {
    var all := rows + more;
    forall i | 0 <= i < |all| ensures IsTop(post, all[i]) || AnswersBefore(all, i, n + 1) {
      if i >= |rows| {
        assert all[i] in more && all[i].parent == Some(all[n].id);
      } else if !IsTop(post, rows[i]) {
        assert AnswersBefore(rows, i, n);
        var j :| 0 <= j < i && j < n && rows[i].parent == Some(rows[j].id);
        assert all[i].parent == Some(all[j].id);
      }
    }
  }

  lemma WalkGoes(scan: seq<Row>, rows: seq<Row>, n: nat, post: Id)
    requires Thread(scan, post) && Walk(scan, rows, n, post) && n < |rows|
    ensures Walk(scan, rows + Replies(scan, rows[n].id), n + 1, post)
  {
    var more := Replies(scan, rows[n].id);
    WalkDistinct(scan, rows, n, post);
    forall r ensures r in more <==> r in scan && r.parent == Some(rows[n].id) {
      InReplies(scan, rows[n].id, r);
    }
    WalkParented(rows, n, post, more);
    hide Parented, ClosedUnder, Replies, Thread;
  }

  function AsSet(rows: seq<Row>): set<Row> {
    set r | r in rows
  }

  lemma {:induction false} DistinctSize(rows: seq<Row>)
    requires DistinctIds(rows)
    ensures |AsSet(rows)| == |rows|
    decreases |rows|
  {
    if rows != [] {
      var front, last := rows[..|rows| - 1], rows[|rows| - 1];
      DistinctSize(front);
      assert AsSet(rows) == AsSet(front) + {last};
    } else {
      assert AsSet(rows) == {};
    }
  }

  lemma WalkFits(scan: seq<Row>, rows: seq<Row>, n: nat, post: Id)
    requires Thread(scan, post) && Walk(scan, rows, n, post)
    ensures |rows| <= |scan|
  {
    DistinctSize(scan);
    DistinctSize(rows);
    assert AsSet(rows) <= AsSet(scan);
    assert AsSet(scan) == AsSet(rows) + (AsSet(scan) - AsSet(rows));
  }

  lemma WalkStep(scan: seq<Row>, rows: seq<Row>, queue: seq<Row>, post: Id)
    requires Thread(scan, post) && Walk(scan, rows + queue, |rows|, post) && queue != []
    ensures Walk(scan, (rows + [queue[0]]) + (queue[1..] + Replies(scan, queue[0].id)), |rows| + 1, post)
    ensures |rows| < |scan|
  {
    hide Walk, Thread, Replies;
    var all := rows + queue;
    assert all[|rows|] == queue[0];
    WalkFits(scan, all, |rows|, post);
    WalkGoes(scan, all, |rows|, post);
    Shift(rows, queue, Replies(scan, queue[0].id));
  }

  lemma Shift(a: seq<Row>, q: seq<Row>, more: seq<Row>)
    requires q != []
    ensures a + q + more == (a + [q[0]]) + (q[1..] + more)
  {
  }

  /** The recursive query takes rows from a queue and adds their replies, in whatever
      order the table is scanned.  It ends, also when the table has parent cycles. */
  method CommentTree(scan: seq<Row>, post: Id) returns (rows: seq<Row>)
    requires Thread(scan, post)
    ensures Walk(scan, rows, |rows|, post)
  {
    rows := [];
    var queue := Tops(scan, post);
    WalkStarts(scan, post);
    assert [] + queue == queue;
    hide Walk, Thread, Tops, Replies;
    while queue != []
      invariant Walk(scan, rows + queue, |rows|, post)
      invariant |rows| <= |scan|
      decreases |scan| - |rows|
    {
      WalkStep(scan, rows, queue, post);
      var row := queue[0];
      rows := rows + [row];
      queue := queue[1..] + Replies(scan, row.id);
    }
    assert rows + [] == rows;
  }

  // ------------------------------------------------------------ which rows are found

  /** The parents of the row lead to the post in d steps. */
  ghost predicate Leads(scan: seq<Row>, post: Id, r: Row, d: nat)
    decreases d
  {
    r in scan && if d == 0 then IsTop(post, r) else exists q :: q in scan && r.parent == Some(q.id) && Leads(scan, post, q, d - 1)
  }

  lemma {:induction false} FoundLeads(scan: seq<Row>, rows: seq<Row>, post: Id, i: nat) returns (d: nat)
    requires Walk(scan, rows, |rows|, post) && i < |rows|
    ensures Leads(scan, post, rows[i], d)
    decreases i
  {
    assert rows[i] in scan;
    if IsTop(post, rows[i]) {
      d := 0;
    } else {
      assert AnswersBefore(rows, i, |rows|);
      var j :| 0 <= j < i && rows[i].parent == Some(rows[j].id);
      d := FoundLeads(scan, rows, post, j);
      d := d + 1;
    }
  }

  lemma {:induction false} LeadsFound(scan: seq<Row>, rows: seq<Row>, post: Id, r: Row, d: nat)
    requires Walk(scan, rows, |rows|, post) && Leads(scan, post, r, d)
    ensures r in rows
    decreases d
  {
    if d > 0 {
      var q :| q in scan && r.parent == Some(q.id) && Leads(scan, post, q, d - 1);
      LeadsFound(scan, rows, post, q, d - 1);
    }
  }

  /** The query finds exactly the rows whose parents lead to the post: rows on orphan
      chains and on parent cycles never appear. */
  lemma FoundIff(scan: seq<Row>, rows: seq<Row>, post: Id, r: Row)
    requires Walk(scan, rows, |rows|, post)
    ensures r in rows <==> exists d :: Leads(scan, post, r, d)
  {
    if r in rows {
      var i :| 0 <= i < |rows| && rows[i] == r;
      var d := FoundLeads(scan, rows, post, i);
      assert Leads(scan, post, r, d);
    }
    if d :| Leads(scan, post, r, d) {
      LeadsFound(scan, rows, post, r, d);
    }
  }

  // ------------------------------------------------------------ attaching replies

  type Kids = map<Id, seq<Row>>

  function KidsOf(kids: Kids, id: Id): seq<Row> {
    if id in kids then kids[id] else []
  }

  function Ids(rows: seq<Row>): set<Id> {
    set r | r in rows :: r.id
  }

  /** Each row is appended to the list of its parent, when the parent is among the rows. */
  method Attach(rows: seq<Row>) returns (kids: Kids)
    requires Id("") !in Ids(rows)
    ensures forall id :: KidsOf(kids, id) == if id in Ids(rows) then Replies(rows, id) else []
  {
    kids := map[];
    var ids := Ids(rows);
    NoReplies();
    hide Replies, Ids;
    for i := 0 to |rows|
      invariant forall id :: KidsOf(kids, id) == if id in ids then Replies(rows[..i], id) else []
    {
      var r := rows[i];
      RepliesNext(rows, i);
      if r.parent.Some? && r.parent.value != Id("") && r.parent.value in ids {
        var parent := r.parent.value;
        kids := kids[parent := (if parent in kids then kids[parent] else []) + [r]];
      }
    }
    assert rows[..|rows|] == rows;
  }

  lemma NoReplies()
    ensures forall id :: Replies([], id) == []
  {
  }

  lemma RepliesNext(rows: seq<Row>, i: nat)
    requires i < |rows|
    ensures forall id :: Replies(rows[..i + 1], id) ==
                         if rows[i].parent == Some(id) then Replies(rows[..i], id) + [rows[i]] else Replies(rows[..i], id)
  {
    assert rows[..i + 1][..i] == rows[..i];
    forall id ensures Replies(rows[..i], id) + [] == Replies(rows[..i], id) {}
  }

  /** The roots the recursive form keeps: no parent, or the post itself. */
  method RootsOf(rows: seq<Row>, post: Id) returns (roots: seq<Row>)
    ensures roots == Roots(rows, post)
  {
    roots := [];
    for i := 0 to |rows|
      invariant roots == Roots(rows[..i], post)
    {
      assert rows[..i + 1][..i] == rows[..i];
      if rows[i].parent.None? || rows[i].parent == Some(post) {
        roots := roots + [rows[i]];
      }
    }
    assert rows[..|rows|] == rows;
  }

  function Roots(rows: seq<Row>, post: Id): seq<Row> {
    if rows == [] then []
    else
      var last := rows[|rows| - 1];
      Roots(rows[..|rows| - 1], post) + (if last.parent.None? || last.parent == Some(post) then [last] else [])
  }

  /** The rows of the post, as the flat form reads them. */
  function OfPost(scan: seq<Row>, post: Id): seq<Row> {
    if scan == [] then []
    else
      var last := scan[|scan| - 1];
      OfPost(scan[..|scan| - 1], post) + (if last.post == post then [last] else [])
  }

  lemma {:induction false} OfPostSame(scan: seq<Row>, post: Id, id: Id)
    ensures Tops(OfPost(scan, post), post) == Tops(scan, post)
    ensures (forall r :: r in scan && r.parent == Some(id) ==> r.post == post) ==>
      Replies(OfPost(scan, post), id) == Replies(scan, id)
    ensures forall r :: r in OfPost(scan, post) <==> r in scan && r.post == post
    decreases |scan|
  {
    if scan != [] {
      var front, last := scan[..|scan| - 1], scan[|scan| - 1];
      OfPostSame(front, post, id);
      assert scan == front + [last];
      var mine := OfPost(front, post);
      assert (mine + [last])[..|mine|] == mine && mine + [] == mine;
      assert Tops(front, post) + [] == Tops(front, post) && Replies(front, id) + [] == Replies(front, id);
    }
  }

  // ------------------------------------------------------------ the lists keep the rows' order

  /** `some` holds the rows at the positions `at`, in order: exactly those that `p` accepts. */
  ghost predicate PicksAt(rows: seq<Row>, some: seq<Row>, p: Row -> bool, at: seq<nat>) {
    && |some| == |at|
    && (forall j, k :: 0 <= j < k < |at| ==> at[j] < at[k])
    && (forall k :: 0 <= k < |at| ==> at[k] < |rows| && some[k] == rows[at[k]])
    && (forall i :: 0 <= i < |rows| ==> (i in at <==> p(rows[i])))
  }

  /** A comment's list holds its replies in the order of the rows. */
  lemma {:induction false} RepliesAt(rows: seq<Row>, id: Id) returns (at: seq<nat>)
    ensures PicksAt(rows, Replies(rows, id), (r: Row) => r.parent == Some(id), at)
    decreases |rows|
  {
    at := [];
    if rows != [] {
      var n := |rows| - 1;
      var r := rows[n];
      at := RepliesAt(rows[..n], id);
      assert forall i :: 0 <= i < n ==> rows[..n][i] == rows[i];
      if r.parent == Some(id) {
        at := at + [n];
      }
    }
  }

  /** So do the top comments. */
  lemma {:induction false} TopsAt(rows: seq<Row>, post: Id) returns (at: seq<nat>)
    ensures PicksAt(rows, Tops(rows, post), (r: Row) => r.post == post && r.parent == Some(post), at)
    decreases |rows|
  {
    at := [];
    if rows != [] {
      var n := |rows| - 1;
      var r := rows[n];
      at := TopsAt(rows[..n], post);
      assert forall i :: 0 <= i < n ==> rows[..n][i] == rows[i];
      if r.post == post && r.parent == Some(post) {
        at := at + [n];
      }
    }
  }

  /** So do the roots kept: rows without a parent, or with the post as parent. */
  lemma {:induction false} RootsAt(rows: seq<Row>, post: Id) returns (at: seq<nat>)
    ensures PicksAt(rows, Roots(rows, post), (r: Row) => r.parent == None || r.parent == Some(post), at)
    decreases |rows|
  {
    at := [];
    if rows != [] {
      var n := |rows| - 1;
      var r := rows[n];
      at := RootsAt(rows[..n], post);
      assert forall i :: 0 <= i < n ==> rows[..n][i] == rows[i];
      if r.parent == None || r.parent == Some(post) {
        at := at + [n];
      }
    }
  }

  /** And the rows of the post that the flat form reads. */
  lemma {:induction false} OfPostAt(rows: seq<Row>, post: Id) returns (at: seq<nat>)
    ensures PicksAt(rows, OfPost(rows, post), (r: Row) => r.post == post, at)
    decreases |rows|
  {
    at := [];
    if rows != [] {
      var n := |rows| - 1;
      var r := rows[n];
      at := OfPostAt(rows[..n], post);
      assert forall i :: 0 <= i < n ==> rows[..n][i] == rows[i];
      if r.post == post {
        at := at + [n];
      }
    }
  }

  // ------------------------------------------------------------ the two forms agree

  lemma {:induction false} CountIn(rows: seq<Row>, r: Row)
    requires DistinctIds(rows)
    ensures multiset(rows)[r] == if r in rows then 1 else 0
    decreases |rows|
  {
    if rows != [] {
      var front, last := rows[..|rows| - 1], rows[|rows| - 1];
      CountIn(front, r);
      assert rows == front + [last];
    }
  }

  /** Two lists of rows with distinct ids and the same rows are the same up to order. */
  lemma SameRows(a: seq<Row>, b: seq<Row>)
    requires DistinctIds(a) && DistinctIds(b) && forall r :: r in a <==> r in b
    ensures multiset(a) == multiset(b)
  {
    forall r ensures multiset(a)[r] == multiset(b)[r] {
      CountIn(a, r);
      CountIn(b, r);
    }
  }

  lemma FoundOfPost(scan: seq<Row>, rows: seq<Row>, post: Id, i: nat)
    requires Thread(scan, post) && Walk(scan, rows, |rows|, post) && i < |rows|
    ensures rows[i].post == post
    decreases i
  {
    assert rows[i] in scan;
    if !IsTop(post, rows[i]) {
      assert AnswersBefore(rows, i, |rows|);
      var j :| 0 <= j < i && rows[i].parent == Some(rows[j].id);
      assert rows[j] in scan;
      FoundOfPost(scan, rows, post, j);
    }
  }

  /** The query's rows hold all replies of each of them. */
  lemma FoundReplies(scan: seq<Row>, rows: seq<Row>, post: Id, q: Row)
    requires Thread(scan, post) && Walk(scan, rows, |rows|, post) && q in rows
    ensures multiset(Replies(rows, q.id)) == multiset(Replies(scan, q.id))
  {
    forall r ensures r in Replies(rows, q.id) <==> r in Replies(scan, q.id) {
      InReplies(rows, q.id, r);
      InReplies(scan, q.id, r);
    }
    RepliesDistinct(rows, q.id);
    RepliesDistinct(scan, q.id);
    SameRows(Replies(rows, q.id), Replies(scan, q.id));
  }

  lemma {:induction false} InRoots(rows: seq<Row>, post: Id, r: Row)
    ensures r in Roots(rows, post) <==> r in rows && (r.parent.None? || r.parent == Some(post))
    ensures DistinctIds(rows) ==> DistinctIds(Roots(rows, post))
    decreases |rows|
  {
    if rows != [] {
      var front, last := rows[..|rows| - 1], rows[|rows| - 1];
      InRoots(front, post, r);
      assert rows == front + [last];
      if DistinctIds(rows) {
        forall x | x in Roots(front, post) ensures x.id != last.id {
          InRoots(front, post, x);
        }
      }
    }
  }

  lemma FoundRoots(scan: seq<Row>, rows: seq<Row>, post: Id)
    requires Thread(scan, post) && Walk(scan, rows, |rows|, post)
    ensures multiset(Roots(rows, post)) == multiset(Tops(scan, post))
  {
    forall r ensures r in Roots(rows, post) <==> r in Tops(scan, post) {
      InRoots(rows, post, r);
      InTops(scan, post, r);
      if r in rows && (r.parent.None? || r.parent == Some(post)) {
        var i :| 0 <= i < |rows| && rows[i] == r;
      }
    }
    TopsDistinct(scan, post);
    InRoots(rows, post, Row(post, None, post));
    SameRows(Roots(rows, post), Tops(scan, post));
  }

  lemma {:induction false} Shuffled(a: seq<Row>, b: seq<Row>, id: Id, post: Id)
    requires multiset(a) == multiset(b) && DistinctIds(a) && DistinctIds(b)
    ensures multiset(Replies(a, id)) == multiset(Replies(b, id)) && multiset(Tops(a, post)) == multiset(Tops(b, post))
  {
    forall r ensures r in a <==> r in b {
      assert r in multiset(a) <==> r in multiset(b);
    }
    forall r ensures (r in Replies(a, id) <==> r in Replies(b, id)) && (r in Tops(a, post) <==> r in Tops(b, post)) {
      InReplies(a, id, r);
      InReplies(b, id, r);
      InTops(a, post, r);
      InTops(b, post, r);
    }
    RepliesDistinct(a, id);
    RepliesDistinct(b, id);
    TopsDistinct(a, post);
    TopsDistinct(b, post);
    SameRows(Replies(a, id), Replies(b, id));
    SameRows(Tops(a, post), Tops(b, post));
  }

  /** The recursive form, over one scan order of the table, and the flat form, over
      another, have the same top comments and the same replies under every comment
      found, up to sibling order. */
  method BothForms(scan: seq<Row>, other: seq<Row>, post: Id)
    returns (rows: seq<Row>, roots: seq<Row>, kids: Kids, flatRoots: seq<Row>, flatKids: Kids)
    requires Thread(scan, post) && Thread(other, post) && multiset(scan) == multiset(other)
    ensures Walk(scan, rows, |rows|, post)
    ensures multiset(roots) == multiset(flatRoots)
    ensures forall q :: q in rows ==> multiset(KidsOf(kids, q.id)) == multiset(KidsOf(flatKids, q.id))
    ensures forall q, r :: q in rows && r in KidsOf(flatKids, q.id) ==> r in rows
    ensures forall r :: r in flatRoots ==> r in rows
  {
    rows := CommentTree(scan, post);
    NoEmptyId(scan, rows, post);
    kids := Attach(rows);
    roots := RootsOf(rows, post);
    var flat := OfPost(other, post);
    OfPostSame(other, post, post);
    flatKids := Attach(flat);
    flatRoots := Tops(flat, post);
    FoundRoots(scan, rows, post);
    Shuffled(scan, other, post, post);
    forall q | q in rows
      ensures multiset(KidsOf(kids, q.id)) == multiset(KidsOf(flatKids, q.id))
      ensures forall r :: r in KidsOf(flatKids, q.id) ==> r in rows
    {
      SameKids(scan, other, rows, post, q);
    }
    forall r | r in flatRoots ensures r in rows {
      assert r in multiset(flatRoots) && r in multiset(roots);
      InRoots(rows, post, r);
    }
  }

  lemma NoEmptyId(scan: seq<Row>, rows: seq<Row>, post: Id)
    requires Thread(scan, post) && Walk(scan, rows, |rows|, post)
    ensures Id("") !in Ids(rows)
  {
  }

  lemma SameKids(scan: seq<Row>, other: seq<Row>, rows: seq<Row>, post: Id, q: Row)
    requires Thread(scan, post) && Thread(other, post) && multiset(scan) == multiset(other)
    requires Walk(scan, rows, |rows|, post) && q in rows
    ensures q.id in Ids(rows) && q.id in Ids(OfPost(other, post))
    ensures multiset(Replies(rows, q.id)) == multiset(Replies(OfPost(other, post), q.id))
    ensures forall r :: r in Replies(OfPost(other, post), q.id) ==> r in rows
  {
    var i :| 0 <= i < |rows| && rows[i] == q;
    FoundOfPost(scan, rows, post, i);
    assert q in scan && q in multiset(scan) && q in multiset(other);
    OfPostSame(other, post, q.id);
    FoundReplies(scan, rows, post, q);
    Shuffled(scan, other, q.id, post);
    forall r | r in Replies(OfPost(other, post), q.id) ensures r in rows {
      assert r in multiset(Replies(OfPost(other, post), q.id));
      assert r in multiset(Replies(rows, q.id));
      InReplies(rows, q.id, r);
    }
  }
}
