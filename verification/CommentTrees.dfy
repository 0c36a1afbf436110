/** The nested comments a post is returned with, and counting them. */
module CommentTrees {
  import opened Outcomes
  import opened CommentForest

  datatype Tree = Node(row: Row, comments: seq<Tree>)

  /** All rows of a forest, parents before their replies. */
  function All(ts: seq<Tree>): seq<Row> {
    if ts == [] then [] else [ts[0].row] + All(ts[0].comments) + All(ts[1..])
  }

  /** Rows below the first n trees. */
  function Below(ts: seq<Tree>, n: nat): nat
    requires n <= |ts|
  {
    if n == 0 then 0 else Below(ts, n - 1) + |All(ts[n - 1].comments)|
  }

  lemma {:induction false} BelowTail(ts: seq<Tree>, n: nat)
    requires 0 < n <= |ts|
    ensures Below(ts, n) == |All(ts[0].comments)| + Below(ts[1..], n - 1)
  {
    if n > 1 {
      BelowTail(ts, n - 1);
    }
  }

  lemma {:induction false} AllSize(ts: seq<Tree>)
    ensures |All(ts)| == |ts| + Below(ts, |ts|)
  {
    if ts != [] {
      AllSize(ts[1..]);
      BelowTail(ts, |ts|);
    }
  }

  /** Counting adds the length of every list, level by level. */
  method CountComments(comments: seq<Tree>) returns (total: nat)
    ensures total == |All(comments)|
    decreases comments
  {
    total := |comments|;
    for i := 0 to |comments|
      invariant total == |comments| + Below(comments, i)
    {
      var below := CountComments(comments[i].comments);
      total := total + below;
    }
    AllSize(comments);
  }

  // ------------------------------------------------------------ the forest of the query's rows

  /** The replies to `id` among the rows from m on, each with its own replies. */
  function Under(rows: seq<Row>, id: Id, m: nat): seq<Tree>
    decreases |rows| - m
  {
    if m >= |rows| then []
    else
      (if rows[m].parent == Some(id) then [Node(rows[m], Under(rows, rows[m].id, m + 1))] else [])
      + Under(rows, id, m + 1)
  }

  function TopTrees(rows: seq<Row>, post: Id, m: nat): seq<Tree>
    decreases |rows| - m
  {
    if m >= |rows| then []
    else
      (if IsTop(post, rows[m]) then [Node(rows[m], Under(rows, rows[m].id, m + 1))] else []) + TopTrees(rows, post, m + 1)
  }

  /** Parents come first and are unique: what the query's rows keep. */
  ghost predicate Ordered(rows: seq<Row>, post: Id) {
    DistinctIds(rows) && Parented(rows, |rows|, post) && forall r :: r in rows ==> r.id != post
  }

  function Heads(ts: seq<Tree>): seq<Row> {
    seq(|ts|, i requires 0 <= i < |ts| => ts[i].row)
  }

  lemma {:induction false} AllConcat(a: seq<Tree>, b: seq<Tree>)
    ensures All(a + b) == All(a) + All(b)
  {
    if a == [] {
      assert a + b == b;
    } else {
      assert (a + b)[1..] == a[1..] + b;
      AllConcat(a[1..], b);
    }
  }

  lemma AllCons(t: Tree, ts: seq<Tree>)
    ensures multiset(All([t] + ts)) == multiset{t.row} + multiset(All(t.comments)) + multiset(All(ts))
  {
    assert ([t] + ts)[1..] == ts;
  }

  predicate ParentAmong(rows: seq<Row>, k: nat, r: Row)
    requires k <= |rows|
  {
    exists j :: 0 <= j < k && r.parent == Some(rows[j].id)
  }

  function Branch(rows: seq<Row>, m: nat): multiset<Row>
    requires m < |rows|
  {
    multiset{rows[m]} + multiset(All(Under(rows, rows[m].id, m + 1)))
  }

  /** The branches from m on that hang from the post or from one of the first k rows. */
  function Open(rows: seq<Row>, post: Id, k: nat, m: nat): multiset<Row>
    requires k <= |rows|
    decreases |rows| - m
  {
    if m >= |rows| then multiset{}
    else (if IsTop(post, rows[m]) || ParentAmong(rows, k, rows[m]) then Branch(rows, m) else multiset{})
         + Open(rows, post, k, m + 1)
  }

  lemma UnderStep(rows: seq<Row>, id: Id, m: nat)
    requires m < |rows|
    ensures multiset(All(Under(rows, id, m))) ==
            (if rows[m].parent == Some(id) then Branch(rows, m) else multiset{}) + multiset(All(Under(rows, id, m + 1)))
  {
    var rest := Under(rows, id, m + 1);
    AllCons(Node(rows[m], Under(rows, rows[m].id, m + 1)), rest);
    assert [] + rest == rest;
  }

  lemma AmongNext(rows: seq<Row>, post: Id, k: nat, r: Row)
    requires Ordered(rows, post) && k < |rows|
    ensures (IsTop(post, r) || ParentAmong(rows, k + 1, r)) <==>
            (IsTop(post, r) || ParentAmong(rows, k, r)) || r.parent == Some(rows[k].id)
    ensures !((IsTop(post, r) || ParentAmong(rows, k, r)) && r.parent == Some(rows[k].id))
  {
    assert rows[k] in rows;
    if ParentAmong(rows, k + 1, r) {
      var j :| 0 <= j < k + 1 && r.parent == Some(rows[j].id);
      assert j < k ==> ParentAmong(rows, k, r);
    }
    if r.parent == Some(rows[k].id) {
      assert 0 <= k < k + 1 && ParentAmong(rows, k + 1, r);
    }
  }

  lemma UnderEnds(rows: seq<Row>, id: Id, m: nat)
    requires m >= |rows|
    ensures All(Under(rows, id, m)) == []
  {
  }

  /** Row k adds exactly the branches of its replies. */
  lemma {:induction false} OpenNext(rows: seq<Row>, post: Id, k: nat, m: nat)
    requires Ordered(rows, post) && k < |rows|
    ensures Open(rows, post, k + 1, m) == Open(rows, post, k, m) + multiset(All(Under(rows, rows[k].id, m)))
    decreases |rows| - m
  {
    hide Ordered, ParentAmong, Branch, Under, All;
    if m < |rows| {
      OpenNext(rows, post, k, m + 1);
      UnderStep(rows, rows[k].id, m);
      AmongNext(rows, post, k, rows[m]);
    } else {
      UnderEnds(rows, rows[k].id, m);
    }
  }

  lemma RowHangs(rows: seq<Row>, post: Id, k: nat)
    requires Ordered(rows, post) && k < |rows|
    ensures IsTop(post, rows[k]) || ParentAmong(rows, k, rows[k])
  {
    if !IsTop(post, rows[k]) {
      assert AnswersBefore(rows, k, |rows|);
    }
  }

  lemma OpenHead(rows: seq<Row>, post: Id, k: nat)
    requires k <= |rows|
    ensures k == |rows| ==> Open(rows, post, k, k) == multiset{}
    ensures k < |rows| && (IsTop(post, rows[k]) || ParentAmong(rows, k, rows[k])) ==>
      Open(rows, post, k, k) == multiset{rows[k]} + multiset(All(Under(rows, rows[k].id, k + 1))) + Open(rows, post, k, k + 1)
  {
    hide All, Under, ParentAmong;
  }

  lemma {:induction false} OpenIsRest(rows: seq<Row>, post: Id, k: nat)
    requires Ordered(rows, post) && k <= |rows|
    ensures Open(rows, post, k, k) == multiset(rows[k..])
    decreases |rows| - k
  {
    hide Open, Ordered, All, Under, ParentAmong;
    OpenHead(rows, post, k);
    if k < |rows| {
      RowHangs(rows, post, k);
      OpenIsRest(rows, post, k + 1);
      OpenNext(rows, post, k, k + 1);
      assert rows[k..] == [rows[k]] + rows[k + 1..];
    } else {
      assert rows[k..] == [];
    }
  }

  lemma {:induction false} OpenIsTop(rows: seq<Row>, post: Id, m: nat)
    ensures Open(rows, post, 0, m) == multiset(All(TopTrees(rows, post, m)))
    decreases |rows| - m
  {
    assert All([]) == [];
    hide All, Under;
    if m < |rows| {
      OpenIsTop(rows, post, m + 1);
      var rest := TopTrees(rows, post, m + 1);
      AllCons(Node(rows[m], Under(rows, rows[m].id, m + 1)), rest);
      assert [] + rest == rest;
      assert !ParentAmong(rows, 0, rows[m]);
    }
  }

  /** Every row of the query is in the forest exactly once, so counting the comments
      gives the number of rows. */
  lemma ForestHoldsAll(rows: seq<Row>, post: Id)
    requires Ordered(rows, post)
    ensures multiset(All(TopTrees(rows, post, 0))) == multiset(rows)
    ensures |All(TopTrees(rows, post, 0))| == |rows|
  {
    OpenIsTop(rows, post, 0);
    OpenIsRest(rows, post, 0);
    assert rows[0..] == rows;
    assert |multiset(All(TopTrees(rows, post, 0)))| == |multiset(rows)|;
  }

  // ------------------------------------------------------------ it is the attached forest

  lemma {:induction false} HeadsAre(rows: seq<Row>, id: Id, m: nat)
    requires m <= |rows|
    ensures Replies(rows, id) == Replies(rows[..m], id) + Heads(Under(rows, id, m))
    decreases |rows| - m
  {
    if m == |rows| {
      assert rows[..m] == rows;
    } else {
      HeadsAre(rows, id, m + 1);
      assert rows[..m + 1][..m] == rows[..m];
      hide Heads;
    }
  }

  /** A row found is a root exactly when it answers the post directly. */
  lemma RootIsTop(rows: seq<Row>, post: Id, k: nat)
    requires Ordered(rows, post) && k < |rows|
    ensures IsTop(post, rows[k]) <==> rows[k].parent.None? || rows[k].parent == Some(post)
  {
    if !IsTop(post, rows[k]) {
      assert AnswersBefore(rows, k, |rows|);
    }
  }

  lemma {:induction false} RootsAre(rows: seq<Row>, post: Id, m: nat)
    requires Ordered(rows, post) && m <= |rows|
    ensures Roots(rows, post) == Roots(rows[..m], post) + Heads(TopTrees(rows, post, m))
    decreases |rows| - m
  {
    hide Ordered, IsTop;
    if m == |rows| {
      assert rows[..m] == rows;
    } else {
      RootsAre(rows, post, m + 1);
      RootIsTop(rows, post, m);
      assert rows[..m + 1][..m] == rows[..m];
      hide Heads;
    }
  }

  lemma NoEarlierReplies(rows: seq<Row>, post: Id, i: nat)
    requires Ordered(rows, post) && i < |rows|
    ensures Replies(rows[..i + 1], rows[i].id) == []
  {
    var some := Replies(rows[..i + 1], rows[i].id);
    if some != [] {
      InReplies(rows[..i + 1], rows[i].id, some[0]);
      var j :| 0 <= j < i + 1 && rows[j] == some[0];
      ParentEarlier(rows, post, i, j);
    }
  }

  lemma ParentEarlier(rows: seq<Row>, post: Id, i: nat, j: nat)
    requires Ordered(rows, post) && i < |rows| && j < |rows| && rows[j].parent == Some(rows[i].id)
    ensures i < j
  {
    assert rows[i] in rows;
  }

  /** Every list of the tree is the list attached to its row. */
  ghost predicate Attached(kids: Kids, ts: seq<Tree>) {
    forall i :: 0 <= i < |ts| ==> Heads(ts[i].comments) == KidsOf(kids, ts[i].row.id) && Attached(kids, ts[i].comments)
  }

  lemma AttachedCons(kids: Kids, t: Tree, rest: seq<Tree>)
    requires Attached(kids, rest)
    requires Heads(t.comments) == KidsOf(kids, t.row.id) && Attached(kids, t.comments)
    ensures Attached(kids, [t] + rest) && Attached(kids, [] + rest)
  {
    assert [] + rest == rest;
    var all := [t] + rest;
    forall i | 0 <= i < |all| ensures Heads(all[i].comments) == KidsOf(kids, all[i].row.id) && Attached(kids, all[i].comments) {
      assert i > 0 ==> all[i] == rest[i - 1];
    }
  }

  lemma RowAttached(rows: seq<Row>, post: Id, m: nat)
    requires Ordered(rows, post) && m < |rows|
    ensures Heads(Under(rows, rows[m].id, m + 1)) == Replies(rows, rows[m].id)
  {
    hide Ordered, Heads, Under, Replies;
    HeadsAre(rows, rows[m].id, m + 1);
    NoEarlierReplies(rows, post, m);
    assert [] + Heads(Under(rows, rows[m].id, m + 1)) == Heads(Under(rows, rows[m].id, m + 1));
  }

  lemma {:induction false} UnderAttached(rows: seq<Row>, post: Id, kids: Kids, id: Id, m: nat)
    requires Ordered(rows, post) && forall r :: r in rows ==> KidsOf(kids, r.id) == Replies(rows, r.id)
    ensures Attached(kids, Under(rows, id, m))
    decreases |rows| - m
  {
    if m < |rows| {
      UnderAttached(rows, post, kids, id, m + 1);
      UnderAttached(rows, post, kids, rows[m].id, m + 1);
      RowAttached(rows, post, m);
      assert rows[m] in rows;
      AttachedCons(kids, Node(rows[m], Under(rows, rows[m].id, m + 1)), Under(rows, id, m + 1));
      hide Ordered, Attached, Heads;
    }
  }

  lemma {:induction false} TopAttached(rows: seq<Row>, post: Id, kids: Kids, m: nat)
    requires Ordered(rows, post) && forall r :: r in rows ==> KidsOf(kids, r.id) == Replies(rows, r.id)
    ensures Attached(kids, TopTrees(rows, post, m))
    decreases |rows| - m
  {
    if m < |rows| {
      TopAttached(rows, post, kids, m + 1);
      UnderAttached(rows, post, kids, rows[m].id, m + 1);
      RowAttached(rows, post, m);
      assert rows[m] in rows;
      AttachedCons(kids, Node(rows[m], Under(rows, rows[m].id, m + 1)), TopTrees(rows, post, m + 1));
      hide Ordered, Attached, Heads;
    }
  }

  /** The comments of a post: the list returned is the tops of the forest the attached
      lists make up, which holds every row found exactly once, so that counting the
      comments returned gives the number of rows. */
  method GetComments(scan: seq<Row>, post: Id) returns (roots: seq<Row>, rows: seq<Row>, kids: Kids, ghost forest: seq<Tree>)
    requires Thread(scan, post)
    ensures Walk(scan, rows, |rows|, post)
    ensures roots == Heads(forest) == Roots(rows, post) && multiset(roots) == multiset(Tops(scan, post))
    ensures Attached(kids, forest) && multiset(All(forest)) == multiset(rows) && |All(forest)| == |rows|
  {
    rows := CommentTree(scan, post);
    NoEmptyId(scan, rows, post);
    kids := Attach(rows);
    roots := RootsOf(rows, post);
    FoundRoots(scan, rows, post);
    forest := TopTrees(rows, post, 0);
    assert Ordered(rows, post);
    ForestHoldsAll(rows, post);
    assert forall r :: r in rows ==> r.id in Ids(rows);
    TopAttached(rows, post, kids, 0);
    RootsAre(rows, post, 0);
    assert [] + Heads(forest) == Heads(forest);
  }
}
