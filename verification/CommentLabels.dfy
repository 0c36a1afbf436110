/** Dotted labels for nested comments. */
module CommentLabels {
  import opened Outcomes
  import opened CommentForest
  import opened CommentTrees

  // ------------------------------------------------------------ numbers and paths as text

  function Digit(d: nat): char
    requires d < 10
  {
    "0123456789"[d]
  }

  predicate IsDigit(c: char) {
    '0' <= c <= '9'
  }

  function Decimal(n: nat): string {
    if n < 10 then [Digit(n)] else Decimal(n / 10) + [Digit(n % 10)]
  }

  function Value(s: string): nat {
    if s == [] then 0 else Value(s[..|s| - 1]) * 10 + (if IsDigit(s[|s| - 1]) then (s[|s| - 1] - '0') as nat else 0)
  }

  lemma {:induction false} DecimalValue(n: nat)
    ensures Value(Decimal(n)) == n && Decimal(n) != [] && forall c :: c in Decimal(n) ==> IsDigit(c)
  {
    if n < 10 {
      assert Decimal(n)[..0] == [];
    } else {
      DecimalValue(n / 10);
      assert Decimal(n)[..|Decimal(n)| - 1] == Decimal(n / 10);
    }
  }

  /** Positions counted from one, outermost first; never empty. */
  datatype Path = Last(n: nat) | More(n: nat, rest: Path)

  function Render(p: Path): string {
    match p
    case Last(n) => Decimal(n)
    case More(n, rest) => Decimal(n) + "." + Render(rest)
  }

  /** Where the first dot is, or the length. */
  function FirstDot(s: string): (k: nat)
    ensures k <= |s| && (forall i :: 0 <= i < k ==> s[i] != '.') && (k < |s| ==> s[k] == '.')
  {
    if s == [] || s[0] == '.' then 0 else 1 + FirstDot(s[1..])
  }

  function Decode(s: string): Path
    decreases |s|
  {
    var k := FirstDot(s);
    if k == |s| then Last(Value(s)) else More(Value(s[..k]), Decode(s[k + 1..]))
  }

  /** Reading a rendered path gives the path back, so "1.12" and "11.2" differ. */
  lemma {:induction false} DecodeRender(p: Path)
    ensures Decode(Render(p)) == p
  {
    var d := Decimal(p.n);
    DecimalValue(p.n);
    match p
    case Last(n) =>
      assert d + "" == d;
      NoDot(d, "");
    case More(n, rest) =>
      var tail := Render(rest);
      DecodeRender(rest);
      NoDot(d, "." + tail);
      assert d + ("." + tail) == d + "." + tail;
      hide Decode, Decimal, Value;
  }

  lemma NoDot(d: string, rest: string)
    requires (forall c :: c in d ==> IsDigit(c)) && (rest == "" || rest[0] == '.')
    ensures FirstDot(d + rest) == |d|
  {
    var s := d + rest;
    var k := FirstDot(s);
    assert forall i :: 0 <= i < |d| ==> s[i] in d;
    assert rest != "" ==> s[|d|] == rest[0];
  }

  // ------------------------------------------------------------ labels

  datatype Key = Key(text: string)

  function Label(prefix: string, p: Path): Key {
    Key("comment " + prefix + Render(p))
  }

  /** The second reply to the twelfth comment. */
  lemma LabelReads()
    ensures Label("", More(12, Last(2))).text == "comment 12.2"
  {
    assert Decimal(12) == Decimal(1) + [Digit(2)] == ['1', '2'];
    assert Render(More(12, Last(2))) == "12.2";
  }

  lemma LabelsDiffer(prefix: string, p: Path, q: Path)
    requires p != q
    ensures Label(prefix, p) != Label(prefix, q)
  {
    DecodeRender(p);
    DecodeRender(q);
    LabelTail(prefix, p);
    LabelTail(prefix, q);
    hide Label, Render, Decode;
  }

  lemma LabelTail(prefix: string, p: Path)
    ensures |Label(prefix, p).text| >= |"comment " + prefix|
    ensures Label(prefix, p).text[|"comment " + prefix|..] == Render(p)
  {
    hide Render;
  }

  lemma LabelNested(prefix: string, n: nat, q: Path)
    ensures Label(prefix + Decimal(n) + ".", q) == Label(prefix, More(n, q))
  {
    var tail := Render(q);
    var d := Decimal(n);
    assert Render(More(n, q)) == d + "." + tail;
    hide Render, Decimal;
    assert "comment " + (prefix + d + ".") + tail == "comment " + prefix + (d + "." + tail);
  }

  /** The comment a path leads to. */
  function Find(ts: seq<Tree>, p: Path): Option<Tree>
    decreases p
  {
    if p.n == 0 || p.n > |ts| then None
    else
      match p
      case Last(n) => Some(ts[n - 1])
      case More(n, rest) => Find(ts[n - 1].comments, rest)
  }

  lemma FindInside(ts: seq<Tree>, p: Path)
    ensures Find(ts, p).Some? ==> 0 < p.n <= |ts|
  {
  }

  datatype Entry = Entry(id: Id, comments: seq<Entry>)

  function Copied(ts: seq<Tree>): seq<Entry> {
    if ts == [] then [] else [Entry(ts[0].row.id, Copied(ts[0].comments))] + Copied(ts[1..])
  }

  lemma {:induction false} CopiedNext(ts: seq<Tree>, i: nat)
    requires i < |ts|
    ensures Copied(ts[..i + 1]) == Copied(ts[..i]) + [Entry(ts[i].row.id, Copied(ts[i].comments))]
    decreases i
  {
    if i == 0 {
      assert ts[..1][1..] == [];
    } else {
      CopiedNext(ts[1..], i - 1);
      assert ts[..i + 1][1..] == ts[1..][..i] && ts[..i][1..] == ts[1..][..i - 1];
    }
  }

  /** The id of the comment a path leads to, if it leads to one. */
  function IdAt(ts: seq<Tree>, p: Path): Id {
    if Find(ts, p).Some? then Find(ts, p).value.row.id else Id("")
  }

  /** A path within the first n comments and what is below them. */
  predicate Within(ts: seq<Tree>, n: nat, p: Path) {
    p.n <= n && Find(ts, p).Some?
  }

  ghost predicate Named(ts: seq<Tree>, prefix: string, n: nat, l: Key) {
    exists p :: Within(ts, n, p) && Label(prefix, p) == l
  }

  /** `labels` names exactly those paths, each with the id of its comment. */
  ghost predicate Labelled(ts: seq<Tree>, prefix: string, labels: map<Key, Id>, n: nat) {
    && (forall p :: Within(ts, n, p) ==> Labels(prefix, labels, p, IdAt(ts, p)))
    && (forall l :: l in labels ==> Named(ts, prefix, n, l))
  }

  predicate Labels(prefix: string, labels: map<Key, Id>, p: Path, id: Id) {
    Label(prefix, p) in labels && labels[Label(prefix, p)] == id
  }

  lemma WithinBelow(ts: seq<Tree>, i: nat, p: Path)
    requires i < |ts|
    ensures Within(ts, i + 1, p) <==>
      Within(ts, i, p) || p == Last(i + 1) || (p.More? && p.n == i + 1 && Within(ts[i].comments, |ts[i].comments|, p.rest))
    ensures p == Last(i + 1) ==> IdAt(ts, p) == ts[i].row.id
    ensures p.More? && p.n == i + 1 ==> IdAt(ts, p) == IdAt(ts[i].comments, p.rest)
  {
    if p.More? {
      FindInside(ts[i].comments, p.rest);
    }
  }

  ghost predicate ChildLabelled(ts: seq<Tree>, prefix: string, i: nat, child: map<Key, Id>)
    requires i < |ts|
  {
    && (forall q :: Within(ts[i].comments, |ts[i].comments|, q) ==>
          Labels(prefix, child, More(i + 1, q), IdAt(ts[i].comments, q)))
    && (forall l :: l in child ==> BelowNamed(ts, prefix, i, l))
  }

  /** The labels below comment number i + 1, as labels of the whole list. */
  lemma ChildLabels(ts: seq<Tree>, prefix: string, i: nat, child: map<Key, Id>)
    requires i < |ts| && Labelled(ts[i].comments, prefix + Decimal(i + 1) + ".", child, |ts[i].comments|)
    ensures ChildLabelled(ts, prefix, i, child)
  {
    var inner, kids := prefix + Decimal(i + 1) + ".", ts[i].comments;
    hide Label, Within, IdAt;
    forall q ensures Label(inner, q) == Label(prefix, More(i + 1, q)) {
      LabelNested(prefix, i + 1, q);
    }
    hide Decimal;
    forall l | l in child ensures BelowNamed(ts, prefix, i, l) {
      assert Named(kids, inner, |kids|, l);
      var q :| Within(kids, |kids|, q) && Label(inner, q) == l;
      assert BelowLabel(prefix, i, q) == l;
    }
    forall q | Within(kids, |kids|, q) ensures Labels(prefix, child, More(i + 1, q), IdAt(kids, q)) {
      assert Labels(inner, child, q, IdAt(kids, q));
    }
  }

  function BelowLabel(prefix: string, i: nat, q: Path): Key {
    Label(prefix, More(i + 1, q))
  }

  ghost predicate BelowNamed(ts: seq<Tree>, prefix: string, i: nat, l: Key)
    requires i < |ts|
  {
    exists q :: Within(ts[i].comments, |ts[i].comments|, q) && BelowLabel(prefix, i, q) == l
  }

  /** The comment's own label, the earlier ones and those below it are all different. */
  lemma LabelsApart(ts: seq<Tree>, prefix: string, i: nat, labels: map<Key, Id>, child: map<Key, Id>)
    requires i < |ts| && Labelled(ts, prefix, labels, i) && ChildLabelled(ts, prefix, i, child)
    ensures Label(prefix, Last(i + 1)) !in labels && Label(prefix, Last(i + 1)) !in child
    ensures labels.Keys !! child.Keys
  {
    var own := Label(prefix, Last(i + 1));
    hide Label;
    forall l | l in labels ensures l != own && l !in child {
      assert Named(ts, prefix, i, l);
      var p :| Within(ts, i, p) && Label(prefix, p) == l;
      LabelsDiffer(prefix, p, Last(i + 1));
      forall q ensures BelowLabel(prefix, i, q) != l {
        LabelsDiffer(prefix, p, More(i + 1, q));
      }
      assert !BelowNamed(ts, prefix, i, l);
    }
    forall l | l in child ensures l != own {
      assert BelowNamed(ts, prefix, i, l);
      var q :| BelowLabel(prefix, i, q) == l;
      LabelsDiffer(prefix, More(i + 1, q), Last(i + 1));
    }
  }

  lemma PathLabelled(ts: seq<Tree>, prefix: string, i: nat, labels: map<Key, Id>, child: map<Key, Id>, p: Path)
    requires i < |ts| && Labelled(ts, prefix, labels, i) && ChildLabelled(ts, prefix, i, child)
    requires Within(ts, i + 1, p) && labels.Keys !! child.Keys && Label(prefix, Last(i + 1)) !in child
    ensures Labels(prefix, labels[Label(prefix, Last(i + 1)) := ts[i].row.id] + child, p, IdAt(ts, p))
  {
    WithinBelow(ts, i, p);
    hide Label, Within, IdAt, BelowNamed, Named;
    if Within(ts, i, p) {
      assert Labels(prefix, labels, p, IdAt(ts, p));
      LabelsDifferFirst(ts, prefix, i, p);
    } else if p.More? {
      assert Labels(prefix, child, More(i + 1, p.rest), IdAt(ts[i].comments, p.rest));
    }
  }

  lemma LabelsJoin(ts: seq<Tree>, prefix: string, i: nat, labels: map<Key, Id>, child: map<Key, Id>)
    requires i < |ts| && Labelled(ts, prefix, labels, i) && ChildLabelled(ts, prefix, i, child)
    ensures Labelled(ts, prefix, labels[Label(prefix, Last(i + 1)) := ts[i].row.id] + child, i + 1)
  {
    var mine := labels[Label(prefix, Last(i + 1)) := ts[i].row.id];
    LabelsApart(ts, prefix, i, labels, child);
    hide Label, Within, IdAt, Named, Labels, ChildLabelled;
    forall p | Within(ts, i + 1, p) ensures Labels(prefix, mine + child, p, IdAt(ts, p)) {
      PathLabelled(ts, prefix, i, labels, child, p);
    }
    forall l | l in mine + child ensures Named(ts, prefix, i + 1, l) {
      NamedNext(ts, prefix, i, labels, child, l);
    }
  }

  /** One more comment: its own label and those below it. */
  lemma LabelsNext(ts: seq<Tree>, prefix: string, i: nat, labels: map<Key, Id>, child: map<Key, Id>)
    requires i < |ts| && Labelled(ts, prefix, labels, i)
    requires Labelled(ts[i].comments, prefix + Decimal(i + 1) + ".", child, |ts[i].comments|)
    ensures Labelled(ts, prefix, labels[Label(prefix, Last(i + 1)) := ts[i].row.id] + child, i + 1)
    ensures |labels[Label(prefix, Last(i + 1)) := ts[i].row.id] + child| == |labels| + 1 + |child|
  {
    hide Label, Decimal, Labelled, ChildLabelled;
    ChildLabels(ts, prefix, i, child);
    LabelsApart(ts, prefix, i, labels, child);
    LabelsJoin(ts, prefix, i, labels, child);
  }

  lemma LabelsDifferFirst(ts: seq<Tree>, prefix: string, i: nat, p: Path)
    requires Within(ts, i, p)
    ensures Label(prefix, p) != Label(prefix, Last(i + 1))
  {
    LabelsDiffer(prefix, p, Last(i + 1));
  }

  lemma NamedNext(ts: seq<Tree>, prefix: string, i: nat, labels: map<Key, Id>, child: map<Key, Id>, l: Key)
    requires i < |ts| && Labelled(ts, prefix, labels, i) && ChildLabelled(ts, prefix, i, child)
    requires l in labels || l in child || l == Label(prefix, Last(i + 1))
    ensures Named(ts, prefix, i + 1, l)
  {
    hide Label;
    if l in child {
      assert BelowNamed(ts, prefix, i, l);
      var q :| Within(ts[i].comments, |ts[i].comments|, q) && BelowLabel(prefix, i, q) == l;
      WithinBelow(ts, i, More(i + 1, q));
    } else if l in labels {
      assert Named(ts, prefix, i, l);
      var p :| Within(ts, i, p) && Label(prefix, p) == l;
      WithinBelow(ts, i, p);
    } else {
      WithinBelow(ts, i, Last(i + 1));
    }
  }

  /** Labels every comment at every depth: the labels name exactly the paths that lead
      to a comment, and there are as many as comments. */
  method ProcessComments(comments: seq<Tree>, prefix: string) returns (list: seq<Entry>, labels: map<Key, Id>)
    ensures list == Copied(comments)
    ensures Labelled(comments, prefix, labels, |comments|)
    ensures |labels| == |All(comments)|
    decreases comments
  {
    list, labels := [], map[];
    AllSize(comments);
    NoLabels(comments, prefix);
    hide Label, Decimal, All, Labelled;
    for i := 0 to |comments|
      invariant list == Copied(comments[..i])
      invariant Labelled(comments, prefix, labels, i) && |labels| == i + Below(comments, i)
    {
      var comment := comments[i];
      var current := prefix + Decimal(i + 1);
      var childList, childLabels := [], map[];
      NoLabels(comment.comments, current + ".");
      if comment.comments != [] {
        childList, childLabels := ProcessComments(comment.comments, current + ".");
      }
      LabelsNext(comments, prefix, i, labels, childLabels);
      CopiedNext(comments, i);
      KeyIs(prefix, i + 1);
      labels := labels[Key("comment " + current) := comment.row.id];
      labels := labels + childLabels;
      list := list + [Entry(comment.row.id, childList)];
    }
    assert comments[..|comments|] == comments;
  }

  lemma KeyIs(prefix: string, n: nat)
    ensures Label(prefix, Last(n)) == Key("comment " + (prefix + Decimal(n)))
  {
    assert "comment " + prefix + Decimal(n) == "comment " + (prefix + Decimal(n));
  }

  lemma NoLabels(ts: seq<Tree>, prefix: string)
    ensures Labelled(ts, prefix, map[], 0)
    ensures ts == [] ==> |All(ts)| == 0 && Copied(ts) == []
  {
    hide Label;
  }

  /** Decoding a label of the whole forest leads to the comment it is mapped to, and
      encoding that path again gives the label. */
  lemma LabelsDecode(comments: seq<Tree>, labels: map<Key, Id>, l: Key)
    requires Labelled(comments, "", labels, |comments|) && l in labels
    ensures |l.text| >= 8 && Find(comments, Decode(l.text[8..])).Some?
    ensures labels[l] == Find(comments, Decode(l.text[8..])).value.row.id
    ensures l == Label("", Decode(l.text[8..]))
  {
    assert Named(comments, "", |comments|, l);
    var p :| Within(comments, |comments|, p) && Label("", p) == l;
    assert Labels("", labels, p, IdAt(comments, p));
    LabelTail("", p);
    assert |"comment " + ""| == 8;
    DecodeRender(p);
    hide Find, Decode, Render, Label;
  }

  /** Every comment a path leads to has a label, and different paths have different ones. */
  lemma EveryCommentLabelled(comments: seq<Tree>, labels: map<Key, Id>, p: Path, q: Path)
    requires Labelled(comments, "", labels, |comments|) && Find(comments, p).Some?
    ensures Label("", p) in labels && labels[Label("", p)] == Find(comments, p).value.row.id
    ensures p != q ==> Label("", p) != Label("", q)
  {
    FindInside(comments, p);
    assert Labels("", labels, p, IdAt(comments, p));
    if p != q {
      LabelsDiffer("", p, q);
    }
  }
}
