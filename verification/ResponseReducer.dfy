/** `process_action` on the coded-response table, and the two-pass
    `process_all_responses_action`. */
module ResponseReducer {
  import opened Outcomes
  import opened QueryBuilder
  import opened Repositories
  import opened Diffs
  import opened UndoRuns
  import opened TableActions
  import opened Merging

  const RESPONSE_SCHEMA: Schema := map[
    "id" := ColumnType(TextColumn, false), "workspace_id" := ColumnType(TextColumn, false),
    "model" := ColumnType(TextColumn, false), "quote" := ColumnType(TextColumn, false),
    "code" := ColumnType(TextColumn, false), "explanation" := ColumnType(TextColumn, false),
    "post_id" := ColumnType(TextColumn, false), "codebook_type" := ColumnType(TextColumn, false),
    "response_type" := ColumnType(TextColumn, false), "theme_id" := ColumnType(TextColumn, true),
    "grouped_code_id" := ColumnType(TextColumn, true), "chat_history" := ColumnType(TextColumn, true),
    "created_at" := ColumnType(TextColumn, true), "is_marked" := ColumnType(BoolColumn, true),
    "range_marker" := ColumnType(TextColumn, true), "source" := ColumnType(TextColumn, true)]

  /** A response of an action's payload, its id already resolved. */
  datatype Response = Response(id: string, quote: string, code: string, explanation: string, postId: string,
                               model: string, responseType: string, chat: string, mark: Option<Value>, createdAt: Value)

  /** A codebook type is passed as text; the member of the enumeration that stands
      for it is a different object. */
  datatype TypeName = Word(s: string) | Member(s: string)

  /** The mark of a response that brings none: Null, except true when the codebook
      type is the member FINAL. */
  function DefaultMark(ctype: TypeName): (mark: Value)
    ensures ctype.Word? ==> mark == Null
  {
    if ctype != Member("final") then Null else Num(1)
  }

  /** Actions that update the columns of addressed rows. */
  datatype WriteAction =
    | SetIncorrect(id: Value)
    | MarkResponse(id: Value, mark: Value)
    | MarkByText(code: string, quote: string, postId: string, mark: Value)
    | EditCode(current: string, new_: string)
    | UpdateCode(quote: string, previous: string, new_: string)
    | EditHighlight(postId: string, sentence: string, code: string, newSentence: string, marker: Option<string>)
    | SetChatHistory(postId: string, sentence: string, code: string, chat: string)
    | UpsertMarker(code: string, quote: string, postId: string, range: Value)

  /** Actions that mark every row in scope. */
  datatype MarkAction =
    | SetAllCorrect
    | SetAllIncorrect
    | SetAllUnmarked
    | SetAllCorrectBy(extra: FilterMap)
    | SetAllIncorrectBy(extra: FilterMap)

  /** Actions that insert or delete rows. */
  datatype RowAction =
    | AddResponses(responses: seq<Response>)
    | SetResponses(responses: seq<Response>)
    | SetPartialResponses(responses: seq<Response>)
    | RemoveAll
    | RemoveIds(ids: seq<Value>)
    | DeleteCode(code: string)
    | DeleteHighlight(postId: string, quote: string, code: string)
    | Reset

  /** A response of a RESTORE_STATE payload: its id, and the columns it gives. */
  datatype Item = Item(id: Value, given: Cells)

  datatype Action =
    | Write(w: WriteAction)
    | MarkMany(m: MarkAction)
    | ChangeRows(c: RowAction)
    | RestoreState(items: seq<Item>)
    | Restore(payload: Diff)

  function Base(ws: string, ctype: string): FilterMap {
    [Equals("workspace_id", Text(ws)), Equals("codebook_type", Text(ctype))]
  }

  function SetRange(marker: Option<string>): Cells {
    if marker.Some? then map["range_marker" := Text(marker.value)] else map[]
  }

  /** The rows and columns a single-update action addresses. */
  function WriteOf(ws: string, ctype: string, a: WriteAction): (r: (FilterMap, Cells))
    ensures "id" !in r.1
  {
    match a
    case SetIncorrect(id) => (ById(id), map["is_marked" := Num(0)])
    case MarkResponse(id, mark) => (ById(id), map["is_marked" := mark])
    case MarkByText(c, q, p, mark) =>
      (Base(ws, ctype) + [Equals("code", Text(c)), Equals("quote", Text(q)), Equals("post_id", Text(p))],
       map["is_marked" := mark])
    case EditCode(cur, new_) => (Base(ws, ctype) + [Equals("code", Text(cur))], map["code" := Text(new_)])
    case UpdateCode(q, prev, new_) =>
      (Base(ws, ctype) + [Equals("quote", Text(q)), Equals("code", Text(prev))], map["code" := Text(new_)])
    case EditHighlight(p, s, c, new_, marker) =>
      (Base(ws, ctype) + [Equals("post_id", Text(p)), Equals("quote", Text(s)), Equals("code", Text(c))],
       map["quote" := Text(new_)] + SetRange(marker))
    case SetChatHistory(p, s, c, chat) =>
      (Base(ws, ctype) + [Equals("post_id", Text(p)), Equals("quote", Text(s)), Equals("code", Text(c))],
       map["chat_history" := Text(chat)])
    case UpsertMarker(c, q, p, marker) =>
      (Base(ws, ctype) + [Equals("code", Text(c)), Equals("quote", Text(q)), Equals("post_id", Text(p))],
       map["range_marker" := marker])
  }

  predicate IsSpace(c: char) {
    c in {' ', '\t', '\n', '\r'}
  }

  /** `s.strip()` is not empty. */
  predicate NonBlank(s: string) {
    exists i :: 0 <= i < |s| && !IsSpace(s[i])
  }

  function Kept(rs: seq<Response>): seq<Response> {
    if rs == [] then []
    else
      var front := Kept(rs[..|rs| - 1]);
      var r := rs[|rs| - 1];
      if NonBlank(r.code) && NonBlank(r.quote) then front + [r] else front
  }

  lemma {:induction false} KeptIff(rs: seq<Response>, r: Response)
    ensures r in Kept(rs) <==> r in rs && NonBlank(r.code) && NonBlank(r.quote)
    decreases |rs|
  {
    hide NonBlank;
    if rs != [] {
      KeptIff(rs[..|rs| - 1], r);
      assert rs == rs[..|rs| - 1] + [rs[|rs| - 1]];
    }
  }

  function RowOf(ws: string, ctype: string, r: Response): Row {
    Row(Text(r.id), map["workspace_id" := Text(ws), "model" := Text(r.model), "quote" := Text(r.quote),
                        "code" := Text(r.code), "explanation" := Text(r.explanation), "post_id" := Text(r.postId),
                        "codebook_type" := Text(ctype), "response_type" := Text(r.responseType),
                        "theme_id" := Null, "grouped_code_id" := Null, "chat_history" := Text(r.chat),
                        "created_at" := r.createdAt,
                        "is_marked" := if r.mark.Some? then r.mark.value else DefaultMark(Word(ctype)), "range_marker" := Null, "source" := Null])
  }

  function RowsOf(ws: string, ctype: string, rs: seq<Response>): seq<Row> {
    seq(|rs|, i requires 0 <= i < |rs| => RowOf(ws, ctype, rs[i]))
  }

  function OfPosts(ws: string, ctype: string, rs: seq<Response>): FilterMap {
    Base(ws, ctype) + [("post_id", Plain(Many(seq(|rs|, i requires 0 <= i < |rs| => Text(rs[i].postId)))))]
  }

  function Sel(t: Table, f: FilterMap): set<Value> {
    Selected(RESPONSE_SCHEMA, t, f)
  }

  function Mark(t: Table, id: Value): Value
    requires id in t
  {
    At(t[id], "is_marked")
  }

  predicate Truthy(v: Value) {
    v.Num? && v.n != 0
  }

  function Marked(t: Table, f: FilterMap, mark: Value): Table {
    Overwrite(t, Sel(t, f), Stored(RESPONSE_SCHEMA, map["is_marked" := mark]))
  }

  predicate AllTrue(t: Table, f: FilterMap) {
    forall id :: id in Sel(t, f) ==> Truthy(Mark(t, id))
  }

  predicate AllFalse(t: Table, f: FilterMap) {
    forall id :: id in Sel(t, f) ==> Mark(t, id) == Num(0)
  }

  function MarksAfter(t: Table, base: FilterMap, m: MarkAction): Table {
    match m
    case SetAllCorrect => Marked(t, base, if AllTrue(t, base) then Null else Num(1))
    case SetAllIncorrect => Marked(t, base, if AllFalse(t, base) then Null else Num(0))
    case SetAllUnmarked => Marked(t, base, Null)
    case SetAllCorrectBy(x) => Marked(t, base + x, if AllTrue(t, base + x) then Null else Num(1))
    case SetAllIncorrectBy(x) => Marked(t, base + x, Num(0))
  }

  function RowsAfter(t: Table, ws: string, ctype: string, c: RowAction): Table {
    var base := Base(ws, ctype);
    match c
    case AddResponses(rs) => Replaced(RESPONSE_SCHEMA, t, {}, RowsOf(ws, ctype, Kept(rs)))
    case SetResponses(rs) => Replaced(RESPONSE_SCHEMA, t, Sel(t, base), RowsOf(ws, ctype, Kept(rs)))
    case SetPartialResponses(rs) =>
      Replaced(RESPONSE_SCHEMA, t, Sel(t, OfPosts(ws, ctype, Kept(rs))), RowsOf(ws, ctype, Kept(rs)))
    case RemoveAll => t - Sel(t, base)
    case RemoveIds(ids) => if ids == [] then t else t - Sel(t, ByIds(ids))
    case DeleteCode(code) => t - Sel(t, base + [Equals("code", Text(code))])
    case DeleteHighlight(p, q, code) =>
      t - Sel(t, base + [Equals("post_id", Text(p)), Equals("quote", Text(q)), Equals("code", Text(code))])
    case Reset => t - Sel(t, base)
  }

  predicate BlankId(id: Value) {
    id.Null? || id == Num(0) || id == Text("")
  }

  /** The columns RESTORE_STATE keeps when the payload does not give them. */
  const KEPT := {"model", "quote", "code", "explanation", "post_id", "response_type", "chat_history", "is_marked", "range_marker"}

  function KeptCells(ws: string, ctype: string, existing: Cells): Cells {
    map["workspace_id" := Text(ws), "codebook_type" := Text(ctype)] + (map f | f in KEPT && f in existing :: existing[f])
  }

  /** The columns of a payload response that are read. */
  function ReadCells(given: Cells): Cells {
    map f | f in given && f in KEPT + {"codebook_type"} :: given[f]
  }

  /** What one payload response writes over the row it names. */
  function ItemCells(ws: string, ctype: string, existing: Cells, given: Cells): Cells {
    KeptCells(ws, ctype, existing) + ReadCells(given)
  }

  predicate AllStorable(cells: Cells) {
    forall f :: f in cells ==> Storable(RESPONSE_SCHEMA, f, cells[f])
  }

  /** A payload response without an id is skipped; an id no row has raises. */
  predicate ItemRuns(t: Table, it: Item) {
    BlankId(it.id) || (it.id in t && AllStorable(ReadCells(it.given)))
  }

  function ItemWritten(t: Table, ws: string, ctype: string, it: Item): Table {
    if BlankId(it.id) || it.id !in t then t
    else Overwrite(t, {it.id}, Stored(RESPONSE_SCHEMA, ItemCells(ws, ctype, t[it.id], it.given)))
  }

  /** The payload's rows written one after the other; ids may repeat. */
  function AllWritten(t: Table, ws: string, ctype: string, items: seq<Item>): (r: Table)
    ensures r.Keys == t.Keys
  {
    if items == [] then t
    else ItemWritten(AllWritten(t, ws, ctype, items[..|items| - 1]), ws, ctype, items[|items| - 1])
  }

  /** The table each action leaves when it succeeds. */
  function TableAfter(t: Table, ws: string, ctype: string, a: Action): Table {
    match a
    case Write(w) => var (f, ups) := WriteOf(ws, ctype, w); Overwrite(t, Sel(t, f), Stored(RESPONSE_SCHEMA, ups))
    case MarkMany(m) => MarksAfter(t, Base(ws, ctype), m)
    case ChangeRows(c) => RowsAfter(t, ws, ctype, c)
    case RestoreState(items) => AllWritten(t, ws, ctype, items)
    case Restore(d) => AfterRestore(RESPONSE_SCHEMA, t, d).rows
  }

  // ------------------------------------------------------ when an action returns

  /** Ids are text or missing, marks numbers or missing, range markers text or missing. */
  predicate WriteSucceeds(w: WriteAction) {
    match w
    case SetIncorrect(id) => !id.Num?
    case MarkResponse(id, mark) => !id.Num? && !mark.Text?
    case MarkByText(_, _, _, mark) => !mark.Text?
    case UpsertMarker(_, _, _, range) => !range.Num?
    case _ => true
  }

  predicate MarksSucceed(base: FilterMap, m: MarkAction) {
    match m
    case SetAllCorrectBy(x) => Runs(RESPONSE_SCHEMA, base + x)
    case SetAllIncorrectBy(x) => Runs(RESPONSE_SCHEMA, base + x)
    case _ => Runs(RESPONSE_SCHEMA, base)
  }

  predicate RowsSucceed(t: Table, ws: string, ctype: string, c: RowAction, useIndex: bool) {
    match c
    case AddResponses(rs) => Fits(RESPONSE_SCHEMA, t, {}, RowsOf(ws, ctype, Kept(rs)))
    case SetResponses(rs) => Fits(RESPONSE_SCHEMA, t, Sel(t, Base(ws, ctype)), RowsOf(ws, ctype, Kept(rs)))
    case SetPartialResponses(rs) =>
      Kept(rs) != [] && Fits(RESPONSE_SCHEMA, t, Sel(t, OfPosts(ws, ctype, Kept(rs))), RowsOf(ws, ctype, Kept(rs)))
    case RemoveIds(ids) => if ids == [] then useIndex else forall id :: id in ids ==> id.Text?
    case _ => true
  }

  /** When each action returns rather than raises. */
  predicate Succeeds(t: Table, ws: string, ctype: string, a: Action, useIndex: bool) {
    match a
    case Write(w) => WriteSucceeds(w)
    case MarkMany(m) => MarksSucceed(Base(ws, ctype), m)
    case ChangeRows(c) => RowsSucceed(t, ws, ctype, c, useIndex)
    case RestoreState(items) => forall it :: it in items ==> ItemRuns(t, it)
    case Restore(d) => CanRestore(RESPONSE_SCHEMA, t, d)
  }

  /** Equalities of text columns with text always run. */
  predicate TextEquals(f: FilterMap) {
    forall i :: 0 <= i < |f| ==>
      && f[i].0 in RESPONSE_SCHEMA && RESPONSE_SCHEMA[f[i].0].affinity.TextColumn?
      && f[i].1.Plain? && f[i].1.operand.One? && !f[i].1.operand.v.Num?
  }

  lemma TextEqualsRun(f: FilterMap)
    requires TextEquals(f) && f != []
    ensures Runs(RESPONSE_SCHEMA, f)
  {
    FilterRunsIff(RESPONSE_SCHEMA, f);
    hide FilterRuns, EntryRuns;
    forall i | 0 <= i < |f| ensures EntryRuns(RESPONSE_SCHEMA, f[i]) {
      EqualsRuns(RESPONSE_SCHEMA, f[i].0, f[i].1.operand.v);
      assert f[i] == Equals(f[i].0, f[i].1.operand.v);
    }
  }

  lemma ByIdTextRuns(id: Value)
    ensures Runs(RESPONSE_SCHEMA, ById(id)) <==> !id.Num?
  {
    FilterRunsIff(RESPONSE_SCHEMA, ById(id));
    EqualsRuns(RESPONSE_SCHEMA, "id", id);
    hide FilterRuns, EntryRuns, RESPONSE_SCHEMA;
    assert ById(id)[0] == Equals("id", id);
  }

  lemma OneUpdateRuns(column: string, v: Value)
    ensures UpdatesRun(RESPONSE_SCHEMA, map[column := v]) <==> Storable(RESPONSE_SCHEMA, column, v)
  {
    var ups := map[column := v];
    assert ups[column] == v;
  }

  lemma WriteRuns(ws: string, ctype: string, w: WriteAction)
    ensures var (f, ups) := WriteOf(ws, ctype, w);
            Runs(RESPONSE_SCHEMA, f) && UpdatesRun(RESPONSE_SCHEMA, ups) <==> WriteSucceeds(w)
  {
    WriteFilterRuns(ws, ctype, w);
    WriteUpdatesRun(ws, ctype, w);
    hide Runs, UpdatesRun, WriteOf, RESPONSE_SCHEMA;
  }

  lemma WriteFilterRuns(ws: string, ctype: string, w: WriteAction)
    ensures Runs(RESPONSE_SCHEMA, WriteOf(ws, ctype, w).0) <==> (w.SetIncorrect? || w.MarkResponse? ==> !w.id.Num?)
  {
    hide FilterRuns, EntryRuns;
    if w.SetIncorrect? || w.MarkResponse? {
      ByIdTextRuns(w.id);
    } else {
      TextEqualsRun(WriteOf(ws, ctype, w).0);
    }
  }

  lemma WriteUpdatesRun(ws: string, ctype: string, w: WriteAction)
    ensures UpdatesRun(RESPONSE_SCHEMA, WriteOf(ws, ctype, w).1) <==>
            match w
            case MarkResponse(_, mark) => !mark.Text?
            case MarkByText(_, _, _, mark) => !mark.Text?
            case UpsertMarker(_, _, _, range) => !range.Num?
            case _ => true
  {
    match w {
      case SetIncorrect(_) => OneUpdateRuns("is_marked", Num(0));
      case MarkResponse(_, mark) => OneUpdateRuns("is_marked", mark);
      case MarkByText(_, _, _, mark) => OneUpdateRuns("is_marked", mark);
      case UpsertMarker(_, _, _, range) => OneUpdateRuns("range_marker", range);
      case EditCode(_, new_) => OneUpdateRuns("code", Text(new_));
      case UpdateCode(_, _, new_) => OneUpdateRuns("code", Text(new_));
      case SetChatHistory(_, _, _, chat) => OneUpdateRuns("chat_history", Text(chat));
      case EditHighlight(_, _, _, new_, marker) =>
        var ups := map["quote" := Text(new_)] + SetRange(marker);
        assert ups["quote"] == Text(new_);
    }
  }

  lemma OfPostsRuns(ws: string, ctype: string, rs: seq<Response>)
    ensures Runs(RESPONSE_SCHEMA, OfPosts(ws, ctype, rs)) <==> rs != []
  {
    var f, base := OfPosts(ws, ctype, rs), Base(ws, ctype);
    TextEqualsRun(base);
    assert f == base + [f[2]];
    FilterMore(RESPONSE_SCHEMA, base, f[2]);
    PostsRun(rs);
    hide FilterRuns, EntryRuns;
  }

  lemma PostsRun(rs: seq<Response>)
    ensures EntryRuns(RESPONSE_SCHEMA, ("post_id", Plain(Many(seq(|rs|, i requires 0 <= i < |rs| => Text(rs[i].postId))))))
            <==> rs != []
  {
  }

  lemma ByIdsRun(ids: seq<Value>)
    ensures Runs(RESPONSE_SCHEMA, ByIds(ids)) <==> ids != [] && forall id :: id in ids ==> id.Text?
  {
    if ids == [] {
      EmptyListRaises();
    } else {
      var rows := seq(|ids|, i requires 0 <= i < |ids| => Row(ids[i], map[]));
      IdsTyped(RESPONSE_SCHEMA, rows, ids);
      assert TypedIds(RESPONSE_SCHEMA, rows) <==> forall id :: id in ids ==> id.Text? by {
        forall r | r in rows ensures r.id in ids {
        }
        forall id | id in ids ensures exists r :: r in rows && r.id == id {
          var i :| 0 <= i < |ids| && ids[i] == id;
          assert rows[i] in rows;
        }
        hide FilterRuns;
      }
    }
  }

  // -------------------------------------------------------------- the actions

  /** Every modelled branch, with the diff it returns: RESTORE_STATE a chain of
      updates, the others one that describes the change. */
  method Process(repo: Repository, ws: string, ctype: string, a: Action, useIndex: bool) returns (r: Result<Diff>)
    requires repo.builder.schema == RESPONSE_SCHEMA && Conforms(RESPONSE_SCHEMA, repo.rows)
    requires a.Restore? ==> Shaped(RESPONSE_SCHEMA, a.payload)
    modifies repo`rows, repo.builder
    ensures Conforms(RESPONSE_SCHEMA, repo.rows)
    ensures r.Ok? <==> Succeeds(old(repo.rows), ws, ctype, a, useIndex)
    ensures r.Ok? ==> repo.rows == TableAfter(old(repo.rows), ws, ctype, a)
    ensures r.Ok? && !a.Restore? && !a.RestoreState? ==> Faithful(old(repo.rows), r.value, repo.rows)
    ensures r.Ok? && (a.Write? || a.MarkMany?) ==> UpdatesOnly(r.value)
    ensures r.Ok? && a.ChangeRows? ==> WithinType(ctype, a.c, r.value)
    ensures r.Ok? && a.RestoreState? ==> Chained(old(repo.rows), r.value, repo.rows)
    ensures r.Ok? && a.Restore? ==> Restores(RESPONSE_SCHEMA, old(repo.rows), a.payload, repo.rows, r.value)
  {
    hide Conforms, FilterRuns, Faithful, Restores, CanRestore, Shaped, RowsSucceed, RowsAfter, MarksAfter, AllWritten, ItemRuns, Chained, AfterRestore, WithinType;
    match a {
      case Write(w) =>
        var (f, ups) := WriteOf(ws, ctype, w);
        WriteRuns(ws, ctype, w);
        r := UpdateResponse(repo, f, ups);
      case MarkMany(m) =>
        r := ProcessMarks(repo, Base(ws, ctype), m);
      case ChangeRows(c) =>
        r := ProcessRows(repo, ws, ctype, c, useIndex);
      case RestoreState(items) =>
        r := RewriteEach(repo, ws, ctype, items);
      case Restore(d) =>
        r := RestoreDiff(repo, d);
        if r.Ok? {
          RestoredTable(RESPONSE_SCHEMA, old(repo.rows), d, repo.rows, r.value);
        }
    }
  }

  predicate UpdatesOnly(d: Diff) {
    d.inserted == [] && d.deleted == []
  }

  /** The updates made one after the other lead from `before` to `after`. */
  ghost predicate Chained(before: Table, d: Diff, after: Table) {
    d.inserted == [] && d.deleted == [] && Playable(before, d.updated) && after == Play(before, d.updated)
  }

  /** A mark as the row object holds it: the database returns numbers, never the
      constant False. */
  datatype Held = HeldNone | HeldInt(n: int) | HeldText(s: string) | HeldBool(b: bool)

  function AsHeld(v: Value): Held {
    match v
    case Null => HeldNone
    case Num(n) => HeldInt(n)
    case Text(s) => HeldText(s)
  }

  method ProcessMarks(repo: Repository, base: FilterMap, m: MarkAction) returns (r: Result<Diff>)
    requires repo.builder.schema == RESPONSE_SCHEMA && Conforms(RESPONSE_SCHEMA, repo.rows) && base != []
    modifies repo`rows, repo.builder
    ensures Conforms(RESPONSE_SCHEMA, repo.rows)
    ensures r.Ok? <==> MarksSucceed(base, m)
    ensures r.Err? ==> repo.rows == old(repo.rows)
    ensures r.Ok? ==> repo.rows == MarksAfter(old(repo.rows), base, m) && Faithful(old(repo.rows), r.value, repo.rows)
    ensures r.Ok? ==> UpdatesOnly(r.value)
  {
    hide Conforms, FilterRuns, Faithful, Marked, AllTrue, AllFalse;
    match m {
      case SetAllCorrect =>
        var all := NoOther(repo, base, true);
        r := MarkAll(repo, base, if all then Null else Num(1), true);
      case SetAllIncorrect =>
        var all := NoOther(repo, base, false);
        r := MarkAll(repo, base, if all then Null else Num(0), true);
      case SetAllUnmarked =>
        r := MarkAll(repo, base, Null, true);
      case SetAllCorrectBy(x) =>
        var rows :- repo.Find(base + x);
        var all := CountTrue(rows, repo.rows, base + x);
        r := MarkAll(repo, base + x, if all then Null else Num(1), true);
      case SetAllIncorrectBy(x) =>
        r := MarkIncorrectBy(repo, base + x);
    }
  }

  /** SET_ALL_INCORRECT_BY_FILTER: counts the marks that are the constant False, and
      unmarks when all are.  No mark read from the database is, so on any row the
      mark becomes false, and on none nothing happens. */
  method MarkIncorrectBy(repo: Repository, f: FilterMap) returns (r: Result<Diff>)
    requires repo.builder.schema == RESPONSE_SCHEMA && Conforms(RESPONSE_SCHEMA, repo.rows) && f != []
    modifies repo`rows, repo.builder
    ensures Conforms(RESPONSE_SCHEMA, repo.rows)
    ensures r.Ok? <==> Runs(RESPONSE_SCHEMA, f)
    ensures r.Err? ==> repo.rows == old(repo.rows)
    ensures r.Ok? ==> repo.rows == Marked(old(repo.rows), f, Num(0)) && Faithful(old(repo.rows), r.value, repo.rows)
    ensures r.Ok? ==> UpdatesOnly(r.value)
  {
    ghost var before := repo.rows;
    hide Conforms, FilterRuns, Faithful, Selected;
    var rows :- repo.Find(f);
    var falseCount := 0;
    for k := 0 to |rows|
      invariant falseCount == 0
    {
      if AsHeld(At(rows[k].cells, "is_marked")) == HeldBool(false) {
        falseCount := falseCount + 1;
      }
    }
    if falseCount < |rows| {
      r := MarkAll(repo, f, Num(0), false);
    } else {
      assert Sel(before, f) == {} by {
        assert RowIds([]) == {};
      }
      assert Marked(before, f, Null) == Marked(before, f, Num(0));
      r := MarkAll(repo, f, Null, true);
    }
  }

  lemma RowsHaveColumns(ws: string, ctype: string, rs: seq<Response>)
    ensures AllColumns(RESPONSE_SCHEMA, RowsOf(ws, ctype, rs))
  {
  }

  method ProcessRows(repo: Repository, ws: string, ctype: string, c: RowAction, useIndex: bool) returns (r: Result<Diff>)
    requires repo.builder.schema == RESPONSE_SCHEMA && Conforms(RESPONSE_SCHEMA, repo.rows)
    modifies repo`rows
    ensures Conforms(RESPONSE_SCHEMA, repo.rows)
    ensures r.Ok? <==> RowsSucceed(old(repo.rows), ws, ctype, c, useIndex)
    ensures r.Ok? ==> repo.rows == RowsAfter(old(repo.rows), ws, ctype, c) && Faithful(old(repo.rows), r.value, repo.rows)
    ensures r.Ok? ==> WithinType(ctype, c, r.value)
  {
    var base := Base(ws, ctype);
    hide Conforms, FilterRuns, Faithful, RowOf, RowsOf, Fits, Replaced, Selected, Kept;
    assert RowIds([]) == {};
    match c {
      case AddResponses(rs) =>
        r := InsertKept(repo, ws, ctype, c);
      case SetResponses(rs) =>
        r := InsertKept(repo, ws, ctype, c);
      case SetPartialResponses(rs) =>
        r := InsertKept(repo, ws, ctype, c);
      case RemoveIds(ids) =>
        r := RemoveAt(repo, ids, useIndex);
      case RemoveAll =>
        r := DeleteWhere(repo, ws, ctype, base);
      case DeleteCode(code) =>
        r := DeleteWhere(repo, ws, ctype, base + [Equals("code", Text(code))]);
      case DeleteHighlight(p, q, code) =>
        r := DeleteWhere(repo, ws, ctype, base + [Equals("post_id", Text(p)), Equals("quote", Text(q)), Equals("code", Text(code))]);
      case Reset =>
        r := DeleteWhere(repo, ws, ctype, base);
    }
  }

  /** The actions that insert: blank responses are dropped, what is to be replaced
      is deleted first. */
  method InsertKept(repo: Repository, ws: string, ctype: string, c: RowAction) returns (r: Result<Diff>)
    requires repo.builder.schema == RESPONSE_SCHEMA && Conforms(RESPONSE_SCHEMA, repo.rows)
    requires c.AddResponses? || c.SetResponses? || c.SetPartialResponses?
    modifies repo`rows
    ensures Conforms(RESPONSE_SCHEMA, repo.rows)
    ensures r.Ok? <==> RowsSucceed(old(repo.rows), ws, ctype, c, false)
    ensures r.Ok? ==> repo.rows == RowsAfter(old(repo.rows), ws, ctype, c) && Faithful(old(repo.rows), r.value, repo.rows)
    ensures r.Ok? ==> WithinType(ctype, c, r.value)
  {
    assert KeyColumn(RESPONSE_SCHEMA);
    hide Conforms, FilterRuns, Faithful, RowOf, RowsOf, Fits, Replaced, Selected, Kept, NonBlank, KeyColumn, RESPONSE_SCHEMA;
    var kept, at := Keep(c.responses);
    RowsHaveColumns(ws, ctype, kept);
    InsertedOfType(ws, ctype, kept);
    InsertedIds(ws, ctype, kept);
    ghost var before := repo.rows;
    match c {
      case AddResponses(_) =>
        r := InsertRecorded(repo, RowsOf(ws, ctype, kept));
        assert AllOfType(ctype, []);
      case SetResponses(_) =>
        BaseRuns(ws, ctype);
        r := ReplaceRecorded(repo, Base(ws, ctype), RowsOf(ws, ctype, kept));
        if r.Ok? {
          DeletedOfType(before, ws, ctype, Base(ws, ctype), r.value, repo.rows);
        }
      case SetPartialResponses(_) =>
        OfPostsRuns(ws, ctype, kept);
        r := ReplaceRecorded(repo, OfPosts(ws, ctype, kept), RowsOf(ws, ctype, kept));
        if r.Ok? {
          DeletedOfType(before, ws, ctype, OfPosts(ws, ctype, kept), r.value, repo.rows);
        }
    }
  }

  lemma BaseRuns(ws: string, ctype: string)
    ensures Runs(RESPONSE_SCHEMA, Base(ws, ctype))
  {
    TextEqualsRun(Base(ws, ctype));
  }

  /** A list of positions may be empty, a list of ids may not. */
  method RemoveAt(repo: Repository, ids: seq<Value>, useIndex: bool) returns (r: Result<Diff>)
    requires repo.builder.schema == RESPONSE_SCHEMA && Conforms(RESPONSE_SCHEMA, repo.rows)
    modifies repo`rows
    ensures Conforms(RESPONSE_SCHEMA, repo.rows)
    ensures r.Ok? <==> if ids == [] then useIndex else forall id :: id in ids ==> id.Text?
    ensures r.Ok? ==> repo.rows == (if ids == [] then old(repo.rows) else old(repo.rows) - Sel(old(repo.rows), ByIds(ids)))
                      && Faithful(old(repo.rows), r.value, repo.rows)
    ensures r.Ok? ==> r.value.inserted == [] && r.value.updated == []
  {
    hide Conforms, FilterRuns, Faithful, Selected;
    if useIndex && ids == [] {
      NoChange(repo.rows);
      return Ok(Diff([], [], []));
    }
    ByIdsRun(ids);
    r := DeleteRecorded(repo, ByIds(ids));
  }

  lemma NoChange(t: Table)
    ensures Faithful(t, Diff([], [], []), t)
  {
  }

  method DeleteWhere(repo: Repository, ghost ws: string, ghost ctype: string, f: FilterMap) returns (r: Result<Diff>)
    requires repo.builder.schema == RESPONSE_SCHEMA && Conforms(RESPONSE_SCHEMA, repo.rows)
    requires TextEquals(f) && Base(ws, ctype) <= f
    modifies repo`rows
    ensures Conforms(RESPONSE_SCHEMA, repo.rows)
    ensures r.Ok? && repo.rows == old(repo.rows) - Sel(old(repo.rows), f) && Faithful(old(repo.rows), r.value, repo.rows)
    ensures r.value.inserted == [] && r.value.updated == [] && AllOfType(ctype, r.value.deleted)
  {
    TextEqualsRun(f);
    ghost var before := repo.rows;
    hide Conforms, FilterRuns, Faithful, Selected, AllOfType;
    r := DeleteRecorded(repo, f);
    DeletedOfType(before, ws, ctype, f, r.value, repo.rows);
  }

  predicate AllOfType(ctype: string, rows: seq<Row>) {
    forall r :: r in rows ==> At(r.cells, "codebook_type") == Text(ctype)
  }

  /** What the row actions insert is of the pass's codebook type, and so is what they
      delete, unless they delete by id. */
  predicate WithinType(ctype: string, c: RowAction, d: Diff) {
    && d.updated == [] && AllOfType(ctype, d.inserted) && RowIds(d.inserted) == NewIds(c)
    && (c.RemoveIds? || AllOfType(ctype, d.deleted))
  }

  function NewIds(c: RowAction): set<Value> {
    if c.AddResponses? || c.SetResponses? || c.SetPartialResponses? then set r | r in Kept(c.responses) :: Text(r.id) else {}
  }

  lemma ScopeOfType(t: Table, ws: string, ctype: string, f: FilterMap, id: Value)
    requires Base(ws, ctype) <= f && id in Sel(t, f)
    ensures At(t[id], "codebook_type") == Text(ctype)
  {
    var c := Condition("codebook_type", Eq, One(Text(ctype)));
    assert f[1] == Base(ws, ctype)[1];
    assert Conditions(f)[1] == c;
    assert At(View(id, t[id]), "codebook_type") == At(t[id], "codebook_type");
  }

  lemma ScopeNotOther(t: Table, ws: string, ctype: string, f: FilterMap, id: Value)
    requires Base(ws, ctype) <= f && id in t && At(t[id], "codebook_type") != Text(ctype)
    ensures id !in Sel(t, f)
  {
    if id in Sel(t, f) {
      ScopeOfType(t, ws, ctype, f, id);
    }
  }

  lemma DeletedOfType(before: Table, ws: string, ctype: string, f: FilterMap, d: Diff, after: Table)
    requires Base(ws, ctype) <= f && Faithful(before, d, after) && RowIds(d.deleted) == Sel(before, f)
    ensures AllOfType(ctype, d.deleted)
  {
    forall r | r in d.deleted ensures At(r.cells, "codebook_type") == Text(ctype) {
      assert r.id in RowIds(d.deleted);
      ScopeOfType(before, ws, ctype, f, r.id);
    }
  }

  lemma StoredType(cells: Cells)
    requires "codebook_type" in cells && cells["codebook_type"].Text?
    ensures At(Stored(RESPONSE_SCHEMA, cells), "codebook_type") == cells["codebook_type"]
  {
  }

  lemma InsertedIds(ws: string, ctype: string, rs: seq<Response>)
    ensures RowIds(StoredRows(RESPONSE_SCHEMA, RowsOf(ws, ctype, rs))) == set r | r in rs :: Text(r.id)
  {
    var rows := RowsOf(ws, ctype, rs);
    StoredIds(RESPONSE_SCHEMA, rows);
    assert forall i :: 0 <= i < |rs| ==> rows[i].id == Text(rs[i].id);
    hide RowsOf, StoredRows;
    forall r | r in rs ensures Text(r.id) in RowIds(rows) {
      var i :| 0 <= i < |rs| && rs[i] == r;
      assert rows[i] in rows;
    }
  }

  lemma InsertedOfType(ws: string, ctype: string, rs: seq<Response>)
    ensures AllOfType(ctype, StoredRows(RESPONSE_SCHEMA, RowsOf(ws, ctype, rs)))
  {
    hide Stored, RESPONSE_SCHEMA;
    StoredIds(RESPONSE_SCHEMA, RowsOf(ws, ctype, rs));
    forall r | r in rs ensures At(Stored(RESPONSE_SCHEMA, RowOf(ws, ctype, r).cells), "codebook_type") == Text(ctype) {
      StoredType(RowOf(ws, ctype, r).cells);
    }
  }

  lemma EmptyListRaises()
    ensures !FilterRuns(RESPONSE_SCHEMA, ByIds([]))
  {
    var c := Condition("id", In, Many([]));
    assert Conditions(ByIds([])) == [c];
    RenderNeedsAll(RESPONSE_SCHEMA, [c], 0);
  }

  /** Reads the old values, updates, and records one entry per updated row: the
      rows read and the rows updated are the same. */
  method UpdateResponse(repo: Repository, f: FilterMap, ups: Cells) returns (r: Result<Diff>)
    requires repo.builder.schema == RESPONSE_SCHEMA && Conforms(RESPONSE_SCHEMA, repo.rows) && "id" !in ups
    modifies repo`rows, repo.builder
    ensures Conforms(RESPONSE_SCHEMA, repo.rows)
    ensures r.Ok? <==> Runs(RESPONSE_SCHEMA, f) && UpdatesRun(RESPONSE_SCHEMA, ups)
    ensures r.Err? ==> repo.rows == old(repo.rows)
    ensures r.Ok? ==>
              && repo.rows == Overwrite(old(repo.rows), Sel(old(repo.rows), f), Stored(RESPONSE_SCHEMA, ups))
              && Records(old(repo.rows), Sel(old(repo.rows), f), Stored(RESPONSE_SCHEMA, ups), r.value.updated)
              && UpdateIds(r.value.updated) == Sel(old(repo.rows), f)
              && r.value.inserted == [] && r.value.deleted == []
              && Faithful(old(repo.rows), r.value, repo.rows)
  {
    ghost var before := repo.rows;
    var us :- UpdateRecorded(repo, f, ups, false);
    OverwriteFaithful(before, Sel(before, f), Stored(RESPONSE_SCHEMA, ups), us);
    return Ok(Diff([], [], us));
  }

  method MarkAll(repo: Repository, f: FilterMap, mark: Value, onlyChanged: bool) returns (r: Result<Diff>)
    requires repo.builder.schema == RESPONSE_SCHEMA && Conforms(RESPONSE_SCHEMA, repo.rows)
    requires f != [] && !mark.Text?
    modifies repo`rows, repo.builder
    ensures Conforms(RESPONSE_SCHEMA, repo.rows)
    ensures r.Ok? <==> Runs(RESPONSE_SCHEMA, f)
    ensures r.Err? ==> repo.rows == old(repo.rows)
    ensures r.Ok? ==> repo.rows == Marked(old(repo.rows), f, mark) && Faithful(old(repo.rows), r.value, repo.rows)
    ensures r.Ok? ==> UpdatesOnly(r.value)
  {
    ghost var before := repo.rows;
    OneUpdateRuns("is_marked", mark);
    hide Conforms, FilterRuns, Faithful, UpdatesRun;
    var us :- UpdateRecorded(repo, f, map["is_marked" := mark], onlyChanged);
    OverwriteFaithful(before, Sel(before, f), Stored(RESPONSE_SCHEMA, map["is_marked" := mark]), us);
    return Ok(Diff([], [], us));
  }

  /** Groups the rows by mark and compares the number of groups with the mark
      against the number of groups. */
  method NoOther(repo: Repository, f: FilterMap, mark: bool) returns (all: bool)
    ensures all <==> if mark then AllTrue(repo.rows, f) else AllFalse(repo.rows, f)
  {
    var groups := set id | id in repo.rows && Matches(RESPONSE_SCHEMA, Conditions(f), View(id, repo.rows[id])) :: At(repo.rows[id], "is_marked");
    var count := set g | g in groups && (if mark then Truthy(g) else g == Num(0));
    all := !(|count| < |groups|);
    assert groups == count + (groups - count) && |groups| == |count| + |groups - count|;
    if !all {
      var g :| g in groups - count;
      assert g in groups;
      var id :| id in repo.rows && Matches(RESPONSE_SCHEMA, Conditions(f), View(id, repo.rows[id]))
        && At(repo.rows[id], "is_marked") == g;
      assert id in Sel(repo.rows, f) && Mark(repo.rows, id) == g;
    } else {
      assert groups - count == {};
      forall id | id in Sel(repo.rows, f) ensures if mark then Truthy(Mark(repo.rows, id)) else Mark(repo.rows, id) == Num(0) {
        assert Mark(repo.rows, id) in groups;
        assert Mark(repo.rows, id) in count;
      }
    }
  }

  method CountTrue(rows: seq<Row>, t: Table, f: FilterMap) returns (all: bool)
    requires Lists(rows, t, Sel(t, f))
    ensures all <==> AllTrue(t, f)
  {
    var trueCount := 0;
    for k := 0 to |rows|
      invariant 0 <= trueCount <= k
      invariant trueCount == k <==> forall i :: 0 <= i < k ==> Truthy(At(rows[i].cells, "is_marked"))
    {
      if Truthy(At(rows[k].cells, "is_marked")) {
        trueCount := trueCount + 1;
      }
    }
    all := !(trueCount < |rows|);
    if all {
      forall id | id in Sel(t, f) ensures Truthy(Mark(t, id)) {
        assert id in RowIds(rows);
        var r :| r in rows && r.id == id;
      }
    } else {
      var i :| 0 <= i < |rows| && !Truthy(At(rows[i].cells, "is_marked"));
      assert rows[i] in rows && rows[i].id in RowIds(rows);
    }
  }

  /** `kept` are exactly the responses at the positions `at`, those with a code and a quote. */
  method Keep(rs: seq<Response>) returns (kept: seq<Response>, ghost at: seq<nat>)
    ensures kept == Kept(rs)
    ensures Sifted(rs, kept, at)
    ensures forall i :: 0 <= i < |rs| ==> (i in at <==> NonBlank(rs[i].code) && NonBlank(rs[i].quote))
    ensures forall x :: x in kept <==> x in rs && NonBlank(x.code) && NonBlank(x.quote)
  {
    kept, at := [], [];
    hide NonBlank;
    for i := 0 to |rs|
      invariant kept == Kept(rs[..i])
      invariant Sifted(rs[..i], kept, at)
      invariant forall k :: 0 <= k < i ==> (k in at <==> NonBlank(rs[k].code) && NonBlank(rs[k].quote))
    {
      assert rs[..i + 1] == rs[..i] + [rs[i]];
      if NonBlank(rs[i].code) && NonBlank(rs[i].quote) {
        kept, at := kept + [rs[i]], at + [i];
      }
    }
    assert rs[..|rs|] == rs;
    forall x ensures x in kept <==> x in rs && NonBlank(x.code) && NonBlank(x.quote) {
      SiftedIn(rs, kept, at, x);
    }
  }

  /** RESTORE_STATE: looks up each payload id in turn, raising when it is missing,
      and updates its row with what the payload gives and what the row held. */
  method RewriteEach(repo: Repository, ws: string, ctype: string, items: seq<Item>) returns (r: Result<Diff>)
    requires repo.builder.schema == RESPONSE_SCHEMA && Conforms(RESPONSE_SCHEMA, repo.rows)
    modifies repo`rows, repo.builder
    ensures Conforms(RESPONSE_SCHEMA, repo.rows)
    ensures r.Ok? <==> forall it :: it in items ==> ItemRuns(old(repo.rows), it)
    ensures r.Ok? ==> repo.rows == AllWritten(old(repo.rows), ws, ctype, items)
    ensures r.Ok? ==> Chained(old(repo.rows), r.value, repo.rows)
  {
    ghost var before := repo.rows;
    var updated := [];
    hide Conforms, ItemRuns, ItemWritten, Playable, Play;
    assert Playable(before, []) && Play(before, []) == before by {
      PlayNothing(before);
    }
    for i := 0 to |items|
      invariant Conforms(RESPONSE_SCHEMA, repo.rows)
      invariant Playable(before, updated) && repo.rows == Play(before, updated)
      invariant repo.rows == AllWritten(before, ws, ctype, items[..i])
      invariant forall k :: 0 <= k < i ==> ItemRuns(before, items[k])
    {
      ghost var now := repo.rows;
      assert items[i] in items && items[..i + 1][..i] == items[..i];
      RunsByKeys(before, now, items[i]);
      if BlankId(items[i].id) {
        SkipsBlank(now, ws, ctype, items[i]);
      } else {
        var step :- RewriteOne(repo, ws, ctype, items[i]);
        PlayMore(before, updated, step);
        updated := updated + [step];
      }
    }
    assert items[..|items|] == items;
    return Ok(Diff([], [], updated));
  }

  lemma SkipsBlank(t: Table, ws: string, ctype: string, it: Item)
    requires BlankId(it.id)
    ensures ItemRuns(t, it) && ItemWritten(t, ws, ctype, it) == t
  {
  }

  lemma RunsByKeys(t: Table, t': Table, it: Item)
    requires t.Keys == t'.Keys
    ensures ItemRuns(t, it) <==> ItemRuns(t', it)
  {
    hide AllStorable;
  }

  lemma ItemUpdates(ws: string, ctype: string, existing: Cells, given: Cells)
    requires TypedCells(RESPONSE_SCHEMA, existing)
    ensures UpdatesRun(RESPONSE_SCHEMA, ItemCells(ws, ctype, existing, given)) <==> AllStorable(ReadCells(given))
    ensures "id" !in ItemCells(ws, ctype, existing, given)
  {
    KeptStorable(ws, ctype, existing);
    assert "id" !in ReadCells(given) && "id" !in KeptCells(ws, ctype, existing);
    var a, b := KeptCells(ws, ctype, existing), ReadCells(given);
    assert "workspace_id" in a;
    hide KeptCells, ReadCells, Storable, RESPONSE_SCHEMA;
    assert forall f :: f in b ==> (a + b)[f] == b[f];
  }

  lemma KeptStorable(ws: string, ctype: string, existing: Cells)
    requires TypedCells(RESPONSE_SCHEMA, existing)
    ensures AllStorable(KeptCells(ws, ctype, existing))
  {
    StoredSame(RESPONSE_SCHEMA, existing);
    HeadersStorable(ws, ctype);
    hide Storable, TypedCell, RESPONSE_SCHEMA, KEPT;
  }

  lemma HeadersStorable(ws: string, ctype: string)
    ensures Storable(RESPONSE_SCHEMA, "workspace_id", Text(ws)) && Storable(RESPONSE_SCHEMA, "codebook_type", Text(ctype))
  {
  }

  method RewriteOne(repo: Repository, ws: string, ctype: string, it: Item) returns (r: Result<RowUpdate>)
    requires repo.builder.schema == RESPONSE_SCHEMA && Conforms(RESPONSE_SCHEMA, repo.rows) && !BlankId(it.id)
    modifies repo`rows, repo.builder
    ensures Conforms(RESPONSE_SCHEMA, repo.rows)
    ensures r.Ok? <==> ItemRuns(old(repo.rows), it)
    ensures r.Ok? ==>
              var u, t := r.value, old(repo.rows);
              && repo.rows == ItemWritten(t, ws, ctype, it)
              && u.id in t && u.changes.Keys <= t[u.id].Keys
              && (forall f :: f in u.changes ==> t[u.id][f] == u.changes[f].old_)
              && repo.rows == t[u.id := t[u.id] + News(u.changes)]
  {
    ghost var now := repo.rows;
    var existing :- FindOne(repo, it.id);
    ByIdSelects(RESPONSE_SCHEMA, now, it.id);
    assert {it.id} * now.Keys == {it.id};
    var ups := ItemCells(ws, ctype, existing, it.given);
    ItemUpdates(ws, ctype, existing, it.given);
    hide Conforms, ItemCells, UpdatesRun, AllStorable, FilterRuns, Faithful, Records, Overwrite;
    var step :- UpdateResponse(repo, ById(it.id), ups);
    OneEntry(now, it.id, Stored(RESPONSE_SCHEMA, ups), step.updated);
    return Ok(step.updated[0]);
  }

  lemma OneEntry(t: Table, id: Value, news: Cells, us: seq<RowUpdate>)
    requires Records(t, {id}, news, us) && UpdateIds(us) == {id}
    ensures |us| == 1 && us[0].id == id && RecordsRow(t, news, us[0])
    ensures Overwrite(t, {id}, news) == t[id := t[id] + News(us[0].changes)]
  {
    forall i | 0 <= i < |us| ensures us[i].id == id {
      assert us[i] in us && us[i].id in UpdateIds(us);
    }
    var k := if |us| > 1 then 1 else 0;
    assert us != [] by {
      assert id in UpdateIds(us);
    }
    assert us[0].id == us[k].id;
    assert us[0] in us;
    assert News(us[0].changes) == news;
  }
}
