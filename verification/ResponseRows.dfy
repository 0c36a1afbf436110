/** What each response action leaves in the table, row by row. */
module ResponseRows {
  import opened Outcomes
  import opened QueryBuilder
  import opened Repositories
  import opened Diffs
  import opened UndoRuns
  import opened TableActions
  import opened ResponseReducer

  /** A row of the workspace and codebook type an action is about. */
  predicate Scoped(cells: Cells, ws: string, ctype: string) {
    At(cells, "workspace_id") == Text(ws) && At(cells, "codebook_type") == Text(ctype)
  }

  // ------------------------------------------------------------ equality filters

  predicate Agrees(id: Value, cells: Cells, f: FilterMap)
    requires TextEquals(f)
  {
    forall i :: 0 <= i < |f| ==> At(View(id, cells), f[i].0) == f[i].1.operand.v
  }

  lemma Addressed(t: Table, f: FilterMap, id: Value)
    requires TextEquals(f) && id in t
    ensures id in Sel(t, f) <==> Agrees(id, t[id], f)
  {
    var conds, cells := Conditions(f), View(id, t[id]);
    forall i | 0 <= i < |f|
      ensures conds[i].column in RESPONSE_SCHEMA
      ensures Meets(RESPONSE_SCHEMA[conds[i].column], conds[i], At(cells, conds[i].column)) <==> At(cells, f[i].0) == f[i].1.operand.v
    {
      assert conds[i] == AsCondition(f[i]);
    }
    assert Matches(RESPONSE_SCHEMA, conds, cells) <==> forall i :: 0 <= i < |f| ==> At(cells, f[i].0) == f[i].1.operand.v;
  }

  lemma BaseAgrees(ws: string, ctype: string, more: FilterMap, id: Value, cells: Cells)
    requires TextEquals(more)
    ensures TextEquals(Base(ws, ctype) + more)
    ensures Agrees(id, cells, Base(ws, ctype) + more) <==> Scoped(cells, ws, ctype) && Agrees(id, cells, more)
  {
    var base, f := Base(ws, ctype), Base(ws, ctype) + more;
    assert base[0] == Equals("workspace_id", Text(ws)) && base[1] == Equals("codebook_type", Text(ctype));
    assert f[0] == base[0] && f[1] == base[1] && forall i :: 0 <= i < |more| ==> f[i + 2] == more[i];
    forall i | 2 <= i < |f| ensures f[i] == more[i - 2] {}
    hide RESPONSE_SCHEMA;
  }

  lemma AgreesOne(column: string, v: Value, id: Value, cells: Cells)
    requires TextEquals([Equals(column, v)]) && column != "id"
    ensures Agrees(id, cells, [Equals(column, v)]) <==> At(cells, column) == v
  {
    var f := [Equals(column, v)];
    assert f[0].0 == column && At(View(id, cells), column) == At(cells, column);
  }

  lemma AgreesPush(f: FilterMap, column: string, v: Value, id: Value, cells: Cells)
    requires TextEquals(f) && TextEquals([Equals(column, v)]) && column != "id"
    ensures TextEquals(f + [Equals(column, v)])
    ensures Agrees(id, cells, f + [Equals(column, v)]) <==> Agrees(id, cells, f) && At(cells, column) == v
  {
    var one, g := [Equals(column, v)], f + [Equals(column, v)];
    assert one[0] == g[|f|] && forall i :: 0 <= i < |f| ==> g[i] == f[i];
    assert At(View(id, cells), column) == At(cells, column);
    hide RESPONSE_SCHEMA;
  }

  lemma TextOne(column: string, v: Value)
    requires column in RESPONSE_SCHEMA && RESPONSE_SCHEMA[column].affinity.TextColumn? && !v.Num?
    ensures TextEquals([Equals(column, v)])
  {
  }

  /** Rows that agree with a filter get the new cells, the others stay. */
  lemma Overwritten(t: Table, f: FilterMap, news: Cells)
    requires TextEquals(f)
    ensures var t' := Overwrite(t, Sel(t, f), news);
            t'.Keys == t.Keys && forall id :: id in t ==> t'[id] == if Agrees(id, t[id], f) then t[id] + news else t[id]
  {
    hide TextEquals, Agrees, Matches;
    forall id | id in t ensures id in Sel(t, f) <==> Agrees(id, t[id], f) {
      Addressed(t, f, id);
    }
  }

  predicate TextColumnOf(column: string) {
    column in RESPONSE_SCHEMA && RESPONSE_SCHEMA[column].affinity.TextColumn? && column != "id"
  }

  lemma NamedColumns()
    ensures TextColumnOf("code") && TextColumnOf("quote") && TextColumnOf("post_id")
    ensures TextColumnOf("chat_history") && TextColumnOf("range_marker")
  {
  }

  /** Of text columns the stored values are the given ones, marks become 0, 1 or null. */
  lemma StoredText(column: string, v: Value)
    requires TextColumnOf(column)
    ensures Stored(RESPONSE_SCHEMA, map[column := v]) == map[column := v]
  {
  }

  function AsMark(v: Value): Value {
    if v.Num? then Num(if v.n == 0 then 0 else 1) else v
  }

  lemma StoredMark(v: Value)
    ensures Stored(RESPONSE_SCHEMA, map["is_marked" := v]) == map["is_marked" := AsMark(v)]
  {
  }



  /** A filter on the workspace, the codebook type and more columns. */
  lemma Scopes(t: Table, ws: string, ctype: string, more: FilterMap, news: Cells)
    requires TextEquals(more)
    ensures var t' := Overwrite(t, Sel(t, Base(ws, ctype) + more), news);
            && t'.Keys == t.Keys
            && (forall id :: id in t ==>
                 t'[id] == if Scoped(t[id], ws, ctype) && Agrees(id, t[id], more) then t[id] + news else t[id])
  {
    hide TextEquals, Agrees, RESPONSE_SCHEMA;
    BaseAgrees(ws, ctype, more, Null, map[]);
    Overwritten(t, Base(ws, ctype) + more, news);
    forall id | id in t
      ensures Agrees(id, t[id], Base(ws, ctype) + more) <==> Scoped(t[id], ws, ctype) && Agrees(id, t[id], more)
    {
      BaseAgrees(ws, ctype, more, id, t[id]);
    }
  }

  lemma ScopesOne(t: Table, ws: string, ctype: string, a: string, v: Value, news: Cells)
    requires TextColumnOf(a) && !v.Num?
    ensures var t' := Overwrite(t, Sel(t, Base(ws, ctype) + [Equals(a, v)]), news);
            && t'.Keys == t.Keys
            && (forall id :: id in t ==> t'[id] == if Scoped(t[id], ws, ctype) && At(t[id], a) == v then t[id] + news else t[id])
  {
    TextOne(a, v);
    hide TextEquals, Agrees, RESPONSE_SCHEMA, Sel, Base;
    Scopes(t, ws, ctype, [Equals(a, v)], news);
    forall id | id in t ensures Agrees(id, t[id], [Equals(a, v)]) <==> At(t[id], a) == v {
      AgreesOne(a, v, id, t[id]);
    }
  }

  lemma ScopesTwo(t: Table, ws: string, ctype: string, a: string, v: Value, b: string, w: Value, news: Cells)
    requires TextColumnOf(a) && TextColumnOf(b) && !v.Num? && !w.Num?
    ensures var t' := Overwrite(t, Sel(t, Base(ws, ctype) + [Equals(a, v), Equals(b, w)]), news);
            && t'.Keys == t.Keys
            && (forall id :: id in t ==>
                 t'[id] == if Scoped(t[id], ws, ctype) && At(t[id], a) == v && At(t[id], b) == w then t[id] + news else t[id])
  {
    TextOne(a, v);
    TextOne(b, w);
    hide TextEquals, Agrees, RESPONSE_SCHEMA, Sel, Base;
    assert [Equals(a, v)] + [Equals(b, w)] == [Equals(a, v), Equals(b, w)];
    AgreesPush([Equals(a, v)], b, w, Null, map[]);
    Scopes(t, ws, ctype, [Equals(a, v), Equals(b, w)], news);
    forall id | id in t
      ensures Agrees(id, t[id], [Equals(a, v), Equals(b, w)]) <==> At(t[id], a) == v && At(t[id], b) == w
    {
      AgreesOne(a, v, id, t[id]);
      AgreesPush([Equals(a, v)], b, w, id, t[id]);
    }
  }

  lemma ScopesThree(t: Table, ws: string, ctype: string, a: string, v: Value, b: string, w: Value, c: string, x: Value, news: Cells)
    requires TextColumnOf(a) && TextColumnOf(b) && TextColumnOf(c) && !v.Num? && !w.Num? && !x.Num?
    ensures var t' := Overwrite(t, Sel(t, Base(ws, ctype) + [Equals(a, v), Equals(b, w), Equals(c, x)]), news);
            && t'.Keys == t.Keys
            && (forall id :: id in t ==>
                 t'[id] == if Scoped(t[id], ws, ctype) && At(t[id], a) == v && At(t[id], b) == w && At(t[id], c) == x
                           then t[id] + news else t[id])
  {
    TextOne(a, v);
    TextOne(b, w);
    TextOne(c, x);
    hide TextEquals, Agrees, RESPONSE_SCHEMA, Sel, Base;
    assert [Equals(a, v)] + [Equals(b, w)] == [Equals(a, v), Equals(b, w)];
    assert [Equals(a, v), Equals(b, w)] + [Equals(c, x)] == [Equals(a, v), Equals(b, w), Equals(c, x)];
    AgreesPush([Equals(a, v)], b, w, Null, map[]);
    AgreesPush([Equals(a, v), Equals(b, w)], c, x, Null, map[]);
    Scopes(t, ws, ctype, [Equals(a, v), Equals(b, w), Equals(c, x)], news);
    forall id | id in t
      ensures Agrees(id, t[id], [Equals(a, v), Equals(b, w), Equals(c, x)]) <==>
              At(t[id], a) == v && At(t[id], b) == w && At(t[id], c) == x
    {
      AgreesOne(a, v, id, t[id]);
      AgreesPush([Equals(a, v)], b, w, id, t[id]);
      AgreesPush([Equals(a, v), Equals(b, w)], c, x, id, t[id]);
    }
  }

  // ------------------------------------------------------------ actions that update columns

  /** SET_INCORRECT: the row with the id is marked false. */
  lemma SetIncorrectRows(t: Table, ws: string, ctype: string, x: Value)
    requires !x.Num?
    ensures var t' := TableAfter(t, ws, ctype, Write(SetIncorrect(x)));
            t'.Keys == t.Keys && forall id :: id in t ==> t'[id] == if id == x then t[id]["is_marked" := Num(0)] else t[id]
  {
    hide Sel, Stored, RESPONSE_SCHEMA;
    ByIdRows(t, x, map["is_marked" := Num(0)]);
    StoredMark(Num(0));
  }

  /** MARK_RESPONSE: the row with the id gets the mark. */
  lemma MarkResponseRows(t: Table, ws: string, ctype: string, x: Value, mark: Value)
    requires !x.Num?
    ensures var t' := TableAfter(t, ws, ctype, Write(MarkResponse(x, mark)));
            t'.Keys == t.Keys && forall id :: id in t ==> t'[id] == if id == x then t[id]["is_marked" := AsMark(mark)] else t[id]
  {
    hide Sel, Stored, RESPONSE_SCHEMA;
    ByIdRows(t, x, map["is_marked" := AsMark(mark)]);
    StoredMark(mark);
  }

  lemma ByIdRows(t: Table, x: Value, news: Cells)
    requires !x.Num?
    ensures var t' := Overwrite(t, Sel(t, ById(x)), news);
            t'.Keys == t.Keys && forall id :: id in t ==> t'[id] == if id == x then t[id] + news else t[id]
  {
    Overwritten(t, ById(x), news);
    assert ById(x)[0].0 == "id" && ById(x)[0].1.operand.v == x;
    hide TextEquals, RESPONSE_SCHEMA;
  }

  /** MARK_RESPONSE_BY_CODE_EXPLANATION: the rows in scope with the code, quote and post get
      the mark. */
  lemma MarkByTextRows(t: Table, ws: string, ctype: string, code: string, quote: string, postId: string, mark: Value)
    ensures var t' := TableAfter(t, ws, ctype, Write(MarkByText(code, quote, postId, mark)));
            && t'.Keys == t.Keys
            && (forall id :: id in t ==>
                 t'[id] == if Scoped(t[id], ws, ctype) && At(t[id], "code") == Text(code) && At(t[id], "quote") == Text(quote) && At(t[id], "post_id") == Text(postId)
                           then t[id]["is_marked" := AsMark(mark)] else t[id])
  {
    hide Base, Sel, Stored, Scoped, RESPONSE_SCHEMA, TextColumnOf;
    NamedColumns();
    StoredMark(mark);
    ScopesThree(t, ws, ctype, "code", Text(code), "quote", Text(quote), "post_id", Text(postId), map["is_marked" := AsMark(mark)]);
  }

  /** EDIT_CODE: the rows in scope with the current code get the new one. */
  lemma EditCodeRows(t: Table, ws: string, ctype: string, current: string, new_: string)
    ensures var t' := TableAfter(t, ws, ctype, Write(EditCode(current, new_)));
            && t'.Keys == t.Keys
            && (forall id :: id in t ==>
                 t'[id] == if Scoped(t[id], ws, ctype) && At(t[id], "code") == Text(current)
                           then t[id]["code" := Text(new_)] else t[id])
  {
    hide Base, Sel, Stored, Scoped, RESPONSE_SCHEMA, TextColumnOf;
    NamedColumns();
    StoredText("code", Text(new_));
    ScopesOne(t, ws, ctype, "code", Text(current), map["code" := Text(new_)]);
  }

  /** UPDATE_CODE: of the rows in scope with the quote, those with the previous code get the new one. */
  lemma UpdateCodeRows(t: Table, ws: string, ctype: string, quote: string, previous: string, new_: string)
    ensures var t' := TableAfter(t, ws, ctype, Write(UpdateCode(quote, previous, new_)));
            && t'.Keys == t.Keys
            && (forall id :: id in t ==>
                 t'[id] == if Scoped(t[id], ws, ctype) && At(t[id], "quote") == Text(quote) && At(t[id], "code") == Text(previous)
                           then t[id]["code" := Text(new_)] else t[id])
  {
    hide Base, Sel, Stored, Scoped, RESPONSE_SCHEMA, TextColumnOf;
    NamedColumns();
    StoredText("code", Text(new_));
    ScopesTwo(t, ws, ctype, "quote", Text(quote), "code", Text(previous), map["code" := Text(new_)]);
  }

  /** SET_CHAT_HISTORY: the rows in scope with the post, sentence and code get the history. */
  lemma SetChatHistoryRows(t: Table, ws: string, ctype: string, postId: string, sentence: string, code: string, chat: string)
    ensures var t' := TableAfter(t, ws, ctype, Write(SetChatHistory(postId, sentence, code, chat)));
            && t'.Keys == t.Keys
            && (forall id :: id in t ==>
                 t'[id] == if Scoped(t[id], ws, ctype) && At(t[id], "post_id") == Text(postId) && At(t[id], "quote") == Text(sentence) && At(t[id], "code") == Text(code)
                           then t[id]["chat_history" := Text(chat)] else t[id])
  {
    hide Base, Sel, Stored, Scoped, RESPONSE_SCHEMA, TextColumnOf;
    NamedColumns();
    StoredText("chat_history", Text(chat));
    ScopesThree(t, ws, ctype, "post_id", Text(postId), "quote", Text(sentence), "code", Text(code), map["chat_history" := Text(chat)]);
  }

  /** UPSERT_MARKER: the rows in scope with the code, quote and post get the range. */
  lemma UpsertMarkerRows(t: Table, ws: string, ctype: string, code: string, quote: string, postId: string, range: Value)
    ensures var t' := TableAfter(t, ws, ctype, Write(UpsertMarker(code, quote, postId, range)));
            && t'.Keys == t.Keys
            && (forall id :: id in t ==>
                 t'[id] == if Scoped(t[id], ws, ctype) && At(t[id], "code") == Text(code) && At(t[id], "quote") == Text(quote) && At(t[id], "post_id") == Text(postId)
                           then t[id]["range_marker" := range] else t[id])
  {
    hide Base, Sel, Stored, Scoped, RESPONSE_SCHEMA, TextColumnOf;
    NamedColumns();
    StoredText("range_marker", range);
    ScopesThree(t, ws, ctype, "code", Text(code), "quote", Text(quote), "post_id", Text(postId), map["range_marker" := range]);
  }

  lemma StoredHighlight(quote: string, marker: Option<string>)
    ensures var news := map["quote" := Text(quote)] + SetRange(marker); Stored(RESPONSE_SCHEMA, news) == news
  {
    var news := map["quote" := Text(quote)] + SetRange(marker);
    assert forall f :: f in news ==> f in RESPONSE_SCHEMA && Normalize(RESPONSE_SCHEMA[f], news[f]) == news[f];
  }

  /** EDIT_HIGHLIGHT: the rows in scope with the post, sentence and code get the new
      sentence, and the range if one is given. */
  lemma EditHighlightRows(t: Table, ws: string, ctype: string, postId: string, sentence: string, code: string,
                          newSentence: string, marker: Option<string>)
    ensures var t' := TableAfter(t, ws, ctype, Write(EditHighlight(postId, sentence, code, newSentence, marker)));
            && t'.Keys == t.Keys
            && (forall id :: id in t ==>
                 t'[id] ==
                 if Scoped(t[id], ws, ctype) && At(t[id], "post_id") == Text(postId) && At(t[id], "quote") == Text(sentence)
                    && At(t[id], "code") == Text(code)
                 then if marker.Some? then t[id]["quote" := Text(newSentence)]["range_marker" := Text(marker.value)]
                      else t[id]["quote" := Text(newSentence)]
                 else t[id])
  {
    hide Base, Sel, Stored, Scoped, RESPONSE_SCHEMA, TextColumnOf;
    NamedColumns();
    StoredHighlight(newSentence, marker);
    var news := map["quote" := Text(newSentence)] + SetRange(marker);
    ScopesThree(t, ws, ctype, "post_id", Text(postId), "quote", Text(sentence), "code", Text(code), news);
    forall id | id in t
      ensures t[id] + news == if marker.Some? then t[id]["quote" := Text(newSentence)]["range_marker" := Text(marker.value)]
                              else t[id]["quote" := Text(newSentence)]
    {
      Highlighted(t[id], newSentence, marker);
    }
    hide SetRange;
  }

  lemma Highlighted(cells: Cells, quote: string, marker: Option<string>)
    ensures cells + (map["quote" := Text(quote)] + SetRange(marker)) ==
            if marker.Some? then cells["quote" := Text(quote)]["range_marker" := Text(marker.value)] else cells["quote" := Text(quote)]
  {
  }

  /** After EDIT_CODE no row in scope has the old code, and the rows with the new code are
      those that had either. */
  lemma EditCodeRenames(t: Table, ws: string, ctype: string, current: string, new_: string)
    ensures var t' := TableAfter(t, ws, ctype, Write(EditCode(current, new_)));
            && (current != new_ ==> forall id :: id in t' && Scoped(t'[id], ws, ctype) ==> At(t'[id], "code") != Text(current))
            && (forall id :: id in t && Scoped(t[id], ws, ctype) ==>
                 && id in t' && Scoped(t'[id], ws, ctype)
                 && (At(t'[id], "code") == Text(new_) <==> At(t[id], "code") in {Text(current), Text(new_)}))
  {
    EditCodeRows(t, ws, ctype, current, new_);
    hide TableAfter, RESPONSE_SCHEMA;
  }

  // ------------------------------------------------------------ actions that mark all rows

  /** The rows in scope that also agree with `more` get the mark. */
  lemma MarkedRows(t: Table, ws: string, ctype: string, more: FilterMap, mark: Value)
    requires TextEquals(more)
    ensures var t' := Marked(t, Base(ws, ctype) + more, mark);
            && t'.Keys == t.Keys
            && (forall id :: id in t ==>
                 t'[id] == if Scoped(t[id], ws, ctype) && Agrees(id, t[id], more) then t[id]["is_marked" := AsMark(mark)] else t[id])
  {
    hide Base, Sel, Stored, Scoped, RESPONSE_SCHEMA, TextEquals, Agrees;
    StoredMark(mark);
    Scopes(t, ws, ctype, more, map["is_marked" := AsMark(mark)]);
  }

  /** All rows in scope that agree with `more` carry a true mark, or the mark false. */
  lemma AllMarked(t: Table, ws: string, ctype: string, more: FilterMap)
    requires TextEquals(more)
    ensures var f := Base(ws, ctype) + more;
            && (AllTrue(t, f) <==> forall id :: id in t && Scoped(t[id], ws, ctype) && Agrees(id, t[id], more) ==>
                 At(t[id], "is_marked").Num? && At(t[id], "is_marked") != Num(0))
            && (AllFalse(t, f) <==> forall id :: id in t && Scoped(t[id], ws, ctype) && Agrees(id, t[id], more) ==>
                 At(t[id], "is_marked") == Num(0))
  {
    var f := Base(ws, ctype) + more;
    BaseAgrees(ws, ctype, more, Null, map[]);
    hide TextEquals, Agrees, RESPONSE_SCHEMA, Base, Matches;
    forall id | id in t ensures id in Sel(t, f) <==> Scoped(t[id], ws, ctype) && Agrees(id, t[id], more) {
      BaseAgrees(ws, ctype, more, id, t[id]);
      Addressed(t, f, id);
    }
  }

  lemma NoMore(ws: string, ctype: string, id: Value, cells: Cells)
    ensures TextEquals([]) && Agrees(id, cells, []) && Base(ws, ctype) + [] == Base(ws, ctype)
  {
  }

  /** SET_ALL_CORRECT, SET_ALL_INCORRECT and SET_ALL_UNMARKED, not forced: the rows in
      scope get the mark, or none when all carry it already; no other row changes. */
  lemma MarkAllRows(t: Table, ws: string, ctype: string, m: MarkAction)
    requires m.SetAllCorrect? || m.SetAllIncorrect? || m.SetAllUnmarked?
    ensures var t' := TableAfter(t, ws, ctype, MarkMany(m));
            var allTrue := forall id :: id in t && Scoped(t[id], ws, ctype) ==>
                             At(t[id], "is_marked").Num? && At(t[id], "is_marked") != Num(0);
            var allFalse := forall id :: id in t && Scoped(t[id], ws, ctype) ==> At(t[id], "is_marked") == Num(0);
            && t'.Keys == t.Keys
            && (forall id :: id in t ==>
                 t'[id] == if !Scoped(t[id], ws, ctype) then t[id]
                           else t[id]["is_marked" := if m.SetAllCorrect? && !allTrue then Num(1)
                                                     else if m.SetAllIncorrect? && !allFalse then Num(0) else Null])
  {
    hide Base, Sel, Stored, Scoped, RESPONSE_SCHEMA, TextEquals, Agrees, AllTrue, AllFalse, Marked;
    NoMore(ws, ctype, Null, map[]);
    MarkedRows(t, ws, ctype, [], Null);
    MarkedRows(t, ws, ctype, [], Num(0));
    MarkedRows(t, ws, ctype, [], Num(1));
    AllMarked(t, ws, ctype, []);
    forall id | id in t ensures Agrees(id, t[id], []) {
      NoMore(ws, ctype, id, t[id]);
    }
  }

  /** The same with a filter on a code or a post; marking incorrect never toggles back. */
  lemma MarkByFilterRows(t: Table, ws: string, ctype: string, column: string, v: Value)
    requires TextColumnOf(column) && !v.Num?
    ensures var extra := [Equals(column, v)];
            var correct, incorrect := TableAfter(t, ws, ctype, MarkMany(SetAllCorrectBy(extra))),
                                      TableAfter(t, ws, ctype, MarkMany(SetAllIncorrectBy(extra)));
            var allTrue := forall id :: id in t && Scoped(t[id], ws, ctype) && At(t[id], column) == v ==>
                             At(t[id], "is_marked").Num? && At(t[id], "is_marked") != Num(0);
            && correct.Keys == incorrect.Keys == t.Keys
            && (forall id :: id in t && !(Scoped(t[id], ws, ctype) && At(t[id], column) == v) ==>
                 correct[id] == incorrect[id] == t[id])
            && (forall id :: id in t && Scoped(t[id], ws, ctype) && At(t[id], column) == v ==>
                 && correct[id] == t[id]["is_marked" := if allTrue then Null else Num(1)]
                 && incorrect[id] == t[id]["is_marked" := Num(0)])
  {
    hide Base, Sel, Stored, Scoped, RESPONSE_SCHEMA, TextEquals, Agrees, AllTrue, Marked;
    var extra := [Equals(column, v)];
    assert TextEquals(extra) by {
      TextOfColumn(column, v);
    }
    MarkedRows(t, ws, ctype, extra, Null);
    MarkedRows(t, ws, ctype, extra, Num(0));
    MarkedRows(t, ws, ctype, extra, Num(1));
    AllMarked(t, ws, ctype, extra);
    forall id | id in t ensures Agrees(id, t[id], extra) <==> At(t[id], column) == v {
      AgreesColumn(column, v, id, t[id]);
    }
  }

  lemma TextOfColumn(column: string, v: Value)
    requires TextColumnOf(column) && !v.Num?
    ensures TextEquals([Equals(column, v)])
  {
    TextOne(column, v);
  }

  lemma AgreesColumn(column: string, v: Value, id: Value, cells: Cells)
    requires TextColumnOf(column) && !v.Num?
    ensures TextEquals([Equals(column, v)]) && (Agrees(id, cells, [Equals(column, v)]) <==> At(cells, column) == v)
  {
    TextOne(column, v);
    AgreesOne(column, v, id, cells);
  }

  // ------------------------------------------------------------ actions that delete rows

  /** The rows in scope that also agree with `more`. */
  lemma InScopeOf(t: Table, ws: string, ctype: string, more: FilterMap)
    requires TextEquals(more)
    ensures forall id :: id in t ==>
              (id in Sel(t, Base(ws, ctype) + more) <==> Scoped(t[id], ws, ctype) && Agrees(id, t[id], more))
  {
    hide TextEquals, Agrees, RESPONSE_SCHEMA, Base, Matches;
    BaseAgrees(ws, ctype, more, Null, map[]);
    forall id | id in t
      ensures id in Sel(t, Base(ws, ctype) + more) <==> Scoped(t[id], ws, ctype) && Agrees(id, t[id], more)
    {
      BaseAgrees(ws, ctype, more, id, t[id]);
      Addressed(t, Base(ws, ctype) + more, id);
    }
  }

  /** `t'` is `t` without the rows in `gone`. */
  predicate Without(t: Table, gone: set<Value>, t': Table) {
    t'.Keys == t.Keys - gone && forall id :: id in t' ==> t'[id] == t[id]
  }

  /** REMOVE_RESPONSES for all, and RESET: no row in scope is left, every other is. */
  lemma ResetRows(t: Table, ws: string, ctype: string, c: RowAction)
    requires c.Reset? || c.RemoveAll?
    ensures Without(t, (set id | id in t && Scoped(t[id], ws, ctype)), RowsAfter(t, ws, ctype, c))
  {
    hide Base, Sel, Scoped, RESPONSE_SCHEMA, TextEquals, Agrees;
    NoMore(ws, ctype, Null, map[]);
    InScopeOf(t, ws, ctype, []);
    forall id | id in t ensures Agrees(id, t[id], []) {
      NoMore(ws, ctype, id, t[id]);
    }
  }

  /** REMOVE_RESPONSES by position or id: exactly the rows named go. */
  lemma RemoveIdsRows(t: Table, ws: string, ctype: string, ids: seq<Value>)
    requires forall id :: id in ids ==> id.Text?
    ensures Without(t, (set id | id in ids), RowsAfter(t, ws, ctype, RemoveIds(ids)))
  {
    if ids != [] {
      forall i | 0 <= i < |ids| ensures TypedId(RESPONSE_SCHEMA, ids[i]) {
        assert ids[i] in ids;
      }
      ByIdsSelects(RESPONSE_SCHEMA, t, ids);
    }
  }

  /** DELETE_CODE: exactly the rows in scope with the code go. */
  lemma DeleteCodeRows(t: Table, ws: string, ctype: string, code: string)
    ensures Without(t, (set id | id in t && Scoped(t[id], ws, ctype) && At(t[id], "code") == Text(code)),
                    RowsAfter(t, ws, ctype, DeleteCode(code)))
  {
    hide Base, Sel, Scoped, RESPONSE_SCHEMA, TextEquals, Agrees, TextColumnOf;
    NamedColumns();
    TextOfColumn("code", Text(code));
    InScopeOf(t, ws, ctype, [Equals("code", Text(code))]);
    forall id | id in t ensures Agrees(id, t[id], [Equals("code", Text(code))]) <==> At(t[id], "code") == Text(code) {
      AgreesColumn("code", Text(code), id, t[id]);
    }
  }

  /** DELETE_HIGHLIGHT: exactly the rows in scope with the post, quote and code go. */
  lemma DeleteHighlightRows(t: Table, ws: string, ctype: string, postId: string, quote: string, code: string)
    ensures Without(t, (set id | id in t && Scoped(t[id], ws, ctype) && At(t[id], "post_id") == Text(postId)
                                 && At(t[id], "quote") == Text(quote) && At(t[id], "code") == Text(code)),
                    RowsAfter(t, ws, ctype, DeleteHighlight(postId, quote, code)))
  {
    hide Base, Sel, Scoped, RESPONSE_SCHEMA, TextEquals, Agrees, TextColumnOf;
    NamedColumns();
    var more := [Equals("post_id", Text(postId)), Equals("quote", Text(quote)), Equals("code", Text(code))];
    TextsOfThree("post_id", Text(postId), "quote", Text(quote), "code", Text(code));
    InScopeOf(t, ws, ctype, more);
    forall id | id in t
      ensures Agrees(id, t[id], more) <==>
              At(t[id], "post_id") == Text(postId) && At(t[id], "quote") == Text(quote) && At(t[id], "code") == Text(code)
    {
      AgreesThree("post_id", Text(postId), "quote", Text(quote), "code", Text(code), id, t[id]);
    }
  }

  lemma TextsOfThree(a: string, v: Value, b: string, w: Value, c: string, x: Value)
    requires TextColumnOf(a) && TextColumnOf(b) && TextColumnOf(c) && !v.Num? && !w.Num? && !x.Num?
    ensures TextEquals([Equals(a, v), Equals(b, w), Equals(c, x)])
  {
  }

  lemma AgreesThree(a: string, v: Value, b: string, w: Value, c: string, x: Value, id: Value, cells: Cells)
    requires TextColumnOf(a) && TextColumnOf(b) && TextColumnOf(c) && !v.Num? && !w.Num? && !x.Num?
    ensures TextEquals([Equals(a, v), Equals(b, w), Equals(c, x)])
    ensures Agrees(id, cells, [Equals(a, v), Equals(b, w), Equals(c, x)]) <==>
            At(cells, a) == v && At(cells, b) == w && At(cells, c) == x
  {
    var f := [Equals(a, v), Equals(b, w), Equals(c, x)];
    TextsOfThree(a, v, b, w, c, x);
    assert f[0].0 == a && f[1].0 == b && f[2].0 == c;
    assert At(View(id, cells), a) == At(cells, a) && At(View(id, cells), b) == At(cells, b) && At(View(id, cells), c) == At(cells, c);
    hide RESPONSE_SCHEMA;
  }

  // ------------------------------------------------------------ actions that insert rows

  /** The row a response is stored as. */
  predicate Holds(t: Table, ws: string, ctype: string, r: Response) {
    Text(r.id) in t &&
    var c := t[Text(r.id)];
    && At(c, "workspace_id") == Text(ws) && At(c, "codebook_type") == Text(ctype)
    && At(c, "quote") == Text(r.quote) && At(c, "code") == Text(r.code) && At(c, "explanation") == Text(r.explanation)
    && At(c, "post_id") == Text(r.postId) && At(c, "model") == Text(r.model) && At(c, "response_type") == Text(r.responseType)
    && At(c, "chat_history") == Text(r.chat) && At(c, "created_at") == r.createdAt
    && At(c, "is_marked") == (if r.mark.Some? then AsMark(r.mark.value) else Null)
    && At(c, "theme_id") == At(c, "grouped_code_id") == At(c, "range_marker") == At(c, "source") == Null
  }

  lemma StoredCell(cells: Cells, f: string)
    requires f in cells
    ensures TextColumnOf(f) ==> At(Stored(RESPONSE_SCHEMA, cells), f) == cells[f]
    ensures f == "is_marked" ==> At(Stored(RESPONSE_SCHEMA, cells), f) == AsMark(cells[f])
  {
  }

  const TEXTS := {"workspace_id", "model", "quote", "code", "explanation", "post_id", "codebook_type", "response_type",
                  "theme_id", "grouped_code_id", "chat_history", "created_at", "range_marker", "source"}

  lemma TextsAreText()
    ensures forall f :: f in TEXTS ==> TextColumnOf(f)
  {
  }

  lemma StoredCells(cells: Cells)
    requires cells.Keys == TEXTS + {"is_marked"}
    ensures forall f :: f in TEXTS ==> At(Stored(RESPONSE_SCHEMA, cells), f) == cells[f]
    ensures At(Stored(RESPONSE_SCHEMA, cells), "is_marked") == AsMark(cells["is_marked"])
  {
    hide RESPONSE_SCHEMA, TEXTS, TextColumnOf, Stored;
    TextsAreText();
    forall f | f in cells
      ensures TextColumnOf(f) ==> At(Stored(RESPONSE_SCHEMA, cells), f) == cells[f]
      ensures f == "is_marked" ==> At(Stored(RESPONSE_SCHEMA, cells), f) == AsMark(cells[f])
    {
      StoredCell(cells, f);
    }
    assert "is_marked" in cells;
  }

  lemma RowColumns(ws: string, ctype: string, r: Response)
    ensures RowOf(ws, ctype, r).cells.Keys == TEXTS + {"is_marked"}
  {
  }

  lemma RowText(ws: string, ctype: string, r: Response)
    ensures var c := RowOf(ws, ctype, r).cells;
            && At(c, "workspace_id") == Text(ws) && At(c, "codebook_type") == Text(ctype)
            && At(c, "quote") == Text(r.quote) && At(c, "code") == Text(r.code) && At(c, "explanation") == Text(r.explanation)
            && At(c, "post_id") == Text(r.postId) && At(c, "model") == Text(r.model)
  {
  }

  lemma RowRest(ws: string, ctype: string, r: Response)
    ensures var c := RowOf(ws, ctype, r).cells;
            && At(c, "response_type") == Text(r.responseType)
            && At(c, "chat_history") == Text(r.chat) && At(c, "created_at") == r.createdAt
            && At(c, "is_marked") == (if r.mark.Some? then r.mark.value else Null)
            && At(c, "theme_id") == At(c, "grouped_code_id") == At(c, "range_marker") == At(c, "source") == Null
  {
  }

  /** `t'` is `t` without the rows in `gone`, and with a row for every given response. */
  ghost predicate Exchanged(t: Table, gone: set<Value>, ws: string, ctype: string, rs: seq<Response>, t': Table) {
    && t'.Keys == (t.Keys - gone) + (set r | r in rs :: Text(r.id))
    && (forall id :: id in t && id !in gone ==> id in t' && t'[id] == t[id])
    && (forall r :: r in rs ==> Holds(t', ws, ctype, r))
  }

  lemma InsertedRows(t: Table, gone: set<Value>, ws: string, ctype: string, rs: seq<Response>)
    requires Fits(RESPONSE_SCHEMA, t, gone, RowsOf(ws, ctype, rs))
    ensures Exchanged(t, gone, ws, ctype, rs, Replaced(RESPONSE_SCHEMA, t, gone, RowsOf(ws, ctype, rs)))
  {
    var rows := RowsOf(ws, ctype, rs);
    FitsDisjoint(RESPONSE_SCHEMA, t, gone, rows);
    RefillsAdd(RESPONSE_SCHEMA, t - gone, rows);
    InsertedIds(ws, ctype, rs);
    StoredIds(RESPONSE_SCHEMA, rows);
    var t' := Replaced(RESPONSE_SCHEMA, t, gone, rows);
    hide Refills, Fits, RESPONSE_SCHEMA, StoredRows, DistinctRows, Stored, Insertable;
    forall r | r in rs ensures Holds(t', ws, ctype, r) {
      var i :| 0 <= i < |rs| && rs[i] == r;
      assert rows[i] in rows && rows[i] == RowOf(ws, ctype, r);
      HoldsStored(t', ws, ctype, r);
    }
  }

  lemma HoldsStored(t: Table, ws: string, ctype: string, r: Response)
    requires Text(r.id) in t && t[Text(r.id)] == Stored(RESPONSE_SCHEMA, RowOf(ws, ctype, r).cells)
    ensures Holds(t, ws, ctype, r)
  {
    RowColumns(ws, ctype, r);
    RowText(ws, ctype, r);
    RowRest(ws, ctype, r);
    hide RESPONSE_SCHEMA, Stored, RowOf;
    StoredCells(RowOf(ws, ctype, r).cells);
  }

  /** ADD_RESPONSES: a row for every response with a code and a quote; no other changes. */
  lemma AddResponsesRows(t: Table, ws: string, ctype: string, rs: seq<Response>)
    requires RowsSucceed(t, ws, ctype, AddResponses(rs), false)
    ensures Exchanged(t, {}, ws, ctype, Kept(rs), RowsAfter(t, ws, ctype, AddResponses(rs)))
    ensures forall r :: r in Kept(rs) <==> r in rs && NonBlank(r.code) && NonBlank(r.quote)
  {
    hide Exchanged, Kept, NonBlank, Fits, Replaced, RESPONSE_SCHEMA;
    InsertedRows(t, {}, ws, ctype, Kept(rs));
    forall r ensures r in Kept(rs) <==> r in rs && NonBlank(r.code) && NonBlank(r.quote) {
      KeptIff(rs, r);
    }
  }

  /** SET_RESPONSES: the same, and no row in scope that was there before is left. */
  lemma SetResponsesRows(t: Table, ws: string, ctype: string, rs: seq<Response>)
    requires RowsSucceed(t, ws, ctype, SetResponses(rs), false)
    ensures Exchanged(t, (set id | id in t && Scoped(t[id], ws, ctype)), ws, ctype, Kept(rs),
                      RowsAfter(t, ws, ctype, SetResponses(rs)))
  {
    hide Exchanged, Kept, Fits, Replaced, RESPONSE_SCHEMA, Sel, Base, Scoped, TextEquals, Agrees;
    NoMore(ws, ctype, Null, map[]);
    InScopeOf(t, ws, ctype, []);
    forall id | id in t ensures Agrees(id, t[id], []) {
      NoMore(ws, ctype, id, t[id]);
    }
    var gone := set id | id in t && Scoped(t[id], ws, ctype);
    assert gone == Sel(t, Base(ws, ctype)) by {
      SelInside(t, Base(ws, ctype));
    }
    InsertedRows(t, gone, ws, ctype, Kept(rs));
  }

  lemma SelInside(t: Table, f: FilterMap)
    ensures Sel(t, f) <= t.Keys
  {
  }

  /** SET_PARTIAL_RESPONSES: the same, replacing only the rows in scope of the posts that
      the responses are about. */
  lemma SetPartialResponsesRows(t: Table, ws: string, ctype: string, rs: seq<Response>)
    requires RowsSucceed(t, ws, ctype, SetPartialResponses(rs), false)
    ensures Exchanged(t, (set id | id in t && Scoped(t[id], ws, ctype) && PostOf(t[id], Kept(rs))), ws, ctype, Kept(rs),
                      RowsAfter(t, ws, ctype, SetPartialResponses(rs)))
  {
    hide Exchanged, Kept, Fits, Replaced, RESPONSE_SCHEMA, Sel, Scoped, PostOf, OfPosts;
    var gone := set id | id in t && Scoped(t[id], ws, ctype) && PostOf(t[id], Kept(rs));
    forall id | id in t ensures id in Sel(t, OfPosts(ws, ctype, Kept(rs))) <==> id in gone {
      OfPostsSelects(t, ws, ctype, Kept(rs), id);
    }
    assert gone == Sel(t, OfPosts(ws, ctype, Kept(rs))) by {
      SelInside(t, OfPosts(ws, ctype, Kept(rs)));
    }
    InsertedRows(t, gone, ws, ctype, Kept(rs));
  }

  predicate PostOf(cells: Cells, rs: seq<Response>) {
    exists r :: r in rs && At(cells, "post_id") == Text(r.postId)
  }

  lemma OfPostsSelects(t: Table, ws: string, ctype: string, rs: seq<Response>, id: Value)
    requires id in t
    ensures id in Sel(t, OfPosts(ws, ctype, rs)) <==> Scoped(t[id], ws, ctype) && PostOf(t[id], rs)
  {
    var posts := seq(|rs|, i requires 0 <= i < |rs| => Text(rs[i].postId));
    var a, b := Condition("workspace_id", Eq, One(Text(ws))), Condition("codebook_type", Eq, One(Text(ctype)));
    var c := Condition("post_id", In, Many(posts));
    assert Conditions(OfPosts(ws, ctype, rs)) == [a, b, c];
    PostsMatch(ws, ctype, rs, posts, id, t[id]);
    hide OfPosts, Matches, RESPONSE_SCHEMA;
  }

  lemma PostsMatch(ws: string, ctype: string, rs: seq<Response>, posts: seq<Value>, id: Value, row: Cells)
    requires |posts| == |rs| && forall i :: 0 <= i < |rs| ==> posts[i] == Text(rs[i].postId)
    ensures Matches(RESPONSE_SCHEMA, [Condition("workspace_id", Eq, One(Text(ws))), Condition("codebook_type", Eq, One(Text(ctype))),
                                      Condition("post_id", In, Many(posts))], View(id, row)) <==>
            Scoped(row, ws, ctype) && PostOf(row, rs)
  {
    var a, b := Condition("workspace_id", Eq, One(Text(ws))), Condition("codebook_type", Eq, One(Text(ctype)));
    var c := Condition("post_id", In, Many(posts));
    var cells := View(id, row);
    EqualMeets("workspace_id", Text(ws), id, row);
    EqualMeets("codebook_type", Text(ctype), id, row);
    PostMeets(rs, posts, id, row);
    hide RESPONSE_SCHEMA, Meets, Scoped, PostOf;
    MatchesThree(RESPONSE_SCHEMA, a, b, c, cells);
    assert Scoped(row, ws, ctype) <==> At(row, "workspace_id") == Text(ws) && At(row, "codebook_type") == Text(ctype) by {
      ScopedIs(row, ws, ctype);
    }
  }

  lemma ScopedIs(row: Cells, ws: string, ctype: string)
    ensures Scoped(row, ws, ctype) <==> At(row, "workspace_id") == Text(ws) && At(row, "codebook_type") == Text(ctype)
  {
  }

  lemma EqualMeets(column: string, v: Value, id: Value, row: Cells)
    requires column in {"workspace_id", "codebook_type"} && v.Text?
    ensures column in RESPONSE_SCHEMA
    ensures Meets(RESPONSE_SCHEMA[column], Condition(column, Eq, One(v)), At(View(id, row), column)) <==> At(row, column) == v
  {
  }

  lemma PostMeets(rs: seq<Response>, posts: seq<Value>, id: Value, row: Cells)
    requires |posts| == |rs| && forall i :: 0 <= i < |rs| ==> posts[i] == Text(rs[i].postId)
    ensures "post_id" in RESPONSE_SCHEMA
    ensures Meets(RESPONSE_SCHEMA["post_id"], Condition("post_id", In, Many(posts)), At(View(id, row), "post_id")) <==> PostOf(row, rs)
  {
    PostListed(RESPONSE_SCHEMA["post_id"], rs, posts, At(row, "post_id"));
    hide Meets;
  }

  lemma MatchesThree(schema: Schema, a: Condition, b: Condition, c: Condition, cells: Cells)
    ensures Matches(schema, [a, b, c], cells) <==>
            && a.column in schema && Meets(schema[a.column], a, At(cells, a.column))
            && b.column in schema && Meets(schema[b.column], b, At(cells, b.column))
            && c.column in schema && Meets(schema[c.column], c, At(cells, c.column))
  {
    hide Meets;
    var conds := [a, b, c];
    assert conds[0] == a && conds[1] == b && conds[2] == c;
  }

  lemma PostListed(text: ColumnType, rs: seq<Response>, posts: seq<Value>, x: Value)
    requires text.affinity.TextColumn? && |posts| == |rs| && forall i :: 0 <= i < |rs| ==> posts[i] == Text(rs[i].postId)
    ensures Meets(text, Condition("post_id", In, Many(posts)), x) <==> exists r :: r in rs && x == Text(r.postId)
  {
    if r :| r in rs && x == Text(r.postId) {
      var i :| 0 <= i < |rs| && rs[i] == r;
      assert x == Normalize(text, posts[i]);
    }
  }

  // ------------------------------------------------------------ RESTORE_STATE

  const READ := {"model", "quote", "code", "explanation", "post_id", "response_type", "chat_history", "range_marker"}

  lemma ReadAreText()
    ensures READ <= TEXTS && forall f :: f in READ ==> f in KEPT && f !in {"workspace_id", "codebook_type", "is_marked"}
    ensures "workspace_id" in TEXTS && "codebook_type" in TEXTS && KEPT == READ + {"is_marked"}
  {
  }

  /** What is written to a column, before it is stored. */
  lemma ItemCell(ws: string, ctype: string, existing: Cells, given: Cells, f: string)
    ensures var c := ItemCells(ws, ctype, existing, given);
            && (f == "workspace_id" ==> f in c && c[f] == Text(ws))
            && (f == "codebook_type" ==> f in c && c[f] == if f in given then given[f] else Text(ctype))
            && (f in KEPT && (f in given || f in existing) ==> f in c && c[f] == if f in given then given[f] else existing[f])
            && (f in KEPT && f !in given && f !in existing ==> f !in c)
            && (f !in KEPT + {"workspace_id", "codebook_type"} ==> f !in c)
  {
    assert "workspace_id" !in KEPT && "codebook_type" !in KEPT;
    hide KEPT;
  }

  lemma StoredKeys(cells: Cells, f: string)
    ensures f !in cells ==> f !in Stored(RESPONSE_SCHEMA, cells)
    ensures f in cells && (TextColumnOf(f) || f == "is_marked") ==> f in Stored(RESPONSE_SCHEMA, cells)
  {
  }

  /** One payload response rewrites the row it names: the workspace always, the codebook
      type as given or that of the pass, every other column read as given or kept. */
  lemma ItemRows(t: Table, ws: string, ctype: string, it: Item)
    requires ItemRuns(t, it) && !BlankId(it.id)
    ensures var t' := ItemWritten(t, ws, ctype, it);
            && t'.Keys == t.Keys && it.id in t && (forall id :: id in t && id != it.id ==> t'[id] == t[id])
            && (forall f :: At(t'[it.id], f) ==
                 if f == "workspace_id" then Text(ws)
                 else if f == "codebook_type" then if f in it.given then it.given[f] else Text(ctype)
                 else if f in READ then if f in it.given then it.given[f] else At(t[it.id], f)
                 else if f == "is_marked" && f in it.given then AsMark(it.given[f])
                 else if f == "is_marked" then AsMark(At(t[it.id], f))
                 else At(t[it.id], f))
  {
    ReadAreText();
    hide RESPONSE_SCHEMA, READ, TEXTS, KEPT, TextColumnOf, Stored, ItemCells, AllStorable;
    TextsAreText();
    var existing, given := t[it.id], it.given;
    var cells := ItemCells(ws, ctype, existing, given);
    forall f
      ensures At(existing + Stored(RESPONSE_SCHEMA, cells), f) ==
              if f == "workspace_id" then Text(ws)
              else if f == "codebook_type" then if f in given then given[f] else Text(ctype)
              else if f in READ then if f in given then given[f] else At(existing, f)
              else if f == "is_marked" && f in given then AsMark(given[f])
              else if f == "is_marked" then AsMark(At(existing, f))
              else At(existing, f)
    {
      ItemCell(ws, ctype, existing, given, f);
      StoredKeys(cells, f);
      if f in cells {
        StoredCell(cells, f);
      }
    }
  }

  predicate Named(items: seq<Item>, id: Value) {
    exists i :: 0 <= i < |items| && items[i].id == id
  }

  /** A row that no payload response names stays as it is. */
  lemma {:induction false} UnnamedStays(t: Table, ws: string, ctype: string, items: seq<Item>, id: Value)
    requires id in t && !Named(items, id)
    ensures AllWritten(t, ws, ctype, items)[id] == t[id]
    decreases |items|
  {
    if items != [] {
      var n := |items| - 1;
      assert items[n].id != id;
      UnnamedStays(t, ws, ctype, items[..n], id);
      hide ItemCells, Stored;
    }
  }

  lemma NamedMore(items: seq<Item>, it: Item, id: Value)
    ensures Named(items + [it], id) <==> Named(items, id) || it.id == id
  {
    var all := items + [it];
    assert all[|items|] == it && forall i :: 0 <= i < |items| ==> all[i] == items[i];
  }

  /** A row is what the last payload response that names it makes of what the earlier ones
      left; named once, of what it was. */
  lemma {:induction false} RestoreStateRow(t: Table, ws: string, ctype: string, items: seq<Item>, k: nat)
    requires k < |items| && !Named(items[k + 1..], items[k].id) && items[k].id in t
    ensures var before := AllWritten(t, ws, ctype, items[..k]);
            && AllWritten(t, ws, ctype, items)[items[k].id] == ItemWritten(before, ws, ctype, items[k])[items[k].id]
            && (!Named(items[..k], items[k].id) ==> before[items[k].id] == t[items[k].id])
    decreases |items|
  {
    var n, id := |items| - 1, items[k].id;
    if !Named(items[..k], id) {
      UnnamedStays(t, ws, ctype, items[..k], id);
    }
    if k == n {
      assert items[..n] == items[..k];
    } else {
      assert items[..n][..k] == items[..k] && items[..n][k] == items[k];
      assert items[k + 1..][n - k - 1] == items[n];
      assert items[k + 1..] == items[..n][k + 1..] + [items[n]];
      NamedMore(items[..n][k + 1..], items[n], id);
      RestoreStateRow(t, ws, ctype, items[..n], k);
      OthersWritten(AllWritten(t, ws, ctype, items[..n]), ws, ctype, items[n], id);
      hide ItemWritten;
    }
  }

  lemma OthersWritten(t: Table, ws: string, ctype: string, it: Item, id: Value)
    requires id in t && it.id != id
    ensures ItemWritten(t, ws, ctype, it)[id] == t[id]
  {
    hide ItemCells, Stored;
  }
}
