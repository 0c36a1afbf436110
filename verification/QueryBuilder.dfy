/** The SQL the query builder renders, and what the database makes of it.

    Clauses are kept as structure (column, operator, number of `?` marks) rather
    than as text; parameters are bound to the marks from left to right.  A row is
    selected when the conjunction of the clauses is true in SQL's three-valued
    logic: neither false nor unknown selects. */
module QueryBuilder {
  import opened Outcomes

  /** What a cell stores.  Booleans are stored as the numbers 0 and 1. */
  datatype Value = Null | Num(n: int) | Text(s: string)

  datatype Affinity = BoolColumn | NumColumn | TextColumn
  datatype ColumnType = ColumnType(affinity: Affinity, nullable: bool)
  type Schema = map<string, ColumnType>
  type Cells = map<string, Value>

  datatype Operator = Eq | Ne | Gt | Lt | Ge | Le | In | NotIn | Is | IsNot
  datatype Operand = One(v: Value) | Many(vs: seq<Value>)
  datatype Condition = Condition(column: string, op: Operator, operand: Operand)

  /** A filter map's value: a scalar or list, or an explicit (operator, operand) pair. */
  datatype FilterValue = Plain(operand: Operand) | With(op: Operator, arg: Operand)
  type FilterMap = seq<(string, FilterValue)>

  function AsCondition(entry: (string, FilterValue)): Condition {
    match entry.1
    case Plain(One(v)) => Condition(entry.0, Eq, One(v))
    case Plain(Many(vs)) => Condition(entry.0, In, Many(vs))
    case With(op, x) => Condition(entry.0, op, x)
  }

  function Conditions(f: FilterMap): seq<Condition> {
    seq(|f|, i requires 0 <= i < |f| => AsCondition(f[i]))
  }

  // ---------------------------------------------------------------- rendering

  function Normalize(t: ColumnType, v: Value): Value {
    if t.affinity.BoolColumn? && v.Num? then Num(if v.n == 0 then 0 else 1) else v
  }

  predicate Accepts(t: ColumnType, v: Value) {
    match v
    case Null => t.nullable
    case Num(_) => !t.affinity.TextColumn?
    case Text(_) => t.affinity.TextColumn?
  }

  datatype Clause =
    | IsNullClause(column: string)
    | IsNotNullClause(column: string)
    | CompareClause(column: string, op: Operator)
    | ListClause(column: string, op: Operator, marks: nat)

  function Marks(c: Clause): nat {
    match c
    case IsNullClause(_) => 0
    case IsNotNullClause(_) => 0
    case CompareClause(_, _) => 1
    case ListClause(_, _, n) => n
  }

  /** `col IN ?` without parentheses is not SQL. */
  predicate ValidSql(c: Clause) {
    c.CompareClause? ==> !c.op.In? && !c.op.NotIn?
  }

  datatype Rendered = Rendered(clause: Clause, params: seq<Value>)

  function FormatFilter(schema: Schema, c: Condition): (r: Result<Rendered>)
    ensures r.Ok? ==> c.column in schema && Marks(r.value.clause) == |r.value.params|
  {
    if c.column !in schema then Err("invalid column")
    else
      var t := schema[c.column];
      match c.operand
      case One(v0) =>
        var v := Normalize(t, v0);
        if v.Null? then
          match c.op
          case Eq => Ok(Rendered(IsNullClause(c.column), []))
          case Ne => Ok(Rendered(IsNotNullClause(c.column), []))
          case _ => Err("operator cannot be used with None")
        else if !Accepts(t, v) then Err("invalid type")
        else Ok(Rendered(CompareClause(c.column, c.op), [v]))
      case Many(vs) =>
        if !c.op.In? && !c.op.NotIn? then Err("operator cannot be used with a list")
        else if vs == [] then Err("empty list")
        else
          var ns := seq(|vs|, i requires 0 <= i < |vs| => Normalize(t, vs[i]));
          if exists i :: 0 <= i < |ns| && !Accepts(t, ns[i]) then Err("invalid type")
          else Ok(Rendered(ListClause(c.column, c.op, |ns|), ns))
  }

  datatype Where = Where(clauses: seq<Clause>, params: seq<Value>)

  function RenderWhere(schema: Schema, conds: seq<Condition>): (r: Result<Where>)
    ensures r.Ok? ==> |r.value.clauses| == |conds|
  {
    if conds == [] then Ok(Where([], []))
    else
      var w :- RenderWhere(schema, conds[..|conds| - 1]);
      var last :- FormatFilter(schema, conds[|conds| - 1]);
      Ok(Where(w.clauses + [last.clause], w.params + last.params))
  }

  datatype Statement =
    | Select(clauses: seq<Clause>, params: seq<Value>)
    | Update(sets: seq<string>, clauses: seq<Clause>, params: seq<Value>)
    | Delete(clauses: seq<Clause>, params: seq<Value>)
    | DeleteAll

  /** An INSERT names its columns and has one mark for each. */
  datatype Insertion = Insertion(columns: seq<string>, params: seq<Value>)

  type Updates = seq<(string, Value)>

  function NormalizeUpdates(schema: Schema, ups: Updates): (r: Result<seq<Value>>)
    ensures r.Ok? ==> |r.value| == |ups|
  {
    if ups == [] then Ok([])
    else
      var front :- NormalizeUpdates(schema, ups[..|ups| - 1]);
      var (column, v0) := ups[|ups| - 1];
      if column !in schema then Err("invalid column")
      else
        var v := Normalize(schema[column], v0);
        if Accepts(schema[column], v) then Ok(front + [v]) else Err("invalid type")
  }

  function Names(ups: Updates): seq<string> {
    seq(|ups|, i requires 0 <= i < |ups| => ups[i].0)
  }

  function FindStatement(schema: Schema, builder: seq<Condition>, f: FilterMap): Result<Statement> {
    var w :- RenderWhere(schema, Conditions(f) + builder);
    Ok(Select(w.clauses, w.params))
  }

  function UpdateStatement(schema: Schema, f: FilterMap, ups: Updates): Result<Statement> {
    var values :- NormalizeUpdates(schema, ups);
    var w :- RenderWhere(schema, Conditions(f));
    Ok(Update(Names(ups), w.clauses, values + w.params))
  }

  function InsertStatement(schema: Schema, data: Updates): (r: Result<Insertion>)
    ensures r.Ok? ==> |r.value.columns| == |r.value.params|
  {
    var values :- NormalizeUpdates(schema, data);
    Ok(Insertion(Names(data), values))
  }

  function DeleteStatement(schema: Schema, f: FilterMap, all: bool): Result<Statement> {
    if f == [] && !all then Err("filters are required")
    else if all then Ok(DeleteAll)
    else
      var w :- RenderWhere(schema, Conditions(f));
      Ok(Delete(w.clauses, w.params))
  }

  /** The builder object: its own `where` filters, and the statements it renders. */
  class Builder {
    const schema: Schema
    var filters: seq<Condition>

    constructor (schema: Schema)
      ensures this.schema == schema && filters == []
    {
      this.schema := schema;
      filters := [];
    }

    method Reset()
      modifies this
      ensures filters == []
    {
      filters := [];
    }

    /** Queues one condition.  A None value turns `=` into `IS` and `!=` into `IS NOT`. */
    method AddWhere(column: string, operand: Operand, op: Operator) returns (r: Result<()>)
      modifies this
      ensures r.Err? ==> filters == old(filters)
      ensures r.Ok? ==> |filters| == |old(filters)| + 1 && filters[..|old(filters)|] == old(filters)
      ensures r.Ok? ==> Queues(schema, column, operand, op, filters[|old(filters)|])
      ensures r.Ok? <==> Queueable(schema, column, operand, op)
    {
      if column !in schema || op.Is? || op.IsNot? {
        return Err("invalid column or operator");
      }
      var t := schema[column];
      var added: Condition;
      if operand == One(Null) {
        if op.Eq? {
          added := Condition(column, Is, operand);
        } else if op.Ne? {
          added := Condition(column, IsNot, operand);
        } else {
          return Err("operator cannot be used with None");
        }
      } else {
        match operand {
          case One(v) =>
            if !Accepts(t, Normalize(t, v)) {
              return Err("invalid type");
            }
            added := Condition(column, op, One(Normalize(t, v)));
          case Many(vs) =>
            if (!op.In? && !op.NotIn?) || vs == [] {
              return Err("operator cannot be used with this list");
            }
            var ns := seq(|vs|, i requires 0 <= i < |vs| => Normalize(t, vs[i]));
            if exists i :: 0 <= i < |ns| && !Accepts(t, ns[i]) {
              return Err("invalid type");
            }
            added := Condition(column, op, Many(ns));
            NormalizedTwice(t, vs, ns);
        }
      }
      filters := filters + [added];
      return Ok(());
    }

    method FormatAll(conds: seq<Condition>) returns (r: Result<Where>)
      ensures r == RenderWhere(schema, conds)
    {
      var clauses, params := [], [];
      for i := 0 to |conds|
        invariant RenderWhere(schema, conds[..i]) == Ok(Where(clauses, params))
      {
        var next := FormatFilter(schema, conds[i]);
        assert conds[..i + 1][..i] == conds[..i];
        if next.Err? {
          RenderStops(schema, conds, i);
          return Err(next.reason);
        }
        clauses, params := clauses + [next.value.clause], params + next.value.params;
      }
      assert conds[..|conds|] == conds;
      return Ok(Where(clauses, params));
    }

    method Find(f: FilterMap) returns (r: Result<Statement>)
      ensures r == FindStatement(schema, filters, f)
    {
      var w :- FormatAll(Conditions(f) + filters);
      return Ok(Select(w.clauses, w.params));
    }

    /** Checks and converts the values of a dictionary, in its order. */
    method NormalizeEach(ups: Updates) returns (r: Result<seq<Value>>)
      ensures r == NormalizeUpdates(schema, ups)
    {
      var values := [];
      for i := 0 to |ups|
        invariant NormalizeUpdates(schema, ups[..i]) == Ok(values)
      {
        var (column, v0) := ups[i];
        assert ups[..i + 1][..i] == ups[..i];
        if column !in schema {
          UpdateStops(schema, ups, i);
          return Err("invalid column");
        }
        var v := Normalize(schema[column], v0);
        if !Accepts(schema[column], v) {
          UpdateStops(schema, ups, i);
          return Err("invalid type");
        }
        values := values + [v];
      }
      assert ups[..|ups|] == ups;
      return Ok(values);
    }

    method RenderUpdate(f: FilterMap, ups: Updates) returns (r: Result<Statement>)
      ensures r == UpdateStatement(schema, f, ups)
    {
      var values :- NormalizeEach(ups);
      var w :- FormatAll(Conditions(f));
      return Ok(Update(Names(ups), w.clauses, values + w.params));
    }

    method RenderInsert(data: Updates) returns (r: Result<Insertion>)
      ensures r == InsertStatement(schema, data)
    {
      var values :- NormalizeEach(data);
      return Ok(Insertion(Names(data), values));
    }

    method RenderDelete(f: FilterMap, all: bool) returns (r: Result<Statement>)
      ensures r == DeleteStatement(schema, f, all)
    {
      if f == [] && !all {
        return Err("filters are required");
      }
      if all {
        return Ok(DeleteAll);
      }
      var w :- FormatAll(Conditions(f));
      return Ok(Delete(w.clauses, w.params));
    }
  }

  /** The arguments `AddWhere` takes: an operator other than IS and IS NOT, with a null
      only (in)equality, with a list only membership and at least one value, and values
      the column accepts. */
  predicate Queueable(schema: Schema, column: string, operand: Operand, op: Operator) {
    column in schema && !op.Is? && !op.IsNot? &&
    match operand
    case One(Null) => op.Eq? || op.Ne?
    case One(v) => Accepts(schema[column], Normalize(schema[column], v))
    case Many(vs) =>
      (op.In? || op.NotIn?) && vs != [] && forall i :: 0 <= i < |vs| ==> Accepts(schema[column], Normalize(schema[column], vs[i]))
  }

  /** What a successful `AddWhere` queues for its arguments: the same condition on the
      converted values. */
  predicate Queues(schema: Schema, column: string, operand: Operand, op: Operator, c: Condition) {
    if operand == One(Null)
    then (c == Condition(column, Is, operand) && op.Eq?) || (c == Condition(column, IsNot, operand) && op.Ne?)
    else c.column == column && c.op == op && FormatFilter(schema, c).Ok? && column in schema &&
         match operand
         case One(v) => c.operand == One(Normalize(schema[column], v))
         case Many(vs) =>
           c.operand.Many? && |c.operand.vs| == |vs|
           && forall i :: 0 <= i < |vs| ==> c.operand.vs[i] == Normalize(schema[column], vs[i])
  }

  lemma NormalizedTwice(t: ColumnType, vs: seq<Value>, ns: seq<Value>)
    requires |ns| == |vs| && forall i :: 0 <= i < |vs| ==> ns[i] == Normalize(t, vs[i])
    ensures seq(|ns|, i requires 0 <= i < |ns| => Normalize(t, ns[i])) == ns
  {
  }

  lemma {:induction false} RenderStops(schema: Schema, conds: seq<Condition>, i: nat)
    requires i < |conds|
    requires RenderWhere(schema, conds[..i]).Ok? && FormatFilter(schema, conds[i]).Err?
    ensures RenderWhere(schema, conds) == Err(FormatFilter(schema, conds[i]).reason)
    decreases |conds|
  {
    var front := conds[..|conds| - 1];
    if i == |conds| - 1 {
    } else {
      assert front[..i] == conds[..i];
      RenderStops(schema, front, i);
    }
  }

  lemma {:induction false} UpdateStops(schema: Schema, ups: Updates, i: nat)
    requires i < |ups|
    requires NormalizeUpdates(schema, ups[..i]).Ok? && NormalizeUpdates(schema, ups[..i + 1]).Err?
    ensures NormalizeUpdates(schema, ups) == NormalizeUpdates(schema, ups[..i + 1])
    decreases |ups|
  {
    var front := ups[..|ups| - 1];
    if i == |ups| - 1 {
      assert ups[..i + 1] == ups;
    } else {
      assert front[..i] == ups[..i] && front[..i + 1] == ups[..i + 1];
      UpdateStops(schema, front, i);
    }
  }

  // ------------------------------------------------- what the database selects

  datatype Truth = True | False | Unknown

  function And3(a: Truth, b: Truth): Truth {
    if a.False? || b.False? then False
    else if a.True? && b.True? then True
    else Unknown
  }

  function Not3(a: Truth): Truth {
    match a
    case True => False
    case False => True
    case Unknown => Unknown
  }

  function Known(b: bool): Truth {
    if b then True else False
  }

  predicate TextBefore(a: string, b: string) {
    if b == [] then false
    else if a == [] then true
    else a[0] < b[0] || (a[0] == b[0] && TextBefore(a[1..], b[1..]))
  }

  /** Numbers sort before text; text sorts lexicographically. */
  predicate Before(a: Value, b: Value) {
    match (a, b)
    case (Num(x), Num(y)) => x < y
    case (Num(_), Text(_)) => true
    case (Text(x), Text(y)) => TextBefore(x, y)
    case _ => false
  }

  function At(cells: Cells, column: string): Value {
    if column in cells then cells[column] else Null
  }

  function Compare3(op: Operator, x: Value, v: Value): Truth {
    if op.Is? then Known(x == v)
    else if op.IsNot? then Known(x != v)
    else if x.Null? || v.Null? then Unknown
    else
      match op
      case Eq => Known(x == v)
      case Ne => Known(x != v)
      case Lt => Known(Before(x, v))
      case Gt => Known(Before(v, x))
      case Le => Known(!Before(v, x))
      case Ge => Known(!Before(x, v))
      case _ => Unknown
  }

  function Member3(x: Value, vs: seq<Value>): Truth {
    if x.Null? then Unknown
    else if x in vs then True
    else if Null in vs then Unknown
    else False
  }

  function Eval(c: Clause, args: seq<Value>, cells: Cells): Truth
    requires |args| == Marks(c)
  {
    match c
    case IsNullClause(col) => Known(At(cells, col).Null?)
    case IsNotNullClause(col) => Known(!At(cells, col).Null?)
    case CompareClause(col, op) => Compare3(op, At(cells, col), args[0])
    case ListClause(col, op, _) =>
      var m := Member3(At(cells, col), args);
      if op.NotIn? then Not3(m) else m
  }

  function TotalMarks(clauses: seq<Clause>): nat {
    if clauses == [] then 0 else Marks(clauses[0]) + TotalMarks(clauses[1..])
  }

  /** Binds parameters to marks left to right and takes the conjunction. */
  function Holds(clauses: seq<Clause>, params: seq<Value>, cells: Cells): Truth
    requires TotalMarks(clauses) == |params|
  {
    if clauses == [] then True
    else
      var n := Marks(clauses[0]);
      And3(Eval(clauses[0], params[..n], cells), Holds(clauses[1..], params[n..], cells))
  }

  /** The parameters left for the WHERE clause once the SET marks are bound. */
  function WhereParams(s: Statement): seq<Value>
    requires s.Update? ==> |s.sets| <= |s.params|
  {
    match s
    case Select(_, ps) => ps
    case Update(sets, _, ps) => ps[|sets|..]
    case Delete(_, ps) => ps
    case DeleteAll => []
  }

  function WhereClauses(s: Statement): seq<Clause> {
    match s
    case Select(cs, _) => cs
    case Update(_, cs, _) => cs
    case Delete(cs, _) => cs
    case DeleteAll => []
  }

  /** One parameter for every `?`, SET marks first. */
  predicate MarksLineUp(s: Statement) {
    (s.Update? ==> |s.sets| <= |s.params|) && TotalMarks(WhereClauses(s)) == |WhereParams(s)|
  }

  predicate Selects(s: Statement, cells: Cells)
    requires MarksLineUp(s)
  {
    Holds(WhereClauses(s), WhereParams(s), cells).True?
  }

  /** An UPDATE or DELETE rendered with `WHERE` and nothing after it is a syntax
      error, and so is a scalar IN. */
  predicate Executable(s: Statement) {
    && (s.Update? || s.Delete? ==> WhereClauses(s) != [])
    && (s.Update? ==> s.sets != [])
    && forall i :: 0 <= i < |WhereClauses(s)| ==> ValidSql(WhereClauses(s)[i])
  }

  // --------------------------------------- what a filter map is meant to select

  /** Two-valued meaning of one condition, stated without clauses or parameters. */
  predicate Meets(t: ColumnType, c: Condition, x: Value) {
    match c.operand
    case One(v) =>
      (match c.op
       case Eq => x == Normalize(t, v)
       case Ne => !x.Null? && x != Normalize(t, v)
       case Is => x == Normalize(t, v)
       case IsNot => x != Normalize(t, v)
       case Lt => !x.Null? && Before(x, Normalize(t, v))
       case Gt => !x.Null? && Before(Normalize(t, v), x)
       case Le => !x.Null? && !Before(Normalize(t, v), x)
       case Ge => !x.Null? && !Before(x, Normalize(t, v))
       case _ => false)
    case Many(vs) =>
      if c.op.NotIn?
      then !x.Null? && forall i :: 0 <= i < |vs| ==> !vs[i].Null? && x != Normalize(t, vs[i])
      else !x.Null? && exists i :: 0 <= i < |vs| && x == Normalize(t, vs[i])
  }

  predicate Matches(schema: Schema, conds: seq<Condition>, cells: Cells) {
    forall i :: 0 <= i < |conds| ==>
      conds[i].column in schema && Meets(schema[conds[i].column], conds[i], At(cells, conds[i].column))
  }

  /** One rendered clause is true of exactly the rows its condition describes. */
  lemma ClauseMeans(schema: Schema, c: Condition, cells: Cells)
    requires FormatFilter(schema, c).Ok?
    ensures var r := FormatFilter(schema, c).value;
            Eval(r.clause, r.params, cells).True? <==> Meets(schema[c.column], c, At(cells, c.column))
  {
    var t := schema[c.column];
    var x := At(cells, c.column);
    if c.operand.Many? {
      var vs := c.operand.vs;
      var ns := FormatFilter(schema, c).value.params;
      assert forall i :: 0 <= i < |vs| ==> ns[i] == Normalize(t, vs[i]);
      assert x in ns <==> exists i :: 0 <= i < |vs| && x == Normalize(t, vs[i]);
      assert Null in ns <==> exists i :: 0 <= i < |vs| && vs[i].Null?;
    }
  }

  lemma HoldsFirst(c: Clause, cs: seq<Clause>, ps: seq<Value>, cells: Cells)
    requires Marks(c) + TotalMarks(cs) == |ps|
    ensures TotalMarks([c] + cs) == |ps|
    ensures Holds([c] + cs, ps, cells) == And3(Eval(c, ps[..Marks(c)], cells), Holds(cs, ps[Marks(c)..], cells))
  {
    hide Eval;
    assert ([c] + cs)[0] == c && ([c] + cs)[1..] == cs;
  }

  lemma And3Shifts(a: Truth, b: Truth, c: Truth)
    ensures And3(a, And3(b, c)) == And3(And3(a, b), c)
  {
  }

  lemma {:induction false} HoldsAppend(cs: seq<Clause>, ps: seq<Value>, c: Clause, qs: seq<Value>, cells: Cells)
    requires TotalMarks(cs) == |ps| && Marks(c) == |qs|
    ensures TotalMarks(cs + [c]) == |ps + qs|
    ensures Holds(cs + [c], ps + qs, cells) == And3(Holds(cs, ps, cells), Eval(c, qs, cells))
    decreases |cs|
  {
    if cs == [] {
      assert TotalMarks([]) == 0 && Holds([], [], cells) == True;
      HoldsFirst(c, [], qs, cells);
      assert [c] + [] == cs + [c] && ps + qs == qs && qs[..|qs|] == qs && qs[|qs|..] == [];
    } else {
      var first, rest := cs[0], cs[1..];
      var n := Marks(first);
      assert cs == [first] + rest && cs + [c] == [first] + (rest + [c]);
      assert (ps + qs)[..n] == ps[..n] && (ps + qs)[n..] == ps[n..] + qs;
      HoldsFirst(first, rest, ps, cells);
      hide Eval, Holds, And3, TotalMarks;
      HoldsAppend(rest, ps[n..], c, qs, cells);
      HoldsFirst(first, rest + [c], ps + qs, cells);
      And3Shifts(Eval(first, ps[..n], cells), Holds(rest, ps[n..], cells), Eval(c, qs, cells));
    }
  }

  lemma MatchesSplit(schema: Schema, conds: seq<Condition>, cells: Cells)
    requires conds != [] && conds[|conds| - 1].column in schema
    ensures var c := conds[|conds| - 1];
            Matches(schema, conds, cells) <==>
            (Matches(schema, conds[..|conds| - 1], cells) && Meets(schema[c.column], c, At(cells, c.column)))
  {
    var front := conds[..|conds| - 1];
    assert forall i :: 0 <= i < |front| ==> front[i] == conds[i];
  }

  /** The rendered WHERE has one parameter per mark and selects exactly the rows
      the conditions describe. */
  lemma {:induction false} RenderedMeans(schema: Schema, conds: seq<Condition>, cells: Cells)
    requires RenderWhere(schema, conds).Ok?
    ensures var w := RenderWhere(schema, conds).value;
            TotalMarks(w.clauses) == |w.params|
            && (Holds(w.clauses, w.params, cells).True? <==> Matches(schema, conds, cells))
    decreases |conds|
  {
    if conds == [] {
    } else {
      var n := |conds| - 1;
      var front := conds[..n];
      var w := RenderWhere(schema, front).value;
      var last := FormatFilter(schema, conds[n]).value;
      RenderedMeans(schema, front, cells);
      HoldsAppend(w.clauses, w.params, last.clause, last.params, cells);
      ClauseMeans(schema, conds[n], cells);
      MatchesSplit(schema, conds, cells);
    }
  }

  /** For one non-empty filter map, `find` on an empty builder, `update` and
      `delete` all succeed or all raise on the filters; when rendered, their
      marks line up with their parameters and they select the same rows: those
      the filter map describes. */
  lemma SameRows(schema: Schema, f: FilterMap, ups: Updates, cells: Cells)
    requires f != [] && NormalizeUpdates(schema, ups).Ok?
    ensures FindStatement(schema, [], f).Ok? <==> UpdateStatement(schema, f, ups).Ok?
    ensures FindStatement(schema, [], f).Ok? <==> DeleteStatement(schema, f, false).Ok?
    ensures FindStatement(schema, [], f).Ok? ==>
      var find := FindStatement(schema, [], f).value;
      var update := UpdateStatement(schema, f, ups).value;
      var delete := DeleteStatement(schema, f, false).value;
      && MarksLineUp(find) && MarksLineUp(update) && MarksLineUp(delete)
      && (Selects(find, cells) <==> Matches(schema, Conditions(f), cells))
      && (Selects(update, cells) <==> Matches(schema, Conditions(f), cells))
      && (Selects(delete, cells) <==> Matches(schema, Conditions(f), cells))
  {
    var conds := Conditions(f);
    assert conds + [] == conds;
    if RenderWhere(schema, conds).Ok? {
      RenderedMeans(schema, conds, cells);
      var w := RenderWhere(schema, conds).value;
      var values := NormalizeUpdates(schema, ups).value;
      assert (values + w.params)[|Names(ups)|..] == w.params;
    }
  }

  lemma {:induction false} NormalizedAt(schema: Schema, ups: Updates)
    ensures NormalizeUpdates(schema, ups).Ok? <==>
            forall i :: 0 <= i < |ups| ==> ups[i].0 in schema && Accepts(schema[ups[i].0], Normalize(schema[ups[i].0], ups[i].1))
    ensures NormalizeUpdates(schema, ups).Ok? ==>
              forall i :: 0 <= i < |ups| ==> NormalizeUpdates(schema, ups).value[i] == Normalize(schema[ups[i].0], ups[i].1)
    decreases |ups|
  {
    if ups != [] {
      var n := |ups| - 1;
      NormalizedAt(schema, ups[..n]);
      assert forall i :: 0 <= i < n ==> ups[..n][i] == ups[i];
    }
  }

  /** An UPDATE names the given columns in order, and an INSERT too, each with the
      converted value for its mark. */
  lemma WritesGiven(schema: Schema, f: FilterMap, ups: Updates)
    ensures UpdateStatement(schema, f, ups).Ok? ==>
      var s := UpdateStatement(schema, f, ups).value;
      s.Update? && |s.sets| == |ups| <= |s.params| &&
      forall i :: 0 <= i < |ups| ==> ups[i].0 in schema && s.sets[i] == ups[i].0 && s.params[i] == Normalize(schema[ups[i].0], ups[i].1)
    ensures InsertStatement(schema, ups).Ok? ==>
      var s := InsertStatement(schema, ups).value;
      |s.columns| == |s.params| == |ups| &&
      forall i :: 0 <= i < |ups| ==> ups[i].0 in schema && s.columns[i] == ups[i].0 && s.params[i] == Normalize(schema[ups[i].0], ups[i].1)
    ensures InsertStatement(schema, ups).Ok? <==>
            forall i :: 0 <= i < |ups| ==> ups[i].0 in schema && Accepts(schema[ups[i].0], Normalize(schema[ups[i].0], ups[i].1))
  {
    NormalizedAt(schema, ups);
  }

  /** `find` with queued conditions selects the rows that meet them and the filter map. */
  lemma FindMeans(schema: Schema, builder: seq<Condition>, f: FilterMap, cells: Cells)
    requires FindStatement(schema, builder, f).Ok?
    ensures var s := FindStatement(schema, builder, f).value;
            s.Select? && MarksLineUp(s) &&
            (Selects(s, cells) <==> Matches(schema, Conditions(f), cells) && Matches(schema, builder, cells))
  {
    hide RenderWhere, Holds, Matches, TotalMarks, Conditions;
    RenderedMeans(schema, Conditions(f) + builder, cells);
    MatchesBoth(schema, Conditions(f), builder, cells);
  }

  lemma MatchesBoth(schema: Schema, a: seq<Condition>, b: seq<Condition>, cells: Cells)
    ensures Matches(schema, a + b, cells) <==> Matches(schema, a, cells) && Matches(schema, b, cells)
  {
    hide Meets;
    var all := a + b;
    if Matches(schema, all, cells) {
      forall i | 0 <= i < |a| ensures a[i].column in schema && Meets(schema[a[i].column], a[i], At(cells, a[i].column)) {
        assert all[i] == a[i];
      }
      forall i | 0 <= i < |b| ensures b[i].column in schema && Meets(schema[b[i].column], b[i], At(cells, b[i].column)) {
        assert all[|a| + i] == b[i];
      }
    }
  }

  /** On the empty filter map they part ways: `find` selects every row, `update`
      renders a statement the database rejects, `delete` raises. */
  lemma EmptyFilterDiffers(schema: Schema, ups: Updates, cells: Cells)
    requires NormalizeUpdates(schema, ups).Ok?
    ensures FindStatement(schema, [], []).Ok?
      && MarksLineUp(FindStatement(schema, [], []).value)
      && Selects(FindStatement(schema, [], []).value, cells)
    ensures UpdateStatement(schema, [], ups).Ok? && !Executable(UpdateStatement(schema, [], ups).value)
    ensures DeleteStatement(schema, [], false).Err?
  {
    assert Conditions([]) + [] == [];
  }

  /** A null in an IN list selects nothing: a row with a null cell is never
      selected by IN, and dropping the nulls changes nothing. */
  lemma NullInListNeverMatches(schema: Schema, column: string, vs: seq<Value>, cells: Cells)
    requires column in schema
    ensures Meets(schema[column], Condition(column, In, Many(vs)), At(cells, column)) ==>
      exists i :: 0 <= i < |vs| && !vs[i].Null? && At(cells, column) == Normalize(schema[column], vs[i])
    ensures Null in vs ==> !Meets(schema[column], Condition(column, NotIn, Many(vs)), At(cells, column))
  {
    if Null in vs {
      var k :| 0 <= k < |vs| && vs[k] == Null;
    }
  }

  /** A condition queued by `AddWhere` with None makes every later `Find` raise:
      the operator it was turned into is not one that rendering accepts with None. */
  lemma {:induction false} QueuedNoneAlwaysRaises(schema: Schema, f: FilterMap, builder: seq<Condition>, k: nat)
    requires k < |builder| && builder[k].operand == One(Null) && (builder[k].op.Is? || builder[k].op.IsNot?)
    ensures FindStatement(schema, builder, f).Err?
  {
    var conds := Conditions(f) + builder;
    assert conds[|f| + k] == builder[k];
    RenderNeedsAll(schema, conds, |f| + k);
  }

  lemma {:induction false} RenderNeedsAll(schema: Schema, conds: seq<Condition>, k: nat)
    requires k < |conds| && FormatFilter(schema, conds[k]).Err?
    ensures RenderWhere(schema, conds).Err?
    decreases |conds|
  {
    if k < |conds| - 1 {
      RenderNeedsAll(schema, conds[..|conds| - 1], k);
    }
  }
}
