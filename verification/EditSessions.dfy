/** The reducers and `restore_diff` put together: a client that keeps the returned
    diffs on an undo and a redo stack. */
module EditSessions {
  import opened Outcomes
  import opened QueryBuilder
  import opened Repositories
  import opened Diffs
  import opened UndoRuns
  import C = ConceptReducer
  import R = ResponseReducer
  import G = GroupedCodes

  /** The undo stack, the redo stack, and the tables the stacks lead through. */
  datatype Stacks = Stacks(undo: seq<Diff>, redo: seq<Diff>)

  ghost predicate Follows(schema: Schema, t: Table, s: Stacks, l: Timeline) {
    Tracks(schema, Session(t, s.undo, s.redo), l)
  }

  lemma FollowsStart(schema: Schema, t: Table)
    requires Conforms(schema, t)
    ensures Follows(schema, t, Stacks([], []), Timeline([t], 0))
  {
  }

  /** An edit that returned a diff describing it goes on the undo stack. */
  lemma FollowsEdit(schema: Schema, t: Table, s: Stacks, l: Timeline, d: Diff, t': Table)
    requires KeyColumn(schema) && Follows(schema, t, s, l) && Faithful(t, d, t') && Conforms(schema, t')
    ensures Follows(schema, t', Stacks(s.undo + [d], []), Moved(l, Edit, t'))
  {
    hide Faithful, Conforms, Tracks;
    StepTracks(schema, Session(t, s.undo, s.redo), Edit, Session(t', s.undo + [d], []), l);
  }

  /** What the stacks hold can be sent back as it is. */
  lemma TopsShaped(schema: Schema, t: Table, s: Stacks, l: Timeline)
    requires KeyColumn(schema) && Follows(schema, t, s, l)
    ensures Conforms(schema, t)
    ensures s.undo != [] ==> Shaped(schema, s.undo[|s.undo| - 1]) && CanRestore(schema, t, s.undo[|s.undo| - 1])
    ensures s.redo != [] ==> Shaped(schema, s.redo[|s.redo| - 1]) && CanRestore(schema, t, s.redo[|s.redo| - 1])
  {
    MovesEnabled(schema, Session(t, s.undo, s.redo), l);
    hide Conforms, Faithful, Shaped, CanRestore, TypedDiff;
    if s.undo != [] {
      FaithfulTyped(schema, l.tables[l.at - 1], s.undo[|s.undo| - 1], t);
    }
    if s.redo != [] {
      var j := |s.redo| - 1;
      assert s.redo[j] == s.redo[|s.redo| - 1];
      FaithfulTyped(schema, l.tables[l.at + 1], s.redo[j], t);
    }
  }

  /** Sends the last diff of the undo stack back; what returns goes on the redo stack. */
  method UndoLast(repo: Repository, s: Stacks, ghost l: Timeline) returns (s': Stacks)
    requires KeyColumn(repo.builder.schema) && Follows(repo.builder.schema, repo.rows, s, l) && s.undo != []
    modifies repo`rows, repo.builder
    ensures Follows(repo.builder.schema, repo.rows, s', Moved(l, Undo, repo.rows))
    ensures |s'.undo| == |s.undo| - 1
  {
    ghost var schema, before := repo.builder.schema, repo.rows;
    TopsShaped(schema, before, s, l);
    hide Conforms, Shaped, CanRestore, Restores, Tracks;
    var k := |s.undo| - 1;
    var r := RestoreDiff(repo, s.undo[k]);
    s' := Stacks(s.undo[..k], s.redo + [r.value]);
    StepTracks(schema, Session(before, s.undo, s.redo), Undo, Session(repo.rows, s'.undo, s'.redo), l);
  }

  method RedoLast(repo: Repository, s: Stacks, ghost l: Timeline) returns (s': Stacks)
    requires KeyColumn(repo.builder.schema) && Follows(repo.builder.schema, repo.rows, s, l) && s.redo != []
    modifies repo`rows, repo.builder
    ensures Follows(repo.builder.schema, repo.rows, s', Moved(l, Redo, repo.rows))
    ensures |s'.redo| == |s.redo| - 1
  {
    ghost var schema, before := repo.builder.schema, repo.rows;
    TopsShaped(schema, before, s, l);
    hide Conforms, Shaped, CanRestore, Restores, Tracks;
    var k := |s.redo| - 1;
    var r := RestoreDiff(repo, s.redo[k]);
    s' := Stacks(s.undo + [r.value], s.redo[..k]);
    StepTracks(schema, Session(before, s.undo, s.redo), Redo, Session(repo.rows, s'.undo, s'.redo), l);
  }

  lemma FollowsAt(schema: Schema, t: Table, s: Stacks, l: Timeline)
    requires Follows(schema, t, s, l)
    ensures |l.tables| == |s.undo| + |s.redo| + 1 && l.at == |s.undo| && l.tables[l.at] == t
  {
  }

  /** Undoes everything, last first: the table is the first of the timeline again. */
  method UndoAll(repo: Repository, s: Stacks, ghost l: Timeline) returns (s': Stacks)
    requires KeyColumn(repo.builder.schema) && Follows(repo.builder.schema, repo.rows, s, l)
    modifies repo`rows, repo.builder
    ensures Follows(repo.builder.schema, repo.rows, s', l.(at := 0)) && s'.undo == []
    ensures l.tables != [] && repo.rows == l.tables[0]
  {
    ghost var schema := repo.builder.schema;
    ghost var now := l;
    s' := s;
    FollowsAt(schema, repo.rows, s, l);
    hide Follows;
    while s'.undo != []
      invariant now.tables == l.tables && now.at == |s'.undo| < |l.tables|
      invariant Follows(schema, repo.rows, s', now)
      decreases |s'.undo|
    {
      s' := UndoLast(repo, s', now);
      now := Moved(now, Undo, repo.rows);
      FollowsAt(schema, repo.rows, s', now);
    }
    assert now == l.(at := 0);
    FollowsAt(schema, repo.rows, s', now);
  }

  /** Redoes everything, last first: the table is the last of the timeline. */
  method RedoAll(repo: Repository, s: Stacks, ghost l: Timeline) returns (s': Stacks)
    requires KeyColumn(repo.builder.schema) && Follows(repo.builder.schema, repo.rows, s, l)
    modifies repo`rows, repo.builder
    ensures l.tables != [] && repo.rows == l.tables[|l.tables| - 1]
    ensures Follows(repo.builder.schema, repo.rows, s', l.(at := |l.tables| - 1)) && s'.redo == []
  {
    ghost var schema := repo.builder.schema;
    ghost var now := l;
    s' := s;
    FollowsAt(schema, repo.rows, s, l);
    hide Follows;
    while s'.redo != []
      invariant now.tables == l.tables && now.at + |s'.redo| + 1 == |l.tables|
      invariant Follows(schema, repo.rows, s', now)
      decreases |s'.redo|
    {
      s' := RedoLast(repo, s', now);
      now := Moved(now, Redo, repo.rows);
      FollowsAt(schema, repo.rows, s', now);
    }
    assert now == l.(at := |l.tables| - 1);
    FollowsAt(schema, repo.rows, s', now);
  }

  // -------------------------------------------------- one edit by each reducer

  method EditConcepts(repo: Repository, ws: string, a: C.Action, s: Stacks, ghost l: Timeline) returns (r: Result<Stacks>)
    requires repo.builder.schema == C.CONCEPT_SCHEMA && C.Admissible(a) && !a.Restore?
    requires Follows(C.CONCEPT_SCHEMA, repo.rows, s, l)
    modifies repo`rows, repo.builder
    ensures r.Ok? <==> C.Succeeds(old(repo.rows), ws, a)
    ensures r.Ok? ==> C.Outcome(old(repo.rows), ws, a, repo.rows)
    ensures r.Ok? ==> Follows(C.CONCEPT_SCHEMA, repo.rows, r.value, Moved(l, Edit, repo.rows)) && r.value.redo == []
  {
    ghost var before := repo.rows;
    TopsShaped(C.CONCEPT_SCHEMA, before, s, l);
    hide Conforms, Faithful, Follows, C.Succeeds, C.Outcome, C.Admissible;
    var d :- C.Process(repo, ws, a);
    FollowsEdit(C.CONCEPT_SCHEMA, before, s, l, d, repo.rows);
    return Ok(Stacks(s.undo + [d], []));
  }

  method EditResponses(repo: Repository, ws: string, ctype: string, a: R.Action, useIndex: bool, s: Stacks, ghost l: Timeline)
    returns (r: Result<Stacks>)
    requires repo.builder.schema == R.RESPONSE_SCHEMA && !a.Restore? && !a.RestoreState?
    requires Follows(R.RESPONSE_SCHEMA, repo.rows, s, l)
    modifies repo`rows, repo.builder
    ensures r.Ok? <==> R.Succeeds(old(repo.rows), ws, ctype, a, useIndex)
    ensures r.Ok? ==> repo.rows == R.TableAfter(old(repo.rows), ws, ctype, a)
    ensures r.Ok? ==> Follows(R.RESPONSE_SCHEMA, repo.rows, r.value, Moved(l, Edit, repo.rows)) && r.value.redo == []
  {
    ghost var before := repo.rows;
    assert KeyColumn(R.RESPONSE_SCHEMA);
    TopsShaped(R.RESPONSE_SCHEMA, before, s, l);
    hide Conforms, Faithful, Follows, R.Succeeds, R.TableAfter, R.RESPONSE_SCHEMA;
    var d :- R.Process(repo, ws, ctype, a, useIndex);
    FollowsEdit(R.RESPONSE_SCHEMA, before, s, l, d, repo.rows);
    return Ok(Stacks(s.undo + [d], []));
  }

  method EditBuckets(repo: Repository, ws: string, a: G.Action, s: Stacks, ghost l: Timeline) returns (r: Result<Stacks>)
    requires repo.builder.schema == G.GROUP_SCHEMA && !a.Restore? && !a.RestoreState?
    requires Follows(G.GROUP_SCHEMA, repo.rows, s, l)
    modifies repo`rows, repo.builder
    ensures r.Ok? <==> G.Succeeds(old(repo.rows), a)
    ensures r.Ok? ==> G.Outcome(old(repo.rows), ws, a, repo.rows)
    ensures r.Ok? ==> Follows(G.GROUP_SCHEMA, repo.rows, r.value, Moved(l, Edit, repo.rows)) && r.value.redo == []
  {
    ghost var before := repo.rows;
    TopsShaped(G.GROUP_SCHEMA, before, s, l);
    hide Conforms, Faithful, Follows, G.Succeeds, G.Outcome;
    var d :- G.Process(repo, ws, a);
    FollowsEdit(G.GROUP_SCHEMA, before, s, l, d, repo.rows);
    return Ok(Stacks(s.undo + [d], []));
  }

  // ------------------------------------------------------------- whole sessions

  /** One action, on the table it is for. */
  datatype Request =
    | OnConcepts(concept: C.Action)
    | OnResponses(ctype: string, response: R.Action, useIndex: bool)
    | OnBuckets(bucket: G.Action)

  datatype Command = Do(request: Request) | UndoOne | RedoOne

  predicate Fits(schema: Schema, q: Request) {
    match q
    case OnConcepts(a) => schema == C.CONCEPT_SCHEMA && C.Admissible(a) && !a.Restore?
    case OnResponses(_, a, _) => schema == R.RESPONSE_SCHEMA && !a.Restore? && !a.RestoreState?
    case OnBuckets(a) => schema == G.GROUP_SCHEMA && !a.Restore? && !a.RestoreState?
  }

  predicate Sendable(schema: Schema, c: Command) {
    c.Do? ==> Fits(schema, c.request)
  }

  /** The action returns, and the table it then leaves. */
  ghost predicate Works(t: Table, ws: string, q: Request) {
    match q
    case OnConcepts(a) => C.Succeeds(t, ws, a)
    case OnResponses(ctype, a, useIndex) => R.Succeeds(t, ws, ctype, a, useIndex)
    case OnBuckets(a) => G.Succeeds(t, a)
  }

  ghost predicate Leads(t: Table, ws: string, q: Request, t': Table) {
    match q
    case OnConcepts(a) => C.Outcome(t, ws, a, t')
    case OnResponses(ctype, a, _) => t' == R.TableAfter(t, ws, ctype, a)
    case OnBuckets(a) => G.Outcome(t, ws, a, t')
  }

  method Send(repo: Repository, ws: string, q: Request, s: Stacks, ghost l: Timeline) returns (r: Result<Stacks>)
    requires Fits(repo.builder.schema, q) && Follows(repo.builder.schema, repo.rows, s, l)
    modifies repo`rows, repo.builder
    ensures r.Ok? <==> Works(old(repo.rows), ws, q)
    ensures r.Ok? ==> Leads(old(repo.rows), ws, q, repo.rows)
    ensures r.Ok? ==> Follows(repo.builder.schema, repo.rows, r.value, Moved(l, Edit, repo.rows)) && r.value.redo == []
  {
    hide Follows, C.Succeeds, C.Outcome, C.Admissible, R.Succeeds, R.TableAfter, G.Succeeds, G.Outcome,
      C.CONCEPT_SCHEMA, R.RESPONSE_SCHEMA, G.GROUP_SCHEMA;
    match q {
      case OnConcepts(a) => r := EditConcepts(repo, ws, a, s, l);
      case OnResponses(ctype, a, useIndex) => r := EditResponses(repo, ws, ctype, a, useIndex, s, l);
      case OnBuckets(a) => r := EditBuckets(repo, ws, a, s, l);
    }
  }

  /** The table before each command and after the last: `tables[k]` to `tables[k + 1]`
      is what command `k` did. */
  ghost predicate Carried(tables: seq<Table>, ws: string, commands: seq<Command>, n: nat) {
    && n <= |commands| && |tables| == n + 1
    && forall k :: 0 <= k < n && commands[k].Do? ==>
         Works(tables[k], ws, commands[k].request) && Leads(tables[k], ws, commands[k].request, tables[k + 1])
  }

  lemma CarriedMore(tables: seq<Table>, ws: string, commands: seq<Command>, n: nat, t: Table)
    requires Carried(tables, ws, commands, n) && n < |commands|
    requires commands[n].Do? ==>
               Works(tables[n], ws, commands[n].request) && Leads(tables[n], ws, commands[n].request, t)
    ensures Carried(tables + [t], ws, commands, n + 1)
  {
    hide Works, Leads;
  }

  /** An undo or redo with nothing to send back does nothing. */
  method RunOne(repo: Repository, ws: string, c: Command, s: Stacks, ghost l: Timeline)
    returns (r: Result<Stacks>, ghost l': Timeline)
    requires KeyColumn(repo.builder.schema) && Sendable(repo.builder.schema, c)
    requires Follows(repo.builder.schema, repo.rows, s, l) && l.at < |l.tables|
    modifies repo`rows, repo.builder
    ensures r.Ok? <==> (c.Do? ==> Works(old(repo.rows), ws, c.request))
    ensures r.Ok? ==> Follows(repo.builder.schema, repo.rows, r.value, l') && l'.at < |l'.tables| && l'.tables[0] == l.tables[0]
    ensures r.Ok? && c.Do? ==> Leads(old(repo.rows), ws, c.request, repo.rows) && r.value.redo == []
  {
    FollowsAt(repo.builder.schema, repo.rows, s, l);
    hide Follows, Works, Leads, Fits, KeyColumn, Conforms;
    r, l' := Ok(s), l;
    match c {
      case Do(q) =>
        r := Send(repo, ws, q, s, l);
        l' := Moved(l, Edit, repo.rows);
      case UndoOne =>
        if s.undo != [] {
          var back := UndoLast(repo, s, l);
          r, l' := Ok(back), Moved(l, Undo, repo.rows);
        }
      case RedoOne =>
        if s.redo != [] {
          var on := RedoLast(repo, s, l);
          r, l' := Ok(on), Moved(l, Redo, repo.rows);
        }
    }
  }

  /** Runs edits of one table, undos and redos in any order, until one edit raises. */
  method RunCommands(repo: Repository, ws: string, commands: seq<Command>)
    returns (n: nat, s: Stacks, ghost l: Timeline, ghost tables: seq<Table>)
    requires KeyColumn(repo.builder.schema) && Conforms(repo.builder.schema, repo.rows)
    requires forall k :: 0 <= k < |commands| ==> Sendable(repo.builder.schema, commands[k])
    modifies repo`rows, repo.builder
    ensures Carried(tables, ws, commands, n) && tables[0] == old(repo.rows)
    ensures l.tables != [] && l.tables[0] == old(repo.rows)
    ensures n < |commands| ==> commands[n].Do? && !Works(tables[n], ws, commands[n].request)
    ensures n == |commands| ==> repo.rows == tables[n] && Follows(repo.builder.schema, repo.rows, s, l)
    ensures (forall k :: 0 <= k < n ==> commands[k].Do?) ==> s.redo == []
  {
    n, s := 0, Stacks([], []);
    l, tables := Timeline([repo.rows], 0), [repo.rows];
    FollowsStart(repo.builder.schema, repo.rows);
    hide Follows, Conforms, Works, Leads, Sendable;
    while n < |commands|
      invariant Carried(tables, ws, commands, n) && tables[0] == old(repo.rows) && repo.rows == tables[n]
      invariant l.at < |l.tables| && l.tables[0] == old(repo.rows)
      invariant Follows(repo.builder.schema, repo.rows, s, l)
      invariant (forall k :: 0 <= k < n ==> commands[k].Do?) ==> s.redo == []
    {
      ghost var l';
      var r;
      r, l' := RunOne(repo, ws, commands[n], s, l);
      if r.Err? {
        return;
      }
      s, l := r.value, l';
      CarriedMore(tables, ws, commands, n, repo.rows);
      tables := tables + [repo.rows];
      n := n + 1;
    }
  }

  predicate OnlyEdits(commands: seq<Command>) {
    forall k :: 0 <= k < |commands| ==> commands[k].Do?
  }

  /** Runs any list of edits, undos and redos, then undoes all that is left, last
      first: the table is the one the session began with.  The redo stack that is
      left leads to the last table of the timeline, which after edits only is the
      one they led to. */
  method RunAndUndo(repo: Repository, ws: string, commands: seq<Command>)
    returns (n: nat, s: Stacks, ghost l: Timeline, ghost tables: seq<Table>)
    requires KeyColumn(repo.builder.schema) && Conforms(repo.builder.schema, repo.rows)
    requires forall k :: 0 <= k < |commands| ==> Sendable(repo.builder.schema, commands[k])
    modifies repo`rows, repo.builder
    ensures Carried(tables, ws, commands, n) && tables[0] == old(repo.rows)
    ensures n < |commands| ==> commands[n].Do? && !Works(tables[n], ws, commands[n].request)
    ensures n == |commands| ==>
              && repo.rows == old(repo.rows) && s.undo == [] && Follows(repo.builder.schema, repo.rows, s, l)
              && l.tables != [] && (OnlyEdits(commands) ==> l.tables[|l.tables| - 1] == tables[n])
  {
    hide Follows, Conforms, Works, Leads, Fits;
    n, s, l, tables := RunCommands(repo, ws, commands);
    if n == |commands| {
      FollowsAt(repo.builder.schema, repo.rows, s, l);
      s := UndoAll(repo, s, l);
      l := l.(at := 0);
    }
  }

  /** Running edits, undoing all of them and redoing all of them ends where the edits
      had led. */
  method RunUndoRedo(repo: Repository, ws: string, commands: seq<Command>) returns (n: nat, s: Stacks, ghost tables: seq<Table>)
    requires KeyColumn(repo.builder.schema) && Conforms(repo.builder.schema, repo.rows)
    requires forall k :: 0 <= k < |commands| ==> Sendable(repo.builder.schema, commands[k])
    requires OnlyEdits(commands)
    modifies repo`rows, repo.builder
    ensures Carried(tables, ws, commands, n) && tables[0] == old(repo.rows)
    ensures n < |commands| ==> !Works(tables[n], ws, commands[n].request)
    ensures n == |commands| ==> repo.rows == tables[n] && s.redo == []
  {
    hide Follows, Conforms, Works, Leads, Fits;
    ghost var l;
    n, s, l, tables := RunAndUndo(repo, ws, commands);
    if n == |commands| {
      s := RedoAll(repo, s, l);
    }
  }
}
