/** What the steps write: the rows of the jobs, their futures, and the order of the queue. */
module SchedulerRows {
  import opened Scheduler
  import opened SchedulerSafety
  import opened SchedulerResults

  predicate RowIs(s: State, j: Job, sts: set<Status>) {
    j in s.tasks && s.tasks[j].status in sts
  }

  /** What a job's row may say while it is read, queued, taken and run.  It says cancelled
      when the function was cancelled meanwhile, and then the future is not open. */
  ghost predicate Rows(s: State) {
    && (forall i :: i in s.batch ==> RowIs(s, i.job, {Pending, Cancelled}))
    && (forall i :: i in s.queue ==> RowIs(s, i.job, {Enqueued, Cancelled}))
    && (forall w :: w in s.workers && s.workers[w].Starting? ==> RowIs(s, s.workers[w].item.job, {Enqueued, Cancelled}))
    && (forall w :: w in s.workers && s.workers[w].Running? ==> RowIs(s, s.workers[w].item.job, {InProgress, Cancelled}))
    && (forall w :: w in s.workers && s.workers[w].Running? && Future(s, s.workers[w].item.job).Open? ==>
          RowIs(s, s.workers[w].item.job, {InProgress}))
  }

  lemma RowsKept(c: Config, s: State, l: Label)
    requires Inv(c, s) && Rows(s) && Enabled(c, s, l)
    ensures Rows(Do(c, s, l))
  {
    match l
    case SubmitFuture(_) => CallsKeep(c, s, l);
    case SubmitSync(_, _) => CallsKeep(c, s, l);
    case SyncFails(_, _) => CallsKeep(c, s, l);
    case Abandon(_) => CallsKeep(c, s, l);
    case ClientCancel(_) => CallsKeep(c, s, l);
    case TakeTask => TakeKeepsRows(c, s);
    case Dequeue(w) => HandKeepsRows(c, s, w);
    case StartJob(w) => StartKeepsRows(c, s, w);
    case Settle(w, end) => SettleKeepsRows(c, s, w, end);
    case RaiseCancelled(w) => CancelKeepsRows(c, s, w);
    case _ => RestKeeps(c, s, l);
  }

  /** Where the rows' owners are afterwards: the changed job is nowhere but where its new
      row allows it, every other is where it was. */
  ghost predicate Elsewhere(s: State, t: State, j: Job) {
    && (forall i :: i in t.batch ==> i in s.batch && i.job != j)
    && (forall i :: i in t.queue ==> if i.job == j then RowIs(t, j, {Enqueued, Cancelled}) else i in s.queue)
    && (forall w :: w in t.workers && t.workers[w].Starting? ==>
          if t.workers[w].item.job == j then RowIs(t, j, {Enqueued, Cancelled})
          else w in s.workers && s.workers[w] == t.workers[w])
    && (forall w :: w in t.workers && t.workers[w].Running? ==>
          if t.workers[w].item.job == j then RowIs(t, j, {InProgress})
          else w in s.workers && s.workers[w] == t.workers[w])
  }

  lemma OthersKept(s: State, t: State, j: Job)
    requires Rows(s) && Elsewhere(s, t, j)
    requires forall k :: k in s.tasks && k != j ==> k in t.tasks && t.tasks[k] == s.tasks[k]
    requires forall k :: k != j && Future(t, k).Open? ==> Future(s, k).Open?
    ensures Rows(t)
  {
    hide Future;
  }

  /** The jobs read, queued and held are different ones. */
  lemma HeadsApart(s: State)
    requires Once(s) && OneWorkerEach(s)
    ensures forall i, k :: i in s.batch && k in s.queue ==> i.job != k.job
    ensures forall i, w :: (i in s.batch || i in s.queue) && Holds(HeldBy(s, w)) ==> i.job != HeldBy(s, w).item.job
    ensures s.batch != [] ==> forall i :: i in s.batch[1..] ==> i in s.batch && i.job != s.batch[0].job
    ensures s.queue != [] ==> forall i :: i in s.queue[1..] ==> i in s.queue && i.job != s.queue[0].job
  {
    assert forall i :: i in s.batch ==> i.job in Jobs(s.batch);
    assert forall i :: i in s.queue ==> i.job in Jobs(s.queue);
  }

  /** No row or future of a job known before changes, nobody takes or starts one. */
  ghost predicate Quietly(s: State, t: State) {
    && (forall i :: i in t.batch ==> i in s.batch || RowIs(s, i.job, {Pending}))
    && t.queue == s.queue
    && (forall w :: w in t.workers && (t.workers[w].Starting? || t.workers[w].Running?) ==>
          w in s.workers && s.workers[w] == t.workers[w])
    && (forall j :: j in s.tasks ==> j in t.tasks && t.tasks[j] == s.tasks[j] && (Future(t, j).Open? ==> Future(s, j).Open?))
  }

  lemma QuietlyKept(s: State, t: State)
    requires Rows(s) && Quietly(s, t)
    ensures Rows(t)
  {
    hide Future;
  }

  lemma CallsQuiet(c: Config, s: State, l: Label)
    requires CallsNew(s) && Enabled(c, s, l)
    requires l.SubmitFuture? || l.SubmitSync? || l.SyncFails? || l.Abandon? || l.ClientCancel?
    ensures Quietly(s, Do(c, s, l))
  {
  }

  lemma CallsKeep(c: Config, s: State, l: Label)
    requires Inv(c, s) && Rows(s) && Enabled(c, s, l)
    requires l.SubmitFuture? || l.SubmitSync? || l.SyncFails? || l.Abandon? || l.ClientCancel?
    ensures Rows(Do(c, s, l))
  {
    hide Enabled, Do, Quietly, Rows, KeysMatch, Futures, Once, OneWorkerEach, Counted, CallsNew;
    CallsQuiet(c, s, l);
    QuietlyKept(s, Do(c, s, l));
  }

  lemma TakeKeepsRows(c: Config, s: State)
    requires Inv(c, s) && Rows(s) && Enabled(c, s, TakeTask)
    ensures Rows(Take(s))
  {
    HeadsApart(s);
    BatchHead(s);
    hide Inv, KeysMatch, Futures, Once, OneWorkerEach;
    OthersKept(s, Take(s), s.batch[0].job);
  }

  /** A dequeue of a job whose function is cached. */
  lemma HandFacts(s: State, w: nat)
    requires s.queue != [] && s.queue[0].key in s.cache
    ensures var t, i := Hand(s, w), s.queue[0];
            && t.batch == s.batch && t.queue == s.queue[1..] && t.promises == s.promises
            && t.tasks == (if Future(s, i.job).Dropped? then SetStatus(s.tasks, i.job, Cancelled) else s.tasks)
            && t.workers == (if Future(s, i.job).Dropped? then s.workers else s.workers[w := Starting(i)])
  {
    hide Drop, SetStatus, Resolve;
  }

  lemma HandElsewhere(c: Config, s: State, w: nat)
    requires Once(s) && OneWorkerEach(s) && Enabled(c, s, Dequeue(w)) && RowIs(s, s.queue[0].job, {Enqueued, Cancelled})
    requires s.queue[0].key in s.cache
    ensures var t, j := Hand(s, w), s.queue[0].job;
            && Elsewhere(s, t, j) && t.promises == s.promises
            && forall k :: k in s.tasks && k != j ==> k in t.tasks && t.tasks[k] == s.tasks[k]
  {
    HeadsApart(s);
    HandFacts(s, w);
    assert forall i :: i in s.batch ==> i.job != s.queue[0].job;
    assert forall v :: v in s.workers && Holds(HeldBy(s, v)) ==> s.workers[v].item.job != s.queue[0].job;
    hide Once, OneWorkerEach, Hand, Future;
  }

  lemma HandKeepsRows(c: Config, s: State, w: nat)
    requires Inv(c, s) && Rows(s) && Enabled(c, s, Dequeue(w))
    ensures Rows(Hand(s, w))
  {
    QueueHead(s);
    hide KeysMatch, Futures, Once, OneWorkerEach, Counted, Modes, Elsewhere, Hand;
    assert s.queue[0] in s.queue;
    HandElsewhere(c, s, w);
    OthersKept(s, Hand(s, w), s.queue[0].job);
  }

  /** The worker's job is nobody else's. */
  lemma OwnJob(s: State, w: nat)
    requires Once(s) && OneWorkerEach(s) && Holds(HeldBy(s, w))
    ensures var j := s.workers[w].item.job;
            && (forall i :: i in s.batch || i in s.queue ==> i.job != j)
            && forall v :: v in s.workers && v != w && Holds(s.workers[v]) ==> s.workers[v].item.job != j
  {
    HeadsApart(s);
    assert forall i :: i in s.batch || i in s.queue ==> i.job != HeldBy(s, w).item.job;
  }

  lemma StartElsewhere(c: Config, s: State, w: nat)
    requires Once(s) && OneWorkerEach(s) && Enabled(c, s, StartJob(w)) && s.workers[w].item.job in s.tasks
    ensures var t, j := Do(c, s, StartJob(w)), s.workers[w].item.job;
            && Elsewhere(s, t, j) && t.promises == s.promises && t.tasks == s.tasks[j := Task(InProgress, s.tasks[j].key)]
  {
    OwnJob(s, w);
    hide Once, OneWorkerEach;
  }

  lemma StartKeepsRows(c: Config, s: State, w: nat)
    requires Inv(c, s) && Rows(s) && Enabled(c, s, StartJob(w))
    ensures Rows(Do(c, s, StartJob(w)))
  {
    HolderKnown(s, w);
    hide KeysMatch, Futures, Once, OneWorkerEach, Counted, Modes, Elsewhere, Do, Rows;
    StartElsewhere(c, s, w);
    OthersKept(s, Do(c, s, StartJob(w)), s.workers[w].item.job);
  }

  /** The end of a run, for every state: an open future is answered and the row written
      unless the run is interrupted; a future that is not open keeps both as they were;
      no other job is touched. */
  lemma SettleFacts(c: Config, s: State, w: nat, end: End)
    requires Enabled(c, s, Settle(w, end))
    ensures var t, i := Do(c, s, Settle(w, end)), s.workers[w].item;
            && t.batch == s.batch && t.queue == s.queue && t.workers == s.workers[w := Ending(i)]
            && (forall k :: k != i.job ==> Future(t, k) == Future(s, k))
            && (forall k :: k in s.tasks && k != i.job ==> k in t.tasks && t.tasks[k] == s.tasks[k])
            && (end.Interrupted? || !Future(s, i.job).Open? ==> t.promises == s.promises && t.tasks == s.tasks)
            && (!end.Interrupted? && Future(s, i.job).Open? && i.job in s.promises && i.job in s.tasks ==>
                && t.promises == s.promises[i.job := Settled]
                && t.tasks == s.tasks[i.job := Task(if end.Succeeded? then Completed else Failed, s.tasks[i.job].key)])
  {
  }

  lemma SettleElsewhere(c: Config, s: State, w: nat, end: End)
    requires Once(s) && OneWorkerEach(s) && Enabled(c, s, Settle(w, end))
    ensures var t, j := Do(c, s, Settle(w, end)), s.workers[w].item.job;
            && Elsewhere(s, t, j)
            && (forall k :: k in s.tasks && k != j ==> k in t.tasks && t.tasks[k] == s.tasks[k])
            && forall k :: k != j ==> Future(t, k) == Future(s, k)
  {
    OwnJob(s, w);
    SettleFacts(c, s, w, end);
    hide Once, OneWorkerEach, Do, Future;
  }

  lemma SettleKeepsRows(c: Config, s: State, w: nat, end: End)
    requires Inv(c, s) && Rows(s) && Enabled(c, s, Settle(w, end))
    ensures Rows(Do(c, s, Settle(w, end)))
  {
    hide KeysMatch, Futures, Once, OneWorkerEach, Counted, Modes, Elsewhere, Do, Rows;
    SettleElsewhere(c, s, w, end);
    OthersKept(s, Do(c, s, Settle(w, end)), s.workers[w].item.job);
  }

  /** Rows marked cancelled have their open futures cancelled too; the worker is past its run. */
  ghost predicate Withdrawn(s: State, t: State, gone: set<Job>, w: nat) {
    && t.batch == s.batch && t.queue == s.queue
    && (forall v :: v in t.workers && (t.workers[v].Starting? || t.workers[v].Running?) ==>
          v != w && v in s.workers && s.workers[v] == t.workers[v])
    && (forall j :: j in s.tasks ==> RowIs(t, j, if j in gone then {Cancelled} else {s.tasks[j].status}))
    && forall j :: j in s.promises && Future(t, j).Open? ==> Future(s, j).Open? && j !in gone
  }

  lemma WithdrawnKept(s: State, t: State, gone: set<Job>, w: nat)
    requires Rows(s) && Withdrawn(s, t, gone, w)
    requires forall v :: v in s.workers && Holds(s.workers[v]) ==> s.workers[v].item.job in s.promises
    ensures Rows(t)
  {
    hide Future;
  }

  lemma CancelWithdraws(c: Config, s: State, w: nat)
    requires Enabled(c, s, RaiseCancelled(w))
    ensures var i := s.workers[w].item;
            var js := if CountUp(s, i.key) >= c.threshold then Siblings(s, i) else {};
            Withdrawn(s, Do(c, s, RaiseCancelled(w)), js + {i.job}, w)
  {
    hide Siblings;
  }

  lemma HeldFutures(s: State)
    requires KeysMatch(s) && Futures(s)
    ensures forall v :: v in s.workers && Holds(s.workers[v]) ==> s.workers[v].item.job in s.promises
  {
    forall v | v in s.workers && Holds(s.workers[v]) ensures s.workers[v].item.job in s.promises {
      HolderKnown(s, v);
    }
  }

  lemma CancelKeepsRows(c: Config, s: State, w: nat)
    requires Inv(c, s) && Rows(s) && Enabled(c, s, RaiseCancelled(w))
    ensures Rows(Do(c, s, RaiseCancelled(w)))
  {
    hide KeysMatch, Futures, Once, OneWorkerEach, Counted, Modes, Withdrawn, Do, Rows, Siblings;
    HeldFutures(s);
    CancelWithdraws(c, s, w);
    var i := s.workers[w].item;
    var js := if CountUp(s, i.key) >= c.threshold then Siblings(s, i) else {};
    WithdrawnKept(s, Do(c, s, RaiseCancelled(w)), js + {i.job}, w);
  }

  predicate Rests(l: Label) {
    l.ReadPending? || l.SkipTask? || l.DropBatch? || l.Begin? || l.Finally? || l.Start? || l.StatusCheck?
    || l.BeginStop? || l.EndEnqueuer? || l.KillWorker? || l.EndStop?
  }

  lemma RestQuiet(c: Config, s: State, l: Label)
    requires Enabled(c, s, l) && Rests(l)
    ensures Quietly(s, Do(c, s, l))
  {
    hide Do, Enabled;
    RestSame(c, s, l);
    BatchQuiet(c, s, l);
    WorkersQuiet(c, s, l);
  }

  lemma RestSame(c: Config, s: State, l: Label)
    requires Enabled(c, s, l) && Rests(l)
    ensures var t := Do(c, s, l); t.tasks == s.tasks && t.promises == s.promises && t.queue == s.queue
  {
    hide Drop, Decrement, NothingToDo, PendingItems, NewWorkers, DistinctJobs, AllIdle;
  }

  lemma BatchQuiet(c: Config, s: State, l: Label)
    requires Enabled(c, s, l) && Rests(l)
    ensures forall i :: i in Do(c, s, l).batch ==> i in s.batch || RowIs(s, i.job, {Pending})
  {
    hide Drop, Decrement, NothingToDo;
    if l.ReadPending? {
      assert forall i :: i in l.read ==> i in PendingItems(s);
    }
  }

  lemma WorkersQuiet(c: Config, s: State, l: Label)
    requires Enabled(c, s, l) && Rests(l)
    ensures var t := Do(c, s, l);
            forall w :: w in t.workers && (t.workers[w].Starting? || t.workers[w].Running?) ==>
              w in s.workers && s.workers[w] == t.workers[w]
  {
    hide Drop, Decrement, NothingToDo;
  }

  lemma RestKeeps(c: Config, s: State, l: Label)
    requires Rows(s) && Enabled(c, s, l) && Rests(l)
    ensures Rows(Do(c, s, l))
  {
    hide Enabled, Do, Quietly, Rows;
    RestQuiet(c, s, l);
    QuietlyKept(s, Do(c, s, l));
  }

  // ------------------------------------------------------------ whole runs

  lemma {:induction false} RowsReachable(c: Config, ss: seq<State>, ls: seq<Label>, n: nat)
    requires IsRun(c, ss, ls) && n < |ss|
    ensures Rows(ss[n]) && Inv(c, ss[n])
    decreases n
  {
    Reachable(c, ss, ls, n);
    if n > 0 {
      hide Enabled, Do, IsRun, Inv, Rows;
      RowsReachable(c, ss, ls, n - 1);
      StepAt(c, ss, ls, n - 1);
      RowsKept(c, ss[n - 1], ls[n - 1]);
    } else {
      assert ss[0].workers == map[];
    }
  }

  /** When a run ends, its job's future, if it is open and the run is not interrupted, is
      answered, and the row, in progress until then, says completed exactly when the call
      returned and failed otherwise.  If the future is not open, or the run is
      interrupted, the row stays as it is: in progress, or cancelled with its function.
      Every other job's row and future is as before. */
  lemma RunEndWrites(c: Config, ss: seq<State>, ls: seq<Label>, n: nat)
    requires IsRun(c, ss, ls) && n < |ls| && ls[n].Settle?
    ensures var s, t, w, end := ss[n], ss[n + 1], ls[n].w, ls[n].end;
            HeldBy(s, w).Running? &&
            var j := s.workers[w].item.job;
            && HeldBy(t, w) == Ending(s.workers[w].item) && j in s.tasks && j in t.tasks && j in s.promises && j in t.promises
            && (s.promises[j].Open? ==> s.tasks[j].status.InProgress?)
            && (s.promises[j].Open? && !end.Interrupted? ==>
                t.promises[j].Settled? && (t.tasks[j].status.Completed? <==> end.Succeeded?)
                && (t.tasks[j].status.Failed? <==> !end.Succeeded?))
            && (!s.promises[j].Open? || end.Interrupted? ==>
                t.promises[j] == s.promises[j] && t.tasks[j] == s.tasks[j] && t.tasks[j].status in {InProgress, Cancelled})
            && forall k :: k != j ==> Future(t, k) == Future(s, k) && (k in s.tasks ==> k in t.tasks && t.tasks[k] == s.tasks[k])
  {
    var s, w, end := ss[n], ls[n].w, ls[n].end;
    RowsReachable(c, ss, ls, n);
    StepAt(c, ss, ls, n);
    HolderKnown(s, w);
    SettleFacts(c, s, w, end);
    var j := s.workers[w].item.job;
    assert RowIs(s, j, {InProgress, Cancelled}) && (s.promises[j].Open? ==> RowIs(s, j, {InProgress}));
    hide Inv, Rows, Do, IsRun, HasFuture;
  }

  /** What else is written: the row taken next says enqueued and its job is last in the
      queue; a job started says in progress; a job whose future was cancelled says
      cancelled when it is dequeued and is not held. */
  lemma StepWrites(c: Config, ss: seq<State>, ls: seq<Label>, n: nat)
    requires IsRun(c, ss, ls) && n < |ls|
    ensures var s, t := ss[n], ss[n + 1];
            && (ls[n].TakeTask? ==> s.batch != [] && t.queue == s.queue + [s.batch[0]] && RowIs(t, s.batch[0].job, {Enqueued}))
            && (ls[n].StartJob? ==>
                && HeldBy(s, ls[n].w).Starting?
                && t.workers == s.workers[ls[n].w := Running(s.workers[ls[n].w].item)]
                && RowIs(t, s.workers[ls[n].w].item.job, {InProgress}))
            && (ls[n].Dequeue? ==>
                && s.queue != [] && t.queue == s.queue[1..]
                && (if Future(s, s.queue[0].job).Dropped? then t.workers == s.workers && RowIs(t, s.queue[0].job, {Cancelled})
                    else t.workers == s.workers[ls[n].w := Starting(s.queue[0])] && t.tasks == s.tasks))
  {
    var s := ss[n];
    RowsReachable(c, ss, ls, n);
    StepAt(c, ss, ls, n);
    match ls[n] {
      case TakeTask => BatchHead(s);
      case StartJob(w) => HolderKnown(s, w);
      case Dequeue(w) => QueueHead(s); HandFacts(s, w);
      case _ =>
    }
    hide Inv, Rows, IsRun, Hand, KeysMatch, Futures, Once, OneWorkerEach, Counted, Drop, Decrement, MarkCancelled;
  }

  /** Whose row a step may change. */
  predicate Writes(c: Config, s: State, l: Label, j: Job) {
    match l
    case TakeTask => s.batch != [] && j == s.batch[0].job
    case Dequeue(_) => s.queue != [] && j == s.queue[0].job && Future(s, j).Dropped?
    case StartJob(w) => HeldBy(s, w).Starting? && j == s.workers[w].item.job
    case Settle(w, end) => HeldBy(s, w).Running? && j == s.workers[w].item.job && Future(s, j).Open? && !end.Interrupted?
    case RaiseCancelled(w) =>
      && HeldBy(s, w).Running?
      && (j == s.workers[w].item.job
          || (j in s.local && j in Listed(s, s.workers[w].item.key) && CountUp(s, s.workers[w].item.key) >= c.threshold))
    case _ => false
  }

  lemma WritesOnly(c: Config, s: State, l: Label, j: Job)
    requires Enabled(c, s, l) && CallsNew(s) && j in s.tasks && (s.queue != [] ==> s.queue[0].key in s.cache)
    ensures j in Do(c, s, l).tasks && (Do(c, s, l).tasks[j] != s.tasks[j] ==> Writes(c, s, l, j))
  {
    if Rests(l) {
      RestSame(c, s, l);
      hide Do;
    } else if l.Dequeue? {
      HandFacts(s, l.w);
      hide Hand;
    } else if l.Settle? {
      SettleFacts(c, s, l.w, l.end);
      hide Do;
    }
    hide Drop, CancelAll, Resolve;
  }

  /** And nothing else is: a row changes only when its job is the one taken, dequeued
      after its future was cancelled, started, or at the end of its run, or when a run of
      its function was cancelled, which cancels the others at the threshold. */
  lemma RowChanges(c: Config, ss: seq<State>, ls: seq<Label>, n: nat, j: Job)
    requires IsRun(c, ss, ls) && n < |ls| && j in ss[n].tasks
    ensures j in ss[n + 1].tasks && (ss[n + 1].tasks[j] != ss[n].tasks[j] ==> Writes(c, ss[n], ls[n], j))
  {
    RowsReachable(c, ss, ls, n);
    StepAt(c, ss, ls, n);
    if ss[n].queue != [] {
      QueueHead(ss[n]);
    }
    hide Rows, IsRun, Do, Enabled, Writes, KeysMatch, Futures, Once, OneWorkerEach, Counted;
    WritesOnly(c, ss[n], ls[n], j);
  }

  /** A submission: the future is open and known here; then the row is pending under its
      function, which lists the job once more and counts one more, or, when writing the
      row fails, there is no row but the same list and count. */
  lemma SubmissionWrites(c: Config, s: State, l: Label)
    requires CallsNew(s) && Enabled(c, s, l) && (l.SubmitFuture? || l.SubmitSync? || l.SyncFails?)
    ensures var t := Do(c, s, l);
            && (l.SubmitFuture? ==> Future(t, l.job).Open? && l.job in t.local && l.job in t.promises && t.tasks == s.tasks
                                    && t.jobs == s.jobs && t.cache == s.cache)
            && (!l.SubmitFuture? ==>
                && Listed(t, l.key) == Listed(s, l.key) + [l.job] && Ref(t, l.key) == Ref(s, l.key) + 1
                && (forall k :: k != l.key ==> Listed(t, k) == Listed(s, k) && Ref(t, k) == Ref(s, k))
                && t.promises == s.promises && t.local == s.local)
            && (l.SubmitSync? ==> t.tasks == s.tasks[l.job := Task(Pending, l.key)])
            && (l.SyncFails? ==> l.job !in t.tasks && t.tasks == s.tasks)
  {
  }

  /** A run whose function raised the cancellation: its row says cancelled, its future is
      answered if it was open, and the count of such runs of the function goes up; at the
      threshold the count starts again and the function's other jobs known here have
      their rows and open futures cancelled.  Nothing else changes. */
  lemma CancelledRunWrites(c: Config, ss: seq<State>, ls: seq<Label>, n: nat)
    requires IsRun(c, ss, ls) && n < |ls| && ls[n].RaiseCancelled?
    ensures var s, t, w := ss[n], ss[n + 1], ls[n].w;
            HeldBy(s, w).Running? &&
            var i := s.workers[w].item;
            var count := (if i.key in s.cancels then s.cancels[i.key] else 0) + 1;
            var others := if count >= c.threshold then set j | j in Listed(s, i.key) && j in s.local && j != i.job else {};
            && t.cancels == s.cancels[i.key := if count >= c.threshold then 0 else count]
            && i.job in t.tasks && t.tasks[i.job].status.Cancelled? && i.job in t.promises && !t.promises[i.job].Open?
            && (forall j :: j in s.tasks && j in others ==> j in t.tasks && t.tasks[j] == Task(Cancelled, s.tasks[j].key))
            && (forall j :: j in s.tasks && j !in others && j != i.job ==> j in t.tasks && t.tasks[j] == s.tasks[j])
            && (forall j :: j in s.promises && j in others ==> j in t.promises && !t.promises[j].Open?)
            && (forall j :: j in s.promises && j !in others && j != i.job ==> j in t.promises && t.promises[j] == s.promises[j])
  {
    var s, w := ss[n], ls[n].w;
    Reachable(c, ss, ls, n);
    StepAt(c, ss, ls, n);
    HolderKnown(s, w);
    hide IsRun, Inv;
    CancelledFacts(c, s, w);
  }

  lemma CancelledFacts(c: Config, s: State, w: nat)
    requires Enabled(c, s, RaiseCancelled(w))
    requires var j := s.workers[w].item.job; j in s.tasks && j in s.promises
    ensures var i, t := s.workers[w].item, Do(c, s, RaiseCancelled(w));
            var count := (if i.key in s.cancels then s.cancels[i.key] else 0) + 1;
            var others := if count >= c.threshold then set j | j in Listed(s, i.key) && j in s.local && j != i.job else {};
            && t.cancels == s.cancels[i.key := if count >= c.threshold then 0 else count]
            && i.job in t.tasks && t.tasks[i.job].status.Cancelled? && i.job in t.promises && !t.promises[i.job].Open?
            && (forall j :: j in s.tasks && j in others ==> j in t.tasks && t.tasks[j] == Task(Cancelled, s.tasks[j].key))
            && (forall j :: j in s.tasks && j !in others && j != i.job ==> j in t.tasks && t.tasks[j] == s.tasks[j])
            && (forall j :: j in s.promises && j in others ==> j in t.promises && !t.promises[j].Open?)
            && (forall j :: j in s.promises && j !in others && j != i.job ==> j in t.promises && t.promises[j] == s.promises[j])
  {
    hide Listed;
  }

  /** How many runs of the function have raised the cancellation so far. */
  ghost function Raised(ss: seq<State>, ls: seq<Label>, n: nat, k: Key): nat
    requires n <= |ls| < |ss|
  {
    if n == 0 then 0
    else
      var l := ls[n - 1];
      Raised(ss, ls, n - 1, k) +
      if l.RaiseCancelled? && HeldBy(ss[n - 1], l.w).Running? && ss[n - 1].workers[l.w].item.key == k then 1 else 0
  }

  lemma CancelsKept(c: Config, s: State, l: Label)
    requires Enabled(c, s, l) && !l.RaiseCancelled?
    ensures Do(c, s, l).cancels == s.cancels
  {
    if Rests(l) {
      RestCancels(c, s, l);
    } else {
      OtherCancels(c, s, l);
    }
    hide Do, Enabled;
  }

  lemma RestCancels(c: Config, s: State, l: Label)
    requires Enabled(c, s, l) && Rests(l)
    ensures Do(c, s, l).cancels == s.cancels
  {
    if l.Finally? {
      assert Retire(s, l.w, l.exits).cancels == s.cancels;
      hide Retire;
    } else {
      ModeCancels(c, s, l);
      hide Do, Enabled;
    }
  }

  lemma ModeCancels(c: Config, s: State, l: Label)
    requires Enabled(c, s, l) && Rests(l) && !l.Finally?
    ensures Do(c, s, l).cancels == s.cancels
  {
    hide NothingToDo, PendingItems, NewWorkers, DistinctJobs, AllIdle;
  }

  lemma OtherCancels(c: Config, s: State, l: Label)
    requires Enabled(c, s, l) && !Rests(l) && !l.RaiseCancelled?
    ensures Do(c, s, l).cancels == s.cancels
  {
    hide Drop, Decrement, SetStatus, Resolve, Future;
  }

  function CancelsOf(s: State, k: Key): int {
    if k in s.cancels then s.cancels[k] else 0
  }

  /** The runs counted since the function's other jobs were last cancelled: one in every
      threshold of them cancels the others, and no other does. */
  lemma {:induction false} CancelsCounted(c: Config, ss: seq<State>, ls: seq<Label>, n: nat, k: Key) returns (rounds: nat)
    requires IsRun(c, ss, ls) && n <= |ls| < |ss| && c.threshold > 0
    ensures 0 <= CancelsOf(ss[n], k) < c.threshold
    ensures Raised(ss, ls, n, k) == rounds * c.threshold + CancelsOf(ss[n], k)
    decreases n
  {
    hide Enabled, Do;
    rounds := 0;
    if n > 0 {
      rounds := CancelsCounted(c, ss, ls, n - 1, k);
      StepAt(c, ss, ls, n - 1);
      hide IsRun;
      if ls[n - 1].RaiseCancelled? {
        RunningAt(c, ss[n - 1], ls[n - 1].w);
        if ss[n - 1].workers[ls[n - 1].w].item.key == k && CancelsOf(ss[n - 1], k) + 1 == c.threshold {
          assert rounds * c.threshold + c.threshold == (rounds + 1) * c.threshold;
          rounds := rounds + 1;
        }
      } else {
        CancelsKept(c, ss[n - 1], ls[n - 1]);
      }
    }
  }

  lemma RunningAt(c: Config, s: State, w: nat)
    requires Enabled(c, s, RaiseCancelled(w))
    ensures HeldBy(s, w).Running? && w in s.workers
    ensures var k, t := s.workers[w].item.key, Do(c, s, RaiseCancelled(w));
            && CancelsOf(t, k) == (if CancelsOf(s, k) + 1 >= c.threshold then 0 else CancelsOf(s, k) + 1)
            && forall other :: other != k ==> CancelsOf(t, other) == CancelsOf(s, other)
  {
  }

  lemma {:induction false} RemovedOnce(l: seq<Job>, j: Job)
    ensures multiset(RemoveFirst(l, j)) == multiset(l) - multiset{j}
    decreases |l|
  {
    if l != [] {
      assert l == [l[0]] + l[1..];
      if l[0] != j {
        RemovedOnce(l[1..], j);
      }
    }
  }

  lemma DropOnce(jobs: map<Key, seq<Job>>, k: Key, j: Job)
    ensures var t := Drop(jobs, k, j);
            && (forall other :: other != k ==> (other in t <==> other in jobs) && (other in jobs ==> t[other] == jobs[other]))
            && multiset(if k in t then t[k] else []) == multiset(if k in jobs then jobs[k] else []) - multiset{j}
  {
    if k in jobs {
      RemovedOnce(jobs[k], j);
    }
    hide RemoveFirst;
  }

  lemma LowersOne(cache: map<Key, int>, k: Key)
    requires k in cache && cache[k] > 0
    ensures var t := Decrement(cache, k);
            && (k in t <==> cache[k] > 1) && (k in t ==> t[k] == cache[k] - 1)
            && (forall other :: other != k ==> (other in t <==> other in cache) && (other in cache ==> t[other] == cache[other]))
  {
  }

  /** When a worker has finished with a job: its future is forgotten here, its function
      lists it once less and counts one less, and is retired when that was the last. */
  lemma RetireWrites(s: State, w: nat, exits: bool)
    requires Holds(HeldBy(s, w)) && Ref(s, s.workers[w].item.key) > 0
    ensures var i, t := s.workers[w].item, Retire(s, w, exits);
            && t.local == s.local - {i.job} && t.tasks == s.tasks && t.promises == s.promises
            && Ref(t, i.key) == Ref(s, i.key) - 1 && (i.key in t.cache <==> Ref(s, i.key) > 1)
            && multiset(Listed(t, i.key)) == multiset(Listed(s, i.key)) - multiset{i.job}
            && (forall k :: k != i.key ==> Listed(t, k) == Listed(s, k) && Ref(t, k) == Ref(s, k))
            && HeldBy(t, w) == (if exits then Off else Idle) && !MarkedBusy(t, w)
  {
    DropOnce(s.jobs, s.workers[w].item.key, s.workers[w].item.job);
    LowersOne(s.cache, s.workers[w].item.key);
    hide Drop, Decrement;
  }

  /** A dequeue in any state: a job whose future was cancelled is forgotten and its
      function lists it once less, but its count stays; a job of a function that is not
      cached fails, row and open future; any other job is held and nothing is written. */
  lemma DequeueWrites(s: State, w: nat)
    requires HeldBy(s, w).Idle? && s.queue != []
    ensures var i, t := s.queue[0], Hand(s, w);
            && t.queue == s.queue[1..] && t.cache == s.cache
            && (i.job in s.promises && s.promises[i.job].Dropped? ==>
                && t.local == s.local - {i.job} && t.promises == s.promises && t.workers == s.workers && t.busy == s.busy
                && multiset(Listed(t, i.key)) == multiset(Listed(s, i.key)) - multiset{i.job}
                && (forall k :: k != i.key ==> Listed(t, k) == Listed(s, k))
                && (i.job in s.tasks ==> t.tasks == s.tasks[i.job := Task(Cancelled, s.tasks[i.job].key)]))
            && (!(i.job in s.promises && s.promises[i.job].Dropped?) ==>
                && t.local == s.local && t.jobs == s.jobs && t.busy == s.busy[w := true]
                && (i.key in s.cache ==>
                    t.workers == s.workers[w := Starting(i)] && t.tasks == s.tasks && t.promises == s.promises)
                && (i.key !in s.cache ==>
                    && t.workers == s.workers
                    && (i.job in s.tasks ==> t.tasks == s.tasks[i.job := Task(Failed, s.tasks[i.job].key)])
                    && (i.job in s.promises && s.promises[i.job].Open? ==> t.promises == s.promises[i.job := Settled])))
  {
    DropOnce(s.jobs, s.queue[0].key, s.queue[0].job);
    hide Drop;
  }

  /** Taking a row in any state: with a local future the job is put in the queue, without
      one its row says failed and it is not. */
  lemma TakeWrites(s: State)
    requires s.batch != []
    ensures var i, t := s.batch[0], Take(s);
            && t.batch == s.batch[1..]
            && t.queue == (if i.job in s.local then s.queue + [i] else s.queue)
            && (i.job in s.tasks ==>
                t.tasks == s.tasks[i.job := Task(if i.job in s.local then Enqueued else Failed, s.tasks[i.job].key)])
            && t == s.(batch := t.batch, queue := t.queue, tasks := t.tasks)
  {
  }

  /** Whenever a worker finishes, the function is still cached, so this is what happens. */
  lemma FinishWrites(c: Config, ss: seq<State>, ls: seq<Label>, n: nat)
    requires IsRun(c, ss, ls) && n < |ls| && ls[n].Finally?
    ensures HeldBy(ss[n], ls[n].w).Ending? && ss[n + 1] == Retire(ss[n], ls[n].w, ls[n].exits)
    ensures Ref(ss[n], ss[n].workers[ls[n].w].item.key) > 0
  {
    Reachable(c, ss, ls, n);
    BranchesDead(c, ss, ls, n);
    StepAt(c, ss, ls, n);
    hide IsRun, KeysMatch, Futures, Once, OneWorkerEach, Modes, Retire;
  }

  /** The status check stops the scheduler exactly when nothing is queued, no row is
      pending, and no worker is marked busy or no future is left here. */
  lemma StatusCheckStopsIff(c: Config, s: State)
    requires Enabled(c, s, StatusCheck)
    ensures Do(c, s, StatusCheck).verdict <==>
            && s.queue == [] && (forall j :: j in s.tasks ==> !s.tasks[j].status.Pending?)
            && ((forall w :: w in s.busy ==> !s.busy[w]) || s.local == {})
  {
    forall j | j in s.tasks && s.tasks[j].status.Pending? ensures Item(j, s.tasks[j].key) in PendingItems(s) {}
  }

  /** What the caller does: cancelling drops an open future, and giving up after a failed
      submission answers it and forgets the job; no other job is touched. */
  lemma CallerWrites(c: Config, s: State, l: Label)
    requires Enabled(c, s, l) && (l.ClientCancel? || l.Abandon?) && l.job in s.promises
    ensures var t := Do(c, s, l);
            && t.promises == (if !s.promises[l.job].Open? then s.promises
                              else s.promises[l.job := if l.ClientCancel? then Dropped else Settled])
            && t.tasks == s.tasks && t.cache == s.cache && t.jobs == s.jobs && t.queue == s.queue
            && t.local == if l.Abandon? then s.local - {l.job} else s.local
  {
  }

  /** Starting and stopping: a start brings up the enqueuer and the configured number of
      workers; the enqueuer reads distinct pending rows, as many as there are or as the
      queue has room for; a stop takes effect on the enqueuer and each worker in turn. */
  lemma LifecycleWrites(c: Config, s: State, l: Label)
    requires Enabled(c, s, l)
    ensures var t := Do(c, s, l);
            && (l.Start? ==> t.mode.Active? && t.enqueuing && (forall w :: w in t.workers <==> 0 <= w < c.workers)
                             && forall w :: w in t.workers ==> t.workers[w].Fresh?)
            && (l.ReadPending? ==>
                && t.batch == l.read && DistinctJobs(l.read) && |s.queue| < c.maxSize
                && (forall i :: i in l.read ==> IsPending(s, i.job) && s.tasks[i.job].key == i.key)
                && (|l.read| == |PendingItems(s)| || |s.queue| + |l.read| == c.maxSize))
            && (l.BeginStop? ==> t.mode.Stopping? && !t.verdict)
            && (l.EndEnqueuer? ==> !t.enqueuing && t.batch == [])
            && (l.EndStop? ==> t.mode.Stopped? && !s.enqueuing && forall w :: w in s.workers ==> s.workers[w].Off?)
  {
    if l.Start? {
      assert forall w: nat :: w < c.workers ==> IsWorker(c.workers, w);
    } else if l.ReadPending? {
      assert forall i :: i in l.read ==> i in PendingItems(s);
    }
  }

  // ------------------------------------------------------------ first in, first out

  /** All jobs that have been put into the queue, in the order they are handed out. */
  function Line(s: State): seq<Job> {
    s.handed + JobsOf(s.queue)
  }

  function JobsOf(items: seq<Item>): seq<Job> {
    seq(|items|, i requires 0 <= i < |items| => items[i].job)
  }

  lemma JobsOfEnds(items: seq<Item>, i: Item, handed: seq<Job>)
    ensures handed + JobsOf(items + [i]) == handed + JobsOf(items) + [i.job]
    ensures items != [] ==> handed + [items[0].job] + JobsOf(items[1..]) == handed + JobsOf(items)
  {
  }

  lemma QueueMoves(c: Config, s: State, l: Label)
    requires Enabled(c, s, l) && (l.TakeTask? ==> s.batch[0].job in s.local)
    ensures var t := Do(c, s, l);
            && t.queue == (if l.TakeTask? then s.queue + [s.batch[0]] else if l.Dequeue? then s.queue[1..] else s.queue)
            && t.handed == if l.Dequeue? then s.handed + [s.queue[0].job] else s.handed
  {
    hide Drop, Decrement, NothingToDo, SetStatus, MarkCancelled, CancelAll, Resolve;
  }

  lemma LineGrows(c: Config, s: State, l: Label)
    requires Inv(c, s) && Enabled(c, s, l)
    ensures var t := Do(c, s, l);
            if l.TakeTask? then Line(t) == Line(s) + [s.batch[0].job] else Line(t) == Line(s)
  {
    if l.TakeTask? {
      BatchHead(s);
    }
    QueueMoves(c, s, l);
    if l.TakeTask? {
      JobsOfEnds(s.queue, s.batch[0], s.handed);
    } else if l.Dequeue? {
      JobsOfEnds(s.queue, s.queue[0], s.handed);
    }
    hide Inv, Do, JobsOf;
  }

  /** Jobs are handed out in the order they were put into the queue: the line of an
      earlier state begins the line of every later one. */
  lemma {:induction false} FirstInFirstOut(c: Config, ss: seq<State>, ls: seq<Label>, a: nat, b: nat)
    requires IsRun(c, ss, ls) && a <= b < |ss|
    ensures Line(ss[a]) <= Line(ss[b])
    decreases b
  {
    hide Enabled, Do, IsRun, Inv, Line;
    if a < b {
      FirstInFirstOut(c, ss, ls, a, b - 1);
      Reachable(c, ss, ls, b - 1);
      StepAt(c, ss, ls, b - 1);
      LineGrows(c, ss[b - 1], ls[b - 1]);
    }
  }
}
