/** Where a function's count goes out of step with its jobs: the exact accounting. */
module SchedulerCounts {
  import opened Scheduler
  import opened SchedulerSafety

  /** Jobs of a batch whose rows are no longer pending. */
  function Stale(s: State, items: seq<Item>): set<Job> {
    set i | i in items && !IsPending(s, i.job) :: i.job
  }

  /** Other jobs of a function whose rows are pending and not yet read. */
  function Waiting(s: State, i: Item): set<Job> {
    set j | j in Siblings(s, i) && IsPending(s, j) && j !in Jobs(s.batch)
  }

  /** The jobs a step takes out of play without giving their count back: a discarded
      job, a job whose worker is killed before it starts, the waiting jobs of a
      function that are cancelled together, and cancelled rows dropped from the batch. */
  function Gone(c: Config, s: State, l: Label): set<Job>
    requires Enabled(c, s, l)
  {
    match l
    case Dequeue(w) => if Future(s, s.queue[0].job).Dropped? then {s.queue[0].job} else {}
    case KillWorker(w) => if s.workers[w].Starting? then {s.workers[w].item.job} else {}
    case RaiseCancelled(w) =>
      if CountUp(s, s.workers[w].item.key) >= c.threshold then Waiting(s, s.workers[w].item) else {}
    case SkipTask => Stale(s, s.batch[..1])
    case DropBatch => Stale(s, s.batch)
    case EndEnqueuer => Stale(s, s.batch)
    case _ => {}
  }

  function OfKey(s: State, js: set<Job>, k: Key): set<Job> {
    set j | j in js && j in s.tasks && s.tasks[j].key == k
  }

  /** By how much a step raises a function's surplus: the jobs gone, and one for a
      submission that failed after its count was raised. */
  function Leaked(c: Config, s: State, l: Label, k: Key): nat
    requires Enabled(c, s, l)
  {
    |OfKey(s, Gone(c, s, l), k)| + if l.SyncFails? && l.key == k then 1 else 0
  }

  // ------------------------------------------------------ what stays in play

  /** Exactly the jobs of `gone` leave play, and rows keep their functions. */
  ghost predicate Leaves(s: State, t: State, gone: set<Job>) {
    && (forall j :: InPlay(t, j) <==> InPlay(s, j) && j !in gone)
    && (forall j :: j in gone ==> InPlay(s, j))
    && t.tasks.Keys == s.tasks.Keys && forall j :: j in s.tasks ==> t.tasks[j].key == s.tasks[j].key
  }

  lemma Sizes(a: set<Job>, b: set<Job>)
    ensures |a - b| == |a| - |a * b|
  {
    assert a == (a - b) + (a * b) && (a - b) !! (a * b);
  }

  lemma PlayedAfter(s: State, t: State, gone: set<Job>, k: Key)
    requires Leaves(s, t, gone)
    ensures |PlayedWith(t, k)| == |PlayedWith(s, k)| - |OfKey(s, gone, k)|
  {
    hide InPlay;
    assert PlayedWith(t, k) == PlayedWith(s, k) - gone;
    assert PlayedWith(s, k) * gone == OfKey(s, gone, k);
    Sizes(PlayedWith(s, k), gone);
  }

  /** Same rows pending, same batch and queue, same jobs held. */
  ghost predicate SamePlay(s: State, t: State) {
    && t.tasks.Keys == s.tasks.Keys
    && (forall j :: j in s.tasks ==> t.tasks[j].key == s.tasks[j].key && (t.tasks[j].status.Pending? <==> s.tasks[j].status.Pending?))
    && t.batch == s.batch && t.queue == s.queue && Held(t) == Held(s)
  }

  lemma SamePlayLeaves(s: State, t: State)
    requires SamePlay(s, t)
    ensures Leaves(s, t, {})
  {
    hide Held;
  }

  /** A worker that goes on holding its job, or that held none and holds none. */
  lemma HeldSame(s: State, t: State, w: nat, x: Worker)
    requires t.workers == s.workers[w := x]
    requires Holds(x) <==> Holds(HeldBy(s, w))
    requires Holds(x) ==> x.item == HeldBy(s, w).item
    ensures Held(t) == Held(s)
  {
    forall j ensures j in Held(t) <==> j in Held(s) {
      if j in Held(s) {
        var v :| v in s.workers && Holds(s.workers[v]) && s.workers[v].item.job == j;
        assert v in t.workers && Holds(t.workers[v]) && t.workers[v].item.job == j;
      }
      if j in Held(t) {
        var v :| v in t.workers && Holds(t.workers[v]) && t.workers[v].item.job == j;
        assert Holds(HeldBy(s, v)) && HeldBy(s, v).item.job == j;
      }
    }
  }

  /** A worker that lets go of its job. */
  lemma HeldLess(s: State, t: State, w: nat, x: Worker)
    requires OneWorkerEach(s) && Holds(HeldBy(s, w)) && t.workers == s.workers[w := x] && !Holds(x)
    ensures Held(t) == Held(s) - {s.workers[w].item.job}
  {
    forall j ensures j in Held(t) <==> j in Held(s) && j != s.workers[w].item.job {
      if j in Held(s) && j != s.workers[w].item.job {
        var v :| v in s.workers && Holds(s.workers[v]) && s.workers[v].item.job == j;
        assert v in t.workers && Holds(t.workers[v]);
      }
    }
  }

  lemma NobodyHolds(s: State)
    requires forall w :: w in s.workers ==> !Holds(s.workers[w])
    ensures Held(s) == {}
  {
  }

  // ------------------------------------------------------------- step by step

  lemma BoardPlays(c: Config, s: State, l: Label)
    requires Inv(c, s) && Enabled(c, s, l)
    requires l.SubmitFuture? || l.Abandon? || l.SyncFails? || l.ClientCancel? || l.StatusCheck? || l.BeginStop? || l.EndStop?
    ensures Leaves(s, Do(c, s, l), {})
  {
    assert SamePlay(s, Do(c, s, l)) by {
      hide Inv;
    }
    hide Inv, Enabled, Do, SamePlay;
    SamePlayLeaves(s, Do(c, s, l));
  }

  lemma StartPlays(c: Config, s: State)
    requires Inv(c, s) && Enabled(c, s, Start)
    ensures Leaves(s, Do(c, s, Start), {})
  {
    var t := Do(c, s, Start);
    NobodyHolds(s);
    NobodyHolds(t);
    hide Futures, Once, KeysMatch, OneWorkerEach, Counted;
    SamePlayLeaves(s, t);
  }

  lemma BeginPlays(c: Config, s: State, w: nat)
    requires Inv(c, s) && Enabled(c, s, Begin(w))
    ensures Leaves(s, Do(c, s, Begin(w)), {})
  {
    hide Inv, Held;
    HeldSame(s, Do(c, s, Begin(w)), w, Idle);
    SamePlayLeaves(s, Do(c, s, Begin(w)));
  }

  /** The row of a held job is written with a status that is not pending. */
  lemma HolderWritten(s: State, t: State, w: nat, x: Worker, st: Status)
    requires Once(s) && OneWorkerEach(s) && KeysMatch(s) && Futures(s) && Holds(HeldBy(s, w)) && !st.Pending?
    requires Holds(x) && x.item == s.workers[w].item && t.workers == s.workers[w := x]
    requires t.batch == s.batch && t.queue == s.queue
    requires t.tasks == s.tasks || t.tasks == SetStatus(s.tasks, x.item.job, st)
    ensures Leaves(s, t, {})
  {
    HolderAlone(s, w);
    HeldSame(s, t, w, x);
    hide Once, OneWorkerEach, KeysMatch, Futures, Held, InPlay, HasFuture, Jobs;
    assert SamePlay(s, t);
    SamePlayLeaves(s, t);
  }

  lemma RunPlays(c: Config, s: State, l: Label)
    requires Inv(c, s) && Enabled(c, s, l) && (l.StartJob? || l.Settle?)
    ensures Leaves(s, Do(c, s, l), {})
  {
    var i := s.workers[l.w].item;
    hide Once, OneWorkerEach, KeysMatch, Futures, SetStatus, Resolve;
    if l.StartJob? {
      HolderWritten(s, Do(c, s, l), l.w, Running(i), InProgress);
    } else {
      HolderWritten(s, Do(c, s, l), l.w, Ending(i), if l.end.Succeeded? then Completed else Failed);
    }
  }

  lemma KillPlays(c: Config, s: State, w: nat)
    requires Inv(c, s) && Enabled(c, s, KillWorker(w))
    ensures Leaves(s, Do(c, s, KillWorker(w)), Gone(c, s, KillWorker(w)))
  {
    var t := Do(c, s, KillWorker(w));
    if s.workers[w].Starting? {
      HolderAlone(s, w);
      HeldLess(s, t, w, Off);
      assert s.workers[w].item.job in Held(s);
    } else {
      HeldSame(s, t, w, t.workers[w]);
      SamePlayLeaves(s, t);
    }
    hide Once, OneWorkerEach, KeysMatch, Futures, Held, Jobs;
  }

  lemma CancelPlays(c: Config, s: State, w: nat)
    requires Inv(c, s) && Enabled(c, s, RaiseCancelled(w))
    ensures Leaves(s, Do(c, s, RaiseCancelled(w)), Gone(c, s, RaiseCancelled(w)))
  {
    var t, i := Do(c, s, RaiseCancelled(w)), s.workers[w].item;
    var js := if CountUp(s, i.key) >= c.threshold then Siblings(s, i) else {};
    var gone := Gone(c, s, RaiseCancelled(w));
    HolderAlone(s, w);
    HeldSame(s, t, w, Ending(i));
    assert t.tasks == MarkCancelled(s.tasks, js + {i.job}) && t.batch == s.batch && t.queue == s.queue;
    hide Once, OneWorkerEach, KeysMatch, Futures, Held, Siblings;
    CancelledLeave(c, s, t, i, js, gone);
  }

  lemma CancelledLeave(c: Config, s: State, t: State, i: Item, js: set<Job>, gone: set<Job>)
    requires t.tasks == MarkCancelled(s.tasks, js + {i.job}) && t.batch == s.batch && t.queue == s.queue && Held(t) == Held(s)
    requires !IsPending(s, i.job) && i.job !in js
    requires gone == set j | j in js && IsPending(s, j) && j !in Jobs(s.batch)
    requires forall j :: IsPending(s, j) ==> j !in Jobs(s.queue) && j !in Held(s)
    ensures Leaves(s, t, gone)
  {
    hide Held, Jobs;
    forall j ensures IsPending(t, j) <==> IsPending(s, j) && j !in js {
    }
  }

  lemma PendingOnly(s: State)
    requires Once(s) && OneWorkerEach(s)
    ensures forall j :: IsPending(s, j) ==> j !in Jobs(s.queue) && j !in Held(s)
    ensures forall j :: j in Jobs(s.batch) ==> j !in Jobs(s.queue) && j !in Held(s)
  {
  }

  lemma ReadPlays(c: Config, s: State, read: seq<Item>)
    requires Inv(c, s) && Enabled(c, s, ReadPending(read))
    ensures Leaves(s, Do(c, s, ReadPending(read)), {})
  {
    var t := Do(c, s, ReadPending(read));
    forall i | i in read ensures IsPending(s, i.job) {
      assert i in PendingItems(s);
    }
    hide Inv;
    assert Held(t) == Held(s) && Jobs(s.batch) == {};
    hide Held;
  }

  lemma SkipPlays(c: Config, s: State, l: Label)
    requires Inv(c, s) && Enabled(c, s, l) && (l.SkipTask? || l.DropBatch? || l.EndEnqueuer?)
    ensures Leaves(s, Do(c, s, l), Gone(c, s, l))
  {
    var t := Do(c, s, l);
    PendingOnly(s);
    var cut := if l.SkipTask? then s.batch[..1] else s.batch;
    assert s.batch == cut + t.batch;
    assert forall i :: i in cut ==> i.job !in Jobs(t.batch);
    assert Held(t) == Held(s);
    hide Inv, Once, OneWorkerEach, KeysMatch, Futures, Held;
    BatchCut(s, t, cut);
  }

  lemma BatchCut(s: State, t: State, cut: seq<Item>)
    requires s.batch == cut + t.batch && t.tasks == s.tasks && t.queue == s.queue && Held(t) == Held(s)
    requires forall i :: i in cut ==> i.job !in Jobs(t.batch)
    requires forall j :: j in Jobs(s.batch) ==> j !in Jobs(s.queue) && j !in Held(s)
    ensures Leaves(s, t, Stale(s, cut))
  {
    hide Held;
    assert Jobs(s.batch) == Jobs(cut) + Jobs(t.batch);
    forall j | j in Stale(s, cut) ensures j in Jobs(cut) && !IsPending(s, j) && j !in Jobs(t.batch) && j in Jobs(s.batch) {
    }
    forall j | j in Jobs(cut) && !IsPending(s, j) ensures j in Stale(s, cut) {
    }
    hide Jobs, Stale;
  }

  lemma TakePlays(c: Config, s: State)
    requires Inv(c, s) && Enabled(c, s, TakeTask)
    ensures Leaves(s, Do(c, s, TakeTask), {})
  {
    var t, i := Take(s), s.batch[0];
    BatchHead(s);
    TakePlay(s);
    assert s.batch == [i] + t.batch;
    assert Jobs(s.batch) == {i.job} + Jobs(t.batch);
    hide Once, OneWorkerEach, KeysMatch, Futures, Held, HasFuture, Jobs;
    forall j | InPlay(s, j) ensures InPlay(t, j) {
    }
  }

  lemma HandPlays(c: Config, s: State, w: nat)
    requires Inv(c, s) && Enabled(c, s, Dequeue(w))
    ensures Leaves(s, Do(c, s, Dequeue(w)), Gone(c, s, Dequeue(w)))
  {
    var t, i := Hand(s, w), s.queue[0];
    QueueHead(s);
    HandPlay(s, w);
    PendingOnly(s);
    hide Once, OneWorkerEach, KeysMatch, Futures, Held, HasFuture, Jobs, Drop;
    forall j | InPlay(s, j) && j !in Gone(c, s, Dequeue(w)) ensures InPlay(t, j) {
    }
  }

  // ------------------------------------------------------- counts and surplus

  /** No other step changes a count. */
  predicate KeepsCounts(l: Label) {
    !l.SubmitSync? && !l.SyncFails? && !l.Finally?
  }

  lemma CountsStay(c: Config, s: State, l: Label)
    requires Enabled(c, s, l) && KeepsCounts(l)
    ensures Do(c, s, l).cache == s.cache
  {
    hide SetStatus, Drop, MarkCancelled, NothingToDo, Siblings, CancelAll, Resolve;
  }

  lemma StepLeaves(c: Config, s: State, l: Label)
    requires Inv(c, s) && Enabled(c, s, l) && !l.SubmitSync? && !l.Finally?
    ensures Leaves(s, Do(c, s, l), Gone(c, s, l))
  {
    hide Inv, Do, Leaves;
    match l
    case StartJob(_) => RunPlays(c, s, l);
    case Settle(_, _) => RunPlays(c, s, l);
    case Start => StartPlays(c, s);
    case Begin(w) => BeginPlays(c, s, w);
    case KillWorker(w) => KillPlays(c, s, w);
    case RaiseCancelled(w) => CancelPlays(c, s, w);
    case ReadPending(read) => ReadPlays(c, s, read);
    case SkipTask => SkipPlays(c, s, l);
    case DropBatch => SkipPlays(c, s, l);
    case EndEnqueuer => SkipPlays(c, s, l);
    case TakeTask => TakePlays(c, s);
    case Dequeue(w) => HandPlays(c, s, w);
    case _ => BoardPlays(c, s, l);
  }

  lemma SubmitPlays(c: Config, s: State, job: Job, key: Key)
    requires Inv(c, s) && Enabled(c, s, SubmitSync(job, key))
    ensures var t := Register(s, job, key, false);
            && (forall j :: InPlay(t, j) <==> InPlay(s, j) || j == job)
            && !InPlay(s, job) && job !in s.tasks && t.tasks == s.tasks[job := Task(Pending, key)]
            && Ref(t, key) == Ref(s, key) + 1 && forall k :: k != key ==> Ref(t, k) == Ref(s, k)
  {
    var t := Register(s, job, key, false);
    SyncPlay(s, job, key);
    assert IsPending(t, job);
    assert job !in s.tasks && t.batch == s.batch && t.queue == s.queue;
    hide Inv, Once, OneWorkerEach, KeysMatch, Futures, Counted, Held, HasFuture, Jobs;
    forall j | InPlay(s, j) ensures InPlay(t, j) {
      assert j != job;
    }
  }

  lemma PlayedGrows(s: State, t: State, job: Job, key: Key, k: Key)
    requires forall j :: InPlay(t, j) <==> InPlay(s, j) || j == job
    requires !InPlay(s, job) && job !in s.tasks && t.tasks == s.tasks[job := Task(Pending, key)]
    ensures |PlayedWith(t, k)| == |PlayedWith(s, k)| + if k == key then 1 else 0
  {
    hide InPlay;
    assert PlayedWith(t, k) == if k == key then PlayedWith(s, k) + {job} else PlayedWith(s, k);
    assert job !in PlayedWith(s, k);
  }

  lemma SubmitAccount(c: Config, s: State, job: Job, key: Key, k: Key)
    requires Inv(c, s) && Enabled(c, s, SubmitSync(job, key))
    ensures Slack(Register(s, job, key, false), k) == Slack(s, k)
  {
    hide Inv, InPlay, Register, Enabled, Ref, PlayedWith;
    SubmitPlays(c, s, job, key);
    PlayedGrows(s, Register(s, job, key, false), job, key, k);
  }

  lemma FinallyLeaves(c: Config, s: State, w: nat, exits: bool)
    requires Inv(c, s) && Enabled(c, s, Finally(w, exits))
    ensures Leaves(s, Retire(s, w, exits), {s.workers[w].item.job})
  {
    var t, i := Retire(s, w, exits), s.workers[w].item;
    HolderAlone(s, w);
    HeldLess(s, t, w, if exits then Off else Idle);
    assert t.tasks == s.tasks && t.batch == s.batch && t.queue == s.queue;
    hide Once, OneWorkerEach, KeysMatch, Futures, Counted, Modes, Held, HasFuture, Jobs, Drop, Decrement, Retire;
  }

  lemma FinallyCount(c: Config, s: State, w: nat, exits: bool, k: Key)
    requires Inv(c, s) && Enabled(c, s, Finally(w, exits))
    ensures Ref(Retire(s, w, exits), k) == Ref(s, k) - if k == s.workers[w].item.key then 1 else 0
    ensures s.workers[w].item.job in s.tasks && s.tasks[s.workers[w].item.job].key == s.workers[w].item.key
  {
    HolderAlone(s, w);
    CachedInPlay(s, s.workers[w].item.job);
    assert s.cache[s.workers[w].item.key] > 0;
    hide Once, OneWorkerEach, KeysMatch, Futures, Modes, InPlay, HasFuture, Drop, Jobs, Held;
  }

  lemma FinallyAccount(c: Config, s: State, w: nat, exits: bool, k: Key)
    requires Inv(c, s) && Enabled(c, s, Finally(w, exits))
    ensures Slack(Retire(s, w, exits), k) == Slack(s, k)
  {
    var i := s.workers[w].item;
    hide Inv, Enabled, Retire, Leaves, PlayedWith, Ref;
    FinallyLeaves(c, s, w, exits);
    FinallyCount(c, s, w, exits, k);
    PlayedAfter(s, Retire(s, w, exits), {i.job}, k);
    assert OfKey(s, {i.job}, k) == if k == i.key then {i.job} else {};
  }

  lemma DoRegisters(c: Config, s: State, job: Job, key: Key)
    requires Enabled(c, s, SubmitSync(job, key))
    ensures Do(c, s, SubmitSync(job, key)) == Register(s, job, key, false)
  {
    hide Register;
  }

  lemma DoRetires(c: Config, s: State, w: nat, exits: bool)
    requires Enabled(c, s, Finally(w, exits))
    ensures Do(c, s, Finally(w, exits)) == Retire(s, w, exits)
  {
    hide Retire;
  }

  /** Every step changes a function's surplus by exactly what it leaks. */
  lemma StepAccount(c: Config, s: State, l: Label, k: Key)
    requires Inv(c, s) && Enabled(c, s, l)
    ensures Slack(Do(c, s, l), k) == Slack(s, k) + Leaked(c, s, l, k)
  {
    hide Inv, Do, Enabled, Leaves, PlayedWith, Register, Retire;
    if l.SubmitSync? {
      DoRegisters(c, s, l.job, l.key);
      SubmitAccount(c, s, l.job, l.key, k);
    } else if l.Finally? {
      DoRetires(c, s, l.w, l.exits);
      FinallyAccount(c, s, l.w, l.exits, k);
    } else {
      StepLeaves(c, s, l);
      PlayedAfter(s, Do(c, s, l), Gone(c, s, l), k);
      RefAfter(c, s, l, k);
    }
  }

  lemma RefAfter(c: Config, s: State, l: Label, k: Key)
    requires Enabled(c, s, l) && !l.SubmitSync? && !l.Finally?
    ensures Ref(Do(c, s, l), k) == Ref(s, k) + if l.SyncFails? && l.key == k then 1 else 0
  {
    if KeepsCounts(l) {
      CountsStay(c, s, l);
      hide Do, Enabled;
    }
  }

  /** What the first n steps have leaked. */
  ghost function TotalLeaked(c: Config, ss: seq<State>, ls: seq<Label>, n: nat, k: Key): nat
    requires n <= |ls| < |ss| && forall i :: 0 <= i < n ==> Enabled(c, ss[i], ls[i])
  {
    if n == 0 then 0 else TotalLeaked(c, ss, ls, n - 1, k) + Leaked(c, ss[n - 1], ls[n - 1], k)
  }

  lemma RunEnabled(c: Config, ss: seq<State>, ls: seq<Label>)
    requires IsRun(c, ss, ls)
    ensures |ss| == |ls| + 1 && forall i :: 0 <= i < |ls| ==> Enabled(c, ss[i], ls[i])
  {
    hide Enabled, Do;
  }

  lemma NoneAtFirst(c: Config, ss: seq<State>, ls: seq<Label>, k: Key)
    requires IsRun(c, ss, ls)
    ensures Slack(ss[0], k) == 0
  {
    assert forall j :: !InPlay(ss[0], j);
    assert PlayedWith(ss[0], k) == {};
  }

  /** At every moment a function's count is the number of its jobs in play plus the
      number that leaked, and it is cached exactly when that is not zero. */
  lemma {:induction false} CountIs(c: Config, ss: seq<State>, ls: seq<Label>, n: nat, k: Key)
    requires |ss| == |ls| + 1 && n <= |ls| && forall i :: 0 <= i < |ls| ==> Enabled(c, ss[i], ls[i])
    requires IsRun(c, ss, ls)
    ensures Ref(ss[n], k) == |PlayedWith(ss[n], k)| + TotalLeaked(c, ss, ls, n, k)
    ensures k in ss[n].cache <==> |PlayedWith(ss[n], k)| + TotalLeaked(c, ss, ls, n, k) > 0
    decreases n
  {
    hide Enabled, Do, IsRun, PlayedWith, Leaked;
    Reachable(c, ss, ls, n);
    assert k in ss[n].cache ==> ss[n].cache[k] > 0;
    hide Inv;
    if n == 0 {
      NoneAtFirst(c, ss, ls, k);
    } else {
      CountIs(c, ss, ls, n - 1, k);
      Reachable(c, ss, ls, n - 1);
      StepAt(c, ss, ls, n - 1);
      StepAccount(c, ss[n - 1], ls[n - 1], k);
    }
  }

  lemma {:induction false} LeakedSome(c: Config, ss: seq<State>, ls: seq<Label>, n: nat, k: Key)
    requires n <= |ls| < |ss| && forall i :: 0 <= i < |ls| ==> Enabled(c, ss[i], ls[i])
    ensures TotalLeaked(c, ss, ls, n, k) > 0 <==> exists i :: 0 <= i < n && Leaked(c, ss[i], ls[i], k) > 0
    decreases n
  {
    hide Enabled, Leaked;
    if n > 0 {
      LeakedSome(c, ss, ls, n - 1, k);
      if i :| 0 <= i < n && Leaked(c, ss[i], ls[i], k) > 0 {
        assert i < n - 1 || i == n - 1;
      }
    }
  }

  /** A function none of whose jobs is in play is still cached exactly when some step
      before leaked one of them. */
  lemma CachedIdleIff(c: Config, ss: seq<State>, ls: seq<Label>, n: nat, k: Key)
    requires |ss| == |ls| + 1 && n <= |ls| && forall i :: 0 <= i < |ls| ==> Enabled(c, ss[i], ls[i])
    requires IsRun(c, ss, ls) && PlayedWith(ss[n], k) == {}
    ensures k in ss[n].cache <==> exists i :: 0 <= i < n && Leaked(c, ss[i], ls[i], k) > 0
  {
    hide Enabled, IsRun, Leaked;
    CountIs(c, ss, ls, n, k);
    LeakedSome(c, ss, ls, n, k);
  }
}
