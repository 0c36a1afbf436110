/** What every reachable state of the scheduler keeps. */
module SchedulerSafety {
  import opened Scheduler

  predicate IsPending(s: State, j: Job) {
    j in s.tasks && s.tasks[j].status.Pending?
  }

  /** Waiting in the database, read by the enqueuer, queued, or held by a worker. */
  predicate InPlay(s: State, j: Job) {
    IsPending(s, j) || j in Jobs(s.batch) || j in Jobs(s.queue) || j in Held(s)
  }

  predicate Keyed(s: State, i: Item) {
    i.job in s.tasks && s.tasks[i.job].key == i.key
  }

  ghost predicate KeysMatch(s: State) {
    && (forall i :: i in s.batch ==> Keyed(s, i))
    && (forall i :: i in s.queue ==> Keyed(s, i))
    && (forall w :: w in s.workers && Holds(s.workers[w]) ==> Keyed(s, s.workers[w].item))
  }

  /** A job in play has its local future and is listed under its function. */
  ghost predicate HasFuture(s: State, j: Job) {
    j in s.tasks && j in s.local && j in s.promises && j in Listed(s, s.tasks[j].key)
  }

  predicate Unhanded(s: State, j: Job) {
    j !in s.handed
  }

  ghost predicate Once(s: State) {
    && DistinctJobs(s.batch) && DistinctJobs(s.queue)
    && Jobs(s.batch) !! Jobs(s.queue)
    && (forall j :: j in Jobs(s.batch) || j in Jobs(s.queue) ==> Unhanded(s, j))
    && (forall j :: IsPending(s, j) ==> j !in Jobs(s.queue) && Unhanded(s, j))
    && (forall i, j :: 0 <= i < j < |s.handed| ==> s.handed[i] != s.handed[j])
    && (forall j :: j in s.handed ==> j in s.tasks)
  }

  ghost predicate OneWorkerEach(s: State) {
    && (forall w :: w in s.workers && Holds(s.workers[w]) ==> s.workers[w].item.job in s.handed)
    && (forall v, w :: v in s.workers && w in s.workers && v != w && Holds(s.workers[v]) && Holds(s.workers[w]) ==>
          s.workers[v].item.job != s.workers[w].item.job)
  }

  predicate Room(c: Config, s: State) {
    |s.queue| + |s.batch| <= c.maxSize
  }

  predicate MarkedBusy(s: State, w: nat) {
    w in s.busy && s.busy[w]
  }

  ghost predicate HoldersBusy(s: State) {
    forall w :: w in s.workers && Holds(s.workers[w]) ==> MarkedBusy(s, w)
  }

  ghost predicate CallsNew(s: State) {
    forall j :: j in s.calls ==> j !in s.tasks && j in s.local && j in s.promises
  }

  ghost predicate Quiet(s: State) {
    s.verdict ==> s.mode.Active? && s.queue == [] && Held(s) == {}
  }

  ghost predicate Resting(s: State) {
    (!s.enqueuing ==> s.batch == []) && (s.mode.Stopped? ==> forall w :: w in s.workers ==> s.workers[w].Off?)
  }

  function PlayedWith(s: State, k: Key): set<Job> {
    set j | j in s.tasks && s.tasks[j].key == k && InPlay(s, j)
  }

  /** A function's count is at least its number of jobs in play. */
  ghost predicate Counted(s: State) {
    && (forall k :: k in s.cache ==> s.cache[k] > 0)
    && (forall k :: |PlayedWith(s, k)| <= Ref(s, k))
  }

  /** How far a function's count is above its jobs in play. */
  function Slack(s: State, k: Key): int {
    Ref(s, k) - |PlayedWith(s, k)|
  }

  ghost predicate SlackKept(s: State, t: State) {
    forall k :: Slack(s, k) <= Slack(t, k)
  }

  ghost predicate Futures(s: State) {
    forall j :: InPlay(s, j) ==> HasFuture(s, j)
  }

  ghost predicate Modes(c: Config, s: State) {
    Room(c, s) && HoldersBusy(s) && CallsNew(s) && Quiet(s) && Resting(s)
  }

  ghost predicate Inv(c: Config, s: State) {
    KeysMatch(s) && Futures(s) && Once(s) && OneWorkerEach(s) && Modes(c, s) && Counted(s)
  }

  // ------------------------------------------------------- what comes into play

  /** Same rows with the same functions, and no row has become pending. */
  ghost predicate Settles(old_: map<Job, Task>, new_: map<Job, Task>) {
    && new_.Keys == old_.Keys
    && forall j :: j in old_ ==> new_[j].key == old_[j].key && (new_[j].status.Pending? ==> old_[j].status.Pending?)
  }

  lemma SetSettles(tasks: map<Job, Task>, j: Job, st: Status)
    requires !st.Pending?
    ensures Settles(tasks, SetStatus(tasks, j, st))
  {
  }

  /** No job comes into play, no row is added, and no row changes function. */
  ghost predicate NoneEnters(s: State, t: State) {
    && Settles(s.tasks, t.tasks)
    && (t.batch == s.batch || t.batch == [] || (s.batch != [] && t.batch == s.batch[1..]))
    && t.queue == s.queue
    && forall w :: Holds(HeldBy(t, w)) ==> Holds(HeldBy(s, w)) && HeldBy(t, w).item == HeldBy(s, w).item
  }

  lemma BatchShrinks(s: State, t: State)
    requires NoneEnters(s, t)
    ensures forall i :: i in t.batch ==> i in s.batch
    ensures DistinctJobs(s.batch) ==> DistinctJobs(t.batch)
    ensures Jobs(t.batch) <= Jobs(s.batch)
  {
  }

  lemma HeldShrinks(s: State, t: State)
    requires NoneEnters(s, t)
    ensures Held(t) <= Held(s)
  {
    forall j | j in Held(t) ensures j in Held(s) {
      var w :| w in t.workers && Holds(t.workers[w]) && t.workers[w].item.job == j;
      assert Holds(HeldBy(t, w));
    }
  }

  lemma PlayShrinks(s: State, t: State)
    requires NoneEnters(s, t)
    ensures forall j :: InPlay(t, j) ==> InPlay(s, j)
  {
    BatchShrinks(s, t);
    HeldShrinks(s, t);
  }

  lemma KeysMatchKept(s: State, t: State)
    requires NoneEnters(s, t) && KeysMatch(s)
    ensures KeysMatch(t)
  {
    BatchShrinks(s, t);
    forall w | w in t.workers && Holds(t.workers[w]) ensures Keyed(t, t.workers[w].item) {
      assert Holds(HeldBy(t, w));
    }
  }

  lemma OnceKept(s: State, t: State)
    requires NoneEnters(s, t) && Once(s) && t.handed == s.handed
    ensures Once(t)
  {
    BatchShrinks(s, t);
  }

  lemma OneWorkerKept(s: State, t: State)
    requires NoneEnters(s, t) && OneWorkerEach(s) && t.handed == s.handed
    ensures OneWorkerEach(t)
  {
    forall w | w in t.workers && Holds(t.workers[w])
      ensures Holds(HeldBy(s, w)) && HeldBy(t, w).item == HeldBy(s, w).item
    {
      assert Holds(HeldBy(t, w));
    }
  }

  lemma FuturesKept(s: State, t: State)
    requires NoneEnters(s, t) && Futures(s)
    requires s.local <= t.local && s.promises.Keys <= t.promises.Keys
    requires forall k, j :: j in Listed(s, k) ==> j in Listed(t, k)
    ensures Futures(t)
  {
    PlayShrinks(s, t);
  }

  // --------------------------------------------------------------- reference counts

  lemma SubsetSize(a: set<Job>, b: set<Job>)
    requires a <= b
    ensures |a| <= |b|
  {
    var rest := b - a;
    assert b == a + rest && a !! rest;
  }

  /** Counts stand when no job comes into play and no count falls. */
  lemma CountedKept(s: State, t: State)
    requires NoneEnters(s, t) && Counted(s)
    requires forall k :: Ref(s, k) <= Ref(t, k)
    requires forall k :: k in t.cache ==> t.cache[k] > 0
    ensures Counted(t) && SlackKept(s, t)
  {
    PlayShrinks(s, t);
    hide InPlay, NoneEnters;
    forall k ensures |PlayedWith(t, k)| <= Ref(t, k) && Slack(s, k) <= Slack(t, k) {
      SubsetSize(PlayedWith(t, k), PlayedWith(s, k));
    }
  }

  /** A submission adds one job in play and one to its count. */
  lemma CountedGrows(s: State, t: State, job: Job, key: Key)
    requires Counted(s) && t.cache == s.cache[key := Ref(s, key) + 1]
    requires forall j :: InPlay(t, j) && j != job ==> InPlay(s, j)
    requires t.tasks == s.tasks[job := Task(Pending, key)]
    ensures Counted(t) && SlackKept(s, t)
  {
    hide InPlay;
    forall k ensures |PlayedWith(t, k)| <= Ref(t, k) && Slack(s, k) <= Slack(t, k) {
      SubsetSize(PlayedWith(t, k), if k == key then PlayedWith(s, k) + {job} else PlayedWith(s, k));
    }
  }

  /** A finished job leaves play and takes one off its function's count. */
  lemma CountedShrinks(s: State, t: State, i: Item)
    requires Counted(s) && t.cache == Decrement(s.cache, i.key) && t.tasks == s.tasks
    requires i.job in PlayedWith(s, i.key) && !InPlay(t, i.job)
    requires forall j :: InPlay(t, j) ==> InPlay(s, j)
    ensures Counted(t) && SlackKept(s, t)
  {
    assert i.key in s.cache by {
      assert |PlayedWith(s, i.key)| > 0;
    }
    hide InPlay;
    forall k ensures |PlayedWith(t, k)| <= Ref(t, k) && Slack(s, k) <= Slack(t, k) {
      SubsetSize(PlayedWith(t, k), if k == i.key then PlayedWith(s, k) - {i.job} else PlayedWith(s, k));
    }
  }

  /** Steps that only take jobs out of play, answer futures or change modes. */
  lemma QuietStep(s: State, t: State)
    requires KeysMatch(s) && Futures(s) && Once(s) && OneWorkerEach(s) && Counted(s)
    requires NoneEnters(s, t) && t.handed == s.handed
    requires s.local == t.local && s.promises.Keys == t.promises.Keys && s.jobs == t.jobs && s.cache == t.cache
    ensures KeysMatch(t) && Futures(t) && Once(t) && OneWorkerEach(t) && Counted(t) && SlackKept(s, t)
  {
    KeysMatchKept(s, t);
    FuturesKept(s, t);
    OnceKept(s, t);
    OneWorkerKept(s, t);
    CountedKept(s, t);
  }

  predicate IsQuiet(l: Label) {
    || l.ClientCancel? || l.SkipTask? || l.DropBatch? || l.EndEnqueuer? || l.Begin? || l.StartJob? || l.KillWorker?
    || l.Settle? || l.RaiseCancelled? || l.StatusCheck? || l.BeginStop? || l.EndStop? || l.Start?
  }

  lemma HolderKnown(s: State, w: nat)
    requires KeysMatch(s) && Futures(s) && Holds(HeldBy(s, w))
    ensures s.workers[w].item.job in Held(s) && HasFuture(s, s.workers[w].item.job) && Keyed(s, s.workers[w].item)
  {
    assert s.workers[w].item.job in Held(s);
    assert InPlay(s, s.workers[w].item.job);
  }

  /** What a quiet step leaves as it was. */
  ghost predicate Untouched(s: State, t: State) {
    && t.handed == s.handed && t.local == s.local && t.promises.Keys == s.promises.Keys
    && t.jobs == s.jobs && t.cache == s.cache && t.calls == s.calls
  }

  ghost predicate Tidy(s: State) {
    HoldersBusy(s) && Resting(s)
  }

  lemma ModeEnters(c: Config, s: State, l: Label)
    requires Enabled(c, s, l) && Tidy(s)
    requires l.ClientCancel? || l.SkipTask? || l.DropBatch? || l.EndEnqueuer? || l.StatusCheck? || l.BeginStop? || l.EndStop?
    ensures NoneEnters(s, Do(c, s, l)) && Untouched(s, Do(c, s, l)) && Tidy(Do(c, s, l))
  {
  }

  lemma BeginEnters(c: Config, s: State, w: nat)
    requires Enabled(c, s, Begin(w)) && Tidy(s)
    ensures var t := Do(c, s, Begin(w)); NoneEnters(s, t) && Untouched(s, t) && Tidy(t)
  {
  }

  lemma StartJobEnters(c: Config, s: State, w: nat)
    requires Enabled(c, s, StartJob(w)) && Tidy(s)
    ensures var t := Do(c, s, StartJob(w)); NoneEnters(s, t) && Untouched(s, t) && Tidy(t)
  {
    SetSettles(s.tasks, s.workers[w].item.job, InProgress);
    assert MarkedBusy(s, w);
    hide SetStatus;
  }

  lemma KillEnters(c: Config, s: State, w: nat)
    requires Enabled(c, s, KillWorker(w)) && Tidy(s)
    ensures var t := Do(c, s, KillWorker(w)); NoneEnters(s, t) && Untouched(s, t) && Tidy(t)
  {
  }

  lemma StartEnters(c: Config, s: State)
    requires Enabled(c, s, Start) && Tidy(s)
    ensures NoneEnters(s, Do(c, s, Start)) && Untouched(s, Do(c, s, Start)) && Tidy(Do(c, s, Start))
  {
  }

  /** Answering futures and writing rows: nothing structural moves and no row turns pending. */
  ghost predicate OnlyAnswers(s: State, t: State) {
    && Untouched(s, t) && t.batch == s.batch && t.queue == s.queue && t.workers == s.workers && t.busy == s.busy
    && t.mode == s.mode && t.verdict == s.verdict && t.enqueuing == s.enqueuing && Settles(s.tasks, t.tasks)
  }

  lemma CancelledRunOnly(c: Config, s: State, i: Item)
    requires i.job in s.promises
    ensures OnlyAnswers(s, CancelledRun(c, s, i))
  {
    var n := CountUp(s, i.key);
    var js := if n >= c.threshold then Siblings(s, i) else {};
    assert Settles(s.tasks, MarkCancelled(s.tasks, js + {i.job}));
    assert Resolve(CancelAll(s.promises, js), i.job).Keys == s.promises.Keys;
    hide Settles, MarkCancelled, CancelAll, Resolve, Siblings;
  }

  lemma AnswerEnters(s: State, t: State, w: nat)
    requires OnlyAnswers(s, t) && HeldBy(s, w).Running? && Tidy(s)
    ensures var u := t.(workers := t.workers[w := Ending(s.workers[w].item)]);
            NoneEnters(s, u) && Untouched(s, u) && Tidy(u)
  {
    hide Settles;
    assert MarkedBusy(s, w);
  }

  lemma QuietEnters(c: Config, s: State, l: Label)
    requires KeysMatch(s) && Futures(s) && Tidy(s) && Enabled(c, s, l) && IsQuiet(l)
    ensures NoneEnters(s, Do(c, s, l)) && Untouched(s, Do(c, s, l)) && Tidy(Do(c, s, l))
  {
    if l.Settle? {
      HolderKnown(s, l.w);
      var i := s.workers[l.w].item;
      AnswerEnters(s, Answer(s, i, l.end), l.w);
    } else if l.RaiseCancelled? {
      HolderKnown(s, l.w);
      var i := s.workers[l.w].item;
      CancelledRunOnly(c, s, i);
      AnswerEnters(s, CancelledRun(c, s, i), l.w);
    } else if l.Start? {
      StartEnters(c, s);
    } else if l.Begin? {
      BeginEnters(c, s, l.w);
    } else if l.StartJob? {
      StartJobEnters(c, s, l.w);
    } else if l.KillWorker? {
      KillEnters(c, s, l.w);
    } else {
      ModeEnters(c, s, l);
    }
    hide NoneEnters, Untouched, OnlyAnswers, Answer, CancelledRun, Tidy;
  }

  lemma HoldersKnown(s: State)
    requires KeysMatch(s) && Futures(s)
    ensures forall w :: w in s.workers && Holds(s.workers[w]) ==> s.workers[w].item.job in s.local
  {
    forall w | w in s.workers && Holds(s.workers[w]) ensures s.workers[w].item.job in s.local {
      HolderKnown(s, w);
    }
  }

  /** A true verdict means nobody holds a job: a holder is marked busy and has its
      local future until it is done. */
  lemma VerdictSound(s: State)
    requires KeysMatch(s) && Futures(s) && HoldersBusy(s) && NothingToDo(s)
    ensures Held(s) == {}
  {
    HoldersKnown(s);
  }

  lemma VerdictFrom(c: Config, s: State, l: Label)
    requires Enabled(c, s, l) && IsQuiet(l) && Do(c, s, l).verdict
    ensures if l.StatusCheck? then NothingToDo(s) && s.mode.Active? && Do(c, s, l).mode == s.mode else s.verdict && Do(c, s, l).mode == s.mode
  {
    hide Resolve, SetStatus, CancelAll, MarkCancelled, Siblings, NothingToDo, NewWorkers, CountUp, Future;
  }

  lemma QuietStays(c: Config, s: State, l: Label)
    requires Inv(c, s) && Enabled(c, s, l) && IsQuiet(l)
    ensures Quiet(Do(c, s, l))
  {
    hide KeysMatch, Futures, Once, OneWorkerEach, Counted, SlackKept, Held, Do, Enabled, HoldersBusy, Resting;
    QuietEnters(c, s, l);
    HeldShrinks(s, Do(c, s, l));
    if Do(c, s, l).verdict {
      VerdictFrom(c, s, l);
    }
    if l.StatusCheck? && NothingToDo(s) {
      VerdictSound(s);
    }
  }

  lemma QuietModes(c: Config, s: State, l: Label)
    requires Inv(c, s) && Enabled(c, s, l) && IsQuiet(l)
    ensures Modes(c, Do(c, s, l))
  {
    hide KeysMatch, Futures, Once, OneWorkerEach, Counted, SlackKept, Held, Quiet, Resting, HoldersBusy, Do;
    QuietEnters(c, s, l);
    QuietStays(c, s, l);
    BatchShrinks(s, Do(c, s, l));
  }

  lemma QuietKeeps(c: Config, s: State, l: Label)
    requires Inv(c, s) && Enabled(c, s, l) && IsQuiet(l)
    ensures Inv(c, Do(c, s, l)) && SlackKept(s, Do(c, s, l))
  {
    QuietEnters(c, s, l);
    QuietModes(c, s, l);
    hide KeysMatch, Futures, Once, OneWorkerEach, Counted, SlackKept, NoneEnters, Modes, Do, Enabled;
    QuietStep(s, Do(c, s, l));
  }

  // ------------------------------------------------------ steps that move a job

  /** Nothing moves: the steps that only touch the submitter's own job. */
  ghost predicate SameBoard(s: State, t: State) {
    && t.tasks == s.tasks && t.batch == s.batch && t.queue == s.queue && t.workers == s.workers && t.handed == s.handed
    && t.cache == s.cache && t.jobs == s.jobs && t.busy == s.busy && t.mode == s.mode && t.verdict == s.verdict
    && t.enqueuing == s.enqueuing
  }

  lemma LightBoard(c: Config, s: State, l: Label)
    requires Inv(c, s) && Enabled(c, s, l) && (l.SubmitFuture? || l.Abandon?)
    ensures var t := Do(c, s, l);
            && SameBoard(s, t) && CallsNew(t)
            && forall j :: j in s.tasks && j in s.local && j in s.promises ==> j in t.local && j in t.promises
  {
    hide Futures, Once, KeysMatch, OneWorkerEach, Counted, Quiet, Resting, HoldersBusy;
  }

  lemma BoardKeeps(c: Config, s: State, t: State)
    requires Inv(c, s) && SameBoard(s, t) && CallsNew(t)
    requires forall j :: j in s.tasks && j in s.local && j in s.promises ==> j in t.local && j in t.promises
    ensures Inv(c, t) && SlackKept(s, t)
  {
    assert NoneEnters(s, t);
    KeysMatchKept(s, t);
    OnceKept(s, t);
    OneWorkerKept(s, t);
    CountedKept(s, t);
    PlayShrinks(s, t);
    HeldShrinks(s, t);
    forall j | InPlay(t, j) ensures HasFuture(t, j) {
      assert HasFuture(s, j);
    }
    hide Once, KeysMatch, OneWorkerEach, Counted, SlackKept, InPlay, HasFuture, NoneEnters, Held;
  }

  lemma LightKeeps(c: Config, s: State, l: Label)
    requires Inv(c, s) && Enabled(c, s, l) && (l.SubmitFuture? || l.Abandon?)
    ensures Inv(c, Do(c, s, l)) && SlackKept(s, Do(c, s, l))
  {
    hide Inv, SameBoard, CallsNew, SlackKept;
    LightBoard(c, s, l);
    BoardKeeps(c, s, Do(c, s, l));
  }

  lemma SyncPlay(s: State, job: Job, key: Key)
    requires Futures(s) && CallsNew(s) && job in s.calls
    ensures var t := Register(s, job, key, false);
            && !InPlay(s, job) && Held(t) == Held(s)
            && forall j :: InPlay(t, j) ==> (j == job || InPlay(s, j)) && HasFuture(t, j)
  {
    var t := Register(s, job, key, false);
    assert Held(t) == Held(s);
    assert InPlay(s, job) ==> HasFuture(s, job);
    forall j | InPlay(t, j) ensures (j == job || InPlay(s, j)) && HasFuture(t, j) {
      assert IsPending(t, j) && j != job ==> IsPending(s, j);
      assert InPlay(s, j) ==> HasFuture(s, j);
    }
  }

  lemma SyncOnce(s: State, job: Job, key: Key)
    requires Once(s) && Futures(s) && CallsNew(s) && job in s.calls
    ensures Once(Register(s, job, key, false))
  {
    var t := Register(s, job, key, false);
    assert job !in s.handed && job !in s.tasks;
    assert InPlay(s, job) ==> HasFuture(s, job);
    assert job !in Jobs(s.queue);
    hide InPlay, Held, HasFuture, Jobs, Futures;
    assert forall j :: IsPending(t, j) && j != job ==> IsPending(s, j);
  }

  lemma SyncRest(c: Config, s: State, job: Job, key: Key)
    requires Inv(c, s) && job in s.calls
    ensures var t := Register(s, job, key, false); KeysMatch(t) && OneWorkerEach(t) && Modes(c, t)
  {
    var t := Register(s, job, key, false);
    assert Held(t) == Held(s);
    hide InPlay, Held, HasFuture, Jobs, Futures, Once, Counted;
  }

  lemma SyncKeeps(c: Config, s: State, job: Job, key: Key)
    requires Inv(c, s) && Enabled(c, s, SubmitSync(job, key))
    ensures Inv(c, Do(c, s, SubmitSync(job, key))) && SlackKept(s, Do(c, s, SubmitSync(job, key)))
  {
    var t := Register(s, job, key, false);
    hide InPlay, Counted, SlackKept, HasFuture, Jobs, Once, KeysMatch, OneWorkerEach, Modes;
    assert CallsNew(s) by {
      CallsAreNew(c, s);
    }
    SyncPlay(s, job, key);
    CountedGrows(s, t, job, key);
    SyncOnce(s, job, key);
    SyncRest(c, s, job, key);
  }

  lemma CallsAreNew(c: Config, s: State)
    requires Modes(c, s)
    ensures CallsNew(s)
  {
  }

  lemma SyncFailsKeeps(c: Config, s: State, job: Job, key: Key)
    requires Inv(c, s) && Enabled(c, s, SyncFails(job, key))
    ensures Inv(c, Do(c, s, SyncFails(job, key))) && SlackKept(s, Do(c, s, SyncFails(job, key)))
  {
    hide Once, KeysMatch, OneWorkerEach, SlackKept, InPlay;
    var t := Do(c, s, SyncFails(job, key));
    assert NoneEnters(s, t);
    KeysMatchKept(s, t);
    OnceKept(s, t);
    OneWorkerKept(s, t);
    CountedKept(s, t);
    PlayShrinks(s, t);
    forall j | InPlay(t, j) ensures HasFuture(t, j) {
      assert HasFuture(s, j);
    }
  }

  /** Counts stand when no job comes into play and rows keep their functions. */
  lemma CountedStands(s: State, t: State)
    requires Counted(s) && t.cache == s.cache && Settles(s.tasks, t.tasks)
    requires forall j :: InPlay(t, j) ==> InPlay(s, j)
    ensures Counted(t) && SlackKept(s, t)
  {
    hide InPlay;
    forall k ensures |PlayedWith(t, k)| <= Ref(t, k) && Slack(s, k) <= Slack(t, k) {
      SubsetSize(PlayedWith(t, k), PlayedWith(s, k));
    }
  }

  lemma ReadKeeps(c: Config, s: State, read: seq<Item>)
    requires Inv(c, s) && Enabled(c, s, ReadPending(read))
    ensures Inv(c, Do(c, s, ReadPending(read))) && SlackKept(s, Do(c, s, ReadPending(read)))
  {
    hide Counted, SlackKept;
    var t := Do(c, s, ReadPending(read));
    forall i | i in t.batch ensures Keyed(t, i) && IsPending(s, i.job) {
      assert i in PendingItems(s);
    }
    assert Held(t) == Held(s) && Jobs(t.queue) == Jobs(s.queue);
    forall j | InPlay(t, j) ensures InPlay(s, j) && HasFuture(t, j) {
      assert HasFuture(s, j) || !InPlay(s, j);
    }
    assert Settles(s.tasks, t.tasks);
    CountedStands(s, t);
  }

  // ------------------------------------------------------------ queueing a job

  lemma BatchHead(s: State)
    requires Once(s) && KeysMatch(s) && Futures(s) && s.batch != []
    ensures var i := s.batch[0];
            && InPlay(s, i.job) && HasFuture(s, i.job) && Keyed(s, i)
            && i.job !in Jobs(s.queue) && i.job !in Jobs(s.batch[1..]) && Unhanded(s, i.job)
  {
    assert s.batch[0].job in Jobs(s.batch);
  }

  lemma TakePlay(s: State)
    requires Once(s) && KeysMatch(s) && Futures(s) && s.batch != []
    ensures var t := Take(s);
            && Jobs(t.batch) <= Jobs(s.batch) && Jobs(t.queue) == Jobs(s.queue) + {s.batch[0].job}
            && Held(t) == Held(s) && Settles(s.tasks, t.tasks) && !IsPending(t, s.batch[0].job)
            && forall j :: InPlay(t, j) ==> InPlay(s, j)
  {
    BatchHead(s);
    var t := Take(s);
    SetSettles(s.tasks, s.batch[0].job, Enqueued);
    hide Once, KeysMatch, Futures;
    assert forall i :: i in t.batch ==> i in s.batch;
    assert forall i :: i in t.queue <==> i in s.queue || i == s.batch[0];
  }

  lemma KeyedStays(s: State, t: State, i: Item)
    requires Settles(s.tasks, t.tasks) && Keyed(s, i)
    ensures Keyed(t, i)
  {
  }

  lemma TakeOnce(s: State)
    requires Once(s) && KeysMatch(s) && Futures(s) && s.batch != []
    ensures Once(Take(s))
  {
    BatchHead(s);
    TakePlay(s);
    var t, i := Take(s), s.batch[0];
    forall q | q in s.queue ensures q.job != i.job {
      assert q.job in Jobs(s.queue);
    }
    assert DistinctJobs(t.queue);
    assert DistinctJobs(t.batch) && t.handed == s.handed;
    forall j | IsPending(t, j) ensures j !in Jobs(t.queue) && Unhanded(t, j) {
      assert j in s.tasks && IsPending(s, j);
    }
    assert t.tasks.Keys == s.tasks.Keys;
    hide Jobs, InPlay, HasFuture;
  }

  lemma TakeKeys(s: State)
    requires Once(s) && KeysMatch(s) && Futures(s) && s.batch != []
    ensures KeysMatch(Take(s))
  {
    TakePlay(s);
    forall b | Keyed(s, b) ensures Keyed(Take(s), b) {
      KeyedStays(s, Take(s), b);
    }
    hide Jobs, InPlay, HasFuture, Once, Futures, SetStatus;
  }

  lemma TakeKeeps(c: Config, s: State)
    requires Inv(c, s) && Enabled(c, s, TakeTask)
    ensures Inv(c, Do(c, s, TakeTask)) && SlackKept(s, Do(c, s, TakeTask))
  {
    hide Counted, SlackKept, Once, KeysMatch, InPlay, SetStatus, Jobs;
    var t := Take(s);
    BatchHead(s);
    TakePlay(s);
    TakeOnce(s);
    TakeKeys(s);
    CountedStands(s, t);
    forall j | InPlay(t, j) ensures HasFuture(t, j) {
      assert HasFuture(s, j);
    }
  }

  // ------------------------------------------------------------ handing a job over

  /** The function of a job in play is cached. */
  lemma CachedInPlay(s: State, j: Job)
    requires Counted(s) && j in s.tasks && InPlay(s, j)
    ensures s.tasks[j].key in s.cache
  {
    assert j in PlayedWith(s, s.tasks[j].key);
  }

  lemma QueueHead(s: State)
    requires Once(s) && OneWorkerEach(s) && KeysMatch(s) && Futures(s) && Counted(s) && s.queue != []
    ensures var i := s.queue[0];
            && InPlay(s, i.job) && HasFuture(s, i.job) && Keyed(s, i) && i.key in s.cache
            && i.job !in Jobs(s.queue[1..]) && i.job !in Jobs(s.batch) && Unhanded(s, i.job)
            && !IsPending(s, i.job) && i.job !in Held(s)
  {
    assert s.queue[0].job in Jobs(s.queue);
    CachedInPlay(s, s.queue[0].job);
  }

  lemma HandPlay(s: State, w: nat)
    requires Once(s) && OneWorkerEach(s) && KeysMatch(s) && Futures(s) && Counted(s)
    requires s.queue != [] && HeldBy(s, w).Idle?
    ensures var t, i := Hand(s, w), s.queue[0];
            && t.batch == s.batch && Jobs(t.queue) == Jobs(s.queue) - {i.job}
            && Held(t) == (if Future(s, i.job).Dropped? then Held(s) else Held(s) + {i.job})
            && Settles(s.tasks, t.tasks) && !IsPending(t, i.job)
            && forall j :: InPlay(t, j) ==> InPlay(s, j)
  {
    QueueHead(s);
    var t, i := Hand(s, w), s.queue[0];
    SetSettles(s.tasks, i.job, Cancelled);
    hide Once, KeysMatch, Futures, Counted, SlackKept, OneWorkerEach, InPlay, HasFuture, SetStatus;
    assert forall q :: q in s.queue <==> q in t.queue || q == i;
    if Future(s, i.job).Dropped? {
      assert t.workers == s.workers;
    } else {
      HeldGrows(s.workers, w, i, s, t);
    }
    assert !IsPending(t, i.job) by {
      assert Settles(s.tasks, t.tasks);
    }
  }

  lemma HeldGrows(ws: map<nat, Worker>, w: nat, i: Item, s: State, t: State)
    requires s.workers == ws && t.workers == ws[w := Starting(i)] && !Holds(HeldBy(s, w))
    ensures Held(t) == Held(s) + {i.job}
  {
    forall j ensures j in Held(t) <==> j in Held(s) + {i.job} {
      if j in Held(s) {
        var v :| v in s.workers && Holds(s.workers[v]) && s.workers[v].item.job == j;
        assert v != w && v in t.workers && t.workers[v] == s.workers[v];
      }
      assert w in t.workers && Holds(t.workers[w]) && t.workers[w].item.job == i.job;
    }
  }

  lemma HandOnce(s: State, w: nat)
    requires Once(s) && OneWorkerEach(s) && KeysMatch(s) && Futures(s) && Counted(s)
    requires s.queue != [] && HeldBy(s, w).Idle?
    ensures Once(Hand(s, w))
  {
    QueueHead(s);
    HandPlay(s, w);
    var t, i := Hand(s, w), s.queue[0];
    assert t.handed == s.handed + [i.job];
    assert DistinctJobs(t.queue) && t.batch == s.batch && t.tasks.Keys == s.tasks.Keys;
    forall j | IsPending(t, j) ensures j !in Jobs(t.queue) && Unhanded(t, j) {
      assert j in s.tasks && IsPending(s, j) && j != i.job;
    }
    forall j | j in Jobs(t.batch) || j in Jobs(t.queue) ensures Unhanded(t, j) {
      assert Unhanded(s, j) && j != i.job;
    }
    hide Jobs, Held, InPlay, HasFuture, KeysMatch, Futures, Counted, SlackKept, OneWorkerEach, Hand;
  }

  lemma HandWorkers(s: State, w: nat)
    requires Once(s) && OneWorkerEach(s) && KeysMatch(s) && Futures(s) && Counted(s)
    requires s.queue != [] && HeldBy(s, w).Idle?
    ensures OneWorkerEach(Hand(s, w)) && KeysMatch(Hand(s, w))
  {
    hide Jobs, Held, InPlay, HasFuture, Once, Futures, Counted, SlackKept, SetStatus, Drop;
    QueueHead(s);
    HandPlay(s, w);
    var t := Hand(s, w);
    forall b | Keyed(s, b) ensures Keyed(t, b) {
      KeyedStays(s, t, b);
    }
  }

  lemma HandFutures(s: State, w: nat)
    requires Once(s) && OneWorkerEach(s) && KeysMatch(s) && Futures(s) && Counted(s)
    requires s.queue != [] && HeldBy(s, w).Idle?
    ensures Futures(Hand(s, w))
  {
    QueueHead(s);
    HandPlay(s, w);
    var t, i := Hand(s, w), s.queue[0];
    forall j | InPlay(t, j) ensures HasFuture(t, j) {
      assert HasFuture(s, j);
      if Future(s, i.job).Dropped? {
        assert j != i.job;
      }
    }
  }

  lemma HandModes(c: Config, s: State, w: nat)
    requires Inv(c, s) && Enabled(c, s, Dequeue(w))
    ensures Modes(c, Hand(s, w))
  {
    hide Jobs, Held, InPlay, Once, Futures, Counted, SetStatus, Drop, OneWorkerEach, KeysMatch;
    HandPlay(s, w);
    QueueHead(s);
    var t := Hand(s, w);
    forall j | j in t.calls ensures j !in t.tasks && j in t.local && j in t.promises {
      assert j in s.calls && j != s.queue[0].job;
    }
  }

  lemma HandKeeps(c: Config, s: State, w: nat)
    requires Inv(c, s) && Enabled(c, s, Dequeue(w))
    ensures Inv(c, Do(c, s, Dequeue(w))) && SlackKept(s, Do(c, s, Dequeue(w)))
  {
    hide Jobs, Held, InPlay, Once, Futures, Counted, SlackKept, Modes, Drop, OneWorkerEach, KeysMatch;
    var t := Hand(s, w);
    HandModes(c, s, w);
    QueueHead(s);
    HandPlay(s, w);
    HandOnce(s, w);
    HandWorkers(s, w);
    HandFutures(s, w);
    CountedStands(s, t);
  }

  // ------------------------------------------------------------ finishing a job

  lemma HolderAlone(s: State, w: nat)
    requires Once(s) && OneWorkerEach(s) && KeysMatch(s) && Futures(s) && Holds(HeldBy(s, w))
    ensures var i := s.workers[w].item;
            && i.job in PlayedWith(s, i.key) && HasFuture(s, i.job)
            && !IsPending(s, i.job) && i.job !in Jobs(s.batch) && i.job !in Jobs(s.queue)
  {
    HolderKnown(s, w);
    assert InPlay(s, s.workers[w].item.job);
  }

  lemma FinallyPlay(s: State, t: State, w: nat)
    requires OneWorkerEach(s) && Holds(HeldBy(s, w)) && t.batch == s.batch && t.queue == s.queue && t.tasks == s.tasks
    requires t.workers == s.workers[w := Off] || t.workers == s.workers[w := Idle]
    ensures NoneEnters(s, t) && s.workers[w].item.job !in Held(t)
  {
  }

  lemma FinallyModes(c: Config, s: State, w: nat, exits: bool)
    requires Inv(c, s) && Enabled(c, s, Finally(w, exits))
    ensures Modes(c, Retire(s, w, exits))
  {
    hide Jobs, Held, InPlay, Once, Counted, Drop, Decrement, OneWorkerEach, KeysMatch, NoneEnters, Futures;
    HolderAlone(s, w);
    FinallyPlay(s, Retire(s, w, exits), w);
    HeldShrinks(s, Retire(s, w, exits));
  }

  lemma FinallyKeeps(c: Config, s: State, w: nat, exits: bool)
    requires Inv(c, s) && Enabled(c, s, Finally(w, exits))
    ensures Inv(c, Do(c, s, Finally(w, exits))) && SlackKept(s, Do(c, s, Finally(w, exits)))
  {
    hide Jobs, Held, Once, Counted, SlackKept, Modes, OneWorkerEach, KeysMatch, NoneEnters;
    var t, i := Retire(s, w, exits), s.workers[w].item;
    FinallyModes(c, s, w, exits);
    HolderAlone(s, w);
    FinallyPlay(s, t, w);
    PlayShrinks(s, t);
    KeysMatchKept(s, t);
    OnceKept(s, t);
    OneWorkerKept(s, t);
    CountedShrinks(s, t, i);
    forall j | InPlay(t, j) ensures HasFuture(t, j) {
      assert HasFuture(s, j) && j != i.job;
    }
  }

  // -------------------------------------------------------------------- all runs

  lemma StepKeeps(c: Config, s: State, l: Label)
    requires Inv(c, s) && Enabled(c, s, l)
    ensures Inv(c, Do(c, s, l)) && SlackKept(s, Do(c, s, l))
  {
    hide Inv, Enabled, Do, SlackKept;
    match l
    case SubmitFuture(_) => LightKeeps(c, s, l);
    case Abandon(_) => LightKeeps(c, s, l);
    case SubmitSync(job, key) => SyncKeeps(c, s, job, key);
    case SyncFails(job, key) => SyncFailsKeeps(c, s, job, key);
    case ReadPending(read) => ReadKeeps(c, s, read);
    case TakeTask => TakeKeeps(c, s);
    case Dequeue(w) => HandKeeps(c, s, w);
    case Finally(w, exits) => FinallyKeeps(c, s, w, exits);
    case _ => QuietKeeps(c, s, l);
  }

  lemma InitKeeps(c: Config, s: State)
    requires Init(s)
    ensures Inv(c, s)
  {
    forall j ensures !InPlay(s, j) {}
    forall k ensures |PlayedWith(s, k)| == 0 {
      assert PlayedWith(s, k) == {};
    }
  }

  lemma StepAt(c: Config, ss: seq<State>, ls: seq<Label>, i: nat)
    requires IsRun(c, ss, ls) && i + 1 < |ss|
    ensures |ss| == |ls| + 1 && Enabled(c, ss[i], ls[i]) && ss[i + 1] == Do(c, ss[i], ls[i])
  {
    hide Enabled, Do;
  }

  /** Every state of every run, whatever the interleaving. */
  lemma {:induction false} Reachable(c: Config, ss: seq<State>, ls: seq<Label>, n: nat)
    requires IsRun(c, ss, ls) && n < |ss|
    ensures Inv(c, ss[n])
  {
    hide Enabled, Do, Inv;
    if n == 0 {
      InitKeeps(c, ss[0]);
    } else {
      Reachable(c, ss, ls, n - 1);
      StepAt(c, ss, ls, n - 1);
      StepKeeps(c, ss[n - 1], ls[n - 1]);
    }
  }
}
