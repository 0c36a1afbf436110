/** What the invariant gives for whole runs of the scheduler. */
module SchedulerResults {
  import opened Scheduler
  import opened SchedulerSafety

  /** In every reachable state the two defensive branches are dead: the next row the
      enqueuer takes has a local future, and the function of the next queued job is
      cached.  So a job only fails by running. */
  lemma BranchesDead(c: Config, ss: seq<State>, ls: seq<Label>, n: nat)
    requires IsRun(c, ss, ls) && n < |ss|
    ensures ss[n].batch != [] ==> ss[n].batch[0].job in ss[n].local
    ensures ss[n].queue != [] ==> ss[n].queue[0].key in ss[n].cache
    ensures forall w :: Holds(HeldBy(ss[n], w)) ==> ss[n].workers[w].item.key in ss[n].cache
  {
    Reachable(c, ss, ls, n);
    var s := ss[n];
    if s.batch != [] {
      BatchHead(s);
    }
    if s.queue != [] {
      QueueHead(s);
    }
    forall w | Holds(HeldBy(s, w)) ensures s.workers[w].item.key in s.cache {
      HolderKnown(s, w);
      CachedInPlay(s, s.workers[w].item.job);
    }
  }

  /** A function's count is at least its jobs waiting, queued or held, and every row
      still pending has its future here. */
  lemma CountsCover(c: Config, ss: seq<State>, ls: seq<Label>, n: nat, k: Key, j: Job)
    requires IsRun(c, ss, ls) && n < |ss|
    ensures |PlayedWith(ss[n], k)| <= Ref(ss[n], k)
    ensures IsPending(ss[n], j) ==> j in ss[n].local
  {
    Reachable(c, ss, ls, n);
    assert IsPending(ss[n], j) ==> InPlay(ss[n], j);
  }

  /** The queue never passes its maximum, and a put never has to wait. */
  lemma PutNeverWaits(c: Config, ss: seq<State>, ls: seq<Label>, n: nat)
    requires IsRun(c, ss, ls) && n < |ss|
    ensures |ss[n].queue| <= c.maxSize
    ensures ss[n].batch != [] ==> |ss[n].queue| < c.maxSize && ss[n].enqueuing
  {
    Reachable(c, ss, ls, n);
  }

  // ------------------------------------------------------------ at most once

  lemma HandedGrows(c: Config, s: State, l: Label, j: Job)
    requires Enabled(c, s, l) && (j in s.handed || (l.Dequeue? && s.queue[0].job == j))
    ensures j in Do(c, s, l).handed
  {
  }

  lemma {:induction false} HandedLater(c: Config, ss: seq<State>, ls: seq<Label>, a: nat, b: nat, j: Job)
    requires IsRun(c, ss, ls) && a <= b < |ss| && j in ss[a].handed
    ensures j in ss[b].handed
    decreases b
  {
    hide Enabled, Do, IsRun;
    if a < b {
      HandedLater(c, ss, ls, a, b - 1, j);
      StepAt(c, ss, ls, b - 1);
      HandedGrows(c, ss[b - 1], ls[b - 1], j);
    }
  }

  /** Over a whole run no job is taken from the queue twice, by the same or another
      worker. */
  lemma HandedAtMostOnce(c: Config, ss: seq<State>, ls: seq<Label>, a: nat, b: nat)
    requires IsRun(c, ss, ls) && a < b < |ls| && ls[a].Dequeue? && ls[b].Dequeue?
    ensures ss[a].queue != [] && ss[b].queue != [] && ss[a].queue[0].job != ss[b].queue[0].job
  {
    StepAt(c, ss, ls, a);
    StepAt(c, ss, ls, b);
    HandedGrows(c, ss[a], ls[a], ss[a].queue[0].job);
    HandedLater(c, ss, ls, a + 1, b, ss[a].queue[0].job);
    Reachable(c, ss, ls, b);
    assert ss[b].queue[0].job in Jobs(ss[b].queue);
  }

  /** No two workers hold the same job. */
  lemma HeldByOne(c: Config, ss: seq<State>, ls: seq<Label>, n: nat, v: nat, w: nat)
    requires IsRun(c, ss, ls) && n < |ss| && v != w && Holds(HeldBy(ss[n], v)) && Holds(HeldBy(ss[n], w))
    ensures ss[n].workers[v].item.job != ss[n].workers[w].item.job
  {
    Reachable(c, ss, ls, n);
  }

  // ------------------------------------------------------------ stopping

  /** The status check stops the scheduler only when nothing is queued, nobody holds
      a job and no row is pending; until it has stopped it, nothing is queued or held. */
  lemma StopsWhenIdle(c: Config, ss: seq<State>, ls: seq<Label>, n: nat)
    requires IsRun(c, ss, ls) && n < |ls|
    ensures ls[n].StatusCheck? && ss[n + 1].verdict ==> PendingItems(ss[n]) == {}
    ensures ls[n].StatusCheck? && ss[n + 1].verdict ==>
      forall j :: InPlay(ss[n], j) ==> j in Jobs(ss[n].batch)
    ensures ss[n].verdict ==> ss[n].queue == [] && Held(ss[n]) == {}
  {
    Reachable(c, ss, ls, n);
    StepAt(c, ss, ls, n);
    var s := ss[n];
    assert forall j :: IsPending(s, j) ==> Item(j, s.tasks[j].key) in PendingItems(s);
    if ls[n].StatusCheck? && NothingToDo(s) {
      VerdictSound(s);
    }
  }

  // ------------------------------------------------------------ cancelling

  /** At the threshold, every other job of the function that is in play is cancelled:
      its row says so and its future is no longer open. */
  lemma SiblingsCancelled(c: Config, s: State, w: nat, j: Job)
    requires Inv(c, s) && Enabled(c, s, RaiseCancelled(w)) && CountUp(s, s.workers[w].item.key) >= c.threshold
    requires j in PlayedWith(s, s.workers[w].item.key) && j != s.workers[w].item.job
    ensures var t := Do(c, s, RaiseCancelled(w));
            j in t.tasks && t.tasks[j].status.Cancelled? && j in t.promises && !t.promises[j].Open?
  {
    var i := s.workers[w].item;
    assert HasFuture(s, j);
    assert j in Siblings(s, i);
  }

  /** A future that is not open keeps its answer. */
  lemma AnswerStands(c: Config, s: State, l: Label, j: Job)
    requires Inv(c, s) && Enabled(c, s, l) && j in s.promises && !s.promises[j].Open?
    ensures j in Do(c, s, l).promises && Do(c, s, l).promises[j] == s.promises[j]
  {
    hide Inv, SetStatus, Drop, MarkCancelled, NothingToDo;
  }

  lemma {:induction false} DroppedStays(c: Config, ss: seq<State>, ls: seq<Label>, a: nat, b: nat, j: Job)
    requires IsRun(c, ss, ls) && a <= b < |ss| && Future(ss[a], j).Dropped?
    ensures Future(ss[b], j).Dropped?
    decreases b
  {
    hide Enabled, Do, IsRun, Inv;
    if a < b {
      DroppedStays(c, ss, ls, a, b - 1, j);
      Reachable(c, ss, ls, b - 1);
      StepAt(c, ss, ls, b - 1);
      AnswerStands(c, ss[b - 1], ls[b - 1], j);
    }
  }

  /** Once a job's future is cancelled no worker starts it: taking it from the queue
      discards it. */
  lemma CancelledNeverStarted(c: Config, ss: seq<State>, ls: seq<Label>, a: nat, b: nat, j: Job)
    requires IsRun(c, ss, ls) && a <= b < |ls| && Future(ss[a], j).Dropped?
    requires ls[b].Dequeue? && ss[b].queue != [] && ss[b].queue[0].job == j
    ensures ss[b + 1].workers == ss[b].workers && j in ss[b + 1].tasks && ss[b + 1].tasks[j].status.Cancelled?
    ensures !InPlay(ss[b + 1], j)
  {
    DroppedStays(c, ss, ls, a, b, j);
    Reachable(c, ss, ls, b);
    StepAt(c, ss, ls, b);
    QueueHead(ss[b]);
    HandPlay(ss[b], ls[b].w);
  }

  // ------------------------------------------------------------ the count that is not given back

  lemma {:induction false} SlackLater(c: Config, ss: seq<State>, ls: seq<Label>, a: nat, b: nat, k: Key)
    requires IsRun(c, ss, ls) && a <= b < |ss|
    ensures Slack(ss[a], k) <= Slack(ss[b], k)
    decreases b
  {
    hide Enabled, Do, IsRun, Inv, Slack;
    if a < b {
      SlackLater(c, ss, ls, a, b - 1, k);
      Reachable(c, ss, ls, b - 1);
      StepAt(c, ss, ls, b - 1);
      StepKeeps(c, ss[b - 1], ls[b - 1]);
    }
  }

  lemma DiscardLeaks(s: State, w: nat)
    requires Once(s) && OneWorkerEach(s) && KeysMatch(s) && Futures(s) && Counted(s)
    requires s.queue != [] && HeldBy(s, w).Idle? && Future(s, s.queue[0].job).Dropped?
    ensures Slack(Hand(s, w), s.queue[0].key) > Slack(s, s.queue[0].key)
  {
    var t, i := Hand(s, w), s.queue[0];
    QueueHead(s);
    HandPlay(s, w);
    assert i.job in PlayedWith(s, i.key) && !InPlay(t, i.job);
    hide InPlay, Once, OneWorkerEach, KeysMatch, Futures, Counted;
    SubsetSize(PlayedWith(t, i.key), PlayedWith(s, i.key) - {i.job});
  }

  /** A discarded job never gives its count back, so its function stays cached for the
      rest of the run. */
  lemma DiscardedNeverRetired(c: Config, ss: seq<State>, ls: seq<Label>, a: nat, b: nat)
    requires IsRun(c, ss, ls) && a < b < |ss| && ls[a].Dequeue? && ss[a].queue != []
    requires Future(ss[a], ss[a].queue[0].job).Dropped?
    ensures ss[a].queue[0].key in ss[b].cache
  {
    Reachable(c, ss, ls, a);
    Reachable(c, ss, ls, b);
    StepAt(c, ss, ls, a);
    DiscardLeaks(ss[a], ls[a].w);
    SlackLater(c, ss, ls, a + 1, b, ss[a].queue[0].key);
  }

  // A run in which this happens: a job is submitted, read, queued, and cancelled before
  // the only worker takes it.

  function DiscardedLabels(j: Job, k: Key): seq<Label> {
    [SubmitFuture(j), SubmitSync(j, k), Start, ReadPending([Item(j, k)]), TakeTask, Begin(0), ClientCancel(j), Dequeue(0)]
  }

  function Submitted(j: Job, k: Key): State {
    State(Stopped, false, {j}, map[j := Open], map[], map[k := 1], map[k := [j]], map[],
          map[j := Task(Pending, k)], false, [], [], map[], map[], [])
  }

  function Queued(c: Config, j: Job, k: Key): State {
    Submitted(j, k).(mode := Active, enqueuing := true, workers := NewWorkers(c.workers),
                     queue := [Item(j, k)], tasks := map[j := Task(Enqueued, k)])
  }

  function Withdrawn(c: Config, j: Job, k: Key): State {
    Queued(c, j, k).(workers := NewWorkers(c.workers)[0 := Idle], busy := map[0 := false], promises := map[j := Dropped])
  }

  function Discarded(c: Config, j: Job, k: Key): State {
    Withdrawn(c, j, k).(queue := [], handed := [j], local := {}, jobs := map[], tasks := map[j := Task(Cancelled, k)])
  }

  lemma Submits(c: Config, j: Job, k: Key) returns (s: State, t: State)
    ensures Init(s) && Enabled(c, s, SubmitFuture(j)) && t == Do(c, s, SubmitFuture(j))
    ensures Enabled(c, t, SubmitSync(j, k)) && Submitted(j, k) == Do(c, t, SubmitSync(j, k))
  {
    s := State(Stopped, false, {}, map[], map[], map[], map[], map[], map[], false, [], [], map[], map[], []);
    t := Do(c, s, SubmitFuture(j));
    var u := Do(c, t, SubmitSync(j, k));
    assert u.calls == map[] && u.jobs[k] == [j] && u.local == {j};
    assert u.cache == map[k := 1] && u.jobs == map[k := [j]];
  }

  lemma Queues(c: Config, j: Job, k: Key) returns (t: State, u: State)
    requires c.maxSize > 0
    ensures Enabled(c, Submitted(j, k), Start) && t == Do(c, Submitted(j, k), Start)
    ensures Enabled(c, t, ReadPending([Item(j, k)])) && u == Do(c, t, ReadPending([Item(j, k)]))
    ensures Enabled(c, u, TakeTask) && Queued(c, j, k) == Do(c, u, TakeTask)
  {
    t := Do(c, Submitted(j, k), Start);
    assert PendingItems(t) == {Item(j, k)} by {
      assert t.tasks[j].status.Pending?;
    }
    u := Do(c, t, ReadPending([Item(j, k)]));
  }

  lemma Withdraws(c: Config, j: Job, k: Key) returns (t: State)
    requires c.workers > 0
    ensures Enabled(c, Queued(c, j, k), Begin(0)) && t == Do(c, Queued(c, j, k), Begin(0))
    ensures Enabled(c, t, ClientCancel(j)) && Withdrawn(c, j, k) == Do(c, t, ClientCancel(j))
  {
    var s := Queued(c, j, k);
    assert IsWorker(c.workers, 0) && HeldBy(s, 0).Fresh?;
    t := Do(c, s, Begin(0));
  }

  lemma Discards(c: Config, j: Job, k: Key)
    ensures var s := Withdrawn(c, j, k); Enabled(c, s, Dequeue(0)) && Discarded(c, j, k) == Do(c, s, Dequeue(0))
  {
    assert RemoveFirst([j], j) == [];
    assert Drop(map[k := [j]], k, j) == map[];
  }

  /** At its end nothing is pending, queued or held, and the function is still cached. */
  lemma DiscardedRun(c: Config, j: Job, k: Key) returns (ss: seq<State>)
    requires c.maxSize > 0 && c.workers > 0
    ensures IsRun(c, ss, DiscardedLabels(j, k)) && ss[8] == Discarded(c, j, k)
    ensures k in ss[8].cache && NothingToDo(ss[8]) && PlayedWith(ss[8], k) == {}
  {
    hide Enabled, Do, Init, NothingToDo, PlayedWith, Submitted, Queued, Withdrawn, Discarded;
    var s0, s1 := Submits(c, j, k);
    var s3, s4 := Queues(c, j, k);
    var s6 := Withdraws(c, j, k);
    Discards(c, j, k);
    ss := [s0, s1, Submitted(j, k), s3, s4, Queued(c, j, k), s6, Withdrawn(c, j, k), Discarded(c, j, k)];
    IdleAfter(c, j, k);
  }

  lemma IdleAfter(c: Config, j: Job, k: Key)
    ensures var s := Discarded(c, j, k); k in s.cache && NothingToDo(s) && PlayedWith(s, k) == {}
  {
    var s := Discarded(c, j, k);
    assert Held(s) == {};
  }
}
