/** The queue manager as the object it is: each method is one atomic section of a
    submitter, the enqueuer, a worker or the status check. */
module QueueManager {
  import opened Scheduler
  import opened SchedulerSafety

  class GlobalQueueManager {
    const config: Config
    var mode: Mode
    var verdict: bool
    var pendingTasks: set<Job>
    var futures: map<Job, Promise>
    var calls: map<Job, bool>
    var functionCache: map<Key, int>
    var functionJobs: map<Key, seq<Job>>
    var cancelledJobsCount: map<Key, int>
    var table: map<Job, Task>
    var enqueuing: bool
    var found: seq<Item>
    var queue: seq<Item>
    var workers: map<nat, Worker>
    var workerStates: map<nat, bool>
    ghost var handed: seq<Job>

    ghost function Snapshot(): State
      reads this
    {
      State(mode, verdict, pendingTasks, futures, calls, functionCache, functionJobs, cancelledJobsCount,
            table, enqueuing, found, queue, workers, workerStates, handed)
    }

    /** Rows a previous process left waiting or running are marked failed: no function
        is cached yet. */
    constructor (config: Config, rows: map<Job, Task>)
      ensures this.config == config && Init(Snapshot())
      ensures table.Keys == rows.Keys
      ensures forall j :: j in rows ==>
        table[j] == if Unfinished(rows[j].status) then Task(Failed, rows[j].key) else rows[j]
    {
      this.config := config;
      mode, verdict, enqueuing := Stopped, false, false;
      pendingTasks, futures, calls := {}, map[], map[];
      functionCache, functionJobs, cancelledJobsCount := map[], map[], map[];
      table := map j | j in rows ::
        if Unfinished(rows[j].status) then Task(Failed, rows[j].key) else rows[j];
      found, queue, workers, workerStates, handed := [], [], map[], map[], [];
    }

    method AddFuture(job: Job)
      requires job !in futures && job !in table
      modifies this
      ensures Snapshot() == Do(config, old(Snapshot()), SubmitFuture(job))
    {
      pendingTasks := pendingTasks + {job};
      futures := futures[job := Open];
      calls := calls[job := false];
    }

    /** `fails` when the arguments cannot be written as JSON: the count and the job list
        have been updated by then. */
    method SubmitTaskSync(job: Job, key: Key, fails: bool)
      requires job in calls && !calls[job]
      modifies this
      ensures Snapshot() == Register(old(Snapshot()), job, key, fails)
    {
      CountJob(job, key);
      if fails {
        calls := calls[job := true];
      } else {
        table := table[job := Task(Pending, key)];
        calls := calls - {job};
      }
    }

    method CountJob(job: Job, key: Key)
      modifies this`functionCache, this`functionJobs
      ensures var s := old(Snapshot());
              Snapshot() == s.(cache := s.cache[key := Ref(s, key) + 1], jobs := s.jobs[key := Listed(s, key) + [job]])
    {
      if key in functionCache {
        functionCache := functionCache[key := functionCache[key] + 1];
      } else {
        functionCache := functionCache[key := 1];
      }
      functionJobs := functionJobs[key := (if key in functionJobs then functionJobs[key] else []) + [job]];
    }

    method EnqueueNext()
      requires found != [] && (found[0].job in pendingTasks ==> |queue| < config.maxSize)
      modifies this
      ensures Snapshot() == Take(old(Snapshot()))
    {
      var task := found[0];
      found := found[1..];
      if task.job in pendingTasks {
        queue := queue + [task];
        table := SetStatus(table, task.job, Enqueued);
      } else {
        table := SetStatus(table, task.job, Failed);
        pendingTasks := pendingTasks - {task.job};
      }
    }

    method TakeJob(w: nat)
      requires queue != [] && w in workers && workers[w].Idle?
      modifies this
      ensures Snapshot() == Hand(old(Snapshot()), w)
    {
      HandCases(Snapshot(), w);
      hide Drop, SetStatus, Resolve, Hand;
      var item := Pop();
      if item.job in futures && futures[item.job] == Dropped {
        Discard(item);
      } else if item.key !in functionCache {
        FailUncached(w, item);
      } else {
        Hold(w, item);
      }
    }

    method Pop() returns (item: Item)
      requires queue != []
      modifies this`queue, this`handed
      ensures var s := old(Snapshot());
              item == s.queue[0] && Snapshot() == s.(queue := s.queue[1..], handed := s.handed + [item.job])
    {
      item := queue[0];
      queue := queue[1..];
      handed := handed + [item.job];
    }

    method Hold(w: nat, item: Item)
      modifies this`workerStates, this`workers
      ensures var s := old(Snapshot());
              Snapshot() == s.(busy := s.busy[w := true], workers := s.workers[w := Starting(item)])
    {
      workerStates := workerStates[w := true];
      workers := workers[w := Starting(item)];
    }

    method FailUncached(w: nat, item: Item)
      modifies this`workerStates, this`table, this`futures
      ensures var s := old(Snapshot());
              Snapshot() == s.(busy := s.busy[w := true], tasks := SetStatus(s.tasks, item.job, Failed),
                               promises := Resolve(s.promises, item.job))
    {
      workerStates := workerStates[w := true];
      table := SetStatus(table, item.job, Failed);
      futures := Resolve(futures, item.job);
    }

    method Discard(item: Item)
      modifies this
      ensures var s := old(Snapshot());
              Snapshot() == s.(tasks := SetStatus(s.tasks, item.job, Cancelled), local := s.local - {item.job},
                               jobs := Drop(s.jobs, item.key, item.job))
    {
      hide Drop, SetStatus;
      table := SetStatus(table, item.job, Cancelled);
      pendingTasks := pendingTasks - {item.job};
      RemoveJob(item);
    }

    method RemoveJob(item: Item)
      modifies this`functionJobs
      ensures functionJobs == Drop(old(functionJobs), item.key, item.job)
    {
      if item.key in functionJobs && item.job in functionJobs[item.key] {
        functionJobs := functionJobs[item.key := RemoveFirst(functionJobs[item.key], item.job)];
        if functionJobs[item.key] == [] {
          functionJobs := functionJobs - {item.key};
        }
      }
    }

    /** The row says in progress just before the function is called. */
    method StartJob(w: nat)
      requires w in workers && workers[w].Starting? && !verdict
      modifies this
      ensures Snapshot() == Do(config, old(Snapshot()), Scheduler.StartJob(w))
    {
      var item := workers[w].item;
      table := SetStatus(table, item.job, InProgress);
      workers := workers[w := Running(item)];
    }

    /** The function has returned, timed out or raised: the future is answered first, which
        raises when it is not open and leaves the row as it is. */
    method FinishRun(w: nat, end: End)
      requires w in workers && workers[w].Running? && workers[w].item.job in futures
      modifies this
      ensures var s, i := old(Snapshot()), old(workers[w].item);
              Snapshot() == Scheduler.Answer(s, i, end).(workers := s.workers[w := Ending(i)])
    {
      var item := workers[w].item;
      AnswerRun(item, end);
      workers := workers[w := Ending(item)];
    }

    method AnswerRun(item: Item, end: End)
      requires item.job in futures
      modifies this`futures, this`table
      ensures Snapshot() == Scheduler.Answer(old(Snapshot()), item, end)
    {
      hide SetStatus;
      if !end.Interrupted? && futures[item.job] == Open {
        futures := futures[item.job := Settled];
        table := SetStatus(table, item.job, if end.Succeeded? then Completed else Failed);
      }
    }

    method FinishCancelled(w: nat)
      requires w in workers && workers[w].Running?
      modifies this
      ensures var s, i := old(Snapshot()), old(workers[w].item);
              Snapshot() == CancelledRun(config, s, i).(workers := s.workers[w := Ending(i)])
    {
      ghost var s := Snapshot();
      var item := workers[w].item;
      ghost var js := CountCancelled(item);
      CancelledCases(config, s, item, js);
      hide Drop, Resolve, Siblings, CancelledRun, SetStatus, MarkCancelled, CancelAll;
      futures := Resolve(futures, item.job);
      workers := workers[w := Ending(item)];
    }

    method CountCancelled(item: Item) returns (ghost js: set<Job>)
      modifies this`cancelledJobsCount, this`table, this`futures
      ensures var s := old(Snapshot());
              var hit := CountUp(s, item.key) >= config.threshold;
              && js == (if hit then Siblings(s, item) else {})
              && Snapshot() == s.(cancels := s.cancels[item.key := if hit then 0 else CountUp(s, item.key)],
                                  promises := CancelAll(s.promises, js),
                                  tasks := MarkCancelled(SetStatus(s.tasks, item.job, Cancelled), js))
    {
      ghost var s := Snapshot();
      var count := MarkAndCount(item);
      SameSiblings(s, Snapshot(), item);
      CancelNone(s, item);
      assert s.cancels[item.key := count][item.key := 0] == s.cancels[item.key := 0];
      hide Siblings, SetStatus, MarkCancelled, CancelAll;
      js := {};
      if count >= config.threshold {
        js := CancelSiblings(item);
        cancelledJobsCount := cancelledJobsCount[item.key := 0];
      }
    }

    method MarkAndCount(item: Item) returns (count: int)
      modifies this`cancelledJobsCount, this`table
      ensures var s := old(Snapshot());
              && count == CountUp(s, item.key)
              && Snapshot() == s.(tasks := SetStatus(s.tasks, item.job, Cancelled), cancels := s.cancels[item.key := count])
    {
      table := SetStatus(table, item.job, Cancelled);
      count := (if item.key in cancelledJobsCount then cancelledJobsCount[item.key] else 0) + 1;
      cancelledJobsCount := cancelledJobsCount[item.key := count];
    }

    method CancelSiblings(item: Item) returns (ghost js: set<Job>)
      modifies this`futures, this`table
      ensures js == Siblings(old(Snapshot()), item)
      ensures futures == CancelAll(old(futures), js) && table == MarkCancelled(old(table), js)
    {
      var jobs := if item.key in functionJobs then functionJobs[item.key] else [];
      js := {};
      assert CancelAll(futures, js) == futures && MarkCancelled(table, js) == table;
      for i := 0 to |jobs|
        invariant js == set j | j in jobs[..i] && j in pendingTasks && j != item.job
        invariant futures == CancelAll(old(futures), js) && table == MarkCancelled(old(table), js)
      {
        var jid := jobs[i];
        assert jobs[..i + 1] == jobs[..i] + [jid];
        if jid in pendingTasks && jid != item.job {
          futures := Cancel(futures, jid);
          table := SetStatus(table, jid, Cancelled);
          js := js + {jid};
          assert futures == CancelAll(old(futures), js);
          assert table == MarkCancelled(old(table), js);
        }
      }
      assert jobs[..|jobs|] == jobs;
    }

    method Finish(w: nat, exits: bool)
      requires w in workers && workers[w].Ending?
      modifies this
      ensures Snapshot() == Retire(old(Snapshot()), w, exits)
    {
      hide Drop, Decrement;
      var item := workers[w].item;
      workerStates := workerStates[w := false];
      pendingTasks := pendingTasks - {item.job};
      RemoveJob(item);
      LowerCount(item.key);
      workers := workers[w := if exits then Off else Idle];
    }

    method LowerCount(key: Key)
      modifies this`functionCache
      ensures functionCache == Decrement(old(functionCache), key)
    {
      if key in functionCache {
        var refCount := functionCache[key] - 1;
        if refCount == 0 {
          functionCache := functionCache - {key};
        } else {
          functionCache := functionCache[key := refCount];
        }
      }
    }

    /** Counts under the lock, then decides; true is followed by the stop. */
    method CheckStatus() returns (stop: bool)
      requires mode.Active? && !verdict
      modifies this
      ensures Snapshot() == Do(config, old(Snapshot()), StatusCheck)
      ensures stop == verdict
    {
      var pendingCount, queueSize := |pendingTasks|, |queue|;
      var pendingDb := |set j | j in table && table[j].status.Pending?|;
      var allIdle := forall w :: w in workerStates ==> !workerStates[w];
      PendingRows(Snapshot());
      stop := false;
      if allIdle && pendingDb == 0 && queueSize == 0 {
        stop := true;
      } else if pendingCount == 0 && queueSize == 0 && pendingDb == 0 {
        stop := true;
      }
      verdict := stop;
    }
  }

  lemma PendingRows(s: State)
    ensures PendingItems(s) == {} <==> (set j | j in s.tasks && s.tasks[j].status.Pending?) == {}
  {
    var js := set j | j in s.tasks && s.tasks[j].status.Pending?;
    forall j | j in js ensures Item(j, s.tasks[j].key) in PendingItems(s) {}
    forall i | i in PendingItems(s) ensures i.job in js {}
  }

  /** The three ways a dequeue can go. */
  lemma HandCases(s: State, w: nat)
    requires s.queue != []
    ensures var i := s.queue[0];
            var t := s.(queue := s.queue[1..], handed := s.handed + [i.job]);
            Hand(s, w) ==
            if i.job in s.promises && s.promises[i.job] == Dropped then
              t.(tasks := SetStatus(s.tasks, i.job, Cancelled), local := s.local - {i.job}, jobs := Drop(s.jobs, i.key, i.job))
            else if i.key !in s.cache then
              t.(busy := s.busy[w := true], tasks := SetStatus(s.tasks, i.job, Failed), promises := Resolve(s.promises, i.job))
            else
              t.(busy := s.busy[w := true], workers := s.workers[w := Starting(i)])
  {
    hide Drop, SetStatus, Resolve;
    var i := s.queue[0];
    assert Future(s, i.job).Dropped? <==> i.job in s.promises && s.promises[i.job] == Dropped;
    hide Future;
  }

  lemma CancelledCases(c: Config, s: State, i: Item, js: set<Job>)
    requires js == if CountUp(s, i.key) >= c.threshold then Siblings(s, i) else {}
    ensures CancelledRun(c, s, i) ==
            s.(cancels := s.cancels[i.key := if CountUp(s, i.key) >= c.threshold then 0 else CountUp(s, i.key)],
               promises := Resolve(CancelAll(s.promises, js), i.job),
               tasks := MarkCancelled(SetStatus(s.tasks, i.job, Cancelled), js))
  {
    assert MarkCancelled(SetStatus(s.tasks, i.job, Cancelled), js) == MarkCancelled(s.tasks, js + {i.job});
    hide Resolve, Siblings;
  }

  lemma SameSiblings(s: State, t: State, i: Item)
    requires s.jobs == t.jobs && s.local == t.local
    ensures Siblings(s, i) == Siblings(t, i)
  {
  }

  lemma CancelNone(s: State, i: Item)
    ensures CancelAll(s.promises, {}) == s.promises
    ensures MarkCancelled(SetStatus(s.tasks, i.job, Cancelled), {}) == SetStatus(s.tasks, i.job, Cancelled)
  {
  }
}
