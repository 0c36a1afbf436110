/** The job scheduler as a labelled step system.  One step is what runs between two
    awaits of the event loop, or one lock section of a submitting thread. */
module Scheduler {
  datatype Job = Job(uuid: string)
  datatype Key = Key(name: string)

  datatype Status = Pending | Enqueued | InProgress | Completed | Failed | Cancelled
  datatype Task = Task(status: Status, key: Key)
  /** A job's future: not yet answered, cancelled, or answered. */
  datatype Promise = Open | Dropped | Settled
  datatype Item = Item(job: Job, key: Key)
  datatype Worker = Off | Fresh | Idle | Starting(item: Item) | Running(item: Item) | Ending(item: Item)
  datatype Mode = Stopped | Active | Stopping
  datatype Config = Config(maxSize: nat, workers: nat, threshold: int)

  /** `calls` holds the job ids whose submission is under way, with true once the
      submission has raised; `handed` lists every job ever taken from the queue. */
  datatype State = State(
    mode: Mode, verdict: bool,
    local: set<Job>, promises: map<Job, Promise>, calls: map<Job, bool>,
    cache: map<Key, int>, jobs: map<Key, seq<Job>>, cancels: map<Key, int>,
    tasks: map<Job, Task>,
    enqueuing: bool, batch: seq<Item>, queue: seq<Item>,
    workers: map<nat, Worker>, busy: map<nat, bool>,
    handed: seq<Job>)

  datatype End = Succeeded | TimedOut | Raised | Interrupted

  datatype Label =
    | SubmitFuture(job: Job)
    | SubmitSync(job: Job, key: Key)
    | SyncFails(job: Job, key: Key)
    | Abandon(job: Job)
    | ClientCancel(job: Job)
    | ReadPending(read: seq<Item>)
    | SkipTask
    | TakeTask
    | DropBatch
    | Begin(w: nat)
    | Dequeue(w: nat)
    | StartJob(w: nat)
    | Settle(w: nat, end: End)
    | RaiseCancelled(w: nat)
    | Finally(w: nat, exits: bool)
    | Start
    | StatusCheck
    | BeginStop
    | EndEnqueuer
    | KillWorker(w: nat)
    | EndStop

  // ------------------------------------------------------------------ helpers

  predicate Holds(w: Worker) {
    w.Starting? || w.Running? || w.Ending?
  }

  function HeldBy(s: State, w: nat): Worker {
    if w in s.workers then s.workers[w] else Off
  }

  function Ref(s: State, k: Key): int {
    if k in s.cache then s.cache[k] else 0
  }

  function Future(s: State, j: Job): Promise {
    if j in s.promises then s.promises[j] else Open
  }

  function SetStatus(tasks: map<Job, Task>, j: Job, st: Status): map<Job, Task> {
    if j in tasks then tasks[j := Task(st, tasks[j].key)] else tasks
  }

  function Cancel(promises: map<Job, Promise>, j: Job): map<Job, Promise> {
    if j in promises && promises[j] == Open then promises[j := Dropped] else promises
  }

  function RemoveFirst(l: seq<Job>, j: Job): (r: seq<Job>)
    ensures forall i :: i in l && i != j ==> i in r
    ensures forall i :: i in r ==> i in l
    ensures j in l ==> |r| == |l| - 1
  {
    if l == [] then [] else if l[0] == j then l[1..] else [l[0]] + RemoveFirst(l[1..], j)
  }

  function Drop(jobs: map<Key, seq<Job>>, k: Key, j: Job): map<Key, seq<Job>> {
    if k in jobs && j in jobs[k] then
      var l := RemoveFirst(jobs[k], j);
      if l == [] then jobs - {k} else jobs[k := l]
    else jobs
  }

  function Listed(s: State, k: Key): seq<Job> {
    if k in s.jobs then s.jobs[k] else []
  }

  function CountUp(s: State, k: Key): int {
    if k in s.cancels then s.cancels[k] + 1 else 1
  }

  function PendingItems(s: State): set<Item> {
    set j | j in s.tasks && s.tasks[j].status.Pending? :: Item(j, s.tasks[j].key)
  }

  predicate DistinctJobs(items: seq<Item>) {
    forall i, j :: 0 <= i < j < |items| ==> items[i].job != items[j].job
  }

  function Least(a: int, b: int): int {
    if a < b then a else b
  }

  function Jobs(items: seq<Item>): set<Job> {
    set i | i in items :: i.job
  }

  function Held(s: State): set<Job> {
    set w | w in s.workers && Holds(s.workers[w]) :: s.workers[w].item.job
  }

  // -------------------------------------------------------------------- steps

  /** Labels that run on the event loop. */
  predicate OnLoop(l: Label) {
    !(l.SubmitFuture? || l.SubmitSync? || l.SyncFails? || l.Abandon? || l.ClientCancel?)
  }

  predicate Enabled(c: Config, s: State, l: Label) {
    && (OnLoop(l) && !l.BeginStop? ==> !s.verdict)
    && match l
       case SubmitFuture(job) => job !in s.promises && job !in s.tasks
       case SubmitSync(job, _) => job in s.calls && !s.calls[job]
       case SyncFails(job, _) => job in s.calls && !s.calls[job]
       case Abandon(job) => job in s.calls && s.calls[job]
       case ClientCancel(job) => true
       case ReadPending(read) =>
         && s.enqueuing && s.batch == [] && |s.queue| < c.maxSize
         && DistinctJobs(read) && (forall i :: i in read ==> i in PendingItems(s))
         && |read| == Least(c.maxSize - |s.queue|, |PendingItems(s)|)
       case SkipTask => s.enqueuing && s.batch != []
       case TakeTask => s.enqueuing && s.batch != [] && (s.batch[0].job in s.local ==> |s.queue| < c.maxSize)
       case DropBatch => s.enqueuing && s.batch != []
       case Begin(w) => HeldBy(s, w).Fresh?
       case Dequeue(w) => HeldBy(s, w).Idle? && s.queue != []
       case StartJob(w) => HeldBy(s, w).Starting?
       case Settle(w, _) => HeldBy(s, w).Running?
       case RaiseCancelled(w) => HeldBy(s, w).Running?
       case Finally(w, _) => HeldBy(s, w).Ending?
       case Start => s.mode.Stopped?
       case StatusCheck => s.mode.Active?
       case BeginStop => s.mode.Active?
       case EndEnqueuer => s.mode.Stopping? && s.enqueuing
       case KillWorker(w) => s.mode.Stopping? && !HeldBy(s, w).Off? && !HeldBy(s, w).Ending?
       case EndStop => s.mode.Stopping? && !s.enqueuing && forall w :: w in s.workers ==> s.workers[w].Off?
  }

  /** The function's count and job list are updated before the row is inserted, so a
      submission that fails leaves them raised. */
  function Register(s: State, job: Job, key: Key, fails: bool): State {
    s.(calls := if fails then s.calls[job := true] else s.calls - {job},
       cache := s.cache[key := Ref(s, key) + 1],
       jobs := s.jobs[key := Listed(s, key) + [job]],
       tasks := if fails then s.tasks else s.tasks[job := Task(Pending, key)])
  }

  function Decrement(cache: map<Key, int>, k: Key): map<Key, int> {
    if k !in cache then cache
    else if cache[k] - 1 == 0 then cache - {k}
    else cache[k := cache[k] - 1]
  }

  /** The job leaves the scheduler: its future is forgotten and its function's count
      drops by one, deleting the function at zero. */
  function Retire(s: State, w: nat, exits: bool): State
    requires Holds(HeldBy(s, w))
  {
    var i := s.workers[w].item;
    s.(local := s.local - {i.job}, jobs := Drop(s.jobs, i.key, i.job), cache := Decrement(s.cache, i.key),
       busy := s.busy[w := false], workers := s.workers[w := if exits then Off else Idle])
  }

  /** The enqueuer takes the next row it read: queued when the job's future is known
      here, failed when it is not. */
  function Take(s: State): State
    requires s.batch != []
  {
    var i := s.batch[0];
    var known := i.job in s.local;
    s.(batch := s.batch[1..],
       queue := if known then s.queue + [i] else s.queue,
       tasks := SetStatus(s.tasks, i.job, if known then Enqueued else Failed))
  }

  /** A worker takes the head of the queue: a cancelled job is discarded, a job whose
      function is not cached fails, any other is held. */
  function Hand(s: State, w: nat): State
    requires s.queue != []
  {
    var i := s.queue[0];
    var dropped := Future(s, i.job).Dropped?;
    var found := i.key in s.cache;
    s.(queue := s.queue[1..], handed := s.handed + [i.job],
       local := if dropped then s.local - {i.job} else s.local,
       jobs := if dropped then Drop(s.jobs, i.key, i.job) else s.jobs,
       tasks := if dropped then SetStatus(s.tasks, i.job, Cancelled)
                else if found then s.tasks
                else SetStatus(s.tasks, i.job, Failed),
       promises := if dropped || found then s.promises else Resolve(s.promises, i.job),
       busy := if dropped then s.busy else s.busy[w := true],
       workers := if dropped || !found then s.workers else s.workers[w := Starting(i)])
  }

  /** Answering a future that has been cancelled or answered raises. */
  function Resolve(promises: map<Job, Promise>, j: Job): map<Job, Promise> {
    if j in promises && promises[j].Open? then promises[j := Settled] else promises
  }

  /** The future is answered before the row is written, so a cancelled future leaves
      the row in progress; so does a run that is interrupted. */
  function Answer(s: State, i: Item, end: End): State {
    s.(promises := if end.Interrupted? then s.promises else Resolve(s.promises, i.job),
       tasks := if end.Interrupted? || !Future(s, i.job).Open? then s.tasks
                else SetStatus(s.tasks, i.job, if end.Succeeded? then Completed else Failed))
  }

  /** The other jobs of the function that still have a local future. */
  function Siblings(s: State, i: Item): set<Job> {
    set j | j in Listed(s, i.key) && j in s.local && j != i.job
  }

  function CancelAll(promises: map<Job, Promise>, js: set<Job>): map<Job, Promise> {
    map j | j in promises :: if j in js && promises[j].Open? then Dropped else promises[j]
  }

  function MarkCancelled(tasks: map<Job, Task>, js: set<Job>): map<Job, Task> {
    map j | j in tasks :: if j in js then Task(Cancelled, tasks[j].key) else tasks[j]
  }

  /** The function raised CancelledError: at the threshold all its other jobs are
      cancelled and the count starts again. */
  function CancelledRun(c: Config, s: State, i: Item): State {
    var n := CountUp(s, i.key);
    var js := if n >= c.threshold then Siblings(s, i) else {};
    s.(cancels := s.cancels[i.key := if n >= c.threshold then 0 else n],
       promises := Resolve(CancelAll(s.promises, js), i.job),
       tasks := MarkCancelled(s.tasks, js + {i.job}))
  }

  predicate IsWorker(n: nat, w: nat) {
    w < n
  }

  function NewWorkers(n: nat): map<nat, Worker> {
    map w: nat | w < n && IsWorker(n, w) :: Fresh
  }

  predicate AllIdle(s: State) {
    forall w :: w in s.busy ==> !s.busy[w]
  }

  predicate NothingToDo(s: State) {
    && s.queue == [] && PendingItems(s) == {} && (AllIdle(s) || s.local == {})
  }

  function Do(c: Config, s: State, l: Label): State
    requires Enabled(c, s, l)
  {
    match l
    case SubmitFuture(job) =>
      s.(local := s.local + {job}, promises := s.promises[job := Open], calls := s.calls[job := false])
    case SubmitSync(job, key) => Register(s, job, key, false)
    case SyncFails(job, key) => Register(s, job, key, true)
    case Abandon(job) =>
      s.(local := s.local - {job}, calls := s.calls - {job},
         promises := if Future(s, job).Open? then s.promises[job := Settled] else s.promises)
    case ClientCancel(job) => s.(promises := Cancel(s.promises, job))
    case ReadPending(read) => s.(batch := read)
    case SkipTask => s.(batch := s.batch[1..])
    case TakeTask => Take(s)
    case DropBatch => s.(batch := [])
    case Begin(w) => s.(workers := s.workers[w := Idle], busy := s.busy[w := false])
    case Dequeue(w) => Hand(s, w)
    case StartJob(w) =>
      var i := s.workers[w].item;
      s.(workers := s.workers[w := Running(i)], tasks := SetStatus(s.tasks, i.job, InProgress))
    case Settle(w, end) =>
      var i := s.workers[w].item;
      Answer(s, i, end).(workers := s.workers[w := Ending(i)])
    case RaiseCancelled(w) =>
      var i := s.workers[w].item;
      CancelledRun(c, s, i).(workers := s.workers[w := Ending(i)])
    case Finally(w, exits) => Retire(s, w, exits)
    case Start =>
      s.(mode := Active, enqueuing := true, workers := NewWorkers(c.workers))
    case StatusCheck => s.(verdict := NothingToDo(s))
    case BeginStop => s.(mode := Stopping, verdict := false)
    case EndEnqueuer => s.(enqueuing := false, batch := [])
    case KillWorker(w) =>
      s.(workers := s.workers[w := if s.workers[w].Running? then Ending(s.workers[w].item) else Off])
    case EndStop => s.(mode := Stopped)
  }

  predicate Unfinished(st: Status) {
    st.Pending? || st.Enqueued? || st.InProgress?
  }

  /** A new process: stray rows have been marked failed, nothing is under way. */
  predicate Init(s: State) {
    && s.mode.Stopped? && !s.verdict && s.local == {} && s.promises == map[] && s.calls == map[]
    && s.cache == map[] && s.jobs == map[] && s.cancels == map[] && !s.enqueuing
    && s.batch == [] && s.queue == [] && s.workers == map[] && s.busy == map[] && s.handed == []
    && forall j :: j in s.tasks ==> !Unfinished(s.tasks[j].status)
  }

  ghost predicate IsRun(c: Config, ss: seq<State>, ls: seq<Label>) {
    && |ss| == |ls| + 1 && Init(ss[0])
    && forall i :: 0 <= i < |ls| ==> Enabled(c, ss[i], ls[i]) && ss[i + 1] == Do(c, ss[i], ls[i])
  }
}
