/** The reference-counted daemon and its two locks, for any number of tasks that each
    enter and leave once. */
module Daemon {
  import opened Outcomes

  /** Where a task is: before entering; waiting for the termination lock; waiting for
      the lock; holding the lock while it kills old daemons, spawns, or probes the new
      one; inside; waiting for the lock to leave; holding it while it waits for the
      termination lock; holding both; or finished.  A lost task was cancelled before
      its exit could lower the count. */
  datatype Pc =
    | Outside | WaitTerm | WaitLock | Killing | Spawning | Probing
    | Inside | WaitExit | WaitStop | Terminating | Done | Failed | Lost

  datatype State = State(
    pcs: seq<Pc>, count: int, process: Option<nat>, alive: set<nat>, next: nat,
    lock: Option<nat>, term: Option<nat>, failures: nat)

  datatype Label =
    | Arrive(t: nat) | PassTerm(t: nat) | Lock(t: nat) | Killed(t: nat) | Spawned(t: nat) | Ready(t: nat)
    | Leave(t: nat) | ExitLock(t: nat) | TakeTerm(t: nat) | Terminated(t: nat)
    | Fail(t: nat, dead: set<nat>)

  predicate Enabled(s: State, l: Label) {
    && l.t < |s.pcs|
    && match l
       case Arrive(t) => s.pcs[t].Outside?
       case PassTerm(t) => s.pcs[t].WaitTerm? && s.term.None?
       case Lock(t) => s.pcs[t].WaitLock? && s.lock.None?
       case Killed(t) => s.pcs[t].Killing?
       case Spawned(t) => s.pcs[t].Spawning?
       case Ready(t) => s.pcs[t].Probing?
       case Leave(t) => s.pcs[t].Inside?
       case ExitLock(t) => s.pcs[t].WaitExit? && s.lock.None?
       case TakeTerm(t) => s.pcs[t].WaitStop? && s.term.None?
       case Terminated(t) => s.pcs[t].Terminating?
       case Fail(t, dead) =>
         && !(s.pcs[t] in {Outside, Inside, Done, Failed, Lost})
         && (dead != {} ==> s.pcs[t].Killing? || s.pcs[t].Terminating?)
  }

  /** A failure or a cancellation: locks held are released, the count and the process
      handle stay. */
  function Broken(s: State, t: nat, dead: set<nat>): State
    requires t < |s.pcs|
  {
    var holds := s.pcs[t] in {Killing, Spawning, Probing, WaitStop, Terminating};
    s.(pcs := s.pcs[t := if s.pcs[t].WaitExit? then Lost else Failed], failures := s.failures + 1,
       alive := s.alive - dead,
       lock := if holds then None else s.lock, term := if s.pcs[t].Terminating? then None else s.term)
  }

  function Do(present: bool, s: State, l: Label): State
    requires Enabled(s, l)
  {
    match l
    case Arrive(t) => s.(pcs := s.pcs[t := WaitTerm])
    case PassTerm(t) => s.(pcs := s.pcs[t := WaitLock])
    case Lock(t) =>
      if s.count != 0 then s.(pcs := s.pcs[t := Inside], count := s.count + 1)
      else if !present then s.(pcs := s.pcs[t := Failed], failures := s.failures + 1)
      else s.(pcs := s.pcs[t := Killing], lock := Some(t))
    case Killed(t) => s.(pcs := s.pcs[t := Spawning], alive := {})
    case Spawned(t) =>
      s.(pcs := s.pcs[t := Probing], process := Some(s.next), alive := s.alive + {s.next}, next := s.next + 1)
    case Ready(t) => s.(pcs := s.pcs[t := Inside], count := s.count + 1, lock := None)
    case Leave(t) => s.(pcs := s.pcs[t := WaitExit])
    case ExitLock(t) =>
      if s.count - 1 == 0 then s.(pcs := s.pcs[t := WaitStop], count := s.count - 1, lock := Some(t))
      else s.(pcs := s.pcs[t := Done], count := s.count - 1)
    case TakeTerm(t) => s.(pcs := s.pcs[t := Terminating], term := Some(t))
    case Terminated(t) =>
      s.(pcs := s.pcs[t := Done], process := None, lock := None, term := None,
         alive := if s.process.Some? then s.alive - {s.process.value} else s.alive)
    case Fail(t, dead) => Broken(s, t, dead)
  }

  predicate Init(s: State) {
    && (forall t :: 0 <= t < |s.pcs| ==> s.pcs[t].Outside?)
    && s.count == 0 && s.process.None? && s.alive == {} && s.lock.None? && s.term.None? && s.failures == 0
  }

  ghost predicate IsRun(present: bool, ss: seq<State>, ls: seq<Label>) {
    && |ss| == |ls| + 1 && Init(ss[0])
    && forall i :: 0 <= i < |ls| ==> Enabled(ss[i], ls[i]) && ss[i + 1] == Do(present, ss[i], ls[i])
  }

  // ------------------------------------------------------------------ what every state keeps

  /** The contexts that have been entered and not yet left. */
  predicate Counts(pc: Pc) {
    pc.Inside? || pc.WaitExit? || pc.Lost?
  }

  function Entered(pcs: seq<Pc>): nat {
    if pcs == [] then 0 else Entered(pcs[..|pcs| - 1]) + (if Counts(pcs[|pcs| - 1]) then 1 else 0)
  }

  predicate HoldsLock(pc: Pc) {
    pc.Killing? || pc.Spawning? || pc.Probing? || pc.WaitStop? || pc.Terminating?
  }

  predicate Locks(s: State) {
    && (forall t :: 0 <= t < |s.pcs| ==> (s.lock == Some(t) <==> HoldsLock(s.pcs[t])))
    && (forall t :: 0 <= t < |s.pcs| ==> (s.term == Some(t) <==> s.pcs[t].Terminating?))
    && (s.lock.Some? ==> s.lock.value < |s.pcs|) && (s.term.Some? ==> s.term.value < |s.pcs|)
  }

  predicate Running(s: State) {
    s.process.Some? && s.process.value in s.alive
  }

  /** While the lock is held for starting or stopping, the count is zero; while the
      count is positive, the process is there. */
  predicate Processes(s: State) {
    && (s.lock.Some? ==> s.count == 0)
    && (s.count > 0 ==> Running(s))
    && (forall t :: 0 <= t < |s.pcs| && s.pcs[t] in {Probing, WaitStop, Terminating} ==> Running(s))
    && (forall t :: 0 <= t < |s.pcs| && s.pcs[t].Spawning? ==> s.alive == {})
    && (forall p :: p in s.alive ==> s.process == Some(p))
    && (s.failures == 0 && s.count == 0 && s.lock.None? ==> s.process.None?)
    && (s.failures == 0 ==> forall t :: 0 <= t < |s.pcs| && s.pcs[t] in {Killing, Spawning} ==> s.process.None?)
    && (forall t :: 0 <= t < |s.pcs| && s.pcs[t].Lost? ==> s.failures > 0)
  }

  predicate Inv(s: State) {
    s.count == Entered(s.pcs) && Locks(s) && Processes(s)
  }

  lemma {:induction false} EnteredAfter(pcs: seq<Pc>, t: nat, pc: Pc)
    requires t < |pcs|
    ensures Entered(pcs[t := pc]) == Entered(pcs) + (if Counts(pc) then 1 else 0) - (if Counts(pcs[t]) then 1 else 0)
    decreases |pcs|
  {
    var n := |pcs| - 1;
    if t == n {
      assert pcs[t := pc][..n] == pcs[..n];
    } else {
      assert pcs[t := pc][..n] == pcs[..n][t := pc];
      EnteredAfter(pcs[..n], t, pc);
    }
  }

  lemma {:induction false} EnteredOne(pcs: seq<Pc>, t: nat)
    requires t < |pcs| && Counts(pcs[t])
    ensures Entered(pcs) > 0
    decreases |pcs|
  {
    if t < |pcs| - 1 {
      EnteredOne(pcs[..|pcs| - 1], t);
    }
  }

  lemma StepKeeps(present: bool, s: State, l: Label)
    requires Inv(s) && Enabled(s, l)
    ensures Inv(Do(present, s, l))
  {
    var s' := Do(present, s, l);
    EnteredAfter(s.pcs, l.t, s'.pcs[l.t]);
    if Counts(s.pcs[l.t]) {
      EnteredOne(s.pcs, l.t);
    }
    hide Entered;
    LocksKept(present, s, l);
    ProcessesKept(present, s, l);
  }

  lemma LocksKept(present: bool, s: State, l: Label)
    requires Locks(s) && Enabled(s, l)
    ensures Locks(Do(present, s, l))
  {
    LocksMove(present, s, l);
    hide Do, Enabled;
    LocksFollow(s, Do(present, s, l), l.t);
  }

  lemma LocksMove(present: bool, s: State, l: Label)
    requires Locks(s) && Enabled(s, l)
    ensures var s' := Do(present, s, l);
            && s'.pcs == s.pcs[l.t := s'.pcs[l.t]]
            && (s'.lock == Some(l.t) <==> HoldsLock(s'.pcs[l.t])) && HandedOver(s.lock, s'.lock, l.t)
            && (s'.term == Some(l.t) <==> s'.pcs[l.t].Terminating?) && HandedOver(s.term, s'.term, l.t)
  {
  }

  lemma LocksFollow(s: State, s': State, t: nat)
    requires Locks(s) && t < |s.pcs| == |s'.pcs| && s'.pcs == s.pcs[t := s'.pcs[t]]
    requires (s'.lock == Some(t) <==> HoldsLock(s'.pcs[t])) && HandedOver(s.lock, s'.lock, t)
    requires (s'.term == Some(t) <==> s'.pcs[t].Terminating?) && HandedOver(s.term, s'.term, t)
    ensures Locks(s')
  {
  }

  /** Only the task itself takes or gives back a lock. */
  predicate HandedOver(before: Option<nat>, after: Option<nat>, t: nat) {
    before == after || (before.None? && after == Some(t)) || (before == Some(t) && after.None?)
  }

  lemma ProcessesKept(present: bool, s: State, l: Label)
    requires Inv(s) && Enabled(s, l)
    requires Counts(s.pcs[l.t]) ==> s.count > 0
    ensures Processes(Do(present, s, l))
  {
    hide Entered;
  }

  lemma {:induction false} Reachable(present: bool, ss: seq<State>, ls: seq<Label>, n: nat)
    requires IsRun(present, ss, ls) && n < |ss|
    ensures Inv(ss[n])
    decreases n
  {
    if n == 0 {
      NoneCounts(ss[0].pcs);
    } else {
      Reachable(present, ss, ls, n - 1);
      StepKeeps(present, ss[n - 1], ls[n - 1]);
    }
  }

  lemma {:induction false} NoneCounts(pcs: seq<Pc>)
    ensures Entered(pcs) == 0 <==> forall t :: 0 <= t < |pcs| ==> !Counts(pcs[t])
    decreases |pcs|
  {
    if pcs != [] {
      var n := |pcs| - 1;
      NoneCounts(pcs[..n]);
      assert forall t :: 0 <= t < n ==> pcs[..n][t] == pcs[t];
    }
  }

  // ------------------------------------------------------------------ results

  /** The count is the number of contexts entered and not left, and while it is
      positive there is a live process. */
  lemma CountIsEntered(present: bool, ss: seq<State>, ls: seq<Label>, n: nat)
    requires IsRun(present, ss, ls) && n < |ss|
    ensures ss[n].count == Entered(ss[n].pcs)
    ensures ss[n].count > 0 ==> Running(ss[n])
  {
    Reachable(present, ss, ls, n);
  }

  /** At most one daemon is alive, and it is the one whose handle is held. */
  lemma OneDaemon(present: bool, ss: seq<State>, ls: seq<Label>, n: nat)
    requires IsRun(present, ss, ls) && n < |ss|
    ensures ss[n].alive == {} || (ss[n].process.Some? && ss[n].alive == {ss[n].process.value})
  {
    Reachable(present, ss, ls, n);
  }

  /** Old daemons are killed, a daemon is spawned and one is stopped only at count zero,
      by the task that holds the lock; no other task is then inside. */
  lemma StartStopAtZero(present: bool, ss: seq<State>, ls: seq<Label>, n: nat)
    requires IsRun(present, ss, ls) && n < |ls|
    requires ls[n].Killed? || ls[n].Spawned? || ls[n].TakeTerm? || ls[n].Terminated?
    ensures ss[n].count == 0 && ss[n].lock == Some(ls[n].t)
    ensures forall u :: 0 <= u < |ss[n].pcs| ==> !Counts(ss[n].pcs[u])
    ensures ls[n].Terminated? ==> Running(ss[n]) && ss[n].term == Some(ls[n].t)
  {
    Reachable(present, ss, ls, n);
    assert Enabled(ss[n], ls[n]);
    forall u | 0 <= u < |ss[n].pcs| ensures !Counts(ss[n].pcs[u]) {
      if Counts(ss[n].pcs[u]) {
        EnteredOne(ss[n].pcs, u);
      }
    }
  }

  /** Without the program no daemon ever runs and no context is ever entered. */
  lemma {:induction false} NoneWithout(ss: seq<State>, ls: seq<Label>, n: nat)
    requires IsRun(false, ss, ls) && n < |ss|
    ensures ss[n].count == 0 && ss[n].alive == {} && ss[n].process.None?
    ensures forall t :: 0 <= t < |ss[n].pcs| ==> ss[n].pcs[t] in {Outside, WaitTerm, WaitLock, Failed}
    decreases n
  {
    if n > 0 {
      NoneWithout(ss, ls, n - 1);
      assert Enabled(ss[n - 1], ls[n - 1]) && ss[n] == Do(false, ss[n - 1], ls[n - 1]);
      hide IsRun;
    }
  }

  predicate Finished(pc: Pc) {
    pc.Done? || pc.Failed? || pc.Lost?
  }

  /** Some task can always go on without failing: the two locks cannot deadlock. */
  lemma NoDeadlock(present: bool, ss: seq<State>, ls: seq<Label>, n: nat, t: nat) returns (l: Label)
    requires IsRun(present, ss, ls) && n < |ss| && t < |ss[n].pcs| && !Finished(ss[n].pcs[t])
    ensures Enabled(ss[n], l) && !l.Fail?
  {
    var s := ss[n];
    Reachable(present, ss, ls, n);
    var u := if s.lock.Some? then s.lock.value else t;
    assert s.term.Some? ==> HoldsLock(s.pcs[s.term.value]) && s.term.value == u;
    match s.pcs[u]
    case Outside => l := Arrive(u);
    case WaitTerm => l := PassTerm(u);
    case WaitLock => l := Lock(u);
    case Killing => l := Killed(u);
    case Spawning => l := Spawned(u);
    case Probing => l := Ready(u);
    case Inside => l := Leave(u);
    case WaitExit => l := ExitLock(u);
    case WaitStop => l := TakeTerm(u);
    case Terminating => l := Terminated(u);
  }

  function Left(pc: Pc): nat {
    match pc
    case Outside => 10
    case WaitTerm => 9
    case WaitLock => 8
    case Killing => 7
    case Spawning => 6
    case Probing => 5
    case Inside => 4
    case WaitExit => 3
    case WaitStop => 2
    case Terminating => 1
    case _ => 0
  }

  /** Steps all tasks together can still take. */
  function StepsLeft(pcs: seq<Pc>): nat {
    if pcs == [] then 0 else StepsLeft(pcs[..|pcs| - 1]) + Left(pcs[|pcs| - 1])
  }

  lemma {:induction false} StepsLeftAfter(pcs: seq<Pc>, t: nat, pc: Pc)
    requires t < |pcs|
    ensures StepsLeft(pcs[t := pc]) == StepsLeft(pcs) + Left(pc) - Left(pcs[t])
    decreases |pcs|
  {
    var n := |pcs| - 1;
    if t == n {
      assert pcs[t := pc][..n] == pcs[..n];
    } else {
      assert pcs[t := pc][..n] == pcs[..n][t := pc];
      StepsLeftAfter(pcs[..n], t, pc);
    }
  }

  lemma {:induction false} AllOutside(pcs: seq<Pc>)
    requires forall t :: 0 <= t < |pcs| ==> pcs[t].Outside?
    ensures StepsLeft(pcs) == 10 * |pcs|
    decreases |pcs|
  {
    if pcs != [] {
      AllOutside(pcs[..|pcs| - 1]);
    }
  }

  lemma StepsGo(present: bool, s: State, l: Label)
    requires Enabled(s, l)
    ensures StepsLeft(Do(present, s, l).pcs) < StepsLeft(s.pcs) && |Do(present, s, l).pcs| == |s.pcs|
  {
    var s' := Do(present, s, l);
    StepsLeftAfter(s.pcs, l.t, s'.pcs[l.t]);
    hide StepsLeft;
  }

  /** Every run with n tasks ends within ten steps per task. */
  lemma {:induction false} RunsEnd(present: bool, ss: seq<State>, ls: seq<Label>, k: nat)
    requires IsRun(present, ss, ls) && k < |ss|
    ensures |ss[k].pcs| == |ss[0].pcs| && k + StepsLeft(ss[k].pcs) <= 10 * |ss[0].pcs|
    decreases k
  {
    if k == 0 {
      AllOutside(ss[0].pcs);
    } else {
      RunsEnd(present, ss, ls, k - 1);
      StepsGo(present, ss[k - 1], ls[k - 1]);
    }
  }

  /** When all tasks are finished and none failed, the count is zero and no daemon is
      left; a daemon is left only after some failure. */
  lemma CleanEnd(present: bool, ss: seq<State>, ls: seq<Label>, n: nat)
    requires IsRun(present, ss, ls) && n < |ss|
    requires forall t :: 0 <= t < |ss[n].pcs| ==> Finished(ss[n].pcs[t])
    ensures ss[n].lock.None? && ss[n].term.None?
    ensures ss[n].failures == 0 ==> ss[n].count == 0 && ss[n].process.None? && ss[n].alive == {}
  {
    Reachable(present, ss, ls, n);
    if ss[n].failures == 0 {
      NoneCounts(ss[n].pcs);
    }
  }

  lemma {:induction false} LostStays(present: bool, ss: seq<State>, ls: seq<Label>, a: nat, b: nat, t: nat)
    requires IsRun(present, ss, ls) && a <= b < |ss| && t < |ss[a].pcs| && ss[a].pcs[t].Lost?
    ensures t < |ss[b].pcs| && ss[b].pcs[t].Lost?
    decreases b
  {
    if a < b {
      LostStays(present, ss, ls, a, b - 1, t);
      assert Enabled(ss[b - 1], ls[b - 1]);
    }
  }

  /** A task cancelled while it waits to leave never lowers the count: from then on the
      count is positive and the daemon runs, however many tasks finish. */
  lemma LostContextKeepsDaemon(present: bool, ss: seq<State>, ls: seq<Label>, a: nat, b: nat, t: nat)
    requires IsRun(present, ss, ls) && a < b < |ss| && ls[a].Fail? && ls[a].t == t
    requires t < |ss[a].pcs| && ss[a].pcs[t].WaitExit?
    ensures ss[b].count > 0 && Running(ss[b])
  {
    assert Enabled(ss[a], ls[a]) && ss[a + 1] == Do(present, ss[a], ls[a]);
    LostStays(present, ss, ls, a + 1, b, t);
    Reachable(present, ss, ls, b);
    EnteredOne(ss[b].pcs, t);
  }

  lemma Enters() returns (ss: seq<State>)
    ensures |ss| == 5 && Init(ss[0]) && ss[4] == State([Spawning], 0, None, {}, 0, Some(0), None, 0)
    ensures Enabled(ss[0], Arrive(0)) && ss[1] == Do(true, ss[0], Arrive(0))
    ensures Enabled(ss[1], PassTerm(0)) && ss[2] == Do(true, ss[1], PassTerm(0))
    ensures Enabled(ss[2], Lock(0)) && ss[3] == Do(true, ss[2], Lock(0))
    ensures Enabled(ss[3], Killed(0)) && ss[4] == Do(true, ss[3], Killed(0))
  {
    var s := State([Outside], 0, None, {}, 0, None, None, 0);
    var held := s.(pcs := [Killing], lock := Some(0));
    ss := [s, s.(pcs := [WaitTerm]), s.(pcs := [WaitLock]), held, held.(pcs := [Spawning])];
  }

  lemma GetsLost(s: State) returns (ss: seq<State>)
    requires s == State([Spawning], 0, None, {}, 0, Some(0), None, 0)
    ensures |ss| == 5 && ss[0] == s && ss[3].pcs == [WaitExit]
    ensures ss[4] == State([Lost], 1, Some(0), {0}, 1, None, None, 1)
    ensures Enabled(ss[0], Spawned(0)) && ss[1] == Do(true, ss[0], Spawned(0))
    ensures Enabled(ss[1], Ready(0)) && ss[2] == Do(true, ss[1], Ready(0))
    ensures Enabled(ss[2], Leave(0)) && ss[3] == Do(true, ss[2], Leave(0))
    ensures Enabled(ss[3], Fail(0, {})) && ss[4] == Do(true, ss[3], Fail(0, {}))
  {
    var inside := State([Inside], 1, Some(0), {0}, 1, None, None, 0);
    ss := [s, State([Probing], 0, Some(0), {0}, 1, Some(0), None, 0), inside,
           inside.(pcs := [WaitExit]), inside.(pcs := [Lost], failures := 1)];
    assert inside.alive - {} == inside.alive;
  }

  /** A run in which this happens, with a single task: it enters, is cancelled while it
      waits to leave, and when it has finished the count is one and the daemon runs. */
  lemma LostRun() returns (ss: seq<State>, ls: seq<Label>)
    ensures IsRun(true, ss, ls) && |ls| == 8 && ls[7] == Fail(0, {}) && ss[7].pcs == [WaitExit]
    ensures ss[8].pcs == [Lost] && Finished(ss[8].pcs[0]) && ss[8].count == 1 && Running(ss[8])
  {
    hide Enabled, Do, Init;
    var front := Enters();
    var back := GetsLost(front[4]);
    ls := [Arrive(0), PassTerm(0), Lock(0), Killed(0), Spawned(0), Ready(0), Leave(0), Fail(0, {})];
    ss := front[..4] + back;
  }

  /** A task was cancelled while it waited to leave. */
  ghost predicate CancelledLeaving(ss: seq<State>, ls: seq<Label>, i: nat)
    requires i < |ls| < |ss|
  {
    ls[i].Fail? && ls[i].t < |ss[i].pcs| && ss[i].pcs[ls[i].t].WaitExit?
  }

  lemma {:induction false} LostFrom(present: bool, ss: seq<State>, ls: seq<Label>, n: nat, t: nat) returns (i: nat)
    requires IsRun(present, ss, ls) && n < |ss| && t < |ss[n].pcs| && ss[n].pcs[t].Lost?
    ensures i < n && CancelledLeaving(ss, ls, i)
    decreases n
  {
    assert n > 0;
    i := n - 1;
    assert Enabled(ss[i], ls[i]) && ss[n] == Do(present, ss[i], ls[i]);
    if ss[i].pcs[t].Lost? {
      i := LostFrom(present, ss, ls, n - 1, t);
    }
  }

  /** When all tasks are finished, the count is back to zero exactly when no task is
      lost, that is, when none was cancelled while it waited to leave. */
  lemma EndsAtZeroIff(present: bool, ss: seq<State>, ls: seq<Label>, n: nat)
    requires IsRun(present, ss, ls) && n < |ss|
    requires forall t :: 0 <= t < |ss[n].pcs| ==> Finished(ss[n].pcs[t])
    ensures ss[n].count == 0 <==> forall t :: 0 <= t < |ss[n].pcs| ==> !ss[n].pcs[t].Lost?
    ensures ss[n].count == 0 <==> forall i :: 0 <= i < n ==> !CancelledLeaving(ss, ls, i)
  {
    Reachable(present, ss, ls, n);
    NoneCounts(ss[n].pcs);
    hide Processes, Locks, IsRun;
    if t :| 0 <= t < |ss[n].pcs| && ss[n].pcs[t].Lost? {
      var i := LostFrom(present, ss, ls, n, t);
    }
    if i :| 0 <= i < n && CancelledLeaving(ss, ls, i) {
      LeftLost(present, ss, ls, i, n);
    }
  }

  lemma LeftLost(present: bool, ss: seq<State>, ls: seq<Label>, i: nat, n: nat)
    requires IsRun(present, ss, ls) && i < n < |ss| && CancelledLeaving(ss, ls, i)
    ensures ls[i].t < |ss[n].pcs| && ss[n].pcs[ls[i].t].Lost?
  {
    assert Enabled(ss[i], ls[i]) && ss[i + 1] == Do(present, ss[i], ls[i]);
    LostStays(present, ss, ls, i + 1, n, ls[i].t);
  }
}
