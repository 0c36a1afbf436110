/** The transmission daemon manager as the object it is: each method runs from one
    await of `__aenter__` or `__aexit__` to the next. */
module DaemonManager {
  import opened Outcomes
  import opened Daemon

  class GlobalTransmissionDaemonManager {
    const transmissionPresent: bool
    var refCount: int
    var process: Option<nat>
    var lock: Option<nat>
    var terminationLock: Option<nat>
    ghost var pcs: seq<Pc>
    ghost var alive: set<nat>
    ghost var next: nat
    ghost var failures: nat

    ghost function Snapshot(): State
      reads this
    {
      State(pcs, refCount, process, alive, next, lock, terminationLock, failures)
    }

    constructor (present: bool, tasks: nat)
      ensures Init(Snapshot()) && |pcs| == tasks && transmissionPresent == present
    {
      transmissionPresent := present;
      refCount, process, lock, terminationLock := 0, None, None, None;
      pcs, alive, next, failures := seq(tasks, _ => Outside), {}, 0, 0;
    }

    /** Entering under the lock: the first context starts the daemon, later ones only
        count.  False when the command is not available. */
    method EnterLocked(t: nat) returns (ok: bool)
      requires Enabled(Snapshot(), Lock(t))
      modifies this
      ensures Snapshot() == Do(transmissionPresent, old(Snapshot()), Lock(t))
      ensures ok <==> transmissionPresent || old(refCount) != 0
    {
      ok := true;
      if refCount == 0 {
        if !transmissionPresent {
          pcs, failures := pcs[t := Failed], failures + 1;
          return false;
        }
        lock := Some(t);
        pcs := pcs[t := Killing];
      } else {
        refCount := refCount + 1;
        pcs := pcs[t := Inside];
      }
    }

    /** The new process answers: the context is entered and the lock released. */
    method Started(t: nat)
      requires Enabled(Snapshot(), Ready(t))
      modifies this
      ensures Snapshot() == Do(transmissionPresent, old(Snapshot()), Ready(t))
    {
      refCount := refCount + 1;
      lock := None;
      pcs := pcs[t := Inside];
    }

    method Spawn(t: nat, handle: nat)
      requires Enabled(Snapshot(), Spawned(t)) && handle == next
      modifies this
      ensures Snapshot() == Do(transmissionPresent, old(Snapshot()), Spawned(t))
    {
      process := Some(handle);
      pcs, alive, next := pcs[t := Probing], alive + {next}, next + 1;
    }

    /** Leaving under the lock: the last context keeps it to stop the daemon. */
    method ExitLocked(t: nat) returns (last: bool)
      requires Enabled(Snapshot(), ExitLock(t))
      modifies this
      ensures Snapshot() == Do(transmissionPresent, old(Snapshot()), ExitLock(t))
      ensures last <==> refCount == 0
    {
      refCount := refCount - 1;
      last := refCount == 0;
      if last {
        lock := Some(t);
        pcs := pcs[t := WaitStop];
      } else {
        pcs := pcs[t := Done];
      }
    }

    /** Stopping reads the handle: it is there in every state that keeps the invariant. */
    method Terminate(t: nat) returns (stopped: nat)
      requires Inv(Snapshot()) && Enabled(Snapshot(), Terminated(t))
      modifies this
      ensures Snapshot() == Do(transmissionPresent, old(Snapshot()), Terminated(t))
      ensures old(process) == Some(stopped) && stopped in old(alive) && alive == {}
    {
      assert Running(Snapshot());
      stopped := process.value;
      alive := alive - {stopped};
      process, terminationLock, lock := None, None, None;
      pcs := pcs[t := Done];
    }
  }
}
