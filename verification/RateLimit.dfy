/** The start-rate limit shared by all workers. */
module RateLimit {
  import opened Outcomes

  /** Entering reads the clock under the lock; recording reads it again after any
      sleep; a worker stopped while it sleeps leaves without recording. */
  datatype Step = Enter(worker: nat, now: real) | Record(now: real) | GiveUp(now: real)

  datatype State = State(clock: real, last: real, inside: Option<(nat, real)>, starts: seq<real>)

  /** The interval is computed through starts per second; a negative limit makes it
      shorter than a tenth of a second, or negative. */
  function Gap(r: int): real
    requires r != 0
  {
    1.0 / (r as real / 60.0) + 0.1
  }

  /** When the section may be left: after the missing part of the interval, if any. */
  function WakesAt(r: int, last: real, now: real): real
    requires r != 0
  {
    var elapsed := now - last;
    if elapsed < Gap(r) then now + (Gap(r) - elapsed) else now
  }

  /** The clock does not go back, a sleep is not short, and one worker is inside at a time. */
  predicate Enabled(r: int, s: State, step: Step)
    requires r != 0
  {
    && s.clock <= step.now
    && match step
       case Enter(_, _) => s.inside.None?
       case Record(now) => s.inside.Some? && WakesAt(r, s.last, s.inside.value.1) <= now
       case GiveUp(_) => s.inside.Some?
  }

  function Do(s: State, step: Step): State {
    match step
    case Enter(w, now) => s.(clock := now, inside := Some((w, now)))
    case Record(now) => State(now, now, None, s.starts + [now])
    case GiveUp(now) => s.(clock := now, inside := None)
  }

  ghost predicate IsRun(r: int, ss: seq<State>, steps: seq<Step>)
    requires r != 0
  {
    && |ss| == |steps| + 1
    && ss[0].starts == [] && ss[0].inside.None?
    && forall i :: 0 <= i < |steps| ==> Enabled(r, ss[i], steps[i]) && ss[i + 1] == Do(ss[i], steps[i])
  }

  ghost predicate Spaced(gap: real, starts: seq<real>) {
    forall i {:trigger starts[i]} :: 0 <= i < |starts| - 1 ==> starts[i + 1] - starts[i] >= gap
  }

  /** `last` is the latest recorded start once there is one. */
  ghost predicate Inv(r: int, s: State)
    requires r != 0
  {
    Spaced(Gap(r), s.starts) && (s.starts != [] ==> s.last == s.starts[|s.starts| - 1])
  }

  lemma StepKeeps(r: int, s: State, step: Step)
    requires r != 0 && Inv(r, s) && Enabled(r, s, step)
    ensures Inv(r, Do(s, step))
  {
    if step.Record? && s.starts != [] {
      assert step.now - s.last >= Gap(r);
    }
  }

  /** The recorded starts of any run are spaced, whichever workers recorded them. */
  lemma {:induction false} StartsSpaced(r: int, ss: seq<State>, steps: seq<Step>, n: nat)
    requires r != 0 && IsRun(r, ss, steps) && n < |ss|
    ensures Inv(r, ss[n])
    decreases n
  {
    if n > 0 {
      StartsSpaced(r, ss, steps, n - 1);
      StepKeeps(r, ss[n - 1], steps[n - 1]);
    }
  }

  /** n intervals. */
  function Sum(n: nat, gap: real): real {
    if n == 0 then 0.0 else Sum(n - 1, gap) + gap
  }

  lemma {:induction false} SumIs(n: nat, gap: real)
    ensures Sum(n, gap) == n as real * gap
    decreases n
  {
    if n > 0 {
      SumIs(n - 1, gap);
      assert n as real == (n - 1) as real + 1.0;
    }
  }

  lemma {:induction false} Spread(gap: real, starts: seq<real>, i: nat, j: nat)
    requires Spaced(gap, starts) && i <= j < |starts| && gap > 0.0
    ensures starts[j] - starts[i] >= Sum(j - i, gap) >= 0.0
    decreases j
  {
    if i < j {
      Spread(gap, starts, i, j - 1);
      assert starts[j - 1 + 1] - starts[j - 1] >= gap;
    }
  }

  lemma Spill(x: real, y: real, z: real)
    requires x > 0.0 && x * y == 60.0 && z == y + 0.1
    ensures x * z > 60.0
  {
    var tenth := x / 10.0;
    assert x * (y + 0.1) == x * y + tenth;
    assert x * z == 60.0 + tenth;
  }

  /** The interval is 60/r + 0.1, so r intervals take more than a minute. */
  lemma GapValue(r: int)
    requires r > 0
    ensures Gap(r) == 60.0 / r as real + 0.1 && Gap(r) > 0.0 && Sum(r, Gap(r)) > 60.0
  {
    var x := r as real;
    Spill(x, 60.0 / x, Gap(r));
    SumIs(r, Gap(r));
  }

  /** The section is left at the later of now and the last start plus 60/r + 0.1 seconds. */
  lemma WakesLater(r: int, last: real, now: real)
    requires r > 0
    ensures var next := last + 60.0 / r as real + 0.1; WakesAt(r, last, now) == if now < next then next else now
  {
    GapValue(r);
    hide Gap;
  }

  function InWindow(starts: seq<real>, t: real): set<nat> {
    set k: nat | k < |starts| && t <= starts[k] <= t + 60.0
  }

  function Interval(lo: nat, hi: nat): (s: set<nat>)
    requires lo <= hi
    ensures |s| == hi - lo
    ensures forall k: nat :: k in s <==> lo <= k < hi
    decreases hi
  {
    if lo == hi then {} else Interval(lo, hi - 1) + {hi - 1}
  }

  lemma {:induction false} Earliest(starts: seq<real>, t: real, k: nat) returns (i: nat)
    requires k in InWindow(starts, t)
    ensures i in InWindow(starts, t) && forall j :: j in InWindow(starts, t) ==> i <= j
    decreases k
  {
    if j :| j in InWindow(starts, t) && j < k {
      i := Earliest(starts, t, j);
    } else {
      i := k;
    }
  }

  /** Any sixty seconds hold at most r recorded starts. */
  lemma WindowBound(r: int, ss: seq<State>, steps: seq<Step>, n: nat, t: real)
    requires r > 0 && IsRun(r, ss, steps) && n < |ss|
    ensures |InWindow(ss[n].starts, t)| <= r
  {
    var starts := ss[n].starts;
    StartsSpaced(r, ss, steps, n);
    if k :| k in InWindow(starts, t) {
      var i := Earliest(starts, t, k);
      var all := Interval(i, i + r);
      forall j | j in InWindow(starts, t) ensures j < i + r {
        if j >= i + r {
          MinutePassed(r, starts, i, j);
        }
      }
      assert all == InWindow(starts, t) + (all - InWindow(starts, t));
    }
  }

  lemma MinutePassed(r: int, starts: seq<real>, i: nat, j: nat)
    requires r > 0 && Spaced(Gap(r), starts) && i + r <= j < |starts|
    ensures starts[j] - starts[i] > 60.0
  {
    GapValue(r);
    hide Gap;
    Spread(Gap(r), starts, i, i + r);
    Spread(Gap(r), starts, i + r, j);
  }

  /** No limit, or zero: nothing is waited for. */
  predicate Limited(perMinute: Option<int>) {
    perMinute.Some? && perMinute.value != 0
  }

  class RateGate {
    const perMinute: Option<int>
    var last: real
    ghost var starts: seq<real>

    constructor (perMinute: Option<int>)
      ensures this.perMinute == perMinute && last == 0.0 && starts == []
    {
      this.perMinute, last, starts := perMinute, 0.0, [];
    }

    /** The delay to sleep, computed under the lock. */
    method Delay(now: real) returns (delay: real)
      ensures Limited(perMinute) ==> now + delay == WakesAt(perMinute.value, last, now)
      ensures perMinute.None? || perMinute.value == 0 ==> delay == 0.0
      ensures delay >= 0.0
    {
      delay := 0.0;
      if perMinute.Some? && perMinute.value != 0 {
        var minInterval := 1.0 / (perMinute.value as real / 60.0) + 0.1;
        var elapsed := now - last;
        if elapsed < minInterval {
          delay := minInterval - elapsed;
        }
      }
    }

    method Record(now: real)
      modifies this
      ensures last == (if Limited(perMinute) then now else old(last))
      ensures starts == (if Limited(perMinute) then old(starts) + [now] else old(starts))
    {
      if perMinute.Some? && perMinute.value != 0 {
        last := now;
        starts := starts + [now];
      }
    }
  }
}
