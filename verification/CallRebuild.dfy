/** Splitting a call into cached and stored arguments, and putting it together again. */
module CallRebuild {
  import opened Outcomes

  type Args<V> = seq<Option<V>>

  /** A slot that holds nothing and a cached null look the same. */
  function Padded<V>(c: Args<V>, n: nat): (r: Args<V>)
    requires |c| <= n
    ensures |r| == n && forall i :: 0 <= i < n ==> r[i] == if i < |c| then c[i] else None
  {
    c + seq(n - |c|, _ => None)
  }

  function Put<V>(c: Args<V>, i: nat, v: Option<V>): Args<V> {
    (if |c| <= i then Padded(c, i + 1) else c)[i := v]
  }

  /** What a submission caches: the arguments at the spec's positions that exist. */
  function Remembered<V>(c: Args<V>, spec: seq<nat>, args: Args<V>): Args<V> {
    if spec == [] then c
    else
      var front := Remembered(c, spec[..|spec| - 1], args);
      var i := spec[|spec| - 1];
      if i < |args| then Put(front, i, args[i]) else front
  }

  /** What is stored with the job: the first m arguments outside the spec. */
  function Kept<V>(spec: seq<nat>, args: Args<V>, m: nat): Args<V>
    requires m <= |args|
  {
    if m == 0 then [] else Kept(spec, args, m - 1) + (if m - 1 in spec then [] else [args[m - 1]])
  }

  datatype Partial<V> = Partial(full: Args<V>, used: nat)

  /** The first n rounds of the rebuilding loop. */
  function Rebuilding<V>(c: Args<V>, stored: Args<V>, n: nat): Partial<V> {
    if n == 0 then Partial([], 0)
    else
      var p := Rebuilding(c, stored, n - 1);
      if n - 1 < |c| && c[n - 1].Some? then Partial(p.full + [c[n - 1]], p.used)
      else if p.used < |stored| then Partial(p.full + [stored[p.used]], p.used + 1)
      else p
  }

  function Longer(a: nat, b: nat): nat {
    if a < b then b else a
  }

  function Rebuilt<V>(c: Args<V>, stored: Args<V>): Args<V> {
    Rebuilding(c, stored, Longer(|c|, |stored|)).full
  }

  // ------------------------------------------------------------------ the loops

  method Remember<V>(c: Args<V>, spec: seq<nat>, args: Args<V>) returns (r: Args<V>)
    ensures r == Remembered(c, spec, args)
  {
    r := c;
    for k := 0 to |spec|
      invariant r == Remembered(c, spec[..k], args)
    {
      var i := spec[k];
      assert spec[..k + 1][..k] == spec[..k];
      if i < |args| {
        if |r| <= i {
          r := r + seq(i + 1 - |r|, _ => None);
        }
        r := r[i := args[i]];
      }
    }
    assert spec[..|spec|] == spec;
  }

  method Store<V>(spec: seq<nat>, args: Args<V>) returns (r: Args<V>)
    ensures r == Kept(spec, args, |args|)
  {
    r := [];
    for i := 0 to |args|
      invariant r == Kept(spec, args, i)
    {
      if i !in spec {
        r := r + [args[i]];
      }
    }
  }

  method Rebuild<V>(c: Args<V>, stored: Args<V>) returns (full: Args<V>)
    ensures full == Rebuilt(c, stored)
  {
    full := [];
    var used := 0;
    for i := 0 to Longer(|c|, |stored|)
      invariant Partial(full, used) == Rebuilding(c, stored, i)
    {
      if i < |c| && c[i].Some? {
        full := full + [c[i]];
      } else if used < |stored| {
        full := full + [stored[used]];
        used := used + 1;
      }
    }
  }

  // ------------------------------------------------------------------ what comes back

  /** The cache holds exactly this call's cached arguments. */
  ghost predicate Agrees<V>(c: Args<V>, spec: seq<nat>, args: Args<V>) {
    && |c| <= |args|
    && (forall i :: 0 <= i < |c| ==> c[i] == if i in spec then args[i] else None)
    && (forall i :: 0 <= i < |args| && i in spec ==> i < |c|)
    && (|c| > 0 ==> |c| - 1 in spec)
  }

  ghost predicate NoCachedNull<V>(spec: seq<nat>, args: Args<V>) {
    forall i :: 0 <= i < |args| && i in spec ==> args[i].Some?
  }

  lemma {:induction false} KeptGrows<V>(spec: seq<nat>, args: Args<V>, m: nat, n: nat)
    requires m <= n <= |args|
    ensures Kept(spec, args, m) <= Kept(spec, args, n)
    ensures |Kept(spec, args, n)| <= n
    ensures |Kept(spec, args, n)| == n <==> forall i :: 0 <= i < n ==> i !in spec
    decreases n
  {
    if m < n {
      KeptGrows(spec, args, m, n - 1);
    } else if n > 0 {
      KeptGrows(spec, args, n - 1, n - 1);
    }
  }

  /** The next stored argument is the next one outside the spec. */
  lemma StoredNext<V>(spec: seq<nat>, args: Args<V>, m: nat)
    requires 0 < m <= |args| && m - 1 !in spec
    ensures var stored, used := Kept(spec, args, |args|), |Kept(spec, args, m - 1)|;
            used < |stored| && stored[used] == args[m - 1] && |Kept(spec, args, m)| == used + 1
  {
    KeptGrows(spec, args, m, |args|);
    var part := Kept(spec, args, m);
    assert part[|part| - 1] == args[m - 1];
  }

  /** Among the call's positions, exactly the cached ones are filled, with its arguments. */
  ghost predicate Aligned<V>(c: Args<V>, spec: seq<nat>, args: Args<V>) {
    forall i :: 0 <= i < |args| ==>
      ((i < |c| && c[i].Some?) <==> i in spec) && (i in spec ==> c[i] == args[i])
  }

  lemma {:induction false} RebuildsPrefix<V>(c: Args<V>, spec: seq<nat>, args: Args<V>, m: nat)
    requires Aligned(c, spec, args) && m <= |args|
    ensures Rebuilding(c, Kept(spec, args, |args|), m) == Partial(args[..m], |Kept(spec, args, m)|)
    decreases m
  {
    if m > 0 {
      RebuildsPrefix(c, spec, args, m - 1);
      assert args[..m] == args[..m - 1] + [args[m - 1]];
      if m - 1 in spec {
        assert |Kept(spec, args, m)| == |Kept(spec, args, m - 1)|;
      } else {
        StoredNext(spec, args, m);
      }
      hide Kept;
    }
  }

  /** The rebuilt call is a prefix of the original, as long as the longer of the cache
      and the stored list; it is the whole call exactly when no position is cached or
      the last one is. */
  lemma RebuiltIsPrefix<V>(c: Args<V>, spec: seq<nat>, args: Args<V>)
    requires Agrees(c, spec, args) && NoCachedNull(spec, args)
    ensures var stored := Kept(spec, args, |args|);
            && Longer(|c|, |stored|) <= |args|
            && Rebuilt(c, stored) == args[..Longer(|c|, |stored|)]
            && (Rebuilt(c, stored) == args <==>
                (forall i :: 0 <= i < |args| ==> i !in spec) || |args| - 1 in spec)
  {
    KeptGrows(spec, args, |args|, |args|);
    var n := Longer(|c|, |Kept(spec, args, |args|)|);
    RebuildsPrefix(c, spec, args, n);
    assert args[..|args|] == args;
  }

  // ------------------------------------------------------------------ several calls of one function

  /** The argument at position i, if the call has one (it may be a null). */
  function At<V>(args: Args<V>, i: nat): Option<Option<V>> {
    if i < |args| then Some(args[i]) else None
  }

  /** The argument at position i of the last call that has one. */
  function Latest<V>(calls: seq<Args<V>>, i: nat): Option<Option<V>> {
    if calls == [] then None
    else if i < |calls[|calls| - 1]| then Some(calls[|calls| - 1][i])
    else Latest(calls[..|calls| - 1], i)
  }

  lemma {:induction false} LatestSome<V>(calls: seq<Args<V>>, i: nat)
    ensures Latest(calls, i).Some? <==> exists k :: 0 <= k < |calls| && i < |calls[k]|
    decreases |calls|
  {
    if calls != [] {
      var n := |calls| - 1;
      LatestSome(calls[..n], i);
      forall k | 0 <= k < n ensures calls[..n][k] == calls[k] {}
    }
  }

  function RememberedAll<V>(spec: seq<nat>, calls: seq<Args<V>>): Args<V> {
    if calls == [] then [] else Remembered(RememberedAll(spec, calls[..|calls| - 1]), spec, calls[|calls| - 1])
  }

  lemma PutAt<V>(c: Args<V>, i: nat, v: Option<V>)
    ensures var r := Put(c, i, v);
            && |r| == Longer(|c|, i + 1)
            && forall j :: 0 <= j < |r| ==> r[j] == if j == i then v else if j < |c| then c[j] else None
  {
  }

  /** A submission overwrites the slots of its own cached arguments and no others. */
  lemma {:induction false} RemembersOwn<V>(c: Args<V>, spec: seq<nat>, args: Args<V>)
    ensures var r := Remembered(c, spec, args);
            && |c| <= |r| && (|c| < |r| ==> |r| - 1 in spec && |r| - 1 < |args|)
            && (forall i :: 0 <= i < |args| && i in spec ==> i < |r|)
            && forall i :: 0 <= i < |r| ==>
                 r[i] == if i in spec && i < |args| then args[i] else if i < |c| then c[i] else None
    decreases |spec|
  {
    hide Put;
    if spec != [] {
      var front, last := spec[..|spec| - 1], spec[|spec| - 1];
      RemembersOwn(c, front, args);
      assert forall i :: i in spec <==> i in front || i == last by {
        assert spec == front + [last];
      }
      if last < |args| {
        PutAt(Remembered(c, front, args), last, args[last]);
      }
    }
  }

  /** Each cached position holds what the last call that has it gave, and the cache ends
      with one of them. */
  ghost predicate HoldsLatest<V>(c: Args<V>, spec: seq<nat>, calls: seq<Args<V>>) {
    && (forall i :: 0 <= i < |c| ==>
         c[i] == if i in spec && Latest(calls, i).Some? then Latest(calls, i).value else None)
    && (forall i :: 0 <= i && i in spec && Latest(calls, i).Some? ==> i < |c|)
    && (|c| > 0 ==> |c| - 1 in spec && Latest(calls, |c| - 1).Some?)
  }

  lemma {:induction false} CacheHoldsLatest<V>(spec: seq<nat>, calls: seq<Args<V>>)
    ensures HoldsLatest(RememberedAll(spec, calls), spec, calls)
    decreases |calls|
  {
    if calls != [] {
      var front := calls[..|calls| - 1];
      CacheHoldsLatest(spec, front);
      RemembersOwn(RememberedAll(spec, front), spec, calls[|calls| - 1]);
    }
  }

  /** What the cache says of a call: its own arguments, the cached ones replaced. */
  function Mixed<V>(c: Args<V>, spec: seq<nat>, args: Args<V>): Args<V> {
    seq(|args|, i requires 0 <= i < |args| => if i in spec && i < |c| then c[i] else args[i])
  }

  lemma {:induction false} KeptMixed<V>(c: Args<V>, spec: seq<nat>, args: Args<V>, m: nat)
    requires m <= |args|
    ensures Kept(spec, Mixed(c, spec, args), m) == Kept(spec, args, m)
    decreases m
  {
    if m > 0 {
      KeptMixed(c, spec, args, m - 1);
    }
  }

  lemma {:induction false} RebuildingGrows<V>(c: Args<V>, stored: Args<V>, m: nat, n: nat)
    requires m <= n
    ensures |Rebuilding(c, stored, m).full| <= |Rebuilding(c, stored, n).full|
    decreases n
  {
    if m < n {
      RebuildingGrows(c, stored, m, n - 1);
    }
  }

  /** No cached position holds a null that some call gave last. */
  ghost predicate LatestNotNull<V>(spec: seq<nat>, calls: seq<Args<V>>) {
    forall i :: 0 <= i && i in spec ==> Latest(calls, i) != Some(None)
  }

  /** At every cached position the last call that has it gave what this call did, and no
      call has one that this call lacks. */
  ghost predicate StillCached<V>(spec: seq<nat>, calls: seq<Args<V>>, args: Args<V>) {
    forall i :: 0 <= i && i in spec ==> Latest(calls, i) == At(args, i)
  }

  lemma MixedLength<V>(c: Args<V>, spec: seq<nat>, args: Args<V>)
    ensures |Mixed(c, spec, args)| == |args|
  {
  }

  /** A cache longer than the call appends another call's arguments to it. */
  lemma LongCacheAppends<V>(c: Args<V>, spec: seq<nat>, args: Args<V>)
    requires Aligned(c, spec, Mixed(c, spec, args)) && |args| < |c| && c[|c| - 1].Some?
    ensures |args| < |Rebuilt(c, Kept(spec, args, |args|))|
  {
    hide Kept, Mixed;
    var stored := Kept(spec, args, |args|);
    KeptMixed(c, spec, args, |args|);
    KeptGrows(spec, args, |args|, |args|);
    MixedLength(c, spec, args);
    RebuildsPrefix(c, spec, Mixed(c, spec, args), |args|);
    RebuildingGrows(c, stored, |args|, |c| - 1);
  }

  /** Whatever calls of the function were submitted so far: each of them is rebuilt as a
      prefix of itself exactly when the cache still holds its own arguments, and as
      itself exactly when also no position is cached or the last one is. */
  lemma EveryCallRebuilt<V>(spec: seq<nat>, calls: seq<Args<V>>, k: nat)
    requires k < |calls| && LatestNotNull(spec, calls)
    ensures var c, stored := RememberedAll(spec, calls), Kept(spec, calls[k], |calls[k]|);
            && (Rebuilt(c, stored) <= calls[k] <==> StillCached(spec, calls, calls[k]))
            && (Rebuilt(c, stored) == calls[k] <==>
                && StillCached(spec, calls, calls[k])
                && ((forall i :: 0 <= i < |calls[k]| ==> i !in spec) || |calls[k]| - 1 in spec))
  {
    var args, c := calls[k], RememberedAll(spec, calls);
    var mixed := Mixed(c, spec, args);
    CacheHoldsLatest(spec, calls);
    forall i: nat ensures Latest(calls, i).Some? <==> exists k :: 0 <= k < |calls| && i < |calls[k]| {
      LatestSome(calls, i);
    }
    assert Aligned(c, spec, mixed);
    KeptMixed(c, spec, args, |args|);
    if |args| < |c| {
      LongCacheAppends(c, spec, args);
      assert At(args, |c| - 1) == None;
    } else {
      RebuiltIsPrefix(c, spec, mixed);
      MixedSame(c, spec, calls, args);
    }
  }

  lemma MixedSame<V>(c: Args<V>, spec: seq<nat>, calls: seq<Args<V>>, args: Args<V>)
    requires HoldsLatest(c, spec, calls) && |c| <= |args|
    requires forall i :: 0 <= i < |args| ==> Latest(calls, i).Some?
    ensures var mixed := Mixed(c, spec, args);
            && (StillCached(spec, calls, args) <==> mixed == args)
            && forall n :: |c| <= n <= |args| ==> (mixed[..n] <= args <==> mixed == args)
  {
    var mixed := Mixed(c, spec, args);
    if mixed == args {
      forall i: nat | i in spec ensures Latest(calls, i) == At(args, i) {
        if i < |args| {
          assert mixed[i] == args[i];
        }
      }
    }
    forall n | |c| <= n <= |args| && mixed[..n] <= args ensures mixed == args {
      forall i | 0 <= i < |args| ensures mixed[i] == args[i] {
        if i < n {
          assert mixed[..n][i] == args[i];
        }
      }
    }
  }

  /** With a null among the cached slots the rebuilt call has fewer arguments. */
  lemma {:induction false} NullShortens<V>(c: Args<V>, spec: seq<nat>, args: Args<V>, p: nat, m: nat)
    requires m <= |args| && p < |args| && p in spec && (p < |c| ==> c[p].None?)
    requires forall i :: 0 <= i < |c| && c[i].Some? ==> i in spec
    ensures var r := Rebuilding(c, Kept(spec, args, |args|), m);
            && r.used <= |Kept(spec, args, |args|)|
            && |r.full| + |Kept(spec, args, m)| + (if p < m then 1 else 0) <= m + r.used
    decreases m
  {
    if m > 0 {
      NullShortens(c, spec, args, p, m - 1);
    }
  }

  /** Among calls of which none has a cached position that this one lacks, it comes back
      whole exactly when the cache still holds its own arguments, none of them is a null,
      and no position is cached or the last one is. */
  lemma WholeCallRebuilt<V>(spec: seq<nat>, calls: seq<Args<V>>, k: nat)
    requires k < |calls|
    requires forall b, i :: b in calls && 0 <= i < |b| && i in spec ==> i < |calls[k]|
    ensures Rebuilt(RememberedAll(spec, calls), Kept(spec, calls[k], |calls[k]|)) == calls[k] <==>
            && StillCached(spec, calls, calls[k]) && NoCachedNull(spec, calls[k])
            && ((forall i :: 0 <= i < |calls[k]| ==> i !in spec) || |calls[k]| - 1 in spec)
  {
    var args, c := calls[k], RememberedAll(spec, calls);
    CacheHoldsLatest(spec, calls);
    forall i: nat ensures Latest(calls, i).Some? <==> exists j :: 0 <= j < |calls| && i < |calls[j]| {
      LatestSome(calls, i);
    }
    if LatestNotNull(spec, calls) {
      EveryCallRebuilt(spec, calls, k);
    } else {
      var p :| 0 <= p && p in spec && Latest(calls, p) == Some(None);
      NotWholeWithNull(c, spec, args, p);
      assert !(StillCached(spec, calls, args) && NoCachedNull(spec, args)) by {
        if StillCached(spec, calls, args) {
          assert At(args, p) == Some(None);
        }
      }
    }
  }

  lemma NotWholeWithNull<V>(c: Args<V>, spec: seq<nat>, args: Args<V>, p: nat)
    requires |c| <= |args| && p < |args| && p in spec && (p < |c| ==> c[p].None?)
    requires forall i :: 0 <= i < |c| && c[i].Some? ==> i in spec
    ensures |Rebuilt(c, Kept(spec, args, |args|))| < |args|
  {
    var stored := Kept(spec, args, |args|);
    KeptGrows(spec, args, |args|, |args|);
    NullShortens(c, spec, args, p, |args|);
    RebuildingGrows(c, stored, Longer(|c|, |stored|), |args|);
  }

  /** Caching only the first of three arguments loses the last one. */
  lemma LastArgumentLost()
    ensures var args := [Some(1), Some(2), Some(3)];
            Rebuilt(RememberedAll([0], [args]), Kept([0], args, 3)) == [Some(1), Some(2)]
  {
    var args := [Some(1), Some(2), Some(3)];
    var calls := [args];
    OneCallCached(args);
    assert Agrees(RememberedAll([0], calls), [0], args);
    RebuiltIsPrefix(RememberedAll([0], calls), [0], args);
    assert Kept([0], args, 1) == [] && Kept([0], args, 2) == [Some(2)];
    assert Kept([0], args, 3) == [Some(2), Some(3)];
    assert args[..2] == [Some(1), Some(2)];
  }

  lemma OneCallCached<V>(args: Args<V>)
    requires args != []
    ensures RememberedAll([0], [args]) == [args[0]]
  {
    var calls, spec: seq<nat> := [args], [0];
    assert calls[..0] == [] && spec[..0] == [];
    assert RememberedAll(spec, calls) == Remembered([], spec, args) == Put([], 0, args[0]);
  }

  /** A later call that caches another first argument changes the earlier, still
      waiting call. */
  lemma LaterCallOverwrites()
    ensures Rebuilt(RememberedAll([0], [[Some(1)], [Some(2)]]), Kept([0], [Some(1)], 1)) == [Some(2)]
  {
    var first: Args<int>, second: Args<int> := [Some(1)], [Some(2)];
    var calls := [first, second];
    var spec: seq<nat> := [0];
    assert calls[..1] == [first] && spec[..0] == [];
    OneCallCached(first);
    assert RememberedAll(spec, calls) == Remembered(first, spec, second) == second;
    assert Kept(spec, first, 0) == [] && Kept(spec, first, 1) == [];
    assert Rebuilding(second, [], 0) == Partial([], 0);
    assert Rebuilding(second, [], 1) == Partial([] + [Some(2)], 0);
  }

  /** A cached null reads as an empty slot: the next stored argument takes its place. */
  lemma NullArgumentReplaced()
    ensures Rebuilt(RememberedAll([0], [[None, Some(7)]]), Kept([0], [None, Some(7)], 2)) == [Some(7)]
  {
    var args: Args<int> := [None, Some(7)];
    var spec: seq<nat> := [0];
    OneCallCached(args);
    assert Kept(spec, args, 0) == [] && Kept(spec, args, 1) == [] && Kept(spec, args, 2) == [Some(7)];
    assert Rebuilding([None], [Some(7)], 0) == Partial([], 0);
    assert Rebuilding([None], [Some(7)], 1) == Partial([Some(7)], 1);
  }

  /** Why a null given last is set apart above: it can hide that the cache changed. The
      second call moves the 5 on by one, and the first still comes back. */
  lemma NullHidesChange()
    ensures var spec, first, second := [0, 1], [Some(5)], [None, Some(5)];
            && Rebuilt(RememberedAll(spec, [first, second]), Kept(spec, first, 1)) == first
            && !StillCached(spec, [first, second], first)
  {
    var spec: seq<nat>, first: Args<int>, second: Args<int> := [0, 1], [Some(5)], [None, Some(5)];
    var calls, one, none := [first, second], [first], [first][..0];
    assert calls[..1] == one && one[..0] == [] && spec[..1] == [0] && [0 as nat][..0] == [];
    assert Remembered([], [0], first) == first && Remembered(first, [0], second) == [None];
    assert RememberedAll(spec, one) == Remembered([], spec, first) == first;
    assert RememberedAll(spec, calls) == Remembered(first, spec, second) == second;
    assert Kept(spec, first, 0) == [] && Kept(spec, first, 1) == [];
    assert Rebuilding(second, [], 1) == Partial([], 0) && Rebuilding(second, [], 2) == Partial([] + first, 0);
    assert Latest(calls, 1) != At(first, 1) && spec[1] == 1;
  }

  // ------------------------------------------------------------------ keyword arguments

  function Cached<V>(names: set<string>, kwargs: map<string, V>): map<string, V> {
    map k | k in kwargs && k in names :: kwargs[k]
  }

  function Variable<V>(names: set<string>, kwargs: map<string, V>): map<string, V> {
    map k | k in kwargs && k !in names :: kwargs[k]
  }

  function CachedAll<V>(names: set<string>, calls: seq<map<string, V>>): map<string, V> {
    if calls == [] then map[] else CachedAll(names, calls[..|calls| - 1]) + Cached(names, calls[|calls| - 1])
  }

  function Given<V>(kwargs: map<string, V>, name: string): Option<V> {
    if name in kwargs then Some(kwargs[name]) else None
  }

  /** What the last call that gives the name gives it. */
  function LastGiven<V>(calls: seq<map<string, V>>, name: string): Option<V> {
    if calls == [] then None
    else if name in calls[|calls| - 1] then Some(calls[|calls| - 1][name])
    else LastGiven(calls[..|calls| - 1], name)
  }

  lemma {:induction false} CacheHoldsLastGiven<V>(names: set<string>, calls: seq<map<string, V>>, name: string)
    ensures Given(CachedAll(names, calls), name) == if name in names then LastGiven(calls, name) else None
    decreases |calls|
  {
    if calls != [] {
      CacheHoldsLastGiven(names, calls[..|calls| - 1], name);
    }
  }

  /** A call's keyword arguments come back unchanged exactly when for every cached name
      the last call that gives it gives what this call does, and no call gives one that
      this call lacks. */
  lemma KeywordsRestored<V>(names: set<string>, calls: seq<map<string, V>>, k: nat)
    requires k < |calls|
    ensures CachedAll(names, calls) + Variable(names, calls[k]) == calls[k] <==>
            forall name :: name in names ==> LastGiven(calls, name) == Given(calls[k], name)
    ensures CachedAll(names, calls) + Variable(names, calls[k]) == calls[k] <==>
            CachedAll(names, calls) == Cached(names, calls[k])
  {
    var all, own := CachedAll(names, calls), Cached(names, calls[k]);
    forall name ensures Given(all, name) == if name in names then LastGiven(calls, name) else None {
      CacheHoldsLastGiven(names, calls, name);
    }
    assert own + Variable(names, calls[k]) == calls[k];
    assert all == own <==> forall name :: name in names ==> Given(all, name) == Given(calls[k], name) by {
      SameMaps(all, own);
      forall name ensures Given(own, name) == if name in names then Given(calls[k], name) else None {}
    }
    if all + Variable(names, calls[k]) == calls[k] {
      forall name | name in names ensures Given(all, name) == Given(calls[k], name) {
        assert name in calls[k] <==> name in all + Variable(names, calls[k]);
      }
    }
  }

  lemma SameMaps<V>(a: map<string, V>, b: map<string, V>)
    ensures a == b <==> forall name :: Given(a, name) == Given(b, name)
  {
    if forall name :: Given(a, name) == Given(b, name) {
      forall name ensures name in a <==> name in b {
        assert Given(a, name) == Given(b, name);
      }
      forall name | name in a ensures a[name] == b[name] {
        assert Given(a, name) == Given(b, name);
      }
    }
  }

  /** A later call changes a cached keyword of a call still waiting, and adds one that
      the waiting call does not have. */
  lemma LaterKeywordsOverwrite()
    ensures var first, second := map["topic" := 1], map["topic" := 2, "notes" := 3];
            CachedAll({"topic", "notes"}, [first, second]) + Variable({"topic", "notes"}, first) == second
  {
    var names := {"topic", "notes"};
    var first, second := map["topic" := 1], map["topic" := 2, "notes" := 3];
    var calls := [first];
    assert [first, second][..1] == calls && calls[..0] == [];
    assert Cached(names, first) == first && Cached(names, second) == second;
    assert Variable(names, first) == map[];
    assert CachedAll(names, calls) == first;
  }
}
