/** Splitting work until a language model accepts every piece, and merging the answers. */
module AdaptiveSplit {
  import opened Outcomes
  import opened Packing

  /** Words, codes and the names of topics and clusters. */
  datatype Word = Word(text: string)
  type Topic = Word
  type Clusters = map<Topic, seq<Word>>

  // ------------------------------------------------------------ fixed chunks

  /** Slices of `size`; the last may be shorter. */
  function FixedChunks<T>(items: seq<T>, size: nat): (r: seq<seq<T>>)
    requires size > 0
    decreases |items|
  {
    if items == [] then []
    else if |items| <= size then [items]
    else [items[..size]] + FixedChunks(items[size..], size)
  }

  lemma FlattenFront<T>(p: seq<T>, parts: seq<seq<T>>)
    ensures Flatten([p] + parts) == p + Flatten(parts)
    decreases |parts|
  {
    var all := [p] + parts;
    if parts == [] {
      assert all[..0] == [];
    } else {
      assert all[..|all| - 1] == [p] + parts[..|parts| - 1];
      FlattenFront(p, parts[..|parts| - 1]);
    }
  }

  /** Slice k holds the items from k * size on, `size` of them or all that are left. */
  ghost predicate SliceAt<T>(items: seq<T>, size: nat, slices: seq<seq<T>>, k: nat)
    requires k < |slices|
  {
    var from, to := k * size, (k + 1) * size;
    from < |items| && slices[k] == items[from..if to < |items| then to else |items|]
  }

  /** The slices are the items in order, none empty, and their number is the item count
      over `size`, rounded up. */
  lemma {:induction false} FixedChunksCover<T>(items: seq<T>, size: nat)
    requires size > 0
    ensures var r := FixedChunks(items, size);
            && Flatten(r) == items && NonEmpty(r)
            && (|r| - 1) * size < |items| + (if items == [] then 1 else 0) && |items| <= |r| * size
    decreases |items|
  {
    if |items| > size {
      FixedChunksCover(items[size..], size);
      FlattenFront(items[..size], FixedChunks(items[size..], size));
      assert items == items[..size] + items[size..];
      OneMoreChunk(|FixedChunks(items[size..], size)|, size);
    } else if items != [] {
      assert [items][..0] == [];
    }
  }

  /** Every slice but the last holds exactly `size` items, from k * size on, and the last
      between one and `size`. */
  lemma {:induction false} FixedChunksSlices<T>(items: seq<T>, size: nat)
    requires size > 0
    ensures var r := FixedChunks(items, size);
            && (forall k :: 0 <= k < |r| ==> SliceAt(items, size, r, k))
            && (forall k :: 0 <= k < |r| - 1 ==> |r[k]| == size)
            && (r != [] ==> 1 <= |r[|r| - 1]| <= size)
    decreases |items|
  {
    if |items| > size {
      var rest := items[size..];
      FixedChunksSlices(rest, size);
      forall k | 0 <= k < |FixedChunks(items, size)| ensures SliceAt(items, size, FixedChunks(items, size), k) {
        if k > 0 {
          NextSlice(items, size, FixedChunks(rest, size), k - 1);
        }
      }
    }
  }

  lemma NextSlice<T>(items: seq<T>, size: nat, slices: seq<seq<T>>, k: nat)
    requires size < |items| && k < |slices| && SliceAt(items[size..], size, slices, k)
    ensures SliceAt(items, size, [items[..size]] + slices, k + 1)
  {
    assert (k + 1) * size == k * size + size && (k + 2) * size == (k + 1) * size + size;
  }

  lemma OneMoreChunk(n: nat, size: nat)
    ensures (n + 1) * size == n * size + size && n * size == (n - 1) * size + size
  {
  }

  predicate NonEmpty<T>(parts: seq<seq<T>>) {
    forall k :: 0 <= k < |parts| ==> parts[k] != []
  }

  lemma {:induction false} CountBound<T>(parts: seq<seq<T>>)
    requires NonEmpty(parts)
    ensures |parts| <= |Flatten(parts)|
    decreases |parts|
  {
    if parts != [] {
      CountBound(parts[..|parts| - 1]);
    }
  }

  // ------------------------------------------------------------ splitting one chunk

  function LeftHalf<T>(c: seq<T>): seq<T> {
    c[..|c| / 2]
  }

  function RightHalf<T>(c: seq<T>): seq<T> {
    c[|c| / 2..]
  }

  function Halved<T>(parts: seq<seq<T>>, i: nat): seq<seq<T>>
    requires i < |parts|
  {
    parts[..i] + [LeftHalf(parts[i]), RightHalf(parts[i])] + parts[i + 1..]
  }

  lemma {:induction false} FlattenConcat<T>(a: seq<seq<T>>, b: seq<seq<T>>)
    ensures Flatten(a + b) == Flatten(a) + Flatten(b)
    decreases |b|
  {
    if b == [] {
      FlattenEmpty<T>();
      assert a + b == a;
    } else {
      var front, last := b[..|b| - 1], b[|b| - 1];
      hide Flatten;
      assert b == front + [last] && a + b == (a + front) + [last];
      FlattenPush(front, last);
      FlattenPush(a + front, last);
      FlattenConcat(a, front);
      assert (Flatten(a) + Flatten(front)) + last == Flatten(a) + (Flatten(front) + last);
    }
  }

  lemma HalvedItems<T>(before: seq<seq<T>>, left: seq<T>, right: seq<T>, after: seq<seq<T>>)
    ensures Flatten(before + [left, right] + after) == Flatten(before + [left + right] + after)
  {
    hide Flatten;
    FlattenConcat(before + [left + right], after);
    FlattenPush(before, left + right);
    FlattenConcat(before + [left, right], after);
    assert before + [left, right] == before + [left] + [right];
    FlattenPush(before + [left], right);
    FlattenPush(before, left);
    assert Flatten(before) + (left + right) == Flatten(before) + left + right;
  }

  /** Halving keeps the items and their order. */
  lemma HalvedSame<T>(parts: seq<seq<T>>, i: nat)
    requires i < |parts| && |parts[i]| > 1 && NonEmpty(parts)
    ensures Flatten(Halved(parts, i)) == Flatten(parts) && NonEmpty(Halved(parts, i))
    ensures |Halved(parts, i)| == |parts| + 1 && |Halved(parts, i)| <= |Flatten(parts)|
    ensures var c, r := parts[i], Halved(parts, i);
            && r[..i] == parts[..i] && r[i + 2..] == parts[i + 1..]
            && r[i] + r[i + 1] == c && 0 <= |r[i + 1]| - |r[i]| <= 1
  {
    hide Flatten;
    var mid := |parts[i]| / 2;
    var before, left, right, after := parts[..i], parts[i][..mid], parts[i][mid..], parts[i + 1..];
    assert left + right == parts[i] && left != [] && right != [];
    assert before + [left + right] + after == parts;
    HalvedItems(before, left, right, after);
    CountBound(Halved(parts, i));
  }

  /** No part is longer than `size`. */
  predicate UpTo<T>(parts: seq<seq<T>>, size: nat) {
    forall k :: 0 <= k < |parts| ==> |parts[k]| <= size
  }

  ghost predicate BoundaryAt<T>(parts: seq<seq<T>>, before: seq<T>, j: nat) {
    j <= |parts| && Flatten(parts[..j]) == before
  }

  /** Where one slice ends and the next begins, one part ends and another begins. */
  ghost predicate Refines<T>(parts: seq<seq<T>>, slices: seq<seq<T>>) {
    forall k :: 0 <= k <= |slices| ==> HasBoundary(parts, Flatten(slices[..k]))
  }

  lemma RefinesSelf<T>(slices: seq<seq<T>>)
    ensures Refines(slices, slices)
  {
    hide Flatten;
    forall k | 0 <= k <= |slices| ensures HasBoundary(slices, Flatten(slices[..k])) {
      assert BoundaryAt(slices, Flatten(slices[..k]), k);
    }
  }

  lemma SlicesUpTo<T>(items: seq<T>, size: nat)
    requires size > 0
    ensures UpTo(FixedChunks(items, size), size) && Refines(FixedChunks(items, size), FixedChunks(items, size))
  {
    FixedChunksSlices(items, size);
    RefinesSelf(FixedChunks(items, size));
    hide FixedChunks;
  }

  lemma HalvedUpTo<T>(parts: seq<seq<T>>, i: nat, size: nat)
    requires i < |parts| && UpTo(parts, size)
    ensures UpTo(Halved(parts, i), size)
  {
    HalvedPart(parts, i, |parts|);
    forall k | 0 <= k < |Halved(parts, i)| ensures |Halved(parts, i)[k]| <= size {
      if k <= |parts| {
        HalvedPart(parts, i, k);
      }
    }
  }

  // ------------------------------------------------------------ merging answers

  function At(c: Clusters, t: Topic): seq<Word> {
    if t in c then c[t] else []
  }

  function Merge(cur: Clusters, more: Clusters): Clusters {
    map t | t in cur.Keys + more.Keys :: At(cur, t) + At(more, t)
  }

  function Merged(answers: seq<Clusters>): Clusters {
    if answers == [] then map[] else Merge(Merged(answers[..|answers| - 1]), answers[|answers| - 1])
  }

  /** The words all answers give for a topic, in answer order. */
  function Said(answers: seq<Clusters>, t: Topic): seq<Word> {
    if answers == [] then [] else Said(answers[..|answers| - 1], t) + At(answers[|answers| - 1], t)
  }

  /** Merging loses and invents nothing: a topic is there when some answer names it, with
      the words of all answers. */
  lemma {:induction false} MergedSays(answers: seq<Clusters>, t: Topic)
    ensures t in Merged(answers) <==> exists k :: 0 <= k < |answers| && t in answers[k]
    ensures At(Merged(answers), t) == Said(answers, t)
    decreases |answers|
  {
    if answers != [] {
      var front := answers[..|answers| - 1];
      MergedSays(front, t);
      assert forall k :: 0 <= k < |front| ==> front[k] == answers[k];
    }
  }

  function Only(c: Clusters, ts: set<Topic>): Clusters {
    map t | t in c && t in ts :: c[t]
  }

  lemma MergeOne(cur: Clusters, more: Clusters, seen: set<Topic>, t: Topic)
    requires t in more && t !in seen
    ensures var before := Merge(cur, Only(more, seen));
            Merge(cur, Only(more, seen + {t})) ==
            before[t := if t in before then before[t] + more[t] else more[t]]
  {
    var before, after := Merge(cur, Only(more, seen)), Merge(cur, Only(more, seen + {t}));
    forall u | u in after && u != t ensures u in before && after[u] == before[u] {
      assert At(Only(more, seen + {t}), u) == At(Only(more, seen), u);
    }
    assert At(cur, t) + [] == At(cur, t) && [] + more[t] == more[t];
  }

  lemma MergeNone(cur: Clusters)
    ensures Merge(cur, map[]) == cur
  {
    assert forall t :: t in cur ==> cur[t] + [] == cur[t];
  }

  method MergeInto(cur: Clusters, more: Clusters) returns (r: Clusters)
    ensures r == Merge(cur, more)
  {
    r := cur;
    MergeNone(cur);
    var left := more.Keys;
    assert Only(more, {}) == map[] && more.Keys - left == {};
    hide Merge;
    while left != {}
      invariant left <= more.Keys && r == Merge(cur, Only(more, more.Keys - left))
      decreases |left|
    {
      var topic :| topic in left;
      MergeOne(cur, more, more.Keys - left, topic);
      assert more.Keys - (left - {topic}) == more.Keys - left + {topic};
      left := left - {topic};
      if topic in r {
        r := r[topic := r[topic] + more[topic]];
      } else {
        r := r[topic := more[topic]];
      }
    }
    assert Only(more, more.Keys) == more && more.Keys - left == more.Keys;
  }

  // ------------------------------------------------------------ clustering words

  /** What the n-th call returns; a call past the list gets nothing usable. */
  function Call<A>(answers: seq<Option<A>>, n: nat): Option<A> {
    if n < |answers| then answers[n] else None
  }

  /** The usable answers among the first calls, in order. */
  function Accepted<A>(answers: seq<Option<A>>, calls: nat): seq<A> {
    if calls == 0 then []
    else Accepted(answers, calls - 1) + (if Call(answers, calls - 1).Some? then [Call(answers, calls - 1).value] else [])
  }

  /** One call: the chunk is sent, and the log says so. */
  method Send<A>(chunk: seq<Word>, answers: seq<Option<A>>, log: seq<seq<Word>>) returns (answer: Option<A>, log': seq<seq<Word>>)
    ensures answer == Call(answers, |log|) && log' == log + [chunk]
  {
    return Call(answers, |log|), log + [chunk];
  }

  /** The chunks sent with the calls that got a usable answer, in order. */
  function Taken<A>(answers: seq<Option<A>>, log: seq<seq<Word>>): seq<seq<Word>> {
    if log == [] then []
    else
      var n := |log| - 1;
      Taken(answers, log[..n]) + if Call(answers, n).Some? then [log[n]] else []
  }

  ghost predicate CutAt<T>(c: seq<T>, parts: seq<seq<T>>, j: nat, k: nat, m: nat) {
    j < k < m <= |parts| && Flatten(parts[j..k]) == LeftHalf(c) && Flatten(parts[k..m]) == RightHalf(c)
  }

  /** The parts hold the two halves of `c` one after the other, none across the middle. */
  ghost predicate CutInHalf<T>(c: seq<T>, parts: seq<seq<T>>) {
    exists j: nat, k: nat, m: nat :: CutAt(c, parts, j, k, m)
  }

  /** The chunk sent with call `n` had several words and was halved; its left half was
      sent next, or is the next to be sent. */
  ghost predicate Refused(log: seq<seq<Word>>, n: nat, chunks: seq<seq<Word>>, i: nat)
    requires n < |log|
  {
    && |log[n]| > 1 && CutInHalf(log[n], chunks)
    && if n + 1 < |log| then log[n + 1] == LeftHalf(log[n]) else i < |chunks| && chunks[i] == LeftHalf(log[n])
  }

  /** The first i chunks are the ones taken, and every other chunk sent was halved. */
  ghost predicate Logged<A>(answers: seq<Option<A>>, log: seq<seq<Word>>, chunks: seq<seq<Word>>, i: nat) {
    && i <= |chunks| && Taken(answers, log) == chunks[..i]
    && forall n :: 0 <= n < |log| && Call(answers, n).None? ==> Refused(log, n, chunks, i)
  }

  lemma LoggedStarts<A>(answers: seq<Option<A>>, chunks: seq<seq<Word>>)
    ensures Logged(answers, [], chunks, 0)
  {
  }

  lemma TakenPush<A>(answers: seq<Option<A>>, log: seq<seq<Word>>, c: seq<Word>)
    ensures Taken(answers, log + [c]) == Taken(answers, log) + if Call(answers, |log|).Some? then [c] else []
  {
    assert (log + [c])[..|log|] == log;
  }

  lemma LoggedAccepts<A>(answers: seq<Option<A>>, log: seq<seq<Word>>, chunks: seq<seq<Word>>, i: nat)
    requires Logged(answers, log, chunks, i) && i < |chunks| && Call(answers, |log|).Some?
    ensures Logged(answers, log + [chunks[i]], chunks, i + 1)
  {
    TakenPush(answers, log, chunks[i]);
    hide Taken, CutInHalf, LeftHalf;
  }

  lemma LoggedHalves<A>(answers: seq<Option<A>>, log: seq<seq<Word>>, chunks: seq<seq<Word>>, i: nat)
    requires Logged(answers, log, chunks, i) && i < |chunks| && |chunks[i]| > 1 && Call(answers, |log|).None?
    ensures Logged(answers, log + [chunks[i]], Halved(chunks, i), i)
  {
    var log', parts := log + [chunks[i]], Halved(chunks, i);
    TakenPush(answers, log, chunks[i]);
    assert parts[..i] == chunks[..i] && parts[i] == LeftHalf(chunks[i]);
    JustCut(chunks, i);
    hide Taken, LeftHalf, Halved, CutInHalf;
    forall n | 0 <= n < |log'| && Call(answers, n).None? ensures Refused(log', n, parts, i) {
      if n < |log| {
        assert Refused(log, n, chunks, i);
        CutStays(log[n], chunks, i);
      }
    }
  }

  lemma JustCut<T>(parts: seq<seq<T>>, i: nat)
    requires i < |parts|
    ensures CutInHalf(parts[i], Halved(parts, i))
  {
    var r := Halved(parts, i);
    assert r[i..i + 1] == [LeftHalf(parts[i])] && r[i + 1..i + 2] == [RightHalf(parts[i])];
    FlattenOne(LeftHalf(parts[i]));
    FlattenOne(RightHalf(parts[i]));
    hide Flatten, LeftHalf, RightHalf, Halved;
    assert CutAt(parts[i], r, i, i + 1, i + 2);
  }

  lemma FlattenOne<T>(p: seq<T>)
    ensures Flatten([p]) == p
  {
    assert [p][..0] == [];
  }

  /** Where a boundary between parts is after part i was halved. */
  function Shift(i: nat, x: nat): nat {
    if i < x then x + 1 else x
  }

  /** Part k of the halved list, left of the halved part, at it, or right of it. */
  lemma HalvedPart<T>(parts: seq<seq<T>>, i: nat, k: nat)
    requires i < |parts| && k <= |parts|
    ensures |Halved(parts, i)| == |parts| + 1
    ensures k < i ==> Halved(parts, i)[k] == parts[k]
    ensures k == i ==> Halved(parts, i)[k] == LeftHalf(parts[i])
    ensures k == i + 1 ==> Halved(parts, i)[k] == RightHalf(parts[i])
    ensures i + 1 < k ==> Halved(parts, i)[k] == parts[k - 1]
  {
    hide LeftHalf, RightHalf;
  }

  lemma HalvedBefore<T>(parts: seq<seq<T>>, i: nat, a: nat, b: nat)
    requires i < |parts| && a <= b <= i
    ensures b < |Halved(parts, i)| && Halved(parts, i)[a..b] == parts[a..b]
  {
    HalvedPart(parts, i, i);
    hide Halved;
    forall k | a <= k < b ensures Halved(parts, i)[k] == parts[k] {
      HalvedPart(parts, i, k);
    }
  }

  lemma HalvedAfter<T>(parts: seq<seq<T>>, i: nat, a: nat, b: nat)
    requires i < a <= b <= |parts|
    ensures b < |Halved(parts, i)| && Halved(parts, i)[a + 1..b + 1] == parts[a..b]
  {
    HalvedPart(parts, i, i);
    hide Halved;
    forall k | a <= k < b ensures Halved(parts, i)[k + 1] == parts[k] {
      HalvedPart(parts, i, k + 1);
    }
  }

  lemma HalvedAround<T>(parts: seq<seq<T>>, i: nat, a: nat, b: nat)
    requires a <= i < b <= |parts|
    ensures b < |Halved(parts, i)|
    ensures Halved(parts, i)[a..b + 1] == parts[a..i] + [LeftHalf(parts[i]), RightHalf(parts[i])] + parts[i + 1..b]
    ensures parts[a..b] == parts[a..i] + [parts[i]] + parts[i + 1..b]
  {
    var r := Halved(parts, i);
    HalvedPart(parts, i, i);
    HalvedPart(parts, i, i + 1);
    HalvedBefore(parts, i, a, i);
    HalvedAfter(parts, i, i + 1, b);
    hide Halved, LeftHalf, RightHalf;
    assert r[i..i + 2] == [LeftHalf(parts[i]), RightHalf(parts[i])];
    assert r[a..b + 1] == r[a..i] + r[i..i + 2] + r[i + 2..b + 1];
  }

  lemma RangeStays<T>(parts: seq<seq<T>>, i: nat, a: nat, b: nat)
    requires i < |parts| && a <= b <= |parts|
    ensures Shift(i, a) <= Shift(i, b) <= |Halved(parts, i)|
    ensures Flatten(Halved(parts, i)[Shift(i, a)..Shift(i, b)]) == Flatten(parts[a..b])
  {
    var left, right := LeftHalf(parts[i]), RightHalf(parts[i]);
    assert left + right == parts[i] && |Halved(parts, i)| == |parts| + 1;
    hide Flatten, LeftHalf, RightHalf, Halved;
    if b <= i {
      HalvedBefore(parts, i, a, b);
    } else if i < a {
      HalvedAfter(parts, i, a, b);
    } else {
      HalvedAround(parts, i, a, b);
      HalvedItems(parts[a..i], left, right, parts[i + 1..b]);
    }
  }

  lemma CutStays<T>(c: seq<T>, parts: seq<seq<T>>, i: nat)
    requires CutInHalf(c, parts) && i < |parts|
    ensures CutInHalf(c, Halved(parts, i))
  {
    var j: nat, k: nat, m: nat :| CutAt(c, parts, j, k, m);
    RangeStays(parts, i, j, k);
    RangeStays(parts, i, k, m);
    hide Flatten, Halved, LeftHalf, RightHalf;
    assert CutAt(c, Halved(parts, i), Shift(i, j), Shift(i, k), Shift(i, m));
  }

  ghost predicate HasBoundary<T>(parts: seq<seq<T>>, before: seq<T>) {
    exists j: nat :: BoundaryAt(parts, before, j)
  }

  lemma BoundaryStays<T>(parts: seq<seq<T>>, i: nat, before: seq<T>)
    requires i < |parts| && HasBoundary(parts, before)
    ensures HasBoundary(Halved(parts, i), before)
  {
    hide Flatten, Halved;
    var j: nat :| BoundaryAt(parts, before, j);
    RangeStays(parts, i, 0, j);
    assert parts[0..j] == parts[..j] && Halved(parts, i)[0..Shift(i, j)] == Halved(parts, i)[..Shift(i, j)];
    assert BoundaryAt(Halved(parts, i), before, Shift(i, j));
  }

  lemma HalvedRefines<T>(parts: seq<seq<T>>, i: nat, slices: seq<seq<T>>)
    requires i < |parts| && Refines(parts, slices)
    ensures Refines(Halved(parts, i), slices)
  {
    hide Flatten, Halved, HasBoundary;
    forall k | 0 <= k <= |slices| ensures HasBoundary(Halved(parts, i), Flatten(slices[..k])) {
      BoundaryStays(parts, i, Flatten(slices[..k]));
    }
  }

  /** What a run did to the first slices: nothing longer than `size` was sent, every slice
      ends where some chunk ends, and there is one chunk more than slices for every call
      without a usable answer, the failing one apart. */
  ghost predicate OnlyHalved<A>(items: seq<Word>, size: nat, answers: seq<Option<A>>, log: seq<seq<Word>>,
    chunks: seq<seq<Word>>, failed: bool)
    requires size > 0
  {
    var slices := FixedChunks(items, size);
    && UpTo(log, size) && UpTo(chunks, size) && Refines(chunks, slices)
    && |chunks| - |slices| == |log| - |Taken(answers, log)| - (if failed then 1 else 0)
  }

  /** What a run's log says: every call sent a chunk; the chunks taken are, in order,
      those up to the failed one; every other chunk sent was halved. */
  ghost predicate LogSays<A>(answers: seq<Option<A>>, log: seq<seq<Word>>, chunks: seq<seq<Word>>, failed: bool) {
    var sent := if failed then |log| - 1 else |log|;
    && (failed ==> log != [] && |log[sent]| == 1 && Call(answers, sent).None?
                   && |Taken(answers, log)| < |chunks| && log[sent] == chunks[|Taken(answers, log)|])
    && Taken(answers, log) == (if failed then chunks[..|Taken(answers, log)|] else chunks)
    && forall n :: 0 <= n < sent && Call(answers, n).None? ==>
         |log[n]| > 1 && CutInHalf(log[n], chunks) && n + 1 < |log| && log[n + 1] == LeftHalf(log[n])
  }

  lemma LogEnds<A>(answers: seq<Option<A>>, log: seq<seq<Word>>, chunks: seq<seq<Word>>)
    requires Logged(answers, log, chunks, |chunks|)
    ensures LogSays(answers, log, chunks, false)
  {
    hide Taken, CutInHalf, LeftHalf;
    assert chunks[..|chunks|] == chunks;
    forall n | 0 <= n < |log| && Call(answers, n).None? ensures n + 1 < |log| {
      assert Refused(log, n, chunks, |chunks|);
    }
  }

  lemma LogFails<A>(answers: seq<Option<A>>, log: seq<seq<Word>>, chunks: seq<seq<Word>>, i: nat)
    requires Logged(answers, log, chunks, i) && i < |chunks| && |chunks[i]| == 1 && Call(answers, |log|).None?
    ensures LogSays(answers, log + [chunks[i]], chunks, true)
  {
    var all := log + [chunks[i]];
    TakenPush(answers, log, chunks[i]);
    assert Taken(answers, all) == chunks[..i];
    hide Taken, CutInHalf, LeftHalf;
    forall n | 0 <= n < |log| && Call(answers, n).None?
      ensures |all[n]| > 1 && CutInHalf(all[n], chunks) && n + 1 < |all| && all[n + 1] == LeftHalf(all[n])
    {
      assert Refused(log, n, chunks, i);
    }
  }

  /** After `calls` calls the first i chunks are accepted; every other call split one. */
  ghost predicate Progress(items: seq<Word>, size: nat, chunks: seq<seq<Word>>, i: nat, calls: int)
    requires size > 0
  {
    && i <= |chunks| <= |items| && Flatten(chunks) == items && NonEmpty(chunks) && chunks != []
    && calls == i + |chunks| - |FixedChunks(items, size)| && |FixedChunks(items, size)| <= |chunks|
    && UpTo(chunks, size) && Refines(chunks, FixedChunks(items, size))
  }

  lemma ProgressStarts(items: seq<Word>, size: nat)
    requires size > 0 && items != []
    ensures Progress(items, size, FixedChunks(items, size), 0, 0)
  {
    FixedChunksCover(items, size);
    CountBound(FixedChunks(items, size));
    SlicesUpTo(items, size);
    hide Flatten, FixedChunks, UpTo, Refines;
  }

  lemma ProgressHalves(items: seq<Word>, size: nat, chunks: seq<seq<Word>>, i: nat, calls: nat)
    requires size > 0 && Progress(items, size, chunks, i, calls) && i < |chunks| && |chunks[i]| > 1
    ensures Progress(items, size, Halved(chunks, i), i, calls + 1)
    ensures |Halved(chunks, i)| == |chunks| + 1
  {
    HalvedSame(chunks, i);
    HalvedUpTo(chunks, i, size);
    HalvedRefines(chunks, i, FixedChunks(items, size));
    hide Flatten, FixedChunks, Halved, UpTo, Refines;
  }

  lemma ProgressAccepts(items: seq<Word>, size: nat, chunks: seq<seq<Word>>, i: nat, calls: nat)
    requires size > 0 && Progress(items, size, chunks, i, calls) && i < |chunks|
    ensures Progress(items, size, chunks, i + 1, calls + 1) && chunks[i] != []
    ensures calls + 1 <= 2 * |items| - |FixedChunks(items, size)|
    ensures |chunks[i]| <= size
  {
    hide Refines, Flatten, FixedChunks;
  }

  lemma ProgressEnds(items: seq<Word>, size: nat, chunks: seq<seq<Word>>, i: nat, calls: nat)
    requires size > 0 && Progress(items, size, chunks, i, calls)
    ensures i <= |chunks| <= |items| && Flatten(chunks) == items && NonEmpty(chunks) && chunks != []
    ensures calls <= 2 * |items| - |FixedChunks(items, size)|
    ensures UpTo(chunks, size) && Refines(chunks, FixedChunks(items, size))
    ensures calls == i + |chunks| - |FixedChunks(items, size)|
  {
    hide Refines, UpTo, Flatten, FixedChunks;
  }

  lemma AcceptedNext<A>(answers: seq<Option<A>>, calls: nat)
    ensures Call(answers, calls).None? ==> Accepted(answers, calls + 1) == Accepted(answers, calls)
    ensures Call(answers, calls).Some? ==>
      Accepted(answers, calls + 1) == Accepted(answers, calls) + [Call(answers, calls).value]
  {
    assert Accepted(answers, calls) + [] == Accepted(answers, calls);
  }

  lemma MergedPush(answers: seq<Clusters>, c: Clusters)
    ensures Merged(answers + [c]) == Merge(Merged(answers), c)
    ensures answers == [] ==> Merged(answers + [c]) == c
  {
    assert (answers + [c])[..|answers|] == answers;
    if answers == [] {
      assert forall t :: t in c ==> At(map[], t) + At(c, t) == c[t];
    }
  }

  lemma StopsHalved<A>(items: seq<Word>, size: nat, answers: seq<Option<A>>, log: seq<seq<Word>>, chunks: seq<seq<Word>>, i: nat)
    requires size > 0 && Progress(items, size, chunks, i, |log|) && Logged(answers, log, chunks, i) && UpTo(log, size)
    requires i < |chunks| && Call(answers, |log|).None?
    ensures OnlyHalved(items, size, answers, log + [chunks[i]], chunks, true)
  {
    ProgressAccepts(items, size, chunks, i, |log|);
    ProgressEnds(items, size, chunks, i, |log|);
    TakenPush(answers, log, chunks[i]);
    hide Taken, Refines, Progress, FixedChunks, Refused;
  }

  lemma ReturnsHalved<A>(items: seq<Word>, size: nat, answers: seq<Option<A>>, log: seq<seq<Word>>, chunks: seq<seq<Word>>)
    requires size > 0 && Progress(items, size, chunks, |chunks|, |log|) && Logged(answers, log, chunks, |chunks|)
    requires UpTo(log, size)
    ensures OnlyHalved(items, size, answers, log, chunks, false)
  {
    ProgressEnds(items, size, chunks, |chunks|, |log|);
    hide Taken, Refines, Progress, FixedChunks, Refused, UpTo;
  }

  ghost predicate ClusterState(words: seq<Word>, size: nat, answers: seq<Option<Clusters>>, chunks: seq<seq<Word>>, i: nat, calls: nat,
    current: Option<Clusters>) {
    && size > 0 && Progress(words, size, chunks, i, calls) && |Accepted(answers, calls)| == i
    && current == if i == 0 then None else Some(Merged(Accepted(answers, calls)))
  }

  lemma ClusterStarts(words: seq<Word>, size: nat, answers: seq<Option<Clusters>>)
    requires size > 0 && words != []
    ensures ClusterState(words, size, answers, FixedChunks(words, size), 0, 0, None) && 0 < |FixedChunks(words, size)| <= |words|
  {
    ProgressStarts(words, size);
  }

  lemma ClusterAccepts(words: seq<Word>, size: nat, answers: seq<Option<Clusters>>, chunks: seq<seq<Word>>, i: nat, calls: nat,
    current: Option<Clusters>, next: Clusters)
    requires ClusterState(words, size, answers, chunks, i, calls, current) && i < |chunks| && Call(answers, calls).Some?
    requires if current.None? then next == Call(answers, calls).value
             else next == Merge(current.value, Call(answers, calls).value)
    ensures ClusterState(words, size, answers, chunks, i + 1, calls + 1, Some(next))
  {
    AcceptedNext(answers, calls);
    ProgressAccepts(words, size, chunks, i, calls);
    MergedPush(Accepted(answers, calls), Call(answers, calls).value);
    hide Progress, Accepted, Call, Merged;
  }

  lemma ClusterHalves(words: seq<Word>, size: nat, answers: seq<Option<Clusters>>, chunks: seq<seq<Word>>, i: nat, calls: nat,
    current: Option<Clusters>, r: seq<seq<Word>>)
    requires ClusterState(words, size, answers, chunks, i, calls, current) && i < |chunks| && |chunks[i]| > 1
    requires Call(answers, calls).None? && r == Halved(chunks, i)
    ensures ClusterState(words, size, answers, r, i, calls + 1, current) && |chunks| < |r| <= |words|
  {
    AcceptedNext(answers, calls);
    ProgressHalves(words, size, chunks, i, calls);
    ProgressEnds(words, size, r, i, calls + 1);
    hide Progress, Accepted, Call, Halved, Merged;
  }

  lemma ClusterFails(words: seq<Word>, size: nat, answers: seq<Option<Clusters>>, chunks: seq<seq<Word>>, i: nat, calls: nat,
    current: Option<Clusters>)
    requires ClusterState(words, size, answers, chunks, i, calls, current) && i < |chunks|
    ensures chunks[i] != [] && calls + 1 <= 2 * |words| - |FixedChunks(words, size)|
    ensures Flatten(chunks) == words && NonEmpty(chunks)
  {
    ProgressAccepts(words, size, chunks, i, calls);
    ProgressEnds(words, size, chunks, i, calls);
    hide Progress, Accepted, Call, Merged;
  }

  lemma ClusterEnds(words: seq<Word>, size: nat, answers: seq<Option<Clusters>>, chunks: seq<seq<Word>>, calls: nat,
    current: Option<Clusters>)
    requires ClusterState(words, size, answers, chunks, |chunks|, calls, current)
    ensures calls <= 2 * |words| - |FixedChunks(words, size)| && Flatten(chunks) == words && NonEmpty(chunks)
    ensures current.Some? && current.value == Merged(Accepted(answers, calls))
  {
    ProgressEnds(words, size, chunks, |chunks|, calls);
    hide Progress, Accepted, Call, Merged;
  }

  /** The state of the loop and what its log says so far. */
  ghost predicate ClusterStage(words: seq<Word>, size: nat, answers: seq<Option<Clusters>>, chunks: seq<seq<Word>>, i: nat,
    log: seq<seq<Word>>, current: Option<Clusters>) {
    ClusterState(words, size, answers, chunks, i, |log|, current) && Logged(answers, log, chunks, i) && UpTo(log, size)
  }

  lemma ClusterBegins(words: seq<Word>, size: nat, answers: seq<Option<Clusters>>)
    requires size > 0 && words != []
    ensures ClusterStage(words, size, answers, FixedChunks(words, size), 0, [], None) && |FixedChunks(words, size)| <= |words|
  {
    ClusterStarts(words, size, answers);
    LoggedStarts(answers, FixedChunks(words, size));
    hide ClusterState, Logged, FixedChunks;
  }

  lemma ClusterSends(words: seq<Word>, size: nat, answers: seq<Option<Clusters>>, chunks: seq<seq<Word>>, i: nat,
    log: seq<seq<Word>>, current: Option<Clusters>)
    requires ClusterStage(words, size, answers, chunks, i, log, current) && i < |chunks|
    ensures UpTo(log + [chunks[i]], size)
  {
    hide Logged, Accepted;
    ProgressAccepts(words, size, chunks, i, |log|);
  }

  lemma ClusterTakes(words: seq<Word>, size: nat, answers: seq<Option<Clusters>>, chunks: seq<seq<Word>>, i: nat,
    log: seq<seq<Word>>, current: Option<Clusters>, next: Clusters)
    requires ClusterStage(words, size, answers, chunks, i, log, current) && i < |chunks| && Call(answers, |log|).Some?
    requires if current.None? then next == Call(answers, |log|).value
             else next == Merge(current.value, Call(answers, |log|).value)
    ensures ClusterStage(words, size, answers, chunks, i + 1, log + [chunks[i]], Some(next))
  {
    hide ClusterState, Logged, Call, Merge;
    ClusterAccepts(words, size, answers, chunks, i, |log|, current, next);
    LoggedAccepts(answers, log, chunks, i);
    ClusterSends(words, size, answers, chunks, i, log, current);
  }

  lemma ClusterSplits(words: seq<Word>, size: nat, answers: seq<Option<Clusters>>, chunks: seq<seq<Word>>, i: nat,
    log: seq<seq<Word>>, current: Option<Clusters>)
    requires ClusterStage(words, size, answers, chunks, i, log, current) && i < |chunks| && |chunks[i]| > 1
    requires Call(answers, |log|).None?
    ensures ClusterStage(words, size, answers, Halved(chunks, i), i, log + [chunks[i]], current)
    ensures |chunks| < |Halved(chunks, i)| <= |words|
  {
    hide ClusterState, Logged, Call, Halved;
    ClusterHalves(words, size, answers, chunks, i, |log|, current, Halved(chunks, i));
    LoggedHalves(answers, log, chunks, i);
    ClusterSends(words, size, answers, chunks, i, log, current);
  }

  lemma ClusterGoing(words: seq<Word>, size: nat, answers: seq<Option<Clusters>>, chunks: seq<seq<Word>>, i: nat,
    log: seq<seq<Word>>, current: Option<Clusters>)
    requires ClusterStage(words, size, answers, chunks, i, log, current)
    ensures size > 0 && Progress(words, size, chunks, i, |log|) && Logged(answers, log, chunks, i) && UpTo(log, size)
  {
  }

  lemma ClusterStops(words: seq<Word>, size: nat, answers: seq<Option<Clusters>>, chunks: seq<seq<Word>>, i: nat,
    log: seq<seq<Word>>, current: Option<Clusters>)
    requires ClusterStage(words, size, answers, chunks, i, log, current) && i < |chunks| && |chunks[i]| <= 1
    requires Call(answers, |log|).None?
    ensures |log| + 1 <= 2 * |words| - |FixedChunks(words, size)| && Flatten(chunks) == words && NonEmpty(chunks)
    ensures LogSays(answers, log + [chunks[i]], chunks, true)
    ensures OnlyHalved(words, size, answers, log + [chunks[i]], chunks, true)
  {
    ClusterGoing(words, size, answers, chunks, i, log, current);
    hide OnlyHalved, ClusterState, Logged, Call, FixedChunks, Flatten, LogSays;
    ClusterFails(words, size, answers, chunks, i, |log|, current);
    StopsHalved(words, size, answers, log, chunks, i);
    LogFails(answers, log, chunks, i);
  }

  lemma ClusterReturns(words: seq<Word>, size: nat, answers: seq<Option<Clusters>>, chunks: seq<seq<Word>>,
    log: seq<seq<Word>>, current: Option<Clusters>)
    requires ClusterStage(words, size, answers, chunks, |chunks|, log, current)
    ensures |log| <= 2 * |words| - |FixedChunks(words, size)| && Flatten(chunks) == words && NonEmpty(chunks)
    ensures current.Some? && current.value == Merged(Accepted(answers, |log|)) && LogSays(answers, log, chunks, false)
    ensures OnlyHalved(words, size, answers, log, chunks, false)
  {
    ClusterGoing(words, size, answers, chunks, |chunks|, log, current);
    hide OnlyHalved, ClusterState, Logged, FixedChunks, Flatten, LogSays, NonEmpty, Merged, Accepted;
    ClusterEnds(words, size, answers, chunks, |log|, current);
    ReturnsHalved(words, size, answers, log, chunks);
    LogEnds(answers, log, chunks);
  }

  method ClusterLoop(words: seq<Word>, size: nat, answers: seq<Option<Clusters>>)
    returns (r: Result<Clusters>, log: seq<seq<Word>>, chunks: seq<seq<Word>>)
    requires size > 0 && words != []
    ensures |log| <= 2 * |words| - |FixedChunks(words, size)| && Flatten(chunks) == words && NonEmpty(chunks)
    ensures LogSays(answers, log, chunks, r.Err?) && OnlyHalved(words, size, answers, log, chunks, r.Err?)
    ensures r.Ok? ==> r.value == Merged(Accepted(answers, |log|))
  {
    log, chunks := [], FixedChunks(words, size);
    ClusterBegins(words, size, answers);
    hide ClusterStage, LogSays, OnlyHalved, Flatten, FixedChunks, NonEmpty, Accepted, Halved, Merged, Merge, Call;
    var current: Option<Clusters> := None;
    var i := 0;
    while i < |chunks|
      invariant ClusterStage(words, size, answers, chunks, i, log, current) && i <= |chunks| <= |words|
      decreases 2 * |words| - i - |chunks|
    {
      ghost var before := log;
      var answer;
      answer, log := Send(chunks[i], answers, log);
      if answer.Some? {
        var next := answer.value;
        if current.Some? {
          next := MergeInto(current.value, next);
        }
        ClusterTakes(words, size, answers, chunks, i, before, current, next);
        current := Some(next);
        i := i + 1;
      } else if |chunks[i]| > 1 {
        ClusterSplits(words, size, answers, chunks, i, before, current);
        chunks := Halved(chunks, i);
      } else {
        ClusterStops(words, size, answers, chunks, i, before, current);
        return Err("single word failed"), log, chunks;
      }
    }
    ClusterReturns(words, size, answers, chunks, log, current);
    return Ok(current.value), log, chunks;
  }

  lemma NothingSent<A>(answers: seq<Option<A>>, size: nat)
    requires size > 0
    ensures LogSays(answers, [], [], false) && Accepted(answers, 0) == []
    ensures FixedChunks<Word>([], size) == [] && Flatten<Word>([]) == []
    ensures OnlyHalved([], size, answers, [], [], false)
  {
    RefinesSelf<Word>([]);
  }

  /** `answers[n]` is what the n-th call returns: clusters, or nothing usable.  A normal
      return took the words exactly as the accepted chunks, in order; the calls are at
      most two per word less one per first chunk. */
  method ClusterWords(words: seq<Word>, chunkSize: int, answers: seq<Option<Clusters>>)
    returns (r: Result<Clusters>, log: seq<seq<Word>>, chunks: seq<seq<Word>>)
    ensures chunkSize == 0 ==> r.Err? && log == []
    ensures chunkSize < 0 ==> r == Ok(map[]) && log == []
    ensures chunkSize > 0 ==> |log| <= 2 * |words| - |FixedChunks(words, chunkSize)|
    ensures chunkSize > 0 ==> Flatten(chunks) == words && NonEmpty(chunks)
    ensures chunkSize > 0 ==> LogSays(answers, log, chunks, r.Err?)
    ensures chunkSize > 0 ==> OnlyHalved(words, chunkSize, answers, log, chunks, r.Err?)
    ensures r.Ok? && chunkSize > 0 ==> r.value == Merged(Accepted(answers, |log|))
  {
    if chunkSize == 0 {
      return Err("step must not be zero"), [], [];
    }
    if chunkSize < 0 || words == [] {
      if chunkSize > 0 {
        NothingSent(answers, chunkSize);
      }
      return Ok(map[]), [], [];
    }
    r, log, chunks := ClusterLoop(words, chunkSize, answers);
  }

  // ------------------------------------------------------------ named clusters

  datatype Cluster = Cluster(name: Topic, codes: seq<Word>)

  /** Every (cluster name, code) a list of clusters holds. */
  function Pairs(cs: seq<Cluster>): multiset<(Topic, Word)> {
    if cs == [] then multiset{} else Pairs(cs[..|cs| - 1]) + Named(cs[|cs| - 1])
  }

  function Tagged(name: Topic, codes: seq<Word>): seq<(Topic, Word)> {
    seq(|codes|, i requires 0 <= i < |codes| => (name, codes[i]))
  }

  function Named(c: Cluster): multiset<(Topic, Word)> {
    multiset(Tagged(c.name, c.codes))
  }

  lemma NamedConcat(name: Topic, a: seq<Word>, b: seq<Word>)
    ensures Named(Cluster(name, a + b)) == Named(Cluster(name, a)) + Named(Cluster(name, b))
  {
    assert Tagged(name, a + b) == Tagged(name, a) + Tagged(name, b);
  }

  lemma PairsPush(cs: seq<Cluster>, c: Cluster)
    ensures Pairs(cs + [c]) == Pairs(cs) + Named(c)
  {
    assert (cs + [c])[..|cs|] == cs;
  }

  lemma {:induction false} PairsSet(cs: seq<Cluster>, k: nat, c: Cluster)
    requires k < |cs|
    ensures Pairs(cs[k := c]) + Named(cs[k]) == Pairs(cs) + Named(c)
    decreases |cs|
  {
    hide Named;
    var n := |cs| - 1;
    if k == n {
      assert cs[k := c][..n] == cs[..n];
    } else {
      assert cs[k := c][..n] == cs[..n][k := c] && cs[..n][k] == cs[k] && cs[k := c][n] == cs[n];
      PairsSet(cs[..n], k, c);
      var x, old_, new_, front, last := Pairs(cs[..n][k := c]), Named(cs[k]), Named(c), Pairs(cs[..n]), Named(cs[n]);
      assert x + last + old_ == x + old_ + last == front + new_ + last == front + last + new_;
    }
  }

  /** The index a dictionary by name ends up with: the last cluster of that name. */
  function ByName(cs: seq<Cluster>): map<Topic, nat> {
    if cs == [] then map[] else ByName(cs[..|cs| - 1])[cs[|cs| - 1].name := |cs| - 1]
  }

  lemma {:induction false} ByNameIn(cs: seq<Cluster>, name: Topic)
    ensures name in ByName(cs) <==> exists k :: 0 <= k < |cs| && cs[k].name == name
    ensures name in ByName(cs) ==> ByName(cs)[name] < |cs| && cs[ByName(cs)[name]].name == name
    decreases |cs|
  {
    if cs != [] {
      var front := cs[..|cs| - 1];
      ByNameIn(front, name);
      assert forall k :: 0 <= k < |front| ==> front[k] == cs[k];
    }
  }

  /** `r` is `cur` with codes added to its clusters, followed by clusters of new names. */
  ghost predicate Grown(cur: seq<Cluster>, r: seq<Cluster>, more: seq<Cluster>) {
    && |cur| <= |r|
    && (forall k :: 0 <= k < |cur| ==> r[k].name == cur[k].name && cur[k].codes <= r[k].codes)
    && (forall k :: |cur| <= k < |r| ==> r[k] in more && r[k].name !in ByName(cur))
  }

  lemma Cancel<E>(a: multiset<E>, b: multiset<E>, x: multiset<E>)
    requires a + x == b + x
    ensures a == b
  {
    forall e ensures a[e] == b[e] {
      assert (a + x)[e] == (b + x)[e];
    }
  }

  lemma PairsExtend(r: seq<Cluster>, k: nat, codes: seq<Word>)
    requires k < |r|
    ensures Pairs(r[k := Cluster(r[k].name, r[k].codes + codes)]) == Pairs(r) + Named(Cluster(r[k].name, codes))
  {
    var now, more := Cluster(r[k].name, r[k].codes + codes), Cluster(r[k].name, codes);
    NamedConcat(r[k].name, r[k].codes, codes);
    PairsSet(r, k, now);
    hide Pairs, Named;
    Cancel(Pairs(r[k := now]), Pairs(r) + Named(more), Named(r[k]));
  }

  lemma Extends(cur: seq<Cluster>, r: seq<Cluster>, more: seq<Cluster>, k: nat, codes: seq<Word>)
    requires Grown(cur, r, more) && k < |cur|
    ensures Grown(cur, r[k := Cluster(r[k].name, r[k].codes + codes)], more)
  {
    hide ByName;
  }

  function Names(cs: seq<Cluster>): seq<Topic> {
    seq(|cs|, i requires 0 <= i < |cs| => cs[i].name)
  }

  predicate Distinct(names: seq<Topic>) {
    forall i, j :: 0 <= i < j < |names| ==> names[i] != names[j]
  }

  /** The clusters of `more` whose names `cur` does not have, in order. */
  function Absent(cur: seq<Cluster>, more: seq<Cluster>): seq<Cluster> {
    if more == [] then []
    else
      var c := more[|more| - 1];
      Absent(cur, more[..|more| - 1]) + if c.name in Names(cur) then [] else [c]
  }

  /** The dictionary leads to the last cluster of a name. */
  lemma {:induction false} ByNameLast(cs: seq<Cluster>, k: nat)
    requires k < |cs|
    ensures cs[k].name in ByName(cs) && k <= ByName(cs)[cs[k].name]
    decreases |cs|
  {
    var front := cs[..|cs| - 1];
    if k < |front| {
      ByNameLast(front, k);
      assert front[k] == cs[k];
    }
  }

  /** The codes the clusters of one name hold, in order. */
  function Given(name: Topic, cs: seq<Cluster>): seq<Word> {
    if cs == [] then []
    else
      var c := cs[|cs| - 1];
      Given(name, cs[..|cs| - 1]) + if c.name == name then c.codes else []
  }

  lemma GivenPush(name: Topic, cs: seq<Cluster>, c: Cluster)
    ensures Given(name, cs + [c]) == Given(name, cs) + if c.name == name then c.codes else []
  {
    assert (cs + [c])[..|cs|] == cs;
  }

  /** Two facts that fix it: one cluster gives its codes to its own name only, and lists
      of clusters give theirs one after the other. */
  lemma {:induction false} GivenSays(name: Topic, c: Cluster, front: seq<Cluster>, back: seq<Cluster>)
    ensures Given(name, [c]) == if c.name == name then c.codes else []
    ensures Given(name, front + back) == Given(name, front) + Given(name, back)
    decreases |back|
  {
    GivenPush(name, [], c);
    assert [] + [c] == [c];
    if back == [] {
      assert front + back == front;
    } else {
      var rest, last := back[..|back| - 1], back[|back| - 1];
      assert front + back == (front + rest) + [last] && back == rest + [last];
      GivenSays(name, c, front, rest);
      GivenPush(name, front + rest, last);
      GivenPush(name, rest, last);
    }
  }

  predicate LastOfItsName(cs: seq<Cluster>, k: nat)
    requires k < |cs|
  {
    forall j :: k < j < |cs| ==> cs[j].name != cs[k].name
  }

  /** What `more` gives a name goes to the last cluster of that name, behind its codes. */
  ghost predicate Extended(cur: seq<Cluster>, more: seq<Cluster>, r: seq<Cluster>) {
    && |cur| <= |r|
    && forall k :: 0 <= k < |cur| ==>
      r[k] == Cluster(cur[k].name, cur[k].codes + if LastOfItsName(cur, k) then Given(cur[k].name, more) else [])
  }

  lemma GivenNext(cur: seq<Cluster>, front: seq<Cluster>, c: Cluster, j: nat)
    requires j < |cur|
    ensures cur[j].name == c.name ==>
      cur[j].codes + Given(cur[j].name, front + [c]) == cur[j].codes + Given(cur[j].name, front) + c.codes
    ensures cur[j].name != c.name ==> Given(cur[j].name, front + [c]) == Given(cur[j].name, front)
  {
    GivenPush(cur[j].name, front, c);
    hide Given;
    if cur[j].name != c.name {
      assert Given(cur[j].name, front) + [] == Given(cur[j].name, front);
    }
  }

  lemma ExtendedMore(cur: seq<Cluster>, front: seq<Cluster>, c: Cluster, r: seq<Cluster>, k: nat)
    requires Extended(cur, front, r) && k < |cur| && cur[k].name == c.name && LastOfItsName(cur, k)
    ensures Extended(cur, front + [c], r[k := Cluster(r[k].name, r[k].codes + c.codes)])
  {
    hide Given;
    var r' := r[k := Cluster(r[k].name, r[k].codes + c.codes)];
    forall j | 0 <= j < |cur|
      ensures r'[j] == Cluster(cur[j].name, cur[j].codes + if LastOfItsName(cur, j) then Given(cur[j].name, front + [c]) else [])
    {
      GivenNext(cur, front, c, j);
    }
  }

  lemma ExtendedNot(cur: seq<Cluster>, front: seq<Cluster>, c: Cluster, r: seq<Cluster>)
    requires Extended(cur, front, r) && c.name !in Names(cur)
    ensures Extended(cur, front + [c], r + [c])
  {
    hide Given;
    forall j | 0 <= j < |cur|
      ensures (r + [c])[j] == Cluster(cur[j].name, cur[j].codes + if LastOfItsName(cur, j) then Given(cur[j].name, front + [c]) else [])
    {
      GivenNext(cur, front, c, j);
      assert Names(cur)[j] == cur[j].name;
    }
  }

  lemma ByNameNames(cs: seq<Cluster>, name: Topic)
    ensures name in ByName(cs) <==> name in Names(cs)
  {
    ByNameIn(cs, name);
    hide ByName;
    if k :| 0 <= k < |cs| && cs[k].name == name {
      assert Names(cs)[k] == name;
    }
  }

  lemma AbsentPush(cur: seq<Cluster>, more: seq<Cluster>, c: Cluster)
    ensures Absent(cur, more + [c]) == Absent(cur, more) + if c.name in Names(cur) then [] else [c]
  {
    assert (more + [c])[..|more|] == more;
  }

  /** Two facts that fix it: a cluster is absent when none of `cur` has its name, and those
      absent of two lists follow one another. */
  lemma {:induction false} AbsentSays(cur: seq<Cluster>, c: Cluster, front: seq<Cluster>, back: seq<Cluster>)
    ensures Absent(cur, [c]) == if exists k :: 0 <= k < |cur| && cur[k].name == c.name then [] else [c]
    ensures Absent(cur, front + back) == Absent(cur, front) + Absent(cur, back)
    decreases |back|
  {
    AbsentPush(cur, [], c);
    assert [] + [c] == [c];
    ByNameNames(cur, c.name);
    ByNameIn(cur, c.name);
    hide Names, ByName;
    if back == [] {
      assert front + back == front;
    } else {
      var rest, last := back[..|back| - 1], back[|back| - 1];
      assert front + back == (front + rest) + [last] && back == rest + [last];
      AbsentSays(cur, c, front, rest);
      AbsentPush(cur, front + rest, last);
      AbsentPush(cur, rest, last);
    }
  }

  /** The clusters that were there keep their names and places; those with new names
      follow in the order of the answer. */
  ghost predicate Lined(cur: seq<Cluster>, more: seq<Cluster>, r: seq<Cluster>) {
    |cur| <= |r| && r[|cur|..] == Absent(cur, more) && Names(r) == Names(cur) + Names(Absent(cur, more))
  }

  lemma {:induction false} AbsentIsNew(cur: seq<Cluster>, more: seq<Cluster>)
    ensures forall c :: c in Absent(cur, more) ==> c in more && c.name !in Names(cur)
    decreases |more|
  {
    if more != [] {
      AbsentIsNew(cur, more[..|more| - 1]);
    }
  }

  lemma DistinctJoined(a: seq<Topic>, b: seq<Topic>)
    requires forall t :: t in b ==> t !in a
    ensures Distinct(a + b) <==> Distinct(a) && Distinct(b)
  {
    var all := a + b;
    assert forall i :: 0 <= i < |a| ==> all[i] == a[i];
    assert forall j :: 0 <= j < |b| ==> all[|a| + j] == b[j];
    if Distinct(a) && Distinct(b) {
      forall i, j | 0 <= i < j < |all| ensures all[i] != all[j] {
        if i < |a| <= j {
          assert a[i] in a && b[j - |a|] in b;
        }
      }
    }
  }

  /** A merge leaves distinct names exactly when the old names and the new ones among
      the answer's are distinct: the answer may repeat a name `cur` has, but not one it
      has not. */
  lemma NamesDistinctIff(cur: seq<Cluster>, more: seq<Cluster>, r: seq<Cluster>)
    requires Lined(cur, more, r)
    ensures Distinct(Names(r)) <==> Distinct(Names(cur)) && Distinct(Names(Absent(cur, more)))
  {
    var added := Absent(cur, more);
    AbsentIsNew(cur, more);
    hide Absent, Distinct;
    forall t | t in Names(added) ensures t !in Names(cur) {
      var j :| 0 <= j < |added| && Names(added)[j] == t;
      assert added[j] in added;
    }
    DistinctJoined(Names(cur), Names(added));
  }

  /** After the first j new clusters. */
  ghost predicate Merging(cur: seq<Cluster>, more: seq<Cluster>, j: nat, r: seq<Cluster>) {
    && j <= |more| && Pairs(r) == Pairs(cur) + Pairs(more[..j]) && Grown(cur, r, more) && Lined(cur, more[..j], r)
    && Extended(cur, more[..j], r)
  }

  lemma MergingStarts(cur: seq<Cluster>, more: seq<Cluster>)
    ensures Merging(cur, more, 0, cur)
  {
    assert more[..0] == [];
    assert Names(cur) + Names([]) == Names(cur);
    assert Extended(cur, [], cur);
  }

  lemma LinedExtends(cur: seq<Cluster>, front: seq<Cluster>, c: Cluster, r: seq<Cluster>, k: nat, codes: seq<Word>)
    requires Lined(cur, front, r) && k < |cur| && cur[k].name == c.name
    ensures Lined(cur, front + [c], r[k := Cluster(r[k].name, r[k].codes + codes)])
  {
    var r' := r[k := Cluster(r[k].name, r[k].codes + codes)];
    assert Names(cur)[k] == c.name;
    AbsentPush(cur, front, c);
    hide Absent;
    assert Absent(cur, front) + [] == Absent(cur, front);
    assert r'[|cur|..] == r[|cur|..] && Names(r') == Names(r);
  }

  lemma LinedAppends(cur: seq<Cluster>, front: seq<Cluster>, c: Cluster, r: seq<Cluster>)
    requires Lined(cur, front, r) && c.name !in ByName(cur)
    ensures Lined(cur, front + [c], r + [c])
  {
    ByNameNames(cur, c.name);
    AbsentPush(cur, front, c);
    hide Absent, ByName;
    assert Names(r + [c]) == Names(r) + [c.name];
    assert Names(Absent(cur, front) + [c]) == Names(Absent(cur, front)) + [c.name];
  }

  lemma AddShifts<E>(a: multiset<E>, b: multiset<E>, c: multiset<E>)
    ensures (a + b) + c == a + (b + c)
  {
  }

  lemma MergingExtends(cur: seq<Cluster>, more: seq<Cluster>, j: nat, r: seq<Cluster>, k: nat)
    requires Merging(cur, more, j, r) && j < |more| && k < |cur| && more[j].name == cur[k].name && LastOfItsName(cur, k)
    ensures k < |r| && Merging(cur, more, j + 1, r[k := Cluster(r[k].name, r[k].codes + more[j].codes)])
  {
    var front, c := more[..j], more[j];
    assert more[..j + 1] == front + [c];
    assert |cur| <= |r| && r[k].name == c.name;
    assert c == Cluster(r[k].name, c.codes);
    hide Pairs, Named, Grown, ByName, Lined, Extended, LastOfItsName;
    ExtendedMore(cur, front, c, r, k);
    PairsPush(front, c);
    Extends(cur, r, more, k, c.codes);
    PairsExtend(r, k, c.codes);
    AddShifts(Pairs(cur), Pairs(front), Named(c));
    LinedExtends(cur, front, c, r, k, c.codes);
  }

  lemma PairsAppend(cur: seq<Cluster>, front: seq<Cluster>, c: Cluster, r: seq<Cluster>)
    requires Pairs(r) == Pairs(cur) + Pairs(front)
    ensures Pairs(r + [c]) == Pairs(cur) + Pairs(front + [c])
  {
    PairsPush(front, c);
    PairsPush(r, c);
    hide Pairs, Named;
    AddShifts(Pairs(cur), Pairs(front), Named(c));
  }

  lemma ExtendedAppends(cur: seq<Cluster>, front: seq<Cluster>, c: Cluster, r: seq<Cluster>)
    requires Extended(cur, front, r) && c.name !in ByName(cur)
    ensures Extended(cur, front + [c], r + [c])
  {
    ByNameNames(cur, c.name);
    hide ByName, Extended;
    ExtendedNot(cur, front, c, r);
  }

  lemma MergingAppends(cur: seq<Cluster>, more: seq<Cluster>, j: nat, r: seq<Cluster>)
    requires Merging(cur, more, j, r) && j < |more| && more[j].name !in ByName(cur)
    ensures Merging(cur, more, j + 1, r + [more[j]])
  {
    var front, c := more[..j], more[j];
    assert more[..j + 1] == front + [c];
    hide Pairs, Named, Grown, ByName, Lined, Extended, Names;
    ExtendedAppends(cur, front, c, r);
    PairsAppend(cur, front, c, r);
    GrownPush(cur, r, more, c);
    LinedAppends(cur, front, c, r);
  }

  /** New clusters extend an old one of the same name or are appended.  The dictionary is
      built before, so a name that occurs twice among the new clusters is appended twice. */
  method MergeClusters(cur: seq<Cluster>, more: seq<Cluster>) returns (r: seq<Cluster>)
    ensures Joined(cur, more, r) && Grown(cur, r, more) && Lined(cur, more, r) && Extended(cur, more, r)
  {
    hide Pairs, Grown, Lined, Extended;
    r := MergeLoop(cur, more, ByName(cur));
    assert more[..|more|] == more;
  }

  /** Two new clusters of one name in one answer are both appended. */
  lemma RepeatedNewName(name: Topic, r: seq<Cluster>)
    requires Lined([], [Cluster(name, []), Cluster(name, [])], r)
    ensures Names(r) == [name, name] && !Distinct(Names(r))
  {
    var c := Cluster(name, []);
    AbsentPush([], [c], c);
    AbsentPush([], [], c);
    assert [] + [c] == [c] && [c] + [c] == [c, c];
    assert Names([]) + Names([c, c]) == [name, name];
    assert Names(r)[0] == name && Names(r)[1] == name;
  }

  lemma LeadsToLast(cs: seq<Cluster>, name: Topic)
    requires name in ByName(cs)
    ensures ByName(cs)[name] < |cs| && LastOfItsName(cs, ByName(cs)[name])
  {
    ByNameIn(cs, name);
    forall j | 0 <= j < |cs| && cs[j].name == name ensures j <= ByName(cs)[name] {
      ByNameLast(cs, j);
    }
  }

  method MergeLoop(cur: seq<Cluster>, more: seq<Cluster>, byName: map<Topic, nat>) returns (r: seq<Cluster>)
    requires byName == ByName(cur)
    ensures Merging(cur, more, |more|, r)
  {
    r := cur;
    MergingStarts(cur, more);
    hide Merging, ByName;
    for j := 0 to |more|
      invariant Merging(cur, more, j, r)
    {
      var nc := more[j];
      ByNameIn(cur, nc.name);
      if nc.name in byName {
        LeadsToLast(cur, nc.name);
        var k := byName[nc.name];
        MergingExtends(cur, more, j, r, k);
        r := r[k := Cluster(r[k].name, r[k].codes + nc.codes)];
      } else {
        MergingAppends(cur, more, j, r);
        r := r + [nc];
      }
    }
  }

  ghost predicate Joined(cur: seq<Cluster>, more: seq<Cluster>, r: seq<Cluster>) {
    Pairs(r) == Pairs(cur) + Pairs(more)
  }

  lemma GrownPush(cur: seq<Cluster>, r: seq<Cluster>, more: seq<Cluster>, c: Cluster)
    requires Grown(cur, r, more) && c in more && c.name !in ByName(cur)
    ensures Grown(cur, r + [c], more)
  {
    hide ByName;
  }

  function AllPairs(answers: seq<seq<Cluster>>): multiset<(Topic, Word)> {
    if answers == [] then multiset{} else AllPairs(answers[..|answers| - 1]) + Pairs(answers[|answers| - 1])
  }

  /** The clusters hold what the answers held. */
  ghost predicate Conserves(cs: seq<Cluster>, answers: seq<seq<Cluster>>) {
    Pairs(cs) == AllPairs(answers)
  }

  ghost predicate Follows(current: Option<seq<Cluster>>, more: seq<Cluster>, next: seq<Cluster>) {
    if current.None? then next == more else Joined(current.value, more, next)
  }

  method Follow(current: Option<seq<Cluster>>, more: seq<Cluster>) returns (next: seq<Cluster>)
    ensures Follows(current, more, next)
  {
    next := more;
    if current.Some? {
      next := MergeClusters(current.value, more);
    }
  }

  ghost predicate HierarchyState(keys: seq<Word>, size: nat, answers: seq<Option<seq<Cluster>>>, chunks: seq<seq<Word>>, i: nat, calls: nat,
    current: Option<seq<Cluster>>) {
    && size > 0 && Progress(keys, size, chunks, i, calls) && |Accepted(answers, calls)| == i
    && if i == 0 then current.None? else current.Some? && Conserves(current.value, Accepted(answers, calls))
  }

  lemma HierarchyStarts(keys: seq<Word>, size: nat, answers: seq<Option<seq<Cluster>>>)
    requires size > 0 && keys != []
    ensures HierarchyState(keys, size, answers, FixedChunks(keys, size), 0, 0, None) && 0 < |FixedChunks(keys, size)| <= |keys|
  {
    ProgressStarts(keys, size);
  }

  lemma HierarchyAccepts(keys: seq<Word>, size: nat, answers: seq<Option<seq<Cluster>>>, chunks: seq<seq<Word>>, i: nat, calls: nat,
    current: Option<seq<Cluster>>, next: seq<Cluster>)
    requires HierarchyState(keys, size, answers, chunks, i, calls, current) && i < |chunks| && Call(answers, calls).Some?
    requires Follows(current, Call(answers, calls).value, next)
    ensures HierarchyState(keys, size, answers, chunks, i + 1, calls + 1, Some(next))
  {
    AcceptedNext(answers, calls);
    ProgressAccepts(keys, size, chunks, i, calls);
    AllPairsPush(Accepted(answers, calls), Call(answers, calls).value);
    hide Progress, Accepted, Call, Pairs, AllPairs;
  }

  lemma AllPairsPush(answers: seq<seq<Cluster>>, cs: seq<Cluster>)
    ensures AllPairs(answers + [cs]) == AllPairs(answers) + Pairs(cs)
    ensures answers == [] ==> AllPairs(answers + [cs]) == Pairs(cs)
  {
    assert (answers + [cs])[..|answers|] == answers;
    if answers == [] {
      assert AllPairs([]) == multiset{} && multiset{} + Pairs(cs) == Pairs(cs);
    }
  }

  lemma HierarchyHalves(keys: seq<Word>, size: nat, answers: seq<Option<seq<Cluster>>>, chunks: seq<seq<Word>>, i: nat, calls: nat,
    current: Option<seq<Cluster>>, r: seq<seq<Word>>)
    requires HierarchyState(keys, size, answers, chunks, i, calls, current) && i < |chunks| && |chunks[i]| > 1
    requires Call(answers, calls).None? && r == Halved(chunks, i)
    ensures HierarchyState(keys, size, answers, r, i, calls + 1, current) && |chunks| < |r| <= |keys|
  {
    AcceptedNext(answers, calls);
    ProgressHalves(keys, size, chunks, i, calls);
    ProgressEnds(keys, size, r, i, calls + 1);
    hide Progress, Accepted, Call, Halved, Pairs, AllPairs;
  }

  lemma HierarchyFails(keys: seq<Word>, size: nat, answers: seq<Option<seq<Cluster>>>, chunks: seq<seq<Word>>, i: nat, calls: nat,
    current: Option<seq<Cluster>>)
    requires HierarchyState(keys, size, answers, chunks, i, calls, current) && i < |chunks|
    ensures chunks[i] != [] && calls + 1 <= 2 * |keys| - |FixedChunks(keys, size)|
    ensures Flatten(chunks) == keys && NonEmpty(chunks)
  {
    ProgressAccepts(keys, size, chunks, i, calls);
    ProgressEnds(keys, size, chunks, i, calls);
    hide Progress, Accepted, Call, Pairs, AllPairs;
  }

  lemma HierarchyEnds(keys: seq<Word>, size: nat, answers: seq<Option<seq<Cluster>>>, chunks: seq<seq<Word>>, calls: nat,
    current: Option<seq<Cluster>>)
    requires HierarchyState(keys, size, answers, chunks, |chunks|, calls, current)
    ensures calls <= 2 * |keys| - |FixedChunks(keys, size)| && Flatten(chunks) == keys && NonEmpty(chunks)
    ensures current.Some? && Conserves(current.value, Accepted(answers, calls))
  {
    ProgressEnds(keys, size, chunks, |chunks|, calls);
    hide Progress, Accepted, Call, Pairs, AllPairs;
  }

  ghost predicate HierarchyStage(keys: seq<Word>, size: nat, answers: seq<Option<seq<Cluster>>>, chunks: seq<seq<Word>>, i: nat,
    log: seq<seq<Word>>, current: Option<seq<Cluster>>) {
    HierarchyState(keys, size, answers, chunks, i, |log|, current) && Logged(answers, log, chunks, i) && UpTo(log, size)
  }

  lemma HierarchyBegins(keys: seq<Word>, size: nat, answers: seq<Option<seq<Cluster>>>)
    requires size > 0 && keys != []
    ensures HierarchyStage(keys, size, answers, FixedChunks(keys, size), 0, [], None) && |FixedChunks(keys, size)| <= |keys|
  {
    HierarchyStarts(keys, size, answers);
    LoggedStarts(answers, FixedChunks(keys, size));
    hide HierarchyState, Logged, FixedChunks;
  }

  lemma HierarchySends(keys: seq<Word>, size: nat, answers: seq<Option<seq<Cluster>>>, chunks: seq<seq<Word>>, i: nat,
    log: seq<seq<Word>>, current: Option<seq<Cluster>>)
    requires HierarchyStage(keys, size, answers, chunks, i, log, current) && i < |chunks|
    ensures UpTo(log + [chunks[i]], size)
  {
    hide Logged, Accepted;
    ProgressAccepts(keys, size, chunks, i, |log|);
  }

  lemma HierarchyTakes(keys: seq<Word>, size: nat, answers: seq<Option<seq<Cluster>>>, chunks: seq<seq<Word>>, i: nat,
    log: seq<seq<Word>>, current: Option<seq<Cluster>>, next: seq<Cluster>)
    requires HierarchyStage(keys, size, answers, chunks, i, log, current) && i < |chunks| && Call(answers, |log|).Some?
    requires Follows(current, Call(answers, |log|).value, next)
    ensures HierarchyStage(keys, size, answers, chunks, i + 1, log + [chunks[i]], Some(next))
  {
    hide HierarchyState, Logged, Call, Follows;
    HierarchyAccepts(keys, size, answers, chunks, i, |log|, current, next);
    LoggedAccepts(answers, log, chunks, i);
    HierarchySends(keys, size, answers, chunks, i, log, current);
  }

  lemma HierarchySplits(keys: seq<Word>, size: nat, answers: seq<Option<seq<Cluster>>>, chunks: seq<seq<Word>>, i: nat,
    log: seq<seq<Word>>, current: Option<seq<Cluster>>)
    requires HierarchyStage(keys, size, answers, chunks, i, log, current) && i < |chunks| && |chunks[i]| > 1
    requires Call(answers, |log|).None?
    ensures HierarchyStage(keys, size, answers, Halved(chunks, i), i, log + [chunks[i]], current)
    ensures |chunks| < |Halved(chunks, i)| <= |keys|
  {
    hide HierarchyState, Logged, Call, Halved;
    HierarchyHalves(keys, size, answers, chunks, i, |log|, current, Halved(chunks, i));
    LoggedHalves(answers, log, chunks, i);
    HierarchySends(keys, size, answers, chunks, i, log, current);
  }

  lemma HierarchyGoing(keys: seq<Word>, size: nat, answers: seq<Option<seq<Cluster>>>, chunks: seq<seq<Word>>, i: nat,
    log: seq<seq<Word>>, current: Option<seq<Cluster>>)
    requires HierarchyStage(keys, size, answers, chunks, i, log, current)
    ensures size > 0 && Progress(keys, size, chunks, i, |log|) && Logged(answers, log, chunks, i) && UpTo(log, size)
  {
  }

  lemma HierarchyStops(keys: seq<Word>, size: nat, answers: seq<Option<seq<Cluster>>>, chunks: seq<seq<Word>>, i: nat,
    log: seq<seq<Word>>, current: Option<seq<Cluster>>)
    requires HierarchyStage(keys, size, answers, chunks, i, log, current) && i < |chunks| && |chunks[i]| <= 1
    requires Call(answers, |log|).None?
    ensures |log| + 1 <= 2 * |keys| - |FixedChunks(keys, size)| && Flatten(chunks) == keys && NonEmpty(chunks)
    ensures LogSays(answers, log + [chunks[i]], chunks, true)
    ensures OnlyHalved(keys, size, answers, log + [chunks[i]], chunks, true)
  {
    HierarchyGoing(keys, size, answers, chunks, i, log, current);
    hide OnlyHalved, HierarchyState, Logged, Call, FixedChunks, Flatten, LogSays;
    HierarchyFails(keys, size, answers, chunks, i, |log|, current);
    StopsHalved(keys, size, answers, log, chunks, i);
    LogFails(answers, log, chunks, i);
  }

  lemma HierarchyReturns(keys: seq<Word>, size: nat, answers: seq<Option<seq<Cluster>>>, chunks: seq<seq<Word>>,
    log: seq<seq<Word>>, current: Option<seq<Cluster>>)
    requires HierarchyStage(keys, size, answers, chunks, |chunks|, log, current)
    ensures |log| <= 2 * |keys| - |FixedChunks(keys, size)| && Flatten(chunks) == keys && NonEmpty(chunks)
    ensures current.Some? && Conserves(current.value, Accepted(answers, |log|)) && LogSays(answers, log, chunks, false)
    ensures OnlyHalved(keys, size, answers, log, chunks, false)
  {
    HierarchyGoing(keys, size, answers, chunks, |chunks|, log, current);
    hide OnlyHalved, HierarchyState, Logged, FixedChunks, Flatten, LogSays, NonEmpty, Conserves, Accepted;
    HierarchyEnds(keys, size, answers, chunks, |log|, current);
    ReturnsHalved(keys, size, answers, log, chunks);
    LogEnds(answers, log, chunks);
  }

  method HierarchyLoop(keys: seq<Word>, size: nat, answers: seq<Option<seq<Cluster>>>)
    returns (r: Result<seq<Cluster>>, log: seq<seq<Word>>, chunks: seq<seq<Word>>)
    requires size > 0 && keys != []
    ensures |log| <= 2 * |keys| - |FixedChunks(keys, size)| && Flatten(chunks) == keys && NonEmpty(chunks)
    ensures LogSays(answers, log, chunks, r.Err?) && OnlyHalved(keys, size, answers, log, chunks, r.Err?)
    ensures r.Ok? ==> Conserves(r.value, Accepted(answers, |log|))
  {
    log, chunks := [], FixedChunks(keys, size);
    HierarchyBegins(keys, size, answers);
    hide HierarchyStage, LogSays, OnlyHalved, Flatten, FixedChunks, NonEmpty, Accepted, Halved, Follows, Conserves, Call;
    var current: Option<seq<Cluster>> := None;
    var i := 0;
    while i < |chunks|
      invariant HierarchyStage(keys, size, answers, chunks, i, log, current) && i <= |chunks| <= |keys|
      decreases 2 * |keys| - i - |chunks|
    {
      ghost var before := log;
      var answer;
      answer, log := Send(chunks[i], answers, log);
      if answer.Some? {
        var next := Follow(current, answer.value);
        HierarchyTakes(keys, size, answers, chunks, i, before, current, next);
        current := Some(next);
        i := i + 1;
      } else if |chunks[i]| > 1 {
        HierarchySplits(keys, size, answers, chunks, i, before, current);
        chunks := Halved(chunks, i);
      } else {
        HierarchyStops(keys, size, answers, chunks, i, before, current);
        return Err("call failed"), log, chunks;
      }
    }
    HierarchyReturns(keys, size, answers, chunks, log, current);
    return Ok(current.value), log, chunks;
  }

  /** The hierarchy builder: a call that raises halves its chunk, and a single item that
      raises ends the run.  On return the clusters hold exactly what all accepted
      answers held. */
  method BatchHierarchy(keys: seq<Word>, chunkSize: int, answers: seq<Option<seq<Cluster>>>)
    returns (r: Result<seq<Cluster>>, log: seq<seq<Word>>, chunks: seq<seq<Word>>)
    ensures chunkSize == 0 ==> r.Err? && log == []
    ensures chunkSize < 0 ==> r == Ok([]) && log == []
    ensures chunkSize > 0 ==> |log| <= 2 * |keys| - |FixedChunks(keys, chunkSize)|
    ensures chunkSize > 0 ==> Flatten(chunks) == keys && NonEmpty(chunks)
    ensures chunkSize > 0 ==> LogSays(answers, log, chunks, r.Err?)
    ensures chunkSize > 0 ==> OnlyHalved(keys, chunkSize, answers, log, chunks, r.Err?)
    ensures r.Ok? && chunkSize > 0 ==> Conserves(r.value, Accepted(answers, |log|))
  {
    if chunkSize == 0 {
      return Err("step must not be zero"), [], [];
    }
    if chunkSize < 0 || keys == [] {
      if chunkSize > 0 {
        NothingSent(answers, chunkSize);
        assert Conserves([], []);
      }
      return Ok([]), [], [];
    }
    r, log, chunks := HierarchyLoop(keys, chunkSize, answers);
  }
}
