/** Greedy packing under a token budget. */
module Packing {

  function Flatten<T>(parts: seq<seq<T>>): seq<T> {
    if parts == [] then [] else Flatten(parts[..|parts| - 1]) + parts[|parts| - 1]
  }

  // ------------------------------------------------------------ greedy is optimal

  /** What holds of a part holds of every non-empty stretch of it. */
  ghost predicate Hereditary<T(!new)>(ok: seq<T> -> bool) {
    forall s: seq<T>, i, j :: 0 <= i < j <= |s| && ok(s) ==> ok(s[i..j])
  }

  ghost predicate SplitOf<T>(ok: seq<T> -> bool, parts: seq<seq<T>>, all: seq<T>) {
    Flatten(parts) == all && forall k :: 0 <= k < |parts| ==> parts[k] != [] && ok(parts[k])
  }

  /** No part could have taken the first element of the next. */
  ghost predicate Greedy<T>(ok: seq<T> -> bool, parts: seq<seq<T>>) {
    forall k :: 0 <= k < |parts| - 1 && parts[k + 1] != [] ==> !ok(parts[k] + [parts[k + 1][0]])
  }

  /** How many elements the first k parts cover. */
  function Covered<T>(parts: seq<seq<T>>, k: nat): nat
    requires k <= |parts|
  {
    |Flatten(parts[..k])|
  }

  lemma {:induction false} Stretch<T>(parts: seq<seq<T>>, k: nat)
    requires k < |parts|
    ensures Covered(parts, k + 1) == Covered(parts, k) + |parts[k]| <= |Flatten(parts)|
    ensures Flatten(parts)[Covered(parts, k)..Covered(parts, k + 1)] == parts[k]
    decreases |parts|
  {
    var n := |parts| - 1;
    assert parts[..k + 1][..k] == parts[..k];
    if k == n {
      assert parts[..k + 1] == parts;
    } else {
      Stretch(parts[..n], k);
      assert parts[..n][..k] == parts[..k] && parts[..n][..k + 1] == parts[..k + 1];
    }
  }

  lemma OkStretch<T(!new)>(ok: seq<T> -> bool, all: seq<T>, from: nat, to: nat, lo: nat, hi: nat)
    requires Hereditary(ok) && from <= lo < hi <= to <= |all| && ok(all[from..to])
    ensures ok(all[lo..hi])
  {
    assert forall k :: 0 <= k < to - from ==> all[from..to][k] == all[from + k];
    assert all[from..to][lo - from..hi - from] == all[lo..hi];
  }

  lemma SliceOn<T>(all: seq<T>, lo: nat, hi: nat)
    requires lo <= hi < |all|
    ensures all[lo..hi + 1] == all[lo..hi] + [all[hi]]
  {
  }

  lemma SliceHead<T>(all: seq<T>, lo: nat, hi: nat)
    requires lo < hi <= |all|
    ensures all[lo..hi][0] == all[lo]
  {
  }

  lemma {:induction false} GreedyAhead<T(!new)>(ok: seq<T> -> bool, greedy: seq<seq<T>>, other: seq<seq<T>>, k: nat)
    requires Hereditary(ok) && Greedy(ok, greedy)
    requires SplitOf(ok, greedy, Flatten(greedy)) && SplitOf(ok, other, Flatten(greedy))
    requires k < |greedy| && k <= |other|
    ensures Covered(other, k) <= Covered(greedy, k)
    decreases k
  {
    if k > 0 {
      GreedyAhead(ok, greedy, other, k - 1);
      var all := Flatten(greedy);
      Stretch(greedy, k - 1);
      Stretch(greedy, k);
      Stretch(other, k - 1);
      var lo, hi := Covered(greedy, k - 1), Covered(greedy, k);
      var from, to := Covered(other, k - 1), Covered(other, k);
      SliceHead(all, hi, Covered(greedy, k + 1));
      SliceOn(all, lo, hi);
      if hi < to {
        OkStretch(ok, all, from, to, lo, hi + 1);
        assert false;
      }
    }
  }

  /** No split with the same guarantee has fewer parts than a greedy one. */
  lemma GreedyOptimal<T(!new)>(ok: seq<T> -> bool, greedy: seq<seq<T>>, other: seq<seq<T>>, all: seq<T>)
    requires Hereditary(ok) && Greedy(ok, greedy) && SplitOf(ok, greedy, all) && SplitOf(ok, other, all)
    ensures |greedy| <= |other|
  {
    assert other[..|other|] == other;
    if |other| < |greedy| {
      Stretch(greedy, |other|);
      GreedyAhead(ok, greedy, other, |other|);
      assert false;
    }
  }

  // ------------------------------------------------------------ codes into batches

  /** A code and the token count of its prompt section. */
  datatype Section = Section(code: string, tokens: nat)

  function Cost(s: seq<Section>): nat {
    if s == [] then 0 else Cost(s[..|s| - 1]) + s[|s| - 1].tokens
  }

  /** A batch fits the budget, or is one code that would not fit in any batch. */
  predicate BatchOk(fixedCost: nat, limit: int, b: seq<Section>) {
    |b| == 1 || fixedCost + Cost(b) <= limit
  }

  lemma {:induction false} CostConcat(a: seq<Section>, b: seq<Section>)
    ensures Cost(a + b) == Cost(a) + Cost(b)
    decreases |b|
  {
    if b == [] {
      assert a + b == a;
    } else {
      assert (a + b)[..|a + b| - 1] == a + b[..|b| - 1];
      CostConcat(a, b[..|b| - 1]);
    }
  }

  function Fits(fixedCost: nat, limit: int): seq<Section> -> bool {
    b => BatchOk(fixedCost, limit, b)
  }

  lemma CostStretch(s: seq<Section>, i: nat, j: nat)
    requires i <= j <= |s|
    ensures Cost(s[i..j]) <= Cost(s)
  {
    hide Cost;
    assert s == (s[..i] + s[i..j]) + s[j..];
    CostConcat(s[..i], s[i..j]);
    CostConcat(s[..i] + s[i..j], s[j..]);
  }

  lemma BatchesHereditary(fixedCost: nat, limit: int)
    ensures Hereditary(Fits(fixedCost, limit))
  {
    hide Cost;
    forall s: seq<Section>, i, j | 0 <= i < j <= |s| && Fits(fixedCost, limit)(s)
      ensures Fits(fixedCost, limit)(s[i..j])
    {
      CostStretch(s, i, j);
    }
  }

  predicate Overflows(fixedCost: nat, limit: int, b: seq<Section>, next: seq<Section>) {
    b != [] && next != [] && fixedCost + Cost(b) + next[0].tokens > limit
  }

  /** The batches closed so far and the open one. */
  ghost predicate Packed(fixedCost: nat, limit: int, batches: seq<seq<Section>>, cur: seq<Section>) {
    && (forall k :: 0 <= k < |batches| ==> batches[k] != [] && BatchOk(fixedCost, limit, batches[k]))
    && (forall k :: 0 <= k < |batches| - 1 ==> Overflows(fixedCost, limit, batches[k], batches[k + 1]))
    && (cur != [] ==> fixedCost + Cost(cur) <= limit)
    && (batches != [] ==>
          if cur == [] then fixedCost + Cost(batches[|batches| - 1]) > limit
          else Overflows(fixedCost, limit, batches[|batches| - 1], cur))
  }

  lemma Joins(fixedCost: nat, limit: int, batches: seq<seq<Section>>, cur: seq<Section>, c: Section)
    requires Packed(fixedCost, limit, batches, cur) && fixedCost + Cost(cur) + c.tokens <= limit
    ensures Packed(fixedCost, limit, batches, cur + [c])
  {
    assert Cost(cur + [c]) == Cost(cur) + c.tokens;
    hide Cost;
  }

  /** The open batch is closed because the next code does not fit into it. */
  lemma Closes(fixedCost: nat, limit: int, batches: seq<seq<Section>>, cur: seq<Section>, c: Section)
    requires Packed(fixedCost, limit, batches, cur) && cur != [] && fixedCost + Cost(cur) + c.tokens > limit
    ensures fixedCost + c.tokens <= limit ==> Packed(fixedCost, limit, batches + [cur], [c])
    ensures fixedCost + c.tokens > limit ==> Packed(fixedCost, limit, batches + [cur] + [[c]], [])
  {
    assert Cost([c]) == c.tokens;
    assert Overflows(fixedCost, limit, cur, [c]);
    hide Cost;
  }

  lemma StandsAlone(fixedCost: nat, limit: int, batches: seq<seq<Section>>, c: Section)
    requires Packed(fixedCost, limit, batches, []) && fixedCost + c.tokens > limit
    ensures Packed(fixedCost, limit, batches + [[c]], [])
  {
    assert Cost([c]) == c.tokens;
    assert batches != [] ==> Overflows(fixedCost, limit, batches[|batches| - 1], [c]);
    hide Cost;
  }

  lemma ClosesLast(fixedCost: nat, limit: int, batches: seq<seq<Section>>, cur: seq<Section>)
    requires Packed(fixedCost, limit, batches, cur) && cur != []
    ensures var all := batches + [cur];
            && (forall k :: 0 <= k < |all| ==> all[k] != [] && BatchOk(fixedCost, limit, all[k]))
            && (forall k :: 0 <= k < |all| - 1 ==> Overflows(fixedCost, limit, all[k], all[k + 1]))
  {
    hide Cost;
  }

  lemma CostPush(s: seq<Section>, c: Section)
    ensures Cost([]) == 0 && Cost([c]) == c.tokens && Cost(s + [c]) == Cost(s) + c.tokens
  {
  }

  lemma FlattenPush<T>(parts: seq<seq<T>>, p: seq<T>)
    ensures Flatten(parts + [p]) == Flatten(parts) + p
  {
    assert (parts + [p])[..|parts|] == parts;
  }

  /** The state of the loop after the first i codes. */
  ghost predicate PackedTo(codes: seq<Section>, i: nat, fixedCost: nat, limit: int, batches: seq<seq<Section>>, cur: seq<Section>, used: int) {
    && i <= |codes| && Flatten(batches) + cur == codes[..i]
    && used == fixedCost + Cost(cur) && Packed(fixedCost, limit, batches, cur)
  }

  lemma PackStarts(codes: seq<Section>, fixedCost: nat, limit: int)
    ensures PackedTo(codes, 0, fixedCost, limit, [], [], fixedCost)
  {
  }

  lemma PackJoins(codes: seq<Section>, i: nat, fixedCost: nat, limit: int, batches: seq<seq<Section>>, cur: seq<Section>, used: int)
    requires PackedTo(codes, i, fixedCost, limit, batches, cur, used) && i < |codes| && used + codes[i].tokens <= limit
    ensures PackedTo(codes, i + 1, fixedCost, limit, batches, cur + [codes[i]], used + codes[i].tokens)
  {
    hide Cost, Packed, Flatten;
    assert codes[..i + 1] == codes[..i] + [codes[i]];
    CostPush(cur, codes[i]);
    Joins(fixedCost, limit, batches, cur, codes[i]);
    assert (Flatten(batches) + cur) + [codes[i]] == Flatten(batches) + (cur + [codes[i]]);
  }

  /** The open batch, if there is one, is closed before a code that does not fit: the
      code opens the next batch, or stands alone when it does not fit there either. */
  lemma PackCloses(codes: seq<Section>, i: nat, fixedCost: nat, limit: int, batches: seq<seq<Section>>, cur: seq<Section>, used: int)
    requires PackedTo(codes, i, fixedCost, limit, batches, cur, used) && i < |codes| && used + codes[i].tokens > limit
    ensures var closed := if cur != [] then batches + [cur] else batches;
            if fixedCost + codes[i].tokens > limit
            then PackedTo(codes, i + 1, fixedCost, limit, closed + [[codes[i]]], [], fixedCost)
            else PackedTo(codes, i + 1, fixedCost, limit, closed, [codes[i]], fixedCost + codes[i].tokens)
    ensures cur == [] ==> used == fixedCost
  {
    hide Packed, Flatten, Cost;
    CostPush([], codes[i]);
    var c := codes[i];
    var closed := if cur != [] then batches + [cur] else batches;
    CostPush(cur, c);
    if cur != [] {
      Closes(fixedCost, limit, batches, cur, c);
      FlattenPush(batches, cur);
    } else {
      StandsAlone(fixedCost, limit, batches, c);
      assert Flatten(batches) + [] == Flatten(batches);
    }
    FlattenPush(closed, [c]);
    assert codes[..i + 1] == codes[..i] + [c];
    assert Flatten(closed + [[c]]) + [] == Flatten(closed + [[c]]);
  }

  lemma PackEnds(codes: seq<Section>, fixedCost: nat, limit: int, batches: seq<seq<Section>>, cur: seq<Section>, used: int)
    requires PackedTo(codes, |codes|, fixedCost, limit, batches, cur, used)
    ensures var all := if cur != [] then batches + [cur] else batches;
            && Flatten(all) == codes
            && (forall k :: 0 <= k < |all| ==> all[k] != [] && BatchOk(fixedCost, limit, all[k]))
            && (forall k :: 0 <= k < |all| - 1 ==> Overflows(fixedCost, limit, all[k], all[k + 1]))
  {
    assert codes[..|codes|] == codes;
    hide Flatten, Cost, BatchOk, Overflows;
    if cur != [] {
      FlattenPush(batches, cur);
      ClosesLast(fixedCost, limit, batches, cur);
    } else {
      assert Flatten(batches) + [] == Flatten(batches);
      PackedAll(fixedCost, limit, batches);
    }
  }

  method Pack(codes: seq<Section>, fixedCost: nat, limit: int) returns (batches: seq<seq<Section>>)
    ensures Flatten(batches) == codes
    ensures forall k :: 0 <= k < |batches| ==> batches[k] != [] && BatchOk(fixedCost, limit, batches[k])
    ensures forall k :: 0 <= k < |batches| - 1 ==> Overflows(fixedCost, limit, batches[k], batches[k + 1])
  {
    batches := [];
    var cur: seq<Section>, used: int := [], fixedCost;
    PackStarts(codes, fixedCost, limit);
    hide PackedTo, Overflows, BatchOk, Flatten;
    for i := 0 to |codes|
      invariant PackedTo(codes, i, fixedCost, limit, batches, cur, used)
    {
      var c := codes[i];
      if used + c.tokens > limit {
        PackCloses(codes, i, fixedCost, limit, batches, cur, used);
        if cur != [] {
          batches := batches + [cur];
          cur, used := [], fixedCost;
        }
        assert [] + [c] == [c];
        if fixedCost + c.tokens > limit {
          batches := batches + [[c]];
          continue;
        }
      } else {
        PackJoins(codes, i, fixedCost, limit, batches, cur, used);
      }
      cur := cur + [c];
      used := used + c.tokens;
    }
    PackEnds(codes, fixedCost, limit, batches, cur, used);
    if cur != [] {
      batches := batches + [cur];
    }
  }

  /** What that says of two neighbouring batches: the tokens of the first, and of the code
      that opens the second, with the fixed prompt. */
  lemma BatchSays(fixedCost: nat, limit: int, front: seq<Section>, last: Section, next: seq<Section>)
    requires BatchOk(fixedCost, limit, front + [last]) && Overflows(fixedCost, limit, front + [last], next)
    ensures front != [] ==> fixedCost + Cost(front) + last.tokens <= limit
    ensures next != [] && fixedCost + Cost(front) + last.tokens + next[0].tokens > limit
    ensures Cost([]) == 0 && (front != [] ==> Cost(front) == Cost(front[..|front| - 1]) + front[|front| - 1].tokens)
  {
    CostPush(front, last);
  }

  lemma FlattenEmpty<T>()
    ensures Flatten<T>([]) == []
  {
  }

  lemma PackedAll(fixedCost: nat, limit: int, batches: seq<seq<Section>>)
    requires Packed(fixedCost, limit, batches, [])
    ensures forall k :: 0 <= k < |batches| ==> batches[k] != [] && BatchOk(fixedCost, limit, batches[k])
    ensures forall k :: 0 <= k < |batches| - 1 ==> Overflows(fixedCost, limit, batches[k], batches[k + 1])
  {
  }

  /** The codes in order, each batch within the budget or one code too large for any,
      and no split with that guarantee has fewer batches. */
  method SplitIntoBatches(codes: seq<Section>, fixedCost: nat, limit: int) returns (batches: seq<seq<Section>>)
    ensures SplitOf(Fits(fixedCost, limit), batches, codes)
    ensures forall other: seq<seq<Section>> :: SplitOf(Fits(fixedCost, limit), other, codes) ==> |batches| <= |other|
    ensures |batches| / 2 * (limit - fixedCost) <= Cost(codes)
  {
    batches := Pack(codes, fixedCost, limit);
    BatchesHereditary(fixedCost, limit);
    HalfFull(batches, fixedCost, limit);
    hide Hereditary, Greedy, Cost, Overflows, BatchOk;
    assert SplitOf(Fits(fixedCost, limit), batches, codes);
    forall other: seq<seq<Section>> | SplitOf(Fits(fixedCost, limit), other, codes) ensures |batches| <= |other| {
      GreedyOptimal(Fits(fixedCost, limit), batches, other, codes);
    }
  }

  /** Two neighbouring batches together cost more than one budget, so half the batches
      times the budget is at most the whole cost. */
  lemma {:induction false} HalfFull(batches: seq<seq<Section>>, fixedCost: nat, limit: int)
    requires forall k :: 0 <= k < |batches| - 1 ==> Overflows(fixedCost, limit, batches[k], batches[k + 1])
    ensures |batches| / 2 * (limit - fixedCost) <= Cost(Flatten(batches))
    decreases |batches|
  {
    var n := |batches|;
    if n >= 2 {
      var rest, a, b := batches[..n - 2], batches[n - 2], batches[n - 1];
      HalfFull(rest, fixedCost, limit);
      assert batches[..n - 1][..n - 2] == rest;
      assert Overflows(fixedCost, limit, a, b);
      FirstCost(b);
      CostConcat(Flatten(rest), a);
      CostConcat(Flatten(rest) + a, b);
      Halves(n, limit - fixedCost);
      hide Cost;
    }
  }

  lemma FirstCost(b: seq<Section>)
    requires b != []
    ensures b[0].tokens <= Cost(b)
  {
    assert b == [b[0]] + b[1..] && Cost([b[0]]) == b[0].tokens;
    CostConcat([b[0]], b[1..]);
  }

  lemma Halves(n: int, free: int)
    requires n >= 2
    ensures n / 2 * free == (n - 2) / 2 * free + free
  {
    assert n / 2 == (n - 2) / 2 + 1;
  }

  // ------------------------------------------------------------ comments into transcripts

  /** A chunk of top-level comments is within the limit, or is a single comment. */
  function Within<C>(tokens: seq<C> -> int, limit: int): seq<C> -> bool {
    chunk => |chunk| == 1 || tokens(chunk) <= limit
  }

  ghost predicate Chunked<C>(tokens: seq<C> -> int, limit: int, chunks: seq<seq<C>>) {
    && (forall k :: 0 <= k < |chunks| ==> chunks[k] != [] && Within(tokens, limit)(chunks[k]))
    && (forall k :: 0 <= k < |chunks| - 1 && chunks[k + 1] != [] ==> tokens(chunks[k] + [chunks[k + 1][0]]) > limit)
  }

  /** The chunks yielded: all comments in order, none empty unless there is no comment,
      and as few as possible when the token count of a stretch never exceeds that of
      the whole. */
  method GenerateChunks<C(!new)>(comments: seq<C>, tokens: seq<C> -> int, limit: int) returns (chunks: seq<seq<C>>)
    ensures comments == [] ==> chunks == [[]]
    ensures comments != [] ==> SplitOf(Within(tokens, limit), chunks, comments) && Chunked(tokens, limit, chunks)
    ensures comments != [] && Hereditary(Within(tokens, limit)) ==>
      forall other: seq<seq<C>> :: SplitOf(Within(tokens, limit), other, comments) ==> |chunks| <= |other|
  {
    if comments == [] {
      return [[]];
    }
    chunks := [];
    var current := [];
    for i := 0 to |comments|
      invariant Flatten(chunks) + current == comments[..i]
      invariant i > 0 ==> current != []
      invariant if current == [] then chunks == [] else Chunked(tokens, limit, chunks + [current])
    {
      var comment := comments[i];
      assert comments[..i + 1] == comments[..i] + [comment];
      var temp := current + [comment];
      if tokens(temp) <= limit {
        Extended(tokens, limit, chunks, current, comment);
        current := temp;
      } else {
        if current != [] {
          Started(tokens, limit, chunks + [current], comment);
          chunks := chunks + [current];
        }
        current := [comment];
      }
    }
    assert comments[..|comments|] == comments;
    if current != [] {
      chunks := chunks + [current];
    }
    ChunkedOptimal(tokens, limit, chunks, comments);
  }

  /** What that says of two neighbouring chunks. */
  lemma ChunkSays<C>(tokens: seq<C> -> int, limit: int, chunks: seq<seq<C>>, k: nat)
    requires Chunked(tokens, limit, chunks) && k + 1 < |chunks|
    ensures |chunks[k]| == 1 || tokens(chunks[k]) <= limit
    ensures chunks[k + 1] != [] && tokens(chunks[k] + [chunks[k + 1][0]]) > limit
  {
    assert Within(tokens, limit)(chunks[k]);
  }

  lemma Extended<C>(tokens: seq<C> -> int, limit: int, chunks: seq<seq<C>>, current: seq<C>, comment: C)
    requires if current == [] then chunks == [] else Chunked(tokens, limit, chunks + [current])
    requires tokens(current + [comment]) <= limit
    ensures Chunked(tokens, limit, chunks + [current + [comment]])
  {
    var was, now := chunks + [current], chunks + [current + [comment]];
    forall k | 0 <= k < |now| - 1 && now[k + 1] != [] ensures tokens(now[k] + [now[k + 1][0]]) > limit {
      assert was[k] == now[k] && was[k + 1][0] == now[k + 1][0];
    }
    forall k | 0 <= k < |now| ensures now[k] != [] && Within(tokens, limit)(now[k]) {
      if k < |chunks| {
        assert was[k] == now[k];
      }
    }
  }

  lemma Started<C>(tokens: seq<C> -> int, limit: int, chunks: seq<seq<C>>, comment: C)
    requires Chunked(tokens, limit, chunks) && chunks != []
    requires tokens(chunks[|chunks| - 1] + [comment]) > limit
    ensures Chunked(tokens, limit, chunks + [[comment]])
  {
    var now := chunks + [[comment]];
    forall k | 0 <= k < |now| - 1 && now[k + 1] != [] ensures tokens(now[k] + [now[k + 1][0]]) > limit {
      if k < |chunks| - 1 {
        assert now[k] == chunks[k] && now[k + 1] == chunks[k + 1];
      }
    }
  }

  lemma ChunkedOptimal<C(!new)>(tokens: seq<C> -> int, limit: int, chunks: seq<seq<C>>, comments: seq<C>)
    requires Chunked(tokens, limit, chunks) && Flatten(chunks) == comments
    ensures Hereditary(Within(tokens, limit)) ==>
      forall other: seq<seq<C>> :: SplitOf(Within(tokens, limit), other, comments) ==> |chunks| <= |other|
  {
    var ok := Within(tokens, limit);
    assert Greedy(ok, chunks) && SplitOf(ok, chunks, comments);
    if Hereditary(ok) {
      forall other: seq<seq<C>> | SplitOf(ok, other, comments) ensures |chunks| <= |other| {
        GreedyOptimal(ok, chunks, other, comments);
      }
    }
  }
}
