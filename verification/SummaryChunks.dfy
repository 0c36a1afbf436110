/** Filling prompts with texts up to a token limit, and summarising summaries. */
module SummaryChunks {
  import opened Outcomes
  import opened Packing

  datatype Text = Text(body: string)

  /** The model's tokenizer, and the cost of the prompt without texts and of a separator. */
  datatype Model = Model(tokens: Text -> nat, cut: (Text, int) -> Text, fixedCost: nat, sep: nat)

  /** Cutting to n tokens leaves at most n. */
  ghost predicate Truncates(m: Model) {
    forall t: Text, n: int :: n >= 0 ==> Tokens(m, Cut(m, t, n)) <= n
  }

  function Tokens(m: Model, t: Text): nat {
    m.tokens(t)
  }

  function Cut(m: Model, t: Text, n: int): Text {
    m.cut(t, n)
  }

  function Gap(m: Model, chunk: seq<Text>): nat {
    if chunk == [] then 0 else m.sep
  }

  /** Tokens of the texts of a chunk and of the separators between them. */
  function Used(m: Model, chunk: seq<Text>): nat {
    if chunk == [] then 0
    else
      var front := chunk[..|chunk| - 1];
      Used(m, front) + Gap(m, front) + Tokens(m, chunk[|chunk| - 1])
  }

  /** The text as it joins a chunk: cut when it would not fit a prompt of its own. */
  function Fitted(m: Model, limit: int, chunk: seq<Text>, t: Text): Text {
    if m.fixedCost + Gap(m, chunk) + Tokens(m, t) > limit then Cut(m, t, limit - m.fixedCost - Gap(m, chunk)) else t
  }

  /** The first texts in order, each fitted. */
  ghost predicate Filled(m: Model, limit: int, chunk: seq<Text>, texts: seq<Text>) {
    |chunk| <= |texts| && forall i :: 0 <= i < |chunk| ==> chunk[i] == Fitted(m, limit, chunk[..i], texts[i])
  }

  /** The next text, even fitted, would go over the limit. */
  ghost predicate Full(m: Model, limit: int, chunk: seq<Text>, texts: seq<Text>) {
    |chunk| < |texts| ==> m.fixedCost + Used(m, chunk + [Fitted(m, limit, chunk, texts[|chunk|])]) > limit
  }

  ghost predicate Good(m: Model, limit: int, chunk: seq<Text>, texts: seq<Text>) {
    && chunk != [] && Filled(m, limit, chunk, texts)
    && (m.fixedCost > limit ==> |chunk| == 1)
    && (m.fixedCost + Used(m, chunk) <= limit <==> m.fixedCost <= limit)
    && (m.fixedCost <= limit ==> Full(m, limit, chunk, texts))
  }

  lemma UsedPush(m: Model, chunk: seq<Text>, t: Text)
    ensures Used(m, chunk + [t]) == Used(m, chunk) + Gap(m, chunk) + Tokens(m, t)
    ensures Used(m, chunk + [t]) == Used(m, chunk) + (if chunk == [] then 0 else m.sep) + m.tokens(t)
  {
    assert (chunk + [t])[..|chunk|] == chunk;
  }

  lemma UsedEmpty(m: Model)
    ensures Used(m, []) == 0
  {
  }

  /** What a good chunk holds: a text whose tokens fit the limit beside the fixed prompt
      and its separator is whole, any other is cut to exactly what they leave. */
  lemma GoodTexts(m: Model, limit: int, chunk: seq<Text>, texts: seq<Text>, i: nat)
    requires Good(m, limit, chunk, texts) && i < |chunk|
    ensures var left := limit - m.fixedCost - (if i == 0 then 0 else m.sep);
            && i < |texts|
            && (m.tokens(texts[i]) <= left ==> chunk[i] == texts[i])
            && (m.tokens(texts[i]) > left ==> chunk[i] == m.cut(texts[i], left))
  {
    assert chunk[i] == Fitted(m, limit, chunk[..i], texts[i]);
  }

  /** The text after a good chunk, whole or cut to what the prompt and a separator leave,
      is too much for what the chunk leaves. */
  lemma GoodNext(m: Model, limit: int, chunk: seq<Text>, texts: seq<Text>)
    requires Good(m, limit, chunk, texts) && |chunk| < |texts| && m.fixedCost <= limit
    ensures var next, left := texts[|chunk|], limit - m.fixedCost - m.sep;
            && (m.tokens(next) <= left ==> m.fixedCost + Used(m, chunk) + m.sep + m.tokens(next) > limit)
            && (m.tokens(next) > left ==> m.fixedCost + Used(m, chunk) + m.sep + m.tokens(m.cut(next, left)) > limit)
  {
    UsedPush(m, chunk, Fitted(m, limit, chunk, texts[|chunk|]));
  }

  /** Cutting to n tokens leaves exactly n of a longer text, and a shorter one as it is. */
  ghost predicate Exact(m: Model) {
    forall t: Text, n: int :: n >= 0 ==>
      if m.tokens(t) <= n then Cut(m, t, n) == t else m.tokens(Cut(m, t, n)) == n
  }

  /** With such a tokenizer, a first text too long for the prompt fills it to the limit. */
  lemma LongTextFills(m: Model, limit: int, chunk: seq<Text>, texts: seq<Text>)
    requires Exact(m) && Good(m, limit, chunk, texts)
    requires texts != [] && m.fixedCost <= limit < m.fixedCost + m.tokens(texts[0])
    ensures m.fixedCost + m.tokens(chunk[0]) == m.fixedCost + Used(m, chunk) == limit
  {
    GoodTexts(m, limit, chunk, texts, 0);
    assert chunk[0] == Cut(m, texts[0], limit - m.fixedCost);
    UsedPush(m, [], chunk[0]);
    assert [] + [chunk[0]] == chunk[..1];
    UsedGrows(m, chunk, 1);
  }

  /** A first text always fits, cut or not, when the bare prompt does. */
  lemma CutsFit(m: Model, limit: int)
    requires Truncates(m)
    ensures m.fixedCost <= limit ==> forall t: Text :: m.fixedCost + Tokens(m, Fitted(m, limit, [], t)) <= limit
  {
  }

  /** The state of the loop: the first texts, fitted, within the limit if there are any. */
  ghost predicate Filling(m: Model, limit: int, texts: seq<Text>, chunk: seq<Text>, used: nat) {
    && Filled(m, limit, chunk, texts) && used == Used(m, chunk)
    && (chunk != [] ==> m.fixedCost + used <= limit)
  }

  lemma FillingStarts(m: Model, limit: int, texts: seq<Text>)
    ensures Filling(m, limit, texts, [], 0)
  {
    UsedEmpty(m);
  }

  lemma FillingGrows(m: Model, limit: int, texts: seq<Text>, chunk: seq<Text>, used: nat)
    requires Filling(m, limit, texts, chunk, used) && |chunk| < |texts|
    ensures var text := Fitted(m, limit, chunk, texts[|chunk|]);
            m.fixedCost + used + Gap(m, chunk) + Tokens(m, text) <= limit ==>
              Filling(m, limit, texts, chunk + [text], used + Gap(m, chunk) + Tokens(m, text))
  {
    var text := Fitted(m, limit, chunk, texts[|chunk|]);
    hide Tokens, Used, Fitted, Gap;
    UsedPush(m, chunk, text);
    FilledPush(m, limit, chunk, texts);
  }

  lemma FilledPush(m: Model, limit: int, chunk: seq<Text>, texts: seq<Text>)
    requires Filled(m, limit, chunk, texts) && |chunk| < |texts|
    ensures Filled(m, limit, chunk + [Fitted(m, limit, chunk, texts[|chunk|])], texts)
  {
    var more := chunk + [Fitted(m, limit, chunk, texts[|chunk|])];
    hide Fitted;
    forall i | 0 <= i < |more| ensures more[i] == Fitted(m, limit, more[..i], texts[i]) {
      assert more[..i] == chunk[..i];
    }
  }

  /** What the loop leaves: a good chunk, or nothing when not even the first text fits. */
  lemma FillingEnds(m: Model, limit: int, texts: seq<Text>, chunk: seq<Text>, used: nat)
    requires Truncates(m) && Filling(m, limit, texts, chunk, used) && texts != []
    requires |chunk| < |texts| ==>
               m.fixedCost + used + Gap(m, chunk) + Tokens(m, Fitted(m, limit, chunk, texts[|chunk|])) > limit
    ensures chunk != [] ==> Good(m, limit, chunk, texts)
    ensures chunk == [] ==> m.fixedCost > limit && Good(m, limit, [Cut(m, texts[0], limit - m.fixedCost)], texts)
  {
    CutsFit(m, limit);
    if chunk == [] {
      var one := [Cut(m, texts[0], limit - m.fixedCost)];
      UsedEmpty(m);
      assert one[..0] == [];
      UsedPush(m, [], one[0]);
      assert [] + [one[0]] == one;
    } else if |chunk| < |texts| {
      UsedPush(m, chunk, Fitted(m, limit, chunk, texts[|chunk|]));
    }
  }

  /** The chunk and the texts left over: not empty, within the limit exactly when the
      bare prompt is, and then so full that the next text does not fit; one text when
      the bare prompt is over the limit. */
  method BuildChunk(m: Model, texts: seq<Text>, limit: int) returns (chunk: seq<Text>, rest: seq<Text>)
    requires Truncates(m)
    ensures texts == [] ==> chunk == [] && rest == []
    ensures texts != [] ==> Good(m, limit, chunk, texts) && rest == texts[|chunk|..]
    ensures |chunk| <= |texts|
    ensures forall i :: 0 <= i < |chunk| ==>
              var left := limit - m.fixedCost - (if i == 0 then 0 else m.sep);
              chunk[i] == if m.tokens(texts[i]) <= left then texts[i] else m.cut(texts[i], left)
  {
    chunk := [];
    var used: nat := 0;
    FillingStarts(m, limit, texts);
    hide Filling, Good, Fitted, Gap, Tokens, Cut, Truncates;
    while |chunk| < |texts|
      invariant |chunk| <= |texts| && Filling(m, limit, texts, chunk, used)
      decreases |texts| - |chunk|
    {
      var text := Fitted(m, limit, chunk, texts[|chunk|]);
      FillingGrows(m, limit, texts, chunk, used);
      if m.fixedCost + used + Gap(m, chunk) + Tokens(m, text) > limit {
        break;
      }
      used := used + Gap(m, chunk) + Tokens(m, text);
      chunk := chunk + [text];
    }
    if texts != [] {
      FillingEnds(m, limit, texts, chunk, used);
    }
    rest := texts[|chunk|..];
    if chunk == [] && rest != [] {
      chunk, rest := [Cut(m, rest[0], limit - m.fixedCost)], rest[1..];
    }
    forall i | 0 <= i < |chunk|
      ensures var left := limit - m.fixedCost - (if i == 0 then 0 else m.sep);
              i < |texts| && chunk[i] == if m.tokens(texts[i]) <= left then texts[i] else m.cut(texts[i], left)
    {
      GoodTexts(m, limit, chunk, texts, i);
    }
  }

  // ------------------------------------------------------------ all texts

  /** Every chunk is a good chunk of what the earlier ones left. */
  ghost predicate Chunked(m: Model, limit: int, chunks: seq<seq<Text>>, texts: seq<Text>) {
    forall k :: 0 <= k < |chunks| ==>
      Covered(chunks, k) <= |texts| && Good(m, limit, chunks[k], texts[Covered(chunks, k)..])
  }

  lemma ChunkedPush(m: Model, limit: int, chunks: seq<seq<Text>>, texts: seq<Text>, c: seq<Text>)
    requires Chunked(m, limit, chunks, texts) && |Flatten(chunks)| <= |texts|
    requires Good(m, limit, c, texts[|Flatten(chunks)|..])
    ensures Chunked(m, limit, chunks + [c], texts) && |Flatten(chunks + [c])| == |Flatten(chunks)| + |c|
  {
    hide Good;
    var all := chunks + [c];
    assert all[..|chunks|] == chunks;
    hide Flatten;
    forall k | 0 <= k < |all| ensures Covered(all, k) <= |texts| && Good(m, limit, all[k], texts[Covered(all, k)..]) {
      assert all[..k] == chunks[..k];
      assert Covered(all, k) == Covered(chunks, k);
      if k < |chunks| {
        assert all[k] == chunks[k] && Good(m, limit, chunks[k], texts[Covered(chunks, k)..]);
      } else {
        assert chunks[..k] == chunks;
      }
    }
  }

  /** The loop over all texts ends with every text in exactly one chunk. */
  method ChunkTexts(m: Model, texts: seq<Text>, limit: int) returns (chunks: seq<seq<Text>>)
    requires Truncates(m)
    ensures Chunked(m, limit, chunks, texts) && |Flatten(chunks)| == |texts|
  {
    chunks := [];
    var remaining := texts;
    while remaining != []
      invariant Chunked(m, limit, chunks, texts) && |Flatten(chunks)| <= |texts|
      invariant remaining == texts[|Flatten(chunks)|..]
      decreases |remaining|
    {
      var chunk, rest := BuildChunk(m, remaining, limit);
      ChunkedPush(m, limit, chunks, texts, chunk);
      chunks := chunks + [chunk];
      remaining := rest;
    }
  }

  ghost predicate SameOrCut(m: Model, out: Text, text: Text) {
    out == text || exists n :: out == Cut(m, text, n)
  }

  /** Laid end to end, the chunks are the texts in order, each whole or truncated. */
  lemma {:induction false} ChunksCover(m: Model, limit: int, chunks: seq<seq<Text>>, texts: seq<Text>, i: nat)
    requires Chunked(m, limit, chunks, texts) && i < |Flatten(chunks)|
    ensures i < |texts| && SameOrCut(m, Flatten(chunks)[i], texts[i])
    decreases |chunks|
  {
    var n := |chunks| - 1;
    var front := chunks[..n];
    assert Covered(chunks, n) == |Flatten(front)|;
    if i < |Flatten(front)| {
      forall k | 0 <= k < n ensures Covered(front, k) == Covered(chunks, k) {
        assert front[..k] == chunks[..k];
      }
      ChunksCover(m, limit, front, texts, i);
    } else {
      var j := i - |Flatten(front)|;
      assert chunks[n][j] == Fitted(m, limit, chunks[n][..j], texts[|Flatten(front)|..][j]);
    }
  }

  // ------------------------------------------------------------ how many chunks

  /** The two texts fit one prompt, the first at its start, each cut if it must be. */
  predicate PairFits(m: Model, limit: int, a: Text, b: Text) {
    m.fixedCost <= limit
    && m.fixedCost + Tokens(m, Fitted(m, limit, [], a)) + m.sep + Tokens(m, Fitted(m, limit, [b], b)) <= limit
  }

  /** That is: the bare prompt fits, and with a separator so do the two, each cut to what
      the prompt alone, or the prompt and the separator, leave when it is longer. */
  lemma PairFitsIff(m: Model, limit: int, a: Text, b: Text)
    ensures var first, second := limit - m.fixedCost, limit - m.fixedCost - m.sep;
            PairFits(m, limit, a, b) <==>
            && m.fixedCost <= limit
            && m.fixedCost + m.tokens(if m.tokens(a) > first then m.cut(a, first) else a) + m.sep
               + m.tokens(if m.tokens(b) > second then m.cut(b, second) else b) <= limit
  {
  }

  /** Texts that need no cutting fit together when their tokens do. */
  lemma UncutPair(m: Model, limit: int, a: Text, b: Text)
    requires m.fixedCost + Tokens(m, a) <= limit && m.fixedCost + m.sep + Tokens(m, b) <= limit
    ensures PairFits(m, limit, a, b) <==> m.fixedCost + Tokens(m, a) + m.sep + Tokens(m, b) <= limit
  {
  }

  lemma {:induction false} UsedGrows(m: Model, chunk: seq<Text>, k: nat)
    requires k <= |chunk|
    ensures Used(m, chunk[..k]) <= Used(m, chunk)
    decreases |chunk|
  {
    if k == |chunk| {
      assert chunk[..k] == chunk;
    } else {
      assert chunk[..|chunk| - 1][..k] == chunk[..k];
      UsedGrows(m, chunk[..|chunk| - 1], k);
    }
  }

  lemma UsedTwo(m: Model, limit: int, a: Text, b: Text)
    ensures Used(m, [a] + [b]) == Tokens(m, a) + m.sep + Tokens(m, b)
  {
    UsedPush(m, [a], b);
    UsedPush(m, [], a);
    assert [] + [a] == [a];
  }

  /** A chunk takes a second text exactly when the first two fit together. */
  lemma TakesTwoIff(m: Model, limit: int, chunk: seq<Text>, texts: seq<Text>)
    requires Good(m, limit, chunk, texts) && |texts| > 1
    ensures |chunk| >= 2 <==> PairFits(m, limit, texts[0], texts[1])
  {
    var a, b := Fitted(m, limit, [], texts[0]), Fitted(m, limit, [texts[1]], texts[1]);
    assert chunk[..0] == [] && chunk[0] == a;
    assert [chunk[0]] == chunk[..1];
    UsedTwo(m, limit, a, b);
    if |chunk| >= 2 {
      assert chunk[1] == Fitted(m, limit, chunk[..1], texts[1]) == b;
      assert chunk[..2] == [a] + [b];
      UsedGrows(m, chunk, 2);
    } else {
      assert chunk == [a];
      assert Fitted(m, limit, chunk, texts[1]) == b;
    }
  }

  predicate Paired(m: Model, limit: int, texts: seq<Text>) {
    forall i :: 0 <= i < |texts| - 1 ==> PairFits(m, limit, texts[i], texts[i + 1])
  }

  predicate Unpaired(m: Model, limit: int, texts: seq<Text>) {
    forall i :: 0 <= i < |texts| - 1 ==> !PairFits(m, limit, texts[i], texts[i + 1])
  }

  /** A chunk takes a second text exactly when its first two, where it starts, fit. */
  lemma ChunkTakes(m: Model, limit: int, chunks: seq<seq<Text>>, texts: seq<Text>, k: nat)
    requires Chunked(m, limit, chunks, texts) && k < |chunks|
    ensures var c := Covered(chunks, k);
            && c < |texts| && Covered(chunks, k + 1) == c + |chunks[k]| <= |texts| && |chunks[k]| >= 1
            && (c + 1 == |texts| ==> |chunks[k]| == 1)
            && (c + 1 < |texts| ==> (|chunks[k]| >= 2 <==> PairFits(m, limit, texts[c], texts[c + 1])))
  {
    var c := Covered(chunks, k);
    var left := texts[c..];
    assert Good(m, limit, chunks[k], left) && |chunks[k]| <= |left|;
    hide Good, PairFits, Used;
    Stretch(chunks, k);
    if |left| > 1 {
      TakesTwoIff(m, limit, chunks[k], left);
      assert left[0] == texts[c] && left[1] == texts[c + 1];
    }
  }

  lemma PairedTakes(m: Model, limit: int, chunks: seq<seq<Text>>, texts: seq<Text>, k: nat)
    requires Chunked(m, limit, chunks, texts) && Paired(m, limit, texts) && k < |chunks|
    ensures Covered(chunks, k) < |texts| && Covered(chunks, k + 1) == Covered(chunks, k) + |chunks[k]|
    ensures |chunks[k]| >= 2 || (|chunks[k]| == 1 && Covered(chunks, k + 1) == |texts|)
  {
    ChunkTakes(m, limit, chunks, texts, k);
    var c := Covered(chunks, k);
    assert c + 1 < |texts| ==> PairFits(m, limit, texts[c], texts[c + 1]);
    hide Chunked, PairFits, Covered, Paired;
  }

  /** Texts of which neighbours fit are chunked at least two by two. */
  lemma {:induction false} Halves(m: Model, limit: int, chunks: seq<seq<Text>>, texts: seq<Text>, k: nat)
    requires Chunked(m, limit, chunks, texts) && Paired(m, limit, texts) && k <= |chunks|
    ensures 2 * k <= Covered(chunks, k) + (if Covered(chunks, k) == |texts| then 1 else 0)
    ensures k < |chunks| ==> 2 * k <= Covered(chunks, k)
    decreases k
  {
    hide Chunked, Paired, Covered;
    if k < |chunks| {
      PairedTakes(m, limit, chunks, texts, k);
    }
    if k > 0 {
      Halves(m, limit, chunks, texts, k - 1);
      PairedTakes(m, limit, chunks, texts, k - 1);
    }
  }

  lemma HalvesAll(m: Model, limit: int, chunks: seq<seq<Text>>, texts: seq<Text>)
    requires Chunked(m, limit, chunks, texts) && |Flatten(chunks)| == |texts| && Paired(m, limit, texts)
    ensures 2 * |chunks| <= |texts| + 1
  {
    assert chunks[..|chunks|] == chunks;
    hide Chunked, Paired;
    Halves(m, limit, chunks, texts, |chunks|);
  }

  lemma UnpairedTakes(m: Model, limit: int, chunks: seq<seq<Text>>, texts: seq<Text>, k: nat)
    requires Chunked(m, limit, chunks, texts) && Unpaired(m, limit, texts) && k < |chunks|
    ensures Covered(chunks, k + 1) == Covered(chunks, k) + 1
  {
    ChunkTakes(m, limit, chunks, texts, k);
    var c := Covered(chunks, k);
    assert c + 1 < |texts| ==> !PairFits(m, limit, texts[c], texts[c + 1]);
    hide Chunked, PairFits, Covered, Unpaired;
  }

  lemma CoveredNone(chunks: seq<seq<Text>>)
    ensures Covered(chunks, 0) == 0
  {
  }

  /** Texts of which no two neighbours fit are chunked one by one. */
  lemma {:induction false} OneEach(m: Model, limit: int, chunks: seq<seq<Text>>, texts: seq<Text>, k: nat)
    requires Chunked(m, limit, chunks, texts) && Unpaired(m, limit, texts) && k <= |chunks|
    ensures Covered(chunks, k) == k
    decreases k
  {
    hide Chunked, Unpaired, Covered;
    if k == 0 {
      CoveredNone(chunks);
    } else {
      OneEach(m, limit, chunks, texts, k - 1);
      UnpairedTakes(m, limit, chunks, texts, k - 1);
    }
  }

  /** Chunks that are not empty cover at least one text each. */
  lemma {:induction false} CoversEach(chunks: seq<seq<Text>>, k: nat)
    requires k <= |chunks| && forall j :: 0 <= j < |chunks| ==> chunks[j] != []
    ensures k <= Covered(chunks, k) && |chunks| - k <= |Flatten(chunks)| - Covered(chunks, k)
    decreases |chunks| - k
  {
    CoversFirst(chunks, k);
    if k == |chunks| {
      assert chunks[..k] == chunks;
    } else {
      CoversEach(chunks, k + 1);
      Stretch(chunks, k);
    }
  }

  lemma {:induction false} CoversFirst(chunks: seq<seq<Text>>, k: nat)
    requires k <= |chunks| && forall j :: 0 <= j < |chunks| ==> chunks[j] != []
    ensures k <= Covered(chunks, k)
    decreases k
  {
    if k > 0 {
      CoversFirst(chunks, k - 1);
      Stretch(chunks, k - 1);
    }
  }

  /** As many chunks as texts means one text each, so none takes its neighbour. */
  lemma NoneTakes(m: Model, limit: int, chunks: seq<seq<Text>>, texts: seq<Text>, i: nat)
    requires Chunked(m, limit, chunks, texts) && |Flatten(chunks)| == |texts| == |chunks| && i < |texts| - 1
    ensures !PairFits(m, limit, texts[i], texts[i + 1])
  {
    assert forall j :: 0 <= j < |chunks| ==> chunks[j] != [];
    hide Chunked, PairFits;
    CoversEach(chunks, i);
    CoversEach(chunks, i + 1);
    hide Covered, Flatten;
    ChunkTakes(m, limit, chunks, texts, i);
  }

  /** There are as many chunks as texts exactly when no two neighbours fit together. */
  lemma SameCountIff(m: Model, limit: int, chunks: seq<seq<Text>>, texts: seq<Text>)
    requires Chunked(m, limit, chunks, texts) && |Flatten(chunks)| == |texts|
    ensures |chunks| == |texts| <==> Unpaired(m, limit, texts)
  {
    assert chunks[..|chunks|] == chunks;
    hide Chunked, PairFits, Flatten;
    if Unpaired(m, limit, texts) {
      OneEach(m, limit, chunks, texts, |chunks|);
    }
    if |chunks| == |texts| {
      forall i | 0 <= i < |texts| - 1 ensures !PairFits(m, limit, texts[i], texts[i + 1]) {
        NoneTakes(m, limit, chunks, texts, i);
      }
    }
  }

  lemma ChunkCount(m: Model, limit: int, chunks: seq<seq<Text>>, texts: seq<Text>)
    requires Chunked(m, limit, chunks, texts) && |Flatten(chunks)| == |texts| && texts != []
    ensures 0 < |chunks| <= |texts|
  {
    CoversEach(chunks, 0);
    assert chunks[..0] == [];
  }

  // ------------------------------------------------------------ recursion on summaries

  /** `parts` are one answer for each chunk of `texts`. */
  ghost predicate Summarised(m: Model, limit: int, texts: seq<Text>, parts: seq<Text>) {
    exists chunks :: Chunked(m, limit, chunks, texts) && |Flatten(chunks)| == |texts| && |parts| == |chunks|
  }

  /** Each level but the last holds several texts and is summarised into the next. */
  ghost predicate Levels(m: Model, limit: int, levels: seq<seq<Text>>) {
    && levels != []
    && forall k :: 0 <= k < |levels| - 1 ==> |levels[k]| > 1 && Summarised(m, limit, levels[k], levels[k + 1])
  }

  /** What the model answers for chunk i of a level. */
  function Answer(answers: seq<Text>, i: nat): Text {
    if i < |answers| then answers[i] else Text("unavailable")
  }

  /** Chunks are summarised, and their summaries again, until one is left.  The answers
      of each level are given, one for each chunk; when the given levels are used up and
      several summaries are left, the run goes on and there is no result yet. */
  method Summarize(m: Model, again: Model, texts: seq<Text>, limit: int, answers: seq<seq<Text>>)
    returns (r: Option<Text>, levels: seq<seq<Text>>)
    requires Truncates(m) && Truncates(again)
    ensures |levels| <= |answers|
    ensures texts == [] ==> r == Some(Text("")) && levels == []
    ensures texts != [] && answers == [] ==> r.None? && levels == []
    ensures texts != [] && answers != [] ==>
              && Levels(again, limit, levels) && Summarised(m, limit, texts, levels[0])
              && (forall k, i :: 0 <= k < |levels| && 0 <= i < |levels[k]| ==>
                    levels[k][i] == if i < |answers[k]| then answers[k][i] else Text("unavailable"))
              && (if r.Some? then levels[|levels| - 1] == [r.value] else |levels| == |answers| && |levels[|levels| - 1]| > 1)
    decreases |answers|
  {
    if texts == [] {
      return Some(Text("")), [];
    }
    if answers == [] {
      return None, [];
    }
    var chunks := ChunkTexts(m, texts, limit);
    ChunkCount(m, limit, chunks, texts);
    var parts := seq(|chunks|, i requires 0 <= i < |chunks| => Answer(answers[0], i));
    hide Chunked;
    if |parts| > 1 {
      r, levels := Summarize(again, again, parts, limit, answers[1..]);
      LevelsOn(again, limit, parts, levels);
      levels := [parts] + levels;
    } else {
      assert parts == [parts[0]];
      r, levels := Some(parts[0]), [parts];
    }
  }

  lemma LevelsOn(m: Model, limit: int, texts: seq<Text>, levels: seq<seq<Text>>)
    requires |texts| > 1 && (levels != [] ==> Levels(m, limit, levels) && Summarised(m, limit, texts, levels[0]))
    ensures Levels(m, limit, [texts] + levels)
  {
    hide Summarised;
  }

  /** When neighbouring summaries always fit, each level has at most half as many texts as
      the one before, rounded up, so there are at most as many levels as texts in the first. */
  lemma {:induction false} EndsSoon(m: Model, limit: int, levels: seq<seq<Text>>, k: nat)
    requires Levels(m, limit, levels) && k < |levels|
    requires forall j :: 0 <= j < |levels| - 1 ==> Paired(m, limit, levels[j])
    ensures k > 0 ==> 0 < 2 * |levels[k]| <= |levels[k - 1]| + 1
    ensures k + |levels[k]| <= |levels[0]|
    decreases k
  {
    if k > 0 {
      EndsSoon(m, limit, levels, k - 1);
      HalvedLevel(m, limit, levels[k - 1], levels[k]);
    }
  }

  lemma HalvedLevel(m: Model, limit: int, texts: seq<Text>, parts: seq<Text>)
    requires Summarised(m, limit, texts, parts) && Paired(m, limit, texts)
    ensures 2 * |parts| <= |texts| + 1 && (texts != [] ==> parts != [])
  {
    var chunks :| Chunked(m, limit, chunks, texts) && |Flatten(chunks)| == |texts| && |parts| == |chunks|;
    HalvesAll(m, limit, chunks, texts);
    if texts != [] {
      ChunkCount(m, limit, chunks, texts);
    }
  }

  lemma SameLevel(m: Model, limit: int, texts: seq<Text>, parts: seq<Text>)
    requires Summarised(m, limit, texts, parts) && Unpaired(m, limit, texts)
    ensures |parts| == |texts|
  {
    var chunks :| Chunked(m, limit, chunks, texts) && |Flatten(chunks)| == |texts| && |parts| == |chunks|;
    hide Chunked, Unpaired;
    SameCountIff(m, limit, chunks, texts);
  }

  /** When no two neighbouring summaries fit, every level has as many texts as the first. */
  lemma {:induction false} NoProgress(m: Model, limit: int, levels: seq<seq<Text>>, k: nat)
    requires Levels(m, limit, levels) && k < |levels|
    requires forall j :: 0 <= j < |levels| - 1 ==> Unpaired(m, limit, levels[j])
    ensures |levels[k]| == |levels[0]|
    decreases k
  {
    hide Summarised, Unpaired;
    if k > 0 {
      NoProgress(m, limit, levels, k - 1);
      SameLevel(m, limit, levels[k - 1], levels[k]);
    }
  }

  predicate AllCost(m: Model, cost: nat, texts: seq<Text>) {
    forall i :: 0 <= i < |texts| ==> Tokens(m, texts[i]) == cost
  }

  lemma CostDecides(m: Model, limit: int, cost: nat, texts: seq<Text>)
    requires AllCost(m, cost, texts) && m.fixedCost + m.sep + cost <= limit
    ensures m.fixedCost + 2 * cost + m.sep <= limit ==> Paired(m, limit, texts)
    ensures m.fixedCost + 2 * cost + m.sep > limit ==> Unpaired(m, limit, texts)
  {
    forall i | 0 <= i < |texts| - 1
      ensures PairFits(m, limit, texts[i], texts[i + 1]) <==> m.fixedCost + 2 * cost + m.sep <= limit
    {
      UncutPair(m, limit, texts[i], texts[i + 1]);
    }
  }

  /** Summaries, whatever they say, of one cost that needs no cutting: their number goes
      down at every level when two of them fit, and never changes when they do not. */
  lemma SameCostLevels(m: Model, limit: int, cost: nat, levels: seq<seq<Text>>, k: nat)
    requires Levels(m, limit, levels) && k < |levels| && m.fixedCost + m.sep + cost <= limit
    requires forall j :: 0 <= j < |levels| ==> AllCost(m, cost, levels[j])
    ensures m.fixedCost + 2 * cost + m.sep <= limit ==> k + |levels[k]| <= |levels[0]|
    ensures m.fixedCost + 2 * cost + m.sep > limit ==> |levels[k]| == |levels[0]|
  {
    hide Levels, AllCost, Paired, Unpaired;
    forall j | 0 <= j < |levels|
      ensures m.fixedCost + 2 * cost + m.sep <= limit ==> Paired(m, limit, levels[j])
      ensures m.fixedCost + 2 * cost + m.sep > limit ==> Unpaired(m, limit, levels[j])
    {
      CostDecides(m, limit, cost, levels[j]);
    }
    if m.fixedCost + 2 * cost + m.sep <= limit {
      EndsSoon(m, limit, levels, k);
    } else {
      NoProgress(m, limit, levels, k);
    }
  }

  // -------------------------------------- a model that always answers the same

  function Copies(x: Text, n: nat): seq<Text> {
    seq(n, i => x)
  }

  /** The recursion goes through these levels when every summary is `x` and n are left first. */
  ghost predicate SameRun(m: Model, limit: int, x: Text, n: nat, levels: seq<seq<Text>>) {
    && Levels(m, limit, levels) && levels[0] == Copies(x, n)
    && forall k, i :: 0 <= k < |levels| && 0 <= i < |levels[k]| ==> levels[k][i] == x
  }

  /** No run is longer than some bound. */
  ghost predicate Ends(m: Model, limit: int, x: Text, n: nat) {
    exists bound: nat :: Bounded(m, limit, x, n, bound)
  }

  ghost predicate Bounded(m: Model, limit: int, x: Text, n: nat, bound: nat) {
    forall levels :: SameRun(m, limit, x, n, levels) ==> |levels| <= bound
  }

  lemma PairsEnd(m: Model, limit: int, x: Text, n: nat, levels: seq<seq<Text>>)
    requires PairFits(m, limit, x, x) && SameRun(m, limit, x, n, levels)
    ensures |levels| <= n || |levels| == 1
  {
    hide PairFits, Summarised;
    if |levels| > 1 {
      forall j | 0 <= j < |levels| - 1 ensures Paired(m, limit, levels[j]) {
      }
      EndsSoon(m, limit, levels, |levels| - 1);
    }
  }

  /** Without a pair that fits, the same copies come back at every level. */
  lemma NeverEnds(m: Model, limit: int, x: Text, n: nat, bound: nat)
    requires n > 1 && Truncates(m) && !PairFits(m, limit, x, x)
    ensures !Bounded(m, limit, x, n, bound)
  {
    hide PairFits, Truncates, Summarised;
    var levels := seq(bound + 1, k => Copies(x, n));
    RepeatsForever(m, limit, x, n);
    assert SameRun(m, limit, x, n, levels);
  }

  /** With a constant summary, the recursion from several summaries ends exactly when two
      of them fit together. */
  lemma EndsIff(m: Model, limit: int, x: Text, n: nat)
    requires n > 1 && Truncates(m)
    ensures Ends(m, limit, x, n) <==> PairFits(m, limit, x, x)
  {
    hide PairFits, Truncates, SameRun;
    if PairFits(m, limit, x, x) {
      forall levels | SameRun(m, limit, x, n, levels) ensures |levels| <= n {
        PairsEnd(m, limit, x, n, levels);
      }
      assert Bounded(m, limit, x, n, n);
    } else {
      forall bound: nat ensures !Bounded(m, limit, x, n, bound) {
        NeverEnds(m, limit, x, n, bound);
      }
    }
  }

  /** Copies that do not fit in pairs are each a chunk of their own. */
  lemma RepeatsForever(m: Model, limit: int, x: Text, n: nat)
    requires Truncates(m) && !PairFits(m, limit, x, x)
    ensures Summarised(m, limit, Copies(x, n), Copies(x, n))
  {
    var one := [Fitted(m, limit, [], x)];
    var chunks := seq(n, i => one);
    OneIsGood(m, limit, x, one);
    CoveredSame(one, n, n);
    assert chunks[..n] == chunks;
    hide Good;
    forall k | 0 <= k < n ensures Covered(chunks, k) <= n && Good(m, limit, chunks[k], Copies(x, n)[Covered(chunks, k)..]) {
      CoveredSame(one, n, k);
      assert Copies(x, n)[k..] == Copies(x, n - k);
    }
    assert Chunked(m, limit, chunks, Copies(x, n));
  }

  lemma OneIsGood(m: Model, limit: int, x: Text, one: seq<Text>)
    requires Truncates(m) && !PairFits(m, limit, x, x) && one == [Fitted(m, limit, [], x)]
    ensures forall n: nat :: n > 0 ==> Good(m, limit, one, Copies(x, n))
  {
    CutsFit(m, limit);
    UsedPush(m, [], one[0]);
    assert [] + [one[0]] == one && one[..0] == [] && Used(m, []) == 0;
    UsedTwo(m, limit, one[0], Fitted(m, limit, [x], x));
    assert Fitted(m, limit, one, x) == Fitted(m, limit, [x], x);
    assert one + [Fitted(m, limit, one, x)] == [one[0]] + [Fitted(m, limit, [x], x)];
  }

  lemma {:induction false} CoveredSame(one: seq<Text>, n: nat, k: nat)
    requires |one| == 1 && k <= n
    ensures Covered(seq(n, i => one), k) == k
    decreases k
  {
    var chunks := seq(n, i => one);
    if k == 0 {
      assert chunks[..0] == [];
    } else {
      CoveredSame(one, n, k - 1);
      Stretch(chunks, k - 1);
    }
  }

  /** One token for each letter; a prompt of five, a separator of one. */
  const LETTERS := Model(Letters, FirstLetters, 5, 1)

  function Letters(t: Text): nat {
    |t.body|
  }

  function FirstLetters(t: Text, n: int): Text {
    if n < 0 then Text("") else if n < |t.body| then Text(t.body[..n]) else t
  }

  /** Two summaries of six letters under a limit of fifteen stay two at every level. */
  lemma StuckExample()
    ensures Truncates(LETTERS) && !PairFits(LETTERS, 15, Text("sunset"), Text("sunset"))
    ensures Summarised(LETTERS, 15, Copies(Text("sunset"), 2), Copies(Text("sunset"), 2))
    ensures !Ends(LETTERS, 15, Text("sunset"), 2)
  {
    var x := Text("sunset");
    UncutPair(LETTERS, 15, x, x);
    RepeatsForever(LETTERS, 15, x, 2);
    EndsIff(LETTERS, 15, x, 2);
  }
}
