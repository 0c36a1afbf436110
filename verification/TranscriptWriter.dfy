/** Transcripts fetched concurrently and written in order. */
module TranscriptWriter {
  import opened Outcomes

  /** A task is fetching, has stored its transcript and is about to write, or is done. */
  datatype Task = Fetching | Stored | Done

  datatype Post = Post(id: string)
  datatype Line = Line(post: Post, transcript: string)

  datatype State = State(tasks: seq<Task>, transcripts: seq<Option<string>>, next: nat, rows: seq<Line>)

  /** `texts[t]` is what task t ends up with: the transcript, or "" after any exception. */
  datatype Label = Store(t: nat) | Write(t: nat)

  /** The first position from `next` on whose transcript is missing. */
  function Reach(transcripts: seq<Option<string>>, next: nat): (r: nat)
    requires next <= |transcripts|
    ensures next <= r <= |transcripts|
    ensures forall i :: next <= i < r ==> transcripts[i].Some?
    ensures r < |transcripts| ==> transcripts[r].None?
    decreases |transcripts| - next
  {
    if next < |transcripts| && transcripts[next].Some? then Reach(transcripts, next + 1) else next
  }

  function Lines(posts: seq<Post>, transcripts: seq<Option<string>>, lo: nat, hi: nat): seq<Line>
    requires lo <= hi <= |posts| == |transcripts| && forall i :: lo <= i < hi ==> transcripts[i].Some?
  {
    seq(hi - lo, i requires 0 <= i < hi - lo => Line(posts[lo + i], transcripts[lo + i].value))
  }

  predicate Enabled(s: State, l: Label) {
    && l.t < |s.tasks|
    && match l
       case Store(t) => s.tasks[t].Fetching?
       case Write(t) => s.tasks[t].Stored?
  }

  predicate Sized(posts: seq<Post>, texts: seq<string>, s: State) {
    |s.tasks| == |s.transcripts| == |posts| == |texts| && s.next <= |posts|
  }

  function Do(posts: seq<Post>, texts: seq<string>, s: State, l: Label): State
    requires Sized(posts, texts, s) && Enabled(s, l)
  {
    match l
    case Store(t) => s.(tasks := s.tasks[t := Stored], transcripts := s.transcripts[t := Some(texts[t])])
    case Write(t) =>
      var to := Reach(s.transcripts, s.next);
      State(s.tasks[t := Done], s.transcripts, to, s.rows + Lines(posts, s.transcripts, s.next, to))
  }

  function Initial(n: nat): State {
    State(seq(n, _ => Fetching), seq(n, _ => None), 0, [])
  }

  ghost predicate IsRun(posts: seq<Post>, texts: seq<string>, ss: seq<State>, ls: seq<Label>) {
    && |posts| == |texts| && |ss| == |ls| + 1 && ss[0] == Initial(|posts|)
    && forall i :: 0 <= i < |ls| ==> Sized(posts, texts, ss[i]) && Enabled(ss[i], ls[i]) && ss[i + 1] == Do(posts, texts, ss[i], ls[i])
  }

  /** The post with its own transcript. */
  function Own(posts: seq<Post>, texts: seq<string>): seq<Line>
    requires |posts| == |texts|
  {
    seq(|posts|, i requires 0 <= i < |posts| => Line(posts[i], texts[i]))
  }

  /** A filled position that is not yet written has a task on its way to write it. */
  ghost predicate Inv(posts: seq<Post>, texts: seq<string>, s: State) {
    && Sized(posts, texts, s)
    && (forall i :: 0 <= i < |posts| ==> s.transcripts[i] == if s.tasks[i].Fetching? then None else Some(texts[i]))
    && (forall i :: 0 <= i < s.next ==> !s.tasks[i].Fetching?)
    && s.rows == Own(posts, texts)[..s.next]
    && (s.next < |posts| && !s.tasks[s.next].Fetching? ==> SomeStored(s))
  }

  ghost predicate SomeStored(s: State) {
    exists t :: 0 <= t < |s.tasks| && s.tasks[t].Stored?
  }

  lemma StepKeeps(posts: seq<Post>, texts: seq<string>, s: State, l: Label)
    requires Inv(posts, texts, s) && Enabled(s, l)
    ensures Inv(posts, texts, Do(posts, texts, s, l))
  {
    var s' := Do(posts, texts, s, l);
    match l
    case Store(t) =>
      assert s'.tasks[t].Stored?;
    case Write(t) =>
      var own := Own(posts, texts);
      assert Lines(posts, s.transcripts, s.next, s'.next) == own[s.next..s'.next];
      assert own[..s.next] + own[s.next..s'.next] == own[..s'.next];
  }

  /** Whatever the order in which tasks finish, the rows written are always the first
      posts in order, each once and with its own transcript. */
  lemma {:induction false} RowsArePrefix(posts: seq<Post>, texts: seq<string>, ss: seq<State>, ls: seq<Label>, n: nat)
    requires IsRun(posts, texts, ss, ls) && n < |ss|
    ensures Inv(posts, texts, ss[n])
    ensures |ss[n].rows| == ss[n].next <= |posts|
    ensures forall i :: 0 <= i < |ss[n].rows| ==> ss[n].rows[i] == Line(posts[i], texts[i])
    decreases n
  {
    if n > 0 {
      RowsArePrefix(posts, texts, ss, ls, n - 1);
      StepKeeps(posts, texts, ss[n - 1], ls[n - 1]);
    }
  }

  /** A write never stops short: afterwards everything is written up to the first post
      whose transcript is missing. */
  lemma WritesReady(posts: seq<Post>, texts: seq<string>, ss: seq<State>, ls: seq<Label>, n: nat)
    requires IsRun(posts, texts, ss, ls) && n < |ls| && ls[n].Write?
    ensures var t := ss[n + 1]; |t.tasks| == |posts| && (|t.rows| < |posts| ==> t.tasks[|t.rows|].Fetching?)
  {
    RowsArePrefix(posts, texts, ss, ls, n);
    RowsArePrefix(posts, texts, ss, ls, n + 1);
  }

  /** When all tasks are done, every post has been written. */
  lemma AllWritten(posts: seq<Post>, texts: seq<string>, ss: seq<State>, ls: seq<Label>, n: nat)
    requires IsRun(posts, texts, ss, ls) && n < |ss|
    requires forall t :: 0 <= t < |ss[n].tasks| ==> ss[n].tasks[t].Done?
    ensures |ss[n].rows| == |posts| && forall i :: 0 <= i < |posts| ==> ss[n].rows[i] == Line(posts[i], texts[i])
  {
    RowsArePrefix(posts, texts, ss, ls, n);
    assert ss[n].next == |posts|;
  }

  /** The writer shared by all tasks. */
  class Writer {
    const posts: seq<Post>
    const transcripts: array<Option<string>>
    var nextIndex: nat
    var rows: seq<Line>

    ghost predicate Valid()
      reads this, transcripts
    {
      nextIndex <= transcripts.Length == |posts|
    }

    constructor (posts: seq<Post>)
      ensures Valid() && fresh(transcripts) && this.posts == posts && nextIndex == 0 && rows == []
      ensures forall i :: 0 <= i < transcripts.Length ==> transcripts[i].None?
    {
      this.posts := posts;
      transcripts := new Option<string>[|posts|](_ => None);
      nextIndex, rows := 0, [];
    }

    /** The writer with the positions its tasks have reached. */
    ghost function Snapshot(tasks: seq<Task>): State
      reads this, transcripts
    {
      State(tasks, transcripts[..], nextIndex, rows)
    }

    /** Under the lock: everything that is ready, up to the first gap. */
    method WriteConsecutive(ghost t: nat, ghost tasks: seq<Task>, ghost texts: seq<string>)
      requires Valid() && Sized(posts, texts, Snapshot(tasks)) && Enabled(Snapshot(tasks), Write(t))
      modifies this
      ensures Valid() && Snapshot(tasks[t := Done]) == Do(posts, texts, old(Snapshot(tasks)), Write(t))
    {
      ghost var from, all := nextIndex, transcripts[..];
      while nextIndex < |posts| && transcripts[nextIndex].Some?
        invariant from <= nextIndex <= |posts| && Reach(all, from) == Reach(all, nextIndex)
        invariant forall i :: from <= i < nextIndex ==> all[i].Some?
        invariant rows == old(rows) + Lines(posts, all, from, nextIndex)
        decreases |posts| - nextIndex
      {
        rows := rows + [Line(posts[nextIndex], transcripts[nextIndex].value)];
        nextIndex := nextIndex + 1;
      }
    }

    /** A task stores its transcript, or "" when fetching it raised. */
    method StoreTranscript(index: nat, fetched: Result<string>, ghost tasks: seq<Task>, ghost texts: seq<string>)
      requires Valid() && Sized(posts, texts, Snapshot(tasks)) && Enabled(Snapshot(tasks), Store(index))
      requires texts[index] == if fetched.Ok? then fetched.value else ""
      modifies transcripts
      ensures Valid() && Snapshot(tasks[index := Stored]) == Do(posts, texts, old(Snapshot(tasks)), Store(index))
    {
      transcripts[index] := Some(if fetched.Ok? then fetched.value else "");
    }

    /** One task: it stores what it fetched, then writes what is ready. */
    method Fetch(index: nat, fetched: Result<string>, ghost tasks: seq<Task>, ghost texts: seq<string>)
      requires Valid() && Sized(posts, texts, Snapshot(tasks)) && Enabled(Snapshot(tasks), Store(index))
      requires texts[index] == if fetched.Ok? then fetched.value else ""
      requires Inv(posts, texts, Snapshot(tasks))
      modifies this, transcripts
      ensures Valid() && Inv(posts, texts, Snapshot(tasks[index := Done])) && nextIndex >= old(nextIndex)
    {
      StepKeeps(posts, texts, Snapshot(tasks), Store(index));
      StoreTranscript(index, fetched, tasks, texts);
      StepKeeps(posts, texts, Snapshot(tasks[index := Stored]), Write(index));
      WriteConsecutive(index, tasks[index := Stored], texts);
      assert tasks[index := Stored][index := Done] == tasks[index := Done];
    }
  }
}
