/** Lines of a subprocess's output, whatever pieces it is read in. */
module LineStream {
  import opened Packing

  newtype Byte = b: int | 0 <= b < 256
  const NEWLINE: Byte := 10

  datatype Text = Text(chars: string)

  /** Decoding and stripping, as the platform does it. */
  datatype Decoder = Decoder(clean: seq<Byte> -> Text)

  const NOTHING := Text("")

  // ------------------------------------------------------------ the stream as segments

  /** Where the first newline is, or the length. */
  function FirstNewline(s: seq<Byte>): (k: nat)
    ensures k <= |s| && (k < |s| ==> s[k] == NEWLINE) && forall i :: 0 <= i < k ==> s[i] != NEWLINE
  {
    if s == [] || s[0] == NEWLINE then 0 else 1 + FirstNewline(s[1..])
  }

  lemma FirstIs(s: seq<Byte>, k: nat)
    requires k <= |s| && (k < |s| ==> s[k] == NEWLINE) && forall i :: 0 <= i < k ==> s[i] != NEWLINE
    ensures FirstNewline(s) == k
  {
  }

  lemma FirstAfter(first: seq<Byte>, rest: seq<Byte>)
    requires NEWLINE !in first
    ensures var s := first + [NEWLINE] + rest;
            FirstNewline(s) == |first| < |s| && s[..|first|] == first && s[|first| + 1..] == rest
  {
    var s := first + [NEWLINE] + rest;
    assert s[|first|] == NEWLINE && forall i :: 0 <= i < |first| ==> s[i] == first[i];
    FirstIs(s, |first|);
  }

  /** The bytes between newlines; the last segment is unterminated. */
  function Segments(s: seq<Byte>): (r: seq<seq<Byte>>)
    ensures r != []
    decreases |s|
  {
    var k := FirstNewline(s);
    if k == |s| then [s] else [s[..k]] + Segments(s[k + 1..])
  }

  function Joined(segments: seq<seq<Byte>>): seq<Byte> {
    if segments == [] then []
    else if |segments| == 1 then segments[0]
    else segments[0] + [NEWLINE] + Joined(segments[1..])
  }

  lemma SegmentsCons(first: seq<Byte>, rest: seq<Byte>)
    requires NEWLINE !in first
    ensures Segments(first + [NEWLINE] + rest) == [first] + Segments(rest)
  {
    FirstAfter(first, rest);
    hide FirstNewline;
  }

  lemma SegmentsOne(s: seq<Byte>)
    requires NEWLINE !in s
    ensures Segments(s) == [s]
  {
    FirstIs(s, |s|);
  }

  lemma CutAt(s: seq<Byte>, k: nat)
    requires k < |s| && k == FirstNewline(s)
    ensures s == s[..k] + [NEWLINE] + s[k + 1..] && NEWLINE !in s[..k]
  {
    hide *;
    assert forall b :: b in s[..k] ==> exists i :: 0 <= i < k && s[i] == b;
  }

  /** The segments are the stream cut at every newline and nowhere else. */
  lemma {:induction false} SegmentsJoin(s: seq<Byte>)
    ensures Joined(Segments(s)) == s
    ensures forall i :: 0 <= i < |Segments(s)| ==> NEWLINE !in Segments(s)[i]
    decreases |s|
  {
    var k := FirstNewline(s);
    if k < |s| {
      hide Segments;
      CutAt(s, k);
      var first, rest := s[..k], s[k + 1..];
      SegmentsJoin(rest);
      SegmentsCons(first, rest);
      assert ([first] + Segments(rest))[1..] == Segments(rest);
    }
  }

  /** Cutting is undone by joining, so there is one way to cut. */
  lemma {:induction false} JoinedSegments(segments: seq<seq<Byte>>)
    requires segments != [] && forall i :: 0 <= i < |segments| ==> NEWLINE !in segments[i]
    ensures Segments(Joined(segments)) == segments
    decreases |segments|
  {
    hide Segments;
    var first, later := segments[0], segments[1..];
    if |segments| == 1 {
      SegmentsOne(first);
    } else {
      JoinedSegments(later);
      SegmentsCons(first, Joined(later));
      assert segments == [first] + later;
    }
  }

  // ------------------------------------------------------------ the lines of a stream

  /** The cleaned segments that are not empty. */
  function Kept(d: Decoder, segments: seq<seq<Byte>>): seq<Text> {
    if segments == [] then []
    else Shown(d, segments[0]) + Kept(d, segments[1..])
  }

  function Shown(d: Decoder, segment: seq<Byte>): seq<Text> {
    if d.clean(segment) == NOTHING then [] else [d.clean(segment)]
  }

  function Rest(s: seq<Byte>): seq<Byte> {
    Segments(s)[|Segments(s)| - 1]
  }

  function Ended(d: Decoder, s: seq<Byte>): seq<Text> {
    Kept(d, Segments(s)[..|Segments(s)| - 1])
  }

  /** The newline-terminated lines that are not blank, then the unterminated rest if
      there is any, even when it is blank. */
  function LinesOf(d: Decoder, s: seq<Byte>): seq<Text> {
    Ended(d, s) + (if Rest(s) == [] then [] else [d.clean(Rest(s))])
  }

  lemma NewlineLater(a: seq<Byte>, b: seq<Byte>)
    ensures FirstNewline(a) < |a| ==> FirstNewline(a + b) == FirstNewline(a)
  {
    var k := FirstNewline(a);
    if k < |a| {
      assert (a + b)[k] == a[k] && forall i :: 0 <= i < k ==> (a + b)[i] == a[i];
      FirstIs(a + b, k);
    }
  }

  /** The first newline ends the first line. */
  lemma FirstLine(d: Decoder, s: seq<Byte>)
    requires FirstNewline(s) < |s|
    ensures var k := FirstNewline(s);
            && Rest(s) == Rest(s[k + 1..])
            && Ended(d, s) == Shown(d, s[..k]) + Ended(d, s[k + 1..])
  {
    var k := FirstNewline(s);
    CutAt(s, k);
    hide *;
    LineAndRest(d, s[..k], s[k + 1..]);
  }

  lemma LineAndRest(d: Decoder, first: seq<Byte>, rest: seq<Byte>)
    requires NEWLINE !in first
    ensures var s := first + [NEWLINE] + rest;
            Rest(s) == Rest(rest) && Ended(d, s) == Shown(d, first) + Ended(d, rest)
  {
    hide Segments, Kept, Shown;
    SegmentsCons(first, rest);
    EndedIs(d, first + [NEWLINE] + rest, first, Segments(rest));
  }

  lemma EndedIs(d: Decoder, s: seq<Byte>, first: seq<Byte>, later: seq<seq<Byte>>)
    requires Segments(s) == [first] + later && later != []
    ensures Ended(d, s) == Shown(d, first) + Kept(d, later[..|later| - 1]) && Rest(s) == later[|later| - 1]
  {
    hide Segments, Kept, Shown;
    var all := [first] + later;
    assert all[..|all| - 1] == [first] + later[..|later| - 1];
    KeptCons(d, first, later[..|later| - 1]);
  }

  lemma KeptCons(d: Decoder, first: seq<Byte>, more: seq<seq<Byte>>)
    ensures Kept(d, [first] + more) == Shown(d, first) + Kept(d, more)
  {
    assert ([first] + more)[1..] == more;
  }

  /** What has been read can be cut into lines before the rest arrives. */
  lemma {:induction false} ReadOn(d: Decoder, a: seq<Byte>, b: seq<Byte>)
    ensures Ended(d, a + b) == Ended(d, a) + Ended(d, Rest(a) + b)
    ensures Rest(a + b) == Rest(Rest(a) + b)
    decreases |a|
  {
    hide Ended, Rest, FirstNewline, Shown;
    var k := FirstNewline(a);
    if k == |a| {
      NoLine(d, a);
      assert [] + Ended(d, a + b) == Ended(d, a + b);
    } else {
      var first, later := a[..k], a[k + 1..];
      NewlineLater(a, b);
      ReadOn(d, later, b);
      FirstLine(d, a);
      FirstLine(d, a + b);
      assert (a + b)[..k] == first && (a + b)[k + 1..] == later + b;
      assert Shown(d, first) + (Ended(d, later) + Ended(d, Rest(later) + b))
          == Shown(d, first) + Ended(d, later) + Ended(d, Rest(later) + b);
    }
  }

  lemma NoLine(d: Decoder, s: seq<Byte>)
    requires FirstNewline(s) == |s|
    ensures Ended(d, s) == [] && Rest(s) == s
  {
    assert Segments(s) == [s] && [s][..0] == [];
  }

  // ------------------------------------------------------------ the reading loop

  /** The bytes read: an empty read is the end of the stream. */
  function Stream(pieces: seq<seq<Byte>>): seq<Byte> {
    if pieces == [] || pieces[0] == [] then [] else pieces[0] + Stream(pieces[1..])
  }

  /** The lines yielded depend only on the bytes, not on how reads cut them. */
  method ReadLines(d: Decoder, pieces: seq<seq<Byte>>) returns (lines: seq<Text>)
    ensures lines == LinesOf(d, Stream(pieces))
  {
    lines := [];
    var buffer: seq<Byte> := [];
    var i := 0;
    ghost var done: seq<Byte> := [];
    NoLine(d, []);
    assert done + Stream(pieces[0..]) == Stream(pieces) by {
      assert pieces[0..] == pieces;
    }
    hide Ended, Rest, Stream;
    while i < |pieces| && pieces[i] != []
      invariant 0 <= i <= |pieces| && Stream(pieces) == done + Stream(pieces[i..])
      invariant lines == Ended(d, done) && buffer == Rest(done)
    {
      ReadOn(d, done, pieces[i]);
      StreamNext(pieces, i, done);
      var more;
      ghost var at;
      more, buffer, at := Drain(d, buffer + pieces[i]);
      lines := lines + more;
      done := done + pieces[i];
      i := i + 1;
    }
    StreamEnds(pieces, i);
    assert done + [] == done;
    if buffer != [] {
      lines := lines + [d.clean(buffer)];
    }
  }

  lemma StreamNext(pieces: seq<seq<Byte>>, i: nat, done: seq<Byte>)
    requires i < |pieces| && pieces[i] != []
    ensures done + Stream(pieces[i..]) == done + pieces[i] + Stream(pieces[i + 1..])
  {
    assert pieces[i..][1..] == pieces[i + 1..];
  }

  lemma StreamEnds(pieces: seq<seq<Byte>>, i: nat)
    requires i <= |pieces| && (i < |pieces| ==> pieces[i] == [])
    ensures Stream(pieces[i..]) == []
  {
  }

  /** Takes every ended line out of the buffer: yielded are the cleaned segments that are
      not blank, `at` says which. */
  method Drain(d: Decoder, bytes: seq<Byte>) returns (lines: seq<Text>, buffer: seq<Byte>, ghost at: seq<nat>)
    ensures lines == Ended(d, bytes) && buffer == Rest(bytes)
    ensures NonBlankAt(d, Segments(bytes)[..|Segments(bytes)| - 1], lines, at)
  {
    lines, buffer := [], bytes;
    var k := FirstNewline(buffer);
    hide Ended, Rest, FirstNewline, NonBlankAt, Segments, Kept;
    while k < |buffer|
      invariant k == FirstNewline(buffer)
      invariant Ended(d, bytes) == lines + Ended(d, buffer) && Rest(bytes) == Rest(buffer)
      decreases |buffer|
    {
      FirstLine(d, buffer);
      var line := d.clean(buffer[..k]);
      ghost var later := Ended(d, buffer[k + 1..]);
      assert lines + (Shown(d, buffer[..k]) + later) == lines + Shown(d, buffer[..k]) + later;
      if line != NOTHING {
        lines := lines + [line];
      } else {
        assert lines + [] == lines;
      }
      buffer := buffer[k + 1..];
      k := FirstNewline(buffer);
    }
    NoLine(d, buffer);
    assert lines + [] == lines;
    at := EndedAt(d, bytes);
  }

  lemma EndedAt(d: Decoder, s: seq<Byte>) returns (at: seq<nat>)
    ensures NonBlankAt(d, Segments(s)[..|Segments(s)| - 1], Ended(d, s), at)
  {
    at := KeptAt(d, Segments(s)[..|Segments(s)| - 1]);
  }

  /** The bytes read are the pieces laid end to end, up to the first empty one. */
  lemma {:induction false} StreamJoins(pieces: seq<seq<Byte>>, k: nat)
    requires k <= |pieces| && (forall i :: 0 <= i < k ==> pieces[i] != []) && (k < |pieces| ==> pieces[k] == [])
    ensures Stream(pieces) == Flatten(pieces[..k])
    decreases k
  {
    if k == 0 {
      assert pieces[..0] == [];
    } else {
      StreamJoins(pieces[1..], k - 1);
      assert pieces[..k] == [pieces[0]] + pieces[1..][..k - 1];
      FlattenCons(pieces[0], pieces[1..][..k - 1]);
    }
  }

  lemma {:induction false} FlattenCons(p: seq<Byte>, parts: seq<seq<Byte>>)
    ensures Flatten([p] + parts) == p + Flatten(parts)
    decreases |parts|
  {
    var all := [p] + parts;
    if parts == [] {
      assert all[..0] == [];
    } else {
      assert all[..|all| - 1] == [p] + parts[..|parts| - 1];
      FlattenCons(p, parts[..|parts| - 1]);
    }
  }

  /** `lines` are the cleaned segments at the positions `at`, in order: exactly the
      segments that are not blank. */
  ghost predicate NonBlankAt(d: Decoder, segments: seq<seq<Byte>>, lines: seq<Text>, at: seq<nat>) {
    && |lines| == |at|
    && (forall j, k :: 0 <= j < k < |at| ==> at[j] < at[k])
    && (forall k :: 0 <= k < |at| ==> at[k] < |segments| && lines[k] == d.clean(segments[at[k]]))
    && (forall i :: 0 <= i < |segments| ==> (i in at <==> d.clean(segments[i]) != Text("")))
  }

  lemma KeptNone(d: Decoder)
    ensures Kept(d, []) == []
  {
  }

  lemma {:induction false} KeptPush(d: Decoder, segments: seq<seq<Byte>>, last: seq<Byte>)
    ensures Kept(d, segments + [last]) == Kept(d, segments) + Shown(d, last)
    decreases |segments|
  {
    if segments == [] {
      KeptCons(d, last, []);
      assert [] + [last] == [last] + [] && [] + Shown(d, last) == Shown(d, last) + [];
    } else {
      var first, rest := segments[0], segments[1..];
      KeptPush(d, rest, last);
      assert segments + [last] == [first] + (rest + [last]);
      KeptCons(d, first, rest + [last]);
      assert Shown(d, first) + (Kept(d, rest) + Shown(d, last)) == Shown(d, first) + Kept(d, rest) + Shown(d, last);
    }
  }

  lemma {:induction false} KeptAt(d: Decoder, segments: seq<seq<Byte>>) returns (at: seq<nat>)
    ensures NonBlankAt(d, segments, Kept(d, segments), at)
    decreases |segments|
  {
    at := [];
    if segments != [] {
      var n := |segments| - 1;
      at := KeptAt(d, segments[..n]);
      assert segments == segments[..n] + [segments[n]];
      KeptPush(d, segments[..n], segments[n]);
      hide Kept;
      if d.clean(segments[n]) != Text("") {
        at := at + [n];
      }
    }
  }

  /** However bytes are cut into reads, their lines are the cleaned segments between
      newlines: exactly the ended ones that are not blank, in order, then the last
      segment if it has any bytes, blank or not. */
  lemma SameBytesSameLines(d: Decoder, chunks: seq<seq<Byte>>, s: seq<seq<Byte>>) returns (at: seq<nat>)
    requires Stream(chunks) == Joined(s) && s != [] && forall i :: 0 <= i < |s| ==> NEWLINE !in s[i]
    ensures var lines := LinesOf(d, Stream(chunks));
            && |at| <= |lines| && NonBlankAt(d, s[..|s| - 1], lines[..|at|], at)
            && lines[|at|..] == (if s[|s| - 1] == [] then [] else [d.clean(s[|s| - 1])])
            && forall k :: 0 <= k < |at| ==> lines[k] != Text("")
  {
    JoinedSegments(s);
    at := KeptAt(d, s[..|s| - 1]);
    var lines, kept := LinesOf(d, Stream(chunks)), Kept(d, s[..|s| - 1]);
    assert lines[..|at|] == kept;
    forall k | 0 <= k < |at| ensures lines[k] != Text("") {
      assert at[k] in at && kept[k] == lines[k];
    }
  }

  lemma JoinedThree(a: seq<Byte>, b: seq<Byte>)
    ensures Joined([a, [], b, []]) == a + [NEWLINE] + [NEWLINE] + b + [NEWLINE]
  {
    var s := [a, [], b, []];
    assert s[1..] == [[], b, []] && s[1..][1..] == [b, []] && [b, []][1..] == [[]];
    assert Joined([b, []]) == b + [NEWLINE];
    assert Joined([[], b, []]) == [] + [NEWLINE] + (b + [NEWLINE]);
  }

  /** A blank line between two others is dropped. */
  lemma BlankLineDropped(d: Decoder, a: seq<Byte>, b: seq<Byte>)
    requires NEWLINE !in a && NEWLINE !in b && d.clean([]) == Text("")
    requires d.clean(a) != Text("") && d.clean(b) != Text("")
    ensures LinesOf(d, a + [NEWLINE] + [NEWLINE] + b + [NEWLINE]) == [d.clean(a), d.clean(b)]
  {
    hide Segments, Joined, Kept;
    var s := [a, [], b, []];
    JoinedSegments(s);
    JoinedThree(a, b);
    assert s[..3] == [a, [], b];
    KeptCons(d, a, [[], b]);
    KeptCons(d, [], [b]);
    KeptCons(d, b, []);
    KeptNone(d);
    assert [a] + [[], b] == s[..3] && [[]] + [b] == [[], b] && [b] + [] == [b];
  }
}
