/** Paragraph aggregation: the accumulator loop shared by the three
    transcribers. Timed pieces of text are folded left to right into a
    current paragraph; a new paragraph starts only when the time gap since the
    current paragraph's end exceeds the threshold and the current paragraph
    already has text. The Whisper and OpenAI copies feed every segment (text
    stripped) to the step; the Qwen copy first drops sentences whose stripped
    text is empty. Output records carry `start`, `end` and `text` only. */
module Segments {
  import opened Text
  import opened Clock

  /** A timed piece of recognised text; times in seconds. */
  datatype Segment = Segment(start: real, end: real, text: string)

  /** An output paragraph: the three keys the transcribers emit. */
  datatype Paragraph = Paragraph(start: real, end: real, text: string)

  /** `paragraphs` and `current_para` of the loop. */
  datatype Acc = Acc(done: seq<Paragraph>, cur: Paragraph)

  /** `{"start": 0, "end": 0, "text": ""}`. */
  const Fresh := Paragraph(0.0, 0.0, "")

  const Initial := Acc([], Fresh)

  /** The break test of the loop. */
  predicate Breaks(cur: Paragraph, start: real, gap: real)
  {
    start - cur.end > gap && cur.text != ""
  }

  /** One loop iteration on a segment whose text is already stripped. */
  function Absorb(acc: Acc, s: Segment, gap: real): Acc
  {
    if Breaks(acc.cur, s.start, gap) then
      Acc(acc.done + [acc.cur], Paragraph(s.start, s.end, s.text))
    else
      Acc(acc.done, Paragraph(if acc.cur.text == "" then s.start else acc.cur.start, s.end, acc.cur.text + s.text))
  }

  /** The state after absorbing every item of `items`, in order, from `acc`. */
  function RunFrom(acc: Acc, items: seq<Segment>, gap: real): Acc
    decreases |items|
  {
    if |items| == 0 then acc
    else Absorb(RunFrom(acc, items[..|items| - 1], gap), items[|items| - 1], gap)
  }

  function Run(items: seq<Segment>, gap: real): Acc
  {
    RunFrom(Initial, items, gap)
  }

  /** The final `if current_para["text"]: paragraphs.append(current_para)`. */
  function Finish(acc: Acc): seq<Paragraph>
  {
    if acc.cur.text != "" then acc.done + [acc.cur] else acc.done
  }

  /** The paragraphs the loop returns for `items`. */
  function Aggregate(items: seq<Segment>, gap: real): seq<Paragraph>
  {
    Finish(Run(items, gap))
  }

  function Texts(items: seq<Segment>): seq<string>
  {
    seq(|items|, i requires 0 <= i < |items| => items[i].text)
  }

  lemma TextsAppend(a: seq<Segment>, b: seq<Segment>)
    ensures Texts(a + b) == Texts(a) + Texts(b)
  {
  }

  function ParagraphTexts(ps: seq<Paragraph>): seq<string>
  {
    seq(|ps|, i requires 0 <= i < |ps| => ps[i].text)
  }

  /** `segment.text.strip()` applied to one segment. */
  function Clean(s: Segment): Segment
  {
    Segment(s.start, s.end, Strip(s.text))
  }

  function Cleaned(segs: seq<Segment>): seq<Segment>
  {
    seq(|segs|, i requires 0 <= i < |segs| => Clean(segs[i]))
  }

  // ---------------------------------------------------------------- the loop

  /** `_process_segments` of the Whisper and OpenAI transcribers. */
  method ProcessSegments(segments: seq<Segment>, gap: real) returns (paragraphs: seq<Paragraph>)
    ensures paragraphs == Aggregate(Cleaned(segments), gap)
  {
    paragraphs := [];
    var current := Fresh;
    var i := 0;
    while i < |segments|
      invariant 0 <= i <= |segments|
      invariant Acc(paragraphs, current) == Run(Cleaned(segments[..i]), gap)
    {
      var segment := segments[i];
      var text := Strip(segment.text);
      if segment.start - current.end > gap && current.text != "" {
        paragraphs := paragraphs + [current];
        current := Paragraph(segment.start, segment.end, text);
      } else {
        if current.text == "" {
          current := current.(start := segment.start);
        }
        current := current.(end := segment.end, text := current.text + text);
      }
      assert Cleaned(segments[..i + 1])[..i] == Cleaned(segments[..i]);
      i := i + 1;
    }
    assert segments[..i] == segments;
    if current.text != "" {
      paragraphs := paragraphs + [current];
    }
  }

  /** `format_transcript_text` of the three transcribers: for each paragraph
      the lines `[start - end]`, the text and an empty line. */
  function TranscriptLines(ps: seq<Paragraph>): seq<string>
  {
    Flatten(Blocks(ps))
  }

  function Blocks(ps: seq<Paragraph>): seq<seq<string>>
  {
    seq(|ps|, i requires 0 <= i < |ps| => Block(ps[i]))
  }

  /** The three lines `format_transcript_text` appends for one paragraph. */
  function Block(p: Paragraph): seq<string>
  {
    [Header(p), p.text, ""]
  }

  /** `f"[{start_time} - {end_time}]"`. */
  function Header(p: Paragraph): string
  {
    "[" + FormatHms(p.start) + " - " + FormatHms(p.end) + "]"
  }

  function Flatten(bs: seq<seq<string>>): seq<string>
    decreases |bs|
  {
    if |bs| == 0 then [] else Flatten(bs[..|bs| - 1]) + bs[|bs| - 1]
  }

  method FormatTranscriptText(ps: seq<Paragraph>) returns (r: string)
    ensures r == Join(TranscriptLines(ps), "\n")
  {
    var lines: seq<string> := [];
    var i := 0;
    while i < |ps|
      invariant 0 <= i <= |ps|
      invariant lines == Flatten(Blocks(ps[..i]))
    {
      var para := ps[i];
      assert Blocks(ps[..i + 1])[..i] == Blocks(ps[..i]);
      lines := lines + [Header(para), para.text, ""];
      i := i + 1;
    }
    assert ps[..i] == ps;
    r := Join(lines, "\n");
  }

  /** Flattening blocks of three lines puts line `j` of block `i` at `3 i + j`. */
  lemma {:induction false} FlattenThrees(bs: seq<seq<string>>)
    requires forall i :: 0 <= i < |bs| ==> |bs[i]| == 3
    ensures |Flatten(bs)| == 3 * |bs|
    ensures forall i, j :: 0 <= i < |bs| && 0 <= j < 3 ==> Flatten(bs)[3 * i + j] == bs[i][j]
    decreases |bs|
  {
    if |bs| > 0 {
      var n := |bs| - 1;
      var front := bs[..n];
      FlattenThrees(front);
      assert Flatten(bs) == Flatten(front) + bs[n];
      forall i, j | 0 <= i < |bs| && 0 <= j < 3 ensures Flatten(bs)[3 * i + j] == bs[i][j]
      {
        if i < n {
          assert bs[i] == front[i];
          assert 3 * i + j < |Flatten(front)|;
        } else {
          assert 3 * i + j - |Flatten(front)| == j;
        }
      }
    }
  }

  /** A character no block line contains appears in no flattened line. */
  lemma {:induction false} FlattenNoneIn(bs: seq<seq<string>>, cs: set<char>)
    requires forall i, j :: 0 <= i < |bs| && 0 <= j < |bs[i]| ==> NoneIn(bs[i][j], cs)
    ensures forall k :: 0 <= k < |Flatten(bs)| ==> NoneIn(Flatten(bs)[k], cs)
    decreases |bs|
  {
    if |bs| > 0 {
      var n := |bs| - 1;
      var front := bs[..n];
      FlattenNoneIn(front, cs);
      var f := Flatten(front);
      assert Flatten(bs) == f + bs[n];
      forall k | 0 <= k < |f + bs[n]| ensures NoneIn((f + bs[n])[k], cs)
      {
        if k >= |f| {
          assert (f + bs[n])[k] == bs[n][k - |f|];
        } else {
          assert (f + bs[n])[k] == f[k];
        }
      }
    }
  }

  /** Three lines per paragraph, in order: header, text, blank. */
  lemma TranscriptLinesShape(ps: seq<Paragraph>)
    ensures |TranscriptLines(ps)| == 3 * |ps|
    ensures forall i :: 0 <= i < |ps| ==>
      TranscriptLines(ps)[3 * i] == Header(ps[i]) &&
      TranscriptLines(ps)[3 * i + 1] == ps[i].text && TranscriptLines(ps)[3 * i + 2] == ""
  {
    FlattenThrees(Blocks(ps));
    forall i | 0 <= i < |ps|
      ensures TranscriptLines(ps)[3 * i] == Header(ps[i])
      ensures TranscriptLines(ps)[3 * i + 1] == ps[i].text && TranscriptLines(ps)[3 * i + 2] == ""
    {
      TranscriptBlockAt(ps, i);
    }
  }

  lemma TranscriptBlockAt(ps: seq<Paragraph>, i: int)
    requires 0 <= i < |ps|
    ensures |TranscriptLines(ps)| == 3 * |ps|
    ensures TranscriptLines(ps)[3 * i] == Block(ps[i])[0]
    ensures TranscriptLines(ps)[3 * i + 1] == Block(ps[i])[1]
    ensures TranscriptLines(ps)[3 * i + 2] == Block(ps[i])[2]
  {
    var bs := Blocks(ps);
    FlattenThrees(bs);
    assert bs[i] == Block(ps[i]);
    assert Flatten(bs)[3 * i + 0] == bs[i][0];
    assert Flatten(bs)[3 * i + 1] == bs[i][1];
    assert Flatten(bs)[3 * i + 2] == bs[i][2];
  }

  /** The rendering reads back: when no paragraph text holds a newline, the
      lines of the rendered text are exactly the three lines per paragraph,
      so each paragraph's text is line `3 i + 1`. */
  lemma FormatTranscriptTextLines(ps: seq<Paragraph>)
    requires |ps| > 0
    requires forall i :: 0 <= i < |ps| ==> NoneIn(ps[i].text, {'\n'})
    ensures SplitAny(Join(TranscriptLines(ps), "\n"), {'\n'}) == TranscriptLines(ps)
  {
    var bs := Blocks(ps);
    forall i, j | 0 <= i < |bs| && 0 <= j < |bs[i]| ensures NoneIn(bs[i][j], {'\n'})
    {
      assert bs[i] == Block(ps[i]);
      if j == 0 {
        HeaderNoNewline(ps[i]);
      }
    }
    FlattenNoneIn(bs, {'\n'});
    FlattenThrees(bs);
    JoinSplit(TranscriptLines(ps), '\n');
  }

  lemma HeaderNoNewline(p: Paragraph)
    ensures NoneIn(Header(p), {'\n'})
  {
    HmsNoNewline(p.start);
    HmsNoNewline(p.end);
    var a := FormatHms(p.start);
    var b := FormatHms(p.end);
    NoneInConcat("[" + a, " - ", {'\n'});
    NoneInConcat("[", a, {'\n'});
    NoneInConcat("[" + a + " - ", b, {'\n'});
    NoneInConcat("[" + a + " - " + b, "]", {'\n'});
  }

  lemma HmsNoNewline(t: real)
    ensures NoneIn(FormatHms(t), {'\n'})
  {
    var f := Split(t);
    PadNoNewline(f.hours); PadNoNewline(f.minutes); PadNoNewline(f.secs);
    NoneInConcat(Pad2(f.hours), ":", {'\n'});
    NoneInConcat(Pad2(f.hours) + ":", Pad2(f.minutes), {'\n'});
    NoneInConcat(Pad2(f.hours) + ":" + Pad2(f.minutes), ":", {'\n'});
    NoneInConcat(Pad2(f.hours) + ":" + Pad2(f.minutes) + ":", Pad2(f.secs), {'\n'});
  }

  lemma NoneInConcat(a: string, b: string, cs: set<char>)
    requires NoneIn(a, cs) && NoneIn(b, cs)
    ensures NoneIn(a + b, cs)
  {
    forall k | 0 <= k < |a + b| ensures (a + b)[k] !in cs {
      if k >= |a| {
        assert (a + b)[k] == b[k - |a|];
      }
    }
  }

  lemma PadNoNewline(i: int)
    ensures NoneIn(Pad2(i), {'\n'})
  {
    if i < 0 {
      assert Pad2(i) == "-" + NatToString(-i);
    }
  }

  // ---------------------------------------------------------------- properties of the fold

  /** What the loop keeps true: every closed paragraph has text, and the
      closed texts followed by the current text are all item texts so far. */
  lemma {:induction false} RunInvariant(items: seq<Segment>, gap: real)
    ensures var a := Run(items, gap);
      (forall i :: 0 <= i < |a.done| ==> a.done[i].text != "") &&
      Concat(ParagraphTexts(a.done)) + a.cur.text == Concat(Texts(items))
    decreases |items|
  {
    if |items| > 0 {
      var n := |items| - 1;
      var prev := Run(items[..n], gap);
      RunInvariant(items[..n], gap);
      assert Texts(items) == Texts(items[..n]) + [items[n].text];
      ConcatAppend(Texts(items[..n]), [items[n].text]);
      var a := Run(items, gap);
      if Breaks(prev.cur, items[n].start, gap) {
        assert ParagraphTexts(a.done) == ParagraphTexts(prev.done) + [prev.cur.text];
        ConcatAppend(ParagraphTexts(prev.done), [prev.cur.text]);
      } else {
        assert a.done == prev.done;
      }
    }
  }

  /** Every emitted paragraph has text, and the paragraph texts concatenate
      to the item texts, in order, with nothing inserted. */
  lemma AggregateTexts(items: seq<Segment>, gap: real)
    ensures forall i :: 0 <= i < |Aggregate(items, gap)| ==> Aggregate(items, gap)[i].text != ""
    ensures Concat(ParagraphTexts(Aggregate(items, gap))) == Concat(Texts(items))
  {
    var a := Run(items, gap);
    RunInvariant(items, gap);
    if a.cur.text != "" {
      assert ParagraphTexts(a.done + [a.cur]) == ParagraphTexts(a.done) + [a.cur.text];
      ConcatAppend(ParagraphTexts(a.done), [a.cur.text]);
    } else {
      assert Concat(ParagraphTexts(a.done)) + a.cur.text == Concat(ParagraphTexts(a.done));
    }
  }

  /** An input without any text (in particular, no input) gives no paragraph. */
  lemma AggregateBlank(items: seq<Segment>, gap: real)
    requires forall i :: 0 <= i < |items| ==> items[i].text == ""
    ensures Aggregate(items, gap) == []
  {
    AggregateTexts(items, gap);
    var out := Aggregate(items, gap);
    ConcatEmpty(Texts(items));
    ConcatEmpty(ParagraphTexts(out));
  }

  /** The number of closed paragraphs grows by one exactly when the break
      test holds; otherwise the current paragraph keeps its start unless it
      had no text, and always takes the new end. In particular a segment
      whose stripped text is empty still moves the paragraph end. */
  lemma StepRule(items: seq<Segment>, s: Segment, gap: real)
    ensures var before := Run(items, gap);
      var after := Run(items + [s], gap);
      (|after.done| == |before.done| + 1 <==> Breaks(before.cur, s.start, gap)) &&
      (!Breaks(before.cur, s.start, gap) ==>
        after.cur.end == s.end && after.cur.text == before.cur.text + s.text &&
        after.cur.start == (if before.cur.text == "" then s.start else before.cur.start))
  {
    assert (items + [s])[..|items|] == items;
  }

  /** The fold absorbs one more item at the end. */
  lemma RunSnoc(items: seq<Segment>, x: Segment, gap: real)
    ensures Run(items + [x], gap) == Absorb(Run(items, gap), x, gap)
  {
    assert (items + [x])[..|items|] == items;
  }

  /** The paragraph starts at an item that carries text. */
  predicate StartsAtText(p: Paragraph, items: seq<Segment>)
  {
    exists j | 0 <= j < |items| :: items[j].text != "" && items[j].start == p.start
  }

  lemma {:induction false} RunStarts(items: seq<Segment>, gap: real)
    ensures var a := Run(items, gap);
      (forall i :: 0 <= i < |a.done| ==> StartsAtText(a.done[i], items)) &&
      (a.cur.text != "" ==> StartsAtText(a.cur, items))
    decreases |items|
  {
    if |items| > 0 {
      var n := |items| - 1;
      var prev := Run(items[..n], gap);
      RunStarts(items[..n], gap);
      var a := Run(items, gap);
      forall p | StartsAtText(p, items[..n]) ensures StartsAtText(p, items)
      {
        var j :| 0 <= j < n && items[..n][j].text != "" && items[..n][j].start == p.start;
        assert items[j] == items[..n][j];
      }
      if !Breaks(prev.cur, items[n].start, gap) && prev.cur.text == "" && a.cur.text != "" {
        assert items[n].text != "";
      }
    }
  }

  /** A paragraph starts at the first segment with text merged into it: in
      the Whisper and OpenAI copies a blank segment can move the start only
      while the paragraph is still empty, and that start is overwritten by
      the next merged segment. */
  lemma AggregateStarts(items: seq<Segment>, gap: real)
    ensures forall i :: 0 <= i < |Aggregate(items, gap)| ==> StartsAtText(Aggregate(items, gap)[i], items)
  {
    RunStarts(items, gap);
  }

  // ---------------------------------------------------------------- reference: maximal gap runs

  /** Length of the longest non-empty prefix of `items` in which no
      consecutive gap exceeds `gap`. */
  function RunLength(items: seq<Segment>, gap: real): (k: nat)
    requires |items| > 0
    ensures 1 <= k <= |items|
    ensures forall j :: 0 < j < k ==> items[j].start - items[j - 1].end <= gap
    ensures k < |items| ==> items[k].start - items[k - 1].end > gap
    decreases |items|
  {
    if |items| == 1 || items[1].start - items[0].end > gap then 1
    else 1 + RunLength(items[1..], gap)
  }

  /** The paragraph covering a group: from the first start to the last end,
      with the texts concatenated. */
  function Span(g: seq<Segment>): Paragraph
    requires |g| > 0
  {
    Paragraph(g[0].start, g[|g| - 1].end, Concat(Texts(g)))
  }

  /** Reference definition: cut the items wherever the gap between
      consecutive items exceeds the threshold, and span each piece. */
  function Grouped(items: seq<Segment>, gap: real): seq<Paragraph>
    decreases |items|
  {
    if |items| == 0 then []
    else
      var k := RunLength(items, gap);
      [Span(items[..k])] + Grouped(items[k..], gap)
  }

  predicate AllHaveText(items: seq<Segment>)
  {
    forall i :: 0 <= i < |items| ==> items[i].text != ""
  }

  lemma {:induction false} RunFromAppend(acc: Acc, a: seq<Segment>, b: seq<Segment>, gap: real)
    ensures RunFrom(acc, a + b, gap) == RunFrom(RunFrom(acc, a, gap), b, gap)
    decreases |b|
  {
    if |b| == 0 {
      assert a + b == a;
    } else {
      assert (a + b)[..|a + b| - 1] == a + b[..|b| - 1];
      RunFromAppend(acc, a, b[..|b| - 1], gap);
    }
  }

  /** Closed paragraphs already present are carried along untouched. */
  lemma {:induction false} RunFromDone(d: seq<Paragraph>, c: Paragraph, r: seq<Segment>, gap: real)
    ensures RunFrom(Acc(d, c), r, gap) ==
      Acc(d + RunFrom(Acc([], c), r, gap).done, RunFrom(Acc([], c), r, gap).cur)
    decreases |r|
  {
    if |r| == 0 {
      assert d + [] == d;
    } else {
      var n := |r| - 1;
      RunFromDone(d, c, r[..n], gap);
      var inner := RunFrom(Acc([], c), r[..n], gap);
      assert d + (inner.done + [inner.cur]) == (d + inner.done) + [inner.cur];
    }
  }

  lemma {:induction false} RunGroup(g: seq<Segment>, gap: real)
    requires |g| > 0 && AllHaveText(g)
    requires forall j :: 0 < j < |g| ==> g[j].start - g[j - 1].end <= gap
    ensures Run(g, gap) == Acc([], Span(g))
    decreases |g|
  {
    var n := |g| - 1;
    if n == 0 {
      assert g[..0] == [];
      assert RunFrom(Initial, g[..0], gap) == Initial;
      assert Texts(g) == [g[0].text];
      assert Concat(Texts(g)) == g[0].text + Concat([]);
      assert g[..0] == [];
    } else {
      RunGroup(g[..n], gap);
      assert Texts(g) == Texts(g[..n]) + [g[n].text];
      ConcatAppend(Texts(g[..n]), [g[n].text]);
      assert Concat(Texts(g[..n])) != "" by {
        ConcatEmpty(Texts(g[..n]));
        assert Texts(g[..n])[0] == g[0].text;
      }
    }
  }

  /** A break before `x` closes the current paragraph and then treats `x`
      exactly as the first item of a new, empty paragraph. */
  lemma BreakRestarts(d: seq<Paragraph>, p: Paragraph, x: Segment, gap: real)
    requires Breaks(p, x.start, gap)
    ensures Absorb(Acc(d, p), x, gap) == Absorb(Acc(d + [p], Fresh), x, gap)
  {
  }

  lemma RestartAfterBreak(s: Paragraph, rest: seq<Segment>, gap: real)
    requires |rest| > 0 && Breaks(s, rest[0].start, gap)
    ensures RunFrom(Acc([], s), rest, gap) == RunFrom(Acc([s], Fresh), rest, gap)
  {
    var x := rest[0];
    assert rest == [x] + rest[1..];
    assert [x][..0] == [];
    RunFromAppend(Acc([], s), [x], rest[1..], gap);
    assert RunFrom(Acc([], s), [x], gap) == Absorb(Acc([], s), x, gap);
    BreakRestarts([], s, x, gap);
    RunFromAppend(Acc([s], Fresh), [x], rest[1..], gap);
    assert RunFrom(Acc([s], Fresh), [x], gap) == Absorb(Acc([s], Fresh), x, gap);
  }

  /** The first maximal run becomes the first paragraph, and the fold
      continues on the remaining items as if from the start. */
  lemma {:induction false} AggregateFirstRun(items: seq<Segment>, gap: real)
    requires |items| > 0 && AllHaveText(items)
    ensures Aggregate(items, gap) ==
      [Span(items[..RunLength(items, gap)])] + Aggregate(items[RunLength(items, gap)..], gap)
  {
    var k := RunLength(items, gap);
    var g := items[..k];
    var rest := items[k..];
    assert items == g + rest;
    RunFromAppend(Initial, g, rest, gap);
    RunGroup(g, gap);
    var s := Span(g);
    assert s.text != "" by {
      ConcatEmpty(Texts(g));
      assert Texts(g)[0] == g[0].text;
    }
    assert Run(items, gap) == RunFrom(Acc([], s), rest, gap);
    if |rest| == 0 {
      assert Aggregate(rest, gap) == [];
    } else {
      AfterBreak(s, rest, gap);
    }
  }

  lemma AfterBreak(s: Paragraph, rest: seq<Segment>, gap: real)
    requires |rest| > 0 && Breaks(s, rest[0].start, gap)
    ensures Finish(RunFrom(Acc([], s), rest, gap)) == [s] + Aggregate(rest, gap)
  {
    RestartAfterBreak(s, rest, gap);
    RunFromDone([s], Fresh, rest, gap);
    FinishPrefix(s, Run(rest, gap));
  }

  lemma FinishPrefix(s: Paragraph, a: Acc)
    ensures Finish(Acc([s] + a.done, a.cur)) == [s] + Finish(a)
  {
    if a.cur.text != "" {
      assert [s] + a.done + [a.cur] == [s] + (a.done + [a.cur]);
    }
  }

  /** The fold computes the reference definition on items that all have text
      (the Qwen copy's kept sentences): a paragraph starts exactly where the
      gap to the previous item exceeds the threshold, each paragraph runs
      from its first item's start to its last item's end, and gaps inside a
      paragraph are at most the threshold. */
  lemma {:induction false} AggregateIsGrouped(items: seq<Segment>, gap: real)
    requires AllHaveText(items)
    ensures Aggregate(items, gap) == Grouped(items, gap)
    decreases |items|
  {
    if |items| > 0 {
      var k := RunLength(items, gap);
      AggregateFirstRun(items, gap);
      AggregateIsGrouped(items[k..], gap);
    }
  }
}
