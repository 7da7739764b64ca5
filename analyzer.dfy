/** The rule-based timeline and word count of `TextAnalyzer`: each paragraph
    with at least one sentence (splitting on `。！？；`, stripping, dropping
    blanks) yields one entry, numbered by its position in the input, with a
    summary built from its first one or two sentences and cut to 80
    characters plus `...`. */
module Analyzer {
  import opened Text
  import opened Clock
  import opened Segments

  /** The characters `re.split(r'[。！？；]', text)` splits on. */
  const Stops: set<char> := {'。', '！', '？', '；'}

  const SummaryLength := 80

  /** `[s.strip() for s in re.split(...) if s.strip()]`. */
  function SentencesOf(text: string): seq<string>
  {
    StrippedNonBlank(SplitAny(text, Stops))
  }

  /** The first sentence when it has at least 20 characters, else the first
      two joined by `。` when there are two, else the first alone. */
  function RawSummary(ss: seq<string>): string
    requires |ss| > 0
  {
    if |ss[0]| >= 20 then ss[0]
    else if |ss| > 1 then ss[0] + "。" + ss[1]
    else ss[0]
  }

  /** `summary[:80] + '...'` for a summary longer than 80 characters. */
  function Shorten(s: string): string
  {
    if |s| > SummaryLength then s[..SummaryLength] + "..." else s
  }

  function Summary(ss: seq<string>): string
    requires |ss| > 0
  {
    Shorten(RawSummary(ss))
  }

  datatype TimelineEntry = TimelineEntry(index: int, start: real, end: real, time: string, summary: string)

  /** The entry paragraph `i` yields, when it has a sentence. */
  function EntryFor(i: int, p: Paragraph): TimelineEntry
    requires |SentencesOf(p.text)| > 0
  {
    TimelineEntry(i + 1, p.start, p.end, FormatShort(p.start), Summary(SentencesOf(p.text)))
  }

  predicate HasSentence(p: Paragraph)
  {
    |SentencesOf(p.text)| > 0
  }

  /** The timeline of the paragraphs, built from the back. */
  function Timeline(ps: seq<Paragraph>): seq<TimelineEntry>
    decreases |ps|
  {
    if |ps| == 0 then []
    else
      var n := |ps| - 1;
      Timeline(ps[..n]) + (if HasSentence(ps[n]) then [EntryFor(n, ps[n])] else [])
  }

  /** `generate_timeline`. */
  method GenerateTimeline(paragraphs: seq<Paragraph>) returns (timeline: seq<TimelineEntry>)
    ensures timeline == Timeline(paragraphs)
  {
    timeline := [];
    for i := 0 to |paragraphs|
      invariant timeline == Timeline(paragraphs[..i])
    {
      assert paragraphs[..i + 1][..i] == paragraphs[..i];
      var para := paragraphs[i];
      var sentences := SentencesOf(para.text);
      if |sentences| == 0 {
        continue;
      }
      var summary := RawSummary(sentences);
      if |summary| > SummaryLength {
        summary := summary[..SummaryLength] + "...";
      }
      timeline := timeline + [TimelineEntry(i + 1, para.start, para.end, FormatShort(para.start), summary)];
    }
    assert paragraphs[..|paragraphs|] == paragraphs;
  }

  /** An entry that is the one paragraph `e.index - 1` of `ps` yields. */
  predicate EntryOf(ps: seq<Paragraph>, e: TimelineEntry)
  {
    1 <= e.index <= |ps| && HasSentence(ps[e.index - 1]) && e == EntryFor(e.index - 1, ps[e.index - 1])
  }

  lemma EntryOfFront(ps: seq<Paragraph>, e: TimelineEntry)
    requires |ps| > 0 && EntryOf(ps[..|ps| - 1], e)
    ensures EntryOf(ps, e) && e.index < |ps|
  {
    assert ps[..|ps| - 1][e.index - 1] == ps[e.index - 1];
  }

  /** Every entry copies the times of the paragraph its index names, which has
      a sentence, and carries that paragraph's summary. */
  lemma {:induction false} TimelineEntries(ps: seq<Paragraph>)
    ensures |Timeline(ps)| <= |ps|
    ensures forall k :: 0 <= k < |Timeline(ps)| ==> EntryOf(ps, Timeline(ps)[k])
    decreases |ps|
  {
    if |ps| > 0 {
      var n := |ps| - 1;
      TimelineEntries(ps[..n]);
      var tf := Timeline(ps[..n]);
      forall k | 0 <= k < |tf| ensures EntryOf(ps, tf[k]) {
        EntryOfFront(ps, tf[k]);
      }
    }
  }

  lemma {:induction false} IndexBound(ps: seq<Paragraph>)
    ensures forall k :: 0 <= k < |Timeline(ps)| ==> Timeline(ps)[k].index <= |ps|
    decreases |ps|
  {
    if |ps| > 0 {
      var n := |ps| - 1;
      IndexBound(ps[..n]);
    }
  }

  /** Indices strictly increase along `t`. */
  predicate Increasing(t: seq<TimelineEntry>)
  {
    forall j, k :: 0 <= j < k < |t| ==> t[j].index < t[k].index
  }

  lemma SnocIncreasing(t: seq<TimelineEntry>, e: TimelineEntry, n: int)
    requires Increasing(t)
    requires forall k :: 0 <= k < |t| ==> t[k].index <= n
    requires e.index == n + 1
    ensures Increasing(t + [e])
  {
    var u := t + [e];
    forall j, k | 0 <= j < k < |u| ensures u[j].index < u[k].index {
      assert u[j] == t[j];
      if k < |t| { assert u[k] == t[k]; }
    }
  }

  /** The entries' indices strictly increase. */
  lemma {:induction false} TimelineIncreasing(ps: seq<Paragraph>)
    ensures Increasing(Timeline(ps))
    decreases |ps|
  {
    if |ps| > 0 {
      var n := |ps| - 1;
      var tf := Timeline(ps[..n]);
      TimelineIncreasing(ps[..n]);
      IndexBound(ps[..n]);
      if HasSentence(ps[n]) {
        SnocIncreasing(tf, EntryFor(n, ps[n]), n);
      }
    }
  }

  /** Some entry of `t` has index `v`. */
  predicate IndexIn(t: seq<TimelineEntry>, v: int)
  {
    exists k :: 0 <= k < |t| && t[k].index == v
  }

  lemma IndexInAppend(a: seq<TimelineEntry>, b: seq<TimelineEntry>, v: int)
    ensures IndexIn(a + b, v) <==> IndexIn(a, v) || IndexIn(b, v)
  {
    if IndexIn(a + b, v) {
      var k :| 0 <= k < |a + b| && (a + b)[k].index == v;
      if k >= |a| { assert b[k - |a|].index == v; }
    }
    if IndexIn(a, v) {
      var k :| 0 <= k < |a| && a[k].index == v;
      assert (a + b)[k].index == v;
    }
    if IndexIn(b, v) {
      var k :| 0 <= k < |b| && b[k].index == v;
      assert (a + b)[|a| + k].index == v;
    }
  }

  lemma TimelineLast(ps: seq<Paragraph>, v: int)
    requires |ps| > 0
    ensures IndexIn(Timeline(ps), v) <==>
      IndexIn(Timeline(ps[..|ps| - 1]), v) || (HasSentence(ps[|ps| - 1]) && v == |ps|)
  {
    var n := |ps| - 1;
    var last := if HasSentence(ps[n]) then [EntryFor(n, ps[n])] else [];
    IndexInAppend(Timeline(ps[..n]), last, v);
  }

  lemma NoIndexAbove(ps: seq<Paragraph>)
    ensures !IndexIn(Timeline(ps), |ps| + 1)
  {
    TimelineEntries(ps);
  }

  /** A paragraph has an entry exactly when it has a sentence. */
  lemma {:induction false} TimelineCovers(ps: seq<Paragraph>, i: int)
    requires 0 <= i < |ps|
    ensures HasSentence(ps[i]) <==> IndexIn(Timeline(ps), i + 1)
    decreases |ps|
  {
    var n := |ps| - 1;
    TimelineLast(ps, i + 1);
    if i < n {
      TimelineCovers(ps[..n], i);
      assert ps[..n][i] == ps[i];
    } else {
      NoIndexAbove(ps[..n]);
    }
  }

  /** A paragraph made of stop characters and whitespace only has no sentence. */
  lemma BlankParagraph(p: Paragraph)
    requires AllIn(p.text, Whitespace + Stops)
    ensures !HasSentence(p)
  {
    var pieces := SplitAny(p.text, Stops);
    SplitWithin(p.text, Stops, Whitespace);
    BlankPiecesDropped(pieces);
  }

  /** Every sentence is non-empty; the summary is non-empty, at most 83
      characters long, and begins with (up to 80 characters of) the first
      sentence; a long first sentence is the whole summary when it fits. */
  lemma SummarySpec(ss: seq<string>)
    requires |ss| > 0 && forall i :: 0 <= i < |ss| ==> ss[i] != ""
    ensures 0 < |Summary(ss)| <= SummaryLength + 3
    ensures var k := if |ss[0]| < SummaryLength then |ss[0]| else SummaryLength;
      StartsWith(Summary(ss), ss[0][..k])
    ensures 20 <= |ss[0]| <= SummaryLength ==> Summary(ss) == ss[0]
    ensures |ss[0]| < 20 && |ss| > 1 && |ss[0]| + 1 + |ss[1]| <= SummaryLength ==> Summary(ss) == ss[0] + "。" + ss[1]
    ensures |ss| == 1 && |ss[0]| <= SummaryLength ==> Summary(ss) == ss[0]
  {
    var raw := RawSummary(ss);
    var k := if |ss[0]| < SummaryLength then |ss[0]| else SummaryLength;
    assert raw[..|ss[0]|] == ss[0];
    assert raw[..k] == ss[0][..k];
    if |raw| > SummaryLength {
      var s := Summary(ss);
      assert s[..SummaryLength] == raw[..SummaryLength];
      assert s[..k] == raw[..k];
    }
  }

  /** Every timeline summary is non-empty and at most 83 characters. */
  lemma TimelineSummaries(ps: seq<Paragraph>)
    ensures forall k :: 0 <= k < |Timeline(ps)| ==> 0 < |Timeline(ps)[k].summary| <= SummaryLength + 3
  {
    TimelineEntries(ps);
    forall k | 0 <= k < |Timeline(ps)| ensures 0 < |Timeline(ps)[k].summary| <= SummaryLength + 3 {
      var i := Timeline(ps)[k].index - 1;
      SummarySpec(SentencesOf(ps[i].text));
    }
  }

  /** `len(' '.join(p['text'] for p in paragraphs))`. */
  function WordCount(ps: seq<Paragraph>): nat
  {
    |Join(ParagraphTexts(ps), " ")|
  }

  function TotalLength(ps: seq<Paragraph>): nat
    decreases |ps|
  {
    if |ps| == 0 then 0 else |ps[0].text| + TotalLength(ps[1..])
  }

  /** The word count is the total text length plus one separator between
      each pair of neighbours, and 0 for no paragraphs. */
  lemma {:induction false} WordCountSpec(ps: seq<Paragraph>)
    ensures |ps| == 0 ==> WordCount(ps) == 0
    ensures |ps| > 0 ==> WordCount(ps) == TotalLength(ps) + |ps| - 1
    decreases |ps|
  {
    if |ps| > 1 {
      WordCountSpec(ps[1..]);
      assert ParagraphTexts(ps)[1..] == ParagraphTexts(ps[1..]);
    } else if |ps| == 1 {
      assert TotalLength(ps[1..]) == 0;
    }
  }
}
