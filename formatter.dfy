/** `TranscriptFormatter` of `src/transcript_formatter.py`: sentence
    splitting, the dialogue-style Markdown rendering and the output-format
    dispatch of `format_transcript`. `format_time` is `Clock.FormatHms`. */
module Formatter {
  import opened Wrappers
  import opened Text
  import opened Clock
  import opened Order
  import opened Segments

  // ------------------------------------------------------------ sentences

  /** The sentence endings `。！？；` and the newline. */
  const Endings: set<char> := {'。', '！', '？', '；', '\n'}

  /** The clause marks a long sentence is split on: `，` and `、`. */
  const Commas: set<char> := {'，', '、'}

  /** Longest sentence kept whole. */
  const LongSentence := 100

  /** What one stripped sentence contributes: itself, or when longer than
      100 characters its stripped non-empty clauses. */
  function Pieces(s: string): seq<string>
  {
    if |s| > LongSentence then StrippedNonBlank(SplitAny(s, Commas)) else [s]
  }

  function Expand(ss: seq<string>): seq<string>
    decreases |ss|
  {
    if |ss| == 0 then [] else Expand(ss[..|ss| - 1]) + Pieces(ss[|ss| - 1])
  }

  /** The stripped non-blank pieces between endings. The source splits on
      runs of endings (`[...]+`); splitting on single endings differs only by
      empty pieces, which the filter drops. */
  function RawSentences(text: string): seq<string>
  {
    StrippedNonBlank(SplitAny(text, Endings))
  }

  function Sentences(text: string): seq<string>
  {
    Expand(RawSentences(text))
  }

  /** `split_into_sentences`. */
  method SplitIntoSentences(text: string) returns (result: seq<string>)
    ensures result == Sentences(text)
  {
    var sentences := RawSentences(text);
    result := [];
    for i := 0 to |sentences|
      invariant result == Expand(sentences[..i])
    {
      assert sentences[..i + 1][..i] == sentences[..i];
      var sentence := sentences[i];
      if |sentence| > LongSentence {
        var clauses := Clauses(sentence);
        result := result + clauses;
      } else {
        result := result + [sentence];
      }
    }
    assert sentences[..|sentences|] == sentences;
  }

  /** The inner loop of `split_into_sentences` over the clauses of a long
      sentence: each stripped, the empty ones dropped. */
  method Clauses(sentence: string) returns (kept: seq<string>)
    ensures kept == StrippedNonBlank(SplitAny(sentence, Commas))
  {
    var subs := SplitAny(sentence, Commas);
    kept := [];
    for j := 0 to |subs|
      invariant kept == StrippedNonBlank(subs[..j])
    {
      StrippedNonBlankSnoc(subs[..j], subs[j]);
      assert subs[..j + 1] == subs[..j] + [subs[j]];
      var sub := Strip(subs[j]);
      if sub != "" {
        kept := kept + [sub];
      }
    }
    assert subs[..|subs|] == subs;
  }

  predicate GoodSentence(r: string)
  {
    r != "" && IsStripped(r) && NoneIn(r, Endings) && (|r| > LongSentence ==> NoneIn(r, Commas))
  }

  lemma {:induction false} ExpandShape(ss: seq<string>)
    requires forall i :: 0 <= i < |ss| ==> ss[i] != "" && IsStripped(ss[i]) && NoneIn(ss[i], Endings)
    ensures forall i :: 0 <= i < |Expand(ss)| ==> GoodSentence(Expand(ss)[i])
    decreases |ss|
  {
    if |ss| > 0 {
      var n := |ss| - 1;
      ExpandShape(ss[..n]);
      var s := ss[n];
      if |s| > LongSentence {
        var subs := SplitAny(s, Commas);
        SplitKeeps(s, Commas, Endings);
        forall i | 0 <= i < |subs| ensures NoneIn(subs[i], Endings + Commas) {
          assert NoneIn(subs[i], Endings) && NoneIn(subs[i], Commas);
        }
        StrippedNonBlankShape(subs, Endings + Commas);
      }
      var a := Expand(ss[..n]);
      var b := Pieces(s);
      forall i | 0 <= i < |a + b| ensures GoodSentence((a + b)[i]) {
        if i >= |a| {
          assert (a + b)[i] == b[i - |a|];
        }
      }
    }
  }

  /** Every returned sentence is non-empty, has no surrounding whitespace and
      no sentence ending, and one longer than 100 characters has no clause
      mark either. */
  lemma SentencesShape(text: string)
    ensures forall i :: 0 <= i < |Sentences(text)| ==> GoodSentence(Sentences(text)[i])
  {
    var raw := SplitAny(text, Endings);
    StrippedNonBlankShape(raw, Endings);
    ExpandShape(RawSentences(text));
  }

  /** A single stripped sentence without endings comes back as its pieces:
      whole when at most 100 characters long, its clauses otherwise. */
  lemma SentencesOfOne(text: string)
    requires text != "" && IsStripped(text) && NoneIn(text, Endings)
    ensures Sentences(text) == Pieces(text)
    ensures |text| <= LongSentence ==> Sentences(text) == [text]
  {
    SplitNone(text, Endings);
    TrimUnchanged(text, Whitespace);
    assert StrippedNonBlank([text]) == [text];
    assert Expand([text]) == Expand([text][..0]) + Pieces(text);
  }

  /** A text of whitespace and endings only has no sentences. */
  lemma SentencesBlank(text: string)
    requires AllIn(text, Whitespace + Endings)
    ensures Sentences(text) == []
  {
    SplitWithin(text, Endings, Whitespace);
    BlankPiecesDropped(SplitAny(text, Endings));
  }
  // ------------------------------------------------------------ Markdown

  /** A segment's `speaker_id`: no key, Python's `None`, or a string id. */
  datatype SpeakerField = NoKey | NullId | Id(id: string)

  /** A segment as `to_markdown` reads it. */
  datatype MdSegment = MdSegment(start: real, end: real, text: string, speaker: SpeakerField)

  /** A non-empty metadata dict: `podcast_id` and `model` by their `str()`,
      `""` standing for a missing or falsy value, and `speaker_names`. An
      absent or empty dict is `None` at the call. */
  datatype Metadata = Metadata(podcastId: string, model: string, speakerNames: map<string, string>)

  function NamesOf(meta: Option<Metadata>): map<string, string>
  {
    if meta.Some? then meta.value.speakerNames else map[]
  }

  /** `str(segment.get('speaker_id', 'unknown'))`. */
  function SpeakerKey(f: SpeakerField): string
  {
    match f
    case NoKey => "unknown"
    case NullId => "None"
    case Id(s) => s
  }

  /** `speaker_names.get(key, ...)` falling back to the key itself. */
  function Lookup(names: map<string, string>, key: string): string
  {
    if key in names then names[key] else key
  }

  function DisplayName(names: map<string, string>, f: SpeakerField): string
  {
    Lookup(names, SpeakerKey(f))
  }

  /** The truthy speaker ids, in segment order. */
  function TruthyIds(segs: seq<MdSegment>): seq<string>
    decreases |segs|
  {
    if |segs| == 0 then []
    else
      var n := |segs| - 1;
      var f := segs[n].speaker;
      TruthyIds(segs[..n]) + (if f.Id? && f.id != "" then [f.id] else [])
  }

  /** The `speakers` set the first loop builds. */
  function IdSet(segs: seq<MdSegment>): set<string>
  {
    set i | 0 <= i < |segs| && segs[i].speaker.Id? && segs[i].speaker.id != "" :: segs[i].speaker.id
  }

  /** `sorted(speakers)`. */
  function HeaderIds(segs: seq<MdSegment>): seq<string>
  {
    SortedSet(TruthyIds(segs))
  }

  function HeaderNames(ids: seq<string>, names: map<string, string>): seq<string>
  {
    seq(|ids|, i requires 0 <= i < |ids| => Lookup(names, ids[i]))
  }

  /** The title and metadata lines. */
  function HeaderLines(m: Metadata, speakerNames: seq<string>): seq<string>
  {
    ["# 播客转录\n"] +
    (if m.podcastId != "" then ["**播客 ID**: " + m.podcastId + "\n"] else []) +
    (if m.model != "" then ["**转录模型**: " + m.model + "\n"] else []) +
    (if |speakerNames| > 0 then ["**说话人**: " + Join(speakerNames, ", ") + "\n"] else []) +
    ["\n---\n"]
  }

  /** `\n**[start - end] name**\n`. */
  function BlockHead(s: MdSegment, names: map<string, string>): string
  {
    "\n**[" + FormatHms(s.start) + " - " + FormatHms(s.end) + "] " + DisplayName(names, s.speaker) + "**\n"
  }

  /** The two lines one segment contributes. */
  function BlockLines(s: MdSegment, names: map<string, string>): seq<string>
  {
    [BlockHead(s, names), "> " + s.text + "\n"]
  }

  function MdBlocks(segs: seq<MdSegment>, names: map<string, string>): seq<seq<string>>
  {
    seq(|segs|, i requires 0 <= i < |segs| => BlockLines(segs[i], names))
  }

  function MarkdownLines(segs: seq<MdSegment>, meta: Option<Metadata>): seq<string>
  {
    var names := NamesOf(meta);
    (if meta.Some? then HeaderLines(meta.value, HeaderNames(HeaderIds(segs), names)) else []) +
    Flatten(MdBlocks(segs, names))
  }

  /** The text `to_markdown` returns. */
  function Markdown(segs: seq<MdSegment>, meta: Option<Metadata>): string
  {
    Concat(MarkdownLines(segs, meta))
  }

  lemma {:induction false} IdSetIsTruthyIds(segs: seq<MdSegment>)
    ensures forall s :: s in IdSet(segs) <==> s in TruthyIds(segs)
    decreases |segs|
  {
    if |segs| > 0 {
      var n := |segs| - 1;
      IdSetIsTruthyIds(segs[..n]);
      forall s ensures s in IdSet(segs) <==> s in IdSet(segs[..n]) || (segs[n].speaker.Id? && segs[n].speaker.id != "" && s == segs[n].speaker.id) {
        if s in IdSet(segs) {
          var i :| 0 <= i < |segs| && segs[i].speaker.Id? && segs[i].speaker.id != "" && segs[i].speaker.id == s;
          if i < n { assert segs[..n][i] == segs[i]; }
        }
        if s in IdSet(segs[..n]) {
          var i :| 0 <= i < n && segs[..n][i].speaker.Id? && segs[..n][i].speaker.id != "" && segs[..n][i].speaker.id == s;
          assert segs[i] == segs[..n][i];
        }
      }
    }
  }

  /** The header lists the distinct truthy ids in strictly ascending order,
      each exactly once. */
  lemma HeaderIdsSpec(segs: seq<MdSegment>)
    ensures StrictlySorted(HeaderIds(segs))
    ensures forall s :: s in HeaderIds(segs) <==>
      exists i :: 0 <= i < |segs| && segs[i].speaker == Id(s) && s != ""
  {
    SortedSetSpec(TruthyIds(segs));
    IdSetIsTruthyIds(segs);
    forall s ensures s in IdSet(segs) <==> exists i :: 0 <= i < |segs| && segs[i].speaker == Id(s) && s != "" {
      if s in IdSet(segs) {
        var i :| 0 <= i < |segs| && segs[i].speaker.Id? && segs[i].speaker.id != "" && segs[i].speaker.id == s;
        assert segs[i].speaker == Id(s);
      }
    }
  }

  /** The header's speaker list and the blocks agree: a segment with a
      truthy id is shown under a name the header lists, and every listed
      name is the one some such segment is shown under. */
  lemma HeaderListsBlockNames(segs: seq<MdSegment>, names: map<string, string>)
    ensures forall i :: 0 <= i < |segs| && segs[i].speaker.Id? && segs[i].speaker.id != "" ==>
      DisplayName(names, segs[i].speaker) in HeaderNames(HeaderIds(segs), names)
    ensures forall n :: n in HeaderNames(HeaderIds(segs), names) ==>
      exists i :: (0 <= i < |segs| && segs[i].speaker.Id? && segs[i].speaker.id != "" &&
        DisplayName(names, segs[i].speaker) == n)
  {
    var ids := HeaderIds(segs);
    var listed := HeaderNames(ids, names);
    HeaderIdsSpec(segs);
    forall i | 0 <= i < |segs| && segs[i].speaker.Id? && segs[i].speaker.id != ""
      ensures DisplayName(names, segs[i].speaker) in listed
    {
      var id := segs[i].speaker.id;
      assert segs[i].speaker == Id(id);
      assert id in ids;
      var k :| 0 <= k < |ids| && ids[k] == id;
      assert listed[k] == Lookup(names, id);
    }
    forall n | n in listed
      ensures exists i :: (0 <= i < |segs| && segs[i].speaker.Id? && segs[i].speaker.id != "" &&
        DisplayName(names, segs[i].speaker) == n)
    {
      var k :| 0 <= k < |listed| && listed[k] == n;
      assert ids[k] in ids;
      var i :| 0 <= i < |segs| && segs[i].speaker == Id(ids[k]) && ids[k] != "";
      assert DisplayName(names, segs[i].speaker) == n;
    }
  }

  /** `to_markdown` (the file write is not part of this model). */
  method ToMarkdown(segments: seq<MdSegment>, metadata: Option<Metadata>) returns (markdown: string)
    ensures markdown == Markdown(segments, metadata)
  {
    var lines: seq<string> := [];
    var speakerNames := if metadata.Some? then metadata.value.speakerNames else map[];
    var speakers := CollectSpeakers(segments);
    if metadata.Some? {
      lines := RenderHeader(metadata.value, segments, speakers);
    }
    lines := RenderBlocks(lines, segments, speakerNames);
    markdown := Concat(lines);
  }

  /** The first loop of `to_markdown`: the set of truthy speaker ids. */
  method CollectSpeakers(segments: seq<MdSegment>) returns (speakers: set<string>)
    ensures speakers == IdSet(segments)
  {
    speakers := {};
    for i := 0 to |segments|
      invariant speakers == IdSet(segments[..i])
    {
      assert forall k :: 0 <= k < i ==> segments[..i + 1][k] == segments[..i][k];
      var speakerId := segments[i].speaker;
      if speakerId.Id? && speakerId.id != "" {
        speakers := speakers + {speakerId.id};
      }
    }
    assert segments[..|segments|] == segments;
  }

  /** The title and metadata lines, speakers listed by display name in
      ascending id order. */
  method RenderHeader(m: Metadata, segments: seq<MdSegment>, speakers: set<string>) returns (lines: seq<string>)
    requires speakers == IdSet(segments)
    ensures lines == HeaderLines(m, HeaderNames(HeaderIds(segments), m.speakerNames))
  {
    lines := ["# 播客转录\n"];
    if m.podcastId != "" {
      lines := lines + ["**播客 ID**: " + m.podcastId + "\n"];
    }
    if m.model != "" {
      lines := lines + ["**转录模型**: " + m.model + "\n"];
    }
    var ordered := HeaderIds(segments);
    HeaderIdsEmpty(segments, speakers);
    var speakerList: seq<string> := [];
    if speakers != {} {
      speakerList := DisplayNames(ordered, m.speakerNames);
      lines := lines + ["**说话人**: " + Join(speakerList, ", ") + "\n"];
    }
    assert |ordered| == 0 ==> HeaderNames(ordered, m.speakerNames) == [];
    lines := lines + ["\n---\n"];
  }

  /** `[speaker_names.get(s, s) for s in sorted(speakers)]`. */
  method DisplayNames(ordered: seq<string>, names: map<string, string>) returns (speakerList: seq<string>)
    ensures speakerList == HeaderNames(ordered, names)
  {
    speakerList := [];
    for j := 0 to |ordered|
      invariant speakerList == HeaderNames(ordered[..j], names)
    {
      speakerList := speakerList + [Lookup(names, ordered[j])];
    }
    assert ordered[..|ordered|] == ordered;
  }

  /** The header lists speakers exactly when the first loop found one. */
  lemma HeaderIdsEmpty(segments: seq<MdSegment>, speakers: set<string>)
    requires speakers == IdSet(segments)
    ensures |HeaderIds(segments)| == 0 <==> speakers == {}
  {
    IdSetIsTruthyIds(segments);
    SortedSetSpec(TruthyIds(segments));
    SameSetEmpty(HeaderIds(segments), speakers);
  }

  /** The second loop of `to_markdown`: two lines per segment, in order. */
  method RenderBlocks(head: seq<string>, segments: seq<MdSegment>, names: map<string, string>) returns (lines: seq<string>)
    ensures lines == head + Flatten(MdBlocks(segments, names))
  {
    lines := head;
    ghost var bs := MdBlocks(segments, names);
    for i := 0 to |segments|
      invariant lines == head + Flatten(bs[..i])
    {
      var block := BlockLines(segments[i], names);
      assert block == bs[i];
      FlattenStep(head, bs, i);
      lines := lines + block;
    }
    assert bs[..|segments|] == bs;
  }

  lemma FlattenStep(head: seq<string>, bs: seq<seq<string>>, i: int)
    requires 0 <= i < |bs|
    ensures head + Flatten(bs[..i + 1]) == (head + Flatten(bs[..i])) + bs[i]
  {
    assert bs[..i + 1][..i] == bs[..i];
  }

  lemma SameSetEmpty(xs: seq<string>, s: set<string>)
    requires forall y :: y in xs <==> y in s
    ensures |xs| == 0 <==> s == {}
  {
    if |xs| > 0 {
      assert xs[0] in s;
    }
    if s != {} {
      var y :| y in s;
      assert y in xs;
    }
  }

  // ------------------------------------------------------------ dispatch

  datatype Rendered = MarkdownText(text: string) | PdfFile

  const Unsupported := "不支持的输出格式: "

  /** `format_transcript`: Markdown for `markdown`/`md`, the PDF writer for
      `pdf` (any letter case), `ValueError` otherwise. */
  method FormatTranscript(segments: seq<MdSegment>, metadata: Option<Metadata>, outputFormat: string)
    returns (r: Result<Rendered, string>)
    ensures r.Ok? <==> Lower(outputFormat) in {"markdown", "md", "pdf"}
    ensures Lower(outputFormat) in {"markdown", "md"} ==> r == Ok(MarkdownText(Markdown(segments, metadata)))
    ensures Lower(outputFormat) == "pdf" ==> r == Ok(PdfFile)
    ensures r.Err? ==> r.error == Unsupported + outputFormat
  {
    var f := Lower(outputFormat);
    if f == "markdown" || f == "md" {
      var text := ToMarkdown(segments, metadata);
      r := Ok(MarkdownText(text));
    } else if f == "pdf" {
      r := Ok(PdfFile);
    } else {
      r := Err(Unsupported + outputFormat);
    }
  }
}
