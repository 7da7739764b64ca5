/** The Qwen (DashScope) transcriber's handling of a downloaded recognition
    result: sentences with millisecond times are folded into paragraphs,
    skipping sentences whose stripped text is empty. */
module TranscriberQwen {
  import opened Wrappers
  import opened Text
  import opened Segments

  /** One recognised sentence; absent keys are `None`. A JSON `null` or a
      non-string text, on which the source raises, cannot be written here. */
  datatype Sentence = Sentence(text: Option<string>, beginMs: Option<int>, endMs: Option<int>, speakerId: Option<string>)

  /** One element of `transcripts`. */
  datatype Transcript = Transcript(sentences: Option<seq<Sentence>>)

  /** The downloaded result object: optional `transcripts` and `sentences` keys. */
  datatype Data = Data(transcripts: Option<seq<Transcript>>, sentences: Option<seq<Sentence>>)

  /** `sentence.get('text', '').strip()`. */
  function StrippedText(s: Sentence): string
  {
    Strip(if s.text.Some? then s.text.value else "")
  }

  /** `sentence.get(key, 0) / 1000.0`. */
  function Seconds(ms: Option<int>): real
  {
    (if ms.Some? then ms.value else 0) as real / 1000.0
  }

  /** The sentences the loop does not skip, as timed pieces in seconds. */
  function Kept(ss: seq<Sentence>): seq<Segment>
    decreases |ss|
  {
    if |ss| == 0 then [] else Kept(ss[..|ss| - 1]) + KeptOne(ss[|ss| - 1])
  }

  function KeptOne(s: Sentence): seq<Segment>
  {
    if StrippedText(s) == "" then [] else [Segment(Seconds(s.beginMs), Seconds(s.endMs), StrippedText(s))]
  }

  lemma KeptStep(ss: seq<Sentence>, i: int)
    requires 0 <= i < |ss|
    ensures Kept(ss[..i + 1]) == Kept(ss[..i]) + KeptOne(ss[i])
  {
    assert ss[..i + 1][..i] == ss[..i];
    assert ss[..i + 1][i] == ss[i];
  }

  /** `_process_sentences`. */
  method ProcessSentences(sentences: seq<Sentence>, gap: real) returns (paragraphs: seq<Paragraph>)
    ensures paragraphs == Aggregate(Kept(sentences), gap)
  {
    paragraphs := [];
    var current := Fresh;
    var i := 0;
    while i < |sentences|
      invariant 0 <= i <= |sentences|
      invariant Acc(paragraphs, current) == Run(Kept(sentences[..i]), gap)
    {
      var sentence := sentences[i];
      KeptStep(sentences, i);
      var text := StrippedText(sentence);
      i := i + 1;
      if text == "" {
        assert Kept(sentences[..i]) == Kept(sentences[..i - 1]) + [];
        assert Kept(sentences[..i]) == Kept(sentences[..i - 1]);
        continue;
      }
      var start := Seconds(sentence.beginMs);
      var end := Seconds(sentence.endMs);
      assert Kept(sentences[..i]) == Kept(sentences[..i - 1]) + [Segment(start, end, text)];
      RunSnoc(Kept(sentences[..i - 1]), Segment(start, end, text), gap);
      if start - current.end > gap && current.text != "" {
        paragraphs := paragraphs + [current];
        current := Paragraph(start, end, text);
      } else {
        if current.text == "" {
          current := current.(start := start);
        }
        current := current.(end := end, text := current.text + text);
      }
    }
    assert sentences[..i] == sentences;
    if current.text != "" {
      paragraphs := paragraphs + [current];
    }
  }

  /** The paragraphs `_process_transcription_data` returns. */
  function DataParagraphs(data: Data, gap: real): seq<Paragraph>
  {
    if data.transcripts.Some? then TranscriptsParagraphs(data.transcripts.value, gap)
    else if data.sentences.Some? then Aggregate(Kept(data.sentences.value), gap)
    else []
  }

  function TranscriptsParagraphs(ts: seq<Transcript>, gap: real): seq<Paragraph>
    decreases |ts|
  {
    if |ts| == 0 then []
    else
      var last := ts[|ts| - 1];
      TranscriptsParagraphs(ts[..|ts| - 1], gap) + (if last.sentences.Some? then Aggregate(Kept(last.sentences.value), gap) else [])
  }

  /** `_process_transcription_data`. */
  method ProcessTranscriptionData(data: Data, gap: real) returns (paragraphs: seq<Paragraph>)
    ensures paragraphs == DataParagraphs(data, gap)
  {
    paragraphs := [];
    if data.transcripts.Some? {
      var ts := data.transcripts.value;
      var i := 0;
      while i < |ts|
        invariant 0 <= i <= |ts|
        invariant paragraphs == TranscriptsParagraphs(ts[..i], gap)
      {
        assert ts[..i + 1][..i] == ts[..i];
        if ts[i].sentences.Some? {
          var more := ProcessSentences(ts[i].sentences.value, gap);
          paragraphs := paragraphs + more;
        }
        i := i + 1;
      }
      assert ts[..i] == ts;
    } else if data.sentences.Some? {
      paragraphs := ProcessSentences(data.sentences.value, gap);
    }
  }

  // ---------------------------------------------------------------- properties

  lemma {:induction false} KeptAppend(a: seq<Sentence>, b: seq<Sentence>)
    ensures Kept(a + b) == Kept(a) + Kept(b)
    decreases |b|
  {
    if |b| == 0 {
      assert a + b == a;
    } else {
      var n := |b| - 1;
      assert (a + b)[..|a + b| - 1] == a + b[..n];
      KeptAppend(a, b[..n]);
    }
  }

  /** A sentence whose stripped text is empty is skipped entirely: removing it
      changes neither times nor texts of the result. */
  lemma SkipsBlank(a: seq<Sentence>, blank: Sentence, b: seq<Sentence>, gap: real)
    requires StrippedText(blank) == ""
    ensures Aggregate(Kept(a + [blank] + b), gap) == Aggregate(Kept(a + b), gap)
  {
    KeptAppend(a + [blank], b);
    KeptAppend(a, [blank]);
    KeptAppend(a, b);
    assert [blank][..0] == [];
    assert Kept([blank]) == Kept([]) + KeptOne(blank) == [];
    assert Kept(a + [blank]) == Kept(a);
  }

  /** When no sentence is blank every one is kept, in order, with its
      stripped text and its times converted from milliseconds to seconds
      (a missing time counts as 0). */
  lemma {:induction false} KeptTimes(ss: seq<Sentence>)
    requires forall i :: 0 <= i < |ss| ==> StrippedText(ss[i]) != ""
    ensures |Kept(ss)| == |ss|
    ensures forall i :: 0 <= i < |ss| ==>
      Kept(ss)[i] == Segment(Seconds(ss[i].beginMs), Seconds(ss[i].endMs), StrippedText(ss[i]))
    decreases |ss|
  {
    if |ss| > 0 {
      var n := |ss| - 1;
      KeptTimes(ss[..n]);
      forall i | 0 <= i < |ss|
        ensures Kept(ss)[i] == Segment(Seconds(ss[i].beginMs), Seconds(ss[i].endMs), StrippedText(ss[i]))
      {
        if i < n {
          assert ss[..n][i] == ss[i];
        }
      }
    }
  }

  /** Each kept piece has text. */
  lemma {:induction false} KeptHaveText(ss: seq<Sentence>)
    ensures AllHaveText(Kept(ss))
    decreases |ss|
  {
    if |ss| > 0 {
      KeptHaveText(ss[..|ss| - 1]);
    }
  }

  /** The kept texts concatenate to all stripped sentence texts. */
  lemma {:induction false} KeptTexts(ss: seq<Sentence>)
    ensures Concat(Texts(Kept(ss))) == Concat(StrippedTexts(ss))
    decreases |ss|
  {
    if |ss| > 0 {
      var n := |ss| - 1;
      KeptTexts(ss[..n]);
      var t := StrippedText(ss[n]);
      assert Concat(Texts(Kept(ss))) == Concat(Texts(Kept(ss[..n]))) + Concat(Texts(KeptOne(ss[n]))) by {
        TextsAppend(Kept(ss[..n]), KeptOne(ss[n]));
        ConcatAppend(Texts(Kept(ss[..n])), Texts(KeptOne(ss[n])));
      }
      assert Concat(StrippedTexts(ss)) == Concat(StrippedTexts(ss[..n])) + Concat([t]) by {
        StrippedTextsSnoc(ss);
        ConcatAppend(StrippedTexts(ss[..n]), [t]);
      }
      assert Concat(Texts(KeptOne(ss[n]))) == Concat([t]) by {
        if t == "" {
          assert Texts(KeptOne(ss[n])) == [];
          assert Concat([t]) == t + Concat([]);
        } else {
          assert Texts(KeptOne(ss[n])) == [t];
        }
      }
    }
  }

  function StrippedTexts(ss: seq<Sentence>): seq<string>
  {
    seq(|ss|, i requires 0 <= i < |ss| => StrippedText(ss[i]))
  }

  lemma StrippedTextsSnoc(ss: seq<Sentence>)
    requires |ss| > 0
    ensures StrippedTexts(ss) == StrippedTexts(ss[..|ss| - 1]) + [StrippedText(ss[|ss| - 1])]
  {
  }

  /** Every paragraph has text, and the paragraph texts concatenate, with no
      separator, to the stripped sentence texts in order. */
  lemma SentenceTexts(ss: seq<Sentence>, gap: real)
    ensures forall i :: 0 <= i < |Aggregate(Kept(ss), gap)| ==> Aggregate(Kept(ss), gap)[i].text != ""
    ensures Concat(ParagraphTexts(Aggregate(Kept(ss), gap))) == Concat(StrippedTexts(ss))
  {
    AggregateTexts(Kept(ss), gap);
    KeptTexts(ss);
  }

  /** A list with no sentence, or only blank ones, gives no paragraph. */
  lemma BlankSentences(ss: seq<Sentence>, gap: real)
    requires forall i :: 0 <= i < |ss| ==> StrippedText(ss[i]) == ""
    ensures Aggregate(Kept(ss), gap) == []
  {
    KeptBlank(ss);
  }

  lemma {:induction false} KeptBlank(ss: seq<Sentence>)
    requires forall i :: 0 <= i < |ss| ==> StrippedText(ss[i]) == ""
    ensures Kept(ss) == []
    decreases |ss|
  {
    if |ss| > 0 {
      KeptBlank(ss[..|ss| - 1]);
    }
  }

  /** The Qwen result is the maximal-gap-run grouping of the kept sentences:
      paragraph boundaries fall exactly where the gap between consecutive
      kept sentences exceeds the threshold, and each paragraph spans its
      first kept sentence's start to its last one's end. */
  lemma SentencesGrouped(ss: seq<Sentence>, gap: real)
    ensures Aggregate(Kept(ss), gap) == Grouped(Kept(ss), gap)
  {
    KeptHaveText(ss);
    AggregateIsGrouped(Kept(ss), gap);
  }

  /** The sentences' speaker ids do not influence the result. */
  lemma {:induction false} IgnoresSpeaker(ss: seq<Sentence>, tt: seq<Sentence>)
    requires |ss| == |tt|
    requires forall i :: 0 <= i < |ss| ==> ss[i].(speakerId := None) == tt[i].(speakerId := None)
    ensures Kept(ss) == Kept(tt)
    decreases |ss|
  {
    if |ss| > 0 {
      var n := |ss| - 1;
      assert ss[n].(speakerId := None) == tt[n].(speakerId := None);
      assert ss[n].text == tt[n].text && ss[n].beginMs == tt[n].beginMs && ss[n].endMs == tt[n].endMs;
      IgnoresSpeaker(ss[..n], tt[..n]);
    }
  }

  /** `transcripts` wins over top-level `sentences`. */
  lemma PrefersTranscripts(ts: seq<Transcript>, ss: Option<seq<Sentence>>, gap: real)
    ensures DataParagraphs(Data(Some(ts), ss), gap) == DataParagraphs(Data(Some(ts), None), gap)
  {
  }

  /** Transcripts are processed independently and their results concatenated:
      no paragraph is merged across two transcripts. */
  lemma {:induction false} TranscriptsConcatenate(a: seq<Transcript>, b: seq<Transcript>, gap: real)
    ensures TranscriptsParagraphs(a + b, gap) == TranscriptsParagraphs(a, gap) + TranscriptsParagraphs(b, gap)
    decreases |b|
  {
    if |b| == 0 {
      assert a + b == a;
    } else {
      var n := |b| - 1;
      assert (a + b)[..|a + b| - 1] == a + b[..n];
      assert (a + b)[|a + b| - 1] == b[n];
      TranscriptsConcatenate(a, b[..n], gap);
    }
  }

  /** The two transcriber families differ on blank text: with a threshold of
      two seconds, a blank piece from 1.5 s to 10 s between "a" (0-1 s) and
      "c" (10.5-11 s) stretches the Whisper paragraph so that "c" joins it,
      while the Qwen loop skips it and breaks before "c". */
  lemma BlankSegmentDifference()
    ensures Aggregate(Cleaned([Segment(0.0, 1.0, "a"), Segment(1.5, 10.0, ""), Segment(10.5, 11.0, "c")]), 2.0)
      == [Paragraph(0.0, 11.0, "ac")]
    ensures Aggregate(Kept([Sentence(Some("a"), Some(0), Some(1000), None),
                            Sentence(Some(""), Some(1500), Some(10000), None),
                            Sentence(Some("c"), Some(10500), Some(11000), None)]), 2.0)
      == [Paragraph(0.0, 1.0, "a"), Paragraph(10.5, 11.0, "c")]
  {
    WhisperKeepsBlank();
    QwenSkipsBlank();
  }

  lemma KeptSingle(s: Sentence)
    ensures Kept([s]) == KeptOne(s)
  {
    assert [s][..0] == [];
  }

  lemma StripLetters()
    ensures Strip("a") == "a" && Strip("c") == "c" && Strip("") == ""
    ensures "" + "a" == "a" && "a" + "" == "a" && "a" + "c" == "ac"
  {
    TrimUnchanged("a", Whitespace);
    TrimUnchanged("c", Whitespace);
    TrimUnchanged("", Whitespace);
  }

  lemma WhisperKeepsBlank()
    ensures Aggregate(Cleaned([Segment(0.0, 1.0, "a"), Segment(1.5, 10.0, ""), Segment(10.5, 11.0, "c")]), 2.0)
      == [Paragraph(0.0, 11.0, "ac")]
  {
    var sa := Segment(0.0, 1.0, "a");
    var sb := Segment(1.5, 10.0, "");
    var sc := Segment(10.5, 11.0, "c");
    StripLetters();
    assert Cleaned([sa, sb, sc]) == [sa, sb, sc] by {
      assert Clean(sa) == sa && Clean(sb) == sb && Clean(sc) == sc;
    }
    RunSnoc([], sa, 2.0);
    assert [] + [sa] == [sa];
    assert Run([], 2.0) == Initial;
    assert Run([sa], 2.0) == Acc([], Paragraph(0.0, 1.0, "a"));
    RunSnoc([sa], sb, 2.0);
    assert [sa] + [sb] == [sa, sb];
    assert Run([sa, sb], 2.0) == Acc([], Paragraph(0.0, 10.0, "a"));
    RunSnoc([sa, sb], sc, 2.0);
    assert [sa, sb] + [sc] == [sa, sb, sc];
    assert Run([sa, sb, sc], 2.0) == Acc([], Paragraph(0.0, 11.0, "ac"));
  }

  lemma QwenSkipsBlank()
    ensures Aggregate(Kept([Sentence(Some("a"), Some(0), Some(1000), None),
                            Sentence(Some(""), Some(1500), Some(10000), None),
                            Sentence(Some("c"), Some(10500), Some(11000), None)]), 2.0)
      == [Paragraph(0.0, 1.0, "a"), Paragraph(10.5, 11.0, "c")]
  {
    var sa := Segment(0.0, 1.0, "a");
    var sc := Segment(10.5, 11.0, "c");
    var qa := Sentence(Some("a"), Some(0), Some(1000), None);
    var qb := Sentence(Some(""), Some(1500), Some(10000), None);
    var qc := Sentence(Some("c"), Some(10500), Some(11000), None);
    StripLetters();
    assert KeptOne(qa) == [sa] && KeptOne(qb) == [] && KeptOne(qc) == [sc];
    assert [qa, qb, qc] == [qa] + [qb] + [qc];
    KeptAppend([qa] + [qb], [qc]);
    KeptAppend([qa], [qb]);
    KeptSingle(qa); KeptSingle(qb); KeptSingle(qc);
    assert Kept([qa, qb, qc]) == [sa] + [] + [sc] == [sa, sc];
    RunSnoc([], sa, 2.0);
    assert [] + [sa] == [sa];
    assert Run([], 2.0) == Initial;
    assert Run([sa], 2.0) == Acc([], Paragraph(0.0, 1.0, "a"));
    RunSnoc([sa], sc, 2.0);
    assert [sa] + [sc] == [sa, sc];
    assert Run([sa, sc], 2.0) == Acc([Paragraph(0.0, 1.0, "a")], Paragraph(10.5, 11.0, "c"));
  }
}
