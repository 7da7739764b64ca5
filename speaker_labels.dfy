/** The speaker-label health check of `scripts/check_asr_speaker_labels.py`:
    normalising raw `speaker_id` values, the quality report over a list of
    segments, the pass gate, the language-hint option and the extraction of
    sentence segments from a decoded transcription payload.

    A raw value `Some(r)` stands for a present, non-`None` value whose
    `str()` is `r`; `None` stands for a missing key or Python's `None`. */
module SpeakerLabels {
  import opened Wrappers
  import opened Text
  import opened Order

  // ------------------------------------------------------------ normalising

  const Sentinels: set<string> := {"unknown", "none", "null", "nan"}

  /** `_normalize_speaker_id`. */
  function NormalizeSpeakerId(raw: Option<string>): Option<string>
  {
    if raw.None? then None
    else
      var text := Strip(raw.value);
      if text == "" then None
      else if Lower(text) in Sentinels then None
      else Some(text)
  }

  /** A normalised id is absent exactly for `None`, blank text and the four
      sentinels in any letter case; otherwise it is the trimmed text, which
      is non-empty, stripped and no sentinel. */
  lemma NormalizeSpec(raw: Option<string>)
    ensures NormalizeSpeakerId(raw).None? <==>
      raw.None? || IsBlank(raw.value) || Lower(Strip(raw.value)) in Sentinels
    ensures NormalizeSpeakerId(raw).Some? ==>
      var v := NormalizeSpeakerId(raw).value;
      v == Strip(raw.value) && v != "" && IsStripped(v) && Lower(v) !in Sentinels
  {
    if raw.Some? {
      StripEmptyIff(raw.value);
      StripIsStripped(raw.value);
    }
  }

  /** Normalising is idempotent: a valid id normalises to itself. */
  lemma NormalizeIdempotent(raw: Option<string>)
    requires NormalizeSpeakerId(raw).Some?
    ensures NormalizeSpeakerId(NormalizeSpeakerId(raw)) == NormalizeSpeakerId(raw)
  {
    StripIdempotent(raw.value);
  }

  // ------------------------------------------------------------ the report

  /** The valid ids, in order: `[sid for sid in normalized_ids if sid is not None]`. */
  function ValidIds(ids: seq<Option<string>>): (r: seq<string>)
    ensures |r| <= |ids|
    decreases |ids|
  {
    if |ids| == 0 then []
    else
      var n := |ids| - 1;
      var v := NormalizeSpeakerId(ids[n]);
      ValidIds(ids[..n]) + (if v.Some? then [v.value] else [])
  }

  /** How many raw ids normalise to `None`. */
  function InvalidCount(ids: seq<Option<string>>): nat
    decreases |ids|
  {
    if |ids| == 0 then 0
    else
      var n := |ids| - 1;
      InvalidCount(ids[..n]) + (if NormalizeSpeakerId(ids[n]).None? then 1 else 0)
  }

  /** Every id is either valid or invalid: the two counts add up to the total. */
  lemma {:induction false} CountsAddUp(ids: seq<Option<string>>)
    ensures |ValidIds(ids)| + InvalidCount(ids) == |ids|
    decreases |ids|
  {
    if |ids| > 0 {
      CountsAddUp(ids[..|ids| - 1]);
    }
  }

  /** Number of adjacent unequal pairs. */
  function Switches(vs: seq<string>): nat
    decreases |vs|
  {
    if |vs| <= 1 then 0
    else
      var n := |vs| - 1;
      Switches(vs[..n]) + (if vs[n] != vs[n - 1] then 1 else 0)
  }

  /** At most one switch between each adjacent pair. */
  lemma {:induction false} SwitchesBound(vs: seq<string>)
    ensures Switches(vs) <= if |vs| == 0 then 0 else |vs| - 1
    decreases |vs|
  {
    if |vs| > 1 {
      SwitchesBound(vs[..|vs| - 1]);
    }
  }

  predicate AllSame(vs: seq<string>)
  {
    forall i :: 0 <= i < |vs| ==> vs[i] == vs[0]
  }

  /** No switch happens exactly when one speaker holds every valid segment. */
  lemma {:induction false} NoSwitchIff(vs: seq<string>)
    ensures Switches(vs) == 0 <==> AllSame(vs)
    decreases |vs|
  {
    if |vs| > 1 {
      var n := |vs| - 1;
      var front := vs[..n];
      NoSwitchIff(front);
      assert forall i :: 0 <= i < n ==> vs[i] == front[i];
      if AllSame(vs) {
        assert vs[n] == vs[0] && vs[n - 1] == vs[0];
      }
    }
  }

  /** Occurrences of `s` in `vs`. */
  function Count(vs: seq<string>, s: string): nat
    decreases |vs|
  {
    if |vs| == 0 then 0
    else
      var n := |vs| - 1;
      Count(vs[..n], s) + (if vs[n] == s then 1 else 0)
  }

  lemma {:induction false} CountPositive(vs: seq<string>, s: string)
    ensures Count(vs, s) > 0 <==> s in vs
    decreases |vs|
  {
    if |vs| > 0 {
      var n := |vs| - 1;
      CountPositive(vs[..n], s);
      assert vs == vs[..n] + [vs[n]];
    }
  }

  /** `dict(Counter(valid_ids))`. */
  function Distribution(vs: seq<string>): map<string, nat>
  {
    map s | s in vs :: Count(vs, s)
  }

  /** The quality report of `_analyze`. */
  datatype Report = Report(
    total: nat, valid: nat, withoutId: nat, rate: real,
    uniqueCount: nat, unique: seq<string>, switches: nat,
    distribution: map<string, nat>)

  /** `valid / total`, and 0 for no segments. */
  function Rate(valid: nat, total: nat): real
  {
    if total > 0 then valid as real / total as real else 0.0
  }

  /** `_analyze` over the raw `speaker_id` values of the segments, in order. */
  method Analyze(ids: seq<Option<string>>) returns (r: Report)
    ensures r.total == |ids| && r.valid == |ValidIds(ids)|
    ensures r.withoutId == InvalidCount(ids) && r.valid + r.withoutId == r.total
    ensures r.rate == Rate(r.valid, r.total)
    ensures StrictlySorted(r.unique) && r.uniqueCount == |r.unique|
    ensures forall s :: s in r.unique <==> s in ValidIds(ids)
    ensures r.switches == Switches(ValidIds(ids))
    ensures r.distribution == Distribution(ValidIds(ids))
  {
    var valid := ValidIds(ids);
    CountsAddUp(ids);
    var unique := SortedSet(valid);
    SortedSetSpec(valid);
    var switches := CountSwitches(valid);
    r := Report(|ids|, |valid|, |ids| - |valid|, Rate(|valid|, |ids|),
                |unique|, unique, switches, Distribution(valid));
  }

  /** The speaker-switch loop of `_analyze`, remembering the last id seen. */
  method CountSwitches(valid: seq<string>) returns (switches: nat)
    ensures switches == Switches(valid)
  {
    switches := 0;
    var last: Option<string> := None;
    for i := 0 to |valid|
      invariant switches == Switches(valid[..i])
      invariant i == 0 ==> last == None
      invariant i > 0 ==> last == Some(valid[i - 1])
    {
      SwitchesStep(valid, i);
      var sid := valid[i];
      if last.None? {
        last := Some(sid);
        continue;
      }
      if sid != last.value {
        switches := switches + 1;
        last := Some(sid);
      }
    }
    assert valid[..|valid|] == valid;
  }

  lemma SwitchesStep(vs: seq<string>, i: int)
    requires 0 <= i < |vs|
    ensures Switches(vs[..i + 1]) == Switches(vs[..i]) + (if i > 0 && vs[i] != vs[i - 1] then 1 else 0)
  {
    assert vs[..i + 1][..i] == vs[..i];
  }

  lemma NormalizeLabels()
    ensures NormalizeSpeakerId(Some("S0")) == Some("S0") && NormalizeSpeakerId(Some("S1")) == Some("S1")
  {
    TrimUnchanged("S0", Whitespace);
    TrimUnchanged("S1", Whitespace);
    assert Lower("S0") == "s0" && Lower("S1") == "s1";
  }

  /** The valid ids of `[S0, S0, None, S1, S1, S0]` skip the missing one. */
  lemma ValidIdsExample()
    ensures ValidIds([Some("S0"), Some("S0"), None, Some("S1"), Some("S1"), Some("S0")]) ==
      ["S0", "S0", "S1", "S1", "S0"]
  {
    NormalizeLabels();
    ValidIdsPattern("S0", "S1");
  }

  lemma ValidIdsPattern(x: string, y: string)
    requires NormalizeSpeakerId(Some(x)) == Some(x) && NormalizeSpeakerId(Some(y)) == Some(y)
    ensures ValidIds([Some(x), Some(x), None, Some(y), Some(y), Some(x)]) == [x, x, y, y, x]
  {
    var a, b := Some(x), Some(y);
    var ids := [a, a, None, b, b, a];
    assert ids[..1][..0] == [];
    assert ValidIds(ids[..1]) == [x];
    assert ids[..2][..1] == ids[..1];
    assert ValidIds(ids[..2]) == [x, x];
    assert ids[..3][..2] == ids[..2];
    assert ValidIds(ids[..3]) == [x, x];
    assert ids[..4][..3] == ids[..3];
    assert ValidIds(ids[..4]) == [x, x, y];
    assert ids[..5][..4] == ids[..4];
    assert ValidIds(ids[..5]) == [x, x, y, y];
    assert ids[..|ids| - 1] == ids[..5];
  }

  /** `[S0, S0, None, S1, S1, S0]` gives two switches: the missing id in the
      middle is skipped, not counted as a change. */
  lemma SwitchesExample()
    ensures Switches(ValidIds([Some("S0"), Some("S0"), None, Some("S1"), Some("S1"), Some("S0")])) == 2
  {
    ValidIdsExample();
    var vs := ["S0", "S0", "S1", "S1", "S0"];
    assert vs[..2][..1] == ["S0"];
    assert Switches(vs[..2]) == 0;
    assert vs[..3][..2] == vs[..2];
    assert Switches(vs[..3]) == 1;
    assert vs[..4][..3] == vs[..3];
    assert Switches(vs[..4]) == 1;
    assert vs[..|vs| - 1] == vs[..4];
    assert Switches(vs) == 2;
  }

  /** Sum of the counts of the listed keys. */
  function SumCounts(keys: seq<string>, vs: seq<string>): nat
    decreases |keys|
  {
    if |keys| == 0 then 0 else Count(vs, keys[0]) + SumCounts(keys[1..], vs)
  }

  /** Occurrences of `x` among the keys. */
  function Occurrences(keys: seq<string>, x: string): nat
    decreases |keys|
  {
    if |keys| == 0 then 0 else (if keys[0] == x then 1 else 0) + Occurrences(keys[1..], x)
  }

  lemma {:induction false} SumCountsSnoc(keys: seq<string>, vs: seq<string>, x: string)
    ensures SumCounts(keys, vs + [x]) == SumCounts(keys, vs) + Occurrences(keys, x)
    decreases |keys|
  {
    if |keys| > 0 {
      SumCountsSnoc(keys[1..], vs, x);
      assert (vs + [x])[..|vs|] == vs;
    }
  }

  lemma {:induction false} OccursOnce(keys: seq<string>, x: string)
    requires forall i, j :: 0 <= i < j < |keys| ==> keys[i] != keys[j]
    requires x in keys
    ensures Occurrences(keys, x) == 1
    decreases |keys|
  {
    if keys[0] == x {
      OccursNot(keys[1..], x);
    } else {
      OccursOnce(keys[1..], x);
    }
  }

  lemma {:induction false} OccursNot(keys: seq<string>, x: string)
    requires x !in keys
    ensures Occurrences(keys, x) == 0
    decreases |keys|
  {
    if |keys| > 0 {
      OccursNot(keys[1..], x);
    }
  }

  lemma {:induction false} SumCountsAll(keys: seq<string>, vs: seq<string>)
    requires forall i, j :: 0 <= i < j < |keys| ==> keys[i] != keys[j]
    requires forall s :: s in vs ==> s in keys
    ensures SumCounts(keys, vs) == |vs|
    decreases |vs|
  {
    if |vs| == 0 {
      SumCountsNone(keys, vs);
    } else {
      var n := |vs| - 1;
      var front := vs[..n];
      assert vs == front + [vs[n]];
      SumCountsAll(keys, front);
      SumCountsSnoc(keys, front, vs[n]);
      OccursOnce(keys, vs[n]);
    }
  }

  lemma {:induction false} SumCountsNone(keys: seq<string>, vs: seq<string>)
    requires |vs| == 0
    ensures SumCounts(keys, vs) == 0
    decreases |keys|
  {
    if |keys| > 0 {
      SumCountsNone(keys[1..], vs);
    }
  }

  /** The distribution has one key per unique speaker, each with a positive
      count, and its counts add up to the number of valid ids. */
  lemma DistributionSpec(ids: seq<Option<string>>)
    ensures var vs := ValidIds(ids);
      var d := Distribution(vs);
      (forall s :: s in d <==> s in SortedSet(vs)) &&
      (forall s :: s in d ==> d[s] > 0) &&
      SumCounts(SortedSet(vs), vs) == |vs|
  {
    var vs := ValidIds(ids);
    SortedSetSpec(vs);
    StrictlySortedDistinct(SortedSet(vs));
    SumCountsAll(SortedSet(vs), vs);
    forall s | s in Distribution(vs) ensures Distribution(vs)[s] > 0 {
      CountPositive(vs, s);
    }
  }

  // ------------------------------------------------------------ pass gate

  /** The `passed` expression of `main`. */
  predicate Passed(r: Report, minRate: real, minSpeakers: int)
  {
    r.total > 0 && r.rate >= minRate && r.uniqueCount >= minSpeakers
  }

  /** With the rate as `_analyze` reports it, the gate passes exactly when
      there are segments, the valid ones reach `minRate` of them, and enough
      distinct speakers occur. */
  lemma PassedIff(r: Report, minRate: real, minSpeakers: int)
    requires r.rate == Rate(r.valid, r.total)
    ensures Passed(r, minRate, minSpeakers) <==>
      r.total > 0 && r.valid as real >= minRate * r.total as real && r.uniqueCount >= minSpeakers
    ensures r.total == 0 ==> r.rate == 0.0 && !Passed(r, minRate, minSpeakers)
  {
    if r.total > 0 {
      var t := r.total as real;
      assert r.rate * t == r.valid as real;
      if r.rate >= minRate {
        assert r.rate * t >= minRate * t;
      }
      if r.valid as real >= minRate * t {
        assert r.rate * t >= minRate * t;
      }
    }
  }

  // ------------------------------------------------------------ language hints

  /** The configured `whisper.language`: absent or `None`, a list (each item
      given by its `str()`), or any other value given by its `str()`. */
  datatype Hints = NoHints | HintList(items: seq<string>) | HintText(text: string)

  const DefaultHints: seq<string> := ["zh", "en"]

  /** `_parse_language_hints`. */
  function ParseLanguageHints(raw: Hints): seq<string>
  {
    match raw
    case NoHints => DefaultHints
    case HintList(items) =>
      var result := StrippedNonBlank(items);
      if |result| > 0 then result else DefaultHints
    case HintText(t) =>
      var text := Strip(t);
      if text == "" then DefaultHints
      else
        var result := StrippedNonBlank(SplitAny(text, {','}));
        if |result| > 0 then result else DefaultHints
  }

  /** The hints are never empty. A list with a non-blank item gives its
      stripped non-blank items, in order, and nothing else; a text with a
      non-blank comma-separated part gives its stripped non-blank parts; the
      default `["zh", "en"]` comes back otherwise. */
  lemma HintsSpec(raw: Hints)
    ensures |ParseLanguageHints(raw)| >= 1
    ensures ParseLanguageHints(raw) == DefaultHints ||
      forall i :: 0 <= i < |ParseLanguageHints(raw)| ==>
        ParseLanguageHints(raw)[i] != "" && IsStripped(ParseLanguageHints(raw)[i])
    ensures raw.HintText? && ParseLanguageHints(raw) != DefaultHints ==>
      forall i :: 0 <= i < |ParseLanguageHints(raw)| ==> NoneIn(ParseLanguageHints(raw)[i], {','})
    ensures raw.NoHints? || (raw.HintText? && IsBlank(raw.text)) ==> ParseLanguageHints(raw) == DefaultHints
    ensures raw.HintList? ==> HintsFrom(raw.items, ParseLanguageHints(raw))
    ensures raw.HintText? ==>
      Join(SplitAny(Strip(raw.text), {','}), ",") == Strip(raw.text) &&
      HintsFrom(SplitAny(Strip(raw.text), {','}), ParseLanguageHints(raw))
  {
    match raw
    case NoHints =>
    case HintList(items) =>
      StrippedNonBlankShape(items, {});
      HintsFromPieces(items, ParseLanguageHints(raw));
    case HintText(t) =>
      StripEmptyIff(t);
      var text := Strip(t);
      var pieces := SplitAny(text, {','});
      StrippedNonBlankShape(pieces, {','});
      SplitJoin(text, ',');
      if text == "" {
        assert pieces == [""];
        assert Strip("") == "";
      }
      HintsFromPieces(pieces, ParseLanguageHints(raw));
  }

  /** The hints drawn from `pieces`: when some piece is non-blank, the
      stripped non-blank pieces in order, so a text is a hint exactly when it
      is non-empty and the stripped form of a piece; when none is, the
      default. */
  ghost predicate HintsFrom(pieces: seq<string>, hints: seq<string>)
  {
    ((exists i :: 0 <= i < |pieces| && Strip(pieces[i]) != "") ==>
      hints == StrippedNonBlank(pieces) &&
      forall x :: x in hints <==> x != "" && exists i :: 0 <= i < |pieces| && Strip(pieces[i]) == x) &&
    ((forall i :: 0 <= i < |pieces| ==> Strip(pieces[i]) == "") ==> hints == DefaultHints)
  }

  lemma HintsFromPieces(pieces: seq<string>, hints: seq<string>)
    requires hints == (if |StrippedNonBlank(pieces)| > 0 then StrippedNonBlank(pieces) else DefaultHints)
    ensures HintsFrom(pieces, hints)
  {
    forall x {
      StrippedNonBlankContents(pieces, x);
    }
    if exists i :: 0 <= i < |pieces| && Strip(pieces[i]) != "" {
      var i :| 0 <= i < |pieces| && Strip(pieces[i]) != "";
      StrippedNonBlankContents(pieces, Strip(pieces[i]));
    }
  }

  // ------------------------------------------------------------ payload extraction

  /** One payload sentence: `str(text)` (default `""`), the two time values
      (`None` when `float()` raises on them; a missing key reads as `0`) and
      the raw `speaker_id`. */
  datatype Sentence = Sentence(text: string, beginTime: Option<real>, endTime: Option<real>, speakerId: Option<string>)

  /** A `transcripts` entry: not a dict, or a dict with an optional list of sentences. */
  datatype TranscriptItem = NotDict | Item(sentences: Option<seq<Sentence>>)

  /** The decoded payload: `sentences` and `transcripts` when they are lists. */
  datatype Payload = Payload(sentences: Option<seq<Sentence>>, transcripts: Option<seq<TranscriptItem>>)

  /** An extracted segment, keeping the raw `speaker_id`. */
  datatype Seg = Seg(start: real, end: real, text: string, speakerId: Option<string>)

  /** The segment a kept sentence becomes: both times in seconds, or both 0
      when either fails to convert. */
  function ToSeg(s: Sentence): Seg
  {
    if s.beginTime.Some? && s.endTime.Some?
    then Seg(s.beginTime.value / 1000.0, s.endTime.value / 1000.0, Strip(s.text), s.speakerId)
    else Seg(0.0, 0.0, Strip(s.text), s.speakerId)
  }

  /** What `consume_sentences` appends for a list of sentences. */
  function Consumed(ss: seq<Sentence>): seq<Seg>
    decreases |ss|
  {
    if |ss| == 0 then []
    else
      var n := |ss| - 1;
      Consumed(ss[..n]) + (if Strip(ss[n].text) == "" then [] else [ToSeg(ss[n])])
  }

  /** What the loop over `transcripts` appends. */
  function FromTranscripts(ts: seq<TranscriptItem>): seq<Seg>
    decreases |ts|
  {
    if |ts| == 0 then []
    else
      var n := |ts| - 1;
      FromTranscripts(ts[..n]) +
        (if ts[n].Item? && ts[n].sentences.Some? then Consumed(ts[n].sentences.value) else [])
  }

  /** `consume_sentences`, appending to `segments`. */
  method ConsumeSentences(segments: seq<Seg>, ss: seq<Sentence>) returns (out: seq<Seg>)
    ensures out == segments + Consumed(ss)
  {
    out := segments;
    for i := 0 to |ss|
      invariant out == segments + Consumed(ss[..i])
    {
      assert ss[..i + 1][..i] == ss[..i];
      var sentence := ss[i];
      var text := Strip(sentence.text);
      if text == "" {
        continue;
      }
      var start := 0.0;
      var end := 0.0;
      if sentence.beginTime.Some? && sentence.endTime.Some? {
        start := sentence.beginTime.value / 1000.0;
        end := sentence.endTime.value / 1000.0;
      }
      out := out + [Seg(start, end, text, sentence.speakerId)];
    }
    assert ss[..|ss|] == ss;
  }

  /** `_extract_segments_from_payload`: the top-level sentences first, then
      each transcript's sentences in order. */
  method ExtractSegmentsFromPayload(payload: Payload) returns (segments: seq<Seg>)
    ensures segments ==
      (if payload.sentences.Some? then Consumed(payload.sentences.value) else []) +
      (if payload.transcripts.Some? then FromTranscripts(payload.transcripts.value) else [])
  {
    segments := [];
    if payload.sentences.Some? {
      segments := ConsumeSentences(segments, payload.sentences.value);
    }
    if payload.transcripts.Some? {
      segments := ConsumeTranscripts(segments, payload.transcripts.value);
    }
  }

  /** The loop over `transcripts`, appending to `segments`. */
  method ConsumeTranscripts(segments: seq<Seg>, ts: seq<TranscriptItem>) returns (out: seq<Seg>)
    ensures out == segments + FromTranscripts(ts)
  {
    out := segments;
    for i := 0 to |ts|
      invariant out == segments + FromTranscripts(ts[..i])
    {
      FromTranscriptsStep(segments, ts, i);
      var t := ts[i];
      if t.Item? && t.sentences.Some? {
        out := ConsumeSentences(out, t.sentences.value);
      }
    }
    assert ts[..|ts|] == ts;
  }

  lemma FromTranscriptsStep(segments: seq<Seg>, ts: seq<TranscriptItem>, i: int)
    requires 0 <= i < |ts|
    ensures segments + FromTranscripts(ts[..i + 1]) ==
      (segments + FromTranscripts(ts[..i])) +
      (if ts[i].Item? && ts[i].sentences.Some? then Consumed(ts[i].sentences.value) else [])
  {
    assert ts[..i + 1][..i] == ts[..i];
    assert ts[..i + 1][i] == ts[i];
  }

  /** Every extracted segment has trimmed, non-empty text. */
  lemma {:induction false} ConsumedTexts(ss: seq<Sentence>)
    ensures |Consumed(ss)| <= |ss|
    ensures forall i :: 0 <= i < |Consumed(ss)| ==>
      Consumed(ss)[i].text != "" && IsStripped(Consumed(ss)[i].text)
    decreases |ss|
  {
    if |ss| > 0 {
      var n := |ss| - 1;
      ConsumedTexts(ss[..n]);
      StripIsStripped(ss[n].text);
    }
  }

  /** A list of blank sentences contributes nothing. */
  lemma {:induction false} ConsumedBlank(ss: seq<Sentence>)
    requires forall i :: 0 <= i < |ss| ==> IsBlank(ss[i].text)
    ensures Consumed(ss) == []
    decreases |ss|
  {
    if |ss| > 0 {
      var n := |ss| - 1;
      ConsumedBlank(ss[..n]);
      StripEmptyIff(ss[n].text);
    }
  }

  /** A kept sentence's times are its milliseconds over 1000, or (0, 0) when
      either time does not convert; its text is trimmed and its raw id kept. */
  lemma ConsumedLast(ss: seq<Sentence>, s: Sentence)
    requires !IsBlank(s.text)
    ensures |Consumed(ss + [s])| == |Consumed(ss)| + 1
    ensures var g := Consumed(ss + [s])[|Consumed(ss)|];
      g.text == Strip(s.text) && g.speakerId == s.speakerId &&
      (s.beginTime.Some? && s.endTime.Some? ==>
        g.start * 1000.0 == s.beginTime.value && g.end * 1000.0 == s.endTime.value) &&
      (s.beginTime.None? || s.endTime.None? ==> g.start == 0.0 && g.end == 0.0)
  {
    StripEmptyIff(s.text);
    assert (ss + [s])[..|ss|] == ss;
  }
}
