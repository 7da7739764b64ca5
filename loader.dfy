/** `load_transcript` of `src/utils/transcript_loader.py`: JSON segment
    normalisation over the already-decoded records, and the two Markdown
    readers, the legacy `## 段落` format and the dialogue format that
    `TranscriptFormatter.to_markdown` writes.

    The two regular expressions are written out as scanners over suffixes of
    the text, following the matching order of Python's `re` engine: `\d`
    and `\s` are taken as ASCII digits and ASCII whitespace, and
    `re.findall` restarts after each match and otherwise one character
    further on. */
module Loader {
  import opened Wrappers
  import opened Text
  import opened Clock

  /** One loaded paragraph; Markdown times are whole seconds. */
  datatype Entry = Entry(start: real, end: real, text: string)

  // ------------------------------------------------------------ JSON

  /** One decoded JSON segment: `str(text)` (default `""`), and the two
      times, `None` when `float()` raises on them (a missing key reads as 0). */
  datatype JsonSegment = JsonSegment(text: string, start: Option<real>, end: Option<real>)

  /** The paragraph a kept segment becomes: a bad start is 0, a bad end is the start. */
  function JsonEntry(s: JsonSegment): Entry
  {
    var start := if s.start.Some? then s.start.value else 0.0;
    Entry(start, if s.end.Some? then s.end.value else start, Strip(s.text))
  }

  function JsonEntries(segs: seq<JsonSegment>): seq<Entry>
    decreases |segs|
  {
    if |segs| == 0 then []
    else
      var n := |segs| - 1;
      JsonEntries(segs[..n]) + (if Strip(segs[n].text) == "" then [] else [JsonEntry(segs[n])])
  }

  /** The JSON branch of `load_transcript`. */
  method LoadJson(segments: seq<JsonSegment>) returns (paragraphs: seq<Entry>)
    ensures paragraphs == JsonEntries(segments)
  {
    paragraphs := [];
    for i := 0 to |segments|
      invariant paragraphs == JsonEntries(segments[..i])
    {
      assert segments[..i + 1][..i] == segments[..i];
      var segment := segments[i];
      var text := Strip(segment.text);
      if text == "" {
        continue;
      }
      var start := 0.0;
      if segment.start.Some? {
        start := segment.start.value;
      }
      var end := start;
      if segment.end.Some? {
        end := segment.end.value;
      }
      paragraphs := paragraphs + [Entry(start, end, text)];
    }
    assert segments[..|segments|] == segments;
  }

  /** Every JSON paragraph has stripped, non-empty text; blank segments add nothing. */
  lemma {:induction false} JsonEntriesTexts(segs: seq<JsonSegment>)
    ensures |JsonEntries(segs)| <= |segs|
    ensures forall i :: 0 <= i < |JsonEntries(segs)| ==>
      JsonEntries(segs)[i].text != "" && IsStripped(JsonEntries(segs)[i].text)
    ensures (forall i :: 0 <= i < |segs| ==> IsBlank(segs[i].text)) ==> JsonEntries(segs) == []
    decreases |segs|
  {
    if |segs| > 0 {
      var n := |segs| - 1;
      JsonEntriesTexts(segs[..n]);
      StripIsStripped(segs[n].text);
      StripEmptyIff(segs[n].text);
      if forall i :: 0 <= i < |segs| ==> IsBlank(segs[i].text) {
        assert forall i :: 0 <= i < n ==> segs[..n][i] == segs[i];
      }
    }
  }

  /** A non-blank segment adds one paragraph with its stripped text; an
      unconvertible start reads as 0 and an unconvertible end as the start. */
  lemma JsonEntryLast(segs: seq<JsonSegment>, s: JsonSegment)
    requires !IsBlank(s.text)
    ensures JsonEntries(segs + [s]) == JsonEntries(segs) + [JsonEntry(s)]
    ensures JsonEntry(s).text == Strip(s.text)
    ensures JsonEntry(s).start == (if s.start.Some? then s.start.value else 0.0)
    ensures s.end.None? ==> JsonEntry(s).end == JsonEntry(s).start
    ensures s.end.Some? ==> JsonEntry(s).end == s.end.value
  {
    StripEmptyIff(s.text);
    assert (segs + [s])[..|segs|] == segs;
  }

  // ------------------------------------------------------------ scanning helpers

  /** `\s*`: the suffix after the leading whitespace. */
  function SkipWs(s: string): (r: string)
    ensures |r| <= |s| && r == s[|s| - |r|..]
    ensures r == "" || !IsSpace(r[0])
    decreases |s|
  {
    if |s| > 0 && IsSpace(s[0]) then SkipWs(s[1..]) else s
  }

  /** `\d*`: the suffix after the leading digits. */
  function SkipDigits(s: string): (r: string)
    ensures |r| <= |s| && r == s[|s| - |r|..]
    decreases |s|
  {
    if |s| > 0 && IsDigit(s[0]) then SkipDigits(s[1..]) else s
  }

  /** The decoded `(\d{2}):(\d{2}):(\d{2})` groups. */
  datatype Hms = Hms(h: nat, m: nat, s: nat)

  function Seconds(t: Hms): nat { t.h * 3600 + t.m * 60 + t.s }

  /** `(\d{2}):(\d{2}):(\d{2})` at the start of `u`. */
  function HmsAt(u: string): Option<Hms>
  {
    if |u| >= 8 && u[2] == ':' && u[5] == ':' && AllDigits(u[..2]) && AllDigits(u[3..5]) && AllDigits(u[6..8])
    then Some(Hms(DigitsValue(u[..2]), DigitsValue(u[3..5]), DigitsValue(u[6..8])))
    else None
  }

  // ------------------------------------------------------------ legacy format

  /** A legacy match: the two times and the `((?:- .+\n)+)` group. */
  datatype LegacyMatch = LegacyMatch(start: Hms, end: Hms, lines: string)

  const LegacyTitle := "## 段落 "

  /** Number of characters before the first newline (or the end). */
  function LineLength(s: string): (k: nat)
    ensures k <= |s| && NoneIn(s[..k], {'\n'}) && (k < |s| ==> s[k] == '\n')
    decreases |s|
  {
    if |s| == 0 || s[0] == '\n' then 0 else 1 + LineLength(s[1..])
  }

  /** `- .+\n` at the start of `v`: its length. */
  function DashLine(v: string): Option<nat>
  {
    if StartsWith(v, "- ") then
      var k := LineLength(v[2..]);
      if k >= 1 && 2 + k < |v| then Some(2 + k + 1) else None
    else None
  }

  /** `(?:- .+\n)*`, greedy: the matched lines and what follows. */
  function DashLines(v: string): (r: (string, string))
    ensures r.0 + r.1 == v
    decreases |v|
  {
    match DashLine(v)
    case None => ("", v)
    case Some(n) =>
      var more := DashLines(v[n..]);
      (v[..n] + more.0, more.1)
  }

  /** The legacy pattern at the start of `s`, with what follows the match. */
  function LegacyAt(s: string): (r: Option<(LegacyMatch, string)>)
    ensures r.Some? ==> |r.value.1| < |s|
  {
    if !StartsWith(s, LegacyTitle) then None else LegacyNumber(s[|LegacyTitle|..])
  }

  /** `\d+ \[` after the title, then the times and the list lines. */
  function LegacyNumber(u: string): (r: Option<(LegacyMatch, string)>)
    ensures r.Some? ==> |r.value.1| < |u|
  {
    var d := SkipDigits(u);
    if |d| == |u| || !StartsWith(d, " [") then None else LegacyTimes(d[2..])
  }

  /** `(\d{2}):(\d{2}):(\d{2}) - (\d{2}):(\d{2}):(\d{2})\]\n((?:- .+\n)+)`. */
  function LegacyTimes(r1: string): (r: Option<(LegacyMatch, string)>)
    ensures r.Some? ==> |r.value.1| < |r1|
  {
    var a := HmsAt(r1);
    if a.None? || !StartsWith(r1[8..], " - ") then None
    else
      var r2 := r1[11..];
      var b := HmsAt(r2);
      if b.None? || !StartsWith(r2[8..], "]\n") then None
      else
        var body := DashLines(r2[10..]);
        if body.0 == "" then None
        else Some((LegacyMatch(a.value, b.value, body.0), body.1))
  }

  /** `re.findall(legacy_pattern, content)`. */
  function LegacyAll(s: string): seq<LegacyMatch>
    decreases |s|
  {
    if |s| == 0 then []
    else
      match LegacyAt(s)
      case Some(m) => [m.0] + LegacyAll(m.1)
      case None => LegacyAll(s[1..])
  }

  /** `[line.strip('- ').strip() for line in lines if line.strip()]`. */
  function CleanLines(lines: seq<string>): seq<string>
    decreases |lines|
  {
    if |lines| == 0 then []
    else (if Strip(lines[0]) != "" then [Strip(Trim(lines[0], {'-', ' '}))] else []) + CleanLines(lines[1..])
  }

  /** The paragraph text of a legacy match. */
  function LegacyText(lines: string): string
  {
    Join(CleanLines(SplitAny(lines, {'\n'})), "\n")
  }

  function LegacyEntries(ms: seq<LegacyMatch>): seq<Entry>
    decreases |ms|
  {
    if |ms| == 0 then []
    else
      var n := |ms| - 1;
      var m := ms[n];
      var text := LegacyText(m.lines);
      LegacyEntries(ms[..n]) +
        (if text == "" then [] else [Entry(Seconds(m.start) as real, Seconds(m.end) as real, text)])
  }

  // ------------------------------------------------------------ dialogue format

  /** A dialogue match: the two times and the lazily captured text. */
  datatype DialogueMatch = DialogueMatch(start: Hms, end: Hms, body: string)

  /** The lookahead `(?=\n\n\*\*\[|\Z)`. */
  predicate NextBlockOrEnd(t: string)
  {
    t == "" || StartsWith(t, "\n\n**[")
  }

  /** `.*?` up to the lookahead: the captured characters and the rest. */
  function Until(t: string): (r: (string, string))
    ensures r.0 + r.1 == t
    decreases |t|
  {
    if NextBlockOrEnd(t) then ("", t)
    else
      var more := Until(t[1..]);
      ([t[0]] + more.0, more.1)
  }

  /** `(.+?)(?=...)` starting at `w`. */
  function Capture(w: string): (r: Option<(string, string)>)
    ensures r.Some? ==> |r.value.1| < |w|
  {
    if |w| == 0 then None
    else
      var more := Until(w[1..]);
      Some(([w[0]] + more.0, more.1))
  }

  /** `\s*\n>\s*(.+?)(?=...)` after the closing `**` of the label. Only the
      whitespace run that ends right before `>` can end in the `\n`; when the
      whitespace after `>` runs to the end of the text, the engine gives its
      last character back to the capture. */
  function Tail(u: string): (r: Option<(string, string)>)
    ensures r.Some? ==> |r.value.1| < |u|
  {
    var v := SkipWs(u);
    if |v| < |u| && u[|u| - |v| - 1] == '\n' && StartsWith(v, ">") then
      var w0 := v[1..];
      var w := SkipWs(w0);
      if w != "" then Capture(w)
      else if w0 != "" then Capture(w0[|w0| - 1..])
      else None
    else None
  }

  /** The lazy label `.+?\*\*` followed by the tail: the first `**` at or
      after the start of `t` from which the tail matches. */
  function LabelEnd(t: string): (r: Option<(string, string)>)
    ensures r.Some? ==> |r.value.1| < |t|
    decreases |t|
  {
    if |t| < 2 then None
    else if t[..2] == "**" && Tail(t[2..]).Some? then Tail(t[2..])
    else LabelEnd(t[1..])
  }

  /** `\s*.+?\*\*...` after `]`: the greedy whitespace first; only when no
      label ends after its first non-space character does the engine give
      one whitespace character to the label. */
  function AfterBracket(u0: string): (r: Option<(string, string)>)
    ensures r.Some? ==> |r.value.1| < |u0|
  {
    var a := SkipWs(u0);
    var primary := if a != "" then LabelEnd(a[1..]) else None;
    if primary.Some? then primary
    else if |a| < |u0| then LabelEnd(a)
    else None
  }

  /** The dialogue pattern at the start of `s`, with what follows the match. */
  function DialogueAt(s: string): (r: Option<(DialogueMatch, string)>)
    ensures r.Some? ==> |r.value.1| < |s|
  {
    if !StartsWith(s, "**[") then None
    else
      var r1 := s[3..];
      var a := HmsAt(r1);
      if a.None? || !StartsWith(r1[8..], " - ") then None
      else
        var r2 := r1[11..];
        var b := HmsAt(r2);
        if b.None? || !StartsWith(r2[8..], "]") then None
        else
          match AfterBracket(r2[9..])
          case None => None
          case Some(c) => Some((DialogueMatch(a.value, b.value, c.0), c.1))
  }

  /** `dialogue_pattern.findall(content)`. */
  function DialogueAll(s: string): seq<DialogueMatch>
    decreases |s|
  {
    if |s| == 0 then []
    else
      match DialogueAt(s)
      case Some(m) => [m.0] + DialogueAll(m.1)
      case None => DialogueAll(s[1..])
  }

  /** `re.sub(r'\n>\s*', '\n', x)`. */
  function Unquote(x: string): string
    decreases |x|
  {
    if |x| == 0 then ""
    else if StartsWith(x, "\n>") then "\n" + Unquote(SkipWs(x[2..]))
    else [x[0]] + Unquote(x[1..])
  }

  function DialogueText(body: string): string
  {
    Strip(Unquote(body))
  }

  function DialogueEntries(ms: seq<DialogueMatch>): seq<Entry>
    decreases |ms|
  {
    if |ms| == 0 then []
    else
      var n := |ms| - 1;
      var m := ms[n];
      var text := DialogueText(m.body);
      DialogueEntries(ms[..n]) +
        (if text == "" then [] else [Entry(Seconds(m.start) as real, Seconds(m.end) as real, text)])
  }

  // ------------------------------------------------------------ load_transcript

  /** The Markdown branches: the legacy reading when it yields anything,
      the dialogue reading otherwise. */
  function ParseMarkdown(content: string): seq<Entry>
  {
    var legacy := LegacyEntries(LegacyAll(content));
    if |legacy| > 0 then legacy else DialogueEntries(DialogueAll(content))
  }

  /** The Markdown half of `load_transcript` over the file's text. */
  method LoadMarkdown(content: string) returns (paragraphs: seq<Entry>)
    ensures paragraphs == ParseMarkdown(content)
    ensures |LegacyEntries(LegacyAll(content))| > 0 ==> paragraphs == LegacyEntries(LegacyAll(content))
  {
    var legacyMatches := LegacyAll(content);
    paragraphs := [];
    for i := 0 to |legacyMatches|
      invariant paragraphs == LegacyEntries(legacyMatches[..i])
    {
      assert legacyMatches[..i + 1][..i] == legacyMatches[..i];
      var match_ := legacyMatches[i];
      var start := Seconds(match_.start);
      var end := Seconds(match_.end);
      var text := LegacyText(match_.lines);
      if text == "" {
        continue;
      }
      paragraphs := paragraphs + [Entry(start as real, end as real, text)];
    }
    assert legacyMatches[..|legacyMatches|] == legacyMatches;
    if |paragraphs| > 0 {
      return;
    }
    var dialogueMatches := DialogueAll(content);
    for i := 0 to |dialogueMatches|
      invariant paragraphs == DialogueEntries(dialogueMatches[..i])
    {
      assert dialogueMatches[..i + 1][..i] == dialogueMatches[..i];
      var match_ := dialogueMatches[i];
      var text := DialogueText(match_.body);
      if text == "" {
        continue;
      }
      var start := Seconds(match_.start);
      var end := Seconds(match_.end);
      paragraphs := paragraphs + [Entry(start as real, end as real, text)];
    }
    assert dialogueMatches[..|dialogueMatches|] == dialogueMatches;
  }

  /** `Path(p).suffix`: from the last `.` of the final component, unless that
      `.` starts or ends the component. */
  function Suffix(path: string): string
  {
    var name := FinalComponent(path);
    var i := LastDot(name);
    if 0 < i < |name| - 1 then name[i..] else ""
  }

  /** The part after the last `/`. */
  function FinalComponent(path: string): string
    decreases |path|
  {
    if |path| == 0 then ""
    else if path[|path| - 1] == '/' then ""
    else FinalComponent(path[..|path| - 1]) + [path[|path| - 1]]
  }

  /** Index of the last `.`, or -1. */
  function LastDot(s: string): (i: int)
    ensures -1 <= i < |s| && (i >= 0 ==> s[i] == '.')
    decreases |s|
  {
    if |s| == 0 then -1
    else if s[|s| - 1] == '.' then |s| - 1
    else LastDot(s[..|s| - 1])
  }

  /** `load_transcript`: a `.json` path (any letter case) reads the decoded
      `segments` list, any other path reads the file's text. */
  method LoadTranscript(path: string, segments: seq<JsonSegment>, content: string)
    returns (paragraphs: seq<Entry>)
    ensures Lower(Suffix(path)) == ".json" ==> paragraphs == JsonEntries(segments)
    ensures Lower(Suffix(path)) != ".json" ==> paragraphs == ParseMarkdown(content)
  {
    if Lower(Suffix(path)) == ".json" {
      paragraphs := LoadJson(segments);
    } else {
      paragraphs := LoadMarkdown(content);
    }
  }

  /** Neither Markdown reader returns a paragraph with empty text. */
  lemma {:induction false} LegacyEntriesTexts(ms: seq<LegacyMatch>)
    ensures |LegacyEntries(ms)| <= |ms|
    ensures forall i :: 0 <= i < |LegacyEntries(ms)| ==> LegacyEntries(ms)[i].text != ""
    decreases |ms|
  {
    if |ms| > 0 {
      LegacyEntriesTexts(ms[..|ms| - 1]);
    }
  }

  lemma {:induction false} DialogueEntriesTexts(ms: seq<DialogueMatch>)
    ensures |DialogueEntries(ms)| <= |ms|
    ensures forall i :: 0 <= i < |DialogueEntries(ms)| ==>
      DialogueEntries(ms)[i].text != "" && IsStripped(DialogueEntries(ms)[i].text)
    decreases |ms|
  {
    if |ms| > 0 {
      DialogueEntriesTexts(ms[..|ms| - 1]);
      StripIsStripped(Unquote(ms[|ms| - 1].body));
    }
  }

  lemma ParseMarkdownTexts(content: string)
    ensures forall i :: 0 <= i < |ParseMarkdown(content)| ==> ParseMarkdown(content)[i].text != ""
  {
    LegacyEntriesTexts(LegacyAll(content));
    DialogueEntriesTexts(DialogueAll(content));
  }
}
