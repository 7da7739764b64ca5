/** The dialogue Markdown that `TranscriptFormatter.to_markdown` writes is
    read back by `load_transcript`: for whole-second times under 100 hours,
    stripped single-line non-empty texts and display names that start with a
    visible character and contain no `*`, `[` or `#` (and header values
    without `[` or `#`), the Markdown readers recover every segment's start,
    end and text, in order. The legacy reader finds nothing in such a text,
    so the dialogue reader decides. */
module RoundTrip {
  import opened Wrappers
  import opened Text
  import opened Clock
  import opened Order
  import opened Segments
  import opened Formatter
  import opened Loader

  // ------------------------------------------------------------ plain-string facts

  lemma HeadMismatch(s: string, p: string)
    requires |p| > 0 && (|s| == 0 || s[0] != p[0])
    ensures !StartsWith(s, p)
  {
    if |p| <= |s| { assert s[..|p|][0] == s[0]; }
  }

  lemma NoneInAppend(a: string, b: string, cs: set<char>)
    requires NoneIn(a, cs) && NoneIn(b, cs)
    ensures NoneIn(a + b, cs)
  {
    forall k | 0 <= k < |a + b| ensures (a + b)[k] !in cs {
      if k >= |a| { assert (a + b)[k] == b[k - |a|]; }
    }
  }

  lemma {:induction false} ConcatNoneIn(parts: seq<string>, cs: set<char>)
    requires forall i :: 0 <= i < |parts| ==> NoneIn(parts[i], cs)
    ensures NoneIn(Concat(parts), cs)
    decreases |parts|
  {
    if |parts| > 0 {
      ConcatNoneIn(parts[1..], cs);
      NoneInAppend(parts[0], Concat(parts[1..]), cs);
    }
  }

  lemma {:induction false} JoinNoneIn(parts: seq<string>, sep: string, cs: set<char>)
    requires NoneIn(sep, cs)
    requires forall i :: 0 <= i < |parts| ==> NoneIn(parts[i], cs)
    ensures NoneIn(Join(parts, sep), cs)
    decreases |parts|
  {
    if |parts| > 1 {
      JoinNoneIn(parts[1..], sep, cs);
      NoneInAppend(parts[0], sep, cs);
      NoneInAppend(parts[0] + sep, Join(parts[1..], sep), cs);
    }
  }

  /** A rendered time holds only digits and colons. */
  lemma ClockChars(t: string, cs: set<char>)
    requires |t| == 8 && ReadHms(t).Some?
    requires forall c :: c in cs ==> !IsDigit(c) && c != ':'
    ensures NoneIn(t, cs)
  {
    forall k | 0 <= k < 8 ensures t[k] !in cs {
      if k < 2 { assert t[k] == t[..2][k]; }
      else if 3 <= k < 5 { assert t[k] == t[3..5][k - 3]; }
      else if k >= 6 { assert t[k] == t[6..][k - 6]; }
    }
  }

  /** The scanner's time groups read what `ReadHms` reads. */
  lemma HmsAtRead(t: string, rest: string)
    requires |t| == 8 && ReadHms(t).Some?
    ensures HmsAt(t + rest).Some? && HmsAt(t + rest) == HmsAt(t)
    ensures Seconds(HmsAt(t).value) == ReadHms(t).value
  {
    var u := t + rest;
    assert u[..2] == t[..2] && u[3..5] == t[3..5] && u[6..8] == t[6..] && t[6..8] == t[6..];
  }

  lemma SkipWsSpace(c: char, s: string)
    requires IsSpace(c)
    ensures SkipWs([c] + s) == SkipWs(s)
  {
    assert ([c] + s)[1..] == s;
  }

  lemma SkipWsVisible(s: string)
    requires s != "" && !IsSpace(s[0])
    ensures SkipWs(s) == s
  {
  }

  /** A label without `*` is passed over. */
  lemma {:induction false} LabelSkip(p: string, q: string)
    requires NoneIn(p, {'*'})
    ensures LabelEnd(p + q) == LabelEnd(q)
    decreases |p|
  {
    if |p| > 0 {
      assert (p + q)[0] == p[0];
      assert (p + q)[1..] == p[1..] + q;
      LabelSkip(p[1..], q);
      if |p + q| >= 2 {
        assert (p + q)[..2][0] == p[0];
      }
    } else {
      assert p + q == q;
    }
  }

  /** Text without newlines is captured whole. */
  lemma {:induction false} UntilSkip(p: string, q: string)
    requires NoneIn(p, {'\n'})
    ensures Until(p + q) == (p + Until(q).0, Until(q).1)
    decreases |p|
  {
    if |p| > 0 {
      assert (p + q)[0] == p[0];
      assert (p + q)[1..] == p[1..] + q;
      HeadMismatch(p + q, "\n\n**[");
      UntilSkip(p[1..], q);
      assert [p[0]] + (p[1..] + Until(q).0) == p + Until(q).0;
    } else {
      assert p + q == q && p + Until(q).0 == Until(q).0;
    }
  }

  /** Text before any `[` holds no match start. */
  lemma {:induction false} DialogueSkip(h: string, b: string)
    requires NoneIn(h, {'['})
    requires b == "" || (b[0] != '*' && b[0] != '[')
    ensures DialogueAll(h + b) == DialogueAll(b)
    decreases |h|
  {
    if |h| > 0 {
      var s := h + b;
      assert s[0] == h[0];
      if |s| >= 3 {
        if |h| >= 3 { assert s[2] == h[2]; }
        else if |h| == 2 { assert s[2] == b[0]; }
        else { assert s[1] == b[0]; }
        assert s[..3] != "**[" by {
          assert s[..3][1] == s[1] && s[..3][2] == s[2];
        }
      }
      assert s[1..] == h[1..] + b;
      DialogueSkip(h[1..], b);
    } else {
      assert h + b == b;
    }
  }

  /** Without `#` there is no legacy match. */
  lemma {:induction false} LegacyNone(s: string)
    requires NoneIn(s, {'#'})
    ensures LegacyAll(s) == []
    decreases |s|
  {
    if |s| > 0 {
      assert !StartsWith(s, LegacyTitle) by {
        if |s| >= |LegacyTitle| { assert s[..|LegacyTitle|][0] == s[0]; }
      }
      LegacyNone(s[1..]);
    }
  }

  lemma {:induction false} UnquotePlain(p: string, q: string)
    requires NoneIn(p, {'\n'})
    ensures Unquote(p + q) == p + Unquote(q)
    decreases |p|
  {
    if |p| > 0 {
      assert (p + q)[0] == p[0];
      assert (p + q)[1..] == p[1..] + q;
      HeadMismatch(p + q, "\n>");
      UnquotePlain(p[1..], q);
      assert [p[0]] + (p[1..] + Unquote(q)) == p + Unquote(q);
    } else {
      assert p + q == q && p + Unquote(q) == Unquote(q);
    }
  }

  /** A stripped single-line text reads back as itself, with or without a
      trailing newline. */
  lemma DialogueTextPlain(text: string)
    requires text != "" && IsStripped(text) && NoneIn(text, {'\n'})
    ensures DialogueText(text) == text && DialogueText(text + "\n") == text
  {
    UnquotePlain(text, "");
    assert text + "" == text;
    TrimUnchanged(text, Whitespace);
    UnquotePlain(text, "\n");
    assert Unquote("\n") == "\n" by {
      assert !StartsWith("\n", "\n>");
      assert "\n"[1..] == "";
    }
    var t := text + "\n";
    assert TrimLeft(t, Whitespace) == t;
    assert t[..|t| - 1] == text;
    assert TrimRight(t, Whitespace) == TrimRight(text, Whitespace);
  }

  // ------------------------------------------------------------ one block

  /** The quote marker and the space after it are skipped. */
  lemma SkipQuote(u: string)
    requires u != "" && !IsSpace(u[0])
    ensures SkipWs("\n> " + u) == "> " + u
    ensures SkipWs(("> " + u)[1..]) == u
  {
    QuoteShape(u);
    SkipOne('\n', "> " + u);
    SkipOne(' ', u);
  }

  lemma QuoteShape(u: string)
    ensures "\n> " + u == ['\n'] + ("> " + u)
    ensures ("> " + u)[1..] == [' '] + u
  {
  }

  /** One whitespace character before a visible one is skipped. */
  lemma SkipOne(c: char, v: string)
    requires IsSpace(c) && v != "" && !IsSpace(v[0])
    ensures SkipWs([c] + v) == v
  {
    SkipWsSpace(c, v);
    SkipWsVisible(v);
  }

  lemma UntilNewline(r: string)
    requires r == "" || StartsWith(r, "\n**[")
    ensures Until("\n" + r) == if r == "" then ("\n", "") else ("", "\n" + r)
  {
    if r == "" {
      assert "\n" + r == "\n";
      assert !NextBlockOrEnd("\n");
      assert "\n"[1..] == "";
    } else {
      assert ("\n" + r)[..5] == "\n" + r[..4];
    }
  }

  /** A single-line text is captured up to the newline before the next
      block, or with the final newline at the end. */
  lemma CaptureLine(text: string, r: string)
    requires text != "" && NoneIn(text, {'\n'})
    requires r == "" || StartsWith(r, "\n**[")
    ensures Capture(text + "\n" + r) == Some(if r == "" then (text + "\n", "") else (text, "\n" + r))
  {
    var u := text + "\n" + r;
    assert u[0] == text[0];
    assert u[1..] == text[1..] + ("\n" + r);
    UntilSkip(text[1..], "\n" + r);
    UntilNewline(r);
    if r == "" {
      assert [text[0]] + (text[1..] + "\n") == text + "\n";
    } else {
      assert [text[0]] + (text[1..] + "") == text;
    }
  }

  /** What follows `**` in a block: the quoted text, captured up to the
      next block or the end. */
  lemma TailBlock(text: string, r: string)
    requires text != "" && !IsSpace(text[0]) && NoneIn(text, {'\n'})
    requires r == "" || StartsWith(r, "\n**[")
    ensures Tail("\n> " + (text + "\n" + r)) ==
      Some(if r == "" then (text + "\n", "") else (text, "\n" + r))
  {
    var u := text + "\n" + r;
    assert u[0] == text[0];
    SkipQuote(u);
    CaptureLine(text, r);
    assert ("\n> " + u)[0] == '\n';
  }

  /** The leading space, then a label without `*`, then `**`. */
  lemma SkipLabel(name: string, u4: string)
    requires name != "" && !IsSpace(name[0]) && NoneIn(name, {'*'})
    ensures SkipWs(" " + (name + "**" + u4)) == name + "**" + u4
    ensures LabelEnd((name + "**" + u4)[1..]) == LabelEnd("**" + u4)
  {
    var u3 := name + "**" + u4;
    assert " " + u3 == [' '] + u3;
    SkipWsSpace(' ', u3);
    assert u3[0] == name[0];
    assert u3[1..] == name[1..] + ("**" + u4);
    LabelSkip(name[1..], "**" + u4);
  }

  /** After `]`: one space, then a label without `*`, then the tail. */
  lemma LabelBlock(name: string, u4: string)
    requires name != "" && !IsSpace(name[0]) && NoneIn(name, {'*'})
    requires Tail(u4).Some?
    ensures AfterBracket(" " + (name + "**" + u4)) == Tail(u4)
  {
    SkipLabel(name, u4);
    assert ("**" + u4)[..2] == "**" && ("**" + u4)[2..] == u4;
  }

  /** The bracketed times, then what `AfterBracket` finds. */
  lemma TimesBlock(s: string, e: string, u0: string)
    requires |s| == 8 && |e| == 8 && ReadHms(s).Some? && ReadHms(e).Some?
    requires HmsAt(s).Some? && HmsAt(e).Some?
    requires AfterBracket(u0).Some?
    ensures DialogueAt("**[" + (s + (" - " + (e + ("]" + u0))))) ==
      Some((DialogueMatch(HmsAt(s).value, HmsAt(e).value, AfterBracket(u0).value.0), AfterBracket(u0).value.1))
  {
    var r2 := e + ("]" + u0);
    var r1 := s + (" - " + r2);
    var t := "**[" + r1;
    assert StartsWith(t, "**[") && t[3..] == r1;
    assert HmsAt(r1) == HmsAt(s) by { HmsAtRead(s, " - " + r2); }
    assert StartsWith(r1[8..], " - ") && r1[11..] == r2 by {
      assert r1[8..] == " - " + r2;
    }
    assert HmsAt(r2) == HmsAt(e) by { HmsAtRead(e, "]" + u0); }
    assert StartsWith(r2[8..], "]") && r2[9..] == u0 by {
      assert r2[8..] == "]" + u0;
    }
  }

  /** A rendered block followed by `r`, grouped the way the scanner reads it. */
  function Nested(s: string, e: string, name: string, text: string, r: string): string
  {
    "\n" + ("**[" + (s + (" - " + (e + ("]" + (" " + (name + "**" + ("\n> " + (text + "\n" + r)))))))))
  }

  lemma NestedIsBlock(s: string, e: string, name: string, text: string, r: string)
    ensures Nested(s, e, name, text, r) == "\n**[" + s + " - " + e + "] " + name + "**\n" + ("> " + text + "\n") + r
  {
  }

  /** One rendered block is one dialogue match; the last block's capture
      keeps the final newline. */
  lemma DialogueBlock(s: string, e: string, name: string, text: string, r: string)
    requires |s| == 8 && |e| == 8 && ReadHms(s).Some? && ReadHms(e).Some?
    requires HmsAt(s).Some? && HmsAt(e).Some?
    requires name != "" && !IsSpace(name[0]) && NoneIn(name, {'*'})
    requires text != "" && !IsSpace(text[0]) && NoneIn(text, {'\n'})
    requires r == "" || StartsWith(r, "\n**[")
    ensures DialogueAll(Nested(s, e, name, text, r)) ==
      [DialogueMatch(HmsAt(s).value, HmsAt(e).value, if r == "" then text + "\n" else text)] + DialogueAll(r)
  {
    var u4 := "\n> " + (text + "\n" + r);
    var u0 := " " + (name + "**" + u4);
    var t := "**[" + (s + (" - " + (e + ("]" + u0))));
    var whole := "\n" + t;
    var cap := if r == "" then text + "\n" else text;
    var rest := if r == "" then "" else "\n" + r;
    var m := DialogueMatch(HmsAt(s).value, HmsAt(e).value, cap);
    assert DialogueAll(whole) == DialogueAll(t) by {
      assert whole[1..] == t;
      HeadMismatch(whole, "**[");
    }
    assert DialogueAt(t) == Some((m, rest)) by {
      TailBlock(text, r);
      LabelBlock(name, u4);
      TimesBlock(s, e, u0);
    }
    assert DialogueAll(rest) == DialogueAll(r) by {
      if r != "" {
        assert ("\n" + r)[1..] == r;
        HeadMismatch("\n" + r, "**[");
      }
    }
  }

  // ------------------------------------------------------------ the whole document

  /** A segment text that survives the round trip. */
  predicate PlainText(text: string)
  {
    text != "" && IsStripped(text) && NoneIn(text, {'\n', '#'})
  }

  /** A display name that survives the round trip. */
  predicate PlainName(name: string)
  {
    name != "" && !IsSpace(name[0]) && NoneIn(name, {'*', '[', '#'})
  }

  /** Times under 100 hours, a plain text and a plain display name. */
  predicate GoodSegment(s: MdSegment, names: map<string, string>)
  {
    0.0 <= s.start < 360000.0 && 0.0 <= s.end < 360000.0 &&
    PlainText(s.text) && PlainName(DisplayName(names, s.speaker))
  }

  /** What the round trip asks of the segments and the metadata. */
  predicate Renderable(segs: seq<MdSegment>, meta: Option<Metadata>)
  {
    (forall i :: 0 <= i < |segs| ==> GoodSegment(segs[i], NamesOf(meta))) &&
    (meta.Some? ==> NoneIn(meta.value.podcastId, {'[', '#'}) && NoneIn(meta.value.model, {'[', '#'}))
  }

  /** What the loader should give back: whole seconds and the texts. */
  function Reloaded(segs: seq<MdSegment>): (r: seq<Entry>)
    ensures |r| == |segs|
  {
    seq(|segs|, i requires 0 <= i < |segs| => Entry(segs[i].start.Floor as real, segs[i].end.Floor as real, segs[i].text))
  }

  function BlockText(s: MdSegment, names: map<string, string>): string
  {
    BlockHead(s, names) + ("> " + s.text + "\n")
  }

  function BlockTexts(segs: seq<MdSegment>, names: map<string, string>): (r: seq<string>)
    ensures |r| == |segs|
  {
    seq(|segs|, i requires 0 <= i < |segs| => BlockText(segs[i], names))
  }

  /** The rendered blocks, read from the front. */
  function BlocksText(segs: seq<MdSegment>, names: map<string, string>): string
  {
    Concat(BlockTexts(segs, names))
  }

  lemma Concat2(a: string, b: string)
    ensures Concat([a, b]) == a + b
  {
    assert [a, b][1..] == [b];
    assert [b][1..] == [];
    assert Concat([b]) == b + Concat([]);
    assert b + "" == b;
  }

  /** Joining the flattened lines is joining each block's lines. */
  lemma {:induction false} FlattenConcat(bs: seq<seq<string>>)
    ensures Concat(Flatten(bs)) == Concat(seq(|bs|, i requires 0 <= i < |bs| => Concat(bs[i])))
    decreases |bs|
  {
    if |bs| > 0 {
      var n := |bs| - 1;
      var cs := seq(|bs|, i requires 0 <= i < |bs| => Concat(bs[i]));
      FlattenConcat(bs[..n]);
      ConcatAppend(Flatten(bs[..n]), bs[n]);
      assert cs == cs[..n] + [cs[n]];
      assert cs[..n] == seq(n, i requires 0 <= i < n => Concat(bs[..n][i]));
      ConcatAppend(cs[..n], [cs[n]]);
      assert Concat([cs[n]]) == cs[n] + Concat([]);
      assert cs[n] + "" == cs[n];
    }
  }

  /** The block lines join to the block text. */
  lemma BlocksConcat(segs: seq<MdSegment>, names: map<string, string>)
    ensures Concat(Flatten(MdBlocks(segs, names))) == BlocksText(segs, names)
  {
    var bs := MdBlocks(segs, names);
    FlattenConcat(bs);
    BlockTextsJoined(segs, names);
  }

  lemma BlockTextsJoined(segs: seq<MdSegment>, names: map<string, string>)
    ensures var bs := MdBlocks(segs, names);
      seq(|bs|, i requires 0 <= i < |bs| => Concat(bs[i])) == BlockTexts(segs, names)
  {
    var bs := MdBlocks(segs, names);
    forall i | 0 <= i < |segs| ensures Concat(bs[i]) == BlockText(segs[i], names) {
      BlockConcat(segs[i], names);
    }
  }

  lemma BlockConcat(s: MdSegment, names: map<string, string>)
    ensures Concat(BlockLines(s, names)) == BlockText(s, names)
  {
    Concat2(BlockHead(s, names), "> " + s.text + "\n");
  }

  lemma NestedStart(s: string, e: string, name: string, text: string, r: string)
    ensures StartsWith(Nested(s, e, name, text, r), "\n**[")
  {
  }

  lemma BlocksFront(segs: seq<MdSegment>, names: map<string, string>)
    requires |segs| > 0
    ensures BlocksText(segs, names) == BlockText(segs[0], names) + BlocksText(segs[1..], names)
  {
    BlockTextsTail(segs, names);
  }

  lemma BlockTextsTail(segs: seq<MdSegment>, names: map<string, string>)
    requires |segs| > 0
    ensures BlockTexts(segs, names)[1..] == BlockTexts(segs[1..], names)
  {
    var bs := BlockTexts(segs, names);
    forall i | 0 <= i < |segs| - 1 ensures bs[1..][i] == BlockTexts(segs[1..], names)[i] {
      assert segs[1..][i] == segs[i + 1];
    }
  }

  lemma BlocksStart(segs: seq<MdSegment>, names: map<string, string>)
    ensures BlocksText(segs, names) == "" || StartsWith(BlocksText(segs, names), "\n**[")
  {
    if |segs| > 0 {
      var s0 := segs[0];
      var r := BlocksText(segs[1..], names);
      BlocksFront(segs, names);
      NestedIsBlock(FormatHms(s0.start), FormatHms(s0.end), DisplayName(names, s0.speaker), s0.text, r);
      NestedStart(FormatHms(s0.start), FormatHms(s0.end), DisplayName(names, s0.speaker), s0.text, r);
    }
  }

  lemma {:induction false} DialogueEntriesCons(m: DialogueMatch, ms: seq<DialogueMatch>)
    ensures DialogueEntries([m] + ms) == DialogueEntries([m]) + DialogueEntries(ms)
    decreases |ms|
  {
    if |ms| > 0 {
      var n := |ms| - 1;
      assert ([m] + ms)[..n + 1] == [m] + ms[..n];
      assert ([m] + ms)[n + 1] == ms[n];
      DialogueEntriesCons(m, ms[..n]);
    } else {
      assert [m] + ms == [m];
    }
  }

  /** A rendered time reads back as the floor of the seconds. */
  lemma TimeReadBack(seconds: real)
    requires 0.0 <= seconds < 360000.0
    ensures |FormatHms(seconds)| == 8 && ReadHms(FormatHms(seconds)).Some?
    ensures HmsAt(FormatHms(seconds)).Some? && Seconds(HmsAt(FormatHms(seconds)).value) == seconds.Floor
  {
    var t := FormatHms(seconds);
    FormatHmsReadBack(seconds);
    HmsAtRead(t, "");
    assert t + "" == t;
  }

  /** The first block reads back as the first segment. */
  lemma FirstBlock(s0: MdSegment, names: map<string, string>, r: string)
    requires GoodSegment(s0, names)
    requires r == "" || StartsWith(r, "\n**[")
    ensures DialogueEntries(DialogueAll(BlockText(s0, names) + r)) ==
      [Entry(s0.start.Floor as real, s0.end.Floor as real, s0.text)] + DialogueEntries(DialogueAll(r))
  {
    var S := FormatHms(s0.start);
    var E := FormatHms(s0.end);
    var name := DisplayName(names, s0.speaker);
    var text := s0.text;
    TimeReadBack(s0.start);
    TimeReadBack(s0.end);
    NestedIsBlock(S, E, name, text, r);
    assert BlockText(s0, names) + r == Nested(S, E, name, text, r);
    DialogueBlock(S, E, name, text, r);
    var cap := if r == "" then text + "\n" else text;
    var m := DialogueMatch(HmsAt(S).value, HmsAt(E).value, cap);
    DialogueEntriesCons(m, DialogueAll(r));
    DialogueTextPlain(text);
    assert DialogueEntries([m]) == [Entry(s0.start.Floor as real, s0.end.Floor as real, text)] by {
      assert [m][..0] == [];
    }
  }

  lemma BlocksStep(segs: seq<MdSegment>, names: map<string, string>)
    requires |segs| > 0 && GoodSegment(segs[0], names)
    ensures DialogueEntries(DialogueAll(BlocksText(segs, names))) ==
      [Entry(segs[0].start.Floor as real, segs[0].end.Floor as real, segs[0].text)] +
      DialogueEntries(DialogueAll(BlocksText(segs[1..], names)))
  {
    BlocksStart(segs[1..], names);
    BlocksFront(segs, names);
    FirstBlock(segs[0], names, BlocksText(segs[1..], names));
  }

  lemma ReloadedFront(segs: seq<MdSegment>)
    requires |segs| > 0
    ensures Reloaded(segs) ==
      [Entry(segs[0].start.Floor as real, segs[0].end.Floor as real, segs[0].text)] + Reloaded(segs[1..])
  {
    assert Reloaded(segs)[1..] == Reloaded(segs[1..]);
  }

  /** The blocks read back as the segments. */
  lemma {:induction false} DialogueBlocks(segs: seq<MdSegment>, names: map<string, string>)
    requires forall i :: 0 <= i < |segs| ==> GoodSegment(segs[i], names)
    ensures DialogueEntries(DialogueAll(BlocksText(segs, names))) == Reloaded(segs)
    decreases |segs|
  {
    if |segs| > 0 {
      BlocksStep(segs, names);
      assert forall i :: 0 <= i < |segs[1..]| ==> GoodSegment(segs[1..][i], names) by {
        forall i | 0 <= i < |segs[1..]| ensures GoodSegment(segs[1..][i], names) {
          assert segs[1..][i] == segs[i + 1];
        }
      }
      DialogueBlocks(segs[1..], names);
      ReloadedFront(segs);
    }
  }

  // ------------------------------------------------------------ no legacy match, no header match

  /** A block holds a `#` only where its time, name or text does. */
  lemma NestedNoneIn(s: string, e: string, name: string, text: string, r: string, cs: set<char>)
    requires NoneIn(s, cs) && NoneIn(e, cs) && NoneIn(name, cs) && NoneIn(text, cs) && NoneIn(r, cs)
    requires forall c :: c in cs ==> c !in {'\n', '*', '[', ' ', '-', ']', '>'}
    ensures NoneIn(Nested(s, e, name, text, r), cs)
  {
    NoneInAppend(text, "\n", cs);
    NoneInAppend(text + "\n", r, cs);
    var u4 := "\n> " + (text + "\n" + r);
    NoneInAppend("\n> ", text + "\n" + r, cs);
    NoneInAppend("**", u4, cs);
    NoneInAppend(name, "**" + u4, cs);
    var u0 := " " + (name + "**" + u4);
    NoneInAppend(" ", name + "**" + u4, cs);
    NoneInAppend("]", u0, cs);
    NoneInAppend(e, "]" + u0, cs);
    NoneInAppend(" - ", e + ("]" + u0), cs);
    NoneInAppend(s, " - " + (e + ("]" + u0)), cs);
    NoneInAppend("**[", s + (" - " + (e + ("]" + u0))), cs);
    NoneInAppend("\n", "**[" + (s + (" - " + (e + ("]" + u0)))), cs);
  }

  lemma NoneInWider(s: string, wide: set<char>, cs: set<char>)
    requires NoneIn(s, wide) && cs <= wide
    ensures NoneIn(s, cs)
  {
  }

  lemma BlockNoHash(s0: MdSegment, names: map<string, string>)
    requires GoodSegment(s0, names)
    ensures NoneIn(BlockText(s0, names), {'#'})
  {
    var S := FormatHms(s0.start);
    var E := FormatHms(s0.end);
    var name := DisplayName(names, s0.speaker);
    TimeReadBack(s0.start);
    TimeReadBack(s0.end);
    ClockChars(S, {'#'});
    ClockChars(E, {'#'});
    NoneInWider(name, {'*', '[', '#'}, {'#'});
    NoneInWider(s0.text, {'\n', '#'}, {'#'});
    NestedIsBlock(S, E, name, s0.text, "");
    assert BlockText(s0, names) + "" == BlockText(s0, names);
    NestedNoneIn(S, E, name, s0.text, "", {'#'});
  }

  lemma BlocksNoHash(segs: seq<MdSegment>, names: map<string, string>)
    requires forall i :: 0 <= i < |segs| ==> GoodSegment(segs[i], names)
    ensures NoneIn(BlocksText(segs, names), {'#'})
  {
    var ts := BlockTexts(segs, names);
    forall i | 0 <= i < |ts| ensures NoneIn(ts[i], {'#'}) {
      BlockNoHash(segs[i], names);
    }
    ConcatNoneIn(ts, {'#'});
  }

  const Title := "# 播客转录\n"

  /** The header is the title line and then lines without `#` or `[`. */
  lemma HeaderShape(m: Metadata, speakerNames: seq<string>)
    requires NoneIn(m.podcastId, {'[', '#'}) && NoneIn(m.model, {'[', '#'})
    requires forall i :: 0 <= i < |speakerNames| ==> NoneIn(speakerNames[i], {'[', '#'})
    ensures Concat(HeaderLines(m, speakerNames)) == Title + Concat(HeaderLines(m, speakerNames)[1..])
    ensures NoneIn(Concat(HeaderLines(m, speakerNames)[1..]), {'[', '#'})
  {
    var cs: set<char> := {'[', '#'};
    var hl := HeaderLines(m, speakerNames);
    var l1 := "**播客 ID**: " + m.podcastId + "\n";
    var l2 := "**转录模型**: " + m.model + "\n";
    var l3 := "**说话人**: " + Join(speakerNames, ", ") + "\n";
    NoneInAppend("**播客 ID**: ", m.podcastId, cs);
    NoneInAppend("**播客 ID**: " + m.podcastId, "\n", cs);
    NoneInAppend("**转录模型**: ", m.model, cs);
    NoneInAppend("**转录模型**: " + m.model, "\n", cs);
    JoinNoneIn(speakerNames, ", ", cs);
    NoneInAppend("**说话人**: ", Join(speakerNames, ", "), cs);
    NoneInAppend("**说话人**: " + Join(speakerNames, ", "), "\n", cs);
    var tail := hl[1..];
    assert tail ==
      (if m.podcastId != "" then [l1] else []) +
      (if m.model != "" then [l2] else []) +
      (if |speakerNames| > 0 then [l3] else []) +
      ["\n---\n"];
    assert NoneIn("\n---\n", cs);
    forall i | 0 <= i < |tail| ensures NoneIn(tail[i], cs) {
    }
    ConcatNoneIn(tail, cs);
  }

  /** The names in the header are display names of segments. */
  lemma HeaderNamesPlain(segs: seq<MdSegment>, names: map<string, string>)
    requires forall i :: 0 <= i < |segs| ==> GoodSegment(segs[i], names)
    ensures forall i :: 0 <= i < |HeaderNames(HeaderIds(segs), names)| ==>
      NoneIn(HeaderNames(HeaderIds(segs), names)[i], {'[', '#'})
  {
    var ids := HeaderIds(segs);
    HeaderIdsSpec(segs);
    forall i | 0 <= i < |ids| ensures NoneIn(Lookup(names, ids[i]), {'[', '#'}) {
      assert ids[i] in ids;
      var j :| 0 <= j < |segs| && segs[j].speaker == Id(ids[i]) && ids[i] != "";
      assert DisplayName(names, segs[j].speaker) == Lookup(names, ids[i]);
      assert GoodSegment(segs[j], names);
      NoneInWider(Lookup(names, ids[i]), {'*', '[', '#'}, {'[', '#'});
    }
  }

  /** The text `to_markdown` writes is the header (with metadata) and the blocks. */
  lemma MarkdownShape(segs: seq<MdSegment>, meta: Option<Metadata>)
    ensures meta.None? ==> Markdown(segs, meta) == BlocksText(segs, NamesOf(meta))
    ensures meta.Some? ==>
              Markdown(segs, meta) ==
              Concat(HeaderLines(meta.value, HeaderNames(HeaderIds(segs), NamesOf(meta)))) + BlocksText(segs, NamesOf(meta))
  {
    var names := NamesOf(meta);
    BlocksConcat(segs, names);
    var fl := Flatten(MdBlocks(segs, names));
    if meta.None? {
      assert MarkdownLines(segs, meta) == fl;
    } else {
      ConcatAppend(HeaderLines(meta.value, HeaderNames(HeaderIds(segs), names)), fl);
    }
  }

  /** Neither reader sees the header. */
  lemma HeaderIgnored(h: string, b: string)
    requires NoneIn(h, {'[', '#'}) && NoneIn(b, {'#'})
    requires b == "" || StartsWith(b, "\n**[")
    ensures LegacyAll(Title + h + b) == []
    ensures DialogueAll(Title + h + b) == DialogueAll(b)
  {
    var whole := Title + h + b;
    var after := whole[1..];
    assert after == Title[1..] + h + b;
    assert NoneIn(Title[1..], {'#', '['});
    NoneInAppend(Title[1..], h, {'#'});
    NoneInAppend(Title[1..] + h, b, {'#'});
    LegacyNone(after);
    assert whole[..2] == "# ";
    assert !StartsWith(whole, LegacyTitle) by {
      assert whole[1] != LegacyTitle[1];
      assert |whole| >= |LegacyTitle| ==> whole[..|LegacyTitle|][1] == whole[1];
    }
    assert NoneIn(Title + h, {'['}) by {
      NoneInAppend(Title, h, {'['});
    }
    assert whole == (Title + h) + b;
    DialogueSkip(Title + h, b);
  }

  /** `load_transcript` reads back what `to_markdown` writes: every segment,
      in order, with its start and end cut to whole seconds and its text. */
  lemma MarkdownRoundTrip(segs: seq<MdSegment>, meta: Option<Metadata>)
    requires Renderable(segs, meta)
    ensures ParseMarkdown(Markdown(segs, meta)) == Reloaded(segs)
  {
    var names := NamesOf(meta);
    var b := BlocksText(segs, names);
    MarkdownShape(segs, meta);
    BlocksNoHash(segs, names);
    BlocksStart(segs, names);
    DialogueBlocks(segs, names);
    if meta.None? {
      LegacyNone(b);
    } else {
      var hl := HeaderLines(meta.value, HeaderNames(HeaderIds(segs), names));
      HeaderNamesPlain(segs, names);
      HeaderShape(meta.value, HeaderNames(HeaderIds(segs), names));
      HeaderIgnored(Concat(hl[1..]), b);
    }
  }
}
