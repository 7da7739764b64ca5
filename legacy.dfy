/** The legacy Markdown format that `load_transcript` still reads:
    `## 段落 n [hh:mm:ss - hh:mm:ss]` followed by the paragraph's lines, each
    written as `- line`. A document of such blocks, one blank line after
    each, is read back paragraph by paragraph: the times as whole seconds
    (`h * 3600 + m * 60 + s`) and the text as the lines joined by newlines. */
module LegacyFormat {
  import opened Wrappers
  import opened Text
  import opened Clock
  import opened Loader
  import RoundTrip

  /** A paragraph of the legacy format: its number, times and lines. */
  datatype LegacyParagraph = LegacyParagraph(number: nat, start: real, end: real, lines: seq<string>)

  /** The list lines of a block: `- line` and a newline for each. */
  function DashList(lines: seq<string>): string
    decreases |lines|
  {
    if |lines| == 0 then "" else "- " + lines[0] + "\n" + DashList(lines[1..])
  }

  /** A block followed by `rest`, grouped the way the scanner reads it. */
  function Block(n: string, s: string, e: string, items: string, rest: string): string
  {
    LegacyTitle + (n + (" [" + (s + (" - " + (e + ("]\n" + (items + rest)))))))
  }

  /** The text of a document: each paragraph's block, then a blank line. */
  function Document(ps: seq<LegacyParagraph>): string
    decreases |ps|
  {
    if |ps| == 0 then ""
    else Block(NatToString(ps[0].number), FormatHms(ps[0].start), FormatHms(ps[0].end), DashList(ps[0].lines), "\n" + Document(ps[1..]))
  }

  /** A line the format carries unchanged: non-empty, on one line, with no
      whitespace or `-` at either end. */
  predicate PlainLine(l: string)
  {
    l != "" && NoneIn(l, {'\n'}) && IsStripped(l) && l[0] != '-' && l[|l| - 1] != '-'
  }

  predicate GoodParagraph(p: LegacyParagraph)
  {
    0.0 <= p.start < 360000.0 && 0.0 <= p.end < 360000.0 &&
    |p.lines| > 0 && forall i :: 0 <= i < |p.lines| ==> PlainLine(p.lines[i])
  }

  /** What the loader should give back for each paragraph. */
  function Reloaded(ps: seq<LegacyParagraph>): (r: seq<Entry>)
    ensures |r| == |ps|
  {
    seq(|ps|, i requires 0 <= i < |ps| => Entry(ps[i].start.Floor as real, ps[i].end.Floor as real, Join(ps[i].lines, "\n")))
  }

  // ------------------------------------------------------------ scanning one block

  /** `\d+` runs over all the digits of `n`. */
  lemma {:induction false} SkipDigitsOver(n: string, x: string)
    requires AllDigits(n)
    requires x == "" || !IsDigit(x[0])
    ensures SkipDigits(n + x) == x
    decreases |n|
  {
    if |n| > 0 {
      assert (n + x)[1..] == n[1..] + x;
      SkipDigitsOver(n[1..], x);
    } else {
      assert n + x == x;
    }
  }

  /** `.+\n` on a one-line text stops at its newline. */
  lemma {:induction false} LineLengthAt(p: string, x: string)
    requires NoneIn(p, {'\n'})
    ensures LineLength(p + "\n" + x) == |p|
    decreases |p|
  {
    if |p| > 0 {
      assert (p + "\n" + x)[1..] == p[1..] + "\n" + x;
      LineLengthAt(p[1..], x);
    } else {
      assert p + "\n" + x == "\n" + x;
    }
  }

  /** The list lines cons up one line at a time. */
  lemma DashListCons(lines: seq<string>, rest: string)
    requires |lines| > 0
    ensures DashList(lines) + rest == "- " + (lines[0] + ("\n" + (DashList(lines[1..]) + rest)))
  {
  }

  /** `- .+\n` at the start of a list line takes the whole line. */
  lemma DashLineAt(l: string, more: string)
    requires l != "" && NoneIn(l, {'\n'})
    ensures var v := "- " + (l + ("\n" + more));
      DashLine(v) == Some(|l| + 3) && v[..|l| + 3] == "- " + l + "\n" && v[|l| + 3..] == more
  {
    var v := "- " + (l + ("\n" + more));
    assert StartsWith(v, "- ");
    assert v[2..] == l + "\n" + more;
    LineLengthAt(l, more);
  }

  /** `(?:- .+\n)+` takes exactly the list lines, when what follows starts
      no further item. */
  lemma {:induction false} DashLinesList(lines: seq<string>, rest: string)
    requires forall i :: 0 <= i < |lines| ==> lines[i] != "" && NoneIn(lines[i], {'\n'})
    requires !StartsWith(rest, "- ")
    ensures DashLines(DashList(lines) + rest) == (DashList(lines), rest)
    decreases |lines|
  {
    if |lines| == 0 {
      assert DashList(lines) + rest == rest;
    } else {
      var more := DashList(lines[1..]) + rest;
      DashListCons(lines, rest);
      DashLineAt(lines[0], more);
      DashLinesList(lines[1..], rest);
    }
  }

  lemma TitleAt(u: string)
    ensures StartsWith(LegacyTitle + u, LegacyTitle) && (LegacyTitle + u)[|LegacyTitle|..] == u
  {
  }

  /** A time group followed by a separator and the rest of the text. */
  lemma TimeAt(t: string, sep: string, r: string)
    requires |t| == 8 && ReadHms(t).Some?
    ensures var u := t + (sep + r);
      HmsAt(t).Some? && HmsAt(u) == HmsAt(t) && StartsWith(u[8..], sep) && u[8..][|sep|..] == r && u[8 + |sep|..] == r
  {
    RoundTrip.HmsAtRead(t, sep + r);
    var u := t + (sep + r);
    assert u[8..] == sep + r;
  }

  /** The two times and the list lines after ` [`. */
  lemma TimesAt(s: string, e: string, items: string, rest: string)
    requires |s| == 8 && |e| == 8 && ReadHms(s).Some? && ReadHms(e).Some?
    requires HmsAt(s).Some? && HmsAt(e).Some?
    requires items != "" && DashLines(items + rest) == (items, rest)
    ensures LegacyTimes(s + (" - " + (e + ("]\n" + (items + rest))))) ==
      Some((LegacyMatch(HmsAt(s).value, HmsAt(e).value, items), rest))
  {
    TimeAt(s, " - ", e + ("]\n" + (items + rest)));
    TimeAt(e, "]\n", items + rest);
  }

  /** The scanner reads one block: its two times and its list lines. */
  lemma BlockAt(n: string, s: string, e: string, items: string, rest: string)
    requires |n| > 0 && AllDigits(n)
    requires |s| == 8 && |e| == 8 && ReadHms(s).Some? && ReadHms(e).Some?
    requires HmsAt(s).Some? && HmsAt(e).Some?
    requires items != "" && DashLines(items + rest) == (items, rest)
    ensures LegacyAt(Block(n, s, e, items, rest)) ==
      Some((LegacyMatch(HmsAt(s).value, HmsAt(e).value, items), rest))
  {
    var r1 := s + (" - " + (e + ("]\n" + (items + rest))));
    TitleAt(n + (" [" + r1));
    SkipDigitsOver(n, " [" + r1);
    assert StartsWith(" [" + r1, " [") && (" [" + r1)[2..] == r1;
    TimesAt(s, e, items, rest);
  }

  // ------------------------------------------------------------ the block's text

  /** The pieces of the list lines split at newlines: each `- line`, then
      the empty piece after the last newline. */
  lemma {:induction false} SplitDashList(lines: seq<string>)
    requires forall i :: 0 <= i < |lines| ==> NoneIn(lines[i], {'\n'})
    ensures SplitAny(DashList(lines), {'\n'}) ==
      seq(|lines|, i requires 0 <= i < |lines| => "- " + lines[i]) + [""]
    decreases |lines|
  {
    if |lines| > 0 {
      var l := lines[0];
      var d := DashList(lines[1..]);
      assert DashList(lines) == ("- " + l) + ("\n" + d);
      assert NoneIn("- " + l, {'\n'});
      SplitPrefix("- " + l, "\n" + d, '\n');
      assert ("\n" + d)[1..] == d;
      assert SplitAny("\n" + d, {'\n'}) == [""] + SplitAny(d, {'\n'});
      SplitDashList(lines[1..]);
      assert ("- " + l) + "" == "- " + l;
    }
  }

  /** One list line is cleaned back to the line. */
  lemma CleanOne(l: string)
    requires PlainLine(l)
    ensures Strip("- " + l) != ""
    ensures Strip(Trim("- " + l, {'-', ' '})) == l
  {
    var x := "- " + l;
    assert x[0] == '-' && '-' !in Whitespace;
    StripEmptyIff(x);
    assert x[1..] == " " + l && (" " + l)[1..] == l;
    var cs := {'-', ' '};
    assert TrimLeft(x, cs) == TrimLeft(" " + l, cs);
    assert TrimLeft(" " + l, cs) == TrimLeft(l, cs);
    assert TrimLeft(l, cs) == l;
    assert TrimRight(l, cs) == l;
    TrimUnchanged(l, Whitespace);
  }

  lemma {:induction false} CleanDashItems(lines: seq<string>)
    requires forall i :: 0 <= i < |lines| ==> PlainLine(lines[i])
    ensures CleanLines(seq(|lines|, i requires 0 <= i < |lines| => "- " + lines[i]) + [""]) == lines
    decreases |lines|
  {
    var items := seq(|lines|, i requires 0 <= i < |lines| => "- " + lines[i]) + [""];
    if |lines| == 0 {
      assert items == [""];
      assert Strip("") == "";
      assert CleanLines(items) == [] + CleanLines(items[1..]);
    } else {
      CleanOne(lines[0]);
      assert items[0] == "- " + lines[0];
      assert items[1..] == seq(|lines[1..]|, i requires 0 <= i < |lines[1..]| => "- " + lines[1..][i]) + [""];
      CleanDashItems(lines[1..]);
      assert lines == [lines[0]] + lines[1..];
    }
  }

  /** The text of a block is its lines joined by newlines. */
  lemma BlockText(lines: seq<string>)
    requires forall i :: 0 <= i < |lines| ==> PlainLine(lines[i])
    requires |lines| > 0
    ensures LegacyText(DashList(lines)) == Join(lines, "\n") && Join(lines, "\n") != ""
  {
    assert |lines| == 1 || Join(lines, "\n") == lines[0] + "\n" + Join(lines[1..], "\n");
    SplitDashList(lines);
    CleanDashItems(lines);
  }

  // ------------------------------------------------------------ documents

  lemma {:induction false} LegacyEntriesAppend(a: seq<LegacyMatch>, b: seq<LegacyMatch>)
    ensures LegacyEntries(a + b) == LegacyEntries(a) + LegacyEntries(b)
    decreases |b|
  {
    if |b| == 0 {
      assert a + b == a;
    } else {
      var n := |b| - 1;
      assert (a + b)[..|a + b| - 1] == a + b[..n];
      assert (a + b)[|a + b| - 1] == b[n];
      LegacyEntriesAppend(a, b[..n]);
    }
  }

  /** The blank line after a block starts no match and no list line. */
  lemma AfterBlankLine(x: string)
    ensures LegacyAll("\n" + x) == LegacyAll(x)
    ensures !StartsWith("\n" + x, "- ")
  {
    assert ("\n" + x)[0] != LegacyTitle[0];
    assert ("\n" + x)[1..] == x;
  }

  /** A match with text is one paragraph, its times read as seconds. */
  lemma SingleEntry(m: LegacyMatch)
    requires LegacyText(m.lines) != ""
    ensures LegacyEntries([m]) == [Entry(Seconds(m.start) as real, Seconds(m.end) as real, LegacyText(m.lines))]
  {
    assert [m][..0] == [];
  }

  lemma PlainItems(lines: seq<string>)
    requires forall i :: 0 <= i < |lines| ==> PlainLine(lines[i])
    ensures forall i :: 0 <= i < |lines| ==> lines[i] != "" && NoneIn(lines[i], {'\n'})
  {
  }

  /** A block is one match, and the scan goes on after it. */
  lemma BlockAll(n: string, s: string, e: string, items: string, rest: string)
    requires |n| > 0 && AllDigits(n)
    requires |s| == 8 && |e| == 8 && ReadHms(s).Some? && ReadHms(e).Some?
    requires HmsAt(s).Some? && HmsAt(e).Some?
    requires items != "" && DashLines(items + rest) == (items, rest)
    ensures LegacyAll(Block(n, s, e, items, rest)) ==
      [LegacyMatch(HmsAt(s).value, HmsAt(e).value, items)] + LegacyAll(rest)
  {
    BlockAt(n, s, e, items, rest);
  }

  /** The block of a paragraph is one match, and the scan goes on after
      the blank line that ends the block. */
  lemma ParagraphAll(p: LegacyParagraph, tail: string)
    requires GoodParagraph(p)
    ensures HmsAt(FormatHms(p.start)).Some? && HmsAt(FormatHms(p.end)).Some?
    ensures LegacyAll(Block(NatToString(p.number), FormatHms(p.start), FormatHms(p.end), DashList(p.lines), "\n" + tail)) ==
      [LegacyMatch(HmsAt(FormatHms(p.start)).value, HmsAt(FormatHms(p.end)).value, DashList(p.lines))] + LegacyAll(tail)
  {
    var rest := "\n" + tail;
    RoundTrip.TimeReadBack(p.start);
    RoundTrip.TimeReadBack(p.end);
    PlainItems(p.lines);
    AfterBlankLine(tail);
    DashLinesList(p.lines, rest);
    BlockAll(NatToString(p.number), FormatHms(p.start), FormatHms(p.end), DashList(p.lines), rest);
  }

  /** A document's first block is one match, and the scan goes on with the
      rest of the document. */
  lemma FirstMatch(ps: seq<LegacyParagraph>)
    requires |ps| > 0 && GoodParagraph(ps[0])
    ensures HmsAt(FormatHms(ps[0].start)).Some? && HmsAt(FormatHms(ps[0].end)).Some?
    ensures LegacyAll(Document(ps)) ==
      [LegacyMatch(HmsAt(FormatHms(ps[0].start)).value, HmsAt(FormatHms(ps[0].end)).value, DashList(ps[0].lines))] +
      LegacyAll(Document(ps[1..]))
  {
    ParagraphAll(ps[0], Document(ps[1..]));
  }

  /** The first paragraph of a document reads back as itself, and the
      reading continues on the rest of the document. */
  lemma FirstParagraph(ps: seq<LegacyParagraph>)
    requires |ps| > 0 && GoodParagraph(ps[0])
    ensures LegacyEntries(LegacyAll(Document(ps))) ==
      [Entry(ps[0].start.Floor as real, ps[0].end.Floor as real, Join(ps[0].lines, "\n"))] +
      LegacyEntries(LegacyAll(Document(ps[1..])))
  {
    var p := ps[0];
    FirstMatch(ps);
    RoundTrip.TimeReadBack(p.start);
    RoundTrip.TimeReadBack(p.end);
    var m := LegacyMatch(HmsAt(FormatHms(p.start)).value, HmsAt(FormatHms(p.end)).value, DashList(p.lines));
    BlockText(p.lines);
    SingleEntry(m);
    LegacyEntriesAppend([m], LegacyAll(Document(ps[1..])));
  }

  lemma ReloadedFront(ps: seq<LegacyParagraph>)
    requires |ps| > 0
    ensures Reloaded(ps) ==
      [Entry(ps[0].start.Floor as real, ps[0].end.Floor as real, Join(ps[0].lines, "\n"))] + Reloaded(ps[1..])
  {
  }

  /** Every paragraph of a legacy document is read back, in order, with its
      times cut to whole seconds and its lines joined by newlines. */
  lemma {:induction false} LegacyRoundTrip(ps: seq<LegacyParagraph>)
    requires forall i :: 0 <= i < |ps| ==> GoodParagraph(ps[i])
    ensures LegacyEntries(LegacyAll(Document(ps))) == Reloaded(ps)
    decreases |ps|
  {
    if |ps| > 0 {
      FirstParagraph(ps);
      LegacyRoundTrip(ps[1..]);
      ReloadedFront(ps);
    }
  }

  /** As the legacy reading of a non-empty legacy document finds paragraphs,
      it is the one `load_transcript` returns. */
  lemma LegacyLoaded(ps: seq<LegacyParagraph>)
    requires |ps| > 0 && forall i :: 0 <= i < |ps| ==> GoodParagraph(ps[i])
    ensures ParseMarkdown(Document(ps)) == Reloaded(ps)
  {
    LegacyRoundTrip(ps);
  }
}
