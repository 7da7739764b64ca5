/** String helpers shared by the whole model: the parts of Python's `str`
    API the source relies on (`strip`, `split`, `join`, `replace`, `lower`,
    `int()`, substring tests), stated over `seq<char>`. */
module Text {
  import opened Wrappers

  /** The characters `Strip` removes: space, tab, newline, carriage return,
      `\x0b` and `\x0c`. Python's argument-less `strip()` also removes
      `\x1c`-`\x1f`, `\x85`, `\xa0` and the other Unicode spaces. */
  const Whitespace: set<char> := {' ', '\t', '\n', '\r', '\U{B}', '\U{C}'}

  predicate IsSpace(c: char) { c in Whitespace }

  predicate AllIn(s: string, cs: set<char>) { forall k :: 0 <= k < |s| ==> s[k] in cs }

  predicate NoneIn(s: string, cs: set<char>) { forall k :: 0 <= k < |s| ==> s[k] !in cs }

  predicate IsBlank(s: string) { AllIn(s, Whitespace) }

  /** `s` is a contiguous piece of `t`. */
  predicate IsInfix(s: string, t: string) { exists i, j :: 0 <= i <= j <= |t| && t[i..j] == s }

  // ---------------------------------------------------------------- strip

  function TrimLeft(s: string, cs: set<char>): string
  {
    if |s| > 0 && s[0] in cs then TrimLeft(s[1..], cs) else s
  }

  function TrimRight(s: string, cs: set<char>): string
  {
    if |s| > 0 && s[|s| - 1] in cs then TrimRight(s[..|s| - 1], cs) else s
  }

  /** Trimming on the left keeps a suffix that does not start with a trimmed
      character, and everything removed is a trimmed character. */
  lemma {:induction false} TrimLeftSpec(s: string, cs: set<char>)
    ensures var r := TrimLeft(s, cs);
      |r| <= |s| && r == s[|s| - |r|..] && (r == [] || r[0] !in cs) && AllIn(s[..|s| - |r|], cs)
    decreases |s|
  {
    if |s| > 0 && s[0] in cs {
      var t := s[1..];
      TrimLeftSpec(t, cs);
      var r := TrimLeft(t, cs);
      assert TrimLeft(s, cs) == r;
      assert t[|t| - |r|..] == s[|s| - |r|..];
      assert s[..|s| - |r|] == [s[0]] + t[..|t| - |r|];
    } else {
      assert s[..0] == [];
    }
  }

  /** Trimming on the right keeps a prefix that does not end with a trimmed
      character, and everything removed is a trimmed character. */
  lemma {:induction false} TrimRightSpec(s: string, cs: set<char>)
    ensures var r := TrimRight(s, cs);
      |r| <= |s| && r == s[..|r|] && (r == [] || r[|r| - 1] !in cs) && AllIn(s[|r|..], cs)
    decreases |s|
  {
    if |s| > 0 && s[|s| - 1] in cs {
      var t := s[..|s| - 1];
      TrimRightSpec(t, cs);
      var r := TrimRight(s, cs);
      assert t[..|r|] == s[..|r|];
      forall k | |r| <= k < |s| ensures s[k] in cs
      {
        if k < |s| - 1 { assert s[k] == t[|r|..][k - |r|]; }
      }
    }
  }

  /** Python's `s.strip(chars)`: drop leading and trailing characters of `cs`. */
  function Trim(s: string, cs: set<char>): string { TrimRight(TrimLeft(s, cs), cs) }

  /** Python's argument-less `s.strip()`. */
  function Strip(s: string): string { Trim(s, Whitespace) }

  lemma TrimShape(s: string, cs: set<char>)
    ensures var r := Trim(s, cs);
      (r == [] || (r[0] !in cs && r[|r| - 1] !in cs)) &&
      exists i :: 0 <= i <= i + |r| <= |s| && s[i..i + |r|] == r && AllIn(s[..i], cs) && AllIn(s[i + |r|..], cs)
  {
    var l := TrimLeft(s, cs);
    var r := TrimRight(l, cs);
    TrimLeftSpec(s, cs);
    TrimRightSpec(l, cs);
    var i := |s| - |l|;
    assert s[i..i + |r|] == r;
    assert s[i + |r|..] == l[|r|..];
  }

  /** The stripped text is empty exactly when every character is stripped. */
  lemma TrimEmptyIff(s: string, cs: set<char>)
    ensures Trim(s, cs) == [] <==> AllIn(s, cs)
  {
    var l := TrimLeft(s, cs);
    var r := TrimRight(l, cs);
    TrimLeftSpec(s, cs);
    TrimRightSpec(l, cs);
    var i := |s| - |l|;
    if r != [] {
      assert s[i] == r[0];
    } else {
      forall k | 0 <= k < |s| ensures s[k] in cs {
        assert s[k] == s[..i][k];
      }
    }
  }

  lemma StripEmptyIff(s: string)
    ensures Strip(s) == [] <==> IsBlank(s)
  {
    TrimEmptyIff(s, Whitespace);
  }

  /** Text with no strippable character at either end is left unchanged. */
  lemma TrimUnchanged(s: string, cs: set<char>)
    requires s == [] || (s[0] !in cs && s[|s| - 1] !in cs)
    ensures Trim(s, cs) == s
  {
  }

  /** No whitespace at either end. */
  predicate IsStripped(s: string) { s == [] || (!IsSpace(s[0]) && !IsSpace(s[|s| - 1])) }

  /** A stripped text has no surrounding whitespace... */
  lemma StripIsStripped(s: string)
    ensures IsStripped(Strip(s))
  {
    TrimShape(s, Whitespace);
  }

  /** ... and is its own strip. */
  lemma StripIdempotent(s: string)
    ensures Strip(Strip(s)) == Strip(s)
  {
    StripIsStripped(s);
    TrimUnchanged(Strip(s), Whitespace);
  }

  /** Stripping keeps only characters of the input (no character is invented). */
  lemma StripChars(s: string, cs: set<char>)
    requires NoneIn(s, cs)
    ensures NoneIn(Strip(s), cs)
  {
    TrimShape(s, Whitespace);
    var r := Strip(s);
    var i :| 0 <= i <= i + |r| <= |s| && s[i..i + |r|] == r && AllIn(s[..i], Whitespace) && AllIn(s[i + |r|..], Whitespace);
    forall k | 0 <= k < |r| ensures r[k] !in cs { assert r[k] == s[i + k]; }
  }

  // ---------------------------------------------------------------- split / join

  /** Python's `re.split('[cs]', s)`, and `s.split(c)` when `cs == {c}`: the
      pieces between single separator characters, empty pieces included. */
  function SplitAny(s: string, cs: set<char>): (r: seq<string>)
    ensures |r| >= 1
    ensures forall i :: 0 <= i < |r| ==> NoneIn(r[i], cs)
    decreases |s|
  {
    if |s| == 0 then [""]
    else
      var rest := SplitAny(s[1..], cs);
      if s[0] in cs then [""] + rest else [[s[0]] + rest[0]] + rest[1..]
  }

  /** A text without separators is a single piece. */
  lemma {:induction false} SplitNone(s: string, cs: set<char>)
    requires NoneIn(s, cs)
    ensures SplitAny(s, cs) == [s]
    decreases |s|
  {
    if |s| > 0 {
      SplitNone(s[1..], cs);
      assert [s[0]] + s[1..] == s;
    }
  }

  /** The pieces only hold characters of the text. */
  lemma {:induction false} SplitKeeps(s: string, cs: set<char>, ds: set<char>)
    requires NoneIn(s, ds)
    ensures forall i :: 0 <= i < |SplitAny(s, cs)| ==> NoneIn(SplitAny(s, cs)[i], ds)
    decreases |s|
  {
    if |s| > 0 {
      SplitKeeps(s[1..], cs, ds);
      var rest := SplitAny(s[1..], cs);
      if s[0] !in cs {
        var r := SplitAny(s, cs);
        forall i | 0 <= i < |r| ensures NoneIn(r[i], ds) {
          if i > 0 { assert r[i] == rest[i]; }
        }
      }
    }
  }

  /** Pieces of a text made of `cs` and `ds` characters are made of `ds` characters. */
  lemma {:induction false} SplitWithin(s: string, cs: set<char>, ds: set<char>)
    requires AllIn(s, ds + cs)
    ensures forall i :: 0 <= i < |SplitAny(s, cs)| ==> AllIn(SplitAny(s, cs)[i], ds)
    decreases |s|
  {
    if |s| > 0 {
      SplitWithin(s[1..], cs, ds);
      var rest := SplitAny(s[1..], cs);
      if s[0] !in cs {
        var r := SplitAny(s, cs);
        forall i | 0 <= i < |r| ensures AllIn(r[i], ds) {
          if i > 0 { assert r[i] == rest[i]; }
        }
      }
    }
  }

  /** Python's `sep.join(parts)`. */
  function Join(parts: seq<string>, sep: string): string
  {
    if |parts| == 0 then ""
    else if |parts| == 1 then parts[0]
    else parts[0] + sep + Join(parts[1..], sep)
  }

  /** Python's `''.join(parts)`. */
  function Concat(parts: seq<string>): string
  {
    if |parts| == 0 then "" else parts[0] + Concat(parts[1..])
  }

  lemma ConcatAppend(a: seq<string>, b: seq<string>)
    ensures Concat(a + b) == Concat(a) + Concat(b)
  {
    if |a| == 0 {
      assert a + b == b;
    } else {
      assert (a + b)[0] == a[0];
      assert (a + b)[1..] == a[1..] + b;
      ConcatAppend(a[1..], b);
    }
  }

  /** Joining the pieces of a split with the separator gives the text back. */
  lemma {:induction false} SplitJoin(s: string, c: char)
    ensures Join(SplitAny(s, {c}), [c]) == s
    decreases |s|
  {
    if |s| > 0 {
      var rest := SplitAny(s[1..], {c});
      SplitJoin(s[1..], c);
      if s[0] != c {
        if |rest| > 1 { assert rest == [rest[0]] + rest[1..]; }
      }
    }
  }

  /** A separator-free prefix joins the first piece of whatever follows it. */
  lemma {:induction false} SplitPrefix(p: string, t: string, c: char)
    requires NoneIn(p, {c})
    ensures SplitAny(p + t, {c}) == [p + SplitAny(t, {c})[0]] + SplitAny(t, {c})[1..]
    decreases |p|
  {
    if |p| > 0 {
      assert (p + t)[1..] == p[1..] + t;
      assert (p + t)[0] == p[0];
      SplitPrefix(p[1..], t, c);
      assert [p[0]] + (p[1..] + SplitAny(t, {c})[0]) == p + SplitAny(t, {c})[0];
    } else {
      var r := SplitAny(t, {c});
      assert p + t == t;
      assert p + r[0] == r[0];
      assert r == [r[0]] + r[1..];
    }
  }

  /** Splitting a join of separator-free pieces gives the pieces back. */
  lemma {:induction false} JoinSplit(parts: seq<string>, c: char)
    requires |parts| >= 1
    requires forall i :: 0 <= i < |parts| ==> NoneIn(parts[i], {c})
    ensures SplitAny(Join(parts, [c]), {c}) == parts
    decreases |parts|
  {
    if |parts| == 1 {
      SplitPrefix(parts[0], "", c);
      assert parts[0] + "" == parts[0];
    } else {
      var rest := Join(parts[1..], [c]);
      JoinSplit(parts[1..], c);
      assert Join(parts, [c]) == parts[0] + ([c] + rest);
      SplitPrefix(parts[0], [c] + rest, c);
      assert ([c] + rest)[1..] == rest;
      assert parts[0] + "" == parts[0];
      assert parts == [parts[0]] + parts[1..];
    }
  }

  /** The concatenation is empty exactly when every piece is. */
  lemma {:induction false} ConcatEmpty(parts: seq<string>)
    ensures Concat(parts) == "" <==> forall i :: 0 <= i < |parts| ==> parts[i] == ""
    decreases |parts|
  {
    if |parts| > 0 {
      ConcatEmpty(parts[1..]);
      if Concat(parts) == "" {
        forall i | 0 <= i < |parts| ensures parts[i] == "" {
          if i > 0 { assert parts[i] == parts[1..][i - 1]; }
        }
      } else {
        assert parts[0] != "" || Concat(parts[1..]) != "";
        if parts[0] == "" {
          var j :| 0 <= j < |parts[1..]| && parts[1..][j] != "";
          assert parts[j + 1] != "";
        }
      }
    }
  }

  function Filter<T>(xs: seq<T>, p: T -> bool): (r: seq<T>)
    ensures |r| <= |xs|
    ensures forall i :: 0 <= i < |r| ==> p(r[i])
  {
    if |xs| == 0 then [] else (if p(xs[0]) then [xs[0]] else []) + Filter(xs[1..], p)
  }

  function Map<T, U>(xs: seq<T>, f: T -> U): (r: seq<U>)
    ensures |r| == |xs| && forall i :: 0 <= i < |xs| ==> r[i] == f(xs[i])
  {
    if |xs| == 0 then [] else [f(xs[0])] + Map(xs[1..], f)
  }

  /** The non-blank pieces of a list, each stripped:
      Python's `[s.strip() for s in xs if s.strip()]`. */
  function StrippedNonBlank(xs: seq<string>): (r: seq<string>)
    ensures |r| <= |xs|
    ensures forall i :: 0 <= i < |r| ==> r[i] != []
  {
    if |xs| == 0 then []
    else (if Strip(xs[0]) != [] then [Strip(xs[0])] else []) + StrippedNonBlank(xs[1..])
  }

  lemma {:induction false} StrippedNonBlankSnoc(xs: seq<string>, x: string)
    ensures StrippedNonBlank(xs + [x]) == StrippedNonBlank(xs) + (if Strip(x) != [] then [Strip(x)] else [])
    decreases |xs|
  {
    if |xs| == 0 {
      assert xs + [x] == [x];
    } else {
      assert (xs + [x])[1..] == xs[1..] + [x];
      StrippedNonBlankSnoc(xs[1..], x);
    }
  }

  /** Blank pieces are all dropped. */
  lemma {:induction false} BlankPiecesDropped(xs: seq<string>)
    requires forall i :: 0 <= i < |xs| ==> IsBlank(xs[i])
    ensures StrippedNonBlank(xs) == []
    decreases |xs|
  {
    if |xs| > 0 {
      StripEmptyIff(xs[0]);
      BlankPiecesDropped(xs[1..]);
    }
  }

  /** Each kept piece is stripped and free of the characters its source piece avoided. */
  lemma {:induction false} StrippedNonBlankShape(xs: seq<string>, cs: set<char>)
    requires forall i :: 0 <= i < |xs| ==> NoneIn(xs[i], cs)
    ensures forall i :: 0 <= i < |StrippedNonBlank(xs)| ==>
      IsStripped(StrippedNonBlank(xs)[i]) && NoneIn(StrippedNonBlank(xs)[i], cs)
  {
    if |xs| > 0 {
      assert NoneIn(xs[0], cs);
      StripChars(xs[0], cs);
      StripIsStripped(xs[0]);
      StrippedNonBlankShape(xs[1..], cs);
      var head := if Strip(xs[0]) != [] then [Strip(xs[0])] else [];
      var rest := StrippedNonBlank(xs[1..]);
      var r := StrippedNonBlank(xs);
      assert r == head + rest;
      forall i | 0 <= i < |r| ensures IsStripped(r[i]) && NoneIn(r[i], cs) {
        if i >= |head| { assert r[i] == rest[i - |head|]; }
      }
    }
  }

  /** A text is kept exactly when it is non-empty and the stripped form of
      some piece. */
  lemma {:induction false} StrippedNonBlankContents(xs: seq<string>, x: string)
    ensures x in StrippedNonBlank(xs) <==> x != "" && exists i :: 0 <= i < |xs| && Strip(xs[i]) == x
    decreases |xs|
  {
    if |xs| > 0 {
      StrippedNonBlankContents(xs[1..], x);
      if x != "" && Strip(xs[0]) != x && exists i :: 0 <= i < |xs| && Strip(xs[i]) == x {
        var i :| 0 <= i < |xs| && Strip(xs[i]) == x;
        assert xs[1..][i - 1] == xs[i];
      }
      if exists i :: 0 <= i < |xs[1..]| && Strip(xs[1..][i]) == x {
        var i :| 0 <= i < |xs[1..]| && Strip(xs[1..][i]) == x;
        assert xs[i + 1] == xs[1..][i];
      }
    }
  }

  // ---------------------------------------------------------------- case, replace

  function LowerChar(c: char): char
  {
    if 'A' <= c <= 'Z' then (c as int + 32) as char else c
  }

  /** Python's `s.lower()`, for ASCII letters. */
  function Lower(s: string): (r: string)
    ensures |r| == |s| && forall k :: 0 <= k < |s| ==> r[k] == LowerChar(s[k])
  {
    if |s| == 0 then "" else [LowerChar(s[0])] + Lower(s[1..])
  }

  /** Every character of `cs` replaced by `c`: `re.sub('[cs]', c, s)`. */
  function ReplaceChars(s: string, cs: set<char>, c: char): (r: string)
    requires c !in cs
    ensures |r| == |s| && NoneIn(r, cs)
    ensures forall k :: 0 <= k < |s| ==> r[k] == (if s[k] in cs then c else s[k])
  {
    if |s| == 0 then "" else [if s[0] in cs then c else s[0]] + ReplaceChars(s[1..], cs, c)
  }

  predicate StartsWith(s: string, p: string) { |p| <= |s| && s[..|p|] == p }

  predicate OccursAt(s: string, pat: string, i: int)
  {
    0 <= i <= |s| - |pat| && s[i..i + |pat|] == pat
  }

  /** `pat in s` for strings. */
  predicate Contains(s: string, pat: string) { exists i | 0 <= i <= |s| - |pat| :: OccursAt(s, pat, i) }

  /** Python's `s.replace(pat, rep)`: every non-overlapping occurrence, left to right. */
  function ReplaceAll(s: string, pat: string, rep: string): string
    requires |pat| > 0
    decreases |s|
  {
    if |s| < |pat| then s
    else if s[..|pat|] == pat then rep + ReplaceAll(s[|pat|..], pat, rep)
    else [s[0]] + ReplaceAll(s[1..], pat, rep)
  }

  /** A text without the pattern is left as it is by `replace`. */
  lemma {:induction false} ReplaceAllAbsent(s: string, pat: string, rep: string)
    requires |pat| > 0 && !Contains(s, pat)
    ensures ReplaceAll(s, pat, rep) == s
    decreases |s|
  {
    if |s| >= |pat| {
      assert !OccursAt(s, pat, 0);
      assert s[0..|pat|] == s[..|pat|];
      forall i | 0 <= i <= |s| - 1 - |pat| ensures !OccursAt(s[1..], pat, i) {
        assert s[1..][i..i + |pat|] == s[i + 1..i + 1 + |pat|];
        assert !OccursAt(s, pat, i + 1);
      }
      ReplaceAllAbsent(s[1..], pat, rep);
    }
  }

  // ---------------------------------------------------------------- numbers

  predicate IsDigit(c: char) { '0' <= c <= '9' }

  predicate AllDigits(s: string) { forall k :: 0 <= k < |s| ==> IsDigit(s[k]) }

  function DigitChar(d: nat): char
    requires d < 10
  {
    ('0' as int + d) as char
  }

  /** Decimal digits of `n`, no leading zeros: Python's `str(n)` for `n >= 0`. */
  function NatToString(n: nat): (r: string)
    ensures |r| >= 1 && AllDigits(r)
    ensures n < 10 <==> |r| == 1
    ensures n >= 10 ==> r[0] != '0'
    decreases n
  {
    if n < 10 then [DigitChar(n)] else NatToString(n / 10) + [DigitChar(n % 10)]
  }

  /** Python's `str(i)`. */
  function IntToString(i: int): string
  {
    if i < 0 then "-" + NatToString(-i) else NatToString(i)
  }

  /** The value of a string of ASCII decimal digits (leading zeros allowed). */
  function DigitsValue(s: string): nat
    requires AllDigits(s)
  {
    if |s| == 0 then 0 else 10 * DigitsValue(s[..|s| - 1]) + (s[|s| - 1] as int - '0' as int)
  }

  lemma {:induction false} NatToStringValue(n: nat)
    ensures DigitsValue(NatToString(n)) == n
    decreases n
  {
    if n >= 10 {
      var s := NatToString(n);
      assert s[..|s| - 1] == NatToString(n / 10);
      NatToStringValue(n / 10);
    }
  }

  /** Python's `f"{i:02d}"`: at least two characters, zero-padded, sign first. */
  function Pad2(i: int): (r: string)
    ensures 0 <= i < 100 ==> |r| == 2 && AllDigits(r)
  {
    if 0 <= i < 10 then "0" + NatToString(i) else IntToString(i)
  }

  lemma Pad2Value(i: int)
    requires 0 <= i < 100
    ensures AllDigits(Pad2(i)) && DigitsValue(Pad2(i)) == i
  {
    NatToStringValue(i);
    if i < 10 {
      assert Pad2(i)[..1] == "0";
    }
  }

  /** Python's `int(s)` on a string: surrounding whitespace, an optional sign and
      at least one ASCII digit; anything else is a `ValueError`, here `None`. */
  function ParseInt(s: string): Option<int>
  {
    var t := Strip(s);
    if |t| > 0 && AllDigits(t) then Some(DigitsValue(t))
    else if |t| > 1 && (t[0] == '-' || t[0] == '+') && AllDigits(t[1..]) then
      var d: int := DigitsValue(t[1..]);
      var v: int := if t[0] == '-' then -d else d;
      Some(v)
    else None
  }

  /** A plain run of digits parses to its decimal value. */
  lemma ParseIntDigits(s: string)
    requires |s| > 0 && AllDigits(s)
    ensures ParseInt(s) == Some(DigitsValue(s))
  {
    assert !IsSpace(s[0]) && !IsSpace(s[|s| - 1]);
    TrimUnchanged(s, Whitespace);
  }
}
