/** File naming for renamed podcasts: `sanitize_filename`, and the choice of
    new names in `rename_podcast_files`, where the file system is a finite set
    of existing paths and a rename either succeeds or raises. */
module FileNaming {
  import opened Text
  import Loader

  /** The characters `re.sub(r'[/\\:*?"<>|]', '_', name)` replaces. */
  const Illegal: set<char> := {'/', '\\', ':', '*', '?', '"', '<', '>', '|'}

  const Untitled := "未命名"

  const DefaultMaxLength := 100

  /** Python's `s[:k]` for any integer `k` (a negative `k` counts from the end). */
  function SliceTo(s: string, k: int): (r: string)
    ensures StartsWith(s, r)
    ensures 0 <= k ==> |r| == if k < |s| then k else |s|
  {
    if k >= |s| then s
    else if k >= 0 then s[..k]
    else if -k >= |s| then ""
    else s[..|s| + k]
  }

  /** Illegal characters replaced by `_`, then surrounding whitespace trimmed. */
  function Cleaned(name: string): string
  {
    Strip(ReplaceChars(name, Illegal, '_'))
  }

  /** `sanitize_filename(name, max_length)`. */
  function SanitizeFilename(name: string, maxLength: int): string
  {
    var clean := Cleaned(name);
    var cut := if |clean| > maxLength then SliceTo(clean, maxLength) else clean;
    if cut == "" then Untitled else cut
  }

  /** The result is never empty and free of illegal characters; it is the
      fallback name or a prefix of the replaced-then-trimmed input (trimming
      comes before truncation), and for a positive limit that prefix is the
      first `maxLength` characters of it. */
  lemma SanitizeSpec(name: string, maxLength: int)
    ensures SanitizeFilename(name, maxLength) != ""
    ensures NoneIn(SanitizeFilename(name, maxLength), Illegal)
    ensures SanitizeFilename(name, maxLength) == Untitled || StartsWith(Cleaned(name), SanitizeFilename(name, maxLength))
    ensures maxLength > 0 && Cleaned(name) != "" ==>
      SanitizeFilename(name, maxLength) == Cleaned(name)[..if |Cleaned(name)| < maxLength then |Cleaned(name)| else maxLength]
    ensures Cleaned(name) == "" ==> SanitizeFilename(name, maxLength) == Untitled
  {
    var replaced := ReplaceChars(name, Illegal, '_');
    StripChars(replaced, Illegal);
    var clean := Cleaned(name);
    var r := SanitizeFilename(name, maxLength);
    if r != Untitled {
      assert StartsWith(clean, r);
      forall k | 0 <= k < |r| ensures r[k] !in Illegal {
        assert r[k] == clean[k];
      }
    }
  }

  /** A name with no illegal character, no surrounding whitespace and at most
      `maxLength` characters comes back unchanged. */
  lemma SanitizeUnchanged(name: string, maxLength: int)
    requires name != "" && NoneIn(name, Illegal) && IsStripped(name) && |name| <= maxLength
    ensures SanitizeFilename(name, maxLength) == name
  {
    var replaced := ReplaceChars(name, Illegal, '_');
    assert replaced == name;
    TrimUnchanged(name, Whitespace);
  }

  // ---------------------------------------------------------------- paths

  /** `old_path.parent / name`: a directory and a file name in it. */
  datatype FilePath = FilePath(dir: string, name: string)

  /** `Path.stem`: the name without its suffix. */
  function Stem(name: string): string
  {
    var i := Loader.LastDot(name);
    if 0 < i < |name| - 1 then name[..i] else name
  }

  /** The note-type suffix kept by a renamed note, by the first test that
      matches in the order `_auto`, `_qwen_ai`, `_deepseek_ai`, `_ai`. */
  function NoteKind(stem: string): string
  {
    if Contains(stem, "_auto") then "_auto"
    else if Contains(stem, "_qwen_ai") then "_qwen_ai"
    else if Contains(stem, "_deepseek_ai") then "_deepseek_ai"
    else if Contains(stem, "_ai") then "_ai"
    else ""
  }

  lemma ContainsTransitive(s: string, a: string, b: string)
    requires Contains(s, a) && Contains(a, b)
    ensures Contains(s, b)
  {
    var i :| 0 <= i <= |s| - |a| && OccursAt(s, a, i);
    var j :| 0 <= j <= |a| - |b| && OccursAt(a, b, j);
    forall k | 0 <= k < |b| ensures s[i + j + k] == b[k] {
      assert s[i + j + k] == s[i..i + |a|][j + k] == a[j + k];
      assert a[j + k] == a[j..j + |b|][k];
    }
    assert s[i + j..i + j + |b|] == b;
    assert OccursAt(s, b, i + j);
  }

  /** The kept suffix is one of the four kinds or nothing; a kind is kept only
      when the stem contains it, `_auto` wins over all others, and the suffix
      is dropped exactly when the stem contains neither `_auto` nor `_ai`
      (both longer AI kinds contain `_ai`). */
  lemma NoteKindSpec(stem: string)
    ensures NoteKind(stem) in {"_auto", "_qwen_ai", "_deepseek_ai", "_ai", ""}
    ensures NoteKind(stem) != "" ==> Contains(stem, NoteKind(stem))
    ensures Contains(stem, "_auto") ==> NoteKind(stem) == "_auto"
    ensures NoteKind(stem) == "" <==> !Contains(stem, "_auto") && !Contains(stem, "_ai")
  {
    if Contains(stem, "_qwen_ai") {
      assert OccursAt("_qwen_ai", "_ai", 5);
      ContainsTransitive(stem, "_qwen_ai", "_ai");
    }
    if Contains(stem, "_deepseek_ai") {
      assert OccursAt("_deepseek_ai", "_ai", 9);
      ContainsTransitive(stem, "_deepseek_ai", "_ai");
    }
  }

  // ---------------------------------------------------------------- transcript targets

  /** The `k`-th candidate name of a transcript: `title + ext`, then
      `title_1 + ext`, `title_2 + ext`, ... */
  function TranscriptName(title: string, ext: string, k: nat): string
  {
    if k == 0 then title + ext else title + "_" + NatToString(k) + ext
  }

  lemma TranscriptNameInjective(title: string, ext: string, j: nat, k: nat)
    requires TranscriptName(title, ext, j) == TranscriptName(title, ext, k)
    ensures j == k
  {
    var a := TranscriptName(title, ext, j);
    if j > 0 && k > 0 {
      var nj := NatToString(j);
      var nk := NatToString(k);
      assert |nj| == |nk|;
      assert nj == a[|title| + 1..|title| + 1 + |nj|];
      assert nk == a[|title| + 1..|title| + 1 + |nk|];
      NatToStringValue(j);
      NatToStringValue(k);
    }
  }

  function TranscriptPath(dir: string, title: string, ext: string, k: nat): FilePath
  {
    FilePath(dir, TranscriptName(title, ext, k))
  }

  /** Candidate `k` is where the transcript search stops: it is free or is
      the file itself, and every earlier candidate is taken by another file. */
  predicate TranscriptFirstFree(fs: set<FilePath>, orig: FilePath, title: string, ext: string, k: nat)
  {
    (TranscriptPath(orig.dir, title, ext, k) !in fs || TranscriptPath(orig.dir, title, ext, k) == orig) &&
    forall j :: 0 <= j < k ==> TranscriptPath(orig.dir, title, ext, j) in fs && TranscriptPath(orig.dir, title, ext, j) != orig
  }

  /** The first `n` transcript candidates. */
  function TranscriptPaths(dir: string, title: string, ext: string, n: nat): set<FilePath>
  {
    if n == 0 then {} else TranscriptPaths(dir, title, ext, n - 1) + {TranscriptPath(dir, title, ext, n - 1)}
  }

  lemma TranscriptPathsFresh(dir: string, title: string, ext: string, n: nat)
    ensures TranscriptPath(dir, title, ext, n) !in TranscriptPaths(dir, title, ext, n)
  {
    var p := TranscriptPath(dir, title, ext, n);
    if p in TranscriptPaths(dir, title, ext, n) {
      TranscriptPathsBelow(dir, title, ext, n, p);
      var j :| 0 <= j < n && p == TranscriptPath(dir, title, ext, j);
      TranscriptNameInjective(title, ext, j, n);
    }
  }

  lemma {:induction false} TranscriptPathsBelow(dir: string, title: string, ext: string, n: nat, p: FilePath)
    requires p in TranscriptPaths(dir, title, ext, n)
    ensures exists j :: 0 <= j < n && p == TranscriptPath(dir, title, ext, j)
  {
    assert n > 0;
    var last := TranscriptPath(dir, title, ext, n - 1);
    if p != last {
      assert p in TranscriptPaths(dir, title, ext, n - 1);
      TranscriptPathsBelow(dir, title, ext, n - 1, p);
    }
  }

  lemma {:induction false} TranscriptPathsAll(dir: string, title: string, ext: string, n: nat)
    ensures forall j :: 0 <= j < n ==> TranscriptPath(dir, title, ext, j) in TranscriptPaths(dir, title, ext, n)
  {
    if n > 0 {
      TranscriptPathsAll(dir, title, ext, n - 1);
    }
  }

  /** A taken candidate joins the tried ones, which leaves fewer untried paths. */
  lemma TranscriptStep(fs: set<FilePath>, orig: FilePath, title: string, ext: string, n: nat)
    requires TranscriptPaths(orig.dir, title, ext, n) <= fs && orig !in TranscriptPaths(orig.dir, title, ext, n)
    requires TranscriptPath(orig.dir, title, ext, n) in fs && TranscriptPath(orig.dir, title, ext, n) != orig
    ensures TranscriptPaths(orig.dir, title, ext, n + 1) <= fs && orig !in TranscriptPaths(orig.dir, title, ext, n + 1)
    ensures |fs - TranscriptPaths(orig.dir, title, ext, n + 1)| < |fs - TranscriptPaths(orig.dir, title, ext, n)|
  {
    var tried := TranscriptPaths(orig.dir, title, ext, n);
    var p := TranscriptPath(orig.dir, title, ext, n);
    TranscriptPathsFresh(orig.dir, title, ext, n);
    assert fs - tried == (fs - (tried + {p})) + {p};
  }

  /** The new path of a renamed transcript (the `while` loop of the first
      `for` in `rename_podcast_files`). */
  method TranscriptTarget(fs: set<FilePath>, orig: FilePath, title: string) returns (target: FilePath, k: nat)
    ensures target.dir == orig.dir
    ensures target == TranscriptPath(orig.dir, title, Loader.Suffix(orig.name), k)
    ensures TranscriptFirstFree(fs, orig, title, Loader.Suffix(orig.name), k)
  {
    var ext := Loader.Suffix(orig.name);
    var newName := title + ext;
    target := FilePath(orig.dir, newName);
    var counter := 1;
    while target in fs && target != orig
      invariant counter >= 1 && target == TranscriptPath(orig.dir, title, ext, counter - 1)
      invariant TranscriptPaths(orig.dir, title, ext, counter - 1) <= fs
      invariant orig !in TranscriptPaths(orig.dir, title, ext, counter - 1)
      decreases |fs - TranscriptPaths(orig.dir, title, ext, counter - 1)|
    {
      TranscriptStep(fs, orig, title, ext, counter - 1);
      newName := title + "_" + NatToString(counter) + ext;
      target := FilePath(orig.dir, newName);
      counter := counter + 1;
    }
    k := counter - 1;
    TranscriptPathsAll(orig.dir, title, ext, k);
  }

  // ---------------------------------------------------------------- note targets

  /** The `k`-th candidate name of a note: the first is `title + kind + .md`;
      each next one removes every `.md` from the previous name and appends
      `_k.md`, so counters accumulate (`t_auto_1.md`, `t_auto_1_2.md`, ...). */
  function NoteName(first: string, k: nat): string
  {
    if k == 0 then first else ReplaceAll(NoteName(first, k - 1), ".md", "") + "_" + NatToString(k) + ".md"
  }

  /** The number of `.` characters. */
  function Dots(s: string): nat
  {
    if |s| == 0 then 0 else (if s[0] == '.' then 1 else 0) + Dots(s[1..])
  }

  lemma {:induction false} DotsAppend(a: string, b: string)
    ensures Dots(a + b) == Dots(a) + Dots(b)
    decreases |a|
  {
    if |a| > 0 {
      assert (a + b)[0] == a[0];
      assert (a + b)[1..] == a[1..] + b;
      DotsAppend(a[1..], b);
    } else {
      assert a + b == b;
    }
  }

  lemma DigitsNoDots(s: string)
    requires AllDigits(s)
    ensures Dots(s) == 0
  {
    if |s| > 0 {
      DigitsNoDots(s[1..]);
    }
  }

  /** Removing `.md` removes one dot and three characters per occurrence. */
  lemma {:induction false} RemoveMdCount(s: string)
    ensures Dots(ReplaceAll(s, ".md", "")) <= Dots(s)
    ensures |ReplaceAll(s, ".md", "")| + 3 * (Dots(s) - Dots(ReplaceAll(s, ".md", ""))) == |s|
    ensures |s| >= 3 && s[|s| - 3..] == ".md" ==> Dots(ReplaceAll(s, ".md", "")) < Dots(s)
    decreases |s|
  {
    if |s| >= 3 {
      if s[..3] == ".md" {
        var t := s[3..];
        assert s == ".md" + t;
        RemoveMdCount(t);
        assert ReplaceAll(s, ".md", "") == "" + ReplaceAll(t, ".md", "");
        assert "" + ReplaceAll(t, ".md", "") == ReplaceAll(t, ".md", "");
        DotsAppend(".md", t);
        assert Dots(".md") == 1;
      } else {
        var t := s[1..];
        assert s == [s[0]] + t;
        RemoveMdCount(t);
        assert ReplaceAll(s, ".md", "") == [s[0]] + ReplaceAll(t, ".md", "");
        DotsAppend([s[0]], t);
        DotsAppend([s[0]], ReplaceAll(t, ".md", ""));
        if s[|s| - 3..] == ".md" {
          assert |s| > 3;
          assert t[|t| - 3..] == s[|s| - 3..];
        }
      }
    }
  }

  /** One step of the note search keeps the number of dots or lowers it,
      and when it keeps it the name grows. */
  lemma NoteStep(n: string, k: nat)
    requires |n| >= 3 && n[|n| - 3..] == ".md"
    ensures var m := ReplaceAll(n, ".md", "") + "_" + NatToString(k) + ".md";
      |m| >= 3 && m[|m| - 3..] == ".md" &&
      (Dots(m) < Dots(n) || (Dots(m) == Dots(n) && |m| > |n|))
  {
    var r := ReplaceAll(n, ".md", "");
    var d := NatToString(k);
    RemoveMdCount(n);
    DigitsNoDots(d);
    DotsAppend(r, "_");
    DotsAppend(r + "_", d);
    DotsAppend(r + "_" + d, ".md");
  }

  /** The paths of `fs` whose name has at least `n` characters. */
  function LongNames(fs: set<FilePath>, n: nat): set<FilePath>
  {
    set p | p in fs && |p.name| >= n
  }

  lemma LongNamesShrink(fs: set<FilePath>, p: FilePath, n: nat)
    requires p in fs && |p.name| < n
    ensures |LongNames(fs, n)| < |LongNames(fs, |p.name|)|
  {
    var big := LongNames(fs, |p.name|);
    assert p in big;
    var small := LongNames(fs, n);
    assert small <= big - {p};
    assert big - {p} == small + ((big - {p}) - small);
    assert |big - {p}| == |big| - 1;
  }

  function NotePath(dir: string, first: string, k: nat): FilePath
  {
    FilePath(dir, NoteName(first, k))
  }

  /** Candidate `k` is where the note search stops: it is free or is the file
      itself, and every earlier candidate is taken by another file. */
  predicate NoteFirstFree(fs: set<FilePath>, orig: FilePath, first: string, k: nat)
  {
    (NotePath(orig.dir, first, k) !in fs || NotePath(orig.dir, first, k) == orig) &&
    forall j :: 0 <= j < k ==> NotePath(orig.dir, first, j) in fs && NotePath(orig.dir, first, j) != orig
  }

  /** The first `n` note candidates. */
  function NotePaths(dir: string, first: string, n: nat): set<FilePath>
  {
    if n == 0 then {} else NotePaths(dir, first, n - 1) + {NotePath(dir, first, n - 1)}
  }

  lemma {:induction false} NotePathsAll(dir: string, first: string, n: nat)
    ensures forall j :: 0 <= j < n ==> NotePath(dir, first, j) in NotePaths(dir, first, n)
  {
    if n > 0 {
      NotePathsAll(dir, first, n - 1);
    }
  }

  lemma NotePathsStep(fs: set<FilePath>, orig: FilePath, first: string, n: nat)
    requires NotePaths(orig.dir, first, n) <= fs && orig !in NotePaths(orig.dir, first, n)
    requires NotePath(orig.dir, first, n) in fs && NotePath(orig.dir, first, n) != orig
    ensures NotePaths(orig.dir, first, n + 1) <= fs && orig !in NotePaths(orig.dir, first, n + 1)
  {
  }

  /** The first candidate of a note: the title, the kept kind and `.md`. */
  function FirstNoteName(title: string, orig: FilePath): string
  {
    title + NoteKind(Stem(orig.name)) + ".md"
  }

  /** The new path of a renamed note (the `while` loop of the second `for` in
      `rename_podcast_files`). */
  method NoteTarget(fs: set<FilePath>, orig: FilePath, title: string) returns (target: FilePath, k: nat)
    ensures target.dir == orig.dir
    ensures target == NotePath(orig.dir, FirstNoteName(title, orig), k)
    ensures NoteFirstFree(fs, orig, FirstNoteName(title, orig), k)
  {
    var first := title + NoteKind(Stem(orig.name)) + ".md";
    var newName := first;
    target := FilePath(orig.dir, newName);
    var counter := 1;
    while target in fs && target != orig
      invariant counter >= 1 && newName == NoteName(first, counter - 1) && target == FilePath(orig.dir, newName)
      invariant |newName| >= 3 && newName[|newName| - 3..] == ".md"
      invariant NotePaths(orig.dir, first, counter - 1) <= fs && orig !in NotePaths(orig.dir, first, counter - 1)
      decreases Dots(newName), |LongNames(fs, |newName|)|
    {
      NotePathsStep(fs, orig, first, counter - 1);
      var baseName := ReplaceAll(newName, ".md", "");
      NoteStep(newName, counter);
      var next := baseName + "_" + NatToString(counter) + ".md";
      if Dots(next) == Dots(newName) {
        LongNamesShrink(fs, target, |next|);
      }
      newName := next;
      target := FilePath(orig.dir, newName);
      counter := counter + 1;
    }
    k := counter - 1;
    NotePathsAll(orig.dir, first, k);
  }

  /** A leading character other than `.` is kept by `replace`. */
  lemma RemoveMdKeeps(c: char, y: string)
    requires c != '.'
    ensures ReplaceAll([c] + y, ".md", "") == [c] + ReplaceAll(y, ".md", "")
  {
    var s := [c] + y;
    if |s| >= 3 {
      assert s[..3][0] == c;
      assert s[1..] == y;
    }
  }

  /** A leading dot-free text is kept by `replace`. */
  lemma {:induction false} RemoveMdPrefix(x: string, y: string)
    requires '.' !in x
    ensures ReplaceAll(x + y, ".md", "") == x + ReplaceAll(y, ".md", "")
    decreases |x|
  {
    if |x| == 0 {
      assert x + y == y;
    } else {
      assert x + y == [x[0]] + (x[1..] + y);
      RemoveMdKeeps(x[0], x[1..] + y);
      RemoveMdPrefix(x[1..], y);
      assert x == [x[0]] + x[1..];
    }
  }

  /** A leading `.md` is removed by `replace`. */
  lemma RemoveMdLeading(y: string)
    ensures ReplaceAll(".md" + y, ".md", "") == ReplaceAll(y, ".md", "")
  {
    var s := ".md" + y;
    assert s[..3] == ".md" && s[3..] == y;
  }

  /** Removing `.md` from a dot-free name followed by `.md` gives the name. */
  lemma DropMd(x: string)
    requires '.' !in x
    ensures ReplaceAll(x + ".md", ".md", "") == x
  {
    RemoveMdPrefix(x, ".md");
    RemoveMdLeading("");
    assert ".md" + "" == ".md";
  }

  /** The next candidate after a dot-free name ending in `.md`. */
  lemma NoteNameNext(first: string, k: nat, x: string)
    requires k > 0 && NoteName(first, k - 1) == x + ".md" && '.' !in x
    ensures NoteName(first, k) == x + "_" + NatToString(k) + ".md"
  {
    DropMd(x);
  }

  /** The counters of the note search accumulate: after `x.md` come `x_1.md`
      and `x_1_2.md`, for any dot-free `x` (such as `t_auto`). */
  lemma NoteNamesAccumulate(x: string)
    requires '.' !in x
    ensures NoteName(x + ".md", 1) == x + "_" + NatToString(1) + ".md"
    ensures NoteName(x + ".md", 2) == x + "_" + NatToString(1) + "_" + NatToString(2) + ".md"
  {
    NoteNameNext(x + ".md", 1, x);
    NoteNameNext(x + ".md", 2, x + "_" + NatToString(1));
  }

  /** `replace('.md', '')` removes a `.md` inside the title too: after
      `a.md` + `b` + `.md` comes `a` + `b` + `_1.md`, for dot-free `a` and `b`. */
  lemma NoteNameInnerMd(a: string, b: string)
    requires '.' !in a && '.' !in b
    ensures NoteName(a + ".md" + b + ".md", 1) == a + b + "_1.md"
  {
    assert NatToString(1) == "1";
    assert a + ".md" + b + ".md" == a + (".md" + (b + ".md"));
    RemoveMdPrefix(a, ".md" + (b + ".md"));
    RemoveMdLeading(b + ".md");
    DropMd(b);
  }

  // ---------------------------------------------------------------- renaming

  datatype Renamed = Renamed(orig: FilePath, dest: FilePath)

  datatype RenameResult = RenameResult(success: bool, renamed: seq<Renamed>, failed: seq<FilePath>)

  /** The file system after the renames, in order. */
  function ApplyRenames(fs: set<FilePath>, rs: seq<Renamed>): set<FilePath>
    decreases |rs|
  {
    if |rs| == 0 then fs
    else var last := rs[|rs| - 1]; ApplyRenames(fs, rs[..|rs| - 1]) - {last.orig} + {last.dest}
  }

  /** Whether an outcome is one the renaming loops can report: the flag is
      down exactly when a rename failed, every failure comes from `failing`,
      and every rename moves an input file, not in `failing`, to another path
      of its own directory. */
  predicate Reported(r: RenameResult, files: seq<FilePath>, failing: set<FilePath>)
  {
    (r.success <==> |r.failed| == 0) &&
    |r.renamed| + |r.failed| <= |files| &&
    (forall i :: 0 <= i < |r.failed| ==> r.failed[i] in files) &&
    (forall i :: 0 <= i < |r.renamed| ==>
      r.renamed[i].orig in files && r.renamed[i].orig !in failing &&
      r.renamed[i].orig != r.renamed[i].dest && r.renamed[i].orig.dir == r.renamed[i].dest.dir)
  }

  lemma ReportedMore(r: RenameResult, files: seq<FilePath>, orig: FilePath, failing: set<FilePath>)
    requires Reported(r, files, failing)
    ensures Reported(r, files + [orig], failing)
  {
  }

  lemma ReportedFail(r: RenameResult, files: seq<FilePath>, orig: FilePath, failing: set<FilePath>)
    requires Reported(r, files, failing)
    ensures Reported(RenameResult(false, r.renamed, r.failed + [orig]), files + [orig], failing)
  {
  }

  lemma ReportedRename(r: RenameResult, files: seq<FilePath>, orig: FilePath, target: FilePath, failing: set<FilePath>)
    requires Reported(r, files, failing) && orig !in failing && orig != target && orig.dir == target.dir
    ensures Reported(r.(renamed := r.renamed + [Renamed(orig, target)]), files + [orig], failing)
  {
  }

  lemma ApplyRenamesSnoc(fs: set<FilePath>, rs: seq<Renamed>, r: Renamed)
    ensures ApplyRenames(fs, rs + [r]) == ApplyRenames(fs, rs) - {r.orig} + {r.dest}
  {
    assert (rs + [r])[..|rs|] == rs;
  }

  lemma TakeOneMore(files: seq<FilePath>, i: nat)
    requires i < |files|
    ensures files[..i + 1] == files[..i] + [files[i]]
  {
  }

  lemma PrefixStep(prior: seq<FilePath>, files: seq<FilePath>, i: nat)
    requires i < |files|
    ensures prior + files[..i + 1] == (prior + files[..i]) + [files[i]]
  {
    assert files[..i + 1] == files[..i] + [files[i]];
  }

  /** Where the search sends `orig` in the file system `fs`: the first
      candidate name (of a note when `notes` holds, else of a transcript)
      that is free or is `orig` itself. */
  ghost predicate IsTarget(fs: set<FilePath>, orig: FilePath, title: string, notes: bool, target: FilePath)
  {
    if notes then
      exists k: nat :: NoteFirstFree(fs, orig, FirstNoteName(title, orig), k) &&
        target == NotePath(orig.dir, FirstNoteName(title, orig), k)
    else
      exists k: nat :: TranscriptFirstFree(fs, orig, title, Loader.Suffix(orig.name), k) &&
        target == TranscriptPath(orig.dir, title, Loader.Suffix(orig.name), k)
  }

  lemma TranscriptFirstFreeUnique(fs: set<FilePath>, orig: FilePath, title: string, ext: string, j: nat, k: nat)
    requires TranscriptFirstFree(fs, orig, title, ext, j) && TranscriptFirstFree(fs, orig, title, ext, k)
    ensures j == k
  {
  }

  lemma NoteFirstFreeUnique(fs: set<FilePath>, orig: FilePath, first: string, j: nat, k: nat)
    requires NoteFirstFree(fs, orig, first, j) && NoteFirstFree(fs, orig, first, k)
    ensures j == k
  {
  }

  /** The search has one outcome: a file has at most one target in a given
      file system. */
  lemma TargetUnique(fs: set<FilePath>, orig: FilePath, title: string, notes: bool, t1: FilePath, t2: FilePath)
    requires IsTarget(fs, orig, title, notes, t1) && IsTarget(fs, orig, title, notes, t2)
    ensures t1 == t2
  {
    if notes {
      var first := FirstNoteName(title, orig);
      var j: nat :| NoteFirstFree(fs, orig, first, j) && t1 == NotePath(orig.dir, first, j);
      var k: nat :| NoteFirstFree(fs, orig, first, k) && t2 == NotePath(orig.dir, first, k);
      NoteFirstFreeUnique(fs, orig, first, j, k);
    } else {
      var ext := Loader.Suffix(orig.name);
      var j: nat :| TranscriptFirstFree(fs, orig, title, ext, j) && t1 == TranscriptPath(orig.dir, title, ext, j);
      var k: nat :| TranscriptFirstFree(fs, orig, title, ext, k) && t2 == TranscriptPath(orig.dir, title, ext, k);
      TranscriptFirstFreeUnique(fs, orig, title, ext, j, k);
    }
  }

  /** What the `try` block does with one file and its target: nothing when
      the target is the file itself; a file in `failing`, or one no longer in
      the file system (moved already when it was listed twice), raises, so it
      is recorded as failed and the flag drops; any other file is moved and
      the move recorded. */
  function RenameStep(r: RenameResult, fs: set<FilePath>, orig: FilePath, target: FilePath, failing: set<FilePath>): (RenameResult, set<FilePath>)
  {
    if orig == target then (r, fs)
    else if orig in failing || orig !in fs then (RenameResult(false, r.renamed, r.failed + [orig]), fs)
    else (r.(renamed := r.renamed + [Renamed(orig, target)]), fs - {orig} + {target})
  }

  /** The files handled in order, each with its target. */
  function Renaming(files: seq<FilePath>, targets: seq<FilePath>, failing: set<FilePath>,
                    r0: RenameResult, fs0: set<FilePath>): (RenameResult, set<FilePath>)
    requires |files| == |targets|
    decreases |files|
  {
    if |files| == 0 then (r0, fs0)
    else
      var n := |files| - 1;
      var before := Renaming(files[..n], targets[..n], failing, r0, fs0);
      RenameStep(before.0, before.1, files[n], targets[n], failing)
  }

  /** When the transcript and note directories are one directory, a note
      file is also listed as a transcript: the transcript loop moves it, and
      the note loop's rename of the old path then raises, so the call fails. */
  lemma SharedDirectoryFails(x: FilePath, t1: FilePath, t2: FilePath)
    requires x != t1 && x != t2
    ensures var mid := Renaming([x], [t1], {}, Start, {x});
            var end := Renaming([x], [t2], {}, mid.0, mid.1);
            mid.0.success && mid.1 == {t1} &&
            !end.0.success && end.0.failed == [x] && end.0.renamed == [Renamed(x, t1)] && end.1 == {t1}
  {
    assert [x][..0] == [];
  }

  /** Each file's target is the one the search finds in the file system as
      the earlier files have left it. */
  ghost predicate Chosen(files: seq<FilePath>, targets: seq<FilePath>, notes: bool, title: string,
                         failing: set<FilePath>, r0: RenameResult, fs0: set<FilePath>)
    requires |files| == |targets|
    decreases |files|
  {
    |files| == 0 ||
    (Chosen(files[..|files| - 1], targets[..|files| - 1], notes, title, failing, r0, fs0) &&
     IsTarget(Renaming(files[..|files| - 1], targets[..|files| - 1], failing, r0, fs0).1,
              files[|files| - 1], title, notes, targets[|files| - 1]))
  }

  lemma ChosenSnoc(files: seq<FilePath>, targets: seq<FilePath>, f: FilePath, t: FilePath, notes: bool, title: string,
                   failing: set<FilePath>, r0: RenameResult, fs0: set<FilePath>)
    requires |files| == |targets| && Chosen(files, targets, notes, title, failing, r0, fs0)
    requires IsTarget(Renaming(files, targets, failing, r0, fs0).1, f, title, notes, t)
    ensures Chosen(files + [f], targets + [t], notes, title, failing, r0, fs0)
    ensures Renaming(files + [f], targets + [t], failing, r0, fs0) ==
      RenameStep(Renaming(files, targets, failing, r0, fs0).0, Renaming(files, targets, failing, r0, fs0).1, f, t, failing)
  {
    assert (files + [f])[..|files|] == files;
    assert (targets + [t])[..|targets|] == targets;
  }

  /** The targets are determined: two choices for the same files agree, so
      the renamed file system and the report are determined too. */
  lemma {:induction false} ChosenUnique(files: seq<FilePath>, t1: seq<FilePath>, t2: seq<FilePath>, notes: bool, title: string,
                                        failing: set<FilePath>, r0: RenameResult, fs0: set<FilePath>)
    requires |files| == |t1| == |t2|
    requires Chosen(files, t1, notes, title, failing, r0, fs0) && Chosen(files, t2, notes, title, failing, r0, fs0)
    ensures t1 == t2
    ensures Renaming(files, t1, failing, r0, fs0) == Renaming(files, t2, failing, r0, fs0)
    decreases |files|
  {
    if |files| > 0 {
      var n := |files| - 1;
      ChosenUnique(files[..n], t1[..n], t2[..n], notes, title, failing, r0, fs0);
      TargetUnique(Renaming(files[..n], t1[..n], failing, r0, fs0).1, files[n], title, notes, t1[n], t2[n]);
      SameFrontAndLast(t1, t2);
    }
  }

  lemma SameFrontAndLast(a: seq<FilePath>, b: seq<FilePath>)
    requires |a| == |b| > 0 && a[..|a| - 1] == b[..|b| - 1] && a[|a| - 1] == b[|b| - 1]
    ensures a == b
  {
    assert a == a[..|a| - 1] + [a[|a| - 1]];
    assert b == b[..|b| - 1] + [b[|b| - 1]];
  }

  /** One `for` loop of `rename_podcast_files`: each file is moved to the
      first free candidate name (note names when `notes` holds) unless that is
      its own path; renaming a file in `failing` raises, which records the
      file as failed and lowers the success flag. */
  method RenameEach(files: seq<FilePath>, notes: bool, title: string, failing: set<FilePath>,
                    result0: RenameResult, fs0: set<FilePath>, ghost prior: seq<FilePath>, ghost start: set<FilePath>)
    returns (result: RenameResult, fs: set<FilePath>, ghost targets: seq<FilePath>)
    requires Reported(result0, prior, failing) && fs0 == ApplyRenames(start, result0.renamed)
    ensures |targets| == |files| && Chosen(files, targets, notes, title, failing, result0, fs0)
    ensures (result, fs) == Renaming(files, targets, failing, result0, fs0)
    ensures Reported(result, prior + files, failing) && fs == ApplyRenames(start, result.renamed)
  {
    result, fs := result0, fs0;
    targets := [];
    for i := 0 to |files|
      invariant |targets| == i && Chosen(files[..i], targets, notes, title, failing, result0, fs0)
      invariant (result, fs) == Renaming(files[..i], targets, failing, result0, fs0)
      invariant Reported(result, prior + files[..i], failing)
      invariant fs == ApplyRenames(start, result.renamed)
    {
      var orig := files[i];
      var target, tries;
      if notes {
        target, tries := NoteTarget(fs, orig, title);
      } else {
        target, tries := TranscriptTarget(fs, orig, title);
      }
      assert IsTarget(fs, orig, title, notes, target);
      ChosenSnoc(files[..i], targets, orig, target, notes, title, failing, result0, fs0);
      TakeOneMore(files, i);
      PrefixStep(prior, files, i);
      result, fs := RenameOne(result, fs, orig, target, failing, prior + files[..i], start);
      targets := targets + [target];
    }
    assert files[..|files|] == files;
  }

  /** The `try` block of one file: nothing happens when the target is the
      file itself; otherwise renaming a file in `failing` or a file that is no
      longer there raises, which records it as failed and lowers the flag, and
      any other rename is recorded and applied to the file system. */
  method RenameOne(result0: RenameResult, fs0: set<FilePath>, orig: FilePath, target: FilePath,
                   failing: set<FilePath>, ghost seen: seq<FilePath>, ghost start: set<FilePath>)
    returns (result: RenameResult, fs: set<FilePath>)
    requires Reported(result0, seen, failing) && fs0 == ApplyRenames(start, result0.renamed)
    requires orig.dir == target.dir
    ensures Reported(result, seen + [orig], failing) && fs == ApplyRenames(start, result.renamed)
    ensures (result, fs) == RenameStep(result0, fs0, orig, target, failing)
    ensures orig == target ==> result == result0
    ensures orig != target && (orig in failing || orig !in fs0) ==>
      result == RenameResult(false, result0.renamed, result0.failed + [orig]) && fs == fs0
    ensures orig != target && orig !in failing && orig in fs0 ==>
      result == result0.(renamed := result0.renamed + [Renamed(orig, target)])
  {
    result, fs := result0, fs0;
    if orig != target {
      if orig in failing || orig !in fs0 {
        ReportedFail(result0, seen, orig, failing);
        result := result0.(success := false, failed := result0.failed + [orig]);
      } else {
        ReportedRename(result0, seen, orig, target, failing);
        ApplyRenamesSnoc(start, result0.renamed, Renamed(orig, target));
        result := result0.(renamed := result0.renamed + [Renamed(orig, target)]);
        fs := fs0 - {orig} + {target};
      }
    } else {
      ReportedMore(result0, seen, orig, failing);
    }
  }

  /** The outcome of renaming nothing yet. */
  const Start := RenameResult(true, [], [])

  /** `rename_podcast_files` over the transcript files and then the note
      files found for the podcast, under the sanitised title: each transcript
      and then each note goes to its first free candidate in the file system
      as the earlier renames have left it. */
  method RenamePodcastFiles(newTitle: string, transcripts: seq<FilePath>, notes: seq<FilePath>,
                            fs0: set<FilePath>, failing: set<FilePath>)
    returns (result: RenameResult, fs: set<FilePath>, ghost transcriptTargets: seq<FilePath>, ghost noteTargets: seq<FilePath>)
    ensures |transcriptTargets| == |transcripts| && |noteTargets| == |notes|
    ensures Chosen(transcripts, transcriptTargets, false, SanitizeFilename(newTitle, DefaultMaxLength), failing, Start, fs0)
    ensures var mid := Renaming(transcripts, transcriptTargets, failing, Start, fs0);
      Chosen(notes, noteTargets, true, SanitizeFilename(newTitle, DefaultMaxLength), failing, mid.0, mid.1) &&
      (result, fs) == Renaming(notes, noteTargets, failing, mid.0, mid.1)
    ensures Reported(result, transcripts + notes, failing)
    ensures fs == ApplyRenames(fs0, result.renamed)
  {
    var title := SanitizeFilename(newTitle, DefaultMaxLength);
    result, fs, transcriptTargets := RenameEach(transcripts, false, title, failing, Start, fs0, [], fs0);
    assert [] + transcripts == transcripts;
    result, fs, noteTargets := RenameEach(notes, true, title, failing, result, fs, transcripts, fs0);
  }
}
