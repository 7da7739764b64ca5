/** `FileUploader`: which uploaded files are accepted (by lower-cased
    extension and by size), what kind of media a file is, and the name a
    saved upload gets. */
module FileUploader {
  import opened Wrappers
  import opened Text
  import opened Order
  import Loader

  const AudioFormats: set<string> := {".mp3", ".wav", ".m4a", ".flac", ".aac", ".opus"}

  const VideoFormats: set<string> := {".mp4", ".flv", ".webm", ".mkv", ".avi", ".mov"}

  /** `sorted(SUPPORTED_AUDIO_FORMATS | SUPPORTED_VIDEO_FORMATS)`. */
  const SupportedSorted: seq<string> :=
    [".aac", ".avi", ".flac", ".flv", ".m4a", ".mkv", ".mov", ".mp3", ".mp4", ".opus", ".wav", ".webm"]

  /** Two gigabytes. */
  const MaxFileSize: int := 2 * 1024 * 1024 * 1024

  const Gigabyte: nat := 1024 * 1024 * 1024

  /** `Path(filename).suffix.lower()`. */
  function Extension(filename: string): string
  {
    Lower(Loader.Suffix(filename))
  }

  /** The unsupported-format message. */
  function FormatMessage(ext: string): string
  {
    "不支持的文件格式 " + ext + "。支持的格式: " + Join(SupportedSorted, ", ")
  }

  /** `n / d` rounded to the nearest integer, ties to even. */
  function RoundHalfEven(n: nat, d: nat): nat
    requires d > 0
  {
    var q := n / d;
    var r := n % d;
    if 2 * r > d || (2 * r == d && q % 2 == 1) then q + 1 else q
  }

  /** `f"{size / 2**30:.2f}"`: the size in gigabytes with two decimals. The
      quotient is exact as a binary float for sizes below 2**53 bytes, and
      `.2f` rounds it correctly, ties to even. */
  function Gigabytes(size: nat): string
  {
    var h := RoundHalfEven(size * 100, Gigabyte);
    NatToString(h / 100) + "." + Pad2(h % 100)
  }

  /** The file-too-large message; the limit prints as `2`. */
  function SizeMessage(size: nat): string
  {
    "文件过大 (" + Gigabytes(size) + "GB)，最大支持 2GB"
  }

  /** `(is_valid, error_message)`. */
  datatype Verdict = Verdict(valid: bool, message: Option<string>)

  /** `validate_file`. */
  function ValidateFile(filename: string, fileSize: int): Verdict
  {
    var ext := Extension(filename);
    if ext !in AudioFormats && ext !in VideoFormats then Verdict(false, Some(FormatMessage(ext)))
    else if fileSize > MaxFileSize then Verdict(false, Some(SizeMessage(fileSize)))
    else Verdict(true, None)
  }

  /** A file is accepted exactly when its extension is one of the twelve and
      it is at most two gigabytes (two gigabytes exactly is accepted); an
      accepted file has no message and a refused one has one, and an
      unsupported extension is reported whatever the size. */
  lemma ValidateSpec(filename: string, fileSize: int)
    ensures ValidateFile(filename, fileSize).valid <==>
      Extension(filename) in AudioFormats + VideoFormats && fileSize <= MaxFileSize
    ensures ValidateFile(filename, fileSize).valid <==> ValidateFile(filename, fileSize).message.None?
    ensures Extension(filename) !in AudioFormats + VideoFormats ==>
      ValidateFile(filename, fileSize).message == Some(FormatMessage(Extension(filename)))
    ensures Extension(filename) in AudioFormats + VideoFormats && fileSize > MaxFileSize ==>
      ValidateFile(filename, fileSize).message == Some(SizeMessage(fileSize))
  {
  }

  /** No extension is both an audio and a video format. */
  lemma FormatsDisjoint()
    ensures AudioFormats !! VideoFormats
  {
    forall e | e in AudioFormats ensures e !in VideoFormats {
      if e == ".mp3" { assert e[1..] == "mp3"; }
    }
  }

  /** A chain of neighbours in ascending order is ascending throughout. */
  lemma {:induction false} ChainSorted(xs: seq<string>)
    requires forall i :: 0 <= i < |xs| - 1 ==> Less(xs[i], xs[i + 1])
    ensures StrictlySorted(xs)
    decreases |xs|
  {
    if |xs| > 1 {
      ChainSorted(xs[1..]);
      forall j | 1 <= j < |xs| ensures Less(xs[0], xs[j]) {
        if j > 1 {
          assert xs[1..][0] == xs[1] && xs[1..][j - 1] == xs[j];
          LessTransitive(xs[0], xs[1], xs[j]);
        }
      }
      forall i, j | 1 <= i < j < |xs| ensures Less(xs[i], xs[j]) {
        assert xs[1..][i - 1] == xs[i] && xs[1..][j - 1] == xs[j];
      }
    }
  }

  /** The message's list is the sorted union of the two format sets. */
  lemma SupportedListSorted()
    ensures StrictlySorted(SupportedSorted)
    ensures forall e :: e in SupportedSorted <==> e in AudioFormats + VideoFormats
  {
    forall i | 0 <= i < |SupportedSorted| - 1 ensures Less(SupportedSorted[i], SupportedSorted[i + 1]) {
      var a := SupportedSorted[i];
      var b := SupportedSorted[i + 1];
      assert a[0] == b[0];
      assert Less(a, b) == Less(a[1..], b[1..]);
    }
    ChainSorted(SupportedSorted);
  }

  /** `get_file_type`. */
  function FileType(filename: string): string
  {
    var ext := Extension(filename);
    if ext in AudioFormats then "audio" else if ext in VideoFormats then "video" else "unknown"
  }

  /** Every file is of exactly one type, and it is `unknown` exactly when the
      format would be refused. */
  lemma FileTypeSpec(filename: string)
    ensures FileType(filename) == "audio" <==> Extension(filename) in AudioFormats
    ensures FileType(filename) == "video" <==> Extension(filename) in VideoFormats
    ensures FileType(filename) == "unknown" <==> Extension(filename) !in AudioFormats + VideoFormats
    ensures FileType(filename) == "unknown" ==> !ValidateFile(filename, 0).valid
  {
    FormatsDisjoint();
  }

  /** The name `save_file` stores an upload under. */
  function SavedName(podcastId: string, filename: string): string
  {
    podcastId + Extension(filename)
  }

  /** A suffix: a dot, then at least one character, with no dot or slash after it. */
  predicate SuffixShaped(ext: string)
  {
    |ext| >= 2 && ext[0] == '.' && NoneIn(ext[1..], {'.', '/'})
  }

  lemma {:induction false} FinalComponentPlain(s: string)
    requires NoneIn(s, {'/'})
    ensures Loader.FinalComponent(s) == s
    decreases |s|
  {
    if |s| > 0 {
      FinalComponentPlain(s[..|s| - 1]);
    }
  }

  lemma {:induction false} FinalComponentTail(s: string)
    ensures NoneIn(Loader.FinalComponent(s), {'/'})
    ensures |Loader.FinalComponent(s)| <= |s| && Loader.FinalComponent(s) == s[|s| - |Loader.FinalComponent(s)|..]
    decreases |s|
  {
    if |s| > 0 {
      var n := |s| - 1;
      FinalComponentTail(s[..n]);
      if s[n] != '/' {
        var f := Loader.FinalComponent(s[..n]);
        assert s[..n][n - |f|..] + [s[n]] == s[n - |f|..];
      }
    }
  }

  /** The last dot of a text followed by a dot-free rest. */
  lemma {:induction false} LastDotAt(a: string, b: string)
    requires NoneIn(b, {'.'})
    ensures Loader.LastDot(a + "." + b) == |a|
    decreases |b|
  {
    if |b| > 0 {
      var s := a + "." + b;
      assert s[..|s| - 1] == a + "." + b[..|b| - 1];
      LastDotAt(a, b[..|b| - 1]);
    } else {
      assert a + "." + b == a + ".";
    }
  }

  /** `Path.suffix` is empty or suffix-shaped. */
  lemma SuffixShape(path: string)
    ensures Loader.Suffix(path) == "" || SuffixShaped(Loader.Suffix(path))
  {
    var name := Loader.FinalComponent(path);
    FinalComponentTail(path);
    var i := Loader.LastDot(name);
    if 0 < i < |name| - 1 {
      LastDotLast(name);
      var ext := name[i..];
      forall k | 0 <= k < |ext[1..]| ensures ext[1..][k] !in {'.', '/'} {
        assert ext[1..][k] == name[i + 1 + k];
      }
    }
  }

  lemma {:induction false} LastDotLast(s: string)
    ensures forall k :: Loader.LastDot(s) < k < |s| ==> s[k] != '.'
    decreases |s|
  {
    if |s| > 0 && s[|s| - 1] != '.' {
      LastDotLast(s[..|s| - 1]);
      forall k | Loader.LastDot(s) < k < |s| - 1 ensures s[k] != '.' {
        assert s[..|s| - 1][k] == s[k];
      }
    }
  }

  lemma LowerShaped(ext: string)
    requires SuffixShaped(ext)
    ensures SuffixShaped(Lower(ext)) && Lower(Lower(ext)) == Lower(ext)
  {
    var l := Lower(ext);
    forall k | 0 <= k < |l[1..]| ensures l[1..][k] !in {'.', '/'} {
      assert ext[1..][k] == ext[k + 1];
    }
  }

  /** A saved upload keeps its type: the stored name's extension is the
      upload's lower-cased extension, so it is accepted and classed alike. */
  lemma SavedNameKeepsType(podcastId: string, filename: string, fileSize: int)
    requires |podcastId| > 0 && NoneIn(podcastId, {'.', '/'})
    ensures Extension(SavedName(podcastId, filename)) == Extension(filename)
    ensures FileType(SavedName(podcastId, filename)) == FileType(filename)
    ensures ValidateFile(SavedName(podcastId, filename), fileSize) == ValidateFile(filename, fileSize)
  {
    SavedExtension(podcastId, filename);
    SameExtension(SavedName(podcastId, filename), filename, fileSize);
  }

  lemma SavedExtension(podcastId: string, filename: string)
    requires |podcastId| > 0 && NoneIn(podcastId, {'.', '/'})
    ensures Extension(SavedName(podcastId, filename)) == Extension(filename)
  {
    SuffixShape(filename);
    if Loader.Suffix(filename) == "" {
      SavedPlain(podcastId);
      assert SavedName(podcastId, filename) == podcastId;
    } else {
      LowerShaped(Loader.Suffix(filename));
      SavedShaped(podcastId, Extension(filename));
    }
  }

  /** Files with the same extension are classed and validated alike. */
  lemma SameExtension(f: string, g: string, fileSize: int)
    requires Extension(f) == Extension(g)
    ensures FileType(f) == FileType(g) && ValidateFile(f, fileSize) == ValidateFile(g, fileSize)
  {
  }

  /** A name without dots has no suffix. */
  lemma SavedPlain(podcastId: string)
    requires NoneIn(podcastId, {'.', '/'})
    ensures Extension(podcastId) == ""
  {
    FinalComponentPlain(podcastId);
    NoDot(podcastId);
  }

  /** A dot-free name followed by a lower-case suffix-shaped extension has
      that extension. */
  lemma SavedShaped(podcastId: string, ext: string)
    requires |podcastId| > 0 && NoneIn(podcastId, {'.', '/'})
    requires SuffixShaped(ext) && Lower(ext) == ext
    ensures Extension(podcastId + ext) == ext
  {
    var saved := podcastId + ext;
    assert saved == podcastId + "." + ext[1..];
    assert NoneIn(saved, {'/'}) by {
      forall k | 0 <= k < |saved| ensures saved[k] != '/' {
        if k > |podcastId| { assert saved[k] == ext[1..][k - |podcastId| - 1]; }
      }
    }
    FinalComponentPlain(saved);
    LastDotAt(podcastId, ext[1..]);
    assert saved[|podcastId|..] == ext;
  }

  lemma {:induction false} NoDot(s: string)
    requires NoneIn(s, {'.'})
    ensures Loader.LastDot(s) == -1
    decreases |s|
  {
    if |s| > 0 {
      NoDot(s[..|s| - 1]);
    }
  }

  /** An exact number of gigabytes prints with `.00`. */
  lemma GigabytesWhole(g: nat)
    ensures Gigabytes(g * Gigabyte) == NatToString(g) + ".00"
  {
    assert g * Gigabyte * 100 == (g * 100) * Gigabyte;
    assert ((g * 100) * 1073741824) / 1073741824 == g * 100 && ((g * 100) * 1073741824) % 1073741824 == 0;
    assert (g * 100) / 100 == g && (g * 100) % 100 == 0;
    assert RoundHalfEven(g * Gigabyte * 100, Gigabyte) == g * 100;
    assert Pad2(0) == "00";
    assert NatToString(g) + "." + "00" == NatToString(g) + ".00";
  }
}
