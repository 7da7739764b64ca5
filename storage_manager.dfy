/** `StorageManager`: where audio, transcript and note files of a podcast
    live, under per-category sub-directories when `category_based` is set and
    per-format ones when `separate_formats` is too. A path is the sequence of
    its components, without `pathlib`'s normalisation (an empty component is
    kept, and a `/` inside a component does not split it). */
module StorageManager {
  import opened Wrappers
  import opened Text

  type PathParts = seq<string>

  /** The settings `__init__` reads from the configuration. */
  datatype Storage = Storage(
    baseDir: PathParts,
    audioDir: PathParts,
    transcriptDir: PathParts,
    noteDir: PathParts,
    categoryBased: bool,
    defaultCategory: string,
    separateFormats: bool)

  /** The characters `_sanitize_category` replaces, in the order it replaces them. */
  const UnsafeOrder: seq<char> := ['/', '\\', ':', '*', '?', '"', '<', '>', '|']

  const Unsafe: set<char> := set c | c in UnsafeOrder

  /** The category directory name: the default for a blank category, else the
      category with every unsafe character replaced by `_`, then trimmed. */
  function CategoryName(st: Storage, category: string): string
  {
    if IsBlank(category) then st.defaultCategory else Strip(ReplaceChars(category, Unsafe, '_'))
  }

  /** The first `i` unsafe characters. */
  function UnsafePrefix(i: nat): set<char>
    requires i <= |UnsafeOrder|
  {
    set k | 0 <= k < i :: UnsafeOrder[k]
  }

  /** Replacing one more character after a set of them is replacing the union. */
  lemma ReplaceMore(s: string, cs: set<char>, c: char)
    requires '_' !in cs && c != '_'
    ensures ReplaceChars(ReplaceChars(s, cs, '_'), {c}, '_') == ReplaceChars(s, cs + {c}, '_')
  {
    var a := ReplaceChars(ReplaceChars(s, cs, '_'), {c}, '_');
    var b := ReplaceChars(s, cs + {c}, '_');
    assert |a| == |b|;
    forall k | 0 <= k < |a| ensures a[k] == b[k] {
    }
  }

  lemma SanitizeStep(category: string, i: nat)
    requires i < |UnsafeOrder|
    ensures ReplaceChars(ReplaceChars(category, UnsafePrefix(i), '_'), {UnsafeOrder[i]}, '_') ==
      ReplaceChars(category, UnsafePrefix(i + 1), '_')
  {
    ReplaceMore(category, UnsafePrefix(i), UnsafeOrder[i]);
    assert UnsafePrefix(i + 1) == UnsafePrefix(i) + {UnsafeOrder[i]};
  }

  lemma UnsafeAll()
    ensures UnsafePrefix(|UnsafeOrder|) == Unsafe
  {
    forall c | c in Unsafe ensures c in UnsafePrefix(|UnsafeOrder|) {
      var k :| 0 <= k < |UnsafeOrder| && UnsafeOrder[k] == c;
    }
  }

  /** `_sanitize_category`, with its loop over the unsafe characters. */
  method SanitizeCategory(st: Storage, category: string) returns (r: string)
    ensures r == CategoryName(st, category)
  {
    if |category| == 0 || Strip(category) == "" {
      StripEmptyIff(category);
      return st.defaultCategory;
    }
    StripEmptyIff(category);
    var sanitized := category;
    for i := 0 to |UnsafeOrder|
      invariant sanitized == ReplaceChars(category, UnsafePrefix(i), '_')
    {
      SanitizeStep(category, i);
      sanitized := ReplaceChars(sanitized, {UnsafeOrder[i]}, '_');
    }
    UnsafeAll();
    r := Strip(sanitized);
  }

  /** A blank category becomes the default; any other gives a non-empty name
      without unsafe characters or surrounding whitespace, and a name that is
      already such is kept as it is. */
  lemma CategoryNameSpec(st: Storage, category: string)
    ensures IsBlank(category) ==> CategoryName(st, category) == st.defaultCategory
    ensures !IsBlank(category) ==>
      CategoryName(st, category) != "" && NoneIn(CategoryName(st, category), Unsafe) && IsStripped(CategoryName(st, category))
    ensures !IsBlank(category) && NoneIn(category, Unsafe) && IsStripped(category) ==> CategoryName(st, category) == category
  {
    if !IsBlank(category) {
      var replaced := ReplaceChars(category, Unsafe, '_');
      StripChars(replaced, Unsafe);
      StripIsStripped(replaced);
      StripEmptyIff(replaced);
      var k :| 0 <= k < |category| && category[k] !in Whitespace;
      assert replaced[k] !in Whitespace;
      if NoneIn(category, Unsafe) && IsStripped(category) {
        assert replaced == category;
        TrimUnchanged(category, Whitespace);
      }
    }
  }

  /** `category or self.default_category`. */
  function OrDefault(st: Storage, category: Option<string>): string
  {
    if category.None? || category.value == "" then st.defaultCategory else category.value
  }

  /** `get_audio_path`: `id.mp3` in the audio directory, inside the category's
      directory only when storage is category-based and a category is given. */
  function AudioPath(st: Storage, podcastId: string, category: Option<string>): PathParts
  {
    if st.categoryBased && category.Some? && category.value != "" then
      st.audioDir + [CategoryName(st, OrDefault(st, category)), podcastId + ".mp3"]
    else st.audioDir + [podcastId + ".mp3"]
  }

  /** The audio file is always `id.mp3` under the audio directory, with the
      category's directory in between exactly when storage is category-based
      and a non-empty category is given (no default is applied). */
  lemma AudioLayouts(st: Storage, podcastId: string, category: Option<string>)
    ensures var p := AudioPath(st, podcastId, category);
      var n := |st.audioDir|;
      var inCategory := st.categoryBased && category.Some? && category.value != "";
      p[..n] == st.audioDir && p[|p| - 1] == podcastId + ".mp3" &&
      |p| == n + (if inCategory then 2 else 1) &&
      (inCategory ==> p[n] == CategoryName(st, category.value))
  {
    var p := AudioPath(st, podcastId, category);
    assert p[..|st.audioDir|] == st.audioDir;
  }

  /** The directory below `root` a file of the category and format goes to:
      `root/cat/fmt`, `root/cat` or `root` itself. */
  function FileDir(st: Storage, root: PathParts, category: Option<string>, formatType: string): PathParts
  {
    if st.categoryBased then
      var c := CategoryName(st, OrDefault(st, category));
      if st.separateFormats then root + [c, formatType] else root + [c]
    else root
  }

  /** `get_transcript_path`. */
  function TranscriptPath(st: Storage, podcastId: string, category: Option<string>, formatType: string): PathParts
  {
    FileDir(st, st.transcriptDir, category, formatType) + [podcastId + "." + formatType]
  }

  /** `get_note_path`. */
  function NotePath(st: Storage, podcastId: string, noteType: string, category: Option<string>, formatType: string): PathParts
  {
    FileDir(st, st.noteDir, category, formatType) + [podcastId + "_" + noteType + "." + formatType]
  }

  /** The three layouts of a transcript path: the file is always `id.fmt`
      under the transcript directory; between them come the category's
      directory (the default one when none is given) when storage is
      category-based, and the format's directory after it when formats are
      kept apart. */
  lemma TranscriptLayouts(st: Storage, podcastId: string, category: Option<string>, formatType: string)
    ensures var p := TranscriptPath(st, podcastId, category, formatType);
      var n := |st.transcriptDir|;
      p[..n] == st.transcriptDir && p[|p| - 1] == podcastId + "." + formatType &&
      |p| == n + (if !st.categoryBased then 1 else if st.separateFormats then 3 else 2) &&
      (st.categoryBased ==> p[n] == CategoryName(st, OrDefault(st, category))) &&
      (st.categoryBased && st.separateFormats ==> p[n + 1] == formatType)
  {
    var p := TranscriptPath(st, podcastId, category, formatType);
    assert p[..|st.transcriptDir|] == st.transcriptDir;
  }

  /** A note goes where a transcript of the same category and format would go
      under the note directory, with `id_type.fmt` as its name. */
  lemma NoteLayout(st: Storage, podcastId: string, noteType: string, category: Option<string>, formatType: string)
    ensures NotePath(st, podcastId, noteType, category, formatType) ==
      TranscriptPath(st.(transcriptDir := st.noteDir), podcastId + "_" + noteType, category, formatType)
  {
  }

  /** A missing or empty category falls back to the default for transcripts,
      notes and the category directory, but not for audio. */
  lemma MissingCategory(st: Storage, podcastId: string, noteType: string, formatType: string)
    requires st.categoryBased
    ensures TranscriptPath(st, podcastId, None, formatType) == TranscriptPath(st, podcastId, Some(st.defaultCategory), formatType)
    ensures NotePath(st, podcastId, noteType, None, formatType) == NotePath(st, podcastId, noteType, Some(st.defaultCategory), formatType)
    ensures CategoryDir(st, None) == CategoryDir(st, Some(st.defaultCategory))
    ensures AudioPath(st, podcastId, None) == st.audioDir + [podcastId + ".mp3"]
  {
  }

  /** `get_category_dir`. */
  function CategoryDir(st: Storage, category: Option<string>): PathParts
  {
    st.baseDir + [CategoryName(st, OrDefault(st, category))]
  }
}
