/** The two pieces of `NoteGenerator` that are not template rendering: its
    `format_time` (the short clock form shared with the analyzer) and the
    duration shown in a rule-based note. */
module NoteGenerator {
  import opened Wrappers
  import opened Text
  import opened Clock

  const Unknown := "未知"

  /** `podcast_info`: absent (`None`), or a dictionary from which only the
      numeric `duration` entry is read here. */
  type PodcastInfo = Option<map<string, real>>

  /** `"未知"` unless `podcast_info` is given and holds a `duration`, in which
      case that duration is formatted. An empty dictionary is falsy in Python
      and has no key, so both tests of the source reduce to the key test. */
  function DurationText(info: PodcastInfo): string
  {
    if info.Some? && |info.value| > 0 && "duration" in info.value then FormatShort(info.value["duration"])
    else Unknown
  }

  /** Every short clock form has a `:` just before its two-digit seconds. */
  lemma ColonInShort(seconds: real)
    ensures ':' in FormatShort(seconds)
  {
    var f := Split(seconds);
    var t := FormatShort(seconds);
    var front := if f.hours > 0 then Pad2(f.hours) + ":" + Pad2(f.minutes) else Pad2(f.minutes);
    assert t == front + ":" + Pad2(f.secs);
    assert t[|front|] == ':';
  }

  /** The duration reads `未知` exactly when no `duration` key is present. */
  lemma DurationUnknown(info: PodcastInfo)
    ensures DurationText(info) == Unknown <==> info.None? || "duration" !in info.value
  {
    if info.Some? && "duration" in info.value {
      ColonInShort(info.value["duration"]);
      assert ':' !in Unknown;
    }
  }

  /** `format_time` drops the hour field exactly when the hours are zero or
      less; minutes and seconds are always below 60, and for the first 100
      hours the printed fields read back as the whole seconds of the input. */
  lemma FormatTimeSpec(seconds: real)
    ensures 0 <= Split(seconds).minutes < 60 && 0 <= Split(seconds).secs < 60
    ensures Split(seconds).hours > 0 ==> FormatShort(seconds) == FormatHms(seconds)
    ensures 0.0 <= seconds < 3600.0 ==> ReadMs(FormatShort(seconds)) == Some(seconds.Floor)
    ensures 3600.0 <= seconds < 360000.0 ==> ReadHms(FormatShort(seconds)) == Some(seconds.Floor)
  {
    SplitFields(seconds);
    FormatShortShape(seconds);
    if 3600.0 <= seconds < 360000.0 {
      assert Split(seconds).hours >= 1;
      FormatHmsReadBack(seconds);
    }
  }
}
