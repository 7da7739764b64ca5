/** Clock-style rendering of a time offset given in seconds.
    The transcribers, the transcript formatter, the analyzer and the note
    generator all compute `hours = int(seconds // 3600)`,
    `minutes = int((seconds % 3600) // 60)` and `secs = int(seconds % 60)`
    with Python's flooring `//` and `%` on floats; the first four print the
    three fields as `HH:MM:SS`, the last two drop the hours when they are not
    positive. */
module Clock {
  import opened Wrappers
  import opened Text

  /** Python's `x % 3600` for a float `x` (never negative). */
  function ModHour(x: real): real
  {
    x - 3600.0 * ((x / 3600.0).Floor as real)
  }

  /** Python's `x % 60` for a float `x` (never negative). */
  function ModMinute(x: real): real
  {
    x - 60.0 * ((x / 60.0).Floor as real)
  }

  datatype Fields = Fields(hours: int, minutes: int, secs: int)

  /** The three fields exactly as the source computes them:
      `int(x // 3600)`, `int((x % 3600) // 60)`, `int(x % 60)`. */
  function Split(seconds: real): Fields
  {
    Fields((seconds / 3600.0).Floor, (ModHour(seconds) / 60.0).Floor, ModMinute(seconds).Floor)
  }

  /** Minutes and seconds are clock digits, and the fields add back up to the
      whole seconds of the input (the fractional part is dropped), for every
      real input, negative ones included. */
  lemma SplitFields(seconds: real)
    ensures var f := Split(seconds);
      0 <= f.minutes < 60 && 0 <= f.secs < 60 &&
      f.hours * 3600 + f.minutes * 60 + f.secs == seconds.Floor
  {
    var f := Split(seconds);
    var h := f.hours;
    var r := ModHour(seconds);
    var q := (seconds / 60.0).Floor;
    assert 3600.0 * (h as real) <= seconds < 3600.0 * (h as real) + 3600.0;
    assert 0.0 <= r < 3600.0;
    var m := f.minutes;
    assert 60.0 * (m as real) <= r < 60.0 * (m as real) + 60.0;
    assert 0 <= m < 60;
    assert seconds / 60.0 == 60.0 * (h as real) + r / 60.0;
    assert q == 60 * h + m;
    var t := ModMinute(seconds);
    assert 0.0 <= t < 60.0;
    assert t == r - 60.0 * (m as real);
    assert seconds == (h * 3600 + m * 60) as real + t;
  }

  /** `f"{hours:02d}:{minutes:02d}:{secs:02d}"` — the `_format_time` of the
      three transcribers and `TranscriptFormatter.format_time`. */
  function FormatHms(seconds: real): string
  {
    var f := Split(seconds);
    Pad2(f.hours) + ":" + Pad2(f.minutes) + ":" + Pad2(f.secs)
  }

  /** `format_time` of the analyzer and of the note generator: `HH:MM:SS` when
      the hours are positive, `MM:SS` otherwise. */
  function FormatShort(seconds: real): string
  {
    var f := Split(seconds);
    if f.hours > 0 then FormatHms(seconds) else Pad2(f.minutes) + ":" + Pad2(f.secs)
  }

  /** Reads `dd:dd:dd` back as `h * 3600 + m * 60 + s`; `None` for anything else. */
  function ReadHms(t: string): Option<int>
  {
    if |t| == 8 && t[2] == ':' && t[5] == ':' && AllDigits(t[..2]) && AllDigits(t[3..5]) && AllDigits(t[6..]) then
      Some(DigitsValue(t[..2]) * 3600 + DigitsValue(t[3..5]) * 60 + DigitsValue(t[6..]))
    else None
  }

  /** Reads `dd:dd` back as `m * 60 + s`. */
  function ReadMs(t: string): Option<int>
  {
    if |t| == 5 && t[2] == ':' && AllDigits(t[..2]) && AllDigits(t[3..]) then
      Some(DigitsValue(t[..2]) * 60 + DigitsValue(t[3..]))
    else None
  }

  /** Below 100 hours the rendering is exactly eight characters, `dd:dd:dd`,
      and reading the fields back gives the whole seconds of the input. */
  lemma FormatHmsReadBack(seconds: real)
    requires 0.0 <= seconds < 360000.0
    ensures |FormatHms(seconds)| == 8
    ensures ReadHms(FormatHms(seconds)) == Some(seconds.Floor)
  {
    var f := Split(seconds);
    SplitFields(seconds);
    assert 0 <= f.hours < 100;
    Pad2Value(f.hours);
    Pad2Value(f.minutes);
    Pad2Value(f.secs);
    var t := FormatHms(seconds);
    assert t[..2] == Pad2(f.hours) && t[3..5] == Pad2(f.minutes) && t[6..] == Pad2(f.secs);
  }

  /** The short form drops the hour field exactly when the hours are not
      positive; under an hour it reads back as `m * 60 + s`, the whole
      seconds of the input. */
  lemma FormatShortShape(seconds: real)
    ensures Split(seconds).hours > 0 ==> FormatShort(seconds) == FormatHms(seconds)
    ensures 0.0 <= seconds < 3600.0 ==> |FormatShort(seconds)| == 5 && ReadMs(FormatShort(seconds)) == Some(seconds.Floor)
  {
    var f := Split(seconds);
    SplitFields(seconds);
    if 0.0 <= seconds < 3600.0 {
      assert f.hours == 0;
      Pad2Value(f.minutes);
      Pad2Value(f.secs);
      var t := FormatShort(seconds);
      assert t[..2] == Pad2(f.minutes) && t[3..] == Pad2(f.secs);
    }
  }
}
