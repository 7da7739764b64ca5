/** Attaching speaker labels to transcript paragraphs: each paragraph takes
    the speaker of the diarization turn it overlaps most, by
    `max(0, min(ends) - max(starts))`. Turns are scanned in list order and a
    later turn replaces the current choice only with a strictly larger
    overlap, so ties go to the earliest turn; without any positive overlap
    the label is `"UNKNOWN"`. Turns are not sorted. */
module Diarization {
  import opened Segments
  import opened Order

  /** One diarization turn. */
  datatype Turn = Turn(start: real, end: real, speaker: string)

  /** A merged record: the paragraph's three keys plus `speaker`. */
  datatype Labelled = Labelled(start: real, end: real, text: string, speaker: string)

  const Unknown := "UNKNOWN"

  function Max(a: real, b: real): real { if a >= b then a else b }

  function Min(a: real, b: real): real { if a <= b then a else b }

  /** Overlap length of a paragraph and a turn, never negative. */
  function Overlap(p: Paragraph, t: Turn): (o: real)
    ensures o >= 0.0
    ensures o > 0.0 <==> Max(p.start, t.start) < Min(p.end, t.end)
  {
    Max(0.0, Min(p.end, t.end) - Max(p.start, t.start))
  }

  /** Index of the turn the scan ends on: -1 when no turn overlaps positively. */
  function BestIndex(p: Paragraph, turns: seq<Turn>): (k: int)
    ensures -1 <= k < |turns|
    decreases |turns|
  {
    if |turns| == 0 then -1
    else
      var n := |turns| - 1;
      var k := BestIndex(p, turns[..n]);
      if Overlap(p, turns[n]) > (if k < 0 then 0.0 else Overlap(p, turns[k])) then n else k
  }

  /** `_find_best_speaker` as the label of `BestIndex`. */
  function BestSpeaker(p: Paragraph, turns: seq<Turn>): string
  {
    var k := BestIndex(p, turns);
    if k < 0 then Unknown else turns[k].speaker
  }

  /** Turn `k` overlaps positively, no turn overlaps more, and every earlier
      turn overlaps strictly less. */
  predicate IsBest(p: Paragraph, turns: seq<Turn>, k: int)
  {
    0 <= k < |turns| && Overlap(p, turns[k]) > 0.0 &&
    (forall j :: 0 <= j < |turns| ==> Overlap(p, turns[j]) <= Overlap(p, turns[k])) &&
    (forall j :: 0 <= j < k ==> Overlap(p, turns[j]) < Overlap(p, turns[k]))
  }

  /** The scan finds the first turn of maximal positive overlap, and finds
      none exactly when no turn overlaps positively. */
  lemma {:induction false} BestIndexSpec(p: Paragraph, turns: seq<Turn>)
    ensures BestIndex(p, turns) == -1 <==> forall j :: 0 <= j < |turns| ==> Overlap(p, turns[j]) == 0.0
    ensures BestIndex(p, turns) >= 0 ==> IsBest(p, turns, BestIndex(p, turns))
    decreases |turns|
  {
    if |turns| > 0 {
      var n := |turns| - 1;
      var front := turns[..n];
      BestIndexSpec(p, front);
      var k := BestIndex(p, front);
      assert forall j :: 0 <= j < n ==> turns[j] == front[j];
    }
  }

  /** Such a turn is unique, so the specification pins the result down. */
  lemma BestIsUnique(p: Paragraph, turns: seq<Turn>, a: int, b: int)
    requires IsBest(p, turns, a) && IsBest(p, turns, b)
    ensures a == b
  {
  }

  /** The label is `"UNKNOWN"` or the speaker of some turn. */
  lemma BestSpeakerRange(p: Paragraph, turns: seq<Turn>)
    ensures BestSpeaker(p, turns) == Unknown || exists j :: 0 <= j < |turns| && turns[j].speaker == BestSpeaker(p, turns)
  {
  }

  /** `_find_best_speaker`. */
  method FindBestSpeaker(p: Paragraph, turns: seq<Turn>) returns (best: string)
    ensures best == BestSpeaker(p, turns)
    ensures (forall j :: 0 <= j < |turns| ==> Overlap(p, turns[j]) == 0.0) ==> best == Unknown
    ensures (exists j :: 0 <= j < |turns| && Overlap(p, turns[j]) > 0.0) ==>
      exists k :: IsBest(p, turns, k) && best == turns[k].speaker
  {
    var maxOverlap := 0.0;
    best := Unknown;
    ghost var k := -1;
    var i := 0;
    while i < |turns|
      invariant 0 <= i <= |turns|
      invariant k == BestIndex(p, turns[..i])
      invariant k < 0 ==> maxOverlap == 0.0 && best == Unknown
      invariant k >= 0 ==> maxOverlap == Overlap(p, turns[k]) && best == turns[k].speaker
    {
      assert turns[..i + 1][..i] == turns[..i];
      var t := turns[i];
      var overlapStart := Max(p.start, t.start);
      var overlapEnd := Min(p.end, t.end);
      var overlap := Max(0.0, overlapEnd - overlapStart);
      if overlap > maxOverlap {
        maxOverlap := overlap;
        best := t.speaker;
        k := i;
      }
      i := i + 1;
    }
    assert turns[..i] == turns;
    BestIndexSpec(p, turns);
  }

  function Label(p: Paragraph, turns: seq<Turn>): Labelled
  {
    Labelled(p.start, p.end, p.text, BestSpeaker(p, turns))
  }

  /** `merge_with_transcript`: one record per paragraph, in order, with
      `start`, `end` and `text` copied and the chosen label as `speaker`. */
  method MergeWithTranscript(transcript: seq<Paragraph>, turns: seq<Turn>) returns (merged: seq<Labelled>)
    ensures |merged| == |transcript|
    ensures forall i :: 0 <= i < |transcript| ==>
      merged[i].start == transcript[i].start && merged[i].end == transcript[i].end &&
      merged[i].text == transcript[i].text && merged[i].speaker == BestSpeaker(transcript[i], turns)
  {
    merged := [];
    var i := 0;
    while i < |transcript|
      invariant 0 <= i <= |transcript|
      invariant |merged| == i
      invariant forall j :: 0 <= j < i ==> merged[j] == Label(transcript[j], turns)
    {
      var p := transcript[i];
      var speaker := FindBestSpeaker(p, turns);
      merged := merged + [Labelled(p.start, p.end, p.text, speaker)];
      i := i + 1;
    }
  }

  function Speakers(turns: seq<Turn>): seq<string>
  {
    seq(|turns|, i requires 0 <= i < |turns| => turns[i].speaker)
  }

  /** `get_speaker_list`: `sorted(set(...))` of the turn speakers. */
  function GetSpeakerList(turns: seq<Turn>): seq<string>
  {
    SortedSet(Speakers(turns))
  }

  /** The speaker list is strictly ascending and holds exactly the speakers
      that occur in some turn. */
  lemma SpeakerListSpec(turns: seq<Turn>)
    ensures StrictlySorted(GetSpeakerList(turns))
    ensures forall s :: s in GetSpeakerList(turns) <==> exists i :: 0 <= i < |turns| && turns[i].speaker == s
  {
    SortedSetSpec(Speakers(turns));
    forall s ensures s in Speakers(turns) <==> exists i :: 0 <= i < |turns| && turns[i].speaker == s
    {
      if s in Speakers(turns) {
        var i :| 0 <= i < |turns| && Speakers(turns)[i] == s;
      }
      if exists i :: 0 <= i < |turns| && turns[i].speaker == s {
        var i :| 0 <= i < |turns| && turns[i].speaker == s;
        assert Speakers(turns)[i] == s;
      }
    }
  }
}
