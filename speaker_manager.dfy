/** `SpeakerManager`: the `speakers` table of podcast id, speaker id and
    optional custom name, held in memory as a sequence of rows, with the
    replace-all, rename, lookup and display-name operations over it. */
module SpeakerManager {
  import opened Wrappers
  import opened Text
  import opened Order

  datatype Row = Row(podcastId: string, speakerId: string, name: Option<string>)

  /** `WHERE podcast_id = p`. */
  function OfPodcast(rows: seq<Row>, p: string): (r: seq<Row>)
    ensures forall row :: row in r <==> row in rows && row.podcastId == p
    decreases |rows|
  {
    if |rows| == 0 then []
    else (if rows[0].podcastId == p then [rows[0]] else []) + OfPodcast(rows[1..], p)
  }

  /** `DELETE FROM speakers WHERE podcast_id = p`. */
  function Without(rows: seq<Row>, p: string): (r: seq<Row>)
    ensures forall row :: row in r <==> row in rows && row.podcastId != p
    decreases |rows|
  {
    if |rows| == 0 then []
    else (if rows[0].podcastId != p then [rows[0]] else []) + Without(rows[1..], p)
  }

  /** The rows `save_speakers` inserts: one per id, in order, with no name. */
  function FreshRows(p: string, speakers: seq<string>): (r: seq<Row>)
    ensures |r| == |speakers|
    ensures forall k :: 0 <= k < |r| ==> r[k] == Row(p, speakers[k], None)
    decreases |speakers|
  {
    if |speakers| == 0 then [] else FreshRows(p, speakers[..|speakers| - 1]) + [Row(p, speakers[|speakers| - 1], None)]
  }

  /** The table after `save_speakers(p, speakers)`. */
  function Saved(rows: seq<Row>, p: string, speakers: seq<string>): seq<Row>
  {
    Without(rows, p) + FreshRows(p, speakers)
  }

  /** The table after `update_speaker_name(p, s, name)`. */
  function Renamed(rows: seq<Row>, p: string, s: string, name: string): (r: seq<Row>)
    ensures |r| == |rows|
    ensures forall k :: 0 <= k < |rows| ==>
      r[k] == if rows[k].podcastId == p && rows[k].speakerId == s then rows[k].(name := Some(name)) else rows[k]
    decreases |rows|
  {
    if |rows| == 0 then []
    else
      var head := if rows[0].podcastId == p && rows[0].speakerId == s then rows[0].(name := Some(name)) else rows[0];
      [head] + Renamed(rows[1..], p, s, name)
  }

  // ---------------------------------------------------------------- ORDER BY speaker_id

  /** Ordered by speaker id (equal ids in any order). */
  predicate ById(xs: seq<Row>)
  {
    forall i, j :: 0 <= i < j < |xs| ==> !Less(xs[j].speakerId, xs[i].speakerId)
  }

  /** Insert a row after every row whose id is not greater. */
  function InsertRow(x: Row, xs: seq<Row>): seq<Row>
    decreases |xs|
  {
    if |xs| == 0 then [x]
    else if Less(x.speakerId, xs[0].speakerId) then [x] + xs
    else [xs[0]] + InsertRow(x, xs[1..])
  }

  lemma {:induction false} InsertRowSpec(x: Row, xs: seq<Row>)
    requires ById(xs)
    ensures ById(InsertRow(x, xs))
    ensures forall y :: y in InsertRow(x, xs) <==> y == x || y in xs
    decreases |xs|
  {
    if |xs| > 0 {
      if Less(x.speakerId, xs[0].speakerId) {
        var r := [x] + xs;
        forall i, j | 0 <= i < j < |r| ensures !Less(r[j].speakerId, r[i].speakerId) {
          if i == 0 {
            var y := xs[j - 1];
            assert r[j] == y;
            if Less(y.speakerId, x.speakerId) {
              LessTransitive(y.speakerId, x.speakerId, xs[0].speakerId);
              if j == 1 { LessIrreflexive(xs[0].speakerId); }
            }
          }
        }
      } else {
        var tail := xs[1..];
        InsertRowSpec(x, tail);
        var ins := InsertRow(x, tail);
        var r := [xs[0]] + ins;
        forall i, j | 0 <= i < j < |r| ensures !Less(r[j].speakerId, r[i].speakerId) {
          if i == 0 {
            assert r[j] in ins;
            if r[j] != x {
              var m :| 0 <= m < |tail| && tail[m] == r[j];
              assert xs[m + 1] == r[j];
            }
          } else {
            assert r[i] == ins[i - 1] && r[j] == ins[j - 1];
          }
        }
        assert xs == [xs[0]] + tail;
      }
    }
  }

  /** The rows ordered by speaker id, equal ids in table order. */
  function SortById(xs: seq<Row>): seq<Row>
    decreases |xs|
  {
    if |xs| == 0 then [] else InsertRow(xs[|xs| - 1], SortById(xs[..|xs| - 1]))
  }

  lemma {:induction false} SortByIdSpec(xs: seq<Row>)
    ensures ById(SortById(xs))
    ensures forall y :: y in SortById(xs) <==> y in xs
    decreases |xs|
  {
    if |xs| > 0 {
      var n := |xs| - 1;
      SortByIdSpec(xs[..n]);
      InsertRowSpec(xs[n], SortById(xs[..n]));
      assert xs == xs[..n] + [xs[n]];
    }
  }

  /** The rows the `SELECT` of `get_speakers(p)` fetches, in order. */
  function Selected(rows: seq<Row>, p: string): seq<Row>
  {
    SortById(OfPodcast(rows, p))
  }

  // ---------------------------------------------------------------- the dictionary

  /** The keys of the dictionary filled from `sel`, in insertion order. */
  function DictKeys(sel: seq<Row>): seq<string>
    decreases |sel|
  {
    if |sel| == 0 then []
    else
      var ks := DictKeys(sel[..|sel| - 1]);
      if sel[|sel| - 1].speakerId in ks then ks else ks + [sel[|sel| - 1].speakerId]
  }

  /** The dictionary filled from `sel`: the last row seen for an id wins. */
  function DictNames(sel: seq<Row>): map<string, Option<string>>
    decreases |sel|
  {
    if |sel| == 0 then map[]
    else DictNames(sel[..|sel| - 1])[sel[|sel| - 1].speakerId := sel[|sel| - 1].name]
  }

  /** Some row of `sel` has id `y`. */
  predicate HasId(sel: seq<Row>, y: string)
  {
    exists k :: 0 <= k < |sel| && sel[k].speakerId == y
  }

  lemma HasIdFront(sel: seq<Row>, y: string)
    requires |sel| > 0
    ensures HasId(sel, y) <==> HasId(sel[..|sel| - 1], y) || sel[|sel| - 1].speakerId == y
  {
    var n := |sel| - 1;
    if HasId(sel, y) {
      var k :| 0 <= k < |sel| && sel[k].speakerId == y;
      if k < n { assert sel[..n][k].speakerId == y; }
    }
    if HasId(sel[..n], y) {
      var k :| 0 <= k < n && sel[..n][k].speakerId == y;
      assert sel[k].speakerId == y;
    }
  }

  /** The keys are the ids of `sel`, once each, and the dictionary's keys. */
  lemma {:induction false} DictKeysMembers(sel: seq<Row>)
    ensures forall y :: y in DictKeys(sel) <==> HasId(sel, y)
    ensures forall y :: y in DictKeys(sel) <==> y in DictNames(sel)
    decreases |sel|
  {
    if |sel| > 0 {
      var n := |sel| - 1;
      DictKeysMembers(sel[..n]);
      forall y ensures HasId(sel, y) <==> HasId(sel[..n], y) || sel[n].speakerId == y {
        HasIdFront(sel, y);
      }
    }
  }

  /** Filled from rows ordered by id, the keys come out strictly ascending. */
  lemma {:induction false} DictKeysSorted(sel: seq<Row>)
    requires ById(sel)
    ensures StrictlySorted(DictKeys(sel))
    decreases |sel|
  {
    if |sel| > 0 {
      var n := |sel| - 1;
      var front := sel[..n];
      assert ById(front) by {
        forall i, j | 0 <= i < j < |front| ensures !Less(front[j].speakerId, front[i].speakerId) {
          assert front[i] == sel[i] && front[j] == sel[j];
        }
      }
      DictKeysSorted(front);
      DictKeysMembers(front);
      var ks := DictKeys(front);
      var x := sel[n].speakerId;
      if x !in ks {
        forall i | 0 <= i < |ks| ensures Less(ks[i], x) {
          assert ks[i] in ks;
          var k :| 0 <= k < |front| && front[k].speakerId == ks[i];
          assert sel[k].speakerId == ks[i];
          assert !Less(x, ks[i]);
          LessTotal(x, ks[i]);
        }
        var r := ks + [x];
        forall i, j | 0 <= i < j < |r| ensures Less(r[i], r[j]) {
          if j < |ks| { assert r[i] == ks[i] && r[j] == ks[j]; }
        }
      }
    }
  }

  /** An id all of whose rows carry the same name gets that name. */
  lemma {:induction false} DictNamesAgree(sel: seq<Row>, y: string, name: Option<string>)
    requires HasId(sel, y)
    requires forall k :: 0 <= k < |sel| && sel[k].speakerId == y ==> sel[k].name == name
    ensures y in DictNames(sel) && DictNames(sel)[y] == name
    decreases |sel|
  {
    var n := |sel| - 1;
    HasIdFront(sel, y);
    if sel[n].speakerId != y {
      forall k | 0 <= k < n && sel[..n][k].speakerId == y ensures sel[..n][k].name == name {
        assert sel[..n][k] == sel[k];
      }
      DictNamesAgree(sel[..n], y, name);
    }
  }

  /** Every name in the dictionary is the name of one of the id's rows. */
  lemma {:induction false} DictNamesFrom(sel: seq<Row>, y: string)
    requires y in DictNames(sel)
    ensures exists k :: 0 <= k < |sel| && sel[k].speakerId == y && sel[k].name == DictNames(sel)[y]
    decreases |sel|
  {
    var n := |sel| - 1;
    if sel[n].speakerId != y {
      DictNamesFrom(sel[..n], y);
      var k :| 0 <= k < n && sel[..n][k].speakerId == y && sel[..n][k].name == DictNames(sel[..n])[y];
      assert sel[k] == sel[..n][k];
    }
  }

  /** Some row of podcast `p` has speaker id `y`. */
  predicate Stored(rows: seq<Row>, p: string, y: string)
  {
    exists k :: 0 <= k < |rows| && rows[k].podcastId == p && rows[k].speakerId == y
  }

  lemma StoredSelected(rows: seq<Row>, p: string, y: string)
    ensures Stored(rows, p, y) <==> HasId(Selected(rows, p), y)
  {
    var sel := Selected(rows, p);
    SortByIdSpec(OfPodcast(rows, p));
    if Stored(rows, p, y) {
      var k :| 0 <= k < |rows| && rows[k].podcastId == p && rows[k].speakerId == y;
      assert rows[k] in sel;
    }
    if HasId(sel, y) {
      var k :| 0 <= k < |sel| && sel[k].speakerId == y;
      assert sel[k] in rows;
    }
  }

  /** What `get_speakers(p)` returns: the ids of `p`'s rows, strictly
      ascending, each mapped to the name of one of its rows. */
  lemma GetSpeakersSpec(rows: seq<Row>, p: string)
    ensures StrictlySorted(DictKeys(Selected(rows, p)))
    ensures forall y :: y in DictKeys(Selected(rows, p)) <==> Stored(rows, p, y)
    ensures forall y :: y in DictNames(Selected(rows, p)) <==> Stored(rows, p, y)
    ensures forall y :: y in DictNames(Selected(rows, p)) ==>
      exists row :: row in rows && row.podcastId == p && row.speakerId == y && row.name == DictNames(Selected(rows, p))[y]
  {
    var sel := Selected(rows, p);
    SortByIdSpec(OfPodcast(rows, p));
    DictKeysSorted(sel);
    DictKeysMembers(sel);
    forall y ensures HasId(sel, y) <==> Stored(rows, p, y) {
      StoredSelected(rows, p, y);
    }
    forall y | y in DictNames(sel)
      ensures exists row :: row in rows && row.podcastId == p && row.speakerId == y && row.name == DictNames(sel)[y]
    {
      DictNamesFrom(sel, y);
      var k :| 0 <= k < |sel| && sel[k].speakerId == y && sel[k].name == DictNames(sel)[y];
      assert sel[k] in rows;
    }
  }

  // ---------------------------------------------------------------- display names

  const SpeakerPrefix := "SPEAKER_"

  /** The default name `讲话人{k + 1}`. */
  function Numbered(k: int): string
  {
    "讲话人" + IntToString(k + 1)
  }

  /** `get_speaker_display_name` over the dictionary `get_speakers` gave. */
  function DisplayNameOf(names: map<string, Option<string>>, s: string): string
  {
    if s in names && names[s].Some? && names[s].value != "" then names[s].value
    else
      var number := ReplaceAll(s, SpeakerPrefix, "");
      if ParseInt(number).Some? then Numbered(ParseInt(number).value) else s
  }

  /** A non-empty custom name is shown; otherwise the number after
      `SPEAKER_`, plus one, when the rest parses as an integer; otherwise the
      id itself. */
  lemma DisplayNameSpec(names: map<string, Option<string>>, s: string)
    ensures s in names && names[s].Some? && names[s].value != "" ==> DisplayNameOf(names, s) == names[s].value
    ensures !(s in names && names[s].Some? && names[s].value != "") && ParseInt(ReplaceAll(s, SpeakerPrefix, "")).Some? ==>
      DisplayNameOf(names, s) == Numbered(ParseInt(ReplaceAll(s, SpeakerPrefix, "")).value)
    ensures !(s in names && names[s].Some? && names[s].value != "") && ParseInt(ReplaceAll(s, SpeakerPrefix, "")).None? ==>
      DisplayNameOf(names, s) == s
  {
  }

  /** `SPEAKER_` followed by digits `d`, without a custom name, shows as
      `讲话人` and the value of `d` plus one, so `SPEAKER_00` is `讲话人1`. */
  lemma {:induction false} DisplayNameNumbered(names: map<string, Option<string>>, d: string)
    requires |d| > 0 && AllDigits(d)
    requires !(SpeakerPrefix + d in names && names[SpeakerPrefix + d].Some? && names[SpeakerPrefix + d].value != "")
    ensures DisplayNameOf(names, SpeakerPrefix + d) == "讲话人" + NatToString(DigitsValue(d) + 1)
  {
    var s := SpeakerPrefix + d;
    assert s[..|SpeakerPrefix|] == SpeakerPrefix;
    StripPrefix(d);
    ParseIntDigits(d);
  }

  /** Removing `SPEAKER_` from `SPEAKER_` and digits leaves the digits. */
  lemma StripPrefix(d: string)
    requires AllDigits(d)
    ensures ReplaceAll(SpeakerPrefix + d, SpeakerPrefix, "") == d
  {
    var s := SpeakerPrefix + d;
    assert s[..|SpeakerPrefix|] == SpeakerPrefix;
    assert s[|SpeakerPrefix|..] == d;
    NoPrefixInDigits(d);
    ReplaceAllAbsent(d, SpeakerPrefix, "");
    assert ReplaceAll(s, SpeakerPrefix, "") == "" + d;
    assert "" + d == d;
  }

  lemma NoPrefixInDigits(d: string)
    requires AllDigits(d)
    ensures !Contains(d, SpeakerPrefix)
  {
    forall i | 0 <= i <= |d| - |SpeakerPrefix| ensures !OccursAt(d, SpeakerPrefix, i) {
      assert IsDigit(d[i]);
      assert SpeakerPrefix[0] == 'S';
      assert d[i..i + |SpeakerPrefix|][0] == d[i];
    }
  }

  /** An id that does not parse, without a custom name, shows as itself. */
  lemma DisplayNameRaw(names: map<string, Option<string>>, s: string)
    requires !(s in names && names[s].Some? && names[s].value != "")
    requires ParseInt(ReplaceAll(s, SpeakerPrefix, "")).None?
    ensures DisplayNameOf(names, s) == s
  {
  }

  // ---------------------------------------------------------------- what the updates do

  lemma OfPodcastAppend(a: seq<Row>, b: seq<Row>, q: string)
    ensures OfPodcast(a + b, q) == OfPodcast(a, q) + OfPodcast(b, q)
    decreases |a|
  {
    if |a| == 0 {
      assert a + b == b;
    } else {
      assert (a + b)[1..] == a[1..] + b;
      OfPodcastAppend(a[1..], b, q);
    }
  }

  lemma {:induction false} OfPodcastWithout(rows: seq<Row>, p: string, q: string)
    requires q != p
    ensures OfPodcast(Without(rows, p), q) == OfPodcast(rows, q)
    decreases |rows|
  {
    if |rows| > 0 {
      var head := if rows[0].podcastId != p then [rows[0]] else [];
      OfPodcastAppend(head, Without(rows[1..], p), q);
      OfPodcastWithout(rows[1..], p, q);
    }
  }

  lemma {:induction false} OfPodcastFresh(p: string, speakers: seq<string>, q: string)
    requires q != p
    ensures OfPodcast(FreshRows(p, speakers), q) == []
    decreases |speakers|
  {
    if |speakers| > 0 {
      var n := |speakers| - 1;
      OfPodcastAppend(FreshRows(p, speakers[..n]), [Row(p, speakers[n], None)], q);
      OfPodcastFresh(p, speakers[..n], q);
    }
  }

  /** Saving a podcast's speakers leaves every other podcast's rows, in
      order, as they were. */
  lemma SaveKeepsOthers(rows: seq<Row>, p: string, speakers: seq<string>, q: string)
    requires q != p
    ensures OfPodcast(Saved(rows, p, speakers), q) == OfPodcast(rows, q)
  {
    OfPodcastAppend(Without(rows, p), FreshRows(p, speakers), q);
    OfPodcastWithout(rows, p, q);
    OfPodcastFresh(p, speakers, q);
  }

  /** After saving, the podcast's rows are exactly one per given id, in order, without names. */
  lemma {:induction false} SaveReplaces(rows: seq<Row>, p: string, speakers: seq<string>)
    ensures OfPodcast(Saved(rows, p, speakers), p) == FreshRows(p, speakers)
  {
    OfPodcastAppend(Without(rows, p), FreshRows(p, speakers), p);
    OfPodcastWithoutSelf(rows, p);
    OfPodcastAll(FreshRows(p, speakers), p);
  }

  lemma {:induction false} OfPodcastWithoutSelf(rows: seq<Row>, p: string)
    ensures OfPodcast(Without(rows, p), p) == []
    decreases |rows|
  {
    if |rows| > 0 {
      var head := if rows[0].podcastId != p then [rows[0]] else [];
      OfPodcastAppend(head, Without(rows[1..], p), p);
      OfPodcastWithoutSelf(rows[1..], p);
    }
  }

  lemma {:induction false} OfPodcastAll(xs: seq<Row>, p: string)
    requires forall k :: 0 <= k < |xs| ==> xs[k].podcastId == p
    ensures OfPodcast(xs, p) == xs
    decreases |xs|
  {
    if |xs| > 0 {
      OfPodcastAll(xs[1..], p);
    }
  }

  /** After saving, the podcast's stored ids are the given ones. */
  lemma SavedStored(rows: seq<Row>, p: string, speakers: seq<string>, y: string)
    ensures Stored(Saved(rows, p, speakers), p, y) <==> y in speakers
  {
    var after := Saved(rows, p, speakers);
    SaveReplaces(rows, p, speakers);
    if Stored(after, p, y) {
      var k :| 0 <= k < |after| && after[k].podcastId == p && after[k].speakerId == y;
      assert after[k] in OfPodcast(after, p);
      var m :| 0 <= m < |FreshRows(p, speakers)| && FreshRows(p, speakers)[m] == after[k];
      assert speakers[m] == y;
    }
    if y in speakers {
      var m :| 0 <= m < |speakers| && speakers[m] == y;
      var row := FreshRows(p, speakers)[m];
      assert row in OfPodcast(after, p);
      var k :| 0 <= k < |after| && after[k] == row;
    }
  }

  /** After saving, `get_speakers` lists the distinct given ids in ascending
      order. */
  lemma SaveThenGet(rows: seq<Row>, p: string, speakers: seq<string>)
    ensures DictKeys(Selected(Saved(rows, p, speakers), p)) == SortedSet(speakers)
    ensures forall y :: y in DictNames(Selected(Saved(rows, p, speakers), p)) <==> y in speakers
  {
    var after := Saved(rows, p, speakers);
    GetSpeakersSpec(after, p);
    SortedSetSpec(speakers);
    forall y ensures Stored(after, p, y) <==> y in speakers {
      SavedStored(rows, p, speakers, y);
    }
    SortedUnique(DictKeys(Selected(after, p)), SortedSet(speakers));
  }

  /** After saving, none of the podcast's speakers has a name. */
  lemma SaveThenUnnamed(rows: seq<Row>, p: string, speakers: seq<string>, y: string)
    requires y in DictNames(Selected(Saved(rows, p, speakers), p))
    ensures DictNames(Selected(Saved(rows, p, speakers), p))[y] == None
  {
    var after := Saved(rows, p, speakers);
    SaveReplaces(rows, p, speakers);
    GetSpeakersSpec(after, p);
    var row :| row in after && row.podcastId == p && row.speakerId == y && row.name == DictNames(Selected(after, p))[y];
    assert row in OfPodcast(after, p);
  }

  /** Whether the podcast has a row. */
  predicate HasRows(rows: seq<Row>, p: string)
  {
    exists k :: 0 <= k < |rows| && rows[k].podcastId == p
  }

  /** After saving, the podcast has diarization exactly when ids were given. */
  lemma SaveThenHas(rows: seq<Row>, p: string, speakers: seq<string>)
    ensures HasRows(Saved(rows, p, speakers), p) <==> |speakers| > 0
  {
    var after := Saved(rows, p, speakers);
    SaveReplaces(rows, p, speakers);
    if HasRows(after, p) {
      var k :| 0 <= k < |after| && after[k].podcastId == p;
      assert after[k] in OfPodcast(after, p);
    }
    if |speakers| > 0 {
      assert FreshRows(p, speakers)[0] in OfPodcast(after, p);
    }
  }

  /** Renaming touches the podcast and id given and no other podcast or id. */
  lemma RenameKeepsOthers(rows: seq<Row>, p: string, s: string, name: string, q: string, y: string)
    requires q != p || y != s
    ensures forall k :: 0 <= k < |rows| && rows[k].podcastId == q && rows[k].speakerId == y ==>
      Renamed(rows, p, s, name)[k] == rows[k]
  {
  }

  /** After renaming an id the podcast has, `get_speakers` maps it to the
      new name and a non-empty name is what is displayed. */
  lemma RenameThenDisplay(rows: seq<Row>, p: string, s: string, name: string)
    requires Stored(rows, p, s)
    ensures var names := DictNames(Selected(Renamed(rows, p, s, name), p));
      s in names && names[s] == Some(name) && (name != "" ==> DisplayNameOf(names, s) == name)
  {
    var after := Renamed(rows, p, s, name);
    var sel := Selected(after, p);
    var k :| 0 <= k < |rows| && rows[k].podcastId == p && rows[k].speakerId == s;
    assert Stored(after, p, s) by { assert after[k].podcastId == p && after[k].speakerId == s; }
    StoredSelected(after, p, s);
    SelectedRenamed(rows, p, s, name);
    DictNamesAgree(sel, s, Some(name));
  }

  /** Every selected row of the renamed id carries the new name. */
  lemma SelectedRenamed(rows: seq<Row>, p: string, s: string, name: string)
    ensures forall m :: (0 <= m < |Selected(Renamed(rows, p, s, name), p)| &&
      Selected(Renamed(rows, p, s, name), p)[m].speakerId == s) ==> Selected(Renamed(rows, p, s, name), p)[m].name == Some(name)
  {
    var after := Renamed(rows, p, s, name);
    var sel := Selected(after, p);
    SortByIdSpec(OfPodcast(after, p));
    forall m | 0 <= m < |sel| && sel[m].speakerId == s ensures sel[m].name == Some(name) {
      assert sel[m] in after;
      var i :| 0 <= i < |after| && after[i] == sel[m];
    }
  }

  /** The number of rows of the podcast: `SELECT COUNT(*)`. */
  function Count(rows: seq<Row>, p: string): nat
  {
    |OfPodcast(rows, p)|
  }

  lemma CountPositive(rows: seq<Row>, p: string)
    ensures Count(rows, p) > 0 <==> HasRows(rows, p)
  {
    var r := OfPodcast(rows, p);
    if |r| > 0 {
      assert r[0] in r;
      var k :| 0 <= k < |rows| && rows[k] == r[0];
    }
    if HasRows(rows, p) {
      var k :| 0 <= k < |rows| && rows[k].podcastId == p;
      assert rows[k] in r;
    }
  }

  class Manager {
    var rows: seq<Row>

    constructor (initial: seq<Row>)
      ensures rows == initial
    {
      rows := initial;
    }

    /** `save_speakers`: delete the podcast's rows, then insert one per id. */
    method SaveSpeakers(p: string, speakers: seq<string>) returns (ok: bool)
      modifies this
      ensures ok && rows == Saved(old(rows), p, speakers)
    {
      rows := Without(rows, p);
      ghost var kept := rows;
      for i := 0 to |speakers|
        invariant rows == kept + FreshRows(p, speakers[..i])
      {
        assert speakers[..i + 1][..i] == speakers[..i];
        rows := rows + [Row(p, speakers[i], None)];
      }
      assert speakers[..|speakers|] == speakers;
      return true;
    }

    /** `update_speaker_name`: it reports success whether or not a row matched. */
    method UpdateSpeakerName(p: string, s: string, name: string) returns (ok: bool)
      modifies this
      ensures ok && rows == Renamed(old(rows), p, s, name)
    {
      rows := Renamed(rows, p, s, name);
      return true;
    }

    /** `get_speakers`: the dictionary filled from the ordered rows, as its
        keys in order and its contents. */
    method GetSpeakers(p: string) returns (ids: seq<string>, names: map<string, Option<string>>)
      ensures ids == DictKeys(Selected(rows, p)) && names == DictNames(Selected(rows, p))
      ensures StrictlySorted(ids)
      ensures forall y :: y in ids <==> Stored(rows, p, y)
      ensures forall y :: y in names <==> Stored(rows, p, y)
      ensures forall y :: y in names ==>
        exists row :: row in rows && row.podcastId == p && row.speakerId == y && row.name == names[y]
    {
      var sel := Selected(rows, p);
      ids := [];
      names := map[];
      for i := 0 to |sel|
        invariant ids == DictKeys(sel[..i]) && names == DictNames(sel[..i])
      {
        assert sel[..i + 1][..i] == sel[..i];
        if sel[i].speakerId !in ids {
          ids := ids + [sel[i].speakerId];
        }
        names := names[sel[i].speakerId := sel[i].name];
      }
      assert sel[..|sel|] == sel;
      GetSpeakersSpec(rows, p);
    }

    /** `get_speaker_display_name`. */
    method GetSpeakerDisplayName(p: string, s: string) returns (d: string)
      ensures d == DisplayNameOf(DictNames(Selected(rows, p)), s)
    {
      var ids, names := GetSpeakers(p);
      if s in names && names[s].Some? && names[s].value != "" {
        return names[s].value;
      }
      var number := ReplaceAll(s, SpeakerPrefix, "");
      var k := ParseInt(number);
      if k.Some? {
        return Numbered(k.value);
      }
      return s;
    }

    /** `has_diarization`. */
    method HasDiarization(p: string) returns (b: bool)
      ensures b <==> HasRows(rows, p)
    {
      CountPositive(rows, p);
      b := Count(rows, p) > 0;
    }
  }
}
