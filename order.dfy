/** Python's ordering of `str` values (code point by code point, a proper
    prefix first) and `sorted(set(xs))` on lists of strings. */
module Order {

  predicate Less(a: string, b: string)
    decreases |a|
  {
    if |a| == 0 then |b| > 0
    else if |b| == 0 then false
    else if a[0] != b[0] then a[0] < b[0]
    else Less(a[1..], b[1..])
  }

  lemma {:induction false} LessIrreflexive(a: string)
    ensures !Less(a, a)
    decreases |a|
  {
    if |a| > 0 {
      LessIrreflexive(a[1..]);
    }
  }

  lemma {:induction false} LessTransitive(a: string, b: string, c: string)
    requires Less(a, b) && Less(b, c)
    ensures Less(a, c)
    decreases |a|
  {
    if |a| > 0 && a[0] == b[0] && b[0] == c[0] {
      LessTransitive(a[1..], b[1..], c[1..]);
    }
  }

  lemma {:induction false} LessTotal(a: string, b: string)
    ensures a == b || Less(a, b) || Less(b, a)
    decreases |a|
  {
    if |a| > 0 && |b| > 0 && a[0] == b[0] {
      LessTotal(a[1..], b[1..]);
      if a[1..] == b[1..] {
        assert a == [a[0]] + a[1..] && b == [b[0]] + b[1..];
      }
    }
  }

  lemma LessAsymmetric(a: string, b: string)
    requires Less(a, b)
    ensures !Less(b, a) && a != b
  {
    if Less(b, a) {
      LessTransitive(a, b, a);
      LessIrreflexive(a);
    }
    if a == b {
      LessIrreflexive(a);
    }
  }

  predicate StrictlySorted(xs: seq<string>)
  {
    forall i, j :: 0 <= i < j < |xs| ==> Less(xs[i], xs[j])
  }

  /** Insert `x` into a strictly ascending list unless it is already there. */
  function Insert(x: string, xs: seq<string>): seq<string>
    decreases |xs|
  {
    if |xs| == 0 then [x]
    else if x == xs[0] then xs
    else if Less(x, xs[0]) then [x] + xs
    else [xs[0]] + Insert(x, xs[1..])
  }

  lemma {:induction false} InsertSpec(x: string, xs: seq<string>)
    requires StrictlySorted(xs)
    ensures StrictlySorted(Insert(x, xs))
    ensures forall y :: y in Insert(x, xs) <==> y == x || y in xs
    decreases |xs|
  {
    if |xs| > 0 && x != xs[0] {
      if Less(x, xs[0]) {
        var r := [x] + xs;
        forall i, j | 0 <= i < j < |r| ensures Less(r[i], r[j])
        {
          if i == 0 && j > 1 {
            LessTransitive(x, xs[0], xs[j - 1]);
          }
        }
      } else {
        LessTotal(x, xs[0]);
        var tail := xs[1..];
        InsertSpec(x, tail);
        var ins := Insert(x, tail);
        var r := [xs[0]] + ins;
        forall i, j | 0 <= i < j < |r| ensures Less(r[i], r[j])
        {
          if i == 0 {
            assert r[j] in ins;
            if r[j] != x {
              var m :| 0 <= m < |tail| && tail[m] == r[j];
              assert xs[m + 1] == r[j];
            }
          } else {
            assert r[i] == ins[i - 1] && r[j] == ins[j - 1];
          }
        }
        assert xs == [xs[0]] + tail;
      }
    }
  }

  /** `sorted(set(xs))`. */
  function SortedSet(xs: seq<string>): seq<string>
    decreases |xs|
  {
    if |xs| == 0 then [] else Insert(xs[|xs| - 1], SortedSet(xs[..|xs| - 1]))
  }

  /** `sorted(set(xs))` is strictly ascending (so free of duplicates) and
      holds exactly the elements of `xs`. */
  lemma {:induction false} SortedSetSpec(xs: seq<string>)
    ensures StrictlySorted(SortedSet(xs))
    ensures forall y :: y in SortedSet(xs) <==> y in xs
    decreases |xs|
  {
    if |xs| > 0 {
      var n := |xs| - 1;
      SortedSetSpec(xs[..n]);
      InsertSpec(xs[n], SortedSet(xs[..n]));
      assert xs == xs[..n] + [xs[n]];
      forall y ensures y in xs <==> y == xs[n] || y in xs[..n] {
        if y in xs {
          var m :| 0 <= m < |xs| && xs[m] == y;
          if m < n { assert xs[..n][m] == y; }
        }
      }
    }
  }

  lemma StrictlySortedDistinct(xs: seq<string>)
    requires StrictlySorted(xs)
    ensures forall i, j :: 0 <= i < j < |xs| ==> xs[i] != xs[j]
  {
    forall i, j | 0 <= i < j < |xs| ensures xs[i] != xs[j] {
      LessAsymmetric(xs[i], xs[j]);
    }
  }

  lemma SameElementsEmpty(xs: seq<string>, ys: seq<string>)
    requires forall y :: y in xs <==> y in ys
    ensures |xs| == 0 <==> |ys| == 0
  {
    if |xs| > 0 {
      assert xs[0] in ys;
    }
    if |ys| > 0 {
      assert ys[0] in xs;
    }
  }

  /** Two strictly ascending lists with the same elements are equal: the
      sorted set is determined by the set alone. */
  lemma {:induction false} SortedUnique(xs: seq<string>, ys: seq<string>)
    requires StrictlySorted(xs) && StrictlySorted(ys)
    requires forall y :: y in xs <==> y in ys
    ensures xs == ys
    decreases |xs|
  {
    SameElementsEmpty(xs, ys);
    if |xs| > 0 {
      // the heads are the least elements of the same set
      assert xs[0] in ys;
      assert ys[0] in xs;
      var i :| 0 <= i < |ys| && ys[i] == xs[0];
      var j :| 0 <= j < |xs| && xs[j] == ys[0];
      if i > 0 {
        assert Less(ys[0], xs[0]);
        if j > 0 {
          LessAsymmetric(ys[0], xs[0]);
        } else {
          LessIrreflexive(xs[0]);
        }
      }
      assert ys[0] == xs[0];
      StrictlySortedDistinct(xs);
      StrictlySortedDistinct(ys);
      forall y ensures y in xs[1..] <==> y in ys[1..] {
        if y in xs[1..] {
          var m :| 0 <= m < |xs[1..]| && xs[1..][m] == y;
          assert y != xs[0];
          assert y in ys;
          var q :| 0 <= q < |ys| && ys[q] == y;
          assert q > 0;
          assert ys[1..][q - 1] == y;
        }
        if y in ys[1..] {
          var m :| 0 <= m < |ys[1..]| && ys[1..][m] == y;
          assert y != ys[0];
          assert y in xs;
          var q :| 0 <= q < |xs| && xs[q] == y;
          assert q > 0;
          assert xs[1..][q - 1] == y;
        }
      }
      SortedUnique(xs[1..], ys[1..]);
      assert xs == [xs[0]] + xs[1..] && ys == [ys[0]] + ys[1..];
    }
  }
}
