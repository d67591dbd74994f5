/** The median of a trace, as numpy computes it: the middle of the sorted readings, or the mean of the middle two. */
module Median {
  import opened Common

  ghost predicate Sorted(s: seq<real>) {
    forall i, j :: 0 <= i < j < |s| ==> s[i] <= s[j]
  }

  ghost predicate AllAtLeast(s: seq<real>, b: real) {
    forall i :: 0 <= i < |s| ==> b <= s[i]
  }

  function Insert(x: real, s: seq<real>): (r: seq<real>)
    ensures |r| == |s| + 1
  {
    if s == [] || x <= s[0] then [x] + s else [s[0]] + Insert(x, s[1..])
  }

  lemma {:induction false} InsertAtLeast(x: real, s: seq<real>, b: real)
    requires AllAtLeast(s, b) && b <= x
    ensures AllAtLeast(Insert(x, s), b)
  {
    if s != [] && x > s[0] {
      InsertAtLeast(x, s[1..], b);
    }
  }

  lemma {:induction false} InsertSorted(x: real, s: seq<real>)
    requires Sorted(s)
    ensures Sorted(Insert(x, s))
  {
    if s != [] && x > s[0] {
      InsertSorted(x, s[1..]);
      InsertAtLeast(x, s[1..], s[0]);
      assert Insert(x, s) == [s[0]] + Insert(x, s[1..]);
    } else {
      assert Insert(x, s) == [x] + s;
    }
  }

  function Sort(s: seq<real>): (r: seq<real>)
    ensures |r| == |s|
  {
    if s == [] then [] else Insert(s[0], Sort(s[1..]))
  }

  lemma {:induction false} SortSorts(s: seq<real>)
    ensures Sorted(Sort(s))
  {
    if s != [] {
      SortSorts(s[1..]);
      InsertSorted(s[0], Sort(s[1..]));
    }
  }

  lemma {:induction false} InsertMultiset(x: real, s: seq<real>)
    ensures multiset(Insert(x, s)) == multiset(s) + multiset{x}
  {
    if s != [] && x > s[0] {
      InsertMultiset(x, s[1..]);
      assert s == [s[0]] + s[1..];
    }
  }

  lemma {:induction false} SortMultiset(s: seq<real>)
    ensures multiset(Sort(s)) == multiset(s)
  {
    if s != [] {
      SortMultiset(s[1..]);
      InsertMultiset(s[0], Sort(s[1..]));
      assert s == [s[0]] + s[1..];
    }
  }

  function Mean(x: real, y: real): real {
    (x + y) / 2.0
  }

  function Middle(s: seq<real>): real
    requires |s| > 0
  {
    if |s| % 2 == 1 then s[|s| / 2] else Mean(s[|s| / 2 - 1], s[|s| / 2])
  }

  function MedianOf(s: seq<real>): real
    requires |s| > 0
  {
    Middle(Sort(s))
  }

  /** However the readings are put in order, twice the median is the sum of the two at the middle, which for an odd
      number of readings are the same one. */
  lemma MedianIsMiddle(readings: seq<real>, ordered: seq<real>)
    requires |readings| > 0 && Sorted(ordered) && multiset(ordered) == multiset(readings)
    ensures |ordered| == |readings|
    ensures 2.0 * MedianOf(readings) == ordered[(|ordered| - 1) / 2] + ordered[|ordered| / 2]
  {
    assert |multiset(ordered)| == |ordered| && |multiset(readings)| == |readings|;
    SortSorts(readings);
    SortMultiset(readings);
    SortedUnique(Sort(readings), ordered);
  }

  function Map(f: real -> real, s: seq<real>): (r: seq<real>)
    ensures |r| == |s|
    ensures forall i :: 0 <= i < |s| ==> r[i] == f(s[i])
  {
    if s == [] then [] else [f(s[0])] + Map(f, s[1..])
  }

  lemma {:induction false} ReversedMultiset(s: seq<real>)
    ensures multiset(Reversed(s)) == multiset(s)
  {
    if s != [] {
      ReversedMultiset(s[1..]);
      assert s == [s[0]] + s[1..];
      assert Reversed(s) == Reversed(s[1..]) + [s[0]];
    }
  }

  lemma SortedHead(s: seq<real>, t: seq<real>)
    requires Sorted(s) && Sorted(t) && multiset(s) == multiset(t) && |s| > 0 && |t| > 0
    ensures s[0] == t[0]
  {
    assert s[0] in multiset(t);
    assert t[0] in multiset(s);
    var j :| 0 <= j < |t| && t[j] == s[0];
    var k :| 0 <= k < |s| && s[k] == t[0];
    assert t[0] <= t[j] && s[0] <= s[k];
  }

  lemma SortedUnique(s: seq<real>, t: seq<real>)
    requires Sorted(s) && Sorted(t) && multiset(s) == multiset(t)
    ensures s == t
  {
    if s == [] || t == [] {
      assert |multiset(s)| == |s| && |multiset(t)| == |t|;
    } else {
      SortedHead(s, t);
      assert s == [s[0]] + s[1..] && t == [t[0]] + t[1..];
      assert multiset(s[1..]) == multiset(s) - multiset{s[0]};
      assert multiset(t[1..]) == multiset(t) - multiset{t[0]};
      SortedUnique(s[1..], t[1..]);
    }
  }

  ghost predicate Increasing(f: real -> real) {
    forall x, y :: x < y ==> f(x) < f(y)
  }

  ghost predicate Decreasing(f: real -> real) {
    forall x, y :: x < y ==> f(x) > f(y)
  }

  lemma MapInsert(f: real -> real, x: real, s: seq<real>)
    requires Increasing(f)
    ensures Map(f, Insert(x, s)) == Insert(f(x), Map(f, s))
  {
    if s == [] || x <= s[0] {
      assert Map(f, [x] + s) == [f(x)] + Map(f, s);
    } else {
      MapInsert(f, x, s[1..]);
      assert ([s[0]] + Insert(x, s[1..]))[1..] == Insert(x, s[1..]);
    }
  }

  lemma MapSort(f: real -> real, s: seq<real>)
    requires Increasing(f)
    ensures Sort(Map(f, s)) == Map(f, Sort(s))
  {
    if s != [] {
      MapSort(f, s[1..]);
      MapInsert(f, s[0], Sort(s[1..]));
    }
  }

  lemma {:induction false} MapMultiset(f: real -> real, x: real, s: seq<real>)
    ensures multiset(Map(f, Insert(x, s))) == multiset(Map(f, s)) + multiset{f(x)}
  {
    if s != [] && x > s[0] {
      MapMultiset(f, x, s[1..]);
      assert Map(f, Insert(x, s)) == [f(s[0])] + Map(f, Insert(x, s[1..]));
    } else {
      assert Map(f, Insert(x, s)) == [f(x)] + Map(f, s);
    }
  }

  lemma {:induction false} MapSortMultiset(f: real -> real, s: seq<real>)
    ensures multiset(Map(f, Sort(s))) == multiset(Map(f, s))
  {
    if s != [] {
      MapSortMultiset(f, s[1..]);
      MapMultiset(f, s[0], Sort(s[1..]));
      assert Map(f, s) == [f(s[0])] + Map(f, s[1..]);
    }
  }

  lemma Falls(f: real -> real, x: real, y: real)
    requires Decreasing(f) && x <= y
    ensures f(x) >= f(y)
  {
  }

  lemma MirrorIsSorted(f: real -> real, s: seq<real>)
    requires Decreasing(f) && Sorted(s)
    ensures Sorted(Reversed(Map(f, s)))
  {
    var m := Map(f, s);
    assert forall i, j :: 0 <= i < j < |s| ==> m[i] >= m[j] by {
      forall i, j | 0 <= i < j < |s| ensures m[i] >= m[j] {
        Falls(f, s[i], s[j]);
      }
    }
  }

  /** A decreasing map sorts to the mapped sort, read backwards. */
  lemma MirrorSort(f: real -> real, s: seq<real>)
    requires Decreasing(f)
    ensures Sort(Map(f, s)) == Reversed(Map(f, Sort(s)))
  {
    SortSorts(s);
    SortSorts(Map(f, s));
    MapSortMultiset(f, s);
    SortMultiset(Map(f, s));
    ReversedMultiset(Map(f, Sort(s)));
    MirrorIsSorted(f, Sort(s));
    SortedUnique(Sort(Map(f, s)), Reversed(Map(f, Sort(s))));
  }

  /** `f` carries the mean of the middle two readings to the mean of their images. */
  ghost predicate KeepsMidpoint(f: real -> real, s: seq<real>)
    requires |s| > 0
  {
    |s| % 2 == 0 ==> f(Mean(s[|s| / 2 - 1], s[|s| / 2])) == Mean(f(s[|s| / 2 - 1]), f(s[|s| / 2]))
  }

  lemma MiddleOfReversed(m: seq<real>, h: nat)
    requires |m| > 0 && (|m| == 2 * h || |m| == 2 * h + 1)
    ensures |m| == 2 * h + 1 ==> Reversed(m)[h] == m[h]
    ensures |m| == 2 * h ==> Reversed(m)[h - 1] == m[h] && Reversed(m)[h] == m[h - 1]
  {
  }

  lemma MeanCommutes(x: real, y: real)
    ensures Mean(x, y) == Mean(y, x)
  {
  }

  lemma MiddleReversed(m: seq<real>)
    requires |m| > 0
    ensures Middle(Reversed(m)) == Middle(m)
  {
    var h := |m| / 2;
    MiddleOfReversed(m, h);
    if |m| % 2 == 0 {
      MeanCommutes(m[h - 1], m[h]);
    }
  }

  lemma MiddleFollows(f: real -> real, s: seq<real>)
    requires |s| > 0 && KeepsMidpoint(f, s)
    ensures Middle(Map(f, s)) == f(Middle(s))
  {
  }

  /** The median follows a monotone map, rising or falling, that keeps the mean of the middle two. */
  lemma MedianFollows(f: real -> real, s: seq<real>)
    requires |s| > 0 && KeepsMidpoint(f, Sort(s)) && (Increasing(f) || Decreasing(f))
    ensures MedianOf(Map(f, s)) == f(MedianOf(s))
  {
    MiddleFollows(f, Sort(s));
    if Increasing(f) {
      MapSort(f, s);
    } else {
      MirrorSort(f, s);
      MiddleReversed(Map(f, Sort(s)));
    }
  }
}
