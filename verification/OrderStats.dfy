/** Sorting and the median. */
module OrderStats {

  predicate Sorted(s: seq<real>) {
    forall i, j :: 0 <= i < j < |s| ==> s[i] <= s[j]
  }

  function Insert(x: real, s: seq<real>): (r: seq<real>)
    requires Sorted(s)
    ensures |r| == |s| + 1 && Sorted(r)
    ensures r[0] == if |s| > 0 && s[0] < x then s[0] else x
  {
    if |s| == 0 || x <= s[0] then [x] + s
    else [s[0]] + Insert(x, s[1..])
  }

  lemma ConsBag(x: real, s: seq<real>)
    ensures multiset([x] + s) == multiset{x} + multiset(s)
  {
  }

  lemma {:induction false} InsertKeeps(x: real, s: seq<real>)
    requires Sorted(s)
    ensures multiset(Insert(x, s)) == multiset{x} + multiset(s)
  {
    if |s| == 0 || x <= s[0] {
      ConsBag(x, s);
    } else {
      InsertKeeps(x, s[1..]);
      ConsBag(s[0], Insert(x, s[1..]));
      ConsBag(s[0], s[1..]);
      assert s == [s[0]] + s[1..];
    }
  }

  /** The library's ascending sort. */
  function Sort(s: seq<real>): (r: seq<real>)
    ensures |r| == |s| && Sorted(r)
  {
    if |s| == 0 then [] else Insert(s[0], Sort(s[1..]))
  }

  lemma {:induction false} SortKeeps(s: seq<real>)
    ensures multiset(Sort(s)) == multiset(s)
  {
    if |s| > 0 {
      var rest := Sort(s[1..]);
      SortKeeps(s[1..]);
      InsertKeeps(s[0], rest);
      ConsBag(s[0], s[1..]);
      assert s == [s[0]] + s[1..];
      assert Sort(s) == Insert(s[0], rest);
    }
  }

  /** The middle value, or the mean of the two middle values; zero for no values at all. */
  function Median(s: seq<real>): real {
    MiddleOf(Sort(s))
  }

  function MiddleOf(t: seq<real>): real {
    var middle := |t| / 2;
    if |t| == 0 then 0.0
    else if |t| % 2 == 1 then t[middle]
    else (t[middle - 1] + t[middle]) / 2.0
  }

  function CountAbove(s: seq<real>, x: real): nat {
    if |s| == 0 then 0 else (if s[0] > x then 1 else 0) + CountAbove(s[1..], x)
  }

  function CountBelow(s: seq<real>, x: real): nat {
    if |s| == 0 then 0 else (if s[0] < x then 1 else 0) + CountBelow(s[1..], x)
  }

  lemma {:induction false} CountInsert(x: real, s: seq<real>, y: real)
    requires Sorted(s)
    ensures CountAbove(Insert(x, s), y) == CountAbove(s, y) + if x > y then 1 else 0
    ensures CountBelow(Insert(x, s), y) == CountBelow(s, y) + if x < y then 1 else 0
  {
    if |s| == 0 || x <= s[0] {
      assert ([x] + s)[1..] == s;
    } else {
      CountInsert(x, s[1..], y);
      assert Insert(x, s)[1..] == Insert(x, s[1..]);
    }
  }

  lemma {:induction false} CountSort(s: seq<real>, y: real)
    ensures CountAbove(Sort(s), y) == CountAbove(s, y)
    ensures CountBelow(Sort(s), y) == CountBelow(s, y)
  {
    if |s| > 0 {
      CountSort(s[1..], y);
      CountInsert(s[0], Sort(s[1..]), y);
    }
  }

  lemma {:induction false} AboveSorted(t: seq<real>, k: nat, x: real)
    requires Sorted(t) && k < |t| && t[k] <= x
    ensures CountAbove(t, x) <= |t| - 1 - k
  {
    AtMost(t[1..], x);
    if k > 0 {
      assert t[0] <= t[k];
      AboveSorted(t[1..], k - 1, x);
    }
  }

  lemma {:induction false} BelowSorted(t: seq<real>, k: nat, x: real)
    requires Sorted(t) && k < |t| && x <= t[k]
    ensures CountBelow(t, x) <= k
  {
    if k > 0 {
      BelowSorted(t[1..], k - 1, x);
    } else {
      NoneBelow(t, x);
    }
  }

  lemma {:induction false} NoneBelow(t: seq<real>, x: real)
    requires forall k :: 0 <= k < |t| ==> x <= t[k]
    ensures CountBelow(t, x) == 0
  {
    if |t| > 0 {
      NoneBelow(t[1..], x);
    }
  }

  lemma {:induction false} AtMost(t: seq<real>, x: real)
    ensures CountAbove(t, x) <= |t|
  {
    if |t| > 0 {
      AtMost(t[1..], x);
    }
  }

  lemma MiddleOfSorted(t: seq<real>)
    requires Sorted(t)
    ensures CountAbove(t, MiddleOf(t)) <= |t| / 2
    ensures CountBelow(t, MiddleOf(t)) <= |t| / 2
  {
    var middle, m := |t| / 2, MiddleOf(t);
    if |t| > 0 {
      if |t| % 2 == 1 {
        AboveSorted(t, middle, m);
      } else {
        assert t[middle - 1] <= t[middle];
        AboveSorted(t, middle - 1, m);
      }
      BelowSorted(t, middle, m);
    }
  }

  /** At most half of the values lie strictly above their median, and at most half below. */
  lemma MedianIsMiddle(s: seq<real>)
    ensures CountAbove(s, Median(s)) <= |s| / 2
    ensures CountBelow(s, Median(s)) <= |s| / 2
  {
    CountSort(s, Median(s));
    MiddleOfSorted(Sort(s));
  }

  lemma MedianNonNegative(s: seq<real>)
    requires forall k :: 0 <= k < |s| ==> s[k] >= 0.0
    ensures Median(s) >= 0.0
  {
    var t := Sort(s);
    SortKeeps(s);
    forall k | 0 <= k < |t| ensures t[k] >= 0.0 {
      assert t[k] in multiset(t);
      assert t[k] in multiset(s);
    }
  }

  // ----- the median is determined by the values

  lemma TailBag(s: seq<real>)
    requires |s| > 0
    ensures multiset(s[1..]) == multiset(s) - multiset{s[0]}
  {
    assert s == [s[0]] + s[1..];
    ConsBag(s[0], s[1..]);
  }

  lemma SameLowest(s: seq<real>, t: seq<real>)
    requires Sorted(s) && Sorted(t) && multiset(s) == multiset(t) && |s| > 0
    ensures |t| > 0 && s[0] == t[0]
  {
    assert s[0] in multiset(t);
    assert t[0] in multiset(s);
  }

  lemma {:induction false} SortedOnce(s: seq<real>, t: seq<real>)
    requires Sorted(s) && Sorted(t) && multiset(s) == multiset(t)
    ensures s == t
  {
    if |s| > 0 {
      SameLowest(s, t);
      TailBag(s);
      TailBag(t);
      SortedOnce(s[1..], t[1..]);
      assert s == [s[0]] + s[1..] && t == [t[0]] + t[1..];
    } else {
      assert |multiset(t)| == 0;
    }
  }

  /** Whichever way the values are put in order, the median is the middle one of an odd number, and
      as far from one of the two middle ones of an even number as from the other. */
  lemma MedianOfSorted(s: seq<real>, t: seq<real>)
    requires Sorted(t) && multiset(s) == multiset(t)
    ensures |s| == |t|
    ensures |t| == 0 ==> Median(s) == 0.0
    ensures |t| % 2 == 1 ==> Median(s) == t[|t| / 2]
    ensures |t| > 0 && |t| % 2 == 0 ==> Median(s) - t[|t| / 2 - 1] == t[|t| / 2] - Median(s)
  {
    SortKeeps(s);
    SortedOnce(Sort(s), t);
  }

  function Negated(s: seq<real>): seq<real> {
    seq(|s|, k requires 0 <= k < |s| => -s[k])
  }

  function Backwards(s: seq<real>): seq<real> {
    seq(|s|, k requires 0 <= k < |s| => s[|s| - 1 - k])
  }

  lemma {:induction false} NegatedBag(s: seq<real>, v: real)
    ensures multiset(Negated(s))[v] == multiset(s)[-v]
  {
    if |s| > 0 {
      NegatedBag(s[1..], v);
      ConsBag(s[0], s[1..]);
      ConsBag(-s[0], Negated(s[1..]));
      assert s == [s[0]] + s[1..];
      assert Negated(s) == [-s[0]] + Negated(s[1..]);
    } else {
      assert Negated(s) == [];
    }
  }

  lemma {:induction false} BackwardsBag(s: seq<real>)
    ensures multiset(Backwards(s)) == multiset(s)
  {
    if |s| > 0 {
      BackwardsBag(s[1..]);
      assert s == [s[0]] + s[1..];
      assert Backwards(s) == Backwards(s[1..]) + [s[0]];
      ConsBag(s[0], s[1..]);
    } else {
      assert Backwards(s) == [];
    }
  }

  lemma NegatedSame(s: seq<real>, t: seq<real>)
    requires multiset(s) == multiset(t)
    ensures multiset(Negated(s)) == multiset(Negated(t))
  {
    forall v ensures multiset(Negated(s))[v] == multiset(Negated(t))[v] {
      NegatedBag(s, v);
      NegatedBag(t, v);
    }
  }

  lemma BackwardsSorted(t: seq<real>)
    requires Sorted(t)
    ensures Sorted(Backwards(Negated(t)))
  {
  }

  /** The median prefers neither large nor small values: negating all of them negates it. */
  lemma MedianNegated(s: seq<real>)
    ensures Median(Negated(s)) == -Median(s)
  {
    hide Sort, Sorted, Median;
    var t := Sort(s);
    var back := Backwards(Negated(t));
    SortKeeps(s);
    NegatedSame(s, t);
    BackwardsBag(Negated(t));
    BackwardsSorted(t);
    MedianOfSorted(s, t);
    MedianOfSorted(Negated(s), back);
  }
}
