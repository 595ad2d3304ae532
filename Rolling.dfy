/**
 * `series.rolling(window=7).mean()`: a trailing mean over the last seven
 * points of a series. Points are positions in the series, not calendar days:
 * a day without bookings has no entry and does not occupy a slot.
 */
module Rolling {
  import opened Wrappers

  const WINDOW: nat := 7

  function Sum(s: seq<int>): int
  {
    if s == [] then 0 else s[0] + Sum(s[1..])
  }

  /** The window of points ending at position `i`. */
  function Window(xs: seq<int>, i: nat): (w: seq<int>)
    requires WINDOW - 1 <= i < |xs|
    ensures |w| == WINDOW
  {
    xs[i + 1 - WINDOW..i + 1]
  }

  /**
   * The rolling mean: no value until a full window of history exists, then
   * the mean of the window, in exact arithmetic.
   */
  function RollingMean(xs: seq<int>): (r: seq<Option<real>>)
    ensures |r| == |xs|
    ensures forall i :: 0 <= i < |xs| ==> (r[i].None? <==> i < WINDOW - 1)
    ensures forall i :: WINDOW - 1 <= i < |xs| ==>
      r[i] == Some(Sum(xs[i + 1 - WINDOW..i + 1]) as real / WINDOW as real)
  {
    seq(|xs|, i requires 0 <= i < |xs| =>
      if i < WINDOW - 1 then None else Some(Sum(Window(xs, i)) as real / WINDOW as real))
  }

  lemma {:induction false} SumSnoc(s: seq<int>, a: int)
    ensures Sum(s + [a]) == Sum(s) + a
  {
    if s == [] {
      assert s + [a] == [a];
    } else {
      assert (s + [a])[1..] == s[1..] + [a];
      SumSnoc(s[1..], a);
    }
  }

  /**
   * Consecutive means differ by the point that enters the window minus the
   * point that leaves it, over the window length: the running-sum update a
   * rolling mean is computed with.
   */
  lemma RollingMeanSlides(xs: seq<int>, i: nat)
    requires WINDOW <= i < |xs|
    ensures RollingMean(xs)[i].Some? && RollingMean(xs)[i - 1].Some?
    ensures RollingMean(xs)[i].value
         == RollingMean(xs)[i - 1].value + (xs[i] - xs[i - WINDOW]) as real / WINDOW as real
  {
    var middle := xs[i + 1 - WINDOW..i];
    assert Window(xs, i - 1) == [xs[i - WINDOW]] + middle;
    assert Window(xs, i) == middle + [xs[i]];
    SumSnoc(middle, xs[i]);
    assert Sum(Window(xs, i)) == Sum(Window(xs, i - 1)) - xs[i - WINDOW] + xs[i];
  }

  lemma {:induction false} SumAtLeast(s: seq<int>, lo: int)
    requires forall k :: 0 <= k < |s| ==> lo <= s[k]
    ensures |s| * lo <= Sum(s)
  {
    if s != [] {
      SumAtLeast(s[1..], lo);
    }
  }

  lemma {:induction false} SumAtMost(s: seq<int>, hi: int)
    requires forall k :: 0 <= k < |s| ==> s[k] <= hi
    ensures Sum(s) <= |s| * hi
  {
    if s != [] {
      SumAtMost(s[1..], hi);
    }
  }

  lemma {:induction false} SumAppend(s: seq<int>, t: seq<int>)
    ensures Sum(s + t) == Sum(s) + Sum(t)
  {
    if s == [] {
      assert s + t == t;
    } else {
      assert (s + t)[1..] == s[1..] + t;
      SumAppend(s[1..], t);
    }
  }

  /** Over non-negative points, the points of any slice sum to no more than the whole series. */
  lemma SliceSumAtMost(xs: seq<int>, lo: nat, hi: nat)
    requires lo <= hi <= |xs|
    requires forall k :: 0 <= k < |xs| ==> 0 <= xs[k]
    ensures Sum(xs[lo..hi]) <= Sum(xs)
  {
    var prefix := xs[..hi];
    assert xs == prefix + xs[hi..];
    SumAppend(prefix, xs[hi..]);
    SumAtLeast(xs[hi..], 0);
    assert prefix == prefix[..lo] + xs[lo..hi];
    SumAppend(prefix[..lo], xs[lo..hi]);
    SumAtLeast(prefix[..lo], 0);
  }

  /** Bounds on a window's sum carry over to its mean. */
  lemma RollingMeanWithin(xs: seq<int>, i: nat, lo: int, hi: int)
    requires WINDOW - 1 <= i < |xs|
    requires lo <= Sum(Window(xs, i)) <= hi
    ensures RollingMean(xs)[i].Some?
    ensures lo as real / WINDOW as real <= RollingMean(xs)[i].value <= hi as real / WINDOW as real
  {
  }

  /** A mean lies between the smallest and the largest point of its window. */
  lemma RollingMeanBounds(xs: seq<int>, i: nat, lo: int, hi: int)
    requires WINDOW - 1 <= i < |xs|
    requires forall k :: i + 1 - WINDOW <= k <= i ==> lo <= xs[k] <= hi
    ensures RollingMean(xs)[i].Some?
    ensures lo as real <= RollingMean(xs)[i].value <= hi as real
  {
    var w := Window(xs, i);
    SumAtLeast(w, lo);
    SumAtMost(w, hi);
  }

  /** Daily counts are never negative, so neither is any of their means. */
  lemma RollingMeanOfCountsNonNegative(xs: seq<int>)
    requires forall k :: 0 <= k < |xs| ==> 0 <= xs[k]
    ensures forall i :: 0 <= i < |xs| && RollingMean(xs)[i].Some? ==> 0.0 <= RollingMean(xs)[i].value
  {
    forall i | 0 <= i < |xs| && RollingMean(xs)[i].Some?
      ensures 0.0 <= RollingMean(xs)[i].value
    {
      var w := Window(xs, i);
      SumAtLeast(w, 0);
    }
  }
}
