/** The maximum drawdown of a price series, read in one pass over the closes. */
module Drawdown {
  import opened Wrappers
  import opened Reals

  /** The share of `from` lost on the way to `to`; 0 where there is nothing to lose. */
  function Fall(from: real, to: real): real {
    if from > 0.0 then (from - to) / from else 0.0
  }

  /** The highest close up to and including day `j`. */
  function Peak(closes: seq<real>, j: nat): real
    requires j < |closes|
  {
    if j == 0 || closes[j] > Peak(closes, j - 1) then closes[j] else Peak(closes, j - 1)
  }

  /** Over the first `n` days, `w` is the largest fall below the highest close so far, or 0. */
  ghost predicate LargestFallFromPeak(closes: seq<real>, n: nat, w: real)
    requires n <= |closes|
  {
    && w >= 0.0
    && (forall j: nat | j < n :: Fall(Peak(closes, j), closes[j]) <= w)
    && (w == 0.0 || exists j: nat | j < n :: Fall(Peak(closes, j), closes[j]) == w)
  }

  /** `w` is the largest fall from any positive close to a later one, or 0. */
  ghost predicate LargestFall(closes: seq<real>, w: real) {
    && w >= 0.0
    && (forall i: nat, j: nat | i <= j < |closes| :: Fall(closes[i], closes[j]) <= w)
    && (w == 0.0 || exists i: nat, j: nat | i <= j < |closes| :: Fall(closes[i], closes[j]) == w)
  }

  /** No negative close follows a positive one. */
  ghost predicate NeverBelowZero(closes: seq<real>) {
    forall i: nat, j: nat | i <= j < |closes| && closes[i] > 0.0 :: closes[j] >= 0.0
  }

  method MaxDrawdownPct(closes: seq<real>) returns (r: Option<real>)
    ensures r.None? <==> |closes| < 2
    ensures r.Some? ==> LargestFallFromPeak(closes, |closes|, r.value / 100.0)
  {
    if |closes| < 2 { return None; }
    var peak := closes[0];
    var worst := 0.0;
    var k := 0;
    while k < |closes|
      invariant 0 <= k <= |closes|
      invariant peak == if k == 0 then closes[0] else Peak(closes, k - 1)
      invariant LargestFallFromPeak(closes, k, worst)
    {
      var close := closes[k];
      if close > peak { peak := close; }
      OneMoreClose(closes, k, worst, Fall(peak, close));
      if peak > 0.0 {
        var fall := (peak - close) / peak;
        worst := if fall > worst then fall else worst;
      }
      k := k + 1;
    }
    r := Some(worst * 100.0);
    assert r.value / 100.0 == worst;
  }

  lemma OneMoreClose(closes: seq<real>, k: nat, worst: real, fall: real)
    requires k < |closes| && LargestFallFromPeak(closes, k, worst) && fall == Fall(Peak(closes, k), closes[k])
    ensures LargestFallFromPeak(closes, k + 1, if fall > worst then fall else worst)
  {
    var w := if fall > worst then fall else worst;
    if w != 0.0 {
      if w == fall {
        assert Fall(Peak(closes, k), closes[k]) == w;
      } else {
        var j: nat :| j < k && Fall(Peak(closes, j), closes[j]) == w;
        assert j < k + 1;
      }
    }
  }

  // ---------- the one pass finds the largest fall over all pairs ----------

  lemma {:induction false} PeakIsHighest(closes: seq<real>, j: nat)
    requires j < |closes|
    ensures forall i: nat | i <= j :: closes[i] <= Peak(closes, j)
    ensures exists i: nat | i <= j :: closes[i] == Peak(closes, j)
  {
    if j > 0 {
      PeakIsHighest(closes, j - 1);
    }
    assert closes[j] == Peak(closes, j) || (j > 0 && Peak(closes, j) == Peak(closes, j - 1));
  }

  /** To a close that is not negative, a fall from higher up is larger. */
  lemma HigherFallsFurther(low: real, high: real, to: real)
    requires low <= high && 0.0 <= to <= high
    ensures Fall(low, to) <= Fall(high, to) && 0.0 <= Fall(high, to) <= 1.0
  {
    if high > 0.0 {
      SplitFall(high, to);
      QuotientShrinks(to, high, high);
      QuotientAtMostOne(to, high);
      if low > 0.0 {
        SplitFall(low, to);
        QuotientShrinks(to, low, high);
      }
    }
  }

  lemma SplitFall(from: real, to: real)
    requires from > 0.0
    ensures Fall(from, to) == 1.0 - to / from
  {
    var q := to / from;
    assert q * from == to;
    assert (1.0 - q) * from == from - to;
    DivideOut(from - to, from, 1.0 - q);
  }

  lemma QuotientAtMostOne(to: real, from: real)
    requires from > 0.0 && to <= from
    ensures to / from <= 1.0
  {
  }

  lemma QuotientShrinks(to: real, low: real, high: real)
    requires to >= 0.0 && 0.0 < low <= high
    ensures 0.0 <= to / high <= to / low
  {
    var a, b := to / low, to / high;
    assert a * low == to && b * high == to;
    if b > a {
      assert b * high >= b * low > a * low;
    }
  }

  lemma PeakDominates(closes: seq<real>, i: nat, j: nat)
    requires i <= j < |closes| && (closes[i] > 0.0 ==> closes[j] >= 0.0)
    ensures Fall(closes[i], closes[j]) <= Fall(Peak(closes, j), closes[j])
  {
    PeakIsHighest(closes, j);
    if closes[i] > 0.0 {
      HigherFallsFurther(closes[i], Peak(closes, j), closes[j]);
    } else {
      FallFromPeak(closes, j);
    }
  }

  lemma FallFromPeak(closes: seq<real>, j: nat)
    requires j < |closes|
    ensures Fall(Peak(closes, j), closes[j]) >= 0.0
    ensures exists i: nat | i <= j :: Fall(closes[i], closes[j]) == Fall(Peak(closes, j), closes[j])
  {
    PeakIsHighest(closes, j);
    FallSign(Peak(closes, j), closes[j]);
    var i: nat :| i <= j && closes[i] == Peak(closes, j);
    assert Fall(closes[i], closes[j]) == Fall(Peak(closes, j), closes[j]);
  }

  /** For every series without a negative close after a positive one the fall from the
      running peak and the fall over all pairs agree, and no fall exceeds the whole. */
  lemma PeakFallIsLargestFall(closes: seq<real>, w: real)
    requires NeverBelowZero(closes)
    ensures LargestFallFromPeak(closes, |closes|, w) <==> LargestFall(closes, w)
    ensures LargestFall(closes, w) ==> w <= 1.0
  {
    forall i: nat, j: nat | i <= j < |closes|
      ensures Fall(closes[i], closes[j]) <= Fall(Peak(closes, j), closes[j])
    {
      PeakDominates(closes, i, j);
    }
    forall j: nat | j < |closes|
      ensures exists i: nat | i <= j :: Fall(closes[i], closes[j]) == Fall(Peak(closes, j), closes[j])
      ensures Fall(Peak(closes, j), closes[j]) <= 1.0
    {
      FallFromPeak(closes, j);
      PeakIsHighest(closes, j);
      OverAll(Peak(closes, j), closes[j]);
    }
  }

  /** For any series the pairs never find less, and they find more exactly when some fall
      to a close below zero is larger than every fall from the peak. */
  lemma PairsDifferBelowZero(closes: seq<real>, w: real, v: real)
    requires LargestFallFromPeak(closes, |closes|, w) && LargestFall(closes, v)
    ensures w <= v
    ensures w < v <==> exists i: nat, j: nat | i <= j < |closes| && closes[i] > 0.0 > closes[j] :: Fall(closes[i], closes[j]) > w
  {
    if w != 0.0 {
      var j: nat :| j < |closes| && Fall(Peak(closes, j), closes[j]) == w;
      FallFromPeak(closes, j);
    }
    if w < v {
      var i: nat, j: nat :| i <= j < |closes| && Fall(closes[i], closes[j]) == v;
      if !(closes[i] > 0.0 > closes[j]) {
        PeakDominates(closes, i, j);
      }
    }
  }

  /** Nothing lost means, for any series, that no close is below an earlier positive one. */
  lemma NoDrawdownIffNeverFalls(closes: seq<real>, w: real)
    requires LargestFallFromPeak(closes, |closes|, w)
    ensures w == 0.0 <==> forall i: nat, j: nat | i <= j < |closes| && closes[i] > 0.0 :: closes[i] <= closes[j]
  {
    forall j: nat | j < |closes|
      ensures Fall(Peak(closes, j), closes[j]) <= 0.0
              <==> forall i: nat | i <= j && closes[i] > 0.0 :: closes[i] <= closes[j]
    {
      PeakIsHighest(closes, j);
      FallSign(Peak(closes, j), closes[j]);
    }
  }

  lemma FallSign(from: real, to: real)
    ensures Fall(from, to) <= 0.0 <==> from <= to || from <= 0.0
    ensures from >= to ==> Fall(from, to) >= 0.0
  {
    if from > 0.0 {
      SplitFall(from, to);
      var q := to / from;
      assert q * from == to;
      assert q >= 1.0 <==> q * from >= from;
    }
  }

  /** A loss of more than everything means a close below zero, and only then. */
  lemma OverAllIffNegativeAfterGain(closes: seq<real>, w: real)
    requires LargestFallFromPeak(closes, |closes|, w)
    ensures w > 1.0 <==> exists i: nat, j: nat | i <= j < |closes| :: closes[i] > 0.0 > closes[j]
  {
    forall j: nat | j < |closes|
      ensures Fall(Peak(closes, j), closes[j]) > 1.0 <==> exists i: nat | i <= j :: closes[i] > 0.0 > closes[j]
    {
      PeakIsHighest(closes, j);
      OverAll(Peak(closes, j), closes[j]);
    }
  }

  lemma OverAll(from: real, to: real)
    ensures Fall(from, to) > 1.0 <==> from > 0.0 > to
  {
    if from > 0.0 {
      SplitFall(from, to);
      var q := to / from;
      assert q * from == to;
      assert q < 0.0 <==> q * from < 0.0;
    }
  }

  /** With a negative close the two readings differ: the peak is not the worst place to fall from. */
  lemma NegativeCloseBreaksPairs()
    ensures LargestFallFromPeak([1.0, 2.0, -1.0], 3, 1.5) && LargestFall([1.0, 2.0, -1.0], 2.0)
  {
    var c := [1.0, 2.0, -1.0];
    assert Peak(c, 0) == 1.0 && Peak(c, 1) == 2.0 && Peak(c, 2) == 2.0;
    assert Fall(Peak(c, 0), c[0]) == 0.0 && Fall(Peak(c, 1), c[1]) == 0.0 && Fall(Peak(c, 2), c[2]) == 1.5;
    assert Fall(c[0], c[1]) == -1.0 && Fall(c[0], c[2]) == 2.0 && Fall(c[1], c[2]) == 1.5;
    assert Fall(c[0], c[0]) == 0.0 && Fall(c[1], c[1]) == 0.0 && Fall(c[2], c[2]) == 0.0;
  }
}
