/** How strongly a calendar day is tinted, measured against the month's median day. */
module TintScale {
  import opened Sorting
  import opened Reals
  import opened Sequences

  const TINT_MEDIUM_RATIO := 0.6
  const TINT_STRONG_RATIO := 1.4

  datatype Sign = Positive | Negative | Flat

  datatype Tint = Tint(sign: Sign, level: nat)

  function Magnitude(value: real): seq<real> {
    if Abs(value) > 0.0 then [Abs(value)] else []
  }

  /** The sizes of the days that moved. */
  function Magnitudes(values: seq<real>): seq<real> {
    if values == [] then [] else Magnitude(values[0]) + Magnitudes(values[1..])
  }

  function ByValue(): Comparator<real> {
    (a: real, b: real) => a - b
  }

  function Median(m: seq<real>): real
    requires m != []
  {
    var middle := |m| / 2;
    if |m| % 2 == 0 then (m[middle - 1] + m[middle]) / 2.0 else m[middle]
  }

  /** The magnitudes in ascending order: entry `k` is the order statistic of rank `k`. */
  function Ranked(values: seq<real>): seq<real> {
    Sort(ByValue(), Magnitudes(values))
  }

  function TintScale(values: seq<real>): real {
    if Ranked(values) == [] then 0.0 else Median(Ranked(values))
  }

  function TintFor(pnl: real, scale: real): Tint {
    if pnl == 0.0 then Tint(Flat, 0) else
      var sign := if pnl > 0.0 then Positive else Negative;
      if scale <= 0.0 then Tint(sign, 1) else
        Tint(sign, Level(Abs(pnl) / scale))
  }

  function Level(ratio: real): nat {
    if ratio < TINT_MEDIUM_RATIO then 1 else if ratio < TINT_STRONG_RATIO then 2 else 3
  }

  // ---------- order statistics ----------

  ghost predicate Rising(m: seq<real>) {
    forall i, j | 0 <= i < j < |m| :: m[i] <= m[j]
  }

  lemma ValueOrder()
    ensures TotalPreorder(ByValue())
  {
  }

  lemma SortRises(s: seq<real>)
    ensures Rising(Sort(ByValue(), s)) && multiset(Sort(ByValue(), s)) == multiset(s) && |Sort(ByValue(), s)| == |s|
  {
    ValueOrder();
    SortOrdered(ByValue(), s);
    SortMembers(ByValue(), s);
    var r := Sort(ByValue(), s);
    forall i, j | 0 <= i < j < |r| ensures r[i] <= r[j] {
      assert ByValue()(r[i], r[j]) <= 0.0;
    }
  }

  /** A rising list is determined by what it contains. */
  lemma {:induction false} RisingUnique(r: seq<real>, t: seq<real>)
    requires Rising(r) && Rising(t) && multiset(r) == multiset(t)
    ensures r == t
    decreases |r|
  {
    if r != [] {
      assert |multiset(r)| == |multiset(t)|;
      SameLeast(r, t);
      assert r == [r[0]] + r[1..] && t == [t[0]] + t[1..];
      assert multiset(r[1..]) == multiset(r) - multiset{r[0]};
      assert multiset(t[1..]) == multiset(t) - multiset{t[0]};
      RisingUnique(r[1..], t[1..]);
    } else {
      assert |multiset(t)| == 0;
    }
  }

  lemma SameLeast(r: seq<real>, t: seq<real>)
    requires Rising(r) && Rising(t) && multiset(r) == multiset(t) && r != [] && t != []
    ensures r[0] == t[0]
  {
    assert r[0] in multiset(t) && t[0] in multiset(r);
    assert r[0] in t && t[0] in r;
  }

  /** Putting one entry more into a rising list moves each entry by at most one rank. */
  lemma {:induction false} InsertShiftsByOne(x: real, b: seq<real>)
    requires Rising(b)
    ensures var r := Insert(ByValue(), x, b);
            |r| == |b| + 1 && (forall k | 0 <= k < |b| :: r[k] <= b[k] <= r[k + 1])
    decreases |b|
  {
    if b != [] && x > b[0] {
      InsertShiftsByOne(x, b[1..]);
      var r, rest := Insert(ByValue(), x, b), Insert(ByValue(), x, b[1..]);
      assert r == [b[0]] + rest;
      InsertMembers(ByValue(), x, b[1..]);
      assert rest[0] == x || rest[0] in b[1..];
      forall k | 0 <= k < |b| ensures r[k] <= b[k] <= r[k + 1] {
        if k > 0 {
          assert b[k] == b[1..][k - 1];
        }
      }
    } else {
      assert Insert(ByValue(), x, b) == [x] + b;
    }
  }

  lemma {:induction false} MagnitudesConcat(a: seq<real>, b: seq<real>)
    ensures Magnitudes(a + b) == Magnitudes(a) + Magnitudes(b)
  {
    if a == [] {
      assert a + b == b;
    } else {
      MagnitudesConcat(a[1..], b);
      assert (a + b)[1..] == a[1..] + b;
      Regroup(Magnitude(a[0]), Magnitudes(a[1..]), Magnitudes(b));
    }
  }

  lemma MagnitudesWithout(a: seq<real>, x: real, b: seq<real>)
    requires x != 0.0
    ensures multiset(Magnitudes(a + [x] + b)) == multiset{Abs(x)} + multiset(Magnitudes(a + b))
  {
    MagnitudesConcat(a + [x], b);
    MagnitudesConcat(a, [x]);
    MagnitudesConcat(a, b);
    assert Magnitudes([x]) == [Abs(x)];
  }

  /** A month is ranked as its other days are, with this one inserted. */
  lemma RankedWithout(a: seq<real>, x: real, b: seq<real>)
    requires x != 0.0
    ensures Ranked(a + [x] + b) == Insert(ByValue(), Abs(x), Ranked(a + b))
  {
    MagnitudesWithout(a, x, b);
    SortRises(Magnitudes(a + b));
    SortRises(Magnitudes(a + [x] + b));
    InsertRises(Abs(x), Ranked(a + b));
    RisingUnique(Ranked(a + [x] + b), Insert(ByValue(), Abs(x), Ranked(a + b)));
  }

  lemma InsertRises(x: real, b: seq<real>)
    requires Rising(b)
    ensures Rising(Insert(ByValue(), x, b)) && multiset(Insert(ByValue(), x, b)) == multiset{x} + multiset(b)
  {
    ValueOrder();
    forall i, j | 0 <= i < j < |b| ensures ByValue()(b[i], b[j]) <= 0.0 {
    }
    InsertOrdered(ByValue(), x, b);
    InsertMembers(ByValue(), x, b);
    var r := Insert(ByValue(), x, b);
    forall i, j | 0 <= i < j < |r| ensures r[i] <= r[j] {
      assert ByValue()(r[i], r[j]) <= 0.0;
    }
  }

  /** Replacing one day that moved by any other that moved shifts no order statistic
      past the old one of the next rank. */
  lemma RanksInterlace(a: seq<real>, x: real, y: real, b: seq<real>)
    requires x != 0.0 && y != 0.0
    ensures var r, t := Ranked(a + [x] + b), Ranked(a + [y] + b);
            |r| == |t| && (forall k | 0 <= k < |r| - 1 :: t[k] <= r[k + 1] && r[k] <= t[k + 1])
  {
    var others := Ranked(a + b);
    SortRises(Magnitudes(a + b));
    RankedWithout(a, x, b);
    RankedWithout(a, y, b);
    InsertShiftsByOne(Abs(x), others);
    InsertShiftsByOne(Abs(y), others);
    var r, t := Ranked(a + [x] + b), Ranked(a + [y] + b);
    forall k | 0 <= k < |r| - 1 ensures t[k] <= r[k + 1] && r[k] <= t[k + 1] {
      assert r[k] <= others[k] <= r[k + 1] && t[k] <= others[k] <= t[k + 1];
    }
  }

  /** One rank below and above the entries the median is taken from. */
  lemma ScaleStaysBetweenNeighbours(a: seq<real>, x: real, y: real, b: seq<real>)
    requires x != 0.0 && y != 0.0 && |Ranked(a + [x] + b)| >= 3
    ensures var r := Ranked(a + [x] + b);
            var low, high := (|r| - 1) / 2, |r| / 2;
            (r[low - 1] + r[high - 1]) / 2.0 <= TintScale(a + [y] + b) <= (r[low + 1] + r[high + 1]) / 2.0
  {
    RanksInterlace(a, x, y, b);
    var r, t := Ranked(a + [x] + b), Ranked(a + [y] + b);
    var low, high := (|r| - 1) / 2, |r| / 2;
    assert TintScale(a + [y] + b) == (t[low] + t[high]) / 2.0;
    assert r[low - 1] <= t[low] <= r[low + 1] && r[high - 1] <= t[high] <= r[high + 1];
  }

  // ---------- the median tint is a typical tint ----------

  /** The days that moved and whose tint satisfies `p`. */
  function MovedDays(values: seq<real>, p: real -> bool): nat {
    if values == [] then 0 else (if values[0] != 0.0 && p(values[0]) then 1 else 0) + MovedDays(values[1..], p)
  }

  function Moved(values: seq<real>): nat {
    if values == [] then 0 else (if values[0] != 0.0 then 1 else 0) + Moved(values[1..])
  }

  function AtMost(level: nat, scale: real): real -> bool {
    v => TintFor(v, scale).level <= level
  }

  function AtLeast(level: nat, scale: real): real -> bool {
    v => TintFor(v, scale).level >= level
  }

  /** The tint of a day that moved depends on the size of the move only. */
  lemma {:induction false} MovedDaysBySize(values: seq<real>, p: real -> bool)
    requires forall v :: p(v) == p(Abs(v))
    ensures MovedDays(values, p) == |Filter(p, Magnitudes(values))|
  {
    if values != [] {
      MovedDaysBySize(values[1..], p);
      var rest := Magnitudes(values[1..]);
      if values[0] != 0.0 {
        FilterHead(p, Abs(values[0]), rest);
      } else {
        assert [] + rest == rest;
      }
    }
  }

  lemma RankedCount(values: seq<real>, p: real -> bool)
    requires forall v :: p(v) == p(Abs(v))
    ensures MovedDays(values, p) == |Filter(p, Ranked(values))|
  {
    MovedDaysBySize(values, p);
    ValueOrder();
    SortFilterCommute(ByValue(), p, Magnitudes(values));
    SortRises(Filter(p, Magnitudes(values)));
  }

  lemma {:induction false} FilterKeeps(p: real -> bool, m: seq<real>, from: nat, to: nat)
    requires from <= to <= |m| && forall k | from <= k < to :: p(m[k])
    ensures |Filter(p, m)| >= to - from
    decreases |m|
  {
    if m != [] && from < to {
      if from == 0 {
        FilterKeeps(p, m[1..], 0, to - 1);
      } else {
        FilterKeeps(p, m[1..], from - 1, to - 1);
      }
    }
  }

  lemma {:induction false} MagnitudesPositive(values: seq<real>)
    ensures forall m <- Magnitudes(values) :: m > 0.0
  {
    if values != [] {
      MagnitudesPositive(values[1..]);
    }
  }

  /** The cuts, as multiples of the scale. */
  lemma TintCuts(v: real, scale: real)
    requires v != 0.0 && scale > 0.0
    ensures TintFor(v, scale).level == 1 <==> Abs(v) < 0.6 * scale
    ensures TintFor(v, scale).level == 2 <==> 0.6 * scale <= Abs(v) < 1.4 * scale
    ensures TintFor(v, scale).level == 3 <==> 1.4 * scale <= Abs(v)
    ensures TintFor(v, scale).sign == if v > 0.0 then Positive else Negative
  {
    var ratio := Ratio(Abs(v), scale);
    LevelOfRatio(v, scale, ratio);
    RatioCut(Abs(v), scale, ratio, 0.6);
    RatioCut(Abs(v), scale, ratio, 1.4);
    LevelCuts(Abs(v), scale, ratio);
  }

  lemma LevelCuts(m: real, scale: real, ratio: real)
    requires ratio < 0.6 <==> m < 0.6 * scale
    requires ratio < 1.4 <==> m < 1.4 * scale
    ensures Level(ratio) == 1 <==> m < 0.6 * scale
    ensures Level(ratio) == 2 <==> !(m < 0.6 * scale) && m < 1.4 * scale
    ensures Level(ratio) == 3 <==> !(m < 1.4 * scale)
  {
  }

  lemma LevelOfRatio(v: real, scale: real, ratio: real)
    requires v != 0.0 && scale > 0.0 && ratio == Abs(v) / scale
    ensures TintFor(v, scale) == Tint(if v > 0.0 then Positive else Negative, Level(ratio))
  {
  }

  lemma Ratio(m: real, scale: real) returns (ratio: real)
    requires scale > 0.0
    ensures ratio == m / scale && ratio * scale == m
  {
    ratio := m / scale;
  }

  lemma RatioCut(m: real, scale: real, ratio: real, cut: real)
    requires scale > 0.0 && ratio * scale == m
    ensures ratio < cut <==> m < cut * scale
  {
    var gap := cut - ratio;
    assert cut * scale - ratio * scale == gap * scale;
    assert gap > 0.0 <==> gap * scale > 0.0;
  }

  /** A day no larger than the scale is not tinted strongly, one no smaller is not tinted lightly. */
  lemma TintAtScale(m: real, scale: real)
    requires m > 0.0 && scale > 0.0
    ensures m <= scale ==> TintFor(m, scale).level <= 2
    ensures m >= scale ==> TintFor(m, scale).level >= 2
  {
    TintCuts(m, scale);
  }

  lemma TintOfSize(v: real, scale: real)
    ensures TintFor(v, scale).level == TintFor(Abs(v), scale).level
  {
  }

  lemma {:induction false} AllMoved(values: seq<real>)
    ensures Moved(values) == |Magnitudes(values)|
    ensures Magnitudes(values) != [] <==> exists v <- values :: v != 0.0
  {
    if values != [] {
      AllMoved(values[1..]);
      assert forall v :: v in values <==> v == values[0] || v in values[1..];
      assert values[0] in values;
    }
  }

  lemma MedianInRange(m: seq<real>)
    requires Rising(m) && m != []
    ensures forall k | 0 <= k < (|m| + 1) / 2 :: m[k] <= Median(m)
    ensures forall k | |m| / 2 <= k < |m| :: m[k] >= Median(m)
    ensures m[0] <= Median(m)
  {
  }

  lemma RankedPositive(values: seq<real>)
    requires Ranked(values) != []
    ensures Rising(Ranked(values)) && TintScale(values) > 0.0 && forall m <- Ranked(values) :: m > 0.0
  {
    SortRises(Magnitudes(values));
    SortMembers(ByValue(), Magnitudes(values));
    MagnitudesPositive(values);
    MedianInRange(Ranked(values));
    assert Ranked(values)[0] in Ranked(values);
  }

  lemma MedianSplits(values: seq<real>)
    requires Ranked(values) != []
    ensures var scale, m := TintScale(values), Ranked(values);
            2 * |Filter(AtMost(2, scale), m)| >= |m| && 2 * |Filter(AtLeast(2, scale), m)| >= |m|
  {
    var scale, m := TintScale(values), Ranked(values);
    RankedPositive(values);
    MedianInRange(m);
    forall k | 0 <= k < |m|
      ensures k < (|m| + 1) / 2 ==> AtMost(2, scale)(m[k])
      ensures k >= |m| / 2 ==> AtLeast(2, scale)(m[k])
    {
      assert m[k] in m;
      TintAtScale(m[k], scale);
    }
    FilterKeeps(AtMost(2, scale), m, 0, (|m| + 1) / 2);
    FilterKeeps(AtLeast(2, scale), m, |m| / 2, |m|);
  }

  /** At least half of the days that moved are tinted no stronger than medium, and
      at least half no lighter; a month with a day that moved has a scale. */
  lemma HalfOnEitherSide(values: seq<real>)
    ensures var scale := TintScale(values);
            && 2 * MovedDays(values, AtMost(2, scale)) >= Moved(values)
            && 2 * MovedDays(values, AtLeast(2, scale)) >= Moved(values)
            && (scale > 0.0 <==> exists v <- values :: v != 0.0)
  {
    var scale := TintScale(values);
    AllMoved(values);
    SortRises(Magnitudes(values));
    forall v ensures AtMost(2, scale)(v) == AtMost(2, scale)(Abs(v)) && AtLeast(2, scale)(v) == AtLeast(2, scale)(Abs(v)) {
      TintOfSize(v, scale);
    }
    RankedCount(values, AtMost(2, scale));
    RankedCount(values, AtLeast(2, scale));
    if Ranked(values) != [] {
      RankedPositive(values);
      MedianSplits(values);
    }
  }

  // ---------- the unit of account does not matter ----------

  function Mapped(f: real -> real, s: seq<real>): seq<real> {
    if s == [] then [] else [f(s[0])] + Mapped(f, s[1..])
  }

  function Mean(x: real, y: real): real { (x + y) / 2.0 }

  function Share(m: real, scale: real): real { if scale > 0.0 then m / scale else 0.0 }

  /** Another unit keeps order, sign, sizes, means and ratios. */
  ghost predicate ChangeOfUnit(f: real -> real) {
    && (forall x, y :: f(x) <= f(y) <==> x <= y)
    && (forall x :: Abs(f(x)) == f(Abs(x)))
    && f(0.0) == 0.0
    && (forall x, y :: f(Mean(x, y)) == Mean(f(x), f(y)))
    && (forall m, scale | scale > 0.0 :: Share(f(m), f(scale)) == Share(m, scale))
  }

  function Times(c: real): real -> real {
    x => c * x
  }

  lemma TimesOrder(c: real, x: real, y: real)
    requires c > 0.0
    ensures Times(c)(x) <= Times(c)(y) <==> x <= y
  {
    var gap := y - x;
    assert c * y - c * x == c * gap;
    assert c * gap >= 0.0 <==> gap >= 0.0;
  }

  lemma TimesSize(c: real, v: real)
    requires c > 0.0
    ensures Abs(Times(c)(v)) == Times(c)(Abs(v))
  {
    TimesOrder(c, v, 0.0);
    TimesOrder(c, 0.0, v);
    assert c * (-v) == -(c * v);
  }

  lemma TimesMean(c: real, x: real, y: real)
    ensures Times(c)(Mean(x, y)) == Mean(Times(c)(x), Times(c)(y))
  {
    assert c * ((x + y) / 2.0) == (c * x + c * y) / 2.0;
  }

  lemma TimesShare(c: real, m: real, scale: real)
    requires c > 0.0 && scale > 0.0
    ensures Share(Times(c)(m), Times(c)(scale)) == Share(m, scale)
  {
    TimesOrder(c, scale, 0.0);
    var ratio := Ratio(m, scale);
    assert ratio * (c * scale) == c * (ratio * scale);
    DivideOut(c * m, c * scale, ratio);
  }

  /** Counting in units `c` times smaller is a change of unit. */
  lemma TimesChangesUnit(c: real)
    requires c > 0.0
    ensures ChangeOfUnit(Times(c))
  {
    forall x, y ensures Times(c)(x) <= Times(c)(y) <==> x <= y {
      TimesOrder(c, x, y);
    }
    forall x ensures Abs(Times(c)(x)) == Times(c)(Abs(x)) {
      TimesSize(c, x);
    }
    forall x, y ensures Times(c)(Mean(x, y)) == Mean(Times(c)(x), Times(c)(y)) {
      TimesMean(c, x, y);
    }
    forall m, scale | scale > 0.0 ensures Share(Times(c)(m), Times(c)(scale)) == Share(m, scale) {
      TimesShare(c, m, scale);
    }
  }

  lemma MappedHead(f: real -> real, x: real, s: seq<real>)
    ensures Mapped(f, [x] + s) == [f(x)] + Mapped(f, s)
  {
    assert ([x] + s)[1..] == s;
  }

  lemma {:induction false} MappedAt(f: real -> real, s: seq<real>)
    ensures |Mapped(f, s)| == |s| && forall k | 0 <= k < |s| :: Mapped(f, s)[k] == f(s[k])
  {
    if s != [] {
      MappedAt(f, s[1..]);
    }
  }

  lemma {:induction false} MappedInsert(f: real -> real, x: real, s: seq<real>)
    requires ChangeOfUnit(f)
    ensures Insert(ByValue(), f(x), Mapped(f, s)) == Mapped(f, Insert(ByValue(), x, s))
  {
    MappedHead(f, x, s);
    if s != [] {
      assert f(x) <= f(s[0]) <==> x <= s[0];
      MappedInsert(f, x, s[1..]);
      MappedHead(f, s[0], Insert(ByValue(), x, s[1..]));
      assert Mapped(f, s)[1..] == Mapped(f, s[1..]);
    }
  }

  lemma {:induction false} MappedSort(f: real -> real, s: seq<real>)
    requires ChangeOfUnit(f)
    ensures Sort(ByValue(), Mapped(f, s)) == Mapped(f, Sort(ByValue(), s))
  {
    if s != [] {
      MappedSort(f, s[1..]);
      MappedInsert(f, s[0], Sort(ByValue(), s[1..]));
      assert Mapped(f, s)[1..] == Mapped(f, s[1..]);
    }
  }

  lemma {:induction false} MappedMagnitudes(f: real -> real, values: seq<real>)
    requires ChangeOfUnit(f)
    ensures Magnitudes(Mapped(f, values)) == Mapped(f, Magnitudes(values))
  {
    if values != [] {
      MappedMagnitudes(f, values[1..]);
      assert Mapped(f, values)[1..] == Mapped(f, values[1..]);
      MappedMagnitude(f, values[0], Magnitudes(values[1..]));
    }
  }

  lemma MappedMagnitude(f: real -> real, v: real, rest: seq<real>)
    requires ChangeOfUnit(f)
    ensures Magnitude(f(v)) + Mapped(f, rest) == Mapped(f, Magnitude(v) + rest)
  {
    assert Abs(f(v)) == f(Abs(v));
    assert f(Abs(v)) <= f(0.0) <==> Abs(v) <= 0.0;
    MappedHead(f, Abs(v), rest);
    assert [] + rest == rest && [] + Mapped(f, rest) == Mapped(f, rest);
  }

  lemma MappedMedian(f: real -> real, m: seq<real>)
    requires ChangeOfUnit(f) && m != []
    ensures |Mapped(f, m)| == |m| && Median(Mapped(f, m)) == f(Median(m))
  {
    MappedAt(f, m);
    if |m| % 2 == 0 {
      assert f(Mean(m[|m| / 2 - 1], m[|m| / 2])) == Mean(f(m[|m| / 2 - 1]), f(m[|m| / 2]));
    }
  }

  lemma MappedScale(f: real -> real, values: seq<real>)
    requires ChangeOfUnit(f)
    ensures TintScale(Mapped(f, values)) == f(TintScale(values))
  {
    MappedMagnitudes(f, values);
    MappedSort(f, Magnitudes(values));
    if Ranked(values) != [] {
      MappedMedian(f, Ranked(values));
    }
  }

  lemma SameTint(f: real -> real, v: real, scale: real)
    requires ChangeOfUnit(f)
    ensures TintFor(f(v), f(scale)) == TintFor(v, scale)
  {
    assert f(v) <= f(0.0) <==> v <= 0.0;
    assert f(0.0) <= f(v) <==> 0.0 <= v;
    assert f(scale) <= f(0.0) <==> scale <= 0.0;
    if scale > 0.0 {
      assert Share(f(Abs(v)), f(scale)) == Share(Abs(v), scale);
    }
  }

  /** Stating every day of the month in another unit changes no tint. */
  lemma UnitsDoNotMatter(f: real -> real, values: seq<real>, v: real)
    requires ChangeOfUnit(f)
    ensures TintFor(f(v), TintScale(Mapped(f, values))) == TintFor(v, TintScale(values))
  {
    MappedScale(f, values);
    SameTint(f, v, TintScale(values));
  }

  // ---------- the scale and the edges, written out ----------

  /** The sizes of the days that moved: none for a day of exactly zero, else its distance from zero. */
  lemma SizesOfDays(a: seq<real>, x: real, b: seq<real>)
    ensures Magnitudes(a + [x] + b) == Magnitudes(a) + (if x == 0.0 then [] else if x < 0.0 then [-x] else [x]) + Magnitudes(b)
    ensures Magnitudes([]) == []
  {
    MagnitudesConcat(a + [x], b);
    MagnitudesConcat(a, [x]);
    assert Magnitudes([x]) == Magnitude(x);
  }

  /** The scale is the median: with the sizes in rising order, the middle one, or the mean
      of the two in the middle, and 0 when nothing moved. */
  lemma ScaleIsMedian(values: seq<real>, m: seq<real>)
    requires Rising(m) && multiset(m) == multiset(Magnitudes(values))
    ensures TintScale(values) == if m == [] then 0.0 else (m[(|m| - 1) / 2] + m[|m| / 2]) / 2.0
  {
    SortRises(Magnitudes(values));
    RisingUnique(m, Ranked(values));
    if m != [] {
      MedianIsMiddle(m);
    }
  }

  lemma MedianIsMiddle(m: seq<real>)
    requires m != []
    ensures Median(m) == (m[(|m| - 1) / 2] + m[|m| / 2]) / 2.0
  {
    var h := |m| / 2;
    if |m| % 2 == 0 {
      assert |m| == 2 * h && (|m| - 1) / 2 == h - 1;
    } else {
      assert |m| == 2 * h + 1 && (|m| - 1) / 2 == h;
    }
  }

  /** A day of exactly zero is flat and untinted; without a scale any other day is light. */
  lemma TintEdges(v: real, scale: real)
    ensures TintFor(0.0, scale) == Tint(Flat, 0)
    ensures v != 0.0 && scale <= 0.0 ==> TintFor(v, scale) == Tint(if v > 0.0 then Positive else Negative, 1)
  {
  }
}
