/** Collapsing intraday rows into one bar per date. */
module Resample {
  import opened Sequences
  import opened Sorting
  import opened DateLists

  /** An intraday row or a daily bar; `date` is a day number. */
  datatype Bar = Bar(date: int, open: real, high: real, low: real, close: real, volume: int)

  function OnDate(rows: seq<Bar>, d: int): seq<Bar> {
    if rows == [] then [] else OnDate(rows[..|rows| - 1], d) + if rows[|rows| - 1].date == d then [rows[|rows| - 1]] else []
  }

  function High(bars: seq<Bar>): real
    requires bars != []
  {
    var n := |bars| - 1;
    if n == 0 then bars[n].high else var h := High(bars[..n]); if bars[n].high > h then bars[n].high else h
  }

  function Low(bars: seq<Bar>): real
    requires bars != []
  {
    var n := |bars| - 1;
    if n == 0 then bars[n].low else var l := Low(bars[..n]); if bars[n].low < l then bars[n].low else l
  }

  lemma {:induction false} HighIsHighest(bars: seq<Bar>)
    requires bars != []
    ensures (forall b <- bars :: b.high <= High(bars)) && exists b <- bars :: b.high == High(bars)
  {
    var n := |bars| - 1;
    assert bars[n] in bars;
    if n > 0 {
      var before := bars[..n];
      HighIsHighest(before);
      forall b | b in bars ensures b.high <= High(bars) {
        assert b == bars[n] || b in before;
      }
      var best :| best in before && best.high == High(before);
      assert best in bars;
    }
  }

  lemma {:induction false} LowIsLowest(bars: seq<Bar>)
    requires bars != []
    ensures (forall b <- bars :: b.low >= Low(bars)) && exists b <- bars :: b.low == Low(bars)
  {
    var n := |bars| - 1;
    assert bars[n] in bars;
    if n > 0 {
      var before := bars[..n];
      LowIsLowest(before);
      forall b | b in bars ensures b.low >= Low(bars) {
        assert b == bars[n] || b in before;
      }
      var best :| best in before && best.low == Low(before);
      assert best in bars;
    }
  }

  function Volume(bars: seq<Bar>): int {
    if bars == [] then 0 else Volume(bars[..|bars| - 1]) + bars[|bars| - 1].volume
  }

  /** First open, highest high, lowest low, last close, summed volume. */
  function Aggregate(bars: seq<Bar>): Bar
    requires bars != []
  {
    Bar(bars[0].date, bars[0].open, High(bars), Low(bars), bars[|bars| - 1].close, Volume(bars))
  }

  /** The bar of a day's rows, if it has any. */
  function DayBar(s: seq<Bar>): seq<Bar> {
    if s == [] then [] else [Aggregate(s)]
  }

  ghost predicate Ascending(out: seq<Bar>) {
    forall i, j | 0 <= i < j < |out| :: out[i].date < out[j].date
  }

  /** In date order, each date has the bar of its own rows, and none when it has no rows. */
  ghost predicate Resampled(rows: seq<Bar>, out: seq<Bar>) {
    Ascending(out) && forall d :: OnDate(out, d) == DayBar(OnDate(rows, d))
  }

  // ---------- the rows of a date ----------

  lemma {:induction false} OnDateMembers(rows: seq<Bar>, d: int)
    ensures forall b :: b in OnDate(rows, d) <==> b in rows && b.date == d
  {
    if rows != [] {
      OnDateMembers(rows[..|rows| - 1], d);
      assert rows == rows[..|rows| - 1] + [rows[|rows| - 1]];
    }
  }

  lemma {:induction false} NoneOnDate(rows: seq<Bar>, d: int)
    requires forall r <- rows :: r.date != d
    ensures OnDate(rows, d) == []
  {
    if rows != [] {
      NoneOnDate(rows[..|rows| - 1], d);
    }
  }

  lemma {:induction false} AllOnDate(rows: seq<Bar>, d: int)
    requires forall b <- rows :: b.date == d
    ensures OnDate(rows, d) == rows
    decreases |rows|
  {
    if rows != [] {
      AllOnDate(rows[..|rows| - 1], d);
    }
  }

  lemma OnDateNext(rows: seq<Bar>, r: Bar, d: int)
    ensures OnDate(rows + [r], d) == OnDate(rows, d) + if r.date == d then [r] else []
  {
    assert (rows + [r])[..|rows|] == rows;
  }

  lemma {:induction false} OnDateConcat(a: seq<Bar>, b: seq<Bar>, d: int)
    ensures OnDate(a + b, d) == OnDate(a, d) + OnDate(b, d)
    decreases |b|
  {
    if b == [] {
      assert a + b == a;
    } else {
      var n := |b| - 1;
      OnDateConcat(a, b[..n], d);
      assert (a + b)[..|a + b| - 1] == a + b[..n];
    }
  }

  lemma FirstOnDate(rows: seq<Bar>, d: int)
    requires OnDate(rows, d) != []
    ensures OnDate(rows, d)[0].date == d && OnDate(rows, d)[0] in rows
  {
    OnDateMembers(rows, d);
    assert OnDate(rows, d)[0] in OnDate(rows, d);
  }

  /** A date occurs at most once in ascending bars. */
  lemma OnlyOnDate(out: seq<Bar>, k: nat)
    requires Ascending(out) && k < |out|
    ensures OnDate(out, out[k].date) == [out[k]]
  {
    var d := out[k].date;
    assert out == out[..k] + [out[k]] + out[k + 1..];
    OnDateConcat(out[..k] + [out[k]], out[k + 1..], d);
    OnDateConcat(out[..k], [out[k]], d);
    NoneOnDate(out[..k], d);
    NoneOnDate(out[k + 1..], d);
    AllOnDate([out[k]], d);
  }

  // ---------- the two loops ----------

  /** The keys of the dictionary, each once. */
  ghost predicate KeysOf(buckets: map<int, seq<Bar>>, keys: seq<int>) {
    && (forall d :: d in buckets <==> d in keys)
    && (forall i, j | 0 <= i < j < |keys| :: keys[i] != keys[j])
  }

  /** Every date that has rows has them in its bucket, in order. */
  ghost predicate Filed(rows: seq<Bar>, buckets: map<int, seq<Bar>>) {
    forall d :: OnDate(rows, d) == BucketOf(buckets, d)
  }

  ghost predicate NoneEmpty(buckets: map<int, seq<Bar>>) {
    forall d <- buckets :: buckets[d] != []
  }

  method DailyFromIntraday(rows: seq<Bar>) returns (out: seq<Bar>)
    ensures Resampled(rows, out)
  {
    var buckets, keys := FileRows(rows);
    RowsFiled(rows);
    var dates := Sort(ByDate(), keys);
    DatesAscend(keys);
    BucketsFiled(rows, buckets, keys, dates);
    out := Collapse(buckets, dates);
    BarsResample(rows, buckets, keys, dates, out);
  }

  function BucketOf(buckets: map<int, seq<Bar>>, d: int): seq<Bar> {
    if d in buckets then buckets[d] else []
  }

  function BucketMap(rows: seq<Bar>): map<int, seq<Bar>> {
    if rows == [] then map[] else
      var buckets, r := BucketMap(rows[..|rows| - 1]), rows[|rows| - 1];
      buckets[r.date := BucketOf(buckets, r.date) + [r]]
  }

  /** The dates in the order they first appear, as the dictionary keeps its keys. */
  function FirstSeen(rows: seq<Bar>): seq<int> {
    if rows == [] then [] else
      var n := |rows| - 1;
      FirstSeen(rows[..n]) + if rows[n].date in BucketMap(rows[..n]) then [] else [rows[n].date]
  }

  /** The first loop; `keys` is the insertion order of the bucket dictionary. */
  method FileRows(rows: seq<Bar>) returns (buckets: map<int, seq<Bar>>, keys: seq<int>)
    ensures buckets == BucketMap(rows) && keys == FirstSeen(rows)
  {
    buckets, keys := map[], [];
    for k := 0 to |rows|
      invariant buckets == BucketMap(rows[..k]) && keys == FirstSeen(rows[..k])
    {
      var r := rows[k];
      assert rows[..k + 1][..k] == rows[..k];
      if r.date !in buckets {
        buckets := buckets[r.date := []];
        keys := keys + [r.date];
      }
      buckets := buckets[r.date := buckets[r.date] + [r]];
    }
    assert rows[..|rows|] == rows;
  }

  lemma {:induction false} RowsFiled(rows: seq<Bar>)
    ensures var buckets := BucketMap(rows);
            KeysOf(buckets, FirstSeen(rows)) && NoneEmpty(buckets) && Filed(rows, buckets)
  {
    if rows != [] {
      var n := |rows| - 1;
      RowsFiled(rows[..n]);
      var buckets := BucketMap(rows[..n]);
      FileRow(rows[..n], rows[n], buckets);
      FileKey(buckets, FirstSeen(rows[..n]), rows[n].date, BucketOf(buckets, rows[n].date) + [rows[n]]);
      assert rows == rows[..n] + [rows[n]];
    }
  }

  lemma FileKey(buckets: map<int, seq<Bar>>, keys: seq<int>, d: int, bucket: seq<Bar>)
    requires KeysOf(buckets, keys) && NoneEmpty(buckets) && bucket != []
    ensures KeysOf(buckets[d := bucket], keys + if d in buckets then [] else [d]) && NoneEmpty(buckets[d := bucket])
  {
  }

  lemma FileRow(rows: seq<Bar>, r: Bar, buckets: map<int, seq<Bar>>)
    requires Filed(rows, buckets)
    ensures Filed(rows + [r], buckets[r.date := BucketOf(buckets, r.date) + [r]])
  {
    var after := buckets[r.date := BucketOf(buckets, r.date) + [r]];
    forall d ensures OnDate(rows + [r], d) == BucketOf(after, d) {
      OnDateNext(rows, r, d);
      assert OnDate(rows, d) == BucketOf(buckets, d);
    }
  }

  ghost predicate Buckets(buckets: map<int, seq<Bar>>, dates: seq<int>) {
    forall i | 0 <= i < |dates| :: dates[i] in buckets && buckets[dates[i]] != [] && buckets[dates[i]][0].date == dates[i]
  }

  ghost predicate Collapsed(buckets: map<int, seq<Bar>>, dates: seq<int>, out: seq<Bar>) {
    && |out| == |dates|
    && forall i | 0 <= i < |dates| ::
      dates[i] in buckets && buckets[dates[i]] != [] && out[i].date == dates[i] && out[i] == Aggregate(buckets[dates[i]])
  }

  /** The second loop: the buckets in date order, one bar each. */
  method Collapse(buckets: map<int, seq<Bar>>, dates: seq<int>) returns (out: seq<Bar>)
    requires Buckets(buckets, dates)
    ensures Collapsed(buckets, dates, out)
  {
    out := [];
    for k := 0 to |dates|
      invariant Collapsed(buckets, dates[..k], out)
    {
      var d := dates[k];
      var bars := buckets[d];
      var bar := Bar(d, bars[0].open, High(bars), Low(bars), bars[|bars| - 1].close, Volume(bars));
      AnotherBar(buckets, dates[..k], out, d, bar);
      assert dates[..k + 1] == dates[..k] + [d];
      out := out + [bar];
    }
    assert dates[..|dates|] == dates;
  }

  lemma AnotherBar(buckets: map<int, seq<Bar>>, dates: seq<int>, out: seq<Bar>, d: int, bar: Bar)
    requires Collapsed(buckets, dates, out)
    requires d in buckets && buckets[d] != [] && bar.date == d && bar == Aggregate(buckets[d])
    ensures Collapsed(buckets, dates + [d], out + [bar])
  {
  }

  lemma BucketsFiled(rows: seq<Bar>, buckets: map<int, seq<Bar>>, keys: seq<int>, dates: seq<int>)
    requires Filed(rows, buckets) && NoneEmpty(buckets) && KeysOf(buckets, keys) && forall d :: d in dates <==> d in keys
    ensures Buckets(buckets, dates)
  {
    forall i | 0 <= i < |dates|
      ensures dates[i] in buckets && buckets[dates[i]] != [] && buckets[dates[i]][0].date == dates[i]
    {
      assert dates[i] in dates;
      assert OnDate(rows, dates[i]) == BucketOf(buckets, dates[i]);
      FirstOnDate(rows, dates[i]);
    }
  }

  lemma BarsResample(rows: seq<Bar>, buckets: map<int, seq<Bar>>, keys: seq<int>, dates: seq<int>, out: seq<Bar>)
    requires Filed(rows, buckets) && KeysOf(buckets, keys)
    requires forall d :: d in dates <==> d in keys
    requires forall i, j | 0 <= i < j < |dates| :: dates[i] < dates[j]
    requires Collapsed(buckets, dates, out)
    ensures Resampled(rows, out)
  {
    forall d ensures OnDate(out, d) == DayBar(OnDate(rows, d)) {
      assert OnDate(rows, d) == BucketOf(buckets, d);
      if d in dates {
        var k :| 0 <= k < |dates| && dates[k] == d;
        OnlyOnDate(out, k);
      } else {
        NoneOnDate(out, d);
      }
    }
  }

  // ---------- the bars are determined by the rows ----------

  lemma ShorterDate(x: seq<Bar>, d: int)
    requires x != []
    ensures OnDate(x, d) == OnDate(x[..|x| - 1], d) + if x[|x| - 1].date == d then [x[|x| - 1]] else []
  {
  }

  lemma LastDateAtMost(x: seq<Bar>, y: seq<Bar>)
    requires Ascending(y) && x != [] && forall d :: OnDate(x, d) == OnDate(y, d)
    ensures y != [] && x[|x| - 1].date <= y[|y| - 1].date
  {
    var d := x[|x| - 1].date;
    ShorterDate(x, d);
    assert OnDate(x, d) == OnDate(y, d);
    FirstOnDate(y, d);
    AtMostLast(y, OnDate(y, d)[0]);
  }

  lemma AtMostLast(y: seq<Bar>, b: Bar)
    requires Ascending(y) && b in y
    ensures b.date <= y[|y| - 1].date
  {
  }

  lemma {:induction false} AscendingUnique(x: seq<Bar>, y: seq<Bar>)
    requires Ascending(x) && Ascending(y) && forall d :: OnDate(x, d) == OnDate(y, d)
    ensures x == y
    decreases |x|
  {
    if x != [] {
      LastDateAtMost(x, y);
      LastDateAtMost(y, x);
      var m, n := |x| - 1, |y| - 1;
      OnlyOnDate(x, m);
      OnlyOnDate(y, n);
      assert x[m] == y[n];
      forall d ensures OnDate(x[..m], d) == OnDate(y[..n], d) {
        ShorterDate(x, d);
        ShorterDate(y, d);
        assert OnDate(x, d) == OnDate(y, d);
        SameStart(OnDate(x[..m], d), OnDate(y[..n], d), if x[m].date == d then [x[m]] else []);
      }
      AscendingUnique(x[..m], y[..n]);
      assert x == x[..m] + [x[m]] && y == y[..n] + [y[n]];
    } else if y != [] {
      LastDateAtMost(y, x);
    }
  }

  /** Only one list of bars summarises the rows. */
  lemma ResampledUnique(rows: seq<Bar>, x: seq<Bar>, y: seq<Bar>)
    requires Resampled(rows, x) && Resampled(rows, y)
    ensures x == y
  {
    forall d ensures OnDate(x, d) == OnDate(y, d) {
      assert OnDate(x, d) == DayBar(OnDate(rows, d));
      assert OnDate(y, d) == DayBar(OnDate(rows, d));
    }
    AscendingUnique(x, y);
  }

  /** The bars' dates are exactly the rows' dates. */
  lemma DatesKept(rows: seq<Bar>, out: seq<Bar>, d: int)
    requires Resampled(rows, out)
    ensures (exists b <- out :: b.date == d) <==> (exists r <- rows :: r.date == d)
  {
    OnDateMembers(rows, d);
    OnDateMembers(out, d);
    assert OnDate(out, d) == DayBar(OnDate(rows, d));
    if b :| b in out && b.date == d {
      assert b in OnDate(out, d);
      FirstOnDate(rows, d);
    }
    if r :| r in rows && r.date == d {
      assert r in OnDate(rows, d);
      FirstOnDate(out, d);
    }
  }

  // ---------- resampling in stages ----------

  function Merge(a: Bar, b: Bar): Bar {
    Bar(a.date, a.open, if b.high > a.high then b.high else a.high, if b.low < a.low then b.low else a.low,
        b.close, a.volume + b.volume)
  }

  function MergeDays(x: seq<Bar>, y: seq<Bar>): seq<Bar> {
    if x == [] then y else if y == [] then x else [Merge(x[0], y[0])]
  }

  lemma AggregateOne(x: Bar)
    ensures Aggregate([x]) == x
  {
    VolumeOne(x);
  }

  lemma AggregateNext(a: seq<Bar>, x: Bar)
    requires a != []
    ensures Aggregate(a + [x]) == Merge(Aggregate(a), x)
  {
    assert (a + [x])[..|a|] == a;
  }

  lemma MergeAssociates(a: Bar, b: Bar, c: Bar)
    ensures Merge(Merge(a, b), c) == Merge(a, Merge(b, c))
  {
  }

  lemma {:induction false} AggregateConcat(a: seq<Bar>, b: seq<Bar>)
    requires a != [] && b != []
    ensures Aggregate(a + b) == Merge(Aggregate(a), Aggregate(b))
    decreases |b|
  {
    var n := |b| - 1;
    if n == 0 {
      assert b == [b[0]];
      AggregateOne(b[0]);
      AggregateNext(a, b[0]);
    } else {
      AggregateConcat(a, b[..n]);
      AggregateStep(a, b[..n], b[n]);
      assert b == b[..n] + [b[n]];
    }
  }

  lemma AggregateStep(a: seq<Bar>, c: seq<Bar>, x: Bar)
    requires a != [] && c != [] && Aggregate(a + c) == Merge(Aggregate(a), Aggregate(c))
    ensures Aggregate(a + (c + [x])) == Merge(Aggregate(a), Aggregate(c + [x]))
  {
    assert a + (c + [x]) == (a + c) + [x];
    AggregateNext(a + c, x);
    AggregateNext(c, x);
    MergeAssociates(Aggregate(a), Aggregate(c), x);
  }

  lemma DayBarConcat(a: seq<Bar>, b: seq<Bar>)
    ensures DayBar(a + b) == MergeDays(DayBar(a), DayBar(b))
  {
    if a == [] {
      assert a + b == b;
    } else if b == [] {
      assert a + b == a;
    } else {
      AggregateConcat(a, b);
    }
  }

  lemma DayBarOfBar(s: seq<Bar>)
    ensures DayBar(DayBar(s)) == DayBar(s)
  {
    if s != [] {
      AggregateOne(Aggregate(s));
    }
  }

  /** Only each date's summary matters: dates may interleave freely. */
  lemma SameDailyBars(rows: seq<Bar>, others: seq<Bar>, out: seq<Bar>)
    requires forall d :: DayBar(OnDate(rows, d)) == DayBar(OnDate(others, d))
    ensures Resampled(rows, out) <==> Resampled(others, out)
  {
    forall d ensures OnDate(out, d) == DayBar(OnDate(rows, d)) <==> OnDate(out, d) == DayBar(OnDate(others, d)) {
      assert DayBar(OnDate(rows, d)) == DayBar(OnDate(others, d));
    }
  }

  /** Any contiguous part of the rows, whether it ends within a day or not, may be
      replaced by its own daily bars. */
  lemma PartMayResampleFirst(a: seq<Bar>, part: seq<Bar>, b: seq<Bar>, bars: seq<Bar>, out: seq<Bar>)
    requires Resampled(part, bars)
    ensures Resampled(a + part + b, out) <==> Resampled(a + bars + b, out)
  {
    forall d ensures DayBar(OnDate(a + part + b, d)) == DayBar(OnDate(a + bars + b, d)) {
      DayBarOfThree(a, part, b, d);
      DayBarOfThree(a, bars, b, d);
      DayBarOfBar(OnDate(part, d));
      assert OnDate(bars, d) == DayBar(OnDate(part, d));
    }
    SameDailyBars(a + part + b, a + bars + b, out);
  }

  lemma DayBarOfThree(a: seq<Bar>, part: seq<Bar>, b: seq<Bar>, d: int)
    ensures DayBar(OnDate(a + part + b, d))
         == MergeDays(MergeDays(DayBar(OnDate(a, d)), DayBar(OnDate(part, d))), DayBar(OnDate(b, d)))
  {
    OnDateConcat(a + part, b, d);
    OnDateConcat(a, part, d);
    DayBarConcat(OnDate(a + part, d), OnDate(b, d));
    DayBarConcat(OnDate(a, d), OnDate(part, d));
  }

  /** In particular a run of one date's rows may be replaced by its aggregate. */
  lemma RunMaySummarise(a: seq<Bar>, run: seq<Bar>, b: seq<Bar>, out: seq<Bar>)
    requires run != [] && forall r <- run :: r.date == run[0].date
    ensures Resampled(a + run + b, out) <==> Resampled(a + [Aggregate(run)] + b, out)
  {
    var bar := Aggregate(run);
    forall d ensures OnDate([bar], d) == DayBar(OnDate(run, d)) {
      if d == run[0].date {
        AllOnDate(run, d);
        AllOnDate([bar], d);
      } else {
        NoneOnDate(run, d);
        NoneOnDate([bar], d);
      }
    }
    PartMayResampleFirst(a, run, b, [bar], out);
  }

  lemma Alone<T>(s: seq<T>)
    ensures [] + s + [] == s
  {
  }

  /** Daily bars resample to themselves. */
  lemma ResampleIdempotent(rows: seq<Bar>, out: seq<Bar>)
    requires Resampled(rows, out)
    ensures Resampled(out, out)
  {
    PartMayResampleFirst([], rows, [], out, out);
    Alone(rows);
    Alone(out);
  }

  // ---------- what carries over from the rows ----------

  lemma {:induction false} VolumeConcat(a: seq<Bar>, b: seq<Bar>)
    ensures Volume(a + b) == Volume(a) + Volume(b)
    decreases |b|
  {
    if b == [] {
      assert a + b == a;
    } else {
      var n := |b| - 1;
      VolumeConcat(a, b[..n]);
      assert (a + b)[..|a + b| - 1] == a + b[..n];
    }
  }

  lemma VolumeOne(x: Bar)
    ensures Volume([x]) == x.volume
  {
    var s := [x];
    assert s[..|s| - 1] == [];
  }

  lemma VolumeOfDay(s: seq<Bar>)
    ensures Volume(DayBar(s)) == Volume(s)
  {
    if s != [] {
      VolumeOne(Aggregate(s));
    }
  }

  /** The volume the rows trade on the dates of `out`. */
  function VolumeOver(out: seq<Bar>, rows: seq<Bar>): int {
    if out == [] then 0 else VolumeOver(out[..|out| - 1], rows) + Volume(OnDate(rows, out[|out| - 1].date))
  }

  ghost predicate HasDate(out: seq<Bar>, d: int) {
    exists b <- out :: b.date == d
  }

  lemma HasDateLast(out: seq<Bar>, d: int)
    requires Ascending(out) && out != []
    ensures HasDate(out, d) <==> HasDate(out[..|out| - 1], d) || out[|out| - 1].date == d
    ensures !(HasDate(out[..|out| - 1], d) && out[|out| - 1].date == d)
  {
    var n := |out| - 1;
    assert out == out[..n] + [out[n]];
    assert out[n] in out;
  }

  lemma VolumeNext(rows: seq<Bar>, r: Bar, d: int)
    ensures Volume(OnDate(rows + [r], d)) == Volume(OnDate(rows, d)) + if r.date == d then r.volume else 0
  {
    OnDateNext(rows, r, d);
    if r.date == d {
      VolumeConcat(OnDate(rows, d), [r]);
      VolumeOne(r);
    } else {
      assert OnDate(rows, d) + [] == OnDate(rows, d);
    }
  }

  lemma {:induction false} OneRowOver(out: seq<Bar>, rows: seq<Bar>, r: Bar)
    requires Ascending(out)
    ensures VolumeOver(out, rows + [r]) == VolumeOver(out, rows) + if HasDate(out, r.date) then r.volume else 0
    decreases |out|
  {
    if out != [] {
      var n := |out| - 1;
      OneRowOver(out[..n], rows, r);
      HasDateLast(out, r.date);
      VolumeNext(rows, r, out[n].date);
    }
  }

  lemma {:induction false} NoRowsOver(out: seq<Bar>)
    ensures VolumeOver(out, []) == 0
  {
    if out != [] {
      NoRowsOver(out[..|out| - 1]);
    }
  }

  lemma {:induction false} EveryRowOver(out: seq<Bar>, rows: seq<Bar>)
    requires Ascending(out) && forall r <- rows :: HasDate(out, r.date)
    ensures VolumeOver(out, rows) == Volume(rows)
    decreases |rows|
  {
    if rows == [] {
      NoRowsOver(out);
    } else {
      var n := |rows| - 1;
      assert rows == rows[..n] + [rows[n]];
      EveryRowOver(out, rows[..n]);
      OneRowOver(out, rows[..n], rows[n]);
    }
  }

  lemma {:induction false} SameVolumeOver(dates: seq<Bar>, rows: seq<Bar>, out: seq<Bar>)
    requires Resampled(rows, out)
    ensures VolumeOver(dates, rows) == VolumeOver(dates, out)
    decreases |dates|
  {
    if dates != [] {
      var n := |dates| - 1;
      SameVolumeOver(dates[..n], rows, out);
      assert OnDate(out, dates[n].date) == DayBar(OnDate(rows, dates[n].date));
      VolumeOfDay(OnDate(rows, dates[n].date));
    }
  }

  /** The bars trade exactly the volume of the rows. */
  lemma VolumeConserved(rows: seq<Bar>, out: seq<Bar>)
    requires Resampled(rows, out)
    ensures Volume(out) == Volume(rows)
  {
    forall r | r in rows ensures HasDate(out, r.date) {
      DatesKept(rows, out, r.date);
    }
    forall b | b in out ensures HasDate(out, b.date) {
    }
    EveryRowOver(out, rows);
    EveryRowOver(out, out);
    SameVolumeOver(out, rows, out);
  }

  predicate Plausible(b: Bar) {
    b.low <= b.open <= b.high && b.low <= b.close <= b.high
  }

  /** Bars of plausible rows are plausible. */
  lemma PlausibilityCarries(rows: seq<Bar>, out: seq<Bar>)
    requires Resampled(rows, out) && forall r <- rows :: Plausible(r)
    ensures forall b <- out :: Plausible(b)
  {
    forall k | 0 <= k < |out| ensures Plausible(out[k]) {
      var bars := OnDate(rows, out[k].date);
      OnDateMembers(rows, out[k].date);
      OnlyOnDate(out, k);
      assert OnDate(out, out[k].date) == DayBar(bars);
      HighIsHighest(bars);
      LowIsLowest(bars);
      assert bars[0] in bars && bars[|bars| - 1] in bars;
      assert Plausible(bars[0]) && Plausible(bars[|bars| - 1]);
    }
  }

  // ---------- a bar, read off the rows ----------

  lemma {:induction false} FirstRowOf(rows: seq<Bar>, d: int) returns (i: nat)
    requires OnDate(rows, d) != []
    ensures i < |rows| && rows[i] == OnDate(rows, d)[0] && rows[i].date == d
    ensures forall k | 0 <= k < i :: rows[k].date != d
    decreases |rows|
  {
    var n := |rows| - 1;
    if OnDate(rows[..n], d) != [] {
      i := FirstRowOf(rows[..n], d);
      assert forall k | 0 <= k < n :: rows[..n][k] == rows[k];
    } else {
      i := n;
      OnDateMembers(rows[..n], d);
      forall k | 0 <= k < n ensures rows[k].date != d {
        assert rows[k] in rows[..n];
      }
    }
  }

  lemma {:induction false} LastRowOf(rows: seq<Bar>, d: int) returns (j: nat)
    requires OnDate(rows, d) != []
    ensures j < |rows| && rows[j] == OnDate(rows, d)[|OnDate(rows, d)| - 1] && rows[j].date == d
    ensures forall k | j < k < |rows| :: rows[k].date != d
    decreases |rows|
  {
    var n := |rows| - 1;
    if rows[n].date == d {
      j := n;
    } else {
      assert OnDate(rows, d) == OnDate(rows[..n], d);
      j := LastRowOf(rows[..n], d);
      forall k | j < k < |rows| ensures rows[k].date != d {
        assert k < n ==> rows[..n][k] == rows[k];
      }
    }
  }

  /** The volume traded on a date. */
  function VolumeOn(rows: seq<Bar>, d: int): int {
    if rows == [] then 0 else VolumeOn(rows[1..], d) + if rows[0].date == d then rows[0].volume else 0
  }

  lemma {:induction false} VolumeOnSplit(a: seq<Bar>, b: seq<Bar>, d: int)
    ensures VolumeOn(a + b, d) == VolumeOn(a, d) + VolumeOn(b, d)
  {
    if a == [] {
      assert a + b == b;
    } else {
      assert (a + b)[1..] == a[1..] + b;
      VolumeOnSplit(a[1..], b, d);
    }
  }

  lemma {:induction false} VolumeOnDate(rows: seq<Bar>, d: int)
    ensures VolumeOn(rows, d) == Volume(OnDate(rows, d))
    decreases |rows|
  {
    if rows != [] {
      var n := |rows| - 1;
      VolumeOnDate(rows[..n], d);
      LastApart(rows);
      VolumeOnSplit(rows[..n], [rows[n]], d);
      assert [rows[n]][1..] == [];
      VolumeNext(rows[..n], rows[n], d);
    }
  }

  /** `k` is the position of a row of date `d`. */
  predicate IsRowOf(rows: seq<Bar>, k: int, d: int) {
    0 <= k < |rows| && rows[k].date == d
  }

  /** A bar opens where its date's first row opens, closes where its last row closes,
      reaches exactly as high and as low as its rows do, and trades what they trade. */
  lemma BarFromRows(rows: seq<Bar>, out: seq<Bar>, b: Bar) returns (i: nat, j: nat)
    requires Resampled(rows, out) && b in out
    ensures i <= j && IsRowOf(rows, i, b.date) && IsRowOf(rows, j, b.date)
    ensures forall k | IsRowOf(rows, k, b.date) :: i <= k <= j
    ensures b.open == rows[i].open && b.close == rows[j].close
    ensures (forall k | IsRowOf(rows, k, b.date) :: rows[k].high <= b.high)
         && exists k :: IsRowOf(rows, k, b.date) && rows[k].high == b.high
    ensures (forall k | IsRowOf(rows, k, b.date) :: b.low <= rows[k].low)
         && exists k :: IsRowOf(rows, k, b.date) && rows[k].low == b.low
    ensures b.volume == VolumeOn(rows, b.date)
  {
    var day := BarOfDay(rows, out, b);
    i := FirstRowOf(rows, b.date);
    j := LastRowOf(rows, b.date);
    RowsOfDay(rows, b.date);
    HighIsHighest(day);
    LowIsLowest(day);
    VolumeOnDate(rows, b.date);
    var top :| top in day && top.high == b.high;
    var bottom :| bottom in day && bottom.low == b.low;
    assert i <= j;
  }

  lemma BarOfDay(rows: seq<Bar>, out: seq<Bar>, b: Bar) returns (day: seq<Bar>)
    requires Resampled(rows, out) && b in out
    ensures day == OnDate(rows, b.date) && day != [] && b == Aggregate(day)
  {
    var k :| 0 <= k < |out| && out[k] == b;
    OnlyOnDate(out, k);
    day := OnDate(rows, b.date);
    assert OnDate(out, b.date) == DayBar(day);
  }

  lemma RowsOfDay(rows: seq<Bar>, d: int)
    ensures forall k | IsRowOf(rows, k, d) :: rows[k] in OnDate(rows, d)
    ensures forall b <- OnDate(rows, d) :: exists k :: IsRowOf(rows, k, d) && rows[k] == b
  {
    OnDateMembers(rows, d);
    forall b | b in OnDate(rows, d) ensures exists k :: IsRowOf(rows, k, d) && rows[k] == b {
      var k :| 0 <= k < |rows| && rows[k] == b;
      assert IsRowOf(rows, k, d);
    }
  }
}
