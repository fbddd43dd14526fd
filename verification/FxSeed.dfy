/** Writing an interpolated USD/INR series into `fx_rates`, in statements of 1000 rows. */
module FxSeed {
  import opened Dates
  import opened Sorting
  import opened DateLists

  const INR_USD_2015 := 0.01613
  const INR_USD_2026 := 0.01163
  const ANCHOR_START := DayNumber(2015, 1, 1)
  const ANCHOR_END := DayNumber(2026, 6, 30)
  const CHUNK := 1000

  datatype FxRow = FxRow(currency: string, date: int, usdRate: real, source: string)

  /** The unique index that an upsert collides on. */
  datatype FxKey = FxKey(currency: string, date: int)

  datatype FxValue = FxValue(usdRate: real, source: string)

  function Span(): int {
    var days := ANCHOR_END - ANCHOR_START;
    if days == 0 then 1 else days
  }

  function Fraction(d: int): real {
    var f := (d - ANCHOR_START) as real / Span() as real;
    if f < 0.0 then 0.0 else if f > 1.0 then 1.0 else f
  }

  function Rate(d: int): real {
    INR_USD_2015 + (INR_USD_2026 - INR_USD_2015) * Fraction(d)
  }

  function InrRow(d: int): FxRow {
    FxRow("INR", d, Rate(d), "seed_bulk_interp")
  }

  lemma SpanInDays()
    ensures Span() == 4198
  {
  }

  /** The series runs linearly from the first anchor to the last and is flat outside them. */
  lemma RateBetweenAnchors(d: int)
    ensures INR_USD_2026 <= Rate(d) <= INR_USD_2015
    ensures Rate(d) == INR_USD_2015 <==> d <= ANCHOR_START
    ensures Rate(d) == INR_USD_2026 <==> d >= ANCHOR_END
    ensures ANCHOR_START <= d <= ANCHOR_END ==>
      (INR_USD_2015 - Rate(d)) * (ANCHOR_END - ANCHOR_START) as real == (INR_USD_2015 - INR_USD_2026) * (d - ANCHOR_START) as real
  {
    SpanInDays();
  }

  /** The anchors: 0.01613 on the first of January 2015, 0.01163 on the 30th of June 2026. */
  lemma RateAnchors()
    ensures Rate(DayNumber(2015, 1, 1)) == 0.01613 && Rate(DayNumber(2026, 6, 30)) == 0.01163
    ensures Span() == 4198
  {
    RateBetweenAnchors(DayNumber(2015, 1, 1));
    RateBetweenAnchors(DayNumber(2026, 6, 30));
    SpanInDays();
  }

  /** A later date never has a higher rate, and within the anchors it has a lower one. */
  lemma RateFalls(c: int, d: int)
    requires c < d
    ensures Rate(d) <= Rate(c)
    ensures Rate(d) < Rate(c) <==> c < ANCHOR_END && d > ANCHOR_START
  {
    SpanInDays();
  }

  // ---------- the upsert ----------

  function KeyOf(r: FxRow): FxKey { FxKey(r.currency, r.date) }

  /** A statement that names one row twice is refused by the database. */
  ghost predicate KeysDiffer(rows: seq<FxRow>) {
    forall i, j | 0 <= i < j < |rows| :: KeyOf(rows[i]) != KeyOf(rows[j])
  }

  /** Insert each row, or overwrite the row that has its key. */
  function Upserted(rates: map<FxKey, FxValue>, rows: seq<FxRow>): map<FxKey, FxValue> {
    if rows == [] then rates else
      var r := rows[|rows| - 1];
      Upserted(rates, rows[..|rows| - 1])[KeyOf(r) := FxValue(r.usdRate, r.source)]
  }

  lemma {:induction false} UpsertInParts(rates: map<FxKey, FxValue>, a: seq<FxRow>, b: seq<FxRow>)
    ensures Upserted(rates, a + b) == Upserted(Upserted(rates, a), b)
    decreases |b|
  {
    if b == [] {
      assert a + b == a;
    } else {
      var n := |b| - 1;
      UpsertInParts(rates, a, b[..n]);
      assert (a + b)[..|a + b| - 1] == a + b[..n];
    }
  }

  function InrRows(dates: seq<int>): (rows: seq<FxRow>)
    ensures |rows| == |dates| && forall i | 0 <= i < |rows| :: rows[i] == InrRow(dates[i])
  {
    if dates == [] then [] else InrRows(dates[..|dates| - 1]) + [InrRow(dates[|dates| - 1])]
  }

  /** The table afterwards: the INR rate of every date asked for, and nothing else changed. */
  ghost predicate Seeded(before: map<FxKey, FxValue>, dates: set<int>, after: map<FxKey, FxValue>) {
    forall k: FxKey ::
      if k.currency == "INR" && k.date in dates
      then k in after && after[k] == FxValue(Rate(k.date), "seed_bulk_interp")
      else (k in after <==> k in before) && (k in before ==> after[k] == before[k])
  }

  function DateSet(dates: seq<int>): set<int> {
    set d <- dates
  }

  lemma ListedSet(listed: seq<int>, dates: set<int>)
    requires forall d :: d in listed <==> d in dates
    ensures DateSet(listed) == dates
  {
    assert forall d :: d in DateSet(listed) <==> d in listed;
    assert forall d :: d in DateSet(listed) <==> d in dates;
  }

  lemma SeedAnother(before: map<FxKey, FxValue>, dates: set<int>, after: map<FxKey, FxValue>, d: int)
    requires Seeded(before, dates, after)
    ensures Seeded(before, dates + {d}, after[FxKey("INR", d) := FxValue(Rate(d), "seed_bulk_interp")])
  {
  }

  lemma {:induction false} InrRowsSeed(before: map<FxKey, FxValue>, dates: seq<int>)
    ensures Seeded(before, DateSet(dates), Upserted(before, InrRows(dates)))
  {
    if dates != [] {
      var n := |dates| - 1;
      InrRowsSeed(before, dates[..n]);
      SeedAnother(before, DateSet(dates[..n]), Upserted(before, InrRows(dates[..n])), dates[n]);
      assert InrRows(dates)[..n] == InrRows(dates[..n]);
      LastDate(dates);
    }
  }

  lemma LastDate(dates: seq<int>)
    requires dates != []
    ensures DateSet(dates) == DateSet(dates[..|dates| - 1]) + {dates[|dates| - 1]}
  {
    assert dates == dates[..|dates| - 1] + [dates[|dates| - 1]];
  }

  class FxTable {
    var rates: map<FxKey, FxValue>

    constructor (rates0: map<FxKey, FxValue>)
      ensures rates == rates0
    {
      rates := rates0;
    }

    /** One INSERT … ON CONFLICT (currency, date) DO UPDATE. */
    method Upsert(rows: seq<FxRow>)
      requires KeysDiffer(rows)
      modifies this
      ensures rates == Upserted(old(rates), rows)
    {
      var k := 0;
      ghost var was := rates;
      while k < |rows|
        invariant 0 <= k <= |rows|
        invariant rates == Upserted(was, rows[..k])
      {
        assert rows[..k + 1][..k] == rows[..k];
        rates := rates[KeyOf(rows[k]) := FxValue(rows[k].usdRate, rows[k].source)];
        k := k + 1;
      }
      assert rows[..k] == rows;
    }

    method WriteFxInr(dates: set<int>) returns (written: nat)
      modifies this
      ensures written == |dates|
      ensures Seeded(old(rates), dates, rates)
    {
      var sorted := SortedDates(dates);
      var rows := RowsFor(sorted);
      InrRowsSeed(rates, sorted);
      ListedSet(sorted, dates);
      if |rows| == 0 { return 0; }
      ghost var statements := UpsertInChunks(rows);
      written := |rows|;
    }

    /** The loop over `rows[i : i + 1000]`: every statement leaves the keys of the others
        alone; `statements` counts them. */
    method UpsertInChunks(rows: seq<FxRow>) returns (ghost statements: nat)
      requires KeysDiffer(rows)
      modifies this
      ensures rates == Upserted(old(rates), rows)
      ensures statements == (|rows| + 999) / 1000
    {
      var i := 0;
      statements := 0;
      while i < |rows|
        invariant 0 <= i == 1000 * statements < |rows| + 1000
        invariant rates == Upserted(old(rates), Take(rows, i))
        decreases |rows| - i
      {
        var chunk := Take(rows[i..], CHUNK);
        NextChunk(old(rates), rows, i);
        Upsert(chunk);
        statements := statements + 1;
        i := i + CHUNK;
      }
    }
  }

  /** The interpolation loop: one row per date, no key twice. */
  method RowsFor(dates: seq<int>) returns (rows: seq<FxRow>)
    requires forall a, b | 0 <= a < b < |dates| :: dates[a] < dates[b]
    ensures rows == InrRows(dates) && KeysDiffer(rows)
  {
    rows := [];
    for k := 0 to |dates|
      invariant rows == InrRows(dates[..k])
    {
      assert dates[..k + 1][..k] == dates[..k];
      rows := rows + [InrRow(dates[k])];
    }
    assert dates[..|dates|] == dates;
    InrKeysDiffer(dates);
  }

  /** Python's `s[:n]`. */
  function Take<T>(s: seq<T>, n: nat): seq<T> {
    if n < |s| then s[..n] else s
  }

  lemma NextChunk(before: map<FxKey, FxValue>, rows: seq<FxRow>, i: nat)
    requires KeysDiffer(rows) && i < |rows|
    ensures var chunk := Take(rows[i..], CHUNK);
            && KeysDiffer(chunk)
            && Upserted(before, Take(rows, i + CHUNK)) == Upserted(Upserted(before, Take(rows, i)), chunk)
  {
    var chunk := Take(rows[i..], CHUNK);
    assert forall a | 0 <= a < |chunk| :: chunk[a] == rows[i + a];
    assert Take(rows, i + CHUNK) == rows[..i] + chunk;
    UpsertInParts(before, rows[..i], chunk);
  }

  lemma InrKeysDiffer(dates: seq<int>)
    requires forall a, b | 0 <= a < b < |dates| :: dates[a] < dates[b]
    ensures KeysDiffer(InrRows(dates))
  {
    var rows := InrRows(dates);
    forall a, b | 0 <= a < b < |rows| ensures KeyOf(rows[a]) != KeyOf(rows[b]) {
      assert rows[a] == InrRow(dates[a]) && rows[b] == InrRow(dates[b]);
    }
  }
}
