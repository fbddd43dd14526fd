/** The rows of the markets table and their order. */
module MarketsTable {
  import opened Wrappers
  import opened Sorting
  import opened Ranking

  datatype SortKey = ByTicker | ByChange | ByPrice

  datatype MarketRow = MarketRow(ticker: string, name: string, sector: Option<string>, exchange: Option<string>,
                                 currency: string, closes: seq<real>, last: Option<real>, changePct: Option<real>)

  /** `collate` is the reader's locale order on strings. */
  function TickerOrder(collate: Comparator<string>): Comparator<MarketRow> {
    (a: MarketRow, b: MarketRow) => collate(a.ticker, b.ticker)
  }

  function Sorter(collate: Comparator<string>, sort: SortKey, dir: Direction): Comparator<MarketRow> {
    match sort
    case ByTicker => Directed(TickerOrder(collate), dir)
    case ByChange => BlanksLast((r: MarketRow) => r.changePct, TickerOrder(collate), dir)
    case ByPrice => BlanksLast((r: MarketRow) => r.last, TickerOrder(collate), dir)
  }

  function Compare(collate: Comparator<string>, rows: seq<MarketRow>, sort: SortKey, dir: Direction): seq<MarketRow> {
    Sort(Sorter(collate, sort, dir), rows)
  }

  lemma TickerOrderPreorder(collate: Comparator<string>)
    requires TotalPreorder(collate)
    ensures TotalPreorder(TickerOrder(collate))
  {
    var t := TickerOrder(collate);
    forall x, y ensures t(x, y) < 0.0 <==> t(y, x) > 0.0 {
      assert collate(x.ticker, y.ticker) < 0.0 <==> collate(y.ticker, x.ticker) > 0.0;
    }
    forall x, y, z | t(x, y) <= 0.0 && t(y, z) <= 0.0 ensures t(x, z) <= 0.0 {
      assert collate(x.ticker, y.ticker) <= 0.0 && collate(y.ticker, z.ticker) <= 0.0;
    }
  }

  lemma SorterPreorder(collate: Comparator<string>, sort: SortKey, dir: Direction)
    requires TotalPreorder(collate)
    ensures TotalPreorder(Sorter(collate, sort, dir))
  {
    TickerOrderPreorder(collate);
    match sort
    case ByTicker => DirectedPreorder(TickerOrder(collate), dir);
    case ByChange => BlanksLastPreorder((r: MarketRow) => r.changePct, TickerOrder(collate), dir);
    case ByPrice => BlanksLastPreorder((r: MarketRow) => r.last, TickerOrder(collate), dir);
  }

  /** The sorted copy is a stable ordered permutation of the rows, and a stable
      ordered arrangement of them is the sorted copy. */
  lemma CompareIsTheStableSort(collate: Comparator<string>, rows: seq<MarketRow>, sort: SortKey, dir: Direction, r: seq<MarketRow>)
    requires TotalPreorder(collate)
    ensures multiset(Compare(collate, rows, sort, dir)) == multiset(rows)
    ensures r == Compare(collate, rows, sort, dir) <==> IsStableSort(Sorter(collate, sort, dir), rows, r)
  {
    SorterPreorder(collate, sort, dir);
    SortIsStable(Sorter(collate, sort, dir), rows);
    if IsStableSort(Sorter(collate, sort, dir), rows, r) {
      StableSortUnique(Sorter(collate, sort, dir), r, Compare(collate, rows, sort, dir));
    }
  }

  /** A row with no price data is unknown, not worst: it comes last both ways. */
  lemma UnpricedRowsLast(collate: Comparator<string>, rows: seq<MarketRow>, dir: Direction)
    requires TotalPreorder(collate)
    ensures ColumnShown((r: MarketRow) => r.changePct, TickerOrder(collate), dir, Compare(collate, rows, ByChange, dir))
    ensures ColumnShown((r: MarketRow) => r.last, TickerOrder(collate), dir, Compare(collate, rows, ByPrice, dir))
  {
    SorterPreorder(collate, ByChange, dir);
    SorterPreorder(collate, ByPrice, dir);
    SortOrdered(Sorter(collate, ByChange, dir), rows);
    SortOrdered(Sorter(collate, ByPrice, dir), rows);
    OrderedColumn((r: MarketRow) => r.changePct, TickerOrder(collate), dir, Compare(collate, rows, ByChange, dir));
    OrderedColumn((r: MarketRow) => r.last, TickerOrder(collate), dir, Compare(collate, rows, ByPrice, dir));
  }

  lemma TickersInOrder(collate: Comparator<string>, rows: seq<MarketRow>, dir: Direction, i: nat, j: nat)
    requires TotalPreorder(collate) && i < j < |rows|
    ensures var r := Compare(collate, rows, ByTicker, dir);
            |r| == |rows| && if dir.Asc? then collate(r[i].ticker, r[j].ticker) <= 0.0 else collate(r[j].ticker, r[i].ticker) <= 0.0
  {
    TickerOrderPreorder(collate);
    DirectedInOrder(TickerOrder(collate), dir, rows, i, j);
  }

  /** Restricting the table to a sector before or after sorting shows the same. */
  lemma SectorThenSort(collate: Comparator<string>, rows: seq<MarketRow>, keep: MarketRow -> bool, sort: SortKey, dir: Direction)
    requires TotalPreorder(collate)
    ensures Filter(keep, Compare(collate, rows, sort, dir)) == Compare(collate, Filter(keep, rows), sort, dir)
  {
    SorterPreorder(collate, sort, dir);
    SortFilterCommute(Sorter(collate, sort, dir), keep, rows);
  }

  /** Rows of one price, or of one change, keep the order they came in. */
  lemma EqualRowsKeepOrder(collate: Comparator<string>, rows: seq<MarketRow>, dir: Direction, x: real)
    requires TotalPreorder(collate)
    ensures Filter((r: MarketRow) => r.last == Some(x), Compare(collate, rows, ByPrice, dir))
         == Filter((r: MarketRow) => r.last == Some(x), rows)
    ensures Filter((r: MarketRow) => r.changePct == Some(x), Compare(collate, rows, ByChange, dir))
         == Filter((r: MarketRow) => r.changePct == Some(x), rows)
  {
    SorterPreorder(collate, ByPrice, dir);
    SorterPreorder(collate, ByChange, dir);
    TiesKeepOrder(Sorter(collate, ByPrice, dir), (r: MarketRow) => r.last == Some(x), rows);
    TiesKeepOrder(Sorter(collate, ByChange, dir), (r: MarketRow) => r.changePct == Some(x), rows);
  }
}
