/** Python's `sorted` over the distinct dates of a dictionary or a set. */
module DateLists {
  import opened Sorting

  function ByDate(): Comparator<int> {
    (a: int, b: int) => (a - b) as real
  }

  lemma DatesAscend(keys: seq<int>)
    requires forall i, j | 0 <= i < j < |keys| :: keys[i] != keys[j]
    ensures forall d :: d in Sort(ByDate(), keys) <==> d in keys
    ensures forall i, j | 0 <= i < j < |Sort(ByDate(), keys)| :: Sort(ByDate(), keys)[i] < Sort(ByDate(), keys)[j]
  {
    var r := Sort(ByDate(), keys);
    SortMembers(ByDate(), keys);
    SortOrdered(ByDate(), keys);
    forall i, j | 0 <= i < j < |r| ensures r[i] < r[j] {
      assert ByDate()(r[i], r[j]) <= 0.0;
      if r[i] == r[j] {
        OccursTwice(r, i, j);
        TwoOccurrences(keys, r[i]);
      }
    }
  }

  lemma OccursTwice(r: seq<int>, i: nat, j: nat)
    requires i < j < |r| && r[i] == r[j]
    ensures multiset(r)[r[i]] >= 2
  {
    assert r == r[..j] + r[j..];
    assert r[i] == r[..j][i] && r[j] == r[j..][0];
  }

  lemma {:induction false} TwoOccurrences(keys: seq<int>, x: int)
    requires multiset(keys)[x] >= 2
    ensures exists a, b | 0 <= a < b < |keys| :: keys[a] == x == keys[b]
  {
    var n := |keys| - 1;
    assert keys == keys[..n] + [keys[n]];
    if keys[n] == x {
      assert multiset(keys[..n])[x] >= 1;
      var a :| 0 <= a < n && keys[..n][a] == x;
      assert keys[a] == x == keys[n];
    } else {
      TwoOccurrences(keys[..n], x);
      var a, b :| 0 <= a < b < n && keys[..n][a] == x == keys[..n][b];
      assert keys[a] == x == keys[b];
    }
  }

  method SortedDates(dates: set<int>) returns (sorted: seq<int>)
    ensures |sorted| == |dates| && forall d :: d in sorted <==> d in dates
    ensures forall i, j | 0 <= i < j < |sorted| :: sorted[i] < sorted[j]
  {
    var rest := dates;
    var listed: seq<int> := [];
    while |rest| > 0
      invariant |listed| + |rest| == |dates|
      invariant forall d :: d in dates <==> d in listed || d in rest
      invariant forall d :: !(d in listed && d in rest)
      invariant forall i, j | 0 <= i < j < |listed| :: listed[i] != listed[j]
      decreases |rest|
    {
      SomeMember(rest);
      var d :| d in rest;
      listed := listed + [d];
      rest := rest - {d};
    }
    sorted := Sort(ByDate(), listed);
    SortMembers(ByDate(), listed);
    DatesAscend(listed);
  }

  lemma SomeMember(s: set<int>)
    requires |s| > 0
    ensures exists d :: d in s
  {
    if forall d: int :: d !in s {
      assert false;
    }
  }
}
