/** `Array.prototype.sort` as the language defines it: the stable sort by a comparator.

    A comparator answers with a number of which only the sign matters. */
module Sorting {
  import opened Sequences

  type Comparator<!T> = (T, T) -> real

  ghost predicate TotalPreorder<T(!new)>(cmp: Comparator<T>) {
    && (forall x, y :: cmp(x, y) < 0.0 <==> cmp(y, x) > 0.0)
    && (forall x, y, z :: cmp(x, y) <= 0.0 && cmp(y, z) <= 0.0 ==> cmp(x, z) <= 0.0)
  }

  ghost predicate Ordered<T>(cmp: Comparator<T>, s: seq<T>) {
    forall i, j | 0 <= i < j < |s| :: cmp(s[i], s[j]) <= 0.0
  }

  function Filter<T>(p: T -> bool, s: seq<T>): seq<T> {
    if s == [] then [] else (if p(s[0]) then [s[0]] else []) + Filter(p, s[1..])
  }

  /** The entries a comparator cannot tell from `x`, in their order. */
  function Ties<T>(cmp: Comparator<T>, x: T, s: seq<T>): seq<T>
    decreases |s|
  {
    if s == [] then [] else (if cmp(x, s[0]) == 0.0 then [s[0]] else []) + Ties(cmp, x, s[1..])
  }

  /** Ordered, and among entries that compare equal nothing added, lost or swapped. */
  ghost predicate IsStableSort<T(!new)>(cmp: Comparator<T>, s: seq<T>, r: seq<T>) {
    Ordered(cmp, r) && forall x :: Ties(cmp, x, r) == Ties(cmp, x, s)
  }

  function Insert<T>(cmp: Comparator<T>, x: T, s: seq<T>): seq<T> {
    if s == [] || cmp(x, s[0]) <= 0.0 then [x] + s else [s[0]] + Insert(cmp, x, s[1..])
  }

  function Sort<T>(cmp: Comparator<T>, s: seq<T>): seq<T> {
    if s == [] then [] else Insert(cmp, s[0], Sort(cmp, s[1..]))
  }

  // ---------- filtering ----------

  lemma {:induction false} FilterMembers<T>(p: T -> bool, s: seq<T>)
    ensures forall y :: y in Filter(p, s) <==> y in s && p(y)
    ensures |Filter(p, s)| <= |s|
  {
    if s != [] {
      FilterMembers(p, s[1..]);
      assert s == [s[0]] + s[1..];
    }
  }

  lemma FilterHead<T>(p: T -> bool, x: T, s: seq<T>)
    ensures Filter(p, [x] + s) == (if p(x) then [x] else []) + Filter(p, s)
  {
    assert ([x] + s)[1..] == s;
  }

  lemma TiesHead<T>(cmp: Comparator<T>, z: T, x: T, s: seq<T>)
    ensures Ties(cmp, z, [x] + s) == (if cmp(z, x) == 0.0 then [x] else []) + Ties(cmp, z, s)
  {
    assert ([x] + s)[1..] == s;
  }

  lemma {:induction false} TiesMembers<T>(cmp: Comparator<T>, x: T, s: seq<T>)
    ensures forall y :: y in Ties(cmp, x, s) <==> y in s && cmp(x, y) == 0.0
    decreases |s|
  {
    if s != [] {
      TiesMembers(cmp, x, s[1..]);
      assert s == [s[0]] + s[1..];
    }
  }

  lemma {:induction false} TiesOfFilter<T>(cmp: Comparator<T>, x: T, p: T -> bool, s: seq<T>)
    ensures Ties(cmp, x, Filter(p, s)) == Filter(p, Ties(cmp, x, s))
    decreases |s|
  {
    if s != [] {
      TiesOfFilter(cmp, x, p, s[1..]);
      var f, t := Filter(p, s[1..]), Ties(cmp, x, s[1..]);
      TiesHead(cmp, x, s[0], f);
      FilterHead(p, s[0], t);
      assert [] + f == f && [] + t == t;
    }
  }

  lemma FilteredMember<T>(p: T -> bool, s: seq<T>, y: T)
    requires y in Filter(p, s)
    ensures y in s && p(y)
  {
    FilterMembers(p, s);
  }

  lemma {:induction false} FilterOrdered<T>(cmp: Comparator<T>, p: T -> bool, s: seq<T>)
    requires Ordered(cmp, s)
    ensures Ordered(cmp, Filter(p, s))
  {
    if s != [] {
      FilterOrdered(cmp, p, s[1..]);
      var rest := Filter(p, s[1..]);
      forall j | 0 <= j < |rest| ensures cmp(s[0], rest[j]) <= 0.0 {
        FilteredMember(p, s[1..], rest[j]);
      }
    }
  }

  // ---------- the sort is the stable sort ----------

  lemma {:induction false} InsertMembers<T>(cmp: Comparator<T>, x: T, s: seq<T>)
    ensures |Insert(cmp, x, s)| == |s| + 1
    ensures forall y :: y in Insert(cmp, x, s) <==> y == x || y in s
    ensures multiset(Insert(cmp, x, s)) == multiset{x} + multiset(s)
  {
    if s != [] && cmp(x, s[0]) > 0.0 {
      InsertMembers(cmp, x, s[1..]);
      assert s == [s[0]] + s[1..];
    }
  }

  /** One entry in front of an ordered list it does not follow. */
  lemma OrderedFront<T>(cmp: Comparator<T>, x: T, s: seq<T>)
    requires Ordered(cmp, s) && forall y | y in s :: cmp(x, y) <= 0.0
    ensures Ordered(cmp, [x] + s)
  {
    var r := [x] + s;
    forall i, j | 0 <= i < j < |r| ensures cmp(r[i], r[j]) <= 0.0 {
      assert r[j] == s[j - 1];
      if i > 0 {
        assert cmp(s[i - 1], s[j - 1]) <= 0.0;
      }
    }
  }

  lemma HeadIsLeast<T(!new)>(cmp: Comparator<T>, s: seq<T>, x: T)
    requires TotalPreorder(cmp) && Ordered(cmp, s) && x in s
    ensures cmp(s[0], x) <= 0.0
  {
    SelfTied(cmp, x);
  }

  lemma SelfTied<T(!new)>(cmp: Comparator<T>, x: T)
    requires TotalPreorder(cmp)
    ensures cmp(x, x) == 0.0
  {
  }

  lemma {:induction false} InsertOrdered<T(!new)>(cmp: Comparator<T>, x: T, s: seq<T>)
    requires TotalPreorder(cmp) && Ordered(cmp, s)
    ensures Ordered(cmp, Insert(cmp, x, s))
  {
    if s == [] {
    } else if cmp(x, s[0]) <= 0.0 {
      forall y | y in s ensures cmp(x, y) <= 0.0 {
        HeadIsLeast(cmp, s, y);
      }
      OrderedFront(cmp, x, s);
    } else {
      InsertOrdered(cmp, x, s[1..]);
      InsertMembers(cmp, x, s[1..]);
      forall y | y in Insert(cmp, x, s[1..]) ensures cmp(s[0], y) <= 0.0 {
        if y != x {
          HeadIsLeast(cmp, s, y);
        }
      }
      OrderedFront(cmp, s[0], Insert(cmp, x, s[1..]));
    }
  }

  /** The new entry goes before its ties, so it keeps its place among them. */
  lemma {:induction false} InsertTies<T(!new)>(cmp: Comparator<T>, x: T, s: seq<T>, z: T)
    requires TotalPreorder(cmp)
    ensures Ties(cmp, z, Insert(cmp, x, s)) == Ties(cmp, z, [x] + s)
    decreases |s|
  {
    TiesHead(cmp, z, x, s);
    if s != [] && cmp(x, s[0]) > 0.0 {
      InsertTies(cmp, x, s[1..], z);
      TiesHead(cmp, z, s[0], Insert(cmp, x, s[1..]));
      TiesHead(cmp, z, x, s[1..]);
      NotBothTied(cmp, x, s[0], z);
    }
  }

  lemma NotBothTied<T(!new)>(cmp: Comparator<T>, x: T, y: T, z: T)
    requires TotalPreorder(cmp) && cmp(x, y) > 0.0
    ensures cmp(z, x) != 0.0 || cmp(z, y) != 0.0
  {
    assert cmp(x, z) <= 0.0 && cmp(z, y) <= 0.0 ==> cmp(x, y) <= 0.0;
  }

  lemma {:induction false} SortKeepsTies<T(!new)>(cmp: Comparator<T>, s: seq<T>, z: T)
    requires TotalPreorder(cmp)
    ensures Ties(cmp, z, Sort(cmp, s)) == Ties(cmp, z, s)
    decreases |s|
  {
    if s != [] {
      SortKeepsTies(cmp, s[1..], z);
      InsertTies(cmp, s[0], Sort(cmp, s[1..]), z);
      TiesHead(cmp, z, s[0], Sort(cmp, s[1..]));
    }
  }

  lemma {:induction false} SortMembers<T>(cmp: Comparator<T>, s: seq<T>)
    ensures multiset(Sort(cmp, s)) == multiset(s) && |Sort(cmp, s)| == |s|
    ensures forall y :: y in Sort(cmp, s) <==> y in s
  {
    if s != [] {
      SortMembers(cmp, s[1..]);
      InsertMembers(cmp, s[0], Sort(cmp, s[1..]));
      assert s == [s[0]] + s[1..];
    }
  }

  lemma {:induction false} SortOrdered<T(!new)>(cmp: Comparator<T>, s: seq<T>)
    requires TotalPreorder(cmp)
    ensures Ordered(cmp, Sort(cmp, s))
  {
    if s != [] {
      SortOrdered(cmp, s[1..]);
      InsertOrdered(cmp, s[0], Sort(cmp, s[1..]));
    }
  }

  /** The sort is a stable ordered permutation. */
  lemma SortIsStable<T(!new)>(cmp: Comparator<T>, s: seq<T>)
    requires TotalPreorder(cmp)
    ensures IsStableSort(cmp, s, Sort(cmp, s))
    ensures multiset(Sort(cmp, s)) == multiset(s) && |Sort(cmp, s)| == |s|
  {
    SortMembers(cmp, s);
    SortOrdered(cmp, s);
    forall z ensures Ties(cmp, z, Sort(cmp, s)) == Ties(cmp, z, s) {
      SortKeepsTies(cmp, s, z);
    }
  }

  /** There is only one stable sort, whatever algorithm an engine uses. */
  lemma {:induction false} StableSortUnique<T(!new)>(cmp: Comparator<T>, r: seq<T>, t: seq<T>)
    requires TotalPreorder(cmp) && Ordered(cmp, r) && Ordered(cmp, t)
    requires forall x :: Ties(cmp, x, r) == Ties(cmp, x, t)
    ensures r == t
    decreases |r|
  {
    if r == [] {
      if t != [] {
        SameHead(cmp, t, r);
      }
    } else {
      SameHead(cmp, r, t);
      forall x ensures Ties(cmp, x, r[1..]) == Ties(cmp, x, t[1..]) {
        assert Ties(cmp, x, r) == Ties(cmp, x, t);
        TiesHead(cmp, x, r[0], r[1..]);
        TiesHead(cmp, x, t[0], t[1..]);
        assert r == [r[0]] + r[1..] && t == [t[0]] + t[1..];
        SameTail(if cmp(x, r[0]) == 0.0 then [r[0]] else [], Ties(cmp, x, r[1..]), Ties(cmp, x, t[1..]));
      }
      StableSortUnique(cmp, r[1..], t[1..]);
      assert r == [r[0]] + r[1..] && t == [t[0]] + t[1..];
    }
  }

  lemma SameHead<T(!new)>(cmp: Comparator<T>, r: seq<T>, t: seq<T>)
    requires TotalPreorder(cmp) && Ordered(cmp, r) && Ordered(cmp, t) && r != []
    requires forall x :: Ties(cmp, x, r) == Ties(cmp, x, t)
    ensures t != [] && r[0] == t[0]
  {
    var x := r[0];
    SelfTied(cmp, x);
    TiesMembers(cmp, x, t);
    assert Ties(cmp, x, r)[0] == x;
    assert x in Ties(cmp, x, t);
    var y := t[0];
    SelfTied(cmp, y);
    TiesMembers(cmp, y, r);
    assert Ties(cmp, y, t)[0] == y;
    assert y in Ties(cmp, y, r);
    HeadIsLeast(cmp, t, x);
    HeadIsLeast(cmp, r, y);
    assert Ties(cmp, x, t)[0] == y;
  }

  /** Sorting and filtering commute. */
  lemma SortFilterCommute<T(!new)>(cmp: Comparator<T>, p: T -> bool, s: seq<T>)
    requires TotalPreorder(cmp)
    ensures Filter(p, Sort(cmp, s)) == Sort(cmp, Filter(p, s))
  {
    SortIsStable(cmp, s);
    SortIsStable(cmp, Filter(p, s));
    FilterOrdered(cmp, p, Sort(cmp, s));
    forall x ensures Ties(cmp, x, Filter(p, Sort(cmp, s))) == Ties(cmp, x, Sort(cmp, Filter(p, s))) {
      TiesOfFilter(cmp, x, p, Sort(cmp, s));
      TiesOfFilter(cmp, x, p, s);
    }
    StableSortUnique(cmp, Filter(p, Sort(cmp, s)), Sort(cmp, Filter(p, s)));
  }

  /** An ordered list is left as it is. */
  lemma SortedAlready<T(!new)>(cmp: Comparator<T>, s: seq<T>)
    requires TotalPreorder(cmp) && Ordered(cmp, s)
    ensures Sort(cmp, s) == s
  {
    SortIsStable(cmp, s);
    StableSortUnique(cmp, Sort(cmp, s), s);
  }

  /** Entries that compare equal among themselves keep their places relative to each other. */
  lemma TiesKeepOrder<T(!new)>(cmp: Comparator<T>, p: T -> bool, s: seq<T>)
    requires TotalPreorder(cmp) && forall x, y | p(x) && p(y) :: cmp(x, y) == 0.0
    ensures Filter(p, Sort(cmp, s)) == Filter(p, s)
  {
    SortFilterCommute(cmp, p, s);
    var tied := Filter(p, s);
    forall i, j | 0 <= i < j < |tied| ensures cmp(tied[i], tied[j]) <= 0.0 {
      FilteredMember(p, s, tied[i]);
      FilteredMember(p, s, tied[j]);
    }
    SortedAlready(cmp, tied);
  }
}
