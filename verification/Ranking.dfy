/** Table orders shared by the signals and the markets table: a column in one of
    two directions, with rows that have no value kept at the end. */
module Ranking {
  import opened Wrappers
  import opened Sorting

  datatype Direction = Asc | Desc

  function Factor(dir: Direction): real { if dir.Asc? then 1.0 else -1.0 }

  /** The same column read in the direction asked for. */
  function Directed<T>(cmp: Comparator<T>, dir: Direction): Comparator<T> {
    (a: T, b: T) => cmp(a, b) * Factor(dir)
  }

  function CompareBlanksLast<T>(key: T -> Option<real>, tie: Comparator<T>, dir: Direction, a: T, b: T): real {
    match key(a)
    case None => if key(b).None? then tie(a, b) else 1.0
    case Some(x) => if key(b).None? then -1.0 else (x - key(b).value) * Factor(dir)
  }

  /** A numeric column whose rows without a value come last in either direction. */
  function BlanksLast<T>(key: T -> Option<real>, tie: Comparator<T>, dir: Direction): Comparator<T> {
    (a: T, b: T) => CompareBlanksLast(key, tie, dir, a, b)
  }

  lemma DirectedPreorder<T(!new)>(cmp: Comparator<T>, dir: Direction)
    requires TotalPreorder(cmp)
    ensures TotalPreorder(Directed(cmp, dir))
  {
    var d := Directed(cmp, dir);
    forall x, y ensures d(x, y) < 0.0 <==> d(y, x) > 0.0 {
      assert cmp(x, y) < 0.0 <==> cmp(y, x) > 0.0;
      assert cmp(y, x) < 0.0 <==> cmp(x, y) > 0.0;
    }
    forall x, y, z | d(x, y) <= 0.0 && d(y, z) <= 0.0 ensures d(x, z) <= 0.0 {
      DirectedTransitive(cmp, dir, x, y, z);
    }
  }

  lemma DirectedTransitive<T(!new)>(cmp: Comparator<T>, dir: Direction, x: T, y: T, z: T)
    requires TotalPreorder(cmp)
    requires Directed(cmp, dir)(x, y) <= 0.0 && Directed(cmp, dir)(y, z) <= 0.0
    ensures Directed(cmp, dir)(x, z) <= 0.0
  {
    if dir.Asc? {
      assert cmp(x, y) <= 0.0 && cmp(y, z) <= 0.0;
    } else {
      assert cmp(z, y) <= 0.0 && cmp(y, x) <= 0.0;
    }
  }

  /** Sorting is well defined: the blank rows form one last class, ranked by `tie`. */
  lemma BlanksLastPreorder<T(!new)>(key: T -> Option<real>, tie: Comparator<T>, dir: Direction)
    requires TotalPreorder(tie)
    ensures TotalPreorder(BlanksLast(key, tie, dir))
  {
    var d := BlanksLast(key, tie, dir);
    forall x, y ensures d(x, y) < 0.0 <==> d(y, x) > 0.0 {
      assert d(x, y) == CompareBlanksLast(key, tie, dir, x, y);
      assert d(y, x) == CompareBlanksLast(key, tie, dir, y, x);
    }
    forall x, y, z | d(x, y) <= 0.0 && d(y, z) <= 0.0 ensures d(x, z) <= 0.0 {
      assert d(x, y) == CompareBlanksLast(key, tie, dir, x, y);
      assert d(y, z) == CompareBlanksLast(key, tie, dir, y, z);
      assert d(x, z) == CompareBlanksLast(key, tie, dir, x, z);
    }
  }

  /** What a reader of a column sorted this way sees: values in the direction
      asked for, then the blank rows, by the tie order whatever the direction. */
  ghost predicate ColumnShown<T>(key: T -> Option<real>, tie: Comparator<T>, dir: Direction, r: seq<T>) {
    forall i, j | 0 <= i < j < |r| ::
      match key(r[i])
      case None => key(r[j]).None? && tie(r[i], r[j]) <= 0.0
      case Some(x) => key(r[j]).Some? ==> if dir.Asc? then x <= key(r[j]).value else x >= key(r[j]).value
  }

  lemma OrderedColumn<T>(key: T -> Option<real>, tie: Comparator<T>, dir: Direction, r: seq<T>)
    requires Ordered(BlanksLast(key, tie, dir), r)
    ensures ColumnShown(key, tie, dir, r)
  {
    forall i, j | 0 <= i < j < |r|
      ensures match key(r[i])
              case None => key(r[j]).None? && tie(r[i], r[j]) <= 0.0
              case Some(x) => key(r[j]).Some? ==> if dir.Asc? then x <= key(r[j]).value else x >= key(r[j]).value
    {
      assert BlanksLast(key, tie, dir)(r[i], r[j]) <= 0.0;
    }
  }

  /** Sorted by a directed column, any two rows stand in the direction asked for. */
  lemma DirectedInOrder<T(!new)>(cmp: Comparator<T>, dir: Direction, rows: seq<T>, i: nat, j: nat)
    requires TotalPreorder(cmp) && i < j < |rows|
    ensures var r := Sort(Directed(cmp, dir), rows);
            |r| == |rows| && if dir.Asc? then cmp(r[i], r[j]) <= 0.0 else cmp(r[j], r[i]) <= 0.0
  {
    DirectedPreorder(cmp, dir);
    SortMembers(Directed(cmp, dir), rows);
    SortOrdered(Directed(cmp, dir), rows);
    var r := Sort(Directed(cmp, dir), rows);
    assert Directed(cmp, dir)(r[i], r[j]) == cmp(r[i], r[j]) * Factor(dir) <= 0.0;
    assert cmp(r[j], r[i]) > 0.0 <==> cmp(r[i], r[j]) < 0.0;
  }
}
