/** Sorting by a key that is computed once for every item; equal keys keep their order. */
module StableSort {

  datatype Keyed<+T> = Keyed(key: real, item: T)

  /** After every element whose key is not larger. */
  function Insert<T>(sorted: seq<Keyed<T>>, x: Keyed<T>): seq<Keyed<T>> {
    if sorted == [] then [x]
    else
      var n := |sorted| - 1;
      if sorted[n].key <= x.key then sorted + [x] else Insert(sorted[..n], x) + [sorted[n]]
  }

  function Sorted<T>(xs: seq<Keyed<T>>): seq<Keyed<T>> {
    if xs == [] then [] else Insert(Sorted(xs[..|xs| - 1]), xs[|xs| - 1])
  }

  predicate Ascending<T>(xs: seq<Keyed<T>>) {
    forall i, j | 0 <= i < j < |xs| :: xs[i].key <= xs[j].key
  }

  /** The elements with one key, in order. */
  function Level<T>(xs: seq<Keyed<T>>, key: real): seq<Keyed<T>> {
    if xs == [] then []
    else Level(xs[..|xs| - 1], key) + if xs[|xs| - 1].key == key then [xs[|xs| - 1]] else []
  }

  function Items<T>(xs: seq<Keyed<T>>): (r: seq<T>)
    ensures |r| == |xs| && forall i | 0 <= i < |xs| :: r[i] == xs[i].item
  {
    seq(|xs|, i requires 0 <= i < |xs| => xs[i].item)
  }

  lemma {:induction false} InsertKeeps<T>(sorted: seq<Keyed<T>>, x: Keyed<T>)
    ensures multiset(Insert(sorted, x)) == multiset(sorted) + multiset{x}
    ensures multiset(Items(Insert(sorted, x))) == multiset(Items(sorted)) + multiset{x.item}
  {
    var n := |sorted| - 1;
    if sorted == [] {
      assert Items([x]) == [x.item];
    } else if sorted[n].key <= x.key {
      assert Items(sorted + [x]) == Items(sorted) + [x.item];
    } else {
      InsertKeeps(sorted[..n], x);
      assert sorted == sorted[..n] + [sorted[n]];
      assert Items(sorted) == Items(sorted[..n]) + [sorted[n].item];
      assert Items(Insert(sorted, x)) == Items(Insert(sorted[..n], x)) + [sorted[n].item];
    }
  }

  /** Nothing is lost, doubled or invented. */
  lemma {:induction false} SortedKeeps<T>(xs: seq<Keyed<T>>)
    ensures multiset(Sorted(xs)) == multiset(xs)
    ensures multiset(Items(Sorted(xs))) == multiset(Items(xs))
  {
    hide Insert;
    if xs != [] {
      var n := |xs| - 1;
      SortedKeeps(xs[..n]);
      InsertKeeps(Sorted(xs[..n]), xs[n]);
      assert xs == xs[..n] + [xs[n]];
      assert Items(xs) == Items(xs[..n]) + [xs[n].item];
    }
  }

  lemma AscendingAppend<T>(xs: seq<Keyed<T>>, last: Keyed<T>)
    requires Ascending(xs) && forall x | x in xs :: x.key <= last.key
    ensures Ascending(xs + [last])
  {
  }

  lemma {:induction false} InsertAscends<T>(sorted: seq<Keyed<T>>, x: Keyed<T>)
    requires Ascending(sorted)
    ensures Ascending(Insert(sorted, x))
  {
    if sorted != [] {
      var n := |sorted| - 1;
      if sorted[n].key <= x.key {
        AscendingAppend(sorted, x);
      } else {
        InsertAscends(sorted[..n], x);
        InsertKeeps(sorted[..n], x);
        forall y | y in Insert(sorted[..n], x) ensures y.key <= sorted[n].key {
          assert y in multiset(Insert(sorted[..n], x));
        }
        AscendingAppend(Insert(sorted[..n], x), sorted[n]);
      }
    }
  }

  lemma LevelAppend<T>(xs: seq<Keyed<T>>, last: Keyed<T>, key: real)
    ensures Level(xs + [last], key) == Level(xs, key) + if last.key == key then [last] else []
  {
    assert (xs + [last])[..|xs|] == xs;
  }

  lemma {:induction false} InsertKeepsLevels<T>(sorted: seq<Keyed<T>>, x: Keyed<T>, key: real)
    ensures Level(Insert(sorted, x), key) == Level(sorted, key) + if x.key == key then [x] else []
  {
    hide Level;
    LevelAppend(sorted, x, key);
    if sorted == [] {
      assert sorted + [x] == [x];
    } else if sorted[|sorted| - 1].key > x.key {
      var before, last := sorted[..|sorted| - 1], sorted[|sorted| - 1];
      InsertKeepsLevels(before, x, key);
      var inner := Insert(before, x);
      LevelAppend(inner, last, key);
      LevelAppend(before, last, key);
      assert Insert(sorted, x) == inner + [last] && sorted == before + [last];
      if x.key == key {
        assert Level(inner + [last], key) == Level(inner, key) + [];
      } else {
        assert Level(inner, key) == Level(before, key) + [];
      }
    }
  }

  /** Ascending, and equal keys keep their order. */
  lemma {:induction false} SortedIsStable<T>(xs: seq<Keyed<T>>, key: real)
    ensures Ascending(Sorted(xs)) && Level(Sorted(xs), key) == Level(xs, key)
  {
    if xs != [] {
      var n := |xs| - 1;
      SortedIsStable(xs[..n], key);
      InsertAscends(Sorted(xs[..n]), xs[n]);
      InsertKeepsLevels(Sorted(xs[..n]), xs[n], key);
    }
  }

  /** Where an element goes: before exactly the larger keys at the end. */
  lemma {:induction false} InsertAt<T>(sorted: seq<Keyed<T>>, x: Keyed<T>) returns (m: nat)
    requires Ascending(sorted)
    ensures m <= |sorted| && Insert(sorted, x) == sorted[..m] + [x] + sorted[m..]
    ensures forall i | m <= i < |sorted| :: x.key < sorted[i].key
  {
    var n := |sorted| - 1;
    if sorted == [] || sorted[n].key <= x.key {
      m := |sorted|;
    } else {
      m := InsertAt(sorted[..n], x);
      assert sorted == sorted[..n] + [sorted[n]];
    }
  }

  /** Where two sorted elements come from; with equal keys, in the same order. */
  lemma {:induction false} PlacesOf<T>(xs: seq<Keyed<T>>, i: nat, j: nat) returns (p: nat, q: nat)
    requires i < j < |Sorted(xs)|
    ensures p < |xs| && q < |xs| && xs[p] == Sorted(xs)[i] && xs[q] == Sorted(xs)[j]
    ensures Sorted(xs)[i].key == Sorted(xs)[j].key ==> p < q
  {
    hide Insert;
    var n := |xs| - 1;
    var before, x := Sorted(xs[..n]), xs[n];
    SortedIsStable(xs[..n], 0.0);
    var m := InsertAt(before, x);
    var all := Sorted(xs);
    assert all == before[..m] + [x] + before[m..];
    if i == m {
      assert all[j] == before[j - 1];
      p := n;
      q := PlaceOf(xs[..n], j - 1);
    } else if j == m {
      assert all[i] == before[i];
      p := PlaceOf(xs[..n], i);
      q := n;
    } else {
      p, q := PlacesOf(xs[..n], if i < m then i else i - 1, if j < m then j else j - 1);
    }
  }

  lemma PlaceOf<T>(xs: seq<Keyed<T>>, i: nat) returns (p: nat)
    requires i < |Sorted(xs)|
    ensures p < |xs| && xs[p] == Sorted(xs)[i]
  {
    hide Sorted;
    SortedKeeps(xs);
    assert Sorted(xs)[i] in multiset(Sorted(xs));
    p :| 0 <= p < |xs| && xs[p] == Sorted(xs)[i];
  }

  predicate AllDistinct<T(==)>(xs: seq<T>) {
    forall i, j | 0 <= i < j < |xs| :: xs[i] != xs[j]
  }

  lemma {:induction false} DistinctOnce<T>(xs: seq<T>)
    requires AllDistinct(xs)
    ensures forall x :: multiset(xs)[x] <= 1
  {
    if xs != [] {
      var n := |xs| - 1;
      assert xs == xs[..n] + [xs[n]];
      DistinctOnce(xs[..n]);
    }
  }

  lemma OnceDistinct<T>(xs: seq<T>)
    requires forall x :: multiset(xs)[x] <= 1
    ensures AllDistinct(xs)
  {
    forall i, j | 0 <= i < j < |xs| ensures xs[i] != xs[j] {
      assert xs == xs[..j] + xs[j..];
      assert xs[..j][i] == xs[i] && xs[j..][0] == xs[j];
      assert multiset(xs) == multiset(xs[..j]) + multiset(xs[j..]);
      assert xs[i] in multiset(xs[..j]) && xs[j] in multiset(xs[j..]);
      assert multiset(xs)[xs[i]] <= 1;
    }
  }

  /** Rearranging items keeps them distinct. */
  lemma DistinctRearranged<T>(xs: seq<T>, ys: seq<T>)
    requires AllDistinct(xs) && multiset(xs) == multiset(ys)
    ensures AllDistinct(ys) && |ys| == |xs| && forall y :: y in ys <==> y in xs
  {
    DistinctOnce(xs);
    OnceDistinct(ys);
    assert |multiset(xs)| == |xs| && |multiset(ys)| == |ys|;
    forall y ensures y in ys <==> y in xs {
      assert y in ys <==> y in multiset(ys);
      assert y in xs <==> y in multiset(xs);
    }
  }
}
