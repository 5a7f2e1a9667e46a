/**
 The order-preserving merge of payload contracts and node definitions: the first entry of an id stays where
 it is, a later one with the same dump is dropped, one with another dump is an error.
 */
module CatalogMerge {
  import opened Common

  /** What the merge looks at: the id an entry is indexed by and the JSON dump it is compared with. */
  datatype Reading<!T> = Reading(id: T -> string, dump: T -> string)

  predicate Has<T>(on: Reading<T>, xs: seq<T>, id: string) {
    exists i | 0 <= i < |xs| :: on.id(xs[i]) == id
  }

  /** The first entry of every id, in order. */
  function Firsts<T>(on: Reading<T>, xs: seq<T>): seq<T> {
    if xs == [] then []
    else
      var before := xs[..|xs| - 1];
      var last := xs[|xs| - 1];
      Firsts(on, before) + if Has(on, before, on.id(last)) then [] else [last]
  }

  predicate Agree<T>(on: Reading<T>, xs: seq<T>) {
    forall i, j | 0 <= i < j < |xs| && on.id(xs[i]) == on.id(xs[j]) :: on.dump(xs[i]) == on.dump(xs[j])
  }

  predicate UniqueIds<T>(on: Reading<T>, xs: seq<T>) {
    forall i, j | 0 <= i < j < |xs| :: on.id(xs[i]) != on.id(xs[j])
  }

  /** A merge raises exactly when two entries of one id differ, and names that id. */
  function Merged<T>(on: Reading<T>, xs: seq<T>): Option<seq<T>> {
    if Agree(on, xs) then Some(Firsts(on, xs)) else None
  }

  // ----- What the result is -----------------------------------------------------------------------------

  /** The result holds exactly the ids of the input, each once, represented by its first entry. */
  lemma FirstsAreFirst<T>(on: Reading<T>, xs: seq<T>)
    ensures UniqueIds(on, Firsts(on, xs))
    ensures forall x | x in Firsts(on, xs) ::
              exists i | 0 <= i < |xs| :: xs[i] == x && !Has(on, xs[..i], on.id(x))
    ensures forall id :: Has(on, Firsts(on, xs), id) <==> Has(on, xs, id)
  {
    hide UniqueIds, Firsts, Has;
    FirstsAreUnique(on, xs);
    FirstsHaveAll(on, xs);
    forall x | x in Firsts(on, xs) ensures exists i | 0 <= i < |xs| :: xs[i] == x && !Has(on, xs[..i], on.id(x)) {
      var i := FirstOccurs(on, xs, x);
    }
  }

  lemma {:induction false} FirstsHaveAll<T>(on: Reading<T>, xs: seq<T>)
    ensures forall id :: Has(on, Firsts(on, xs), id) <==> Has(on, xs, id)
    decreases |xs|
  {
    if xs != [] {
      hide Has;
      var before, last := xs[..|xs| - 1], xs[|xs| - 1];
      FirstsHaveAll(on, before);
      HasAppend(on, before, [last]);
      HasAppend(on, Firsts(on, before), [last]);
      HasOnly(on, last);
      assert xs == before + [last];
      assert Firsts(on, xs) == Firsts(on, before) + if Has(on, before, on.id(last)) then [] else [last];
      if Has(on, before, on.id(last)) {
        assert Firsts(on, xs) == Firsts(on, before);
      }
    }
  }

  lemma HasOnly<T>(on: Reading<T>, x: T)
    ensures forall id :: Has(on, [x], id) <==> id == on.id(x)
  {
    assert [x][0] == x;
  }

  lemma {:induction false} FirstsAreUnique<T>(on: Reading<T>, xs: seq<T>)
    ensures UniqueIds(on, Firsts(on, xs))
    decreases |xs|
  {
    if xs != [] {
      var before, last := xs[..|xs| - 1], xs[|xs| - 1];
      FirstsAreUnique(on, before);
      FirstsHaveAll(on, before);
      var firsts := Firsts(on, before);
      if !Has(on, before, on.id(last)) {
        forall i | 0 <= i < |firsts| ensures on.id(firsts[i]) != on.id(last) {
          assert Has(on, firsts, on.id(firsts[i]));
        }
      }
    }
  }

  lemma {:induction false} FirstOccurs<T>(on: Reading<T>, xs: seq<T>, x: T) returns (i: nat)
    requires x in Firsts(on, xs)
    ensures i < |xs| && xs[i] == x && !Has(on, xs[..i], on.id(x))
    decreases |xs|
  {
    hide Has;
    var n := |xs| - 1;
    if x in Firsts(on, xs[..n]) {
      i := FirstOccurs(on, xs[..n], x);
      assert xs[..n][..i] == xs[..i];
    } else {
      i := n;
    }
  }

  lemma HasAppend<T>(on: Reading<T>, xs: seq<T>, ys: seq<T>)
    ensures forall id :: Has(on, xs + ys, id) <==> Has(on, xs, id) || Has(on, ys, id)
  {
    forall id ensures Has(on, xs + ys, id) <==> Has(on, xs, id) || Has(on, ys, id) {
      var zs := xs + ys;
      if Has(on, xs, id) {
        var i :| 0 <= i < |xs| && on.id(xs[i]) == id;
        assert zs[i] == xs[i];
      }
      if Has(on, ys, id) {
        var i :| 0 <= i < |ys| && on.id(ys[i]) == id;
        assert zs[|xs| + i] == ys[i];
      }
      if Has(on, zs, id) {
        var i :| 0 <= i < |zs| && on.id(zs[i]) == id;
        assert if i < |xs| then xs[i] == zs[i] else ys[i - |xs|] == zs[i];
      }
    }
  }

  // ----- Layers -------------------------------------------------------------------------------------------

  /** The entries of `ys` whose id is new. */
  function NewTo<T>(on: Reading<T>, xs: seq<T>, ys: seq<T>): seq<T> {
    if ys == [] then []
    else NewTo(on, xs, ys[..|ys| - 1]) + if Has(on, xs, on.id(ys[|ys| - 1])) then [] else [ys[|ys| - 1]]
  }

  lemma FirstsSnoc<T>(on: Reading<T>, xs: seq<T>, x: T)
    ensures Firsts(on, xs + [x]) == Firsts(on, xs) + if Has(on, xs, on.id(x)) then [] else [x]
  {
    hide Has;
    assert (xs + [x])[..|xs|] == xs;
  }

  lemma NewToSnoc<T>(on: Reading<T>, xs: seq<T>, ys: seq<T>, y: T)
    ensures NewTo(on, xs, ys + [y]) == NewTo(on, xs, ys) + if Has(on, xs, on.id(y)) then [] else [y]
  {
    hide Has;
    assert (ys + [y])[..|ys|] == ys;
  }

  lemma NothingNew<T>(on: Reading<T>, xs: seq<T>)
    ensures NewTo(on, xs, Firsts(on, [])) == []
  {
  }

  lemma {:induction false} FirstsAppend<T>(on: Reading<T>, xs: seq<T>, ys: seq<T>)
    ensures Firsts(on, xs + ys) == Firsts(on, xs) + NewTo(on, xs, Firsts(on, ys))
    decreases |ys|
  {
    hide Has, Firsts, NewTo;
    if ys == [] {
      assert xs + ys == xs;
      NothingNew(on, xs);
    } else {
      var before, last := ys[..|ys| - 1], ys[|ys| - 1];
      assert ys == before + [last] && xs + ys == (xs + before) + [last];
      FirstsAppend(on, xs, before);
      FirstsSnoc(on, xs + before, last);
      FirstsSnoc(on, before, last);
      NewToSnoc(on, xs, Firsts(on, before), last);
      HasAppend(on, xs, before);
      if Has(on, before, on.id(last)) {
        assert Firsts(on, ys) == Firsts(on, before);
        assert Firsts(on, xs + ys) == Firsts(on, xs + before);
      } else if Has(on, xs, on.id(last)) {
        assert Firsts(on, xs + ys) == Firsts(on, xs + before);
        assert NewTo(on, xs, Firsts(on, ys)) == NewTo(on, xs, Firsts(on, before));
      }
    }
  }

  lemma {:induction false} FirstsOfUnique<T>(on: Reading<T>, xs: seq<T>)
    requires UniqueIds(on, xs)
    ensures Firsts(on, xs) == xs
    decreases |xs|
  {
    if xs != [] {
      var n := |xs| - 1;
      LastIsNew(on, xs);
      hide UniqueIds, Has;
      FirstsOfUnique(on, xs[..n]);
      assert xs == xs[..n] + [xs[n]];
    }
  }

  lemma LastIsNew<T>(on: Reading<T>, xs: seq<T>)
    requires UniqueIds(on, xs) && xs != []
    ensures UniqueIds(on, xs[..|xs| - 1]) && !Has(on, xs[..|xs| - 1], on.id(xs[|xs| - 1]))
  {
  }

  /** Dropping later entries of an id loses no disagreement with a layer in front. */
  lemma AgreeLayers<T>(on: Reading<T>, core: seq<T>, packs: seq<T>)
    requires Agree(on, packs)
    ensures Agree(on, core + Firsts(on, packs)) <==> Agree(on, core + packs)
  {
    var short := core + Firsts(on, packs);
    var long := core + packs;
    FirstsAreFirst(on, packs);
    if Agree(on, long) {
      forall i, j | 0 <= i < j < |short| && on.id(short[i]) == on.id(short[j])
        ensures on.dump(short[i]) == on.dump(short[j])
      {
        var p := Place(on, core, packs, i);
        var q := Place(on, core, packs, j);
        assert long[p] == short[i] && long[q] == short[j];
      }
    }
    if Agree(on, short) {
      forall i, j | 0 <= i < j < |long| && on.id(long[i]) == on.id(long[j])
        ensures on.dump(long[i]) == on.dump(long[j])
      {
        var p := Stands(on, core, packs, i);
        var q := Stands(on, core, packs, j);
        if p != q {
          var lo, hi := if p < q then p else q, if p < q then q else p;
          assert on.dump(short[lo]) == on.dump(short[hi]);
        }
      }
    }
  }

  lemma Place<T>(on: Reading<T>, core: seq<T>, packs: seq<T>, i: nat) returns (p: nat)
    requires i < |core + Firsts(on, packs)|
    ensures p < |core + packs| && (core + packs)[p] == (core + Firsts(on, packs))[i]
  {
    FirstsAreFirst(on, packs);
    if i < |core| {
      p := i;
    } else {
      var x := Firsts(on, packs)[i - |core|];
      var k :| 0 <= k < |packs| && packs[k] == x && !Has(on, packs[..k], on.id(x));
      p := |core| + k;
    }
  }

  /** The entry that stands for the i-th one after the inner merge. */
  lemma Stands<T>(on: Reading<T>, core: seq<T>, packs: seq<T>, i: nat) returns (p: nat)
    requires i < |core + packs| && Agree(on, packs)
    ensures var short := core + Firsts(on, packs); var x := (core + packs)[i];
            p < |short| && on.id(short[p]) == on.id(x) && on.dump(short[p]) == on.dump(x)
  {
    hide Agree, Firsts, Has;
    if i < |core| {
      p := i;
    } else {
      var k := StandsAmong(on, packs, i - |core|);
      p := |core| + k;
    }
  }

  lemma StandsAmong<T>(on: Reading<T>, packs: seq<T>, i: nat) returns (k: nat)
    requires i < |packs| && Agree(on, packs)
    ensures k < |Firsts(on, packs)|
    ensures on.id(Firsts(on, packs)[k]) == on.id(packs[i]) && on.dump(Firsts(on, packs)[k]) == on.dump(packs[i])
  {
    hide Firsts;
    FirstsAreFirst(on, packs);
    var firsts := Firsts(on, packs);
    assert Has(on, packs, on.id(packs[i]));
    assert Has(on, firsts, on.id(packs[i]));
    k :| 0 <= k < |firsts| && on.id(firsts[k]) == on.id(packs[i]);
    var m :| 0 <= m < |packs| && packs[m] == firsts[k] && !Has(on, packs[..m], on.id(firsts[k]));
    var lo, hi := if m < i then m else i, if m < i then i else m;
    assert lo == hi || on.dump(packs[lo]) == on.dump(packs[hi]);
  }

  /** Merging the core with the already merged packs is merging everything at once: it succeeds for the same
      inputs and gives the same list. */
  lemma MergeIsAssociative<T>(on: Reading<T>, core: seq<T>, packs: seq<T>)
    ensures Merged(on, core + packs)
         == match Merged(on, packs) case None => None case Some(inner) => Merged(on, core + inner)
  {
    if Agree(on, packs) {
      AgreeLayers(on, core, packs);
      FirstsAreFirst(on, packs);
      FirstsAppend(on, core, packs);
      FirstsAppend(on, core, Firsts(on, packs));
      FirstsOfUnique(on, Firsts(on, packs));
    } else {
      var i, j :| 0 <= i < j < |packs| && on.id(packs[i]) == on.id(packs[j]) && on.dump(packs[i]) != on.dump(packs[j]);
      var all := core + packs;
      assert all[|core| + i] == packs[i] && all[|core| + j] == packs[j];
    }
  }

  // ----- The loop -----------------------------------------------------------------------------------------

  function Mapped<S, T>(enrich: S -> T, xs: seq<S>): (r: seq<T>)
    ensures |r| == |xs| && forall i | 0 <= i < |xs| :: r[i] == enrich(xs[i])
  {
    seq(|xs|, i requires 0 <= i < |xs| => enrich(xs[i]))
  }

  /** Both merge loops: contracts are taken as they are, node definitions are enriched first. A failure names
      the id of the first entry that differs from an earlier one. */
  method Merge<S, T>(on: Reading<T>, enrich: S -> T, groups: seq<seq<S>>) returns (r: Result<seq<T>, string>)
    ensures r.Ok? <==> Merged(on, Mapped(enrich, Flat(groups))).Some?
    ensures r.Ok? ==> Some(r.value) == Merged(on, Mapped(enrich, Flat(groups)))
    ensures r.Err? ==> var all := Mapped(enrich, Flat(groups));
                       exists k | 0 <= k < |all| :: Agree(on, all[..k]) && !Agree(on, all[..k + 1])
                         && on.id(all[k]) == r.error
  {
    hide Agree, Has, IsIndex, Firsts;
    ghost var all := Mapped(enrich, Flat(groups));
    NothingMerged(on, all);
    var merged: seq<T> := [];
    var index: map<string, T> := map[];
    ghost var n := 0;
    for g := 0 to |groups|
      invariant n == |Flat(groups[..g])| && n <= |all|
      invariant Agree(on, all[..n]) && merged == Firsts(on, all[..n]) && IsIndex(on, all[..n], index)
    {
      FlatNext(groups, g);
      for i := 0 to |groups[g]|
        invariant n == |Flat(groups[..g])| + i && n <= |all|
        invariant Agree(on, all[..n]) && merged == Firsts(on, all[..n]) && IsIndex(on, all[..n], index)
      {
        var x := enrich(groups[g][i]);
        assert all[n] == x;
        NextEntry(on, all, n, index);
        if on.id(x) !in index {
          index := index[on.id(x) := x];
          merged := merged + [x];
        } else if on.dump(index[on.id(x)]) != on.dump(x) {
          AgreeOnPrefix(on, all, n + 1);
          return Err(on.id(x));
        }
        n := n + 1;
      }
    }
    assert groups[..|groups|] == groups;
    assert all[..n] == all;
    return Ok(merged);
  }

  function Flat<S>(groups: seq<seq<S>>): seq<S> {
    if groups == [] then [] else Flat(groups[..|groups| - 1]) + groups[|groups| - 1]
  }

  lemma {:induction false} FlatPrefix<S>(groups: seq<seq<S>>, g: nat)
    requires g <= |groups|
    ensures Flat(groups[..g]) <= Flat(groups)
    decreases |groups|
  {
    if g < |groups| {
      var shorter := groups[..|groups| - 1];
      FlatPrefix(shorter, g);
      assert shorter[..g] == groups[..g];
    } else {
      assert groups[..g] == groups;
    }
  }

  lemma FlatNext<S>(groups: seq<seq<S>>, g: nat)
    requires g < |groups|
    ensures Flat(groups[..g]) + groups[g] <= Flat(groups)
    ensures Flat(groups[..g + 1]) == Flat(groups[..g]) + groups[g]
  {
    assert groups[..g + 1][..g] == groups[..g];
    FlatPrefix(groups, g + 1);
  }

  lemma NothingMerged<T>(on: Reading<T>, all: seq<T>)
    ensures Agree(on, all[..0]) && Firsts(on, all[..0]) == [] && IsIndex(on, all[..0], map[])
  {
    assert all[..0] == [];
  }

  lemma NextEntry<T>(on: Reading<T>, all: seq<T>, n: nat, index: map<string, T>)
    requires n < |all| && Agree(on, all[..n]) && IsIndex(on, all[..n], index)
    ensures var x := all[n];
            var keeps := on.id(x) in index ==> on.dump(index[on.id(x)]) == on.dump(x);
            && (Agree(on, all[..n + 1]) <==> keeps)
            && Firsts(on, all[..n + 1]) == Firsts(on, all[..n]) + (if on.id(x) in index then [] else [x])
            && (on.id(x) !in index ==> IsIndex(on, all[..n + 1], index[on.id(x) := x]))
            && (on.id(x) in index && keeps ==> IsIndex(on, all[..n + 1], index))
  {
    hide Agree, Has;
    assert all[..n + 1][..n] == all[..n] && all[..n + 1] == all[..n] + [all[n]];
    IndexNext(on, all[..n], all[n], index);
  }

  /** The index holds, for every id seen, an entry that agrees with all entries of that id. */
  ghost predicate IsIndex<T>(on: Reading<T>, xs: seq<T>, index: map<string, T>) {
    && (forall id :: id in index <==> Has(on, xs, id))
    && (forall i | 0 <= i < |xs| :: on.id(xs[i]) in index && on.dump(index[on.id(xs[i])]) == on.dump(xs[i]))
  }

  lemma IndexNext<T>(on: Reading<T>, xs: seq<T>, x: T, index: map<string, T>)
    requires Agree(on, xs) && IsIndex(on, xs, index)
    ensures Agree(on, xs + [x]) <==> on.id(x) in index ==> on.dump(index[on.id(x)]) == on.dump(x)
    ensures on.id(x) !in index ==> IsIndex(on, xs + [x], index[on.id(x) := x])
    ensures on.id(x) in index && on.dump(index[on.id(x)]) == on.dump(x) ==> IsIndex(on, xs + [x], index)
  {
    AgreeNext(on, xs, x);
    HasAppend(on, xs, [x]);
    HasOnly(on, x);
    if on.id(x) in index {
      var i :| 0 <= i < |xs| && on.id(xs[i]) == on.id(x);
      assert on.dump(xs[i]) == on.dump(index[on.id(x)]);
      hide Has;
    } else {
      forall i | 0 <= i < |xs| ensures on.id(xs[i]) != on.id(x) {
        assert on.id(xs[i]) in index;
      }
      hide Has;
    }
  }

  lemma AgreeNext<T>(on: Reading<T>, xs: seq<T>, x: T)
    requires Agree(on, xs)
    ensures Agree(on, xs + [x]) <==>
              forall i | 0 <= i < |xs| && on.id(xs[i]) == on.id(x) :: on.dump(xs[i]) == on.dump(x)
  {
    var ys := xs + [x];
    assert forall i | 0 <= i < |xs| :: ys[i] == xs[i];
    assert ys[|xs|] == x;
    if Agree(on, ys) {
      forall i | 0 <= i < |xs| && on.id(xs[i]) == on.id(x) ensures on.dump(xs[i]) == on.dump(x) {
        assert on.id(ys[i]) == on.id(ys[|xs|]);
      }
    }
  }

  lemma AgreeOnPrefix<T>(on: Reading<T>, xs: seq<T>, n: nat)
    requires n <= |xs|
    ensures Agree(on, xs) ==> Agree(on, xs[..n])
  {
    assert forall i | 0 <= i < n :: xs[..n][i] == xs[i];
  }
}
