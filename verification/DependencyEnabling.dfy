/**
 What the enable and disable checks keep over every run: each enabled pack has its dependencies installed,
 enabled and in range, the enabled packs have a topological order, and so nothing in a dependency cycle is
 ever enabled.
 */
module DependencyEnabling {
  import opened Common
  import opened NodePackScan
  import opened NodePackLoader

  predicate UniquePackIds(ms: seq<Manifest>) {
    forall i, j | 0 <= i < j < |ms| :: ms[i].packId != ms[j].packId
  }

  predicate IsEnabled(ms: seq<Manifest>, id: string) {
    exists i | 0 <= i < |ms| :: ms[i].packId == id && ms[i].enabled
  }

  predicate Closed(matching: Matching, ms: seq<Manifest>) {
    forall i | 0 <= i < |ms| && ms[i].enabled :: ms[i].compatible && Satisfied(matching, ms, ms[i])
  }

  predicate Precedes(order: seq<string>, a: string, b: string) {
    exists j, k :: 0 <= j < k < |order| && order[j] == a && order[k] == b
  }

  predicate AllPrecede(order: seq<string>, m: Manifest) {
    forall d | 0 <= d < |m.dependencies| :: Precedes(order, m.dependencies[d].packId, m.packId)
  }

  /** The enabled ids, each once, every pack after all its dependencies. */
  ghost predicate IsTopological(ms: seq<Manifest>, order: seq<string>) {
    && (forall j, k | 0 <= j < k < |order| :: order[j] != order[k])
    && (forall id :: id in order <==> IsEnabled(ms, id))
    && (forall i | 0 <= i < |ms| && ms[i].enabled :: AllPrecede(order, ms[i]))
  }

  function Flagged(ms: seq<Manifest>, j: nat, enabled: bool): (r: seq<Manifest>)
    requires j < |ms|
  {
    ms[j := ms[j].(enabled := enabled)]
  }

  // ----- Switching one flag -------------------------------------------------------------------------------

  lemma NotDuplicated(ms: seq<Manifest>, id: string)
    requires UniquePackIds(ms)
    ensures !Duplicated(ms, id)
  {
  }

  /** Under unique ids a dependency is satisfied by the one manifest of that id. */
  lemma SatisfiedBy(matching: Matching, ms: seq<Manifest>, dep: Dependency)
    requires UniquePackIds(ms)
    ensures StatusOf(matching, ms, dep).satisfied <==>
            exists i | 0 <= i < |ms| ::
              ms[i].packId == dep.packId && ms[i].enabled && ms[i].compatible && matching(dep.range, ms[i].version)
  {
    NotDuplicated(ms, dep.packId);
    FirstOfIs(ms, dep.packId);
    if StatusOf(matching, ms, dep).satisfied {
      var k :| 0 <= k < |ms| && Some(ms[k]) == FirstOf(ms, dep.packId) && ms[k].packId == dep.packId;
      var i :| 0 <= i < |ms| && ms[i].packId == dep.packId && ms[i].enabled && ms[i].compatible;
      assert i == k;
    }
    if i :| 0 <= i < |ms| && ms[i].packId == dep.packId && ms[i].enabled && ms[i].compatible
            && matching(dep.range, ms[i].version) {
      var k :| 0 <= k < |ms| && Some(ms[k]) == FirstOf(ms, dep.packId) && ms[k].packId == dep.packId;
      assert i == k;
    }
  }

  /** A satisfied dependency stays satisfied unless its own pack is switched off. */
  lemma StaysSatisfied(matching: Matching, ms: seq<Manifest>, j: nat, enabled: bool, dep: Dependency)
    requires UniquePackIds(ms) && j < |ms| && StatusOf(matching, ms, dep).satisfied
    requires enabled || dep.packId != ms[j].packId
    ensures StatusOf(matching, Flagged(ms, j, enabled), dep).satisfied
  {
    var u := Flagged(ms, j, enabled);
    SatisfiedBy(matching, ms, dep);
    SatisfiedBy(matching, u, dep);
    var i :| 0 <= i < |ms| && ms[i].packId == dep.packId && ms[i].enabled && ms[i].compatible
             && matching(dep.range, ms[i].version);
    assert u[i].packId == dep.packId && u[i].enabled && u[i].compatible && u[i].version == ms[i].version;
  }

  lemma EnablingKeepsClosed(matching: Matching, ms: seq<Manifest>, j: nat)
    requires UniquePackIds(ms) && j < |ms| && Closed(matching, ms)
    requires ms[j].compatible && Satisfied(matching, ms, ms[j])
    ensures Closed(matching, Flagged(ms, j, true))
  {
    hide StatusOf;
    var u := Flagged(ms, j, true);
    forall i | 0 <= i < |u| && u[i].enabled ensures u[i].compatible && Satisfied(matching, u, u[i]) {
      assert Satisfied(matching, ms, ms[i]);
      forall d | 0 <= d < |u[i].dependencies| ensures StatusOf(matching, u, u[i].dependencies[d]).satisfied {
        assert StatusOf(matching, ms, ms[i].dependencies[d]).satisfied;
        StaysSatisfied(matching, ms, j, true, ms[i].dependencies[d]);
      }
    }
  }

  lemma DisablingKeepsClosed(matching: Matching, ms: seq<Manifest>, j: nat)
    requires UniquePackIds(ms) && j < |ms| && Closed(matching, ms)
    requires forall i, d | 0 <= i < |ms| && ms[i].enabled && i != j && 0 <= d < |ms[i].dependencies| ::
               ms[i].dependencies[d].packId != ms[j].packId
    ensures Closed(matching, Flagged(ms, j, false))
  {
    hide StatusOf;
    var u := Flagged(ms, j, false);
    forall i | 0 <= i < |u| && u[i].enabled ensures u[i].compatible && Satisfied(matching, u, u[i]) {
      assert i != j && u[i] == ms[i] && Satisfied(matching, ms, ms[i]);
      forall d | 0 <= d < |u[i].dependencies| ensures StatusOf(matching, u, u[i].dependencies[d]).satisfied {
        assert StatusOf(matching, ms, ms[i].dependencies[d]).satisfied;
        StaysSatisfied(matching, ms, j, false, ms[i].dependencies[d]);
      }
    }
  }

  lemma EnabledAfter(ms: seq<Manifest>, j: nat, enabled: bool, id: string)
    requires UniquePackIds(ms) && j < |ms|
    ensures IsEnabled(Flagged(ms, j, enabled), id) <==> if id == ms[j].packId then enabled else IsEnabled(ms, id)
  {
    var u := Flagged(ms, j, enabled);
    assert u[j].packId == ms[j].packId;
    if IsEnabled(ms, id) && id != ms[j].packId {
      var i :| 0 <= i < |ms| && ms[i].packId == id && ms[i].enabled;
      assert u[i] == ms[i];
    }
    if IsEnabled(u, id) && id != ms[j].packId {
      var i :| 0 <= i < |u| && u[i].packId == id && u[i].enabled;
      assert u[i] == ms[i];
    }
  }

  /** Every dependency of a satisfied pack is enabled. */
  lemma DependencyIsEnabled(matching: Matching, ms: seq<Manifest>, m: Manifest, d: nat)
    requires Satisfied(matching, ms, m) && d < |m.dependencies|
    ensures IsEnabled(ms, m.dependencies[d].packId)
  {
    assert StatusOf(matching, ms, m.dependencies[d]).satisfied;
    var i :| 0 <= i < |ms| && ms[i].packId == m.dependencies[d].packId && ms[i].enabled;
  }

  lemma PrecedesLonger(order: seq<string>, last: string, a: string, b: string)
    requires Precedes(order, a, b)
    ensures Precedes(order + [last], a, b)
  {
    var j, k :| 0 <= j < k < |order| && order[j] == a && order[k] == b;
    assert (order + [last])[j] == a && (order + [last])[k] == b;
  }

  lemma EnablingKeepsOrder(matching: Matching, ms: seq<Manifest>, j: nat, order: seq<string>)
    returns (next: seq<string>)
    requires UniquePackIds(ms) && j < |ms| && IsTopological(ms, order)
    requires Satisfied(matching, ms, ms[j])
    ensures IsTopological(Flagged(ms, j, true), next)
  {
    hide Satisfied;
    var u := Flagged(ms, j, true);
    var p := ms[j].packId;
    forall id ensures IsEnabled(u, id) <==> if id == p then true else IsEnabled(ms, id) {
      EnabledAfter(ms, j, true, id);
    }
    if ms[j].enabled {
      next := order;
      assert u == ms;
    } else {
      next := order + [p];
      assert !IsEnabled(ms, p);
      forall i | 0 <= i < |u| && u[i].enabled ensures AllPrecede(next, u[i]) {
        forall d | 0 <= d < |u[i].dependencies| ensures Precedes(next, u[i].dependencies[d].packId, u[i].packId) {
          if i == j {
            DependencyIsEnabled(matching, ms, ms[j], d);
            var k :| 0 <= k < |order| && order[k] == ms[j].dependencies[d].packId;
            assert next[k] == order[k] && next[|order|] == p;
          } else {
            assert AllPrecede(order, ms[i]);
            PrecedesLonger(order, p, ms[i].dependencies[d].packId, ms[i].packId);
          }
        }
      }
    }
  }

  function Without(order: seq<string>, k: nat): seq<string>
    requires k < |order|
  {
    order[..k] + order[k + 1..]
  }

  lemma PrecedesWithout(order: seq<string>, k: nat, a: string, b: string)
    requires k < |order| && Precedes(order, a, b) && a != order[k] && b != order[k]
    ensures Precedes(Without(order, k), a, b)
  {
    var x, y :| 0 <= x < y < |order| && order[x] == a && order[y] == b;
    var x', y' := if x < k then x else x - 1, if y < k then y else y - 1;
    assert Without(order, k)[x'] == a && Without(order, k)[y'] == b;
  }

  lemma DisablingKeepsOrder(ms: seq<Manifest>, j: nat, order: seq<string>) returns (next: seq<string>)
    requires UniquePackIds(ms) && j < |ms| && IsTopological(ms, order)
    requires forall i, d | 0 <= i < |ms| && ms[i].enabled && i != j && 0 <= d < |ms[i].dependencies| ::
               ms[i].dependencies[d].packId != ms[j].packId
    ensures IsTopological(Flagged(ms, j, false), next)
  {
    var u := Flagged(ms, j, false);
    var p := ms[j].packId;
    forall id ensures IsEnabled(u, id) <==> if id == p then false else IsEnabled(ms, id) {
      EnabledAfter(ms, j, false, id);
    }
    if p !in order {
      next := order;
      assert u == ms;
    } else {
      var k :| 0 <= k < |order| && order[k] == p;
      next := Without(order, k);
      forall id ensures id in next <==> id in order && id != p {
        if id in order && id != p {
          var x :| 0 <= x < |order| && order[x] == id;
          assert next[if x < k then x else x - 1] == id;
        }
      }
      forall i | 0 <= i < |u| && u[i].enabled ensures AllPrecede(next, u[i]) {
        assert u[i] == ms[i] && AllPrecede(order, ms[i]) && ms[i].packId != p;
        forall d | 0 <= d < |u[i].dependencies| ensures Precedes(next, u[i].dependencies[d].packId, u[i].packId) {
          PrecedesWithout(order, k, ms[i].dependencies[d].packId, ms[i].packId);
        }
      }
    }
  }

  // ----- From the directories to the manifests ----------------------------------------------------------------

  lemma {:induction false} ManifestsAppend(a: seq<PackDir>, b: seq<PackDir>)
    ensures Manifests(a + b) == Manifests(a) + Manifests(b)
    decreases |b|
  {
    if b == [] {
      assert a + b == a;
    } else {
      var n := |b| - 1;
      assert (a + b)[..|a + b| - 1] == a + b[..n] && (a + b)[|a + b| - 1] == b[n];
      ManifestsAppend(a, b[..n]);
    }
  }

  /** The manifests around one directory. */
  lemma ManifestsAround(packs: seq<PackDir>, k: nat, p: PackDir)
    requires k < |packs|
    ensures Manifests(packs[k := p])
         == Manifests(packs[..k]) + (if p.file.Readable? then [p.file.manifest] else []) + Manifests(packs[k + 1..])
  {
    assert packs[k := p] == packs[..k] + [p] + packs[k + 1..];
    ManifestsAppend(packs[..k], [p]);
    ManifestsAppend(packs[..k] + [p], packs[k + 1..]);
    assert [p][..0] == [];
  }

  lemma {:induction false} ManifestComesFrom(packs: seq<PackDir>, i: nat) returns (k: nat)
    requires i < |Manifests(packs)|
    ensures k < |packs| && packs[k].file.Readable? && packs[k].file.manifest == Manifests(packs)[i]
  {
    var n := |packs| - 1;
    if i < |Manifests(packs[..n])| {
      k := ManifestComesFrom(packs[..n], i);
    } else {
      k := n;
    }
  }

  /** Rewriting a flag in place is flipping it in the list of manifests. */
  lemma FlaggedInPlace(packs: seq<PackDir>, k: nat, enabled: bool)
    requires k < |packs| && packs[k].file.Readable?
    ensures var j := |Manifests(packs[..k])|;
            && j < |Manifests(packs)| && Manifests(packs)[j] == packs[k].file.manifest
            && Manifests(packs[k := packs[k].(file := Readable(packs[k].file.json,
                                                               packs[k].file.manifest.(enabled := enabled)))])
               == Flagged(Manifests(packs), j, enabled)
  {
    hide Manifests;
    var a, b := Manifests(packs[..k]), Manifests(packs[k + 1..]);
    var m := packs[k].file.manifest;
    ManifestsAround(packs, k, packs[k]);
    ManifestsAround(packs, k, packs[k].(file := packs[k].file.(manifest := m.(enabled := enabled))));
    assert packs[k := packs[k]] == packs;
    assert (a + [m] + b)[|a| := m.(enabled := enabled)] == a + [m.(enabled := enabled)] + b;
  }

  // ----- What a granted call means ------------------------------------------------------------------------------

  lemma GrantedEnable(matching: Matching, packs: seq<PackDir>, id: string)
    requires UniquePackIds(Manifests(packs))
    requires Decide(Items(matching, Directory(packs)), id, true).None?
    ensures var k := Target(Items(matching, Directory(packs)), id);
            k < |packs| && (packs[k].file.Readable? ==>
              packs[k].file.manifest.compatible && Satisfied(matching, Manifests(packs), packs[k].file.manifest))
  {
    hide StatusOf;
    var ms := Manifests(packs);
    var items := Items(matching, Directory(packs));
    var k := Target(items, id);
    AllSatisfied(items[k].dependencies);
    if packs[k].file.Readable? {
      NotDuplicated(ms, packs[k].file.manifest.packId);
      assert items[k] == ItemOf(matching, ms, packs[k]);
    }
  }

  lemma GrantedDisable(matching: Matching, packs: seq<PackDir>, id: string)
    requires UniquePackIds(Manifests(packs))
    requires Decide(Items(matching, Directory(packs)), id, false).None?
    ensures var k := Target(Items(matching, Directory(packs)), id);
            var ms := Manifests(packs);
            k < |packs| && (packs[k].file.Readable? ==>
              packs[k].file.manifest.packId == id
              && forall i, d | 0 <= i < |ms| && ms[i].enabled && ms[i].packId != id && 0 <= d < |ms[i].dependencies| ::
                   ms[i].dependencies[d].packId != id)
  {
    hide StatusOf, ItemOf, Manifests;
    var ms := Manifests(packs);
    var items := Items(matching, Directory(packs));
    var k := Target(items, id);
    NobodyDepends(items, id);
    if packs[k].file.Readable? {
      ReadableItem(matching, ms, packs[k]);
    }
    forall i, d | 0 <= i < |ms| && ms[i].enabled && ms[i].packId != id && 0 <= d < |ms[i].dependencies|
      ensures ms[i].dependencies[d].packId != id
    {
      var q := ManifestComesFrom(packs, i);
      ReadableItem(matching, ms, packs[q]);
      assert items[q].enabled && items[q].packId == ms[i].packId;
      assert items[q].dependencies[d].packId == StatusOf(matching, ms, ms[i].dependencies[d]).packId;
      StatusNames(matching, ms, ms[i].dependencies[d]);
      assert !Blocks(items[q], id);
    }
  }

  lemma ReadableItem(matching: Matching, ms: seq<Manifest>, p: PackDir)
    requires p.file.Readable?
    ensures var item := ItemOf(matching, ms, p); var m := p.file.manifest;
            item.packId == m.packId && item.enabled == m.enabled
            && item.dependencies == Statuses(matching, ms, m.dependencies)
  {
    hide Duplicated, Satisfied;
  }

  lemma StatusNames(matching: Matching, ms: seq<Manifest>, dep: Dependency)
    ensures StatusOf(matching, ms, dep).packId == dep.packId
  {
  }

  // ----- Runs -----------------------------------------------------------------------------------------------------

  datatype Op = Op(id: string, enabled: bool, writes: bool)

  function After(matching: Matching, root: Root, ops: seq<Op>): Root {
    if ops == [] then root
    else
      var op := ops[|ops| - 1];
      SetEnabled(matching, After(matching, root, ops[..|ops| - 1]), op.id, op.enabled, op.writes).0
  }

  ghost predicate Orderly(matching: Matching, root: Root) {
    root.Directory?
    && var ms := Manifests(root.packs);
       UniquePackIds(ms) && Closed(matching, ms) && exists order :: IsTopological(ms, order)
  }

  /** What a manifest invalid only because of its flag must be for the flag to be rewritten safely: its id is not
      taken, and to be enabled it has to be compatible and to have its dependencies among the manifests so far. */
  predicate RepairSafe(matching: Matching, ms: seq<Manifest>, m: Manifest, enabled: bool) {
    && (forall i | 0 <= i < |ms| :: ms[i].packId != m.packId)
    && (enabled ==> m.compatible && Satisfied(matching, ms, m))
  }

  /** A call that would make a broken manifest valid does so safely; calls on readable manifests always do. */
  predicate SafeCall(matching: Matching, root: Root, id: string, enabled: bool) {
    var packs := Packs(root);
    var k := Target(Items(matching, root), id);
    k < |packs| && packs[k].file.Broken? && packs[k].file.repaired.Some? ==>
      RepairSafe(matching, Manifests(packs), packs[k].file.repaired.value, enabled)
  }

  lemma ReadableCallKeeps(matching: Matching, packs: seq<PackDir>, id: string, enabled: bool, writes: bool)
    requires Orderly(matching, Directory(packs))
    requires SetEnabled(matching, Directory(packs), id, enabled, writes).1.None?
    requires packs[Target(Items(matching, Directory(packs)), id)].file.Readable?
    ensures Orderly(matching, SetEnabled(matching, Directory(packs), id, enabled, writes).0)
  {
    hide Closed, IsTopological, Satisfied, Items, Decide, Refreshes;
    var ms := Manifests(packs);
    var next := SetEnabled(matching, Directory(packs), id, enabled, writes).0;
    var k := Target(Items(matching, Directory(packs)), id);
    var order :| IsTopological(ms, order);
    if enabled {
      GrantedEnable(matching, packs, id);
    } else {
      GrantedDisable(matching, packs, id);
    }
    FlaggedInPlace(packs, k, enabled);
    var j := |Manifests(packs[..k])|;
    var order';
    if enabled {
      EnablingKeepsClosed(matching, ms, j);
      order' := EnablingKeepsOrder(matching, ms, j, order);
    } else {
      DisablingKeepsClosed(matching, ms, j);
      order' := DisablingKeepsOrder(ms, j, order);
    }
    assert Manifests(next.packs) == Flagged(ms, j, enabled);
    assert IsTopological(Manifests(next.packs), order');
  }

  /** A granted call on a manifest invalid only because of its flag: the scan shows it under the name of its
      directory and without dependencies, so nothing was checked; the state stays orderly exactly when the
      manifests before the call make the repair safe. */
  lemma RepairKeepsOrderly(matching: Matching, packs: seq<PackDir>, id: string, enabled: bool, writes: bool)
    requires Orderly(matching, Directory(packs))
    requires SetEnabled(matching, Directory(packs), id, enabled, writes).1.None?
    requires packs[Target(Items(matching, Directory(packs)), id)].file.Broken?
    ensures packs[Target(Items(matching, Directory(packs)), id)].file.repaired.Some?
    ensures var m := packs[Target(Items(matching, Directory(packs)), id)].file.repaired.value;
            var next := SetEnabled(matching, Directory(packs), id, enabled, writes).0;
            Orderly(matching, next) <==> RepairSafe(matching, Manifests(packs), m, enabled)
  {
    hide Manifests, Closed, IsTopological, Satisfied, Items, Decide, Refreshes, UniquePackIds;
    GrantedTarget(matching, Directory(packs), id, enabled, writes);
    var ms := Manifests(packs);
    var k := Target(Items(matching, Directory(packs)), id);
    var m := packs[k].file.repaired.value.(enabled := enabled);
    var next := SetEnabled(matching, Directory(packs), id, enabled, writes).0;
    var a, b := Manifests(packs[..k]), Manifests(packs[k + 1..]);
    ManifestsAround(packs, k, packs[k]);
    assert packs[k := packs[k]] == packs;
    ManifestsAround(packs, k, packs[k].(file := Readable(packs[k].file.json, m)));
    assert ms == a + b && Manifests(next.packs) == a + [m] + b;
    FlagIrrelevant(matching, ms, packs[k].file.repaired.value, m);
    InsertionIsOrderly(matching, a, b, m);
  }

  /** `set_node_pack_enabled` keeps an orderly state orderly exactly when it was refused or the call was safe. */
  lemma SetEnabledKeepsOrderly(matching: Matching, root: Root, id: string, enabled: bool, writes: bool)
    requires Orderly(matching, root)
    ensures var (next, no) := SetEnabled(matching, root, id, enabled, writes);
            Orderly(matching, next) <==> no.Some? || SafeCall(matching, root, id, enabled)
  {
    hide Orderly, RepairSafe, Items, Decide, Refreshes;
    var k := Target(Items(matching, root), id);
    if SetEnabled(matching, root, id, enabled, writes).1.None? {
      IsDirectory(matching, root);
      GrantedTarget(matching, root, id, enabled, writes);
      if root.packs[k].file.Broken? {
        RepairKeepsOrderly(matching, root.packs, id, enabled, writes);
      } else {
        ReadableCallKeeps(matching, root.packs, id, enabled, writes);
      }
    }
  }

  lemma GrantedTarget(matching: Matching, root: Root, id: string, enabled: bool, writes: bool)
    requires SetEnabled(matching, root, id, enabled, writes).1.None?
    ensures var k := Target(Items(matching, root), id);
            k < |Packs(root)| && Rewritten(Packs(root)[k].file, enabled).Some?
  {
    hide Refreshes;
  }

  lemma IsDirectory(matching: Matching, root: Root)
    requires Orderly(matching, root)
    ensures root.Directory?
  {
  }

  ghost predicate AlwaysOrderly(matching: Matching, root: Root, ops: seq<Op>) {
    forall n | 0 <= n <= |ops| :: Orderly(matching, After(matching, root, ops[..n]))
  }

  /** Every granted call of a run is safe where it happens. */
  predicate SafeRun(matching: Matching, root: Root, ops: seq<Op>) {
    forall n | 0 <= n < |ops| :: SafeStep(matching, After(matching, root, ops[..n]), ops[n])
  }

  predicate SafeStep(matching: Matching, root: Root, op: Op) {
    SetEnabled(matching, root, op.id, op.enabled, op.writes).1.Some? || SafeCall(matching, root, op.id, op.enabled)
  }

  /** Where nothing is enabled and no id occurs twice, the state is orderly. */
  lemma NothingEnabledIsOrderly(matching: Matching, packs: seq<PackDir>)
    requires UniquePackIds(Manifests(packs))
    requires forall i | 0 <= i < |Manifests(packs)| :: !Manifests(packs)[i].enabled
    ensures Orderly(matching, Directory(packs))
  {
    assert IsTopological(Manifests(packs), []);
  }

  /** Over every run from an orderly state: ids stay unique, the enabled packs stay closed under dependencies and
      topologically ordered after every call, if and only if every granted call was safe. */
  lemma {:induction false} RunsStayOrderly(matching: Matching, root: Root, ops: seq<Op>)
    requires Orderly(matching, root)
    ensures AlwaysOrderly(matching, root, ops) <==> SafeRun(matching, root, ops)
    decreases |ops|
  {
    hide Orderly, SafeStep, SetEnabled, After;
    OneMore(matching, root, ops);
    if ops == [] {
      assert ops[..0] == [];
    } else {
      hide AlwaysOrderly, SafeRun;
      var n := |ops| - 1;
      AlwaysOneMore(matching, root, ops);
      SafeOneMore(matching, root, ops);
      RunsStayOrderly(matching, root, ops[..n]);
      if AlwaysOrderly(matching, root, ops[..n]) {
        LastIsOrderly(matching, root, ops[..n]);
        SafeStepKeeps(matching, After(matching, root, ops[..n]), ops[n]);
      }
    }
  }

  lemma LastIsOrderly(matching: Matching, root: Root, ops: seq<Op>)
    requires AlwaysOrderly(matching, root, ops)
    ensures Orderly(matching, After(matching, root, ops))
  {
    assert ops[..|ops|] == ops;
  }

  lemma AlwaysOneMore(matching: Matching, root: Root, ops: seq<Op>)
    requires ops != []
    ensures AlwaysOrderly(matching, root, ops)
            == (AlwaysOrderly(matching, root, ops[..|ops| - 1]) && Orderly(matching, After(matching, root, ops)))
  {
    hide Orderly, After;
    var before := ops[..|ops| - 1];
    assert ops[..|ops|] == ops;
    if AlwaysOrderly(matching, root, ops) {
      forall n | 0 <= n <= |before| ensures Orderly(matching, After(matching, root, before[..n])) {
        assert before[..n] == ops[..n];
      }
    }
    if AlwaysOrderly(matching, root, before) && Orderly(matching, After(matching, root, ops)) {
      forall n | 0 <= n <= |ops| ensures Orderly(matching, After(matching, root, ops[..n])) {
        if n < |ops| {
          assert before[..n] == ops[..n];
        }
      }
    }
  }

  lemma SafeOneMore(matching: Matching, root: Root, ops: seq<Op>)
    requires ops != []
    ensures var n := |ops| - 1;
            SafeRun(matching, root, ops)
            == (SafeRun(matching, root, ops[..n]) && SafeStep(matching, After(matching, root, ops[..n]), ops[n]))
  {
    hide SafeStep, After;
    var before := ops[..|ops| - 1];
    assert forall i | 0 <= i < |before| :: before[..i] == ops[..i] && before[i] == ops[i];
  }

  lemma OneMore(matching: Matching, root: Root, ops: seq<Op>)
    ensures ops == [] ==> After(matching, root, ops) == root
    ensures ops != [] ==>
              var op := ops[|ops| - 1];
              After(matching, root, ops)
              == SetEnabled(matching, After(matching, root, ops[..|ops| - 1]), op.id, op.enabled, op.writes).0
  {
    hide SetEnabled;
  }

  lemma SafeStepKeeps(matching: Matching, root: Root, op: Op)
    requires Orderly(matching, root)
    ensures Orderly(matching, SetEnabled(matching, root, op.id, op.enabled, op.writes).0) <==>
            SafeStep(matching, root, op)
  {
    hide Orderly, SafeCall, SetEnabled;
    SetEnabledKeepsOrderly(matching, root, op.id, op.enabled, op.writes);
  }

  // ----- One more manifest ------------------------------------------------------------------------------------------

  lemma FlagIrrelevant(matching: Matching, ms: seq<Manifest>, m: Manifest, n: Manifest)
    requires m.dependencies == n.dependencies
    ensures Satisfied(matching, ms, m) == Satisfied(matching, ms, n)
  {
  }

  lemma InsertedUnique(a: seq<Manifest>, b: seq<Manifest>, m: Manifest)
    requires UniquePackIds(a + b)
    ensures UniquePackIds(a + [m] + b) <==> forall i | 0 <= i < |a + b| :: (a + b)[i].packId != m.packId
  {
    var ms, after := a + b, a + [m] + b;
    forall i | 0 <= i < |ms| ensures after[if i < |a| then i else i + 1] == ms[i] {
    }
    if UniquePackIds(after) {
      forall i | 0 <= i < |ms| ensures ms[i].packId != m.packId {
        assert after[|a|] == m && after[if i < |a| then i else i + 1] == ms[i];
      }
    }
    if forall i | 0 <= i < |ms| :: ms[i].packId != m.packId {
      forall i, j | 0 <= i < j < |after| ensures after[i].packId != after[j].packId {
        assert i != |a| ==> after[i] == ms[if i < |a| then i else i - 1];
        assert j != |a| ==> after[j] == ms[if j < |a| then j else j - 1];
      }
    }
  }

  /** A dependency on another pack does not see the new manifest. */
  lemma InsertionKeepsStatus(matching: Matching, a: seq<Manifest>, b: seq<Manifest>, m: Manifest, dep: Dependency)
    requires UniquePackIds(a + b) && UniquePackIds(a + [m] + b) && dep.packId != m.packId
    ensures StatusOf(matching, a + [m] + b, dep).satisfied == StatusOf(matching, a + b, dep).satisfied
  {
    hide StatusOf, UniquePackIds;
    var ms, after := a + b, a + [m] + b;
    SatisfiedBy(matching, ms, dep);
    SatisfiedBy(matching, after, dep);
    if StatusOf(matching, ms, dep).satisfied {
      var i :| 0 <= i < |ms| && ms[i].packId == dep.packId && ms[i].enabled && ms[i].compatible
               && matching(dep.range, ms[i].version);
      assert after[if i < |a| then i else i + 1] == ms[i];
    }
    if StatusOf(matching, after, dep).satisfied {
      var i :| 0 <= i < |after| && after[i].packId == dep.packId && after[i].enabled && after[i].compatible
               && matching(dep.range, after[i].version);
      assert i != |a| && after[i] == ms[if i < |a| then i else i - 1];
    }
  }

  /** Neither does a satisfied dependency, and a manifest that does not depend on the new one gains nothing. */
  lemma InsertionKeeps(matching: Matching, a: seq<Manifest>, b: seq<Manifest>, m: Manifest, x: Manifest)
    requires UniquePackIds(a + b) && UniquePackIds(a + [m] + b)
    ensures Satisfied(matching, a + b, x) ==> Satisfied(matching, a + [m] + b, x)
    ensures !OnItself(m) ==> Satisfied(matching, a + [m] + b, m) == Satisfied(matching, a + b, m)
  {
    hide StatusOf, UniquePackIds;
    InsertedUnique(a, b, m);
    var ms, after := a + b, a + [m] + b;
    if Satisfied(matching, ms, x) {
      forall d | 0 <= d < |x.dependencies| ensures StatusOf(matching, after, x.dependencies[d]).satisfied {
        SatisfiedNames(matching, ms, x.dependencies[d]);
        InsertionKeepsStatus(matching, a, b, m, x.dependencies[d]);
      }
    }
    if !OnItself(m) {
      forall d | 0 <= d < |m.dependencies|
        ensures StatusOf(matching, after, m.dependencies[d]).satisfied
                == StatusOf(matching, ms, m.dependencies[d]).satisfied
      {
        InsertionKeepsStatus(matching, a, b, m, m.dependencies[d]);
      }
    }
  }

  /** A satisfied dependency names one of the manifests. */
  lemma SatisfiedNames(matching: Matching, ms: seq<Manifest>, dep: Dependency)
    requires StatusOf(matching, ms, dep).satisfied
    ensures exists i | 0 <= i < |ms| :: ms[i].packId == dep.packId && ms[i].enabled
  {
  }

  lemma InsertionClosed(matching: Matching, a: seq<Manifest>, b: seq<Manifest>, m: Manifest)
    requires UniquePackIds(a + b) && UniquePackIds(a + [m] + b) && Closed(matching, a + b) && !OnItself(m)
    ensures Closed(matching, a + [m] + b) <==> (m.enabled ==> m.compatible && Satisfied(matching, a + b, m))
  {
    hide Satisfied, UniquePackIds, OnItself;
    var ms, after := a + b, a + [m] + b;
    assert after[|a|] == m;
    InsertionKeeps(matching, a, b, m, m);
    forall i | 0 <= i < |after| && i != |a| && after[i].enabled
      ensures after[i].compatible && Satisfied(matching, after, after[i])
    {
      assert after[i] == ms[if i < |a| then i else i - 1];
      InsertionKeeps(matching, a, b, m, after[i]);
    }
  }

  lemma InsertionEnabled(a: seq<Manifest>, b: seq<Manifest>, m: Manifest, id: string)
    ensures IsEnabled(a + [m] + b, id) <==> IsEnabled(a + b, id) || (id == m.packId && m.enabled)
  {
    var ms, after := a + b, a + [m] + b;
    assert after[|a|] == m;
    if IsEnabled(ms, id) {
      var i :| 0 <= i < |ms| && ms[i].packId == id && ms[i].enabled;
      assert after[if i < |a| then i else i + 1] == ms[i];
    }
    if i :| 0 <= i < |after| && i != |a| && after[i].packId == id && after[i].enabled {
      assert after[i] == ms[if i < |a| then i else i - 1];
    }
  }

  lemma InsertionKeepsOrder(matching: Matching, a: seq<Manifest>, b: seq<Manifest>, m: Manifest, order: seq<string>)
    returns (next: seq<string>)
    requires UniquePackIds(a + [m] + b) && IsTopological(a + b, order)
    requires m.enabled ==> Satisfied(matching, a + b, m)
    ensures IsTopological(a + [m] + b, next)
  {
    hide Satisfied;
    var ms, after := a + b, a + [m] + b;
    next := if m.enabled then order + [m.packId] else order;
    assert after[|a|] == m;
    assert !IsEnabled(ms, m.packId) by {
      if i :| 0 <= i < |ms| && ms[i].packId == m.packId && ms[i].enabled {
        assert after[if i < |a| then i else i + 1] == ms[i];
      }
    }
    forall id ensures IsEnabled(after, id) <==> IsEnabled(ms, id) || (id == m.packId && m.enabled) {
      InsertionEnabled(a, b, m, id);
    }
    forall i | 0 <= i < |after| && after[i].enabled ensures AllPrecede(next, after[i]) {
      if i == |a| {
        SatisfiedPrecedes(matching, ms, m, order);
      } else {
        assert after[i] == ms[if i < |a| then i else i - 1];
        AllPrecedeLonger(order, m.packId, after[i]);
      }
    }
  }

  lemma AllPrecedeLonger(order: seq<string>, last: string, m: Manifest)
    requires AllPrecede(order, m)
    ensures AllPrecede(order + [last], m)
  {
    forall d | 0 <= d < |m.dependencies| ensures Precedes(order + [last], m.dependencies[d].packId, m.packId) {
      PrecedesLonger(order, last, m.dependencies[d].packId, m.packId);
    }
  }

  /** Appended to an order, a pack comes after its satisfied dependencies. */
  lemma SatisfiedPrecedes(matching: Matching, ms: seq<Manifest>, m: Manifest, order: seq<string>)
    requires IsTopological(ms, order) && Satisfied(matching, ms, m)
    ensures AllPrecede(order + [m.packId], m)
  {
    hide Satisfied;
    var next := order + [m.packId];
    forall d | 0 <= d < |m.dependencies| ensures Precedes(next, m.dependencies[d].packId, m.packId) {
      DependencyIsEnabled(matching, ms, m, d);
      var k :| 0 <= k < |order| && order[k] == m.dependencies[d].packId;
      assert next[k] == order[k] && next[|order|] == m.packId;
    }
  }

  lemma InsertionIsOrderly(matching: Matching, a: seq<Manifest>, b: seq<Manifest>, m: Manifest)
    requires UniquePackIds(a + b) && Closed(matching, a + b) && exists order :: IsTopological(a + b, order)
    requires !OnItself(m)
    ensures var ms, after := a + b, a + [m] + b;
            UniquePackIds(after) && Closed(matching, after) && (exists order :: IsTopological(after, order))
            <==> RepairSafe(matching, ms, m, m.enabled)
  {
    hide UniquePackIds, Closed, IsTopological, Satisfied, OnItself;
    InsertedUnique(a, b, m);
    if UniquePackIds(a + [m] + b) {
      InsertionClosed(matching, a, b, m);
      if Closed(matching, a + [m] + b) {
        var order :| IsTopological(a + b, order);
        var next := InsertionKeepsOrder(matching, a, b, m, order);
      }
    }
  }

  // ----- Cycles ---------------------------------------------------------------------------------------------------

  predicate Requires(ms: seq<Manifest>, a: string, b: string) {
    exists i, d :: 0 <= i < |ms| && ms[i].packId == a && 0 <= d < |ms[i].dependencies|
      && ms[i].dependencies[d].packId == b
  }

  predicate IsPath(ms: seq<Manifest>, path: seq<string>) {
    forall i | 0 <= i < |path| - 1 :: Requires(ms, path[i], path[i + 1])
  }

  lemma EnabledPrecedes(ms: seq<Manifest>, order: seq<string>, a: string, b: string)
    requires UniquePackIds(ms) && IsTopological(ms, order) && IsEnabled(ms, a) && Requires(ms, a, b)
    ensures IsEnabled(ms, b) && Precedes(order, b, a)
  {
    var i :| 0 <= i < |ms| && ms[i].packId == a && ms[i].enabled;
    var i', d :| 0 <= i' < |ms| && ms[i'].packId == a && 0 <= d < |ms[i'].dependencies|
                 && ms[i'].dependencies[d].packId == b;
    assert i == i';
    assert AllPrecede(order, ms[i]);
    assert Precedes(order, b, a);
    assert b in order;
  }

  lemma PrecedesTransitive(order: seq<string>, a: string, b: string, c: string)
    requires forall j, k | 0 <= j < k < |order| :: order[j] != order[k]
    requires Precedes(order, a, b) && Precedes(order, b, c)
    ensures Precedes(order, a, c)
  {
  }

  lemma {:induction false} PathPrecedes(ms: seq<Manifest>, order: seq<string>, path: seq<string>)
    requires UniquePackIds(ms) && IsTopological(ms, order) && |path| >= 2 && IsPath(ms, path) && IsEnabled(ms, path[0])
    ensures Precedes(order, path[|path| - 1], path[0])
    decreases |path|
  {
    assert Requires(ms, path[0], path[1]);
    EnabledPrecedes(ms, order, path[0], path[1]);
    if |path| > 2 {
      var rest := path[1..];
      forall i | 0 <= i < |rest| - 1 ensures Requires(ms, rest[i], rest[i + 1]) {
        assert rest[i] == path[i + 1] && rest[i + 1] == path[i + 2];
        assert Requires(ms, path[i + 1], path[i + 1 + 1]);
      }
      PathPrecedes(ms, order, path[1..]);
      PrecedesTransitive(order, path[|path| - 1], path[1], path[0]);
    }
  }

  /** In a closed and ordered state no member of a dependency cycle is enabled. */
  lemma CycleNeverEnabled(matching: Matching, root: Root, cycle: seq<string>)
    requires Orderly(matching, root)
    requires |cycle| >= 2 && cycle[0] == cycle[|cycle| - 1] && IsPath(Manifests(root.packs), cycle)
    ensures !IsEnabled(Manifests(root.packs), cycle[0])
  {
    var ms := Manifests(root.packs);
    var order :| IsTopological(ms, order);
    if IsEnabled(ms, cycle[0]) {
      PathPrecedes(ms, order, cycle);
      assert false;
    }
  }

  // ----- The ways around the checks ------------------------------------------------------------------------------

  /** A pack whose flag is not a boolean and whose dependency is not installed. */
  const STRAY := PackDir("stray", true,
                         Broken(true, Some(Manifest("x", "1", false, [Dependency("gone", None)], true, false))),
                         NoCatalog)

  lemma RepairCanBreakClosure(matching: Matching)
    ensures var (after, no) := SetEnabled(matching, Directory([STRAY]), "stray", true, true);
            no.None? && after.Directory? && !Closed(matching, Manifests(after.packs))
  {
    var m := Manifest("x", "1", true, [Dependency("gone", None)], true, false);
    var fixed := STRAY.(file := Readable(true, m));
    assert [STRAY][..0] == [] && [fixed][..0] == [] && [STRAY][0 := fixed] == [fixed];
    assert Manifests([STRAY]) == [] && Manifests([fixed]) == [m];
    var items := Items(matching, Directory([STRAY]));
    assert items[0] == Item("stray", Failed, false, 0, false, false, Some(true), []);
    assert FirstOf([m], "gone") == FirstOf([m][1..], "gone") == None;
    assert !StatusOf(matching, [m], m.dependencies[0]).satisfied;
    assert !Satisfied(matching, [m], m);
    assert !Loads(matching, [m], fixed);
    assert ContractsOf(matching, [m], [fixed]) == [] + [];
    assert Refreshes(matching, Directory([fixed]));
  }

  /** Two packs in order, and a directory whose manifest, were its flag a boolean, would take the id of the first. */
  const BASE := PackDir("x", true, Readable(true, Manifest("x", "1", true, [], true, false)), NoCatalog)
  const USER := PackDir("y", true, Readable(true, Manifest("y", "1", true, [Dependency("x", None)], true, false)),
                        NoCatalog)
  const TWIN := PackDir("bad", true, Broken(true, Some(Manifest("x", "1", false, [], true, false))), NoCatalog)

  lemma ManifestsOfThree(a: PackDir, b: PackDir, c: PackDir)
    requires a.file.Readable? && b.file.Readable?
    ensures Manifests([a, b, c])
            == [a.file.manifest, b.file.manifest] + if c.file.Readable? then [c.file.manifest] else []
  {
    assert [a, b, c] == [a] + [b] + [c];
    assert [a][..0] == [] && [b][..0] == [] && [c][..0] == [];
    ManifestsAppend([a] + [b], [c]);
    ManifestsAppend([a], [b]);
  }

  /** Even switching such a directory off breaks the closure: nothing depends on its name, but the repaired
      manifest makes the id of the first pack ambiguous. */
  lemma RepairCanTakeAnId(matching: Matching)
    requires matching(None, "1")
    ensures var root := Directory([BASE, USER, TWIN]);
            var (after, no) := SetEnabled(matching, root, "bad", false, true);
            && Orderly(matching, root) && no.None? && after.Directory?
            && !UniquePackIds(Manifests(after.packs)) && !Closed(matching, Manifests(after.packs))
  {
    hide Manifests, Orderly, Closed, UniquePackIds, Items, Decide, Refreshes;
    var packs := [BASE, USER, TWIN];
    var fixed := TWIN.(file := Readable(true, Manifest("x", "1", false, [], true, false)));
    ManifestsOfThree(BASE, USER, TWIN);
    ManifestsOfThree(BASE, USER, fixed);
    assert Manifests(packs) == [BASE.file.manifest, USER.file.manifest];
    assert Manifests([BASE, USER, fixed]) == [BASE.file.manifest, USER.file.manifest, fixed.file.manifest];
    TwoAreOrderly(matching, packs);
    NobodyNamesBad(matching, packs);
    TwinsAreNotClosed(matching, fixed.file.manifest);
    CatalogFreeRefreshes(matching, [BASE, USER, fixed]);
    assert packs[2 := fixed] == [BASE, USER, fixed];
    assert !OnItself(TWIN.file.repaired.value);
  }

  lemma TwoAreOrderly(matching: Matching, packs: seq<PackDir>)
    requires matching(None, "1") && Manifests(packs) == [BASE.file.manifest, USER.file.manifest]
    ensures Orderly(matching, Directory(packs))
  {
    var ms := [BASE.file.manifest, USER.file.manifest];
    SatisfiedBy(matching, ms, Dependency("x", None));
    assert ms[0].packId == "x" && ms[1].packId == "y";
    assert ms[1].dependencies == [Dependency("x", None)];
    assert StatusOf(matching, ms, Dependency("x", None)).satisfied;
    var order := ["x", "y"];
    assert order[0] == "x" && order[1] == "y" && Precedes(order, "x", "y");
    assert AllPrecede(order, ms[0]) && AllPrecede(order, ms[1]);
    assert IsTopological(ms, order);
  }

  lemma NobodyNamesBad(matching: Matching, packs: seq<PackDir>)
    requires packs == [BASE, USER, TWIN]
    requires Manifests(packs) == [BASE.file.manifest, USER.file.manifest]
    ensures var items := Items(matching, Directory(packs));
            Target(items, "bad") == 2 && Decide(items, "bad", false).None?
  {
    hide StatusOf, Duplicated, Satisfied;
    var ms := Manifests(packs);
    var items := Items(matching, Directory(packs));
    assert items[0].packId == "x" && items[1].packId == "y" && items[2].packId == "bad";
    assert items[0].dependencies == [];
    ReadableItem(matching, ms, USER);
    StatusNames(matching, ms, Dependency("x", None));
    assert !Blocks(items[0], "bad") && !Blocks(items[1], "bad") && !Blocks(items[2], "bad");
    NobodyDepends(items, "bad");
  }

  lemma TwinsAreNotClosed(matching: Matching, twin: Manifest)
    requires twin.packId == "x"
    ensures var ms := [BASE.file.manifest, USER.file.manifest, twin];
            !UniquePackIds(ms) && !Closed(matching, ms)
  {
    var ms := [BASE.file.manifest, USER.file.manifest, twin];
    assert ms[0].packId == "x" && ms[2].packId == "x";
    assert Duplicated(ms, "x");
    assert !StatusOf(matching, ms, ms[1].dependencies[0]).satisfied;
    assert !Satisfied(matching, ms, ms[1]);
  }

  lemma {:induction false} NoContracts(matching: Matching, ms: seq<Manifest>, packs: seq<PackDir>)
    requires forall p | p in packs :: p.catalog.NoCatalog?
    ensures ContractsOf(matching, ms, packs) == []
    decreases |packs|
  {
    hide Active;
    if packs != [] {
      NoContracts(matching, ms, packs[..|packs| - 1]);
    }
  }

  lemma CatalogFreeRefreshes(matching: Matching, packs: seq<PackDir>)
    requires forall p | p in packs :: p.catalog.NoCatalog? && p.file.Readable? && !p.file.manifest.backend
    ensures Refreshes(matching, Directory(packs))
  {
    hide Active, Manifests, ContractsOf;
    NoContracts(matching, Manifests(packs), packs);
  }

  /** A manifest that would depend on itself is not repaired: the validation of the rewritten manifest refuses it. */
  lemma RepairOnItselfIsRefused(matching: Matching, packs: seq<PackDir>, id: string, enabled: bool, writes: bool)
    requires var k := Target(Items(matching, Directory(packs)), id);
             k < |packs| && packs[k].file.Broken?
             && packs[k].file.repaired.Some? && OnItself(packs[k].file.repaired.value)
    ensures SetEnabled(matching, Directory(packs), id, enabled, writes).0 == Directory(packs)
    ensures SetEnabled(matching, Directory(packs), id, enabled, writes).1.Some?
  {
    hide Refreshes, Decide;
  }
}
