/**
 Switching one pack on or off, told from the directories: exactly when a call is granted, exactly what it changes, and
 that every refusal is true. Also when a pack is usable, told from the manifests alone.
 */
module NodePackSwitching {
  import opened Common
  import opened NodePackScan
  import opened NodePackLoader
  import opened DependencyEnabling

  // ----- When a pack is usable ------------------------------------------------------------------------------------

  /** Exactly one manifest has this id, and it is this one. */
  predicate OnlyOne(ms: seq<Manifest>, i: nat) {
    i < |ms| && forall j | 0 <= j < |ms| && ms[j].packId == ms[i].packId :: j == i
  }

  /** The dependency names a pack that is there once, enabled, compatible and in range. */
  predicate Met(matching: Matching, ms: seq<Manifest>, dep: Dependency) {
    exists i | 0 <= i < |ms| ::
      OnlyOne(ms, i) && ms[i].packId == dep.packId && ms[i].enabled && ms[i].compatible
      && matching(dep.range, ms[i].version)
  }

  lemma OnlyOneIs(ms: seq<Manifest>, i: nat)
    requires i < |ms|
    ensures OnlyOne(ms, i) <==> !Duplicated(ms, ms[i].packId)
    ensures OnlyOne(ms, i) ==> FirstOf(ms, ms[i].packId) == Some(ms[i])
  {
    FirstOfIs(ms, ms[i].packId);
    if !OnlyOne(ms, i) {
      var j :| 0 <= j < |ms| && ms[j].packId == ms[i].packId && j != i;
      var lo, hi := if i < j then i else j, if i < j then j else i;
      assert ms[lo].packId == ms[i].packId && ms[hi].packId == ms[i].packId;
    }
  }

  /** What a dependency status says: installed when some manifest has the id, the version of the first one, enabled
      when there is exactly one and it is enabled and compatible, satisfied when it is in range too. */
  lemma StatusIs(matching: Matching, ms: seq<Manifest>, dep: Dependency)
    ensures var s := StatusOf(matching, ms, dep);
            && s.packId == dep.packId
            && (s.installed <==> exists i | 0 <= i < |ms| :: ms[i].packId == dep.packId)
            && (s.version.Some? <==> s.installed)
            && (s.enabled <==> exists i | 0 <= i < |ms| ::
                                 OnlyOne(ms, i) && ms[i].packId == dep.packId && ms[i].enabled && ms[i].compatible)
            && (s.satisfied <==> Met(matching, ms, dep))
  {
    hide Duplicated, FirstOf, OnlyOne, Met, EnabledIn;
    FirstOfIs(ms, dep.packId);
    EnabledIs(ms, dep.packId);
    MetIs(matching, ms, dep);
  }

  lemma EnabledIs(ms: seq<Manifest>, id: string)
    ensures EnabledIn(ms, id) <==>
              exists i | 0 <= i < |ms| :: OnlyOne(ms, i) && ms[i].packId == id && ms[i].enabled && ms[i].compatible
  {
    hide Duplicated, FirstOf, OnlyOne;
    if EnabledIn(ms, id) {
      var i :| 0 <= i < |ms| && ms[i].packId == id && ms[i].enabled && ms[i].compatible;
      OnlyOneIs(ms, i);
    }
    if i :| 0 <= i < |ms| && OnlyOne(ms, i) && ms[i].packId == id && ms[i].enabled && ms[i].compatible {
      OnlyOneIs(ms, i);
    }
  }

  lemma MetIs(matching: Matching, ms: seq<Manifest>, dep: Dependency)
    ensures Met(matching, ms, dep) <==>
              var m := FirstOf(ms, dep.packId);
              m.Some? && EnabledIn(ms, dep.packId) && matching(dep.range, m.value.version)
  {
    hide Duplicated, FirstOf, OnlyOne, EnabledIn;
    EnabledIs(ms, dep.packId);
    if EnabledIn(ms, dep.packId) {
      var i :| 0 <= i < |ms| && OnlyOne(ms, i) && ms[i].packId == dep.packId && ms[i].enabled && ms[i].compatible;
      OnlyOneIs(ms, i);
    }
    if i :| 0 <= i < |ms| && OnlyOne(ms, i) && ms[i].packId == dep.packId && ms[i].enabled && ms[i].compatible
            && matching(dep.range, ms[i].version) {
      OnlyOneIs(ms, i);
    }
  }

  /** The version a status shows is that of the first manifest with the id. */
  lemma VersionShown(matching: Matching, ms: seq<Manifest>, dep: Dependency, i: nat)
    requires i < |ms| && ms[i].packId == dep.packId && forall j | 0 <= j < i :: ms[j].packId != dep.packId
    ensures StatusOf(matching, ms, dep).version == Some(ms[i].version)
  {
    hide EnabledIn;
    FirstOfIs(ms, dep.packId);
  }

  /** The refresh collects the catalogs of exactly the packs that are enabled, compatible, alone with their id, and
      have every dependency met. */
  lemma ActiveIs(matching: Matching, ms: seq<Manifest>, p: PackDir, k: nat)
    requires k < |ms| && p.file.Readable? && p.file.manifest == ms[k]
    ensures Active(matching, ms, p) <==>
              && ms[k].enabled && ms[k].compatible && OnlyOne(ms, k)
              && forall d | 0 <= d < |ms[k].dependencies| :: Met(matching, ms, ms[k].dependencies[d])
  {
    OnlyOneIs(ms, k);
    forall d | 0 <= d < |ms[k].dependencies|
      ensures StatusOf(matching, ms, ms[k].dependencies[d]).satisfied <==> Met(matching, ms, ms[k].dependencies[d])
    {
      StatusIs(matching, ms, ms[k].dependencies[d]);
    }
    hide Met, StatusOf, OnlyOne, Duplicated;
  }

  predicate AllMet(matching: Matching, ms: seq<Manifest>, deps: seq<Dependency>) {
    forall d | 0 <= d < |deps| :: Met(matching, ms, deps[d])
  }

  /** Everything the status scan says about one directory. */
  lemma ItemIs(matching: Matching, ms: seq<Manifest>, p: PackDir, k: nat)
    requires p.file.Readable? ==> k < |ms| && p.file.manifest == ms[k]
    ensures var item := ItemOf(matching, ms, p);
            var readable := p.file.Readable?;
            && (item.manifestIsJson.Some? <==> !p.file.Missing?)
            && (item.manifestIsJson == Some(true) <==> !p.file.Missing? && p.file.json)
            && (item.enabled <==> readable && ms[k].enabled)
            && (item.state == Disabled <==> readable && OnlyOne(ms, k) && ms[k].compatible && !ms[k].enabled)
            && (item.state == Loaded <==> readable && OnlyOne(ms, k) && ms[k].compatible && ms[k].enabled
                                          && AllMet(matching, ms, ms[k].dependencies)
                                          && (p.catalog.NoCatalog? || p.catalog.Catalog?))
            && (item.incompatible <==> readable && OnlyOne(ms, k) && !ms[k].compatible)
            && (item.hasCatalog <==> item.state == Loaded && p.catalog.Catalog?)
            && item.nodeCount == (if item.hasCatalog then |p.catalog.definitions| else 0)
            && |item.dependencies| == (if readable then |ms[k].dependencies| else 0)
            && forall d | 0 <= d < |item.dependencies| ::
                 && item.dependencies[d].packId == ms[k].dependencies[d].packId
                 && (item.dependencies[d].satisfied <==> Met(matching, ms, ms[k].dependencies[d]))
  {
    hide Duplicated, StatusOf, OnlyOne, Met;
    if p.file.Readable? {
      OnlyOneIs(ms, k);
      forall d | 0 <= d < |ms[k].dependencies|
        ensures StatusOf(matching, ms, ms[k].dependencies[d]).packId == ms[k].dependencies[d].packId
        ensures StatusOf(matching, ms, ms[k].dependencies[d]).satisfied <==> Met(matching, ms, ms[k].dependencies[d])
      {
        StatusIs(matching, ms, ms[k].dependencies[d]);
      }
    }
  }

  // ----- When a call is granted and what it does ---------------------------------------------------------------------

  /** The id a pack directory goes by: that of its manifest, or its own name when the manifest cannot be read. */
  function Shown(p: PackDir): string {
    if p.file.Readable? then p.file.manifest.packId else p.name
  }

  /** The directory a call is about: the first one that goes by the id. */
  predicate IsTarget(packs: seq<PackDir>, id: string, k: nat) {
    k < |packs| && Shown(packs[k]) == id && forall i | 0 <= i < k :: Shown(packs[i]) != id
  }

  predicate Needs(p: PackDir, id: string) {
    p.file.Readable? && p.file.manifest.enabled && p.file.manifest.packId != id
    && exists d | 0 <= d < |p.file.manifest.dependencies| :: p.file.manifest.dependencies[d].packId == id
  }

  /** The manifest is JSON and, to switch off, no other enabled pack needs the id; to switch on a readable one, it is
      compatible or not alone with its id, and has every dependency met. */
  predicate Permitted(matching: Matching, packs: seq<PackDir>, k: nat, enabled: bool)
    requires k < |packs|
  {
    var ms := Manifests(packs);
    match packs[k].file
    case Missing => false
    case Broken(json, _) => json && (enabled || forall i | 0 <= i < |packs| :: !Needs(packs[i], Shown(packs[k])))
    case Readable(json, m) =>
      json
      && if enabled then
           (m.compatible || Duplicated(ms, m.packId))
           && forall d | 0 <= d < |m.dependencies| :: Met(matching, ms, m.dependencies[d])
         else forall i | 0 <= i < |packs| :: !Needs(packs[i], Shown(packs[k]))
  }

  /** The same directory, its manifest with the flag as asked for and otherwise as it was, or as it is once valid. */
  predicate Switched(p: PackDir, q: PackDir, enabled: bool) {
    match p.file
    case Missing => false
    case Broken(json, repaired) =>
      repaired.Some? && !OnItself(repaired.value)
      && q == p.(file := Readable(json, repaired.value.(enabled := enabled)))
    case Readable(json, m) => q == p.(file := Readable(json, m.(enabled := enabled)))
  }

  lemma ShownIs(matching: Matching, ms: seq<Manifest>, p: PackDir)
    ensures ItemOf(matching, ms, p).packId == Shown(p)
  {
    hide Duplicated, Satisfied, Statuses;
  }

  lemma TargetIs(matching: Matching, packs: seq<PackDir>, id: string)
    ensures var k := Target(Items(matching, Directory(packs)), id);
            && (k < |packs| ==> IsTarget(packs, id, k))
            && (forall j: nat | IsTarget(packs, id, j) :: j == k)
  {
    hide ItemOf, Items, Target;
    var items := Items(matching, Directory(packs));
    ItemsAre(matching, packs);
    var k := Target(items, id);
    forall j: nat | IsTarget(packs, id, j) ensures j == k {
      assert items[j].packId == id;
    }
  }

  lemma ItemsAre(matching: Matching, packs: seq<PackDir>)
    ensures var items := Items(matching, Directory(packs));
            |items| == |packs| && forall i | 0 <= i < |packs| ::
              items[i] == ItemOf(matching, Manifests(packs), packs[i]) && items[i].packId == Shown(packs[i])
  {
    hide ItemOf;
    forall i | 0 <= i < |packs| ensures ItemOf(matching, Manifests(packs), packs[i]).packId == Shown(packs[i]) {
      ShownIs(matching, Manifests(packs), packs[i]);
    }
  }

  lemma BlocksIs(matching: Matching, ms: seq<Manifest>, p: PackDir, id: string)
    ensures Blocks(ItemOf(matching, ms, p), id) <==> Needs(p, id)
  {
    hide Duplicated, Satisfied, StatusOf;
    ShownIs(matching, ms, p);
    if p.file.Readable? {
      var m := p.file.manifest;
      ReadableItem(matching, ms, p);
      forall d | 0 <= d < |m.dependencies|
        ensures StatusOf(matching, ms, m.dependencies[d]).packId == m.dependencies[d].packId
      {
        StatusNames(matching, ms, m.dependencies[d]);
      }
    }
  }

  lemma IncompatibleIs(matching: Matching, ms: seq<Manifest>, p: PackDir)
    ensures var item := ItemOf(matching, ms, p);
            && (item.incompatible <==>
                  p.file.Readable? && !p.file.manifest.compatible && !Duplicated(ms, p.file.manifest.packId))
            && item.manifestIsJson
               == (match p.file case Missing => None case Broken(j, _) => Some(j) case Readable(j, _) => Some(j))
            && (!p.file.Readable? ==> item.dependencies == [])
  {
    hide Duplicated, Satisfied, Statuses;
  }

  /** The checks pass exactly when the call is permitted. */
  lemma DecideIs(matching: Matching, packs: seq<PackDir>, id: string, enabled: bool, k: nat)
    requires IsTarget(packs, id, k)
    ensures Decide(Items(matching, Directory(packs)), id, enabled).None? <==> Permitted(matching, packs, k, enabled)
  {
    hide ItemOf, Items, StatusOf, Duplicated, Met, Blocks, Needs, Manifests;
    var ms := Manifests(packs);
    var items := Items(matching, Directory(packs));
    ItemsAre(matching, packs);
    TargetIs(matching, packs, id);
    NobodyDepends(items, id);
    AllSatisfied(items[k].dependencies);
    IncompatibleIs(matching, ms, packs[k]);
    forall i | 0 <= i < |packs| ensures Blocks(items[i], id) <==> Needs(packs[i], id) {
      BlocksIs(matching, ms, packs[i], id);
    }
    if packs[k].file.Readable? {
      var m := packs[k].file.manifest;
      ReadableItem(matching, ms, packs[k]);
      forall d | 0 <= d < |m.dependencies|
        ensures items[k].dependencies[d].satisfied <==> Met(matching, ms, m.dependencies[d])
      {
        StatusIs(matching, ms, m.dependencies[d]);
      }
    }
  }

  predicate Grants(matching: Matching, packs: seq<PackDir>, id: string, enabled: bool, writes: bool, k: nat,
                   q: PackDir)
  {
    k < |packs| && IsTarget(packs, id, k) && Permitted(matching, packs, k, enabled) && writes
    && Switched(packs[k], q, enabled) && Refreshes(matching, Directory(packs[k := q]))
  }

  /** A granted call has a target that may be switched, a manifest that can be rewritten, and a refresh that goes
      through; exactly the target differs, in nothing but its flag. A refused call changes nothing. */
  lemma SwitchDoes(matching: Matching, packs: seq<PackDir>, id: string, enabled: bool, writes: bool)
    returns (k: nat, q: PackDir)
    ensures var (next, no) := SetEnabled(matching, Directory(packs), id, enabled, writes);
            && (no.Some? ==> next == Directory(packs))
            && (no.None? ==>
                  Grants(matching, packs, id, enabled, writes, k, q) && next == Directory(packs[k := q]))
  {
    hide Items, Decide, Refreshes, IsTarget, Permitted, Switched;
    k := Target(Items(matching, Directory(packs)), id);
    q := PackDir("", true, Missing, NoCatalog);
    TargetIs(matching, packs, id);
    if k < |packs| {
      DecideIs(matching, packs, id, enabled, k);
      RewrittenIs(packs[k], enabled);
      if Rewritten(packs[k].file, enabled).Some? {
        q := packs[k].(file := Rewritten(packs[k].file, enabled).value);
      }
    } else {
      NoTarget(matching, packs, id, enabled);
    }
  }

  /** And every such call is granted. */
  lemma SwitchIsGranted(matching: Matching, packs: seq<PackDir>, id: string, enabled: bool, writes: bool, k: nat,
                        q: PackDir)
    requires Grants(matching, packs, id, enabled, writes, k, q)
    ensures SetEnabled(matching, Directory(packs), id, enabled, writes) == (Directory(packs[k := q]), None)
  {
    hide Items, Decide, Refreshes, IsTarget, Permitted, Switched;
    TargetIs(matching, packs, id);
    assert k == Target(Items(matching, Directory(packs)), id);
    DecideIs(matching, packs, id, enabled, k);
    RewrittenIs(packs[k], enabled);
  }

  lemma NoTarget(matching: Matching, packs: seq<PackDir>, id: string, enabled: bool)
    requires Target(Items(matching, Directory(packs)), id) == |packs|
    ensures Decide(Items(matching, Directory(packs)), id, enabled) == Some(NotFound)
  {
    ItemsAre(matching, packs);
  }

  lemma RewrittenIs(p: PackDir, enabled: bool)
    ensures forall q: PackDir ::
              Switched(p, q, enabled) <==>
              Rewritten(p.file, enabled).Some? && q == p.(file := Rewritten(p.file, enabled).value)
  {
    hide OnItself;
  }

  // ----- Refusals tell the truth ---------------------------------------------------------------------------------

  /** The ids of the enabled packs that need this one, in order. */
  function WhoNeeds(packs: seq<PackDir>, id: string): seq<string> {
    if packs == [] then []
    else
      WhoNeeds(packs[..|packs| - 1], id)
      + if Needs(packs[|packs| - 1], id) then [packs[|packs| - 1].file.manifest.packId] else []
  }

  lemma {:induction false} DependentsAre(matching: Matching, ms: seq<Manifest>, packs: seq<PackDir>, items: seq<Item>,
                                         id: string)
    requires |items| == |packs| && forall i | 0 <= i < |packs| :: items[i] == ItemOf(matching, ms, packs[i])
    ensures Dependents(items, id) == WhoNeeds(packs, id)
    decreases |packs|
  {
    hide Blocks, Needs, ItemOf;
    if packs != [] {
      var n := |packs| - 1;
      DependentsAre(matching, ms, packs[..n], items[..n], id);
      BlocksIs(matching, ms, packs[n], id);
      ShownIs(matching, ms, packs[n]);
      NeedsReadable(packs[n], id);
    }
  }

  lemma NeedsReadable(p: PackDir, id: string)
    ensures Needs(p, id) ==> p.file.Readable? && Shown(p) == p.file.manifest.packId
  {
  }

  /** What each refusal of a call means. */
  ghost predicate TrueRefusal(matching: Matching, packs: seq<PackDir>, id: string, enabled: bool, writes: bool,
                              no: Refusal) {
    match no
    case NotFound => forall k | 0 <= k < |packs| :: Shown(packs[k]) != id
    case NoManifest => exists k: nat :: IsTarget(packs, id, k) && packs[k].file.Missing?
    case NotJson => exists k: nat :: IsTarget(packs, id, k) && !packs[k].file.Missing? && !packs[k].file.json
    case NeededBy(ids) => !enabled && ids == WhoNeeds(packs, id) && ids != []
    case Incompatible => enabled && exists k: nat :: IsTarget(packs, id, k) && packs[k].file.Readable?
                                                && !packs[k].file.manifest.compatible
    case Unsatisfied(dep) => enabled && exists k: nat :: IsTarget(packs, id, k) && FirstUnmet(matching, packs, k, dep)
    case NotRewritten =>
      !writes || forall k: nat, q: PackDir | k < |packs| && IsTarget(packs, id, k) :: !Switched(packs[k], q, enabled)
    case NotReloaded =>
      exists k: nat, q: PackDir :: k < |packs| && IsTarget(packs, id, k) && Switched(packs[k], q, enabled)
                     && !Refreshes(matching, Directory(packs[k := q]))
  }

  /** The first dependency of the target that is not met has this id. */
  predicate FirstUnmet(matching: Matching, packs: seq<PackDir>, k: nat, dep: string) {
    k < |packs| && packs[k].file.Readable?
    && var deps := packs[k].file.manifest.dependencies; var ms := Manifests(packs);
       exists d | 0 <= d < |deps| ::
         deps[d].packId == dep && !Met(matching, ms, deps[d]) && forall e | 0 <= e < d :: Met(matching, ms, deps[e])
  }

  lemma {:induction false} FirstUnsatisfiedIs(statuses: seq<DependencyStatus>)
    ensures match FirstUnsatisfied(statuses)
            case None => true
            case Some(id) => exists d | 0 <= d < |statuses| ::
              statuses[d].packId == id && !statuses[d].satisfied && forall e | 0 <= e < d :: statuses[e].satisfied
  {
    if statuses != [] && statuses[0].satisfied {
      FirstUnsatisfiedIs(statuses[1..]);
      if FirstUnsatisfied(statuses[1..]).Some? {
        var d :| 0 <= d < |statuses[1..]| && statuses[1..][d].packId == FirstUnsatisfied(statuses[1..]).value
                 && !statuses[1..][d].satisfied && forall e | 0 <= e < d :: statuses[1..][e].satisfied;
        assert statuses[d + 1] == statuses[1..][d];
        assert forall e | 0 < e < d + 1 :: statuses[e] == statuses[1..][e - 1];
      }
    }
  }

  lemma UnmetIs(matching: Matching, packs: seq<PackDir>, k: nat)
    requires k < |packs|
    ensures var r := FirstUnsatisfied(ItemOf(matching, Manifests(packs), packs[k]).dependencies);
            r.Some? ==> FirstUnmet(matching, packs, k, r.value)
  {
    hide StatusOf, Met, Manifests, ItemOf;
    var ms := Manifests(packs);
    IncompatibleIs(matching, ms, packs[k]);
    var item := ItemOf(matching, ms, packs[k]);
    FirstUnsatisfiedIs(item.dependencies);
    if packs[k].file.Readable? {
      var deps := packs[k].file.manifest.dependencies;
      ReadableItem(matching, ms, packs[k]);
      forall d | 0 <= d < |deps|
        ensures item.dependencies[d].packId == deps[d].packId
        ensures item.dependencies[d].satisfied <==> Met(matching, ms, deps[d])
      {
        StatusIs(matching, ms, deps[d]);
      }
    }
  }

  /** Every refusal of a call is true. */
  lemma RefusalIs(matching: Matching, packs: seq<PackDir>, id: string, enabled: bool, writes: bool)
    ensures var no := SetEnabled(matching, Directory(packs), id, enabled, writes).1;
            no.Some? ==> TrueRefusal(matching, packs, id, enabled, writes, no.value)
  {
    hide ItemOf, Items, Refreshes, Manifests, FirstUnmet, Switched;
    var k := Target(Items(matching, Directory(packs)), id);
    ItemsAre(matching, packs);
    TargetIs(matching, packs, id);
    if k < |packs| {
      hide TrueRefusal;
      if Decide(Items(matching, Directory(packs)), id, enabled).Some? {
        DecidedTruly(matching, packs, id, enabled, writes, k);
      } else {
        RewrittenTruly(matching, packs, id, enabled, writes, k);
      }
    } else {
      assert forall i | 0 <= i < |packs| :: Shown(packs[i]) != id;
    }
  }

  lemma DecidedTruly(matching: Matching, packs: seq<PackDir>, id: string, enabled: bool, writes: bool, k: nat)
    requires k == Target(Items(matching, Directory(packs)), id) && k < |packs| && IsTarget(packs, id, k)
    requires Decide(Items(matching, Directory(packs)), id, enabled).Some?
    ensures TrueRefusal(matching, packs, id, enabled, writes,
                        Decide(Items(matching, Directory(packs)), id, enabled).value)
  {
    hide ItemOf, Refreshes, StatusOf, Duplicated, Needs, Manifests, FirstUnmet, Switched, IsTarget;
    var items := Items(matching, Directory(packs));
    DependentsAre(matching, Manifests(packs), packs, items, id);
    IncompatibleIs(matching, Manifests(packs), packs[k]);
    UnmetIs(matching, packs, k);
  }

  lemma RewrittenTruly(matching: Matching, packs: seq<PackDir>, id: string, enabled: bool, writes: bool, k: nat)
    requires k == Target(Items(matching, Directory(packs)), id) && k < |packs| && IsTarget(packs, id, k)
    requires Decide(Items(matching, Directory(packs)), id, enabled).None?
    ensures var no := SetEnabled(matching, Directory(packs), id, enabled, writes).1;
            no.Some? ==> TrueRefusal(matching, packs, id, enabled, writes, no.value)
  {
    hide Items, Refreshes, Decide, Switched, IsTarget;
    TargetIs(matching, packs, id);
    RewrittenIs(packs[k], enabled);
    var file := Rewritten(packs[k].file, enabled);
    if file.Some? {
      var q := packs[k].(file := file.value);
      assert Switched(packs[k], q, enabled);
    }
  }
}
