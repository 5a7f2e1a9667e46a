/**
 What the local loader reads from the node pack directories: the manifest index, the dependency statuses, the
 status items of a scan, and the catalog a refresh collects.
 */
module NodePackScan {
  import opened Common
  import opened CatalogMerge

  datatype Dependency = Dependency(packId: string, range: Option<string>)

  /** `compatible` says that this host meets the manifest's own requirements. */
  datatype Manifest = Manifest(packId: string, version: string, enabled: bool, dependencies: seq<Dependency>,
                               compatible: bool, backend: bool)

  /** What a pack directory has for a manifest. `json` is whether the file is `manifest.json`; `repaired` is
      what a broken one would be if only its flag were a boolean. */
  datatype ManifestFile =
    | Missing
    | Broken(json: bool, repaired: Option<Manifest>)
    | Readable(json: bool, manifest: Manifest)

  /** A payload contract; `origin` tells equal-looking contracts of different packs apart. */
  datatype Contract = Contract(typeId: string, dump: string, origin: nat)

  datatype Definition = Definition(typeId: string, dump: string)

  /** `Invalid` is a catalog refused with a configuration error, `Unreadable` one that fails otherwise. */
  datatype Catalog = NoCatalog | Catalog(contracts: seq<Contract>, definitions: seq<Definition>) | Invalid | Unreadable

  datatype PackDir = PackDir(name: string, importable: bool, file: ManifestFile, catalog: Catalog)

  datatype Root = Absent | NotDirectory | Directory(packs: seq<PackDir>)

  /** Whether a version lies in a version range; no range means any version. */
  type Matching = (Option<string>, string) -> bool

  function Manifests(packs: seq<PackDir>): seq<Manifest> {
    if packs == [] then []
    else Manifests(packs[..|packs| - 1])
         + if packs[|packs| - 1].file.Readable? then [packs[|packs| - 1].file.manifest] else []
  }

  // ----- The manifest index -------------------------------------------------------------------------------

  predicate Duplicated(ms: seq<Manifest>, id: string) {
    exists i, j :: 0 <= i < j < |ms| && ms[i].packId == id && ms[j].packId == id
  }

  function FirstOf(ms: seq<Manifest>, id: string): Option<Manifest> {
    if ms == [] then None
    else if ms[0].packId == id then Some(ms[0])
    else FirstOf(ms[1..], id)
  }

  lemma {:induction false} FirstOfIs(ms: seq<Manifest>, id: string)
    ensures match FirstOf(ms, id)
            case None => forall i | 0 <= i < |ms| :: ms[i].packId != id
            case Some(m) => exists k | 0 <= k < |ms| ::
                              ms[k] == m && m.packId == id && forall i | 0 <= i < k :: ms[i].packId != id
  {
    if ms != [] && ms[0].packId != id {
      FirstOfIs(ms[1..], id);
      match FirstOf(ms[1..], id)
      case None =>
        assert forall i | 0 < i < |ms| :: ms[i] == ms[1..][i - 1];
      case Some(m) =>
        var k :| 0 <= k < |ms[1..]| && ms[1..][k] == m && forall i | 0 <= i < k :: ms[1..][i].packId != id;
        assert ms[k + 1] == m && forall i | 0 < i < k + 1 :: ms[i] == ms[1..][i - 1];
    }
  }

  lemma {:induction false} FirstOfSnoc(ms: seq<Manifest>, m: Manifest, id: string)
    ensures FirstOf(ms + [m], id) == if FirstOf(ms, id).Some? then FirstOf(ms, id) else if m.packId == id then Some(m)
            else None
  {
    if ms == [] {
      assert ms + [m] == [m];
    } else {
      assert (ms + [m])[1..] == ms[1..] + [m];
      FirstOfSnoc(ms[1..], m, id);
    }
  }

  lemma DuplicatedSnoc(ms: seq<Manifest>, m: Manifest, id: string)
    ensures Duplicated(ms + [m], id) <==> Duplicated(ms, id) || (m.packId == id && FirstOf(ms, id).Some?)
  {
    var more := ms + [m];
    FirstOfIs(ms, id);
    assert forall i | 0 <= i < |ms| :: more[i] == ms[i];
    if Duplicated(ms, id) {
      var i, j :| 0 <= i < j < |ms| && ms[i].packId == id && ms[j].packId == id;
      assert more[i].packId == id && more[j].packId == id;
    }
    if m.packId == id && FirstOf(ms, id).Some? {
      var i :| 0 <= i < |ms| && ms[i].packId == id;
      assert more[i].packId == id && more[|ms|].packId == id;
    }
  }

  /** `_build_non_throwing_manifest_index`: the first manifest of every id, and the ids seen twice. */
  method BuildIndex(ms: seq<Manifest>) returns (index: map<string, Manifest>, duplicated: set<string>)
    ensures forall id ::
              (id in index <==> FirstOf(ms, id).Some?) && (id in index ==> Some(index[id]) == FirstOf(ms, id))
    ensures forall id :: id in duplicated <==> Duplicated(ms, id)
  {
    hide FirstOf, Duplicated;
    index, duplicated := map[], {};
    NothingIndexed();
    assert ms[..0] == [];
    for n := 0 to |ms|
      invariant forall id ::
                  && (id in index <==> FirstOf(ms[..n], id).Some?)
                  && (id in index ==> Some(index[id]) == FirstOf(ms[..n], id))
      invariant forall id :: id in duplicated <==> Duplicated(ms[..n], id)
    {
      var m := ms[n];
      assert ms[..n + 1] == ms[..n] + [m];
      forall id
        ensures FirstOf(ms[..n + 1], id) == if FirstOf(ms[..n], id).Some? then FirstOf(ms[..n], id)
                else if m.packId == id then Some(m) else None
        ensures Duplicated(ms[..n + 1], id) <==>
                  Duplicated(ms[..n], id) || (m.packId == id && FirstOf(ms[..n], id).Some?)
      {
        FirstOfSnoc(ms[..n], m, id);
        DuplicatedSnoc(ms[..n], m, id);
      }
      if m.packId in index {
        duplicated := duplicated + {m.packId};
      } else {
        index := index[m.packId := m];
      }
    }
    assert ms[..|ms|] == ms;
  }

  lemma NothingIndexed()
    ensures forall id :: FirstOf([], id).None? && !Duplicated([], id)
  {
  }

  predicate EnabledIn(ms: seq<Manifest>, id: string) {
    !Duplicated(ms, id) && exists i :: 0 <= i < |ms| && ms[i].packId == id && ms[i].enabled && ms[i].compatible
  }

  // ----- Dependencies -------------------------------------------------------------------------------------

  datatype DependencyStatus = DependencyStatus(packId: string, installed: bool, enabled: bool, version: Option<string>,
                                               satisfied: bool)

  function StatusOf(matching: Matching, ms: seq<Manifest>, dep: Dependency): DependencyStatus {
    var m := FirstOf(ms, dep.packId);
    DependencyStatus(dep.packId, m.Some?, EnabledIn(ms, dep.packId), if m.Some? then Some(m.value.version) else None,
                     m.Some? && EnabledIn(ms, dep.packId) && matching(dep.range, m.value.version))
  }

  function Statuses(matching: Matching, ms: seq<Manifest>, deps: seq<Dependency>): (r: seq<DependencyStatus>)
    ensures |r| == |deps| && forall i | 0 <= i < |deps| :: r[i] == StatusOf(matching, ms, deps[i])
  {
    seq(|deps|, i requires 0 <= i < |deps| => StatusOf(matching, ms, deps[i]))
  }

  method BuildDependencyStatuses(matching: Matching, deps: seq<Dependency>, index: map<string, Manifest>,
                                 enabled: set<string>, ghost ms: seq<Manifest>)
    returns (statuses: seq<DependencyStatus>)
    requires forall id ::
               (id in index <==> FirstOf(ms, id).Some?) && (id in index ==> Some(index[id]) == FirstOf(ms, id))
    requires forall id :: id in enabled <==> EnabledIn(ms, id)
    ensures statuses == Statuses(matching, ms, deps)
  {
    statuses := [];
    for n := 0 to |deps|
      invariant |statuses| == n && forall i | 0 <= i < n :: statuses[i] == StatusOf(matching, ms, deps[i])
    {
      var dep := deps[n];
      var installed := dep.packId in index;
      var on := dep.packId in enabled;
      var version := if installed then Some(index[dep.packId].version) else None;
      var satisfied := installed && on && matching(dep.range, index[dep.packId].version);
      statuses := statuses + [DependencyStatus(dep.packId, installed, on, version, satisfied)];
    }
  }

  predicate Satisfied(matching: Matching, ms: seq<Manifest>, m: Manifest) {
    forall i | 0 <= i < |m.dependencies| :: StatusOf(matching, ms, m.dependencies[i]).satisfied
  }

  // ----- The status scan ----------------------------------------------------------------------------------

  datatype ItemState = Loaded | Disabled | Failed

  /** One status item; `manifestIsJson` is absent when there is no manifest file. */
  datatype Item = Item(packId: string, state: ItemState, enabled: bool, nodeCount: nat, hasCatalog: bool,
                       incompatible: bool, manifestIsJson: Option<bool>, dependencies: seq<DependencyStatus>)

  function ItemOf(matching: Matching, ms: seq<Manifest>, p: PackDir): Item {
    match p.file
    case Missing => Item(p.name, Failed, false, 0, false, false, None, [])
    case Broken(json, _) => Item(p.name, Failed, false, 0, false, false, Some(json), [])
    case Readable(json, m) =>
      var statuses := Statuses(matching, ms, m.dependencies);
      if Duplicated(ms, m.packId) then Item(m.packId, Failed, m.enabled, 0, false, false, Some(json), statuses)
      else if !m.compatible then Item(m.packId, Failed, m.enabled, 0, false, true, Some(json), statuses)
      else if !m.enabled then Item(m.packId, Disabled, false, 0, false, false, Some(json), statuses)
      else if !Satisfied(matching, ms, m) then Item(m.packId, Failed, true, 0, false, false, Some(json), statuses)
      else if p.catalog.NoCatalog? then Item(m.packId, Loaded, true, 0, false, false, Some(json), statuses)
      else if p.catalog.Catalog?
        then Item(m.packId, Loaded, true, |p.catalog.definitions|, true, false, Some(json), statuses)
      else Item(m.packId, Failed, true, 0, false, false, Some(json), statuses)
  }

  function Packs(root: Root): seq<PackDir> {
    if root.Directory? then root.packs else []
  }

  /** `inspect_node_pack_status`. */
  function Items(matching: Matching, root: Root): (r: seq<Item>)
    ensures |r| == |Packs(root)|
    ensures forall i | 0 <= i < |r| :: r[i] == ItemOf(matching, Manifests(Packs(root)), Packs(root)[i])
  {
    var packs := Packs(root);
    seq(|packs|, i requires 0 <= i < |packs| => ItemOf(matching, Manifests(packs), packs[i]))
  }

  // ----- The refresh --------------------------------------------------------------------------------------

  datatype Snapshot = Snapshot(manifests: seq<Manifest>, contracts: seq<Contract>, definitions: seq<Definition>)

  datatype RefreshError = RootIsNotDirectory | NotImportable | CatalogUnreadable | ContractsConflict(typeId: string)

  const EMPTY_SNAPSHOT := Snapshot([], [], [])

  const CONTRACTS: Reading<Contract> := Reading((c: Contract) => c.typeId, (c: Contract) => c.dump)

  /** A pack whose catalog a refresh tries to load. */
  predicate Active(matching: Matching, ms: seq<Manifest>, p: PackDir) {
    p.file.Readable? && p.file.manifest.enabled && !Duplicated(ms, p.file.manifest.packId)
    && p.file.manifest.compatible && Satisfied(matching, ms, p.file.manifest)
  }

  predicate Loads(matching: Matching, ms: seq<Manifest>, p: PackDir) {
    Active(matching, ms, p) && p.catalog.Catalog?
  }

  function DefinitionsOf(matching: Matching, ms: seq<Manifest>, packs: seq<PackDir>): seq<Definition> {
    if packs == [] then []
    else DefinitionsOf(matching, ms, packs[..|packs| - 1])
         + if Loads(matching, ms, packs[|packs| - 1]) then packs[|packs| - 1].catalog.definitions else []
  }

  function ContractsOf(matching: Matching, ms: seq<Manifest>, packs: seq<PackDir>): seq<Contract> {
    if packs == [] then []
    else ContractsOf(matching, ms, packs[..|packs| - 1])
         + if Loads(matching, ms, packs[|packs| - 1]) then packs[|packs| - 1].catalog.contracts else []
  }

  /** When a refresh ends normally. */
  predicate Refreshes(matching: Matching, root: Root) {
    match root
    case Absent => true
    case NotDirectory => false
    case Directory(packs) =>
      var ms := Manifests(packs);
      && (forall p | p in packs && p.file.Readable? && p.file.manifest.backend :: p.importable)
      && (forall p | p in packs && Active(matching, ms, p) :: !p.catalog.Unreadable?)
      && Agree(CONTRACTS, ContractsOf(matching, ms, packs))
  }

  function Refreshed(matching: Matching, root: Root): Snapshot {
    var packs := Packs(root);
    var ms := Manifests(packs);
    Snapshot(ms, Firsts(CONTRACTS, ContractsOf(matching, ms, packs)), DefinitionsOf(matching, ms, packs))
  }

  // ----- The cache and the scan agree -----------------------------------------------------------------------

  function NodeTotal(items: seq<Item>): nat {
    if items == [] then 0
    else NodeTotal(items[..|items| - 1]) + if items[|items| - 1].state == Loaded then items[|items| - 1].nodeCount
      else 0
  }

  /** The definitions of the packs that a list of items marks loaded with a catalog, in order. */
  function Listed(packs: seq<PackDir>, items: seq<Item>): seq<Definition>
    requires |packs| == |items|
    requires forall i | 0 <= i < |items| && items[i].hasCatalog :: packs[i].catalog.Catalog?
  {
    if packs == [] then []
    else
      var n := |packs| - 1;
      Listed(packs[..n], items[..n]) + if items[n].state == Loaded && items[n].hasCatalog
        then packs[n].catalog.definitions else []
  }

  /** An item is loaded with a catalog exactly when the refresh collects that pack. */
  lemma ItemSaysLoaded(matching: Matching, ms: seq<Manifest>, p: PackDir)
    ensures var item := ItemOf(matching, ms, p);
            && (item.state == Loaded && item.hasCatalog <==> Loads(matching, ms, p))
            && (item.hasCatalog ==> p.catalog.Catalog?)
            && (item.state == Loaded ==> item.nodeCount == if item.hasCatalog then |p.catalog.definitions| else 0)
  {
    hide Duplicated, Satisfied, Statuses;
  }

  /** What the scan says of a list of packs fits what a refresh collects from them. */
  ghost predicate Fits(matching: Matching, ms: seq<Manifest>, packs: seq<PackDir>, items: seq<Item>) {
    |packs| == |items| && forall i | 0 <= i < |packs| :: items[i] == ItemOf(matching, ms, packs[i])
  }

  lemma {:induction false} FittingItems(matching: Matching, ms: seq<Manifest>, packs: seq<PackDir>, items: seq<Item>)
    requires Fits(matching, ms, packs, items)
    ensures forall i | 0 <= i < |items| && items[i].hasCatalog :: packs[i].catalog.Catalog?
    ensures DefinitionsOf(matching, ms, packs) == Listed(packs, items)
    ensures |DefinitionsOf(matching, ms, packs)| == NodeTotal(items)
    decreases |packs|
  {
    hide ItemOf, Loads;
    if packs != [] {
      var n := |packs| - 1;
      ItemSaysLoaded(matching, ms, packs[n]);
      FittingItems(matching, ms, packs[..n], items[..n]);
      assert forall i | 0 <= i < n :: packs[..n][i] == packs[i] && items[..n][i] == items[i];
    }
  }

  /** After a refresh, the cached definitions come from exactly the packs an independent scan marks loaded with
      a catalog, in the same order, and their number is the sum of the counts the scan shows. */
  lemma CacheAgreesWithScan(matching: Matching, root: Root)
    ensures var items := Items(matching, root); var packs := Packs(root);
            && (forall i | 0 <= i < |items| && items[i].hasCatalog :: packs[i].catalog.Catalog?)
            && Refreshed(matching, root).definitions == Listed(packs, items)
            && |Refreshed(matching, root).definitions| == NodeTotal(items)
  {
    hide ItemOf, DefinitionsOf, Listed, NodeTotal;
    FittingItems(matching, Manifests(Packs(root)), Packs(root), Items(matching, root));
  }
}
