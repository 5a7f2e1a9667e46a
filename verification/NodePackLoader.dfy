/**
 The local loader: refreshing its cached catalog, and switching one pack's flag with the checks that keep
 dependencies enabled and the restore that undoes a switch the reload rejects.
 */
module NodePackLoader {
  import opened Common
  import opened CatalogMerge
  import opened NodePackScan

  datatype Refusal =
    | NotFound | NoManifest | NotJson
    | NeededBy(ids: seq<string>) | Incompatible | Unsatisfied(id: string)
    | NotRewritten | NotReloaded

  function Target(items: seq<Item>, id: string): (k: nat)
    ensures k <= |items|
    ensures k < |items| ==> items[k].packId == id
    ensures forall i | 0 <= i < k :: items[i].packId != id
  {
    if items == [] then 0 else if items[0].packId == id then 0 else Target(items[1..], id) + 1
  }

  predicate DependsOn(item: Item, id: string) {
    exists i | 0 <= i < |item.dependencies| :: item.dependencies[i].packId == id
  }

  /** An enabled item, other than the target, that lists it. */
  predicate Blocks(item: Item, id: string) {
    item.enabled && item.packId != id && DependsOn(item, id)
  }

  /** The ids of those items, in order. */
  function Dependents(items: seq<Item>, id: string): seq<string> {
    if items == [] then []
    else
      Dependents(items[..|items| - 1], id)
      + var last := items[|items| - 1];
        if Blocks(last, id) then [last.packId] else []
  }

  function FirstUnsatisfied(statuses: seq<DependencyStatus>): Option<string> {
    if statuses == [] then None
    else if !statuses[0].satisfied then Some(statuses[0].packId)
    else FirstUnsatisfied(statuses[1..])
  }

  /** The checks before anything is written. */
  function Decide(items: seq<Item>, id: string, enabled: bool): Option<Refusal> {
    var k := Target(items, id);
    if k == |items| then Some(NotFound)
    else if items[k].manifestIsJson.None? then Some(NoManifest)
    else if !items[k].manifestIsJson.value then Some(NotJson)
    else if !enabled then
      if Dependents(items, id) != [] then Some(NeededBy(Dependents(items, id))) else None
    else if items[k].incompatible then Some(Incompatible)
    else if FirstUnsatisfied(items[k].dependencies).Some?
      then Some(Unsatisfied(FirstUnsatisfied(items[k].dependencies).value))
    else None
  }

  /** A manifest that lists itself among its dependencies, which its validation refuses. */
  predicate OnItself(m: Manifest) {
    exists d | 0 <= d < |m.dependencies| :: m.dependencies[d].packId == m.packId
  }

  /** The manifest file with another flag, if the result is a valid manifest. */
  function Rewritten(file: ManifestFile, enabled: bool): Option<ManifestFile> {
    match file
    case Readable(json, m) => Some(Readable(json, m.(enabled := enabled)))
    case Broken(json, Some(m)) => if OnItself(m) then None else Some(Readable(json, m.(enabled := enabled)))
    case _ => None
  }

  /** `set_node_pack_enabled`: the directory afterwards and the refusal, if any. `writes` says whether reading
      and rewriting a valid manifest file succeeds. */
  function SetEnabled(matching: Matching, root: Root, id: string, enabled: bool, writes: bool): (Root,
                      Option<Refusal>) {
    var items := Items(matching, root);
    var no := Decide(items, id, enabled);
    if no.Some? then (root, no)
    else
      var packs := Packs(root);
      var k := Target(items, id);
      var file := Rewritten(packs[k].file, enabled);
      if file.None? || !writes then (root, Some(NotRewritten))
      else
        var next := Directory(packs[k := packs[k].(file := file.value)]);
        if Refreshes(matching, next) then (next, None) else (root, Some(NotReloaded))
  }

  // ----- Facts about the parts ------------------------------------------------------------------------------

  lemma DependentsSnoc(items: seq<Item>, last: Item, id: string)
    ensures Dependents(items + [last], id) == Dependents(items, id) + if Blocks(last, id) then [last.packId] else []
  {
    hide DependsOn;
    assert (items + [last])[..|items|] == items;
  }

  lemma {:induction false} NobodyDepends(items: seq<Item>, id: string)
    ensures Dependents(items, id) == [] <==> forall i | 0 <= i < |items| :: !Blocks(items[i], id)
    decreases |items|
  {
    if items != [] {
      hide Blocks, Dependents;
      var before, last := items[..|items| - 1], items[|items| - 1];
      assert items == before + [last];
      NobodyDepends(before, id);
      DependentsSnoc(before, last, id);
      assert forall i | 0 <= i < |before| :: before[i] == items[i];
    }
  }

  lemma {:induction false} AllSatisfied(statuses: seq<DependencyStatus>)
    ensures FirstUnsatisfied(statuses).None? <==> forall i | 0 <= i < |statuses| :: statuses[i].satisfied
  {
    if statuses != [] {
      AllSatisfied(statuses[1..]);
      assert forall i | 0 < i < |statuses| :: statuses[i] == statuses[1..][i - 1];
    }
  }

  // ----- The object -----------------------------------------------------------------------------------------

  class LocalNodePackLoader {
    const matching: Matching
    var root: Root
    var snapshot: Snapshot

    constructor (matching: Matching, root: Root)
      ensures this.matching == matching && this.root == root && snapshot == EMPTY_SNAPSHOT
    {
      this.matching, this.root, snapshot := matching, root, EMPTY_SNAPSHOT;
    }

    /** The manifests in directory order; fails on the first backend pack that cannot be imported. */
    method Discover(packs: seq<PackDir>) returns (ms: seq<Manifest>, discovered: seq<PackDir>, importable: bool)
      ensures importable <==> forall p | p in packs && p.file.Readable? && p.file.manifest.backend :: p.importable
      ensures importable ==> ms == Manifests(packs) && discovered == ReadableOnly(packs)
    {
      ms, discovered, importable := [], [], true;
      for n := 0 to |packs|
        invariant forall p | p in packs[..n] && p.file.Readable? && p.file.manifest.backend :: p.importable
        invariant ms == Manifests(packs[..n]) && discovered == ReadableOnly(packs[..n])
      {
        var p := packs[n];
        assert packs[..n + 1][..n] == packs[..n] && packs[..n + 1] == packs[..n] + [p];
        if p.file.Readable? {
          ms := ms + [p.file.manifest];
          discovered := discovered + [p];
          if p.file.manifest.backend && !p.importable {
            return ms, discovered, false;
          }
        }
      }
      assert packs[..|packs|] == packs;
    }

    /** The catalogs of the usable packs, appended in directory order. */
    method Collect(discovered: seq<PackDir>, index: map<string, Manifest>, duplicated: set<string>,
                   enabled: set<string>,
                   ghost ms: seq<Manifest>) returns (ok: bool, contracts: seq<Contract>, definitions: seq<Definition>)
      requires forall p | p in discovered :: p.file.Readable?
      requires forall id ::
                 (id in index <==> FirstOf(ms, id).Some?) && (id in index ==> Some(index[id]) == FirstOf(ms, id))
      requires forall id :: id in duplicated <==> Duplicated(ms, id)
      requires forall id :: id in enabled <==> EnabledIn(ms, id)
      ensures ok <==> forall p | p in discovered && Active(matching, ms, p) :: !p.catalog.Unreadable?
      ensures ok ==>
                && contracts == ContractsOf(matching, ms, discovered)
                && definitions == DefinitionsOf(matching, ms, discovered)
    {
      hide Duplicated, EnabledIn, FirstOf, Satisfied, Statuses, ContractsOf, DefinitionsOf;
      ok, contracts, definitions := true, [], [];
      NothingCollected(matching, ms);
      for n := 0 to |discovered|
        invariant forall p | p in discovered[..n] && Active(matching, ms, p) :: !p.catalog.Unreadable?
        invariant contracts == ContractsOf(matching, ms, discovered[..n])
        invariant definitions == DefinitionsOf(matching, ms, discovered[..n])
      {
        var p := discovered[n];
        var m := p.file.manifest;
        OneMoreCollected(matching, ms, discovered, n);
        assert discovered[..n + 1] == discovered[..n] + [p];
        if m.enabled && m.packId !in duplicated && m.compatible {
          var statuses := BuildDependencyStatuses(matching, m.dependencies, index, enabled, ms);
          AllStatuses(matching, ms, m, statuses);
          if forall i | 0 <= i < |statuses| :: statuses[i].satisfied {
            match p.catalog
            case Unreadable => return false, [], [];
            case Catalog(cs, ds) =>
              contracts := contracts + cs;
              definitions := definitions + ds;
            case _ =>
          }
        }
      }
      assert discovered[..|discovered|] == discovered;
    }

    /** What the directories give, or the first thing that stops the refresh. */
    method CollectAll(packs: seq<PackDir>) returns (r: Result<Snapshot, RefreshError>)
      ensures r == Err(NotImportable) <==> !Importable(packs)
      ensures r == Err(CatalogUnreadable) <==> Importable(packs) && !AllReadable(matching, packs)
      ensures r.Ok? <==> Importable(packs) && AllReadable(matching, packs)
                         && Agree(CONTRACTS, ContractsOf(matching, Manifests(packs), packs))
      ensures r.Ok? ==> r.value == Refreshed(matching, Directory(packs))
      ensures r != Err(RootIsNotDirectory)
    {
      hide Active, EnabledIn, Duplicated, FirstOf, Agree, Firsts, ContractsOf, DefinitionsOf, Manifests, Satisfied,
           ReadableOnly, Mapped, Flat;
      var ms, discovered, importable := Discover(packs);
      if !importable {
        return Err(NotImportable);
      }
      ReadableOnlySame(matching, ms, packs);
      ReadableActive(matching, ms, packs, discovered);
      var index, duplicated := BuildIndex(ms);
      var enabled := set m | m in ms && m.enabled && m.packId !in duplicated && m.compatible :: m.packId;
      EnabledSetIs(ms, duplicated, enabled);
      var ok, contracts, definitions := Collect(discovered, index, duplicated, enabled, ms);
      if !ok {
        return Err(CatalogUnreadable);
      }
      var merged := Merge(CONTRACTS, (c: Contract) => c, [contracts]);
      MappedSame(contracts);
      if merged.Err? {
        return Err(ContractsConflict(merged.error));
      }
      return Ok(Snapshot(ms, merged.value, definitions));
    }

    /** `refresh`: the cache is replaced only when everything went through. */
    method Refresh() returns (r: Result<(), RefreshError>)
      modifies this`snapshot
      ensures r.Ok? <==> Refreshes(matching, root)
      ensures snapshot == if r.Ok? then Refreshed(matching, root) else old(snapshot)
      ensures r == Err(RootIsNotDirectory) <==> root.NotDirectory?
      ensures r == Err(NotImportable) <==> root.Directory? && !Importable(root.packs)
      ensures r == Err(CatalogUnreadable) <==>
                root.Directory? && Importable(root.packs) && !AllReadable(matching, root.packs)
    {
      hide Active, Agree, Firsts, ContractsOf, DefinitionsOf, Manifests;
      match root
      case Absent =>
        NothingRefreshed(matching);
        snapshot := EMPTY_SNAPSHOT;
        return Ok(());
      case NotDirectory =>
        return Err(RootIsNotDirectory);
      case Directory(packs) =>
        var collected := CollectAll(packs);
        if collected.Err? {
          return Err(collected.error);
        }
        snapshot := collected.value;
        return Ok(());
    }

    /** `set_node_pack_enabled`. */
    method SetNodePackEnabled(id: string, enabled: bool, writes: bool) returns (refusal: Option<Refusal>)
      modifies this
      ensures (root, refusal) == SetEnabled(matching, old(root), id, enabled, writes)
      ensures refusal.None? ==> snapshot == Refreshed(matching, root)
      ensures refusal.Some? && refusal != Some(NotReloaded) ==> snapshot == old(snapshot)
      ensures refusal == Some(NotReloaded) ==>
                snapshot == if Refreshes(matching, root) then Refreshed(matching, root) else old(snapshot)
    {
      hide Refreshes, Refreshed;
      var items := Items(matching, root);
      var no := Decide(items, id, enabled);
      if no.Some? {
        return no;
      }
      var packs := Packs(root);
      var k := Target(items, id);
      var file := Rewritten(packs[k].file, enabled);
      if file.None? || !writes {
        return Some(NotRewritten);
      }
      var original := root;
      root := Directory(packs[k := packs[k].(file := file.value)]);
      var r := Refresh();
      if r.Ok? {
        return None;
      }
      root := original;
      var again := Refresh();
      return Some(NotReloaded);
    }
  }

  lemma AllStatuses(matching: Matching, ms: seq<Manifest>, m: Manifest, statuses: seq<DependencyStatus>)
    requires statuses == Statuses(matching, ms, m.dependencies)
    ensures Satisfied(matching, ms, m) <==> forall i | 0 <= i < |statuses| :: statuses[i].satisfied
  {
    hide StatusOf;
  }

  lemma NothingCollected(matching: Matching, ms: seq<Manifest>)
    ensures ContractsOf(matching, ms, []) == [] && DefinitionsOf(matching, ms, []) == []
  {
  }

  lemma OneMoreCollected(matching: Matching, ms: seq<Manifest>, packs: seq<PackDir>, n: nat)
    requires n < |packs|
    ensures var p := packs[n]; var loads := Loads(matching, ms, p);
            && ContractsOf(matching, ms, packs[..n + 1])
               == ContractsOf(matching, ms, packs[..n]) + (if loads then p.catalog.contracts else [])
            && DefinitionsOf(matching, ms, packs[..n + 1])
               == DefinitionsOf(matching, ms, packs[..n]) + (if loads then p.catalog.definitions else [])
  {
    hide Active;
    assert packs[..n + 1][..n] == packs[..n];
  }

  /** Every readable pack with a backend can be imported. */
  predicate Importable(packs: seq<PackDir>) {
    forall p | p in packs && p.file.Readable? && p.file.manifest.backend :: p.importable
  }

  /** No usable pack has a catalog that fails otherwise than with a configuration error. */
  predicate AllReadable(matching: Matching, packs: seq<PackDir>) {
    forall p | p in packs && Active(matching, Manifests(packs), p) :: !p.catalog.Unreadable?
  }

  lemma NothingRefreshed(matching: Matching)
    ensures Refreshed(matching, Absent) == EMPTY_SNAPSHOT
  {
  }

  lemma ReadableActive(matching: Matching, ms: seq<Manifest>, packs: seq<PackDir>, some: seq<PackDir>)
    requires forall p :: p in some <==> p in packs && p.file.Readable?
    ensures (forall p | p in some && Active(matching, ms, p) :: !p.catalog.Unreadable?)
            <==> forall p | p in packs && Active(matching, ms, p) :: !p.catalog.Unreadable?
  {
  }

  function ReadableOnly(packs: seq<PackDir>): seq<PackDir> {
    if packs == [] then []
    else ReadableOnly(packs[..|packs| - 1]) + if packs[|packs| - 1].file.Readable? then [packs[|packs| - 1]] else []
  }

  lemma LoadsReadable(matching: Matching, ms: seq<Manifest>, p: PackDir)
    ensures Loads(matching, ms, p) ==> p.file.Readable? && p.catalog.Catalog?
  {
  }

  /** Skipping the directories without a readable manifest changes nothing that is collected. */
  lemma {:induction false} ReadableOnlySame(matching: Matching, ms: seq<Manifest>, packs: seq<PackDir>)
    ensures var some := ReadableOnly(packs);
            && (forall p :: p in some <==> p in packs && p.file.Readable?)
            && ContractsOf(matching, ms, some) == ContractsOf(matching, ms, packs)
            && DefinitionsOf(matching, ms, some) == DefinitionsOf(matching, ms, packs)
    decreases |packs|
  {
    hide Active, Loads;
    if packs != [] {
      var n := |packs| - 1;
      LoadsReadable(matching, ms, packs[n]);
      ReadableOnlySame(matching, ms, packs[..n]);
      assert packs == packs[..n] + [packs[n]];
      var some := ReadableOnly(packs);
      if packs[n].file.Readable? {
        assert some[..|some| - 1] == ReadableOnly(packs[..n]) && some[|some| - 1] == packs[n];
      } else {
        assert some == ReadableOnly(packs[..n]);
      }
    }
  }

  lemma EnabledSetIs(ms: seq<Manifest>, duplicated: set<string>, enabled: set<string>)
    requires forall id :: id in duplicated <==> Duplicated(ms, id)
    requires enabled == set m | m in ms && m.enabled && m.packId !in duplicated && m.compatible :: m.packId
    ensures forall id :: id in enabled <==> EnabledIn(ms, id)
  {
    hide Duplicated;
    forall id ensures id in enabled <==> EnabledIn(ms, id) {
      if EnabledIn(ms, id) {
        var i :| 0 <= i < |ms| && ms[i].packId == id && ms[i].enabled && ms[i].compatible;
        assert ms[i] in ms;
      }
    }
  }

  lemma MappedSame(contracts: seq<Contract>)
    ensures Mapped((c: Contract) => c, Flat([contracts])) == contracts
  {
    assert [contracts][..0] == [];
    assert Flat([contracts]) == [] + contracts;
  }
}
