/**
 The registry that merges the built-in nodes with the loader's cached catalog, and its own cache.
 */
module NodeCatalog {
  import opened Common
  import opened CatalogMerge
  import opened NodePackScan
  import opened NodePackLoader

  const DEFINITIONS: Reading<Definition> := Reading((d: Definition) => d.typeId, (d: Definition) => d.dump)

  /** The built-in part, and what is done to every definition before it is indexed. */
  datatype Core = Core(contracts: seq<Contract>, definitions: seq<Definition>, enrich: Definition -> Definition)

  /** A merged catalog, unless two layers disagree. */
  function Built(core: Core, packs: Snapshot): Option<Snapshot> {
    var contracts := Merged(CONTRACTS, core.contracts + packs.contracts);
    var definitions := Merged(DEFINITIONS, Mapped(core.enrich, core.definitions + packs.definitions));
    if contracts.Some? && definitions.Some? then Some(Snapshot(packs.manifests, contracts.value, definitions.value))
      else None
  }

  /** The registry over a refreshed loader is one merge over the core and every loaded pack's own list: it
      exists exactly when all entries of one id agree, across all layers, and lists every id once. */
  lemma RegistryIsOneMerge(matching: Matching, core: Core, root: Root)
    requires Refreshes(matching, root)
    ensures var ms := Manifests(Packs(root));
            var contracts := core.contracts + ContractsOf(matching, ms, Packs(root));
            var definitions := Mapped(core.enrich, core.definitions + DefinitionsOf(matching, ms, Packs(root)));
            var built := Built(core, Refreshed(matching, root));
            && (built.Some? <==> Agree(CONTRACTS, contracts) && Agree(DEFINITIONS, definitions))
            && (built.Some? ==>
                  && built.value.contracts == Firsts(CONTRACTS, contracts)
                  && UniqueIds(CONTRACTS, built.value.contracts)
                  && built.value.definitions == Firsts(DEFINITIONS, definitions)
                  && UniqueIds(DEFINITIONS, built.value.definitions))
  {
    hide Agree, Firsts, UniqueIds;
    var ms := Manifests(Packs(root));
    var packs := ContractsOf(matching, ms, Packs(root));
    NothingCollected(matching, ms);
    assert Agree(CONTRACTS, packs);
    MergeIsAssociative(CONTRACTS, core.contracts, packs);
    FirstsAreFirst(CONTRACTS, core.contracts + packs);
    FirstsAreFirst(DEFINITIONS, Mapped(core.enrich, core.definitions + DefinitionsOf(matching, ms, Packs(root))));
  }

  lemma NothingCollected(matching: Matching, ms: seq<Manifest>)
    ensures ContractsOf(matching, ms, []) == [] && Agree(CONTRACTS, [])
  {
  }

  class NodeCatalogRegistry {
    const core: Core
    const loader: LocalNodePackLoader?
    var cache: Option<Snapshot>

    constructor (core: Core, loader: LocalNodePackLoader?)
      ensures this.core == core && this.loader == loader && cache == None
    {
      this.core, this.loader, cache := core, loader, None;
    }

    function Below(): Snapshot
      reads this, loader
    {
      if loader == null then EMPTY_SNAPSHOT else loader.snapshot
    }

    /** `get_catalog_snapshot`: the cache if there is one; a failed build leaves none. */
    method GetCatalogSnapshot() returns (r: Option<Snapshot>)
      modifies this`cache
      ensures r == cache
      ensures cache == if old(cache).Some? then old(cache) else Built(core, Below())
    {
      if cache.Some? {
        return cache;
      }
      hide Merged, Firsts, Agree, Has;
      var packs := Below();
      var same := (c: Contract) => c;
      var contracts := Merge(CONTRACTS, same, [core.contracts, packs.contracts]);
      MappedTwo(same, core.contracts, packs.contracts);
      MappedBySame(same, core.contracts + packs.contracts);
      if contracts.Err? {
        return None;
      }
      var definitions := Merge(DEFINITIONS, core.enrich, [core.definitions, packs.definitions]);
      MappedTwo(core.enrich, core.definitions, packs.definitions);
      if definitions.Err? {
        return None;
      }
      cache := Some(Snapshot(packs.manifests, contracts.value, definitions.value));
      return cache;
    }

    /** `invalidate_cache`. */
    method InvalidateCache()
      modifies this`cache
      ensures cache == None
    {
      cache := None;
    }

    /** `refresh`: a loader that raises leaves both caches alone. */
    method Refresh() returns (ok: bool)
      modifies this`cache, loader
      ensures ok <==> loader == null || Refreshes(loader.matching, loader.root)
      ensures loader != null ==> loader.root == old(loader.root)
      ensures loader != null ==> loader.snapshot == if ok then Refreshed(loader.matching, loader.root)
              else old(loader.snapshot)
      ensures cache == if ok then None else old(cache)
    {
      if loader != null {
        var r := loader.Refresh();
        if r.Err? {
          return false;
        }
      }
      InvalidateCache();
      return true;
    }
  }

  lemma MappedTwo<S, T>(enrich: S -> T, xs: seq<S>, ys: seq<S>)
    ensures Mapped(enrich, Flat([xs, ys])) == Mapped(enrich, xs + ys)
  {
    assert [xs, ys][..1] == [xs] && [xs][..0] == [];
    assert Flat([xs]) == [] + xs;
    assert Flat([xs, ys]) == xs + ys;
  }

  lemma MappedBySame<T>(same: T -> T, xs: seq<T>)
    requires forall x :: same(x) == x
    ensures Mapped(same, xs) == xs
  {
  }
}
