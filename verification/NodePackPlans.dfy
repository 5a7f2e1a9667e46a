/**
 What `install_archive` and `rollback` decide before they switch directories: which versions they put into
 the immutable store, what they refuse, and which tree they then activate under which new state.
 */
module NodePackPlans {
  import opened Common
  import opened PackageTree
  import opened NodePackDisk
  import opened NodePackActivation

  /** `packKey` is the truncated hash that names a pack's folder in the version store; two packs may share
      a folder. */
  datatype Env = Env(hashing: Hashing, packKey: string -> string)

  datatype Refusal =
    | Invalid | NoManifest | Ambiguous | DirectoryChanged | Tampered | UnsafeVersion | StoreConflict
    | CopyMismatch | VersionConflict | UnknownVersion | StoreMissing | StoreTampered | IdentityMismatch | TxInUse
    | NotInstalled

  /** `puts` are the store effects that happen first; a refusal may come after some of them. */
  datatype Plan =
    | Rejected(puts: seq<Effect>, why: Refusal)
    | Planned(puts: seq<Effect>, packId: string, version: string, act: Activation)

  // ----- Looking around ---------------------------------------------------------------------------

  predicate Visible(name: string) {
    |name| > 0 && name[0] != '.' && name[0] != '_'
  }

  predicate Holds(t: Tree, packId: string) {
    ManifestOf(t).Some? && ManifestOf(t).value.packId == packId
  }

  /** The active directories whose manifest carries this id. */
  function Holders(active: map<string, Tree>, packId: string): set<string> {
    set d | d in active && Visible(d) && Holds(active[d], packId)
  }

  predicate IsAlnum(c: char) {
    'A' <= c <= 'Z' || 'a' <= c <= 'z' || '0' <= c <= '9'
  }

  predicate SafeVersion(v: string) {
    |v| > 0 && IsAlnum(v[0]) && forall i | 0 <= i < |v| :: IsAlnum(v[i]) || v[i] in "._+-"
  }

  function KeyOf(env: Env, packId: string, version: string): StoreKey {
    StoreKey(env.packKey(packId), version)
  }

  function Sha(env: Env, t: Tree): string {
    Digest(env.hashing, t)
  }

  function PackOf(state: State, packId: string): PackState {
    if packId in state then state[packId] else PackState(map[], None, None)
  }

  // ----- The version store --------------------------------------------------------------------------

  /** `_store_immutable_version`: keep what is there if its digest agrees, else store a verified copy. */
  function StorePut(env: Env, d: Disk, packId: string, version: string, t: Tree, sha: string): Result<seq<Effect>,
                    Refusal> {
    var key := KeyOf(env, packId, version);
    if !SafeVersion(version) then Err(UnsafeVersion)
    else if key in d.store then
      if Sha(env, d.store[key]) != sha then Err(StoreConflict) else Ok([])
    else if Sha(env, CopyTree(t)) != sha then Err(CopyMismatch)
    else Ok([PutVersion(key, CopyTree(t))])
  }

  datatype Archived = Archived(puts: seq<Effect>, pack: PackState)

  /** `_archive_active_version` of the pack active in `dir`. */
  function PlanArchive(env: Env, d: Disk, packId: string, dir: string): Result<Archived, Refusal>
    requires dir in d.active && ManifestOf(d.active[dir]).Some?
  {
    var m := ManifestOf(d.active[dir]).value;
    var sha := Sha(env, d.active[dir]);
    var pack := PackOf(d.state, packId);
    if m.version in pack.versions then
      if pack.versions[m.version].sha != sha then Err(Tampered) else Ok(Archived([], pack))
    else
      match StorePut(env, d, packId, m.version, d.active[dir], sha)
      case Err(e) => Err(e)
      case Ok(puts) => Ok(Archived(puts, pack.(versions := pack.versions[m.version := Record(sha, dir)])))
  }

  /** The part both operations share: find the active directory, insist on its name, archive it. */
  function PlanReplace(env: Env, d: Disk, packId: string, dir: string): Result<Archived, Refusal> {
    var holders := Holders(d.active, packId);
    if holders == {} then Ok(Archived([], PackOf(d.state, packId)))
    else if holders == {dir} then PlanArchive(env, d, packId, dir)
    else if |holders| > 1 then Err(Ambiguous)
    else Err(DirectoryChanged)
  }

  function NowActive(pack: PackState, version: string, dir: string): PackState {
    pack.(activeVersion := Some(version), activeDir := Some(dir))
  }

  /** The activation of a stored version, unless its transaction id is taken or the store lacks it. */
  function PlanActivation(env: Env, d: Disk, puts: seq<Effect>, packId: string, version: string, dir: string,
                          pack: PackState, req: Request): Plan {
    var key := KeyOf(env, packId, version);
    var act := Activation(req.tx, dir, CopyTree(if key in d.store then d.store[key] else []),
                          d.state[packId := NowActive(pack, version, dir)], req.partial, req.leftover);
    if key !in d.store then Rejected(puts, StoreMissing)
    else if !Fresh(d, act) then Rejected(puts, TxInUse)
    else Planned(puts, packId, version, act)
  }

  // ----- install_archive and rollback -----------------------------------------------------------------

  /** What the environment contributes to one operation: the id of its transaction, what its candidate and
      its swap directory look like half written, and whether the validation of the package succeeds. */
  datatype Request = Request(valid: bool, tx: Tx, partial: Tree, leftover: Swap)

  function Staged(source: Tree, enabled: Option<bool>, raw: Bytes): Tree {
    if enabled.Some? then WithEnabled(CopyTree(source), enabled, raw) else CopyTree(source)
  }

  /** `install_archive` up to the activation; `source` is the extracted package. */
  function PlanInstall(env: Env, d: Disk, source: Tree, enabled: Option<bool>, raw: Bytes, dir: string,
                       req: Request): Plan {
    var staged := Staged(source, enabled, raw);
    if ManifestOf(staged).None? then Rejected([], NoManifest)
    else if !req.valid then Rejected([], Invalid)
    else
      var m := ManifestOf(staged).value;
      match PlanReplace(env, d, m.packId, dir)
      case Err(e) => Rejected([], e)
      case Ok(archived) =>
        var d1 := Exec(d, archived.puts);
        var sha := Sha(env, staged);
        if m.version in archived.pack.versions then
          if archived.pack.versions[m.version].sha != sha then Rejected(archived.puts, VersionConflict)
          else PlanActivation(env, d1, archived.puts, m.packId, m.version, dir, archived.pack, req)
        else
          match StorePut(env, d1, m.packId, m.version, staged, sha)
          case Err(e) => Rejected(archived.puts, e)
          case Ok(puts) =>
            var pack := archived.pack.(versions := archived.pack.versions[m.version := Record(sha, dir)]);
            PlanActivation(env, Exec(d1, puts), archived.puts + puts, m.packId, m.version, dir, pack, req)
  }

  /** `rollback` up to the activation. */
  function PlanRollback(env: Env, d: Disk, packId: string, version: string, req: Request): Plan {
    var pack := PackOf(d.state, packId);
    var key := KeyOf(env, packId, version);
    if version !in pack.versions then Rejected([], UnknownVersion)
    else if !SafeVersion(version) then Rejected([], UnsafeVersion)
    else if key !in d.store then Rejected([], StoreMissing)
    else if Sha(env, d.store[key]) != pack.versions[version].sha then Rejected([], StoreTampered)
    else if !Holds(d.store[key], packId) || ManifestOf(d.store[key]).value.version != version then
      Rejected([], IdentityMismatch)
    else if !req.valid then Rejected([], Invalid)
    else
      var dir := pack.versions[version].dir;
      match PlanReplace(env, d, packId, dir)
      case Err(e) => Rejected([], e)
      case Ok(archived) =>
        PlanActivation(env, Exec(d, archived.puts), archived.puts, packId, version, dir, archived.pack, req)
  }

  // ----- The store invariant ------------------------------------------------------------------------

  predicate Registered(env: Env, d: Disk, packId: string, version: string, sha: string) {
    KeyOf(env, packId, version) in d.store && Sha(env, d.store[KeyOf(env, packId, version)]) == sha
  }

  predicate PackStored(env: Env, d: Disk, packId: string, pack: PackState) {
    forall v | v in pack.versions :: Registered(env, d, packId, v, pack.versions[v].sha)
  }

  /** Every version the state names is in the store with the recorded digest, and stored trees hold nothing
      a copy would drop. */
  predicate StoreOk(env: Env, d: Disk) {
    (forall k | k in d.store :: Clean(d.store[k]))
    && (forall p | p in d.state :: PackStored(env, d, p, d.state[p]))
  }

  /** Nothing but the version store may differ. */
  predicate OnlyStored(d: Disk, later: Disk) {
    && later.active == d.active && later.candidates == d.candidates && later.swaps == d.swaps
    && later.state == d.state && later.journal == d.journal
  }

  /** Nothing stored changes or disappears. */
  predicate StoreExtends(d: Disk, later: Disk) {
    forall k | k in d.store :: k in later.store && later.store[k] == d.store[k]
  }

  lemma StorePutKeeps(env: Env, d: Disk, packId: string, version: string, t: Tree, sha: string)
    requires StoreOk(env, d)
    requires StorePut(env, d, packId, version, t, sha).Ok?
    ensures var d1 := Exec(d, StorePut(env, d, packId, version, t, sha).value);
            OnlyStored(d, d1) && StoreOk(env, d1) && StoreExtends(d, d1)
            && Registered(env, d1, packId, version, sha)
  {
    var puts := StorePut(env, d, packId, version, t, sha).value;
    if puts != [] {
      ExecOne(d, puts[0]);
      CopyIsClean(t);
      var d1 := Exec(d, puts);
      forall p | p in d1.state ensures PackStored(env, d1, p, d1.state[p]) {
        assert PackStored(env, d, p, d.state[p]);
      }
    }
  }

  lemma PackStoredLater(env: Env, d: Disk, later: Disk, packId: string, pack: PackState)
    requires PackStored(env, d, packId, pack) && StoreExtends(d, later)
    ensures PackStored(env, later, packId, pack)
  {
    forall v | v in pack.versions ensures Registered(env, later, packId, v, pack.versions[v].sha) {
      assert Registered(env, d, packId, v, pack.versions[v].sha);
    }
  }

  lemma PackOfStored(env: Env, d: Disk, packId: string)
    requires StoreOk(env, d)
    ensures PackStored(env, d, packId, PackOf(d.state, packId))
  {
  }

  /** Whatever the decision, the puts it makes keep the store invariant; after a replacement was planned the
      version being replaced is stored under the digest of the directory it lives in. */
  lemma PlanReplaceKeeps(env: Env, d: Disk, packId: string, dir: string)
    requires StoreOk(env, d) && PlanReplace(env, d, packId, dir).Ok?
    ensures var archived := PlanReplace(env, d, packId, dir).value;
            var d1 := Exec(d, archived.puts);
            OnlyStored(d, d1) && StoreOk(env, d1) && StoreExtends(d, d1)
            && PackStored(env, d1, packId, archived.pack)
    ensures Holders(d.active, packId) != {} ==>
              var d1 := Exec(d, PlanReplace(env, d, packId, dir).value.puts);
              Registered(env, d1, packId, ManifestOf(d.active[dir]).value.version, Sha(env, d.active[dir]))
  {
    PackOfStored(env, d, packId);
    var holders := Holders(d.active, packId);
    if holders != {} {
      assert dir in holders;
      var m := ManifestOf(d.active[dir]).value;
      var sha := Sha(env, d.active[dir]);
      var pack := PackOf(d.state, packId);
      if m.version in pack.versions {
        assert Registered(env, d, packId, m.version, pack.versions[m.version].sha);
      } else {
        StorePutKeeps(env, d, packId, m.version, d.active[dir], sha);
        var d1 := Exec(d, StorePut(env, d, packId, m.version, d.active[dir], sha).value);
        PackStoredLater(env, d, d1, packId, pack);
      }
    }
  }

  /** What a finished plan guarantees, whoever made it. */
  predicate PlanSound(env: Env, d: Disk, plan: Plan) {
    var d1 := Exec(d, plan.puts);
    && OnlyStored(d, d1) && StoreOk(env, d1) && StoreExtends(d, d1)
    && (plan.Planned? ==>
          var act := plan.act;
          var key := KeyOf(env, plan.packId, plan.version);
          && Fresh(d1, act)
          && key in d1.store && act.tree == d1.store[key]
          && plan.packId in act.newState
          && act.newState == d.state[plan.packId := act.newState[plan.packId]]
          && var pack := act.newState[plan.packId];
             && PackStored(env, d1, plan.packId, pack)
             && pack.activeVersion == Some(plan.version) && pack.activeDir == Some(act.dir)
             && plan.version in pack.versions
             && (Holders(d.active, plan.packId) == {} || Holders(d.active, plan.packId) == {act.dir}))
  }

  lemma PlanActivationSound(env: Env, d: Disk, puts: seq<Effect>, packId: string, version: string, dir: string,
                            pack: PackState, req: Request)
    requires var d1 := Exec(d, puts);
             OnlyStored(d, d1) && StoreOk(env, d1) && StoreExtends(d, d1) && PackStored(env, d1, packId, pack)
    requires version in pack.versions
    requires Holders(d.active, packId) == {} || Holders(d.active, packId) == {dir}
    ensures PlanSound(env, d, PlanActivation(env, Exec(d, puts), puts, packId, version, dir, pack, req))
  {
    var d1 := Exec(d, puts);
    var key := KeyOf(env, packId, version);
    if key in d1.store {
      CopyOfClean(d1.store[key]);
    }
    assert d.state[packId := NowActive(pack, version, dir)][packId] == NowActive(pack, version, dir);
  }

  lemma PlanInstallSound(env: Env, d: Disk, source: Tree, enabled: Option<bool>, raw: Bytes, dir: string, req: Request)
    requires StoreOk(env, d)
    ensures PlanSound(env, d, PlanInstall(env, d, source, enabled, raw, dir, req))
  {
    hide StorePut, PlanReplace, PlanActivation, Apply, Staged;
    var staged := Staged(source, enabled, raw);
    assert Exec(d, []) == d;
    if ManifestOf(staged).Some? && req.valid {
      var m := ManifestOf(staged).value;
      var replace := PlanReplace(env, d, m.packId, dir);
      if replace.Ok? {
        PlanReplaceKeeps(env, d, m.packId, dir);
        ReplacesInPlace(env, d, m.packId, dir);
        var archived := replace.value;
        if m.version in archived.pack.versions {
          PlanActivationSound(env, d, archived.puts, m.packId, m.version, dir, archived.pack, req);
        } else {
          var d1 := Exec(d, archived.puts);
          var put := StorePut(env, d1, m.packId, m.version, staged, Sha(env, staged));
          if put.Ok? {
            InstallNewVersionSound(env, d, archived, staged, m.packId, m.version, dir, req, put.value);
            ExecAppend(d, archived.puts, put.value);
          }
        }
      }
    }
  }

  lemma ReplacesInPlace(env: Env, d: Disk, packId: string, dir: string)
    requires PlanReplace(env, d, packId, dir).Ok?
    ensures Holders(d.active, packId) == {} || Holders(d.active, packId) == {dir}
  {
  }

  lemma InstallNewVersionSound(env: Env, d: Disk, archived: Archived, staged: Tree, packId: string, version: string,
                               dir: string, req: Request, puts: seq<Effect>)
    requires var d1 := Exec(d, archived.puts);
             OnlyStored(d, d1) && StoreOk(env, d1) && StoreExtends(d, d1)
             && PackStored(env, d1, packId, archived.pack)
             && StorePut(env, d1, packId, version, staged, Sha(env, staged)) == Ok(puts)
    requires Holders(d.active, packId) == {} || Holders(d.active, packId) == {dir}
    ensures var pack := archived.pack.(versions := archived.pack.versions[version := Record(Sha(env, staged), dir)]);
            PlanSound(env, d, PlanActivation(env, Exec(d, archived.puts + puts), archived.puts + puts,
                                             packId, version, dir, pack, req))
  {
    hide Exec, PlanSound;
    var d1 := Exec(d, archived.puts);
    var d2 := Exec(d, archived.puts + puts);
    var sha := Sha(env, staged);
    var pack := archived.pack.(versions := archived.pack.versions[version := Record(sha, dir)]);
    assert OnlyStored(d, d2) && StoreOk(env, d2) && StoreExtends(d, d2) by {
      ExecAppend(d, archived.puts, puts);
      StorePutKeeps(env, d1, packId, version, staged, sha);
      StoreExtendsTransitive(d, d1, d2);
    }
    assert PackStored(env, d2, packId, pack) by {
      ExecAppend(d, archived.puts, puts);
      StorePutKeeps(env, d1, packId, version, staged, sha);
      PackStoredLater(env, d1, d2, packId, archived.pack);
      PackStoredWith(env, d2, packId, archived.pack, version, Record(sha, dir));
    }
    PlanActivationSound(env, d, archived.puts + puts, packId, version, dir, pack, req);
  }

  lemma PackStoredWith(env: Env, d: Disk, packId: string, pack: PackState, version: string, r: Record)
    requires PackStored(env, d, packId, pack) && Registered(env, d, packId, version, r.sha)
    ensures PackStored(env, d, packId, pack.(versions := pack.versions[version := r]))
  {
  }

  lemma StoreExtendsTransitive(d: Disk, d1: Disk, d2: Disk)
    requires StoreExtends(d, d1) && StoreExtends(d1, d2)
    ensures StoreExtends(d, d2)
  {
  }

  lemma PlanRollbackSound(env: Env, d: Disk, packId: string, version: string, req: Request)
    requires StoreOk(env, d)
    ensures PlanSound(env, d, PlanRollback(env, d, packId, version, req))
  {
    hide StorePut, PlanActivation, Apply, Sha;
    assert Exec(d, []) == d;
    var pack := PackOf(d.state, packId);
    if version in pack.versions {
      var dir := pack.versions[version].dir;
      if PlanReplace(env, d, packId, dir).Ok? {
        PlanReplaceKeeps(env, d, packId, dir);
        ReplacesInPlace(env, d, packId, dir);
        var archived := PlanReplace(env, d, packId, dir).value;
        PlanActivationSound(env, d, archived.puts, packId, version, dir, archived.pack, req);
      }
    }
  }
}
