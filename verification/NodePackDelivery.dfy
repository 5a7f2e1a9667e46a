/**
 What a caller gets: exactly when an install or a rollback is accepted, that every refusal is true, and which content
 is active afterwards, told from the uploaded package and the disk before.
 */
module NodePackDelivery {
  import opened Common
  import opened PackageTree
  import opened NodePackDisk
  import opened NodePackActivation
  import opened NodePackCrashes
  import opened NodePackPlans
  import opened NodePackRuns
  import opened NodePackConsistency

  predicate IsMark(c: char) {
    c == '.' || c == '_' || c == '+' || c == '-'
  }

  /** A safe version is made of letters, digits and marks and does not begin with a mark; so it names one folder below
      the store, neither the store itself nor the folder above. */
  lemma SafeVersionIs(v: string)
    ensures SafeVersion(v) <==>
              && v != "" && !IsMark(v[0])
              && forall i | 0 <= i < |v| ::
                   IsMark(v[i]) || '0' <= v[i] <= '9' || 'a' <= v[i] <= 'z' || 'A' <= v[i] <= 'Z'
    ensures SafeVersion(v) ==> v != "." && v != ".." && '/' !in v && '\\' !in v && ':' !in v
  {
    forall i | 0 <= i < |v| ensures v[i] in "._+-" <==> IsMark(v[i]) {
      MarksAre(v[i]);
    }
  }

  lemma MarksAre(c: char)
    ensures c in "._+-" <==> IsMark(c)
  {
    var marks := "._+-";
    assert marks[0] == '.' && marks[1] == '_' && marks[2] == '+' && marks[3] == '-';
  }

  // ----- When an operation is accepted ------------------------------------------------------------------------

  /** The store has room for this tree under this version, or already holds it. */
  predicate Storable(env: Env, d: Disk, packId: string, version: string, t: Tree) {
    var key := KeyOf(env, packId, version);
    && SafeVersion(version)
    && (key in d.store ==> Sha(env, d.store[key]) == Sha(env, t))
    && (key !in d.store ==> Sha(env, CopyTree(t)) == Sha(env, t))
  }

  /** At most one directory carries the pack, it has the wanted name, and its content is what was registered for its
      version, or can be registered now. */
  predicate Replaceable(env: Env, d: Disk, packId: string, dir: string) {
    && (forall x | x in d.active && Visible(x) && Holds(d.active[x], packId) :: x == dir)
    && (Carried(d, packId, dir) ==>
          var v := ManifestOf(d.active[dir]).value.version;
          var pack := PackOf(d.state, packId);
          if v in pack.versions then pack.versions[v].sha == Sha(env, d.active[dir])
          else Storable(env, d, packId, v, d.active[dir]))
  }

  predicate Carried(d: Disk, packId: string, dir: string) {
    dir in d.active && Visible(dir) && Holds(d.active[dir], packId)
  }

  /** The digest this version is known under: registered, or that of the directory about to be replaced. */
  function KnownDigest(env: Env, d: Disk, packId: string, version: string, dir: string): Option<string> {
    var pack := PackOf(d.state, packId);
    if version in pack.versions then Some(pack.versions[version].sha)
    else if Carried(d, packId, dir) && ManifestOf(d.active[dir]).value.version == version then
      Some(Sha(env, d.active[dir]))
    else None
  }

  predicate TxFree(d: Disk, dir: string, tx: Tx) {
    d.journal.None? && tx !in d.swaps && CandidateKey(dir, tx) !in d.candidates
  }

  /** A version is never stored or activated under two digests. */
  predicate Acceptable(env: Env, d: Disk, packId: string, version: string, dir: string, upload: Tree) {
    match KnownDigest(env, d, packId, version, dir)
    case Some(sha) => sha == Sha(env, upload)
    case None => Storable(env, d, packId, version, upload)
  }

  lemma HoldersAre(d: Disk, packId: string, dir: string)
    ensures Holders(d.active, packId) == {} || Holders(d.active, packId) == {dir}
            <==> forall x | x in d.active && Visible(x) && Holds(d.active[x], packId) :: x == dir
    ensures dir in Holders(d.active, packId) <==> Carried(d, packId, dir)
    ensures Holders(d.active, packId) == {dir} <==>
              Carried(d, packId, dir) && forall x | x in d.active && Visible(x) && Holds(d.active[x], packId) ::
                x == dir
  {
    var holders := Holders(d.active, packId);
    if forall x | x in d.active && Visible(x) && Holds(d.active[x], packId) :: x == dir {
      if dir in holders {
        assert holders == {dir};
      } else {
        assert holders == {};
      }
    }
    if holders == {dir} {
      assert dir in {dir};
    }
    if holders == {} || holders == {dir} {
      forall x | x in d.active && Visible(x) && Holds(d.active[x], packId) ensures x == dir {
        assert x in holders;
      }
    }
  }

  lemma StorableIs(env: Env, d: Disk, packId: string, version: string, t: Tree)
    ensures StorePut(env, d, packId, version, t, Sha(env, t)).Ok? <==> Storable(env, d, packId, version, t)
  {
  }

  /** The replacing part goes through exactly when the pack is replaceable; it keeps every registered version and adds
      the one about to be replaced. */
  lemma ReplaceIs(env: Env, d: Disk, packId: string, dir: string)
    ensures var r := PlanReplace(env, d, packId, dir);
            && (r.Ok? <==> Replaceable(env, d, packId, dir))
            && (r.Ok? ==>
                  var old' := PackOf(d.state, packId);
                  var carried := Carried(d, packId, dir);
                  r.value.pack == old'.(versions :=
                    if carried && ManifestOf(d.active[dir]).value.version !in old'.versions
                    then old'.versions[ManifestOf(d.active[dir]).value.version := Record(Sha(env, d.active[dir]), dir)]
                    else old'.versions))
  {
    HoldersAre(d, packId, dir);
    if Carried(d, packId, dir) {
      StorableIs(env, d, packId, ManifestOf(d.active[dir]).value.version, d.active[dir]);
    }
  }

  lemma StagedIs(env: Env, source: Tree, enabled: Option<bool>, raw: Bytes)
    ensures var up, staged := CopyTree(source), Staged(source, enabled, raw);
            && (ManifestOf(staged).Some? <==> ManifestOf(up).Some?)
            && (ManifestOf(up).Some? ==>
                  && ManifestOf(staged).value.packId == ManifestOf(up).value.packId
                  && ManifestOf(staged).value.version == ManifestOf(up).value.version
                  && ManifestOf(staged).value.enabled
                     == if enabled.Some? then enabled else ManifestOf(up).value.enabled)
            && Sha(env, staged) == Sha(env, up) && Clean(staged) && CopyTree(staged) == staged && CopyTree(up) == up
  {
    hide Digest;
    CopyTwice(source);
    CopyIsClean(source);
    if enabled.Some? {
      WithEnabledKeepsDigest(env.hashing, CopyTree(source), enabled, raw);
      WithEnabledKeepsManifest(CopyTree(source), enabled, raw);
      WithEnabledKeepsClean(CopyTree(source), enabled, raw);
    }
    CopyOfClean(Staged(source, enabled, raw));
  }

  /** The store after the version about to be replaced was archived. */
  lemma ArchivedStore(env: Env, d: Disk, packId: string, dir: string)
    requires StoreOk(env, d) && PlanReplace(env, d, packId, dir).Ok?
    ensures var d1 := Exec(d, PlanReplace(env, d, packId, dir).value.puts);
            && OnlyStored(d, d1)
            && d1.store == if Carried(d, packId, dir)
                              && ManifestOf(d.active[dir]).value.version !in PackOf(d.state, packId).versions
                              && KeyOf(env, packId, ManifestOf(d.active[dir]).value.version) !in d.store
                           then d.store[KeyOf(env, packId, ManifestOf(d.active[dir]).value.version) :=
                                        CopyTree(d.active[dir])]
                           else d.store
  {
    HoldersAre(d, packId, dir);
    PlanReplaceKeeps(env, d, packId, dir);
    var puts := PlanReplace(env, d, packId, dir).value.puts;
    if puts != [] {
      ExecOne(d, puts[0]);
    }
  }

  /** What the store holds under the planned version when it is activated. */
  function StoredTree(env: Env, d: Disk, packId: string, version: string, dir: string, staged: Tree): Tree {
    var key := KeyOf(env, packId, version);
    if key in d.store then d.store[key]
    else if Carried(d, packId, dir) && ManifestOf(d.active[dir]).value.version == version then CopyTree(d.active[dir])
    else staged
  }

  /** The pack's entry before the operation with the version it replaces in it. */
  function KnownVersions(env: Env, d: Disk, packId: string, dir: string): map<string, Record> {
    var old' := PackOf(d.state, packId).versions;
    if Carried(d, packId, dir) && ManifestOf(d.active[dir]).value.version !in old' then
      old'[ManifestOf(d.active[dir]).value.version := Record(Sha(env, d.active[dir]), dir)]
    else old'
  }

  /** The state in which this version of the pack is active in that directory. */
  predicate Activates(env: Env, d: Disk, plan: Plan, packId: string, version: string, dir: string, tx: Tx,
                      versions: map<string, Record>, t: Tree)
    requires plan.Planned?
  {
    && plan.packId == packId && plan.version == version
    && plan.act.dir == dir && plan.act.tx == tx && plan.act.tree == t
    && plan.act.newState == d.state[packId := PackState(versions, Some(version), Some(dir))]
  }

  lemma ActivationIs(env: Env, d: Disk, d1: Disk, puts: seq<Effect>, packId: string, version: string, dir: string,
                     pack: PackState, req: Request)
    requires StoreOk(env, d1) && KeyOf(env, packId, version) in d1.store && OnlyStored(d, d1)
    ensures var plan := PlanActivation(env, d1, puts, packId, version, dir, pack, req);
            && (plan.Planned? <==> TxFree(d, dir, req.tx))
            && (plan.Planned? ==>
                  Activates(env, d, plan, packId, version, dir, req.tx, pack.versions,
                            d1.store[KeyOf(env, packId, version)]))
  {
    CopyOfClean(d1.store[KeyOf(env, packId, version)]);
  }

  /** A version known already: nothing is stored, and what the store has is activated if the digests agree. */
  lemma KnownVersionIs(env: Env, d: Disk, packId: string, version: string, dir: string, staged: Tree)
    requires StoreOk(env, d) && PlanReplace(env, d, packId, dir).Ok?
    requires version in KnownVersions(env, d, packId, dir)
    ensures var archived := PlanReplace(env, d, packId, dir).value;
            var d1 := Exec(d, archived.puts);
            && archived.pack.versions == KnownVersions(env, d, packId, dir)
            && KnownDigest(env, d, packId, version, dir) == Some(archived.pack.versions[version].sha)
            && KeyOf(env, packId, version) in d1.store
            && d1.store[KeyOf(env, packId, version)] == StoredTree(env, d, packId, version, dir, staged)
  {
    hide Exec, PlanReplace, CopyTree, Sha, Visible, OnlyStored, SafeVersion;
    ReplaceIs(env, d, packId, dir);
    PlanReplaceKeeps(env, d, packId, dir);
    ArchivedStore(env, d, packId, dir);
    var archived := PlanReplace(env, d, packId, dir).value;
    assert Registered(env, Exec(d, archived.puts), packId, version, archived.pack.versions[version].sha);
    if version in PackOf(d.state, packId).versions {
      assert Registered(env, d, packId, version, PackOf(d.state, packId).versions[version].sha);
    }
  }

  /** A new version: it is stored if it can be, and the store keeps what it had under that name. */
  lemma NewVersionIs(env: Env, d: Disk, packId: string, version: string, dir: string, staged: Tree)
    requires StoreOk(env, d) && PlanReplace(env, d, packId, dir).Ok?
    requires version !in KnownVersions(env, d, packId, dir) && CopyTree(staged) == staged
    ensures KnownDigest(env, d, packId, version, dir) == None
    ensures var d1 := Exec(d, PlanReplace(env, d, packId, dir).value.puts);
            var put := StorePut(env, d1, packId, version, staged, Sha(env, staged));
            && PlanReplace(env, d, packId, dir).value.pack.versions == KnownVersions(env, d, packId, dir)
            && (put.Ok? <==> Storable(env, d, packId, version, staged))
            && (put.Ok? ==>
                  var d2 := Exec(d1, put.value);
                  && StoreOk(env, d2) && OnlyStored(d, d2) && KeyOf(env, packId, version) in d2.store
                  && d2.store[KeyOf(env, packId, version)] == StoredTree(env, d, packId, version, dir, staged))
  {
    hide Exec, Apply, PlanReplace, CopyTree, Sha, Visible, StoreOk, SafeVersion, StoreExtends;
    ReplaceIs(env, d, packId, dir);
    PlanReplaceKeeps(env, d, packId, dir);
    ArchivedStore(env, d, packId, dir);
    var d1 := Exec(d, PlanReplace(env, d, packId, dir).value.puts);
    var key := KeyOf(env, packId, version);
    assert key in d1.store <==> key in d.store;
    assert key in d.store ==> d1.store[key] == d.store[key];
    StorableIs(env, d1, packId, version, staged);
    var put := StorePut(env, d1, packId, version, staged, Sha(env, staged));
    if put.Ok? {
      StorePutKeeps(env, d1, packId, version, staged, Sha(env, staged));
      PutIs(env, d1, packId, version, staged);
    }
  }

  lemma PutIs(env: Env, d: Disk, packId: string, version: string, t: Tree)
    requires StorePut(env, d, packId, version, t, Sha(env, t)).Ok?
    ensures var d1 := Exec(d, StorePut(env, d, packId, version, t, Sha(env, t)).value);
            var key := KeyOf(env, packId, version);
            key in d1.store && d1.store[key] == if key in d.store then d.store[key] else CopyTree(t)
  {
    var puts := StorePut(env, d, packId, version, t, Sha(env, t)).value;
    if puts != [] {
      ExecOne(d, puts[0]);
    }
  }

  /** Storing looks only at the digest of a clean tree. */
  lemma StorableAlike(env: Env, d: Disk, packId: string, version: string, t: Tree, u: Tree)
    requires Sha(env, t) == Sha(env, u) && CopyTree(t) == t && CopyTree(u) == u
    ensures Storable(env, d, packId, version, t) <==> Storable(env, d, packId, version, u)
  {
  }

  /** Exactly when an install is accepted, and what it then activates. */
  lemma InstallIs(env: Env, d: Disk, source: Tree, enabled: Option<bool>, raw: Bytes, dir: string, req: Request)
    requires StoreOk(env, d)
    ensures var plan := PlanInstall(env, d, source, enabled, raw, dir, req);
            var up := CopyTree(source);
            && (plan.Planned? <==>
                  && ManifestOf(up).Some? && req.valid
                  && Replaceable(env, d, ManifestOf(up).value.packId, dir)
                  && Acceptable(env, d, ManifestOf(up).value.packId, ManifestOf(up).value.version, dir, up)
                  && TxFree(d, dir, req.tx))
            && (plan.Planned? ==>
                  var m := ManifestOf(up).value;
                  var known := KnownVersions(env, d, m.packId, dir);
                  Activates(env, d, plan, m.packId, m.version, dir, req.tx,
                            if m.version in known then known else known[m.version := Record(Sha(env, up), dir)],
                            StoredTree(env, d, m.packId, m.version, dir, Staged(source, enabled, raw))))
  {
    hide Exec, Apply, PlanReplace, PlanActivation, Replaceable, Activates, Staged, StoreOk, StorePut, Storable,
         OnlyStored, TxFree, CopyTree, Sha, KnownDigest, KnownVersions, StoredTree;
    StagedIs(env, source, enabled, raw);
    var up, staged := CopyTree(source), Staged(source, enabled, raw);
    if ManifestOf(staged).Some? && req.valid {
      var m := ManifestOf(staged).value;
      ReplaceIs(env, d, m.packId, dir);
      if PlanReplace(env, d, m.packId, dir).Ok? {
        var archived := PlanReplace(env, d, m.packId, dir).value;
        var d1 := Exec(d, archived.puts);
        PlanReplaceKeeps(env, d, m.packId, dir);
        if m.version in KnownVersions(env, d, m.packId, dir) {
          KnownVersionIs(env, d, m.packId, m.version, dir, staged);
          ActivationIs(env, d, d1, archived.puts, m.packId, m.version, dir, archived.pack, req);
        } else {
          NewVersionIs(env, d, m.packId, m.version, dir, staged);
          StorableAlike(env, d, m.packId, m.version, staged, up);
          var put := StorePut(env, d1, m.packId, m.version, staged, Sha(env, staged));
          if put.Ok? {
            var pack := archived.pack.(versions := archived.pack.versions[m.version := Record(Sha(env, staged), dir)]);
            ActivationIs(env, d, Exec(d1, put.value), archived.puts + put.value, m.packId, m.version, dir, pack, req);
          }
        }
      }
    }
  }

  /** Exactly when a rollback is accepted, and what it then activates. */
  lemma RollbackIs(env: Env, d: Disk, packId: string, version: string, req: Request)
    requires StoreOk(env, d)
    ensures var plan := PlanRollback(env, d, packId, version, req);
            var recorded := PackOf(d.state, packId).versions;
            var key := KeyOf(env, packId, version);
            && (plan.Planned? <==>
                  && version in recorded && SafeVersion(version) && req.valid
                  && key in d.store && Holds(d.store[key], packId)
                  && ManifestOf(d.store[key]).value.version == version
                  && Replaceable(env, d, packId, recorded[version].dir)
                  && TxFree(d, recorded[version].dir, req.tx))
            && (plan.Planned? ==>
                  && Sha(env, d.store[key]) == recorded[version].sha
                  && Activates(env, d, plan, packId, version, recorded[version].dir, req.tx,
                               KnownVersions(env, d, packId, recorded[version].dir), d.store[key]))
  {
    hide Exec, Apply, PlanReplace, PlanActivation, Replaceable, Activates, OnlyStored, TxFree, CopyTree, Sha,
         SafeVersion, Holds, StoredTree, KnownDigest;
    var recorded := PackOf(d.state, packId).versions;
    if version in recorded {
      var dir := recorded[version].dir;
      assert Registered(env, d, packId, version, recorded[version].sha);
      ReplaceIs(env, d, packId, dir);
      if PlanReplace(env, d, packId, dir).Ok? {
        var archived := PlanReplace(env, d, packId, dir).value;
        PlanReplaceKeeps(env, d, packId, dir);
        KnownVersionIs(env, d, packId, version, dir, []);
        StoredAlready(env, d, packId, version, dir);
        ActivationIs(env, d, Exec(d, archived.puts), archived.puts, packId, version, dir, archived.pack, req);
      }
    }
  }

  lemma StoredAlready(env: Env, d: Disk, packId: string, version: string, dir: string)
    requires KeyOf(env, packId, version) in d.store
    ensures StoredTree(env, d, packId, version, dir, []) == d.store[KeyOf(env, packId, version)]
  {
  }

  // ----- Refusals tell the truth --------------------------------------------------------------------------------

  /** What a refusal of the replacing part means. */
  predicate ReplaceRefusal(env: Env, d: Disk, packId: string, dir: string, why: Refusal) {
    match why
    case Ambiguous => |Holders(d.active, packId)| > 1
    case DirectoryChanged => |Holders(d.active, packId)| == 1 && !Carried(d, packId, dir)
    case Tampered =>
      Carried(d, packId, dir)
      && var v := ManifestOf(d.active[dir]).value.version; var pack := PackOf(d.state, packId);
         v in pack.versions && pack.versions[v].sha != Sha(env, d.active[dir])
    case _ =>
      Carried(d, packId, dir)
      && StoreRefusal(env, d, packId, ManifestOf(d.active[dir]).value.version, d.active[dir], why)
  }

  predicate StoreRefusal(env: Env, d: Disk, packId: string, version: string, t: Tree, why: Refusal) {
    var key := KeyOf(env, packId, version);
    match why
    case UnsafeVersion => !SafeVersion(version)
    case StoreConflict => key in d.store && Sha(env, d.store[key]) != Sha(env, t)
    case CopyMismatch => key !in d.store && Sha(env, CopyTree(t)) != Sha(env, t)
    case _ => false
  }

  lemma ReplaceRefusalIs(env: Env, d: Disk, packId: string, dir: string)
    ensures var r := PlanReplace(env, d, packId, dir);
            r.Err? ==> ReplaceRefusal(env, d, packId, dir, r.error)
  {
    hide Sha, CopyTree;
    HoldersAre(d, packId, dir);
    var holders := Holders(d.active, packId);
    if holders != {} && |holders| <= 1 {
      var x :| x in holders;
      assert |holders - {x}| == 0;
      assert holders == {x};
    }
  }

  /** An install is refused for what is the case: in particular with a version conflict exactly when the package is
      sound, its pack can be replaced, and its version is known under another digest. */
  lemma InstallRefusalIs(env: Env, d: Disk, source: Tree, enabled: Option<bool>, raw: Bytes, dir: string, req: Request)
    requires StoreOk(env, d)
    ensures var plan := PlanInstall(env, d, source, enabled, raw, dir, req);
            var up := CopyTree(source);
            plan.Rejected? ==>
              match plan.why
              case NoManifest => ManifestOf(up).None?
              case Invalid => ManifestOf(up).Some? && !req.valid
              case TxInUse => !TxFree(d, dir, req.tx)
              case VersionConflict => true
              case why =>
                && ManifestOf(up).Some?
                && var m := ManifestOf(up).value;
                   || ReplaceRefusal(env, d, m.packId, dir, why)
                   || StoreRefusal(env, Exec(d, plan.puts), m.packId, m.version, up, why)
    ensures var plan := PlanInstall(env, d, source, enabled, raw, dir, req);
            var up := CopyTree(source);
            plan.Rejected? && plan.why == VersionConflict <==>
              && ManifestOf(up).Some? && req.valid
              && var m := ManifestOf(up).value;
                 && Replaceable(env, d, m.packId, dir)
                 && KnownDigest(env, d, m.packId, m.version, dir).Some?
                 && KnownDigest(env, d, m.packId, m.version, dir) != Some(Sha(env, up))
  {
    hide Exec, Apply, PlanReplace, PlanActivation, Replaceable, Staged, StoreOk, StorePut, OnlyStored, TxFree, CopyTree,
         Sha, KnownDigest, KnownVersions, StoredTree, ReplaceRefusal, StoreRefusal, Storable;
    StagedIs(env, source, enabled, raw);
    var up, staged := CopyTree(source), Staged(source, enabled, raw);
    if ManifestOf(staged).Some? && req.valid {
      var m := ManifestOf(staged).value;
      ReplaceIs(env, d, m.packId, dir);
      ReplaceRefusalIs(env, d, m.packId, dir);
      NoConflict(env, d, m.packId, m.version, dir, staged);
      if PlanReplace(env, d, m.packId, dir).Ok? {
        var archived := PlanReplace(env, d, m.packId, dir).value;
        var d1 := Exec(d, archived.puts);
        PlanReplaceKeeps(env, d, m.packId, dir);
        if m.version in KnownVersions(env, d, m.packId, dir) {
          KnownVersionIs(env, d, m.packId, m.version, dir, staged);
          ActivationRefusal(env, d, d1, archived.puts, m.packId, m.version, dir, archived.pack, req);
        } else {
          NewVersionIs(env, d, m.packId, m.version, dir, staged);
          StoreRefusalIs(env, d1, m.packId, m.version, staged, up);
          var put := StorePut(env, d1, m.packId, m.version, staged, Sha(env, staged));
          if put.Ok? {
            var pack := archived.pack.(versions := archived.pack.versions[m.version := Record(Sha(env, staged), dir)]);
            ActivationRefusal(env, d, Exec(d1, put.value), archived.puts + put.value, m.packId, m.version, dir, pack,
                              req);
          }
        }
      }
    }
  }

  lemma ActivationRefusal(env: Env, d: Disk, d1: Disk, puts: seq<Effect>, packId: string, version: string, dir: string,
                          pack: PackState, req: Request)
    requires KeyOf(env, packId, version) in d1.store && OnlyStored(d, d1)
    ensures var plan := PlanActivation(env, d1, puts, packId, version, dir, pack, req);
            plan.Rejected? ==> plan.why == TxInUse && !TxFree(d, dir, req.tx)
  {
  }

  /** Only the install itself compares versions. */
  lemma NoConflict(env: Env, d: Disk, packId: string, version: string, dir: string, t: Tree)
    ensures PlanReplace(env, d, packId, dir).Err? ==>
              PlanReplace(env, d, packId, dir).error !in {NoManifest, Invalid, TxInUse, VersionConflict}
    ensures forall d1: Disk :: StorePut(env, d1, packId, version, t, Sha(env, t)).Err? ==>
              StorePut(env, d1, packId, version, t, Sha(env, t)).error in {UnsafeVersion, StoreConflict, CopyMismatch}
  {
    hide Sha, CopyTree;
  }

  lemma StoreRefusalIs(env: Env, d: Disk, packId: string, version: string, t: Tree, u: Tree)
    requires Sha(env, t) == Sha(env, u) && CopyTree(t) == t && CopyTree(u) == u
    ensures var put := StorePut(env, d, packId, version, t, Sha(env, t));
            put.Err? ==> StoreRefusal(env, d, packId, version, u, put.error)
  {
  }

  predicate RollbackRefusal(env: Env, d: Disk, packId: string, version: string, req: Request, why: Refusal) {
    var recorded := PackOf(d.state, packId).versions;
    var key := KeyOf(env, packId, version);
    match why
    case UnknownVersion => version !in recorded
    case StoreMissing => false
    case StoreTampered => false
    case IdentityMismatch =>
      key in d.store && !(Holds(d.store[key], packId) && ManifestOf(d.store[key]).value.version == version)
    case Invalid => !req.valid
    case TxInUse => version in recorded && !TxFree(d, recorded[version].dir, req.tx)
    case UnsafeVersion =>
      !SafeVersion(version)
      || (version in recorded && ReplaceRefusal(env, d, packId, recorded[version].dir, UnsafeVersion))
    case _ => version in recorded && ReplaceRefusal(env, d, packId, recorded[version].dir, why)
  }

  /** So is a rollback; from a sound store it never finds the version missing or tampered with. */
  lemma RollbackRefusalIs(env: Env, d: Disk, packId: string, version: string, req: Request)
    requires StoreOk(env, d)
    ensures var plan := PlanRollback(env, d, packId, version, req);
            plan.Rejected? ==> RollbackRefusal(env, d, packId, version, req, plan.why)
  {
    hide Exec, Apply, PlanReplace, PlanActivation, Replaceable, OnlyStored, TxFree, CopyTree, Sha, KnownDigest,
         StoredTree, ReplaceRefusal, StoreRefusal, Storable;
    var recorded := PackOf(d.state, packId).versions;
    if version in recorded {
      var dir := recorded[version].dir;
      assert Registered(env, d, packId, version, recorded[version].sha);
      ReplaceRefusalIs(env, d, packId, dir);
      ReplaceRefusals(env, d, packId, dir);
      if PlanReplace(env, d, packId, dir).Ok? {
        var archived := PlanReplace(env, d, packId, dir).value;
        PlanReplaceKeeps(env, d, packId, dir);
        ReplaceIs(env, d, packId, dir);
        KnownVersionIs(env, d, packId, version, dir, []);
        ActivationRefusal(env, d, Exec(d, archived.puts), archived.puts, packId, version, dir, archived.pack, req);
      }
    }
  }

  lemma ReplaceRefusals(env: Env, d: Disk, packId: string, dir: string)
    ensures PlanReplace(env, d, packId, dir).Err? ==>
              PlanReplace(env, d, packId, dir).error
              in {Ambiguous, DirectoryChanged, Tampered, UnsafeVersion, StoreConflict, CopyMismatch}
  {
    hide Sha, CopyTree;
  }

  // ----- What is active afterwards ------------------------------------------------------------------------------

  /** The loader finds the pack in the switched directory, once and in the planned version, and the callback agrees. */
  predicate Passes(d: Disk, plan: Plan, loads: bool)
    requires plan.Planned?
  {
    loads && LoaderAccepts(d.active[plan.act.dir := plan.act.tree], plan.packId, plan.version)
  }

  /** When nothing fails: a refused operation, or one whose switch the loader or the callback rejects, changes nothing
      but the store; any other switches its directory and its pack's entry, and nothing else. */
  lemma PlanDelivers(env: Env, d: Disk, plan: Plan, loads: bool)
    requires PlanSound(env, d, plan)
    ensures var r := PlanEnds(d, plan, loads, Completes);
            if plan.Planned? && Passes(d, plan, loads) then
              && r.active == d.active[plan.act.dir := plan.act.tree] && r.state == plan.act.newState
              && r.journal.None? && r.swaps == d.swaps && r.candidates == d.candidates
              && Holds(plan.act.tree, plan.packId) && ManifestOf(plan.act.tree).value.version == plan.version
            else OnlyStored(d, r)
  {
    hide Exec, Apply, StoreOk, PackStored, StoreExtends, ManifestOf, LoaderAccepts;
    if plan.Planned? {
      var d1 := Exec(d, plan.puts);
      var stop := Shift(Stop(d, plan, loads, Completes), |plan.puts|);
      ActivationEndsIs(d1, plan.act, stop);
      if Passes(d, plan, loads) {
        AcceptedHolder(env, d, plan);
      }
    }
  }

  /** An install that is not refused and passes the loader leaves the uploaded package in its directory: its id, its
      version and its digest. The content, and with it the flag, is what is stored under that version, if anything is,
      or what the directory held of it; else the package itself, with the flag asked for. */
  lemma InstallDelivers(env: Env, d: Disk, e: Event)
    requires StoreOk(env, d) && !RecoveryBlocked(d) && e.Install? && e.fault.Completes?
    requires var d0 := Recovered(d, EMPTY_SWAP);
             PlanOf(env, d0, e).Planned? && Passes(d0, PlanOf(env, d0, e), e.loads)
    ensures var d0, up, r := Recovered(d, EMPTY_SWAP), CopyTree(e.source), Happens(env, d, e);
            && ManifestOf(up).Some?
            && var m := ManifestOf(up).value;
               && e.dir in r.active && r.active == d0.active[e.dir := r.active[e.dir]]
               && var t := r.active[e.dir];
                  && Holds(t, m.packId) && ManifestOf(t).value.version == m.version && Sha(env, t) == Sha(env, up)
                  && t == StoredTree(env, d0, m.packId, m.version, e.dir, Staged(e.source, e.enabled, e.raw))
                  && (KnownDigest(env, d0, m.packId, m.version, e.dir).None?
                      && KeyOf(env, m.packId, m.version) !in d0.store ==>
                        && t == Staged(e.source, e.enabled, e.raw)
                        && ManifestOf(t).value.enabled == if e.enabled.Some? then e.enabled else m.enabled)
                  && m.packId in r.state && r.state == d0.state[m.packId := r.state[m.packId]]
                  && r.state[m.packId].activeVersion == Some(m.version)
                  && r.state[m.packId].activeDir == Some(e.dir)
  {
    hide Exec, Apply, Recovered, RecoveryBlocked, StoreOk, PlanEnds, Passes, PlanSound, CopyTree, Staged, Sha,
         KnownVersions, Replaceable, Acceptable, TxFree;
    var d0 := Recovered(d, EMPTY_SWAP);
    RecoveredStore(d, EMPTY_SWAP);
    StoreOkTransfers(env, d, d0);
    var plan := PlanOf(env, d0, e);
    PlanOfSound(env, d0, e);
    PlanDelivers(env, d0, plan, e.loads);
    InstallIs(env, d0, e.source, e.enabled, e.raw, e.dir, e.req);
    StagedIs(env, e.source, e.enabled, e.raw);
    InstalledDigest(env, d0, plan, CopyTree(e.source), Staged(e.source, e.enabled, e.raw), e.dir);
  }

  /** The activated tree has the digest of the upload, wherever it comes from. */
  lemma InstalledDigest(env: Env, d: Disk, plan: Plan, up: Tree, staged: Tree, dir: string)
    requires StoreOk(env, d) && ManifestOf(up).Some? && Sha(env, staged) == Sha(env, up)
    requires var m := ManifestOf(up).value;
             && Acceptable(env, d, m.packId, m.version, dir, up)
             && Replaceable(env, d, m.packId, dir)
    ensures var m := ManifestOf(up).value;
            Sha(env, StoredTree(env, d, m.packId, m.version, dir, staged)) == Sha(env, up)
  {
    hide Sha, CopyTree;
    var m := ManifestOf(up).value;
    var pack := PackOf(d.state, m.packId);
    if m.version in pack.versions {
      assert Registered(env, d, m.packId, m.version, pack.versions[m.version].sha);
    }
  }

  /** A rollback that is not refused and passes the loader leaves the stored version in the directory it was
      registered for, with its recorded digest. */
  lemma RollbackDelivers(env: Env, d: Disk, e: Event)
    requires StoreOk(env, d) && !RecoveryBlocked(d) && e.RollBack? && e.fault.Completes?
    requires var d0 := Recovered(d, EMPTY_SWAP);
             PlanOf(env, d0, e).Planned? && Passes(d0, PlanOf(env, d0, e), e.loads)
    ensures var d0, r := Recovered(d, EMPTY_SWAP), Happens(env, d, e);
            var recorded := PackOf(d0.state, e.packId).versions;
            && e.version in recorded
            && var dir := recorded[e.version].dir;
               && dir in r.active && r.active == d0.active[dir := d0.store[KeyOf(env, e.packId, e.version)]]
               && Holds(r.active[dir], e.packId) && ManifestOf(r.active[dir]).value.version == e.version
               && Sha(env, r.active[dir]) == recorded[e.version].sha
               && e.packId in r.state && r.state == d0.state[e.packId := r.state[e.packId]]
               && r.state[e.packId].activeVersion == Some(e.version) && r.state[e.packId].activeDir == Some(dir)
  {
    hide Exec, Apply, Recovered, RecoveryBlocked, StoreOk, PlanEnds, Passes, PlanSound, CopyTree, Sha, KnownVersions,
         Replaceable, TxFree, SafeVersion;
    var d0 := Recovered(d, EMPTY_SWAP);
    RecoveredStore(d, EMPTY_SWAP);
    StoreOkTransfers(env, d, d0);
    var plan := PlanOf(env, d0, e);
    PlanOfSound(env, d0, e);
    PlanDelivers(env, d0, plan, e.loads);
    RollbackIs(env, d0, e.packId, e.version, e.req);
  }

  // ----- Switching a pack on or off -------------------------------------------------------------------------------

  /** The same package but for the flag. */
  predicate Flagged(env: Env, t: Tree, u: Tree, enabled: Option<bool>) {
    && ManifestOf(t).Some? && ManifestOf(u) == Some(ManifestOf(t).value.(enabled := enabled))
    && Sha(env, u) == Sha(env, t)
  }

  lemma WriteFlags(env: Env, d: Disk, dir: string, es: seq<Effect>)
    requires dir in d.active && ManifestOf(d.active[dir]).Some? && |es| <= 3
    requires forall e | e in es :: e.WriteFlag? && e.dir == dir
    ensures var r := Exec(d, es);
            && dir in r.active && r == d.(active := d.active[dir := r.active[dir]])
            && Flagged(env, d.active[dir], r.active[dir],
                       if es == [] then ManifestOf(d.active[dir]).value.enabled else es[|es| - 1].enabled)
    decreases |es|
  {
    hide ManifestOf, Sha, WithEnabled;
    if es != [] {
      var n := |es| - 1;
      WriteFlags(env, d, dir, es[..n]);
      ExecStep(d, es, n);
      assert es[..n + 1] == es;
      WriteOneFlag(env, Exec(d, es[..n]).active[dir], es[n].enabled, es[n].raw);
    } else {
      ExecNone(d, es);
      assert d.active[dir := d.active[dir]] == d.active;
    }
  }

  lemma WriteOneFlag(env: Env, t: Tree, enabled: Option<bool>, raw: Bytes)
    requires ManifestOf(t).Some?
    ensures Flagged(env, t, WithEnabled(t, enabled, raw), enabled)
  {
    WithEnabledKeepsDigest(env.hashing, t, enabled, raw);
    WithEnabledKeepsManifest(t, enabled, raw);
  }

  /** A toggle that is not cut short changes nothing unless exactly one directory carries the pack, and then at most the
      flag of that one: it is the one asked for when the switch was kept, and else the one before. */
  lemma ToggleDelivers(env: Env, d: Disk, e: Event) returns (dir: string)
    requires !RecoveryBlocked(d) && e.SetEnabled? && e.written >= |FlagSteps(Recovered(d, EMPTY_SWAP), e)|
    ensures var d0, r := Recovered(d, EMPTY_SWAP), Happens(env, d, e);
            if |Holders(d0.active, e.packId)| != 1 then r == d0
            else
              && Holders(d0.active, e.packId) == {dir}
              && dir in d0.active && dir in r.active && r == d0.(active := d0.active[dir := r.active[dir]])
              && ManifestOf(d0.active[dir]).Some?
              && Flagged(env, d0.active[dir], r.active[dir],
                         if e.outcome.Kept? then Some(e.flag) else ManifestOf(d0.active[dir]).value.enabled)
  {
    hide Exec, Recovered, RecoveryBlocked, ManifestOf, Flagged, Holders, Apply;
    var d0 := Recovered(d, EMPTY_SWAP);
    var es := FlagSteps(d0, e);
    assert es[..|es|] == es;
    var holders := Holders(d0.active, e.packId);
    dir := "";
    if |holders| == 1 {
      dir :| dir in holders;
      assert |holders - {dir}| == 0;
      assert holders == {dir};
      OneCarries(d0, e.packId, dir);
      WriteFlags(env, d0, dir, es);
    } else {
      ExecNone(d0, es);
    }
  }

  lemma OneCarries(d: Disk, packId: string, dir: string)
    requires Holders(d.active, packId) == {dir}
    ensures dir in d.active && ManifestOf(d.active[dir]).Some?
  {
    assert dir in Holders(d.active, packId);
  }
}
