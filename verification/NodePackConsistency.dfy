/**
 The active pointers: for every managed pack the state names one registered version, exactly one directory
 carries the pack, it is in that version, and its digest is the recorded one.
 */
module NodePackConsistency {
  import opened Common
  import opened PackageTree
  import opened NodePackDisk
  import opened NodePackActivation
  import opened NodePackCrashes
  import opened NodePackPlans
  import opened NodePackRuns

  predicate PackOk(env: Env, active: map<string, Tree>, packId: string, pack: PackState) {
    && pack.activeVersion.Some? && pack.activeDir.Some?
    && pack.activeVersion.value in pack.versions
    && Holders(active, packId) == {pack.activeDir.value}
    && var dir := pack.activeDir.value;
       dir in active
       && ManifestOf(active[dir]).Some? && ManifestOf(active[dir]).value.version == pack.activeVersion.value
       && Sha(env, active[dir]) == pack.versions[pack.activeVersion.value].sha
  }

  predicate Consistent(env: Env, d: Disk) {
    StoreOk(env, d) && forall p | p in d.state :: PackOk(env, d.active, p, d.state[p])
  }

  /** Consistent once the recovery that every operation begins with has run. */
  predicate Good(env: Env, d: Disk) {
    !RecoveryBlocked(d) && Consistent(env, Recovered(d, EMPTY_SWAP))
  }

  // ----- Listing the versions -------------------------------------------------------------------------

  datatype VersionRecord = VersionRecord(version: string, sha: string, dir: string, active: bool)

  /** `list_versions`, without its order. */
  function ListVersions(state: State, packId: string): set<VersionRecord> {
    var pack := PackOf(state, packId);
    set v | v in pack.versions ::
      VersionRecord(v, pack.versions[v].sha, pack.versions[v].dir, pack.activeVersion == Some(v))
  }

  /** Exactly one listed version is active, and it is what the active directory holds. */
  lemma ExactlyOneActive(env: Env, d: Disk, packId: string)
    requires Consistent(env, d) && packId in d.state
    ensures exists r :: r in ListVersions(d.state, packId) && r.active
                        && (forall s | s in ListVersions(d.state, packId) && s.active :: s == r)
                        && exists dir | dir in Holders(d.active, packId) :: Sha(env, d.active[dir]) == r.sha
  {
    var pack := d.state[packId];
    assert PackOk(env, d.active, packId, pack);
    var v := pack.activeVersion.value;
    var r := VersionRecord(v, pack.versions[v].sha, pack.versions[v].dir, true);
    assert r in ListVersions(d.state, packId);
    assert pack.activeDir.value in Holders(d.active, packId);
  }

  // ----- The decision never meets a tampered directory --------------------------------------------------

  /** The tamper error of the archiving step is unreachable from a consistent disk. */
  lemma NeverTampered(env: Env, d: Disk, e: Event)
    requires Good(env, d) && (e.Install? || e.RollBack?)
    ensures PlanOf(env, Recovered(d, EMPTY_SWAP), e).Rejected? ==>
              PlanOf(env, Recovered(d, EMPTY_SWAP), e).why != Tampered
  {
    match e
    case Install(source, enabled, raw, dir, req, _, _) =>
      InstallNotTampered(env, Recovered(d, EMPTY_SWAP), source, enabled, raw, dir, req);
    case RollBack(packId, version, req, _, _) =>
      RollbackNotTampered(env, Recovered(d, EMPTY_SWAP), packId, version, req);
  }

  lemma InstallNotTampered(env: Env, d: Disk, source: Tree, enabled: Option<bool>, raw: Bytes, dir: string,
                           req: Request)
    requires Consistent(env, d)
    ensures var plan := PlanInstall(env, d, source, enabled, raw, dir, req);
            plan.Rejected? ==> plan.why != Tampered
  {
    hide Exec, Consistent, PlanReplace, PlanActivation, StorePut, Staged;
    var staged := Staged(source, enabled, raw);
    if ManifestOf(staged).Some? && req.valid {
      var m := ManifestOf(staged).value;
      ReplaceNotTampered(env, d, m.packId, dir);
      OthersNotTampered(env, staged, Sha(env, staged), m.packId, m.version, dir, req);
    }
  }

  lemma OthersNotTampered(env: Env, t: Tree, sha: string, packId: string, version: string, dir: string, req: Request)
    ensures forall d: Disk :: StorePut(env, d, packId, version, t, sha) != Err(Tampered)
    ensures forall d: Disk, puts, pack ::
              var plan := PlanActivation(env, d, puts, packId, version, dir, pack, req);
              plan.Rejected? ==> plan.why != Tampered
  {
    hide CopyTree, Digest, Fresh;
  }

  lemma RollbackNotTampered(env: Env, d: Disk, packId: string, version: string, req: Request)
    requires Consistent(env, d)
    ensures var plan := PlanRollback(env, d, packId, version, req);
            plan.Rejected? ==> plan.why != Tampered
  {
    hide Exec, Consistent;
    var pack := PackOf(d.state, packId);
    if version in pack.versions {
      ReplaceNotTampered(env, d, packId, pack.versions[version].dir);
    }
  }

  lemma ReplaceNotTampered(env: Env, d: Disk, packId: string, dir: string)
    requires Consistent(env, d)
    ensures PlanReplace(env, d, packId, dir) != Err(Tampered)
  {
    var holders := Holders(d.active, packId);
    if holders == {dir} {
      assert dir in holders;
      if packId in d.state {
        assert PackOk(env, d.active, packId, d.state[packId]);
        assert d.state[packId].activeDir.value in holders;
      }
    }
  }

  // ----- Disks that agree where it matters ------------------------------------------------------------

  lemma SameIsConsistent(env: Env, d: Disk, later: Disk)
    requires Consistent(env, d) && later.active == d.active && later.state == d.state && StoreOk(env, later)
    ensures Consistent(env, later)
  {
    forall p | p in later.state ensures PackOk(env, later.active, p, later.state[p]) {
      assert PackOk(env, d.active, p, d.state[p]);
    }
  }

  lemma GoodWithoutJournal(env: Env, d: Disk)
    requires d.journal.None?
    ensures Good(env, d) <==> Consistent(env, d)
  {
    assert Recovered(d, EMPTY_SWAP) == d;
  }

  lemma RecoveredHasNoJournal(env: Env, d: Disk)
    requires !RecoveryBlocked(d)
    ensures Recovered(d, EMPTY_SWAP).journal.None?
  {
    if d.journal.Some? {
      RecoveredIs(d, EMPTY_SWAP);
    } else {
      assert Recovered(d, EMPTY_SWAP) == d;
    }
  }

  // ----- A committed activation -------------------------------------------------------------------------

  /** No other managed pack lives in the directory the activation switches. The code does not check it. */
  predicate Owned(d: Disk, plan: Plan)
    requires plan.Planned?
  {
    forall q | q in d.state && q != plan.packId :: d.state[q].activeDir != Some(plan.act.dir)
  }

  predicate Accepted(d: Disk, plan: Plan)
    requires plan.Planned?
  {
    LoaderAccepts(d.active[plan.act.dir := plan.act.tree], plan.packId, plan.version)
  }

  lemma AcceptedHolder(env: Env, d: Disk, plan: Plan)
    requires PlanSound(env, d, plan) && plan.Planned? && Accepted(d, plan)
    ensures var active := d.active[plan.act.dir := plan.act.tree];
            Holders(active, plan.packId) == {plan.act.dir} && Holds(plan.act.tree, plan.packId)
            && ManifestOf(plan.act.tree).value.version == plan.version
  {
    var p, dir := plan.packId, plan.act.dir;
    var active := d.active[dir := plan.act.tree];
    assert Holders(active, p) <= Holders(d.active, p) + {dir};
    assert Holders(d.active, p) <= {dir};
    var x :| x in Holders(active, p) && Holders(active, p) == {x}
             && ManifestOf(active[x]).value.version == plan.version;
  }

  lemma OtherPackOk(env: Env, d: Disk, plan: Plan, q: string, pack: PackState)
    requires PlanSound(env, d, plan) && plan.Planned? && Accepted(d, plan)
    requires q != plan.packId && PackOk(env, d.active, q, pack)
    ensures PackOk(env, d.active[plan.act.dir := plan.act.tree], q, pack) <==> pack.activeDir != Some(plan.act.dir)
  {
    AcceptedHolder(env, d, plan);
    var active := d.active[plan.act.dir := plan.act.tree];
    assert plan.act.dir !in Holders(active, q);
    if pack.activeDir != Some(plan.act.dir) {
      var own := pack.activeDir.value;
      assert own in Holders(d.active, q);
      assert forall x :: x in Holders(active, q) <==> x in Holders(d.active, q) && x != plan.act.dir;
      assert Holders(active, q) == {own};
    } else {
      assert plan.act.dir in {pack.activeDir.value};
    }
  }

  /** Committing an accepted plan keeps consistency exactly when the target directory is not another managed
      pack's. */
  lemma CommitConsistent(env: Env, d: Disk, plan: Plan)
    requires Consistent(env, d) && PlanSound(env, d, plan) && plan.Planned? && Accepted(d, plan)
    ensures Consistent(env, Committed(Exec(d, plan.puts), plan.act)) <==> Owned(d, plan)
  {
    var d1 := Exec(d, plan.puts);
    var later := Committed(d1, plan.act);
    var p := plan.packId;
    StoreOkNewState(env, d1, later, p);
    AcceptedHolder(env, d, plan);
    assert Registered(env, d1, p, plan.version, later.state[p].versions[plan.version].sha);
    assert PackOk(env, later.active, p, later.state[p]);
    forall q | q in d.state && q != p
      ensures PackOk(env, later.active, q, later.state[q]) <==> d.state[q].activeDir != Some(plan.act.dir)
    {
      assert PackOk(env, d.active, q, d.state[q]);
      OtherPackOk(env, d, plan, q, d.state[q]);
      assert later.state[q] == d.state[q];
    }
    if Owned(d, plan) {
      forall q | q in later.state ensures PackOk(env, later.active, q, later.state[q]) {
        assert q == p || q in d.state;
      }
    }
  }

  // ----- Where one operation may stop --------------------------------------------------------------------

  /** The directory already is what the plan activates: visible, of this pack, in this version, and with the digest
      of the tree that would replace it. */
  predicate AlreadyActive(env: Env, d: Disk, plan: Plan)
    requires plan.Planned?
  {
    var dir := plan.act.dir;
    dir in d.active && Visible(dir) && Holds(d.active[dir], plan.packId)
    && ManifestOf(d.active[dir]).value.version == plan.version
    && Sha(env, d.active[dir]) == Sha(env, plan.act.tree)
  }

  /** Some managed pack, the plan's own or another, lives in the directory the activation switches. */
  predicate Inhabited(d: Disk, dir: string) {
    exists q | q in d.state :: d.state[q].activeDir == Some(dir)
  }

  /** A death after `k` effects of the activation falls in one of the two windows of a single effect: the directory
      was moved away and no journal says so, or the new state is written over a directory that is not yet new. */
  predicate InWindow(env: Env, d: Disk, plan: Plan, k: nat)
    requires plan.Planned?
  {
    (k == 6 && Inhabited(d, plan.act.dir)) || (k == 10 && !AlreadyActive(env, d, plan))
  }

  predicate KeepsAt(env: Env, d: Disk, plan: Plan, k: nat)
    requires plan.Planned?
  {
    !InWindow(env, d, plan, k) && (k > UNCOMMITTED + 1 ==> Owned(d, plan))
  }

  /** Whether an activation that stops there leaves a consistent disk; positions count from its first effect. */
  predicate Keeps(env: Env, d: Disk, plan: Plan, stop: Fault)
    requires plan.Planned?
  {
    match stop
    case Completes => Owned(d, plan)
    case Dies(k) => KeepsAt(env, d, plan, k)
    case Raises(k) => GUARDED <= k <= UNCOMMITTED || KeepsAt(env, d, plan, k)
    case RaisesThenDies(k, c) =>
      if GUARDED <= k <= UNCOMMITTED then CompensationLoses(k, c) ==> !Inhabited(d, plan.act.dir)
      else KeepsAt(env, d, plan, k)
  }

  /** After a single death and the recovery that follows, the disk is consistent exactly when the death missed both
      windows and, once the activation was committed, the directory is no other managed pack's. */
  lemma DeathConsistent(env: Env, d: Disk, plan: Plan, k: nat)
    requires Consistent(env, d) && PlanSound(env, d, plan) && plan.Planned?
    requires k <= ALL_STEPS && (k > UNCOMMITTED ==> Accepted(d, plan))
    ensures Good(env, After(Exec(d, plan.puts), plan.act, k)) <==> KeepsAt(env, d, plan, k)
  {
    hide AlreadyActive, Inhabited, Owned, Exec, Apply;
    var d1 := Exec(d, plan.puts);
    var m := After(d1, plan.act, k);
    var r := Recovered(m, EMPTY_SWAP);
    if k <= UNCOMMITTED {
      CrashBeforeStateWrite(d1, plan.act, k, EMPTY_SWAP);
      StoreOkTransfers(env, d1, r);
      if k == 6 {
        CrashJournalled(d1, plan.act, k, EMPTY_SWAP);
        LostDirectory(env, d, plan.act.dir, r);
      } else {
        SameIsConsistent(env, d, r);
      }
    } else {
      CrashAfterStateWrite(d1, plan.act, k, EMPTY_SWAP);
      StoreOkNewState(env, d1, r, plan.packId);
      if k == 10 {
        OldUnderNewState(env, d, plan, r);
      } else {
        CommitConsistent(env, d, plan);
        SameConsistency(env, Committed(d1, plan.act), r);
      }
    }
  }

  lemma SameConsistency(env: Env, d: Disk, later: Disk)
    requires later.active == d.active && later.state == d.state && StoreOk(env, d) && StoreOk(env, later)
    ensures Consistent(env, d) <==> Consistent(env, later)
  {
    if Consistent(env, d) {
      SameIsConsistent(env, d, later);
    }
    if Consistent(env, later) {
      SameIsConsistent(env, later, d);
    }
  }

  /** The first window: the directory is gone, which matters when the state names it. */
  lemma LostDirectory(env: Env, d: Disk, dir: string, r: Disk)
    requires Consistent(env, d) && r.active == d.active - {dir} && r.state == d.state && StoreOk(env, r)
    ensures Consistent(env, r) <==> !Inhabited(d, dir)
  {
    hide PackOk;
    forall q | q in d.state
      ensures PackOk(env, r.active, q, r.state[q]) <==> d.state[q].activeDir != Some(dir)
    {
      WithoutDirectory(env, d.active, dir, q, d.state[q]);
    }
  }

  lemma WithoutDirectory(env: Env, active: map<string, Tree>, dir: string, q: string, pack: PackState)
    requires PackOk(env, active, q, pack)
    ensures PackOk(env, active - {dir}, q, pack) <==> pack.activeDir != Some(dir)
  {
    var own := pack.activeDir.value;
    assert own in Holders(active, q);
    assert Holders(active - {dir}, q) == Holders(active, q) - {dir};
    if own == dir {
      assert own !in Holders(active - {dir}, q);
      assert own in {own};
    }
  }

  /** The planned state fits the old directories exactly when they already are what the plan activates. */
  lemma AlreadyActiveIs(env: Env, d: Disk, plan: Plan)
    requires PlanSound(env, d, plan) && plan.Planned?
    ensures PackOk(env, d.active, plan.packId, plan.act.newState[plan.packId]) <==> AlreadyActive(env, d, plan)
  {
    hide Exec, Apply, StoreOk, OnlyStored, StoreExtends, Digest;
    var dir := plan.act.dir;
    var pack := plan.act.newState[plan.packId];
    assert pack.activeVersion == Some(plan.version) && pack.activeDir == Some(dir);
    assert Registered(env, Exec(d, plan.puts), plan.packId, plan.version, pack.versions[plan.version].sha);
    assert pack.versions[plan.version].sha == Sha(env, plan.act.tree);
    var holders := Holders(d.active, plan.packId);
    assert dir in holders <==> dir in d.active && Visible(dir) && Holds(d.active[dir], plan.packId);
    assert holders == {} || holders == {dir};
    if dir in holders {
      assert holders == {dir};
    } else {
      assert holders != {dir};
    }
  }

  /** The second window: the old directory stands under the new state. */
  lemma OldUnderNewState(env: Env, d: Disk, plan: Plan, r: Disk)
    requires Consistent(env, d) && PlanSound(env, d, plan) && plan.Planned?
    requires r.active == d.active && r.state == plan.act.newState && StoreOk(env, r)
    ensures Consistent(env, r) <==> AlreadyActive(env, d, plan)
  {
    hide AlreadyActive, StoreOk;
    AlreadyActiveIs(env, d, plan);
    if AlreadyActive(env, d, plan) {
      forall q | q in r.state ensures PackOk(env, r.active, q, r.state[q]) {
        if q != plan.packId {
          assert PackOk(env, d.active, q, d.state[q]);
        }
      }
    } else {
      assert plan.packId in r.state;
    }
  }

  /** A compensation that dies loses the directory, or restores it, and either way leaves the old state. */
  lemma CompensationDeathConsistent(env: Env, d: Disk, plan: Plan, k: nat, c: nat)
    requires Consistent(env, d) && PlanSound(env, d, plan) && plan.Planned? && GUARDED <= k <= UNCOMMITTED
    ensures Good(env, ActivationEnds(Exec(d, plan.puts), plan.act, RaisesThenDies(k, c)))
            <==> (CompensationLoses(k, c) ==> !Inhabited(d, plan.act.dir))
  {
    var d1 := Exec(d, plan.puts);
    hide Inhabited, Recovered, RecoveryBlocked, Apply, CompensateSteps, Exec, StoreOk, Good;
    ExecIsAfter(d1, plan.act, k);
    var m := After(d1, plan.act, k);
    var had := plan.act.dir in d1.active;
    var es := CompensateSteps(m, plan.act, had);
    CompensateLength(m, plan.act, had);
    if c > |es| {
      CompensationRestores(d1, plan.act, k);
      PutsKeepGood(env, d, plan);
    } else {
      CompensationCutShort(env, d, d1, plan.act, k, c);
    }
  }

  lemma CompensationCutShort(env: Env, d: Disk, d1: Disk, act: Activation, k: nat, c: nat)
    requires Consistent(env, d) && OnlyStored(d, d1) && StoreOk(env, d1) && Fresh(d1, act)
             && GUARDED <= k <= UNCOMMITTED
    requires c <= |CompensateSteps(After(d1, act, k), act, act.dir in d1.active)|
    ensures var m := After(d1, act, k);
            Good(env, Exec(m, CompensateSteps(m, act, act.dir in d1.active)[..c]))
            <==> (CompensationLoses(k, c) ==> !Inhabited(d, act.dir))
  {
    hide Inhabited, Recovered, RecoveryBlocked, CompensateSteps, Exec, StoreOk, Consistent;
    var m := After(d1, act, k);
    var es := CompensateSteps(m, act, act.dir in d1.active);
    var p := Exec(m, es[..c]);
    var r := Recovered(p, EMPTY_SWAP);
    CrashInCompensation(d1, act, k, c, EMPTY_SWAP);
    CompensatingKeepsStore(m, act, act.dir in d1.active, c);
    RecoveredStore(p, EMPTY_SWAP);
    StoreOkTransfers(env, d1, r);
    if CompensationLoses(k, c) {
      LostDirectory(env, d, act.dir, r);
    } else {
      SameIsConsistent(env, d, r);
    }
  }

  lemma CompensateLength(m: Disk, a: Activation, had: bool)
    ensures |CompensateSteps(m, a, had)| >= 4
  {
  }

  /** However an activation stops, with a raise, a death, or a raise whose compensation dies: the disk is consistent
      after the next recovery exactly when that stop keeps it so. */
  lemma ActivationEndsGood(env: Env, d: Disk, plan: Plan, stop: Fault)
    requires Consistent(env, d) && PlanSound(env, d, plan) && plan.Planned?
    requires stop.Completes? || stop.at > UNCOMMITTED ==> Accepted(d, plan)
    ensures Good(env, ActivationEnds(Exec(d, plan.puts), plan.act, stop)) <==> Keeps(env, d, plan, stop)
  {
    hide InWindow, Owned, Accepted, Inhabited, Consistent, StoreOk, Recovered;
    var d1 := Exec(d, plan.puts);
    if !stop.Completes? && !stop.Dies? && GUARDED <= stop.at <= UNCOMMITTED {
      if stop.Raises? {
        ActivationEndsIs(d1, plan.act, stop);
        PutsKeepGood(env, d, plan);
      } else {
        CompensationDeathConsistent(env, d, plan, stop.at, stop.c);
      }
    } else {
      var k := if stop.Completes? || stop.at > ALL_STEPS then ALL_STEPS else stop.at;
      StopsAfter(d1, plan.act, stop, k);
      DeathConsistent(env, d, plan, k);
      NotInWindow(env, d, plan, ALL_STEPS);
      if k != ALL_STEPS {
        assert KeepsAt(env, d, plan, k) == Keeps(env, d, plan, stop);
      } else {
        assert Keeps(env, d, plan, stop) == Owned(d, plan) by {
          if !stop.Completes? {
            NotInWindow(env, d, plan, stop.at);
          }
        }
      }
    }
  }

  lemma NotInWindow(env: Env, d: Disk, plan: Plan, k: nat)
    requires plan.Planned? && k > UNCOMMITTED + 1
    ensures !InWindow(env, d, plan, k)
  {
  }

  lemma StopsAfter(d: Disk, act: Activation, stop: Fault, k: nat)
    requires Fresh(d, act) && k == if stop.Completes? || stop.at > ALL_STEPS then ALL_STEPS else stop.at
    requires !stop.Completes? && !stop.Dies? ==> !(GUARDED <= stop.at <= UNCOMMITTED)
    ensures ActivationEnds(d, act, stop) == After(d, act, k)
  {
    assert Steps(d, act)[..ALL_STEPS] == Steps(d, act);
    ExecIsAfter(d, act, k);
  }

  lemma PutsKeepGood(env: Env, d: Disk, plan: Plan)
    requires Consistent(env, d) && PlanSound(env, d, plan) && plan.Planned?
    ensures Good(env, Exec(d, plan.puts))
  {
    SameIsConsistent(env, d, Exec(d, plan.puts));
    GoodWithoutJournal(env, Exec(d, plan.puts));
  }

  // ----- One event ------------------------------------------------------------------------------------

  /** The events that keep consistency: an install or rollback that is refused, that stops among its store writes,
      or whose activation keeps it where it stops; every toggle; a recovery cut short that can be repeated, or that
      leaves a directory no managed pack lives in and nothing in the way of the next recovery. */
  predicate Covered(env: Env, d: Disk, e: Event) {
    match e
    case SetEnabled(_, _, _, _, _, _) => true
    case RecoveryDies(after, leftover) =>
      Repeatable(d, leftover, after)
      || (!CutBlocks(d, leftover, after) && !Inhabited(d, d.journal.value.dir))
    case _ =>
      var d0 := Recovered(d, EMPTY_SWAP);
      FaultCovered(env, d0, PlanOf(env, d0, e), e.loads, e.fault)
  }

  predicate FaultCovered(env: Env, d: Disk, plan: Plan, loads: bool, fault: Fault) {
    (!fault.Completes? && fault.at < |plan.puts|) || plan.Rejected?
    || Keeps(env, d, plan, Shift(Stop(d, plan, loads, fault), |plan.puts|))
  }

  lemma PlanEndsGood(env: Env, d: Disk, e: Event)
    requires Consistent(env, d) && d.journal.None? && (e.Install? || e.RollBack?)
    ensures Good(env, PlanEnds(d, PlanOf(env, d, e), e.loads, e.fault))
            <==> FaultCovered(env, d, PlanOf(env, d, e), e.loads, e.fault)
  {
    hide Exec, Apply, PlanSound, Consistent, ActivationEnds, Stop, Shift, Keeps, Good, PlanOf;
    var plan := PlanOf(env, d, e);
    if !e.fault.Completes? && e.fault.at < |plan.puts| {
      PutsOnlyGood(env, d, e, e.fault.at);
    } else if plan.Rejected? {
      PutsOnlyGood(env, d, e, |plan.puts|);
      assert plan.puts[..|plan.puts|] == plan.puts;
    } else {
      ConsistentIsStored(env, d);
      PlanOfSound(env, d, e);
      PlannedEndsGood(env, d, plan, e.loads, e.fault);
    }
  }

  lemma ConsistentIsStored(env: Env, d: Disk)
    requires Consistent(env, d)
    ensures StoreOk(env, d)
  {
  }

  lemma PlannedEndsGood(env: Env, d: Disk, plan: Plan, loads: bool, fault: Fault)
    requires Consistent(env, d) && PlanSound(env, d, plan) && plan.Planned?
    requires !fault.Completes? ==> fault.at >= |plan.puts|
    ensures Good(env, PlanEnds(d, plan, loads, fault)) <==> FaultCovered(env, d, plan, loads, fault)
  {
    hide Exec, Apply, PlanSound, Consistent, ActivationEnds, LoaderAccepts, Keeps, Good, Accepted;
    LateStopsAreAccepted(d, plan, loads, fault);
    ActivationEndsGood(env, d, plan, Shift(Stop(d, plan, loads, fault), |plan.puts|));
  }

  /** Only what the loader accepted gets as far as the state write. */
  lemma LateStopsAreAccepted(d: Disk, plan: Plan, loads: bool, fault: Fault)
    requires plan.Planned? && (!fault.Completes? ==> fault.at >= |plan.puts|)
    ensures var stop := Shift(Stop(d, plan, loads, fault), |plan.puts|);
            stop.Completes? || stop.at > UNCOMMITTED ==> Accepted(d, plan)
  {
  }

  lemma PutsOnlyGood(env: Env, d: Disk, e: Event, n: nat)
    requires Consistent(env, d) && d.journal.None? && (e.Install? || e.RollBack?) && n <= |PlanOf(env, d, e).puts|
    ensures Good(env, Exec(d, PlanOf(env, d, e).puts[..n]))
  {
    var plan := PlanOf(env, d, e);
    PlanPutsOk(env, d, e);
    PutsPrefix(env, d, plan, n);
    SameIsConsistent(env, d, Exec(d, plan.puts[..n]));
    GoodWithoutJournal(env, Exec(d, plan.puts[..n]));
  }

  /** A toggle, finished, refused, taken back or cut short, keeps digest and identity of its directory. */
  lemma FlagWriteKeeps(env: Env, d: Disk, x: string, enabled: Option<bool>, raw: Bytes)
    requires Consistent(env, d) && d.journal.None?
    ensures Consistent(env, Apply(d, WriteFlag(x, enabled, raw))) && Apply(d, WriteFlag(x, enabled, raw)).journal.None?
  {
    var r := Apply(d, WriteFlag(x, enabled, raw));
    StoreOkTransfers(env, d, r);
    if x in d.active {
      forall p | p in r.state ensures PackOk(env, r.active, p, r.state[p]) {
        assert PackOk(env, d.active, p, d.state[p]);
        FlagWriteKeepsPack(env, d.active, x, enabled, raw, p, d.state[p]);
      }
    }
  }

  lemma FlagWriteKeepsPack(env: Env, active: map<string, Tree>, x: string, enabled: Option<bool>, raw: Bytes,
                           p: string, pack: PackState)
    requires PackOk(env, active, p, pack) && x in active
    ensures PackOk(env, active[x := WithEnabled(active[x], enabled, raw)], p, pack)
  {
    hide WithEnabled, ManifestOf, Digest;
    WithEnabledKeepsDigest(env.hashing, active[x], enabled, raw);
    WithEnabledKeepsManifest(active[x], enabled, raw);
    var after := active[x := WithEnabled(active[x], enabled, raw)];
    assert Holders(after, p) == Holders(active, p);
  }

  lemma {:induction false} FlagWritesKeep(env: Env, d: Disk, es: seq<Effect>)
    requires Consistent(env, d) && d.journal.None? && forall e | e in es :: e.WriteFlag?
    ensures Consistent(env, Exec(d, es)) && Exec(d, es).journal.None?
  {
    if es != [] {
      var last := es[|es| - 1];
      FlagWritesKeep(env, d, es[..|es| - 1]);
      assert last.WriteFlag?;
      FlagWriteKeeps(env, Exec(d, es[..|es| - 1]), last.dir, last.enabled, last.raw);
    }
  }

  lemma RecoveryDiesGood(env: Env, d: Disk, e: Event)
    requires Good(env, d) && e.RecoveryDies?
    ensures Good(env, Happens(env, d, e)) <==> Covered(env, d, e)
  {
    hide Exec, Recovered, RecoveryBlocked, Consistent, RecoverSteps, StoreOk, Inhabited, CutBlocks;
    var es := RecoverSteps(d, e.leftover);
    var r := if e.after <= |es| then e.after else |es|;
    assert e.after > |es| ==> es[..r] == es;
    var p := Exec(d, es[..r]);
    RecoveryPrefixKeepsStore(d, e.leftover, r);
    RecoveredStore(p, EMPTY_SWAP);
    RecoveredStore(d, EMPTY_SWAP);
    if Repeatable(d, e.leftover, e.after) {
      RecoveryRepeats(d, e.leftover, EMPTY_SWAP, r);
      RecoveredIsConsistent(env, d, p);
    } else {
      RecoveryCutShort(d, e.leftover, EMPTY_SWAP, e.after);
      if !RecoveryBlocked(p) {
        LostAfterRecovery(env, d, p, d.journal.value.dir);
      }
    }
  }

  lemma RecoveryPrefixKeepsStore(d: Disk, leftover: Swap, r: nat)
    requires r <= |RecoverSteps(d, leftover)|
    ensures var p := Exec(d, RecoverSteps(d, leftover)[..r]);
            p.store == d.store && p.state == d.state
  {
    BystandersKeepStore(d, RecoverSteps(d, leftover)[..r]);
  }

  lemma LostAfterRecovery(env: Env, d: Disk, p: Disk, dir: string)
    requires Consistent(env, Recovered(d, EMPTY_SWAP)) && Recovered(d, EMPTY_SWAP).state == d.state
    requires var r, q := Recovered(d, EMPTY_SWAP), Recovered(p, EMPTY_SWAP);
             q.active == r.active - {dir} && q.store == r.store && q.state == r.state
    ensures Consistent(env, Recovered(p, EMPTY_SWAP)) <==> !Inhabited(d, dir)
  {
    hide Recovered;
    var r, q := Recovered(d, EMPTY_SWAP), Recovered(p, EMPTY_SWAP);
    StoreOkTransfers(env, r, q);
    LostDirectory(env, r, dir, q);
  }

  lemma RecoveredIsConsistent(env: Env, d: Disk, p: Disk)
    requires Consistent(env, Recovered(d, EMPTY_SWAP))
    requires var r, q := Recovered(d, EMPTY_SWAP), Recovered(p, EMPTY_SWAP);
             q.active == r.active && q.store == r.store && q.state == r.state
    ensures Consistent(env, Recovered(p, EMPTY_SWAP))
  {
    hide Recovered;
    var r, q := Recovered(d, EMPTY_SWAP), Recovered(p, EMPTY_SWAP);
    StoreOkTransfers(env, r, q);
    SameIsConsistent(env, r, q);
  }

  /** One event keeps consistency if and only if it is covered. */
  lemma EventKeepsGood(env: Env, d: Disk, e: Event)
    requires Good(env, d)
    ensures Good(env, Happens(env, d, e)) <==> Covered(env, d, e)
  {
    hide Exec, Recovered, Consistent, FaultCovered, PlanEnds, PlanOf, Repeatable, CutBlocks, Inhabited;
    var d0 := Recovered(d, EMPTY_SWAP);
    RecoveredHasNoJournal(env, d);
    if e.SetEnabled? {
      var es := FlagSteps(d0, e);
      var done := if e.written <= |es| then es[..e.written] else es;
      FlagWritesKeep(env, d0, done);
      GoodWithoutJournal(env, Exec(d0, done));
    } else if e.RecoveryDies? {
      RecoveryDiesGood(env, d, e);
    } else {
      PlanEndsGood(env, d0, e);
    }
  }

  // ----- Every run --------------------------------------------------------------------------------------

  predicate AllCovered(env: Env, d: Disk, es: seq<Event>)
    decreases |es|
  {
    es == [] || (Covered(env, d, es[0]) && AllCovered(env, Happens(env, d, es[0]), es[1..]))
  }

  /** Consistent after every event. */
  predicate AlwaysGood(env: Env, d: Disk, es: seq<Event>)
    decreases |es|
  {
    Good(env, d) && (es != [] ==> AlwaysGood(env, Happens(env, d, es[0]), es[1..]))
  }

  /** Over every run the disk is consistent after every event, so no operation of the run ever meets the tamper
      error, if and only if all its events are covered. */
  lemma {:induction false} RunKeepsGood(env: Env, d: Disk, es: seq<Event>)
    requires Good(env, d)
    ensures AlwaysGood(env, d, es) <==> AllCovered(env, d, es)
    ensures AllCovered(env, d, es) ==> Good(env, Run(env, d, es))
    decreases |es|
  {
    hide Good, Covered, Happens;
    if es != [] {
      EventKeepsGood(env, d, es[0]);
      if Good(env, Happens(env, d, es[0])) {
        RunKeepsGood(env, Happens(env, d, es[0]), es[1..]);
      }
    }
  }

  /** After a recovery that is blocked nothing ever happens any more: every later operation raises. */
  lemma {:induction false} BlockedForever(env: Env, d: Disk, es: seq<Event>)
    requires RecoveryBlocked(d)
    ensures Run(env, d, es) == d
    decreases |es|
  {
    if es != [] {
      BlockedForever(env, d, es[1..]);
    }
  }

  /** A disk the manager never touched is consistent, whatever packs were put there by hand. */
  lemma FreshDiskIsGood(env: Env, d: Disk)
    requires d.state == map[] && d.journal.None? && d.store == map[]
    ensures Good(env, d)
  {
    assert Recovered(d, EMPTY_SWAP) == d;
  }
}
