/**
 Concrete runs, from a consistent disk, through the windows and past the missing checks: what the conditions of
 the theorems rule out does happen.
 */
module NodePackTraces {
  import opened Common
  import opened PackageTree
  import opened NodePackDisk
  import opened NodePackActivation
  import opened NodePackCrashes
  import opened NodePackPlans
  import opened NodePackRuns
  import opened NodePackConsistency
  import opened NodePackDelivery

  // ----- A pack in two versions ---------------------------------------------------------------------------

  function DemoTree(id: string, version: string, canonical: Byte): Tree {
    [File(MANIFEST_PARTS, [], Some(Manifest(id, version, Some(true), [canonical])))]
  }

  const ONE := DemoTree("demo", "1", 1)
  const TWO := DemoTree("demo", "2", 2)

  function DemoPack(env: Env, version: string): PackState {
    PackState(map["1" := Record(Sha(env, ONE), "demo"), "2" := Record(Sha(env, TWO), "demo")], Some(version),
              Some("demo"))
  }

  /** Both versions of pack `demo` are in the store, under whatever hash, and version 1 is active. */
  function DemoDisk(env: Env): Disk {
    Disk(map["demo" := ONE], map[], map[], map[KeyOf(env, "demo", "1") := ONE, KeyOf(env, "demo", "2") := TWO],
         map["demo" := DemoPack(env, "1")], None)
  }

  function DemoSwitch(env: Env): Activation {
    Activation(7, "demo", TWO, map["demo" := DemoPack(env, "2")], [], EMPTY_SWAP)
  }

  /** Switching it to version 2. */
  function Switch(fault: Fault): Event {
    RollBack("demo", "2", Request(true, 7, [], EMPTY_SWAP), true, fault)
  }

  lemma DemoTreeIs(id: string, version: string, canonical: Byte)
    ensures var t := DemoTree(id, version, canonical);
            Clean(t) && CopyTree(t) == t && ManifestOf(t) == Some(Manifest(id, version, Some(true), [canonical]))
  {
    var t := DemoTree(id, version, canonical);
    var name := "manifest.json";
    assert name[|name| - 4..] == "json";
    assert t[0].parts == [name];
    assert Copied(t[0]);
    CopyOfClean(t);
  }

  lemma DemoHolders(t: Tree, id: string)
    requires Holds(t, id)
    ensures Holders(map["demo" := t], id) == {"demo"}
  {
    assert Visible("demo");
  }

  lemma DemoIsGood(env: Env)
    ensures Consistent(env, DemoDisk(env)) && Good(env, DemoDisk(env))
  {
    hide Sha, CopyTree, Clean;
    DemoTreeIs("demo", "1", 1);
    DemoTreeIs("demo", "2", 2);
    DemoHolders(ONE, "demo");
    assert forall k | k in DemoDisk(env).store :: DemoDisk(env).store[k] == ONE || DemoDisk(env).store[k] == TWO;
    var pack := DemoPack(env, "1");
    assert forall v | v in pack.versions :: v == "1" || v == "2";
    assert PackStored(env, DemoDisk(env), "demo", pack);
    assert PackOk(env, DemoDisk(env).active, "demo", pack);
    GoodWithoutJournal(env, DemoDisk(env));
  }

  lemma SwitchIs(env: Env, fault: Fault)
    ensures PlanOf(env, DemoDisk(env), Switch(fault)) == Planned([], "demo", "2", DemoSwitch(env))
  {
    hide Sha, CopyTree, Clean, ManifestOf, Apply;
    DemoTreeIs("demo", "1", 1);
    DemoTreeIs("demo", "2", 2);
    DemoHolders(ONE, "demo");
    assert SafeVersion("2");
    assert Exec(DemoDisk(env), []) == DemoDisk(env);
    var pack := DemoPack(env, "1");
    assert PlanReplace(env, DemoDisk(env), "demo", "demo") == Ok(Archived([], pack));
    assert NowActive(pack, "2", "demo") == DemoPack(env, "2");
    assert DemoDisk(env).state["demo" := DemoPack(env, "2")] == map["demo" := DemoPack(env, "2")];
  }

  /** Dying in the switch leaves the disk after its first effects. */
  lemma SwitchDies(env: Env, k: nat)
    requires k <= ALL_STEPS
    ensures Happens(env, DemoDisk(env), Switch(Dies(k))) == After(DemoDisk(env), DemoSwitch(env), k)
  {
    hide PlanOf, LoaderAccepts, Apply, Steps, Recovered, Exec, After;
    SwitchIs(env, Dies(k));
    SwitchIsAccepted(env);
    ExecNone(DemoDisk(env), []);
    ExecIsAfter(DemoDisk(env), DemoSwitch(env), k);
    RecoveredNothing(DemoDisk(env), EMPTY_SWAP);
    assert Exec(DemoDisk(env), [][..0]) == Exec(DemoDisk(env), []);
  }

  lemma SwitchIsAccepted(env: Env)
    ensures LoaderAccepts(DemoDisk(env).active["demo" := TWO], "demo", "2")
  {
    hide CopyTree, Sha, ManifestOf;
    DemoTreeIs("demo", "2", 2);
    DemoHolders(TWO, "demo");
    assert DemoDisk(env).active["demo" := TWO] == map["demo" := TWO];
    assert "demo" in Holders(map["demo" := TWO], "demo");
  }

  lemma RunTwo(env: Env, d: Disk, e: Event, f: Event)
    ensures Run(env, d, [e, f]) == Happens(env, Happens(env, d, e), f)
  {
    hide Happens;
    assert [e, f][1..] == [f] && [f][1..] == [];
    var d1 := Happens(env, d, e);
    assert Run(env, Happens(env, d1, f), [f][1..]) == Happens(env, d1, f);
    assert Run(env, d1, [f]) == Happens(env, d1, f);
  }

  /** A recovery that is not cut short. */
  lemma RecoveryCompletes(env: Env, d: Disk, n: nat)
    requires !RecoveryBlocked(d) && n >= |RecoverSteps(d, EMPTY_SWAP)|
    ensures Happens(env, d, RecoveryDies(n, EMPTY_SWAP)) == Recovered(d, EMPTY_SWAP)
  {
    var es := RecoverSteps(d, EMPTY_SWAP);
    assert es[..|es|] == es;
  }

  // ----- The two windows ------------------------------------------------------------------------------------

  /** Dying right after the first rename: the journal still says `prepared`, so the recovery deletes the only copy of
      the active directory. */
  lemma SwitchLosesDirectory(env: Env)
    ensures var d := Run(env, DemoDisk(env), [Switch(Dies(6)), RecoveryDies(4, EMPTY_SWAP)]);
            d.active == map[] && d.state == DemoDisk(env).state && d.journal.None? && !Good(env, d)
  {
    hide Happens, Run, Exec, Apply, Recovered;
    SwitchDies(env, 6);
    RunTwo(env, DemoDisk(env), Switch(Dies(6)), RecoveryDies(4, EMPTY_SWAP));
    RecoveryCompletes(env, After(DemoDisk(env), DemoSwitch(env), 6), 4);
    CrashJournalled(DemoDisk(env), DemoSwitch(env), 6, EMPTY_SWAP);
    var d := Recovered(After(DemoDisk(env), DemoSwitch(env), 6), EMPTY_SWAP);
    assert d.active == map[];
    NothingActive(env, d);
  }

  lemma NothingActive(env: Env, d: Disk)
    requires d.active == map[] && d.state == map["demo" := DemoPack(env, "1")] && d.journal.None?
    ensures !Good(env, d)
  {
    hide Consistent;
    GoodWithoutJournal(env, d);
    NowhereIsInconsistent(env, d);
  }

  lemma NowhereIsInconsistent(env: Env, d: Disk)
    requires d.active == map[] && d.state == map["demo" := DemoPack(env, "1")]
    ensures !Consistent(env, d)
  {
    assert "demo" in d.state;
    assert Holders(d.active, "demo") == {};
    assert "demo" in {"demo"};
    assert !PackOk(env, d.active, "demo", d.state["demo"]);
  }

  /** Dying right after the state write: the recovery puts version 1 back under a state that names version 2. */
  lemma SwitchForgetsDirectory(env: Env)
    ensures var d := Run(env, DemoDisk(env), [Switch(Dies(10)), RecoveryDies(6, EMPTY_SWAP)]);
            && d.active == map["demo" := ONE] && d.journal.None?
            && d.state == map["demo" := DemoPack(env, "2")] && !Good(env, d)
  {
    hide Happens, Run, Exec, Apply, Recovered;
    SwitchDies(env, 10);
    RunTwo(env, DemoDisk(env), Switch(Dies(10)), RecoveryDies(6, EMPTY_SWAP));
    RecoverSix(DemoDisk(env), DemoSwitch(env), 10, EMPTY_SWAP);
    CrashAfterStateWrite(DemoDisk(env), DemoSwitch(env), 10, EMPTY_SWAP);
    RecoveryCompletes(env, After(DemoDisk(env), DemoSwitch(env), 10), 6);
    var d := Recovered(After(DemoDisk(env), DemoSwitch(env), 10), EMPTY_SWAP);
    assert d == DemoDisk(env).(state := map["demo" := DemoPack(env, "2")]);
    OldUnderTwo(env, d);
  }

  lemma OldUnderTwo(env: Env, d: Disk)
    requires d == DemoDisk(env).(state := map["demo" := DemoPack(env, "2")])
    ensures !Good(env, d)
  {
    hide StoreOk, Sha, CopyTree, Clean;
    GoodWithoutJournal(env, d);
    DemoTreeIs("demo", "1", 1);
    assert "demo" in d.state;
    assert ManifestOf(d.active["demo"]).value.version == "1";
    assert !PackOk(env, d.active, "demo", d.state["demo"]);
  }

  /** One death the protocol covers is repaired; a second one, inside that repair, loses the directory. */
  lemma SecondDeathLosesDirectory(env: Env)
    ensures Run(env, DemoDisk(env), [Switch(Dies(7)), RecoveryDies(6, EMPTY_SWAP)]) == DemoDisk(env)
    ensures var d := Run(env, DemoDisk(env),
                         [Switch(Dies(7)), RecoveryDies(2, EMPTY_SWAP), RecoveryDies(6, EMPTY_SWAP)]);
            d.active == map[] && d.state == DemoDisk(env).state && d.journal.None? && !Good(env, d)
  {
    hide Happens, Run, Exec, Apply, Recovered;
    var m := After(DemoDisk(env), DemoSwitch(env), 7);
    SwitchDies(env, 7);
    RunTwo(env, DemoDisk(env), Switch(Dies(7)), RecoveryDies(6, EMPTY_SWAP));
    RecoverSix(DemoDisk(env), DemoSwitch(env), 7, EMPTY_SWAP);
    CrashJournalled(DemoDisk(env), DemoSwitch(env), 7, EMPTY_SWAP);
    RecoveryCompletes(env, m, 6);
    RunThree(env, DemoDisk(env), Switch(Dies(7)), RecoveryDies(2, EMPTY_SWAP), RecoveryDies(6, EMPTY_SWAP));
    var p := Happens(env, m, RecoveryDies(2, EMPTY_SWAP));
    MovedBack(env, p);
    RecoveryCompletes(env, p, 6);
    RecoveredIs(p, EMPTY_SWAP);
    NothingActive(env, Recovered(p, EMPTY_SWAP));
  }

  lemma RunThree(env: Env, d: Disk, e: Event, f: Event, g: Event)
    ensures Run(env, d, [e, f, g]) == Happens(env, Happens(env, Happens(env, d, e), f), g)
  {
    hide Happens;
    assert [e, f, g][1..] == [f, g];
    RunTwo(env, Happens(env, d, e), f, g);
  }

  /** Version 1 is back, and the journal still says that it has to be moved back. */
  lemma MovedBack(env: Env, p: Disk)
    requires p == Happens(env, After(DemoDisk(env), DemoSwitch(env), 7), RecoveryDies(2, EMPTY_SWAP))
    ensures !RecoveryBlocked(p) && p.journal.Some? && |RecoverSteps(p, EMPTY_SWAP)| == 6
    ensures RecoveredActive(p) == map[] && p.state == DemoDisk(env).state
  {
    var m := After(DemoDisk(env), DemoSwitch(env), 7);
    RecoverSix(DemoDisk(env), DemoSwitch(env), 7, EMPTY_SWAP);
    assert RecoverSteps(m, EMPTY_SWAP)[..2] == [ActiveToAbandoned("demo", 7), PreviousToActive("demo", 7)];
    ExecTwo(m, ActiveToAbandoned("demo", 7), PreviousToActive("demo", 7));
    assert Apply(m, ActiveToAbandoned("demo", 7)) == m;
    assert p.swaps[7].abandoned.None? && p.swaps[7].previous.None?;
    assert p.active - {"demo"} == map[];
  }

  // ----- The checks that are missing ------------------------------------------------------------------------

  const OTHER := DemoTree("other", "1", 3)

  /** A new pack whose package directory has the name of the first one's. */
  const INTRUDER := Install(OTHER, None, [], "demo", Request(true, 7, [], EMPTY_SWAP), true, Completes)

  lemma IntruderIs(env: Env)
    requires env.packKey("other") != env.packKey("demo")
    ensures var plan := PlanOf(env, DemoDisk(env), INTRUDER);
            && plan.Planned? && plan.packId == "other" && plan.version == "1"
            && plan.act.dir == "demo" && plan.act.tree == OTHER
  {
    hide Sha, CopyTree, Clean, ManifestOf;
    DemoTreeIs("demo", "1", 1);
    DemoTreeIs("other", "1", 3);
    assert Holders(DemoDisk(env).active, "other") == {};
    assert SafeVersion("1");
    var key := KeyOf(env, "other", "1");
    assert key !in DemoDisk(env).store;
    assert Exec(DemoDisk(env), []) == DemoDisk(env);
    assert StorePut(env, DemoDisk(env), "other", "1", OTHER, Sha(env, OTHER)) == Ok([PutVersion(key, OTHER)]);
    ExecOne(DemoDisk(env), PutVersion(key, OTHER));
    assert [] + [PutVersion(key, OTHER)] == [PutVersion(key, OTHER)];
  }

  /** It is installed over the first pack's directory, which then has two owners and holds none of the first pack. The
      two ids must not share a folder of the version store. */
  lemma IntruderTakesDirectory(env: Env)
    requires env.packKey("other") != env.packKey("demo")
    ensures Good(env, DemoDisk(env))
    ensures var d := Happens(env, DemoDisk(env), INTRUDER);
            && !Good(env, d)
            && "demo" in d.state && "other" in d.state
            && d.state["demo"].activeDir == d.state["other"].activeDir == Some("demo")
            && Holders(d.active, "demo") == {}
  {
    hide Exec, Apply, PlanOf, PlanSound, ManifestOf, Recovered, Good, StoreOk, Consistent;
    DemoIsGood(env);
    var plan := PlanOf(env, DemoDisk(env), INTRUDER);
    IntruderIs(env);
    ConsistentIsStored(env, DemoDisk(env));
    PlanOfSound(env, DemoDisk(env), INTRUDER);
    RecoveredNothing(DemoDisk(env), EMPTY_SWAP);
    DemoTreeIs("other", "1", 3);
    DemoHolders(OTHER, "other");
    assert DemoDisk(env).active["demo" := OTHER] == map["demo" := OTHER];
    assert "demo" in Holders(map["demo" := OTHER], "other");
    assert LoaderAccepts(DemoDisk(env).active["demo" := OTHER], "other", "1");
    IntruderIsNotOwner(env, plan);
    PlanEndsGood(env, DemoDisk(env), INTRUDER);
    IntruderEnds(env, plan);
  }

  lemma IntruderIsNotOwner(env: Env, plan: Plan)
    requires plan.Planned? && plan.packId == "other" && plan.act.dir == "demo"
    ensures !Owned(DemoDisk(env), plan)
  {
    assert "demo" in DemoDisk(env).state;
  }

  lemma IntruderEnds(env: Env, plan: Plan)
    requires plan.Planned? && plan.packId == "other" && plan.act.dir == "demo" && plan.act.tree == OTHER
    requires PlanSound(env, DemoDisk(env), plan)
    ensures var d := ActivationEnds(Exec(DemoDisk(env), plan.puts), plan.act, Completes);
            && "demo" in d.state && "other" in d.state
            && d.state["demo"].activeDir == d.state["other"].activeDir == Some("demo")
            && Holders(d.active, "demo") == {}
  {
    hide Exec, Apply, StoreOk, StoreExtends, ManifestOf, PackStored;
    var d1 := Exec(DemoDisk(env), plan.puts);
    ActivationEndsIs(d1, plan.act, Completes);
    DemoTreeIs("other", "1", 3);
    assert "demo" in DemoDisk(env).state;
    assert d1.active["demo" := OTHER] == map["demo" := OTHER];
  }

  /** Version 1 uploaded again, to be switched off. */
  const REINSTALL := Install(ONE, Some(false), [], "demo", Request(true, 7, [], EMPTY_SWAP), true, Completes)

  lemma ReinstallIs(env: Env)
    ensures var plan := PlanOf(env, DemoDisk(env), REINSTALL);
            && plan.Planned? && plan.packId == "demo" && plan.version == "1"
            && plan.act.dir == "demo" && plan.act.tree == ONE
            && "demo" in plan.act.newState && plan.act.newState["demo"].activeVersion == Some("1")
  {
    hide Sha, CopyTree, Clean, ManifestOf, PlanInstall;
    DemoIsGood(env);
    ConsistentIsStored(env, DemoDisk(env));
    DemoTreeIs("demo", "1", 1);
    DemoHolders(ONE, "demo");
    assert forall x | x in DemoDisk(env).active :: x == "demo";
    InstallIs(env, DemoDisk(env), ONE, Some(false), [], "demo", REINSTALL.req);
  }

  function FlagOf(t: Tree): Option<bool> {
    if ManifestOf(t).Some? then ManifestOf(t).value.enabled else None
  }

  /** The upload is accepted and version 1 stays on: the content already stored under a version counts, with the flag
      it was stored with. */
  lemma FlagAskedForIsLost(env: Env)
    ensures FlagOf(Staged(ONE, Some(false), [])) == Some(false)
    ensures var d := Happens(env, DemoDisk(env), REINSTALL);
            && d.active == map["demo" := ONE] && FlagOf(ONE) == Some(true)
            && PackOf(d.state, "demo").activeVersion == Some("1")
  {
    hide Exec, Apply, PlanOf, PlanSound, ManifestOf, Recovered, StoreOk, PlanEnds, Staged, Sha, Passes, CopyTree, Clean;
    var plan := PlanOf(env, DemoDisk(env), REINSTALL);
    DemoTreeIs("demo", "1", 1);
    StagedIs(env, ONE, Some(false), []);
    DemoIsGood(env);
    ConsistentIsStored(env, DemoDisk(env));
    ReinstallIs(env);
    ReinstallPasses(env, plan);
    RecoveredNothing(DemoDisk(env), EMPTY_SWAP);
    PlanOfSound(env, DemoDisk(env), REINSTALL);
    PlanDelivers(env, DemoDisk(env), plan, true);
    assert DemoDisk(env).active["demo" := ONE] == map["demo" := ONE];
  }

  lemma ReinstallPasses(env: Env, plan: Plan)
    requires plan.Planned? && plan.packId == "demo" && plan.version == "1"
             && plan.act.dir == "demo" && plan.act.tree == ONE
    ensures Passes(DemoDisk(env), plan, true)
  {
    hide CopyTree, ManifestOf;
    DemoTreeIs("demo", "1", 1);
    DemoHolders(ONE, "demo");
    assert DemoDisk(env).active["demo" := ONE] == map["demo" := ONE];
    assert "demo" in Holders(map["demo" := ONE], "demo");
  }

  /** A compiled file of the optimizing interpreter: hashed, and dropped by every copy. */
  const COMPILED: Tree := [File(["a.pyo"], [1], None)]

  lemma CompiledFileIsDropped(h: Hashing)
    ensures CopyTree(COMPILED) == [] && Framed(h, COMPILED) != Framed(h, CopyTree(COMPILED))
  {
    var f := COMPILED[0];
    assert f.parts == ["a.pyo"];
    var name := "a.pyo";
    assert name[|name| - 4..] == ".pyo";
    assert Ignored(f.parts[0]) && !Copied(f);
    assert name[|name| - 4..][3] == 'o';
    assert Hashed(f);
    assert f in COMPILED;
    assert CopyTree(COMPILED) == [] + CopyTree(COMPILED[1..]);
    CopyPreservesFraming(h, COMPILED);
  }
}
