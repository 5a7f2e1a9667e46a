/**
 Runs: arbitrary sequences of installs, rollbacks, enable toggles and interrupted recoveries, each of which
 may complete, raise or die at any effect. The version store survives every run without exception.
 */
module NodePackRuns {
  import opened Common
  import opened PackageTree
  import opened NodePackDisk
  import opened NodePackActivation
  import opened NodePackCrashes
  import opened NodePackPlans

  /** How one operation ends. Positions count the effects executed before the event, the store effects
      included; `RaisesThenDies` dies again after `c` effects of the compensation. */
  datatype Fault = Completes | Raises(at: nat) | Dies(at: nat) | RaisesThenDies(at: nat, c: nat)

  /** What `set_enabled` does to the manifest. Refused: the loader refused or could not write, and the manager writes
      the manifest back. Kept: written. TakenBack: written, and written back because the callback failed or the
      loader could not put the old text back. ReloadFailed: written, put back by the loader whose reload failed, and
      written back. */
  datatype FlagOutcome = Refused | Kept | TakenBack | ReloadFailed

  datatype Event =
    | Install(source: Tree, enabled: Option<bool>, raw: Bytes, dir: string, req: Request, loads: bool, fault: Fault)
    | RollBack(packId: string, version: string, req: Request, loads: bool, fault: Fault)
    | SetEnabled(packId: string, flag: bool, text: Bytes, restored: Bytes, outcome: FlagOutcome, written: nat)
    | RecoveryDies(after: nat, leftover: Swap)

  // ----- One operation ------------------------------------------------------------------------------

  /** The loader's check after the switch: exactly one visible directory carries the id, in this version. */
  predicate LoaderAccepts(active: map<string, Tree>, packId: string, version: string) {
    exists d | d in Holders(active, packId) ::
      Holders(active, packId) == {d} && ManifestOf(active[d]).value.version == version
  }

  /** Where the operation stops: a raise before the state write when the loader or the caller's callback
      rejects the switched directory. */
  function Stop(d: Disk, plan: Plan, loads: bool, fault: Fault): Fault
    requires plan.Planned?
  {
    var accepted := loads && LoaderAccepts(d.active[plan.act.dir := plan.act.tree], plan.packId, plan.version);
    var checkAt := |plan.puts| + UNCOMMITTED;
    if !accepted && (fault.Completes? || fault.at > checkAt) then Raises(checkAt) else fault
  }

  /** The disk when the activation part stops with `stop`, whose position now counts from its first effect. */
  function ActivationEnds(d: Disk, act: Activation, stop: Fault): Disk {
    match stop
    case Completes => Exec(d, Steps(d, act))
    case Dies(k) => if k <= ALL_STEPS then Exec(d, Steps(d, act)[..k]) else Exec(d, Steps(d, act))
    case Raises(k) =>
      if k > ALL_STEPS then Exec(d, Steps(d, act))
      else
        var m := Exec(d, Steps(d, act)[..k]);
        if GUARDED <= k <= UNCOMMITTED then Exec(m, CompensateSteps(m, act, act.dir in d.active)) else m
    case RaisesThenDies(k, c) =>
      if k > ALL_STEPS then Exec(d, Steps(d, act))
      else
        var m := Exec(d, Steps(d, act)[..k]);
        var es := CompensateSteps(m, act, act.dir in d.active);
        if GUARDED <= k <= UNCOMMITTED then Exec(m, if c <= |es| then es[..c] else es) else m
  }

  function Shift(f: Fault, n: nat): Fault
    requires !f.Completes? ==> f.at >= n
  {
    match f
    case Completes => Completes
    case Raises(k) => Raises(k - n)
    case Dies(k) => Dies(k - n)
    case RaisesThenDies(k, c) => RaisesThenDies(k - n, c)
  }

  /** A plan carried out on disk `d` with one fault. */
  function PlanEnds(d: Disk, plan: Plan, loads: bool, fault: Fault): Disk {
    if !fault.Completes? && fault.at < |plan.puts| then Exec(d, plan.puts[..fault.at])
    else if plan.Rejected? then Exec(d, plan.puts)
    else ActivationEnds(Exec(d, plan.puts), plan.act, Shift(Stop(d, plan, loads, fault), |plan.puts|))
  }

  function FlagSteps(d: Disk, e: Event): seq<Effect>
    requires e.SetEnabled?
  {
    var holders := Holders(d.active, e.packId);
    if exists x :: x in holders && holders == {x} then
      var x :| x in holders && holders == {x};
      var undo := WriteFlag(x, ManifestOf(d.active[x]).value.enabled, e.restored);
      var set' := WriteFlag(x, Some(e.flag), e.text);
      var back := WriteFlag(x, ManifestOf(d.active[x]).value.enabled, ManifestText(d.active[x]));
      match e.outcome
      case Refused => [undo]
      case Kept => [set']
      case TakenBack => [set', undo]
      case ReloadFailed => [set', back, undo]
    else []
  }

  /** What the loader puts back after a failed reload is the manifest before, byte for byte. */
  lemma LoaderPutsBack(d: Disk, dir: string, enabled: Option<bool>, raw: Bytes)
    requires dir in d.active && ManifestOf(d.active[dir]).Some?
    ensures var back := WriteFlag(dir, ManifestOf(d.active[dir]).value.enabled, ManifestText(d.active[dir]));
            Apply(Apply(d, WriteFlag(dir, enabled, raw)), back) == d
  {
    WithEnabledBack(d.active[dir], enabled, raw);
    assert d.active[dir := WithEnabled(d.active[dir], enabled, raw)][dir := d.active[dir]] == d.active;
  }

  function PlanOf(env: Env, d: Disk, e: Event): Plan
    requires e.Install? || e.RollBack?
  {
    match e
    case Install(source, enabled, raw, dir, req, _, _) => PlanInstall(env, d, source, enabled, raw, dir, req)
    case RollBack(packId, version, req, _, _) => PlanRollback(env, d, packId, version, req)
  }

  /** One event: recovery first, then the operation. A blocked recovery raises and nothing else happens. */
  function Happens(env: Env, d: Disk, e: Event): Disk {
    if RecoveryBlocked(d) then d
    else if e.RecoveryDies? then
      var es := RecoverSteps(d, e.leftover);
      Exec(d, if e.after <= |es| then es[..e.after] else es)
    else
      var d0 := Recovered(d, EMPTY_SWAP);
      if e.SetEnabled? then
        var es := FlagSteps(d0, e);
        Exec(d0, if e.written <= |es| then es[..e.written] else es)
      else PlanEnds(d0, PlanOf(env, d0, e), e.loads, e.fault)
  }

  function Run(env: Env, d: Disk, es: seq<Event>): Disk
    decreases |es|
  {
    if es == [] then d else Run(env, Happens(env, d, es[0]), es[1..])
  }

  // ----- The version store, under every run -----------------------------------------------------------

  predicate Bystander(e: Effect) {
    !e.PutVersion? && !e.WriteState?
  }

  lemma {:induction false} BystandersKeepStore(d: Disk, es: seq<Effect>)
    requires forall e | e in es :: Bystander(e)
    ensures Exec(d, es).store == d.store && Exec(d, es).state == d.state
  {
    if es != [] {
      BystandersKeepStore(d, es[..|es| - 1]);
      var m := Exec(d, es[..|es| - 1]);
      assert Bystander(es[|es| - 1]);
      BystanderKeepsStore(m, es[|es| - 1]);
    }
  }

  lemma BystanderKeepsStore(d: Disk, e: Effect)
    requires Bystander(e)
    ensures Apply(d, e).store == d.store && Apply(d, e).state == d.state
  {
  }

  lemma StoreOkTransfers(env: Env, d: Disk, later: Disk)
    requires StoreOk(env, d) && later.store == d.store && later.state == d.state
    ensures StoreOk(env, later)
  {
    forall p | p in later.state ensures PackStored(env, later, p, later.state[p]) {
      assert PackStored(env, d, p, d.state[p]);
      PackStoredLater(env, d, later, p, later.state[p]);
    }
  }

  lemma StoreOkNewState(env: Env, d: Disk, later: Disk, packId: string)
    requires StoreOk(env, d) && later.store == d.store && packId in later.state
    requires later.state == d.state[packId := later.state[packId]]
    requires PackStored(env, d, packId, later.state[packId])
    ensures StoreOk(env, later)
  {
    forall p | p in later.state ensures PackStored(env, later, p, later.state[p]) {
      if p != packId {
        assert PackStored(env, d, p, d.state[p]);
      }
      PackStoredLater(env, d, later, p, later.state[p]);
    }
  }

  /** The first `n` puts of a plan leave a store between the one before and the one after. */
  lemma PutsPrefix(env: Env, d: Disk, plan: Plan, n: nat)
    requires StoreOk(env, d) && n <= |plan.puts| <= 2 && forall e | e in plan.puts :: e.PutVersion?
    requires PutsFresh(d, plan.puts)
    ensures var p := Exec(d, plan.puts[..n]);
            OnlyStored(d, p) && StoreOk(env, p) && StoreExtends(d, p)
  {
    if n > 0 {
      PutsPrefix(env, d, plan, n - 1);
      ExecStep(d, plan.puts, n - 1);
      var e := plan.puts[n - 1];
      assert e.PutVersion?;
      assert e.key !in Exec(d, plan.puts[..n - 1]).store && Clean(e.tree) by {
        assert plan.puts[..0] == [] && plan.puts[..1] == [plan.puts[0]];
        ExecOne(d, plan.puts[0]);
      }
      PutKeepsStore(env, Exec(d, plan.puts[..n - 1]), e);
    }
  }

  lemma PutKeepsStore(env: Env, p: Disk, e: Effect)
    requires StoreOk(env, p) && e.PutVersion? && e.key !in p.store && Clean(e.tree)
    ensures var q := Apply(p, e);
            OnlyStored(p, q) && StoreOk(env, q) && StoreExtends(p, q)
  {
    var q := Apply(p, e);
    forall x | x in q.state ensures PackStored(env, q, x, q.state[x]) {
      PackStoredLater(env, p, q, x, q.state[x]);
    }
  }

  /** Each put goes to a key not yet stored and holds a clean copy. */
  predicate PutsFresh(d: Disk, puts: seq<Effect>) {
    (|puts| >= 1 && puts[0].PutVersion? ==> puts[0].key !in d.store && Clean(puts[0].tree))
    && (|puts| >= 2 && puts[0].PutVersion? && puts[1].PutVersion? ==>
          puts[1].key !in d.store && puts[1].key != puts[0].key && Clean(puts[1].tree))
  }

  predicate PutsOk(d: Disk, puts: seq<Effect>) {
    |puts| <= 2 && (forall e | e in puts :: e.PutVersion?) && PutsFresh(d, puts)
  }

  lemma PlanPutsOk(env: Env, d: Disk, e: Event)
    requires e.Install? || e.RollBack?
    ensures PutsOk(d, PlanOf(env, d, e).puts)
  {
    match e
    case Install(source, enabled, raw, dir, req, _, _) => InstallPutsOk(env, d, source, enabled, raw, dir, req);
    case RollBack(packId, version, req, _, _) => RollbackPutsOk(env, d, packId, version, req);
  }

  lemma RollbackPutsOk(env: Env, d: Disk, packId: string, version: string, req: Request)
    ensures PutsOk(d, PlanRollback(env, d, packId, version, req).puts)
  {
    var pack := PackOf(d.state, packId);
    if version in pack.versions {
      PlanReplacePuts(env, d, packId, pack.versions[version].dir);
    }
  }

  lemma InstallPutsOk(env: Env, d: Disk, source: Tree, enabled: Option<bool>, raw: Bytes, dir: string, req: Request)
    ensures PutsOk(d, PlanInstall(env, d, source, enabled, raw, dir, req).puts)
  {
    hide Exec, StorePut, PlanReplace;
    var staged := Staged(source, enabled, raw);
    if ManifestOf(staged).Some? && PlanReplace(env, d, ManifestOf(staged).value.packId, dir).Ok? {
      var m := ManifestOf(staged).value;
      var first := PlanReplace(env, d, m.packId, dir).value.puts;
      PlanReplacePuts(env, d, m.packId, dir);
      var d1 := Exec(d, first);
      if StorePut(env, d1, m.packId, m.version, staged, Sha(env, staged)).Ok? {
        StorePutFresh(env, d1, m.packId, m.version, staged, Sha(env, staged));
        PutsJoin(d, first, StorePut(env, d1, m.packId, m.version, staged, Sha(env, staged)).value);
      }
    }
  }

  lemma PutsJoin(d: Disk, a: seq<Effect>, b: seq<Effect>)
    requires PutsOk(d, a) && |a| <= 1 && PutsOk(Exec(d, a), b) && |b| <= 1
    ensures PutsOk(d, a + b)
  {
    if a != [] {
      ExecOne(d, a[0]);
      assert a == [a[0]];
    } else {
      assert a + b == b;
    }
  }

  lemma StorePutFresh(env: Env, d: Disk, packId: string, version: string, t: Tree, sha: string)
    ensures var r := StorePut(env, d, packId, version, t, sha);
            r.Ok? ==> |r.value| <= 1 && PutsOk(d, r.value)
  {
    CopyIsClean(t);
  }

  lemma PlanReplacePuts(env: Env, d: Disk, packId: string, dir: string)
    ensures var r := PlanReplace(env, d, packId, dir);
            r.Ok? ==> |r.value.puts| <= 1 && PutsOk(d, r.value.puts)
  {
    var holders := Holders(d.active, packId);
    if holders == {dir} {
      assert dir in holders;
      StorePutFresh(env, d, packId, ManifestOf(d.active[dir]).value.version, d.active[dir], Sha(env, d.active[dir]));
    }
  }

  lemma PlanOfSound(env: Env, d: Disk, e: Event)
    requires StoreOk(env, d) && (e.Install? || e.RollBack?)
    ensures PlanSound(env, d, PlanOf(env, d, e))
  {
    match e
    case Install(source, enabled, raw, dir, req, _, _) => PlanInstallSound(env, d, source, enabled, raw, dir, req);
    case RollBack(packId, version, req, _, _) => PlanRollbackSound(env, d, packId, version, req);
  }

  /** Where an activation stops when nothing dies twice: back at the start after a compensated raise, else
      after its first effects. */
  lemma ActivationEndsIs(d: Disk, act: Activation, stop: Fault)
    requires Fresh(d, act) && !stop.RaisesThenDies?
    ensures ActivationEnds(d, act, stop) ==
            if stop.Raises? && GUARDED <= stop.at <= UNCOMMITTED then d
            else After(d, act, if stop.Completes? || stop.at > ALL_STEPS then ALL_STEPS else stop.at)
  {
    var k := if stop.Completes? || stop.at > ALL_STEPS then ALL_STEPS else stop.at;
    assert Steps(d, act)[..ALL_STEPS] == Steps(d, act);
    ExecIsAfter(d, act, k);
    if stop.Raises? && GUARDED <= k <= UNCOMMITTED {
      CompensationRestores(d, act, k);
    }
  }

  /** Wherever an activation stops, the store is untouched and the state is the old or the new one. */
  lemma ActivationEndsStore(d: Disk, act: Activation, stop: Fault)
    requires Fresh(d, act)
    ensures var r := ActivationEnds(d, act, stop);
            r.store == d.store && (r.state == d.state || r.state == act.newState)
  {
    if stop.RaisesThenDies? && stop.at <= ALL_STEPS {
      ExecIsAfter(d, act, stop.at);
      CompensatingKeepsStore(After(d, act, stop.at), act, act.dir in d.active, stop.c);
    } else {
      ActivationEndsIs(d, act, if stop.RaisesThenDies? then Completes else stop);
    }
  }

  lemma CompensatingKeepsStore(m: Disk, act: Activation, had: bool, c: nat)
    ensures var es := CompensateSteps(m, act, had);
            var p := Exec(m, if c <= |es| then es[..c] else es);
            p.store == m.store && p.state == m.state
  {
    var es := CompensateSteps(m, act, had);
    BystandersKeepStore(m, if c <= |es| then es[..c] else es);
  }

  lemma RecoveredStore(d: Disk, leftover: Swap)
    ensures Recovered(d, leftover).store == d.store && Recovered(d, leftover).state == d.state
  {
    BystandersKeepStore(d, RecoverSteps(d, leftover));
  }

  /** One event of any kind, with any fault, keeps the store invariant and everything stored. */
  lemma EventKeepsStore(env: Env, d: Disk, e: Event)
    requires StoreOk(env, d)
    ensures StoreOk(env, Happens(env, d, e)) && StoreExtends(d, Happens(env, d, e))
  {
    hide Exec, Recovered, RecoveryBlocked, StoreOk, PlanOf, PlanEnds;
    var r := Happens(env, d, e);
    if RecoveryBlocked(d) {
    } else if e.RecoveryDies? {
      var es := RecoverSteps(d, e.leftover);
      BystandersKeepStore(d, if e.after <= |es| then es[..e.after] else es);
      StoreOkTransfers(env, d, r);
    } else {
      var d0 := Recovered(d, EMPTY_SWAP);
      RecoveredStore(d, EMPTY_SWAP);
      StoreOkTransfers(env, d, d0);
      if e.SetEnabled? {
        var es := FlagSteps(d0, e);
        BystandersKeepStore(d0, if e.written <= |es| then es[..e.written] else es);
        StoreOkTransfers(env, d0, r);
      } else {
        PlanKeepsStore(env, d0, e);
      }
    }
  }

  lemma PlanKeepsStore(env: Env, d: Disk, e: Event)
    requires StoreOk(env, d) && (e.Install? || e.RollBack?)
    ensures var r := PlanEnds(d, PlanOf(env, d, e), e.loads, e.fault);
            StoreOk(env, r) && StoreExtends(d, r)
  {
    var plan := PlanOf(env, d, e);
    PlanOfSound(env, d, e);
    PlanPutsOk(env, d, e);
    if !e.fault.Completes? && e.fault.at < |plan.puts| {
      PutsPrefix(env, d, plan, e.fault.at);
    } else if plan.Planned? {
      var d1 := Exec(d, plan.puts);
      var stop := Shift(Stop(d, plan, e.loads, e.fault), |plan.puts|);
      var r := ActivationEnds(d1, plan.act, stop);
      ActivationEndsStore(d1, plan.act, stop);
      if r.state == d1.state {
        StoreOkTransfers(env, d1, r);
      } else {
        StoreOkNewState(env, d1, r, plan.packId);
      }
    }
  }

  /** The version store under every run, crashes at any effect included: every version the state names is
      stored with its recorded digest, and nothing once stored ever changes or disappears. */
  lemma {:induction false} RunKeepsStore(env: Env, d: Disk, es: seq<Event>)
    requires StoreOk(env, d)
    ensures StoreOk(env, Run(env, d, es)) && StoreExtends(d, Run(env, d, es))
    decreases |es|
  {
    if es != [] {
      EventKeepsStore(env, d, es[0]);
      RunKeepsStore(env, Happens(env, d, es[0]), es[1..]);
    }
  }

  /** No content is lost: once an operation that replaces a pack's directory has begun to activate, however
      it and everything after it ends, the replaced content is in the version store. */
  lemma ReplacedContentIsStored(env: Env, d: Disk, e: Event, later: seq<Event>)
    requires StoreOk(env, d) && !RecoveryBlocked(d) && (e.Install? || e.RollBack?)
    requires var d0 := Recovered(d, EMPTY_SWAP);
             var plan := PlanOf(env, d0, e);
             plan.Planned? && (e.fault.Completes? || e.fault.at >= |plan.puts|)
             && plan.act.dir in d0.active && Visible(plan.act.dir) && Holds(d0.active[plan.act.dir], plan.packId)
    ensures var d0 := Recovered(d, EMPTY_SWAP);
            var plan := PlanOf(env, d0, e);
            var old' := d0.active[plan.act.dir];
            var r := Run(env, Happens(env, d, e), later);
            Registered(env, r, plan.packId, ManifestOf(old').value.version, Sha(env, old'))
  {
    hide Exec, Recovered, StoreOk, PlanOf, PlanEnds, RecoveryBlocked, Sha, ManifestOf, Run;
    var d0 := Recovered(d, EMPTY_SWAP);
    RecoveredStore(d, EMPTY_SWAP);
    StoreOkTransfers(env, d, d0);
    ReplacedWhileActivating(env, d0, e);
    EventKeepsStore(env, d, e);
    RunKeepsStore(env, Happens(env, d, e), later);
  }

  lemma ReplacedWhileActivating(env: Env, d: Disk, e: Event)
    requires StoreOk(env, d) && (e.Install? || e.RollBack?)
    requires var plan := PlanOf(env, d, e);
             plan.Planned? && (e.fault.Completes? || e.fault.at >= |plan.puts|)
             && plan.act.dir in d.active && Visible(plan.act.dir) && Holds(d.active[plan.act.dir], plan.packId)
    ensures var plan := PlanOf(env, d, e);
            var old' := d.active[plan.act.dir];
            Registered(env, PlanEnds(d, plan, e.loads, e.fault), plan.packId, ManifestOf(old').value.version,
                       Sha(env, old'))
  {
    var plan := PlanOf(env, d, e);
    hide Exec, StoreOk, PlanOf, Sha, ManifestOf, ActivationEnds, LoaderAccepts, OnlyStored, PackStored;
    PlanOfSound(env, d, e);
    assert plan.act.dir in Holders(d.active, plan.packId);
    ReplacedBeforeActivation(env, d, e);
    ActivationEndsStore(Exec(d, plan.puts), plan.act, Shift(Stop(d, plan, e.loads, e.fault), |plan.puts|));
  }

  lemma ReplacedBeforeActivation(env: Env, d: Disk, e: Event)
    requires StoreOk(env, d) && (e.Install? || e.RollBack?)
    requires PlanOf(env, d, e).Planned?
    requires Holders(d.active, PlanOf(env, d, e).packId) != {} && PlanOf(env, d, e).act.dir in d.active
    requires ManifestOf(d.active[PlanOf(env, d, e).act.dir]).Some?
    ensures var plan := PlanOf(env, d, e);
            Registered(env, Exec(d, plan.puts), plan.packId,
                       ManifestOf(d.active[plan.act.dir]).value.version, Sha(env, d.active[plan.act.dir]))
  {
    hide Exec, StorePut, StoreOk, PlanReplace, Sha;
    var plan := PlanOf(env, d, e);
    PlanReplaceKeeps(env, d, plan.packId, plan.act.dir);
    if e.Install? {
      InstalledReplaces(env, d, e.source, e.enabled, e.raw, e.dir, e.req);
    }
  }

  /** The second put of an install leaves what the first one archived. */
  lemma InstalledReplaces(env: Env, d: Disk, source: Tree, enabled: Option<bool>, raw: Bytes, dir: string, req: Request)
    requires StoreOk(env, d) && PlanInstall(env, d, source, enabled, raw, dir, req).Planned?
    ensures var plan := PlanInstall(env, d, source, enabled, raw, dir, req);
            var replace := PlanReplace(env, d, plan.packId, dir);
            replace.Ok? && StoreExtends(Exec(d, replace.value.puts), Exec(d, plan.puts))
  {
    hide Exec, StorePut, PlanReplace, Staged;
    var plan := PlanInstall(env, d, source, enabled, raw, dir, req);
    var staged := Staged(source, enabled, raw);
    PlanReplaceKeeps(env, d, plan.packId, dir);
    var archived := PlanReplace(env, d, plan.packId, dir).value;
    var d1 := Exec(d, archived.puts);
    if plan.version !in archived.pack.versions {
      StorePutKeeps(env, d1, plan.packId, plan.version, staged, Sha(env, staged));
      ExecAppend(d, archived.puts, StorePut(env, d1, plan.packId, plan.version, staged, Sha(env, staged)).value);
    }
  }
}
