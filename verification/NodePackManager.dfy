/**
 The manager as it runs: every method changes the durable fields one effect at a time, and to each effect the
 environment answers that it happens, raises, or ends the process. Each operation returns the event it turned
 out to be: its disk is the one the run semantics gives that event, and a fault it reports is one the
 environment caused at just that effect.
 */
module NodePackManager {
  import opened Common
  import opened PackageTree
  import opened NodePackDisk
  import opened NodePackActivation
  import opened NodePackCrashes
  import opened NodePackPlans
  import opened NodePackRuns
  import opened NodePackConsistency

  datatype Outcome = Done | Raised | Died

  /** What the environment answers to the n-th effect attempted: every pattern of failures is some World. */
  type World = nat -> Outcome

  predicate AllDone(w: World, from: nat, n: nat) {
    forall i | from <= i < from + n :: w(i).Done?
  }

  /** A reported fault is one the environment caused at just that effect, or the loader's rejection at
      `checkAt`; everything before it happened. */
  predicate Backed(w: World, from: nat, fault: Fault, checkAt: Option<nat>) {
    match fault
    case Completes => true
    case Dies(k) => AllDone(w, from, k) && w(from + k) == Died
    case Raises(k) => AllDone(w, from, k) && (w(from + k) == Raised || checkAt == Some(k))
    case RaisesThenDies(k, c) =>
      && AllDone(w, from, k)
      && ((w(from + k) == Raised && AllDone(w, from + k + 1, c) && !w(from + k + 1 + c).Done?)
          || (checkAt == Some(k) && AllDone(w, from + k, c) && !w(from + k + c).Done?))
  }

  /** Where the loader or the caller's callback rejects the switched directory, if they do. */
  function CheckAt(d: Disk, plan: Plan, loads: bool): Option<nat> {
    if plan.Planned? && !(loads && LoaderAccepts(d.active[plan.act.dir := plan.act.tree], plan.packId, plan.version))
    then Some(|plan.puts| + UNCOMMITTED) else None
  }

  /** An interrupted recovery was blocked, or the environment stopped it at just that effect. */
  predicate RecoveryStopped(w: World, from: nat, d: Disk, after: nat) {
    RecoveryBlocked(d)
    || (after < |RecoverSteps(d, EMPTY_SWAP)| && AllDone(w, from, after) && !w(from + after).Done?)
  }

  /** What a caller is told of an operation that no effect stopped. */
  function RefusalOf(plan: Plan, fault: Fault): Option<Refusal> {
    if fault.Completes? && plan.Rejected? then Some(plan.why) else None
  }

  class LifecycleManager {
    const env: Env
    const world: World

    var clock: nat
    var active: map<string, Tree>
    var candidates: map<CandidateKey, Tree>
    var swaps: map<Tx, Swap>
    var store: map<StoreKey, Tree>
    var state: State
    var journal: Option<Journal>

    function View(): Disk
      reads this
    {
      Disk(active, candidates, swaps, store, state, journal)
    }

    constructor (env: Env, world: World, handPlaced: map<string, Tree>)
      ensures this.env == env && this.world == world && clock == 0
      ensures View() == Disk(handPlaced, map[], map[], map[], map[], None)
      ensures Good(env, View())
    {
      this.env, this.world, clock := env, world, 0;
      active, candidates, swaps, store, state, journal := handPlaced, map[], map[], map[], map[], None;
      new;
      FreshDiskIsGood(env, View());
    }

    /** One effect, if the environment lets it happen. */
    method Attempt(e: Effect) returns (o: Outcome)
      modifies this
      ensures o == world(old(clock)) && clock == old(clock) + 1
      ensures View() == if o.Done? then Apply(old(View()), e) else old(View())
    {
      hide Apply;
      o := world(clock);
      clock := clock + 1;
      if o.Done? {
        if e.ActiveToPrevious? || e.CandidateToActive? || e.ActiveToFailed? || e.ActiveToAbandoned?
          || e.PreviousToActive? {
          Rename(e);
        } else {
          Write(e);
        }
      }
    }

    /** The renames of directories. */
    method Rename(e: Effect)
      requires e.ActiveToPrevious? || e.CandidateToActive? || e.ActiveToFailed? || e.ActiveToAbandoned?
               || e.PreviousToActive?
      modifies this
      ensures clock == old(clock) && View() == Apply(old(View()), e)
    {
      match e
      case CandidateToActive(dir, tx) =>
        if CandidateKey(dir, tx) in candidates {
          active := active[dir := candidates[CandidateKey(dir, tx)]];
          candidates := candidates - {CandidateKey(dir, tx)};
        }
      case PreviousToActive(dir, tx) =>
        if tx in swaps && swaps[tx].previous.Some? {
          active := active[dir := swaps[tx].previous.value];
          swaps := swaps[tx := swaps[tx].(previous := None)];
        }
      case ActiveToPrevious(dir, tx) =>
        if dir in active && tx in swaps {
          swaps := swaps[tx := swaps[tx].(previous := Some(active[dir]))];
          active := active - {dir};
        }
      case ActiveToFailed(dir, tx) =>
        if dir in active && tx in swaps {
          swaps := swaps[tx := swaps[tx].(failed := Some(active[dir]))];
          active := active - {dir};
        }
      case ActiveToAbandoned(dir, tx) =>
        if dir in active && tx in swaps {
          swaps := swaps[tx := swaps[tx].(abandoned := Some(active[dir]))];
          active := active - {dir};
        }
    }

    /** The atomic writes and the deletions. */
    method Write(e: Effect)
      requires !(e.ActiveToPrevious? || e.CandidateToActive? || e.ActiveToFailed? || e.ActiveToAbandoned?
                 || e.PreviousToActive?)
      modifies this
      ensures clock == old(clock) && View() == Apply(old(View()), e)
    {
      match e
      case PutVersion(key, tree) => store := store[key := tree];
      case MakeSwap(tx) => swaps := swaps[tx := EMPTY_SWAP];
      case PutCandidate(dir, tx, tree) => candidates := candidates[CandidateKey(dir, tx) := tree];
      case WriteJournal(j) => journal := Some(j);
      case WriteState(s) => state := s;
      case RemoveJournal => journal := None;
      case LeaveInSwap(tx, swap) =>
        if tx in swaps {
          swaps := swaps[tx := Remains(swaps[tx], swap)];
        }
      case RemoveSwap(tx) => swaps := swaps - {tx};
      case RemoveCandidate(dir, tx) => candidates := candidates - {CandidateKey(dir, tx)};
      case WriteFlag(dir, enabled, raw) =>
        if dir in active {
          active := active[dir := WithEnabled(active[dir], enabled, raw)];
        }
    }

    /** `k` effects of a program begun on disk `start` at time `from` have happened; the last attempt, if it did
        not, ended with `o`. */
    ghost predicate At(start: Disk, es: seq<Effect>, from: nat, k: nat, o: Outcome)
      reads this
    {
      && k <= |es| && View() == Exec(start, es[..k]) && AllDone(world, from, k)
      && (if o.Done? then clock == from + k else clock == from + k + 1 && world(from + k) == o)
    }

    lemma AtStart(es: seq<Effect>)
      ensures At(View(), es, clock, 0, Done)
    {
      ExecNone(View(), es);
    }

    lemma AtMeans(start: Disk, es: seq<Effect>, from: nat, k: nat, o: Outcome)
      requires At(start, es, from, k, o)
      ensures k <= |es| && View() == Exec(start, es[..k]) && AllDone(world, from, k)
      ensures if o.Done? then clock == from + k else clock == from + k + 1 && world(from + k) == o
    {
    }

    /** The effect at position `k` of such a program. */
    method Next(e: Effect, ghost start: Disk, ghost es: seq<Effect>, ghost from: nat, k: nat)
      returns (o: Outcome, at: nat)
      requires k < |es| && es[k] == e && At(start, es, from, k, Done)
      modifies this
      ensures at == if o.Done? then k + 1 else k
      ensures At(start, es, from, at, o)
    {
      o := Attempt(e);
      at := if o.Done? then k + 1 else k;
      ExecStep(start, es, k);
    }

    // ----- Recovery -----------------------------------------------------------------------------------

    /** Puts back what an unfinished activation switched. `at` effects happened. */
    method RecoverUnfinishedTransaction(leftover: Swap) returns (o: Outcome, at: nat)
      modifies this
      ensures RecoveryBlocked(old(View())) ==> o.Raised? && View() == old(View()) && clock == old(clock)
      ensures !RecoveryBlocked(old(View())) ==>
                At(old(View()), RecoverSteps(old(View()), leftover), old(clock), at, o)
                && (o.Done? <==> at == |RecoverSteps(old(View()), leftover)|)
    {
      hide Exec, Apply, RecoverSteps, At;
      ghost var start := View();
      ghost var from := clock;
      ghost var es := RecoverSteps(start, leftover);
      AtStart(es);
      RecoverStepsAre(start, leftover);
      o, at := Done, 0;
      if journal.None? {
        return;
      }
      var j := journal.value;
      if j.phase != Prepared {
        if j.dir in active && (j.tx !in swaps || swaps[j.tx].abandoned.Some?) {
          return Raised, 0;
        }
        o, at := Next(ActiveToAbandoned(j.dir, j.tx), start, es, from, at);
        if !o.Done? { return; }
        if j.hadPrevious {
          o, at := Next(PreviousToActive(j.dir, j.tx), start, es, from, at);
          if !o.Done? { return; }
        }
      }
      o, at := TidyUpAfter(j, leftover, start, es, from, at);
    }

    /** The end of a recovery: the candidate, the swap directory and the journal go. */
    method TidyUpAfter(j: Journal, leftover: Swap, ghost start: Disk, ghost es: seq<Effect>, ghost from: nat, n: nat)
      returns (o: Outcome, at: nat)
      requires |es| == n + 4 && At(start, es, from, n, Done)
      requires es[n] == RemoveCandidate(j.dir, j.tx) && es[n + 1] == LeaveInSwap(j.tx, leftover)
      requires es[n + 2] == RemoveSwap(j.tx) && es[n + 3] == RemoveJournal
      modifies this
      ensures At(start, es, from, at, o) && (o.Done? <==> at == |es|)
    {
      hide Exec, Apply, At;
      o, at := Next(RemoveCandidate(j.dir, j.tx), start, es, from, n);
      if !o.Done? { return; }
      o, at := Next(LeaveInSwap(j.tx, leftover), start, es, from, at);
      if !o.Done? { return; }
      o, at := Next(RemoveSwap(j.tx), start, es, from, at);
      if !o.Done? { return; }
      o, at := Next(RemoveJournal, start, es, from, at);
    }

    // ----- Activation, compensation, commit --------------------------------------------------------------

    /** Compensates an activation that raised; a step that raises leaves the disk as a death there would. */
    method RollbackActivation(act: Activation, had: bool) returns (o: Outcome, c: nat)
      modifies this
      ensures At(old(View()), CompensateSteps(old(View()), act, had), old(clock), c, o)
      ensures o.Done? <==> c == |CompensateSteps(old(View()), act, had)|
    {
      hide Exec, Apply, CompensateSteps, At;
      ghost var start := View();
      ghost var from := clock;
      ghost var es := CompensateSteps(start, act, had);
      AtStart(es);
      CompensateStepsAre(start, act, had);
      c := 0;
      if had {
        if act.tx in swaps && swaps[act.tx].previous.Some? {
          o, c := Next(ActiveToFailed(act.dir, act.tx), start, es, from, c);
          if !o.Done? { return; }
          o, c := Next(PreviousToActive(act.dir, act.tx), start, es, from, c);
          if !o.Done? { return; }
        }
      } else {
        o, c := Next(ActiveToFailed(act.dir, act.tx), start, es, from, c);
        if !o.Done? { return; }
      }
      o, c := Next(RemoveCandidate(act.dir, act.tx), start, es, from, c);
      if !o.Done? { return; }
      o, c := Next(RemoveJournal, start, es, from, c);
      if !o.Done? { return; }
      o, c := Next(LeaveInSwap(act.tx, act.leftover), start, es, from, c);
      if !o.Done? { return; }
      o, c := Next(RemoveSwap(act.tx), start, es, from, c);
    }

    /** `_activate_stored_version` up to the loader's check and the caller's callback; `k` effects of the
        activation stand when it returns, and `last` is what became of the last one attempted. */
    method ActivateStoredVersion(act: Activation, packId: string, version: string, loads: bool)
      returns (o: Outcome, k: nat, ghost last: Outcome)
      requires Fresh(View(), act)
      modifies this
      ensures k <= UNCOMMITTED && At(old(View()), Steps(old(View()), act), old(clock), k, last)
      ensures !last.Done? ==> o == last
      ensures last.Done? ==> k == UNCOMMITTED
      ensures last.Done? ==>
                o == if loads && LoaderAccepts(old(active)[act.dir := act.tree], packId, version) then Done else Raised
    {
      hide Exec, Apply, Steps, StepAt, After, LoaderAccepts, At, AllDone, Fresh;
      ghost var start := View();
      ghost var from := clock;
      ghost var es := Steps(start, act);
      AtStart(es);
      StepsAre(start, act);
      k := 0;
      o, k := Next(MakeSwap(act.tx), start, es, from, k);
      last := o;
      if !o.Done? { return; }
      o, k := Next(PutCandidate(act.dir, act.tx, act.partial), start, es, from, k);
      last := o;
      if !o.Done? { return; }
      o, k := Next(PutCandidate(act.dir, act.tx, act.tree), start, es, from, k);
      last := o;
      if !o.Done? { return; }
      o, k := Next(WriteJournal(Journal(act.tx, act.dir, Prepared, false)), start, es, from, k);
      last := o;
      if !o.Done? { return; }
      AtMeans(start, es, from, k, o);
      ActiveBeforeSwitch(start, act, View());
      var had := act.dir in active;
      o, k := Next(WriteJournal(Journal(act.tx, act.dir, Prepared, had)), start, es, from, k);
      last := o;
      if !o.Done? { return; }
      o, k := Next(ActiveToPrevious(act.dir, act.tx), start, es, from, k);
      last := o;
      if !o.Done? { return; }
      o, k := Next(WriteJournal(Journal(act.tx, act.dir, PreviousMoved, had)), start, es, from, k);
      last := o;
      if !o.Done? { return; }
      o, k := Next(CandidateToActive(act.dir, act.tx), start, es, from, k);
      last := o;
      if !o.Done? { return; }
      o, k := Next(WriteJournal(Journal(act.tx, act.dir, Activated, had)), start, es, from, k);
      last := o;
      if !o.Done? { return; }
      AtMeans(start, es, from, k, o);
      ActiveAfterSwitch(start, act, View());
      if !loads || !LoaderAccepts(active, packId, version) {
        o := Raised;
      }
    }

    /** `_commit_activation`, on a disk whose first ten effects have happened. */
    method CommitActivation(act: Activation, ghost start: Disk, ghost from: nat) returns (o: Outcome, k: nat)
      requires Fresh(start, act) && At(start, Steps(start, act), from, 10, Done)
      modifies this
      ensures 10 <= k <= ALL_STEPS && At(start, Steps(start, act), from, k, o)
      ensures o.Done? <==> k == ALL_STEPS
    {
      hide Exec, Apply, Steps, StepAt, After, At;
      ghost var es := Steps(start, act);
      StepsAre(start, act);
      k := 10;
      o, k := Next(RemoveJournal, start, es, from, k);
      if !o.Done? { return; }
      o, k := Next(LeaveInSwap(act.tx, act.leftover), start, es, from, k);
      if !o.Done? { return; }
      o, k := Next(RemoveSwap(act.tx), start, es, from, k);
    }

    /** Activation, state write and commit, with the compensation where the code has it. */
    method SwitchTo(act: Activation, packId: string, version: string, loads: bool) returns (ending: Fault)
      requires Fresh(View(), act)
      modifies this
      ensures View() == ActivationEnds(old(View()), act, ending)
      ensures ending.Completes? || ending.at > UNCOMMITTED ==>
                loads && LoaderAccepts(old(active)[act.dir := act.tree], packId, version)
      ensures Backed(world, old(clock), ending,
                     if loads && LoaderAccepts(old(active)[act.dir := act.tree], packId, version) then None
                       else Some(UNCOMMITTED))
    {
      hide Exec, Apply, Steps, LoaderAccepts, At, AllDone, Backed, ActivationEnds;
      ghost var start := View();
      ghost var from := clock;
      ghost var es := Steps(start, act);
      ghost var checkAt := if loads && LoaderAccepts(active[act.dir := act.tree], packId,
                                                     version) then None else Some(UNCOMMITTED);
      var had := act.dir in active;
      var o, k, last := ActivateStoredVersion(act, packId, version, loads);
      StepsAre(start, act);
      if o.Done? {
        o, k := Next(WriteState(act.newState), start, es, from, k);
        last := o;
        if o.Done? {
          o, k := CommitActivation(act, start, from);
          AtMeans(start, es, from, k, o);
          StopsThere(start, act, k, o);
          BackedThere(world, from, k, o, checkAt);
          return match o case Done => Completes case Raised => Raises(k) case Died => Dies(k);
        }
      }
      AtMeans(start, es, from, k, last);
      if o.Raised? && GUARDED <= k {
        ending := Compensate(act, had, start, from, k, last);
        if !last.Done? {
          BackedAnyway(world, from, ending, checkAt);
        }
        return;
      }
      StopsThere(start, act, k, o);
      BackedThere(world, from, k, o, checkAt);
      return if o.Raised? then Raises(k) else Dies(k);
    }

    /** The compensation of an activation that raised inside its `try` block after `k` effects. */
    method Compensate(act: Activation, had: bool, ghost start: Disk, ghost from: nat, k: nat, ghost last: Outcome)
      returns (ending: Fault)
      requires GUARDED <= k <= UNCOMMITTED && had == (act.dir in start.active)
      requires At(start, Steps(start, act), from, k, last) && (last.Raised? || (last.Done? && k == UNCOMMITTED))
      modifies this
      ensures !ending.Completes? && ending.at == k && View() == ActivationEnds(start, act, ending)
      ensures Backed(world, from, ending, if last.Done? then Some(UNCOMMITTED) else None)
    {
      hide Exec, Apply, CompensateSteps, At, Steps;
      AtMeans(start, Steps(start, act), from, k, last);
      ghost var m := View();
      ghost var then' := clock;
      ghost var all := CompensateSteps(m, act, had);
      var p, c := RollbackActivation(act, had);
      AtMeans(m, all, then', c, p);
      assert all[..|all|] == all;
      return if p.Done? then Raises(k) else RaisesThenDies(k, c);
    }

    // ----- The version store -----------------------------------------------------------------------------

    /** `_store_immutable_version`; `stored` counts the versions it put (none when one was there). */
    method StoreImmutableVersion(packId: string, version: string, t: Tree, sha: string)
      returns (o: Outcome, refusal: Option<Refusal>, stored: nat)
      modifies this
      ensures var put := StorePut(env, old(View()), packId, version, t, sha);
              match put
              case Err(e) => refusal == Some(e) && View() == old(View())
              case Ok(es) => refusal.None?
                             && View() == (if o.Done? then Exec(old(View()), es) else old(View()))
                             && (if o.Done? then stored == |es| else stored == 0 && |es| == 1)
                             && |es| <= 1 && clock == old(clock) + |es|
                             && (if es == [] then o.Done? else o == world(old(clock)))
      ensures refusal.Some? ==> clock == old(clock)
    {
      var key := KeyOf(env, packId, version);
      o, stored := Done, 0;
      if !SafeVersion(version) {
        return Done, Some(UnsafeVersion), 0;
      }
      if key in store {
        refusal := if Sha(env, store[key]) != sha then Some(StoreConflict) else None;
        return;
      }
      var temporary := CopyTree(t);
      if Sha(env, temporary) != sha {
        return Done, Some(CopyMismatch), 0;
      }
      ExecOne(View(), PutVersion(key, temporary));
      o := Attempt(PutVersion(key, temporary));
      refusal, stored := None, if o.Done? then 1 else 0;
    }

    /** Finds the pack's active directory, insists on its name, and archives its version if it is not yet
        registered. `pack` is the state entry with that version in it. */
    method ArchiveActiveVersion(packId: string, dir: string)
      returns (o: Outcome, refusal: Option<Refusal>, pack: PackState, stored: nat)
      modifies this
      ensures match PlanReplace(env, old(View()), packId, dir)
              case Err(e) => refusal == Some(e) && View() == old(View())
              case Ok(archived) =>
                refusal.None? && pack == archived.pack
                && View() == (if o.Done? then Exec(old(View()), archived.puts) else old(View()))
                && (if o.Done? then stored == |archived.puts| else stored == 0 && |archived.puts| == 1)
                && |archived.puts| <= 1 && clock == old(clock) + |archived.puts|
                && (if archived.puts == [] then o.Done? else o == world(old(clock)))
    {
      var holders := Holders(active, packId);
      o, refusal, pack, stored := Done, None, PackOf(state, packId), 0;
      if holders == {} {
        return;
      }
      if holders != {dir} {
        refusal := Some(if |holders| > 1 then Ambiguous else DirectoryChanged);
        return;
      }
      assert dir in holders;
      var version := ManifestOf(active[dir]).value.version;
      var sha := Sha(env, active[dir]);
      if version in pack.versions {
        refusal := if pack.versions[version].sha != sha then Some(Tampered) else None;
        return;
      }
      o, refusal, stored := StoreImmutableVersion(packId, version, active[dir], sha);
      pack := pack.(versions := pack.versions[version := Record(sha, dir)]);
    }

    // ----- Operations ------------------------------------------------------------------------------------

    /** Activates what the store holds under `packId` and `version`, which `puts` effects put there. */
    method Finish(puts: nat, ghost from: nat, packId: string, version: string, dir: string, pack: PackState,
                  req: Request, loads: bool)
      returns (fault: Fault, refusal: Option<Refusal>)
      requires clock == from + puts && AllDone(world, from, puts)
      modifies this
      ensures var plan := PlanActivation(env, old(View()), [], packId, version, dir, pack, req);
              Backed(world, from, fault,
                     if plan.Planned? && !(loads && LoaderAccepts(old(active)[dir := plan.act.tree], packId, version))
                     then Some(puts + UNCOMMITTED) else None)
      ensures var d := old(View());
              var plan := PlanActivation(env, d, [], packId, version, dir, pack, req);
              && (!fault.Completes? ==> fault.at >= puts)
              && (plan.Rejected? ==> fault.Completes? && refusal == Some(plan.why) && View() == d)
              && (plan.Planned? ==>
                    refusal.None?
                    && View() == ActivationEnds(d, plan.act, Shift(fault, puts))
                    && (fault.Completes? || fault.at > puts + UNCOMMITTED ==>
                          loads && LoaderAccepts(d.active[dir := plan.act.tree], packId, version)))
    {
      hide AllDone, Backed, ActivationEnds, LoaderAccepts, CopyTree;
      BackedCompletes(world, from);
      var key := KeyOf(env, packId, version);
      if key !in store {
        return Completes, Some(StoreMissing);
      }
      var act := Activation(req.tx, dir, CopyTree(store[key]), state[packId := NowActive(pack, version, dir)],
                            req.partial, req.leftover);
      if journal.Some? || act.tx in swaps || CandidateOf(act) in candidates {
        return Completes, Some(TxInUse);
      }
      var ending := SwitchTo(act, packId, version, loads);
      BackedLater(world, from, puts, ending,
                  if loads && LoaderAccepts(old(active)[act.dir := act.tree], packId, version) then None
                    else Some(UNCOMMITTED));
      return Later(ending, puts), None;
    }

    method InstallArchive(source: Tree, enabled: Option<bool>, raw: Bytes, dir: string, req: Request, loads: bool)
      returns (e: Event, refusal: Option<Refusal>)
      modifies this
      ensures e.RecoveryDies? || (e.Install? && e == Install(source, enabled, raw, dir, req, loads, e.fault))
      ensures View() == Happens(env, old(View()), e)
      ensures e.RecoveryDies? ==> RecoveryStopped(world, old(clock), old(View()), e.after)
      ensures e.Install? ==> var d := Recovered(old(View()), EMPTY_SWAP);
                             Backed(world, old(clock) + |RecoverSteps(old(View()), EMPTY_SWAP)|, e.fault,
                                    CheckAt(d, PlanInstall(env, d, source, enabled, raw, dir, req), loads))
      ensures refusal == if e.RecoveryDies? then None
                         else RefusalOf(PlanOf(env, Recovered(old(View()), EMPTY_SWAP), e), e.fault)
    {
      var interrupted := Recover();
      if interrupted.Some? {
        return interrupted.value, None;
      }
      var fault;
      fault, refusal := InstallRecovered(source, enabled, raw, dir, req, loads);
      e := Install(source, enabled, raw, dir, req, loads, fault);
    }

    /** The recovery every operation begins with; a blocked or interrupted one ends the operation. */
    method Recover() returns (interrupted: Option<Event>)
      modifies this
      ensures interrupted.Some? ==>
                interrupted.value.RecoveryDies? && View() == Happens(env, old(View()), interrupted.value)
      ensures interrupted.None? ==> !RecoveryBlocked(old(View())) && View() == Recovered(old(View()), EMPTY_SWAP)
      ensures interrupted.None? ==> clock == old(clock) + |RecoverSteps(old(View()), EMPTY_SWAP)|
      ensures interrupted.Some? ==> RecoveryStopped(world, old(clock), old(View()), interrupted.value.after)
    {
      var blocked := RecoveryBlocked(View());
      ghost var start := View();
      ghost var from := clock;
      ghost var es := RecoverSteps(start, EMPTY_SWAP);
      var o, at := RecoverUnfinishedTransaction(EMPTY_SWAP);
      if !blocked {
        AtMeans(start, es, from, at, o);
        assert es[..|es|] == es;
      }
      interrupted := if blocked || !o.Done? then Some(RecoveryDies(at, EMPTY_SWAP)) else None;
    }

    /** The body of `install_archive` after its recovery. */
    method InstallRecovered(source: Tree, enabled: Option<bool>, raw: Bytes, dir: string, req: Request, loads: bool)
      returns (fault: Fault, refusal: Option<Refusal>)
      modifies this
      ensures View() == PlanEnds(old(View()), PlanInstall(env, old(View()), source, enabled, raw, dir, req), loads,
                                 fault)
      ensures Backed(world, old(clock), fault,
                     CheckAt(old(View()), PlanInstall(env, old(View()), source, enabled, raw, dir, req), loads))
      ensures refusal == RefusalOf(PlanInstall(env, old(View()), source, enabled, raw, dir, req), fault)
    {
      ghost var from := clock;
      NothingDone(world, from);
      BackedCompletes(world, from);
      hide Exec, Apply, PlanEnds, ActivationEnds, StorePut, PlanReplace, PlanActivation, Stop, Shift, Staged,
           LoaderAccepts, AllDone, Backed, CheckAt, Digest, CopyTree, ManifestOf, PutsFresh;
      ghost var d := View();
      ghost var plan := PlanInstall(env, d, source, enabled, raw, dir, req);
      RefusedEnds(d, plan, loads);
      ExecNone(d, plan.puts);
      InstallPutsOk(env, d, source, enabled, raw, dir, req);
      var staged := Staged(source, enabled, raw);
      if ManifestOf(staged).None? {
        return Completes, Some(NoManifest);
      }
      if !req.valid {
        return Completes, Some(Invalid);
      }
      var m := ManifestOf(staged).value;
      var o, pack, n;
      o, refusal, pack, n := ArchiveActiveVersion(m.packId, dir);
      if refusal.Some? {
        return Completes, refusal;
      }
      ghost var first := PlanReplace(env, d, m.packId, dir).value.puts;
      if !o.Done? {
        InstallPutsStart(env, d, source, enabled, raw, dir, req, plan, first);
        StoppedEnds(d, plan, loads, 0);
        BackedThere(world, from, 0, o, CheckAt(d, plan, loads));
        return if o.Raised? then Raises(0) else Dies(0), None;
      }
      OneMoreDone(world, from, 0, n);
      var sha := Sha(env, staged);
      ghost var puts := first;
      if m.version in pack.versions {
        if pack.versions[m.version].sha != sha {
          return Completes, Some(VersionConflict);
        }
      } else {
        ghost var d1 := View();
        ghost var put := StorePut(env, d1, m.packId, m.version, staged, sha);
        var stored;
        o, refusal, stored := StoreImmutableVersion(m.packId, m.version, staged, sha);
        if refusal.Some? {
          return Completes, refusal;
        }
        if !o.Done? {
          InstallPuts(env, d, source, enabled, raw, dir, req, plan, first, put.value);
          assert plan.puts[..n] == first;
          StoppedEnds(d, plan, loads, n);
          BackedThere(world, from, n, o, CheckAt(d, plan, loads));
          return if o.Raised? then Raises(n) else Dies(n), None;
        }
        OneMoreDone(world, from, n, stored);
        ExecAppend(d, first, put.value);
        puts := first + put.value;
        n := n + stored;
        pack := pack.(versions := pack.versions[m.version := Record(sha, dir)]);
      }
      assert plan == PlanActivation(env, Exec(d, puts), puts, m.packId, m.version, dir, pack, req);
      ActivationPuts(env, Exec(d, puts), puts, m.packId, m.version, dir, pack, req);
      FinishedPlan(env, d, puts, m.packId, m.version, dir, pack, req, loads);
      CheckAtLater(env, d, puts, m.packId, m.version, dir, pack, req, loads);
      fault, refusal := Finish(n, from, m.packId, m.version, dir, pack, req, loads);
    }

    method RollBackTo(packId: string, version: string, req: Request, loads: bool)
      returns (e: Event, refusal: Option<Refusal>)
      modifies this
      ensures e.RecoveryDies? || (e.RollBack? && e == RollBack(packId, version, req, loads, e.fault))
      ensures View() == Happens(env, old(View()), e)
      ensures e.RecoveryDies? ==> RecoveryStopped(world, old(clock), old(View()), e.after)
      ensures e.RollBack? ==> var d := Recovered(old(View()), EMPTY_SWAP);
                              Backed(world, old(clock) + |RecoverSteps(old(View()), EMPTY_SWAP)|, e.fault,
                                     CheckAt(d, PlanRollback(env, d, packId, version, req), loads))
      ensures refusal == if e.RecoveryDies? then None
                         else RefusalOf(PlanOf(env, Recovered(old(View()), EMPTY_SWAP), e), e.fault)
    {
      var interrupted := Recover();
      if interrupted.Some? {
        return interrupted.value, None;
      }
      var fault;
      fault, refusal := RollBackRecovered(packId, version, req, loads);
      e := RollBack(packId, version, req, loads, fault);
    }

    /** The body of `rollback` after its recovery. */
    method RollBackRecovered(packId: string, version: string, req: Request, loads: bool)
      returns (fault: Fault, refusal: Option<Refusal>)
      modifies this
      ensures View() == PlanEnds(old(View()), PlanRollback(env, old(View()), packId, version, req), loads, fault)
      ensures Backed(world, old(clock), fault,
                     CheckAt(old(View()), PlanRollback(env, old(View()), packId, version, req), loads))
      ensures refusal == RefusalOf(PlanRollback(env, old(View()), packId, version, req), fault)
    {
      ghost var from := clock;
      hide Exec, Apply, PlanEnds, ActivationEnds, StorePut, PlanReplace, PlanActivation, Stop, Shift, LoaderAccepts;
      ghost var d := View();
      ghost var plan := PlanRollback(env, d, packId, version, req);
      RefusedEnds(d, plan, loads);
      ExecNone(d, plan.puts);
      RollbackPutsOk(env, d, packId, version, req);
      var pack := PackOf(state, packId);
      var key := KeyOf(env, packId, version);
      if version !in pack.versions {
        return Completes, Some(UnknownVersion);
      }
      if !SafeVersion(version) {
        return Completes, Some(UnsafeVersion);
      }
      if key !in store {
        return Completes, Some(StoreMissing);
      }
      if Sha(env, store[key]) != pack.versions[version].sha {
        return Completes, Some(StoreTampered);
      }
      if !Holds(store[key], packId) || ManifestOf(store[key]).value.version != version {
        return Completes, Some(IdentityMismatch);
      }
      if !req.valid {
        return Completes, Some(Invalid);
      }
      var dir := pack.versions[version].dir;
      var o, archived, n;
      o, refusal, archived, n := ArchiveActiveVersion(packId, dir);
      if refusal.Some? {
        return Completes, refusal;
      }
      ghost var puts := PlanReplace(env, d, packId, dir).value.puts;
      ActivationPuts(env, Exec(d, puts), puts, packId, version, dir, archived, req);
      if !o.Done? {
        StoppedEnds(d, plan, loads, 0);
        return if o.Raised? then Raises(0) else Dies(0), None;
      }
      FinishedPlan(env, d, puts, packId, version, dir, archived, req, loads);
      CheckAtLater(env, d, puts, packId, version, dir, archived, req, loads);
      assert plan == PlanActivation(env, Exec(d, puts), puts, packId, version, dir, archived, req);
      fault, refusal := Finish(n, from, packId, version, dir, archived, req, loads);
    }

    /** `set_enabled`. `refused`, `reloads` and `accepted` are the loader's checks, its reload and the callback. */
    method SetEnabled(packId: string, flag: bool, text: Bytes, restored: Bytes, refused: bool, reloads: bool,
                      accepted: bool)
      returns (e: Event, refusal: Option<Refusal>)
      modifies this
      ensures e.RecoveryDies?
              || (e.SetEnabled? && e == Event.SetEnabled(packId, flag, text, restored, e.outcome, e.written))
      ensures View() == Happens(env, old(View()), e)
      ensures e.RecoveryDies? ==> RecoveryStopped(world, old(clock), old(View()), e.after)
      ensures e.SetEnabled? && refusal.None? ==>
                ToggleBacked(world, old(clock) + |RecoverSteps(old(View()), EMPTY_SWAP)|, refused, reloads, accepted,
                             e.outcome, e.written)
      ensures refusal == if e.RecoveryDies? then None
                         else NoSingle(Holders(Recovered(old(View()), EMPTY_SWAP).active, packId))
    {
      hide Exec, FlagSteps, Recovered, RecoverSteps, ToggleBacked;
      var interrupted := Recover();
      if interrupted.Some? {
        return interrupted.value, None;
      }
      ghost var d := View();
      refusal := NoSingle(Holders(active, packId));
      var outcome, n := WriteFlags(packId, flag, text, restored, refused, reloads, accepted);
      e := Event.SetEnabled(packId, flag, text, restored, outcome, n);
      HappensToggle(env, old(View()), d, e);
    }

    /** The manifest writes of a toggle, when one directory carries the pack. */
    method WriteFlags(packId: string, flag: bool, text: Bytes, restored: Bytes, refused: bool, reloads: bool,
                      accepted: bool)
      returns (outcome: FlagOutcome, n: nat)
      modifies this
      ensures var es := FlagSteps(old(View()), Event.SetEnabled(packId, flag, text, restored, outcome, n));
              n <= |es| && View() == Exec(old(View()), es[..n])
      ensures |Holders(old(active), packId)| == 1 ==>
                ToggleBacked(world, old(clock), refused, reloads, accepted, outcome, n)
    {
      hide Exec, Apply, Holders, FlagSteps, FlagDisk, ToggleBacked;
      ghost var d := View();
      var holders := Holders(active, packId);
      if |holders| != 1 {
        outcome, n := Kept, 0;
        NoFlagSteps(d, Event.SetEnabled(packId, flag, text, restored, outcome, n));
        return;
      }
      var dir := TheOne(holders);
      HeldThere(active, packId, dir);
      var original, before := ManifestOf(active[dir]).value.enabled, ManifestText(active[dir]);
      outcome, n := PutFlags(WriteFlag(dir, Some(flag), text), WriteFlag(dir, original, before),
                             WriteFlag(dir, original, restored), refused, reloads, accepted);
      FlagPrefix(d, Event.SetEnabled(packId, flag, text, restored, outcome, n), dir, n);
    }

    /** The loader's own writes: the new flag, and the old text when its reload fails, which raises. */
    method LoaderWrites(put: Effect, back: Effect, refused: bool, reloads: bool) returns (o: Outcome, n: nat)
      modifies this
      ensures LoaderDid(world, old(clock), refused, reloads, o, n, clock)
      ensures View() == if n == 0 then old(View()) else if n == 1 then Apply(old(View()), put)
                        else Apply(Apply(old(View()), put), back)
    {
      hide Apply;
      if refused {
        return Raised, 0;
      }
      o := Attempt(put);
      if !o.Done? {
        return o, 0;
      }
      if reloads {
        return Done, 1;
      }
      o := Attempt(back);
      return if o.Died? then Died else Raised, if o.Done? then 2 else 1;
    }

    /** The loader's writes, and the original manifest after anything that raised, the callback included. */
    method PutFlags(put: Effect, back: Effect, undo: Effect, refused: bool, reloads: bool, accepted: bool)
      returns (outcome: FlagOutcome, n: nat)
      modifies this
      ensures n <= FlagWrites(outcome) && View() == FlagDisk(old(View()), put, back, undo, outcome, n)
      ensures ToggleBacked(world, old(clock), refused, reloads, accepted, outcome, n)
    {
      hide Apply, FlagDisk, FlagWrite, FlagWrites, ToggleBacked, LoaderDid;
      ghost var d := View();
      ghost var from := clock;
      var o;
      o, n := LoaderWrites(put, back, refused, reloads);
      LoaderDidIs(world, from, refused, reloads, o, n, clock);
      if o.Died? {
        outcome := if !reloads then ReloadFailed else if accepted then Kept else TakenBack;
        ToggleDied(world, from, refused, reloads, accepted, outcome, n, clock);
        LoaderDisk(d, put, back, undo, outcome, n);
        return;
      }
      if o.Done? && accepted {
        ToggleKept(world, from, refused, reloads, n, clock);
        LoaderDisk(d, put, back, undo, Kept, n);
        return Kept, n;
      }
      outcome := if n == 0 then Refused else if n == 1 then TakenBack else ReloadFailed;
      ToggleWritesBack(world, from, refused, reloads, accepted, o, outcome, n, clock);
      LoaderDisk(d, put, back, undo, outcome, n);
      n := WriteBack(put, back, undo, outcome, n, d);
    }

    /** The original manifest again, after `n` writes. */
    method WriteBack(ghost put: Effect, ghost back: Effect, undo: Effect, ghost outcome: FlagOutcome, n: nat,
                     ghost d: Disk) returns (all: nat)
      requires n + 1 == FlagWrites(outcome) && outcome != Kept && View() == FlagDisk(d, put, back, undo, outcome, n)
      modifies this
      ensures all == if world(old(clock)).Done? then n + 1 else n
      ensures View() == FlagDisk(d, put, back, undo, outcome, all)
    {
      hide Apply, FlagDisk, FlagWrite;
      ManagerDisk(d, put, back, undo, outcome, n);
      var o := Attempt(undo);
      all := if o.Done? then n + 1 else n;
    }
  }

  /** How the loader's part of a toggle ends: `n` writes happened and `now` is the time of the next. */
  predicate LoaderDid(w: World, from: nat, refused: bool, reloads: bool, o: Outcome, n: nat, now: nat) {
    if refused then o == Raised && n == 0 && now == from
    else if !w(from).Done? then o == w(from) && n == 0 && now == from + 1
    else if reloads then o == Done && n == 1 && now == from + 1
    else
      now == from + 2 && n == (if w(from + 1).Done? then 2 else 1)
      && o == if w(from + 1).Died? then Died else Raised
  }

  lemma LoaderDidIs(w: World, from: nat, refused: bool, reloads: bool, o: Outcome, n: nat, now: nat)
    requires LoaderDid(w, from, refused, reloads, o, n, now)
    ensures n <= 2 && (o.Done? <==> n == 1 && !refused && reloads) && (o.Died? ==> !refused && n <= 1)
    ensures o.Died? && n == 1 ==> !reloads
  {
  }

  lemma ToggleDied(w: World, from: nat, refused: bool, reloads: bool, accepted: bool, outcome: FlagOutcome, n: nat,
                   now: nat)
    requires LoaderDid(w, from, refused, reloads, Died, n, now)
    requires outcome == if !reloads then ReloadFailed else if accepted then Kept else TakenBack
    ensures n < FlagWrites(outcome) && ToggleBacked(w, from, refused, reloads, accepted, outcome, n)
  {
  }

  lemma ToggleKept(w: World, from: nat, refused: bool, reloads: bool, n: nat, now: nat)
    requires LoaderDid(w, from, refused, reloads, Done, n, now)
    ensures n == 1 == FlagWrites(Kept) && ToggleBacked(w, from, refused, reloads, true, Kept, n)
  {
  }

  /** Whatever the loader or the callback raised, the manager tries one more write. */
  lemma ToggleWritesBack(w: World, from: nat, refused: bool, reloads: bool, accepted: bool, o: Outcome,
                         outcome: FlagOutcome, n: nat, now: nat)
    requires LoaderDid(w, from, refused, reloads, o, n, now) && !o.Died? && !(o.Done? && accepted)
    requires outcome == if n == 0 then Refused else if n == 1 then TakenBack else ReloadFailed
    ensures n + 1 == FlagWrites(outcome) && outcome != Kept
    ensures ToggleBacked(w, from, refused, reloads, accepted, outcome, if w(now).Done? then n + 1 else n)
  {
  }

  /** The loader's writes are the first ones of a toggle that makes more, or that keeps the flag. */
  lemma LoaderDisk(d: Disk, put: Effect, back: Effect, undo: Effect, outcome: FlagOutcome, n: nat)
    requires n < FlagWrites(outcome) || (outcome == Kept && n == 1)
    ensures FlagDisk(d, put, back, undo, outcome, n)
            == if n == 0 then d else if n == 1 then Apply(d, put) else Apply(Apply(d, put), back)
  {
    hide Apply, FlagDisk;
    FlagDiskNone(d, put, back, undo, outcome);
    if n >= 1 {
      FlagDiskNext(d, put, back, undo, outcome, 0);
    }
    if n >= 2 {
      FlagDiskNext(d, put, back, undo, outcome, 1);
    }
  }

  /** The manager's write is the last one. */
  lemma ManagerDisk(d: Disk, put: Effect, back: Effect, undo: Effect, outcome: FlagOutcome, n: nat)
    requires n + 1 == FlagWrites(outcome) && outcome != Kept
    ensures FlagDisk(d, put, back, undo, outcome, n + 1) == Apply(FlagDisk(d, put, back, undo, outcome, n), undo)
  {
    hide Apply, FlagDisk;
    FlagDiskNext(d, put, back, undo, outcome, n);
  }

  lemma FlagDiskNone(d: Disk, put: Effect, back: Effect, undo: Effect, outcome: FlagOutcome)
    ensures FlagDisk(d, put, back, undo, outcome, 0) == d
  {
  }

  /** One more write of a toggle. */
  lemma FlagDiskNext(d: Disk, put: Effect, back: Effect, undo: Effect, outcome: FlagOutcome, n: nat)
    requires n < FlagWrites(outcome)
    ensures FlagDisk(d, put, back, undo, outcome, n + 1)
            == Apply(FlagDisk(d, put, back, undo, outcome, n), FlagWrite(put, back, undo, outcome, n))
  {
    hide Apply;
  }

  /** How many writes a toggle of that outcome makes. */
  function FlagWrites(outcome: FlagOutcome): nat {
    match outcome case Refused => 1 case Kept => 1 case TakenBack => 2 case ReloadFailed => 3
  }

  /** The `n`-th of them: the loader's first, then the manager's. */
  function FlagWrite(put: Effect, back: Effect, undo: Effect, outcome: FlagOutcome, n: nat): Effect
    requires n < FlagWrites(outcome)
  {
    if n == FlagWrites(outcome) - 1 && !outcome.Kept? then undo else if n == 0 then put else back
  }

  /** The disk after the first `n` of them. */
  function FlagDisk(d: Disk, put: Effect, back: Effect, undo: Effect, outcome: FlagOutcome, n: nat): Disk
    requires n <= FlagWrites(outcome)
  {
    if n == 0 then d
    else Apply(FlagDisk(d, put, back, undo, outcome, n - 1), FlagWrite(put, back, undo, outcome, n - 1))
  }

  /** Of at most three effects the first `n` happened and the next one, if there is one, did not. */
  predicate StopsAt(w: World, from: nat, n: nat, all: nat) {
    && n <= all <= 3
    && (n > 0 ==> w(from).Done?) && (n > 1 ==> w(from + 1).Done?) && (n > 2 ==> w(from + 2).Done?)
    && (n < all ==> !w(from + n).Done?)
  }

  /** A toggle that wrote `n` times with that outcome is what the loader, the callback and the environment made it. */
  predicate ToggleBacked(w: World, from: nat, refused: bool, reloads: bool, accepted: bool, outcome: FlagOutcome,
                         n: nat)
  {
    match outcome
    case Refused => if refused then StopsAt(w, from, n, 1) else w(from) == Raised && StopsAt(w, from + 1, n, 1)
    case Kept => !refused && reloads && accepted && StopsAt(w, from, n, 1) && (n == 0 ==> w(from) == Died)
    case TakenBack =>
      !refused
      && if reloads then !accepted && StopsAt(w, from, n, 2) && (n == 0 ==> w(from) == Died)
         else n > 0 && w(from).Done? && w(from + 1) == Raised && StopsAt(w, from + 2, n - 1, 1)
    case ReloadFailed => !refused && !reloads && StopsAt(w, from, n, 3) && (n < 2 ==> w(from + n) == Died)
  }

  lemma HappensToggle(env: Env, start: Disk, d: Disk, e: Event)
    requires e.SetEnabled? && !RecoveryBlocked(start) && d == Recovered(start, EMPTY_SWAP)
    requires e.written <= |FlagSteps(d, e)|
    ensures Happens(env, start, e) == Exec(d, FlagSteps(d, e)[..e.written])
  {
  }

  lemma NoFlagSteps(d: Disk, e: Event)
    requires e.SetEnabled? && |Holders(d.active, e.packId)| != 1
    ensures FlagSteps(d, e) == [] && Exec(d, []) == d
  {
    NotSingle(Holders(d.active, e.packId));
  }

  lemma HeldThere(active: map<string, Tree>, packId: string, dir: string)
    requires Holders(active, packId) == {dir}
    ensures dir in active && ManifestOf(active[dir]).Some?
  {
    assert dir in Holders(active, packId);
  }

  lemma {:induction false} FlagPrefix(d: Disk, e: Event, dir: string, n: nat)
    requires e.SetEnabled? && Holders(d.active, e.packId) == {dir} && n <= FlagWrites(e.outcome)
    requires dir in d.active && ManifestOf(d.active[dir]).Some?
    ensures var m := ManifestOf(d.active[dir]).value;
            var es := FlagSteps(d, e);
            && |es| == FlagWrites(e.outcome)
            && Exec(d, es[..n])
               == FlagDisk(d, WriteFlag(dir, Some(e.flag), e.text),
                           WriteFlag(dir, m.enabled, ManifestText(d.active[dir])),
                           WriteFlag(dir, m.enabled, e.restored), e.outcome, n)
    decreases n
  {
    hide Exec, Apply, Holders, FlagDisk;
    FlagStepsAre(d, e, dir);
    var m := ManifestOf(d.active[dir]).value;
    var put := WriteFlag(dir, Some(e.flag), e.text);
    var back := WriteFlag(dir, m.enabled, ManifestText(d.active[dir]));
    var undo := WriteFlag(dir, m.enabled, e.restored);
    var es := FlagSteps(d, e);
    FlagDiskNone(d, put, back, undo, e.outcome);
    if n == 0 {
      ExecNone(d, es);
    } else {
      FlagPrefix(d, e, dir, n - 1);
      ExecStep(d, es, n - 1);
      FlagDiskNext(d, put, back, undo, e.outcome, n - 1);
    }
  }

  lemma FlagStepsAre(d: Disk, e: Event, dir: string)
    requires e.SetEnabled? && Holders(d.active, e.packId) == {dir}
    requires dir in d.active && ManifestOf(d.active[dir]).Some?
    ensures var m := ManifestOf(d.active[dir]).value;
            var set' := WriteFlag(dir, Some(e.flag), e.text);
            var back := WriteFlag(dir, m.enabled, ManifestText(d.active[dir]));
            var undo := WriteFlag(dir, m.enabled, e.restored);
            FlagSteps(d, e) == match e.outcome
                               case Refused => [undo]
                               case Kept => [set']
                               case TakenBack => [set', undo]
                               case ReloadFailed => [set', back, undo]
  {
    assert dir in Holders(d.active, e.packId);
    forall x | Holders(d.active, e.packId) == {x} ensures x == dir {
      assert x in {dir};
    }
  }

  /** Where an activation stands that stopped after `k` effects without anything to compensate. */
  lemma StopsThere(d: Disk, act: Activation, k: nat, o: Outcome)
    requires k <= ALL_STEPS && (o.Done? ==> k == ALL_STEPS) && (o.Raised? ==> k < GUARDED || k > UNCOMMITTED)
    ensures Exec(d, Steps(d, act)[..k])
         == ActivationEnds(d, act, match o case Done => Completes case Raised => Raises(k) case Died => Dies(k))
  {
    hide Exec, Steps;
    assert Steps(d, act)[..ALL_STEPS] == Steps(d, act);
  }

  lemma BackedThere(w: World, from: nat, k: nat, o: Outcome, checkAt: Option<nat>)
    requires AllDone(w, from, k) && (o.Done? || w(from + k) == o || (o.Raised? && checkAt == Some(k)))
    ensures Backed(w, from, match o case Done => Completes case Raised => Raises(k) case Died => Dies(k), checkAt)
  {
    hide AllDone;
  }

  lemma BackedAnyway(w: World, from: nat, fault: Fault, checkAt: Option<nat>)
    requires Backed(w, from, fault, None)
    ensures Backed(w, from, fault, checkAt)
  {
    hide AllDone;
  }

  lemma OneMoreDone(w: World, from: nat, n: nat, more: nat)
    requires AllDone(w, from, n) && more <= 1 && (more == 1 ==> w(from + n).Done?)
    ensures AllDone(w, from, n + more)
  {
  }

  lemma NothingDone(w: World, from: nat)
    ensures AllDone(w, from, 0)
  {
  }

  /** A fault of the activation is a fault of the whole operation, its puts counted before it. */
  lemma BackedLater(w: World, from: nat, puts: nat, ending: Fault, checkAt: Option<nat>)
    requires AllDone(w, from, puts) && Backed(w, from + puts, ending, checkAt)
    ensures Backed(w, from, Later(ending, puts), if checkAt.None? then None else Some(checkAt.value + puts))
  {
  }

  function Later(ending: Fault, puts: nat): (fault: Fault)
    ensures !fault.Completes? ==> fault.at >= puts
    ensures Shift(fault, puts) == ending && (fault.Completes? <==> ending.Completes?)
    ensures !fault.Completes? ==> fault.at == ending.at + puts
  {
    match ending
    case Completes => Completes
    case Raises(k) => Raises(k + puts)
    case Dies(k) => Dies(k + puts)
    case RaisesThenDies(k, c) => RaisesThenDies(k + puts, c)
  }

  lemma BackedCompletes(w: World, from: nat)
    ensures forall checkAt: Option<nat> :: Backed(w, from, Completes, checkAt)
  {
  }

  /** The check of the whole plan is the check of its activation, counted from the first put. */
  lemma CheckAtLater(env: Env, d: Disk, puts: seq<Effect>, packId: string, version: string, dir: string,
                     pack: PackState, req: Request, loads: bool)
    requires forall e | e in puts :: e.PutVersion?
    ensures var d1 := Exec(d, puts);
            var bare := PlanActivation(env, d1, [], packId, version, dir, pack, req);
            CheckAt(d, PlanActivation(env, d1, puts, packId, version, dir, pack, req), loads)
            == if bare.Planned? && !(loads && LoaderAccepts(d1.active[dir := bare.act.tree], packId, version))
               then Some(|puts| + UNCOMMITTED) else None
  {
    hide Exec, LoaderAccepts, Apply;
    PutsKeepTheRest(d, puts);
  }

  lemma RefusedEnds(d: Disk, plan: Plan, loads: bool)
    ensures plan.Rejected? ==> PlanEnds(d, plan, loads, Completes) == Exec(d, plan.puts)
    ensures plan.puts == [] ==> Exec(d, plan.puts) == d
  {
  }

  lemma StoppedEnds(d: Disk, plan: Plan, loads: bool, n: nat)
    requires n < |plan.puts|
    ensures PlanEnds(d, plan, loads, Raises(n)) == Exec(d, plan.puts[..n])
    ensures PlanEnds(d, plan, loads, Dies(n)) == Exec(d, plan.puts[..n])
  {
  }

  lemma {:induction false} PutsKeepTheRest(d: Disk, puts: seq<Effect>)
    requires forall e | e in puts :: e.PutVersion?
    ensures OnlyStored(d, Exec(d, puts))
  {
    if puts != [] {
      PutsKeepTheRest(d, puts[..|puts| - 1]);
      assert puts[|puts| - 1].PutVersion?;
    }
  }

  /** Carrying out an activation on the disk after the puts is carrying out the whole plan. */
  lemma FinishedPlan(env: Env, d: Disk, puts: seq<Effect>, packId: string, version: string, dir: string,
                     pack: PackState, req: Request, loads: bool)
    requires forall e | e in puts :: e.PutVersion?
    ensures var d1 := Exec(d, puts);
            var plan := PlanActivation(env, d1, puts, packId, version, dir, pack, req);
            && PlanActivation(env, d1, [], packId, version, dir, pack, req) == plan.(puts := [])
            && plan.puts == puts
            && (plan.Planned? ==>
                  forall fault: Fault ::
                    (!fault.Completes? ==> fault.at >= |puts|)
                    && (fault.Completes? || fault.at > |puts| + UNCOMMITTED ==>
                          loads && LoaderAccepts(d1.active[dir := plan.act.tree], packId, version))
                    ==> PlanEnds(d, plan, loads, fault) == ActivationEnds(d1, plan.act, Shift(fault, |puts|)))
  {
    PutsKeepTheRest(d, puts);
  }

  lemma ActivationPuts(env: Env, d: Disk, puts: seq<Effect>, packId: string, version: string, dir: string,
                       pack: PackState, req: Request)
    ensures PlanActivation(env, d, puts, packId, version, dir, pack, req).puts == puts
  {
  }

  lemma InstallPutsStart(env: Env, d: Disk, source: Tree, enabled: Option<bool>, raw: Bytes, dir: string, req: Request,
                         plan: Plan, first: seq<Effect>)
    requires plan == PlanInstall(env, d, source, enabled, raw, dir, req)
    requires var staged := Staged(source, enabled, raw);
             req.valid && ManifestOf(staged).Some?
             && PlanReplace(env, d, ManifestOf(staged).value.packId, dir).Ok?
             && first == PlanReplace(env, d, ManifestOf(staged).value.packId, dir).value.puts
    ensures first <= plan.puts
  {
    hide Exec, StorePut, PlanReplace, Staged;
  }

  lemma InstallPuts(env: Env, d: Disk, source: Tree, enabled: Option<bool>, raw: Bytes, dir: string, req: Request,
                    plan: Plan, first: seq<Effect>, second: seq<Effect>)
    requires plan == PlanInstall(env, d, source, enabled, raw, dir, req)
    requires var staged := Staged(source, enabled, raw);
             req.valid && ManifestOf(staged).Some?
             && var m := ManifestOf(staged).value;
                var replace := PlanReplace(env, d, m.packId, dir);
                replace.Ok? && first == replace.value.puts && m.version !in replace.value.pack.versions
                && StorePut(env, Exec(d, first), m.packId, m.version, staged, Sha(env, staged)) == Ok(second)
    ensures plan.puts == first + second
  {
  }

  lemma StepsAre(d: Disk, a: Activation)
    ensures var es := Steps(d, a);
            var had := a.dir in d.active;
            && es[0] == MakeSwap(a.tx) && es[1] == PutCandidate(a.dir, a.tx, a.partial)
            && es[2] == PutCandidate(a.dir, a.tx, a.tree)
            && es[3] == WriteJournal(Journal(a.tx, a.dir, Prepared, false))
            && es[4] == WriteJournal(Journal(a.tx, a.dir, Prepared, had)) && es[5] == ActiveToPrevious(a.dir, a.tx)
            && es[6] == WriteJournal(Journal(a.tx, a.dir, PreviousMoved, had))
            && es[7] == CandidateToActive(a.dir, a.tx)
            && es[8] == WriteJournal(Journal(a.tx, a.dir, Activated, had))
            && es[9] == WriteState(a.newState) && es[10] == RemoveJournal
            && es[11] == LeaveInSwap(a.tx, a.leftover) && es[12] == RemoveSwap(a.tx)
  {
  }

  lemma ActiveBeforeSwitch(d: Disk, a: Activation, m: Disk)
    requires Fresh(d, a) && m == Exec(d, Steps(d, a)[..4])
    ensures m.active == d.active
  {
    ExecIsAfter(d, a, 4);
  }

  lemma ActiveAfterSwitch(d: Disk, a: Activation, m: Disk)
    requires Fresh(d, a) && m == Exec(d, Steps(d, a)[..UNCOMMITTED])
    ensures m.active == d.active[a.dir := a.tree]
  {
    ExecIsAfter(d, a, UNCOMMITTED);
  }

  lemma RecoverStepsAre(d: Disk, leftover: Swap)
    ensures var es := RecoverSteps(d, leftover);
            match d.journal
            case None => es == []
            case Some(j) =>
              var n := if j.phase == Prepared then 0 else if j.hadPrevious then 2 else 1;
              && |es| == n + 4
              && (n >= 1 ==> es[0] == ActiveToAbandoned(j.dir, j.tx))
              && (n >= 2 ==> es[1] == PreviousToActive(j.dir, j.tx))
              && es[n] == RemoveCandidate(j.dir, j.tx) && es[n + 1] == LeaveInSwap(j.tx, leftover)
              && es[n + 2] == RemoveSwap(j.tx) && es[n + 3] == RemoveJournal
  {
  }

  lemma CompensateStepsAre(m: Disk, a: Activation, had: bool)
    ensures var es := CompensateSteps(m, a, had);
            var n := if !had then 1 else if a.tx in m.swaps && m.swaps[a.tx].previous.Some? then 2 else 0;
            && |es| == n + 4
            && (n >= 1 ==> es[0] == ActiveToFailed(a.dir, a.tx))
            && (n >= 2 ==> es[1] == PreviousToActive(a.dir, a.tx))
            && es[n] == RemoveCandidate(a.dir, a.tx) && es[n + 1] == RemoveJournal
            && es[n + 2] == LeaveInSwap(a.tx, a.leftover) && es[n + 3] == RemoveSwap(a.tx)
  {
  }

  /** Why a toggle finds nothing to toggle: no directory carries the pack, or several do. */
  function NoSingle(holders: set<string>): (r: Option<Refusal>)
    ensures r.None? <==> |holders| == 1
  {
    if holders == {} then Some(NotInstalled) else if |holders| > 1 then Some(Ambiguous) else None
  }

  lemma NotSingle(s: set<string>)
    requires |s| != 1
    ensures !exists x :: x in s && s == {x}
  {
  }

  lemma SingleHas(s: set<string>)
    requires |s| == 1
    ensures exists x :: x in s && s == {x}
  {
    var x :| x in s;
    assert |s - {x}| == 0;
    assert s == {x};
  }

  function TheOne(s: set<string>): (x: string)
    requires |s| == 1
    ensures x in s && s == {x}
  {
    SingleHas(s);
    var x :| x in s && s == {x};
    x
  }
}
