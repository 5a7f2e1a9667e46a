/**
 One activation of a stored version: the journalled directory switch, the commit, the in-process
 compensation and the restart recovery. Programs are sequences of effects; a crash after `k` effects
 leaves the disk after the first `k` of them.
 */
module NodePackActivation {
  import opened Common
  import opened PackageTree
  import opened NodePackDisk

  /** `partial` is what the candidate directory holds while the copy is under way, `leftover` what the
      swap directory holds while it is being deleted. */
  datatype Activation = Activation(tx: Tx, dir: string, tree: Tree, newState: State, partial: Tree, leftover: Swap)

  /** Effects before the `try` block, effects before the state write, and all of them. */
  const GUARDED: nat := 5
  const UNCOMMITTED: nat := 9
  const ALL_STEPS: nat := 13

  function CandidateOf(a: Activation): CandidateKey {
    CandidateKey(a.dir, a.tx)
  }

  /** The `k`-th effect of the activation of `a` on disk `d`. */
  function StepAt(d: Disk, a: Activation, k: nat): Effect
    requires k < ALL_STEPS
  {
    var had := a.dir in d.active;
    match k
    case 0 => MakeSwap(a.tx)
    case 1 => PutCandidate(a.dir, a.tx, a.partial)
    case 2 => PutCandidate(a.dir, a.tx, a.tree)
    case 3 => WriteJournal(Journal(a.tx, a.dir, Prepared, false))
    case 4 => WriteJournal(Journal(a.tx, a.dir, Prepared, had))
    case 5 => ActiveToPrevious(a.dir, a.tx)
    case 6 => WriteJournal(Journal(a.tx, a.dir, PreviousMoved, had))
    case 7 => CandidateToActive(a.dir, a.tx)
    case 8 => WriteJournal(Journal(a.tx, a.dir, Activated, had))
    case 9 => WriteState(a.newState)
    case 10 => RemoveJournal
    case 11 => LeaveInSwap(a.tx, a.leftover)
    case _ => RemoveSwap(a.tx)
  }

  /** All of them, from the swap directory to the end of the commit. */
  function Steps(d: Disk, a: Activation): (es: seq<Effect>)
    ensures |es| == ALL_STEPS
    ensures forall k | 0 <= k < |es| :: es[k] == StepAt(d, a, k)
  {
    seq(ALL_STEPS, k requires 0 <= k < ALL_STEPS => StepAt(d, a, k))
  }

  /** The transaction id is new and no earlier transaction is pending. */
  predicate Fresh(d: Disk, a: Activation) {
    d.journal.None? && a.tx !in d.swaps && CandidateOf(a) !in d.candidates
  }

  // ----- The disk after k effects, in closed form ----------------------------------------------

  function ActiveAfter(d: Disk, a: Activation, k: nat): map<string, Tree> {
    if k <= 5 then d.active else if k <= 7 then d.active - {a.dir} else d.active[a.dir := a.tree]
  }

  function PreviousOf(d: Disk, a: Activation): Option<Tree> {
    if a.dir in d.active then Some(d.active[a.dir]) else None
  }

  function CandidatesAfter(d: Disk, a: Activation, k: nat): map<CandidateKey, Tree> {
    if k <= 1 || k >= 8 then d.candidates
    else d.candidates[CandidateOf(a) := if k == 2 then a.partial else a.tree]
  }

  function SwapsAfter(d: Disk, a: Activation, k: nat): map<Tx, Swap> {
    if k == 0 || k >= 13 then d.swaps
    else if k <= 5 then d.swaps[a.tx := EMPTY_SWAP]
    else if k <= 11 then d.swaps[a.tx := EMPTY_SWAP.(previous := PreviousOf(d, a))]
    else d.swaps[a.tx := Remains(EMPTY_SWAP.(previous := PreviousOf(d, a)), a.leftover)]
  }

  function JournalAfter(d: Disk, a: Activation, k: nat): Option<Journal> {
    var had := a.dir in d.active;
    if k <= 3 || k >= 11 then None
    else if k == 4 then Some(Journal(a.tx, a.dir, Prepared, false))
    else if k <= 6 then Some(Journal(a.tx, a.dir, Prepared, had))
    else if k <= 8 then Some(Journal(a.tx, a.dir, PreviousMoved, had))
    else Some(Journal(a.tx, a.dir, Activated, had))
  }

  function After(d: Disk, a: Activation, k: nat): Disk {
    Disk(ActiveAfter(d, a, k), CandidatesAfter(d, a, k), SwapsAfter(d, a, k), d.store,
         if k <= 9 then d.state else a.newState, JournalAfter(d, a, k))
  }

  lemma AfterNext(d: Disk, a: Activation, k: nat)
    requires Fresh(d, a) && k < ALL_STEPS
    ensures Apply(After(d, a, k), StepAt(d, a, k)) == After(d, a, k + 1)
  {
    if k == 5 || k == 7 {
      AfterRename(d, a, k);
    } else if k <= 2 {
      AfterCopy(d, a, k);
    } else if k >= 10 {
      AfterCommit(d, a, k);
    }
  }

  lemma AfterCopy(d: Disk, a: Activation, k: nat)
    requires Fresh(d, a) && k <= 2
    ensures Apply(After(d, a, k), StepAt(d, a, k)) == After(d, a, k + 1)
  {
    assert d.candidates[CandidateOf(a) := a.partial][CandidateOf(a) := a.tree]
           == d.candidates[CandidateOf(a) := a.tree];
  }

  lemma AfterCommit(d: Disk, a: Activation, k: nat)
    requires Fresh(d, a) && 10 <= k < ALL_STEPS
    ensures Apply(After(d, a, k), StepAt(d, a, k)) == After(d, a, k + 1)
  {
    var m := After(d, a, k);
    var left := Remains(EMPTY_SWAP.(previous := PreviousOf(d, a)), a.leftover);
    PutAndDrop(d.swaps, a.tx, left);
    if k == 11 {
      assert m.swaps[a.tx := left] == d.swaps[a.tx := left];
    }
  }

  lemma AfterRename(d: Disk, a: Activation, k: nat)
    requires Fresh(d, a) && (k == 5 || k == 7)
    ensures Apply(After(d, a, k), StepAt(d, a, k)) == After(d, a, k + 1)
  {
    PutAndDrop(d.active, a.dir, a.tree);
    PutAndDrop(d.candidates, CandidateOf(a), a.tree);
    var m := After(d, a, k);
    var e := StepAt(d, a, k);
    if k == 5 {
      assert Apply(m, e).active == d.active - {a.dir};
      assert Apply(m, e).swaps == After(d, a, 6).swaps;
    } else {
      assert Apply(m, e).active == d.active[a.dir := a.tree];
      assert Apply(m, e).candidates == d.candidates;
    }
  }

  lemma {:induction false} ExecIsAfter(d: Disk, a: Activation, k: nat)
    requires Fresh(d, a) && k <= ALL_STEPS
    ensures Exec(d, Steps(d, a)[..k]) == After(d, a, k)
  {
    if k > 0 {
      ExecIsAfter(d, a, k - 1);
      ExecStep(d, Steps(d, a), k - 1);
      AfterNext(d, a, k - 1);
    }
  }

  // ----- Restart recovery ----------------------------------------------------------------------

  function RecoverSteps(d: Disk, leftover: Swap): seq<Effect> {
    match d.journal
    case None => []
    case Some(j) =>
      (if j.phase == Prepared then []
       else [ActiveToAbandoned(j.dir, j.tx)] + (if j.hadPrevious then [PreviousToActive(j.dir, j.tx)] else []))
      + [RemoveCandidate(j.dir, j.tx), LeaveInSwap(j.tx, leftover), RemoveSwap(j.tx), RemoveJournal]
  }

  /** The rename to `abandoned-active` fails: its target is taken or its parent directory is gone. */
  predicate RecoveryBlocked(d: Disk) {
    d.journal.Some? && d.journal.value.phase != Prepared && d.journal.value.dir in d.active
    && (d.journal.value.tx !in d.swaps || d.swaps[d.journal.value.tx].abandoned.Some?)
  }

  /** One complete recovery run; a blocked one raises before it changed anything. */
  function Recovered(d: Disk, leftover: Swap): Disk {
    if RecoveryBlocked(d) then d else Exec(d, RecoverSteps(d, leftover))
  }

  /** What the active directories are after a complete recovery. */
  function RecoveredActive(d: Disk): map<string, Tree>
    requires d.journal.Some?
  {
    var j := d.journal.value;
    if j.phase == Prepared then d.active
    else if j.hadPrevious && j.tx in d.swaps && d.swaps[j.tx].previous.Some? then
      d.active[j.dir := d.swaps[j.tx].previous.value]
    else d.active - {j.dir}
  }

  lemma RecoveredIs(d: Disk, leftover: Swap)
    requires d.journal.Some? && !RecoveryBlocked(d)
    ensures Recovered(d, leftover) ==
            Disk(RecoveredActive(d), d.candidates - {CandidateKey(d.journal.value.dir, d.journal.value.tx)},
                 d.swaps - {d.journal.value.tx}, d.store, d.state, None)
  {
    var j := d.journal.value;
    var tail := [RemoveCandidate(j.dir, j.tx), LeaveInSwap(j.tx, leftover), RemoveSwap(j.tx), RemoveJournal];
    var head := RecoverSteps(d, leftover)[..|RecoverSteps(d, leftover)| - 4];
    assert RecoverSteps(d, leftover) == head + tail;
    ExecAppend(d, head, tail);
    var m := Exec(d, head);
    RecoverHead(d, head);
    RecoverTail(m, j, leftover);
  }

  lemma RecoverHead(d: Disk, head: seq<Effect>)
    requires d.journal.Some? && !RecoveryBlocked(d)
    requires var j := d.journal.value;
             head == if j.phase == Prepared then []
                     else
                       [ActiveToAbandoned(j.dir, j.tx)]
                       + (if j.hadPrevious then [PreviousToActive(j.dir, j.tx)] else [])
    ensures var m := Exec(d, head);
            m.active == RecoveredActive(d) && m.candidates == d.candidates && m.store == d.store && m.state == d.state
            && m.journal == d.journal && m.swaps - {d.journal.value.tx} == d.swaps - {d.journal.value.tx}
  {
    hide Exec;
    var j := d.journal.value;
    if j.phase == Prepared {
      ExecNone(d, head);
      assert head[..0] == head;
    } else {
      var e := ActiveToAbandoned(j.dir, j.tx);
      ExecOne(d, e);
      var m := Apply(d, e);
      assert m.active == d.active - {j.dir} && m.swaps - {j.tx} == d.swaps - {j.tx};
      if j.hadPrevious {
        var f := PreviousToActive(j.dir, j.tx);
        assert head == [e, f];
        ExecTwo(d, e, f);
        if j.tx in d.swaps && d.swaps[j.tx].previous.Some? {
          PutAndDrop(d.active, j.dir, d.swaps[j.tx].previous.value);
          PutAndDrop(m.swaps, j.tx, m.swaps[j.tx].(previous := None));
        }
      } else {
        assert head == [e];
      }
    }
  }

  lemma RecoverTail(m: Disk, j: Journal, leftover: Swap)
    ensures Exec(m, [RemoveCandidate(j.dir, j.tx), LeaveInSwap(j.tx, leftover), RemoveSwap(j.tx), RemoveJournal])
            == m.(candidates := m.candidates - {CandidateKey(j.dir, j.tx)}, swaps := m.swaps - {j.tx}, journal := None)
  {
    hide Exec, Apply;
    ExecFour(m, RemoveCandidate(j.dir, j.tx), LeaveInSwap(j.tx, leftover), RemoveSwap(j.tx), RemoveJournal);
    TidyUp(m, j, leftover);
  }

  lemma TidyUp(m: Disk, j: Journal, leftover: Swap)
    ensures var m1 := Apply(m, RemoveCandidate(j.dir, j.tx));
            var m2 := Apply(m1, LeaveInSwap(j.tx, leftover));
            var m3 := Apply(m2, RemoveSwap(j.tx));
            Apply(m3, RemoveJournal)
            == m.(candidates := m.candidates - {CandidateKey(j.dir, j.tx)}, swaps := m.swaps - {j.tx}, journal := None)
  {
    if j.tx in m.swaps {
      PutAndDrop(m.swaps, j.tx, Remains(m.swaps[j.tx], leftover));
    }
  }
}
