/**
 What an activation leaves behind when it fails or the process dies: the in-process compensation, every
 single crash followed by a recovery, and a second crash inside the compensation or the recovery.
 */
module NodePackCrashes {
  import opened Common
  import opened PackageTree
  import opened NodePackDisk
  import opened NodePackActivation

  function Committed(d: Disk, a: Activation): Disk {
    d.(active := d.active[a.dir := a.tree], state := a.newState)
  }

  // ----- Compensation inside the process --------------------------------------------------------

  function CompensateHead(m: Disk, a: Activation, had: bool): seq<Effect> {
    if !had then [ActiveToFailed(a.dir, a.tx)]
    else if a.tx in m.swaps && m.swaps[a.tx].previous.Some? then
      [ActiveToFailed(a.dir, a.tx), PreviousToActive(a.dir, a.tx)]
    else []
  }

  function CompensateTail(a: Activation): seq<Effect> {
    [RemoveCandidate(a.dir, a.tx), RemoveJournal, LeaveInSwap(a.tx, a.leftover), RemoveSwap(a.tx)]
  }

  /** `_rollback_activation` on disk `m`; `had` is what the activation saw before it began. */
  function CompensateSteps(m: Disk, a: Activation, had: bool): seq<Effect> {
    CompensateHead(m, a, had) + CompensateTail(a)
  }

  /** What every disk between the compensation's first and last rename has in common. */
  predicate Rewound(d: Disk, a: Activation, k: nat, h: Disk) {
    h.active == d.active && h.candidates == CandidatesAfter(d, a, k) && h.store == d.store
    && h.state == d.state && h.journal == JournalAfter(d, a, k) && h.swaps - {a.tx} == d.swaps
    && a.tx in h.swaps && h.swaps[a.tx].previous.None? && h.swaps[a.tx].abandoned.None?
  }

  lemma MoveFailedAway(d: Disk, a: Activation, k: nat)
    requires Fresh(d, a) && 6 <= k <= UNCOMMITTED
    ensures var m := After(d, a, k);
            var m1 := Apply(m, ActiveToFailed(a.dir, a.tx));
            m1 == m.(active := d.active - {a.dir}, swaps := m1.swaps)
            && m1.swaps - {a.tx} == d.swaps && a.tx in m1.swaps && m1.swaps[a.tx].previous == PreviousOf(d, a)
            && m1.swaps[a.tx].abandoned.None?
  {
    var m := After(d, a, k);
    PutAndDrop(d.active, a.dir, a.tree);
    assert m.active - {a.dir} == d.active - {a.dir};
    assert m.swaps == d.swaps[a.tx := EMPTY_SWAP.(previous := PreviousOf(d, a))];
    var m1 := Apply(m, ActiveToFailed(a.dir, a.tx));
    PutAndDrop(d.swaps, a.tx, m.swaps[a.tx]);
    PutAndDrop(m.swaps, a.tx, m1.swaps[a.tx]);
    if a.dir !in m.active {
      assert m1 == m;
    }
  }

  lemma CompensateHeadIs(d: Disk, a: Activation, k: nat)
    requires Fresh(d, a) && GUARDED <= k <= UNCOMMITTED
    ensures Rewound(d, a, k, Exec(After(d, a, k), CompensateHead(After(d, a, k), a, a.dir in d.active)))
  {
    var m := After(d, a, k);
    PutAndDrop(d.swaps, a.tx, EMPTY_SWAP);
    if k == 5 {
      ExecOne(m, ActiveToFailed(a.dir, a.tx));
    } else {
      MoveFailedAway(d, a, k);
      var m1 := Apply(m, ActiveToFailed(a.dir, a.tx));
      ExecOne(m, ActiveToFailed(a.dir, a.tx));
      PutAndDrop(d.active, a.dir, a.tree);
      if a.dir in d.active {
        ExecTwo(m, ActiveToFailed(a.dir, a.tx), PreviousToActive(a.dir, a.tx));
        MovePreviousBack(d, a, m1);
      }
    }
  }

  lemma MovePreviousBack(d: Disk, a: Activation, m: Disk)
    requires a.dir in d.active && m.active == d.active - {a.dir}
    requires a.tx in m.swaps && m.swaps[a.tx].previous == Some(d.active[a.dir])
    ensures var m1 := Apply(m, PreviousToActive(a.dir, a.tx));
            m1 == m.(active := d.active, swaps := m1.swaps) && m1.swaps - {a.tx} == m.swaps - {a.tx}
            && a.tx in m1.swaps && m1.swaps[a.tx] == m.swaps[a.tx].(previous := None)
  {
    assert (d.active - {a.dir})[a.dir := d.active[a.dir]] == d.active;
    PutAndDrop(m.swaps, a.tx, m.swaps[a.tx].(previous := None));
  }

  lemma CompensateTailIs(m: Disk, a: Activation)
    ensures Exec(m, CompensateTail(a))
            == m.(candidates := m.candidates - {CandidateOf(a)}, swaps := m.swaps - {a.tx}, journal := None)
  {
    ExecFour(m, RemoveCandidate(a.dir, a.tx), RemoveJournal, LeaveInSwap(a.tx, a.leftover), RemoveSwap(a.tx));
    if a.tx in m.swaps {
      PutAndDrop(m.swaps, a.tx, Remains(m.swaps[a.tx], a.leftover));
    }
    var m1 := Apply(m, RemoveCandidate(a.dir, a.tx));
    var m2 := Apply(m1, RemoveJournal);
    var m3 := Apply(m2, LeaveInSwap(a.tx, a.leftover));
    assert m2 == m.(candidates := m.candidates - {CandidateOf(a)}, journal := None);
    assert Apply(m3, RemoveSwap(a.tx)) == m2.(swaps := m.swaps - {a.tx});
  }

  /** In-process atomicity: wherever in the `try` block the activation raises, the state write included,
      the compensated disk is the disk before the activation, with or without a previous version. */
  lemma CompensationRestores(d: Disk, a: Activation, k: nat)
    requires Fresh(d, a) && GUARDED <= k <= UNCOMMITTED
    ensures Exec(After(d, a, k), CompensateSteps(After(d, a, k), a, a.dir in d.active)) == d
  {
    var m := After(d, a, k);
    var head := CompensateHead(m, a, a.dir in d.active);
    CompensateHeadIs(d, a, k);
    ExecAppend(m, head, CompensateTail(a));
    CompensateTailIs(Exec(m, head), a);
    PutAndDrop(d.candidates, CandidateOf(a), a.tree);
  }

  // ----- One crash, one recovery ------------------------------------------------------------------

  /** A crash before the state write. The active directories come back exactly except between the first
      rename and the journal write that reports it; nothing at all is left over unless the crash fell
      between the first directory created and the first journal write. */
  lemma CrashBeforeStateWrite(d: Disk, a: Activation, k: nat, leftover: Swap)
    requires Fresh(d, a) && k <= UNCOMMITTED
    ensures var r := Recovered(After(d, a, k), leftover);
            && !RecoveryBlocked(After(d, a, k))
            && r.state == d.state && r.store == d.store && r.journal.None?
            && (r.active == d.active <==> !(k == 6 && a.dir in d.active))
            && (r == d <==> (k == 0 || k >= GUARDED - 1) && !(k == 6 && a.dir in d.active))
  {
    var m := After(d, a, k);
    if k <= 3 {
      assert Recovered(m, leftover) == m;
      if k == 2 || k == 3 {
        assert CandidateOf(a) in m.candidates;
      }
      assert k > 0 ==> a.tx in m.swaps;
    } else {
      CrashJournalled(d, a, k, leftover);
    }
  }

  lemma CrashJournalled(d: Disk, a: Activation, k: nat, leftover: Swap)
    requires Fresh(d, a) && 4 <= k <= UNCOMMITTED
    ensures var r := Recovered(After(d, a, k), leftover);
            && !RecoveryBlocked(After(d, a, k))
            && r == d.(active := if k == 6 then d.active - {a.dir} else d.active)
  {
    hide Exec, Apply, Recovered, RecoverSteps;
    var m := After(d, a, k);
    assert !RecoveryBlocked(m);
    RecoveredIs(m, leftover);
    PutAndDrop(d.swaps, a.tx, m.swaps[a.tx]);
    PutAndDrop(d.candidates, CandidateOf(a), a.tree);
    PutAndDrop(d.active, a.dir, a.tree);
    if a.dir in d.active {
      assert (d.active - {a.dir})[a.dir := d.active[a.dir]] == d.active;
      assert d.active[a.dir := a.tree][a.dir := d.active[a.dir]] == d.active;
    }
  }

  /** A crash after it: until the journal is unlinked, recovery brings the old directory back under the
      new state; from then on the new directory and the new state stand. */
  lemma CrashAfterStateWrite(d: Disk, a: Activation, k: nat, leftover: Swap)
    requires Fresh(d, a) && UNCOMMITTED < k <= ALL_STEPS
    ensures var r := Recovered(After(d, a, k), leftover);
            && !RecoveryBlocked(After(d, a, k))
            && r.store == d.store && r.candidates == d.candidates && r.journal.None?
            && (k == 10 ==> r == d.(state := a.newState))
            && (k >= 11 ==> r.active == Committed(d, a).active && r.state == a.newState)
            && (k == ALL_STEPS ==> r == Committed(d, a))
  {
    var m := After(d, a, k);
    if k == 10 {
      RecoveredIs(m, leftover);
      PutAndDrop(d.swaps, a.tx, m.swaps[a.tx]);
      PutAndDrop(d.candidates, CandidateOf(a), a.tree);
      PutAndDrop(d.active, a.dir, a.tree);
      if a.dir in d.active {
        assert d.active[a.dir := a.tree][a.dir := d.active[a.dir]] == d.active;
      }
    } else {
      assert Recovered(m, leftover) == m;
    }
  }

  /** Crash atomicity, exactly: after one crash and one recovery the active directories and the state are
      both old or both new, unless the crash fell in one of two windows of a single effect. */
  lemma CrashIsAtomic(d: Disk, a: Activation, k: nat, leftover: Swap)
    requires Fresh(d, a) && k <= ALL_STEPS
    ensures var r := Recovered(After(d, a, k), leftover);
            ((r.active == d.active && r.state == d.state)
             || (r.active == Committed(d, a).active && r.state == a.newState))
            <==> !(k == 6 && a.dir in d.active)
                 && !(k == 10 && d.active != Committed(d, a).active && d.state != a.newState)
  {
    if k <= UNCOMMITTED {
      CrashBeforeStateWrite(d, a, k, leftover);
      if k == 6 && a.dir in d.active {
        RecoveredIs(After(d, a, k), leftover);
        assert a.dir !in Recovered(After(d, a, k), leftover).active;
      }
    } else {
      CrashAfterStateWrite(d, a, k, leftover);
    }
  }

  /** The effects that only tidy up: they touch neither an active directory, nor the store, nor the state. */
  predicate Tidies(e: Effect) {
    e.RemoveCandidate? || e.RemoveJournal? || e.LeaveInSwap? || e.RemoveSwap?
  }

  lemma TidyingKeeps(p: Disk, e: Effect)
    requires Tidies(e)
    ensures var q := Apply(p, e);
            && q.active == p.active && q.store == p.store && q.state == p.state
            && q.journal == (if e.RemoveJournal? then None else p.journal)
            && (e.RemoveCandidate? || e.RemoveJournal? ==> q.swaps == p.swaps)
            && (e.LeaveInSwap? && e.tx in p.swaps ==>
                  e.tx in q.swaps && q.swaps[e.tx] == Remains(p.swaps[e.tx], e.swap))
            && (e.RemoveSwap? ==> e.tx !in q.swaps)
            && (e.LeaveInSwap? && e.tx !in p.swaps ==> q == p)
  {
  }

  // ----- A crash inside the compensation ----------------------------------------------------------

  /** The disk after `c` effects of compensating an upgrade whose old directory had been moved. */
  predicate CompensateMid(d: Disk, a: Activation, j: Option<Journal>, c: nat, p: Disk)
    requires a.dir in d.active
  {
    && (c <= 3 ==> p.journal == j)
    && (c >= 4 ==> p.journal.None?)
    && (1 <= c <= 3 ==> a.tx in p.swaps && p.swaps[a.tx].abandoned.None?
                        && p.swaps[a.tx].previous == if c == 1 then Some(d.active[a.dir]) else None)
    && (c == 1 ==> p.active == d.active - {a.dir})
    && (c >= 2 ==> p.active == d.active)
  }

  lemma CompensateSix(d: Disk, a: Activation, k: nat)
    requires Fresh(d, a) && 6 <= k <= UNCOMMITTED && a.dir in d.active
    ensures CompensateSteps(After(d, a, k), a, true) ==
            [ActiveToFailed(a.dir, a.tx), PreviousToActive(a.dir, a.tx), RemoveCandidate(a.dir, a.tx), RemoveJournal,
             LeaveInSwap(a.tx, a.leftover), RemoveSwap(a.tx)]
  {
  }

  lemma {:induction false} CompensatePrefix(d: Disk, a: Activation, k: nat, c: nat)
    requires Fresh(d, a) && 6 <= k <= UNCOMMITTED && a.dir in d.active && 1 <= c <= 6
    ensures |CompensateSteps(After(d, a, k), a, true)| == 6
    ensures CompensateMid(d, a, JournalAfter(d, a, k), c,
                          Exec(After(d, a, k), CompensateSteps(After(d, a, k), a, true)[..c]))
  {
    var m := After(d, a, k);
    CompensateSix(d, a, k);
    var es := CompensateSteps(m, a, true);
    ExecStep(m, es, c - 1);
    if c == 1 {
      MoveFailedAway(d, a, k);
      assert es[..0] == [];
    } else {
      CompensatePrefix(d, a, k, c - 1);
      CompensateMidNext(d, a, JournalAfter(d, a, k), c - 1, Exec(m, es[..c - 1]), es[c - 1]);
    }
  }

  lemma CompensateMidNext(d: Disk, a: Activation, j: Option<Journal>, c: nat, p: Disk, e: Effect)
    requires a.dir in d.active && 1 <= c <= 5 && CompensateMid(d, a, j, c, p)
    requires c == 1 ==> e == PreviousToActive(a.dir, a.tx)
    requires c >= 2 ==> Tidies(e) && (c == 2 ==> e.RemoveCandidate?) && (e.RemoveJournal? <==> c == 3)
    ensures CompensateMid(d, a, j, c + 1, Apply(p, e))
  {
    if c == 1 {
      MovePreviousBack(d, a, p);
    } else {
      TidyingKeeps(p, e);
    }
  }

  /** Dying after `c` effects of a compensation that began after `k` effects loses the active directory. */
  predicate CompensationLoses(k: nat, c: nat) {
    (k == 6 && c <= 1) || (k >= 7 && 2 <= c <= 3)
  }

  /** The compensation is not re-entrant: dying between its rename back and its journal removal loses the
      active directory to the next recovery, and dying earlier in the unjournalled window does too. */
  lemma CrashInCompensation(d: Disk, a: Activation, k: nat, c: nat, leftover: Swap)
    requires Fresh(d, a) && GUARDED <= k <= UNCOMMITTED
    requires c <= |CompensateSteps(After(d, a, k), a, a.dir in d.active)|
    ensures var m := After(d, a, k);
            var p := Exec(m, CompensateSteps(m, a, a.dir in d.active)[..c]);
            && !RecoveryBlocked(p)
            && (Recovered(p, leftover).active == d.active <==> !(a.dir in d.active && CompensationLoses(k, c)))
            && (CompensationLoses(k, c) ==> Recovered(p, leftover).active == d.active - {a.dir})
  {
    var m := After(d, a, k);
    var es := CompensateSteps(m, a, a.dir in d.active);
    var p := Exec(m, es[..c]);
    if c == 0 {
      assert es[..0] == [];
      CrashBeforeStateWrite(d, a, k, leftover);
      if k == 6 {
        CrashJournalled(d, a, k, leftover);
      }
    } else if a.dir in d.active && k >= 6 {
      CompensatePrefix(d, a, k, c);
      RecoverMovedBack(d, a, JournalAfter(d, a, k), c, p, leftover);
    } else {
      CompensateQuiet(d, a, k, c);
      if p.journal.Some? {
        RecoveredIs(p, leftover);
        assert a.dir !in d.active ==> d.active - {a.dir} == d.active;
      } else {
        assert Recovered(p, leftover) == p;
      }
    }
  }

  lemma RecoverMovedBack(d: Disk, a: Activation, j: Option<Journal>, c: nat, p: Disk, leftover: Swap)
    requires a.dir in d.active && 1 <= c <= 6 && CompensateMid(d, a, j, c, p)
    requires j.Some? && j.value.tx == a.tx && j.value.dir == a.dir && j.value.hadPrevious
    ensures !RecoveryBlocked(p)
    ensures Recovered(p, leftover).active == d.active
            <==> !((j.value.phase == Prepared && c == 1) || (j.value.phase != Prepared && 2 <= c <= 3))
    ensures (j.value.phase == Prepared && c == 1) || (j.value.phase != Prepared && 2 <= c <= 3) ==>
              Recovered(p, leftover).active == d.active - {a.dir}
  {
    if c >= 4 {
      assert Recovered(p, leftover) == p;
    } else {
      RecoveredIs(p, leftover);
      assert (d.active - {a.dir})[a.dir := d.active[a.dir]] == d.active;
      if c >= 2 {
        assert a.dir !in d.active - {a.dir};
      }
    }
  }

  /** Without a previous version, or before it was moved, the compensation touches nothing it could lose. */
  lemma {:induction false} CompensateQuiet(d: Disk, a: Activation, k: nat, c: nat)
    requires Fresh(d, a) && GUARDED <= k <= UNCOMMITTED && (k == 5 || a.dir !in d.active)
    requires 0 < c <= |CompensateSteps(After(d, a, k), a, a.dir in d.active)|
    ensures var m := After(d, a, k);
            var p := Exec(m, CompensateSteps(m, a, a.dir in d.active)[..c]);
            && (p.journal.None? || (p.journal == m.journal && a.tx in p.swaps && p.swaps[a.tx].previous.None?
                                    && p.swaps[a.tx].abandoned.None?))
            && p.active == d.active
            && (c + 3 > |CompensateSteps(m, a, a.dir in d.active)| ==> p.journal.None?)
  {
    var m := After(d, a, k);
    var es := CompensateSteps(m, a, a.dir in d.active);
    var head := CompensateHead(m, a, a.dir in d.active);
    ExecStep(m, es, c - 1);
    if c == |head| {
      CompensateHeadIs(d, a, k);
      assert es[..c] == head;
    } else {
      assert Tidies(es[c - 1]) && (c == |head| + 1 ==> es[c - 1].RemoveCandidate?)
             && (c == |head| + 2 ==> es[c - 1].RemoveJournal?);
      if c == 1 {
        assert es[..0] == [];
      } else {
        CompensateQuiet(d, a, k, c - 1);
      }
      TidyingKeeps(Exec(m, es[..c - 1]), es[c - 1]);
    }
  }

  // ----- A recovery cut short, on any disk ----------------------------------------------------------

  lemma RecoveredNothing(p: Disk, leftover: Swap)
    requires p.journal.None?
    ensures Recovered(p, leftover) == p
  {
  }

  /** The next recovery ends where this one would have: there was nothing to move back, or it was cut before it
      moved the previous directory back, or it had finished. */
  predicate Repeatable(d: Disk, leftover: Swap, r: nat) {
    d.journal.Some? && d.journal.value.phase != Prepared && d.journal.value.hadPrevious ==>
      r <= 1 || r >= |RecoverSteps(d, leftover)|
  }

  lemma {:induction false} TidyPrefix(m: Disk, j: Journal, leftover: Swap, t: nat)
    requires m.journal == Some(j) && t <= 4
    ensures var tail := [RemoveCandidate(j.dir, j.tx), LeaveInSwap(j.tx, leftover), RemoveSwap(j.tx), RemoveJournal];
            var p := Exec(m, tail[..t]);
            p.active == m.active && p.journal == if t == 4 then None else Some(j)
  {
    hide Apply;
    var tail := [RemoveCandidate(j.dir, j.tx), LeaveInSwap(j.tx, leftover), RemoveSwap(j.tx), RemoveJournal];
    if t > 0 {
      TidyPrefix(m, j, leftover, t - 1);
      ExecStep(m, tail, t - 1);
      TidyingKeeps(Exec(m, tail[..t - 1]), tail[t - 1]);
    }
  }

  /** Cut short after `r` effects, a recovery that is repeatable leaves a disk the next one can finish. */
  lemma RecoveryRepeats(d: Disk, leftover: Swap, left2: Swap, r: nat)
    requires !RecoveryBlocked(d) && Repeatable(d, leftover, r) && r <= |RecoverSteps(d, leftover)|
    ensures var p := Exec(d, RecoverSteps(d, leftover)[..r]);
            !RecoveryBlocked(p) && Recovered(p, left2).active == Recovered(d, left2).active
  {
    hide Exec, Apply, Recovered;
    var es := RecoverSteps(d, leftover);
    var p := Exec(d, es[..r]);
    if d.journal.None? || r == 0 {
      ExecNone(d, es);
      assert es[..r] == es[..0];
    } else {
      RecoveredIs(d, left2);
      if r == |es| {
        RecoveredIs(d, leftover);
        assert es[..r] == es;
        CompleteIsRecovered(d, leftover);
        RecoveredNothing(p, left2);
      } else if d.journal.value.hadPrevious && d.journal.value.phase != Prepared {
        CutBeforeMovingBack(d, leftover);
        RecoveredIs(p, left2);
      } else {
        CutWhileTidying(d, leftover, r);
        RecoveredIs(p, left2);
      }
    }
  }

  lemma CompleteIsRecovered(d: Disk, leftover: Swap)
    requires !RecoveryBlocked(d)
    ensures Exec(d, RecoverSteps(d, leftover)) == Recovered(d, leftover)
  {
  }

  lemma CutBeforeMovingBack(d: Disk, leftover: Swap)
    requires !RecoveryBlocked(d) && d.journal.Some? && d.journal.value.phase != Prepared && d.journal.value.hadPrevious
    ensures var p := Exec(d, RecoverSteps(d, leftover)[..1]);
            !RecoveryBlocked(p) && p.journal == d.journal && RecoveredActive(p) == RecoveredActive(d)
  {
    var j := d.journal.value;
    var e := ActiveToAbandoned(j.dir, j.tx);
    assert RecoverSteps(d, leftover)[..1] == [e];
    ExecOne(d, e);
    var p := Apply(d, e);
    if j.tx in d.swaps && d.swaps[j.tx].previous.Some? {
      PutAndDrop(d.active, j.dir, d.swaps[j.tx].previous.value);
      assert p.active[j.dir := d.swaps[j.tx].previous.value] == d.active[j.dir := d.swaps[j.tx].previous.value];
    }
  }

  lemma CutWhileTidying(d: Disk, leftover: Swap, r: nat)
    requires !RecoveryBlocked(d) && d.journal.Some? && 0 < r < |RecoverSteps(d, leftover)|
    requires d.journal.value.phase == Prepared || !d.journal.value.hadPrevious
    ensures var p := Exec(d, RecoverSteps(d, leftover)[..r]);
            !RecoveryBlocked(p) && p.journal == d.journal && RecoveredActive(p) == RecoveredActive(d)
  {
    hide Exec, Apply;
    var j := d.journal.value;
    var es := RecoverSteps(d, leftover);
    var tail := [RemoveCandidate(j.dir, j.tx), LeaveInSwap(j.tx, leftover), RemoveSwap(j.tx), RemoveJournal];
    var head := es[..|es| - 4];
    assert es == head + tail;
    assert es[..r] == head + tail[..r - |head|];
    ExecAppend(d, head, tail[..r - |head|]);
    RecoverHead(d, head);
    TidyPrefix(Exec(d, head), j, leftover, r - |head|);
  }

  /** The new directory stands in the way under the name the next recovery would move the current one to. */
  predicate Abandoned(d: Disk)
    requires d.journal.Some?
  {
    var j := d.journal.value;
    j.dir in d.active || (j.tx in d.swaps && d.swaps[j.tx].abandoned.Some?)
  }

  /** Cut short after `r` effects, once the previous directory is back, a recovery leaves a disk on which no other
      can proceed. */
  predicate CutBlocks(d: Disk, leftover: Swap, r: nat)
    requires d.journal.Some?
  {
    var j := d.journal.value;
    j.tx in d.swaps && d.swaps[j.tx].previous.Some?
    && (r == 5 || (Abandoned(d) && (r <= 3 || leftover.abandoned.Some?)))
  }

  /** The disk after `r` effects of a recovery that has put the previous directory back. */
  predicate PutBack(d: Disk, leftover: Swap, r: nat, p: Disk)
    requires d.journal.Some?
  {
    var j := d.journal.value;
    && p.active == RecoveredActive(d) && p.journal == d.journal
    && (j.tx in p.swaps <==> j.tx in d.swaps && r != 5)
    && (j.tx in p.swaps ==>
          p.swaps[j.tx].previous.None?
          && (p.swaps[j.tx].abandoned.Some? <==> Abandoned(d) && (r <= 3 || leftover.abandoned.Some?)))
  }

  /** What such a recovery does, effect by effect. */
  lemma MovingSteps(d: Disk, leftover: Swap)
    requires d.journal.Some? && d.journal.value.phase != Prepared && d.journal.value.hadPrevious
    ensures var j := d.journal.value;
            RecoverSteps(d, leftover)
            == [ActiveToAbandoned(j.dir, j.tx), PreviousToActive(j.dir, j.tx), RemoveCandidate(j.dir, j.tx),
                LeaveInSwap(j.tx, leftover), RemoveSwap(j.tx), RemoveJournal]
  {
  }

  lemma PutBackFirst(d: Disk, leftover: Swap)
    requires !RecoveryBlocked(d) && d.journal.Some?
    requires d.journal.value.phase != Prepared && d.journal.value.hadPrevious
    ensures |RecoverSteps(d, leftover)| == 6 && PutBack(d, leftover, 2, Exec(d, RecoverSteps(d, leftover)[..2]))
  {
    hide Exec;
    var j := d.journal.value;
    var e, f := ActiveToAbandoned(j.dir, j.tx), PreviousToActive(j.dir, j.tx);
    MovingSteps(d, leftover);
    assert RecoverSteps(d, leftover)[..2] == [e, f];
    ExecTwo(d, e, f);
    if j.tx in d.swaps && d.swaps[j.tx].previous.Some? {
      PutAndDrop(d.active, j.dir, d.swaps[j.tx].previous.value);
    }
  }

  lemma {:induction false} PutBackIs(d: Disk, leftover: Swap, r: nat)
    requires !RecoveryBlocked(d) && d.journal.Some?
    requires d.journal.value.phase != Prepared && d.journal.value.hadPrevious && 2 <= r <= 5
    ensures |RecoverSteps(d, leftover)| == 6 && PutBack(d, leftover, r, Exec(d, RecoverSteps(d, leftover)[..r]))
  {
    hide Exec, Apply, RecoveredActive, Abandoned;
    if r == 2 {
      PutBackFirst(d, leftover);
    } else {
      MovingSteps(d, leftover);
      PutBackIs(d, leftover, r - 1);
      var es := RecoverSteps(d, leftover);
      ExecStep(d, es, r - 1);
      TidyingKeeps(Exec(d, es[..r - 1]), es[r - 1]);
    }
  }

  /** Cut short once the previous directory is back, a recovery leaves that directory to be moved away by the next
      one, unless that one is blocked. */
  lemma RecoveryCutShort(d: Disk, leftover: Swap, left2: Swap, r: nat)
    requires !RecoveryBlocked(d) && !Repeatable(d, leftover, r)
    ensures r < |RecoverSteps(d, leftover)|
    ensures var p := Exec(d, RecoverSteps(d, leftover)[..r]);
            && (RecoveryBlocked(p) <==> CutBlocks(d, leftover, r))
            && (!RecoveryBlocked(p) ==>
                  Recovered(p, left2).active == Recovered(d, left2).active - {d.journal.value.dir})
  {
    hide Exec, Apply, Recovered, RecoverSteps;
    PutBackIs(d, leftover, if r < 2 then 2 else if r > 5 then 5 else r);
    RecoveredIs(d, left2);
    var p := Exec(d, RecoverSteps(d, leftover)[..r]);
    assert d.journal.value.dir in RecoveredActive(d)
           <==> d.journal.value.tx in d.swaps && d.swaps[d.journal.value.tx].previous.Some?;
    if !RecoveryBlocked(p) {
      RecoveredIs(p, left2);
    }
  }

  // ----- A crash inside the recovery of an activation -----------------------------------------------

  lemma RecoverSix(d: Disk, a: Activation, k: nat, leftover: Swap)
    requires Fresh(d, a) && 7 <= k <= 10 && a.dir in d.active
    ensures RecoverSteps(After(d, a, k), leftover) ==
            [ActiveToAbandoned(a.dir, a.tx), PreviousToActive(a.dir, a.tx), RemoveCandidate(a.dir, a.tx),
             LeaveInSwap(a.tx, leftover), RemoveSwap(a.tx), RemoveJournal]
  {
  }

  /** The recovery is not re-entrant either: once it has put the previous directory back, only the journal removal
      makes a further recovery harmless. Until then the next one moves that directory away or cannot finish. */
  lemma CrashInRecovery(d: Disk, a: Activation, k: nat, r: nat, left1: Swap, left2: Swap)
    requires Fresh(d, a) && 4 <= k <= 10
    requires r <= |RecoverSteps(After(d, a, k), left1)|
    ensures var m := After(d, a, k);
            var p := Exec(m, RecoverSteps(m, left1)[..r]);
            !RecoveryBlocked(p) && Recovered(p, left2).active == Recovered(m, left1).active
            <==> k <= 6 || a.dir !in d.active || r <= 1 || r == 6
  {
    hide Exec, Recovered;
    var m := After(d, a, k);
    assert !RecoveryBlocked(m);
    RecoveredIs(m, left1);
    RecoveredIs(m, left2);
    if k >= 7 && a.dir in d.active {
      RecoverSix(d, a, k, left1);
    }
    if Repeatable(m, left1, r) {
      RecoveryRepeats(m, left1, left2, r);
    } else {
      RecoveryCutShort(m, left1, left2, r);
      assert a.dir in RecoveredActive(m);
    }
  }
}
