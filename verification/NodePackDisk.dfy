/**
 The durable state of the node pack manager and the effects that change it, one per atomic operation of
 the operating system: a rename, an atomic JSON write, an unlink. Copying and deleting trees is not
 atomic, so those appear as several effects whose intermediate contents are arbitrary.
 */
module NodePackDisk {
  import opened Common
  import opened PackageTree

  type Tx = nat

  datatype Record = Record(sha: string, dir: string)

  datatype PackState = PackState(versions: map<string, Record>, activeVersion: Option<string>,
                                 activeDir: Option<string>)

  type State = map<string, PackState>

  datatype Phase = Prepared | PreviousMoved | Activated

  datatype Journal = Journal(tx: Tx, dir: string, phase: Phase, hadPrevious: bool)

  /** What the swap directory of one transaction holds. */
  datatype Swap = Swap(previous: Option<Tree>, failed: Option<Tree>, abandoned: Option<Tree>)

  const EMPTY_SWAP := Swap(None, None, None)

  datatype CandidateKey = CandidateKey(dir: string, tx: Tx)

  /** `pack` is the key derived from the pack id; two ids may share one. */
  datatype StoreKey = StoreKey(pack: string, version: string)

  datatype Disk = Disk(
    active: map<string, Tree>,
    candidates: map<CandidateKey, Tree>,
    swaps: map<Tx, Swap>,
    store: map<StoreKey, Tree>,
    state: State,
    journal: Option<Journal>)

  datatype Effect =
    | PutVersion(key: StoreKey, tree: Tree)
    | MakeSwap(tx: Tx)
    | PutCandidate(dir: string, tx: Tx, tree: Tree)
    | WriteJournal(journal: Journal)
    | ActiveToPrevious(dir: string, tx: Tx)
    | CandidateToActive(dir: string, tx: Tx)
    | WriteState(state: State)
    | RemoveJournal
    | LeaveInSwap(tx: Tx, swap: Swap)
    | RemoveSwap(tx: Tx)
    | ActiveToFailed(dir: string, tx: Tx)
    | ActiveToAbandoned(dir: string, tx: Tx)
    | PreviousToActive(dir: string, tx: Tx)
    | RemoveCandidate(dir: string, tx: Tx)
    | WriteFlag(dir: string, enabled: Option<bool>, raw: Bytes)

  /** What a deletion cut short leaves of a swap directory: `left`, but nothing that was not there. */
  function Remains(was: Swap, left: Swap): Swap {
    Swap(if was.previous.None? then None else left.previous,
         if was.failed.None? then None else left.failed,
         if was.abandoned.None? then None else left.abandoned)
  }

  /** The disk after one effect. An effect guarded by `exists()` in the code does nothing when the
      guard fails. */
  function Apply(d: Disk, e: Effect): Disk {
    match e
    case PutVersion(key, tree) => d.(store := d.store[key := tree])
    case MakeSwap(tx) => d.(swaps := d.swaps[tx := EMPTY_SWAP])
    case PutCandidate(dir, tx, tree) => d.(candidates := d.candidates[CandidateKey(dir, tx) := tree])
    case WriteJournal(j) => d.(journal := Some(j))
    case ActiveToPrevious(dir, tx) =>
      if dir in d.active && tx in d.swaps then
        d.(active := d.active - {dir}, swaps := d.swaps[tx := d.swaps[tx].(previous := Some(d.active[dir]))])
      else d
    case CandidateToActive(dir, tx) =>
      if CandidateKey(dir, tx) in d.candidates then
        d.(active := d.active[dir := d.candidates[CandidateKey(dir, tx)]],
           candidates := d.candidates - {CandidateKey(dir, tx)})
      else d
    case WriteState(s) => d.(state := s)
    case RemoveJournal => d.(journal := None)
    case LeaveInSwap(tx, swap) =>
      if tx in d.swaps then d.(swaps := d.swaps[tx := Remains(d.swaps[tx], swap)]) else d
    case RemoveSwap(tx) => d.(swaps := d.swaps - {tx})
    case ActiveToFailed(dir, tx) =>
      if dir in d.active && tx in d.swaps then
        d.(active := d.active - {dir}, swaps := d.swaps[tx := d.swaps[tx].(failed := Some(d.active[dir]))])
      else d
    case ActiveToAbandoned(dir, tx) =>
      if dir in d.active && tx in d.swaps then
        d.(active := d.active - {dir}, swaps := d.swaps[tx := d.swaps[tx].(abandoned := Some(d.active[dir]))])
      else d
    case PreviousToActive(dir, tx) =>
      if tx in d.swaps && d.swaps[tx].previous.Some? then
        d.(active := d.active[dir := d.swaps[tx].previous.value],
           swaps := d.swaps[tx := d.swaps[tx].(previous := None)])
      else d
    case RemoveCandidate(dir, tx) => d.(candidates := d.candidates - {CandidateKey(dir, tx)})
    case WriteFlag(dir, enabled, raw) =>
      if dir in d.active then d.(active := d.active[dir := WithEnabled(d.active[dir], enabled, raw)]) else d
  }

  /** The disk after a whole program; a crash leaves the disk after one of its prefixes. */
  function Exec(d: Disk, es: seq<Effect>): Disk {
    if es == [] then d else Apply(Exec(d, es[..|es| - 1]), es[|es| - 1])
  }

  lemma ExecStep(d: Disk, es: seq<Effect>, k: nat)
    requires k < |es|
    ensures Exec(d, es[..k + 1]) == Apply(Exec(d, es[..k]), es[k])
  {
    assert es[..k + 1][..k] == es[..k];
  }

  lemma {:induction false} ExecAppend(d: Disk, a: seq<Effect>, b: seq<Effect>)
    ensures Exec(d, a + b) == Exec(Exec(d, a), b)
  {
    if b == [] {
      assert a + b == a;
    } else {
      var last := |b| - 1;
      assert (a + b)[..|a + b| - 1] == a + b[..last];
      ExecAppend(d, a, b[..last]);
    }
  }

  lemma ExecNone(d: Disk, es: seq<Effect>)
    ensures Exec(d, es[..0]) == d
  {
  }

  lemma ExecOne(d: Disk, e: Effect)
    ensures Exec(d, [e]) == Apply(d, e)
  {
    assert [e][..0] == [];
  }

  lemma ExecTwo(d: Disk, e: Effect, f: Effect)
    ensures Exec(d, [e, f]) == Apply(Apply(d, e), f)
  {
    assert [e, f][..1] == [e];
    ExecOne(d, e);
  }

  lemma ExecFour(d: Disk, e: Effect, f: Effect, g: Effect, h: Effect)
    ensures Exec(d, [e, f, g, h]) == Apply(Apply(Apply(Apply(d, e), f), g), h)
  {
    ExecAppend(d, [e, f], [g, h]);
    assert [e, f] + [g, h] == [e, f, g, h];
    ExecTwo(d, e, f);
    ExecTwo(Exec(d, [e, f]), g, h);
  }
}
