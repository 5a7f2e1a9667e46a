/**
 Deleting Workflow files together with their database rows: every directory is first renamed aside, then one
 transaction deletes the rows, and only then the renamed directories are deleted. A failure before the commit
 renames everything back in reverse order.
 */
module RenameSaga {
  import opened Common

  type Path = seq<string>

  datatype Content = Directory | File(bytes: seq<bv8>)

  /** Every path that exists, with what it is. */
  type Files = map<Path, Content>

  // ----- A tree of files ------------------------------------------------------------------------------------

  predicate TreeShaped(fs: Files) {
    forall k | k in fs && k != [] :: k[..|k| - 1] in fs
  }

  /** In a tree the ancestors of what exists exist. */
  lemma {:induction false} AncestorExists(fs: Files, p: Path, k: Path)
    requires TreeShaped(fs) && k in fs && p <= k
    ensures p in fs
    decreases |k|
  {
    if p != k {
      AncestorExists(fs, p, k[..|k| - 1]);
    }
  }

  /** Where a path ends up when `a` is renamed to `b`. */
  function Moved(a: Path, b: Path, k: Path): Path {
    if a <= k then b + k[|a|..] else k
  }

  /** Renaming a directory takes along everything below it. */
  function Rename(fs: Files, a: Path, b: Path): Files {
    map k | k in (set j | j in fs :: Moved(a, b, j)) && Moved(b, a, k) in fs :: fs[Moved(b, a, k)]
  }

  function StagingOf(p: Path, mark: string): Path
    requires p != []
  {
    p[..|p| - 1] + ["." + p[|p| - 1] + mark]
  }

  /** Two names side by side. */
  predicate Siblings(a: Path, b: Path) {
    a != [] && |a| == |b| && a[..|a| - 1] == b[..|b| - 1] && a != b
  }

  lemma StagingIsSibling(p: Path, mark: string)
    requires p != []
    ensures Siblings(p, StagingOf(p, mark))
  {
    assert |("." + p[|p| - 1] + mark)| > |p[|p| - 1]|;
    assert p[|p| - 1] != StagingOf(p, mark)[|p| - 1];
  }

  predicate FreeBelow(fs: Files, p: Path) {
    forall k | k in fs :: !(p <= k)
  }

  lemma FreeInTree(fs: Files, p: Path)
    requires TreeShaped(fs)
    ensures p !in fs ==> FreeBelow(fs, p)
  {
    if p !in fs {
      forall k | k in fs ensures !(p <= k) {
        if p <= k {
          AncestorExists(fs, p, k);
        }
      }
    }
  }

  /** What a rename to a free sibling leaves, key by key. */
  lemma RenameIs(fs: Files, a: Path, b: Path)
    requires Siblings(a, b) && FreeBelow(fs, b)
    ensures forall k :: k in Rename(fs, a, b) <==> (k in fs && !(a <= k)) || (b <= k && a + k[|b|..] in fs)
    ensures forall k | k in Rename(fs, a, b) :: Rename(fs, a, b)[k] == if b <= k then fs[a + k[|b|..]] else fs[k]
  {
    forall k ensures k in Rename(fs, a, b) <==> (k in fs && !(a <= k)) || (b <= k && a + k[|b|..] in fs) {
      if b <= k {
        var j := a + k[|b|..];
        assert Moved(b, a, k) == j && !(a <= k);
        assert b + j[|a|..] == k;
        assert j in fs ==> Moved(a, b, j) == k;
      } else if a <= k {
        assert forall j | j in fs :: Moved(a, b, j) != k;
      } else {
        assert k in fs ==> Moved(a, b, k) == k;
      }
    }
  }

  lemma RenameBack(fs: Files, a: Path, b: Path)
    requires Siblings(a, b) && FreeBelow(fs, b)
    ensures Rename(Rename(fs, a, b), b, a) == fs
  {
    hide Rename;
    RenameIs(fs, a, b);
    var u := Rename(fs, a, b);
    assert FreeBelow(u, a);
    RenameIs(u, b, a);
    var v := Rename(u, b, a);
    forall k ensures k in v <==> k in fs {
      if a <= k {
        assert b + k[|a|..] in u <==> a + (b + k[|a|..])[|b|..] in fs;
        assert a + (b + k[|a|..])[|b|..] == k;
      }
    }
    forall k | k in v ensures v[k] == fs[k] {
      if a <= k {
        assert a + (b + k[|a|..])[|b|..] == k;
      }
    }
  }

  lemma RenameKeepsTree(fs: Files, a: Path, b: Path)
    requires TreeShaped(fs) && Siblings(a, b) && FreeBelow(fs, b) && a in fs
    ensures TreeShaped(Rename(fs, a, b))
  {
    hide Rename;
    RenameIs(fs, a, b);
    var u := Rename(fs, a, b);
    forall k | k in u && k != [] ensures k[..|k| - 1] in u {
      var up := k[..|k| - 1];
      if k == b {
        assert up == a[..|a| - 1];
      } else if b <= k {
        var j := a + k[|b|..];
        assert j[..|j| - 1] == a + up[|b|..];
      }
    }
  }

  // ----- Staging and its undo -----------------------------------------------------------------------------------

  /** `sources` are the paths renamed so far, in order. */
  datatype Progress = Progress(fs: Files, sources: seq<Path>, ok: bool)

  predicate Named(paths: seq<Path>) {
    forall i | 0 <= i < |paths| :: paths[i] != []
  }

  /** After looking at the first `n` paths; `renames` says which renames the system lets through. */
  function StageUpTo(fs: Files, paths: seq<Path>, mark: string, renames: nat -> bool, n: nat): Progress
    requires n <= |paths| && Named(paths)
  {
    if n == 0 then Progress(fs, [], true)
      else StageNext(StageUpTo(fs, paths, mark, renames, n - 1), paths[n - 1], mark, renames(n - 1))
  }

  function StageNext(s: Progress, p: Path, mark: string, renamed: bool): Progress
    requires p != []
  {
    if !s.ok || p !in s.fs then s
    else if StagingOf(p, mark) in s.fs || !renamed then s.(ok := false)
    else Progress(Rename(s.fs, p, StagingOf(p, mark)), s.sources + [p], true)
  }

  function UndoOne(fs: Files, p: Path, mark: string): Files
    requires p != []
  {
    if StagingOf(p, mark) in fs && p !in fs then Rename(fs, StagingOf(p, mark), p) else fs
  }

  /** The compensation, last rename first. */
  function Undo(fs: Files, sources: seq<Path>, mark: string): Files
    requires Named(sources)
    decreases |sources|
  {
    if sources == [] then fs else Undo(UndoOne(fs, sources[|sources| - 1], mark), sources[..|sources| - 1], mark)
  }

  /** One rename that happened is undone exactly. */
  lemma UndoesOne(fs: Files, p: Path, mark: string)
    requires TreeShaped(fs) && p != [] && p in fs && StagingOf(p, mark) !in fs
    ensures var u := Rename(fs, p, StagingOf(p, mark));
            TreeShaped(u) && UndoOne(u, p, mark) == fs && StagingOf(p, mark) in u && p !in u
  {
    hide Rename;
    var b := StagingOf(p, mark);
    StagingIsSibling(p, mark);
    FreeInTree(fs, b);
    RenameIs(fs, p, b);
    RenameKeepsTree(fs, p, b);
    RenameBack(fs, p, b);
    assert p + b[|b|..] == p;
  }

  lemma NextIsUndone(s: Progress, p: Path, mark: string, renamed: bool)
    requires TreeShaped(s.fs) && Named(s.sources) && p != []
    ensures var t := StageNext(s, p, mark, renamed);
            TreeShaped(t.fs) && Named(t.sources) && Undo(t.fs, t.sources, mark) == Undo(s.fs, s.sources, mark)
  {
    hide Rename, TreeShaped, StagingOf, UndoOne;
    var t := StageNext(s, p, mark, renamed);
    if t.sources != s.sources {
      UndoesOne(s.fs, p, mark);
      assert t.sources[..|t.sources| - 1] == s.sources && t.sources[|t.sources| - 1] == p;
    }
  }

  /** Undoing restores the exact files, wherever the staging stopped, even when the paths are nested. */
  lemma {:induction false} UndoRestores(fs: Files, paths: seq<Path>, mark: string, renames: nat -> bool, n: nat)
    requires TreeShaped(fs) && n <= |paths| && Named(paths)
    ensures var s := StageUpTo(fs, paths, mark, renames, n);
            TreeShaped(s.fs) && Named(s.sources) && Undo(s.fs, s.sources, mark) == fs
  {
    hide StageNext, TreeShaped;
    if n > 0 {
      UndoRestores(fs, paths, mark, renames, n - 1);
      NextIsUndone(StageUpTo(fs, paths, mark, renames, n - 1), paths[n - 1], mark, renames(n - 1));
    }
  }

  // ----- What staging leaves in place ---------------------------------------------------------------------------

  predicate BelowAny(paths: seq<Path>, k: Path) {
    exists i | 0 <= i < |paths| :: paths[i] <= k
  }

  predicate BelowStaging(sources: seq<Path>, mark: string, k: Path)
    requires Named(sources)
  {
    exists i | 0 <= i < |sources| :: StagingOf(sources[i], mark) <= k
  }

  /** A key outside every staging directory: still there exactly if it lay below no listed path. */
  ghost predicate Kept(before: Files, paths: seq<Path>, s: Progress, mark: string)
    requires Named(s.sources)
  {
    forall k | !BelowStaging(s.sources, mark, k) ::
      (k in s.fs <==> k in before && !BelowAny(paths, k)) && (k in s.fs ==> s.fs[k] == before[k])
  }

  lemma BelowAnyMore(paths: seq<Path>, p: Path, k: Path)
    ensures BelowAny(paths + [p], k) <==> BelowAny(paths, k) || p <= k
  {
    var more := paths + [p];
    assert forall i | 0 <= i < |paths| :: more[i] == paths[i];
    assert more[|paths|] == p;
  }

  lemma BelowStagingMore(sources: seq<Path>, p: Path, mark: string, k: Path)
    requires Named(sources) && p != []
    ensures Named(sources + [p])
    ensures BelowStaging(sources + [p], mark, k) <==> BelowStaging(sources, mark, k) || StagingOf(p, mark) <= k
  {
    var more := sources + [p];
    assert forall i | 0 <= i < |sources| :: more[i] == sources[i];
    assert more[|sources|] == p;
  }

  lemma NextIsKept(before: Files, paths: seq<Path>, s: Progress, p: Path, mark: string)
    requires TreeShaped(s.fs) && Named(s.sources) && p != [] && Kept(before, paths, s, mark)
    requires s.ok && StageNext(s, p, mark, true).ok
    ensures var t := StageNext(s, p, mark, true);
            Named(t.sources) && Kept(before, paths + [p], t, mark)
  {
    hide TreeShaped, Rename, StagingOf, BelowAny, BelowStaging;
    var t := StageNext(s, p, mark, true);
    var b := StagingOf(p, mark);
    forall k ensures BelowAny(paths + [p], k) <==> BelowAny(paths, k) || p <= k {
      BelowAnyMore(paths, p, k);
    }
    if p in s.fs {
      StagingIsSibling(p, mark);
      FreeInTree(s.fs, b);
      RenameIs(s.fs, p, b);
      forall k ensures BelowStaging(t.sources, mark, k) <==> BelowStaging(s.sources, mark, k) || b <= k {
        BelowStagingMore(s.sources, p, mark, k);
      }
    } else {
      FreeInTree(s.fs, p);
    }
  }

  /** The staging takes away exactly the listed paths and what is below them. */
  lemma {:induction false} StagingKeepsTheRest(fs: Files, paths: seq<Path>, mark: string, renames: nat -> bool, n: nat)
    requires TreeShaped(fs) && n <= |paths| && Named(paths) && StageUpTo(fs, paths, mark, renames, n).ok
    ensures var s := StageUpTo(fs, paths, mark, renames, n);
            Named(s.sources) && Kept(fs, paths[..n], s, mark)
  {
    hide TreeShaped, StageNext, Kept;
    UndoRestores(fs, paths, mark, renames, n);
    if n == 0 {
      NothingStagedIsKept(fs, paths[..0], mark);
    } else {
      UndoRestores(fs, paths, mark, renames, n - 1);
      StayedOk(StageUpTo(fs, paths, mark, renames, n - 1), paths[n - 1], mark, renames(n - 1));
      StagingKeepsTheRest(fs, paths, mark, renames, n - 1);
      NextIsKept(fs, paths[..n - 1], StageUpTo(fs, paths, mark, renames, n - 1), paths[n - 1], mark);
      assert paths[..n] == paths[..n - 1] + [paths[n - 1]];
    }
  }

  lemma NothingStagedIsKept(fs: Files, paths: seq<Path>, mark: string)
    requires paths == []
    ensures Kept(fs, paths, Progress(fs, [], true), mark)
  {
  }

  lemma StayedOk(s: Progress, p: Path, mark: string, renamed: bool)
    requires p != [] && StageNext(s, p, mark, renamed).ok
    ensures s.ok && StageNext(s, p, mark, true) == StageNext(s, p, mark, renamed)
  {
  }

  // ----- Deleting what was staged -------------------------------------------------------------------------------

  /** Whether a removal goes through; if not, what it leaves of the subtree. */
  type Removals = nat -> Option<set<Path>>

  function Without(fs: Files, p: Path, left: set<Path>): Files {
    map k | k in fs && (!(p <= k) || k in left) :: fs[k]
  }

  datatype Cleanup = Cleanup(fs: Files, pending: seq<Path>)

  /** One staging path: removed, or listed because it cannot be removed or is not there. */
  function CleanNext(c: Cleanup, p: Path, removal: Option<set<Path>>): Cleanup {
    if p !in c.fs then Cleanup(c.fs, c.pending + [p])
    else match removal
      case None => Cleanup(Without(c.fs, p, {}), c.pending)
      case Some(left) => Cleanup(Without(c.fs, p, left), c.pending + [p])
  }

  /** After the first `n` staging paths. */
  function CleanUpTo(fs: Files, sources: seq<Path>, mark: string, removals: Removals, n: nat): Cleanup
    requires n <= |sources| && Named(sources)
  {
    if n == 0 then Cleanup(fs, [])
    else CleanNext(CleanUpTo(fs, sources, mark, removals, n - 1), StagingOf(sources[n - 1], mark), removals(n - 1))
  }

  /** Nothing outside the staging paths changes, and whatever is left below one is below a listed one: every
      staged path is deleted or in `pending_cleanup`. */
  lemma {:induction false} DeletedOrPending(fs: Files, sources: seq<Path>, mark: string, removals: Removals, n: nat)
    requires n <= |sources| && Named(sources)
    ensures var c := CleanUpTo(fs, sources, mark, removals, n);
            && (forall k | k in c.fs :: k in fs && c.fs[k] == fs[k])
            && (forall k | k in fs && !BelowStaging(sources, mark, k) :: k in c.fs)
            && (forall k, i | k in c.fs && 0 <= i < n && StagingOf(sources[i], mark) <= k :: BelowAny(c.pending, k))
  {
    hide StagingOf;
    if n > 0 {
      DeletedOrPending(fs, sources, mark, removals, n - 1);
      var c := CleanUpTo(fs, sources, mark, removals, n - 1);
      var p := StagingOf(sources[n - 1], mark);
      var d := CleanNext(c, p, removals(n - 1));
      assert forall k | k in d.fs :: k in c.fs;
      forall k, i | k in d.fs && 0 <= i < n && StagingOf(sources[i], mark) <= k ensures BelowAny(d.pending, k) {
        if d.pending == c.pending {
          assert i < n - 1;
        } else {
          BelowAnyMore(c.pending, p, k);
        }
      }
    }
  }

  predicate AllRemoved(removals: Removals, n: nat) {
    forall i | 0 <= i < n :: removals(i).None?
  }

  lemma WithoutKeepsTree(fs: Files, p: Path)
    requires TreeShaped(fs)
    ensures TreeShaped(Without(fs, p, {}))
  {
    var u := Without(fs, p, {});
    forall k | k in u && k != [] ensures k[..|k| - 1] in u {
      assert p <= k[..|k| - 1] ==> p <= k;
    }
  }

  lemma RemovalGoesThrough(removals: Removals, n: nat, i: nat)
    requires AllRemoved(removals, n) && i < n
    ensures AllRemoved(removals, i) && removals(i) == None
  {
  }

  /** Exactly what lay below the first staging paths is gone. */
  ghost predicate Cleaned(fs: Files, gone: seq<Path>, mark: string, after: Files)
    requires Named(gone)
  {
    TreeShaped(after) && forall k :: k in after <==> k in fs && !BelowStaging(gone, mark, k)
  }

  lemma CleanedNext(fs: Files, gone: seq<Path>, mark: string, c: Cleanup, p: Path)
    requires Named(gone) && p != [] && Cleaned(fs, gone, mark, c.fs)
    ensures Named(gone + [p]) && Cleaned(fs, gone + [p], mark, CleanNext(c, StagingOf(p, mark), None).fs)
  {
    hide TreeShaped, StagingOf, BelowStaging;
    var b := StagingOf(p, mark);
    FreeInTree(c.fs, b);
    WithoutKeepsTree(c.fs, b);
    forall k
      ensures Named(gone + [p]) && (BelowStaging(gone + [p], mark, k) <==> BelowStaging(gone, mark, k) || b <= k)
    {
      BelowStagingMore(gone, p, mark, k);
    }
  }

  lemma NamedPrefix(sources: seq<Path>, n: nat)
    requires Named(sources) && n <= |sources|
    ensures Named(sources[..n])
  {
  }

  /** When no removal fails, nothing below a staging path is left, listed or not. */
  lemma {:induction false} AllDeleted(fs: Files, sources: seq<Path>, mark: string, removals: Removals, n: nat)
    requires n <= |sources| && Named(sources) && TreeShaped(fs) && AllRemoved(removals, n)
    ensures Named(sources[..n]) && Cleaned(fs, sources[..n], mark, CleanUpTo(fs, sources, mark, removals, n).fs)
  {
    hide TreeShaped;
    NamedPrefix(sources, n);
    if n == 0 {
      assert sources[..0] == [];
    } else {
      hide Cleaned, CleanNext, AllRemoved, StagingOf;
      RemovalGoesThrough(removals, n, n - 1);
      AllDeleted(fs, sources, mark, removals, n - 1);
      CleanedNext(fs, sources[..n - 1], mark, CleanUpTo(fs, sources, mark, removals, n - 1), sources[n - 1]);
      assert sources[..n] == sources[..n - 1] + [sources[n - 1]];
    }
  }

  /** What lies below no listed path never lies below a staging path either: that name would have been taken. */
  lemma {:induction false} UntouchedIsNotStaged(fs: Files, paths: seq<Path>, mark: string, renames: nat -> bool,
                                                n: nat, k: Path)
    requires TreeShaped(fs) && n <= |paths| && Named(paths) && StageUpTo(fs, paths, mark, renames, n).ok
    requires k in fs && !BelowAny(paths[..n], k)
    ensures Named(StageUpTo(fs, paths, mark, renames, n).sources)
    ensures !BelowStaging(StageUpTo(fs, paths, mark, renames, n).sources, mark, k)
  {
    hide TreeShaped, BelowAny, BelowStaging, StagingOf, Rename, Kept;
    UndoRestores(fs, paths, mark, renames, n);
    if n == 0 {
      NothingBelow(mark, k);
    } else {
      var p := paths[n - 1];
      var s := StageUpTo(fs, paths, mark, renames, n - 1);
      UndoRestores(fs, paths, mark, renames, n - 1);
      StayedOk(s, p, mark, renames(n - 1));
      assert paths[..n] == paths[..n - 1] + [p];
      BelowAnyMore(paths[..n - 1], p, k);
      UntouchedIsNotStaged(fs, paths, mark, renames, n - 1, k);
      StagingKeepsTheRest(fs, paths, mark, renames, n - 1);
      UntouchedStays(fs, paths[..n - 1], s, mark, k);
      BelowStagingMore(s.sources, p, mark, k);
      if StagingOf(p, mark) <= k {
        AncestorExists(s.fs, StagingOf(p, mark), k);
      }
    }
  }

  lemma UntouchedStays(before: Files, paths: seq<Path>, s: Progress, mark: string, k: Path)
    requires Named(s.sources) && Kept(before, paths, s, mark)
    requires k in before && !BelowAny(paths, k) && !BelowStaging(s.sources, mark, k)
    ensures k in s.fs
  {
  }

  lemma NothingBelow(mark: string, k: Path)
    ensures !BelowStaging([], mark, k)
  {
  }

  /** The whole saga when nothing fails: exactly the listed paths and everything below them are gone. */
  lemma CleanSweep(fs: Files, paths: seq<Path>, mark: string, renames: nat -> bool, removals: Removals)
    requires TreeShaped(fs) && Named(paths)
    requires StageUpTo(fs, paths, mark, renames, |paths|).ok
    requires AllRemoved(removals, |StageUpTo(fs, paths, mark, renames, |paths|).sources|)
    ensures var s := StageUpTo(fs, paths, mark, renames, |paths|);
            && Named(s.sources)
            && var after := CleanUpTo(s.fs, s.sources, mark, removals, |s.sources|).fs;
               && (forall k :: k in after <==> k in fs && !BelowAny(paths, k))
               && (forall k | k in after :: after[k] == fs[k])
  {
    hide TreeShaped, StageUpTo, CleanUpTo, AllRemoved, StagingOf, BelowAny, BelowStaging;
    var s := StageUpTo(fs, paths, mark, renames, |paths|);
    UndoRestores(fs, paths, mark, renames, |paths|);
    StagingKeepsTheRest(fs, paths, mark, renames, |paths|);
    assert paths[..|paths|] == paths;
    AllDeleted(s.fs, s.sources, mark, removals, |s.sources|);
    assert s.sources[..|s.sources|] == s.sources;
    DeletedOrPending(s.fs, s.sources, mark, removals, |s.sources|);
    forall k | k in fs && !BelowAny(paths, k) ensures !BelowStaging(s.sources, mark, k) {
      UntouchedIsNotStaged(fs, paths, mark, renames, |paths|, k);
    }
  }

  // ----- What is reported as pending ------------------------------------------------------------------------------

  /** No part of the path ends with the mark; a mark is drawn afresh for every command. */
  predicate Unmarked(p: Path, mark: string) {
    forall n | 0 <= n < |p| :: !EndsWith(p[n], mark)
  }

  /** A later rename took along what this one had put aside. */
  predicate Overtaken(sources: seq<Path>, i: nat)
    requires i < |sources|
  {
    exists j | i < j < |sources| :: sources[j] < sources[i]
  }

  /** The staging paths of the first `n` sources that were overtaken or whose removal fails. */
  function Listed(sources: seq<Path>, mark: string, removals: Removals, n: nat): seq<Path>
    requires n <= |sources| && Named(sources)
  {
    if n == 0 then []
    else
      Listed(sources, mark, removals, n - 1)
      + if Overtaken(sources, n - 1) || removals(n - 1).Some? then [StagingOf(sources[n - 1], mark)] else []
  }

  lemma StagingIsMarked(p: Path, mark: string)
    requires p != []
    ensures |StagingOf(p, mark)| == |p| && EndsWith(StagingOf(p, mark)[|p| - 1], mark)
  {
    var name := "." + p[|p| - 1] + mark;
    assert name[|name| - |mark|..] == mark;
  }

  lemma MarkedNotInUnmarked(p: Path, q: Path, mark: string)
    requires p != [] && Unmarked(q, mark)
    ensures !(StagingOf(p, mark) <= q)
  {
    StagingIsMarked(p, mark);
  }

  /** Staging directories lie apart. */
  lemma StagingApart(p: Path, q: Path, mark: string)
    requires p != [] && q != [] && Unmarked(q, mark) && StagingOf(p, mark) <= StagingOf(q, mark)
    ensures p == q
  {
    StagingIsMarked(p, mark);
    var b, c := StagingOf(p, mark), StagingOf(q, mark);
    if |p| == |q| {
      assert b == c;
      assert b[..|p| - 1] == p[..|p| - 1] && c[..|q| - 1] == q[..|q| - 1];
      assert "." + p[|p| - 1] + mark == "." + q[|q| - 1] + mark;
      var x, y := "." + p[|p| - 1] + mark, "." + q[|q| - 1] + mark;
      assert x[1..|x| - |mark|] == p[|p| - 1] && y[1..|y| - |mark|] == q[|q| - 1];
      assert p == p[..|p| - 1] + [p[|p| - 1]] && q == q[..|q| - 1] + [q[|q| - 1]];
    }
  }

  /** An unmarked path is above a staging path exactly when it is properly above its source. */
  lemma AboveStaging(p: Path, q: Path, mark: string)
    requires q != [] && Unmarked(p, mark)
    ensures p <= StagingOf(q, mark) <==> p < q
  {
    StagingIsMarked(q, mark);
    var c := StagingOf(q, mark);
    assert c[..|q| - 1] == q[..|q| - 1];
    if p <= c {
      assert p == c[..|p|] == c[..|q| - 1][..|p|] == q[..|p|];
    }
    if p < q {
      assert p == q[..|p|] == q[..|q| - 1][..|p|] == c[..|p|];
    }
  }

  /** After any number of renames: the sources are gone, and of what was put aside exactly the overtaken paths. */
  ghost predicate PutAside(s: Progress, mark: string) {
    Named(s.sources)
    && (forall i | 0 <= i < |s.sources| :: Unmarked(s.sources[i], mark) && s.sources[i] !in s.fs)
    && (forall i | 0 <= i < |s.sources| :: StagingOf(s.sources[i], mark) in s.fs <==> !Overtaken(s.sources, i))
  }

  lemma OvertakenMore(sources: seq<Path>, p: Path, i: nat)
    requires i < |sources|
    ensures Overtaken(sources + [p], i) <==> Overtaken(sources, i) || p < sources[i]
    ensures !Overtaken(sources + [p], |sources|)
  {
    var more := sources + [p];
    assert more[|sources|] == p;
    assert forall j | 0 <= j < |sources| :: more[j] == sources[j];
  }

  /** What one rename does to an earlier source and its staging path. */
  lemma RenameOvertakes(fs: Files, p: Path, q: Path, mark: string)
    requires TreeShaped(fs) && p != [] && q != [] && p in fs && q !in fs && StagingOf(p, mark) !in fs
    requires Unmarked(p, mark) && Unmarked(q, mark)
    ensures var u := Rename(fs, p, StagingOf(p, mark));
            q !in u && (StagingOf(q, mark) in u <==> StagingOf(q, mark) in fs && !(p < q))
  {
    hide TreeShaped, Rename, StagingOf, Unmarked;
    var b := StagingOf(p, mark);
    StagingIsSibling(p, mark);
    FreeInTree(fs, b);
    RenameIs(fs, p, b);
    MarkedNotInUnmarked(p, q, mark);
    AboveStaging(p, q, mark);
    if b <= StagingOf(q, mark) {
      StagingApart(p, q, mark);
    }
  }

  lemma NextIsPutAside(s: Progress, p: Path, mark: string)
    requires TreeShaped(s.fs) && PutAside(s, mark) && p != [] && Unmarked(p, mark)
    requires s.ok && StageNext(s, p, mark, true).ok
    ensures PutAside(StageNext(s, p, mark, true), mark)
  {
    hide TreeShaped, Rename, StagingOf, Unmarked, Overtaken;
    var t := StageNext(s, p, mark, true);
    if p in s.fs {
      UndoesOne(s.fs, p, mark);
      forall i | 0 <= i < |t.sources|
        ensures Unmarked(t.sources[i], mark) && t.sources[i] != [] && t.sources[i] !in t.fs
        ensures StagingOf(t.sources[i], mark) in t.fs <==> !Overtaken(t.sources, i)
      {
        if i < |s.sources| {
          RenameOvertakes(s.fs, p, s.sources[i], mark);
          OvertakenMore(s.sources, p, i);
        } else {
          NobodyLater(t.sources, i);
        }
      }
    }
  }

  lemma NobodyLater(sources: seq<Path>, i: nat)
    requires i == |sources| - 1
    ensures !Overtaken(sources, i)
  {
  }

  lemma {:induction false} StagingPutsAside(fs: Files, paths: seq<Path>, mark: string, renames: nat -> bool, n: nat)
    requires TreeShaped(fs) && n <= |paths| && Named(paths) && StageUpTo(fs, paths, mark, renames, n).ok
    requires forall i | 0 <= i < |paths| :: Unmarked(paths[i], mark)
    ensures PutAside(StageUpTo(fs, paths, mark, renames, n), mark)
  {
    hide TreeShaped, StageNext, Unmarked, StagingOf, Overtaken;
    if n > 0 {
      var s := StageUpTo(fs, paths, mark, renames, n - 1);
      UndoRestores(fs, paths, mark, renames, n - 1);
      StayedOk(s, paths[n - 1], mark, renames(n - 1));
      StagingPutsAside(fs, paths, mark, renames, n - 1);
      NextIsPutAside(s, paths[n - 1], mark);
    }
  }

  /** Removing other staging directories does not touch this one. */
  lemma {:induction false} CleaningSpares(fs: Files, sources: seq<Path>, mark: string, removals: Removals, n: nat,
                                          q: Path)
    requires n <= |sources| && Named(sources)
    requires forall i | 0 <= i < n :: !(StagingOf(sources[i], mark) <= q)
    ensures q in CleanUpTo(fs, sources, mark, removals, n).fs <==> q in fs
  {
    if n > 0 {
      CleaningSpares(fs, sources, mark, removals, n - 1, q);
    }
  }

  /** Sources put aside are distinct, so their staging directories lie apart. */
  lemma StagedApart(s: Progress, mark: string, i: nat, j: nat)
    requires PutAside(s, mark) && i < j < |s.sources|
    requires forall k, l | 0 <= k < l < |s.sources| :: s.sources[k] != s.sources[l]
    ensures !(StagingOf(s.sources[i], mark) <= StagingOf(s.sources[j], mark))
  {
    if StagingOf(s.sources[i], mark) <= StagingOf(s.sources[j], mark) {
      StagingApart(s.sources[i], s.sources[j], mark);
    }
  }

  lemma {:induction false} StagedOnce(fs: Files, paths: seq<Path>, mark: string, renames: nat -> bool, n: nat)
    requires TreeShaped(fs) && n <= |paths| && Named(paths) && StageUpTo(fs, paths, mark, renames, n).ok
    requires forall i | 0 <= i < |paths| :: Unmarked(paths[i], mark)
    ensures var sources := StageUpTo(fs, paths, mark, renames, n).sources;
            forall k, l | 0 <= k < l < |sources| :: sources[k] != sources[l]
  {
    hide TreeShaped, Unmarked, StagingOf, Overtaken, Rename;
    if n > 0 {
      StayedOk(StageUpTo(fs, paths, mark, renames, n - 1), paths[n - 1], mark, renames(n - 1));
      StagingPutsAside(fs, paths, mark, renames, n - 1);
      StagedOnce(fs, paths, mark, renames, n - 1);
    }
  }

  lemma {:induction false} CleaningLists(s: Progress, mark: string, removals: Removals, n: nat)
    requires PutAside(s, mark) && n <= |s.sources|
    requires forall k, l | 0 <= k < l < |s.sources| :: s.sources[k] != s.sources[l]
    ensures CleanUpTo(s.fs, s.sources, mark, removals, n).pending == Listed(s.sources, mark, removals, n)
  {
    hide StagingOf, Overtaken, Unmarked;
    if n > 0 {
      CleaningLists(s, mark, removals, n - 1);
      forall i | 0 <= i < n - 1 ensures !(StagingOf(s.sources[i], mark) <= StagingOf(s.sources[n - 1], mark)) {
        StagedApart(s, mark, i, n - 1);
      }
      CleaningSpares(s.fs, s.sources, mark, removals, n - 1, StagingOf(s.sources[n - 1], mark));
    }
  }

  /** Which staging paths the saga reports as pending, for every list of paths: in order, those whose removal
      failed and those inside a directory that was renamed later. */
  lemma PendingIs(fs: Files, paths: seq<Path>, mark: string, renames: nat -> bool, removals: Removals)
    requires TreeShaped(fs) && Named(paths) && StageUpTo(fs, paths, mark, renames, |paths|).ok
    requires forall i | 0 <= i < |paths| :: Unmarked(paths[i], mark)
    ensures var s := StageUpTo(fs, paths, mark, renames, |paths|);
            && Named(s.sources)
            && CleanUpTo(s.fs, s.sources, mark, removals, |s.sources|).pending
               == Listed(s.sources, mark, removals, |s.sources|)
  {
    hide TreeShaped, StageUpTo, CleanUpTo, Listed;
    StagingPutsAside(fs, paths, mark, renames, |paths|);
    StagedOnce(fs, paths, mark, renames, |paths|);
    var s := StageUpTo(fs, paths, mark, renames, |paths|);
    CleaningLists(s, mark, removals, |s.sources|);
  }

  lemma {:induction false} ListedNothing(sources: seq<Path>, mark: string, removals: Removals, n: nat)
    requires n <= |sources| && Named(sources)
    ensures Listed(sources, mark, removals, n) == []
            <==> forall i | 0 <= i < n :: !Overtaken(sources, i) && removals(i).None?
  {
    hide Overtaken, StagingOf;
    if n > 0 {
      ListedNothing(sources, mark, removals, n - 1);
    }
  }

  // ----- The same, told before the command --------------------------------------------------------------------------

  /** The path exists and no earlier listed path is it or contains it. */
  predicate Taken(fs: Files, paths: seq<Path>, i: nat)
    requires i < |paths|
  {
    paths[i] in fs && !BelowAny(paths[..i], paths[i])
  }

  /** Those among the first `n` paths, in order. */
  function AllTaken(fs: Files, paths: seq<Path>, n: nat): seq<Path>
    requires n <= |paths|
  {
    if n == 0 then [] else AllTaken(fs, paths, n - 1) + if Taken(fs, paths, n - 1) then [paths[n - 1]] else []
  }

  lemma NotBelowStaging(sources: seq<Path>, mark: string, k: Path)
    requires Named(sources) && Unmarked(k, mark)
    ensures !BelowStaging(sources, mark, k)
  {
    forall i | 0 <= i < |sources| ensures !(StagingOf(sources[i], mark) <= k) {
      MarkedNotInUnmarked(sources[i], k, mark);
    }
  }

  /** A staging that goes through renames exactly these. */
  lemma {:induction false} SourcesAre(fs: Files, paths: seq<Path>, mark: string, renames: nat -> bool, n: nat)
    requires TreeShaped(fs) && n <= |paths| && Named(paths) && StageUpTo(fs, paths, mark, renames, n).ok
    requires forall i | 0 <= i < |paths| :: Unmarked(paths[i], mark)
    ensures StageUpTo(fs, paths, mark, renames, n).sources == AllTaken(fs, paths, n)
  {
    hide TreeShaped, Unmarked, StagingOf, Rename, BelowAny, BelowStaging;
    if n > 0 {
      var s := StageUpTo(fs, paths, mark, renames, n - 1);
      StayedOk(s, paths[n - 1], mark, renames(n - 1));
      SourcesAre(fs, paths, mark, renames, n - 1);
      StagingKeepsTheRest(fs, paths, mark, renames, n - 1);
      NotBelowStaging(s.sources, mark, paths[n - 1]);
      assert paths[n - 1] in s.fs <==> Taken(fs, paths, n - 1);
    }
  }

  /** The place of a taken path among the taken ones. */
  lemma {:induction false} TakenAt(fs: Files, paths: seq<Path>, i: nat, n: nat)
    requires i < n <= |paths|
    ensures AllTaken(fs, paths, i) <= AllTaken(fs, paths, n)
    ensures Taken(fs, paths, i) ==>
              var a := |AllTaken(fs, paths, i)|;
              a < |AllTaken(fs, paths, n)| && AllTaken(fs, paths, n)[a] == paths[i]
  {
    hide Taken;
    if i < n - 1 {
      TakenAt(fs, paths, i, n - 1);
    }
  }

  lemma {:induction false} TakenFrom(fs: Files, paths: seq<Path>, a: nat, n: nat) returns (i: nat)
    requires n <= |paths| && a < |AllTaken(fs, paths, n)|
    ensures i < n && Taken(fs, paths, i) && |AllTaken(fs, paths, i)| == a && AllTaken(fs, paths, n)[a] == paths[i]
  {
    hide Taken;
    if a < |AllTaken(fs, paths, n - 1)| {
      i := TakenFrom(fs, paths, a, n - 1);
    } else {
      i := n - 1;
    }
  }

  /** Of the paths that contain a taken one and come later, the first is taken itself. */
  lemma {:induction false} FirstContaining(fs: Files, paths: seq<Path>, i: nat, j: nat) returns (k: nat)
    requires TreeShaped(fs) && i < j < |paths| && Taken(fs, paths, i) && paths[j] < paths[i]
    ensures i < k <= j && Taken(fs, paths, k) && paths[k] < paths[i]
    decreases j
  {
    hide TreeShaped;
    AncestorExists(fs, paths[j], paths[i]);
    if Taken(fs, paths, j) {
      k := j;
    } else {
      var m :| 0 <= m < j && paths[..j][m] <= paths[j];
      assert paths[m] <= paths[i] && paths[m] != paths[i];
      forall e | 0 <= e < i ensures !(paths[e] <= paths[i]) {
        assert paths[..i][e] == paths[e];
      }
      k := FirstContaining(fs, paths, i, m);
    }
  }

  /** Some path that the staging will find is listed before one it lies in. */
  predicate InnerFirst(fs: Files, paths: seq<Path>) {
    exists i, j :: 0 <= i < j < |paths| && Taken(fs, paths, i) && paths[j] < paths[i]
  }

  lemma OvertakenIs(fs: Files, paths: seq<Path>)
    requires TreeShaped(fs)
    ensures var sources := AllTaken(fs, paths, |paths|);
            (exists a | 0 <= a < |sources| :: Overtaken(sources, a)) <==> InnerFirst(fs, paths)
  {
    hide TreeShaped, Taken, AllTaken;
    var sources := AllTaken(fs, paths, |paths|);
    if a :| 0 <= a < |sources| && Overtaken(sources, a) {
      var b :| a < b < |sources| && sources[b] < sources[a];
      var i := TakenFrom(fs, paths, a, |paths|);
      var j := TakenFrom(fs, paths, b, |paths|);
      if j < i {
        TakenAt(fs, paths, j, i);
      }
      assert paths[j] < paths[i];
    }
    if i, j :| 0 <= i < j < |paths| && Taken(fs, paths, i) && paths[j] < paths[i] {
      var k := FirstContaining(fs, paths, i, j);
      TakenAt(fs, paths, i, |paths|);
      TakenAt(fs, paths, k, |paths|);
      TakenAt(fs, paths, i, k);
      var a, b := |AllTaken(fs, paths, i)|, |AllTaken(fs, paths, k)|;
      assert sources[a] == paths[i] && sources[b] == paths[k];
      assert Overtaken(sources, a);
    }
  }

  /** Nothing is reported exactly when no removal fails and no path, existing and not in an earlier one, is listed
      before one it lies in. */
  lemma NothingPending(fs: Files, paths: seq<Path>, mark: string, renames: nat -> bool, removals: Removals)
    requires TreeShaped(fs) && Named(paths) && StageUpTo(fs, paths, mark, renames, |paths|).ok
    requires forall i | 0 <= i < |paths| :: Unmarked(paths[i], mark)
    ensures var s := StageUpTo(fs, paths, mark, renames, |paths|);
            && s.sources == AllTaken(fs, paths, |paths|) && Named(s.sources)
            && (CleanUpTo(s.fs, s.sources, mark, removals, |s.sources|).pending == []
                <==> AllRemoved(removals, |s.sources|) && !InnerFirst(fs, paths))
  {
    hide TreeShaped, StageUpTo, CleanUpTo, Listed, Overtaken, InnerFirst, AllTaken;
    PendingIs(fs, paths, mark, renames, removals);
    SourcesAre(fs, paths, mark, renames, |paths|);
    var s := StageUpTo(fs, paths, mark, renames, |paths|);
    ListedNothing(s.sources, mark, removals, |s.sources|);
    OvertakenIs(fs, paths);
    if AllRemoved(removals, |s.sources|) {
      assert forall i | 0 <= i < |s.sources| :: removals(i).None?;
    }
  }

  /** A path listed before its own parent is always reported as pending, though the removal of the parent has
      taken it along. */
  lemma NestedIsReportedPending(fs: Files, a: Path, name: string, mark: string)
    requires TreeShaped(fs) && a != [] && a + [name] in fs && StagingOf(a + [name], mark) !in fs
    requires StagingOf(a, mark) !in Rename(fs, a + [name], StagingOf(a + [name], mark))
    ensures var s := StageUpTo(fs, [a + [name], a], mark, _ => true, 2);
            && s.ok && s.sources == [a + [name], a]
            && var c := CleanUpTo(s.fs, s.sources, mark, _ => None, 2);
               c.pending == [StagingOf(a + [name], mark)] && !exists k :: k in c.fs && a + [name] <= k
  {
    hide TreeShaped, Rename;
    var p, q := a + [name], StagingOf(a + [name], mark);
    var paths := [p, a];
    AncestorExists(fs, a, p);
    UndoesOne(fs, p, mark);
    var u := Rename(fs, p, q);
    StagingIsSibling(p, mark);
    FreeInTree(fs, q);
    RenameIs(fs, p, q);
    assert a in u;
    UndoesOne(u, a, mark);
    StagingIsSibling(a, mark);
    FreeInTree(u, StagingOf(a, mark));
    RenameIs(u, a, StagingOf(a, mark));
    var v := Rename(u, a, StagingOf(a, mark));
    assert StageUpTo(fs, paths, mark, _ => true, 1) == Progress(u, [p], true);
    assert StageUpTo(fs, paths, mark, _ => true, 2) == Progress(v, [p, a], true);
    assert a <= q && !(StagingOf(a, mark) <= q);
    assert q !in v && StagingOf(a, mark) in v;
    assert CleanUpTo(v, [p, a], mark, _ => None, 1) == Cleanup(v, [q]);
    assert CleanUpTo(v, [p, a], mark, _ => None, 2) == Cleanup(Without(v, StagingOf(a, mark), {}), [q]);
    assert forall k | k in v :: !(a <= k);
  }

  // ----- The command ------------------------------------------------------------------------------------------

  /** What the command prints when it succeeds. */
  datatype Report = Report(deleted: seq<Path>, pending: seq<Path>)

  class DevelopmentWorkflowReset<Rows> {
    var fs: Files
    var rows: Rows

    constructor (fs: Files, rows: Rows)
      ensures this.fs == fs && this.rows == rows
    {
      this.fs, this.rows := fs, rows;
    }

    /** The compensation loop. */
    method Compensate(sources: seq<Path>, mark: string)
      requires Named(sources)
      modifies this`fs
      ensures fs == Undo(old(fs), sources, mark)
    {
      var n := |sources|;
      assert sources[..n] == sources;
      while n > 0
        invariant n <= |sources| && Undo(fs, sources[..n], mark) == Undo(old(fs), sources, mark)
      {
        n := n - 1;
        var p := sources[n];
        assert sources[..n + 1][..n] == sources[..n];
        if StagingOf(p, mark) in fs && p !in fs {
          fs := Rename(fs, StagingOf(p, mark), p);
        }
      }
    }

    /** `_finalize_staged_paths`. */
    method FinalizeStagedPaths(sources: seq<Path>, mark: string, removals: Removals) returns (pending: seq<Path>)
      requires Named(sources)
      modifies this`fs
      ensures Cleanup(fs, pending) == CleanUpTo(old(fs), sources, mark, removals, |sources|)
    {
      pending := [];
      for n := 0 to |sources|
        invariant Cleanup(fs, pending) == CleanUpTo(old(fs), sources, mark, removals, n)
      {
        var p := StagingOf(sources[n], mark);
        if p !in fs {
          pending := pending + [p];
        } else {
          match removals(n)
          case None => fs := Without(fs, p, {});
          case Some(left) =>
            fs := Without(fs, p, left);
            pending := pending + [p];
        }
      }
    }

    /** The confirmed command: `renames`, `commits` and `removals` are what the system and the database let
        through. A failure before or in the commit leaves files and rows exactly as they were. */
    method Clear(paths: seq<Path>, mark: string, wiped: Rows, renames: nat -> bool, commits: bool, removals: Removals)
      returns (r: Option<Report>)
      requires TreeShaped(fs) && Named(paths)
      modifies this
      ensures r.Some? <==> StageUpTo(old(fs), paths, mark, renames, |paths|).ok && commits
      ensures r.None? ==> fs == old(fs) && rows == old(rows)
      ensures r.Some? ==>
                var s := StageUpTo(old(fs), paths, mark, renames, |paths|);
                && rows == wiped && Named(s.sources) && r.value.deleted == s.sources
                && Cleanup(fs, r.value.pending) == CleanUpTo(s.fs, s.sources, mark, removals, |s.sources|)
    {
      hide TreeShaped, Rename, CleanUpTo, Undo;
      ghost var before := fs;
      var sources: seq<Path> := [];
      var n := 0;
      var ok := true;
      while n < |paths| && ok
        invariant n <= |paths| && Named(sources) && rows == old(rows)
        invariant Progress(fs, sources, ok) == StageUpTo(before, paths, mark, renames, n)
      {
        var p := paths[n];
        if p in fs {
          var staging := StagingOf(p, mark);
          if staging in fs || !renames(n) {
            ok := false;
          } else {
            fs := Rename(fs, p, staging);
            sources := sources + [p];
          }
        }
        n := n + 1;
      }
      if !ok || !commits {
        UndoRestores(before, paths, mark, renames, n);
        FailedStays(before, paths, mark, renames, n);
        Compensate(sources, mark);
        return None;
      }
      rows := wiped;
      var pending := FinalizeStagedPaths(sources, mark, removals);
      return Some(Report(sources, pending));
    }
  }

  /** Nothing more is renamed after a failure. */
  lemma {:induction false} FailedStays(fs: Files, paths: seq<Path>, mark: string, renames: nat -> bool, n: nat)
    requires n <= |paths| && Named(paths)
    ensures !StageUpTo(fs, paths, mark, renames, n).ok ==>
              StageUpTo(fs, paths, mark, renames, |paths|) == StageUpTo(fs, paths, mark, renames, n)
    decreases |paths| - n
  {
    if n < |paths| {
      FailedStays(fs, paths, mark, renames, n + 1);
    }
  }
}
