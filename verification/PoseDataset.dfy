/**
 Preparing the pose benchmark: removing duplicate images, choosing train, validation and test, and normalizing
 the labels. Coordinates are real numbers; SHA-256 digests are plain strings.
 */
module PoseDataset {
  import opened Common
  import opened CatalogMerge
  import StableSort

  /** A label line as numbers, or nothing where a token is not a finite number. */
  type Line = Option<seq<real>>

  datatype Candidate = Candidate(image: string, imageDigest: string, labelDigest: string, lines: seq<Line>)

  // ----- Removing duplicates ------------------------------------------------------------------------------

  const BY_IMAGE: Reading<Candidate> := Reading((c: Candidate) => c.imageDigest, (c: Candidate) => c.labelDigest)

  function Unblocked(cs: seq<Candidate>, blocked: set<string>): seq<Candidate> {
    if cs == [] then []
    else Unblocked(cs[..|cs| - 1], blocked) + if cs[|cs| - 1].imageDigest in blocked then [] else [cs[|cs| - 1]]
  }

  lemma {:induction false} UnblockedIs(cs: seq<Candidate>, blocked: set<string>)
    ensures forall c :: c in Unblocked(cs, blocked) <==> c in cs && c.imageDigest !in blocked
  {
    if cs != [] {
      UnblockedIs(cs[..|cs| - 1], blocked);
      assert cs == cs[..|cs| - 1] + [cs[|cs| - 1]];
    }
  }

  function Digests(cs: seq<Candidate>): set<string> {
    set c | c in cs :: c.imageDigest
  }

  /** The first candidate of every image that is not blocked, unless one image has two labels. */
  function Deduplicated(cs: seq<Candidate>, blocked: set<string>): Option<seq<Candidate>> {
    Merged(BY_IMAGE, Unblocked(cs, blocked))
  }

  lemma DeduplicatedIs(cs: seq<Candidate>, blocked: set<string>)
    requires Deduplicated(cs, blocked).Some?
    ensures var unique := Deduplicated(cs, blocked).value;
            && UniqueIds(BY_IMAGE, unique)
            && Digests(unique) == Digests(cs) - blocked
            && forall c | c in unique :: c in cs
  {
    var some := Unblocked(cs, blocked);
    var unique := Deduplicated(cs, blocked).value;
    UnblockedIs(cs, blocked);
    FirstsAreFirst(BY_IMAGE, some);
    forall d ensures d in Digests(unique) <==> d in Digests(cs) - blocked {
      HasIs(unique, d);
      HasIs(some, d);
    }
    forall c | c in unique ensures c in cs {
      var i :| 0 <= i < |some| && some[i] == c;
    }
  }

  lemma HasIs(cs: seq<Candidate>, d: string)
    ensures Has(BY_IMAGE, cs, d) <==> exists c :: c in cs && c.imageDigest == d
  {
    if c :| c in cs && c.imageDigest == d {
      var i :| 0 <= i < |cs| && cs[i] == c;
      assert BY_IMAGE.id(cs[i]) == d;
    }
  }

  /** `_deduplicate_pose_candidates`. */
  method Deduplicate(cs: seq<Candidate>, blocked: set<string>)
    returns (r: Option<seq<Candidate>>, digests: set<string>, removed: nat)
    ensures r == Deduplicated(cs, blocked)
    ensures r.Some? ==> digests == Digests(r.value) && |r.value| + removed == |cs|
  {
    hide Agree, Has, Firsts, IsIndex, Unblocked, Digests;
    NothingUnblocked(blocked);
    var unique: seq<Candidate> := [];
    var labels: map<string, string> := map[];
    ghost var index: map<string, Candidate> := map[];
    removed := 0;
    NothingMerged(BY_IMAGE, Unblocked(cs, blocked));
    for n := 0 to |cs|
      invariant var some := Unblocked(cs[..n], blocked);
                unique == Firsts(BY_IMAGE, some) && Agree(BY_IMAGE, some) && IsIndex(BY_IMAGE, some, index)
      invariant labels.Keys == index.Keys == Digests(unique)
      invariant forall d | d in labels :: labels[d] == index[d].labelDigest
      invariant |unique| + removed == n
    {
      var c := cs[n];
      ghost var some := Unblocked(cs[..n], blocked);
      UnblockedNext(cs, blocked, n);
      if c.imageDigest in blocked {
        removed := removed + 1;
      } else {
        assert (some + [c])[..|some|] == some && (some + [c])[..|some| + 1] == some + [c];
        NextEntry(BY_IMAGE, some + [c], |some|, index);
        if c.imageDigest in labels {
          if labels[c.imageDigest] != c.labelDigest {
            UnblockedPrefix(cs, blocked, n + 1);
            ghost var all := Unblocked(cs, blocked);
            assert all[..|some| + 1] == some + [c];
            AgreeOnPrefix(BY_IMAGE, all, |some| + 1);
            return None, {}, 0;
          }
          assert unique + [] == unique;
          removed := removed + 1;
        } else {
          DigestsNext(unique, c);
          labels := labels[c.imageDigest := c.labelDigest];
          index := index[c.imageDigest := c];
          unique := unique + [c];
        }
      }
    }
    assert cs[..|cs|] == cs;
    return Some(unique), labels.Keys, removed;
  }

  lemma NothingUnblocked(blocked: set<string>)
    ensures Unblocked([], blocked) == [] && Digests([]) == {}
  {
  }

  lemma UnblockedNext(cs: seq<Candidate>, blocked: set<string>, n: nat)
    requires n < |cs|
    ensures Unblocked(cs[..n + 1], blocked)
         == if cs[n].imageDigest in blocked then Unblocked(cs[..n], blocked) else Unblocked(cs[..n], blocked) + [cs[n]]
  {
    assert cs[..n + 1][..n] == cs[..n] && cs[..n + 1][n] == cs[n];
  }

  lemma DigestsNext(cs: seq<Candidate>, c: Candidate)
    ensures Digests(cs + [c]) == Digests(cs) + {c.imageDigest}
  {
  }

  lemma {:induction false} UnblockedPrefix(cs: seq<Candidate>, blocked: set<string>, n: nat)
    requires n <= |cs|
    ensures Unblocked(cs[..n], blocked) <= Unblocked(cs, blocked)
    decreases |cs|
  {
    if n < |cs| {
      UnblockedPrefix(cs[..|cs| - 1], blocked, n);
      assert cs[..|cs| - 1][..n] == cs[..n];
    } else {
      assert cs[..n] == cs;
    }
  }

  // ----- Choosing the splits ------------------------------------------------------------------------------

  /** Where a Python slice bound falls in a list of `n`. */
  function Bound(n: nat, i: int): (b: nat)
    ensures b <= n
  {
    if i < 0 then (if n + i < 0 then 0 else n + i) else if i > n then n else i
  }

  function Slice<T>(xs: seq<T>, from: int, to: int): seq<T> {
    var a, b := Bound(|xs|, from), Bound(|xs|, to);
    if a < b then xs[a..b] else []
  }

  /** `rank` orders the digests of a seed and a split as their SHA-256 texts are ordered. */
  type Ranking = (string, string) -> real

  function Ordered(rank: Ranking, split: string, cs: seq<Candidate>): seq<Candidate> {
    StableSort.Items(StableSort.Sorted(
      seq(|cs|, i requires 0 <= i < |cs| => StableSort.Keyed(rank(split, cs[i].imageDigest), cs[i]))))
  }

  datatype Request = Request(train: int, val: int, test: int, all: bool, ratio: real)

  datatype Splits = Splits(train: seq<Candidate>, val: seq<Candidate>, test: seq<Candidate>, removed: int)

  datatype Failure =
    | ConflictingLabels | TooFewTrain | BadRatio | PoolTooSmall | TooFewValidation
    | NothingWritten(split: string)

  /** How many of a pool of `n` become validation and test. */
  function Shares(n: nat, q: Request): Result<(int, int), Failure> {
    if !q.all then Ok((q.val, q.test))
    else if !(0.0 < q.ratio < 1.0) then Err(BadRatio)
    else if n < 2 then Err(PoolTooSmall)
    else
      var part := (n as real * q.ratio).Floor;
      var capped := if part < n - 1 then part else n - 1;
      var test := if capped > 1 then capped else 1;
      Ok((n - test, test))
  }

  /** From the two source lists to the three splits. */
  function Chosen(rank: Ranking, train: seq<Candidate>, val: seq<Candidate>, q: Request): Result<Splits, Failure> {
    var trainUnique := Deduplicated(train, {});
    if trainUnique.None? then Err(ConflictingLabels)
    else
      var valUnique := Deduplicated(val, Digests(trainUnique.value));
      if valUnique.None? then Err(ConflictingLabels)
      else
        var removed := (|train| - |trainUnique.value|) + (|val| - |valUnique.value|);
        var ordered := Ordered(rank, "train", trainUnique.value);
        var pool := Ordered(rank, "validation-pool", valUnique.value);
        if !q.all && |ordered| < q.train then Err(TooFewTrain)
        else
          match Shares(|pool|, q)
          case Err(e) => Err(e)
          case Ok((v, t)) =>
            if |pool| < v + t then Err(TooFewValidation)
            else
              Ok(Splits(if q.all then ordered else Slice(ordered, 0, q.train), Slice(pool, 0, v), Slice(pool, v, v + t),
                        removed))
  }

  lemma OrderedIs(rank: Ranking, split: string, cs: seq<Candidate>)
    ensures multiset(Ordered(rank, split, cs)) == multiset(cs)
    ensures |Ordered(rank, split, cs)| == |cs| && forall c :: c in Ordered(rank, split, cs) <==> c in cs
    ensures UniqueIds(BY_IMAGE, cs) ==> UniqueIds(BY_IMAGE, Ordered(rank, split, cs))
  {
    var keyed := seq(|cs|, i requires 0 <= i < |cs| => StableSort.Keyed(rank(split, cs[i].imageDigest), cs[i]));
    var r := Ordered(rank, split, cs);
    hide UniqueIds;
    StableSort.SortedKeeps(keyed);
    assert StableSort.Items(keyed) == cs;
    assert |multiset(r)| == |r| && |multiset(cs)| == |cs|;
    forall c ensures c in r <==> c in cs {
      assert c in r <==> c in multiset(r);
      assert c in cs <==> c in multiset(cs);
    }
    if UniqueIds(BY_IMAGE, cs) {
      UniqueRearranged(cs, r);
    }
  }

  lemma UniqueRearranged(cs: seq<Candidate>, r: seq<Candidate>)
    requires UniqueIds(BY_IMAGE, cs) && multiset(r) == multiset(cs)
    ensures UniqueIds(BY_IMAGE, r)
  {
    forall i, j | 0 <= i < j < |cs| ensures cs[i] != cs[j] {
      assert BY_IMAGE.id(cs[i]) != BY_IMAGE.id(cs[j]);
    }
    StableSort.DistinctRearranged(cs, r);
    forall i, j | 0 <= i < j < |r| ensures BY_IMAGE.id(r[i]) != BY_IMAGE.id(r[j]) {
      assert r[i] in cs && r[j] in cs && r[i] != r[j];
      OnlyOne(cs, r[i], r[j]);
    }
  }

  lemma OnlyOne(cs: seq<Candidate>, x: Candidate, y: Candidate)
    requires UniqueIds(BY_IMAGE, cs) && x in cs && y in cs && x != y
    ensures x.imageDigest != y.imageDigest
  {
    var i :| 0 <= i < |cs| && cs[i] == x;
    var j :| 0 <= j < |cs| && cs[j] == y;
    if i < j {
      assert BY_IMAGE.id(cs[i]) != BY_IMAGE.id(cs[j]);
    } else {
      assert BY_IMAGE.id(cs[j]) != BY_IMAGE.id(cs[i]);
    }
  }

  /** Whatever the bounds, a slice and the one that starts where it ends share no position. */
  lemma SlicesApart(cs: seq<Candidate>, v: int, t: int)
    requires UniqueIds(BY_IMAGE, cs)
    ensures var a, b := Slice(cs, 0, v), Slice(cs, v, v + t);
            && UniqueIds(BY_IMAGE, a) && UniqueIds(BY_IMAGE, b) && Digests(a) !! Digests(b)
            && (forall c | c in a || c in b :: c in cs)
  {
    var m := Bound(|cs|, v);
    var a, b := Slice(cs, 0, v), Slice(cs, v, v + t);
    SliceKeeps(cs, 0, v);
    SliceKeeps(cs, v, v + t);
    hide UniqueIds, Digests;
    forall x, y | x in a && y in b ensures x.imageDigest != y.imageDigest {
      var i :| 0 <= i < |a| && a[i] == x;
      var j :| 0 <= j < |b| && b[j] == y;
      assert a[i] == cs[i] && b[j] == cs[m + j] && i < m;
      TwoPlaces(cs, i, m + j);
    }
    NothingShared(a, b);
  }

  lemma NothingShared(a: seq<Candidate>, b: seq<Candidate>)
    requires forall x, y | x in a && y in b :: x.imageDigest != y.imageDigest
    ensures Digests(a) !! Digests(b)
  {
  }

  lemma TwoPlaces(cs: seq<Candidate>, i: nat, j: nat)
    requires UniqueIds(BY_IMAGE, cs) && i < j < |cs|
    ensures cs[i].imageDigest != cs[j].imageDigest
  {
    assert BY_IMAGE.id(cs[i]) != BY_IMAGE.id(cs[j]);
  }

  lemma SliceKeeps(cs: seq<Candidate>, from: int, to: int)
    requires UniqueIds(BY_IMAGE, cs)
    ensures UniqueIds(BY_IMAGE, Slice(cs, from, to)) && forall c | c in Slice(cs, from, to) :: c in cs
  {
    var a := Slice(cs, from, to);
    forall i, j | 0 <= i < j < |a| ensures BY_IMAGE.id(a[i]) != BY_IMAGE.id(a[j]) {
      TwoPlaces(cs, Bound(|cs|, from) + i, Bound(|cs|, from) + j);
    }
  }

  lemma TrainPart(rank: Ranking, train: seq<Candidate>, q: Request)
    requires Deduplicated(train, {}).Some?
    ensures var unique := Deduplicated(train, {}).value;
            var ordered := Ordered(rank, "train", unique);
            var part := if q.all then ordered else Slice(ordered, 0, q.train);
            && UniqueIds(BY_IMAGE, part) && Digests(part) <= Digests(train)
            && Digests(unique) == Digests(train) && |Digests(train)| == |unique|
  {
    hide Ordered, Deduplicated, Slice, UniqueIds;
    var unique := Deduplicated(train, {}).value;
    DeduplicatedIs(train, {});
    OrderedIs(rank, "train", unique);
    SlicesApart(Ordered(rank, "train", unique), q.train, 0);
    UniqueCount(unique);
    assert Digests(train) - {} == Digests(train);
    assert forall c | c in Ordered(rank, "train", unique) :: c in train;
  }

  lemma ValidationPart(rank: Ranking, val: seq<Candidate>, blocked: set<string>, v: int, t: int)
    requires Deduplicated(val, blocked).Some?
    ensures var unique := Deduplicated(val, blocked).value;
            var pool := Ordered(rank, "validation-pool", unique);
            var a, b := Slice(pool, 0, v), Slice(pool, v, v + t);
            && UniqueIds(BY_IMAGE, a) && UniqueIds(BY_IMAGE, b) && Digests(a) !! Digests(b)
            && Digests(a) <= Digests(val) - blocked && Digests(b) <= Digests(val) - blocked
            && |Digests(val) - blocked| == |unique|
  {
    hide Ordered, Deduplicated, Slice, UniqueIds;
    var unique := Deduplicated(val, blocked).value;
    DeduplicatedIs(val, blocked);
    OrderedIs(rank, "validation-pool", unique);
    SlicesApart(Ordered(rank, "validation-pool", unique), v, t);
    UniqueCount(unique);
    assert forall c | c in Ordered(rank, "validation-pool", unique) :: c.imageDigest in Digests(unique);
  }

  /** Split safety: no image is in two splits or twice in one, no image of the training source is in
      validation or test, and what was kept and what was removed add up. */
  lemma NoLeak(rank: Ranking, train: seq<Candidate>, val: seq<Candidate>, q: Request)
    requires Chosen(rank, train, val, q).Ok?
    ensures var s := Chosen(rank, train, val, q).value;
            && UniqueIds(BY_IMAGE, s.train) && UniqueIds(BY_IMAGE, s.val) && UniqueIds(BY_IMAGE, s.test)
            && Digests(s.train) !! Digests(s.val) && Digests(s.train) !! Digests(s.test)
            && Digests(s.val) !! Digests(s.test)
            && Digests(s.train) <= Digests(train)
            && Digests(s.val) <= Digests(val) - Digests(train) && Digests(s.test) <= Digests(val) - Digests(train)
            && |Digests(train) + Digests(val)| + s.removed == |train| + |val|
  {
    hide Ordered, Deduplicated, Slice, UniqueIds, Digests, Shares;
    TrainPart(rank, train, q);
    var valUnique := Deduplicated(val, Digests(train)).value;
    var (v, t) := Shares(|Ordered(rank, "validation-pool", valUnique)|, q).value;
    ValidationPart(rank, val, Digests(train), v, t);
    assert Digests(train) + Digests(val) == Digests(train) + (Digests(val) - Digests(train));
  }

  /** With all samples asked for, validation and test share out the whole pool and neither is empty. */
  lemma AllSamplesAreUsed(rank: Ranking, train: seq<Candidate>, val: seq<Candidate>, q: Request)
    requires q.all && Chosen(rank, train, val, q).Ok?
    ensures var s := Chosen(rank, train, val, q).value;
            && s.val != [] && s.test != []
            && Digests(s.train) == Digests(train) && Digests(s.val + s.test) == Digests(val) - Digests(train)
  {
    hide Ordered, Deduplicated, UniqueIds;
    var s := Chosen(rank, train, val, q).value;
    TrainPart(rank, train, q);
    var trainUnique := Deduplicated(train, {}).value;
    OrderedIs(rank, "train", trainUnique);
    var valUnique := Deduplicated(val, Digests(train)).value;
    DeduplicatedIs(val, Digests(train));
    var pool := Ordered(rank, "validation-pool", valUnique);
    OrderedIs(rank, "validation-pool", valUnique);
    var (v, t) := Shares(|pool|, q).value;
    assert 1 <= v && 1 <= t && v + t == |pool|;
    assert s.val + s.test == pool;
  }

  lemma {:induction false} UniqueCount(cs: seq<Candidate>)
    requires UniqueIds(BY_IMAGE, cs)
    ensures |Digests(cs)| == |cs|
  {
    if cs != [] {
      var n := |cs| - 1;
      UniqueCount(cs[..n]);
      assert cs == cs[..n] + [cs[n]];
      DigestsNext(cs[..n], cs[n]);
      forall c | c in cs[..n] ensures c.imageDigest != cs[n].imageDigest {
        var i :| 0 <= i < n && cs[i] == c;
        assert BY_IMAGE.id(cs[i]) != BY_IMAGE.id(cs[n]);
      }
    }
  }

  /** The choice, step by step. */
  method ChooseSplits(rank: Ranking, train: seq<Candidate>, val: seq<Candidate>, q: Request)
    returns (r: Result<Splits, Failure>)
    ensures r == Chosen(rank, train, val, q)
  {
    hide Ordered, Deduplicated, Slice;
    var trainUnique, trainDigests, removed := Deduplicate(train, {});
    if trainUnique.None? {
      return Err(ConflictingLabels);
    }
    var valUnique, valDigests, valRemoved := Deduplicate(val, trainDigests);
    if valUnique.None? {
      return Err(ConflictingLabels);
    }
    removed := removed + valRemoved;
    var trainSelected := Ordered(rank, "train", trainUnique.value);
    if !q.all {
      if |trainSelected| < q.train {
        return Err(TooFewTrain);
      }
      trainSelected := Slice(trainSelected, 0, q.train);
    }
    var pool := Ordered(rank, "validation-pool", valUnique.value);
    var shares := Shares(|pool|, q);
    if shares.Err? {
      return Err(shares.error);
    }
    var (v, t) := shares.value;
    if |pool| < v + t {
      return Err(TooFewValidation);
    }
    return Ok(Splits(trainSelected, Slice(pool, 0, v), Slice(pool, v, v + t), removed));
  }

  // ----- One label line -----------------------------------------------------------------------------------

  function Max(a: real, b: real): real {
    if b > a then b else a
  }

  function Min(a: real, b: real): real {
    if b < a then b else a
  }

  /** A box by its centre and size. */
  datatype Box = Box(cx: real, cy: real, width: real, height: real)

  function Left(b: Box): real { b.cx - b.width / 2.0 }

  function Right(b: Box): real { b.cx + b.width / 2.0 }

  function Top(b: Box): real { b.cy - b.height / 2.0 }

  function Bottom(b: Box): real { b.cy + b.height / 2.0 }

  /** The part of a box inside the unit square, if there is any. */
  function Clipped(b: Box): Option<Box> {
    var x1, y1, x2, y2 := Max(0.0, Left(b)), Max(0.0, Top(b)), Min(1.0, Right(b)), Min(1.0, Bottom(b));
    if b.width <= 0.0 || b.height <= 0.0 || x2 <= x1 || y2 <= y1 then None
    else Some(Box((x1 + x2) / 2.0, (y1 + y2) / 2.0, x2 - x1, y2 - y1))
  }

  predicate InUnitSquare(b: Box) {
    b.width > 0.0 && b.height > 0.0 && 0.0 <= Left(b) && Right(b) <= 1.0 && 0.0 <= Top(b) && Bottom(b) <= 1.0
  }

  /** Clipping lands inside the unit square, is the intersection with it, and does nothing to a box inside. */
  lemma ClippedIs(b: Box)
    ensures Clipped(b).Some? ==>
              var c := Clipped(b).value;
              && InUnitSquare(c) && Clipped(c) == Some(c)
              && Left(c) == Max(0.0, Left(b)) && Right(c) == Min(1.0, Right(b))
              && Top(c) == Max(0.0, Top(b)) && Bottom(c) == Min(1.0, Bottom(b))
    ensures InUnitSquare(b) ==> Clipped(b) == Some(b)
  {
    if Clipped(b).Some? {
      var c := Clipped(b).value;
      var x1, y1, x2, y2 := Max(0.0, Left(b)), Max(0.0, Top(b)), Min(1.0, Right(b)), Min(1.0, Bottom(b));
      assert Left(c) == x1 && Right(c) == x2 && Top(c) == y1 && Bottom(c) == y2;
    }
  }

  function Close(a: real, b: real): bool {
    -0.000000001 <= a - b <= 0.000000001
  }

  predicate SameBox(b: Box, c: Box) {
    Close(b.cx, c.cx) && Close(b.cy, c.cy) && Close(b.width, c.width) && Close(b.height, c.height)
  }

  /** A keypoint after normalization: hidden ones become three zeros. */
  datatype Point = Point(x: real, y: real, visibility: real)

  const HIDDEN := Point(0.0, 0.0, 0.0)

  /** The i-th keypoint as read; without a third value every point is visible. */
  function Read(values: seq<real>, dimensions: nat, i: nat): Point
    requires dimensions >= 2 && (i + 1) * dimensions <= |values|
  {
    Within(i, dimensions, |values|);
    Point(values[i * dimensions], values[i * dimensions + 1],
          if dimensions == 3 then values[i * dimensions + 2] else 2.0)
  }

  lemma Within(i: nat, dimensions: nat, n: nat)
    requires dimensions >= 2 && (i + 1) * dimensions <= n
    ensures 0 <= i * dimensions && i * dimensions + dimensions <= n
  {
  }

  predicate Inside(p: Point) {
    0.0 <= p.x <= 1.0 && 0.0 <= p.y <= 1.0
  }

  predicate Shown(p: Point) {
    p.visibility > 0.0 && Inside(p)
  }

  function Normalized(p: Point): Point {
    if Shown(p) then Point(p.x, p.y, Min(2.0, p.visibility)) else HIDDEN
  }

  /** The first `n` keypoints: as written out, how many are visible, and how many were visible but outside. */
  datatype Points = Points(values: seq<real>, visible: nat, hidden: nat)

  function PointsUpTo(values: seq<real>, dimensions: nat, n: nat): (r: Points)
    requires dimensions >= 2 && n * dimensions <= |values|
    ensures |r.values| == 3 * n
  {
    if n == 0 then Points([], 0, 0)
    else
      assert (n - 1) * dimensions <= n * dimensions;
      var before := PointsUpTo(values, dimensions, n - 1);
      var p := Read(values, dimensions, n - 1);
      var q := Normalized(p);
      Points(before.values + [q.x, q.y, q.visibility], before.visible + (if Shown(p) then 1 else 0),
             before.hidden + (if p.visibility > 0.0 && !Inside(p) then 1 else 0))
  }

  datatype NormalLine = NormalLine(values: seq<real>, repaired: bool, hidden: nat)

  /** One line: rejected unless it has the expected numbers, class zero, a box that meets the unit square, and a
      visible keypoint. */
  function NormalizeLine(values: seq<real>, keypoints: nat, dimensions: nat): Option<NormalLine>
    requires dimensions >= 2
  {
    if |values| != 5 + keypoints * dimensions || values[0] != 0.0 then None
    else
      var box := Box(values[1], values[2], values[3], values[4]);
      var clipped := Clipped(box);
      if clipped.None? then None
      else
        var points := PointsUpTo(values[5..], dimensions, keypoints);
        if points.visible < 1 then None
        else
          var c := clipped.value;
          Some(NormalLine([0.0, c.cx, c.cy, c.width, c.height] + points.values, !SameBox(box, c), points.hidden))
  }

  lemma {:induction false} PointsAgain(values: seq<real>, dimensions: nat, n: nat, longer: seq<real>)
    requires dimensions >= 2 && n * dimensions <= |values|
    requires PointsUpTo(values, dimensions, n).values <= longer
    ensures n * 3 <= |longer|
    ensures PointsUpTo(longer, 3, n)
            == Points(PointsUpTo(values, dimensions, n).values, PointsUpTo(values, dimensions, n).visible, 0)
  {
    if n > 0 {
      assert (n - 1) * dimensions <= n * dimensions;
      var before := PointsUpTo(values, dimensions, n - 1);
      var q := Normalized(Read(values, dimensions, n - 1));
      var now := PointsUpTo(values, dimensions, n).values;
      assert now == before.values + [q.x, q.y, q.visibility];
      assert before.values <= longer;
      PointsAgain(values, dimensions, n - 1, longer);
      var i := 3 * (n - 1);
      assert longer[i] == now[i] && longer[i + 1] == now[i + 1] && longer[i + 2] == now[i + 2];
      assert Read(longer, 3, n - 1) == q;
      assert Normalized(q) == q;
    }
  }

  /** A normalized line keeps its class, has its box inside the unit square, and with three-valued keypoints is
      normalized already: nothing is repaired or hidden the second time. With another number of dimensions the
      second pass refuses it. */
  lemma LineSettles(values: seq<real>, keypoints: nat, dimensions: nat)
    requires dimensions >= 2 && NormalizeLine(values, keypoints, dimensions).Some?
    ensures var r := NormalizeLine(values, keypoints, dimensions).value.values;
            && |r| == 5 + 3 * keypoints && r[0] == 0.0 && InUnitSquare(Box(r[1], r[2], r[3], r[4]))
            && NormalizeLine(r, keypoints, dimensions)
               == if dimensions == 3 then Some(NormalLine(r, false, 0)) else None
  {
    var n := NormalizeLine(values, keypoints, dimensions).value;
    var r := n.values;
    var box := Box(values[1], values[2], values[3], values[4]);
    var c := Clipped(box).value;
    var points := PointsUpTo(values[5..], dimensions, keypoints);
    ClippedIs(box);
    assert r[5..] == points.values;
    if dimensions == 3 {
      PointsAgain(values[5..], dimensions, keypoints, r[5..]);
      assert SameBox(c, c);
      assert [0.0, c.cx, c.cy, c.width, c.height] + points.values == r;
    } else {
      Counted(keypoints, dimensions);
    }
  }

  lemma Counted(keypoints: nat, dimensions: nat)
    requires dimensions != 3
    ensures keypoints * dimensions == 3 * keypoints <==> keypoints == 0
  {
    if keypoints > 0 {
      if dimensions < 3 {
        assert keypoints * dimensions < keypoints * 3;
      } else {
        assert keypoints * dimensions > keypoints * 3;
      }
    }
  }

  // ----- One label file -----------------------------------------------------------------------------------

  datatype NormalText = NormalText(lines: seq<seq<real>>, repaired: bool, hidden: nat)

  /** The first `n` lines, unless one is rejected. */
  function LinesUpTo(lines: seq<Line>, keypoints: nat, dimensions: nat, n: nat): (r: Option<NormalText>)
    requires dimensions >= 2 && n <= |lines|
    ensures r.Some? ==> |r.value.lines| == n
  {
    if n == 0 then Some(NormalText([], false, 0))
    else
      var before := LinesUpTo(lines, keypoints, dimensions, n - 1);
      var line := if lines[n - 1].None? then None else NormalizeLine(lines[n - 1].value, keypoints, dimensions);
      if before.None? || line.None? then None
      else Some(NormalText(before.value.lines + [line.value.values], before.value.repaired || line.value.repaired,
                           before.value.hidden + line.value.hidden))
  }

  /** `normalize_pose_label_text` between parsing and printing: one rejected line rejects the file, and so does
      a file without lines. */
  function NormalizeText(lines: seq<Line>, keypoints: nat, dimensions: nat): Option<NormalText>
    requires dimensions >= 2
  {
    if lines == [] then None else LinesUpTo(lines, keypoints, dimensions, |lines|)
  }

  lemma {:induction false} RejectedStays(lines: seq<Line>, keypoints: nat, dimensions: nat, n: nat)
    requires dimensions >= 2 && n <= |lines| && LinesUpTo(lines, keypoints, dimensions, n).None?
    ensures LinesUpTo(lines, keypoints, dimensions, |lines|).None?
    decreases |lines| - n
  {
    if n < |lines| {
      RejectedStays(lines, keypoints, dimensions, n + 1);
    }
  }

  function AsLines(lines: seq<seq<real>>): (r: seq<Line>)
    ensures |r| == |lines| && forall i | 0 <= i < |r| :: r[i] == Some(lines[i])
  {
    seq(|lines|, i requires 0 <= i < |lines| => Some(lines[i]))
  }

  lemma {:induction false} LinesSettle(lines: seq<Line>, keypoints: nat, n: nat, out: seq<seq<real>>)
    requires n <= |lines| && LinesUpTo(lines, keypoints, 3, n).Some?
             && LinesUpTo(lines, keypoints, 3, n).value.lines <= out
    ensures LinesUpTo(AsLines(out), keypoints, 3, n)
            == Some(NormalText(LinesUpTo(lines, keypoints, 3, n).value.lines, false, 0))
    ensures forall i | 0 <= i < n :: var r := out[i]; |r| >= 5 && InUnitSquare(Box(r[1], r[2], r[3], r[4]))
  {
    hide NormalizeLine, InUnitSquare;
    if n > 0 {
      var before := LinesUpTo(lines, keypoints, 3, n - 1).value;
      var now := LinesUpTo(lines, keypoints, 3, n).value;
      assert now.lines[..n - 1] == before.lines && before.lines <= out;
      LinesSettle(lines, keypoints, n - 1, out);
      LineSettles(lines[n - 1].value, keypoints, 3);
      assert out[n - 1] == now.lines[n - 1];
    }
  }

  /** With three-valued keypoints a normalized file has every box inside the unit square and is normalized
      already. */
  lemma TextSettles(lines: seq<Line>, keypoints: nat)
    requires NormalizeText(lines, keypoints, 3).Some?
    ensures var out := NormalizeText(lines, keypoints, 3).value.lines;
            && NormalizeText(AsLines(out), keypoints, 3) == Some(NormalText(out, false, 0))
            && forall i | 0 <= i < |out| ::
                 |out[i]| >= 5 && InUnitSquare(Box(out[i][1], out[i][2], out[i][3], out[i][4]))
  {
    hide LinesUpTo, InUnitSquare;
    LinesSettle(lines, keypoints, |lines|, NormalizeText(lines, keypoints, 3).value.lines);
  }

  /** The keypoint loop. */
  method NormalizePoints(values: seq<real>, keypoints: nat, dimensions: nat) returns (r: Points)
    requires dimensions >= 2 && keypoints * dimensions <= |values|
    ensures r == PointsUpTo(values, dimensions, keypoints)
  {
    hide Read;
    r := Points([], 0, 0);
    for n := 0 to keypoints
      invariant n * dimensions <= |values| && r == PointsUpTo(values, dimensions, n)
    {
      assert (n + 1) * dimensions <= keypoints * dimensions;
      var p := Read(values, dimensions, n);
      if p.visibility <= 0.0 {
        r := r.(values := r.values + [0.0, 0.0, 0.0]);
      } else if !Inside(p) {
        r := r.(values := r.values + [0.0, 0.0, 0.0], hidden := r.hidden + 1);
      } else {
        r := r.(values := r.values + [p.x, p.y, Min(2.0, p.visibility)], visible := r.visible + 1);
      }
    }
  }

  /** One line, unless it was not even numbers. */
  method NormalizeOne(line: Line, keypoints: nat, dimensions: nat) returns (r: Option<NormalLine>)
    requires dimensions >= 2
    ensures r == if line.None? then None else NormalizeLine(line.value, keypoints, dimensions)
  {
    if line.None? {
      return None;
    }
    var values := line.value;
    if |values| != 5 + keypoints * dimensions || values[0] != 0.0 {
      return None;
    }
    hide PointsUpTo, Clipped;
    var box := Box(values[1], values[2], values[3], values[4]);
    var clipped := Clipped(box);
    if clipped.None? {
      return None;
    }
    var points := NormalizePoints(values[5..], keypoints, dimensions);
    if points.visible < 1 {
      return None;
    }
    var c := clipped.value;
    return Some(NormalLine([0.0, c.cx, c.cy, c.width, c.height] + points.values, !SameBox(box, c), points.hidden));
  }

  /** The line loop. */
  method NormalizeLabel(lines: seq<Line>, keypoints: nat, dimensions: nat) returns (r: Option<NormalText>)
    requires dimensions >= 2
    ensures r == NormalizeText(lines, keypoints, dimensions)
  {
    hide NormalizeLine;
    var done := NormalText([], false, 0);
    for n := 0 to |lines|
      invariant LinesUpTo(lines, keypoints, dimensions, n) == Some(done)
    {
      var line := NormalizeOne(lines[n], keypoints, dimensions);
      if line.None? {
        RejectedStays(lines, keypoints, dimensions, n + 1);
        return None;
      }
      done := NormalText(done.lines + [line.value.values], done.repaired || line.value.repaired,
                         done.hidden + line.value.hidden);
    }
    if done.lines == [] {
      return None;
    }
    return Some(done);
  }

  // ----- Writing the splits ---------------------------------------------------------------------------------

  const KEYPOINTS: nat := 21
  const DIMENSIONS: nat := 3

  /** The candidates of a split that are written, and what the report counts. */
  datatype Tally = Tally(written: seq<Candidate>, repaired: nat, hidden: nat, rejected: nat)

  function TallyUpTo(cs: seq<Candidate>, n: nat): (t: Tally)
    requires n <= |cs|
    ensures |t.written| + t.rejected == n
    ensures forall c | c in t.written :: c in cs[..n] && NormalizeText(c.lines, KEYPOINTS, DIMENSIONS).Some?
  {
    if n == 0 then Tally([], 0, 0, 0)
    else
      var t := TallyUpTo(cs, n - 1);
      assert cs[..n] == cs[..n - 1] + [cs[n - 1]];
      var normal := NormalizeText(cs[n - 1].lines, KEYPOINTS, DIMENSIONS);
      if normal.None? then t.(rejected := t.rejected + 1)
      else Tally(t.written + [cs[n - 1]], t.repaired + (if normal.value.repaired then 1 else 0),
                 t.hidden + normal.value.hidden, t.rejected)
  }

  datatype Report = Report(train: nat, val: nat, test: nat, repaired: nat, hidden: nat, removed: int, rejected: nat)

  method WriteSplit(cs: seq<Candidate>) returns (t: Tally)
    ensures t == TallyUpTo(cs, |cs|)
  {
    hide NormalizeText;
    t := Tally([], 0, 0, 0);
    for n := 0 to |cs|
      invariant t == TallyUpTo(cs, n)
    {
      var normal := NormalizeLabel(cs[n].lines, KEYPOINTS, DIMENSIONS);
      if normal.None? {
        t := t.(rejected := t.rejected + 1);
      } else {
        t := Tally(t.written + [cs[n]], t.repaired + (if normal.value.repaired then 1 else 0),
                   t.hidden + normal.value.hidden, t.rejected);
      }
    }
  }

  /** `prepare_pose_benchmark_dataset`: every sample of a chosen split is written or counted as rejected, no split
      is empty, and the first split without a sample stops the preparation. */
  method Prepare(rank: Ranking, train: seq<Candidate>, val: seq<Candidate>, q: Request)
    returns (r: Result<Report, Failure>)
    ensures Chosen(rank, train, val, q).Err? ==> r == Err(Chosen(rank, train, val, q).error)
    ensures Chosen(rank, train, val, q).Ok? ==>
              var s := Chosen(rank, train, val, q).value;
              var a, b, c := TallyUpTo(s.train, |s.train|), TallyUpTo(s.val, |s.val|), TallyUpTo(s.test, |s.test|);
              r == if a.written == [] then Err(NothingWritten("train"))
                   else if b.written == [] then Err(NothingWritten("val"))
                   else if c.written == [] then Err(NothingWritten("test"))
                   else Ok(Report(|a.written|, |b.written|, |c.written|, a.repaired + b.repaired + c.repaired,
                                  a.hidden + b.hidden + c.hidden, s.removed, a.rejected + b.rejected + c.rejected))
    ensures r.Ok? ==> r.value.train > 0 && r.value.val > 0 && r.value.test > 0
    ensures r.Ok? ==>
              var s := Chosen(rank, train, val, q).value;
              r.value.train + r.value.val + r.value.test + r.value.rejected == |s.train| + |s.val| + |s.test|
  {
    hide Chosen, TallyUpTo;
    var chosen := ChooseSplits(rank, train, val, q);
    if chosen.Err? {
      return Err(chosen.error);
    }
    var s := chosen.value;
    var a := WriteSplit(s.train);
    if a.written == [] {
      return Err(NothingWritten("train"));
    }
    var b := WriteSplit(s.val);
    if b.written == [] {
      return Err(NothingWritten("val"));
    }
    var c := WriteSplit(s.test);
    if c.written == [] {
      return Err(NothingWritten("test"));
    }
    return Ok(Report(|a.written|, |b.written|, |c.written|, a.repaired + b.repaired + c.repaired,
                     a.hidden + b.hidden + c.hidden, s.removed, a.rejected + b.rejected + c.rejected));
  }
}
