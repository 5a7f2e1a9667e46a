/**
 What the pose preparation chooses and writes, told from the source lists and the label values: when it fails and why,
 how large each split is and which images are in it, and what becomes of every value of a label line.
 */
module PoseLaws {
  import opened Common
  import opened CatalogMerge
  import opened PoseDataset
  import StableSort

  // ----- Which candidates are chosen ----------------------------------------------------------------------------

  /** One image, not blocked, has two labels. */
  predicate Conflicting(cs: seq<Candidate>, blocked: set<string>) {
    exists i, j | 0 <= i < |cs| && 0 <= j < |cs| ::
      cs[i].imageDigest == cs[j].imageDigest && cs[i].imageDigest !in blocked && cs[i].labelDigest != cs[j].labelDigest
  }

  lemma ConflictIsFound(cs: seq<Candidate>, blocked: set<string>)
    requires Conflicting(cs, blocked)
    ensures !Agree(BY_IMAGE, Unblocked(cs, blocked))
  {
    hide Unblocked;
    var some := Unblocked(cs, blocked);
    UnblockedIs(cs, blocked);
    var i, j :| 0 <= i < |cs| && 0 <= j < |cs| && cs[i].imageDigest == cs[j].imageDigest
                && cs[i].imageDigest !in blocked && cs[i].labelDigest != cs[j].labelDigest;
    assert cs[i] in some && cs[j] in some;
    var a :| 0 <= a < |some| && some[a] == cs[i];
    var b :| 0 <= b < |some| && some[b] == cs[j];
    var lo, hi := if a < b then a else b, if a < b then b else a;
    assert BY_IMAGE.id(some[lo]) == BY_IMAGE.id(some[hi]) && BY_IMAGE.dump(some[lo]) != BY_IMAGE.dump(some[hi]);
  }

  lemma FoundIsConflict(cs: seq<Candidate>, blocked: set<string>)
    requires !Agree(BY_IMAGE, Unblocked(cs, blocked))
    ensures Conflicting(cs, blocked)
  {
    hide Unblocked;
    var some := Unblocked(cs, blocked);
    UnblockedIs(cs, blocked);
    var a, b :| 0 <= a < b < |some| && BY_IMAGE.id(some[a]) == BY_IMAGE.id(some[b])
                && BY_IMAGE.dump(some[a]) != BY_IMAGE.dump(some[b]);
    assert some[a] in cs && some[b] in cs;
    var i :| 0 <= i < |cs| && cs[i] == some[a];
    var j :| 0 <= j < |cs| && cs[j] == some[b];
  }

  lemma AgreeIs(cs: seq<Candidate>, blocked: set<string>)
    ensures Deduplicated(cs, blocked).None? <==> Conflicting(cs, blocked)
  {
    hide Conflicting, Agree;
    if Conflicting(cs, blocked) {
      ConflictIsFound(cs, blocked);
    }
    if !Agree(BY_IMAGE, Unblocked(cs, blocked)) {
      FoundIsConflict(cs, blocked);
    }
  }

  /** What is kept of an image is its first candidate. */
  lemma {:induction false} FirstKept(cs: seq<Candidate>, blocked: set<string>, c: Candidate) returns (i: nat)
    requires c in Firsts(BY_IMAGE, Unblocked(cs, blocked))
    ensures i < |cs| && cs[i] == c && forall j | 0 <= j < i :: cs[j].imageDigest != c.imageDigest
    decreases |cs|
  {
    hide Has;
    var n := |cs| - 1;
    var before, some := Unblocked(cs[..n], blocked), Unblocked(cs, blocked);
    if cs[n].imageDigest in blocked || c in Firsts(BY_IMAGE, before) {
      if cs[n].imageDigest in blocked {
        assert some == before;
      }
      i := FirstKept(cs[..n], blocked, c);
    } else {
      assert some[..|some| - 1] == before;
      assert c == cs[n] && !Has(BY_IMAGE, before, c.imageDigest);
      UnblockedIs(cs[..n], blocked);
      HasIs(before, c.imageDigest);
      i := n;
      forall j | 0 <= j < n ensures cs[j].imageDigest != c.imageDigest {
        assert cs[j] in cs[..n];
      }
    }
  }

  /** In the order of their ranks. */
  predicate Ranked(rank: Ranking, split: string, cs: seq<Candidate>) {
    forall i, j | 0 <= i < j < |cs| :: rank(split, cs[i].imageDigest) <= rank(split, cs[j].imageDigest)
  }

  lemma OrderedIsRanked(rank: Ranking, split: string, cs: seq<Candidate>)
    ensures Ranked(rank, split, Ordered(rank, split, cs))
  {
    var keyed := seq(|cs|, i requires 0 <= i < |cs| => StableSort.Keyed(rank(split, cs[i].imageDigest), cs[i]));
    StableSort.SortedIsStable(keyed, 0.0);
    StableSort.SortedKeeps(keyed);
    var sorted := StableSort.Sorted(keyed);
    forall x | x in sorted ensures x.key == rank(split, x.item.imageDigest) {
      assert x in multiset(sorted);
      assert x in keyed;
    }
    hide StableSort.Sorted;
    var r := Ordered(rank, split, cs);
    forall i, j | 0 <= i < j < |r| ensures rank(split, r[i].imageDigest) <= rank(split, r[j].imageDigest) {
      assert sorted[i] in sorted && sorted[j] in sorted;
      assert sorted[i].key <= sorted[j].key;
    }
  }

  lemma SliceIs<T>(xs: seq<T>, a: nat, b: nat)
    requires a <= b <= |xs|
    ensures Slice(xs, a, b) == xs[a..b]
  {
  }

  /** How many images the training source has, and how many the other source has beside it. */
  function TrainImages(train: seq<Candidate>): nat {
    |Digests(train)|
  }

  function PoolImages(train: seq<Candidate>, val: seq<Candidate>): nat {
    |Digests(val) - Digests(train)|
  }

  /** Exactly when a choice can be made, and otherwise what is wrong first. */
  lemma ChoiceFails(rank: Ranking, train: seq<Candidate>, val: seq<Candidate>, q: Request)
    ensures var r := Chosen(rank, train, val, q);
            var t, p := TrainImages(train), PoolImages(train, val);
            if Conflicting(train, {}) || Conflicting(val, Digests(train)) then r == Err(ConflictingLabels)
            else if !q.all && t < q.train then r == Err(TooFewTrain)
            else if q.all && !(0.0 < q.ratio < 1.0) then r == Err(BadRatio)
            else if q.all && p < 2 then r == Err(PoolTooSmall)
            else if !q.all && p < q.val + q.test then r == Err(TooFewValidation)
            else r.Ok?
  {
    hide Deduplicated, Ordered, Digests, Slice, Conflicting;
    AgreeIs(train, {});
    if Deduplicated(train, {}).Some? {
      Sources(rank, train, val);
      AgreeIs(val, Digests(train));
      if Deduplicated(val, Digests(train)).Some? {
        Pools(rank, train, val);
      }
    }
  }

  lemma Sources(rank: Ranking, train: seq<Candidate>, val: seq<Candidate>)
    requires Deduplicated(train, {}).Some?
    ensures var unique := Deduplicated(train, {}).value;
            && Digests(unique) == Digests(train) && |Ordered(rank, "train", unique)| == TrainImages(train)
            && UniqueIds(BY_IMAGE, unique)
  {
    hide Deduplicated, Ordered, UniqueIds, Digests;
    var unique := Deduplicated(train, {}).value;
    DeduplicatedIs(train, {});
    assert Digests(train) - {} == Digests(train);
    UniqueCount(unique);
    OrderedIs(rank, "train", unique);
  }

  lemma Pools(rank: Ranking, train: seq<Candidate>, val: seq<Candidate>)
    requires Deduplicated(val, Digests(train)).Some?
    ensures var unique := Deduplicated(val, Digests(train)).value;
            && Digests(unique) == Digests(val) - Digests(train)
            && |Ordered(rank, "validation-pool", unique)| == PoolImages(train, val)
            && UniqueIds(BY_IMAGE, unique)
  {
    hide Deduplicated, Ordered, UniqueIds, Digests;
    var unique := Deduplicated(val, Digests(train)).value;
    DeduplicatedIs(val, Digests(train));
    UniqueCount(unique);
    OrderedIs(rank, "validation-pool", unique);
  }

  /** The sizes of the splits: those asked for (a negative training count leaves out the last ones), or with all samples
      every training image, the floor of the ratio of the pool for test but at least one and at most all but one, and
      the rest for validation. */
  lemma SplitSizes(rank: Ranking, train: seq<Candidate>, val: seq<Candidate>, q: Request)
    requires Chosen(rank, train, val, q).Ok?
    ensures var s := Chosen(rank, train, val, q).value;
            var t, p := TrainImages(train), PoolImages(train, val);
            && (!q.all && q.train >= 0 ==> |s.train| == q.train)
            && (!q.all && q.train < 0 ==> |s.train| == if t + q.train > 0 then t + q.train else 0)
            && (!q.all && q.val >= 0 && q.test >= 0 ==> |s.val| == q.val && |s.test| == q.test)
            && (q.all ==>
                  var part := (p as real * q.ratio).Floor;
                  && |s.train| == t && |s.val| + |s.test| == p && 1 <= |s.test| <= p - 1
                  && (1 <= part <= p - 1 ==> |s.test| == part)
                  && (part < 1 ==> |s.test| == 1)
                  && (part > p - 1 ==> |s.test| == p - 1))
  {
    hide Deduplicated, Ordered, Digests;
    Sources(rank, train, val);
    Pools(rank, train, val);
  }

  /** Which images: the first ones by rank, each represented by its first candidate. */
  lemma SplitsAreRanked(rank: Ranking, train: seq<Candidate>, val: seq<Candidate>, q: Request)
    requires Chosen(rank, train, val, q).Ok? && (q.all || (q.train >= 0 && q.val >= 0 && q.test >= 0))
    ensures var s := Chosen(rank, train, val, q).value;
            && Ranked(rank, "train", s.train) && Ranked(rank, "validation-pool", s.val + s.test)
            && Nearest(rank, "train", s.train, train, {})
            && Nearest(rank, "validation-pool", s.val + s.test, val, Digests(train))
  {
    hide Deduplicated, Ordered, Digests, Ranked, Nearest;
    Sources(rank, train, val);
    Pools(rank, train, val);
    var s := Chosen(rank, train, val, q).value;
    var ordered := Ordered(rank, "train", Deduplicated(train, {}).value);
    var pool := Ordered(rank, "validation-pool", Deduplicated(val, Digests(train)).value);
    SplitSizes(rank, train, val, q);
    assert s.train == ordered[..|s.train|];
    assert s.val + s.test == pool[..|s.val| + |s.test|];
    FirstOnes(rank, "train", train, {}, |s.train|);
    FirstOnes(rank, "validation-pool", val, Digests(train), |s.val| + |s.test|);
  }

  /** Every chosen candidate is the first of its image, and no image left out, blocked ones aside, ranks before it. */
  predicate Nearest(rank: Ranking, split: string, chosen: seq<Candidate>, source: seq<Candidate>,
                    blocked: set<string>) {
    forall c | c in chosen ::
      && (exists i | 0 <= i < |source| ::
            source[i] == c && forall j | 0 <= j < i :: source[j].imageDigest != c.imageDigest)
      && (forall o | o in source && o.imageDigest !in blocked && o.imageDigest !in Digests(chosen) ::
            rank(split, c.imageDigest) <= rank(split, o.imageDigest))
  }

  lemma FirstOnes(rank: Ranking, split: string, source: seq<Candidate>, blocked: set<string>, n: nat)
    requires Deduplicated(source, blocked).Some?
    requires n <= |Ordered(rank, split, Deduplicated(source, blocked).value)|
    ensures var chosen := Ordered(rank, split, Deduplicated(source, blocked).value)[..n];
            Ranked(rank, split, chosen) && Nearest(rank, split, chosen, source, blocked)
  {
    var unique := Deduplicated(source, blocked).value;
    var ordered := Ordered(rank, split, unique);
    var chosen := ordered[..n];
    assert unique == Firsts(BY_IMAGE, Unblocked(source, blocked));
    hide Deduplicated, Ordered, Firsts, Unblocked, UniqueIds, Digests;
    DeduplicatedIs(source, blocked);
    OrderedIs(rank, split, unique);
    OrderedIsRanked(rank, split, unique);
    forall c | c in chosen
      ensures exists i | 0 <= i < |source| ::
                source[i] == c && forall j | 0 <= j < i :: source[j].imageDigest != c.imageDigest
    {
      assert c in ordered;
      var i := FirstKept(source, blocked, c);
    }
    forall c, o | c in chosen && o in source && o.imageDigest !in blocked && o.imageDigest !in Digests(chosen)
      ensures rank(split, c.imageDigest) <= rank(split, o.imageDigest)
    {
      var u := Kept(source, o, blocked, unique);
      NothingNearer(rank, split, ordered, n, c, u);
    }
  }

  /** The candidate kept of an image that is not blocked. */
  lemma Kept(source: seq<Candidate>, o: Candidate, blocked: set<string>, unique: seq<Candidate>)
    returns (u: Candidate)
    requires o in source && o.imageDigest !in blocked && Digests(unique) == Digests(source) - blocked
    ensures u in unique && u.imageDigest == o.imageDigest
  {
    assert o.imageDigest in Digests(unique);
    u :| u in unique && u.imageDigest == o.imageDigest;
  }

  lemma NothingNearer(rank: Ranking, split: string, ordered: seq<Candidate>, n: nat, c: Candidate, u: Candidate)
    requires Ranked(rank, split, ordered) && n <= |ordered|
    requires c in ordered[..n] && u in ordered && u.imageDigest !in Digests(ordered[..n])
    ensures rank(split, c.imageDigest) <= rank(split, u.imageDigest)
  {
    forall m: nat | m < n ensures ordered[m] != u {
      assert ordered[m] in ordered[..n];
    }
    var i :| 0 <= i < n && ordered[i] == c;
    var j :| 0 <= j < |ordered| && ordered[j] == u;
    assert i < j;
  }

  // ----- What becomes of a label line -----------------------------------------------------------------------------

  predicate Covers(b: Box, x: real, y: real) {
    Left(b) <= x <= Right(b) && Top(b) <= y <= Bottom(b)
  }

  /** `c` is what of `b` lies in the unit square. */
  ghost predicate PartInside(b: Box, c: Box) {
    forall x: real, y: real :: Covers(c, x, y) <==> Covers(b, x, y) && 0.0 <= x <= 1.0 && 0.0 <= y <= 1.0
  }

  /** A real box with more than its edge in the unit square. */
  predicate MeetsSquare(b: Box) {
    b.width > 0.0 && b.height > 0.0 && Left(b) < 1.0 && Right(b) > 0.0 && Top(b) < 1.0 && Bottom(b) > 0.0
  }

  lemma ClippingIs(b: Box)
    ensures Clipped(b).Some? <==> MeetsSquare(b)
    ensures Clipped(b).Some? ==> PartInside(b, Clipped(b).value)
  {
    ClippedIs(b);
  }

  /** The keypoints of a line: its numbers, `dimensions` at a time. */
  function Rows(values: seq<real>, dimensions: nat): seq<seq<real>>
    requires dimensions >= 2
  {
    if |values| < dimensions then [] else [values[..dimensions]] + Rows(values[dimensions..], dimensions)
  }

  lemma OneLess(i: nat, d: nat)
    requires i > 0
    ensures (i - 1) * d == i * d - d >= 0 && (i - 1 + 1) * d == i * d && (i + 1) * d == i * d + d
  {
  }

  lemma LaterPart<T>(xs: seq<T>, k: nat, a: nat, b: nat)
    requires a <= b <= |xs| - k
    ensures xs[k..][a..b] == xs[a + k..b + k]
  {
  }

  lemma FirstRow(values: seq<real>, dimensions: nat)
    requires 2 <= dimensions <= |values|
    ensures Rows(values, dimensions) == [values[..dimensions]] + Rows(values[dimensions..], dimensions)
  {
  }

  lemma {:induction false} RowIs(values: seq<real>, dimensions: nat, i: nat)
    requires dimensions >= 2 && (i + 1) * dimensions <= |values|
    ensures 0 <= i * dimensions <= |values| - dimensions
    ensures i < |Rows(values, dimensions)|
            && Rows(values, dimensions)[i] == values[i * dimensions..i * dimensions + dimensions]
  {
    hide Rows;
    PoseDataset.Within(i, dimensions, |values|);
    FirstRow(values, dimensions);
    if i == 0 {
      assert values[0..dimensions] == values[..dimensions];
    } else {
      var rest, a := values[dimensions..], (i - 1) * dimensions;
      OneLess(i, dimensions);
      RowIs(rest, dimensions, i - 1);
      LaterPart(values, dimensions, a, a + dimensions);
    }
  }

  lemma {:induction false} RowCount(values: seq<real>, dimensions: nat, n: nat)
    requires dimensions >= 2 && n * dimensions == |values|
    ensures |Rows(values, dimensions)| == n
  {
    if n > 0 {
      OneLess(n, dimensions);
      RowCount(values[dimensions..], dimensions, n - 1);
    } else {
      assert |values| == 0;
    }
  }

  predicate Seen(row: seq<real>) {
    |row| == 3 ==> row[2] > 0.0
  }

  predicate InImage(row: seq<real>) {
    |row| >= 2 && 0.0 <= row[0] <= 1.0 && 0.0 <= row[1] <= 1.0
  }

  /** A keypoint that is seen inside the image stays, with its visibility at most two; any other is written as zeros. */
  predicate Becomes(row: seq<real>, out: seq<real>) {
    if Seen(row) && InImage(row) then out == [row[0], row[1], if |row| == 3 && row[2] < 2.0 then row[2] else 2.0]
    else out == [0.0, 0.0, 0.0]
  }

  /** The keypoints among the first `n` that were seen, but outside the image. */
  function Outside(rows: seq<seq<real>>, n: nat): set<nat>
    requires n <= |rows|
  {
    set i: nat | i < n && Seen(rows[i]) && !InImage(rows[i])
  }

  lemma PointIs(values: seq<real>, dimensions: nat, i: nat)
    requires dimensions >= 2 && (i + 1) * dimensions <= |values|
    ensures i < |Rows(values, dimensions)|
    ensures var row, p := Rows(values, dimensions)[i], Read(values, dimensions, i);
            && (Seen(row) && InImage(row) <==> Shown(p))
            && (Seen(row) && !InImage(row) <==> p.visibility > 0.0 && !Inside(p))
            && Becomes(row, [Normalized(p).x, Normalized(p).y, Normalized(p).visibility])
  {
    hide Rows;
    RowIs(values, dimensions, i);
  }

  lemma {:induction false} PointsAre(values: seq<real>, dimensions: nat, n: nat)
    requires dimensions >= 2 && n * dimensions <= |values|
    ensures n <= |Rows(values, dimensions)|
    ensures var rows, r := Rows(values, dimensions), PointsUpTo(values, dimensions, n);
            && (forall i: nat | i < n :: Becomes(rows[i], r.values[3 * i..3 * i + 3]))
            && (r.visible > 0 <==> exists i: nat | i < n :: Seen(rows[i]) && InImage(rows[i]))
            && r.hidden == |Outside(rows, n)|
  {
    hide Rows, Becomes, Seen, InImage, Shown, Inside, Normalized, Read, Outside;
    if n > 0 {
      assert (n - 1) * dimensions <= n * dimensions;
      PointsAre(values, dimensions, n - 1);
      PointIs(values, dimensions, n - 1);
      var rows, r := Rows(values, dimensions), PointsUpTo(values, dimensions, n);
      var before, q := PointsUpTo(values, dimensions, n - 1), Normalized(Read(values, dimensions, n - 1));
      forall i: nat | i < n ensures Becomes(rows[i], r.values[3 * i..3 * i + 3]) {
        if i < n - 1 {
          assert r.values[3 * i..3 * i + 3] == before.values[3 * i..3 * i + 3];
        } else {
          assert r.values[3 * i..3 * i + 3] == [q.x, q.y, q.visibility];
        }
      }
      OutsideNext(rows, n);
    } else {
      NothingOutside(Rows(values, dimensions));
    }
  }

  lemma NothingOutside(rows: seq<seq<real>>)
    ensures Outside(rows, 0) == {}
  {
  }

  lemma OutsideNext(rows: seq<seq<real>>, n: nat)
    requires 0 < n <= |rows|
    ensures |Outside(rows, n)| == |Outside(rows, n - 1)| + if Seen(rows[n - 1]) && !InImage(rows[n - 1]) then 1 else 0
  {
    hide Seen, InImage;
    assert Outside(rows, n)
        == Outside(rows, n - 1) + if Seen(rows[n - 1]) && !InImage(rows[n - 1]) then {n - 1} else {};
  }

  /** The line has the numbers of class zero, a box that meets the image and a keypoint that is seen in it. */
  predicate Complete(values: seq<real>, keypoints: nat, dimensions: nat)
    requires dimensions >= 2
  {
    && |values| == 5 + keypoints * dimensions && values[0] == 0.0
    && MeetsSquare(Box(values[1], values[2], values[3], values[4]))
    && exists row | row in Rows(values[5..], dimensions) :: Seen(row) && InImage(row)
  }

  /** A line is accepted exactly when it is complete; its box becomes the part inside the image and its keypoints what
      they should; a repair is reported exactly when a number of the box has moved,
      and the hidden points are counted. */
  lemma LineIs(values: seq<real>, keypoints: nat, dimensions: nat)
    requires dimensions >= 2
    ensures NormalizeLine(values, keypoints, dimensions).Some? <==> Complete(values, keypoints, dimensions)
    ensures NormalizeLine(values, keypoints, dimensions).Some? ==>
              var n := NormalizeLine(values, keypoints, dimensions).value;
              var rows := Rows(values[5..], dimensions);
              && |n.values| == 5 + 3 * keypoints && n.values[0] == 0.0 && |rows| == keypoints
              && PartInside(Box(values[1], values[2], values[3], values[4]),
                            Box(n.values[1], n.values[2], n.values[3], n.values[4]))
              && (forall i: nat | i < keypoints :: Becomes(rows[i], n.values[5 + 3 * i..8 + 3 * i]))
              && (n.repaired <==> exists j | 1 <= j < 5 :: !Near(values[j], n.values[j]))
              && n.hidden == |Outside(rows, keypoints)|
  {
    if |values| == 5 + keypoints * dimensions {
      var points, box := values[5..], Box(values[1], values[2], values[3], values[4]);
      hide Rows, PointsUpTo, Clipped, MeetsSquare, PartInside, Becomes, Outside;
      RowCount(points, dimensions, keypoints);
      PointsAre(points, dimensions, keypoints);
      ClippingIs(box);
      if NormalizeLine(values, keypoints, dimensions).Some? {
        var n := NormalizeLine(values, keypoints, dimensions).value;
        forall i: nat | i < keypoints ensures Becomes(Rows(points, dimensions)[i], n.values[5 + 3 * i..8 + 3 * i]) {
          var written := PointsUpTo(points, dimensions, keypoints).values;
          assert n.values[5 + 3 * i..8 + 3 * i] == written[3 * i..3 * i + 3];
        }
      }
    }
  }

  predicate Near(a: real, b: real) {
    a <= b + 0.000000001 && b <= a + 0.000000001
  }

  // ----- What becomes of a file and of a split --------------------------------------------------------------------

  predicate Accepted(line: Line, keypoints: nat, dimensions: nat)
    requires dimensions >= 2
  {
    line.Some? && Complete(line.value, keypoints, dimensions)
  }

  /** What an accepted line is written as. */
  function Written(line: Line, keypoints: nat, dimensions: nat): NormalLine
    requires dimensions >= 2 && Accepted(line, keypoints, dimensions)
  {
    LineIs(line.value, keypoints, dimensions);
    NormalizeLine(line.value, keypoints, dimensions).value
  }

  /** The points that disappear from the first `n` lines. */
  function Vanished(lines: seq<Line>, keypoints: nat, dimensions: nat, n: nat): nat
    requires dimensions >= 2 && n <= |lines| && forall i: nat | i < n :: Accepted(lines[i], keypoints, dimensions)
  {
    if n == 0 then 0
    else Vanished(lines, keypoints, dimensions, n - 1) + Written(lines[n - 1], keypoints, dimensions).hidden
  }

  lemma {:induction false} LinesAre(lines: seq<Line>, keypoints: nat, dimensions: nat, n: nat)
    requires dimensions >= 2 && n <= |lines|
    ensures LinesUpTo(lines, keypoints, dimensions, n).Some?
            <==> forall i: nat | i < n :: Accepted(lines[i], keypoints, dimensions)
    ensures LinesUpTo(lines, keypoints, dimensions, n).Some? ==>
              var t := LinesUpTo(lines, keypoints, dimensions, n).value;
              && (forall i: nat | i < n :: t.lines[i] == Written(lines[i], keypoints, dimensions).values)
              && (t.repaired <==> exists i: nat | i < n :: Written(lines[i], keypoints, dimensions).repaired)
              && t.hidden == Vanished(lines, keypoints, dimensions, n)
  {
    hide NormalizeLine, Complete;
    if n > 0 {
      LinesAre(lines, keypoints, dimensions, n - 1);
      if lines[n - 1].Some? {
        LineIs(lines[n - 1].value, keypoints, dimensions);
      }
    }
  }

  /** A file is accepted exactly when it has lines and each is; each is written in its place, a repair of one is a
      repair of the file, and the hidden points add up. */
  lemma TextIs(lines: seq<Line>, keypoints: nat, dimensions: nat)
    requires dimensions >= 2
    ensures NormalizeText(lines, keypoints, dimensions).Some?
            <==> lines != [] && forall i: nat | i < |lines| :: Accepted(lines[i], keypoints, dimensions)
    ensures NormalizeText(lines, keypoints, dimensions).Some? ==>
              var t := NormalizeText(lines, keypoints, dimensions).value;
              && |t.lines| == |lines|
              && (forall i: nat | i < |lines| :: t.lines[i] == Written(lines[i], keypoints, dimensions).values)
              && (t.repaired <==> exists i: nat | i < |lines| :: Written(lines[i], keypoints, dimensions).repaired)
              && t.hidden == Vanished(lines, keypoints, dimensions, |lines|)
  {
    LinesAre(lines, keypoints, dimensions, |lines|);
  }

  predicate Usable(c: Candidate) {
    c.lines != [] && forall i: nat | i < |c.lines| :: Accepted(c.lines[i], KEYPOINTS, DIMENSIONS)
  }

  /** Usable, and the box of some line is not as it was. */
  predicate Repaired(c: Candidate) {
    Usable(c) && exists i: nat | i < |c.lines| :: Written(c.lines[i], KEYPOINTS, DIMENSIONS).repaired
  }

  function Hidden(c: Candidate): nat {
    if Usable(c) then Vanished(c.lines, KEYPOINTS, DIMENSIONS, |c.lines|) else 0
  }

  function AllHidden(cs: seq<Candidate>): nat {
    if cs == [] then 0 else Hidden(cs[0]) + AllHidden(cs[1..])
  }

  function RepairedOnes(cs: seq<Candidate>): set<nat> {
    set i: nat | i < |cs| && Repaired(cs[i])
  }

  function RejectedOnes(cs: seq<Candidate>): set<nat> {
    set i: nat | i < |cs| && !Usable(cs[i])
  }

  /** What is written of a split, as often as it is in it, and what the report counts. */
  ghost predicate Reported(cs: seq<Candidate>, t: Tally) {
    && (forall c :: multiset(t.written)[c] == if Usable(c) then multiset(cs)[c] else 0)
    && t.repaired == |RepairedOnes(cs)|
    && t.rejected == |RejectedOnes(cs)|
    && t.hidden == AllHidden(cs)
  }

  lemma {:induction false} HiddenNext(cs: seq<Candidate>, c: Candidate)
    ensures AllHidden(cs + [c]) == AllHidden(cs) + Hidden(c)
  {
    if cs == [] {
      assert [c][1..] == [];
    } else {
      HiddenNext(cs[1..], c);
      assert (cs + [c])[1..] == cs[1..] + [c];
    }
  }

  lemma RepairedNext(cs: seq<Candidate>, c: Candidate)
    ensures |RepairedOnes(cs + [c])| == |RepairedOnes(cs)| + if Repaired(c) then 1 else 0
  {
    hide Repaired;
    assert RepairedOnes(cs + [c]) == RepairedOnes(cs) + if Repaired(c) then {|cs|} else {};
  }

  lemma RejectedNext(cs: seq<Candidate>, c: Candidate)
    ensures |RejectedOnes(cs + [c])| == |RejectedOnes(cs)| + if Usable(c) then 0 else 1
  {
    hide Usable;
    assert RejectedOnes(cs + [c]) == RejectedOnes(cs) + if Usable(c) then {} else {|cs|};
  }

  lemma ReportedNext(cs: seq<Candidate>, t: Tally, c: Candidate)
    requires Reported(cs, t)
    ensures Reported(cs + [c], if Usable(c) then Tally(t.written + [c], t.repaired + (if Repaired(c) then 1 else 0),
                                                       t.hidden + Hidden(c), t.rejected)
                               else t.(rejected := t.rejected + 1))
  {
    hide Usable, Repaired, RepairedOnes, RejectedOnes, AllHidden;
    RepairedNext(cs, c);
    RejectedNext(cs, c);
    HiddenNext(cs, c);
    CandidateIs(c);
  }

  lemma {:induction false} SplitIsReported(cs: seq<Candidate>, n: nat)
    requires n <= |cs|
    ensures Reported(cs[..n], TallyUpTo(cs, n))
  {
    hide NormalizeText, Usable, Repaired, Hidden, Reported;
    if n > 0 {
      SplitIsReported(cs, n - 1);
      CandidateIs(cs[n - 1]);
      ReportedNext(cs[..n - 1], TallyUpTo(cs, n - 1), cs[n - 1]);
      assert cs[..n] == cs[..n - 1] + [cs[n - 1]];
    } else {
      NothingReported();
    }
  }

  lemma NothingReported()
    ensures Reported([], Tally([], 0, 0, 0))
  {
  }

  lemma CandidateIs(c: Candidate)
    ensures var t := NormalizeText(c.lines, KEYPOINTS, DIMENSIONS);
            && (t.Some? <==> Usable(c))
            && (t.Some? ==> (t.value.repaired <==> Repaired(c)) && t.value.hidden == Hidden(c))
            && (t.None? ==> !Repaired(c) && Hidden(c) == 0)
  {
    TextIs(c.lines, KEYPOINTS, DIMENSIONS);
  }
}
