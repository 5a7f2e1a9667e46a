/**
 The picture a block makes, told by where the boxes end up: which boxes form a column and in which order, how far apart
 boxes and columns are, and that the rectangle is no larger than it has to be.
 */
module LayoutShape {
  import opened Common
  import opened GraphLayers
  import opened BlockLayout
  import StableSort

  // ----- The mean height of the sources -------------------------------------------------------------------------

  /** An edge into `k` from inside the group. */
  predicate Pulls(local: set<string>, k: string, e: Edge) {
    e.target == k && e.source in local
  }

  function PullCount(edges: seq<Edge>, local: set<string>, k: string): nat {
    if edges == [] then 0
    else PullCount(edges[..|edges| - 1], local, k) + if Pulls(local, k, edges[|edges| - 1]) then 1 else 0
  }

  function PullSum(edges: seq<Edge>, local: set<string>, pos: map<string, Point>, k: string): real
    requires forall m | m in local :: m in pos
  {
    if edges == [] then 0.0
    else
      PullSum(edges[..|edges| - 1], local, pos, k)
      + if Pulls(local, k, edges[|edges| - 1]) then pos[edges[|edges| - 1].source].y else 0.0
  }

  /** The mean of the heights at the other ends of the edges into `k`; zero without any. */
  function MeanHeight(edges: seq<Edge>, local: set<string>, pos: map<string, Point>, k: string): real
    requires forall m | m in local :: m in pos
  {
    if PullCount(edges, local, k) == 0 then 0.0
    else PullSum(edges, local, pos, k) / PullCount(edges, local, k) as real
  }

  lemma {:induction false} SourcesAppend(edges: seq<Edge>, e: Edge, local: set<string>, k: string)
    ensures Incoming(edges + [e], local, k) == Incoming(edges, local, k) + if Pulls(local, k, e) then [e.source] else []
  {
    if edges == [] {
      OneSource(e, local, k);
      assert [] + [e] == [e];
    } else {
      hide Pulls;
      assert (edges + [e])[1..] == edges[1..] + [e] && (edges + [e])[0] == edges[0];
      SourcesAppend(edges[1..], e, local, k);
    }
  }

  lemma OneSource(e: Edge, local: set<string>, k: string)
    ensures Incoming([e], local, k) == if Pulls(local, k, e) then [e.source] else []
  {
    assert Incoming([e][1..], local, k) == [];
  }

  lemma {:induction false} SumAppend(pos: map<string, Point>, sources: seq<string>, p: string)
    requires p in pos && forall q | q in sources :: q in pos
    ensures SumY(pos, sources + [p]) == SumY(pos, sources) + pos[p].y
  {
    if sources == [] {
      assert [p][1..] == [];
    } else {
      assert (sources + [p])[1..] == sources[1..] + [p];
      SumAppend(pos, sources[1..], p);
    }
  }

  lemma {:induction false} SourcesAre(edges: seq<Edge>, local: set<string>, pos: map<string, Point>, k: string)
    requires forall m | m in local :: m in pos
    ensures forall p | p in Incoming(edges, local, k) :: p in pos
    ensures |Incoming(edges, local, k)| == PullCount(edges, local, k)
    ensures SumY(pos, Incoming(edges, local, k)) == PullSum(edges, local, pos, k)
  {
    if edges != [] {
      var before, e := edges[..|edges| - 1], edges[|edges| - 1];
      SourcesAre(before, local, pos, k);
      assert edges == before + [e];
      SourcesAppend(before, e, local, k);
      if Pulls(local, k, e) {
        SumAppend(pos, Incoming(before, local, k), e.source);
      } else {
        assert Incoming(before, local, k) + [] == Incoming(before, local, k);
      }
    }
  }

  function Mean(g: Group, pos: map<string, Point>, k: string): real
    requires forall m | m in g.members :: m in pos
  {
    MeanHeight(g.edges, Members(g.members), pos, k)
  }

  lemma BarycentreIsMean(g: Group, pos: map<string, Point>, k: string)
    requires forall m | m in g.members :: m in pos
    ensures Barycentre(pos, BlockLayout.Inside(g, pos, k)) == Mean(g, pos, k)
  {
    SourcesAre(g.edges, Members(g.members), pos, k);
  }

  /** Only the boxes a member depends on count. */
  lemma {:induction false} PullOf(edges: seq<Edge>, local: set<string>, pos: map<string, Point>,
                                  next: map<string, Point>, k: string)
    requires forall m | m in local :: m in pos && m in next
    requires forall e | e in edges && Pulls(local, k, e) :: pos[e.source].y == next[e.source].y
    ensures PullSum(edges, local, pos, k) == PullSum(edges, local, next, k)
  {
    if edges != [] {
      PullOf(edges[..|edges| - 1], local, pos, next, k);
      assert edges[|edges| - 1] in edges;
    }
  }

  // ----- The order inside a column ------------------------------------------------------------------------------

  predicate ListedBefore(members: seq<string>, a: string, b: string) {
    exists i, j | 0 <= i < j < |members| :: members[i] == a && members[j] == b
  }

  lemma {:induction false} ColumnOrder(members: seq<string>, depths: map<string, nat>, d: nat, p: nat, q: nat)
    requires (forall k | k in members :: k in depths) && p < q < |Column(members, depths, d)|
    ensures ListedBefore(members, Column(members, depths, d)[p], Column(members, depths, d)[q])
    decreases |members|
  {
    var n := |members| - 1;
    var before, all := Column(members[..n], depths, d), Column(members, depths, d);
    if q < |before| {
      ColumnOrder(members[..n], depths, d, p, q);
      var i, j :| 0 <= i < j < n && members[..n][i] == before[p] && members[..n][j] == before[q];
      assert members[i] == all[p] && members[j] == all[q];
    } else {
      ColumnIs(members[..n], depths, d);
      assert before[p] in before;
      assert before[p] in members[..n];
      var i :| 0 <= i < n && members[..n][i] == before[p];
      assert members[i] == all[p] && members[n] == all[q];
    }
  }

  /** By the mean height of the sources, and as listed where that is equal. */
  ghost predicate InOrder(g: Group, pos: map<string, Point>, a: string, b: string)
    requires forall m | m in g.members :: m in pos
  {
    Mean(g, pos, a) < Mean(g, pos, b) || (Mean(g, pos, a) == Mean(g, pos, b) && ListedBefore(g.members, a, b))
  }

  lemma SortedInOrder(g: Group, depths: map<string, nat>, pos: map<string, Point>, d: nat, i: nat, j: nat)
    requires Placeable(g, depths, pos) && i < j < |SortedColumn(g, depths, pos, d)|
    ensures InOrder(g, pos, SortedColumn(g, depths, pos, d)[i], SortedColumn(g, depths, pos, d)[j])
  {
    var column := Column(g.members, depths, d);
    var keyed := KeysOf(g, pos, column);
    var sorted := StableSort.Sorted(keyed);
    StableSort.SortedIsStable(keyed, 0.0);
    assert sorted[i].key <= sorted[j].key;
    var p, q := StableSort.PlacesOf(keyed, i, j);
    BarycentreIsMean(g, pos, column[p]);
    BarycentreIsMean(g, pos, column[q]);
    if p < q {
      ColumnOrder(g.members, depths, d, p, q);
    }
  }

  // ----- The columns ----------------------------------------------------------------------------------------------

  /** The column of depth `d`: exactly its members, at one x, the first below the group's edge, each a fixed gap below
      the one before, in order. */
  ghost predicate Shape(g: Group, depths: map<string, nat>, pos: map<string, Point>, d: nat, column: seq<string>,
                        x: real)
    requires Placeable(g, depths, pos)
  {
    && column != [] && Distinct(column) && (forall k :: k in column <==> k in g.members && depths[k] == d)
    && (forall i: nat | i < |column| :: pos[column[i]].x == x)
    && pos[column[0]].y == g.y + 90.0
    && (forall i: nat, j: nat | i + 1 == j < |column| ::
          pos[column[j]].y == pos[column[i]].y + Height(g.nodes[column[i]]) + 90.0)
    && (forall i: nat, j: nat | i < j < |column| :: InOrder(g, pos, column[i], column[j]))
  }

  predicate Widest(g: Group, column: seq<string>, w: real)
    requires forall k | k in column :: k in g.nodes
  {
    (forall k | k in column :: g.nodes[k].width <= w) && exists k | k in column :: g.nodes[k].width == w
  }

  /** The same up to depth `d`. */
  predicate Kept(g: Group, depths: map<string, nat>, pos: map<string, Point>, next: map<string, Point>, d: nat)
    requires Placeable(g, depths, pos) && Placeable(g, depths, next)
  {
    forall k | k in g.members && depths[k] < d :: next[k] == pos[k]
  }

  predicate Deepening(g: Group, depths: map<string, nat>) {
    Layered(g.edges, Members(g.members), depths) && depths.Keys == Members(g.members)
  }

  /** The sources of a member lie in earlier columns. */
  lemma MeanStays(g: Group, depths: map<string, nat>, pos: map<string, Point>, next: map<string, Point>, d: nat,
                  k: string)
    requires Placeable(g, depths, pos) && Placeable(g, depths, next) && Kept(g, depths, pos, next, d)
    requires Deepening(g, depths) && k in g.members && depths[k] <= d
    ensures Mean(g, next, k) == Mean(g, pos, k)
  {
    hide Layered, PullSum, PullCount;
    var local := Members(g.members);
    forall e | e in g.edges && Pulls(local, k, e) ensures pos[e.source].y == next[e.source].y {
      assert e == Edge(e.source, k);
      EdgesGoDeeper(g.edges, local, depths, e.source, k);
    }
    PullOf(g.edges, local, pos, next, k);
  }

  lemma OrderStays(g: Group, depths: map<string, nat>, pos: map<string, Point>, next: map<string, Point>, d: nat,
                   column: seq<string>)
    requires Placeable(g, depths, pos) && Placeable(g, depths, next) && Kept(g, depths, pos, next, d)
    requires Deepening(g, depths) && forall k | k in column :: k in g.members && depths[k] <= d
    requires forall i: nat, j: nat | i < j < |column| :: InOrder(g, pos, column[i], column[j])
    ensures forall i: nat, j: nat | i < j < |column| :: InOrder(g, next, column[i], column[j])
  {
    hide Deepening, Kept, Mean;
    forall i: nat, j: nat | i < j < |column| ensures InOrder(g, next, column[i], column[j]) {
      MeanStays(g, depths, pos, next, d, column[i]);
      MeanStays(g, depths, pos, next, d, column[j]);
      assert InOrder(g, pos, column[i], column[j]);
    }
  }

  lemma ShapeStays(g: Group, depths: map<string, nat>, pos: map<string, Point>, next: map<string, Point>, e: nat,
                   d: nat, column: seq<string>, x: real)
    requires Placeable(g, depths, pos) && Placeable(g, depths, next) && Kept(g, depths, pos, next, d)
    requires Deepening(g, depths) && e < d && Shape(g, depths, pos, e, column, x)
    ensures Shape(g, depths, next, e, column, x)
  {
    hide Height, InOrder, Deepening, Distinct;
    OrderStays(g, depths, pos, next, d, column);
  }

  /** Where the boxes of a stack are. */
  lemma StackShape(g: Group, pos: map<string, Point>, column: seq<string>, x: real, y: real)
    requires Distinct(column) && column != [] && forall k | k in column :: k in g.nodes && g.nodes[k].height >= 0.0
    ensures var (r, end) := Stack(g.nodes, pos, column, x, y);
            && (forall k | k in column :: k in r)
            && (forall i: nat | i < |column| :: r[column[i]].x == x)
            && r[column[0]].y == y && y <= end
            && (forall i: nat, j: nat | i + 1 == j < |column| ::
                  r[column[j]].y == r[column[i]].y + Height(g.nodes[column[i]]) + 90.0)
            && (exists k | k in column :: r[k].y + Height(g.nodes[k]) + 90.0 == end)
  {
    hide Stack, Height, Distinct, Offset;
    var (r, end) := Stack(g.nodes, pos, column, x, y);
    StackLeaves(g.nodes, pos, column, x, y);
    forall i: nat | i < |column| ensures column[i] in r && r[column[i]] == Point(x, Offset(g.nodes, column, y, i)) {
      StackPlaces(g.nodes, pos, column, x, y, i);
    }
    forall i: nat, j: nat | i + 1 == j <= |column|
      ensures Offset(g.nodes, column, y, j) == Offset(g.nodes, column, y, i) + Height(g.nodes[column[i]]) + 90.0
    {
      OffsetNext(g.nodes, column, y, i);
    }
    OffsetGrows(g.nodes, column, y, 0, |column|);
    assert column[|column| - 1] in column;
  }

  /** One more column: it has its shape, at the next x, and the columns before it keep theirs. */
  lemma NextShape(g: Group, depths: map<string, nat>, c: Canvas, d: nat) returns (column: seq<string>)
    requires Placeable(g, depths, c.pos) && Column(g.members, depths, d) != [] && Measured(g) && Distinct(g.members)
    requires Deepening(g, depths)
    ensures var next := NextColumn(g, depths, c, d);
            && Kept(g, depths, c.pos, next.pos, d) && Shape(g, depths, next.pos, d, column, c.xpos)
            && Widest(g, column, next.xpos - c.xpos - 110.0)
            && c.bottom <= next.bottom && g.y + 90.0 <= next.bottom
            && (next.bottom == c.bottom || exists k | k in column ::
                  next.pos[k].y + Height(g.nodes[k]) + 90.0 == next.bottom)
  {
    hide Stack, Height, Distinct, Column, KeysOf, SortedColumn, MaxWidth, Offset, InOrder, Deepening;
    column := SortedColumn(g, depths, c.pos, d);
    ColumnIs(g.members, depths, d);
    SortedColumnIs(g, depths, c.pos, d);
    var next := NextColumn(g, depths, c, d);
    StackLeaves(g.nodes, c.pos, column, c.xpos, g.y + 90.0);
    StackShape(g, c.pos, column, c.xpos, g.y + 90.0);
    ColumnInOrder(g, depths, c.pos, d);
    OrderStays(g, depths, c.pos, next.pos, d, column);
  }

  lemma ColumnInOrder(g: Group, depths: map<string, nat>, pos: map<string, Point>, d: nat)
    requires Placeable(g, depths, pos)
    ensures var column := SortedColumn(g, depths, pos, d);
            forall i: nat, j: nat | i < j < |column| :: InOrder(g, pos, column[i], column[j])
  {
    var column := SortedColumn(g, depths, pos, d);
    hide SortedColumn, InOrder;
    forall i: nat, j: nat | i < j < |column| ensures InOrder(g, pos, column[i], column[j]) {
      SortedInOrder(g, depths, pos, d, i, j);
    }
  }

  /** Everything about the columns of depth below `d`. */
  ghost predicate Shapes(g: Group, depths: map<string, nat>, c: Canvas, d: nat, columns: seq<seq<string>>,
                         xs: seq<real>)
    requires Placeable(g, depths, c.pos)
  {
    && |columns| == d && |xs| == d + 1 && xs[0] == g.x + 40.0 && xs[d] == c.xpos
    && (forall e: nat | e < d :: Shape(g, depths, c.pos, e, columns[e], xs[e]))
    && (forall e: nat, f: nat | e + 1 == f <= d :: Widest(g, columns[e], xs[f] - xs[e] - 110.0))
  }

  /** The bottom is where the lowest box ends, and a gap. */
  ghost predicate Bottomed(g: Group, depths: map<string, nat>, c: Canvas, d: nat)
    requires Placeable(g, depths, c.pos)
  {
    if d == 0 then c.bottom == g.y + 80.0
    else exists k | k in g.members && depths[k] < d :: c.pos[k].y + Height(g.nodes[k]) + 90.0 == c.bottom
  }

  lemma ShapesNext(g: Group, depths: map<string, nat>, c: Canvas, d: nat, columns: seq<seq<string>>, xs: seq<real>,
                   next: Canvas, column: seq<string>)
    requires Placeable(g, depths, c.pos) && Placeable(g, depths, next.pos) && Deepening(g, depths)
    requires Shapes(g, depths, c, d, columns, xs) && Kept(g, depths, c.pos, next.pos, d)
    requires Shape(g, depths, next.pos, d, column, c.xpos) && Widest(g, column, next.xpos - c.xpos - 110.0)
    ensures Shapes(g, depths, next, d + 1, columns + [column], xs + [next.xpos])
  {
    hide Deepening, Kept, Shape, Widest;
    var all := columns + [column];
    forall e: nat | e < d + 1 ensures Shape(g, depths, next.pos, e, all[e], (xs + [next.xpos])[e]) {
      if e < d {
        ShapeStays(g, depths, c.pos, next.pos, e, d, columns[e], xs[e]);
      }
    }
  }

  lemma BottomNext(g: Group, depths: map<string, nat>, c: Canvas, d: nat, next: Canvas, column: seq<string>)
    requires Placeable(g, depths, c.pos) && Placeable(g, depths, next.pos) && Bottomed(g, depths, c, d)
    requires Kept(g, depths, c.pos, next.pos, d) && forall k | k in column :: k in g.members && depths[k] == d
    requires c.bottom <= next.bottom && g.y + 90.0 <= next.bottom
    requires next.bottom == c.bottom || exists k | k in column ::
             next.pos[k].y + Height(g.nodes[k]) + 90.0 == next.bottom
    ensures Bottomed(g, depths, next, d + 1)
  {
    hide Height;
    if k :| k in column && next.pos[k].y + Height(g.nodes[k]) + 90.0 == next.bottom {
      assert k in g.members;
    } else {
      var k :| k in g.members && depths[k] < d && c.pos[k].y + Height(g.nodes[k]) + 90.0 == c.bottom;
      assert next.pos[k] == c.pos[k];
    }
  }

  lemma {:induction false} ColumnsShape(g: Group, depths: map<string, nat>, before: map<string, Point>, d: nat)
    returns (columns: seq<seq<string>>, xs: seq<real>)
    requires Placeable(g, depths, before) && Filled(g, depths, d) && Measured(g) && Distinct(g.members)
    requires Deepening(g, depths)
    ensures Shapes(g, depths, Columns(g, depths, before, d), d, columns, xs)
    ensures Bottomed(g, depths, Columns(g, depths, before, d), d)
  {
    hide Deepening, NextColumn, Shape, Shapes, Bottomed, Kept, Widest, Measured, Distinct, Filled, Column;
    if d == 0 {
      columns, xs := [], [g.x + 40.0];
      NothingShaped(g, depths, before);
    } else {
      FilledBefore(g, depths, d);
      columns, xs := ColumnsShape(g, depths, before, d - 1);
      var c := Columns(g, depths, before, d - 1);
      var column := NextShape(g, depths, c, d - 1);
      ShapeMembers(g, depths, NextColumn(g, depths, c, d - 1).pos, d - 1, column, c.xpos);
      ShapesNext(g, depths, c, d - 1, columns, xs, NextColumn(g, depths, c, d - 1), column);
      BottomNext(g, depths, c, d - 1, NextColumn(g, depths, c, d - 1), column);
      columns, xs := columns + [column], xs + [NextColumn(g, depths, c, d - 1).xpos];
    }
  }

  lemma ShapeMembers(g: Group, depths: map<string, nat>, pos: map<string, Point>, d: nat, column: seq<string>, x: real)
    requires Placeable(g, depths, pos) && Shape(g, depths, pos, d, column, x)
    ensures forall k | k in column :: k in g.members && depths[k] == d
  {
  }

  lemma NothingShaped(g: Group, depths: map<string, nat>, before: map<string, Point>)
    requires Placeable(g, depths, before)
    ensures var c := Canvas(before, g.x + 40.0, g.y + 80.0);
            Shapes(g, depths, c, 0, [], [g.x + 40.0]) && Bottomed(g, depths, c, 0)
  {
  }

  // ----- The picture ----------------------------------------------------------------------------------------------

  /** One column per depth, the first at the left margin, each next one a fixed gap right of the widest box before it;
      the rectangle starts at the group's corner and ends a margin right of the widest box of the last column and a gap
      below the lowest box. */
  ghost predicate Pictured(g: Group, depths: map<string, nat>, pos: map<string, Point>, r: Rect,
                           columns: seq<seq<string>>, xs: seq<real>)
    requires Placeable(g, depths, pos)
  {
    && columns != [] && |xs| == |columns| + 1
    && (forall k | k in g.members :: depths[k] < |columns|)
    && (forall e: nat | e < |columns| :: Shape(g, depths, pos, e, columns[e], xs[e]))
    && xs[0] == g.x + 40.0
    && (forall e: nat, f: nat | e + 1 == f <= |columns| :: Widest(g, columns[e], xs[f] - xs[e] - 110.0))
    && r.x == g.x && r.y == g.y && r.x + r.width == xs[|columns|] - 110.0 + 40.0
    && (forall k | k in g.members :: pos[k].y + Height(g.nodes[k]) + 90.0 <= r.y + r.height)
    && (exists k | k in g.members :: pos[k].y + Height(g.nodes[k]) + 90.0 == r.y + r.height)
  }

  /** What a block that goes through looks like, completely. */
  lemma BlockIsPictured(g: Group, depths: map<string, nat>, before: map<string, Point>, pos: map<string, Point>,
                        r: Rect)
    returns (columns: seq<seq<string>>, xs: seq<real>)
    requires Laid(g, depths, before, pos, r) && Measured(g)
    ensures Placeable(g, depths, pos) && Pictured(g, depths, pos, r, columns, xs)
  {
    var d := MaxDepth(g.members, depths) + 1;
    var c := Columns(g, depths, before, d);
    hide Columns, Layered, Filled, Distinct, Measured, WellPlaced, Shapes, Bottomed, Pictured, Arranged, MaxDepth;
    columns, xs := ColumnsShape(g, depths, before, d);
    ColumnsAreArranged(g, depths, before, d);
    PictureOf(g, depths, before, c, d, columns, xs);
  }

  lemma PictureOf(g: Group, depths: map<string, nat>, before: map<string, Point>, c: Canvas, d: nat,
                  columns: seq<seq<string>>, xs: seq<real>)
    requires Placeable(g, depths, c.pos) && d > 0 && forall k | k in g.members :: depths[k] < d
    requires Arranged(g, depths, before, c, d) && Shapes(g, depths, c, d, columns, xs) && Bottomed(g, depths, c, d)
    ensures Pictured(g, depths, c.pos, RectOf(g, c), columns, xs)
  {
    hide Height, Shape, Widest, Apart;
    assert forall k | k in g.members :: InRange(g, c, k);
  }

  // ----- The height of a box --------------------------------------------------------------------------------------

  /** Beside its measured height a gallery keeps 750 free, a value or an image preview 200, whatever comes before in its
      kind, and any other box nothing. */
  lemma HeightIs(n: Node, prefix: string)
    ensures n.kind == prefix + "gallery-preview" ==> Height(n) == n.height + 750.0
    ensures n.kind == prefix + "value-preview" || n.kind == prefix + "image-preview" ==> Height(n) == n.height + 200.0
    ensures var k := |n.kind|;
            || Height(n) == n.height
            || (k >= 15 && n.kind[k - 15..] == "gallery-preview")
            || (k >= 13 && n.kind[k - 13..] in {"value-preview", "image-preview"})
  {
    var gallery, value, image := "gallery-preview", "value-preview", "image-preview";
    assert gallery[14] == 'w' && gallery[2..] == "llery-preview";
    assert gallery[2] == 'l' && value[0] == 'v' && image[0] == 'i' && gallery[6] == 'y' && value[4] == 'e';
  }
}
