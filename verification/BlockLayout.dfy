/**
 Placing one group on the canvas: a column per depth, each sorted by where its sources are, boxes stacked
 downwards, and the rectangle around them. Coordinates are real numbers.
 */
module BlockLayout {
  import opened Common
  import opened GraphLayers
  import StableSort

  /** A node with the size measured in the browser. */
  datatype Node = Node(kind: string, width: real, height: real)

  datatype Point = Point(x: real, y: real)

  datatype Rect = Rect(x: real, y: real, width: real, height: real)

  /** The measured height and the room kept for an expanded preview. */
  function Height(n: Node): real {
    n.height + if EndsWith(n.kind, "gallery-preview") then 750.0
               else if EndsWith(n.kind, "value-preview") then 200.0
               else if EndsWith(n.kind, "image-preview") then 200.0
               else 0.0
  }

  // ----- One column -------------------------------------------------------------------------------------------

  /** A group as it is asked for. */
  datatype Group = Group(nodes: map<string, Node>, edges: seq<Edge>, members: seq<string>, x: real, y: real)

  predicate Measured(g: Group) {
    forall k | k in g.members :: k in g.nodes && g.nodes[k].width >= 0.0 && g.nodes[k].height >= 0.0
  }

  function Column(members: seq<string>, depths: map<string, nat>, d: nat): seq<string>
    requires forall k | k in members :: k in depths
  {
    if members == [] then []
    else Column(members[..|members| - 1], depths, d)
         + if depths[members[|members| - 1]] == d then [members[|members| - 1]] else []
  }

  lemma {:induction false} ColumnIs(members: seq<string>, depths: map<string, nat>, d: nat)
    requires forall k | k in members :: k in depths
    ensures forall k :: k in Column(members, depths, d) <==> k in members && depths[k] == d
    ensures Distinct(members) ==> Distinct(Column(members, depths, d))
  {
    if members != [] {
      var n := |members| - 1;
      ColumnIs(members[..n], depths, d);
      assert members == members[..n] + [members[n]];
    }
  }

  function SumY(pos: map<string, Point>, sources: seq<string>): real
    requires forall p | p in sources :: p in pos
  {
    if sources == [] then 0.0 else pos[sources[0]].y + SumY(pos, sources[1..])
  }

  /** The mean height of the sources; a node without any sorts as zero. */
  function Barycentre(pos: map<string, Point>, sources: seq<string>): real
    requires forall p | p in sources :: p in pos
  {
    SumY(pos, sources) / (if |sources| > 1 then |sources| else 1) as real
  }

  function KeysOf(g: Group, pos: map<string, Point>, column: seq<string>): (r: seq<StableSort.Keyed<string>>)
    requires forall k | k in g.members :: k in pos
    ensures |r| == |column|
    ensures forall i | 0 <= i < |column| ::
            r[i] == StableSort.Keyed(Barycentre(pos, Inside(g, pos, column[i])), column[i])
  {
    seq(|column|, i requires 0 <= i < |column| =>
        StableSort.Keyed(Barycentre(pos, Inside(g, pos, column[i])), column[i]))
  }

  function Inside(g: Group, pos: map<string, Point>, k: string): (sources: seq<string>)
    requires forall k | k in g.members :: k in pos
    ensures forall p | p in sources :: p in pos
  {
    IncomingLocal(g.edges, Members(g.members), k);
    Incoming(g.edges, Members(g.members), k)
  }

  lemma {:induction false} IncomingLocal(edges: seq<Edge>, local: set<string>, k: string)
    ensures forall p | p in Incoming(edges, local, k) :: p in local
  {
    if edges != [] {
      IncomingLocal(edges[1..], local, k);
    }
  }

  /** The boxes of a column one below the other; also where the next one would go. */
  function Stack(nodes: map<string, Node>, pos: map<string, Point>, column: seq<string>, x: real,
                 y: real): (map<string, Point>, real)
    requires forall k | k in column :: k in nodes
    decreases |column|
  {
    if column == [] then (pos, y)
    else Stack(nodes, pos[column[0] := Point(x, y)], column[1..], x, y + Height(nodes[column[0]]) + 90.0)
  }

  lemma StackIs(nodes: map<string, Node>, pos: map<string, Point>, column: seq<string>, x: real, y: real)
    requires Distinct(column) && forall k | k in column :: k in nodes && nodes[k].height >= 0.0
    ensures var (r, end) := Stack(nodes, pos, column, x, y);
            && y <= end
            && (forall k | k !in column :: (k in r <==> k in pos) && (k in pos ==> r[k] == pos[k]))
            && (forall i | 0 <= i < |column| :: column[i] in r && r[column[i]].x == x && y <= r[column[i]].y
                                                && r[column[i]].y + Height(nodes[column[i]]) + 90.0 <= end)
            && (forall i, j | 0 <= i < j < |column| ::
                  r[column[i]].y + Height(nodes[column[i]]) + 90.0 <= r[column[j]].y)
  {
    hide Stack, Height, Distinct, Offset;
    var n := |column|;
    var (r, end) := Stack(nodes, pos, column, x, y);
    StackLeaves(nodes, pos, column, x, y);
    OffsetGrows(nodes, column, y, 0, n);
    forall i | 0 <= i < n
      ensures column[i] in r && r[column[i]] == Point(x, Offset(nodes, column, y, i)) && y <= r[column[i]].y
      ensures r[column[i]].y + Height(nodes[column[i]]) + 90.0 <= end
    {
      StackPlaces(nodes, pos, column, x, y, i);
      OffsetGrows(nodes, column, y, 0, i);
      OffsetNext(nodes, column, y, i);
      OffsetGrows(nodes, column, y, i + 1, n);
    }
    forall i, j | 0 <= i < j < n ensures r[column[i]].y + Height(nodes[column[i]]) + 90.0 <= r[column[j]].y {
      OffsetNext(nodes, column, y, i);
      OffsetGrows(nodes, column, y, i + 1, j);
    }
  }

  /** How far down a column reaches after `n` items. */
  function Offset(nodes: map<string, Node>, column: seq<string>, y: real, n: nat): (r: real)
    requires n <= |column| && forall k | k in column :: k in nodes && nodes[k].height >= 0.0
    ensures n == 0 ==> r == y
  {
    if n == 0 then y else Offset(nodes, column[1..], y + Height(nodes[column[0]]) + 90.0, n - 1)
  }

  lemma {:induction false} OffsetNext(nodes: map<string, Node>, column: seq<string>, y: real, n: nat)
    requires n < |column| && forall k | k in column :: k in nodes && nodes[k].height >= 0.0
    ensures Height(nodes[column[n]]) >= 0.0
    ensures Offset(nodes, column, y, n + 1) == Offset(nodes, column, y, n) + Height(nodes[column[n]]) + 90.0
  {
    if n > 0 {
      OffsetNext(nodes, column[1..], y + Height(nodes[column[0]]) + 90.0, n - 1);
    }
  }

  lemma {:induction false} OffsetGrows(nodes: map<string, Node>, column: seq<string>, y: real, i: nat, j: nat)
    requires i <= j <= |column| && forall k | k in column :: k in nodes && nodes[k].height >= 0.0
    ensures Offset(nodes, column, y, i) <= Offset(nodes, column, y, j)
    decreases j
  {
    hide Height, Offset;
    if i < j {
      OffsetGrows(nodes, column, y, i, j - 1);
      OffsetNext(nodes, column, y, j - 1);
    }
  }

  lemma {:induction false} StackLeaves(nodes: map<string, Node>, pos: map<string, Point>, column: seq<string>, x: real,
                                       y: real)
    requires forall k | k in column :: k in nodes && nodes[k].height >= 0.0
    ensures var (r, end) := Stack(nodes, pos, column, x, y);
            && end == Offset(nodes, column, y, |column|)
            && (forall k | k !in column :: (k in r <==> k in pos) && (k in pos ==> r[k] == pos[k]))
    decreases |column|
  {
    hide Height;
    if column != [] {
      var first, rest := column[0], column[1..];
      assert column == [first] + rest;
      StackLeaves(nodes, pos[first := Point(x, y)], rest, x, y + Height(nodes[first]) + 90.0);
    }
  }

  lemma {:induction false} StackPlaces(nodes: map<string, Node>, pos: map<string, Point>, column: seq<string>, x: real,
                                       y: real, i: nat)
    requires Distinct(column) && forall k | k in column :: k in nodes && nodes[k].height >= 0.0
    requires i < |column|
    ensures var (r, end) := Stack(nodes, pos, column, x, y);
            column[i] in r && r[column[i]] == Point(x, Offset(nodes, column, y, i))
    decreases i
  {
    hide Height;
    var first, rest := column[0], column[1..];
    var pos' := pos[first := Point(x, y)];
    var y' := y + Height(nodes[first]) + 90.0;
    if i > 0 {
      StackPlaces(nodes, pos', rest, x, y', i - 1);
    } else {
      assert first !in rest;
      StackLeaves(nodes, pos', rest, x, y');
    }
  }

  function MaxWidth(nodes: map<string, Node>, column: seq<string>): (w: real)
    requires column != [] && forall k | k in column :: k in nodes
    ensures forall k | k in column :: nodes[k].width <= w
    ensures exists k | k in column :: nodes[k].width == w
  {
    if |column| == 1 then nodes[column[0]].width
    else
      var rest := MaxWidth(nodes, column[1..]);
      assert column == [column[0]] + column[1..];
      if nodes[column[0]].width > rest then nodes[column[0]].width else rest
  }

  // ----- All columns ------------------------------------------------------------------------------------------

  datatype Canvas = Canvas(pos: map<string, Point>, xpos: real, bottom: real)

  predicate Placeable(g: Group, depths: map<string, nat>, pos: map<string, Point>) {
    forall k | k in g.members :: k in g.nodes && k in depths && k in pos
  }

  predicate Filled(g: Group, depths: map<string, nat>, d: nat)
    requires forall k | k in g.members :: k in depths
  {
    forall e | 0 <= e < d :: Column(g.members, depths, e) != []
  }

  function Max(a: real, b: real): real {
    if b > a then b else a
  }

  /** `column.sort`: by the barycentre of the sources. */
  function SortedColumn(g: Group, depths: map<string, nat>, pos: map<string, Point>, d: nat): (column: seq<string>)
    requires Placeable(g, depths, pos)
    ensures |column| == |Column(g.members, depths, d)|
    ensures forall k :: k in column <==> k in Column(g.members, depths, d)
    ensures Distinct(Column(g.members, depths, d)) ==> Distinct(column)
  {
    var column := Column(g.members, depths, d);
    SortedColumnKeeps(KeysOf(g, pos, column), column);
    StableSort.Items(StableSort.Sorted(KeysOf(g, pos, column)))
  }

  lemma SortedColumnKeeps(keyed: seq<StableSort.Keyed<string>>, column: seq<string>)
    requires |keyed| == |column| && forall i | 0 <= i < |column| :: keyed[i].item == column[i]
    ensures var r := StableSort.Items(StableSort.Sorted(keyed));
            && |r| == |column| && (forall k :: k in r <==> k in column) && (Distinct(column) ==> Distinct(r))
  {
    StableSort.SortedKeeps(keyed);
    var r := StableSort.Items(StableSort.Sorted(keyed));
    assert StableSort.Items(keyed) == column;
    assert |multiset(r)| == |r| && |multiset(column)| == |column|;
    forall k ensures k in r <==> k in column {
      assert k in r <==> k in multiset(r);
      assert k in column <==> k in multiset(column);
    }
    if Distinct(column) {
      StableSort.DistinctRearranged(column, r);
    }
  }

  /** The canvas after the columns of depth below `d`. */
  function Columns(g: Group, depths: map<string, nat>, pos: map<string, Point>, d: nat): (c: Canvas)
    requires Placeable(g, depths, pos) && Filled(g, depths, d)
    ensures Placeable(g, depths, c.pos)
  {
    if d == 0 then Canvas(pos, g.x + 40.0, g.y + 80.0) else NextColumn(g, depths, Columns(g, depths, pos, d - 1), d - 1)
  }

  function NextColumn(g: Group, depths: map<string, nat>, c: Canvas, d: nat): (next: Canvas)
    requires Placeable(g, depths, c.pos) && Column(g.members, depths, d) != []
    ensures Placeable(g, depths, next.pos)
  {
    ColumnIs(g.members, depths, d);
    var column := SortedColumn(g, depths, c.pos, d);
    var (r, end) := Stack(g.nodes, c.pos, column, c.xpos, g.y + 90.0);
    StackKeeps(g.nodes, c.pos, column, c.xpos, g.y + 90.0);
    Canvas(r, c.xpos + MaxWidth(g.nodes, column) + 110.0, Max(c.bottom, end))
  }

  lemma {:induction false} StackKeeps(nodes: map<string, Node>, pos: map<string, Point>, column: seq<string>,
                                      x: real, y: real)
    requires forall k | k in column :: k in nodes
    ensures forall k | k in pos :: k in Stack(nodes, pos, column, x, y).0
    decreases |column|
  {
    if column != [] {
      StackKeeps(nodes, pos[column[0] := Point(x, y)], column[1..], x, y + Height(nodes[column[0]]) + 90.0);
    }
  }

  // ----- The geometry -------------------------------------------------------------------------------------------

  /** Box `a` ends, with a gap, above box `b`. */
  predicate Above(g: Group, pos: map<string, Point>, a: string, b: string)
    requires a in pos && b in pos && a in g.nodes
  {
    pos[a].y + Height(g.nodes[a]) + 90.0 <= pos[b].y
  }

  /** Box `a` ends, with a gap, to the left of box `b`. */
  predicate LeftOf(g: Group, pos: map<string, Point>, a: string, b: string)
    requires a in pos && b in pos && a in g.nodes
  {
    pos[a].x + g.nodes[a].width + 110.0 <= pos[b].x
  }

  /** Where a placed member is: right of the group's edge, left of the next column, inside the rows used. */
  predicate InRange(g: Group, c: Canvas, k: string)
    requires k in c.pos && k in g.nodes
  {
    g.x + 40.0 <= c.pos[k].x && c.pos[k].x + g.nodes[k].width + 110.0 <= c.xpos
    && g.y + 90.0 <= c.pos[k].y && c.pos[k].y + Height(g.nodes[k]) + 90.0 <= c.bottom
  }

  predicate Apart(g: Group, depths: map<string, nat>, c: Canvas, a: string, b: string)
    requires a in c.pos && b in c.pos && a in g.nodes && b in g.nodes && a in depths && b in depths
  {
    && (depths[a] < depths[b] ==> LeftOf(g, c.pos, a, b))
    && (depths[a] == depths[b] ==> c.pos[a].x == c.pos[b].x && (Above(g, c.pos, a, b) || Above(g, c.pos, b, a)))
  }

  /** Everything known about the members of depth below `d`. */
  ghost predicate Arranged(g: Group, depths: map<string, nat>, before: map<string, Point>, c: Canvas, d: nat)
    requires Placeable(g, depths, c.pos)
  {
    && g.x + 40.0 <= c.xpos
    && (forall k | k in g.members && depths[k] < d :: InRange(g, c, k))
    && (forall a, b | a in g.members && b in g.members && a != b && depths[a] < d && depths[b] < d ::
        Apart(g, depths, c, a, b))
    && (forall k | k !in g.members :: (k in c.pos <==> k in before) && (k in before ==> c.pos[k] == before[k]))
  }

  /** The column of depth `d` in place: at one x, stacked from the top, and nothing else moved. */
  ghost predicate Stacked(g: Group, depths: map<string, nat>, c: Canvas, next: Canvas, d: nat)
    requires Placeable(g, depths, next.pos)
  {
    && c.bottom <= next.bottom && c.xpos + 110.0 <= next.xpos
    && (forall k | k in g.members && depths[k] == d ::
          next.pos[k].x == c.xpos && c.xpos + g.nodes[k].width + 110.0 <= next.xpos
          && g.y + 90.0 <= next.pos[k].y && next.pos[k].y + Height(g.nodes[k]) + 90.0 <= next.bottom)
    && (forall a, b | a in g.members && b in g.members && a != b && depths[a] == d && depths[b] == d ::
          Above(g, next.pos, a, b) || Above(g, next.pos, b, a))
    && (forall k | !(k in g.members && depths[k] == d) ::
          (k in next.pos <==> k in c.pos) && (k in c.pos ==> next.pos[k] == c.pos[k]))
  }

  /** The stack, told by the boxes instead of their places in the column. */
  lemma StackOf(g: Group, pos: map<string, Point>, column: seq<string>, x: real, y: real)
    requires Distinct(column) && forall k | k in column :: k in g.nodes && g.nodes[k].height >= 0.0
    ensures var (r, end) := Stack(g.nodes, pos, column, x, y);
            && (forall k | k !in column :: (k in r <==> k in pos) && (k in pos ==> r[k] == pos[k]))
            && (forall k | k in column ::
                  k in r && r[k].x == x && y <= r[k].y && r[k].y + Height(g.nodes[k]) + 90.0 <= end)
            && (forall a, b | a in column && b in column && a != b :: Above(g, r, a, b) || Above(g, r, b, a))
  {
    hide Stack, Height, Distinct;
    StackIs(g.nodes, pos, column, x, y);
    var (r, end) := Stack(g.nodes, pos, column, x, y);
    forall k | k in column ensures k in r && r[k].x == x && y <= r[k].y && r[k].y + Height(g.nodes[k]) + 90.0 <= end {
      var i :| 0 <= i < |column| && column[i] == k;
    }
    forall a, b | a in column && b in column && a != b ensures Above(g, r, a, b) || Above(g, r, b, a) {
      var i :| 0 <= i < |column| && column[i] == a;
      var j :| 0 <= j < |column| && column[j] == b;
      assert i < j ==> Above(g, r, a, b);
      assert j < i ==> Above(g, r, b, a);
    }
  }

  lemma NextIsStacked(g: Group, depths: map<string, nat>, c: Canvas, d: nat)
    requires Placeable(g, depths, c.pos) && Column(g.members, depths, d) != [] && Measured(g) && Distinct(g.members)
    ensures Stacked(g, depths, c, NextColumn(g, depths, c, d), d)
  {
    hide Stack, Height, Distinct, Above, Column, KeysOf, SortedColumn, MaxWidth, Max;
    ColumnIs(g.members, depths, d);
    SortedColumnIs(g, depths, c.pos, d);
    var column := SortedColumn(g, depths, c.pos, d);
    StackOf(g, c.pos, column, c.xpos, g.y + 90.0);
    assert column[0] in column;
    StackedIs(g, depths, c, NextColumn(g, depths, c, d), d, column);
  }

  /** A column told by its list is the column of its depth. */
  lemma StackedIs(g: Group, depths: map<string, nat>, c: Canvas, next: Canvas, d: nat, column: seq<string>)
    requires Placeable(g, depths, c.pos) && Placeable(g, depths, next.pos) && Measured(g) && column != []
    requires forall k :: k in column <==> k in g.members && depths[k] == d
    requires next.xpos == c.xpos + MaxWidth(g.nodes, column) + 110.0
    requires var (r, end) := Stack(g.nodes, c.pos, column, c.xpos, g.y + 90.0);
             && next.pos == r && next.bottom == Max(c.bottom, end)
             && (forall k | k !in column :: (k in r <==> k in c.pos) && (k in c.pos ==> r[k] == c.pos[k]))
             && (forall k | k in column ::
                   k in r && r[k].x == c.xpos && g.y + 90.0 <= r[k].y && r[k].y + Height(g.nodes[k]) + 90.0 <= end)
             && (forall a, b | a in column && b in column && a != b :: Above(g, r, a, b) || Above(g, r, b, a))
    ensures Stacked(g, depths, c, next, d)
  {
    hide Stack, Height, Above, MaxWidth;
    assert column[0] in column;
  }

  lemma SortedColumnIs(g: Group, depths: map<string, nat>, pos: map<string, Point>, d: nat)
    requires Placeable(g, depths, pos) && Distinct(g.members)
    ensures Distinct(SortedColumn(g, depths, pos, d))
    ensures forall k :: k in SortedColumn(g, depths, pos, d) <==> k in g.members && depths[k] == d
  {
    ColumnIs(g.members, depths, d);
  }

  lemma ArrangedNext(g: Group, depths: map<string, nat>, before: map<string, Point>, c: Canvas, next: Canvas, d: nat)
    requires Placeable(g, depths, c.pos) && Placeable(g, depths, next.pos)
    requires Arranged(g, depths, before, c, d) && Stacked(g, depths, c, next, d)
    ensures Arranged(g, depths, before, next, d + 1)
  {
    hide Height;
    forall k | k in g.members && depths[k] < d + 1 ensures InRange(g, next, k) {
      if depths[k] < d {
        assert InRange(g, c, k) && next.pos[k] == c.pos[k];
      }
    }
    forall a, b | a in g.members && b in g.members && a != b && depths[a] < d + 1 && depths[b] < d + 1
      ensures Apart(g, depths, next, a, b)
    {
      if depths[a] < d {
        assert InRange(g, c, a) && next.pos[a] == c.pos[a];
        if depths[b] < d {
          assert Apart(g, depths, c, a, b) && next.pos[b] == c.pos[b];
        }
      }
    }
  }

  lemma FilledBefore(g: Group, depths: map<string, nat>, d: nat)
    requires (forall k | k in g.members :: k in depths) && Filled(g, depths, d) && d > 0
    ensures Filled(g, depths, d - 1) && Column(g.members, depths, d - 1) != []
  {
  }

  lemma NothingArranged(g: Group, depths: map<string, nat>, pos: map<string, Point>)
    requires Placeable(g, depths, pos)
    ensures Arranged(g, depths, pos, Canvas(pos, g.x + 40.0, g.y + 80.0), 0)
  {
  }

  lemma ArrangedStep(g: Group, depths: map<string, nat>, pos: map<string, Point>, c: Canvas, d: nat)
    requires Placeable(g, depths, c.pos) && Column(g.members, depths, d) != [] && Measured(g) && Distinct(g.members)
    requires Arranged(g, depths, pos, c, d)
    ensures Arranged(g, depths, pos, NextColumn(g, depths, c, d), d + 1)
  {
    hide Arranged, Stacked, NextColumn, Column, Measured, Distinct;
    NextIsStacked(g, depths, c, d);
    ArrangedNext(g, depths, pos, c, NextColumn(g, depths, c, d), d);
  }

  lemma {:induction false} ColumnsAreArranged(g: Group, depths: map<string, nat>, pos: map<string, Point>, d: nat)
    requires Placeable(g, depths, pos) && Filled(g, depths, d) && Measured(g) && Distinct(g.members)
    ensures Arranged(g, depths, pos, Columns(g, depths, pos, d), d)
  {
    hide Arranged, NextColumn, Column, Measured, Distinct, Filled;
    if d == 0 {
      NothingArranged(g, depths, pos);
    } else {
      FilledBefore(g, depths, d);
      ColumnsAreArranged(g, depths, pos, d - 1);
      ArrangedStep(g, depths, pos, Columns(g, depths, pos, d - 1), d - 1);
    }
  }

  function MaxDepth(members: seq<string>, depths: map<string, nat>): (d: nat)
    requires members != [] && forall k | k in members :: k in depths
    ensures forall k | k in members :: depths[k] <= d
  {
    if |members| == 1 then depths[members[0]]
    else
      var rest := MaxDepth(members[1..], depths);
      assert members == [members[0]] + members[1..];
      if depths[members[0]] > rest then depths[members[0]] else rest
  }

  lemma {:induction false} DeepestMember(members: seq<string>, depths: map<string, nat>) returns (k: string)
    requires members != [] && forall k | k in members :: k in depths
    ensures k in members && depths[k] == MaxDepth(members, depths)
  {
    if |members| > 1 && depths[members[0]] <= MaxDepth(members[1..], depths) {
      k := DeepestMember(members[1..], depths);
    } else {
      k := members[0];
    }
  }

  /** No depth is skipped, so no column is empty. */
  lemma {:induction false} DepthsReach(g: Group, depths: map<string, nat>, k: string, e: nat) returns (m: string)
    requires Layered(g.edges, Members(g.members), depths) && k in depths && e <= depths[k]
    ensures m in g.members && m in depths && depths[m] == e
    decreases depths[k]
  {
    hide Layered, Linked;
    LayeredLocal(g, depths);
    if depths[k] == e {
      m := k;
    } else {
      var p := DeepHasParent(g.edges, Members(g.members), depths, k);
      m := DepthsReach(g, depths, p, e);
    }
  }

  lemma LayeredLocal(g: Group, depths: map<string, nat>)
    requires Layered(g.edges, Members(g.members), depths)
    ensures forall k | k in depths :: k in g.members
  {
    assert forall k | k in depths.Keys :: k in Members(g.members);
  }

  lemma NoColumnIsEmpty(g: Group, depths: map<string, nat>)
    requires g.members != [] && Layered(g.edges, Members(g.members), depths) && depths.Keys == Members(g.members)
    ensures forall k | k in g.members :: k in depths
    ensures Filled(g, depths, MaxDepth(g.members, depths) + 1)
  {
    assert forall k | k in g.members :: k in Members(g.members) && k in depths.Keys;
    var last := DeepestMember(g.members, depths);
    forall e | 0 <= e < MaxDepth(g.members, depths) + 1 ensures Column(g.members, depths, e) != [] {
      var m := DepthsReach(g, depths, last, e);
      ColumnIs(g.members, depths, e);
      assert m in Column(g.members, depths, e);
    }
  }

  lemma NothingToFill(g: Group, depths: map<string, nat>)
    requires forall k | k in g.members :: k in depths
    ensures Filled(g, depths, 0)
  {
  }

  lemma FilledUpTo(g: Group, depths: map<string, nat>, e: nat, d: nat)
    requires (forall k | k in g.members :: k in depths) && Filled(g, depths, d) && e < d
    ensures Column(g.members, depths, e) != [] && Filled(g, depths, e + 1)
  {
  }

  function RectOf(g: Group, c: Canvas): Rect {
    Rect(g.x, g.y, c.xpos - g.x - 70.0, c.bottom - g.y)
  }

  predicate Contains(r: Rect, n: Node, p: Point) {
    r.x <= p.x && p.x + n.width <= r.x + r.width && r.y <= p.y && p.y + Height(n) <= r.y + r.height
  }

  predicate Overlaps(m: Node, p: Point, n: Node, q: Point) {
    p.x < q.x + n.width && q.x < p.x + m.width && p.y < q.y + Height(n) && q.y < p.y + Height(m)
  }

  /** What a finished block looks like: every internal edge goes strictly rightwards, no two boxes overlap, the
      rectangle contains them all, and nothing outside the group moved. */
  ghost predicate WellPlaced(g: Group, before: map<string, Point>, pos: map<string, Point>, r: Rect)
    requires forall k | k in g.members :: k in g.nodes && k in pos
  {
    && (forall a, b | Linked(g.edges, Members(g.members), a, b) :: pos[a].x + g.nodes[a].width + 110.0 <= pos[b].x)
    && (forall a, b | a in g.members && b in g.members && a != b :: !Overlaps(g.nodes[a], pos[a], g.nodes[b], pos[b]))
    && (forall k | k in g.members :: Contains(r, g.nodes[k], pos[k]))
    && (forall k | k !in g.members :: (k in pos <==> k in before) && (k in before ==> pos[k] == before[k]))
  }

  lemma BlockIsWellPlaced(g: Group, depths: map<string, nat>, pos: map<string, Point>)
    requires g.members != [] && Distinct(g.members) && Measured(g) && Placeable(g, depths, pos)
    requires Layered(g.edges, Members(g.members), depths) && depths.Keys == Members(g.members)
    requires Filled(g, depths, MaxDepth(g.members, depths) + 1)
    ensures var c := Columns(g, depths, pos, MaxDepth(g.members, depths) + 1);
            WellPlaced(g, pos, c.pos, RectOf(g, c))
  {
    hide Columns, Height, Layered, Filled, MaxDepth, Distinct;
    var d := MaxDepth(g.members, depths) + 1;
    var c := Columns(g, depths, pos, d);
    ColumnsAreArranged(g, depths, pos, d);
    assert forall k | k in g.members :: depths[k] < d;
    assert forall k | k in g.members :: InRange(g, c, k);
    forall a, b | Linked(g.edges, Members(g.members), a, b)
      ensures c.pos[a].x + g.nodes[a].width + 110.0 <= c.pos[b].x
    {
      LinkedIsLocal(g.edges, Members(g.members), a, b);
      assert b in depths.Keys;
      EdgesGoDeeper(g.edges, Members(g.members), depths, a, b);
      assert Apart(g, depths, c, a, b);
    }
    forall a, b | a in g.members && b in g.members && a != b
      ensures !Overlaps(g.nodes[a], c.pos[a], g.nodes[b], c.pos[b])
    {
      assert Apart(g, depths, c, a, b) && Apart(g, depths, c, b, a);
    }
  }

  /** The outcome of a block: the columns of the layering, the rectangle, and the picture they make. */
  ghost predicate Laid(g: Group, depths: map<string, nat>, before: map<string, Point>, pos: map<string, Point>,
                       rect: Rect) {
    && g.members != [] && Distinct(g.members)
    && Layered(g.edges, Members(g.members), depths) && depths.Keys == Members(g.members)
    && Placeable(g, depths, before) && Filled(g, depths, MaxDepth(g.members, depths) + 1)
    && var c := Columns(g, depths, before, MaxDepth(g.members, depths) + 1);
       pos == c.pos && rect == RectOf(g, c) && (Measured(g) ==> WellPlaced(g, before, pos, rect))
  }

  // ----- The script's state ---------------------------------------------------------------------------------------

  datatype Placed = Placed(gid: string, title: string, rect: Rect, members: seq<string>, color: string)

  datatype Failure = Refused | HasCycle

  class LayoutScript {
    const nodes: map<string, Node>
    const edges: seq<Edge>
    var pos: map<string, Point>
    var used: set<string>
    var groups: seq<Placed>

    constructor (nodes: map<string, Node>, edges: seq<Edge>, pos: map<string, Point>)
      ensures this.nodes == nodes && this.edges == edges && this.pos == pos && used == {} && groups == []
    {
      this.nodes, this.edges, this.pos := nodes, edges, pos;
      used, groups := {}, [];
    }

    /** One column: its boxes one below the other. */
    method PlaceColumn(column: seq<string>, x: real, y: real) returns (ypos: real)
      requires forall k | k in column :: k in nodes
      modifies this`pos
      ensures (pos, ypos) == Stack(nodes, old(pos), column, x, y)
    {
      ypos := y;
      for n := 0 to |column|
        invariant Stack(nodes, old(pos), column, x, y) == Stack(nodes, pos, column[n..], x, ypos)
      {
        var key := column[n];
        assert column[n..][1..] == column[n + 1..] && column[n..][0] == key;
        pos := pos[key := Point(x, ypos)];
        ypos := ypos + Height(nodes[key]) + 90.0;
      }
    }

    /** The column of one depth, sorted by where its sources are. */
    method PlaceDepth(g: Group, depths: map<string, nat>, depth: nat, xpos: real, bottom: real)
      returns (nextX: real, nextBottom: real)
      requires g.nodes == nodes && Placeable(g, depths, pos) && Column(g.members, depths, depth) != []
      modifies this`pos
      ensures Placeable(g, depths, pos)
      ensures Canvas(pos, nextX, nextBottom) == NextColumn(g, depths, Canvas(old(pos), xpos, bottom), depth)
    {
      hide Stack, Column;
      ColumnIs(g.members, depths, depth);
      var column := SortedColumn(g, depths, pos, depth);
      ghost var was := pos;
      var ypos := PlaceColumn(column, xpos, g.y + 90.0);
      StackKeeps(nodes, was, column, xpos, g.y + 90.0);
      nextBottom := Max(bottom, ypos);
      nextX := xpos + MaxWidth(nodes, column) + 110.0;
    }

    /** Every column, left to right. */
    method PlaceAll(g: Group, depths: map<string, nat>) returns (xpos: real, bottom: real)
      requires g.nodes == nodes && g.members != [] && Placeable(g, depths, pos)
      requires Filled(g, depths, MaxDepth(g.members, depths) + 1)
      modifies this`pos
      ensures Canvas(pos, xpos, bottom) == Columns(g, depths, old(pos), MaxDepth(g.members, depths) + 1)
    {
      hide Filled, NextColumn, SortedColumn, Column;
      NothingToFill(g, depths);
      var deepest := MaxDepth(g.members, depths);
      xpos, bottom := g.x + 40.0, g.y + 80.0;
      for depth := 0 to deepest + 1
        invariant Placeable(g, depths, pos) && Filled(g, depths, depth)
        invariant Canvas(pos, xpos, bottom) == Columns(g, depths, old(pos), depth)
      {
        FilledUpTo(g, depths, depth, deepest + 1);
        xpos, bottom := PlaceDepth(g, depths, depth, xpos, bottom);
      }
    }

    /** The columns and the rectangle around them. */
    method PlaceGroup(g: Group, depths: map<string, nat>) returns (rect: Rect)
      requires g.nodes == nodes && g.members != [] && (forall k | k in g.members :: k in nodes && k in pos)
      requires Layered(g.edges, Members(g.members), depths) && depths.Keys == Members(g.members) && Distinct(g.members)
      modifies this`pos
      ensures Laid(g, depths, old(pos), pos, rect)
    {
      hide Layered, Distinct, WellPlaced, Columns, Filled, Measured;
      NoColumnIsEmpty(g, depths);
      ghost var before := pos;
      var xpos, bottom := PlaceAll(g, depths);
      if Measured(g) {
        BlockIsWellPlaced(g, depths, before);
      }
      rect := Rect(g.x, g.y, xpos - g.x - 70.0, bottom - g.y);
    }

    /** `block`: fails on an empty group or a member placed before, then on a repeated member or a cycle; the
        second failure has already marked the members as used. */
    method Block(gid: string, title: string, members: seq<string>, x: real, y: real, color: string)
      returns (r: Result<Placed, Failure>, ghost depths: map<string, nat>)
      requires forall k | k in members :: k in nodes && k in pos
      modifies this
      ensures r == Err(Refused) <==> members == [] || exists k :: k in members && k in old(used)
      ensures r == Err(HasCycle) <==> r != Err(Refused) && !(Distinct(members) && !Cyclic(edges, Members(members)))
      ensures used == if r == Err(Refused) then old(used) else old(used) + Members(members)
      ensures r.Err? ==> pos == old(pos) && groups == old(groups)
      ensures r.Ok? ==> r.value == Placed(gid, title, r.value.rect, members, color)
                        && Laid(Group(nodes, edges, members, x, y), depths, old(pos), pos, r.value.rect)
      ensures groups == if r.Ok? then old(groups) + [r.value] else old(groups)
    {
      depths := map[];
      if members == [] || exists k :: k in members && k in used {
        return Err(Refused), depths;
      }
      hide Layered, Cyclic, Distinct, Laid, Members;
      used := used + Members(members);
      var ok, known := Layers(edges, members);
      depths := known;
      if !ok {
        return Err(HasCycle), depths;
      }
      var rect := PlaceGroup(Group(nodes, edges, members, x, y), known);
      var group := Placed(gid, title, rect, members, color);
      groups := groups + [group];
      return Ok(group), depths;
    }
  }
}
