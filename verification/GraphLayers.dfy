/**
 The layering loop of the layout script: every round gives a depth to the members all of whose predecessors
 inside the group have one. It fails exactly on a repeated member or a cycle, and the depth is the length of
 the longest path.
 */
module GraphLayers {

  datatype Edge = Edge(source: string, target: string)

  function Members(members: seq<string>): set<string> {
    set k | k in members
  }

  /** The sources of the edges into `k` from inside the group, in edge order, repeats kept. */
  function Incoming(edges: seq<Edge>, local: set<string>, k: string): seq<string> {
    if edges == [] then []
    else
      (if edges[0].target == k && edges[0].source in local then [edges[0].source] else [])
      + Incoming(edges[1..], local, k)
  }

  predicate Linked(edges: seq<Edge>, local: set<string>, a: string, b: string) {
    a in local && b in local && Edge(a, b) in edges
  }

  lemma {:induction false} IncomingIs(edges: seq<Edge>, local: set<string>, k: string)
    requires k in local
    ensures forall p :: p in Incoming(edges, local, k) <==> Linked(edges, local, p, k)
  {
    if edges != [] {
      IncomingIs(edges[1..], local, k);
      assert forall e :: e in edges <==> e == edges[0] || e in edges[1..];
    }
  }

  lemma LinkedIsLocal(edges: seq<Edge>, local: set<string>, a: string, b: string)
    requires Linked(edges, local, a, b)
    ensures a in local && b in local
  {
  }

  // ----- Depths ---------------------------------------------------------------------------------------------

  /** One more than the deepest predecessor, zero without any. */
  function DepthFrom(depths: map<string, nat>, sources: seq<string>): nat
    requires forall p | p in sources :: p in depths
  {
    if sources == [] then 0
    else
      var rest := DepthFrom(depths, sources[1..]);
      if depths[sources[0]] + 1 > rest then depths[sources[0]] + 1 else rest
  }

  lemma {:induction false} DepthFromIsMax(depths: map<string, nat>, sources: seq<string>)
    requires forall p | p in sources :: p in depths
    ensures forall p | p in sources :: depths[p] < DepthFrom(depths, sources)
    ensures sources != [] ==> exists p | p in sources :: DepthFrom(depths, sources) == depths[p] + 1
  {
    if sources != [] {
      DepthFromIsMax(depths, sources[1..]);
      var rest := DepthFrom(depths, sources[1..]);
      forall p | p in sources ensures depths[p] < DepthFrom(depths, sources) {
        assert p == sources[0] || p in sources[1..];
      }
      if depths[sources[0]] + 1 > rest {
        assert sources[0] in sources;
      } else {
        var p :| p in sources[1..] && rest == depths[p] + 1;
        assert p in sources;
      }
    }
  }

  lemma {:induction false} DepthFromSame(depths: map<string, nat>, more: map<string, nat>, sources: seq<string>)
    requires forall p | p in sources :: p in depths && p in more && more[p] == depths[p]
    ensures DepthFrom(depths, sources) == DepthFrom(more, sources)
  {
    if sources != [] {
      DepthFromSame(depths, more, sources[1..]);
    }
  }

  /** Every member known so far has all its predecessors known, and its depth follows from theirs. */
  predicate Layered(edges: seq<Edge>, local: set<string>, depths: map<string, nat>) {
    depths.Keys <= local
    && forall k | k in depths ::
         (forall p | p in Incoming(edges, local, k) :: p in depths)
         && depths[k] == DepthFrom(depths, Incoming(edges, local, k))
  }

  lemma EdgesGoDeeper(edges: seq<Edge>, local: set<string>, depths: map<string, nat>, a: string, b: string)
    requires Layered(edges, local, depths) && b in depths && Linked(edges, local, a, b)
    ensures a in depths && depths[a] < depths[b]
  {
    IncomingIs(edges, local, b);
    DepthFromIsMax(depths, Incoming(edges, local, b));
  }

  lemma DeepHasParent(edges: seq<Edge>, local: set<string>, depths: map<string, nat>, k: string) returns (p: string)
    requires Layered(edges, local, depths) && k in depths && depths[k] > 0
    ensures p in depths && Linked(edges, local, p, k) && depths[p] + 1 == depths[k]
  {
    var sources := Incoming(edges, local, k);
    IncomingIs(edges, local, k);
    DepthFromIsMax(depths, sources);
    p :| p in sources && depths[k] == depths[p] + 1;
  }

  // ----- Paths and cycles -------------------------------------------------------------------------------------

  predicate IsPath(edges: seq<Edge>, local: set<string>, path: seq<string>) {
    path != [] && path[0] in local && forall i | 0 <= i < |path| - 1 :: Linked(edges, local, path[i], path[i + 1])
  }

  predicate IsCycle(edges: seq<Edge>, local: set<string>, path: seq<string>) {
    |path| >= 2 && IsPath(edges, local, path) && path[0] == path[|path| - 1]
  }

  ghost predicate Cyclic(edges: seq<Edge>, local: set<string>) {
    exists path :: IsCycle(edges, local, path)
  }

  lemma IsPathAt(edges: seq<Edge>, local: set<string>, path: seq<string>, i: nat)
    requires IsPath(edges, local, path) && i + 1 < |path|
    ensures Linked(edges, local, path[i], path[i + 1])
  {
  }

  lemma {:induction false} DepthsAlong(edges: seq<Edge>, local: set<string>, depths: map<string, nat>,
                                       path: seq<string>)
    requires Layered(edges, local, depths) && IsPath(edges, local, path) && path[|path| - 1] in depths
    ensures path[0] in depths && depths[path[0]] + |path| - 1 <= depths[path[|path| - 1]]
  {
    if |path| > 1 {
      var rest := path[1..];
      IsPathAt(edges, local, path, 0);
      forall i | 0 <= i < |rest| - 1 ensures Linked(edges, local, rest[i], rest[i + 1]) {
        IsPathAt(edges, local, path, i + 1);
      }
      DepthsAlong(edges, local, depths, rest);
      EdgesGoDeeper(edges, local, depths, path[0], path[1]);
    }
  }

  lemma {:induction false} LongestPath(edges: seq<Edge>, local: set<string>, depths: map<string, nat>, k: string)
    returns (path: seq<string>)
    requires Layered(edges, local, depths) && k in depths
    ensures IsPath(edges, local, path) && path[|path| - 1] == k && |path| == depths[k] + 1
    decreases depths[k]
  {
    if depths[k] == 0 {
      path := [k];
    } else {
      var p := DeepHasParent(edges, local, depths, k);
      var before := LongestPath(edges, local, depths, p);
      path := before + [k];
      forall i | 0 <= i < |path| - 1 ensures Linked(edges, local, path[i], path[i + 1]) {
        if i + 1 < |before| {
          IsPathAt(edges, local, before, i);
        }
      }
    }
  }

  /** The depth of a member is the length of the longest path inside the group that ends in it. */
  lemma DepthIsLongestPath(edges: seq<Edge>, local: set<string>, depths: map<string, nat>, k: string)
    requires Layered(edges, local, depths) && depths.Keys == local && k in local
    ensures exists path :: IsPath(edges, local, path) && path[|path| - 1] == k && |path| - 1 == depths[k]
    ensures forall path | IsPath(edges, local, path) && path[|path| - 1] == k :: |path| - 1 <= depths[k]
  {
    var path := LongestPath(edges, local, depths, k);
    forall path | IsPath(edges, local, path) && path[|path| - 1] == k ensures |path| - 1 <= depths[k] {
      DepthsAlong(edges, local, depths, path);
    }
  }

  lemma LayeredHasNoCycle(edges: seq<Edge>, local: set<string>, depths: map<string, nat>)
    requires Layered(edges, local, depths) && depths.Keys == local
    ensures !Cyclic(edges, local)
  {
    forall path ensures !IsCycle(edges, local, path) {
      if IsCycle(edges, local, path) {
        PathStays(edges, local, path, |path| - 1);
        DepthsAlong(edges, local, depths, path);
      }
    }
  }

  lemma PathStays(edges: seq<Edge>, local: set<string>, path: seq<string>, i: nat)
    requires IsPath(edges, local, path) && i < |path|
    ensures path[i] in local
  {
    if i > 0 {
      IsPathAt(edges, local, path, i - 1);
    }
  }

  // ----- A stuck round has a cycle ------------------------------------------------------------------------------

  predicate HasParent(edges: seq<Edge>, local: set<string>, rest: set<string>, k: string) {
    exists p :: p in rest && Linked(edges, local, p, k)
  }

  predicate Stuck(edges: seq<Edge>, local: set<string>, rest: set<string>) {
    rest <= local && forall k | k in rest :: HasParent(edges, local, rest, k)
  }

  lemma Parent(edges: seq<Edge>, local: set<string>, rest: set<string>, k: string) returns (p: string)
    requires HasParent(edges, local, rest, k)
    ensures p in rest && p in local && Linked(edges, local, p, k)
  {
    p :| p in rest && Linked(edges, local, p, k);
  }

  lemma StuckHasParent(edges: seq<Edge>, local: set<string>, rest: set<string>, k: string)
    requires Stuck(edges, local, rest) && k in rest
    ensures HasParent(edges, local, rest, k)
  {
    hide HasParent;
  }

  lemma PathBefore(edges: seq<Edge>, local: set<string>, p: string, path: seq<string>)
    requires IsPath(edges, local, path) && p in local && Linked(edges, local, p, path[0])
    ensures IsPath(edges, local, [p] + path)
  {
    hide Linked;
    var longer := [p] + path;
    forall i | 0 <= i < |longer| - 1 ensures Linked(edges, local, longer[i], longer[i + 1]) {
      if i > 0 {
        IsPathAt(edges, local, path, i - 1);
      }
    }
  }

  lemma {:induction false} WalkBack(edges: seq<Edge>, local: set<string>, rest: set<string>, k: string, n: nat)
    returns (path: seq<string>)
    requires Stuck(edges, local, rest) && k in rest && n > 0
    ensures IsPath(edges, local, path) && |path| == n && forall i | 0 <= i < n :: path[i] in rest
    decreases n
  {
    if n == 1 {
      path := [k];
    } else {
      hide IsPath, Linked, Stuck, HasParent;
      var after := WalkBack(edges, local, rest, k, n - 1);
      StuckHasParent(edges, local, rest, after[0]);
      var p := Parent(edges, local, rest, after[0]);
      PathBefore(edges, local, p, after);
      path := [p] + after;
    }
  }

  predicate Distinct(members: seq<string>) {
    forall i, j | 0 <= i < j < |members| :: members[i] != members[j]
  }

  lemma {:induction false} DistinctFit(path: seq<string>, s: set<string>)
    requires (forall i | 0 <= i < |path| :: path[i] in s) && Distinct(path)
    ensures |path| <= |s|
  {
    if path != [] {
      var last := path[|path| - 1];
      DistinctFit(path[..|path| - 1], s - {last});
    }
  }

  lemma PathPart(edges: seq<Edge>, local: set<string>, path: seq<string>, i: nat, j: nat)
    requires IsPath(edges, local, path) && i < j < |path| && path[i] == path[j]
    ensures IsCycle(edges, local, path[i..j + 1])
  {
    hide Linked;
    var round := path[i..j + 1];
    forall m | 0 <= m < |round| - 1 ensures Linked(edges, local, round[m], round[m + 1]) {
      IsPathAt(edges, local, path, i + m);
      assert round[m] == path[i + m] && round[m + 1] == path[i + m + 1];
    }
    PathStays(edges, local, path, i);
    assert round[0] == path[i] && round[|round| - 1] == path[j];
  }

  /** Walking backwards longer than there are nodes comes round. */
  lemma StuckHasCycle(edges: seq<Edge>, local: set<string>, rest: set<string>)
    requires Stuck(edges, local, rest) && rest != {}
    ensures Cyclic(edges, local)
  {
    hide IsPath, Linked, Stuck, HasParent, IsCycle;
    var k :| k in rest;
    var path := WalkBack(edges, local, rest, k, |rest| + 1);
    if Distinct(path) {
      DistinctFit(path, rest);
    }
    var i, j :| 0 <= i < j < |path| && path[i] == path[j];
    PathPart(edges, local, path, i, j);
  }

  // ----- The loop -------------------------------------------------------------------------------------------------

  /** The layering loop: fails exactly on a repeated member or a cycle inside the group. */
  method Layers(edges: seq<Edge>, members: seq<string>) returns (ok: bool, depths: map<string, nat>)
    ensures ok <==> Distinct(members) && !Cyclic(edges, Members(members))
    ensures ok ==> Layered(edges, Members(members), depths) && depths.Keys == Members(members)
  {
    hide Layered, Cyclic, Distinct, DepthFrom, Incoming;
    var local := Members(members);
    depths := map[];
    NothingLayered(edges, local);
    while |depths| < |members|
      invariant Layered(edges, local, depths) && depths.Keys <= local
      decreases |local - depths.Keys|
    {
      var ready := Ready(edges, members, local, depths);
      if ready == [] {
        StuckRound(edges, members, local, depths);
        return false, depths;
      }
      ghost var known := depths.Keys;
      assert ready[0] in local - known;
      depths := Assign(edges, local, ready, depths);
      SmallerSet(local - depths.Keys, local - known);
    }
    AllKnown(members, local, depths);
    LayeredHasNoCycle(edges, local, depths);
    ok := true;
  }

  /** One round. */
  method Assign(edges: seq<Edge>, local: set<string>, ready: seq<string>, known: map<string, nat>)
    returns (depths: map<string, nat>)
    requires Layered(edges, local, known) && known.Keys <= local
    requires forall k | k in ready :: k in local && forall p | p in Incoming(edges, local, k) :: p in known
    ensures Layered(edges, local, depths) && known.Keys <= depths.Keys <= local
    ensures forall k | k in ready :: k in depths
  {
    hide Layered, Incoming, DepthFrom;
    depths := known;
    for n := 0 to |ready|
      invariant Layered(edges, local, depths) && known.Keys <= depths.Keys <= local
      invariant forall i | 0 <= i < n :: ready[i] in depths
    {
      var k := ready[n];
      LayeredGrows(edges, local, depths, k);
      depths := depths[k := DepthFrom(depths, Incoming(edges, local, k))];
    }
  }

  /** The members that can get a depth now. */
  method Ready(edges: seq<Edge>, members: seq<string>, local: set<string>, depths: map<string, nat>)
    returns (ready: seq<string>)
    ensures forall k :: k in ready <==>
              k in members && k !in depths && forall p | p in Incoming(edges, local, k) :: p in depths
  {
    ready := [];
    for n := 0 to |members|
      invariant forall k :: k in ready <==>
                  k in members[..n] && k !in depths && forall p | p in Incoming(edges, local, k) :: p in depths
    {
      var k := members[n];
      assert members[..n + 1] == members[..n] + [k];
      if k !in depths && forall p | p in Incoming(edges, local, k) :: p in depths {
        ready := ready + [k];
      }
    }
    assert members[..|members|] == members;
  }

  lemma NothingLayered(edges: seq<Edge>, local: set<string>)
    ensures Layered(edges, local, map[])
  {
  }

  lemma LayeredGrows(edges: seq<Edge>, local: set<string>, depths: map<string, nat>, k: string)
    requires Layered(edges, local, depths) && k in local && (forall p | p in Incoming(edges, local, k) :: p in depths)
    ensures Layered(edges, local, depths[k := DepthFrom(depths, Incoming(edges, local, k))])
    ensures k in depths ==> depths[k := DepthFrom(depths, Incoming(edges, local, k))] == depths
  {
    var more := depths[k := DepthFrom(depths, Incoming(edges, local, k))];
    forall m | m in more
      ensures (forall p | p in Incoming(edges, local, m) :: p in more)
              && more[m] == DepthFrom(more, Incoming(edges, local, m))
    {
      DepthFromSame(depths, more, Incoming(edges, local, m));
    }
  }

  lemma SmallerSet(a: set<string>, b: set<string>)
    requires a < b
    ensures |a| < |b|
  {
    var x :| x in b && x !in a;
    DistinctSubset(a, b - {x});
  }

  lemma {:induction false} DistinctSubset(a: set<string>, b: set<string>)
    requires a <= b
    ensures |a| <= |b|
  {
    if a != {} {
      var x :| x in a;
      DistinctSubset(a - {x}, b - {x});
    }
  }

  /** A round without progress: everything is known already, so a member repeats, or the rest is stuck. */
  lemma StuckRound(edges: seq<Edge>, members: seq<string>, local: set<string>, depths: map<string, nat>)
    requires local == Members(members) && Layered(edges, local, depths) && |depths| < |members|
    requires forall k | k in members && k !in depths :: exists p :: p in Incoming(edges, local, k) && p !in depths
    ensures !Distinct(members) || Cyclic(edges, local)
  {
    var rest := local - depths.Keys;
    if rest == {} {
      forall k | k in local ensures k in depths.Keys {
        assert k !in rest;
      }
      if Distinct(members) {
        DistinctFit(members, depths.Keys);
      }
    } else {
      hide Linked, IsCycle, Layered;
      forall k | k in rest ensures HasParent(edges, local, rest, k) {
        IncomingIs(edges, local, k);
        var p :| p in Incoming(edges, local, k) && p !in depths;
        LinkedIsLocal(edges, local, p, k);
        assert p in rest;
      }
      StuckHasCycle(edges, local, rest);
    }
  }

  lemma AllKnown(members: seq<string>, local: set<string>, depths: map<string, nat>)
    requires local == Members(members) && depths.Keys <= local && |members| <= |depths|
    ensures depths.Keys == local && Distinct(members)
  {
    MembersCount(members);
    DistinctSubset(depths.Keys, local);
    if depths.Keys < local {
      SmallerSet(depths.Keys, local);
    }
  }

  lemma {:induction false} MembersCount(members: seq<string>)
    ensures |Members(members)| <= |members|
    ensures |Members(members)| == |members| ==> Distinct(members)
  {
    if members != [] {
      var n := |members| - 1;
      MembersCount(members[..n]);
      assert members == members[..n] + [members[n]];
      assert Members(members) == Members(members[..n]) + {members[n]};
    }
  }
}
