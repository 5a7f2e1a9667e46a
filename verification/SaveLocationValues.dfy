/**
 What a migrated template holds, told name by name: where every old value goes, which parameters stay, exactly when a
 node or a template can be migrated, and that every failure is true.
 */
module SaveLocationValues {
  import opened Common
  import opened SaveLocationMigration

  /** The names a Save node's one location may go by, the first that is there counting. */
  function SplitNames(kind: string): seq<string> {
    ["save_location", "object_key", "output_dir", "output_object_key"]
    + if kind == "core.output.json-save-local" then ["local_path"] else []
  }

  /** The same for the other nodes. */
  function OtherNames(kind: string): seq<string> {
    ["output_dir", "output_object_key"]
    + (if kind == "core.output.csv-append-local" || kind == "core.output.json-save-local" then ["local_path"]
       else if kind == "core.io.batch-files-relocate" then ["target_directory"] else [])
  }

  predicate IsSave(kind: string) {
    || kind == "core.io.image-save" || kind == "core.io.video-save"
    || kind == "core.output.json-save-local" || kind == "core.output.text-save-local"
  }

  /** The first of these names that is there has this value. */
  predicate FirstThere(params: Parameters, names: seq<string>, v: Json) {
    exists i | 0 <= i < |names| ::
      names[i] in params && params[names[i]] == v && forall j | 0 <= j < i :: names[j] !in params
  }

  /** None of these names is there. */
  predicate NoneThere(params: Parameters, names: seq<string>) {
    forall i | 0 <= i < |names| :: names[i] !in params
  }

  /** All values under these names print alike. */
  predicate Agreeing(env: Env, params: Parameters, names: seq<string>) {
    forall i, j | 0 <= i < |names| && 0 <= j < |names| && names[i] in params && names[j] in params ::
      env.repr(params[names[i]]) == env.repr(params[names[j]])
  }

  /** A location that can be split into these two stamped parts. */
  predicate Splits(env: Env, v: Json, directory: string, name: string) {
    v.Text? && env.strip(v.text) != ""
    && var (d, n) := env.parts(env.strip(v.text));
       d != "" && d != "." && n != "" && directory == env.stamp(d) && name == env.stamp(n)
  }

  /** Absent, null, or already this text. */
  predicate Free(params: Parameters, name: string, text: string) {
    name in params ==> params[name] == Null || params[name] == Text(text)
  }

  // ----- A Save node ------------------------------------------------------------------------------------------------

  /** What becomes of a Save node's parameters. */
  predicate SplitTo(env: Env, params: Parameters, kind: string, after: Parameters, v: Json, directory: string,
                    name: string)
  {
    var names := SplitNames(kind);
    && FirstThere(params, names, v) && Agreeing(env, params, names) && Splits(env, v, directory, name)
    && Free(params, "save_directory", directory) && Free(params, "file_name", name)
    && Holds(after, "save_directory", Text(directory)) && Holds(after, "file_name", Text(name))
    && NoneThere(after, names)
    && ("overwrite" in params ==> Holds(after, "overwrite", params["overwrite"]))
    && ("overwrite" !in params && kind != "core.output.text-save-local" ==> Holds(after, "overwrite", TRUE))
    && ("overwrite" !in params && kind == "core.output.text-save-local" ==> "overwrite" !in after)
    && Untouched(params, after, names + ["save_directory", "file_name", "overwrite"])
  }

  predicate Holds(params: Parameters, name: string, v: Json) {
    name in params && params[name] == v
  }

  /** Every parameter under another name is as it was. */
  predicate Untouched(before: Parameters, after: Parameters, names: seq<string>) {
    && (forall k | k in before && k !in names :: k in after && after[k] == before[k])
    && (forall k | k in after && k !in names :: k in before)
  }

  lemma {:induction false} ValuesAre(params: Parameters, names: seq<string>)
    ensures var vs := Values(params, names);
            && (vs == [] <==> NoneThere(params, names))
            && (forall v | v in vs :: exists i | 0 <= i < |names| :: names[i] in params && params[names[i]] == v)
            && (forall i | 0 <= i < |names| && names[i] in params :: params[names[i]] in vs)
            && (vs != [] ==> FirstThere(params, names, vs[0]))
  {
    if names != [] {
      var rest := names[1..];
      ValuesAre(params, rest);
      assert names == [names[0]] + rest;
      var vs := Values(params, names);
      if names[0] in params {
        assert vs[0] == params[names[0]];
      } else if vs != [] {
        var i :| 0 <= i < |rest| && rest[i] in params && params[rest[i]] == vs[0]
                 && forall j | 0 <= j < i :: rest[j] !in params;
        assert names[i + 1] == rest[i];
        assert forall j | 0 < j < i + 1 :: names[j] == rest[j - 1];
      }
    }
  }

  lemma OneReprIs(env: Env, params: Parameters, names: seq<string>)
    ensures OneRepr(env, Values(params, names)) <==> Agreeing(env, params, names)
  {
    var vs := Values(params, names);
    ValuesAre(params, names);
    if OneRepr(env, vs) {
      forall i, j | 0 <= i < |names| && 0 <= j < |names| && names[i] in params && names[j] in params
        ensures env.repr(params[names[i]]) == env.repr(params[names[j]])
      {
        AllPrintAlike(env, vs, params[names[i]], params[names[j]]);
      }
    }
    if Agreeing(env, params, names) {
      forall a, b | 0 <= a < b < |vs| ensures env.repr(vs[a]) == env.repr(vs[b]) {
        assert vs[a] in vs && vs[b] in vs;
        var i :| 0 <= i < |names| && names[i] in params && params[names[i]] == vs[a];
        var j :| 0 <= j < |names| && names[j] in params && params[names[j]] == vs[b];
      }
    }
  }

  lemma AllPrintAlike(env: Env, vs: seq<Json>, v: Json, w: Json)
    requires OneRepr(env, vs) && v in vs && w in vs
    ensures env.repr(v) == env.repr(w)
  {
    var a :| 0 <= a < |vs| && vs[a] == v;
    var b :| 0 <= b < |vs| && vs[b] == w;
    if a < b {
      assert env.repr(vs[a]) == env.repr(vs[b]);
    } else if b < a {
      assert env.repr(vs[b]) == env.repr(vs[a]);
    }
  }

  lemma FirstIsOne(params: Parameters, names: seq<string>, v: Json, w: Json)
    requires FirstThere(params, names, v) && FirstThere(params, names, w)
    ensures v == w && !NoneThere(params, names)
  {
  }

  lemma NamesAre(kind: string)
    ensures SplitOldNames(kind) == SplitNames(kind)
                                   + if kind == "core.output.csv-append-local" then ["local_path"]
                                     else if kind == "core.io.batch-files-relocate" then ["target_directory"]
                                     else []
    ensures OldNames(kind) == OtherNames(kind)
    ensures kind in SPLIT_KINDS <==> IsSave(kind)
    ensures IsSave(kind) ==> SplitOldNames(kind) == SplitNames(kind)
  {
  }

  lemma DroppedIs(params: Parameters, names: seq<string>)
    ensures NoneThere(Drop(params, names), names)
    ensures forall k :: k in Drop(params, names) <==> k in params && k !in names
    ensures forall k | k in Drop(params, names) :: Drop(params, names)[k] == params[k]
  {
  }

  /** What a Save node becomes, and when and why it cannot be migrated. `v` is its one old location, `directory` and
      `name` its stamped parts. */
  lemma SplitIs(env: Env, params: Parameters, kind: string) returns (v: Json, directory: string, name: string)
    requires IsSave(kind)
    ensures var r := Split(env, params, kind); var names := SplitNames(kind);
            if NoneThere(params, names) then
              r == if "save_directory" in params <==> "file_name" in params then Ok(Step(false, params))
                   else Err(Incomplete)
            else
              && FirstThere(params, names, v)
              && (r.Ok? ==> r.value.changed && SplitTo(env, params, kind, r.value.params, v, directory, name))
              && (r == Err(Conflict) <==> !Agreeing(env, params, names))
              && (r == Err(EmptyLocation) <==> Agreeing(env, params, names) && !(v.Text? && env.strip(v.text) != ""))
              && (r == Err(NotDirectoryAndName) <==>
                    Agreeing(env, params, names) && v.Text? && env.strip(v.text) != ""
                    && !Splits(env, v, directory, name))
              && (r == Err(ConflictWithNew) <==>
                    Agreeing(env, params, names) && Splits(env, v, directory, name)
                    && !(Free(params, "save_directory", directory) && Free(params, "file_name", name)))
              && (r.Ok? || r.error in {Conflict, EmptyLocation, NotDirectoryAndName, ConflictWithNew})
  {
    hide Values, OneRepr, SplitOldNames, SPLIT_KINDS, OldNames, Agreeing, FirstThere, SplitNames;
    var names := SplitNames(kind);
    NamesAre(kind);
    ValuesAre(params, names);
    OneReprIs(env, params, names);
    v, directory, name := Null, "", "";
    var values := Values(params, names);
    if values != [] {
      v := values[0];
      var location := SplitLocation(env, v);
      if location.Ok? {
        directory, name := env.stamp(location.value.0), env.stamp(location.value.1);
        if Split(env, params, kind).Ok? {
          NewNamesApart(kind);
          NamedIs(params, kind, directory, name);
          DroppedIs(Named(params, kind, directory, name), names);
          SplitToIs(env, params, kind, v, directory, name);
        }
      }
    }
  }

  lemma NewNamesApart(kind: string)
    ensures forall k | k in SplitNames(kind) :: k != "save_directory" && k != "file_name" && k != "overwrite"
  {
  }

  lemma NamedIs(params: Parameters, kind: string, directory: string, name: string)
    ensures var after := Named(params, kind, directory, name);
            && Holds(after, "save_directory", Text(directory)) && Holds(after, "file_name", Text(name))
            && ("overwrite" in params ==> Holds(after, "overwrite", params["overwrite"]))
            && ("overwrite" !in params && kind != "core.output.text-save-local" ==> Holds(after, "overwrite", TRUE))
            && ("overwrite" !in params && kind == "core.output.text-save-local" ==> "overwrite" !in after)
            && Untouched(params, after, ["save_directory", "file_name", "overwrite"])
  {
  }

  lemma SplitToIs(env: Env, params: Parameters, kind: string, v: Json, directory: string, name: string)
    requires var names := SplitNames(kind);
             && FirstThere(params, names, v) && Agreeing(env, params, names) && Splits(env, v, directory, name)
             && Free(params, "save_directory", directory) && Free(params, "file_name", name)
    ensures SplitTo(env, params, kind, Drop(Named(params, kind, directory, name), SplitNames(kind)), v, directory, name)
  {
    hide FirstThere, Agreeing, Splits, Free, Named, SplitNames;
    NewNamesApart(kind);
    NamedIs(params, kind, directory, name);
    var full := Named(params, kind, directory, name);
    var names := SplitNames(kind);
    DroppedIs(full, names);
    var after := Drop(full, names);
    var apart := names + ["save_directory", "file_name", "overwrite"];
    assert forall k :: k in apart <==> k in names || k in ["save_directory", "file_name", "overwrite"];
  }

  // ----- A video node --------------------------------------------------------------------------------------------

  const VIDEO_NAMES: seq<string> := ["output_transport_kind", "object_key", "local_path"]

  /** The value of the transport in use: the local path for the local transport, else the object key. */
  predicate InUse(params: Parameters, v: Json) {
    var name := if "output_transport_kind" in params && params["output_transport_kind"] == Text("local-path")
                then "local_path" else "object_key";
    v == if name in params && params[name] != Null then params[name] else Text("")
  }

  /** The three video parameters become one location. */
  predicate VideoTo(params: Parameters, after: Parameters, v: Json) {
    && InUse(params, v) && Holds(after, "save_location", v) && NoneThere(after, VIDEO_NAMES)
    && Untouched(params, after, VIDEO_NAMES + ["save_location"])
  }

  lemma VideoIs(env: Env, params: Parameters) returns (v: Json)
    ensures var r := Video(env, params);
            && InUse(params, v)
            && (NoneThere(params, VIDEO_NAMES) ==> r == Ok(Step(false, params)))
            && (!NoneThere(params, VIDEO_NAMES) ==>
                  && (r.Ok? ==> r.value.changed && VideoTo(params, r.value.params, v))
                  && (r.Ok? <==> ("save_location" in params ==> env.same(params["save_location"], v)))
                  && (r.Err? ==> r.error == Conflict))
  {
    v := VideoLocation(params);
    DroppedIs(params["save_location" := v], VIDEO_OLD_NAMES);
    assert VIDEO_OLD_NAMES == VIDEO_NAMES;
  }

  // ----- Any other node ------------------------------------------------------------------------------------------

  /** The old names become one location. */
  predicate CollapseTo(env: Env, params: Parameters, kind: string, after: Parameters, v: Json) {
    var names := OtherNames(kind);
    && FirstThere(params, names, v) && Agreeing(env, params, names + ["save_location"])
    && Holds(after, "save_location", v) && NoneThere(after, names)
    && Untouched(params, after, names + ["save_location"])
  }

  lemma {:induction false} ValuesAppend(params: Parameters, a: seq<string>, b: seq<string>)
    ensures Values(params, a + b) == Values(params, a) + Values(params, b)
  {
    if a == [] {
      assert a + b == b;
    } else {
      assert (a + b)[1..] == a[1..] + b;
      ValuesAppend(params, a[1..], b);
    }
  }

  lemma CollapseIs(env: Env, params: Parameters, kind: string) returns (v: Json)
    ensures var r := Collapse(env, params, kind); var names := OtherNames(kind);
            && (NoneThere(params, names) ==> r == Ok(Step(false, params)))
            && (!NoneThere(params, names) ==>
                  && (r.Ok? ==> r.value.changed && CollapseTo(env, params, kind, r.value.params, v))
                  && (r.Ok? <==> Agreeing(env, params, names + ["save_location"]))
                  && (r.Err? ==> r.error == Conflict))
  {
    hide Values, OneRepr, Agreeing, FirstThere, OldNames, OtherNames;
    var names := OtherNames(kind);
    NamesAre(kind);
    ValuesAre(params, names);
    ValuesAppend(params, names, ["save_location"]);
    OneReprIs(env, params, names + ["save_location"]);
    v := Null;
    if Values(params, names) != [] {
      v := Values(params, names)[0];
      LocationApart(kind);
      DroppedIs(params["save_location" := v], names);
      var all := names + ["save_location"];
      assert forall k :: k in all <==> k in names || k == "save_location";
    }
  }

  lemma LocationApart(kind: string)
    ensures "save_location" !in OtherNames(kind)
  {
  }

  // ----- Any node ------------------------------------------------------------------------------------------------

  /** What a migrated node holds: for a Save node the stamped directory and name of its one old location, which for a
      video is the value of the transport in use; for any other node its one old location. `mid` is what the first
      step of a video leaves. */
  lemma ParametersAre(env: Env, params: Parameters, kind: string)
    returns (mid: Parameters, u: Json, v: Json, directory: string, name: string)
    requires MigrateParameters(env, params, kind).Ok?
    ensures var after := MigrateParameters(env, params, kind).value.params;
            if IsSave(kind) then
              && (if kind == "core.io.video-save" && !NoneThere(params, VIDEO_NAMES) then VideoTo(params, mid, u)
                  else mid == params)
              && (if NoneThere(mid, SplitNames(kind)) then after == mid
                  else SplitTo(env, mid, kind, after, v, directory, name))
            else if NoneThere(params, OtherNames(kind)) then after == params
            else CollapseTo(env, params, kind, after, v)
  {
    hide Split, Video, Collapse, SplitTo, VideoTo, CollapseTo, NoneThere, SplitNames, OtherNames, Agreeing, FirstThere,
         Splits, Free, InUse;
    NamesAre(kind);
    mid, u, v, directory, name := params, Null, Null, "", "";
    if IsSave(kind) {
      if kind == "core.io.video-save" {
        u := VideoIs(env, params);
        mid := Video(env, params).value.params;
      }
      v, directory, name := SplitIs(env, mid, kind);
    } else {
      v := CollapseIs(env, params, kind);
    }
  }

  /** A node can be migrated exactly when each of its steps can. */
  lemma ParametersSucceed(env: Env, params: Parameters, kind: string)
    ensures MigrateParameters(env, params, kind).Ok? <==>
              if !IsSave(kind) then Collapse(env, params, kind).Ok?
              else if kind != "core.io.video-save" then Split(env, params, kind).Ok?
              else Video(env, params).Ok? && Split(env, Video(env, params).value.params, kind).Ok?
  {
    hide Split, Video, Collapse;
    NamesAre(kind);
  }

  // ----- A template ----------------------------------------------------------------------------------------------

  /** A node of one of these kinds goes by this id. */
  predicate IdOf(nodes: seq<Node>, id: string, i: nat) {
    i < |nodes| && nodes[i].Node? && nodes[i].id == id && id != ""
  }

  predicate TakesLocation(kind: string) {
    kind == "core.output.csv-append-local" || kind == "core.io.batch-files-relocate"
  }

  predicate SaveId(nodes: seq<Node>, id: string) {
    exists i | 0 <= i < |nodes| :: IdOf(nodes, id, i) && IsSave(nodes[i].kind)
  }

  predicate InputId(nodes: seq<Node>, id: string) {
    exists i | 0 <= i < |nodes| :: IdOf(nodes, id, i) && TakesLocation(nodes[i].kind)
  }

  /** An edge that feeds a Save node's location, which cannot be split. */
  predicate Dynamic(nodes: seq<Node>, e: Edge) {
    e.Edge? && SaveId(nodes, e.target) && (e.port == "path" || e.port == "save_location")
  }

  predicate Renamed(nodes: seq<Node>, e: Edge) {
    e.Edge? && InputId(nodes, e.target) && e.port == "path"
  }

  lemma IdsAre(nodes: seq<Node>, id: string)
    ensures id in IdsOf(nodes, SPLIT_KINDS) <==> SaveId(nodes, id)
    ensures id in IdsOf(nodes, INPUT_KINDS) <==> InputId(nodes, id)
  {
    forall i | 0 <= i < |nodes| && nodes[i].Node?
      ensures nodes[i].kind in SPLIT_KINDS <==> IsSave(nodes[i].kind)
      ensures nodes[i].kind in INPUT_KINDS <==> TakesLocation(nodes[i].kind)
    {
      NamesAre(nodes[i].kind);
    }
    hide SPLIT_KINDS, INPUT_KINDS, IsSave, TakesLocation;
  }

  /** What can be wrong with one node. */
  predicate NodeFails(env: Env, n: Node, why: Invalid) {
    match n
    case BadNode => why == NodeNotObject
    case Node(_, _, NoParameters) => false
    case Node(_, _, BadParameters) => why == ParametersNotObject
    case Node(_, kind, Dict(params)) => MigrateParameters(env, params, kind) == Err(why)
  }

  /** A node keeps its id and its kind, and its parameters, if it has any, become the migrated ones. */
  predicate NodeTo(env: Env, n: Node, m: Node) {
    && n.Node? && m.Node? && m.id == n.id && m.kind == n.kind
    && match n.parameters
       case NoParameters => m.parameters == NoParameters
       case BadParameters => false
       case Dict(params) => MigrateParameters(env, params, n.kind).Ok?
                            && m.parameters == Dict(MigrateParameters(env, params, n.kind).value.params)
  }

  /** Whether one edge of a template is fine, else what is wrong with it. */
  predicate EdgeFails(nodes: seq<Node>, e: Edge, why: Invalid) {
    (e.BadEdge? && why == EdgeNotObject) || (Dynamic(nodes, e) && why == DynamicTarget)
  }

  lemma {:induction false} FaultIs(items: seq<Edge>, splits: set<string>)
    ensures match FirstEdgeFault(items, splits)
            case None => true
            case Some(why) => exists i | 0 <= i < |items| ::
              EdgeFault(items[i], splits) == Some(why) && forall j | 0 <= j < i :: EdgeFault(items[j], splits).None?
  {
    hide EdgeFault;
    if items != [] && EdgeFault(items[0], splits).None? {
      FaultIs(items[1..], splits);
      if FirstEdgeFault(items, splits).Some? {
        var i :| 0 <= i < |items[1..]| && EdgeFault(items[1..][i], splits) == FirstEdgeFault(items[1..], splits)
                 && forall j | 0 <= j < i :: EdgeFault(items[1..][j], splits).None?;
        assert items[i + 1] == items[1..][i];
        assert forall j | 0 < j < i + 1 :: items[j] == items[1..][j - 1];
      }
    }
  }

  lemma {:induction false} NodesFail(env: Env, nodes: seq<Node>, n: nat)
    requires n <= |nodes|
    ensures match NodesUpTo(env, nodes, n)
            case Ok(_) => true
            case Err(why) => exists i | 0 <= i < n ::
              MigrateNode(env, nodes[i]) == Err(why) && forall j | 0 <= j < i :: MigrateNode(env, nodes[j]).Ok?
  {
    hide MigrateNode;
    if n > 0 {
      NodesFail(env, nodes, n - 1);
      NodesAre(env, nodes, n - 1);
    }
  }

  lemma NodeIs(env: Env, n: Node)
    ensures var r := MigrateNode(env, n);
            && (r.Ok? ==> NodeTo(env, n, r.value.node) && (r.value.changed <==> r.value.node != n))
            && (r.Err? ==> NodeFails(env, n, r.error))
            && (r.Ok? <==> forall why :: !NodeFails(env, n, why))
  {
    hide MigrateParameters;
    if MigrateNode(env, n).Ok? {
      NodeSettles(env, n);
    } else {
      assert NodeFails(env, n, MigrateNode(env, n).error);
    }
  }

  /** A migrated template: every node by itself, and exactly the connections into the old port of a node that takes a
      location under their new port. */
  lemma TemplateIs(env: Env, t: Template)
    requires Migrate(env, t).Ok?
    ensures t.nodes.Some? && !t.edges.BadEdges?
    ensures var nodes, m := t.nodes.value, Migrate(env, t).value;
            && m.template.nodes.Some? && |m.template.nodes.value| == |nodes|
            && (forall i | 0 <= i < |nodes| :: NodeTo(env, nodes[i], m.template.nodes.value[i]))
            && (t.edges.EdgeList? <==> m.template.edges.EdgeList?)
            && (t.edges.NoEdges? ==> m.template.edges.NoEdges?)
            && |EdgeItems(m.template.edges)| == |EdgeItems(t.edges)|
            && (forall i | 0 <= i < |EdgeItems(t.edges)| ::
                  var e := EdgeItems(t.edges)[i];
                  && e.Edge? && !Dynamic(nodes, e)
                  && EdgeItems(m.template.edges)[i] == if Renamed(nodes, e) then e.(port := "save_location") else e)
  {
    hide MigrateNode, NodesUpTo, IdsOf, SaveId, InputId, FirstEdgeFault, RedirectedNodes, NodeTo;
    var nodes := t.nodes.value;
    var items := EdgeItems(t.edges);
    NodesAre(env, nodes, |nodes|);
    forall i | 0 <= i < |nodes| ensures NodeTo(env, nodes[i], MigrateNode(env, nodes[i]).value.node) {
      NodeIs(env, nodes[i]);
    }
    forall id
      ensures id in IdsOf(nodes, SPLIT_KINDS) <==> SaveId(nodes, id)
      ensures id in IdsOf(nodes, INPUT_KINDS) <==> InputId(nodes, id)
    {
      IdsAre(nodes, id);
    }
    forall i | 0 <= i < |items| ensures EdgeFault(items[i], IdsOf(nodes, SPLIT_KINDS)).None? {
    }
  }

  /** The first thing wrong with a template is what is reported: its lists, then its edges in order, then its nodes. */
  predicate Wrong(env: Env, t: Template, why: Invalid) {
    if t.nodes.None? then why == NodesMissing
    else if t.edges.BadEdges? then why == EdgesNotList
    else if exists i | 0 <= i < |EdgeItems(t.edges)| :: EdgeWrong(t.nodes.value, EdgeItems(t.edges)[i]) then
      exists i | 0 <= i < |EdgeItems(t.edges)| ::
        EdgeFails(t.nodes.value, EdgeItems(t.edges)[i], why)
        && forall j | 0 <= j < i :: !EdgeWrong(t.nodes.value, EdgeItems(t.edges)[j])
    else
      exists i | 0 <= i < |t.nodes.value| ::
        NodeFails(env, t.nodes.value[i], why)
        && forall j | 0 <= j < i :: MigrateNode(env, t.nodes.value[j]).Ok?
  }

  predicate EdgeWrong(nodes: seq<Node>, e: Edge) {
    e.BadEdge? || Dynamic(nodes, e)
  }

  lemma EdgeFaultIs(nodes: seq<Node>, e: Edge)
    ensures var fault := EdgeFault(e, IdsOf(nodes, SPLIT_KINDS));
            && (fault.Some? <==> EdgeWrong(nodes, e))
            && (fault.Some? ==> EdgeFails(nodes, e, fault.value))
  {
    hide IdsOf, SaveId;
    if e.Edge? {
      IdsAre(nodes, e.target);
    }
  }

  lemma FailureIs(env: Env, t: Template)
    ensures var r := Migrate(env, t);
            r.Err? ==> Wrong(env, t, r.error)
  {
    hide MigrateNode, NodesUpTo, IdsOf, FirstEdgeFault, RedirectedNodes, RedirectAll, NodeFails, EdgeFails, EdgeWrong,
         EdgeFault;
    if t.nodes.Some? && !t.edges.BadEdges? {
      var nodes, items := t.nodes.value, EdgeItems(t.edges);
      var splits := IdsOf(nodes, SPLIT_KINDS);
      forall i | 0 <= i < |items|
        ensures EdgeFault(items[i], splits).Some? <==> EdgeWrong(nodes, items[i])
        ensures EdgeFault(items[i], splits).Some? ==> EdgeFails(nodes, items[i], EdgeFault(items[i], splits).value)
      {
        EdgeFaultIs(nodes, items[i]);
      }
      FaultIs(items, splits);
      NodesFail(env, nodes, |nodes|);
      forall i | 0 <= i < |nodes| && MigrateNode(env, nodes[i]).Err?
        ensures NodeFails(env, nodes[i], MigrateNode(env, nodes[i]).error)
      {
        NodeIs(env, nodes[i]);
      }
      var fault := FirstEdgeFault(items, splits);
      assert fault.Some? <==> exists i | 0 <= i < |items| :: EdgeWrong(nodes, items[i]);
    }
  }

  /** Which nodes are counted: those whose parameters change,
      and the last node of an id a renamed connection goes to. */
  lemma {:induction false} LastIs(nodes: seq<Node>, id: string)
    ensures var k := LastIndex(nodes, id);
            (exists i | 0 <= i < |nodes| :: nodes[i].Node? && nodes[i].id == id) ==>
              && k < |nodes| && nodes[k].Node? && nodes[k].id == id
              && forall j | k < j < |nodes| :: !(nodes[j].Node? && nodes[j].id == id)
    decreases |nodes|
  {
    if nodes != [] {
      var n := |nodes| - 1;
      LastIs(nodes[..n], id);
      assert forall i | 0 <= i < n :: nodes[..n][i] == nodes[i];
    }
  }

  lemma CountedAre(env: Env, t: Template, i: nat)
    requires Migrate(env, t).Ok? && i < |t.nodes.value|
    ensures var nodes, m := t.nodes.value, Migrate(env, t).value;
            i in m.changed <==>
              || m.template.nodes.value[i] != nodes[i]
              || exists k | 0 <= k < |EdgeItems(t.edges)| ::
                   Renamed(nodes, EdgeItems(t.edges)[k]) && IsLast(nodes, EdgeItems(t.edges)[k].target, i)
  {
    hide MigrateNode, NodesUpTo, IdsOf, InputId, FirstEdgeFault, RedirectAll, LastIndex, IsLast;
    var nodes, items := t.nodes.value, EdgeItems(t.edges);
    var inputs := IdsOf(nodes, INPUT_KINDS);
    NodesAre(env, nodes, |nodes|);
    NodeIs(env, nodes[i]);
    forall k | 0 <= k < |items|
      ensures Redirected(items[k], inputs) <==> Renamed(nodes, items[k])
      ensures Renamed(nodes, items[k]) ==>
              (LastIndex(nodes, items[k].target) == i <==> IsLast(nodes, items[k].target, i))
    {
      if items[k].Edge? {
        IdsAre(nodes, items[k].target);
        if Renamed(nodes, items[k]) {
          LastIsOne(nodes, items[k].target, i);
        }
      }
    }
  }

  predicate IsLast(nodes: seq<Node>, id: string, i: nat) {
    IdOf(nodes, id, i) && forall j | i < j < |nodes| :: !IdOf(nodes, id, j)
  }

  lemma LastIsOne(nodes: seq<Node>, id: string, i: nat)
    requires InputId(nodes, id)
    ensures LastIndex(nodes, id) == i <==> IsLast(nodes, id, i)
  {
    var a :| 0 <= a < |nodes| && IdOf(nodes, id, a) && TakesLocation(nodes[a].kind);
    hide TakesLocation, LastIndex;
    LastIs(nodes, id);
    var k := LastIndex(nodes, id);
    assert IdOf(nodes, id, k);
    if IsLast(nodes, id, i) {
      assert !(k > i) && !(i > k);
    }
  }

  // ----- The scan ---------------------------------------------------------------------------------------------------

  /** The candidates whose migration changes a node, in order, each with its migrated template. */
  function ChangesOf(env: Env, store: Store, keys: seq<string>): seq<Change>
    requires (forall k | k in keys :: k in store) && AllValid(env, store, keys)
  {
    if keys == [] then []
    else
      ValidRest(env, store, keys);
      var m := MigrateDocument(env, store[keys[0]]).value;
      (if m.changed == {} then [] else [Change(keys[0], m.template)]) + ChangesOf(env, store, keys[1..])
  }

  /** How many nodes they change. */
  function ChangedNodes(env: Env, store: Store, keys: seq<string>): nat
    requires (forall k | k in keys :: k in store) && AllValid(env, store, keys)
  {
    if keys == [] then 0
    else
      ValidRest(env, store, keys);
      |MigrateDocument(env, store[keys[0]]).value.changed| + ChangedNodes(env, store, keys[1..])
  }

  lemma ValidRest(env: Env, store: Store, keys: seq<string>)
    requires keys != [] && (forall k | k in keys :: k in store) && AllValid(env, store, keys)
    ensures MigrateDocument(env, store[keys[0]]).Ok? && AllValid(env, store, keys[1..])
  {
    hide MigrateDocument;
    forall i | 0 <= i < |keys[1..]| ensures MigrateDocument(env, store[keys[1..][i]]).Ok? {
      assert keys[1..][i] == keys[i + 1];
    }
  }

  lemma ValidAppend(env: Env, store: Store, keys: seq<string>, key: string)
    requires (forall k | k in keys + [key] :: k in store) && AllValid(env, store, keys + [key])
    ensures (forall k | k in keys :: k in store) && key in store && AllValid(env, store, keys)
    ensures MigrateDocument(env, store[key]).Ok?
  {
    hide MigrateDocument;
    var all := keys + [key];
    assert forall i | 0 <= i < |keys| :: all[i] == keys[i];
    assert all[|keys|] == key && key in all;
    forall k | k in keys ensures k in store {
      assert k in all;
    }
  }

  lemma {:induction false} ChangesAppend(env: Env, store: Store, keys: seq<string>, key: string)
    requires (forall k | k in keys + [key] :: k in store) && AllValid(env, store, keys + [key])
    requires (forall k | k in keys :: k in store) && key in store && AllValid(env, store, keys)
    requires MigrateDocument(env, store[key]).Ok?
    ensures var m := MigrateDocument(env, store[key]).value;
            && ChangesOf(env, store, keys + [key])
               == ChangesOf(env, store, keys) + (if m.changed == {} then [] else [Change(key, m.template)])
            && ChangedNodes(env, store, keys + [key]) == ChangedNodes(env, store, keys) + |m.changed|
  {
    hide MigrateDocument;
    var all := keys + [key];
    ValidRest(env, store, all);
    if keys == [] {
      assert all[1..] == [];
    } else {
      ValidRest(env, store, keys);
      assert all[1..] == keys[1..] + [key];
      ChangesAppend(env, store, keys[1..], key);
    }
  }

  /** What a scan of valid candidates notes, and how many nodes it counts. */
  lemma {:induction false} ScanNotes(env: Env, store: Store, keys: seq<string>)
    requires (forall k | k in keys :: k in store) && AllValid(env, store, keys)
    ensures ScanUpTo(env, store, keys, |keys|)
         == Ok(Scan(ChangesOf(env, store, keys), ChangedNodes(env, store, keys)))
    decreases |keys|
  {
    hide MigrateDocument, AllValid;
    if keys != [] {
      var n := |keys| - 1;
      assert keys == keys[..n] + [keys[n]];
      ValidAppend(env, store, keys[..n], keys[n]);
      ScanNotes(env, store, keys[..n]);
      ScanPart(env, store, keys, n);
      ChangesAppend(env, store, keys[..n], keys[n]);
      var before := Scan(ChangesOf(env, store, keys[..n]), ChangedNodes(env, store, keys[..n]));
      assert ScanUpTo(env, store, keys, n) == Ok(before);
      NextNotes(env, keys[n], store[keys[n]], before);
      assert ScanUpTo(env, store, keys, n + 1) == ScanNext(env, keys[n], store[keys[n]], before);
    }
  }

  lemma NextNotes(env: Env, key: string, d: Document, before: Scan)
    requires MigrateDocument(env, d).Ok?
    ensures var m := MigrateDocument(env, d).value;
            ScanNext(env, key, d, before)
            == Ok(Scan(before.changes + (if m.changed == {} then [] else [Change(key, m.template)]),
                       before.nodes + |m.changed|))
  {
    hide MigrateDocument;
    if MigrateDocument(env, d).value.changed == {} {
      assert before.changes + [] == before.changes;
    } else {
      assert |MigrateDocument(env, d).value.changed| > 0;
    }
  }

  lemma {:induction false} ScanPart(env: Env, store: Store, keys: seq<string>, n: nat)
    requires n <= |keys| && forall k | k in keys :: k in store
    ensures forall k | k in keys[..n] :: k in store
    ensures ScanUpTo(env, store, keys, n) == ScanUpTo(env, store, keys[..n], n)
  {
    hide MigrateDocument;
    ScanPrefix(env, store, keys, n, n);
  }

  lemma {:induction false} ScanPrefix(env: Env, store: Store, keys: seq<string>, n: nat, m: nat)
    requires m <= n <= |keys| && (forall k | k in keys :: k in store) && forall k | k in keys[..n] :: k in store
    ensures ScanUpTo(env, store, keys, m) == ScanUpTo(env, store, keys[..n], m)
  {
    hide MigrateDocument, ScanNext;
    if m > 0 {
      ScanPrefix(env, store, keys, n, m - 1);
    }
  }
}
