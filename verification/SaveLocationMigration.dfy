/**
 Migrating saved Workflow templates from the old save-location parameters: one node, one template, and a store
 of templates whose writes may be interrupted.
 */
module SaveLocationMigration {
  import opened Common

  /** A parameter value: nothing, a text, or anything else. */
  datatype Json = Null | Text(text: string) | Opaque(id: nat)

  type Parameters = map<string, Json>

  /** The library functions: `repr`, `==` on parsed values, `strip`, splitting a path into its directory and its
      file name, and replacing the old timestamp placeholder. */
  datatype Env = Env(repr: Json -> string, same: (Json, Json) -> bool, strip: string -> string,
                     parts: string -> (string, string), stamp: string -> string)

  datatype ParametersField = NoParameters | BadParameters | Dict(values: Parameters)

  /** `id` is empty when the node has none. */
  datatype Node = BadNode | Node(id: string, kind: string, parameters: ParametersField)

  datatype Edge = BadEdge | Edge(target: string, port: string)

  datatype Edges = NoEdges | BadEdges | EdgeList(items: seq<Edge>)

  datatype Template = Template(nodes: Option<seq<Node>>, edges: Edges)

  datatype Invalid = NodesMissing | EdgesNotList | EdgeNotObject | DynamicTarget | NodeNotObject | ParametersNotObject
                   | Conflict | Incomplete | EmptyLocation | NotDirectoryAndName | ConflictWithNew

  const SPLIT_KINDS: set<string> :=
    {"core.io.image-save", "core.io.video-save", "core.output.json-save-local", "core.output.text-save-local"}
  const INPUT_KINDS: set<string> := {"core.output.csv-append-local", "core.io.batch-files-relocate"}
  const VIDEO := "core.io.video-save"
  const TEXT_SAVE := "core.output.text-save-local"

  function OldNames(kind: string): seq<string> {
    ["output_dir", "output_object_key"]
    + (if kind == "core.output.json-save-local" || kind == "core.output.csv-append-local" then ["local_path"]
       else if kind == "core.io.batch-files-relocate" then ["target_directory"] else [])
  }

  function SplitOldNames(kind: string): seq<string> {
    ["save_location", "object_key"] + OldNames(kind)
  }

  const VIDEO_OLD_NAMES: seq<string> := ["output_transport_kind", "object_key", "local_path"]

  // ----- One node -------------------------------------------------------------------------------------------

  function Values(params: Parameters, names: seq<string>): seq<Json> {
    if names == [] then []
    else (if names[0] in params then [params[names[0]]] else []) + Values(params, names[1..])
  }

  predicate AnyOf(params: Parameters, names: seq<string>) {
    exists i | 0 <= i < |names| :: names[i] in params
  }

  lemma {:induction false} ValuesOfNone(params: Parameters, names: seq<string>)
    ensures Values(params, names) == [] <==> !AnyOf(params, names)
  {
    if names != [] {
      ValuesOfNone(params, names[1..]);
      assert forall i | 0 < i < |names| :: names[i] == names[1..][i - 1];
    }
  }

  function Drop(params: Parameters, names: seq<string>): Parameters {
    map k | k in params && k !in names :: params[k]
  }

  /** All values print alike. */
  predicate OneRepr(env: Env, values: seq<Json>) {
    forall i, j | 0 <= i < j < |values| :: env.repr(values[i]) == env.repr(values[j])
  }

  function Get(params: Parameters, name: string): Json {
    if name in params then params[name] else Null
  }

  datatype Step = Step(changed: bool, params: Parameters)

  function VideoLocation(params: Parameters): Json {
    var transport := if "output_transport_kind" in params then params["output_transport_kind"] else Text("storage");
    var found := if transport == Text("local-path") then Get(params, "local_path") else Get(params, "object_key");
    if found == Null then Text("") else found
  }

  /** `_migrate_video_save_parameters`. */
  function Video(env: Env, params: Parameters): Result<Step, Invalid> {
    if !AnyOf(params, VIDEO_OLD_NAMES) then Ok(Step(false, params))
    else
      var old' := VideoLocation(params);
      if "save_location" in params && !env.same(params["save_location"], old') then Err(Conflict)
      else Ok(Step(true, Drop(params["save_location" := old'], VIDEO_OLD_NAMES)))
  }

  /** `_split_save_location`. */
  function SplitLocation(env: Env, value: Json): Result<(string, string), Invalid> {
    var text := if value.Text? then env.strip(value.text) else "";
    if text == "" then Err(EmptyLocation)
    else
      var (directory, name) := env.parts(text);
      if directory == "" || directory == "." || name == "" then Err(NotDirectoryAndName) else Ok((directory, name))
  }

  const TRUE := Opaque(1)

  function Named(params: Parameters, kind: string, directory: string, name: string): Parameters {
    var named := params["save_directory" := Text(directory)]["file_name" := Text(name)];
    if kind != TEXT_SAVE && "overwrite" !in named then named["overwrite" := TRUE] else named
  }

  /** `_migrate_split_save_target_parameters`. */
  function Split(env: Env, params: Parameters, kind: string): Result<Step, Invalid> {
    var values := Values(params, SplitOldNames(kind));
    if values == [] then
      if ("save_directory" in params) != ("file_name" in params) then Err(Incomplete) else Ok(Step(false, params))
    else if !OneRepr(env, values) then Err(Conflict)
    else
      match SplitLocation(env, values[0])
      case Err(e) => Err(e)
      case Ok((d, n)) =>
        var directory, name := env.stamp(d), env.stamp(n);
        if Get(params, "save_directory") !in [Null, Text(directory)] || Get(params, "file_name") !in [Null, Text(name)]
        then Err(ConflictWithNew)
        else Ok(Step(true, Drop(Named(params, kind, directory, name), SplitOldNames(kind))))
  }

  /** The other nodes: the old names become `save_location`. */
  function Collapse(env: Env, params: Parameters, kind: string): Result<Step, Invalid> {
    var values := Values(params, OldNames(kind));
    if values == [] then Ok(Step(false, params))
    else if !OneRepr(env, values + Values(params, ["save_location"])) then Err(Conflict)
    else Ok(Step(true, Drop(params["save_location" := values[0]], OldNames(kind))))
  }

  function MigrateParameters(env: Env, params: Parameters, kind: string): Result<Step, Invalid> {
    if kind in SPLIT_KINDS then
      var first := if kind == VIDEO then Video(env, params) else Ok(Step(false, params));
      if first.Err? then first
      else
        match Split(env, first.value.params, kind)
        case Err(e) => Err(e)
        case Ok(second) => Ok(Step(first.value.changed || second.changed, second.params))
    else Collapse(env, params, kind)
  }

  // ----- A migrated node has nothing left to migrate -----------------------------------------------------------

  lemma DropIs(params: Parameters, names: seq<string>)
    ensures !AnyOf(Drop(params, names), names)
    ensures !AnyOf(params, names) ==> Drop(params, names) == params
  {
    if !AnyOf(params, names) {
      assert forall k | k in params :: k !in names;
    }
  }

  lemma VideoSettles(env: Env, params: Parameters)
    requires Video(env, params).Ok?
    ensures var s := Video(env, params).value;
            && Video(env, s.params) == Ok(Step(false, s.params))
            && (s.changed <==> s.params != params) && (!s.changed ==> s.params == params)
  {
    if AnyOf(params, VIDEO_OLD_NAMES) {
      var s := Video(env, params).value;
      DropIs(params["save_location" := VideoLocation(params)], VIDEO_OLD_NAMES);
      var i :| 0 <= i < 3 && VIDEO_OLD_NAMES[i] in params;
      assert VIDEO_OLD_NAMES[i] in VIDEO_OLD_NAMES;
      assert VIDEO_OLD_NAMES[i] !in s.params;
    }
  }

  lemma NewNamesStay(kind: string)
    ensures "save_directory" !in SplitOldNames(kind) && "file_name" !in SplitOldNames(kind)
  {
  }

  lemma SplitSettles(env: Env, params: Parameters, kind: string)
    requires Split(env, params, kind).Ok?
    ensures var s := Split(env, params, kind).value;
            && Split(env, s.params, kind) == Ok(Step(false, s.params))
            && (!s.changed ==> s.params == params)
            && (s.changed ==> AnyOf(params, SplitOldNames(kind)) && !AnyOf(s.params, SplitOldNames(kind)))
            && (forall k | k in s.params && k !in params ::
                  k == "save_directory" || k == "file_name" || k == "overwrite")
  {
    hide AnyOf, Values, SplitLocation, OneRepr, SplitOldNames;
    var names := SplitOldNames(kind);
    ValuesOfNone(params, names);
    var s := Split(env, params, kind).value;
    if Values(params, names) != [] {
      var (d, n) := SplitLocation(env, Values(params, names)[0]).value;
      var full := Named(params, kind, env.stamp(d), env.stamp(n));
      assert s.params == Drop(full, names);
      DropIs(full, names);
      ValuesOfNone(s.params, names);
      NewNamesStay(kind);
    }
  }

  lemma CollapseSettles(env: Env, params: Parameters, kind: string)
    requires Collapse(env, params, kind).Ok?
    ensures var s := Collapse(env, params, kind).value;
            && Collapse(env, s.params, kind) == Ok(Step(false, s.params))
            && (s.changed <==> s.params != params)
  {
    var names := OldNames(kind);
    ValuesOfNone(params, names);
    var s := Collapse(env, params, kind).value;
    if Values(params, names) != [] {
      DropIs(params["save_location" := Values(params, names)[0]], names);
      ValuesOfNone(s.params, names);
      var i :| 0 <= i < |names| && names[i] in params;
      assert names[i] in names && names[i] !in s.params;
    }
  }

  /** Migrating a node's parameters is idempotent, and reports a change exactly when there is one. */
  lemma ParametersSettle(env: Env, params: Parameters, kind: string)
    requires MigrateParameters(env, params, kind).Ok?
    ensures var s := MigrateParameters(env, params, kind).value;
            && MigrateParameters(env, s.params, kind) == Ok(Step(false, s.params))
            && (s.changed <==> s.params != params)
  {
    if kind in SPLIT_KINDS {
      var first := if kind == VIDEO then Video(env, params) else Ok(Step(false, params));
      SplitSettles(env, first.value.params, kind);
      var s := Split(env, first.value.params, kind).value;
      if kind == VIDEO {
        VideoSettles(env, params);
        VideoThenSplit(env, params);
      } else if s.changed {
        OldNameGone(params, s.params, SplitOldNames(kind));
      }
    } else {
      CollapseSettles(env, params, kind);
    }
  }

  lemma OldNameGone(before: Parameters, after: Parameters, names: seq<string>)
    requires AnyOf(before, names) && !AnyOf(after, names)
    ensures before != after
  {
    var i :| 0 <= i < |names| && names[i] in before;
    assert names[i] !in after;
  }

  /** The split brings no video name back. */
  lemma VideoThenSplit(env: Env, params: Parameters)
    requires Video(env, params).Ok? && Split(env, Video(env, params).value.params, VIDEO).Ok?
    ensures var first := Video(env, params).value; var s := Split(env, first.params, VIDEO).value;
            && Video(env, s.params) == Ok(Step(false, s.params))
            && (first.changed || s.changed <==> s.params != params)
  {
    var first := Video(env, params).value;
    var s := Split(env, first.params, VIDEO).value;
    VideoSettles(env, params);
    SplitSettles(env, first.params, VIDEO);
    assert !AnyOf(first.params, VIDEO_OLD_NAMES);
    assert !AnyOf(s.params, VIDEO_OLD_NAMES);
    if first.changed {
      assert AnyOf(params, VIDEO_OLD_NAMES);
      OldNameGone(params, s.params, VIDEO_OLD_NAMES);
    } else if s.changed {
      OldNameGone(params, s.params, SplitOldNames(VIDEO));
    }
  }

  // ----- One template -------------------------------------------------------------------------------------------

  datatype NodeStep = NodeStep(changed: bool, node: Node)

  function MigrateNode(env: Env, n: Node): Result<NodeStep, Invalid> {
    match n
    case BadNode => Err(NodeNotObject)
    case Node(_, _, NoParameters) => Ok(NodeStep(false, n))
    case Node(_, _, BadParameters) => Err(ParametersNotObject)
    case Node(_, kind, Dict(params)) =>
      match MigrateParameters(env, params, kind)
      case Err(e) => Err(e)
      case Ok(s) => Ok(NodeStep(s.changed, n.(parameters := Dict(s.params))))
  }

  datatype NodesStep = NodesStep(changed: set<nat>, nodes: seq<Node>)

  /** The first `n` nodes, in order; the first failure wins. */
  function NodesUpTo(env: Env, nodes: seq<Node>, n: nat): (r: Result<NodesStep, Invalid>)
    requires n <= |nodes|
    ensures r.Ok? ==> |r.value.nodes| == n
  {
    if n == 0 then Ok(NodesStep({}, []))
    else
      var before := NodesUpTo(env, nodes, n - 1);
      var step := MigrateNode(env, nodes[n - 1]);
      if before.Err? then before
      else if step.Err? then Err(step.error)
      else Ok(NodesStep(before.value.changed + if step.value.changed then {n - 1} else {},
                        before.value.nodes + [step.value.node]))
  }

  /** It succeeds when every node does, migrates each by itself, and counts those that changed. */
  lemma {:induction false} NodesAre(env: Env, nodes: seq<Node>, n: nat)
    requires n <= |nodes|
    ensures var r := NodesUpTo(env, nodes, n);
            && (r.Ok? <==> forall i | 0 <= i < n :: MigrateNode(env, nodes[i]).Ok?)
            && (r.Ok? ==>
                  && (forall i | 0 <= i < n :: r.value.nodes[i] == MigrateNode(env, nodes[i]).value.node)
                  && (forall i :: i in r.value.changed <==> 0 <= i < n && MigrateNode(env, nodes[i]).value.changed))
  {
    hide MigrateNode;
    if n > 0 {
      NodesAre(env, nodes, n - 1);
    }
  }

  function IdsOf(nodes: seq<Node>, kinds: set<string>): set<string> {
    set i | 0 <= i < |nodes| && nodes[i].Node? && nodes[i].id != "" && nodes[i].kind in kinds :: nodes[i].id
  }

  /** The last node of an id. */
  function LastIndex(nodes: seq<Node>, id: string): nat
  {
    if nodes == [] then 0
    else if nodes[|nodes| - 1].Node? && nodes[|nodes| - 1].id == id then |nodes| - 1
    else LastIndex(nodes[..|nodes| - 1], id)
  }

  function EdgeItems(edges: Edges): seq<Edge> {
    if edges.EdgeList? then edges.items else []
  }

  /** A connection into the old location port of a node whose location is split cannot be migrated. */
  function EdgeFault(e: Edge, splits: set<string>): Option<Invalid> {
    if e.BadEdge? then Some(EdgeNotObject)
    else if e.target in splits && (e.port == "path" || e.port == "save_location") then Some(DynamicTarget)
    else None
  }

  function FirstEdgeFault(items: seq<Edge>, splits: set<string>): (r: Option<Invalid>)
    ensures r.None? <==> forall i | 0 <= i < |items| :: EdgeFault(items[i], splits).None?
  {
    if items == [] then None
    else if EdgeFault(items[0], splits).Some? then EdgeFault(items[0], splits)
    else
      var rest := FirstEdgeFault(items[1..], splits);
      assert forall i | 0 < i < |items| :: items[i] == items[1..][i - 1];
      rest
  }

  predicate Redirected(e: Edge, inputs: set<string>) {
    e.Edge? && e.target in inputs && e.port == "path"
  }

  function Redirect(e: Edge, inputs: set<string>): Edge {
    if Redirected(e, inputs) then e.(port := "save_location") else e
  }

  function RedirectAll(items: seq<Edge>, inputs: set<string>): (r: seq<Edge>)
    ensures |r| == |items| && forall i | 0 <= i < |r| :: r[i] == Redirect(items[i], inputs)
  {
    seq(|items|, i requires 0 <= i < |items| => Redirect(items[i], inputs))
  }

  function RedirectedNodes(nodes: seq<Node>, items: seq<Edge>, inputs: set<string>): set<nat> {
    set i | 0 <= i < |items| && Redirected(items[i], inputs) :: LastIndex(nodes, items[i].target)
  }

  datatype Migration = Migration(template: Template, changed: set<nat>)

  /** `migrate_workflow_template_payload`: the new template and the nodes it counts as changed. */
  function Migrate(env: Env, t: Template): Result<Migration, Invalid> {
    if t.nodes.None? then Err(NodesMissing)
    else if t.edges.BadEdges? then Err(EdgesNotList)
    else
      var nodes := t.nodes.value;
      var items := EdgeItems(t.edges);
      var fault := FirstEdgeFault(items, IdsOf(nodes, SPLIT_KINDS));
      var step := NodesUpTo(env, nodes, |nodes|);
      if fault.Some? then Err(fault.value)
      else if step.Err? then Err(step.error)
      else
        var inputs := IdsOf(nodes, INPUT_KINDS);
        Ok(Migration(Template(Some(step.value.nodes),
                              if t.edges.EdgeList? then EdgeList(RedirectAll(items, inputs)) else t.edges),
                     step.value.changed + RedirectedNodes(nodes, items, inputs)))
  }

  // ----- Idempotence --------------------------------------------------------------------------------------------

  lemma NodeSettles(env: Env, n: Node)
    requires MigrateNode(env, n).Ok?
    ensures var s := MigrateNode(env, n).value;
            && MigrateNode(env, s.node) == Ok(NodeStep(false, s.node))
            && (s.changed <==> s.node != n)
            && s.node.Node? && s.node.id == n.id && s.node.kind == n.kind
  {
    hide MigrateParameters;
    match n
    case Node(_, kind, Dict(params)) => ParametersSettle(env, params, kind);
    case _ =>
  }

  lemma NodesSettle(env: Env, nodes: seq<Node>)
    requires NodesUpTo(env, nodes, |nodes|).Ok?
    ensures var s := NodesUpTo(env, nodes, |nodes|).value;
            && NodesUpTo(env, s.nodes, |s.nodes|) == Ok(NodesStep({}, s.nodes))
            && (s.changed == {} <==> s.nodes == nodes)
            && (forall kinds :: IdsOf(s.nodes, kinds) == IdsOf(nodes, kinds))
  {
    hide MigrateNode, IdsOf, NodesUpTo;
    NodesAre(env, nodes, |nodes|);
    var s := NodesUpTo(env, nodes, |nodes|).value;
    forall i | 0 <= i < |nodes|
      ensures MigrateNode(env, s.nodes[i]) == Ok(NodeStep(false, s.nodes[i]))
              && (i in s.changed <==> s.nodes[i] != nodes[i])
              && s.nodes[i].Node? && nodes[i].Node? && s.nodes[i].id == nodes[i].id && s.nodes[i].kind == nodes[i].kind
    {
      assert MigrateNode(env, nodes[i]).Ok?;
      NodeSettles(env, nodes[i]);
      OkIsNode(env, nodes[i]);
    }
    NodesAre(env, s.nodes, |s.nodes|);
    var again := NodesUpTo(env, s.nodes, |s.nodes|).value;
    assert again.nodes == s.nodes && again.changed == {};
    forall kinds ensures IdsOf(s.nodes, kinds) == IdsOf(nodes, kinds) {
      SameIds(nodes, s.nodes, kinds);
    }
    if s.nodes == nodes {
      assert forall i :: i !in s.changed;
    }
  }

  lemma OkIsNode(env: Env, n: Node)
    requires MigrateNode(env, n).Ok?
    ensures n.Node?
  {
  }

  lemma SameIds(nodes: seq<Node>, more: seq<Node>, kinds: set<string>)
    requires |nodes| == |more|
    requires forall i | 0 <= i < |nodes| ::
               nodes[i].Node? && more[i].Node? && more[i].id == nodes[i].id && more[i].kind == nodes[i].kind
    ensures IdsOf(more, kinds) == IdsOf(nodes, kinds)
  {
    forall id ensures id in IdsOf(more, kinds) <==> id in IdsOf(nodes, kinds) {
      if id in IdsOf(more, kinds) {
        var i :| 0 <= i < |more| && more[i].id == id && more[i].kind in kinds && id != "";
        assert nodes[i].id == id;
      }
      if id in IdsOf(nodes, kinds) {
        var i :| 0 <= i < |nodes| && nodes[i].Node? && nodes[i].id == id && nodes[i].kind in kinds && id != "";
        assert more[i].id == id;
      }
    }
  }

  lemma EdgesSettle(nodes: seq<Node>, items: seq<Edge>, splits: set<string>, inputs: set<string>)
    requires FirstEdgeFault(items, splits).None?
    ensures var r := RedirectAll(items, inputs);
            && FirstEdgeFault(r, splits).None? && RedirectAll(r, inputs) == r
            && (forall other: seq<Node> :: RedirectedNodes(other, r, inputs) == {})
            && (RedirectedNodes(nodes, items, inputs) == {} <==> r == items)
  {
    hide FirstEdgeFault, LastIndex;
    var r := RedirectAll(items, inputs);
    forall i | 0 <= i < |r| ensures EdgeFault(r[i], splits).None? {
      assert EdgeFault(items[i], splits).None?;
    }
    forall i | 0 <= i < |items| && Redirected(items[i], inputs)
      ensures r[i] != items[i] && RedirectedNodes(nodes, items, inputs) != {}
    {
      assert LastIndex(nodes, items[i].target) in RedirectedNodes(nodes, items, inputs);
    }
  }

  /** A migrated template migrates to itself with nothing counted, and nothing is counted exactly when the
      template was already migrated. */
  lemma MigrationIsIdempotent(env: Env, t: Template)
    requires Migrate(env, t).Ok?
    ensures var m := Migrate(env, t).value;
            && Migrate(env, m.template) == Ok(Migration(m.template, {}))
            && (|m.changed| == 0 <==> m.template == t)
  {
    hide NodesUpTo, FirstEdgeFault, IdsOf, RedirectAll, RedirectedNodes;
    var nodes := t.nodes.value;
    var items := EdgeItems(t.edges);
    var splits, inputs := IdsOf(nodes, SPLIT_KINDS), IdsOf(nodes, INPUT_KINDS);
    var step := NodesUpTo(env, nodes, |nodes|).value;
    var m := Migrate(env, t).value;
    var after := RedirectAll(items, inputs);
    NodesSettle(env, nodes);
    EdgesSettle(nodes, items, splits, inputs);
    NothingRedirected(nodes, inputs);
    assert EdgeItems(m.template.edges) == after;
    assert RedirectedNodes(step.nodes, after, inputs) == {};
    assert {} + RedirectedNodes(step.nodes, after, inputs) == {};
    NothingChanged(m.changed, step.changed, RedirectedNodes(nodes, items, inputs));
  }

  lemma NothingChanged(all: set<nat>, a: set<nat>, b: set<nat>)
    requires all == a + b
    ensures |all| == 0 <==> a == {} && b == {}
  {
    assert |all| == 0 <==> all == {};
    assert a <= all && b <= all;
  }

  lemma NothingRedirected(nodes: seq<Node>, inputs: set<string>)
    ensures RedirectedNodes(nodes, [], inputs) == {} && RedirectAll([], inputs) == []
  {
  }

  // ----- A store of templates -----------------------------------------------------------------------------------

  datatype Document = Unreadable | NotAnObject | File(template: Template)

  type Store = map<string, Document>

  datatype Refusal = CannotRead | NotObject | Invalid(why: Invalid)

  function MigrateDocument(env: Env, d: Document): Result<Migration, Refusal> {
    match d
    case Unreadable => Err(CannotRead)
    case NotAnObject => Err(NotObject)
    case File(t) => match Migrate(env, t) case Err(e) => Err(Refusal.Invalid(e)) case Ok(m) => Ok(m)
  }

  datatype Change = Change(key: string, template: Template)

  datatype Scan = Scan(changes: seq<Change>, nodes: nat)

  /** One more candidate: its migration is noted if it changed a node. */
  function ScanNext(env: Env, key: string, d: Document, before: Scan): (r: Result<Scan, Refusal>)
    ensures r.Ok? <==> MigrateDocument(env, d).Ok?
  {
    match MigrateDocument(env, d)
    case Err(e) => Err(e)
    case Ok(m) =>
      if |m.changed| > 0 then Ok(Scan(before.changes + [Change(key, m.template)], before.nodes + |m.changed|))
      else Ok(before)
  }

  /** Reading and migrating in memory, in order; the first failure wins. */
  function ScanUpTo(env: Env, store: Store, keys: seq<string>, n: nat): (r: Result<Scan, Refusal>)
    requires n <= |keys| && forall k | k in keys :: k in store
    ensures r.Ok? <==> forall i | 0 <= i < n :: MigrateDocument(env, store[keys[i]]).Ok?
  {
    if n == 0 then Ok(Scan([], 0))
    else
      var before := ScanUpTo(env, store, keys, n - 1);
      if before.Err? then before else ScanNext(env, keys[n - 1], store[keys[n - 1]], before.value)
  }

  /** The store after the first `n` writes. */
  function Written(store: Store, changes: seq<Change>, n: nat): Store
    requires n <= |changes|
  {
    if n == 0 then store else Written(store, changes, n - 1)[changes[n - 1].key := File(changes[n - 1].template)]
  }

  /** Every candidate replaced by its migration. */
  function FullyMigrated(env: Env, store: Store, keys: seq<string>): Store {
    map k | k in store :: if k in keys && MigrateDocument(env, store[k]).Ok?
      then File(MigrateDocument(env, store[k]).value.template) else store[k]
  }

  predicate AllValid(env: Env, store: Store, keys: seq<string>)
    requires forall k | k in keys :: k in store
  {
    forall i | 0 <= i < |keys| :: MigrateDocument(env, store[keys[i]]).Ok?
  }

  /** A scan finds exactly the candidates whose migration differs, each with its migration. */
  lemma {:induction false} ScanIs(env: Env, store: Store, keys: seq<string>, n: nat)
    requires n <= |keys| && (forall k | k in keys :: k in store) && ScanUpTo(env, store, keys, n).Ok?
    ensures var changes := ScanUpTo(env, store, keys, n).value.changes;
            && (forall c | c in changes :: c.key in keys && MigrateDocument(env, store[c.key]).Ok?
                                           && c.template == MigrateDocument(env, store[c.key]).value.template
                                           && store[c.key] != File(c.template))
            && (forall i | 0 <= i < n :: MigrateDocument(env, store[keys[i]]).Ok?
                  && (store[keys[i]] == File(MigrateDocument(env, store[keys[i]]).value.template)
                      || Change(keys[i], MigrateDocument(env, store[keys[i]]).value.template) in changes))
  {
    hide Migrate;
    if n > 0 {
      ScanIs(env, store, keys, n - 1);
      var m := MigrateDocument(env, store[keys[n - 1]]).value;
      DocumentSettles(env, store[keys[n - 1]]);
    }
  }

  lemma DocumentSettles(env: Env, d: Document)
    requires MigrateDocument(env, d).Ok?
    ensures var m := MigrateDocument(env, d).value;
            && MigrateDocument(env, File(m.template)) == Ok(Migration(m.template, {}))
            && (|m.changed| == 0 <==> d == File(m.template))
  {
    hide Migrate;
    MigrationIsIdempotent(env, d.template);
  }

  /** Part of the writes leaves every document either as it was or migrated. */
  lemma {:induction false} WrittenIs(env: Env, store: Store, keys: seq<string>, changes: seq<Change>, n: nat)
    requires n <= |changes| && forall k | k in keys :: k in store
    requires forall c | c in changes :: c.key in keys && MigrateDocument(env, store[c.key]).Ok?
                                        && c.template == MigrateDocument(env, store[c.key]).value.template
    ensures var w := Written(store, changes, n);
            && w.Keys == store.Keys
            && (forall k | k in w :: w[k] == store[k]
                  || (k in keys && MigrateDocument(env, store[k]).Ok?
                      && w[k] == File(MigrateDocument(env, store[k]).value.template)))
            && (forall i | 0 <= i < n :: w[changes[i].key] == File(changes[i].template))
  {
    hide MigrateDocument;
    if n > 0 {
      WrittenIs(env, store, keys, changes, n - 1);
      assert changes[n - 1] in changes;
      forall i | 0 <= i < n ensures Written(store, changes, n)[changes[i].key] == File(changes[i].template) {
        assert changes[i] in changes;
      }
    }
  }

  /** However many writes went through before an interruption, the store still migrates to the same store, and
      after all of them it is that store: running the command again finishes the job. */
  lemma InterruptedRunsConverge(env: Env, store: Store, keys: seq<string>, n: nat)
    requires (forall k | k in keys :: k in store) && AllValid(env, store, keys)
    requires n <= |ScanUpTo(env, store, keys, |keys|).value.changes|
    ensures var changes := ScanUpTo(env, store, keys, |keys|).value.changes;
            var w := Written(store, changes, n);
            && w.Keys == store.Keys && AllValid(env, w, keys)
            && FullyMigrated(env, w, keys) == FullyMigrated(env, store, keys)
            && (n == |changes| ==> w == FullyMigrated(env, store, keys))
  {
    hide MigrateDocument, ScanUpTo, Written;
    var changes := ScanUpTo(env, store, keys, |keys|).value.changes;
    var w := Written(store, changes, n);
    ScanIs(env, store, keys, |keys|);
    WrittenIs(env, store, keys, changes, n);
    forall k | k in keys
      ensures MigrateDocument(env, w[k]).Ok? && MigrateDocument(env, store[k]).Ok?
              && MigrateDocument(env, w[k]).value.template == MigrateDocument(env, store[k]).value.template
              && (n == |changes| ==> w[k] == File(MigrateDocument(env, store[k]).value.template))
    {
      var i :| 0 <= i < |keys| && keys[i] == k;
      DocumentSettles(env, store[k]);
      if Change(k, MigrateDocument(env, store[k]).value.template) in changes {
        var j :| 0 <= j < |changes| && changes[j] == Change(k, MigrateDocument(env, store[k]).value.template);
        assert n == |changes| ==> w[changes[j].key] == File(changes[j].template);
      }
    }
  }

  // ----- In place -------------------------------------------------------------------------------------------------

  /** One template while it is migrated. */
  class TemplateInMemory {
    var nodes: Option<seq<Node>>
    var edges: Edges

    function View(): Template
      reads this
    {
      Template(nodes, edges)
    }

    constructor (t: Template)
      ensures View() == t
    {
      nodes, edges := t.nodes, t.edges;
    }

    method MigratePayload(env: Env) returns (r: Result<nat, Invalid>)
      modifies this
      ensures r.Err? <==> Migrate(env, old(View())).Err?
      ensures r.Err? ==> r.error == Migrate(env, old(View())).error
      ensures r.Ok? ==>
                && View() == Migrate(env, old(View())).value.template
                && r.value == |Migrate(env, old(View())).value.changed|
    {
      if nodes.None? {
        return Err(NodesMissing);
      }
      if edges.BadEdges? {
        return Err(EdgesNotList);
      }
      ghost var before := View();
      var original := nodes.value;
      var items := EdgeItems(edges);
      var fault := FirstEdgeFault(items, IdsOf(original, SPLIT_KINDS));
      if fault.Some? {
        return Err(fault.value);
      }
      var changed: set<nat> := {};
      for n := 0 to |original|
        invariant nodes.Some? && |nodes.value| == |original| && edges == before.edges
        invariant NodesUpTo(env, original, n) == Ok(NodesStep(changed, nodes.value[..n]))
        invariant nodes.value[n..] == original[n..]
      {
        var step := MigrateNode(env, original[n]);
        if step.Err? {
          FailureStays(env, original, n + 1);
          return Err(step.error);
        }
        assert nodes.value[..n] + [step.value.node] == nodes.value[n := step.value.node][..n + 1];
        nodes := Some(nodes.value[n := step.value.node]);
        changed := changed + if step.value.changed then {n} else {};
      }
      assert nodes.value[..|original|] == nodes.value;
      RedirectEdges(original, items);
      var redirected := RedirectedNodes(original, items, IdsOf(original, INPUT_KINDS));
      return Ok(|changed + redirected|);
    }

    /** The edges into an old location port, one after the other. */
    method RedirectEdges(original: seq<Node>, items: seq<Edge>)
      requires !edges.BadEdges? && items == EdgeItems(edges)
      modifies this`edges
      ensures edges == if old(edges).EdgeList? then EdgeList(RedirectAll(items, IdsOf(original, INPUT_KINDS)))
              else old(edges)
    {
      var inputs := IdsOf(original, INPUT_KINDS);
      if edges.EdgeList? {
        for n := 0 to |items|
          invariant edges.EdgeList? && |edges.items| == |items|
          invariant forall i | 0 <= i < n :: edges.items[i] == Redirect(items[i], inputs)
          invariant forall i | n <= i < |items| :: edges.items[i] == items[i]
        {
          if Redirected(edges.items[n], inputs) {
            edges := EdgeList(edges.items[n := edges.items[n].(port := "save_location")]);
          }
        }
        assert edges.items == RedirectAll(items, inputs);
      }
    }
  }

  lemma {:induction false} FailureStays(env: Env, nodes: seq<Node>, n: nat)
    requires n <= |nodes| && NodesUpTo(env, nodes, n).Err?
    ensures NodesUpTo(env, nodes, |nodes|) == NodesUpTo(env, nodes, n)
    decreases |nodes| - n
  {
    hide MigrateNode;
    if n < |nodes| {
      FailureStays(env, nodes, n + 1);
    }
  }

  lemma RefusedOnce(env: Env, store: Store, keys: seq<string>, n: nat)
    requires n < |keys| && (forall k | k in keys :: k in store) && ScanUpTo(env, store, keys, n).Err?
    ensures ScanUpTo(env, store, keys, n + 1) == ScanUpTo(env, store, keys, n)
  {
    hide MigrateDocument;
  }

  /** The first invalid candidate decides. */
  lemma {:induction false} RefusalStays(env: Env, store: Store, keys: seq<string>, n: nat)
    requires n <= |keys| && (forall k | k in keys :: k in store) && ScanUpTo(env, store, keys, n).Err?
    ensures ScanUpTo(env, store, keys, |keys|) == ScanUpTo(env, store, keys, n)
    decreases |keys| - n
  {
    hide ScanUpTo, MigrateDocument;
    if n < |keys| {
      RefusedOnce(env, store, keys, n);
      RefusalStays(env, store, keys, n + 1);
    }
  }

  datatype Report = Report(scanned: nat, changedFiles: seq<string>, changedNodes: nat, confirmed: bool)

  datatype Outcome = Refused(why: Refusal) | Interrupted | Done(report: Report)

  function KeysOf(changes: seq<Change>): seq<string> {
    seq(|changes|, i requires 0 <= i < |changes| => changes[i].key)
  }

  class TemplateStore {
    var documents: Store

    constructor (documents: Store)
      ensures this.documents == documents
    {
      this.documents := documents;
    }

    /** `migrate_workflow_save_locations`; the process dies after `writes` writes if there are more. An invalid
        candidate prevents every write, a dry run makes none, and a finished run leaves every candidate migrated. */
    method MigrateSaveLocations(env: Env, keys: seq<string>, confirm: bool, writes: nat) returns (r: Outcome)
      requires forall k | k in keys :: k in documents
      modifies this
      ensures r.Refused? <==> !AllValid(env, old(documents), keys)
      ensures r.Refused? ==> ScanUpTo(env, old(documents), keys, |keys|) == Err(r.why)
      ensures r.Refused? || !confirm ==> documents == old(documents)
      ensures AllValid(env, old(documents), keys) && confirm ==>
                var scan := ScanUpTo(env, old(documents), keys, |keys|).value;
                var n := if writes < |scan.changes| then writes else |scan.changes|;
                && documents == Written(old(documents), scan.changes, n)
                && (r.Interrupted? <==> n < |scan.changes|)
                && (r.Done? ==> documents == FullyMigrated(env, old(documents), keys))
      ensures r.Done? ==> var scan := ScanUpTo(env, old(documents), keys, |keys|).value;
                          r.report == Report(|keys|, KeysOf(scan.changes), scan.nodes, confirm)
    {
      hide MigrateDocument, FullyMigrated;
      var before := documents;
      var changes: seq<Change> := [];
      var total: nat := 0;
      for n := 0 to |keys|
        invariant documents == before
        invariant ScanUpTo(env, before, keys, n) == Ok(Scan(changes, total))
      {
        var m := MigrateDocument(env, documents[keys[n]]);
        if m.Err? {
          RefusalStays(env, before, keys, n + 1);
          return Refused(m.error);
        }
        if |m.value.changed| > 0 {
          changes := changes + [Change(keys[n], m.value.template)];
          total := total + |m.value.changed|;
        }
      }
      if confirm {
        for n := 0 to |changes|
          invariant n <= writes && documents == Written(before, changes, n)
        {
          if n == writes {
            return Interrupted;
          }
          documents := documents[changes[n].key := File(changes[n].template)];
        }
        InterruptedRunsConverge(env, before, keys, |changes|);
      }
      return Done(Report(|keys|, KeysOf(changes), total, confirm));
    }
  }
}
