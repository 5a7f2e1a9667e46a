/**
 The inference daemon's resources: a start that rolls back what it attempted, and a stop in three stages
 that keeps everything downstream of a stage that failed. What the components and the database engine see
 is recorded call by call; the properties are about that record.
 */
module InferenceRuntime {
  import opened Common
  import L = RuntimeLifecycle

  /** The identity of a component object; several roles may share one object. */
  type Comp = nat

  /** A call returns, raises an ordinary exception, or raises one that even the stop loop lets through. */
  datatype Reply = Fine | Error | Fatal

  /** `scope` limits a pass to some objects; `pass` is where in the record the pass began. `Disposed` is the end of a
      pass that went through. */
  datatype Entry =
    | Prepared(c: Comp, r: Reply)
    | Started(c: Comp, r: Reply)
    | PassBegan(scope: Option<set<Comp>>)
    | StopCalled(c: Comp, stage: nat, pass: nat, r: Reply)
    | Disposed(pass: nat)

  type Record = seq<Entry>

  /** How the outside answers the n-th call on the record: every combination of failures is some World. */
  type World = nat -> Reply

  datatype Task = Task(syncSupervisor: Comp, asyncSupervisor: Comp, gateway: Comp)

  datatype Container = Container(tasks: seq<Task>, reconciler: Comp, dispatcher: Comp,
                                 mmapServer: Option<Comp>, publisher: Option<Comp>)

  function OrNone(c: Option<Comp>): seq<Comp> {
    if c.Some? then [c.value] else []
  }

  function Reversed<T>(s: seq<T>): seq<T> {
    if s == [] then [] else Reversed(s[1..]) + [s[0]]
  }

  function Gateways(tasks: seq<Task>): seq<Comp> {
    if tasks == [] then [] else [tasks[0].gateway] + Gateways(tasks[1..])
  }

  function Supervisors(tasks: seq<Task>): seq<Comp> {
    if tasks == [] then [] else [tasks[0].asyncSupervisor, tasks[0].syncSupervisor] + Supervisors(tasks[1..])
  }

  function TaskStarts(tasks: seq<Task>): seq<Comp> {
    if tasks == [] then []
    else [tasks[0].syncSupervisor, tasks[0].asyncSupervisor, tasks[0].gateway] + TaskStarts(tasks[1..])
  }

  function StartOrder(rt: Container): seq<Comp> {
    TaskStarts(rt.tasks) + [rt.reconciler, rt.dispatcher] + OrNone(rt.mmapServer) + OrNone(rt.publisher)
  }

  /** The stages of a stop: producers, then gateways, then supervisors, tasks in reverse order. */
  function Stages(rt: Container): seq<seq<Comp>> {
    [OrNone(rt.publisher) + OrNone(rt.mmapServer) + [rt.dispatcher, rt.reconciler],
     Gateways(Reversed(rt.tasks)),
     Supervisors(Reversed(rt.tasks))]
  }

  // ----- What one call does ---------------------------------------------------------------------------

  predicate InScope(c: Comp, scope: Option<set<Comp>>) {
    scope.None? || c in scope.value
  }

  /** One stage: every component in scope is told to stop, an ordinary error is only remembered. */
  function StopStage(w: World, t: Record, comps: seq<Comp>, s: nat, pass: nat, scope: Option<set<Comp>>,
                     first: Reply): (o: (Record, Reply))
    ensures t <= o.0 && (o.1 != first ==> |t| < |o.0|)
    decreases |comps|
  {
    if comps == [] then (t, first)
    else if !InScope(comps[0], scope) then StopStage(w, t, comps[1..], s, pass, scope, first)
    else
      var r := w(|t|);
      var u := t + [StopCalled(comps[0], s, pass, r)];
      if r == Fatal then (u, Fatal)
      else StopStage(w, u, comps[1..], s, pass, scope, if first == Fine then r else first)
  }

  /** The stages from s on, each only after the one before it stopped entirely, then the engine. */
  function StopStages(w: World, t: Record, stages: seq<seq<Comp>>, s: nat, pass: nat,
                      scope: Option<set<Comp>>): (Record, Reply)
    requires s <= |stages|
    decreases |stages| - s
  {
    if s == |stages| then (t + [Disposed(pass)], Fine)
    else
      var (u, r) := StopStage(w, t, stages[s], s, pass, scope, Fine);
      if r != Fine then (u, r) else StopStages(w, u, stages, s + 1, pass, scope)
  }

  function StopPass(w: World, t: Record, stages: seq<seq<Comp>>, scope: Option<set<Comp>>): (Record, Reply) {
    StopStages(w, t + [PassBegan(scope)], stages, 0, |t|, scope)
  }

  /** The starts in order, until one raises. */
  function StartFrom(w: World, t: Record, order: seq<Comp>): (Record, Reply)
    decreases |order|
  {
    if order == [] then (t, Fine)
    else
      var r := w(|t|);
      var u := t + [Started(order[0], r)];
      if r != Fine then (u, r) else StartFrom(w, u, order[1..])
  }

  /** What a failed start has to stop: everything a start was tried on, and a prepared server. */
  function Attempted(t: Record): set<Comp> {
    set j | 0 <= j < |t| && (t[j].Started? || (t[j].Prepared? && t[j].r == Fine)) :: t[j].c
  }

  function Starts(w: World, t: Record, rt: Container): (Record, Reply) {
    if rt.mmapServer.Some? then
      var r := w(|t|);
      var u := t + [Prepared(rt.mmapServer.value, r)];
      if r != Fine then (u, r) else StartFrom(w, u, StartOrder(rt))
    else StartFrom(w, t, StartOrder(rt))
  }

  /** A failed start stops what it attempted; when that fails too, its error takes over. */
  function StartAll(w: World, t: Record, rt: Container): (Record, Reply) {
    var (u, r) := Starts(w, t, rt);
    if r == Fine then (u, Fine)
    else
      var (v, stopped) := StopPass(w, u, Stages(rt), Some(Attempted(u)));
      (v, if stopped == Fine then r else stopped)
  }

  datatype Daemon = Daemon(life: L.State, record: Record)

  datatype Op = Start | Stop

  function Step(w: World, rt: Container, d: Daemon, op: Op): (Daemon, Reply) {
    match op
    case Start =>
      var (s, a) := L.EnterStart(d.life);
      if a != L.Run then (Daemon(s, d.record), if a == L.Refuse then Error else Fine)
      else
        var (u, r) := StartAll(w, d.record, rt);
        (Daemon(L.LeaveStart(s, r == Fine), u), r)
    case Stop =>
      var (s, a) := L.EnterStop(d.life, true);
      if a != L.Run then (Daemon(s, d.record), Fine)
      else
        var (u, r) := StopPass(w, d.record, Stages(rt), None);
        (Daemon(L.LeaveStop(s, true, r == Fine), u), r)
  }

  function Run(w: World, rt: Container, ops: seq<Op>): Daemon
    decreases |ops|
  {
    if ops == [] then Daemon(L.INITIAL, [])
    else Step(w, rt, Run(w, rt, ops[..|ops| - 1]), ops[|ops| - 1]).0
  }

  // ----- The safety property ----------------------------------------------------------------------------

  predicate Known(stages: seq<seq<Comp>>, c: Comp) {
    exists s | 0 <= s < |stages| :: c in stages[s]
  }

  predicate StoppedSince(t: Record, j: nat)
    requires j < |t| && (t[j].Started? || t[j].Prepared?)
  {
    exists k | j < k < |t| :: t[k].StopCalled? && t[k].c == t[j].c && t[k].r == Fine
  }

  /** Every component whose start was attempted, and a prepared server, has returned from a stop since. */
  predicate AllStopped(t: Record) {
    forall j | 0 <= j < |t| && (t[j].Started? || (t[j].Prepared? && t[j].r == Fine)) :: StoppedSince(t, j)
  }

  /** Whether a server whose preparation was attempted has been stopped since: when it was prepared, or when the
      pass is not limited to what the start had registered. */
  predicate PreparedStopped(t: Record, scope: Option<set<Comp>>) {
    forall j | 0 <= j < |t| && t[j].Prepared? :: StoppedSince(t, j) <==> t[j].r == Fine || scope.None?
  }

  predicate StageStopped(t: Record, stage: seq<Comp>, s: nat, pass: nat, scope: Option<set<Comp>>) {
    forall c | c in stage && InScope(c, scope) :: StopCalled(c, s, pass, Fine) in t
  }

  predicate EarlierStopped(stages: seq<seq<Comp>>, t: Record, s: nat, pass: nat, scope: Option<set<Comp>>)
    requires s <= |stages|
  {
    forall n | 0 <= n < s :: StageStopped(t, stages[n], n, pass, scope)
  }

  predicate BeforeStops(t: Record) {
    forall j | 0 <= j < |t| :: !t[j].PassBegan?
  }

  /** When an entry may follow a record: a component of a stage is stopped only after every component of all
      earlier stages stopped in the same pass; the engine is disposed only at the end of a pass through all stages,
      when everything attempted has been stopped; and no start follows a stop. */
  predicate Legal(stages: seq<seq<Comp>>, t: Record, e: Entry) {
    match e
    case StopCalled(c, s, pass, _) =>
      s < |stages| && c in stages[s] && pass < |t| && t[pass].PassBegan? && InScope(c, t[pass].scope)
      && EarlierStopped(stages, t, s, pass, t[pass].scope)
    case Disposed(pass) =>
      pass < |t| && t[pass].PassBegan? && EarlierStopped(stages, t, |stages|, pass, t[pass].scope)
      && AllStopped(t) && PreparedStopped(t, t[pass].scope)
    case Started(c, _) => Known(stages, c) && BeforeStops(t)
    case Prepared(c, _) => Known(stages, c) && BeforeStops(t)
    case PassBegan(_) => true
  }

  predicate Sound(stages: seq<seq<Comp>>, t: Record) {
    forall i | 0 <= i < |t| :: Legal(stages, t[..i], t[i])
  }

  lemma SoundExtend(stages: seq<seq<Comp>>, t: Record, e: Entry)
    requires Sound(stages, t) && Legal(stages, t, e)
    ensures Sound(stages, t + [e])
  {
    hide Legal;
    var u := t + [e];
    forall i | 0 <= i < |u| ensures Legal(stages, u[..i], u[i]) {
      if i < |t| {
        assert u[..i] == t[..i];
      } else {
        assert u[..i] == t;
      }
    }
  }

  lemma EarlierStayStopped(stages: seq<seq<Comp>>, t: Record, u: Record, s: nat, pass: nat, scope: Option<set<Comp>>)
    requires t <= u && s <= |stages| && EarlierStopped(stages, t, s, pass, scope)
    ensures EarlierStopped(stages, u, s, pass, scope)
  {
    forall n | 0 <= n < s ensures StageStopped(u, stages[n], n, pass, scope) {
      forall c | c in stages[n] && InScope(c, scope) ensures StopCalled(c, n, pass, Fine) in u {
        assert StopCalled(c, n, pass, Fine) in t;
      }
    }
  }

  lemma NothingIsSound(stages: seq<seq<Comp>>)
    ensures Sound(stages, [])
  {
  }

  lemma StopIsLegal(stages: seq<seq<Comp>>, t: Record, e: Entry)
    requires e.StopCalled? && e.stage < |stages| && e.c in stages[e.stage]
    requires e.pass < |t| && t[e.pass].PassBegan? && InScope(e.c, t[e.pass].scope)
    requires EarlierStopped(stages, t, e.stage, e.pass, t[e.pass].scope)
    ensures Legal(stages, t, e)
  {
  }

  lemma DisposeIsLegal(stages: seq<seq<Comp>>, t: Record, pass: nat)
    requires pass < |t| && t[pass].PassBegan? && EarlierStopped(stages, t, |stages|, pass, t[pass].scope)
    requires AllStopped(t) && PreparedStopped(t, t[pass].scope)
    ensures Legal(stages, t, Disposed(pass))
  {
  }

  /** A pass limited to what a start registered has stopped nothing else, and a server whose preparation raised is
      not registered. */
  predicate Spares(t: Record, scope: Option<set<Comp>>) {
    scope.Some? ==>
      && (forall k | 0 <= k < |t| && t[k].StopCalled? :: t[k].c in scope.value)
      && (forall j | 0 <= j < |t| && t[j].Prepared? :: t[j].c in scope.value <==> t[j].r == Fine)
  }

  predicate Covers(t: Record, scope: Option<set<Comp>>) {
    forall j | 0 <= j < |t| && t[j].Started? :: InScope(t[j].c, scope)
  }

  /** After a pass over every stage, what was started or prepared in its scope has been stopped since. */
  lemma PassStops(stages: seq<seq<Comp>>, t: Record, pass: nat, j: nat)
    requires Sound(stages, t) && pass < |t| && t[pass].PassBegan?
    requires EarlierStopped(stages, t, |stages|, pass, t[pass].scope)
    requires j < |t| && (t[j].Started? || t[j].Prepared?) && InScope(t[j].c, t[pass].scope)
    ensures StoppedSince(t, j)
  {
    assert forall m | 0 <= m < j :: t[..j][m] == t[m];
    assert Legal(stages, t[..j], t[j]);
    var s :| 0 <= s < |stages| && t[j].c in stages[s];
    assert StageStopped(t, stages[s], s, pass, t[pass].scope);
    var k :| 0 <= k < |t| && t[k] == StopCalled(t[j].c, s, pass, Fine);
    assert Legal(stages, t[..k], t[k]);
  }

  /** A pass over every stage whose scope covers every attempted start leaves nothing running, and leaves alone
      exactly the server whose preparation raised when the pass spares it. */
  lemma CompletePassStopsAll(stages: seq<seq<Comp>>, t: Record, pass: nat)
    requires Sound(stages, t) && pass < |t| && t[pass].PassBegan?
    requires Covers(t, t[pass].scope) && Spares(t, t[pass].scope)
    requires EarlierStopped(stages, t, |stages|, pass, t[pass].scope)
    ensures AllStopped(t) && PreparedStopped(t, t[pass].scope)
  {
    hide Sound, EarlierStopped;
    forall j | 0 <= j < |t| && (t[j].Started? || t[j].Prepared?) && InScope(t[j].c, t[pass].scope)
      ensures StoppedSince(t, j)
    {
      PassStops(stages, t, pass, j);
    }
  }

  // ----- Each part keeps it -----------------------------------------------------------------------------

  /** Every stop from a place on returned. */
  predicate AllFine(t: Record, from: nat) {
    forall i | from <= i < |t| && t[i].StopCalled? :: t[i].r == Fine
  }

  lemma {:induction false} StageIsSound(w: World, t: Record, stages: seq<seq<Comp>>, comps: seq<Comp>, s: nat,
                                        pass: nat, scope: Option<set<Comp>>, first: Reply)
    requires Sound(stages, t) && s < |stages| && (forall c | c in comps :: c in stages[s])
    requires pass < |t| && t[pass] == PassBegan(scope) && EarlierStopped(stages, t, s, pass, scope)
    ensures var (u, r) := StopStage(w, t, comps, s, pass, scope, first);
            && t <= u && Sound(stages, u)
            && (forall i | |t| <= i < |u| :: u[i].StopCalled? && InScope(u[i].c, scope))
            && (r == Fine <==> first == Fine && AllFine(u, |t|))
            && (r == Fine ==> StageStopped(u, comps, s, pass, scope))
    decreases |comps|
  {
    hide Sound, Legal, EarlierStopped;
    if comps != [] {
      var c := comps[0];
      if !InScope(c, scope) {
        StageIsSound(w, t, stages, comps[1..], s, pass, scope, first);
      } else {
        var r := w(|t|);
        var e := StopCalled(c, s, pass, r);
        StopIsLegal(stages, t, e);
        SoundExtend(stages, t, e);
        EarlierStayStopped(stages, t, t + [e], s, pass, scope);
        assert (t + [e])[|t|] == e;
        if r != Fatal {
          StageIsSound(w, t + [e], stages, comps[1..], s, pass, scope, if first == Fine then r else first);
        }
      }
    }
  }

  /** A stage that ends without a fatal exception told each of its components in scope to stop, whatever the
      others answered. */
  lemma {:induction false} StageTellsAll(w: World, t: Record, comps: seq<Comp>, s: nat, pass: nat,
                                         scope: Option<set<Comp>>, first: Reply, c: Comp)
    requires c in comps && InScope(c, scope)
    ensures var (u, r) := StopStage(w, t, comps, s, pass, scope, first);
            t <= u && (r != Fatal ==> exists i | |t| <= i < |u| :: u[i].StopCalled? && u[i].c == c)
    decreases |comps|
  {
    if !InScope(comps[0], scope) {
      StageTellsAll(w, t, comps[1..], s, pass, scope, first, c);
    } else {
      var r := w(|t|);
      var v := t + [StopCalled(comps[0], s, pass, r)];
      if r != Fatal {
        var next := if first == Fine then r else first;
        var u := StopStage(w, v, comps[1..], s, pass, scope, next).0;
        assert u[|t|] == v[|t|];
        if comps[0] != c {
          StageTellsAll(w, v, comps[1..], s, pass, scope, next, c);
        }
      }
    }
  }

  lemma {:induction false} StagesAreSound(w: World, t: Record, stages: seq<seq<Comp>>, s: nat, pass: nat,
                                          scope: Option<set<Comp>>)
    requires Sound(stages, t) && s <= |stages|
    requires pass < |t| && t[pass] == PassBegan(scope) && EarlierStopped(stages, t, s, pass, scope)
    requires Covers(t, scope) && Spares(t, scope)
    ensures var (u, r) := StopStages(w, t, stages, s, pass, scope);
            t <= u && Sound(stages, u) && (r == Fine <==> u[|u| - 1] == Disposed(pass))
            && (r == Fine ==> AllStopped(u[..|u| - 1]))
    decreases |stages| - s
  {
    hide Sound, Legal, AllStopped, PreparedStopped;
    if s == |stages| {
      CompletePassStopsAll(stages, t, pass);
      DisposeIsLegal(stages, t, pass);
      SoundExtend(stages, t, Disposed(pass));
      assert (t + [Disposed(pass)])[..|t|] == t;
    } else {
      var (u, r) := StopStage(w, t, stages[s], s, pass, scope, Fine);
      StageIsSound(w, t, stages, stages[s], s, pass, scope, Fine);
      if r == Fine {
        EarlierStayStopped(stages, t, u, s, pass, scope);
        StagesAreSound(w, u, stages, s + 1, pass, scope);
      } else {
        assert u[|u| - 1].StopCalled?;
      }
    }
  }

  lemma PassIsSound(w: World, t: Record, stages: seq<seq<Comp>>, scope: Option<set<Comp>>)
    requires Sound(stages, t)
    requires Covers(t, scope) && Spares(t, scope)
    ensures var (u, r) := StopPass(w, t, stages, scope);
            t + [PassBegan(scope)] <= u && Sound(stages, u) && (r == Fine <==> u[|u| - 1] == Disposed(|t|))
            && (r == Fine ==> AllStopped(u[..|u| - 1]))
  {
    hide Sound, AllStopped;
    SoundExtend(stages, t, PassBegan(scope));
    StagesAreSound(w, t + [PassBegan(scope)], stages, 0, |t|, scope);
  }

  function AllStarted(order: seq<Comp>): Record {
    seq(|order|, i requires 0 <= i < |order| => Started(order[i], Fine))
  }

  lemma {:induction false} StartsAreSound(w: World, t: Record, stages: seq<seq<Comp>>, order: seq<Comp>)
    requires Sound(stages, t) && BeforeStops(t)
    requires forall c | c in order :: Known(stages, c)
    ensures var (u, r) := StartFrom(w, t, order);
            && t <= u && Sound(stages, u) && (forall j | |t| <= j < |u| :: u[j].Started?)
            && (r == Fine ==> u == t + AllStarted(order))
    decreases |order|
  {
    hide Sound, Known;
    if order != [] {
      var e := Started(order[0], w(|t|));
      SoundExtend(stages, t, e);
      if e.r == Fine {
        StartsAreSound(w, t + [e], stages, order[1..]);
        assert AllStarted(order) == [e] + AllStarted(order[1..]);
      }
    }
  }

  lemma {:induction false} ReversedHas<T>(s: seq<T>, x: T)
    ensures x in Reversed(s) <==> x in s
  {
    if s != [] {
      ReversedHas(s[1..], x);
      assert s == [s[0]] + s[1..];
    }
  }

  lemma {:induction false} RolesCollected(tasks: seq<Task>, t: Task)
    requires t in tasks
    ensures t.gateway in Gateways(tasks) && t.asyncSupervisor in Supervisors(tasks)
            && t.syncSupervisor in Supervisors(tasks)
  {
    if tasks[0] != t {
      RolesCollected(tasks[1..], t);
    }
  }

  lemma {:induction false} TaskOf(tasks: seq<Task>, c: Comp) returns (t: Task)
    requires c in TaskStarts(tasks)
    ensures t in tasks && (c == t.gateway || c == t.asyncSupervisor || c == t.syncSupervisor)
  {
    if c == tasks[0].gateway || c == tasks[0].asyncSupervisor || c == tasks[0].syncSupervisor {
      t := tasks[0];
    } else {
      t := TaskOf(tasks[1..], c);
    }
  }

  /** Everything that is ever started belongs to some stage of the stop. */
  lemma StartOrderIsKnown(rt: Container, c: Comp)
    requires c in StartOrder(rt)
    ensures Known(Stages(rt), c)
  {
    if c in TaskStarts(rt.tasks) {
      var t := TaskOf(rt.tasks, c);
      ReversedHas(rt.tasks, t);
      RolesCollected(Reversed(rt.tasks), t);
      assert c in Stages(rt)[1] || c in Stages(rt)[2];
    } else {
      assert c in Stages(rt)[0];
    }
  }

  lemma ServerIsKnown(rt: Container)
    requires rt.mmapServer.Some?
    ensures Known(Stages(rt), rt.mmapServer.value)
  {
    assert rt.mmapServer.value in OrNone(rt.mmapServer);
    assert rt.mmapServer.value in StartOrder(rt);
    StartOrderIsKnown(rt, rt.mmapServer.value);
  }

  /** The record of a start without a failure. */
  function FullStart(rt: Container): Record {
    (if rt.mmapServer.Some? then [Prepared(rt.mmapServer.value, Fine)] else []) + AllStarted(StartOrder(rt))
  }

  lemma StartAllIsSound(w: World, rt: Container)
    ensures var (u, r) := StartAll(w, [], rt);
            Sound(Stages(rt), u) && (r == Fine ==> u == FullStart(rt))
  {
    hide Sound, Known, Stages, StartOrder;
    var stages := Stages(rt);
    forall c | c in StartOrder(rt) ensures Known(stages, c) {
      StartOrderIsKnown(rt, c);
    }
    NothingIsSound(stages);
    if rt.mmapServer.Some? {
      var e := Prepared(rt.mmapServer.value, w(0));
      ServerIsKnown(rt);
      SoundExtend(stages, [], e);
      assert [] + [e] == [e];
      StartsAreSound(w, [e], stages, StartOrder(rt));
    } else {
      StartsAreSound(w, [], stages, StartOrder(rt));
    }
    var (u, r) := Starts(w, [], rt);
    if r != Fine {
      PassIsSound(w, u, stages, Some(Attempted(u)));
    }
  }

  /** Over every sequence of start and stop calls, however the components answer: the record is sound, and the
      phase says what happened. */
  lemma {:induction false} RunsAreSound(w: World, rt: Container, ops: seq<Op>)
    ensures var d := Run(w, rt, ops);
            && Sound(Stages(rt), d.record)
            && (d.life.phase == L.New ==> d.record == [])
            && (d.life.phase == L.Running ==> d.record == FullStart(rt))
            && (d.life.phase == L.Stopped ==>
                  d.record != [] && d.record[|d.record| - 1].Disposed? && AllStopped(d.record[..|d.record| - 1]))
    decreases |ops|
  {
    hide Sound, Stages, AllStopped, StartAll, StopPass, FullStart;
    if ops == [] {
      NothingIsSound(Stages(rt));
    } else {
      RunsAreSound(w, rt, ops[..|ops| - 1]);
      var d := Run(w, rt, ops[..|ops| - 1]);
      StartAllIsSound(w, rt);
      PassIsSound(w, d.record, Stages(rt), None);
    }
  }

  /** In every run, whenever the engine is disposed: the server whose preparation was attempted has been stopped
      before that if and only if the preparation returned or the pass was a stop and not the rollback of a start. */
  lemma PreparedServerIsStopped(w: World, rt: Container, ops: seq<Op>, j: nat, i: nat)
    requires var t := Run(w, rt, ops).record; j < i < |t| && t[j].Prepared? && t[i].Disposed?
    ensures var t := Run(w, rt, ops).record;
            && t[i].pass < i && t[t[i].pass].PassBegan?
            && (StoppedSince(t[..i], j) <==> t[j].r == Fine || t[t[i].pass].scope.None?)
  {
    var t := Run(w, rt, ops).record;
    hide Run;
    RunsAreSound(w, rt, ops);
    assert Legal(Stages(rt), t[..i], t[i]);
    assert t[..i][j] == t[j];
  }

  lemma {:induction false} NobodyInScope(w: World, t: Record, comps: seq<Comp>, s: nat, pass: nat, first: Reply)
    ensures StopStage(w, t, comps, s, pass, Some({}), first) == (t, first)
    decreases |comps|
  {
    if comps != [] {
      NobodyInScope(w, t, comps[1..], s, pass, first);
    }
  }

  /** A server whose preparation raises is not registered, so the rollback stops nothing and disposes the
      engine at once. */
  lemma FailedPreparationIsNotStopped(w: World, rt: Container)
    requires rt.mmapServer.Some? && w(0) != Fine
    ensures StartAll(w, [], rt) == ([Prepared(rt.mmapServer.value, w(0)), PassBegan(Some({})), Disposed(1)], w(0))
  {
    var stages := Stages(rt);
    var t := [Prepared(rt.mmapServer.value, w(0))];
    var none: Record := [];
    assert none + t == t;
    assert Starts(w, none, rt) == (t, w(0));
    assert Attempted(t) == {};
    var u := t + [PassBegan(Some({}))];
    NobodyInScope(w, u, stages[0], 0, 1, Fine);
    NobodyInScope(w, u, stages[1], 1, 1, Fine);
    NobodyInScope(w, u, stages[2], 2, 1, Fine);
    ThreeStages(w, u, stages, 1, Some({}));
    assert Some(Attempted(t)) == Some({});
    assert StopPass(w, t, stages, Some({})) == (u + [Disposed(1)], Fine);
    assert u + [Disposed(1)] == [Prepared(rt.mmapServer.value, w(0)), PassBegan(Some({})), Disposed(1)];
  }

  lemma ThreeStages(w: World, t: Record, stages: seq<seq<Comp>>, pass: nat, scope: Option<set<Comp>>)
    requires |stages| == 3
    ensures StopStages(w, t, stages, 0, pass, scope)
         == var (a, ra) := StopStage(w, t, stages[0], 0, pass, scope, Fine);
            if ra != Fine then (a, ra)
            else
              var (b, rb) := StopStage(w, a, stages[1], 1, pass, scope, Fine);
              if rb != Fine then (b, rb)
              else
                var (c, rc) := StopStage(w, b, stages[2], 2, pass, scope, Fine);
                if rc != Fine then (c, rc) else (c + [Disposed(pass)], Fine)
  {
    hide StopStage;
    var a := StopStage(w, t, stages[0], 0, pass, scope, Fine).0;
    var b := StopStage(w, a, stages[1], 1, pass, scope, Fine).0;
    var (c, rc) := StopStage(w, b, stages[2], 2, pass, scope, Fine);
    assert StopStages(w, c, stages, 3, pass, scope) == (c + [Disposed(pass)], Fine);
    assert StopStages(w, b, stages, 2, pass, scope) == if rc != Fine then (c, rc) else (c + [Disposed(pass)], Fine);
  }

  lemma AttemptedNothing()
    ensures Attempted([]) == {}
  {
  }

  lemma StartNothing(w: World, t: Record, order: seq<Comp>)
    requires order == []
    ensures StartFrom(w, t, order) == (t, Fine)
  {
  }

  lemma AttemptedGrows(t: Record, e: Entry)
    ensures Attempted(t + [e]) == Attempted(t) + if e.Started? || (e.Prepared? && e.r == Fine) then {e.c} else {}
  {
    var u := t + [e];
    assert u[|t|] == e;
    assert forall j | 0 <= j < |t| :: u[j] == t[j];
  }

  // ----- The object -------------------------------------------------------------------------------------

  class InferenceDaemonRuntime {
    const rt: Container
    const world: World
    const lifecycle: L.Guard
    var record: Record

    function View(): Daemon
      reads this, lifecycle
    {
      Daemon(lifecycle.View(), record)
    }

    constructor (rt: Container, world: World)
      ensures View() == Daemon(L.INITIAL, []) && fresh(lifecycle) && this.rt == rt && this.world == world
    {
      this.rt, this.world := rt, world;
      lifecycle := new L.Guard();
      record := [];
    }

    method StopComponents(components: seq<Comp>, s: nat, pass: nat, scope: Option<set<Comp>>) returns (first: Reply)
      modifies this`record
      ensures (record, first) == StopStage(world, old(record), components, s, pass, scope, Fine)
    {
      first := Fine;
      for n := 0 to |components|
        invariant StopStage(world, old(record), components, s, pass, scope, Fine)
               == StopStage(world, record, components[n..], s, pass, scope, first)
      {
        var c := components[n];
        assert components[n..][1..] == components[n + 1..];
        if InScope(c, scope) {
          var r := world(|record|);
          record := record + [StopCalled(c, s, pass, r)];
          if r == Fatal {
            return Fatal;
          }
          if r == Error && first == Fine {
            first := Error;
          }
        }
      }
    }

    /** `_stop`. */
    method StopEverything(scope: Option<set<Comp>>) returns (r: Reply)
      modifies this`record
      ensures (record, r) == StopPass(world, old(record), Stages(rt), scope)
    {
      hide Reversed, Gateways, Supervisors, StopStage, StopStages;
      var pass := |record|;
      record := record + [PassBegan(scope)];
      var components := [];
      if rt.publisher.Some? {
        components := components + [rt.publisher.value];
      }
      if rt.mmapServer.Some? {
        components := components + [rt.mmapServer.value];
      }
      components := components + [rt.dispatcher, rt.reconciler];
      assert components == Stages(rt)[0];
      ThreeStages(world, record, Stages(rt), pass, scope);
      r := StopComponents(components, 0, pass, scope);
      if r != Fine { return; }
      r := StopComponents(Gateways(Reversed(rt.tasks)), 1, pass, scope);
      if r != Fine { return; }
      r := StopComponents(Supervisors(Reversed(rt.tasks)), 2, pass, scope);
      if r != Fine { return; }
      record := record + [Disposed(pass)];
    }

    /** One component: registered for rollback first, then started. `rest` is what is left to start. */
    method StartOne(c: Comp, started: seq<Comp>, ghost rest: seq<Comp>) returns (r: Reply, now: seq<Comp>)
      requires rest != [] && rest[0] == c
      requires (set x | x in started) == Attempted(record)
      modifies this`record
      ensures StartFrom(world, old(record), rest) == if r == Fine then StartFrom(world, record, rest[1..])
              else (record, r)
      ensures (set x | x in now) == Attempted(record)
    {
      now := started + [c];
      r := world(|record|);
      AttemptedGrows(record, Started(c, r));
      record := record + [Started(c, r)];
      assert forall x :: x in now <==> x in started || x == c;
    }

    /** Every task's supervisors, then its gateway. */
    method StartTasks(before: seq<Comp>, ghost after: seq<Comp>) returns (r: Reply, started: seq<Comp>)
      requires (set x | x in before) == Attempted(record)
      modifies this`record
      ensures StartFrom(world, old(record), TaskStarts(rt.tasks) + after)
           == if r == Fine then StartFrom(world, record, after) else (record, r)
      ensures (set x | x in started) == Attempted(record)
    {
      hide StartFrom, Attempted;
      r, started := Fine, before;
      ghost var goal := StartFrom(world, record, TaskStarts(rt.tasks) + after);
      ghost var rest := TaskStarts(rt.tasks) + after;
      for n := 0 to |rt.tasks|
        invariant r == Fine && rest == TaskStarts(rt.tasks[n..]) + after
        invariant StartFrom(world, record, rest) == goal
        invariant (set x | x in started) == Attempted(record)
      {
        var t := rt.tasks[n];
        assert rt.tasks[n..][1..] == rt.tasks[n + 1..];
        assert rest == [t.syncSupervisor, t.asyncSupervisor, t.gateway] + (TaskStarts(rt.tasks[n + 1..]) + after);
        r, started := StartOne(t.syncSupervisor, started, rest);
        if r != Fine { return; }
        r, started := StartOne(t.asyncSupervisor, started, rest[1..]);
        if r != Fine { return; }
        r, started := StartOne(t.gateway, started, rest[1..][1..]);
        if r != Fine { return; }
        rest := rest[1..][1..][1..];
      }
      assert rest == after;
    }

    /** The starts, in dependency order, until one raises. */
    method StartInOrder() returns (r: Reply, started: seq<Comp>)
      requires record == []
      modifies this`record
      ensures (record, r) == Starts(world, [], rt)
      ensures (set x | x in started) == Attempted(record)
    {
      hide StartFrom, Attempted, TaskStarts;
      started := [];
      r := Fine;
      AttemptedNothing();
      if rt.mmapServer.Some? {
        r := world(|record|);
        AttemptedGrows(record, Prepared(rt.mmapServer.value, r));
        record := record + [Prepared(rt.mmapServer.value, r)];
        if r != Fine { return; }
        started := [rt.mmapServer.value];
      }
      ghost var rest := [rt.reconciler, rt.dispatcher] + OrNone(rt.mmapServer) + OrNone(rt.publisher);
      assert StartOrder(rt) == TaskStarts(rt.tasks) + rest;
      r, started := StartTasks(started, rest);
      if r != Fine { return; }
      r, started := StartOne(rt.reconciler, started, rest);
      if r != Fine { return; }
      rest := rest[1..];
      r, started := StartOne(rt.dispatcher, started, rest);
      if r != Fine { return; }
      rest := rest[1..];
      if rt.mmapServer.Some? {
        r, started := StartOne(rt.mmapServer.value, started, rest);
        if r != Fine { return; }
        rest := rest[1..];
      }
      if rt.publisher.Some? {
        r, started := StartOne(rt.publisher.value, started, rest);
        if r != Fine { return; }
        rest := rest[1..];
      }
      StartNothing(world, record, rest);
    }

    /** `_start`. */
    method StartEverything() returns (r: Reply)
      requires record == []
      modifies this`record
      ensures (record, r) == StartAll(world, [], rt)
    {
      hide Starts, StopPass, Attempted, Stages;
      var started;
      r, started := StartInOrder();
      assert Starts(world, [], rt) == (record, r);
      if r != Fine {
        ghost var was := record;
        var only := set x | x in started;
        assert only == Attempted(was);
        var stopped := StopEverything(Some(only));
        assert (record, stopped) == StopPass(world, was, Stages(rt), Some(Attempted(was)));
        if stopped != Fine {
          r := stopped;
        }
      }
    }

    /** `start`: a container that was stopped, or whose start failed, refuses. */
    method Start() returns (r: Reply)
      requires lifecycle.phase == L.New ==> record == []
      modifies this`record, lifecycle
      ensures (View(), r) == Step(world, rt, old(View()), Op.Start)
    {
      hide StartAll;
      var a := lifecycle.EnterStarting();
      if a == L.Skip {
        return Fine;
      }
      if a == L.Refuse {
        return Error;
      }
      r := StartEverything();
      lifecycle.LeaveStarting(r == Fine);
    }

    /** `stop`: raises what the pass raised, and can be tried again until a pass succeeds. */
    method Stop() returns (r: Reply)
      modifies this`record, lifecycle
      ensures (View(), r) == Step(world, rt, old(View()), Op.Stop)
    {
      var a := lifecycle.EnterStopping(true);
      if a == L.Skip {
        return Fine;
      }
      r := StopEverything(None);
      lifecycle.LeaveStopping(true, r == Fine);
    }
  }
}
