/**
 The order in which the inference daemon starts and stops its components, told by their roles: what each pass of a
 stop says to whom, that consumers outlive their producers, and that nothing starts before what it needs.
 */
module InferenceOrder {
  import opened Common
  import opened InferenceRuntime
  import L = RuntimeLifecycle

  predicate IsProducer(rt: Container, c: Comp) {
    c == rt.dispatcher || c == rt.reconciler || Some(c) == rt.mmapServer || Some(c) == rt.publisher
  }

  predicate IsGateway(rt: Container, c: Comp) {
    exists i | 0 <= i < |rt.tasks| :: rt.tasks[i].gateway == c
  }

  predicate IsSupervisor(rt: Container, c: Comp) {
    exists i | 0 <= i < |rt.tasks| :: rt.tasks[i].asyncSupervisor == c || rt.tasks[i].syncSupervisor == c
  }

  function LastFirst(tasks: seq<Task>): (r: seq<Task>)
    ensures |r| == |tasks| && forall k | 0 <= k < |tasks| :: r[k] == tasks[|tasks| - 1 - k]
  {
    seq(|tasks|, k requires 0 <= k < |tasks| => tasks[|tasks| - 1 - k])
  }

  /** The supervisor stopped at place `k`: two a task. */
  function StoppedSupervisor(tasks: seq<Task>, k: nat): Comp
    requires k < 2 * |tasks|
  {
    if k % 2 == 0 then tasks[k / 2].asyncSupervisor else tasks[k / 2].syncSupervisor
  }

  /** The component started at place `k`: three a task, the gateway after both supervisors. */
  function StartedPart(tasks: seq<Task>, k: nat): Comp
    requires k < 3 * |tasks|
  {
    if k % 3 == 0 then tasks[k / 3].syncSupervisor
    else if k % 3 == 1 then tasks[k / 3].asyncSupervisor
    else tasks[k / 3].gateway
  }

  /** The order of a stop: what produces work, then the gateways, then the supervisors, the last task first. */
  function StopOrder(rt: Container): seq<Comp> {
    var back := LastFirst(rt.tasks);
    OrNone(rt.publisher) + OrNone(rt.mmapServer) + [rt.dispatcher, rt.reconciler]
    + seq(|back|, k requires 0 <= k < |back| => back[k].gateway)
    + seq(2 * |back|, k requires 0 <= k < 2 * |back| => StoppedSupervisor(back, k))
  }

  /** The order of a start: the parts of every task, the first task first, then what produces work, the publisher
      last. */
  function StartList(rt: Container): seq<Comp> {
    seq(3 * |rt.tasks|, k requires 0 <= k < 3 * |rt.tasks| => StartedPart(rt.tasks, k))
    + [rt.reconciler, rt.dispatcher] + OrNone(rt.mmapServer) + OrNone(rt.publisher)
  }

  // ----- The lists of the code are these ------------------------------------------------------------------------

  lemma {:induction false} ReversedAt<T>(s: seq<T>)
    ensures |Reversed(s)| == |s| && forall k | 0 <= k < |s| :: Reversed(s)[k] == s[|s| - 1 - k]
  {
    if s != [] {
      ReversedAt(s[1..]);
    }
  }

  lemma {:induction false} GatewaysAt(tasks: seq<Task>)
    ensures |Gateways(tasks)| == |tasks| && forall k | 0 <= k < |tasks| :: Gateways(tasks)[k] == tasks[k].gateway
  {
    if tasks != [] {
      GatewaysAt(tasks[1..]);
    }
  }

  lemma {:induction false} SupervisorsAt(tasks: seq<Task>, k: nat)
    requires k < 2 * |tasks|
    ensures |Supervisors(tasks)| == 2 * |tasks|
    ensures Supervisors(tasks)[k] == StoppedSupervisor(tasks, k)
  {
    if |tasks| > 1 {
      SupervisorsAt(tasks[1..], if k < 2 then 0 else k - 2);
    }
  }

  lemma {:induction false} TaskStartsAt(tasks: seq<Task>, k: nat)
    requires k < 3 * |tasks|
    ensures |TaskStarts(tasks)| == 3 * |tasks|
    ensures TaskStarts(tasks)[k] == StartedPart(tasks, k)
  {
    if |tasks| > 1 {
      TaskStartsAt(tasks[1..], if k < 3 then 0 else k - 3);
    }
  }

  lemma SupervisorsAre(tasks: seq<Task>)
    ensures Supervisors(tasks) == seq(2 * |tasks|, k requires 0 <= k < 2 * |tasks| => StoppedSupervisor(tasks, k))
  {
    hide Supervisors, StoppedSupervisor;
    if tasks == [] {
      NothingOfNobody(tasks);
    } else {
      SupervisorsAt(tasks, 0);
      forall k | 0 <= k < 2 * |tasks| ensures Supervisors(tasks)[k] == StoppedSupervisor(tasks, k) {
        SupervisorsAt(tasks, k);
      }
    }
  }

  lemma TaskStartsAre(tasks: seq<Task>)
    ensures TaskStarts(tasks) == seq(3 * |tasks|, k requires 0 <= k < 3 * |tasks| => StartedPart(tasks, k))
  {
    hide TaskStarts, StartedPart;
    if tasks == [] {
      NothingOfNobody(tasks);
    } else {
      TaskStartsAt(tasks, 0);
      forall k | 0 <= k < 3 * |tasks| ensures TaskStarts(tasks)[k] == StartedPart(tasks, k) {
        TaskStartsAt(tasks, k);
      }
    }
  }

  lemma NothingOfNobody(tasks: seq<Task>)
    requires tasks == []
    ensures Supervisors(tasks) == [] && TaskStarts(tasks) == []
  {
  }

  lemma StagesAre(rt: Container)
    ensures |Stages(rt)| == 3 && Stages(rt)[0] + Stages(rt)[1] + Stages(rt)[2] == StopOrder(rt)
  {
    var back := LastFirst(rt.tasks);
    ReversedAt(rt.tasks);
    assert back == Reversed(rt.tasks);
    GatewaysAt(back);
    SupervisorsAre(back);
    hide Reversed, Gateways, Supervisors, LastFirst, StoppedSupervisor;
    assert Gateways(back) == seq(|back|, k requires 0 <= k < |back| => back[k].gateway);
  }

  lemma StartOrderIs(rt: Container)
    ensures StartOrder(rt) == StartList(rt)
  {
    hide TaskStarts, StartedPart;
    TaskStartsAre(rt.tasks);
  }

  // ----- Whom a pass tells ------------------------------------------------------------------------------------------

  function Within(cs: seq<Comp>, scope: Option<set<Comp>>): seq<Comp> {
    if cs == [] then []
    else (if InScope(cs[0], scope) then [cs[0]] else []) + Within(cs[1..], scope)
  }

  lemma {:induction false} WithinAppend(a: seq<Comp>, b: seq<Comp>, scope: Option<set<Comp>>)
    ensures Within(a + b, scope) == Within(a, scope) + Within(b, scope)
  {
    if a == [] {
      assert a + b == b;
    } else {
      assert (a + b)[1..] == a[1..] + b;
      WithinAppend(a[1..], b, scope);
    }
  }

  lemma {:induction false} WithinAll(cs: seq<Comp>)
    ensures Within(cs, None) == cs
  {
    if cs != [] {
      WithinAll(cs[1..]);
    }
  }

  /** The entries from a place on tell these components, from the first on, one after the other, in this pass. */
  predicate Tells(t: Record, from: nat, cs: seq<Comp>, pass: nat) {
    from <= |t| <= from + |cs|
    && forall j | from <= j < |t| :: t[j].StopCalled? && t[j].c == cs[j - from] && t[j].pass == pass
  }

  lemma {:induction false} StageTells(w: World, t: Record, comps: seq<Comp>, s: nat, pass: nat,
                                      scope: Option<set<Comp>>, first: Reply)
    ensures var (u, r) := StopStage(w, t, comps, s, pass, scope, first);
            && t <= u && Tells(u, |t|, Within(comps, scope), pass)
            && (r == Fine ==> |u| == |t| + |Within(comps, scope)|)
    decreases |comps|
  {
    if comps != [] {
      if !InScope(comps[0], scope) {
        StageTells(w, t, comps[1..], s, pass, scope, first);
      } else {
        hide Within, InScope;
        WithinNext(comps, scope);
        var r := w(|t|);
        var v := t + [StopCalled(comps[0], s, pass, r)];
        assert v[|t|].c == comps[0];
        if r != Fatal {
          var next := if first == Fine then r else first;
          StageTells(w, v, comps[1..], s, pass, scope, next);
          assert StopStage(w, v, comps[1..], s, pass, scope, next).0[|t|] == v[|t|];
        }
      }
    }
  }

  lemma WithinNext(cs: seq<Comp>, scope: Option<set<Comp>>)
    requires cs != [] && InScope(cs[0], scope)
    ensures Within(cs, scope) == [cs[0]] + Within(cs[1..], scope)
  {
  }

  lemma TellsJoin(a: Record, u: Record, from: nat, cs: seq<Comp>, ds: seq<Comp>, pass: nat)
    requires a <= u && Tells(a, from, cs, pass) && |a| == from + |cs| && Tells(u, |a|, ds, pass)
    ensures Tells(u, from, cs + ds, pass)
  {
    assert forall j | from <= j < |a| :: u[j] == a[j];
  }

  lemma TellsMore(u: Record, from: nat, cs: seq<Comp>, ds: seq<Comp>, pass: nat)
    requires Tells(u, from, cs, pass)
    ensures Tells(u, from, cs + ds, pass)
  {
  }

  /** A pass tells the components in its scope, in the order of a stop: all of them and then the engine when it ends
      well, else a first part of them. */
  lemma PassTells(w: World, t: Record, rt: Container, scope: Option<set<Comp>>)
    ensures var (u, r) := StopPass(w, t, Stages(rt), scope);
            var order := Within(StopOrder(rt), scope);
            && t + [PassBegan(scope)] <= u
            && (r == Fine ==>
                  && |u| == |t| + 1 + |order| + 1 && u[|u| - 1] == Disposed(|t|)
                  && Tells(u[..|u| - 1], |t| + 1, order, |t|))
            && (r != Fine ==> Tells(u, |t| + 1, order, |t|))
  {
    hide StopStage, StopStages, Within, Tells, StopOrder, Stages;
    var stages := Stages(rt);
    StagesAre(rt);
    var began := t + [PassBegan(scope)];
    var pass := |t|;
    ThreeStages(w, began, stages, pass, scope);
    var x, y, z := Within(stages[0], scope), Within(stages[1], scope), Within(stages[2], scope);
    WithinAppend(stages[0] + stages[1], stages[2], scope);
    WithinAppend(stages[0], stages[1], scope);
    assert x + y + z == Within(StopOrder(rt), scope);
    var (a, ra) := StopStage(w, began, stages[0], 0, pass, scope, Fine);
    StageTells(w, began, stages[0], 0, pass, scope, Fine);
    TellsMore(a, |began|, x, y, pass);
    TellsMore(a, |began|, x + y, z, pass);
    if ra == Fine {
      var (b, rb) := StopStage(w, a, stages[1], 1, pass, scope, Fine);
      StageTells(w, a, stages[1], 1, pass, scope, Fine);
      TellsJoin(a, b, |began|, x, y, pass);
      TellsMore(b, |began|, x + y, z, pass);
      if rb == Fine {
        var (c, rc) := StopStage(w, b, stages[2], 2, pass, scope, Fine);
        StageTells(w, b, stages[2], 2, pass, scope, Fine);
        TellsJoin(b, c, |began|, x + y, z, pass);
        assert (c + [Disposed(pass)])[..|c|] == c;
      }
    }
  }

  /** A stage reports the fatal exception that ended it, else an ordinary error if there was one. */
  lemma {:induction false} StageReports(w: World, t: Record, comps: seq<Comp>, s: nat, pass: nat,
                                        scope: Option<set<Comp>>, first: Reply)
    requires first != Fatal
    ensures var (u, r) := StopStage(w, t, comps, s, pass, scope, first);
            && t <= u
            && (r == Fatal <==> |t| < |u| && Answer(u, |u| - 1) == Fatal)
            && (forall j | |t| <= j < |u| - 1 :: Answer(u, j) != Fatal)
            && (r == Error <==> r != Fatal && (first == Error || exists j | |t| <= j < |u| :: Answer(u, j) == Error))
    decreases |comps|
  {
    if comps != [] {
      if !InScope(comps[0], scope) {
        StageReports(w, t, comps[1..], s, pass, scope, first);
      } else {
        var r := w(|t|);
        var v := t + [StopCalled(comps[0], s, pass, r)];
        assert Answer(v, |t|) == r;
        if r != Fatal {
          var next := if first == Fine then r else first;
          StageReports(w, v, comps[1..], s, pass, scope, next);
          var u := StopStage(w, v, comps[1..], s, pass, scope, next).0;
          assert Answer(u, |t|) == r;
        }
      }
    }
  }

  /** What a recorded call answered. */
  function Answer(t: Record, j: nat): Reply
    requires j < |t|
  {
    if t[j].StopCalled? || t[j].Started? || t[j].Prepared? then t[j].r else Fine
  }

  lemma {:induction false} StartReports(w: World, t: Record, order: seq<Comp>)
    ensures var (u, r) := StartFrom(w, t, order);
            t <= u && (r != Fine ==> |t| < |u| && Answer(u, |u| - 1) == r)
    decreases |order|
  {
    if order != [] {
      var e := Started(order[0], w(|t|));
      assert Answer(t + [e], |t|) == e.r;
      if e.r == Fine {
        StartReports(w, t + [e], order[1..]);
      }
    }
  }

  /** A failed start whose rollback went through raises what the failing component raised. */
  lemma FailedStartReports(w: World, rt: Container)
    ensures var (u, r) := StartAll(w, [], rt);
            u != [] && u[|u| - 1].Disposed? ==>
              0 < u[|u| - 1].pass < |u| && r != Fine && r == Answer(u, u[|u| - 1].pass - 1)
  {
    hide StartFrom, StartOrder, Stages, StopPass, Attempted;
    var (t, r) := Starts(w, [], rt);
    if rt.mmapServer.Some? {
      var e := Prepared(rt.mmapServer.value, w(0));
      assert [] + [e] == [e];
      assert Answer([e], 0) == e.r;
      StartReports(w, [e], StartOrder(rt));
    } else {
      StartReports(w, [], StartOrder(rt));
    }
    StartAllIsSound(w, rt);
    if r == Fine {
      assert forall j | 0 <= j < |FullStart(rt)| :: !FullStart(rt)[j].Disposed?;
    } else {
      PassTells(w, t, rt, Some(Attempted(t)));
      PassEnds(w, t, rt, Some(Attempted(t)));
    }
  }

  /** The engine is disposed at the end of a pass exactly when it ends well. */
  lemma PassEnds(w: World, t: Record, rt: Container, scope: Option<set<Comp>>)
    ensures var (u, r) := StopPass(w, t, Stages(rt), scope);
            u != [] && (u[|u| - 1].Disposed? <==> r == Fine)
  {
    hide StopPass, Stages, Within, StopOrder;
    PassTells(w, t, rt, scope);
    var u := StopPass(w, t, Stages(rt), scope).0;
    assert u[|t|] == PassBegan(scope);
  }

  // ----- Consumers outlive their producers -----------------------------------------------------------------------

  /** The pass has stopped this component. */
  predicate StoppedIn(t: Record, c: Comp, pass: nat) {
    exists j | 0 <= j < |t| :: t[j].StopCalled? && t[j].c == c && t[j].pass == pass && t[j].r == Fine
  }

  /** The stages hold just the producers, the gateways and the supervisors. */
  lemma StageRoles(rt: Container, c: Comp)
    ensures |Stages(rt)| == 3
    ensures c in Stages(rt)[0] <==> IsProducer(rt, c)
    ensures c in Stages(rt)[1] <==> IsGateway(rt, c)
    ensures c in Stages(rt)[2] <==> IsSupervisor(rt, c)
  {
    var back := Reversed(rt.tasks);
    var n := |rt.tasks|;
    ReversedAt(rt.tasks);
    GatewaysAt(back);
    SupervisorsAre(back);
    hide Reversed, Gateways, Supervisors;
    if i :| 0 <= i < n && rt.tasks[i].gateway == c {
      assert Gateways(back)[n - 1 - i] == c;
    }
    if c in Gateways(back) {
      var k :| 0 <= k < n && Gateways(back)[k] == c;
      assert rt.tasks[n - 1 - k].gateway == c;
    }
    if i :| 0 <= i < n && (rt.tasks[i].asyncSupervisor == c || rt.tasks[i].syncSupervisor == c) {
      var k := 2 * (n - 1 - i);
      assert StoppedSupervisor(back, k) == rt.tasks[i].asyncSupervisor;
      assert StoppedSupervisor(back, k + 1) == rt.tasks[i].syncSupervisor;
      assert Supervisors(back)[k] == rt.tasks[i].asyncSupervisor;
      assert Supervisors(back)[k + 1] == rt.tasks[i].syncSupervisor;
    }
    if c in Supervisors(back) {
      var k :| 0 <= k < 2 * n && Supervisors(back)[k] == c;
      assert StoppedSupervisor(back, k) == c;
      assert back[k / 2] == rt.tasks[n - 1 - k / 2];
    }
  }

  /** In every run and every pass: a component that is only a supervisor is told to stop only after every gateway and
      every producer in scope has stopped in that pass, and one that is no producer only after every producer has. */
  lemma ConsumersOutlive(w: World, rt: Container, ops: seq<Op>, k: nat, c: Comp)
    requires var t := Run(w, rt, ops).record; k < |t| && t[k].StopCalled? && t[k].pass < |t| && t[t[k].pass].PassBegan?
    requires InScope(c, Run(w, rt, ops).record[Run(w, rt, ops).record[k].pass].scope)
    ensures var t := Run(w, rt, ops).record;
            && (!IsProducer(rt, t[k].c) && IsProducer(rt, c) ==> StoppedIn(t[..k], c, t[k].pass))
            && (!IsProducer(rt, t[k].c) && !IsGateway(rt, t[k].c) && IsGateway(rt, c) ==>
                  StoppedIn(t[..k], c, t[k].pass))
  {
    hide Run, Stages, IsProducer, IsGateway, IsSupervisor;
    var t := Run(w, rt, ops).record;
    RunsAreSound(w, rt, ops);
    StageRoles(rt, c);
    StageRoles(rt, t[k].c);
    assert Legal(Stages(rt), t[..k], t[k]);
    var (s, pass) := (t[k].stage, t[k].pass);
    assert t[..k][pass] == t[pass];
    forall n | 0 <= n < s && c in Stages(rt)[n] ensures StoppedIn(t[..k], c, pass) {
      assert StageStopped(t[..k], Stages(rt)[n], n, pass, t[pass].scope);
      var j :| 0 <= j < k && t[..k][j] == StopCalled(c, n, pass, Fine);
    }
  }

  /** Every stop belongs to a pass that began before it. */
  lemma StopsBelong(w: World, rt: Container, ops: seq<Op>, k: nat)
    requires k < |Run(w, rt, ops).record| && Run(w, rt, ops).record[k].StopCalled?
    ensures var t := Run(w, rt, ops).record;
            t[k].pass < k && t[t[k].pass].PassBegan? && InScope(t[k].c, t[t[k].pass].scope)
  {
    hide Run, Stages;
    var t := Run(w, rt, ops).record;
    RunsAreSound(w, rt, ops);
    assert Legal(Stages(rt), t[..k], t[k]);
  }

  // ----- Nothing starts before what it needs ---------------------------------------------------------------------

  /** The record of a start in which nothing fails. */
  function WholeStart(rt: Container): Record {
    var order := StartList(rt);
    (if rt.mmapServer.Some? then [Prepared(rt.mmapServer.value, Fine)] else [])
    + seq(|order|, i requires 0 <= i < |order| => Started(order[i], Fine))
  }

  predicate IsStart(e: Entry) {
    e.Prepared? || e.Started?
  }

  /** Every preparation and start of a record is the next one of the whole start. */
  predicate StartsFollow(rt: Container, t: Record) {
    forall j | 0 <= j < |t| && IsStart(t[j]) ::
      j < |WholeStart(rt)| && t[..j] == WholeStart(rt)[..j] && Alike(t[j], WholeStart(rt)[j])
  }

  predicate Alike(e: Entry, f: Entry) {
    (e.Prepared? && f.Prepared? && e.c == f.c) || (e.Started? && f.Started? && e.c == f.c)
  }

  lemma {:induction false} StartFollows(w: World, t: Record, order: seq<Comp>, rt: Container)
    requires StartsFollow(rt, t) && WholeStart(rt) == t + AllStarted(order)
    ensures var (u, r) := StartFrom(w, t, order);
            && StartsFollow(rt, u) && (r == Fine ==> u == WholeStart(rt))
    decreases |order|
  {
    hide WholeStart;
    if order == [] {
      assert t + AllStarted(order) == t;
    } else {
      var e := Started(order[0], w(|t|));
      var u := t + [e];
      assert WholeStart(rt)[..|t|] == t && WholeStart(rt)[|t|] == Started(order[0], Fine);
      OneMoreFollows(rt, t, e);
      if e.r == Fine {
        assert AllStarted(order) == [e] + AllStarted(order[1..]);
        assert WholeStart(rt) == u + AllStarted(order[1..]);
        StartFollows(w, u, order[1..], rt);
      }
    }
  }

  lemma OneMoreFollows(rt: Container, t: Record, e: Entry)
    requires StartsFollow(rt, t)
    requires IsStart(e) ==> |t| < |WholeStart(rt)| && t == WholeStart(rt)[..|t|] && Alike(e, WholeStart(rt)[|t|])
    ensures StartsFollow(rt, t + [e])
  {
    hide WholeStart, Alike;
    var u := t + [e];
    forall j | 0 <= j < |u| && IsStart(u[j])
      ensures j < |WholeStart(rt)| && u[..j] == WholeStart(rt)[..j] && Alike(u[j], WholeStart(rt)[j])
    {
      if j < |t| {
        assert u[..j] == t[..j];
      } else {
        assert u[..j] == t;
      }
    }
  }

  /** What a pass adds is no start. */
  lemma PassFollows(rt: Container, t: Record, u: Record, scope: Option<set<Comp>>)
    requires StartsFollow(rt, t) && t + [PassBegan(scope)] <= u && Sound(Stages(rt), u)
    ensures StartsFollow(rt, u)
  {
    hide WholeStart, Stages, Alike;
    assert u[|t|] == PassBegan(scope);
    forall j | 0 <= j < |u| && IsStart(u[j])
      ensures j < |WholeStart(rt)| && u[..j] == WholeStart(rt)[..j] && Alike(u[j], WholeStart(rt)[j])
    {
      if j > |t| {
        NoStartAfter(Stages(rt), u, |t|, j);
      }
      assert j < |t|;
      assert u[..j] == t[..j] && u[j] == t[j];
    }
  }

  lemma NoStartAfter(stages: seq<seq<Comp>>, t: Record, pass: nat, j: nat)
    requires Sound(stages, t) && pass < j < |t| && t[pass].PassBegan?
    ensures !IsStart(t[j])
  {
    assert Legal(stages, t[..j], t[j]);
    assert t[..j][pass] == t[pass];
  }

  lemma StartAllFollows(w: World, rt: Container)
    ensures StartsFollow(rt, StartAll(w, [], rt).0)
  {
    hide Sound, Stages, StopPass, StartsFollow, StartList, StartOrder;
    StartOrderIs(rt);
    NothingFollows(rt);
    var u := Starts(w, [], rt).0;
    if rt.mmapServer.Some? {
      var e := Prepared(rt.mmapServer.value, w(0));
      assert [] + [e] == [e];
      OneMoreFollows(rt, [], e);
      if e.r == Fine {
        StartFollows(w, [e], StartOrder(rt), rt);
      }
    } else {
      assert [] + AllStarted(StartOrder(rt)) == AllStarted(StartOrder(rt));
      StartFollows(w, [], StartOrder(rt), rt);
    }
    StartAllIsSound(w, rt);
    if Starts(w, [], rt).1 != Fine {
      PassTells(w, u, rt, Some(Attempted(u)));
      PassFollows(rt, u, StartAll(w, [], rt).0, Some(Attempted(u)));
    }
  }

  lemma NothingFollows(rt: Container)
    ensures StartsFollow(rt, [])
  {
  }

  /** In every run, whatever is prepared or started is the next component of the whole start, everything before it in
      that order having started: the server is prepared first, a gateway comes after the supervisors of its task, and
      what produces work comes after all tasks. */
  lemma {:induction false} RunsStartInOrder(w: World, rt: Container, ops: seq<Op>)
    ensures StartsFollow(rt, Run(w, rt, ops).record)
    decreases |ops|
  {
    hide Sound, Stages, StartsFollow, StartAll, StopPass;
    if ops == [] {
      NothingFollows(rt);
    } else {
      var d := Run(w, rt, ops[..|ops| - 1]);
      RunsStartInOrder(w, rt, ops[..|ops| - 1]);
      RunsAreSound(w, rt, ops[..|ops| - 1]);
      RunsAreSound(w, rt, ops);
      StartAllFollows(w, rt);
      PassTells(w, d.record, rt, None);
      if ops[|ops| - 1] == Stop && L.EnterStop(d.life, true).1 == L.Run {
        PassFollows(rt, d.record, Run(w, rt, ops).record, None);
      }
    }
  }

  // ----- What a call does, told from the record ------------------------------------------------------------------

  /** A stop of the whole container has ended well. */
  predicate Ended(t: Record) {
    exists j: nat | j < |t| :: t[j] == PassBegan(None) && Disposed(j) in t
  }

  /** Something has begun to stop: the container, or what a failed start had tried. */
  predicate Stopping(t: Record) {
    exists j: nat | j < |t| :: t[j].PassBegan?
  }

  lemma PassAdds(w: World, t: Record, rt: Container, scope: Option<set<Comp>>)
    ensures var (u, r) := StopPass(w, t, Stages(rt), scope);
            && t + [PassBegan(scope)] <= u
            && (forall j: nat | |t| < j < |u| ::
                  u[j].StopCalled? || (r == Fine && j == |u| - 1 && u[j] == Disposed(|t|)))
            && (r == Fine ==> |u| > |t| + 1 && u[|u| - 1] == Disposed(|t|))
  {
    hide StopPass, Stages, Within, StopOrder;
    PassTells(w, t, rt, scope);
    var (u, r) := StopPass(w, t, Stages(rt), scope);
    forall j: nat | |t| < j < |u| ensures u[j].StopCalled? || (r == Fine && j == |u| - 1 && u[j] == Disposed(|t|)) {
      if r == Fine && j < |u| - 1 {
        assert u[..|u| - 1][j] == u[j];
      }
    }
  }

  lemma PassLeaves(w: World, t: Record, rt: Container, scope: Option<set<Comp>>)
    requires !Ended(t) && forall j: nat | j < |t| && t[j].Disposed? :: t[j].pass < |t|
    ensures var (u, r) := StopPass(w, t, Stages(rt), scope);
            && Stopping(u) && (Ended(u) <==> scope.None? && r == Fine)
            && forall j: nat | j < |u| && u[j].Disposed? :: u[j].pass < |u|
  {
    hide StopPass, Stages;
    PassAdds(w, t, rt, scope);
    var (u, r) := StopPass(w, t, Stages(rt), scope);
    assert u[|t|] == PassBegan(scope);
    if Ended(u) {
      var j: nat :| j < |u| && u[j] == PassBegan(None) && Disposed(j) in u;
      var i: nat :| i < |u| && u[i] == Disposed(j);
      assert !(j < |t| && i < |t|);
    }
    if scope.None? && r == Fine {
      assert u[|u| - 1] == Disposed(|t|);
    }
  }

  lemma {:induction false} StartFromAdds(w: World, t: Record, order: seq<Comp>)
    ensures var u := StartFrom(w, t, order).0; t <= u && forall j: nat | |t| <= j < |u| :: u[j].Started?
    ensures order != [] ==> |StartFrom(w, t, order).0| > |t|
    decreases |order|
  {
    if order != [] {
      var r := w(|t|);
      var u := t + [Started(order[0], r)];
      if r == Fine {
        StartFromAdds(w, u, order[1..]);
        var v := StartFrom(w, u, order[1..]).0;
        assert v[|t|] == u[|t|];
      }
    }
  }

  lemma StartLeaves(w: World, rt: Container)
    ensures var (u, r) := StartAll(w, [], rt);
            && u != [] && !Ended(u) && (Stopping(u) <==> r != Fine)
            && forall j: nat | j < |u| && u[j].Disposed? :: u[j].pass < |u|
  {
    hide StopPass, Stages, StartOrder, StartFrom, Attempted;
    StartOrderIs(rt);
    var t := Starts(w, [], rt).0;
    if rt.mmapServer.Some? {
      var e := Prepared(rt.mmapServer.value, w(0));
      assert [] + [e] == [e];
      StartFromAdds(w, [e], StartOrder(rt));
    } else {
      StartFromAdds(w, [], StartOrder(rt));
    }
    assert t != [] && forall j: nat | j < |t| :: IsStart(t[j]);
    assert StartAll(w, [], rt).1 == Fine ==> StartAll(w, [], rt).0 == t;
    if Starts(w, [], rt).1 != Fine {
      PassLeaves(w, t, rt, Some(Attempted(t)));
    }
  }

  /** The phase of the container is what its record says. */
  predicate Phased(d: Daemon) {
    && (d.life.phase == L.New <==> d.record == [])
    && (d.life.phase == L.Running <==> d.record != [] && !Stopping(d.record))
    && (d.life.phase == L.Stopped <==> Ended(d.record))
    && !d.life.drained && d.life.phase in {L.New, L.Running, L.StopPending, L.Stopped}
    && forall j: nat | j < |d.record| && d.record[j].Disposed? :: d.record[j].pass < |d.record|
  }

  /** A stop does nothing once a stop has ended well, and otherwise runs a pass over everything, which is the last one
      exactly when it ends well. A start runs on an empty record only; later it does nothing, and is an error once
      something has begun to stop. */
  predicate Answers(t: Record, op: Op, u: Record, r: Reply) {
    match op
    case Stop =>
      if Ended(t) then u == t && r == Fine
      else t + [PassBegan(None)] <= u && (Ended(u) <==> r == Fine)
    case Start =>
      if t == [] then u != [] && !Ended(u) && (Stopping(u) <==> r != Fine)
      else u == t && r == if Stopping(t) then Error else Fine
  }

  lemma StepAnswers(w: World, rt: Container, d: Daemon, op: Op)
    requires Phased(d)
    ensures Phased(Step(w, rt, d, op).0) && Answers(d.record, op, Step(w, rt, d, op).0.record, Step(w, rt, d, op).1)
  {
    hide StopPass, StartAll, Ended, Stopping, Stages;
    StartLeaves(w, rt);
    if !Ended(d.record) {
      PassLeaves(w, d.record, rt, None);
      PassAdds(w, d.record, rt, None);
    }
  }

  /** In every run every call answers so. */
  lemma {:induction false} RunsAnswer(w: World, rt: Container, ops: seq<Op>, op: Op)
    ensures var d := Run(w, rt, ops);
            var (next, r) := Step(w, rt, d, op);
            Phased(d) && Answers(d.record, op, next.record, r)
    decreases |ops|
  {
    hide Step, Phased, Answers;
    if ops == [] {
      NothingPhased();
    } else {
      RunsAnswer(w, rt, ops[..|ops| - 1], ops[|ops| - 1]);
      StepAnswers(w, rt, Run(w, rt, ops[..|ops| - 1]), ops[|ops| - 1]);
    }
    StepAnswers(w, rt, Run(w, rt, ops), op);
  }

  lemma NothingPhased()
    ensures Phased(Daemon(L.INITIAL, []))
  {
  }
}
