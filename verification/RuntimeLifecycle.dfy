/**
 The start/stop automaton that guards one container of resources. Entering decides whether the body runs,
 leaving commits the phase; the lock makes each enter/body/leave one step, and bodies do not nest.
 */
module RuntimeLifecycle {

  datatype Phase = New | Starting | Running | StopPending | Stopping | Drained | Stopped

  datatype Admission = Run | Skip | Refuse

  datatype State = State(phase: Phase, drained: bool)

  const INITIAL := State(New, false)

  // ----- The automaton ------------------------------------------------------------------------------

  function EnterStart(s: State): (State, Admission) {
    if s.phase == Running then (s, Skip)
    else if s.phase != New then (s, Refuse)
    else (s.(phase := Starting), Run)
  }

  function LeaveStart(s: State, succeeded: bool): State {
    s.(phase := if succeeded then Running else StopPending)
  }

  function EnterStop(s: State, final: bool): (State, Admission) {
    if s.phase == Stopped || (!final && s.drained) then (s, Skip)
    else (s.(phase := Stopping), Run)
  }

  function LeaveStop(s: State, final: bool, succeeded: bool): State {
    if !succeeded then s.(phase := StopPending)
    else State(if final then Stopped else Drained, s.drained || !final)
  }

  /** One use of a context manager, with the outcome its body has if it runs. */
  datatype Call = Start(succeeds: bool) | Stop(final: bool, succeeds: bool)

  /** A body that ran. */
  datatype Body = StartBody(ok: bool) | DrainBody(ok: bool) | FinalBody(ok: bool)

  datatype Life = Life(state: State, bodies: seq<Body>)

  function Use(l: Life, c: Call): Life {
    match c
    case Start(ok) =>
      var (s, a) := EnterStart(l.state);
      if a == Run then Life(LeaveStart(s, ok), l.bodies + [StartBody(ok)]) else Life(s, l.bodies)
    case Stop(final, ok) =>
      var (s, a) := EnterStop(l.state, final);
      if a == Run then
        Life(LeaveStop(s, final, ok), l.bodies + [if final then FinalBody(ok) else DrainBody(ok)])
      else Life(s, l.bodies)
  }

  function Lives(calls: seq<Call>): Life {
    if calls == [] then Life(INITIAL, []) else Use(Lives(calls[..|calls| - 1]), calls[|calls| - 1])
  }

  // ----- Which bodies ever run ------------------------------------------------------------------------

  /** The start body runs at most once and before everything else, a completed drain is never run again,
      and nothing runs after a completed final stop. */
  predicate Orderly(bodies: seq<Body>) {
    && (forall i | 0 <= i < |bodies| :: bodies[i].StartBody? ==> i == 0)
    && (forall i, j | 0 <= i < j < |bodies| :: bodies[i] == DrainBody(true) ==> !bodies[j].DrainBody?)
    && (forall i | 0 <= i < |bodies| :: bodies[i] == FinalBody(true) ==> i == |bodies| - 1)
  }

  /** The state is a function of the bodies that ran: running means nothing but one successful start. */
  function StateOf(bodies: seq<Body>): State {
    var drained := DrainBody(true) in bodies;
    if bodies == [] then State(New, false)
    else
      match bodies[|bodies| - 1]
      case StartBody(ok) => State(if ok then Running else StopPending, drained)
      case DrainBody(ok) => State(if ok then Drained else StopPending, drained)
      case FinalBody(ok) => State(if ok then Stopped else StopPending, drained)
  }

  lemma UseIsOrderly(l: Life, c: Call)
    requires Orderly(l.bodies) && l.state == StateOf(l.bodies)
    ensures Orderly(Use(l, c).bodies) && Use(l, c).state == StateOf(Use(l, c).bodies)
    ensures l.bodies <= Use(l, c).bodies
  {
    var after := Use(l, c).bodies;
    if after != l.bodies {
      var b := after[|after| - 1];
      assert after == l.bodies + [b];
      assert DrainBody(true) in after <==> DrainBody(true) in l.bodies || b == DrainBody(true);
      if b.StartBody? {
        assert l.bodies == [];
      }
      if l.bodies != [] {
        assert l.bodies[|l.bodies| - 1] != FinalBody(true);
      }
    }
  }

  /** Over every sequence of calls and body outcomes. */
  lemma {:induction false} LivesAreOrderly(calls: seq<Call>)
    ensures Orderly(Lives(calls).bodies) && Lives(calls).state == StateOf(Lives(calls).bodies)
  {
    if calls != [] {
      LivesAreOrderly(calls[..|calls| - 1]);
      UseIsOrderly(Lives(calls[..|calls| - 1]), calls[|calls| - 1]);
    }
  }

  function CallFor(b: Body): Call {
    match b
    case StartBody(ok) => Start(ok)
    case DrainBody(ok) => Stop(false, ok)
    case FinalBody(ok) => Stop(true, ok)
  }

  function CallsFor(bodies: seq<Body>): seq<Call> {
    seq(|bodies|, i requires 0 <= i < |bodies| => CallFor(bodies[i]))
  }

  /** The call for the last body of an orderly sequence is let in after the bodies before it. */
  lemma NextBodyRuns(before: seq<Body>, b: Body)
    requires Orderly(before + [b])
    ensures Use(Life(StateOf(before), before), CallFor(b)).bodies == before + [b]
  {
    var bodies := before + [b];
    var n := |before|;
    assert bodies[n] == b;
    if n > 0 {
      assert bodies[n - 1] == before[n - 1];
      assert before[n - 1] != FinalBody(true);
    }
    assert forall i | 0 <= i < n :: bodies[i] == before[i];
    assert b.DrainBody? ==> DrainBody(true) !in before;
  }

  lemma PrefixIsOrderly(before: seq<Body>, b: Body)
    requires Orderly(before + [b])
    ensures Orderly(before)
  {
    var bodies := before + [b];
    forall i | 0 <= i < |before| ensures before[i].StartBody? ==> i == 0 {
      assert bodies[i] == before[i];
    }
    forall i, j | 0 <= i < j < |before| ensures before[i] == DrainBody(true) ==> !before[j].DrainBody? {
      assert bodies[i] == before[i] && bodies[j] == before[j];
    }
    forall i | 0 <= i < |before| ensures before[i] == FinalBody(true) ==> i == |before| - 1 {
      assert bodies[i] == before[i];
    }
  }

  /** Conversely every orderly sequence of bodies can happen. */
  lemma {:induction false} OrderlyHappens(bodies: seq<Body>)
    requires Orderly(bodies)
    ensures Lives(CallsFor(bodies)).bodies == bodies
  {
    hide Orderly, StateOf;
    if bodies != [] {
      var n := |bodies| - 1;
      var before := bodies[..n];
      assert bodies == before + [bodies[n]];
      PrefixIsOrderly(before, bodies[n]);
      OrderlyHappens(before);
      NextBodyRuns(before, bodies[n]);
      var calls := CallsFor(bodies);
      assert calls[..n] == CallsFor(before);
      LivesAreOrderly(calls[..n]);
      assert Lives(calls[..n]) == Life(StateOf(before), before);
    }
  }

  lemma OrderlyIsExact(bodies: seq<Body>)
    ensures (exists calls :: Lives(calls).bodies == bodies) <==> Orderly(bodies)
  {
    if Orderly(bodies) {
      OrderlyHappens(bodies);
    } else {
      forall calls ensures Lives(calls).bodies != bodies {
        LivesAreOrderly(calls);
      }
    }
  }

  /** Stopped absorbs: no later call changes the state or runs a body. */
  lemma {:induction false} StoppedAbsorbs(calls: seq<Call>, more: seq<Call>)
    requires Lives(calls).state.phase == Stopped
    ensures Lives(calls + more) == Lives(calls)
  {
    if more == [] {
      assert calls + more == calls;
    } else {
      var n := |more| - 1;
      assert (calls + more)[..|calls + more| - 1] == calls + more[..n];
      StoppedAbsorbs(calls, more[..n]);
    }
  }

  // ----- The object ----------------------------------------------------------------------------------

  class Guard {
    var phase: Phase
    var drained: bool

    function View(): State
      reads this
    {
      State(phase, drained)
    }

    constructor ()
      ensures View() == INITIAL
    {
      phase, drained := New, false;
    }

    method EnterStarting() returns (a: Admission)
      modifies this
      ensures (View(), a) == EnterStart(old(View()))
    {
      if phase == Running {
        return Skip;
      }
      if phase != New {
        return Refuse;
      }
      phase := Starting;
      a := Run;
    }

    method LeaveStarting(succeeded: bool)
      modifies this
      ensures View() == LeaveStart(old(View()), succeeded)
    {
      phase := if succeeded then Running else StopPending;
    }

    method EnterStopping(final: bool) returns (a: Admission)
      modifies this
      ensures (View(), a) == EnterStop(old(View()), final)
    {
      if phase == Stopped || (!final && drained) {
        return Skip;
      }
      phase := Stopping;
      a := Run;
    }

    method LeaveStopping(final: bool, succeeded: bool)
      modifies this
      ensures View() == LeaveStop(old(View()), final, succeeded)
    {
      if !succeeded {
        phase := StopPending;
        return;
      }
      if !final {
        drained := true;
      }
      phase := if final then Stopped else Drained;
    }
  }
}
