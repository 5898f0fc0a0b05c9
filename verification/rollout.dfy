/**
 OrderedRollout: deploy the components one after the other, health-check each right
 after its deploy, and after any failed step roll back the components completed so
 far together with the current one.

 The Go loop is modelled as a state machine: `Step` is one pass of the loop body and
 `Iterate(k)` the state after k passes, where an early `return` freezes the state.
 */
module Rollout {
  import opened Trace
  import opened Rollback

  /** A component as the core sees it. Its Rollout(), Healthcheck() and Rollback()
      replies come from the environment; only Name() is a plain value. */
  datatype Component = Component(name: string)

  /** The only error OrderedRollout returns: the text of a failed rollback, and the
      name of the component the loop was processing when it failed. */
  datatype ErrComponent = ErrComponent(message: string, componentName: string) {
    function Error(): string {
      message
    }
  }

  /** The list handed to RollbackComponents after component `c` failed: the
      `len == 0` branch builds [c], the other branch appends `c` to `completed`. */
  function RollbackList(completed: seq<nat>, c: nat): (r: seq<nat>)
    ensures r == completed + [c]
  {
    if |completed| == 0 then [c] else completed + [c]
  }

  /**
   What follows a Rollout() or Healthcheck() call on component `c` that replied
   `reply`: nothing when it is nil. Otherwise the completed components and then `c`
   are rolled back, in that order, stopping at the first failed Rollback(); the loop
   goes on when every one of them succeeded, and otherwise gets an error carrying the
   failed rollback's text and `c`'s name.
   */
  function OnFailure(env: Env, start: nat, completed: seq<nat>, c: nat, name: string,
                     reply: Option<Error>): (r: Run<ErrComponent>)
    ensures reply.None? ==> r == Run(None, [])
    ensures |r.events| <= |completed| + 1
    ensures forall k :: 0 <= k < |r.events| ==> r.events[k].call == Call(Rollback, (completed + [c])[k])
    ensures Consistent(env, start, r.events)
    ensures r.err.None? ==> AllSucceeded(r.events)
    ensures reply.Some? && r.err.None? ==> |r.events| == |completed| + 1
    ensures r.err.Some? ==>
              && reply.Some?
              && |r.events| > 0
              && r.events[|r.events| - 1].reply == Some(Error(r.err.value.message))
              && AllSucceeded(r.events[..|r.events| - 1])
              && r.err.value.componentName == name
  {
    if reply.None? then Run(None, [])
    else
      var rb := RollbackComponents(env, start, RollbackList(completed, c));
      match rb.err
      case None => Run(None, rb.events)
      case Some(e) => Run(Some(ErrComponent(e.text, name)), rb.events)
  }

  /**
   One fallible call and what follows it: `op` (Rollout or Healthcheck) on component
   `c` as call number `start` of the run, then, if it failed, the rollback pass of
   OnFailure. The events start with the call itself.
   */
  function Attempt(env: Env, start: nat, completed: seq<nat>, c: nat, name: string, op: Op): (r: Run<ErrComponent>)
    ensures |r.events| > 0 && r.events[0].call == Call(op, c)
  {
    var e := Event(Call(op, c), env(start, Call(op, c)));
    var o := OnFailure(env, start + 1, completed, c, name, e.reply);
    Run(o.err, [e] + o.events)
  }

  /** The loop's variables: the next position, the completed list, the events so far,
      and the error once the loop has returned early. */
  datatype State = State(next: nat, completed: seq<nat>, events: seq<Event>, result: Option<ErrComponent>)

  const Start: State := State(0, [], [], None)

  /** The loop has stopped: it returned an error or ran out of components. */
  predicate Finished(comps: seq<Component>, s: State) {
    s.result.Some? || s.next >= |comps|
  }

  /** `op` on the component being processed, and its failure handling: the events are
      added to the run and an error from the rollback ends the loop. */
  function Phase(env: Env, comps: seq<Component>, s: State, op: Op): (t: State)
    requires s.next < |comps|
    ensures t.next == s.next && t.completed == s.completed
    ensures |t.events| > |s.events|
  {
    var a := Attempt(env, |s.events|, s.completed, s.next, comps[s.next].name, op);
    s.(events := s.events + a.events, result := a.err)
  }

  /**
   One pass of the loop body for component `s.next`: deploy and handle a failure;
   health-check (also after a deploy failure whose rollback succeeded) and handle a
   failure; then append the component to the completed list.
   */
  function Step(env: Env, comps: seq<Component>, s: State): (t: State)
    requires s.next < |comps|
    ensures t.result.None? ==> t.next == s.next + 1 && t.completed == s.completed + [s.next]
    ensures t.result.Some? ==> t.next == s.next && t.completed == s.completed
  {
    var deployed := Phase(env, comps, s, Rollout);
    if deployed.result.Some? then deployed
    else
      var checked := Phase(env, comps, deployed, Healthcheck);
      if checked.result.Some? then checked
      else checked.(next := checked.next + 1, completed := checked.completed + [checked.next])
  }

  /** The loop's state after `k` passes, fewer if it returned early. While the loop
      runs, pass k processes component k. */
  function Iterate(env: Env, comps: seq<Component>, k: nat): (s: State)
    ensures s.next <= |comps|
    ensures s.result.None? ==> s.next == Min(k, |comps|)
    ensures s.result.Some? ==> s.next < Min(k, |comps|)
  {
    if k == 0 then Start
    else
      var p := Iterate(env, comps, k - 1);
      if Finished(comps, p) then p else Step(env, comps, p)
  }

  /** The whole call: the error returned (None for nil) and every call made on a component. */
  function OrderedRollout(env: Env, comps: seq<Component>): (r: Run<ErrComponent>)
    ensures |comps| == 0 ==> r == Run(None, [])
  {
    var s := Iterate(env, comps, |comps|);
    Run(s.result, s.events)
  }
}
