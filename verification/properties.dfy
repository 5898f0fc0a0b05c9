/**
 What OrderedRollout guarantees about the calls it makes and the error it returns.

 The central fact is the loop invariant `Inv`: when the loop is about to process
 component i, the completed list is exactly the positions 0..i-1, and the events so
 far are the replies of the environment. Every other property follows from it.
 */
module RolloutProperties {
  import opened Trace
  import opened Rollback
  import opened Rollout

  /** The loop returned early: the last event is the Rollback() that failed, every
      earlier rollback succeeded, and the error names the component being processed. */
  ghost predicate Returned(comps: seq<Component>, s: State) {
    && s.result.Some?
    && s.next < |comps|
    && Within(s.events, s.next + 1)
    && Invoked(s.events, Call(Rollout, s.next))
    && |s.events| > 0
    && s.events[|s.events| - 1].call.op == Rollback
    && s.events[|s.events| - 1].reply == Some(Error(s.result.value.message))
    && RollbacksSucceeded(s.events[..|s.events| - 1])
    && s.result.value.componentName == comps[s.next].name
  }

  /** The loop invariant of OrderedRollout. */
  ghost predicate Inv(env: Env, comps: seq<Component>, s: State) {
    && s.next <= |comps|
    && s.completed == Range(s.next)
    && Consistent(env, 0, s.events)
    && Progress(s.events, s.next)
    && (s.result.None? ==> Within(s.events, s.next) && RollbacksSucceeded(s.events))
    && (s.result.Some? ==> Returned(comps, s))
  }

  /** The events of one Rollout() or Healthcheck() call followed by its failure handling
      are the environment's replies. */
  lemma PhaseConsistent(env: Env, past: seq<Event>, e: Event, events: seq<Event>)
    requires Consistent(env, 0, past)
    requires e.reply == env(|past|, e.call)
    requires Consistent(env, |past| + 1, events)
    ensures Consistent(env, 0, past + [e] + events)
  {
    ConsistentAppend(env, 0, past, [e]);
    ConsistentAppend(env, 0, past + [e], events);
  }

  /** Failure handling for component i only rolls back components 0..i. */
  lemma PhaseWithin(env: Env, past: seq<Event>, e: Event, i: nat, name: string, o: Run<ErrComponent>)
    requires Within(past, i + 1) && e.call.component == i
    requires o == OnFailure(env, |past| + 1, Range(i), i, name, e.reply)
    ensures Within(past + [e] + o.events, i + 1)
  {
    assert Within([e], i + 1);
    assert Within(o.events, i + 1) by {
      forall k | 0 <= k < |o.events|
        ensures o.events[k].call.component < i + 1
      {
        assert o.events[k].call == Call(Rollback, (Range(i) + [i])[k]);
      }
    }
    WithinAppend(past, [e], i + 1);
    WithinAppend(past + [e], o.events, i + 1);
  }

  lemma PhaseRollbacks(past: seq<Event>, e: Event, events: seq<Event>)
    requires RollbacksSucceeded(past) && e.call.op != Rollback
    requires AllSucceeded(events)
    ensures RollbacksSucceeded(past + [e] + events)
  {
    assert RollbacksSucceeded([e]);
    RollbacksAppend(past, [e]);
    RollbacksAppend(past + [e], events);
  }

  lemma PhaseReturned(past: seq<Event>, e: Event, events: seq<Event>)
    requires RollbacksSucceeded(past) && e.call.op != Rollback
    requires |events| > 0 && AllSucceeded(events[..|events| - 1])
    requires events[|events| - 1].call.op == Rollback
    ensures var after := past + [e] + events;
            && after[|after| - 1] == events[|events| - 1]
            && after[|after| - 1].call.op == Rollback
            && RollbacksSucceeded(after[..|after| - 1])
  {
    var n := |events|;
    var after := past + [e] + events;
    assert RollbacksSucceeded([e]);
    RollbacksAppend(past, [e]);
    assert after[..|after| - 1] == past + [e] + events[..n - 1];
    RollbacksAppend(past + [e], events[..n - 1]);
  }

  /** Components 0..i-1 were already deployed and checked before `e` and `extra` happened. */
  lemma InvokedKept(events: seq<Event>, e: Event, extra: seq<Event>, i: nat)
    requires forall j :: 0 <= j < i ==> Invoked(events, Call(Rollout, j))
    requires forall j :: 0 <= j < i ==> Invoked(events, Call(Healthcheck, j))
    ensures forall j :: 0 <= j < i ==> Invoked(events + [e] + extra, Call(Rollout, j))
    ensures forall j :: 0 <= j < i ==> Invoked(events + [e] + extra, Call(Healthcheck, j))
    ensures Invoked(events + [e] + extra, e.call)
  {
    assert events + [e] + extra == events + ([e] + extra);
    forall j | 0 <= j < i
      ensures Invoked(events + [e] + extra, Call(Rollout, j))
      ensures Invoked(events + [e] + extra, Call(Healthcheck, j))
    {
      InvokedAppend(events, [e] + extra, Call(Rollout, j));
      InvokedAppend(events, [e] + extra, Call(Healthcheck, j));
    }
    assert (events + [e] + extra)[|events|] == e;
  }

  /** Components 0..n-1 have been deployed and health-checked in `events`. */
  ghost predicate Progress(events: seq<Event>, n: nat) {
    && (forall j :: 0 <= j < n ==> Invoked(events, Call(Rollout, j)))
    && (forall j :: 0 <= j < n ==> Invoked(events, Call(Healthcheck, j)))
  }

  /** The facts that hold between the phases of one loop pass, before any early return. */
  ghost predicate Between(env: Env, comps: seq<Component>, s: State) {
    && s.next < |comps|
    && s.result.None?
    && s.completed == Range(s.next)
    && Consistent(env, 0, s.events)
    && Within(s.events, s.next + 1)
    && RollbacksSucceeded(s.events)
    && Progress(s.events, s.next)
  }

  /** One Rollout() or Healthcheck() phase keeps the facts about the events and makes its call. */
  lemma PhaseEvents(env: Env, comps: seq<Component>, s: State, op: Op)
    requires Between(env, comps, s) && op != Rollback
    ensures var t := Phase(env, comps, s, op);
            && t == s.(events := t.events, result := t.result)
            && Consistent(env, 0, t.events)
            && Within(t.events, s.next + 1)
            && Progress(t.events, s.next)
            && Invoked(t.events, Call(op, s.next))
            && (forall c :: Invoked(s.events, c) ==> Invoked(t.events, c))
  {
    var i := s.next;
    var past := s.events;
    var name := comps[i].name;
    var e := Event(Call(op, i), env(|past|, Call(op, i)));
    var o := OnFailure(env, |past| + 1, Range(i), i, name, e.reply);
    var t := Phase(env, comps, s, op);
    PhaseShape(env, comps, s, op);
    assert Consistent(env, 0, t.events) by {
      PhaseConsistent(env, past, e, o.events);
    }
    assert Within(t.events, i + 1) by {
      PhaseWithin(env, past, e, i, name, o);
    }
    assert Progress(t.events, i) && Invoked(t.events, Call(op, i)) by {
      InvokedKept(past, e, o.events, i);
    }
    forall c | Invoked(past, c)
      ensures Invoked(t.events, c)
    {
      ConcatAssoc(past, [e], o.events);
      InvokedAppend(past, [e] + o.events, c);
    }
  }

  /** A phase whose rollback (if any) succeeded leaves the loop between phases. */
  lemma PhaseContinues(env: Env, comps: seq<Component>, s: State, op: Op)
    requires Between(env, comps, s) && op != Rollback
    requires Phase(env, comps, s, op).result.None?
    ensures Between(env, comps, Phase(env, comps, s, op))
  {
    var i := s.next;
    var past := s.events;
    var name := comps[i].name;
    var e := Event(Call(op, i), env(|past|, Call(op, i)));
    var o := OnFailure(env, |past| + 1, Range(i), i, name, e.reply);
    var t := Phase(env, comps, s, op);
    PhaseEvents(env, comps, s, op);
    PhaseShape(env, comps, s, op);
    assert RollbacksSucceeded(t.events) by {
      PhaseRollbacks(past, e, o.events);
    }
  }

  /** A phase is its call on the current component followed by that call's failure handling. */
  lemma PhaseShape(env: Env, comps: seq<Component>, s: State, op: Op)
    requires s.next < |comps| && s.completed == Range(s.next)
    ensures var i := s.next;
            var e := Event(Call(op, i), env(|s.events|, Call(op, i)));
            var o := OnFailure(env, |s.events| + 1, Range(i), i, comps[i].name, e.reply);
            var t := Phase(env, comps, s, op);
            && t.events == s.events + [e] + o.events
            && t == s.(events := t.events, result := o.err)
  {
    var i := s.next;
    var past := s.events;
    var name := comps[i].name;
    var e := Event(Call(op, i), env(|past|, Call(op, i)));
    var o := OnFailure(env, |past| + 1, Range(i), i, name, e.reply);
    assert Attempt(env, |past|, Range(i), i, name, op) == Run(o.err, [e] + o.events);
    ConcatAssoc(past, [e], o.events);
  }

  /** A phase whose rollback failed returns early, as `Returned` describes. */
  lemma PhaseStops(env: Env, comps: seq<Component>, s: State, op: Op)
    requires s.next < |comps| && s.completed == Range(s.next) && op != Rollback
    requires Within(s.events, s.next + 1) && RollbacksSucceeded(s.events)
    requires op == Healthcheck ==> Invoked(s.events, Call(Rollout, s.next))
    requires Phase(env, comps, s, op).result.Some?
    ensures Returned(comps, Phase(env, comps, s, op))
  {
    var i := s.next;
    var past := s.events;
    var name := comps[i].name;
    var e := Event(Call(op, i), env(|past|, Call(op, i)));
    var o := OnFailure(env, |past| + 1, Range(i), i, name, e.reply);
    var t := Phase(env, comps, s, op);
    PhaseShape(env, comps, s, op);
    assert Within(t.events, i + 1) by {
      PhaseWithin(env, past, e, i, name, o);
    }
    assert Invoked(t.events, Call(Rollout, i)) by {
      if op == Rollout {
        InvokedKept(past, e, o.events, 0);
      } else {
        ConcatAssoc(past, [e], o.events);
        InvokedAppend(past, [e] + o.events, Call(Rollout, i));
      }
    }
    ReturnedAfter(comps, t, past, e, o.events, o.err.value);
  }

  /** The loop state right after a failed rollback of component t.next's phase. */
  lemma ReturnedAfter(comps: seq<Component>, t: State, past: seq<Event>, e: Event, events: seq<Event>, err: ErrComponent)
    requires t.next < |comps| && t.events == past + [e] + events && t.result == Some(err)
    requires Within(t.events, t.next + 1) && Invoked(t.events, Call(Rollout, t.next))
    requires RollbacksSucceeded(past) && e.call.op != Rollback
    requires |events| > 0 && AllSucceeded(events[..|events| - 1])
    requires events[|events| - 1].call.op == Rollback
    requires events[|events| - 1].reply == Some(Error(err.message))
    requires err.componentName == comps[t.next].name
    ensures Returned(comps, t)
  {
    PhaseReturned(past, e, events);
  }

  /** A pass that returns early from the phase `t` of `s` leaves the invariant holding. */
  lemma StoppedInv(env: Env, comps: seq<Component>, s: State, t: State)
    requires Inv(env, comps, s) && s.result.None? && s.next < |comps|
    requires t.next == s.next && t.completed == s.completed && Consistent(env, 0, t.events)
    requires forall c :: Invoked(s.events, c) ==> Invoked(t.events, c)
    requires Returned(comps, t)
    ensures Inv(env, comps, t)
  {
    forall j | 0 <= j < t.next
      ensures Invoked(t.events, Call(Rollout, j)) && Invoked(t.events, Call(Healthcheck, j))
    {
      assert Invoked(s.events, Call(Rollout, j)) && Invoked(s.events, Call(Healthcheck, j));
    }
  }

  /** A pass whose deploy and check phases both went on, leaving `t`, completes the
      component and keeps the invariant. */
  lemma CompletedInv(env: Env, comps: seq<Component>, s: State, t: State)
    requires Inv(env, comps, s) && s.result.None? && s.next < |comps|
    requires Between(env, comps, t) && t.next == s.next
    requires Invoked(t.events, Call(Rollout, s.next)) && Invoked(t.events, Call(Healthcheck, s.next))
    ensures Inv(env, comps, t.(next := t.next + 1, completed := t.completed + [t.next]))
  {
    var i := s.next;
    assert Range(i + 1) == Range(i) + [i];
  }

  lemma StepPreservesInv(env: Env, comps: seq<Component>, s: State)
    requires Inv(env, comps, s) && s.result.None? && s.next < |comps|
    ensures Inv(env, comps, Step(env, comps, s))
  {
    assert Between(env, comps, s);
    var deployed := Phase(env, comps, s, Rollout);
    PhaseEvents(env, comps, s, Rollout);
    if deployed.result.Some? {
      PhaseStops(env, comps, s, Rollout);
      StoppedInv(env, comps, s, deployed);
    } else {
      PhaseContinues(env, comps, s, Rollout);
      var checked := Phase(env, comps, deployed, Healthcheck);
      PhaseEvents(env, comps, deployed, Healthcheck);
      if checked.result.Some? {
        PhaseStops(env, comps, deployed, Healthcheck);
        StoppedInv(env, comps, s, checked);
      } else {
        PhaseContinues(env, comps, deployed, Healthcheck);
        CompletedInv(env, comps, s, checked);
      }
    }
  }

  lemma StartInv(env: Env, comps: seq<Component>)
    ensures Inv(env, comps, Start)
  {
  }

  /** The loop invariant holds after every number of passes. */
  lemma {:induction false} RolloutInvariant(env: Env, comps: seq<Component>, k: nat)
    ensures Inv(env, comps, Iterate(env, comps, k))
  {
    if k == 0 {
      StartInv(env, comps);
    } else {
      var p := Iterate(env, comps, k - 1);
      RolloutInvariant(env, comps, k - 1);
      if Finished(comps, p) {
        assert Iterate(env, comps, k) == p;
      } else {
        assert Iterate(env, comps, k) == Step(env, comps, p);
        StepPreservesInv(env, comps, p);
      }
    }
  }

  /**
   Every component that finishes its pass is appended to the completed list, whether or
   not its deploy or health check failed: when component i is processed, the completed
   list is exactly the components before it, and the list a failure of component i
   rolls back is components 0..i.
   */
  lemma CompletedIsPrefix(env: Env, comps: seq<Component>, k: nat)
    ensures var s := Iterate(env, comps, k);
            && s.completed == Range(s.next)
            && RollbackList(s.completed, s.next) == Range(s.next + 1)
            && (s.result.None? ==> s.next == Min(k, |comps|))
  {
    RolloutInvariant(env, comps, k);
  }

  /**
   OrderedRollout returns an error exactly when some Rollback() call failed: failed
   deploys and health checks whose rollback succeeded are not reported. No call is
   ever made on a position outside the list, and on a nil result every component
   was deployed and health-checked.
   */
  lemma ReportsOnlyRollbackFailures(env: Env, comps: seq<Component>)
    ensures var r := OrderedRollout(env, comps);
            && Consistent(env, 0, r.events)
            && (r.err.None? <==> RollbacksSucceeded(r.events))
            && Within(r.events, |comps|)
            && (r.err.None? ==> Progress(r.events, |comps|))
  {
    var s := Iterate(env, comps, |comps|);
    RolloutInvariant(env, comps, |comps|);
    if s.result.Some? {
      var last := |s.events| - 1;
      assert s.events[last].call.op == Rollback && s.events[last].reply.Some?;
    }
  }

  /**
   A non-nil result is returned right after the failing Rollback() call: that call is
   the last event, its text is the error's Error() text, and the error names the
   component i the loop was processing. Nothing was ever called on a component after i,
   and the failed rollback may have been that of an earlier component.
   */
  lemma FailureAttribution(env: Env, comps: seq<Component>)
    ensures var r := OrderedRollout(env, comps);
            r.err.Some? ==>
              && |r.events| > 0
              && r.events[|r.events| - 1].call.op == Rollback
              && r.events[|r.events| - 1].reply == Some(Error(r.err.value.Error()))
              && RollbacksSucceeded(r.events[..|r.events| - 1])
              && exists i :: 0 <= i < |comps|
                   && r.err.value.componentName == comps[i].name
                   && Invoked(r.events, Call(Rollout, i))
                   && Within(r.events, i + 1)
  {
    var s := Iterate(env, comps, |comps|);
    RolloutInvariant(env, comps, |comps|);
    if s.result.Some? {
      assert Returned(comps, s);
      var i := s.next;
      assert s.result.value.componentName == comps[i].name;
    }
  }

  /** Every Rollout() and Healthcheck() call succeeds, whatever the Rollback() calls do. */
  ghost predicate DeploysAndChecksSucceed(env: Env) {
    forall n: nat, c: Call :: c.op != Rollback ==> env(n, c).None?
  }

  /** Rollout(c0), Healthcheck(c0), Rollout(c1), Healthcheck(c1), ... for n components, all nil. */
  function HappyTrace(n: nat): (r: seq<Event>)
    ensures |r| == 2 * n
  {
    if n == 0 then []
    else HappyTrace(n - 1) + [Event(Call(Rollout, n - 1), None), Event(Call(Healthcheck, n - 1), None)]
  }

  /** Event k of the happy trace is the deploy (k even) or the check (k odd) of component k / 2. */
  lemma {:induction false} HappyTraceShape(n: nat)
    ensures forall k :: 0 <= k < 2 * n ==>
              HappyTrace(n)[k] == Event(Call(if k % 2 == 0 then Rollout else Healthcheck, k / 2), None)
  {
    if n > 0 {
      HappyTraceShape(n - 1);
      var r := HappyTrace(n);
      forall k | 0 <= k < 2 * n
        ensures r[k] == Event(Call(if k % 2 == 0 then Rollout else Healthcheck, k / 2), None)
      {
        if k < 2 * (n - 1) {
          assert r[k] == HappyTrace(n - 1)[k];
        } else if k == 2 * n - 2 {
          assert k / 2 == n - 1 && k % 2 == 0;
        } else {
          assert k / 2 == n - 1 && k % 2 == 1;
        }
      }
    }
  }

  /** A pass in which neither the deploy nor the health check fails makes exactly those
      two calls and appends the component to the completed list. */
  lemma QuietPass(env: Env, comps: seq<Component>, s: State)
    requires s.next < |comps|
    requires env(|s.events|, Call(Rollout, s.next)).None?
    requires env(|s.events| + 1, Call(Healthcheck, s.next)).None?
    ensures Step(env, comps, s)
         == State(s.next + 1, s.completed + [s.next],
                  s.events + [Event(Call(Rollout, s.next), None), Event(Call(Healthcheck, s.next), None)], None)
  {
    var i := s.next;
    var name := comps[i].name;
    var deploy := Event(Call(Rollout, i), None);
    var check := Event(Call(Healthcheck, i), None);
    assert Attempt(env, |s.events|, s.completed, i, name, Rollout) == Run(None, [deploy]);
    var d := Phase(env, comps, s, Rollout);
    assert d == s.(events := s.events + [deploy], result := None);
    assert Attempt(env, |s.events| + 1, s.completed, i, name, Healthcheck) == Run(None, [check]);
    assert s.events + [deploy] + [check] == s.events + [deploy, check];
  }

  lemma HappyStep(env: Env, comps: seq<Component>, m: nat)
    requires DeploysAndChecksSucceed(env) && m < |comps|
    ensures Step(env, comps, State(m, Range(m), HappyTrace(m), None))
         == State(m + 1, Range(m + 1), HappyTrace(m + 1), None)
  {
    assert env(2 * m, Call(Rollout, m)).None?;
    assert env(2 * m + 1, Call(Healthcheck, m)).None?;
    QuietPass(env, comps, State(m, Range(m), HappyTrace(m), None));
  }

  /** Pass k continues from the state after k - 1 passes, unless the loop has stopped. */
  lemma IterateNext(env: Env, comps: seq<Component>, k: nat, p: State)
    requires k > 0 && Iterate(env, comps, k - 1) == p
    ensures Finished(comps, p) ==> Iterate(env, comps, k) == p
    ensures !Finished(comps, p) ==> Iterate(env, comps, k) == Step(env, comps, p)
  {
  }

  lemma {:induction false} HappyIterate(env: Env, comps: seq<Component>, k: nat)
    requires DeploysAndChecksSucceed(env) && k <= |comps|
    ensures Iterate(env, comps, k) == State(k, Range(k), HappyTrace(k), None)
  {
    if k > 0 {
      var p := State(k - 1, Range(k - 1), HappyTrace(k - 1), None);
      HappyIterate(env, comps, k - 1);
      IterateNext(env, comps, k, p);
      HappyStep(env, comps, k - 1);
    }
  }

  /**
   When every deploy and health check succeeds, OrderedRollout returns nil after calling
   Rollout() and then Healthcheck() on each component, in list order, and never
   Rollback(). An empty list makes no call at all.
   */
  lemma HappyPath(env: Env, comps: seq<Component>)
    requires DeploysAndChecksSucceed(env)
    ensures var r := OrderedRollout(env, comps);
            && r.err.None?
            && |r.events| == 2 * |comps|
            && (forall k :: 0 <= k < |r.events| ==>
                  r.events[k] == Event(Call(if k % 2 == 0 then Rollout else Healthcheck, k / 2), None))
            && (forall k :: 0 <= k < |r.events| ==> r.events[k].call.op != Rollback)
  {
    HappyIterate(env, comps, |comps|);
    HappyTraceShape(|comps|);
  }

  /**
   A failed Rollout() or Healthcheck() of component i rolls back components 0..i in
   that order; the phase ends the loop exactly when that rollback fails, with the
   rollback's text and component i's name.
   */
  lemma FailedPhaseRollsBackPrefix(env: Env, comps: seq<Component>, s: State, op: Op)
    requires s.next < |comps| && s.completed == Range(s.next)
    requires env(|s.events|, Call(op, s.next)).Some?
    ensures var i := s.next;
            var rb := RollbackComponents(env, |s.events| + 1, Range(i + 1));
            var t := Phase(env, comps, s, op);
            && t.events == s.events + [Event(Call(op, i), env(|s.events|, Call(op, i)))] + rb.events
            && (forall j :: 0 <= j < |rb.events| ==> rb.events[j].call == Call(Rollback, j))
            && (t.result.None? <==> rb.err.None?)
            && (rb.err.None? ==> |rb.events| == i + 1)
            && (t.result.Some? ==> t.result.value == ErrComponent(rb.err.value.text, comps[i].name))
  {
    var i := s.next;
    var e := Event(Call(op, i), env(|s.events|, Call(op, i)));
    var rb := RollbackComponents(env, |s.events| + 1, Range(i + 1));
    assert RollbackList(Range(i), i) == Range(i + 1);
    ConcatAssoc(s.events, [e], rb.events);
  }

  /**
   A failed deploy whose rollback succeeded does not stop the loop: Healthcheck() is
   still called on the same component right after the rollback, and if nothing else
   fails the loop moves on to the next component with this one in the completed list.
   */
  lemma DeployFailureFallsThrough(env: Env, comps: seq<Component>, s: State)
    requires s.next < |comps| && s.completed == Range(s.next)
    requires env(|s.events|, Call(Rollout, s.next)).Some?
    requires RollbackComponents(env, |s.events| + 1, Range(s.next + 1)).err.None?
    ensures var i := s.next;
            var d := Phase(env, comps, s, Rollout);
            var t := Step(env, comps, s);
            && d.result.None?
            && |d.events| == |s.events| + i + 2
            && |t.events| > |d.events|
            && t.events[|d.events|].call == Call(Healthcheck, i)
            && (t.result.None? ==> t.next == i + 1 && t.completed == Range(i + 1))
  {
    var i := s.next;
    FailedPhaseRollsBackPrefix(env, comps, s, Rollout);
    var d := Phase(env, comps, s, Rollout);
    var a := Attempt(env, |d.events|, d.completed, i, comps[i].name, Healthcheck);
    assert Step(env, comps, s).events == d.events + a.events;
    assert Range(i + 1) == Range(i) + [i];
  }
}
