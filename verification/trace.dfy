/**
 The vocabulary shared by the rollout and rollback models: the calls the core makes
 on components, the replies it gets, and the environment that supplies those replies.

 The core never looks inside a component. A run is therefore described entirely by
 the sequence of calls it makes and the error (or nil) each call returned. The
 environment decides each reply from the call and its position in the run, so one
 component may answer differently the second time it is asked.
 */
module Trace {

  datatype Option<+T> = None | Some(value: T)

  /** The three fallible operations of the Component interface. */
  datatype Op = Rollout | Healthcheck | Rollback

  /** One invocation of `op` on the component at position `component` of the rollout list. */
  datatype Call = Call(op: Op, component: nat)

  /** A non-nil Go error. The core only ever reads its Error() text. */
  datatype Error = Error(text: string)

  /** A call with the reply it got; `None` stands for a nil error. */
  datatype Event = Event(call: Call, reply: Option<Error>)

  /** The components' behaviour: the reply to a call, given how many calls the run made
      before it. */
  type Env = (nat, Call) -> Option<Error>

  /** The error a (part of a) run returned, if any, and the events it produced. */
  datatype Run<+E> = Run(err: Option<E>, events: seq<Event>)

  /** Every event in `events`, the first of which is call number `start` of the run, got
      the environment's reply. */
  ghost predicate Consistent(env: Env, start: nat, events: seq<Event>) {
    forall k :: 0 <= k < |events| ==> events[k].reply == env(start + k, events[k].call)
  }

  /** Every call in `events` returned nil. */
  ghost predicate AllSucceeded(events: seq<Event>) {
    forall k :: 0 <= k < |events| ==> events[k].reply.None?
  }

  /** Every Rollback() call in `events` returned nil. */
  ghost predicate RollbacksSucceeded(events: seq<Event>) {
    forall k :: 0 <= k < |events| && events[k].call.op == Rollback ==> events[k].reply.None?
  }

  /** No call in `events` touches a component at position `bound` or later. */
  ghost predicate Within(events: seq<Event>, bound: nat) {
    forall k :: 0 <= k < |events| ==> events[k].call.component < bound
  }

  /** `call` was made at some point of `events`. */
  ghost predicate Invoked(events: seq<Event>, call: Call) {
    exists k :: 0 <= k < |events| && events[k].call == call
  }

  /** The positions 0, 1, ..., n - 1 in order. */
  function Range(n: nat): (r: seq<nat>)
    ensures |r| == n
    ensures forall k :: 0 <= k < n ==> r[k] == k
  {
    if n == 0 then [] else Range(n - 1) + [n - 1]
  }

  function Min(a: nat, b: nat): nat {
    if a <= b then a else b
  }

  lemma ConsistentAppend(env: Env, start: nat, a: seq<Event>, b: seq<Event>)
    requires Consistent(env, start, a)
    requires Consistent(env, start + |a|, b)
    ensures Consistent(env, start, a + b)
  {
    forall k | 0 <= k < |a + b|
      ensures (a + b)[k].reply == env(start + k, (a + b)[k].call)
    {
      if k >= |a| {
        assert (a + b)[k] == b[k - |a|];
      }
    }
  }

  lemma InvokedAppend(a: seq<Event>, b: seq<Event>, call: Call)
    requires Invoked(a, call)
    ensures Invoked(a + b, call)
  {
    var k :| 0 <= k < |a| && a[k].call == call;
    assert (a + b)[k] == a[k];
  }

  lemma WithinAppend(a: seq<Event>, b: seq<Event>, bound: nat)
    requires Within(a, bound) && Within(b, bound)
    ensures Within(a + b, bound)
  {
    forall k | 0 <= k < |a + b|
      ensures (a + b)[k].call.component < bound
    {
      if k >= |a| {
        assert (a + b)[k] == b[k - |a|];
      }
    }
  }

  lemma RollbacksAppend(a: seq<Event>, b: seq<Event>)
    requires RollbacksSucceeded(a) && RollbacksSucceeded(b)
    ensures RollbacksSucceeded(a + b)
  {
    forall k | 0 <= k < |a + b| && (a + b)[k].call.op == Rollback
      ensures (a + b)[k].reply.None?
    {
      if k >= |a| {
        assert (a + b)[k] == b[k - |a|];
      }
    }
  }

  lemma ConcatAssoc(a: seq<Event>, b: seq<Event>, c: seq<Event>)
    ensures a + (b + c) == a + b + c
  {
  }
}
