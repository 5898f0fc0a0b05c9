/**
 RollbackComponents: undo every component of a list, in list order, stopping at the
 first Rollback() that fails so that an operator can step in.
 */
module Rollback {
  import opened Trace

  /**
   What a rollback pass over `list`, whose first call is call number `start` of the
   run, may look like:
   the k-th call is Rollback() on list[k], every call before the last one succeeded,
   a nil result means every element was rolled back exactly once, and a non-nil
   result is the reply of the last call, unchanged.
   */
  ghost predicate IsRollbackPass(env: Env, start: nat, list: seq<nat>, r: Run<Error>) {
    && |r.events| <= |list|
    && (forall k :: 0 <= k < |r.events| ==> r.events[k].call == Call(Rollback, list[k]))
    && Consistent(env, start, r.events)
    && (forall k :: 0 <= k < |r.events| - 1 ==> r.events[k].reply.None?)
    && (r.err.None? ==> |r.events| == |list| && AllSucceeded(r.events))
    && (r.err.Some? ==> |r.events| > 0 && r.events[|r.events| - 1].reply == r.err)
  }

  function RollbackComponents(env: Env, start: nat, list: seq<nat>): (r: Run<Error>)
    ensures IsRollbackPass(env, start, list, r)
    ensures |list| == 0 ==> r == Run(None, [])
    decreases |list|
  {
    if |list| == 0 then Run(None, [])
    else
      var first := Event(Call(Rollback, list[0]), env(start, Call(Rollback, list[0])));
      if first.reply.Some? then Run(first.reply, [first])
      else
        var rest := RollbackComponents(env, start + 1, list[1..]);
        PassCons(env, start, list, first, rest);
        Run(rest.err, [first] + rest.events)
  }

  /** A successful Rollback() of the first element followed by a pass over the rest is a
      pass over the whole list. */
  lemma PassCons(env: Env, start: nat, list: seq<nat>, first: Event, rest: Run<Error>)
    requires |list| > 0
    requires first == Event(Call(Rollback, list[0]), None)
    requires env(start, first.call) == None
    requires IsRollbackPass(env, start + 1, list[1..], rest)
    ensures IsRollbackPass(env, start, list, Run(rest.err, [first] + rest.events))
  {
    var events := [first] + rest.events;
    ConsistentAppend(env, start, [first], rest.events);
    forall k | 1 <= k < |events|
      ensures events[k] == rest.events[k - 1]
    {
    }
    forall k | 0 <= k < |events|
      ensures events[k].call == Call(Rollback, list[k])
    {
      if k > 0 {
        assert list[1..][k - 1] == list[k];
      }
    }
  }

  /** The pass is fully determined by its description: no other run fits it. */
  lemma {:induction false} RollbackPassUnique(env: Env, start: nat, list: seq<nat>, r: Run<Error>)
    requires IsRollbackPass(env, start, list, r)
    ensures r == RollbackComponents(env, start, list)
    decreases |list|
  {
    if |list| == 0 {
      assert |r.events| == 0;
    } else {
      assert |r.events| > 0;
      var first := r.events[0];
      assert first.call == Call(Rollback, list[0]);
      assert first.reply == env(start, Call(Rollback, list[0]));
      if first.reply.Some? {
        assert |r.events| == 1;
        assert r.events == [first];
      } else {
        var tail := Run(r.err, r.events[1..]);
        PassTail(env, start, list, r);
        RollbackPassUnique(env, start + 1, list[1..], tail);
        assert r.events == [first] + tail.events;
      }
    }
  }

  /** A pass whose first Rollback() succeeded continues with a pass over the rest. */
  lemma PassTail(env: Env, start: nat, list: seq<nat>, r: Run<Error>)
    requires IsRollbackPass(env, start, list, r)
    requires |r.events| > 0 && r.events[0].reply.None?
    ensures IsRollbackPass(env, start + 1, list[1..], Run(r.err, r.events[1..]))
  {
    var tail := r.events[1..];
    forall k | 0 <= k < |tail|
      ensures tail[k] == r.events[k + 1]
    {
    }
    forall k | 0 <= k < |tail|
      ensures tail[k].call == Call(Rollback, list[1..][k])
    {
      assert list[1..][k] == list[k + 1];
    }
    forall k | 0 <= k < |tail|
      ensures tail[k].reply == env(start + 1 + k, tail[k].call)
    {
      assert r.events[k + 1].reply == env(start + (k + 1), r.events[k + 1].call);
    }
  }
}
