/**
 Concrete runs of OrderedRollout that pin down its less obvious behaviour: the loop
 goes on after a failure whose rollback succeeded, a component can be rolled back
 twice in one run, and a failed rollback is reported under the name of the component
 being processed rather than the one whose Rollback() failed.
 */
module Scenarios {
  import opened Trace
  import opened Rollback
  import opened Rollout
  import opened RolloutProperties

  const A := Component("A")
  const B := Component("B")
  const C := Component("C")

  /** Ok and failed replies, as events. */
  function Ok(op: Op, c: nat): Event {
    Event(Call(op, c), None)
  }

  function Failed(op: Op, c: nat, text: string): Event {
    Event(Call(op, c), Some(Error(text)))
  }

  /** Regrouping a short trace written as a single event, one more, then three. */
  lemma Concat5(a: Event, b: Event, c: Event, d: Event, e: Event)
    ensures [a] + ([b] + [c, d, e]) == [a, b, c, d, e]
  {
  }

  /**
   [A, B, C] where A's deploy fails and its rollback succeeds: A is rolled back alone,
   then still health-checked, and B and C are deployed as usual; the result is nil.
   */
  lemma FirstDeployFailsCleanRollback()
    ensures var env: Env := (n: nat, c: Call) => if c == Call(Rollout, 0) then Some(Error("deploy A")) else None;
            OrderedRollout(env, [A, B, C])
            == Run(None, [Failed(Rollout, 0, "deploy A"), Ok(Rollback, 0), Ok(Healthcheck, 0),
                          Ok(Rollout, 1), Ok(Healthcheck, 1), Ok(Rollout, 2), Ok(Healthcheck, 2)])
  {
    var env: Env := (n: nat, c: Call) => if c == Call(Rollout, 0) then Some(Error("deploy A")) else None;
    var comps := [A, B, C];
    assert RollbackComponents(env, 1, [0]) == Run(None, [Ok(Rollback, 0)]);
    assert OnFailure(env, 1, [], 0, "A", Some(Error("deploy A"))) == Run(None, [Ok(Rollback, 0)]);
    var deployed := State(0, [], [Failed(Rollout, 0, "deploy A"), Ok(Rollback, 0)], None);
    assert Phase(env, comps, Start, Rollout) == deployed;
    var s1 := State(1, [0], deployed.events + [Ok(Healthcheck, 0)], None);
    assert Phase(env, comps, deployed, Healthcheck) == deployed.(events := s1.events);
    assert Step(env, comps, Start) == s1;
    assert Iterate(env, comps, 1) == s1;
    QuietPass(env, comps, s1);
    var s2 := State(2, [0, 1], s1.events + [Ok(Rollout, 1), Ok(Healthcheck, 1)], None);
    assert Iterate(env, comps, 2) == s2;
    QuietPass(env, comps, s2);
    var s3 := State(3, [0, 1, 2], s2.events + [Ok(Rollout, 2), Ok(Healthcheck, 2)], None);
    assert Iterate(env, comps, 3) == s3;
  }

  /** C's health check fails; every other call succeeds. */
  const CheckOfCFails: Env := (n: nat, c: Call) => if c == Call(Healthcheck, 2) then Some(Error("C unhealthy")) else None

  /**
   [A, B, C] where C's health check fails and the rollback succeeds: A, B and C are
   rolled back in that order, and the result is still nil.
   */
  lemma LastCheckFailsCleanRollback()
    ensures OrderedRollout(CheckOfCFails, [A, B, C])
            == Run(None, [Ok(Rollout, 0), Ok(Healthcheck, 0), Ok(Rollout, 1), Ok(Healthcheck, 1)]
                         + [Ok(Rollout, 2), Failed(Healthcheck, 2, "C unhealthy"),
                            Ok(Rollback, 0), Ok(Rollback, 1), Ok(Rollback, 2)])
  {
    var s2 := State(2, [0, 1], [Ok(Rollout, 0), Ok(Healthcheck, 0), Ok(Rollout, 1), Ok(Healthcheck, 1)], None);
    LastCheckFirstPasses();
    LastCheckThirdPass(s2);
  }

  /** The passes over A and B in the run above: both deployed and checked. */
  lemma LastCheckFirstPasses()
    ensures Iterate(CheckOfCFails, [A, B, C], 2)
            == State(2, [0, 1], [Ok(Rollout, 0), Ok(Healthcheck, 0), Ok(Rollout, 1), Ok(Healthcheck, 1)], None)
  {
    var env := CheckOfCFails;
    var comps := [A, B, C];
    QuietPass(env, comps, Start);
    var s1 := State(1, [0], [Ok(Rollout, 0), Ok(Healthcheck, 0)], None);
    assert Iterate(env, comps, 1) == s1;
    QuietPass(env, comps, s1);
  }

  /** The pass over C in the run above: deploy, failed check, rollback of A, B and C. */
  lemma LastCheckThirdPass(s: State)
    requires s == State(2, [0, 1], [Ok(Rollout, 0), Ok(Healthcheck, 0), Ok(Rollout, 1), Ok(Healthcheck, 1)], None)
    ensures Step(CheckOfCFails, [A, B, C], s)
            == State(3, [0, 1, 2], s.events + [Ok(Rollout, 2), Failed(Healthcheck, 2, "C unhealthy"),
                                               Ok(Rollback, 0), Ok(Rollback, 1), Ok(Rollback, 2)], None)
  {
    var env := CheckOfCFails;
    var comps := [A, B, C];
    var deployed := s.(events := s.events + [Ok(Rollout, 2)]);
    assert Phase(env, comps, s, Rollout) == deployed;
    var undo := [Ok(Rollback, 0), Ok(Rollback, 1), Ok(Rollback, 2)];
    LastCheckUndo();
    assert RollbackList([0, 1], 2) == [0, 1, 2];
    assert OnFailure(env, 6, [0, 1], 2, "C", Some(Error("C unhealthy"))) == Run(None, undo);
    assert Attempt(env, 5, [0, 1], 2, "C", Healthcheck) == Run(None, [Failed(Healthcheck, 2, "C unhealthy")] + undo);
    var checked := deployed.(events := deployed.events + ([Failed(Healthcheck, 2, "C unhealthy")] + undo));
    assert Phase(env, comps, deployed, Healthcheck) == checked;
    var failed := [Failed(Healthcheck, 2, "C unhealthy")] + undo;
    ConcatAssoc(s.events, [Ok(Rollout, 2)], failed);
    Concat5(Ok(Rollout, 2), Failed(Healthcheck, 2, "C unhealthy"), Ok(Rollback, 0), Ok(Rollback, 1), Ok(Rollback, 2));
  }

  /** The rollback after C's failed check, as calls 6 to 8 of the run above. */
  lemma LastCheckUndo()
    ensures RollbackComponents(CheckOfCFails, 6, [0, 1, 2])
            == Run(None, [Ok(Rollback, 0), Ok(Rollback, 1), Ok(Rollback, 2)])
  {
    var env := CheckOfCFails;
    assert RollbackComponents(env, 8, [2]) == Run(None, [Ok(Rollback, 2)]);
    assert RollbackComponents(env, 7, [1, 2]) == Run(None, [Ok(Rollback, 1), Ok(Rollback, 2)]);
  }

  /** B's deploy and A's rollback fail; every other call succeeds. */
  const DeployOfBAndUndoOfAFail: Env := (n: nat, c: Call) =>
    if c == Call(Rollout, 1) then Some(Error("deploy B"))
    else if c == Call(Rollback, 0) then Some(Error("undo A"))
    else None

  /**
   [A, B] where B's deploy fails and then A's rollback fails: B is never rolled back,
   the run stops there, and the error carries A's rollback text but B's name, since B
   is the component being processed.
   */
  lemma RollbackFailureNamesCurrentComponent()
    ensures OrderedRollout(DeployOfBAndUndoOfAFail, [A, B])
            == Run(Some(ErrComponent("undo A", "B")),
                   [Ok(Rollout, 0), Ok(Healthcheck, 0)] + [Failed(Rollout, 1, "deploy B"), Failed(Rollback, 0, "undo A")])
  {
    var env := DeployOfBAndUndoOfAFail;
    var comps := [A, B];
    QuietPass(env, comps, Start);
    var s1 := State(1, [0], [Ok(Rollout, 0), Ok(Healthcheck, 0)], None);
    assert Iterate(env, comps, 1) == s1;
    UndoOfAFails(s1);
  }

  /** The pass over B in the run above: its deploy fails, and so does the rollback of A. */
  lemma UndoOfAFails(s: State)
    requires s == State(1, [0], [Ok(Rollout, 0), Ok(Healthcheck, 0)], None)
    ensures Step(DeployOfBAndUndoOfAFail, [A, B], s)
            == State(1, [0], s.events + [Failed(Rollout, 1, "deploy B"), Failed(Rollback, 0, "undo A")],
                     Some(ErrComponent("undo A", "B")))
  {
    var env := DeployOfBAndUndoOfAFail;
    var comps := [A, B];
    assert RollbackList([0], 1) == [0, 1];
    assert RollbackComponents(env, 3, [0, 1]) == Run(Some(Error("undo A")), [Failed(Rollback, 0, "undo A")]);
    assert OnFailure(env, 3, [0], 1, "B", Some(Error("deploy B")))
        == Run(Some(ErrComponent("undo A", "B")), [Failed(Rollback, 0, "undo A")]);
    assert Attempt(env, 2, [0], 1, "B", Rollout)
        == Run(Some(ErrComponent("undo A", "B")), [Failed(Rollout, 1, "deploy B"), Failed(Rollback, 0, "undo A")]);
  }

  /**
   [A] where both A's deploy and its health check fail: A is rolled back once after
   each, so twice in one run. Here the second rollback fails, which the run reports
   under A's name.
   */
  lemma ComponentRolledBackTwice()
    ensures var env: Env := (n: nat, c: Call) =>
              if c.op != Rollback then Some(Error("A down"))
              else if n == 3 then Some(Error("undo A again"))
              else None;
            OrderedRollout(env, [A])
            == Run(Some(ErrComponent("undo A again", "A")),
                   [Failed(Rollout, 0, "A down"), Ok(Rollback, 0),
                    Failed(Healthcheck, 0, "A down"), Failed(Rollback, 0, "undo A again")])
  {
    var env: Env := (n: nat, c: Call) =>
      if c.op != Rollback then Some(Error("A down"))
      else if n == 3 then Some(Error("undo A again"))
      else None;
    var comps := [A];
    assert RollbackComponents(env, 1, [0]) == Run(None, [Ok(Rollback, 0)]);
    var deployed := State(0, [], [Failed(Rollout, 0, "A down"), Ok(Rollback, 0)], None);
    assert Phase(env, comps, Start, Rollout) == deployed;
    assert RollbackComponents(env, 3, [0]) == Run(Some(Error("undo A again")), [Failed(Rollback, 0, "undo A again")]);
    var s1 := State(0, [], deployed.events + [Failed(Healthcheck, 0, "A down"), Failed(Rollback, 0, "undo A again")],
                    Some(ErrComponent("undo A again", "A")));
    assert Phase(env, comps, deployed, Healthcheck) == s1;
    assert Step(env, comps, Start) == s1;
    assert Iterate(env, comps, 1) == s1;
  }
}
