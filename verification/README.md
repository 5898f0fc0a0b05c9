# kube-rollout: ordered rollout with rollback, in Dafny

kube-rollout deploys a list of components one after the other. Each component
offers `Rollout()`, `Healthcheck()` and `Rollback()`, each of which may fail, and
a `Name()`. `OrderedRollout` deploys and then health-checks every component in list
order. When either call fails, it hands the components completed so far, followed by
the current one, to `RollbackComponents`. That function calls `Rollback()` on each
of them in order and stops at the first failure. `OrderedRollout` returns an
`ErrComponent` only when such a rollback fails. Otherwise it carries on, even after a
failed deploy or health check, and finally returns nil.

The model is functional. The components' behaviour is an environment
`Env = (nat, Call) -> Option<Error>`: the reply to a call, given the number of calls
the run made before it. A run of either function returns its error together with the
trace of every call it made and the reply each call got. Components are referred to
by their position in the rollout list.

- `trace.dfy` (module `Trace`): calls, replies, events, the environment, and the
  predicates the properties are stated with.
- `rollback.dfy` (module `Rollback`): `RollbackComponents`.
- `rollout.dfy` (module `Rollout`): `Component`, `ErrComponent` and
  `OrderedRollout`. The Go loop is a state machine: `Step` is one pass of the loop
  body, `Iterate(k)` the state after k passes (an early `return` freezes the state),
  and `OrderedRollout` is `Iterate(|components|)`.
- `properties.dfy` (module `RolloutProperties`): the loop invariant and the
  properties of `OrderedRollout` that follow from it.
- `scenarios.dfy` (module `Scenarios`): concrete runs that pin down the less obvious
  behaviour.

An environment indexed by call position loses nothing against one that looks at the
whole history of the run. The replies are the only thing that steers a run, so for
any one run the history before call n is fixed, and a position-indexed environment
can give exactly the replies a history-indexed one would.

Two behaviours of the code are easy to misread, and the scenario lemmas pin both down:

- A rollback failure is reported under the name of the component being processed,
  not the one whose `Rollback()` failed. When A was deployed, B's deploy fails and
  then A's `Rollback()` fails, the error names B
  (`Scenarios.RollbackFailureNamesCurrentComponent`).
- One component can be rolled back twice in one run: its deploy fails, that rollback
  succeeds, and its health check then fails too (`Scenarios.ComponentRolledBackTwice`).

## Model

| member | source | states |
|---|---|---|
| Rollback.RollbackComponents | pkg/rollout/rollout.go:76-84 | The k-th call is `Rollback()` on the k-th list element. Every call before the last one succeeded. A nil result means each element was rolled back exactly once and every call succeeded. A non-nil result is the last call's error, unchanged. An empty list makes no call and returns nil. |
| Rollback.RollbackPassUnique | pkg/rollout/rollout.go:76-84 | Any run that fits the description above is exactly the run `RollbackComponents` makes. The description determines the behaviour completely. |
| Rollout.RollbackList | pkg/rollout/rollout.go:25-41 | The `len == 0` branch and the `else` branch hand the same list to the rollback: the completed components followed by the current one. |
| Rollout.OnFailure | pkg/rollout/rollout.go:24-43 | After a nil reply nothing happens. After a failure, the completed components and then the current one are rolled back, in that order, with the environment's replies. A nil outcome means every one of them was rolled back successfully. An error means the last rollback failed with exactly the error's message, every earlier one succeeded, and the error names the current component. |
| Rollout.Attempt | pkg/rollout/rollout.go:23-43 | The events of a deploy or health-check block start with that call on the current component. |
| Rollout.Phase | pkg/rollout/rollout.go:23-65 | A deploy or health-check block keeps the loop position and the completed list, and adds at least one call to the run. |
| Rollout.Step | pkg/rollout/rollout.go:22-67 | A pass that does not return early moves to the next component and appends the current one to the completed list. A pass that returns early leaves both as they were. |
| Rollout.Iterate | pkg/rollout/rollout.go:22-68 | After k passes without an early return the loop is at component min(k, n). After an early return it stays at the component that returned, which lies before min(k, n). |
| Rollout.OrderedRollout | pkg/rollout/rollout.go:19-71 | An empty component list returns nil without calling anything. The behaviour on non-empty lists is stated by the `RolloutProperties` rows below. |
| RolloutProperties.StepPreservesInv | pkg/rollout/rollout.go:22-67 | One pass of the loop body keeps the loop invariant: the completed list is the components before the current one, every earlier component was deployed and health-checked, and the result is either a running state with only successful rollbacks or an early return after a failed rollback. |
| RolloutProperties.RolloutInvariant | pkg/rollout/rollout.go:19-71 | The loop invariant holds after any number of passes. |
| RolloutProperties.CompletedIsPrefix | pkg/rollout/rollout.go:45-67 | When component i is processed, the completed list is exactly components 0..i-1. This holds whether or not their deploys or checks failed. The list rolled back after a failure of i is components 0..i. |
| RolloutProperties.ReportsOnlyRollbackFailures | pkg/rollout/rollout.go:26-70 | The result is nil if and only if every `Rollback()` call in the run succeeded. Failed deploys and checks whose rollback succeeded are not reported. On nil, every component was deployed and health-checked. No call is ever made on a position outside the list. |
| RolloutProperties.FailureAttribution | pkg/rollout/rollout.go:15-62 | A non-nil result is returned right after the failing `Rollback()`, the last call of the run. Its `Error()` text is that call's error text, and every earlier rollback succeeded. It names a component i that was deployed, and no call was ever made on a component after i. |
| RolloutProperties.HappyPath | pkg/rollout/rollout.go:22-70 | When every deploy and health check succeeds, the result is nil. The trace is exactly Rollout(c0), Healthcheck(c0), Rollout(c1), Healthcheck(c1), and so on, and `Rollback()` is never called. |
| RolloutProperties.QuietPass | pkg/rollout/rollout.go:22-67 | A pass whose deploy and check both succeed makes exactly those two calls and appends the component to the completed list. |
| RolloutProperties.FailedPhaseRollsBackPrefix | pkg/rollout/rollout.go:23-64 | A failed deploy or check of component i is followed by the rollback of components 0..i in order. The loop returns exactly when that rollback fails, with the rollback's text and i's name. |
| RolloutProperties.DeployFailureFallsThrough | pkg/rollout/rollout.go:23-45 | A failed deploy whose rollback succeeded does not stop the loop. `Healthcheck()` is the next call, on the same component. If nothing else fails, the loop moves on with that component completed. |
| Scenarios.FirstDeployFailsCleanRollback | pkg/rollout/rollout.go:23-45 | For [A, B, C] where only A's deploy fails: A is rolled back alone and then still health-checked, B and C are deployed and checked, and the result is nil. |
| Scenarios.LastCheckFailsCleanRollback | pkg/rollout/rollout.go:45-64 | For [A, B, C] where only C's health check fails: A, B and C are rolled back in that order, and the result is nil. |
| Scenarios.RollbackFailureNamesCurrentComponent | pkg/rollout/rollout.go:34-40 | For [A, B] where B's deploy fails and A's rollback fails: B is never rolled back, and the error carries A's rollback text under B's name. |
| Scenarios.ComponentRolledBackTwice | pkg/rollout/rollout.go:23-62 | For [A] where the deploy and the health check both fail: A is rolled back once after each failure. The second rollback fails and is reported under A's name. |

## Left out

- The effects of the components' `Rollout()`, `Healthcheck()` and `Rollback()`. The repository only declares the interface, so their replies come from the environment.
- `Name()` is a plain field of `Component`, not a traced call. The code only uses it to fill `ComponentName`.
- Component errors are modelled by their `Error()` text only, the one thing the core reads from them.
- Go slice aliasing from `append(completedComponents, c)` at lines 34 and 56. It writes the same component that line 67 appends later, so immutable sequences behave the same.
- Calls that hang or block, timeouts and retries. The core has none.
- ErrComponent.Error: has no contract of its own. It returns the `message` field, and `RolloutProperties.FailureAttribution` states what that means for the error `OrderedRollout` returns.
- Rollout.OrderedRollout: its own contract covers only the empty list. The lemmas of `RolloutProperties` state the rest about the same function.
- Rollout.Attempt: its own contract only says which call comes first. `RolloutProperties.QuietPass` and `RolloutProperties.FailedPhaseRollsBackPrefix` state the whole outcome.
- Rollout.Phase: its own contract only says what a phase keeps. `RolloutProperties.FailedPhaseRollsBackPrefix` states the events it adds and when it ends the loop.
