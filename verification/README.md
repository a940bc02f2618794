# nanomachines — a verified model of the state-machine runtime

This project models the runtime returned by `createNanomachine`: a machine that
holds one current state, a fixed set of declared states (`possibleStates`) and
a table of permitted transitions (`transitions`), each of which may carry an
action. The machine answers `getState`, attempts a `transition` to a target
state through a fixed chain of checks, and offers `transitionSafe`, which does
the same but hands back the error instead of throwing it.

The model is functional. A `Machine` is an immutable record of the declared
states (`set<S>`), the table (`map<(S, S), TransitionSpec<C, E>>`, keyed by
(from, to) pairs) and the current state. `Transition` returns either the next
machine or one of four errors, in the order the runtime checks for them:

1. `MissingTarget` — no target was supplied;
2. `UnknownState` — the target is not a declared state;
3. `NotAllowed(from, to)` — there is no table entry (current, target); the
   key the caller must add is `KeyToAdd()`;
4. `ActionVetoed(e)` — the entry's action raised `e`.

Only when all four pass does the current state become the target.
`TransitionSafe` is total and returns the machine together with `None` on
success or the caught error on failure. `Run` and `Trace` feed a sequence of
requests through `TransitionSafe` to state what holds across a machine's
whole life.

Modelling choices:

- States are any type with equality. The table value is `Flag` for the bare
  `true` form or `Spec(action)` for the object form whose `action` may be
  absent.
- An action is a pure function from the context to `Option<E>`. `Some(e)`
  stands for "the callback threw `e`". Its side effects are not modelled.
- The context is a generic parameter `C`. An omitted context (which the
  runtime passes on as `undefined`) is whatever value of `C` the caller
  uses for "absent".
- The target is an `Option<S>`. `None` stands for every target the runtime
  rejects as missing: `undefined`, a non-string, or the empty string.
  With string states, the model therefore lets a declared `""` be a target,
  while the runtime always rejects it as missing: there `""` can only ever be
  the initial state.
- `getState` is a pure function of the machine, so repeated calls with no
  transition in between trivially agree.

Modules: `Wrappers` (Option, Result), `Nanomachine` (data model and the three
operations), `TargetScan` (the pass over the table entries that collects the
reachable targets), `TransitionProperties` (one lemma per check of the
chain), `Runs` (sequences of requests), `Demo` (the four-phase loading
machine).

## Model

| member | source | states |
|---|---|---|
| Nanomachine.Create | src/index.ts:39-40 | the new machine reports exactly `initialState` and keeps the given states and table; no validation happens, so it is in a declared state exactly when the caller passed a declared one |
| Nanomachine.GetState | src/index.ts:104 | returns the current state, which is a declared one whenever the machine is Valid (built from a declared initial state, or after any successful transition) |
| Nanomachine.Targets | src/index.ts:56-71 | the targets collected from entries leaving a state are exactly those `t` for which the key (state, t) is in the table |
| Nanomachine.Transition | src/index.ts:46-88 | succeeds exactly when a target is given, declared, listed from the current state and not vetoed; on success only the current state changes, to the target, which is declared; each error kind arises exactly under its own condition (MissingTarget only for a missing target, ActionVetoed exactly when the entry's action vetoes), NotAllowed names the key to add and a veto carries the action's own error |
| Nanomachine.TransitionSafe | src/index.ts:94-103 | never fails; returns nothing on success and the caught error on failure, with the same resulting state as `transition`; states and table are untouched |
| TargetScan.CollectTargets | src/index.ts:44-69 | the single pass over the table's entries collects exactly the targets whose key starts at the current state, no more entries than there are |
| TransitionProperties.MissingTargetFails | src/index.ts:47-50 | a missing target fails with MissingTarget whatever the table and context, and the state is unchanged |
| TransitionProperties.UnknownTargetFails | src/index.ts:51-55 | an undeclared target fails with UnknownState even when the table lists it, and the state is unchanged |
| TransitionProperties.UnlistedTargetFails | src/index.ts:71-75 | a declared target with no entry from the current state fails with NotAllowed(current, target), whose key to add is (current, target), and the state is unchanged |
| TransitionProperties.NoImplicitSelfLoop | src/index.ts:56-75 | moving to the current state itself needs its own table entry |
| TransitionProperties.UnconditionalEntrySucceeds | src/index.ts:77-87 | a permitted entry with no action always succeeds and `getState` then returns the target |
| TransitionProperties.VetoPropagates | src/index.ts:83-87 | an action that raises `e` makes the transition fail with exactly `e` and leaves the machine as it was |
| TransitionProperties.ActionOnlyConsultedLast | src/index.ts:46-85 | the context can change the outcome only once every earlier check has passed and the entry has an action |
| TransitionProperties.OnlyOutgoingEntriesMatter | src/index.ts:56-69 | entries whose from-state is not the current state have no influence on the verdict or the next state |
| TransitionProperties.SafeMatchesTransition | src/index.ts:94-103 | `transitionSafe` ends in the state `transition` would end in and reports an error exactly when `transition` throws |
| Runs.RunKeepsConfiguration | src/index.ts:39-44 | across any sequence of requests the declared states and the table never change |
| Runs.RunEndsDeclaredOrUnmoved | src/index.ts:51-87 | after any sequence of requests the machine is in its starting state or in a declared state |
| Runs.RunPreservesValid | src/index.ts:40-87 | a machine that starts in a declared state stays in one |
| Runs.TraceFollowsTable | src/index.ts:56-87 | every state change over a run follows a table entry; the trace has one state per request and ends where the run ends |
| Demo.DemoStartThenFinishRefused | src/index.ts:46-88 | in the four-phase machine, INIT to STARTED succeeds, after which FINISH is refused as NotAllowed(STARTED, FINISH) and the state stays STARTED |
| Demo.DemoBlockedStart | src/index.ts:83-87 | in the four-phase machine, an action raising "blocked" makes INIT to STARTED fail with "blocked" and the state stays INIT |

## Left out

- Type-level key synthesis (`TransitionName`, `Transitions`, `Keyof`, src/index.ts:3-24): compile-time string manipulation with no runtime meaning.
- String transition keys split on `TO` (src/index.ts:59, 77): the table is keyed by (from, to) pairs instead. As written, the runtime compares the raw state name with the capitalised key half, so `"INIT"` never equals `"Init"` and the demo table at src/index.ts:116-127 would reject `InitTOStarted`. The model states the behaviour the key pairs are meant to have and does not reproduce this mismatch.
- The configuration is an immutable copy. The runtime snapshots the declared state names and the table entries at construction (src/index.ts:42, 44) but reads the matched entry from the caller's live `transitions` object (src/index.ts:79). If the caller mutates that object afterwards, the runtime's behaviour diverges from the model. Deleting a permitted entry makes its target still listed, and line 83 then throws a TypeError. Replacing an entry runs the new action while permission still comes from the snapshot. Adding an entry has no effect on permission. The model, and Runs.RunKeepsConfiguration, assume no such mutation.
- Error message text: only the error kind and its data (the current state, the (from, to) pair, the action's error) are modelled.
- Action side effects: an action is a pure function that either lets the transition through or vetoes it with an error.
- Nanomachine.TransitionSafe: the model keeps success (`None`) and a veto (`Some(ActionVetoed(e))`) apart. In the runtime, an action that throws `undefined` makes `transitionSafe` return `undefined`, which looks the same as success.
- A table entry whose value is literally `undefined`: the runtime would list its target and then fail with a TypeError on reading `.action`. The model's table values are always a bare flag or an object.
- Numeric enums, whose `Object.keys` also lists reverse-mapping keys: the declared states are given as a set.
- The doc comment saying `transitionSafe` returns `false` on failure (src/index.ts:93): the code returns the caught error, and the model follows the code.
- `exampleUsage` (src/index.ts:108-135): demonstration code. The `Demo` module restates its configuration with (from, to) pairs.
- Re-entrancy, such as an action calling `transition` on its own machine: actions are pure here, so they cannot do this.
