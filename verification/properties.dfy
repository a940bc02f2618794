/**
  Properties of a single transition, one per step of the validation chain, and
  the facts relating the throwing and non-throwing forms.
 */
module TransitionProperties {
  import opened Wrappers
  import opened Nanomachine

  /** With no target supplied the transition fails with MissingTarget, whatever
      the states, table and context, and the state stays where it was. */
  lemma MissingTargetFails<S(!new), C, E>(m: Machine<S, C, E>, context: C)
    ensures Transition(m, None, context) == Fail(MissingTarget(m.current))
    ensures TransitionSafe(m, None, context) == (m, Some(MissingTarget(m.current)))
  {
  }

  /** An undeclared target fails with UnknownState before the table is
      consulted: even a table entry for (current, target) does not help. */
  lemma UnknownTargetFails<S(!new), C, E>(m: Machine<S, C, E>, target: S, context: C)
    requires target !in m.states
    ensures Transition(m, Some(target), context) == Fail(UnknownState(m.current))
    ensures TransitionSafe(m, Some(target), context).0 == m
  {
  }

  /** A declared target with no entry from the current state fails with
      NotAllowed, naming the key the caller would have to add; the action of
      no other entry is consulted and the state stays where it was. */
  lemma UnlistedTargetFails<S(!new), C, E>(m: Machine<S, C, E>, target: S, context: C)
    requires target in m.states
    requires (m.current, target) !in m.table
    ensures Transition(m, Some(target), context) == Fail(NotAllowed(m.current, target))
    ensures Transition(m, Some(target), context).error.KeyToAdd() == (m.current, target)
    ensures TransitionSafe(m, Some(target), context).0 == m
  {
  }

  /** There is no implicit self-loop: staying in the current state is a
      transition like any other and needs its own table entry. */
  lemma NoImplicitSelfLoop<S(!new), C, E>(m: Machine<S, C, E>, context: C)
    requires Valid(m)
    requires (m.current, m.current) !in m.table
    ensures Transition(m, Some(m.current), context) == Fail(NotAllowed(m.current, m.current))
  {
  }

  /** A permitted transition whose entry carries no action (a bare `true`, or an
      object without `action`) always succeeds and moves to the target. */
  lemma UnconditionalEntrySucceeds<S(!new), C, E>(m: Machine<S, C, E>, target: S, context: C)
    requires target in m.states
    requires (m.current, target) in m.table
    requires m.table[(m.current, target)].ActionOf().None?
    ensures Transition(m, Some(target), context) == Ok(m.(current := target))
    ensures GetState(TransitionSafe(m, Some(target), context).0) == target
    ensures TransitionSafe(m, Some(target), context).1 == None
  {
  }

  /** When the entry's action raises `e`, the transition fails with exactly `e`
      and the machine is left as it was. */
  lemma VetoPropagates<S(!new), C, E>(m: Machine<S, C, E>, target: S, context: C, act: Action<C, E>, e: E)
    requires target in m.states
    requires (m.current, target) in m.table
    requires m.table[(m.current, target)].ActionOf() == Some(act)
    requires act(context) == Some(e)
    ensures Transition(m, Some(target), context) == Fail(ActionVetoed(e))
    ensures TransitionSafe(m, Some(target), context) == (m, Some(ActionVetoed(e)))
  {
  }

  /** The context reaches nothing but the action of the matched entry: if two
      contexts lead to different outcomes, the target passed every check
      before the action, and the entry has an action. */
  lemma ActionOnlyConsultedLast<S(!new), C, E>(m: Machine<S, C, E>, target: Option<S>, c1: C, c2: C)
    ensures Transition(m, target, c1) != Transition(m, target, c2) ==>
              && target.Some?
              && target.value in m.states
              && (m.current, target.value) in m.table
              && m.table[(m.current, target.value)].ActionOf().Some?
  {
  }

  /** Only entries leaving the current state are considered: two machines that
      agree on the declared states, the current state and the entries leaving
      it give the same verdict and the same next state for every request. */
  lemma OnlyOutgoingEntriesMatter<S(!new), C, E>(m1: Machine<S, C, E>, m2: Machine<S, C, E>, target: Option<S>, context: C)
    requires m1.states == m2.states && m1.current == m2.current
    requires forall t :: (m1.current, t) in m1.table <==> (m1.current, t) in m2.table
    requires forall t :: (m1.current, t) in m1.table && (m1.current, t) in m2.table ==>
               m1.table[(m1.current, t)] == m2.table[(m1.current, t)]
    ensures TransitionSafe(m1, target, context).1 == TransitionSafe(m2, target, context).1
    ensures TransitionSafe(m1, target, context).0.current == TransitionSafe(m2, target, context).0.current
  {
    if target.Some? && target.value in m1.states && (m1.current, target.value) in m1.table {
      assert m1.table[(m1.current, target.value)] == m2.table[(m1.current, target.value)];
    }
  }

  /** The non-throwing form leaves the machine in the same state as the
      throwing form does, and reports failure exactly when it fails. */
  lemma SafeMatchesTransition<S(!new), C, E>(m: Machine<S, C, E>, target: Option<S>, context: C)
    ensures TransitionSafe(m, target, context).0.current ==
              (if Transition(m, target, context).Ok? then Transition(m, target, context).value.current else m.current)
    ensures TransitionSafe(m, target, context).1.Some? <==> Transition(m, target, context).Fail?
  {
  }
}
