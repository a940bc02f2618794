/**
  The nanomachine runtime: a machine holding one current state, a fixed set of
  declared states and a table of permitted (from, to) transitions, each of which
  may carry an action able to veto the transition.
 */
module Nanomachine {
  import opened Wrappers

  /** An action runs with the caller's context and either lets the transition
      proceed (None) or vetoes it with the error it raised (Some(e)). */
  type Action<-C, E> = C -> Option<E>

  /** The value stored under a permitted transition: the bare flag `true`, or an
      object whose `action` field may be missing. */
  datatype TransitionSpec<-C, E> =
    | Flag
    | Spec(action: Option<Action<C, E>>)
  {
    /** The action the transition runs, if any; a bare flag runs none.
        A helper of Transition, which states what it means for the outcome. */
    function ActionOf(): Option<Action<C, E>>
    {
      match this
      case Flag => None
      case Spec(a) => a
    }
  }

  /** The four ways a transition can fail. The first two carry the state the
      machine was in when the error was raised. */
  datatype TransitionError<S, E> =
    | MissingTarget(current: S)
    | UnknownState(current: S)
    | NotAllowed(from: S, to: S)
    | ActionVetoed(error: E)
  {
    /** For NotAllowed: the table key the caller must add to permit the transition. */
    function KeyToAdd(): (S, S)
      requires NotAllowed?
    {
      (from, to)
    }
  }

  /** A machine: the declared states, the transition table and the current state. */
  datatype Machine<S(==,!new), -C, E> = Machine(
    states: set<S>,
    table: map<(S, S), TransitionSpec<C, E>>,
    current: S)

  /** The invariant the design intends: the current state is a declared one.
      Construction does not enforce it. */
  predicate Valid<S(==,!new), C, E>(m: Machine<S, C, E>)
  {
    m.current in m.states
  }

  /** Builds a machine whose current state is `initial`, exactly as given:
      `initial` is not checked against `states`, nor the table against either. */
  function Create<S(==,!new), C, E>(initial: S, states: set<S>, table: map<(S, S), TransitionSpec<C, E>>)
    : (m: Machine<S, C, E>)
    ensures GetState(m) == initial
    ensures m.states == states && m.table == table
    ensures Valid(m) <==> initial in states
  {
    Machine(states, table, initial)
  }

  /** The current state. */
  function GetState<S(==,!new), C, E>(m: Machine<S, C, E>): (s: S)
    ensures s == m.current
    ensures Valid(m) ==> s in m.states
  {
    m.current
  }

  /** The targets listed by table entries leaving `from`: a target is reachable
      exactly when the key (from, target) is present. */
  function Targets<S(==,!new), C, E>(table: map<(S, S), TransitionSpec<C, E>>, from: S): (ts: set<S>)
    ensures forall t :: t in ts <==> (from, t) in table
  {
    set k | k in table.Keys && k.0 == from :: k.1
  }

  /** What the action of `spec` decides for `context`: None lets the transition
      proceed, Some(e) vetoes it with e. A helper of Transition, whose
      contract states the veto's effect. */
  function Veto<C, E>(spec: TransitionSpec<C, E>, context: C): Option<E>
  {
    match spec.ActionOf()
    case None => None
    case Some(act) => act(context)
  }

  /** The checks, in order, that let a transition to `target` through: a target
      is given, it is declared, the table permits (current, target), and its
      action does not veto. */
  predicate Permits<S(==,!new), C, E>(m: Machine<S, C, E>, target: Option<S>, context: C)
  {
    && target.Some?
    && target.value in m.states
    && (m.current, target.value) in m.table
    && Veto(m.table[(m.current, target.value)], context).None?
  }

  /** Attempts a transition to `target`. On success the new machine differs from
      `m` only in its current state, which becomes the target; on failure the
      error names the first check that rejected the request. */
  function Transition<S(==,!new), C, E>(m: Machine<S, C, E>, target: Option<S>, context: C)
    : (r: Result<Machine<S, C, E>, TransitionError<S, E>>)
    ensures r.Ok? <==> Permits(m, target, context)
    ensures r.Ok? ==> r.value == m.(current := target.value)
    ensures r.Ok? ==> Valid(r.value)
    ensures target.None? <==> r == Fail(MissingTarget(m.current))
    ensures r.Fail? && r.error.MissingTarget? ==> target.None?
    ensures r.Fail? && r.error.UnknownState? <==> target.Some? && target.value !in m.states
    ensures r.Fail? && r.error.UnknownState? ==> r.error.current == m.current
    ensures r.Fail? && r.error.NotAllowed? <==>
              target.Some? && target.value in m.states && (m.current, target.value) !in m.table
    ensures r.Fail? && r.error.NotAllowed? ==> r.error.KeyToAdd() == (m.current, target.value)
    ensures r.Fail? && r.error.ActionVetoed? <==>
              && target.Some? && target.value in m.states && (m.current, target.value) in m.table
              && Veto(m.table[(m.current, target.value)], context).Some?
    ensures r.Fail? && r.error.ActionVetoed? ==>
              && target.Some? && target.value in m.states && (m.current, target.value) in m.table
              && m.table[(m.current, target.value)].ActionOf().Some?
              && m.table[(m.current, target.value)].ActionOf().value(context) == Some(r.error.error)
  {
    if target.None? then
      Fail(MissingTarget(m.current))
    else if target.value !in m.states then
      Fail(UnknownState(m.current))
    else if target.value !in Targets(m.table, m.current) then
      Fail(NotAllowed(m.current, target.value))
    else
      match Veto(m.table[(m.current, target.value)], context)
      case Some(e) => Fail(ActionVetoed(e))
      case None => Ok(m.(current := target.value))
  }

  /** The non-throwing form of Transition: always returns a machine, together
      with None on success or the caught error on failure. The machine is the
      one Transition yields on success and `m` itself on failure. */
  function TransitionSafe<S(==,!new), C, E>(m: Machine<S, C, E>, target: Option<S>, context: C)
    : (r: (Machine<S, C, E>, Option<TransitionError<S, E>>))
    ensures r.1.None? <==> Transition(m, target, context).Ok?
    ensures r.1.None? ==> r.0 == Transition(m, target, context).value
    ensures r.1.Some? ==> r.0 == m && Transition(m, target, context) == Fail(r.1.value)
    ensures r.0.states == m.states && r.0.table == m.table
    ensures r.0.current == m.current || (r.1.None? && target == Some(r.0.current))
  {
    match Transition(m, target, context)
    case Ok(next) => (next, None)
    case Fail(e) => (m, Some(e))
  }
}
