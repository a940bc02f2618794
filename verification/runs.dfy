/**
  Sequences of requests made against one machine, each through the
  non-throwing transition. Across any such sequence the declared states and
  the table stay fixed, and the state only ever moves along table entries.
 */
module Runs {
  import opened Wrappers
  import opened Nanomachine

  /** One call: the requested target (None when none was supplied) and the context. */
  datatype Request<S, C> = Request(target: Option<S>, context: C)

  /** The machine after serving every request in order. */
  function Run<S(==,!new), C, E>(m: Machine<S, C, E>, requests: seq<Request<S, C>>): Machine<S, C, E>
    decreases |requests|
  {
    if |requests| == 0 then m
    else Run(TransitionSafe(m, requests[0].target, requests[0].context).0, requests[1..])
  }

  /** The current state after each request, in order. */
  function Trace<S(==,!new), C, E>(m: Machine<S, C, E>, requests: seq<Request<S, C>>): seq<S>
    decreases |requests|
  {
    if |requests| == 0 then []
    else
      var next := TransitionSafe(m, requests[0].target, requests[0].context).0;
      [next.current] + Trace(next, requests[1..])
  }

  /** A move from `a` to `b` is either staying put or a permitted table entry. */
  predicate Step<S(==,!new), C, E>(table: map<(S, S), TransitionSpec<C, E>>, a: S, b: S)
  {
    a == b || (a, b) in table
  }

  /** No request changes the declared states or the table. */
  lemma {:induction false} RunKeepsConfiguration<S(!new), C, E>(m: Machine<S, C, E>, requests: seq<Request<S, C>>)
    ensures Run(m, requests).states == m.states
    ensures Run(m, requests).table == m.table
    decreases |requests|
  {
    if |requests| > 0 {
      RunKeepsConfiguration(TransitionSafe(m, requests[0].target, requests[0].context).0, requests[1..]);
    }
  }

  /** After any run the machine is either still in its starting state or in a
      declared state: a successful transition always lands on a declared state. */
  lemma {:induction false} RunEndsDeclaredOrUnmoved<S(!new), C, E>(m: Machine<S, C, E>, requests: seq<Request<S, C>>)
    ensures Run(m, requests).current == m.current || Run(m, requests).current in m.states
    decreases |requests|
  {
    if |requests| > 0 {
      var next := TransitionSafe(m, requests[0].target, requests[0].context).0;
      RunEndsDeclaredOrUnmoved(next, requests[1..]);
    }
  }

  /** A machine whose current state is declared keeps it declared forever. */
  lemma RunPreservesValid<S(!new), C, E>(m: Machine<S, C, E>, requests: seq<Request<S, C>>)
    requires Valid(m)
    ensures Valid(Run(m, requests))
  {
    RunEndsDeclaredOrUnmoved(m, requests);
    RunKeepsConfiguration(m, requests);
  }

  /** The trace has one state per request, ends where the run ends, and every
      consecutive pair of states is a step the table allows. */
  lemma {:induction false} TraceFollowsTable<S(!new), C, E>(m: Machine<S, C, E>, requests: seq<Request<S, C>>)
    ensures |Trace(m, requests)| == |requests|
    ensures |requests| > 0 ==> Step(m.table, m.current, Trace(m, requests)[0])
    ensures forall i :: 0 < i < |requests| ==> Step(m.table, Trace(m, requests)[i - 1], Trace(m, requests)[i])
    ensures |requests| > 0 ==> Trace(m, requests)[|requests| - 1] == Run(m, requests).current
    decreases |requests|
  {
    if |requests| > 0 {
      var next := TransitionSafe(m, requests[0].target, requests[0].context).0;
      var rest := requests[1..];
      TraceFollowsTable(next, rest);
      var tr := Trace(m, requests);
      assert tr == [next.current] + Trace(next, rest);
      forall i | 0 < i < |requests|
        ensures Step(m.table, tr[i - 1], tr[i])
      {
        if i > 1 {
          assert tr[i - 1] == Trace(next, rest)[i - 2];
          assert tr[i] == Trace(next, rest)[i - 1];
        }
      }
    }
  }
}
