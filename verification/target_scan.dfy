/**
  The scan that decides which targets the current state may move to: a single
  pass over the table's entries, keeping the target half of every key whose
  source half is the current state.
 */
module TargetScan {
  import opened Nanomachine

  /** `entries` enumerates the keys of `table`, in some order, and nothing else. */
  predicate ListsKeys<S(==,!new), C, E>(
    entries: seq<((S, S), TransitionSpec<C, E>)>,
    table: map<(S, S), TransitionSpec<C, E>>)
  {
    && (forall i :: 0 <= i < |entries| ==> entries[i].0 in table)
    && (forall k :: k in table ==> exists i :: 0 <= i < |entries| && entries[i].0 == k)
  }

  /** Collects, in entry order, the targets of the entries leaving `current`.
      The collected targets are exactly the targets the table permits from
      `current`; entries from other states contribute nothing. */
  method CollectTargets<S(==,!new), C, E>(
    entries: seq<((S, S), TransitionSpec<C, E>)>,
    table: map<(S, S), TransitionSpec<C, E>>,
    current: S)
    returns (acc: seq<S>)
    requires ListsKeys(entries, table)
    ensures forall t :: t in acc <==> t in Targets(table, current)
    ensures forall t :: t in acc <==> (current, t) in table
    ensures |acc| <= |entries|
  {
    acc := [];
    var i := 0;
    while i < |entries|
      invariant 0 <= i <= |entries|
      invariant |acc| <= i
      invariant forall t :: t in acc <==> exists j :: 0 <= j < i && entries[j].0 == (current, t)
    {
      var key := entries[i].0;
      if key.0 == current {
        acc := acc + [key.1];
      }
      i := i + 1;
    }
  }
}
