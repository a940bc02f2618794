/**
  The four-state loading machine used to illustrate the library: INIT may move
  to STARTED through an action, STARTED may move to LOADING unconditionally,
  and nothing else is permitted.
 */
module Demo {
  import opened Wrappers
  import opened Nanomachine

  datatype Phase = Init | Started | Loading | Finish

  /** The action guarding INIT to STARTED: it raises "blocked" when the context asks it to. */
  function Guard(block: bool): Option<string>
  {
    if block then Some("blocked") else None
  }

  function DemoMachine(): Machine<Phase, bool, string>
  {
    Create(Init,
           {Init, Started, Loading, Finish},
           map[(Init, Started) := Spec(Some(Guard)), (Started, Loading) := Flag])
  }

  /** INIT to STARTED runs the action and moves to STARTED; FINISH is then
      refused because there is no (STARTED, FINISH) entry, and the machine
      stays in STARTED. */
  lemma DemoStartThenFinishRefused()
    ensures Transition(DemoMachine(), Some(Started), false).Ok?
    ensures var started := Transition(DemoMachine(), Some(Started), false).value;
            && GetState(started) == Started
            && Transition(started, Some(Finish), false) == Fail(NotAllowed(Started, Finish))
            && GetState(TransitionSafe(started, Some(Finish), false).0) == Started
  {
    var m := DemoMachine();
    assert (Init, Started) in m.table;
    var started := Transition(m, Some(Started), false).value;
    assert (Started, Finish) !in started.table;
  }

  /** When the action raises "blocked", the transition fails with that very
      error and the machine stays in INIT. */
  lemma DemoBlockedStart()
    ensures Transition(DemoMachine(), Some(Started), true) == Fail(ActionVetoed("blocked"))
    ensures GetState(TransitionSafe(DemoMachine(), Some(Started), true).0) == Init
  {
    var m := DemoMachine();
    assert (Init, Started) in m.table;
  }
}
