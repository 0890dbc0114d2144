// core/state_machine.py: the orchestrator's state machine.

module StateMachines {
  import opened Basics

  datatype State = Init | Plan | Validate | Execute | Verify | Patch | Done

  function ValidTransitions(s: State): set<State> {
    match s
    case Init => {Plan}
    case Plan => {Validate}
    case Validate => {Execute, Plan}
    case Execute => {Verify}
    case Verify => {Patch, Done}
    case Patch => {Execute}
    case Done => {}
  }

  // How a statement ends: normally, or with one of the exceptions that are told apart.
  datatype Flow = Continue | TransitionError | OtherError {
    predicate IsFailure() {
      !Continue?
    }

    function PropagateFailure(): Flow {
      this
    }
  }

  datatype Move = Move(before: State, after: State, patches: nat)

  // The moves form a path from the initial state to last.
  ghost predicate LegalPath(history: seq<Move>, last: State) {
    if history == [] then last == Init
    else
      var move := history[|history| - 1];
      move.after == last && last in ValidTransitions(move.before) && LegalPath(history[..|history| - 1], move.before)
  }

  // How often a state was entered.
  ghost function Entries(history: seq<Move>, s: State): nat {
    if history == [] then 0
    else Entries(history[..|history| - 1], s) + if history[|history| - 1].after == s then 1 else 0
  }

  // Every execution follows the plan or a patch, so a path that ends outside Execute and Patch has
  // one more execution than patches, or neither.
  lemma {:induction false} ExecutionsAndPatches(history: seq<Move>, last: State)
    requires LegalPath(history, last)
    ensures last in {Init, Plan, Validate} ==> Entries(history, Execute) == 0 && Entries(history, Patch) == 0
    ensures last in {Execute, Verify, Done} ==> Entries(history, Execute) == Entries(history, Patch) + 1
    ensures last == Patch ==> Entries(history, Execute) == Entries(history, Patch)
  {
    if history != [] {
      ExecutionsAndPatches(history[..|history| - 1], history[|history| - 1].before);
    }
  }

  lemma MoveAdded(history: seq<Move>, move: Move)
    ensures forall s :: Entries(history + [move], s) == Entries(history, s) + if s == move.after then 1 else 0
    ensures LegalPath(history + [move], move.after) <==>
      move.after in ValidTransitions(move.before) && LegalPath(history, move.before)
  {
    assert (history + [move])[..|history|] == history;
  }

  // The legal moves.
  lemma MovesAre(before: State, after: State)
    ensures after in ValidTransitions(before) <==> (before, after) in {
      (Init, Plan), (Plan, Validate), (Validate, Execute), (Validate, Plan), (Execute, Verify),
      (Verify, Patch), (Verify, Done), (Patch, Execute)}
  {
  }

  class StateMachine {
    const maxRetries: int
    var state: State
    var patchCount: nat
    var history: seq<Move>

    // The history is a legal path to the state with at most maxRetries patches; only the attempts
    // beyond that are counted without being made.
    ghost predicate Valid()
      reads this
    {
      LegalPath(history, state) && Entries(history, Patch) == Min(patchCount, AtLeastZero(maxRetries))
    }

    constructor (maxRetries: int)
      ensures Valid() && this.maxRetries == maxRetries && state == Init && patchCount == 0 && history == []
    {
      this.maxRetries, state, patchCount, history := maxRetries, Init, 0, [];
    }

    method Transition(next: State) returns (flow: Flow)
      requires Valid()
      modifies this
      ensures Valid()
      ensures flow == if next in ValidTransitions(old(state)) && (next == Patch ==> old(patchCount) < maxRetries)
                      then Continue else TransitionError
      ensures patchCount == old(patchCount) + if next == Patch && old(state) == Verify then 1 else 0
      ensures flow.Continue? ==> state == next && history == old(history) + [Move(old(state), next, patchCount)]
      ensures flow.Continue? ==>
        forall s :: Entries(history, s) == Entries(old(history), s) + if s == next then 1 else 0
      ensures !flow.Continue? ==> state == old(state) && history == old(history)
    {
      if next !in ValidTransitions(state) { return TransitionError; }
      if next == Patch {
        patchCount := patchCount + 1;
        if patchCount > maxRetries { return TransitionError; }
      }
      var move := Move(state, next, patchCount);
      MoveAdded(history, move);
      hide Entries, LegalPath;
      state, history := next, history + [move];
      return Continue;
    }

    method Reset()
      modifies this
      ensures Valid() && state == Init && patchCount == 0 && history == []
    {
      state, patchCount, history := Init, 0, [];
    }
  }
}
