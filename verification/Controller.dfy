// Controller states and the transitions nvme_change_ctrl_state admits.
module Controller {
  datatype CtrlState = New | Live | Resetting | Connecting | Deleting | Dead

  predicate Admits(from: CtrlState, to: CtrlState) {
    match to
    case Live => from.New? || from.Resetting? || from.Connecting?
    case Resetting => from.New? || from.Live?
    case Connecting => from.New? || from.Resetting?
    case Deleting => from.Live? || from.Resetting? || from.Connecting?
    case Dead => from.Deleting?
    case New => false
  }

  // The state diagram, transition by transition.
  const TRANSITIONS: set<(CtrlState, CtrlState)> := {
    (New, Live), (Resetting, Live), (Connecting, Live),
    (New, Resetting), (Live, Resetting),
    (New, Connecting), (Resetting, Connecting),
    (Live, Deleting), (Resetting, Deleting), (Connecting, Deleting),
    (Deleting, Dead)
  }

  lemma AdmitsExact(from: CtrlState, to: CtrlState)
    ensures Admits(from, to) <==> (from, to) in TRANSITIONS
  {
  }

  function Change(state: CtrlState, to: CtrlState): CtrlState {
    if Admits(state, to) then to else state
  }

  // nvme_state_terminal
  predicate Terminal(state: CtrlState) {
    state.Deleting? || state.Dead?
  }

  function Changes(state: CtrlState, requests: seq<CtrlState>): CtrlState
    decreases |requests|
  {
    if requests == [] then state else Changes(Change(state, requests[0]), requests[1..])
  }

  // A controller once being deleted never gets back, whatever is asked of it.
  lemma {:induction false} TerminalForever(state: CtrlState, requests: seq<CtrlState>)
    requires Terminal(state)
    ensures Terminal(Changes(state, requests)) && (state.Dead? ==> Changes(state, requests).Dead?)
    decreases |requests|
  {
    if requests != [] {
      TerminalForever(Change(state, requests[0]), requests[1..]);
    }
  }

  // The terminal states are exactly those from which no requests lead back.
  lemma TerminalExact(state: CtrlState)
    ensures Terminal(state) <==> forall requests :: !Changes(state, requests).Live?
  {
    if Terminal(state) {
      forall requests
        ensures !Changes(state, requests).Live?
      {
        TerminalForever(state, requests);
      }
    } else {
      var back := BackToLive(state);
      assert Changes(state, back).Live?;
    }
  }

  lemma BackToLive(state: CtrlState) returns (requests: seq<CtrlState>)
    requires !Terminal(state)
    ensures Changes(state, requests).Live?
  {
    if state.Live? {
      requests := [];
    } else {
      requests := [Live];
      assert requests[1..] == [];
    }
  }
}
