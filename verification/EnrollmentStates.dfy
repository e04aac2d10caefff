/** The enrollment lifecycle: its states, its legal moves, and what a whole history of moves looks like. */
module EnrollmentStates {

  datatype State =
    | Enrolled
    | StepSent
    | WaitingReply
    | ReplyReceived
    | OooDetected
    | Failed
    | Bounced
    | Unsubscribed
    | Suppressed
    | Completed

  function LegalTransitions(from: State): set<State> {
    match from
    case Enrolled => {StepSent, Suppressed, Failed}
    case StepSent => {WaitingReply, Bounced, Unsubscribed, Failed, Completed}
    case WaitingReply => {ReplyReceived, OooDetected, Enrolled, Completed}
    case OooDetected => {Enrolled, Completed}
    case _ => {}
  }

  predicate CanTransition(from: State, to: State) {
    to in LegalTransitions(from)
  }

  /** The terminal set is a table of its own, separate from the edges. */
  predicate IsTerminal(s: State) {
    s in {ReplyReceived, Failed, Bounced, Unsubscribed, Suppressed, Completed}
  }

  /** How each state is entered: the same edges read backwards. */
  ghost function Predecessors(to: State): set<State> {
    match to
    case Enrolled => {WaitingReply, OooDetected}
    case StepSent => {Enrolled}
    case WaitingReply => {StepSent}
    case ReplyReceived => {WaitingReply}
    case OooDetected => {WaitingReply}
    case Failed => {Enrolled, StepSent}
    case Bounced => {StepSent}
    case Unsubscribed => {StepSent}
    case Suppressed => {Enrolled}
    case Completed => {StepSent, WaitingReply, OooDetected}
  }

  lemma EdgesAgree(from: State, to: State)
    ensures CanTransition(from, to) <==> from in Predecessors(to)
  {
    match to {
      case Completed =>
      case _ =>
    }
  }

  /** The two tables agree: a state is terminal exactly when no edge leaves it. */
  lemma TerminalIff(s: State)
    ensures IsTerminal(s) <==> forall to :: !CanTransition(s, to)
  {
    assert CanTransition(s, Completed) || CanTransition(s, Failed) || LegalTransitions(s) == {};
  }

  datatype Move = Move(from: State, to: State)

  /** `moves` is a walk in the legal graph from `start` to `end`. */
  ghost predicate IsPath(moves: seq<Move>, start: State, end: State) {
    if moves == [] then start == end
    else
      var last := moves[|moves| - 1];
      && last.to == end
      && CanTransition(last.from, last.to)
      && IsPath(moves[..|moves| - 1], start, last.from)
  }

  /** How many moves enter `s`. */
  function Entries(moves: seq<Move>, s: State): (n: nat)
    ensures n <= |moves|
  {
    if moves == [] then 0
    else Entries(moves[..|moves| - 1], s) + if moves[|moves| - 1].to == s then 1 else 0
  }

  /** Each move is legal and starts where the previous one ended; the ends are `start` and `end`. */
  ghost predicate IsChain(moves: seq<Move>, start: State, end: State) {
    && (forall i :: 0 <= i < |moves| ==> CanTransition(moves[i].from, moves[i].to))
    && (forall i :: 0 < i < |moves| ==> moves[i].from == moves[i - 1].to)
    && (if moves == [] then start == end
        else moves[0].from == start && moves[|moves| - 1].to == end)
  }

  lemma ChainStep(moves: seq<Move>, start: State, end: State)
    requires moves != []
    ensures var n := |moves| - 1;
            IsChain(moves, start, end) <==>
            moves[n].to == end && CanTransition(moves[n].from, moves[n].to) && IsChain(moves[..n], start, moves[n].from)
  {
    var n := |moves| - 1;
    var prefix, last := moves[..n], moves[n];
    assert moves == prefix + [last];
    assert forall i :: 0 <= i < n ==> prefix[i] == moves[i];
  }

  lemma {:induction false} PathIsChain(moves: seq<Move>, start: State, end: State)
    ensures IsPath(moves, start, end) <==> IsChain(moves, start, end)
  {
    if moves != [] {
      ChainStep(moves, start, end);
      PathIsChain(moves[..|moves| - 1], start, moves[|moves| - 1].from);
    }
  }

  /** A terminal state is never left, so it can only be the last state of a walk. */
  lemma {:induction false} TerminalStatesAreFinal(moves: seq<Move>, start: State, end: State)
    requires IsPath(moves, start, end)
    ensures forall i :: 0 <= i < |moves| - 1 ==> !IsTerminal(moves[i].to)
    ensures IsTerminal(start) ==> moves == []
  {
    PathIsChain(moves, start, end);
    forall i | 0 <= i < |moves| - 1 ensures !IsTerminal(moves[i].to) {
      assert CanTransition(moves[i + 1].from, moves[i + 1].to);
    }
  }

  /** Sends and resumptions alternate: a history has sent one step more than it resumed, or exactly as many. */
  lemma {:induction false} SendBalance(moves: seq<Move>, end: State)
    requires IsPath(moves, Enrolled, end)
    ensures 0 <= Entries(moves, StepSent) - Entries(moves, Enrolled) <= 1
    ensures end in {Enrolled, Suppressed} ==> Entries(moves, StepSent) == Entries(moves, Enrolled)
    ensures end !in {Enrolled, Suppressed, Failed} ==> Entries(moves, StepSent) == Entries(moves, Enrolled) + 1
    ensures end == Failed ==>
              (Entries(moves, StepSent) == Entries(moves, Enrolled) + 1 <==>
               moves[|moves| - 1].from == StepSent)
  {
    if moves != [] {
      SendBalance(moves[..|moves| - 1], moves[|moves| - 1].from);
    }
  }
}
