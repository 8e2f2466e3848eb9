/** Pushing the new head to the seed node (seed_blockhead_push.go): block application calls a hook
    that never blocks; one worker waits for a wake token, lets a burst settle, and triggers. */
module HeadPush {

  datatype Phase = Waiting | Debouncing | Triggering

  /** `recording` hooks have stored their head and not yet set the flag; `signalling` have set the
      flag and not yet offered the token. `heads` counts stored heads and `covered` how many of
      them preceded the start of the last trigger. */
  datatype State = State(pending: bool, token: bool, recording: nat, signalling: nat, worker: Phase, heads: nat,
                         covered: nat)

  datatype Step = StoreHead | SetFlag | OfferToken | Work

  predicate Enabled(s: State, step: Step) {
    match step
    case StoreHead => true
    case SetFlag => s.recording > 0
    case OfferToken => s.signalling > 0
    case Work => s.worker != Waiting || s.token
  }

  /** The token channel holds one; a hook that finds it full goes on. */
  function Next(s: State, step: Step): State
    requires Enabled(s, step)
  {
    match step
    case StoreHead => s.(recording := s.recording + 1, heads := s.heads + 1)
    case SetFlag => s.(recording := s.recording - 1, pending := true, signalling := s.signalling + 1)
    case OfferToken => s.(signalling := s.signalling - 1, token := true)
    case Work =>
      match s.worker
      case Waiting => s.(token := false, worker := Debouncing)
      case Debouncing =>
        if s.pending then s.(pending := false, worker := Triggering, covered := s.heads) else s.(worker := Waiting)
      case Triggering => s.(worker := Waiting)
  }

  const START := State(false, false, 0, 0, Waiting, 0, 0)

  /** A set flag is always going to be seen, and a head that no trigger covers has its flag set
      or about to be. */
  ghost predicate NothingLost(s: State) {
    && (s.pending ==> s.token || s.worker == Debouncing || s.signalling > 0)
    && (s.covered < s.heads ==> s.pending || s.recording > 0) && s.covered <= s.heads
  }

  ghost predicate Execution(states: seq<State>, steps: seq<Step>) {
    && |states| == |steps| + 1
    && forall i :: 0 <= i < |steps| ==> Enabled(states[i], steps[i]) && states[i + 1] == Next(states[i], steps[i])
  }

  lemma StepKeeps(s: State, step: Step)
    requires NothingLost(s) && Enabled(s, step)
    ensures NothingLost(Next(s, step))
  {}

  /** Under every interleaving of any number of hook calls with the worker. */
  lemma {:induction false} NeverLost(states: seq<State>, steps: seq<Step>, i: nat)
    requires Execution(states, steps) && NothingLost(states[0]) && i <= |steps|
    ensures NothingLost(states[i])
  {
    if i > 0 {
      NeverLost(states, steps, i - 1);
      StepKeeps(states[i - 1], steps[i - 1]);
    }
  }

  /** When nothing is in flight, every head has been followed by a trigger that started after it. */
  lemma QuietMeansPushed(states: seq<State>, steps: seq<Step>)
    requires Execution(states, steps) && states[0] == START
    requires var s := states[|steps|]; s.recording == 0 && s.signalling == 0 && !s.token && s.worker == Waiting
    ensures states[|steps|].covered == states[|steps|].heads
  {
    NeverLost(states, steps, |steps|);
  }

  // ----- How soon -----

  /** Worker steps until the flag is seen. */
  function Distance(s: State): nat {
    match s.worker
    case Debouncing => 1
    case Waiting => 2
    case Triggering => 3
  }

  /** Head number `goal` is covered, or will be within `d` steps of the worker, none of which
      waits for anything. */
  ghost predicate Due(s: State, goal: nat, d: nat) {
    s.covered >= goal || (s.pending && (s.token || s.worker == Debouncing) && Distance(s) <= d && goal <= s.heads)
  }

  lemma StepDue(s: State, step: Step, goal: nat, d: nat)
    requires NothingLost(s) && Enabled(s, step) && Due(s, goal, d)
    ensures Due(Next(s, step), goal, if step == Work && d > 0 then d - 1 else d)
    ensures s.covered < goal ==> Enabled(s, Work)
  {}

  function WorkDone(steps: seq<Step>): nat {
    if steps == [] then 0 else WorkDone(steps[..|steps| - 1]) + (if steps[|steps| - 1] == Work then 1 else 0)
  }

  /** Once a hook has signalled, three steps of the worker, with any hooks in between, start a
      trigger after its head was stored. */
  lemma {:induction false} PushedSoon(states: seq<State>, steps: seq<Step>, goal: nat)
    requires Execution(states, steps) && NothingLost(states[0]) && Due(states[0], goal, 3)
    ensures Due(states[|steps|], goal, if WorkDone(steps) < 3 then 3 - WorkDone(steps) else 0)
    ensures WorkDone(steps) >= 3 ==> states[|steps|].covered >= goal
  {
    if steps != [] {
      var n := |steps| - 1;
      PushedSoon(states[..n + 1], steps[..n], goal);
      NeverLost(states, steps, n);
      StepDue(states[n], steps[n], goal, if WorkDone(steps[..n]) < 3 then 3 - WorkDone(steps[..n]) else 0);
    }
  }

  // ----- One hook among many -----

  /** Head number `goal` is covered, or the flag is up for it. */
  ghost predicate Flagged(s: State, goal: nat) { s.covered >= goal || (s.pending && goal <= s.heads) }

  lemma StepFlagged(s: State, step: Step, goal: nat)
    requires NothingLost(s) && Enabled(s, step)
    ensures Next(s, step).heads >= s.heads
    ensures Flagged(s, goal) || (step == SetFlag && goal <= s.heads) ==> Flagged(Next(s, step), goal)
    ensures Flagged(s, goal) && step == OfferToken ==> Due(Next(s, step), goal, 3)
  {}

  lemma {:induction false} HeadsGrow(states: seq<State>, steps: seq<Step>, i: nat, j: nat)
    requires Execution(states, steps) && NothingLost(states[0]) && i <= j <= |steps|
    ensures states[i].heads <= states[j].heads
  {
    if i < j {
      HeadsGrow(states, steps, i, j - 1);
      NeverLost(states, steps, j - 1);
      StepFlagged(states[j - 1], steps[j - 1], 0);
    }
  }

  lemma {:induction false} StaysFlagged(states: seq<State>, steps: seq<Step>, goal: nat, i: nat, j: nat)
    requires Execution(states, steps) && NothingLost(states[0]) && i <= j <= |steps| && Flagged(states[i], goal)
    ensures Flagged(states[j], goal)
  {
    if i < j {
      StaysFlagged(states, steps, goal, i, j - 1);
      NeverLost(states, steps, j - 1);
      StepFlagged(states[j - 1], steps[j - 1], goal);
    }
  }

  /** Whatever other hooks are doing: if a hook has stored head `goal` by state `a`, sets the flag at
      `b` and offers the token at `c`, then three further steps of the worker start a trigger
      after that head was stored. */
  lemma HookPushes(states: seq<State>, steps: seq<Step>, goal: nat, a: nat, b: nat, c: nat)
    requires Execution(states, steps) && states[0] == START && a <= b < c < |steps|
    requires goal <= states[a].heads && steps[b] == SetFlag && steps[c] == OfferToken
    requires WorkDone(steps[c + 1..]) >= 3
    ensures states[|steps|].covered >= goal
  {
    HeadsGrow(states, steps, a, b);
    NeverLost(states, steps, b);
    StepFlagged(states[b], steps[b], goal);
    StaysFlagged(states, steps, goal, b + 1, c);
    NeverLost(states, steps, c);
    StepFlagged(states[c], steps[c], goal);
    NeverLost(states, steps, c + 1);
    PushedSoon(states[c + 1..], steps[c + 1..], goal);
  }

  /** And as soon as the hooks in flight have finished, every stored head is due. */
  lemma SettledIsDue(s: State)
    requires NothingLost(s) && s.recording == 0 && s.signalling == 0
    ensures Due(s, s.heads, 3)
  {}
}
