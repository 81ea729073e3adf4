/**
  `Sender::closed` and the receiver's drop in crates/kaas-ui-api/src/streaming.rs. Any number of calls to
  `closed` may be in flight; they are alike, so a state counts how many are at each point.
*/
module RingClosing {

  /**
    `started`: about to look at the flag. `checked`: found the receiver there, about to wait. `parked`:
    waiting. `woken`: notified and not yet run. `permit` is a stored wake-up, `owed` the `notify_one`
    still to come from the drop.
  */
  datatype State = State(gone: bool, owed: nat, permit: bool,
                         started: nat, checked: nat, parked: nat, woken: nat, returned: nat)
  {
    /** Calls that looked before the receiver went and have not been woken since. */
    function Waiting(): nat { checked + parked }

    /** Wake-ups that are stored or owed. */
    function WakeUps(): nat { owed + if permit then 1 else 0 }

    function InFlight(): nat { started + checked + parked + woken }
  }

  datatype Step = Call | Look | Poll | Resume | DropReceiver | Notify | CancelStarted | CancelChecked | CancelParked | CancelWoken

  const FRESH := State(false, 0, false, 0, 0, 0, 0, 0)

  predicate Enabled(s: State, step: Step) {
    match step
    case Call => true
    case Look => s.started > 0
    case Poll => s.checked > 0
    case Resume => s.woken > 0
    case DropReceiver => !s.gone
    case Notify => s.owed > 0
    case CancelStarted => s.started > 0
    case CancelChecked => s.checked > 0
    case CancelParked => s.parked > 0
    case CancelWoken => s.woken > 0
  }

  /** `notify_one`: one waiter if there is one, and a stored permit if there is none. */
  function NotifyOne(s: State): State {
    if s.parked > 0 then s.(parked := s.parked - 1, woken := s.woken + 1) else s.(permit := true)
  }

  function Next(s: State, step: Step): State
    requires Enabled(s, step)
  {
    match step
    case Call => s.(started := s.started + 1)
    case Look =>
      if s.gone then s.(started := s.started - 1, returned := s.returned + 1)
      else s.(started := s.started - 1, checked := s.checked + 1)
    case Poll =>
      if s.permit then s.(checked := s.checked - 1, permit := false, started := s.started + 1)
      else s.(checked := s.checked - 1, parked := s.parked + 1)
    case Resume => s.(woken := s.woken - 1, started := s.started + 1)
    case DropReceiver => s.(gone := true, owed := s.owed + 1)
    case Notify => NotifyOne(s.(owed := s.owed - 1))
    case CancelStarted => s.(started := s.started - 1)
    case CancelChecked => s.(checked := s.checked - 1)
    case CancelParked => s.(parked := s.parked - 1)
    case CancelWoken => NotifyOne(s.(woken := s.woken - 1))
  }

  function Run(s: State, steps: seq<Step>): State
    requires AllEnabled(s, steps)
    decreases |steps|
  {
    if steps == [] then s else Run(Next(s, steps[0]), steps[1..])
  }

  predicate AllEnabled(s: State, steps: seq<Step>)
    decreases |steps|
  {
    steps == [] || (Enabled(s, steps[0]) && AllEnabled(Next(s, steps[0]), steps[1..]))
  }

  /** Before the drop nothing wakes anybody; a parked call means no permit is stored. */
  predicate Sound(s: State) {
    && (!s.gone ==> s.WakeUps() == 0 && s.woken == 0)
    && (s.parked > 0 ==> !s.permit)
    && s.WakeUps() + s.woken <= 1
  }

  lemma {:induction false} RunIsSound(s: State, steps: seq<Step>)
    requires Sound(s) && AllEnabled(s, steps)
    ensures Sound(Run(s, steps))
    ensures s.gone ==> Run(s, steps).gone
    decreases |steps|
  {
    if steps != [] {
      RunIsSound(Next(s, steps[0]), steps[1..]);
    }
  }

  predicate Cancels(step: Step) {
    step == CancelStarted || step == CancelChecked || step == CancelParked || step == CancelWoken
  }

  /** How many calls give up that had looked already: they were waiting, or leave their wake-up to another. */
  function GivenUp(steps: seq<Step>): nat {
    if steps == [] then 0
    else
      (if Cancels(steps[0]) && steps[0] != CancelStarted then 1 else 0) + GivenUp(steps[1..])
  }

  lemma {:induction false} NobodyGaveUp(steps: seq<Step>)
    requires forall step | step in steps :: !Cancels(step)
    ensures GivenUp(steps) == 0
  {
    if steps != [] {
      assert steps[0] in steps && forall step | step in steps[1..] :: step in steps;
      NobodyGaveUp(steps[1..]);
    }
  }

  /** After the drop, one wake-up serves one waiting call, and each call that gives up serves another. */
  lemma {:induction false} ShortfallAfterTheDrop(s: State, steps: seq<Step>)
    requires Sound(s) && s.gone && AllEnabled(s, steps)
    ensures var t := Run(s, steps);
            t.Waiting() - t.WakeUps() == s.Waiting() - s.WakeUps() - GivenUp(steps)
    decreases |steps|
  {
    if steps != [] {
      ShortfallAfterTheDrop(Next(s, steps[0]), steps[1..]);
    }
  }

  // ----- which calls return -----

  /** A step that neither starts a call nor gives one up. */
  predicate Quiet(step: Step) {
    step == Look || step == Poll || step == Resume || step == Notify
  }

  /** Quiet steps only, one after another. */
  predicate QuietRun(s: State, steps: seq<Step>) {
    AllEnabled(s, steps) && forall step | step in steps :: Quiet(step)
  }

  /** Nothing is left to do: whoever has not returned waits for ever. */
  predicate Settled(s: State) {
    forall step | Quiet(step) :: !Enabled(s, step)
  }

  /** What is left to do once the receiver is gone, each call by the steps it is from returning. */
  function Work(s: State): nat {
    s.started + 2 * s.woken + 3 * s.parked + 4 * s.checked + s.owed
  }

  lemma QuietStepWorks(s: State, step: Step)
    requires Sound(s) && s.gone && Quiet(step) && Enabled(s, step)
    ensures Sound(Next(s, step)) && Next(s, step).gone && Work(Next(s, step)) < Work(s)
    ensures Next(s, step).returned + Next(s, step).InFlight() == s.returned + s.InFlight()
  {
  }

  /** No schedule goes on for ever. */
  lemma {:induction false} QuietRunsEnd(s: State, steps: seq<Step>)
    requires Sound(s) && s.gone && QuietRun(s, steps)
    ensures |steps| <= Work(s)
    ensures Run(s, steps).returned + Run(s, steps).InFlight() == s.returned + s.InFlight()
    decreases |steps|
  {
    if steps != [] {
      assert steps[0] in steps && forall step | step in steps[1..] :: step in steps;
      QuietStepWorks(s, steps[0]);
      QuietRunsEnd(Next(s, steps[0]), steps[1..]);
    }
  }

  /** And any can be carried on until nothing is left to do. */
  lemma {:induction false} SomeRunSettles(s: State) returns (steps: seq<Step>)
    requires Sound(s) && s.gone
    ensures QuietRun(s, steps) && Settled(Run(s, steps))
    decreases Work(s)
  {
    if Settled(s) {
      steps := [];
    } else {
      var step :| Quiet(step) && Enabled(s, step);
      QuietStepWorks(s, step);
      var rest := SomeRunSettles(Next(s, step));
      steps := [step] + rest;
      assert steps[1..] == rest;
    }
  }

  /** Once settled, a call is left exactly where there were more calls waiting than wake-ups for them. */
  lemma SettledCalls(s: State, steps: seq<Step>)
    requires Sound(s) && s.gone && QuietRun(s, steps) && Settled(Run(s, steps))
    ensures Run(s, steps).InFlight() == 0 <==> s.Waiting() <= s.WakeUps()
  {
    var t := Run(s, steps);
    RunIsSound(s, steps);
    ShortfallAfterTheDrop(s, steps);
    NobodyGaveUp(steps);
    assert !Enabled(t, Look) && !Enabled(t, Poll) && !Enabled(t, Resume) && !Enabled(t, Notify) by {
      assert Quiet(Look) && Quiet(Poll) && Quiet(Resume) && Quiet(Notify);
    }
  }

  /**
    When `closed` resolves for everyone: every schedule comes to an end, and at the end every call has returned,
    exactly if at most one call was waiting when the receiver was dropped. With more there is no schedule at
    all in which they do: the drop notifies once.
  */
  lemma EveryCallReturnsIff(before: State)
    requires Sound(before) && !before.gone
    ensures var after := Next(before, DropReceiver);
            && (forall steps | QuietRun(after, steps) :: |steps| <= Work(after))
            && ((forall steps | QuietRun(after, steps) && Settled(Run(after, steps)) ::
                   Run(after, steps).returned == before.returned + before.InFlight())
                <==> before.Waiting() <= 1)
            && ((exists steps :: QuietRun(after, steps)
                                 && Run(after, steps).returned == before.returned + before.InFlight())
                <==> before.Waiting() <= 1)
  {
    hide Run, Settled;
    var after := Next(before, DropReceiver);
    forall steps | QuietRun(after, steps)
      ensures |steps| <= Work(after)
      ensures Run(after, steps).returned + Run(after, steps).InFlight() == before.returned + before.InFlight()
    {
      QuietRunsEnd(after, steps);
    }
    forall steps | QuietRun(after, steps) && Settled(Run(after, steps))
      ensures Run(after, steps).InFlight() == 0 <==> before.Waiting() <= 1
    {
      SettledCalls(after, steps);
    }
    var settling := SomeRunSettles(after);
    assert Run(after, settling).InFlight() == 0 <==> before.Waiting() <= 1;
    forall steps | QuietRun(after, steps) && before.Waiting() >= 2 ensures Run(after, steps).InFlight() != 0 {
      SecondCallWaitsForever(before, steps);
    }
  }

  /** With two calls waiting, one waits for ever: no run in which nobody gives up frees it. */
  lemma SecondCallWaitsForever(before: State, steps: seq<Step>)
    requires Sound(before) && !before.gone && before.Waiting() >= 2
    requires AllEnabled(Next(before, DropReceiver), steps) && forall step | step in steps :: !Cancels(step)
    ensures Run(Next(before, DropReceiver), steps).Waiting() >= before.Waiting() - 1 >= 1
  {
    ShortfallAfterTheDrop(Next(before, DropReceiver), steps);
    NobodyGaveUp(steps);
  }

  /** And that state is reached by two calls that both look and both wait. */
  lemma TwoCallsCanWait()
    ensures var called := Next(Next(FRESH, Call), Call);
            var looked := Next(Next(called, Look), Look);
            var waiting := Next(Next(looked, Poll), Poll);
            Sound(waiting) && !waiting.gone && waiting.Waiting() == 2
  {
  }
}
