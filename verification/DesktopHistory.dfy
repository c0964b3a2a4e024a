/** Where the drain of the event-loop runner is, and whether its cycle is cancelled, by the steps of the run. */
module DesktopHistory {
  import opened Positions
  import L = Lifecycle
  import opened DesktopRunner

  /** The places of a drain: asking for the lease, with the callback queued, running it, giving the lease
      back, between two looks at the reasons, and past its loop. */
  datatype Place = Asking | Queued | InCycle | Returning | Looking | Leaving

  predicate At(place: Place, r: Runner) {
    match place
    case Asking => r.drain.AwaitAcquire?
    case Queued => r.drain.Starting?
    case InCycle => r.drain.AwaitCycle?
    case Returning => r.drain.AwaitRelease?
    case Looking => r.drain.Between?
    case Leaving => r.drain.Finishing?
  }

  /** Nothing is left to look at, or the outcome could not be reported. */
  predicate EndsLoop(r: Runner, step: Step) {
    r.drain.Between? && step.Continue? && (!step.outcomeOk || Closed(r) || r.pending == {})
  }

  predicate Answered(r: Runner, step: Step, granted: bool) {
    r.drain.AwaitAcquire? && step.AcquireDone? && (step.answer.Granted? <==> granted)
  }

  predicate Enters(place: Place, r: Runner, step: Step) {
    match place
    case Asking => Attempts(r, step) && HeadOf(step).usable
    case Queued => Answered(r, step, true) && !Closed(r)
    case InCycle => r.drain.Starting? && step.StartCycle?
    case Returning => (r.drain.AwaitCycle? && step.CycleDone?) || (Answered(r, step, true) && Closed(r))
    case Looking => (r.drain.AwaitRelease? && step.ReleaseDone?) || Answered(r, step, false)
    case Leaving => EndsLoop(r, step) || (Attempts(r, step) && !HeadOf(step).usable)
  }

  predicate Exits(place: Place, r: Runner, step: Step) {
    match place
    case Asking => step.AcquireDone?
    case Queued => step.StartCycle?
    case InCycle => step.CycleDone?
    case Returning => step.ReleaseDone?
    case Looking => step.Continue?
    case Leaving => step.Forget?
  }

  /** The cycle that holds the lease, or is about to, is told to stop. */
  predicate Cancels(r: Runner, step: Step) {
    || (r.drain.AwaitCycle? && step.Timeout?)
    || (Held(r.drain) && !Closed(r) && step.Close?)
    || (Answered(r, step, true) && !Closed(r) && Closes(step.observed))
  }

  predicate Finishes(r: Runner, step: Step) { r.drain.AwaitCycle? && step.CycleDone? }

  predicate Follows(r: Runner, step: Step, n: Runner) {
    && (forall place :: At(place, n) <==> Enters(place, r, step) || (At(place, r) && !Exits(place, r, step)))
    && (n.life.cancelRequested <==> Cancels(r, step) || (r.life.cancelRequested && !Finishes(r, step)))
  }

  lemma WakeFollows(r: Runner, step: Step)
    requires Agree(r) && !Stopped(r) && step.Wake? && !Stopped(Next(r, step))
    ensures Follows(r, step, Next(r, step))
  {
    if !Closed(r) {
      var n := r.(pending := r.pending + {step.reason}, life := r.life.(wakePending := true));
      assert step.reason in r.pending + {step.reason};
      assert Apply(r.(pending := r.pending + {step.reason}), L.Wake) == n;
      if n.drain.NoDrain? {
        FirstAttempt(n, step.head, step.early);
      }
    }
  }

  lemma ContinueFollows(r: Runner, step: Step)
    requires Agree(r) && !Stopped(r) && step.Continue? && !Stopped(Next(r, step))
    ensures Follows(r, step, Next(r, step))
  {
    if Attempts(r, step) {
      LaterAttempt(r, step.head);
    }
  }

  lemma AcquireFollows(r: Runner, step: Step)
    requires Agree(r) && !Stopped(r) && step.AcquireDone?
    ensures Follows(r, step, Next(r, step))
  {
    if r.drain.AwaitAcquire? && step.answer.Granted? && !r.life.closeRequested {
      var g := r.(life := r.life.(phase := L.Running, permitHeld := true, cancelRequested := false), grants := r.grants + [step.answer.fence]);
      assert Apply(r, L.AcquireGranted).(grants := r.grants + [step.answer.fence]) == g;
      CancelledCalls(g, step.observed);
    }
  }

  lemma {:induction false} CancelledCalls(r: Runner, calls: seq<Call>)
    requires Callable(r) && r.life.phase.Running? && !Closed(r) && !r.life.cancelRequested
    ensures var n := Reenter(r, calls, true); n.life.phase.Running? && (n.life.cancelRequested <==> Closes(calls))
    decreases |calls|
  {
    if calls != [] {
      match calls[0]
      case CallClose => ClosedCalls(CloseNow(r), calls[1..], true);
      case CallWake(reason, _) =>
        WakeCall(r, reason);
        CancelledCalls(r.(pending := r.pending + {reason}, life := r.life.(wakePending := true)), calls[1..]);
    }
  }

  lemma OtherFollows(r: Runner, step: Step)
    requires Agree(r) && !Stopped(r) && !step.Wake? && !step.Continue? && !step.AcquireDone?
    ensures Follows(r, step, Next(r, step))
  {}

  lemma StepFollows(r: Runner, step: Step)
    requires Agree(r) && !Stopped(r) && !Stopped(Next(r, step))
    ensures Follows(r, step, Next(r, step))
  {
    match step
    case Wake(_, _, _) => WakeFollows(r, step);
    case Continue(_, _) => ContinueFollows(r, step);
    case AcquireDone(_, _) => AcquireFollows(r, step);
    case _ => OtherFollows(r, step);
  }

  lemma {:induction false} NeverStopped(steps: seq<Step>, i: nat)
    requires i <= |steps| && !Stopped(Reach(steps))
    ensures !Stopped(Reach(steps[..i]))
    decreases |steps|
  {
    if i == |steps| {
      assert steps[..i] == steps;
    } else {
      var n := |steps| - 1;
      ReachPush(steps[..n], steps[n]);
      assert steps[..n] + [steps[n]] == steps && steps[..n][..i] == steps[..i];
      NeverStopped(steps[..n], i);
    }
  }

  lemma RunFollows(steps: seq<Step>, i: nat)
    requires i < |steps| && !Stopped(Reach(steps))
    ensures Follows(Reach(steps[..i]), steps[i], Reach(steps[..i + 1]))
  {
    NeverStopped(steps, i);
    NeverStopped(steps, i + 1);
    assert steps[..i + 1] == steps[..i] + [steps[i]];
    ReachPush(steps[..i], steps[i]);
    GrantsGivenBack(steps[..i]);
    StepFollows(Reach(steps[..i]), steps[i]);
  }

  function Entering(place: Place): (Runner, Step) -> bool { (r: Runner, step: Step) => Enters(place, r, step) }
  function Exiting(place: Place): (Runner, Step) -> bool { (r: Runner, step: Step) => Exits(place, r, step) }

  /** Each place has its way in and its way out, under every interleaving; and a cycle is cancelled exactly
      from a timeout or a close while it held the lease until it ends. */
  lemma DrainExactly(steps: seq<Step>, place: Place)
    requires !Stopped(Reach(steps))
    ensures At(place, Reach(steps)) <==> Since(Reach, steps, Entering(place), Exiting(place))
    ensures Reach(steps).life.cancelRequested <==> Since(Reach, steps, Cancels, Finishes)
  {
    forall i | 0 <= i < |steps|
      ensures Follows(Reach(steps[..i]), steps[i], Reach(steps[..i + 1]))
    {
      RunFollows(steps, i);
    }
    HistoryOf(Reach, steps, (r: Runner) => At(place, r), Entering(place), Exiting(place));
    HistoryOf(Reach, steps, (r: Runner) => r.life.cancelRequested, Cancels, Finishes);
  }
}
