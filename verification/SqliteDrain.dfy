/** The event-loop runner over the shared table: which durable wakes its drain attempts. */
module SqliteDrain {
  import opened Positions

  /** Where the drain is suspended. `Waiting` covers the acquisition and its busy waits, `Returning` the
      gap between the end of a run and the next look at the pending reasons, `Finishing` the gap between
      the end of the loop and the microtask that forgets the drain. */
  datatype Drain = NoDrain | Waiting | Cycling(observed: nat) | Returning | Finishing

  /** `wake` and `handled` are the durable generations of the key, `own` the last one signalled here. */
  datatype Runner = Runner(drain: Drain, pending: set<string>, closed: bool, wake: nat, handled: nat, own: nat)

  function Fresh(wake: nat, handled: nat): Runner { Runner(NoDrain, {}, false, wake, handled, 0) }

  datatype Acquisition = Got | Busy | GaveUp | TokenThrows

  datatype Renewal = Renewed | Refused | Throws

  /** `completes` is whether a successful cycle's completion is accepted. Other processes signal and
      handle wakes at any time. */
  datatype Step =
    | Wake(reason: string, signalOk: bool)
    | Close
    | Acquire(answer: Acquisition)
    | CycleDone(ok: bool, completes: bool, renewal: Renewal)
    | Continue(outcomeOk: bool)
    | Forget
    | OtherSignals
    | OtherHandles(generation: nat)

  function Max(a: nat, b: nat): nat { if a < b then b else a }

  /** The wake is durable before anything else happens. */
  function OnWake(r: Runner, reason: string, signalOk: bool): Runner {
    if r.closed || !signalOk then r
    else
      var n := r.(wake := r.wake + 1, own := r.wake + 1, pending := r.pending + {reason});
      if n.drain.NoDrain? then n.(pending := {}, drain := Waiting) else n
  }

  function OnAcquire(r: Runner, answer: Acquisition): Runner {
    match answer
    case Got => r.(pending := {}, drain := Cycling(r.wake))
    case Busy => r
    case GaveUp => r.(drain := Returning)
    case TokenThrows => r.(drain := Finishing)
  }

  /** The lease goes back only with nothing newer signalled; otherwise a trailing cycle follows. */
  function OnCycle(r: Runner, ok: bool, completes: bool, renewal: Renewal): Runner
    requires r.drain.Cycling?
  {
    if !ok || !completes then r.(drain := Returning)
    else
      var n := r.(handled := Max(r.handled, r.drain.observed));
      if r.drain.observed == r.wake then n.(drain := Returning)
      else
        match renewal
        case Renewed => n.(pending := {}, drain := Cycling(r.wake))
        case Refused => n.(pending := {}, drain := Returning)
        case Throws => n.(pending := {}, drain := Finishing)
  }

  function Next(r: Runner, step: Step): Runner {
    match step
    case Wake(reason, signalOk) => OnWake(r, reason, signalOk)
    case Close => if r.closed then r else r.(closed := true, pending := {})
    case Acquire(answer) => if r.drain.Waiting? then OnAcquire(r, answer) else r
    case CycleDone(ok, completes, renewal) => if r.drain.Cycling? then OnCycle(r, ok, completes, renewal) else r
    case Continue(outcomeOk) =>
      if !r.drain.Returning? then r
      else if !outcomeOk || r.closed || r.pending == {} then r.(drain := Finishing)
      else r.(pending := {}, drain := Waiting)
    case Forget => if r.drain.Finishing? then r.(drain := NoDrain) else r
    case OtherSignals => r.(wake := r.wake + 1)
    case OtherHandles(generation) => if r.handled <= generation <= r.wake then r.(handled := generation) else r
  }

  function After(r: Runner, steps: seq<Step>): Runner {
    if steps == [] then r else Next(After(r, steps[..|steps| - 1]), steps[|steps| - 1])
  }

  function Reach(wake: nat, handled: nat): seq<Step> -> Runner {
    (steps: seq<Step>) => After(Fresh(wake, handled), steps)
  }

  lemma AfterPush(r: Runner, steps: seq<Step>, e: Step)
    ensures After(r, steps + [e]) == Next(After(r, steps), e)
  {
    assert (steps + [e])[..|steps|] == steps;
  }

  // ----- wakes that this process does not attempt -----

  /** A wake accepted by a drain that has left its loop, or an end of the drain by a throw - of the outcome
      callback or the token factory - past pending reasons. */
  predicate LeavesBehind(r: Runner, step: Step) {
    && !r.closed
    && (|| (step.Wake? && step.signalOk && r.drain.Finishing?)
        || (step.Continue? && r.drain.Returning? && !step.outcomeOk && r.pending != {})
        || (step.Acquire? && r.drain.Waiting? && step.answer.TokenThrows? && r.pending != {}))
  }

  predicate PicksUp(r: Runner, step: Step) {
    step.Close? || (step.Wake? && step.signalOk && r.drain.NoDrain?)
  }

  predicate Abandoned(r: Runner) {
    (r.drain.Finishing? || r.drain.NoDrain?) && r.pending != {}
  }

  lemma AbandonedStep(r: Runner, step: Step)
    requires r.closed ==> r.pending == {}
    ensures Next(r, step).closed ==> Next(r, step).pending == {}
    ensures Abandoned(Next(r, step)) <==> LeavesBehind(r, step) || (Abandoned(r) && !PicksUp(r, step))
  {
    if step.Wake? {
      assert step.reason in r.pending + {step.reason};
    }
  }

  lemma {:induction false} AbandonedExactly(wake: nat, handled: nat, steps: seq<Step>)
    ensures var r := Reach(wake, handled)(steps);
            && (r.closed ==> r.pending == {})
            && (Abandoned(r) <==> Since(Reach(wake, handled), steps, LeavesBehind, PicksUp))
  {
    if steps != [] {
      var before, e := steps[..|steps| - 1], steps[|steps| - 1];
      assert steps == before + [e];
      AfterPush(Fresh(wake, handled), before, e);
      AbandonedExactly(wake, handled, before);
      AbandonedStep(Reach(wake, handled)(before), e);
      SincePush(Reach(wake, handled), before, e, LeavesBehind, PicksUp);
    }
  }

  /** A run that ends without giving the lease back with nothing newer signalled. Its outcome, or the
      rejection of the drain, reports that. */
  predicate FailsRun(r: Runner, step: Step) {
    || (step.Acquire? && r.drain.Waiting? && (step.answer.GaveUp? || step.answer.TokenThrows?))
    || (step.CycleDone? && r.drain.Cycling?
        && (!step.ok || !step.completes || (r.drain.observed != r.wake && !step.renewal.Renewed?)))
  }

  predicate StartsRun(r: Runner, step: Step) {
    && !r.closed
    && (|| (step.Wake? && step.signalOk && r.drain.NoDrain?)
        || (step.Continue? && r.drain.Returning? && step.outcomeOk && r.pending != {}))
  }

  /** Where the runner's last own wake stands. `failed` says that the last run failed. */
  predicate Served(r: Runner, failed: bool) {
    && r.own <= r.wake && r.handled <= r.wake
    && match r.drain
       case Waiting => true
       case Cycling(observed) => observed <= r.wake && (r.closed || r.pending != {} || r.own <= observed)
       case _ => r.closed || r.pending != {} || failed || r.own <= r.handled
  }

  lemma ServedStep(r: Runner, step: Step, failed: bool)
    requires Served(r, failed)
    ensures Served(Next(r, step), FailsRun(r, step) || (failed && !StartsRun(r, step)))
  {
    if step.Wake? {
      assert step.reason in r.pending + {step.reason};
    }
  }

  lemma {:induction false} ServedAlways(wake: nat, handled: nat, steps: seq<Step>)
    requires handled <= wake
    ensures Served(Reach(wake, handled)(steps), Since(Reach(wake, handled), steps, FailsRun, StartsRun))
  {
    if steps != [] {
      var before, e := steps[..|steps| - 1], steps[|steps| - 1];
      assert steps == before + [e];
      AfterPush(Fresh(wake, handled), before, e);
      ServedAlways(wake, handled, before);
      ServedStep(Reach(wake, handled)(before), e, Since(Reach(wake, handled), before, FailsRun, StartsRun));
      SincePush(Reach(wake, handled), before, e, FailsRun, StartsRun);
    }
  }

  /** Nobody in this process attempts the durable wake, and nobody elsewhere has handled it. */
  predicate Stranded(r: Runner) {
    r.drain.NoDrain? && !r.closed && r.pending != {} && r.handled < r.own
  }

  /** An open runner at rest has its own last wake unhandled only if its last run failed and said so, or
      the wake is stranded; and reasons are left over exactly in the ways of `LeavesBehind`. */
  lemma {:induction false} StrandedExactly(wake: nat, handled: nat, steps: seq<Step>)
    requires handled <= wake && Reach(wake, handled)(steps).drain.NoDrain? && !Reach(wake, handled)(steps).closed
    ensures var r := Reach(wake, handled)(steps);
            && (r.pending != {} <==> Since(Reach(wake, handled), steps, LeavesBehind, PicksUp))
            && (Stranded(r) <==> Since(Reach(wake, handled), steps, LeavesBehind, PicksUp) && r.handled < r.own)
            && (r.handled < r.own ==> Stranded(r) || Since(Reach(wake, handled), steps, FailsRun, StartsRun))
  {
    AbandonedExactly(wake, handled, steps);
    ServedAlways(wake, handled, steps);
  }

  function LateWakeRun(first: string, second: string): seq<Step> {
    [Wake(first, true), Acquire(Got), CycleDone(true, true, Renewed), Continue(true), Wake(second, true), Forget]
  }

  /** A wake signalled after a perfect run, one microtask too early, is durable and attempted by nobody. */
  lemma LateWakeStrands(first: string, second: string)
    ensures After(Fresh(0, 0), LateWakeRun(first, second)) == Runner(NoDrain, {second}, false, 2, 1, 2)
    ensures Stranded(After(Fresh(0, 0), LateWakeRun(first, second)))
  {
    var steps, r := LateWakeRun(first, second), Fresh(0, 0);
    assert steps[..1] == [] + [steps[0]] && steps[..2] == steps[..1] + [steps[1]] && steps[..3] == steps[..2] + [steps[2]];
    assert steps[..4] == steps[..3] + [steps[3]] && steps[..5] == steps[..4] + [steps[4]] && steps == steps[..5] + [steps[5]];
    AfterPush(r, [], steps[0]);
    AfterPush(r, steps[..1], steps[1]);
    AfterPush(r, steps[..2], steps[2]);
    AfterPush(r, steps[..3], steps[3]);
    AfterPush(r, steps[..4], steps[4]);
    AfterPush(r, steps[..5], steps[5]);
    assert {} + {second} == {second} && second in {second};
  }

  // ----- every field by the steps of the run -----

  predicate Accepts(r: Runner, step: Step) { step.Wake? && step.signalOk && !r.closed }

  predicate Succeeds(r: Runner, step: Step) { step.CycleDone? && r.drain.Cycling? && step.ok && step.completes }

  /** A successful cycle that finds something newer asks to go on under the same lease. */
  predicate Trails(r: Runner, step: Step, renewal: Renewal) {
    Succeeds(r, step) && r.drain.observed != r.wake && step.renewal == renewal
  }

  predicate Observes(r: Runner, step: Step) {
    (r.drain.Waiting? && step.Acquire? && step.answer.Got?) || Trails(r, step, Renewed)
  }

  predicate Ends(r: Runner, step: Step) {
    || (r.drain.Waiting? && step.Acquire? && step.answer.GaveUp?)
    || (r.drain.Cycling? && step.CycleDone? && !Trails(r, step, Renewed) && !Trails(r, step, Throws))
  }

  predicate EndsDrain(r: Runner, step: Step) {
    || (r.drain.Waiting? && step.Acquire? && step.answer.TokenThrows?)
    || Trails(r, step, Throws)
    || (r.drain.Returning? && step.Continue? && (!step.outcomeOk || r.closed || r.pending == {}))
  }

  datatype Place = Asking | Running | Looking | Leaving

  predicate At(place: Place, r: Runner) {
    match place
    case Asking => r.drain.Waiting?
    case Running => r.drain.Cycling?
    case Looking => r.drain.Returning?
    case Leaving => r.drain.Finishing?
  }

  predicate Enters(place: Place, r: Runner, step: Step) {
    match place
    case Asking => StartsRun(r, step)
    case Running => Observes(r, step)
    case Looking => Ends(r, step)
    case Leaving => EndsDrain(r, step)
  }

  predicate Exits(place: Place, r: Runner, step: Step) {
    match place
    case Asking => step.Acquire? && !step.answer.Busy?
    case Running => step.CycleDone?
    case Looking => step.Continue?
    case Leaving => step.Forget?
  }

  /** A reason waits for the drain at work; a new run, a grant and a trailing cycle take in all that wait. */
  predicate AddsReason(r: Runner, step: Step) { Accepts(r, step) && !r.drain.NoDrain? }

  predicate TakesReasons(r: Runner, step: Step) {
    step.Close? || StartsRun(r, step) || Observes(r, step) || (Succeeds(r, step) && r.drain.observed != r.wake)
  }

  predicate Signals(r: Runner, step: Step) { Accepts(r, step) || step.OtherSignals? }

  predicate Handles(r: Runner, step: Step) {
    Succeeds(r, step) || (step.OtherHandles? && r.handled <= step.generation <= r.wake)
  }

  function Handled(r: Runner, step: Step): int {
    if step.OtherHandles? then step.generation else if r.drain.Cycling? then r.drain.observed else 0
  }

  function Observed(r: Runner): int { if r.drain.Cycling? then r.drain.observed else 0 }

  predicate Closes(r: Runner, step: Step) { step.Close? }

  predicate Never(r: Runner, step: Step) { false }

  predicate Follows(r: Runner, step: Step, n: Runner) {
    && (forall place :: At(place, n) <==> Enters(place, r, step) || (At(place, r) && !Exits(place, r, step)))
    && (n.closed <==> step.Close? || r.closed)
    && (n.pending != {} <==> AddsReason(r, step) || (r.pending != {} && !TakesReasons(r, step)))
    && n.wake == r.wake + (if Signals(r, step) then 1 else 0)
    && n.own == (if Accepts(r, step) then r.wake + 1 else r.own)
    && n.handled == (if Handles(r, step) && Handled(r, step) > r.handled then Handled(r, step) else r.handled)
    && (n.drain.Cycling? ==> if Observes(r, step) then Observed(n) == r.wake else r.drain.Cycling? && Observed(n) == Observed(r))
  }

  lemma StepFollows(r: Runner, step: Step)
    requires r.closed ==> r.pending == {}
    ensures Follows(r, step, Next(r, step))
  {
    if step.Wake? {
      assert step.reason in r.pending + {step.reason};
    }
  }

  lemma RunFollows(wake: nat, handled: nat, steps: seq<Step>, i: nat)
    requires i < |steps|
    ensures Follows(Reach(wake, handled)(steps[..i]), steps[i], Reach(wake, handled)(steps[..i + 1]))
  {
    assert steps[..i + 1] == steps[..i] + [steps[i]];
    AfterPush(Fresh(wake, handled), steps[..i], steps[i]);
    AbandonedExactly(wake, handled, steps[..i]);
    StepFollows(Reach(wake, handled)(steps[..i]), steps[i]);
  }

  /** The places of the drain and the reasons that wait, each from the steps of the run. */
  lemma PlacesExactly(wake: nat, handled: nat, steps: seq<Step>, place: Place)
    ensures var reach, r := Reach(wake, handled), Reach(wake, handled)(steps);
            && (At(place, r) <==> Since(reach, steps, (t: Runner, e: Step) => Enters(place, t, e), (t: Runner, e: Step) => Exits(place, t, e)))
            && (r.closed <==> Since(reach, steps, Closes, Never))
            && (r.pending != {} <==> Since(reach, steps, AddsReason, TakesReasons))
  {
    var reach := Reach(wake, handled);
    forall i | 0 <= i < |steps|
      ensures Follows(reach(steps[..i]), steps[i], reach(steps[..i + 1]))
    {
      RunFollows(wake, handled, steps, i);
    }
    HistoryOf(reach, steps, (t: Runner) => At(place, t), (t: Runner, e: Step) => Enters(place, t, e), (t: Runner, e: Step) => Exits(place, t, e));
    HistoryOf(reach, steps, (t: Runner) => t.closed, Closes, Never);
    HistoryOf(reach, steps, (t: Runner) => t.pending != {}, AddsReason, TakesReasons);
  }

  /** The durable wake generation counts every signal, and the own one is that of the last wake signalled here. */
  lemma WakesExactly(wake: nat, handled: nat, steps: seq<Step>)
    ensures var reach, r := Reach(wake, handled), Reach(wake, handled)(steps);
            && r.wake == wake + Tally(reach, steps, Signals)
            && (r.own > 0 ==> SetTo(reach, steps, Accepts, (t: Runner, e: Step) => t.wake + 1, r.own))
  {
    var reach := Reach(wake, handled);
    forall i | 0 <= i < |steps|
      ensures Follows(reach(steps[..i]), steps[i], reach(steps[..i + 1]))
    {
      RunFollows(wake, handled, steps, i);
    }
    TallyOf(reach, steps, (t: Runner) => t.wake, Signals);
    SetToOf(reach, steps, (t: Runner) => t.own > 0, (t: Runner) => t.own, Accepts, (t: Runner, e: Step) => t.wake + 1);
  }

  /** The handled generation is the highest that a successful cycle had observed or another process handled. */
  lemma HandledExactly(wake: nat, handled: nat, steps: seq<Step>)
    ensures var reach, r := Reach(wake, handled), Reach(wake, handled)(steps);
            && (r.handled == handled || Shown(reach, steps, Handles, Handled, r.handled))
            && (forall v :: Shown(reach, steps, Handles, Handled, v) ==> v <= r.handled)
  {
    var reach := Reach(wake, handled);
    forall i | 0 <= i < |steps|
      ensures Follows(reach(steps[..i]), steps[i], reach(steps[..i + 1]))
    {
      RunFollows(wake, handled, steps, i);
    }
    HighestOf(reach, steps, (t: Runner) => t.handled, Handles, Handled);
  }

  /** A cycle observes the generation that was durable when its lease was granted or it began as a trailing one. */
  lemma ObservedExactly(wake: nat, handled: nat, steps: seq<Step>)
    requires Reach(wake, handled)(steps).drain.Cycling?
    ensures SetTo(Reach(wake, handled), steps, Observes, (t: Runner, e: Step) => t.wake, Reach(wake, handled)(steps).drain.observed)
  {
    var reach := Reach(wake, handled);
    forall i | 0 <= i < |steps|
      ensures Follows(reach(steps[..i]), steps[i], reach(steps[..i + 1]))
    {
      RunFollows(wake, handled, steps, i);
    }
    SetToOf(reach, steps, (t: Runner) => t.drain.Cycling?, Observed, Observes, (t: Runner, e: Step) => t.wake);
  }
}
