/** The event-loop runner: one drain coroutine around the lifecycle, interleaved with wakes and close. */
module DesktopRunner {
  import opened Wrappers
  import opened Positions
  import L = Lifecycle

  /** Where the drain coroutine is suspended. `Starting` is the microtask between a granted lease and
      the call of the sync callback, `Between` the gap between a cycle's outcome and the next look at
      the pending reasons, `Finishing` the gap between the end of the loop and the microtask that
      forgets the coroutine. */
  datatype Drain =
    | NoDrain
    | AwaitAcquire
    | Starting(fence: nat, aborted: bool)
    | AwaitCycle(fence: nat)
    | AwaitRelease(fence: nat)
    | Between
    | Finishing

  /** A call of the sync callback, and whether its signal was aborted by then. */
  datatype Started = Started(fence: nat, aborted: bool)

  /** `grants`, `cycles` and `releases` are the calls made so far. `undefined` says that an undefined
      lifecycle event was thrown, `forked` that two drains are running; a run is followed up to the
      first of either. */
  datatype Runner = Runner(
    drain: Drain, pending: set<string>, life: L.Snapshot,
    grants: seq<nat>, cycles: seq<Started>, releases: seq<nat>, undefined: bool, forked: bool)

  const FRESH := Runner(NoDrain, {}, L.INITIAL, [], [], [], false, false)

  datatype Answer = Granted(fence: nat) | Refused | Failed

  /** A call of the runner from inside one of its callbacks. `nestedUsable` is whether a further drain,
      if that wake starts one, gets past its own clock and token factory. */
  datatype Call =
    | CallClose
    | CallWake(reason: string, nestedUsable: bool)

  /** What the clock and the token factory do at the head of an attempt: the calls they make, and
      whether both return and the token is usable. */
  datatype Head = Head(calls: seq<Call>, usable: bool)

  const QUIET := Head([], true)

  /** `early` are calls from the lifecycle observer or the lease store between the begin of the first
      acquisition of a drain and its suspension, `observed` those of the observer told of a grant. At
      every other point a callback's call is like a `Wake` or `Close` step right after. `outcomeOk` is
      whether the clock read for the outcome and the outcome callback both return. */
  datatype Step =
    | Wake(reason: string, head: Head, early: seq<Call>)
    | Close
    | AcquireDone(answer: Answer, observed: seq<Call>)
    | StartCycle
    | Timeout
    | CycleDone
    | ReleaseDone
    | Continue(outcomeOk: bool, head: Head)
    | Forget

  predicate Closed(r: Runner) {
    r.life.phase == L.Closed || r.life.closeRequested
  }

  predicate Stopped(r: Runner) { r.undefined || r.forked }

  /** An undefined event changes nothing and is thrown. */
  function Apply(r: Runner, e: L.Event): Runner {
    match L.Transition(r.life, e)
    case Some(n) => r.(life := n)
    case None => r.(undefined := true)
  }

  function CloseNow(r: Runner): Runner {
    if Closed(r) then r else Apply(r, L.Close).(pending := {})
  }

  /** A second drain took the reasons. It acquires beside the first one, unless that has begun. */
  function Nested(r: Runner, usable: bool): Runner {
    if !usable then r.(pending := {})
    else if r.life.phase == L.Idle then r.(pending := {}, forked := true)
    else Apply(r.(pending := {}), L.BeginAcquire)
  }

  /** Calls from inside, in order. Before the first suspension of a drain the runner has not registered
      it yet, so the first wake from inside starts another drain, and registers that one. */
  function Reenter(r: Runner, calls: seq<Call>, registered: bool): Runner
    decreases |calls|
  {
    if calls == [] || Stopped(r) then r
    else
      match calls[0]
      case CallClose => Reenter(CloseNow(r), calls[1..], registered)
      case CallWake(reason, nestedUsable) =>
        if Closed(r) then Reenter(r, calls[1..], registered)
        else
          var n := Apply(r.(pending := r.pending + {reason}), L.Wake);
          Reenter(if registered then n else Nested(n, nestedUsable), calls[1..], true)
  }

  function Attempt(r: Runner, head: Head, registered: bool, early: seq<Call>): Runner {
    var n := Reenter(r.(pending := {}), head.calls, registered);
    if !head.usable then n.(drain := Finishing)
    else if n.forked then n.(drain := Finishing, forked := false, undefined := true)
    else
      var b := Apply(n, L.BeginAcquire);
      if b.undefined then b.(drain := Finishing)
      else Reenter(b.(drain := AwaitAcquire), early, registered || head.calls != [])
  }

  /** The loop head, up to the next suspension. */
  function Loop(r: Runner, head: Head, registered: bool, early: seq<Call>): Runner {
    if Closed(r) || r.pending == {} then r.(drain := Finishing) else Attempt(r, head, registered, early)
  }

  function OnWake(r: Runner, reason: string, head: Head, early: seq<Call>): Runner {
    if Closed(r) then r
    else
      var n := Apply(r.(pending := r.pending + {reason}), L.Wake);
      if n.drain.NoDrain? then Loop(n, head, false, early) else n
  }

  /** Closing aborts the signal of a cycle that is running or about to start. */
  function OnClose(r: Runner): Runner {
    var n := CloseNow(r);
    if n.drain.Starting? && !Closed(r) then n.(drain := Starting(n.drain.fence, true)) else n
  }

  /** A grant that arrives after close is given back; otherwise the callback is queued. The signal is
      created only after the observer has been told, so a close from inside it aborts nothing. */
  function OnAcquired(r: Runner, answer: Answer, observed: seq<Call>): Runner {
    match answer
    case Granted(fence) =>
      var n := Apply(r, L.AcquireGranted).(grants := r.grants + [fence]);
      if n.life.phase == L.Releasing then n.(releases := n.releases + [fence], drain := AwaitRelease(fence))
      else Reenter(n, observed, true).(drain := Starting(fence, false))
    case _ => Apply(r, L.AcquireDeferred).(drain := Between)
  }

  function Next(r: Runner, step: Step): Runner {
    if Stopped(r) then r
    else
      match step
      case Wake(reason, head, early) => OnWake(r, reason, head, early)
      case Close => OnClose(r)
      case AcquireDone(answer, observed) => if r.drain.AwaitAcquire? then OnAcquired(r, answer, observed) else r
      case StartCycle =>
        if r.drain.Starting? then
          r.(cycles := r.cycles + [Started(r.drain.fence, r.drain.aborted)], drain := AwaitCycle(r.drain.fence))
        else r
      case Timeout => if r.drain.AwaitCycle? then Apply(r, L.Cancel) else r
      case CycleDone =>
        if r.drain.AwaitCycle? then
          Apply(r, L.CycleSettled).(releases := r.releases + [r.drain.fence], drain := AwaitRelease(r.drain.fence))
        else r
      case ReleaseDone => if r.drain.AwaitRelease? then Apply(r, L.ReleaseSettled).(drain := Between) else r
      case Continue(outcomeOk, head) =>
        if !r.drain.Between? then r
        else if !outcomeOk then r.(drain := Finishing)
        else Loop(r, head, true, [])
      case Forget => if r.drain.Finishing? then r.(drain := NoDrain) else r
  }

  function After(r: Runner, steps: seq<Step>): Runner {
    if steps == [] then r else Next(After(r, steps[..|steps| - 1]), steps[|steps| - 1])
  }

  /** The state that a run of the fresh runner reaches. */
  function Reach(steps: seq<Step>): Runner { After(FRESH, steps) }

  lemma ReachPush(steps: seq<Step>, e: Step)
    ensures Reach(steps + [e]) == Next(Reach(steps), e)
  {
    assert (steps + [e])[..|steps|] == steps;
  }

  // ----- calls from inside -----

  predicate Closes(calls: seq<Call>) {
    calls != [] && (calls[0].CallClose? || Closes(calls[1..]))
  }

  /** The first call is a wake, whose drain gets to its acquisition. */
  predicate Nests(calls: seq<Call>) {
    calls != [] && calls[0].CallWake? && calls[0].nestedUsable
  }

  /** Between two calls: a valid lifecycle in a phase in which callbacks run. */
  predicate Callable(r: Runner) {
    && !Stopped(r) && L.IsValid(r.life) && (Closed(r) ==> r.pending == {})
    && (r.life.phase == L.Idle || r.life.phase == L.Acquiring || r.life.phase == L.Running || r.life.phase == L.Closed)
  }

  lemma {:induction false} ClosedCalls(r: Runner, calls: seq<Call>, registered: bool)
    requires Closed(r)
    ensures Reenter(r, calls, registered) == r
    decreases |calls|
  {
    if calls != [] && !Stopped(r) {
      ClosedCalls(r, calls[1..], registered);
    }
  }

  lemma WakeCall(r: Runner, reason: string)
    requires Callable(r) && !Closed(r)
    ensures var n := Apply(r.(pending := r.pending + {reason}), L.Wake);
            n == r.(pending := r.pending + {reason}, life := r.life.(wakePending := true)) && n.pending != {} && Callable(n)
  {
    assert reason in r.pending + {reason};
  }

  /** What calls of a registered drain do: the first close ends everything, wakes only add up. */
  lemma {:induction false} RegisteredCalls(r: Runner, calls: seq<Call>)
    requires Callable(r)
    ensures var n := Reenter(r, calls, true);
            && Callable(n) && n == r.(life := n.life, pending := n.pending)
            && (Closed(n) <==> Closed(r) || Closes(calls))
            && n.life.phase == (if r.life.phase == L.Idle && !Closed(r) && Closes(calls) then L.Closed else r.life.phase)
            && (!Closed(n) ==>
                  && n.life == r.life.(wakePending := r.life.wakePending || calls != [])
                  && (n.pending != {} <==> r.pending != {} || calls != []))
    decreases |calls|
  {
    if calls != [] {
      match calls[0]
      case CallClose =>
        ClosedCalls(CloseNow(r), calls[1..], true);
      case CallWake(reason, _) =>
        if Closed(r) {
          ClosedCalls(r, calls, true);
        } else {
          WakeCall(r, reason);
          RegisteredCalls(r.(pending := r.pending + {reason}, life := r.life.(wakePending := true)), calls[1..]);
        }
    }
  }

  /** Before registration only the first call is special. */
  lemma UnregisteredCalls(r: Runner, calls: seq<Call>)
    requires Callable(r) && !Closed(r) && (r.life.phase == L.Idle || r.life.phase == L.Acquiring)
    ensures var n := Reenter(r, calls, false);
            && n == r.(life := n.life, pending := n.pending, undefined := n.undefined, forked := n.forked)
            && (n.forked <==> Nests(calls) && r.life.phase == L.Idle)
            && (n.undefined <==> Nests(calls) && r.life.phase == L.Acquiring)
            && (!Stopped(n) ==>
                  && Callable(n) && (Closed(n) <==> Closes(calls))
                  && n.life.phase == (if r.life.phase == L.Idle && Closes(calls) then L.Closed else r.life.phase)
                  && (calls == [] ==> n == r)
                  && (calls != [] && !Closed(n) ==> n.life == r.life.(wakePending := true) && (n.pending != {} <==> |calls| >= 2)))
  {
    if calls != [] {
      match calls[0]
      case CallClose => ClosedCalls(CloseNow(r), calls[1..], false);
      case CallWake(reason, nestedUsable) =>
        WakeCall(r, reason);
        var n := r.(pending := r.pending + {reason}, life := r.life.(wakePending := true));
        if nestedUsable {
          assert Stopped(Nested(n, true));
        } else {
          RegisteredCalls(n.(pending := {}), calls[1..]);
        }
    }
  }

  // ----- the coroutine and the lifecycle agree -----

  predicate Held(d: Drain) { d.Starting? || d.AwaitCycle? }

  /** Every grant that is not being cycled is on its way back. */
  predicate Agree(r: Runner) {
    && (if Held(r.drain) then r.grants == r.releases + [r.drain.fence] else r.grants == r.releases)
    && (!Stopped(r) ==>
          && L.IsValid(r.life) && (Closed(r) ==> r.pending == {})
          && match r.drain
             case AwaitAcquire => r.life.phase == L.Acquiring
             case Starting(_, _) => r.life.phase == L.Running
             case AwaitCycle(_) => r.life.phase == L.Running
             case AwaitRelease(_) => r.life.phase == L.Releasing
             case _ => r.life.phase == L.Idle || r.life.phase == L.Closed)
  }

  /** The loop gets to the clock and the token factory at this step. */
  predicate Attempts(r: Runner, step: Step) {
    && !Stopped(r) && !Closed(r)
    && (if step.Wake? then r.drain.NoDrain? else step.Continue? && r.drain.Between? && step.outcomeOk && r.pending != {})
  }

  function HeadOf(step: Step): Head
    requires step.Wake? || step.Continue?
  {
    step.head
  }

  /** An undefined event is thrown: a callback closed the runner before the acquisition began, or
      started a second drain that got to its own, or the reasons at hand were never announced to the
      lifecycle. */
  predicate Throws(r: Runner, step: Step) {
    && Attempts(r, step) && HeadOf(step).usable
    && var calls := HeadOf(step).calls;
       || Closes(calls)
       || (if step.Wake? then Nests(calls) || (calls == [] && Nests(step.early)) else calls == [] && !r.life.wakePending)
  }

  /** A second drain got to its acquisition, and then the first one failed. */
  predicate Forks(r: Runner, step: Step) {
    Attempts(r, step) && step.Wake? && !step.head.usable && Nests(step.head.calls)
  }

  /** Reasons that callbacks added at the head of this attempt, and that no drain has taken. */
  predicate AddsReasons(step: Step)
    requires step.Wake? || step.Continue?
  {
    !Closes(HeadOf(step).calls) && |HeadOf(step).calls| >= if step.Wake? then 2 else 1
  }

  /** The first attempt of a drain. */
  lemma FirstAttempt(r: Runner, head: Head, early: seq<Call>)
    requires Agree(r) && !Stopped(r) && !Held(r.drain)
    requires r.life.phase == L.Idle && !r.life.closeRequested && r.life.wakePending
    ensures var n := Attempt(r, head, false, early);
            && Agree(n) && n.cycles == r.cycles && !Held(n.drain)
            && (n.undefined <==> head.usable && (Closes(head.calls) || Nests(head.calls) || (head.calls == [] && Nests(early))))
            && (n.forked <==> !head.usable && Nests(head.calls))
            && (!Stopped(n) ==>
                  && n.drain == (if head.usable then AwaitAcquire else Finishing)
                  && (n.pending != {} && !n.life.wakePending <==> head.usable && !Closes(head.calls) && |head.calls| >= 2 && early == [])
                  && (!head.usable ==> (n.pending != {} <==> !Closes(head.calls) && |head.calls| >= 2)))
  {
    var start := r.(pending := {});
    UnregisteredCalls(start, head.calls);
    var n := Reenter(start, head.calls, false);
    if head.usable && !Stopped(n) && !Closed(n) {
      var b := n.(life := n.life.(phase := L.Acquiring, wakePending := false), drain := AwaitAcquire);
      assert Apply(n, L.BeginAcquire).(drain := AwaitAcquire) == b;
      if head.calls == [] {
        UnregisteredCalls(b, early);
      } else {
        RegisteredCalls(b, early);
      }
    }
  }

  /** A later attempt, of a registered drain. */
  lemma LaterAttempt(r: Runner, head: Head)
    requires Agree(r) && !Stopped(r) && !Held(r.drain)
    requires r.life.phase == L.Idle && !r.life.closeRequested
    ensures var n := Attempt(r, head, true, []);
            && Agree(n) && n.cycles == r.cycles && !Held(n.drain) && !n.forked
            && (n.undefined <==> head.usable && (Closes(head.calls) || (head.calls == [] && !r.life.wakePending)))
            && (!Stopped(n) ==>
                  && n.drain == (if head.usable then AwaitAcquire else Finishing)
                  && (n.pending != {} && !n.life.wakePending <==> head.usable && !Closes(head.calls) && |head.calls| >= 1)
                  && (!head.usable ==> (n.pending != {} <==> !Closes(head.calls) && |head.calls| >= 1)))
  {
    RegisteredCalls(r.(pending := {}), head.calls);
  }

  lemma WakeAgrees(r: Runner, reason: string, head: Head, early: seq<Call>)
    requires Agree(r) && !Stopped(r)
    ensures var n, step := OnWake(r, reason, head, early), Wake(reason, head, early);
            && Agree(n) && (n.undefined <==> Throws(r, step)) && (n.forked <==> Forks(r, step))
            && n.cycles == r.cycles && (n.drain.Starting? ==> n.drain == r.drain)
  {
    if !Closed(r) {
      var n := r.(pending := r.pending + {reason}, life := r.life.(wakePending := true));
      assert reason in r.pending + {reason};
      assert Apply(r.(pending := r.pending + {reason}), L.Wake) == n;
      if n.drain.NoDrain? {
        FirstAttempt(n, head, early);
      }
    }
  }

  lemma ContinueAgrees(r: Runner, head: Head)
    requires Agree(r) && !Stopped(r) && r.drain.Between?
    ensures var n, step := Loop(r, head, true, []), Continue(true, head);
            && Agree(n) && (n.undefined <==> Throws(r, step)) && !n.forked && n.cycles == r.cycles && !n.drain.Starting?
  {
    if !Closed(r) && r.pending != {} {
      LaterAttempt(r, head);
    }
  }

  lemma AcquiredAgrees(r: Runner, answer: Answer, observed: seq<Call>)
    requires Agree(r) && !Stopped(r) && r.drain.AwaitAcquire?
    ensures Agree(OnAcquired(r, answer, observed)) && !Stopped(OnAcquired(r, answer, observed))
  {
    if answer.Granted? && !r.life.closeRequested {
      RegisteredCalls(Apply(r, L.AcquireGranted).(grants := r.grants + [answer.fence]), observed);
    }
  }

  lemma AwaitAgrees(r: Runner, step: Step)
    requires Agree(r) && !Stopped(r) && !step.Wake? && !step.Continue? && !step.AcquireDone?
    ensures Agree(Next(r, step)) && !Stopped(Next(r, step))
  {}

  lemma AgreeKept(r: Runner, step: Step)
    requires Agree(r)
    ensures Agree(Next(r, step))
    ensures Next(r, step).undefined <==> r.undefined || Throws(r, step)
    ensures Next(r, step).forked <==> r.forked || Forks(r, step)
  {
    if !Stopped(r) {
      match step
      case Wake(reason, head, early) => WakeAgrees(r, reason, head, early);
      case Continue(outcomeOk, head) => if r.drain.Between? && outcomeOk { ContinueAgrees(r, head); }
      case AcquireDone(answer, observed) => if r.drain.AwaitAcquire? { AcquiredAgrees(r, answer, observed); }
      case _ => AwaitAgrees(r, step);
    }
  }

  /** Under every interleaving each grant has been given back exactly once, unless its cycle is
      queued or running. */
  lemma {:induction false} GrantsGivenBack(steps: seq<Step>)
    ensures Agree(Reach(steps))
    ensures var r := Reach(steps);
            r.grants == if Held(r.drain) then r.releases + [r.drain.fence] else r.releases
  {
    if steps != [] {
      GrantsGivenBack(steps[..|steps| - 1]);
      AgreeKept(Reach(steps[..|steps| - 1]), steps[|steps| - 1]);
    }
  }

  // ----- when an undefined event is thrown -----

  /** Callbacks at the head of an attempt that goes through wake the runner: their reasons are pending,
      and then the begin of the acquisition swallows the lifecycle's wake. */
  predicate WokenInside(r: Runner, step: Step) {
    Attempts(r, step) && HeadOf(step).usable && AddsReasons(step) && (step.Wake? ==> step.early == [])
  }

  predicate Supersedes(r: Runner, step: Step) {
    || step.Wake? || step.Close? || Attempts(r, step)
    || (step.AcquireDone? && r.drain.AwaitAcquire? && step.answer.Granted? && step.observed != [])
  }

  predicate Unannounced(r: Runner) {
    r.pending != {} && !r.life.wakePending
  }

  lemma UnannouncedWake(r: Runner, reason: string, head: Head, early: seq<Call>)
    requires Agree(r) && !Stopped(r) && !Stopped(OnWake(r, reason, head, early))
    ensures Unannounced(OnWake(r, reason, head, early)) <==> WokenInside(r, Wake(reason, head, early))
  {
    if !Closed(r) {
      var n := r.(pending := r.pending + {reason}, life := r.life.(wakePending := true));
      assert reason in r.pending + {reason};
      assert Apply(r.(pending := r.pending + {reason}), L.Wake) == n;
      if n.drain.NoDrain? {
        FirstAttempt(n, head, early);
      }
    }
  }

  lemma UnannouncedGrant(r: Runner, answer: Answer, observed: seq<Call>)
    requires Agree(r) && !Stopped(r) && r.drain.AwaitAcquire?
    ensures Unannounced(OnAcquired(r, answer, observed)) <==> Unannounced(r) && !(answer.Granted? && observed != [])
  {
    if answer.Granted? && !r.life.closeRequested {
      RegisteredCalls(Apply(r, L.AcquireGranted).(grants := r.grants + [answer.fence]), observed);
    }
  }

  lemma UnannouncedStep(r: Runner, step: Step)
    requires Agree(r) && !Stopped(r) && !Stopped(Next(r, step))
    ensures Unannounced(Next(r, step)) <==> WokenInside(r, step) || (Unannounced(r) && !Supersedes(r, step))
  {
    match step
    case Wake(reason, head, early) => UnannouncedWake(r, reason, head, early);
    case Continue(outcomeOk, head) => if Attempts(r, step) { LaterAttempt(r, head); }
    case AcquireDone(answer, observed) => if r.drain.AwaitAcquire? { UnannouncedGrant(r, answer, observed); }
    case _ =>
  }

  lemma {:induction false} UnannouncedExactly(steps: seq<Step>)
    requires !Stopped(Reach(steps))
    ensures Unannounced(Reach(steps)) <==> Since(Reach, steps, WokenInside, Supersedes)
  {
    if steps != [] {
      var before, e := steps[..|steps| - 1], steps[|steps| - 1];
      assert steps == before + [e];
      ReachPush(before, e);
      GrantsGivenBack(before);
      AgreeKept(Reach(before), e);
      UnannouncedExactly(before);
      UnannouncedStep(Reach(before), e);
      SincePush(Reach, before, e, WokenInside, Supersedes);
    }
  }

  /** An attempt goes through its clock and token factory, and one of three things happened: a callback
      closed the runner before the acquisition began; a callback woke it while its drain was not
      registered, and that second drain got to an acquisition; or the reasons at hand came only from
      callbacks at the head of the attempt before. */
  ghost predicate Clash(steps: seq<Step>, i: nat)
    requires i < |steps|
  {
    var before, e := steps[..i], steps[i];
    && Attempts(Reach(before), e) && HeadOf(e).usable
    && var calls := HeadOf(e).calls;
       || Closes(calls)
       || (if e.Wake? then Nests(calls) || (calls == [] && Nests(e.early)) else calls == [] && Since(Reach, before, WokenInside, Supersedes))
  }

  lemma ClashIsThrow(steps: seq<Step>, i: nat)
    requires i < |steps|
    ensures Clash(steps, i) <==> Throws(Reach(steps[..i]), steps[i])
  {
    var r := Reach(steps[..i]);
    if Attempts(r, steps[i]) {
      UnannouncedExactly(steps[..i]);
    }
  }

  lemma ClashPrefix(steps: seq<Step>, e: Step, i: nat)
    requires i < |steps|
    ensures Clash(steps + [e], i) <==> Clash(steps, i)
  {
    assert (steps + [e])[..i] == steps[..i];
  }

  /** An undefined lifecycle event is thrown in a run exactly if some step clashes. */
  lemma {:induction false} UndefinedExactly(steps: seq<Step>)
    ensures Reach(steps).undefined <==> exists i :: 0 <= i < |steps| && Clash(steps, i)
  {
    if steps != [] {
      var n := |steps| - 1;
      var before, e := steps[..n], steps[n];
      assert steps == before + [e];
      ReachPush(before, e);
      UndefinedExactly(before);
      GrantsGivenBack(before);
      AgreeKept(Reach(before), e);
      ClashIsThrow(steps, n);
      if Reach(before).undefined {
        var i :| 0 <= i < |before| && Clash(before, i);
        ClashPrefix(before, e, i);
        assert Clash(steps, i);
      }
      if i :| 0 <= i < |steps| && Clash(steps, i) {
        if i < n {
          ClashPrefix(before, e, i);
          assert Clash(before, i);
        }
      }
    }
  }

  predicate ForkAt(steps: seq<Step>, i: nat)
    requires i < |steps|
  {
    Forks(Reach(steps[..i]), steps[i])
  }

  lemma ForkPrefix(steps: seq<Step>, e: Step, i: nat)
    requires i < |steps|
    ensures ForkAt(steps + [e], i) <==> ForkAt(steps, i)
  {
    assert (steps + [e])[..i] == steps[..i];
  }

  /** Two drains run beside each other exactly after a step in which the second got to its acquisition
      and the first then failed on its clock or token. */
  lemma {:induction false} ForkedExactly(steps: seq<Step>)
    ensures Reach(steps).forked <==> exists i :: 0 <= i < |steps| && ForkAt(steps, i)
  {
    if steps != [] {
      var n := |steps| - 1;
      var before, e := steps[..n], steps[n];
      assert steps == before + [e];
      ReachPush(before, e);
      ForkedExactly(before);
      GrantsGivenBack(before);
      AgreeKept(Reach(before), e);
      assert ForkAt(steps, n) <==> Forks(Reach(before), e);
      if Reach(before).forked {
        var i :| 0 <= i < |before| && ForkAt(before, i);
        ForkPrefix(before, e, i);
        assert ForkAt(steps, i);
      }
      if i :| 0 <= i < |steps| && ForkAt(steps, i) {
        if i < n {
          ForkPrefix(before, e, i);
          assert ForkAt(before, i);
        }
      }
    }
  }

  /** Clock and token factory do not call the runner, and nothing else does before registration. */
  predicate Plain(step: Step) {
    (step.Wake? || step.Continue? ==> step.head.calls == []) && (step.Wake? ==> step.early == [])
  }

  /** Without such calls no interleaving of wakes, close, timeouts, observer calls and awaits ever throws
      an undefined event or runs two drains. */
  lemma {:induction false} NeverUndefined(steps: seq<Step>)
    requires forall i :: 0 <= i < |steps| ==> Plain(steps[i])
    ensures !Reach(steps).undefined && !Reach(steps).forked
  {
    forall i | 0 <= i < |steps|
      ensures !Clash(steps, i) && !ForkAt(steps, i)
    {
      assert Plain(steps[i]);
      forall j | 0 <= j < i
        ensures !WokenInside(Reach(steps[..i][..j]), steps[..i][j])
      {
        assert Plain(steps[j]);
      }
    }
    UndefinedExactly(steps);
    ForkedExactly(steps);
  }

  // ----- cycles after close -----

  /** A grant that arrives after close goes straight back. */
  lemma GrantAfterClose(r: Runner, answer: Answer, observed: seq<Call>)
    requires Agree(r) && Closed(r) && !Stopped(r) && r.drain.AwaitAcquire?
    ensures var n := OnAcquired(r, answer, observed);
            && Closed(n) && !Stopped(n) && n.cycles == r.cycles && !n.drain.Starting?
            && (answer.Granted? ==> n.grants == r.grants + [answer.fence] && n.releases == r.releases + [answer.fence])
  {}

  lemma ClosedStep(r: Runner, step: Step)
    requires Agree(r) && Closed(r) && !Stopped(r)
    ensures var n := Next(r, step);
            && Closed(n) && !Stopped(n)
            && (if r.drain.Starting? && step.StartCycle? then
                  n.cycles == r.cycles + [Started(r.drain.fence, r.drain.aborted)] && !n.drain.Starting?
                else n.cycles == r.cycles && (if r.drain.Starting? then n.drain == r.drain else !n.drain.Starting?))
  {
    if step.AcquireDone? && r.drain.AwaitAcquire? {
      GrantAfterClose(r, step.answer, step.observed);
    }
  }

  /** How a step that closes the runner leaves a queued callback: with an aborted signal if it is
      `close()` itself, with a live one if it is the observer told of the grant. */
  lemma ClosingStep(r: Runner, step: Step)
    requires Agree(r) && !Closed(r) && !Stopped(r) && Closed(Next(r, step))
    ensures Next(r, step).drain.Starting? ==> (Next(r, step).drain.aborted <==> step.Close?)
  {
    match step
    case Wake(reason, head, early) => WakeAgrees(r, reason, head, early);
    case Continue(outcomeOk, head) => if r.drain.Between? && outcomeOk { ContinueAgrees(r, head); }
    case _ =>
  }

  /** The queued callback has been called after position `k`. */
  predicate CallbackRan(steps: seq<Step>, k: nat) {
    exists j :: k < j < |steps| && steps[j].StartCycle?
  }

  lemma CallbackRanPush(steps: seq<Step>, e: Step, k: nat)
    requires k < |steps|
    ensures CallbackRan(steps + [e], k) <==> CallbackRan(steps, k) || e.StartCycle?
  {
    var all := steps + [e];
    assert all[|steps|] == e && forall j :: 0 <= j < |steps| ==> all[j] == steps[j];
  }

  /** What a runner that was just closed, in state `r`, may have done since. */
  predicate ClosedSince(r: Runner, n: Runner, ran: bool) {
    && Closed(n) && !Stopped(n)
    && n.cycles == r.cycles + (if r.drain.Starting? && ran then [Started(r.drain.fence, r.drain.aborted)] else [])
    && (if r.drain.Starting? && !ran then n.drain == r.drain else !n.drain.Starting?)
  }

  lemma ClosedSinceStep(r: Runner, n: Runner, ran: bool, e: Step)
    requires Agree(n) && ClosedSince(r, n, ran)
    ensures ClosedSince(r, Next(n, e), ran || e.StartCycle?)
  {
    ClosedStep(n, e);
  }

  /** A cycle starts after the step that closed the runner exactly if its lease was granted by then and
      its callback was still queued. There is at most that one, and its signal is aborted exactly if the
      runner was closed from outside the observer of that grant. */
  lemma {:induction false} CyclesAfterClose(steps: seq<Step>, k: nat)
    requires k < |steps| && !Closed(Reach(steps[..k])) && !Stopped(Reach(steps[..k]))
    requires Closed(Reach(steps[..k + 1])) && !Stopped(Reach(steps[..k + 1]))
    ensures ClosedSince(Reach(steps[..k + 1]), Reach(steps), CallbackRan(steps, k))
    ensures Reach(steps[..k + 1]).drain.Starting? ==> (Reach(steps[..k + 1]).drain.aborted <==> steps[k].Close?)
    decreases |steps|
  {
    var n := |steps| - 1;
    var before, e := steps[..n], steps[n];
    assert steps == before + [e];
    GrantsGivenBack(before);
    if k == n {
      assert steps[..k + 1] == steps;
      ReachPush(before, e);
      ClosingStep(Reach(before), e);
    } else {
      assert before[..k] == steps[..k] && before[..k + 1] == steps[..k + 1];
      CyclesAfterClose(before, k);
      CallbackRanPush(before, e, k);
      ReachPush(before, e);
      ClosedSinceStep(Reach(steps[..k + 1]), Reach(before), CallbackRan(before, k), e);
    }
  }

  /** Such runs exist: the close overtakes the queued callback, */
  function OvertakenRun(reason: string, fence: nat): seq<Step> {
    [Wake(reason, QUIET, []), AcquireDone(Granted(fence), []), Close, StartCycle]
  }

  lemma CloseOvertaken(reason: string, fence: nat)
    ensures var steps := OvertakenRun(reason, fence);
            && Closed(Reach(steps[..3])) && Reach(steps[..3]).cycles == []
            && Reach(steps).cycles == [Started(fence, true)]
  {
    var steps := OvertakenRun(reason, fence);
    Unrolled(steps);
    FirstWake(reason);
    FirstGrant(fence, []);
    QuietGrant(fence);
  }

  /** or the observer told of the grant closes, and the cycle starts with a live signal. */
  function ClosedAtGrantRun(reason: string, fence: nat): seq<Step> {
    [Wake(reason, QUIET, []), AcquireDone(Granted(fence), [CallClose]), StartCycle]
  }

  lemma ClosedAtGrant(reason: string, fence: nat)
    ensures var steps := ClosedAtGrantRun(reason, fence);
            && Closed(Reach(steps[..2])) && Reach(steps[..2]).cycles == [] && !Reach(steps).undefined
            && Reach(steps).cycles == [Started(fence, false)]
  {
    var steps := ClosedAtGrantRun(reason, fence);
    Unrolled(steps);
    FirstWake(reason);
    FirstGrant(fence, [CallClose]);
    RegisteredCalls(GRANTED.(grants := [fence]), [CallClose]);
  }

  lemma Unrolled(steps: seq<Step>)
    requires |steps| >= 3
    ensures Reach(steps[..2]) == Next(Next(FRESH, steps[0]), steps[1])
    ensures Reach(steps[..3]) == Next(Reach(steps[..2]), steps[2])
    ensures |steps| == 3 ==> steps[..3] == steps
    ensures |steps| >= 4 ==> Reach(steps[..4]) == Next(Reach(steps[..3]), steps[3])
    ensures |steps| == 4 ==> steps[..4] == steps
    ensures |steps| == 5 ==> Reach(steps) == Next(Reach(steps[..4]), steps[4])
  {
    assert steps[..1] == [] + [steps[0]] && steps[..2] == steps[..1] + [steps[1]] && steps[..3] == steps[..2] + [steps[2]];
    ReachPush([], steps[0]);
    ReachPush(steps[..1], steps[1]);
    ReachPush(steps[..2], steps[2]);
    if |steps| >= 4 {
      assert steps[..4] == steps[..3] + [steps[3]];
      ReachPush(steps[..3], steps[3]);
    }
    if |steps| == 5 {
      assert steps == steps[..4] + [steps[4]];
      ReachPush(steps[..4], steps[4]);
    }
  }

  const ACQUIRING := FRESH.(drain := AwaitAcquire, life := L.INITIAL.(phase := L.Acquiring))

  const GRANTED := FRESH.(drain := AwaitAcquire, life := L.INITIAL.(phase := L.Running, permitHeld := true))

  lemma FirstWake(reason: string)
    ensures Next(FRESH, Wake(reason, QUIET, [])) == ACQUIRING
  {
    var n := Apply(FRESH.(pending := {reason}), L.Wake);
    assert FRESH.pending + {reason} == {reason} && reason in n.pending;
  }

  lemma FirstGrant(fence: nat, observed: seq<Call>)
    ensures Next(ACQUIRING, AcquireDone(Granted(fence), observed))
            == Reenter(GRANTED.(grants := [fence]), observed, true).(drain := Starting(fence, false))
  {
    assert ACQUIRING.grants + [fence] == [fence];
    assert Apply(ACQUIRING, L.AcquireGranted) == GRANTED;
  }

  lemma QuietGrant(fence: nat)
    ensures Reenter(GRANTED.(grants := [fence]), [], true) == GRANTED.(grants := [fence])
  {}

  // ----- wakes that nobody will look at -----

  /** A reason is waiting and nothing in the runner will look at it. */
  predicate Stranded(r: Runner) {
    r.drain.NoDrain? && r.pending != {}
  }

  /** A wake accepted by a drain that has left its loop; a throw of the outcome callback, or of the clock
      read for the outcome, past pending reasons; or reasons that callbacks added at the head of an
      attempt that then failed. */
  predicate LeavesBehind(r: Runner, step: Step) {
    && !Closed(r)
    && (|| (step.Wake? && r.drain.Finishing?)
        || (step.Continue? && r.drain.Between? && !step.outcomeOk && r.pending != {})
        || (Attempts(r, step) && !HeadOf(step).usable && AddsReasons(step)))
  }

  predicate PicksUp(r: Runner, step: Step) {
    step.Close? || (step.Wake? && r.drain.NoDrain?)
  }

  predicate Abandoned(r: Runner) {
    (r.drain.Finishing? || r.drain.NoDrain?) && r.pending != {}
  }

  lemma AbandonedWake(r: Runner, reason: string, head: Head, early: seq<Call>)
    requires Agree(r) && !Stopped(r) && !Stopped(OnWake(r, reason, head, early))
    ensures var step := Wake(reason, head, early);
            Abandoned(OnWake(r, reason, head, early)) <==> LeavesBehind(r, step) || (Abandoned(r) && !PicksUp(r, step))
  {
    if !Closed(r) {
      var n := r.(pending := r.pending + {reason}, life := r.life.(wakePending := true));
      assert reason in r.pending + {reason};
      assert Apply(r.(pending := r.pending + {reason}), L.Wake) == n;
      if n.drain.NoDrain? {
        FirstAttempt(n, head, early);
      }
    }
  }

  lemma AbandonedStep(r: Runner, step: Step)
    requires Agree(r) && !Stopped(r) && !Stopped(Next(r, step))
    ensures Abandoned(Next(r, step)) <==> LeavesBehind(r, step) || (Abandoned(r) && !PicksUp(r, step))
  {
    match step
    case Wake(reason, head, early) => AbandonedWake(r, reason, head, early);
    case Continue(outcomeOk, head) => if Attempts(r, step) { LaterAttempt(r, head); }
    case AcquireDone(answer, observed) => if r.drain.AwaitAcquire? { AcquiredAgrees(r, answer, observed); }
    case _ =>
  }

  lemma {:induction false} AbandonedExactly(steps: seq<Step>)
    requires !Stopped(Reach(steps))
    ensures Abandoned(Reach(steps)) <==> Since(Reach, steps, LeavesBehind, PicksUp)
  {
    if steps != [] {
      var before, e := steps[..|steps| - 1], steps[|steps| - 1];
      assert steps == before + [e];
      ReachPush(before, e);
      GrantsGivenBack(before);
      AgreeKept(Reach(before), e);
      AbandonedExactly(before);
      AbandonedStep(Reach(before), e);
      SincePush(Reach, before, e, LeavesBehind, PicksUp);
    }
  }

  /** A runner without a drain strands a wake exactly if, since its last close or wake from rest, a
      reason was left behind in one of the three ways. */
  lemma {:induction false} StrandedExactly(steps: seq<Step>)
    requires !Stopped(Reach(steps)) && Reach(steps).drain.NoDrain?
    ensures Stranded(Reach(steps)) <==> Since(Reach, steps, LeavesBehind, PicksUp)
  {
    AbandonedExactly(steps);
  }

  /** Only another wake moves a stranded runner on; close merely drops the reason. */
  lemma StrandedStays(r: Runner, step: Step)
    requires Stranded(r) && !step.Wake? && !step.Close?
    ensures Next(r, step) == r
  {}

  function LateWakeRun(first: string, second: string): seq<Step> {
    [Wake(first, QUIET, []), AcquireDone(Refused, []), Continue(true, QUIET), Wake(second, QUIET, []), Forget]
  }

  /** One refused acquisition, and a wake one microtask too early. */
  lemma LateWakeStrands(first: string, second: string)
    ensures Stranded(Reach(LateWakeRun(first, second)))
    ensures Reach(LateWakeRun(first, second)).pending == {second}
  {
    Unrolled(LateWakeRun(first, second));
    FirstWake(first);
    RefusedAcquire();
    LateWake(second);
  }

  lemma RefusedAcquire()
    ensures Next(ACQUIRING, AcquireDone(Refused, [])) == FRESH.(drain := Between)
    ensures Next(FRESH.(drain := Between), Continue(true, QUIET)) == FRESH.(drain := Finishing)
  {}

  lemma LateWake(reason: string)
    ensures var n := Next(FRESH.(drain := Finishing), Wake(reason, QUIET, []));
            n.drain.Finishing? && n.pending == {reason} && !Stopped(n)
  {}
}
