/** Every field of the scheduler is determined by the accepted events of the run. */
module SchedulerHistory {
  import opened Positions
  import opened Scheduler

  function Reach(events: seq<Event>): State { After(DEFAULT, events) }

  lemma ReachPush(events: seq<Event>, e: Event)
    ensures Reach(events + [e]) == Next(Reach(events), e)
  {
    assert (events + [e])[..|events|] == events;
  }

  /** A property that each accepted event keeps in step with a mark and a clear has them as its history. */
  lemma AcceptedHistory(p: State -> bool, mark: (State, Event) -> bool, clear: (State, Event) -> bool, events: seq<Event>)
    requires !p(DEFAULT)
    requires forall s, e :: mark(s, e) || clear(s, e) ==> Guard(s, e)
    requires forall s, e :: Inductive(s) && Guard(s, e) ==> (p(Transition(s, e)) <==> mark(s, e) || (p(s) && !clear(s, e)))
    ensures p(Reach(events)) <==> Since(Reach, events, mark, clear)
  {
    forall i | 0 <= i < |events|
      ensures p(Reach(events[..i + 1])) <==> mark(Reach(events[..i]), events[i]) || (p(Reach(events[..i])) && !clear(Reach(events[..i]), events[i]))
    {
      var before := events[..i];
      assert events[..i + 1] == before + [events[i]];
      AlwaysInductive(DEFAULT, before);
      ReachPush(before, events[i]);
      NextIsTransition(Reach(before), events[i]);
    }
    HistoryOf(Reach, events, p, mark, clear);
  }

  lemma NextIsTransition(s: State, e: Event)
    requires Inductive(s)
    ensures Next(s, e) == if Guard(s, e) then Transition(s, e) else s
    ensures Inductive(Next(s, e))
  {
    GuardsSuffice(s, e);
  }

  // ----- what the accepted events do, by kind -----

  predicate Starts(s: State, e: Event) { Guard(s, e) && e == Start }
  predicate Stops(s: State, e: Event) { Guard(s, e) && e == Stop }
  predicate Leaves(s: State, e: Event) { Guard(s, e) && e == GoOffline }
  predicate Returns(s: State, e: Event) { Guard(s, e) && e == GoOnline }
  predicate Fires(s: State, e: Event) { Guard(s, e) && e == TimerFire }
  predicate Retries(s: State, e: Event) { Guard(s, e) && e == CycleRetryableFailure }
  predicate Breaks(s: State, e: Event) { Guard(s, e) && (e == CyclePermanentFailure || e == MalformedResponse) }
  predicate Interrupts(s: State, e: Event) { Stops(s, e) || Leaves(s, e) }

  /** The cycle in flight comes to its end. */
  predicate Ends(s: State, e: Event) {
    Guard(s, e) && (e == CycleSuccess || e == CycleSuccessMore || Retries(s, e) || Breaks(s, e))
  }

  predicate Settles(s: State, e: Event) { Ends(s, e) || (Guard(s, e) && SettlesStale(e)) }

  predicate EndsOrInterrupts(s: State, e: Event) { Ends(s, e) || Interrupts(s, e) }

  // ----- running, online, generation -----

  predicate Running(s: State) { s.phase != Stopped }
  predicate Away(s: State) { !s.online }

  lemma RunningStep(s: State, e: Event)
    requires Inductive(s) && Guard(s, e)
    ensures Running(Transition(s, e)) <==> Starts(s, e) || (Running(s) && !Stops(s, e))
    ensures Away(Transition(s, e)) <==> Leaves(s, e) || (Away(s) && !Returns(s, e))
  {}

  /** The scheduler runs from a start to the next stop, and is offline from a loss to the next return. */
  lemma RunningExactly(events: seq<Event>)
    ensures Reach(events).phase != Stopped <==> Since(Reach, events, Starts, Stops)
    ensures !Reach(events).online <==> Since(Reach, events, Leaves, Returns)
  {
    forall s, e | Inductive(s) && Guard(s, e)
      ensures Running(Transition(s, e)) <==> Starts(s, e) || (Running(s) && !Stops(s, e))
      ensures Away(Transition(s, e)) <==> Leaves(s, e) || (Away(s) && !Returns(s, e))
    {
      RunningStep(s, e);
    }
    AcceptedHistory(Running, Starts, Stops, events);
    AcceptedHistory(Away, Leaves, Returns, events);
  }

  function Turns(events: seq<Event>): nat {
    if events == [] then 0
    else
      var before, e := events[..|events| - 1], events[|events| - 1];
      Turns(before) + if Starts(Reach(before), e) || Interrupts(Reach(before), e) then 1 else 0
  }

  lemma TurnStep(s: State, e: Event)
    requires Guard(s, e)
    ensures Transition(s, e).generation == s.generation + if e.Start? || e.Stop? || e.GoOffline? then 1 else 0
  {
    match e {
      case Start => {}
      case Stop => {}
      case GoOffline => {}
      case _ => {}
    }
  }

  /** The generation counts starts, stops and losses of the connection. */
  lemma {:induction false} GenerationExactly(events: seq<Event>)
    ensures Reach(events).generation == Turns(events)
  {
    if events != [] {
      var before, e := events[..|events| - 1], events[|events| - 1];
      GenerationExactly(before);
      AlwaysInductive(DEFAULT, before);
      NextIsTransition(Reach(before), e);
      if Guard(Reach(before), e) {
        TurnStep(Reach(before), e);
      }
    }
  }

  // ----- cycles -----

  predicate InFlight(s: State) { s.cyclePending }
  predicate Syncs(s: State) { s.phase == Syncing }

  lemma FlightStep(s: State, e: Event)
    requires Inductive(s) && Guard(s, e)
    ensures InFlight(Transition(s, e)) <==> Fires(s, e) || (InFlight(s) && !Settles(s, e))
  {}

  lemma SyncStep(s: State, e: Event)
    requires Inductive(s) && Guard(s, e)
    ensures Syncs(Transition(s, e)) <==> Fires(s, e) || (Syncs(s) && !EndsOrInterrupts(s, e))
  {}

  /** A cycle is in flight from its timer fire to its settlement; the scheduler is syncing, with the
      network active and the cycle current, exactly until that cycle ends or is interrupted. */
  lemma CyclesExactly(events: seq<Event>)
    ensures Reach(events).cyclePending <==> Since(Reach, events, Fires, Settles)
    ensures Reach(events).phase == Syncing <==> Since(Reach, events, Fires, EndsOrInterrupts)
    ensures Reach(events).phase == Syncing <==> Reach(events).networkActive
    ensures Reach(events).phase == Syncing <==> CurrentCycle(Reach(events))
  {
    forall s, e | Inductive(s) && Guard(s, e)
      ensures InFlight(Transition(s, e)) <==> Fires(s, e) || (InFlight(s) && !Settles(s, e))
      ensures Syncs(Transition(s, e)) <==> Fires(s, e) || (Syncs(s) && !EndsOrInterrupts(s, e))
    {
      FlightStep(s, e);
      SyncStep(s, e);
    }
    AcceptedHistory(InFlight, Fires, Settles, events);
    AcceptedHistory(Syncs, Fires, EndsOrInterrupts, events);
    AlwaysInductive(DEFAULT, events);
  }

  predicate InBackoff(s: State) { s.phase == Backoff }
  predicate InError(s: State) { s.phase == Error }
  predicate MovesOn(s: State, e: Event) { Fires(s, e) || Interrupts(s, e) }

  lemma FailureSteps(s: State, e: Event)
    requires Inductive(s) && Guard(s, e)
    ensures InBackoff(Transition(s, e)) <==> Retries(s, e) || (InBackoff(s) && !MovesOn(s, e))
    ensures InError(Transition(s, e)) <==> Breaks(s, e) || (InError(s) && !MovesOn(s, e))
  {}

  /** Backoff and error last until the next cycle starts or the scheduler is interrupted. */
  lemma FailedPhasesExactly(events: seq<Event>)
    ensures Reach(events).phase == Backoff <==> Since(Reach, events, Retries, MovesOn)
    ensures Reach(events).phase == Error <==> Since(Reach, events, Breaks, MovesOn)
    ensures Reach(events).phase == Offline <==> Reach(events).phase != Stopped && !Reach(events).online
  {
    forall s, e | Inductive(s) && Guard(s, e)
      ensures InBackoff(Transition(s, e)) <==> Retries(s, e) || (InBackoff(s) && !MovesOn(s, e))
      ensures InError(Transition(s, e)) <==> Breaks(s, e) || (InError(s) && !MovesOn(s, e))
    {
      FailureSteps(s, e);
    }
    AcceptedHistory(InBackoff, Retries, MovesOn, events);
    AcceptedHistory(InError, Breaks, MovesOn, events);
    AlwaysInductive(DEFAULT, events);
  }

  // ----- timers and wakes -----

  predicate Armed(s: State) { s.timerPending }

  /** The events that leave a timer for the next cycle. */
  predicate Arms(s: State, e: Event) {
    && Guard(s, e)
    && (|| (e == Start && s.online)
        || (e == Hint && !s.cyclePending)
        || (e == GoOnline && !s.cyclePending)
        || (e == CycleSuccess && s.wakePending)
        || e == CycleSuccessMore
        || e == CycleRetryableFailure
        || (SettlesStale(e) && s.phase == Idle))
  }

  predicate Disarms(s: State, e: Event) {
    Fires(s, e) || (Guard(s, e) && e == TimerJoin) || Interrupts(s, e) || Breaks(s, e)
  }

  predicate Remembers(s: State) { s.wakePending }

  /** The events that are remembered behind the cycle in flight. */
  predicate Queues(s: State, e: Event) {
    Guard(s, e) && (e == TimerJoin || ((e == Hint || e == GoOnline) && s.cyclePending))
  }

  predicate Clears(s: State, e: Event) { Settles(s, e) || Interrupts(s, e) }

  lemma ArmedStep(s: State, e: Event)
    requires Inductive(s) && Guard(s, e)
    ensures Armed(Transition(s, e)) <==> Arms(s, e) || (Armed(s) && !Disarms(s, e))
  {}

  lemma RemembersStep(s: State, e: Event)
    requires Inductive(s) && Guard(s, e)
    ensures Remembers(Transition(s, e)) <==> Queues(s, e) || (Remembers(s) && !Clears(s, e))
  {}

  /** A current timer is pending exactly from an event that arms one to one that uses or cancels it, and
      a wake is remembered exactly from one that came during a cycle to the end of that cycle. */
  lemma TimersExactly(events: seq<Event>)
    ensures Reach(events).timerPending <==> Since(Reach, events, Arms, Disarms)
    ensures Reach(events).timerPending <==> CurrentTimer(Reach(events))
    ensures Reach(events).wakePending <==> Since(Reach, events, Queues, Clears)
  {
    forall s, e | Inductive(s) && Guard(s, e)
      ensures Armed(Transition(s, e)) <==> Arms(s, e) || (Armed(s) && !Disarms(s, e))
      ensures Remembers(Transition(s, e)) <==> Queues(s, e) || (Remembers(s) && !Clears(s, e))
    {
      ArmedStep(s, e);
      RemembersStep(s, e);
    }
    AcceptedHistory(Armed, Arms, Disarms, events);
    AcceptedHistory(Remembers, Queues, Clears, events);
    AlwaysInductive(DEFAULT, events);
  }

  predicate Superseded(s: State) { s.staleTimerPending }

  predicate Supersedes(s: State, e: Event) {
    s.timerPending && (Interrupts(s, e) || (Guard(s, e) && e == Hint && !s.cyclePending))
  }

  predicate DropsStale(s: State, e: Event) { Guard(s, e) && e == StaleTimerFire }

  lemma StaleStep(s: State, e: Event)
    requires Inductive(s) && Guard(s, e)
    ensures Superseded(Transition(s, e)) <==> Supersedes(s, e) || (Superseded(s) && !DropsStale(s, e))
  {}

  /** A stale timer is out exactly from the event that superseded a pending one to its fire. */
  lemma StaleTimersExactly(events: seq<Event>)
    ensures Reach(events).staleTimerPending <==> Since(Reach, events, Supersedes, DropsStale)
  {
    forall s, e | Inductive(s) && Guard(s, e)
      ensures Superseded(Transition(s, e)) <==> Supersedes(s, e) || (Superseded(s) && !DropsStale(s, e))
    {
      StaleStep(s, e);
    }
    AcceptedHistory(Superseded, Supersedes, DropsStale, events);
  }

  // ----- resets and pages -----

  predicate Requested(s: State) { s.resetPhase == SnapshotRequested }
  predicate Installed(s: State) { s.resetPhase == SnapshotInstalled }
  predicate Requests(s: State, e: Event) { Guard(s, e) && e == BeginReset }
  predicate Installs(s: State, e: Event) { Guard(s, e) && e == FinishReset }
  predicate EndsRequest(s: State, e: Event) { Installs(s, e) || EndsOrInterrupts(s, e) }

  lemma ResetSteps(s: State, e: Event)
    requires Inductive(s) && Guard(s, e)
    ensures Requested(Transition(s, e)) <==> Requests(s, e) || (Requested(s) && !EndsRequest(s, e))
    ensures Installed(Transition(s, e)) <==> Installs(s, e) || (Installed(s) && !EndsOrInterrupts(s, e))
  {}

  /** A reset is requested, then installed, within one cycle. */
  lemma ResetsExactly(events: seq<Event>)
    ensures Reach(events).resetPhase == SnapshotRequested <==> Since(Reach, events, Requests, EndsRequest)
    ensures Reach(events).resetPhase == SnapshotInstalled <==> Since(Reach, events, Installs, EndsOrInterrupts)
  {
    forall s, e | Inductive(s) && Guard(s, e)
      ensures Requested(Transition(s, e)) <==> Requests(s, e) || (Requested(s) && !EndsRequest(s, e))
      ensures Installed(Transition(s, e)) <==> Installs(s, e) || (Installed(s) && !EndsOrInterrupts(s, e))
    {
      ResetSteps(s, e);
    }
    AcceptedHistory(Requested, Requests, EndsRequest, events);
    AcceptedHistory(Installed, Installs, EndsOrInterrupts, events);
  }

  function Pages(events: seq<Event>): nat {
    if events == [] then 0
    else
      var before, e := events[..|events| - 1], events[|events| - 1];
      if EndsOrInterrupts(Reach(before), e) then 0
      else Pages(before) + if Guard(Reach(before), e) && e == PageMore then 1 else 0
  }

  lemma PageStep(s: State, e: Event)
    requires Inductive(s) && Guard(s, e)
    ensures Transition(s, e).pagesSeen
            == if EndsOrInterrupts(s, e) then 0 else s.pagesSeen + if e == PageMore then 1 else 0
  {}

  /** The pages seen are those of the current cycle. */
  lemma {:induction false} PagesExactly(events: seq<Event>)
    ensures Reach(events).pagesSeen == Pages(events)
  {
    if events != [] {
      var before, e := events[..|events| - 1], events[|events| - 1];
      PagesExactly(before);
      AlwaysInductive(DEFAULT, before);
      NextIsTransition(Reach(before), e);
      if Guard(Reach(before), e) {
        PageStep(Reach(before), e);
      }
    }
  }

  // ----- what is accepted -----

  /** The conditions on the history of a run under which events are accepted. */
  datatype History = History(
    running: bool, away: bool, turns: nat, armed: bool, stale: bool,
    inFlight: bool, current: bool, requested: bool, installed: bool, pages: nat)

  ghost function HistoryAt(events: seq<Event>): History {
    History(
      Since(Reach, events, Starts, Stops), Since(Reach, events, Leaves, Returns), Turns(events),
      Since(Reach, events, Arms, Disarms), Since(Reach, events, Supersedes, DropsStale),
      Since(Reach, events, Fires, Settles), Since(Reach, events, Fires, EndsOrInterrupts),
      Since(Reach, events, Requests, EndsRequest), Since(Reach, events, Installs, EndsOrInterrupts), Pages(events))
  }

  function Reading(s: State): History {
    History(s.phase != Stopped, !s.online, s.generation, s.timerPending, s.staleTimerPending,
            s.cyclePending, s.phase == Syncing, s.resetPhase == SnapshotRequested, s.resetPhase == SnapshotInstalled, s.pagesSeen)
  }

  lemma {:induction false} ReadingIsHistory(events: seq<Event>)
    ensures Reading(Reach(events)) == HistoryAt(events)
  {
    RunningExactly(events);
    GenerationExactly(events);
    TimersExactly(events);
    StaleTimersExactly(events);
    CyclesExactly(events);
    ResetsExactly(events);
    PagesExactly(events);
  }

  /** Host commands are accepted by whether the scheduler runs and is online, timers by whether one is armed
      and a cycle in flight. */
  predicate HostAccepted(s: State, h: History) {
    && Guard(s, NoEvent)
    && (Guard(s, Start) <==> !h.running && h.turns < 0xffff_ffff_ffff_ffff)
    && (Guard(s, Stop) <==> h.running && h.turns < 0xffff_ffff_ffff_ffff)
    && (Guard(s, Hint) <==> h.running && !h.away)
    && (Guard(s, GoOffline) <==> h.running && !h.away && h.turns < 0xffff_ffff_ffff_ffff)
    && (Guard(s, GoOnline) <==> h.running && h.away)
    && (Guard(s, TimerFire) <==> h.armed && !h.inFlight)
    && (Guard(s, TimerJoin) <==> h.armed && h.inFlight)
    && (Guard(s, StaleTimerFire) <==> h.stale)
  }

  /** Cycle events are accepted by whether that cycle is uninterrupted. */
  predicate CycleAccepted(s: State, h: History) {
    && (Guard(s, PageMore) <==> h.current && !h.requested && h.pages < 2)
    && (Guard(s, BeginReset) <==> h.current && !h.requested && !h.installed)
    && (Guard(s, FinishReset) <==> h.current && h.requested)
    && (Guard(s, CycleSuccess) <==> h.current && !h.requested)
    && (Guard(s, CycleSuccessMore) <==> h.current && !h.requested)
    && (Guard(s, CycleRetryableFailure) <==> h.current)
    && (Guard(s, CyclePermanentFailure) <==> h.current)
    && (Guard(s, MalformedResponse) <==> h.current)
    && (Guard(s, StaleCycleSuccess) <==> h.inFlight && !h.current)
    && (Guard(s, StaleCycleFailure) <==> h.inFlight && !h.current)
  }

  lemma ReadingAccepts(s: State)
    requires Inductive(s)
    ensures HostAccepted(s, Reading(s))
  {}

  lemma ReadingAcceptsCycle(s: State)
    requires Inductive(s)
    ensures CycleAccepted(s, Reading(s))
  {}

  /** Acceptance, like every field, is a matter of the accepted events so far. */
  lemma {:induction false} AcceptedExactly(events: seq<Event>)
    ensures HostAccepted(Reach(events), HistoryAt(events)) && CycleAccepted(Reach(events), HistoryAt(events))
  {
    ReadingIsHistory(events);
    AlwaysInductive(DEFAULT, events);
    ReadingAccepts(Reach(events));
    ReadingAcceptsCycle(Reach(events));
  }

  // ----- work that is owed -----

  /** The events that create work: each leaves a timer, or a wake behind the cycle in flight. */
  predicate Creates(s: State, e: Event) {
    && Guard(s, e)
    && (e == Hint || (e == Start && s.online) || e == GoOnline || e == CycleSuccessMore || e == CycleRetryableFailure
        || (SettlesStale(e) && s.phase == Idle))
  }

  predicate Cancels(s: State, e: Event) { Fires(s, e) || Interrupts(s, e) || Breaks(s, e) }

  lemma OwedSteps(s: State, e: Event)
    requires Inductive(s) && Guard(s, e)
    ensures Owed(Transition(s, e)) <==> Creates(s, e) || (Owed(s) && !Cancels(s, e))
  {}

  /** Work is owed exactly from an event that creates it to the next cycle, or to a stop, loss, permanent
      failure or malformed response: none is lost, and none is invented. */
  lemma OwedExactly(events: seq<Event>)
    ensures Owed(Reach(events)) <==> Since(Reach, events, Creates, Cancels)
  {
    forall s, e | Inductive(s) && Guard(s, e)
      ensures Owed(Transition(s, e)) <==> Creates(s, e) || (Owed(s) && !Cancels(s, e))
    {
      OwedSteps(s, e);
    }
    AcceptedHistory(Owed, Creates, Cancels, events);
  }

  /** Every event that creates work leaves it owed, and a start while online a current timer. */
  lemma CreatedIsOwed(events: seq<Event>, e: Event)
    requires Guard(Reach(events), e)
    ensures e == Start && Reach(events).online ==> CurrentTimer(Reach(events + [e]))
    ensures e == GoOnline || e == CycleSuccessMore || e == CycleRetryableFailure || e == Hint ==> Owed(Reach(events + [e]))
    ensures e == CycleSuccessMore || e == CycleRetryableFailure ==> CurrentTimer(Reach(events + [e]))
    ensures SettlesStale(e) && Reach(events).phase == Idle ==> CurrentTimer(Reach(events + [e]))
  {
    AlwaysInductive(DEFAULT, events);
    ReachPush(events, e);
    NextIsTransition(Reach(events), e);
  }

  /** From any event that creates work, host-owned steps alone reach the next cycle, or a cancelling
      failure, within sixteen steps, and none of them is the end before that. */
  lemma {:induction false} CreatedReachesNextCycle(events: seq<Event>, e: Event, host: seq<Event>)
    requires Creates(Reach(events), e)
    requires var s := Reach(events + [e]);
             forall i :: 0 <= i < |host| ==> HostOwned(host[i]) && Accepted(s, host, i) && !Discharges(host[i])
    ensures var s := Reach(events + [e]);
            |host| <= 16 && Owed(After(s, host)) && exists next :: HostOwned(next) && Guard(After(s, host), next)
  {
    AlwaysInductive(DEFAULT, events);
    AlwaysInductive(DEFAULT, events + [e]);
    ReachPush(events, e);
    NextIsTransition(Reach(events), e);
    OwedSteps(Reach(events), e);
    HostReachesNextCycle(Reach(events + [e]), host);
  }
}
