/** The protocol sync scheduler: timer and cycle generations around single-flight cycles. */
module Scheduler {
  const U64_MAX: nat := 0xffff_ffff_ffff_ffff
  const MAX_CONSECUTIVE_FAILURES: nat := 31
  const MAX_PAGES_PER_REFINEMENT_TRACE: nat := 2

  datatype Phase = Stopped | Idle | Syncing | Offline | Backoff | Error

  datatype ResetPhase = NoReset | SnapshotRequested | SnapshotInstalled

  datatype State = State(
    phase: Phase, online: bool, generation: nat,
    timerPending: bool, timerGeneration: nat, staleTimerPending: bool,
    cyclePending: bool, cycleGeneration: nat, networkActive: bool, wakePending: bool,
    failures: nat, resetPhase: ResetPhase, pagesSeen: nat)

  const DEFAULT := State(Stopped, true, 0, false, 0, false, false, 0, false, false, 0, NoReset, 0)

  datatype Event =
    | Start | Stop | Hint | GoOffline | GoOnline
    | TimerFire | TimerJoin | StaleTimerFire
    | PageMore | BeginReset | FinishReset
    | CycleSuccess | CycleSuccessMore | CycleRetryableFailure | CyclePermanentFailure | MalformedResponse
    | StaleCycleSuccess | StaleCycleFailure
    | NoEvent

  predicate CurrentTimer(s: State) {
    s.phase != Stopped && s.online && s.timerPending && s.timerGeneration == s.generation
  }

  predicate CurrentCycle(s: State) {
    s.phase == Syncing && s.networkActive && s.cyclePending && s.cycleGeneration == s.generation
  }

  predicate SettleEnabled(s: State) {
    CurrentCycle(s) && s.resetPhase != SnapshotRequested
  }

  /** The defensive check applied to every successor state. */
  predicate StateIsSafe(s: State) {
    && (s.networkActive ==> s.phase == Syncing && s.online && s.cyclePending && s.cycleGeneration == s.generation)
    && (s.networkActive ==> s.phase != Stopped && s.phase != Offline)
    && (s.resetPhase == NoReset || CurrentCycle(s))
    && (s.timerPending ==> CurrentTimer(s))
  }

  /** When the event's own guard passes. */
  predicate Guard(s: State, e: Event) {
    match e
    case NoEvent => true
    case Start => s.phase == Stopped && s.generation < U64_MAX
    case Stop => s.phase != Stopped && s.generation < U64_MAX
    case Hint => s.phase != Stopped && s.online
    case GoOffline => s.phase != Stopped && s.online && s.generation < U64_MAX
    case GoOnline => s.phase == Offline && !s.online
    case TimerFire => CurrentTimer(s) && !s.cyclePending
    case TimerJoin => CurrentTimer(s) && s.cyclePending
    case StaleTimerFire => s.staleTimerPending
    case PageMore =>
      CurrentCycle(s) && s.resetPhase != SnapshotRequested && s.pagesSeen < MAX_PAGES_PER_REFINEMENT_TRACE
    case BeginReset => CurrentCycle(s) && s.resetPhase == NoReset
    case FinishReset => CurrentCycle(s) && s.resetPhase == SnapshotRequested
    case CycleSuccess => SettleEnabled(s)
    case CycleSuccessMore => SettleEnabled(s)
    case CycleRetryableFailure => CurrentCycle(s)
    case CyclePermanentFailure => CurrentCycle(s)
    case MalformedResponse => CurrentCycle(s)
    case StaleCycleSuccess => s.cyclePending && s.cycleGeneration != s.generation
    case StaleCycleFailure => s.cyclePending && s.cycleGeneration != s.generation
  }

  function SettleSuccess(s: State, hasMore: bool): State {
    s.(phase := Idle, timerPending := hasMore || s.wakePending, timerGeneration := s.generation,
       cyclePending := false, networkActive := false, wakePending := false,
       failures := 0, resetPhase := NoReset, pagesSeen := 0)
  }

  function GiveUpCycle(s: State): State {
    s.(cyclePending := false, networkActive := false, wakePending := false, resetPhase := NoReset, pagesSeen := 0)
  }

  function Suspend(s: State, phase: Phase): State {
    s.(phase := phase, generation := s.generation + 1,
       staleTimerPending := s.staleTimerPending || s.timerPending, timerPending := false,
       networkActive := false, wakePending := false, resetPhase := NoReset, pagesSeen := 0)
  }

  /** Successor of an event whose guard passed. */
  function Transition(s: State, e: Event): State {
    match e
    case NoEvent => s
    case Start =>
      s.(phase := if s.online then Idle else Offline, generation := s.generation + 1,
         timerPending := s.online, timerGeneration := s.generation + 1,
         wakePending := false, failures := 0, resetPhase := NoReset, pagesSeen := 0)
    case Stop => Suspend(s, Stopped)
    case Hint =>
      var n := s.(phase := if s.phase == Offline then Idle else s.phase);
      if n.cyclePending then n.(wakePending := true)
      else n.(staleTimerPending := n.staleTimerPending || n.timerPending, timerPending := true, timerGeneration := n.generation)
    case GoOffline => Suspend(s, Offline).(online := false)
    case GoOnline =>
      s.(phase := Idle, online := true, timerPending := !s.cyclePending, timerGeneration := s.generation, wakePending := s.cyclePending)
    case TimerFire =>
      s.(phase := Syncing, timerPending := false, cyclePending := true, cycleGeneration := s.generation,
         networkActive := true, wakePending := false, resetPhase := NoReset, pagesSeen := 0)
    case TimerJoin => s.(timerPending := false, wakePending := true)
    case StaleTimerFire => s.(staleTimerPending := false)
    case PageMore => s.(pagesSeen := s.pagesSeen + 1)
    case BeginReset => s.(resetPhase := SnapshotRequested)
    case FinishReset => s.(resetPhase := SnapshotInstalled)
    case CycleSuccess => SettleSuccess(s, false)
    case CycleSuccessMore => SettleSuccess(s, true)
    case CycleRetryableFailure =>
      GiveUpCycle(s).(phase := Backoff, timerPending := true, timerGeneration := s.generation,
                      failures := if s.failures + 1 > MAX_CONSECUTIVE_FAILURES then MAX_CONSECUTIVE_FAILURES else s.failures + 1)
    case CyclePermanentFailure => GiveUpCycle(s).(phase := Error, timerPending := false)
    case MalformedResponse => GiveUpCycle(s).(phase := Error, timerPending := false)
    case StaleCycleSuccess => SettleStale(s)
    case StaleCycleFailure => SettleStale(s)
  }

  function SettleStale(s: State): State {
    var n := if s.phase == Idle then s.(timerPending := true, timerGeneration := s.generation) else s;
    n.(cyclePending := false, wakePending := false)
  }

  class ProtocolSyncScheduler {
    var state: State

    constructor ()
      ensures state == DEFAULT
    {
      state := DEFAULT;
    }

    /** Rejection, by the guard or by the final check, leaves the state as it was. */
    method Apply(event: Event) returns (accepted: bool)
      requires Inductive(state)
      modifies this
      ensures accepted <==> Guard(old(state), event)
      ensures state == if accepted then Transition(old(state), event) else old(state)
      ensures Inductive(state) && StateIsSafe(state)
    {
      GuardsSuffice(state, event);
      var enabled, next := Candidate(state, event);
      if !enabled || !StateIsSafe(next) {
        return false;
      }
      state := next;
      accepted := true;
    }

    /** The event's own guard and its updates, field by field, on a copy of the state. */
    static method Candidate(current: State, event: Event) returns (enabled: bool, next: State)
      ensures enabled <==> Guard(current, event)
      ensures enabled ==> next == Transition(current, event)
    {
      if WorksOnCycle(event) || SettlesStale(event) {
        enabled, next := CycleCandidate(current, event);
      } else if MovesTimer(event) {
        enabled, next := TimerCandidate(current, event);
      } else {
        enabled, next := ControlCandidate(current, event);
      }
    }

    static method ControlCandidate(current: State, event: Event) returns (enabled: bool, next: State)
      requires !MovesTimer(event) && !WorksOnCycle(event) && !SettlesStale(event)
      ensures enabled <==> Guard(current, event)
      ensures enabled ==> next == Transition(current, event)
    {
      next := current;
      enabled := false;
      match event {
        case NoEvent =>
          enabled := true;
        case Start =>
          if next.phase == Stopped && next.generation < U64_MAX {
            next := next.(phase := if next.online then Idle else Offline, generation := next.generation + 1);
            next := next.(timerPending := next.online, timerGeneration := next.generation,
                          wakePending := false, failures := 0, resetPhase := NoReset, pagesSeen := 0);
            enabled := true;
          }
        case Stop =>
          if next.phase != Stopped && next.generation < U64_MAX {
            next := next.(phase := Stopped, generation := next.generation + 1,
                          staleTimerPending := next.staleTimerPending || next.timerPending);
            next := next.(timerPending := false, networkActive := false, wakePending := false, resetPhase := NoReset, pagesSeen := 0);
            enabled := true;
          }
        case GoOffline =>
          if next.phase != Stopped && next.online && next.generation < U64_MAX {
            next := next.(phase := Offline, online := false, generation := next.generation + 1,
                          staleTimerPending := next.staleTimerPending || next.timerPending);
            next := next.(timerPending := false, networkActive := false, wakePending := false, resetPhase := NoReset, pagesSeen := 0);
            enabled := true;
          }
        case GoOnline =>
          if next.phase == Offline && !next.online {
            next := next.(phase := Idle, online := true);
            next := next.(timerPending := !next.cyclePending, timerGeneration := next.generation, wakePending := next.cyclePending);
            enabled := true;
          }
      }
    }

    static method TimerCandidate(current: State, event: Event) returns (enabled: bool, next: State)
      requires MovesTimer(event)
      ensures enabled <==> Guard(current, event)
      ensures enabled ==> next == Transition(current, event)
    {
      next := current;
      enabled := false;
      match event {
        case Hint =>
          if next.phase != Stopped && next.online {
            if next.phase == Offline {
              next := next.(phase := Idle);
            }
            if next.cyclePending {
              next := next.(wakePending := true);
            } else {
              next := next.(staleTimerPending := next.staleTimerPending || next.timerPending);
              next := next.(timerPending := true, timerGeneration := next.generation);
            }
            enabled := true;
          }
        case TimerFire =>
          if CurrentTimer(next) && !next.cyclePending {
            next := next.(phase := Syncing, timerPending := false, cyclePending := true, cycleGeneration := next.generation);
            next := next.(networkActive := true, wakePending := false, resetPhase := NoReset, pagesSeen := 0);
            enabled := true;
          }
        case TimerJoin =>
          if CurrentTimer(next) && next.cyclePending {
            next := next.(timerPending := false, wakePending := true);
            enabled := true;
          }
        case StaleTimerFire =>
          if next.staleTimerPending {
            next := next.(staleTimerPending := false);
            enabled := true;
          }
      }
    }

    static method CycleCandidate(current: State, event: Event) returns (enabled: bool, next: State)
      requires WorksOnCycle(event) || SettlesStale(event)
      ensures enabled <==> Guard(current, event)
      ensures enabled ==> next == Transition(current, event)
    {
      next := current;
      enabled := false;
      match event {
        case PageMore =>
          if CurrentCycle(next) && next.resetPhase != SnapshotRequested && next.pagesSeen < MAX_PAGES_PER_REFINEMENT_TRACE {
            next := next.(pagesSeen := next.pagesSeen + 1);
            enabled := true;
          }
        case BeginReset =>
          if CurrentCycle(next) && next.resetPhase == NoReset {
            next := next.(resetPhase := SnapshotRequested);
            enabled := true;
          }
        case FinishReset =>
          if CurrentCycle(next) && next.resetPhase == SnapshotRequested {
            next := next.(resetPhase := SnapshotInstalled);
            enabled := true;
          }
        case CycleSuccess =>
          if SettleEnabled(next) {
            next := SettleSuccess(next, false);
            enabled := true;
          }
        case CycleSuccessMore =>
          if SettleEnabled(next) {
            next := SettleSuccess(next, true);
            enabled := true;
          }
        case CycleRetryableFailure =>
          if CurrentCycle(next) {
            next := next.(phase := Backoff, timerPending := true, timerGeneration := next.generation);
            next := next.(cyclePending := false, networkActive := false, wakePending := false);
            next := next.(failures := if next.failures + 1 > MAX_CONSECUTIVE_FAILURES then MAX_CONSECUTIVE_FAILURES else next.failures + 1);
            next := next.(resetPhase := NoReset, pagesSeen := 0);
            enabled := true;
          }
        case CyclePermanentFailure | MalformedResponse =>
          if CurrentCycle(next) {
            next := next.(phase := Error, timerPending := false, cyclePending := false, networkActive := false);
            next := next.(wakePending := false, resetPhase := NoReset, pagesSeen := 0);
            enabled := true;
          }
        case StaleCycleSuccess | StaleCycleFailure =>
          if next.cyclePending && next.cycleGeneration != next.generation {
            if next.phase == Idle {
              next := next.(timerPending := true, timerGeneration := next.generation);
            }
            next := next.(cyclePending := false, wakePending := false);
            enabled := true;
          }
      }
    }
  }

  // ----- the invariant behind the defensive check -----

  /** Phase, connectivity, cycle, timer and generation agree. */
  predicate Inductive(s: State) {
    && StateIsSafe(s)
    && (s.phase == Syncing <==> s.networkActive)
    && (s.phase == Offline ==> !s.online)
    && (!s.online ==> s.phase == Offline || s.phase == Stopped)
    && (s.cyclePending && s.cycleGeneration == s.generation ==> s.phase == Syncing)
    && (s.cyclePending ==> s.phase != Backoff && s.phase != Error)
    && (s.wakePending ==> s.cyclePending && (s.phase == Idle || s.phase == Syncing))
    && (s.phase == Syncing ==> !s.timerPending)
    && (s.pagesSeen > 0 ==> s.phase == Syncing)
    && s.cycleGeneration <= s.generation <= U64_MAX && s.timerGeneration <= s.generation
    && s.failures <= MAX_CONSECUTIVE_FAILURES && s.pagesSeen <= MAX_PAGES_PER_REFINEMENT_TRACE
  }

  /** The defensive check never fires: a passing guard always leads to a safe state. */
  lemma GuardsSuffice(s: State, e: Event)
    requires Inductive(s)
    ensures Guard(s, e) ==> Inductive(Transition(s, e)) && StateIsSafe(Transition(s, e))
  {}

  // ----- runs -----

  function Next(s: State, e: Event): State {
    if Guard(s, e) && StateIsSafe(Transition(s, e)) then Transition(s, e) else s
  }

  function After(s: State, events: seq<Event>): State {
    if events == [] then s else Next(After(s, events[..|events| - 1]), events[|events| - 1])
  }

  predicate Accepted(s: State, events: seq<Event>, i: nat)
    requires i < |events|
  {
    var before := After(s, events[..i]);
    Guard(before, events[i]) && StateIsSafe(Transition(before, events[i]))
  }

  lemma {:induction false} AlwaysInductive(s: State, events: seq<Event>)
    requires Inductive(s)
    ensures Inductive(After(s, events))
  {
    if events != [] {
      AlwaysInductive(s, events[..|events| - 1]);
      GuardsSuffice(After(s, events[..|events| - 1]), events[|events| - 1]);
    }
  }

  /** From the default state, over every event sequence, an event is rejected by its guard alone. */
  lemma {:induction false} OnlyGuardsReject(events: seq<Event>, e: Event)
    ensures StateIsSafe(After(DEFAULT, events))
    ensures Guard(After(DEFAULT, events), e) ==> StateIsSafe(Transition(After(DEFAULT, events), e))
    ensures Next(After(DEFAULT, events), e) ==
            if Guard(After(DEFAULT, events), e) then Transition(After(DEFAULT, events), e) else After(DEFAULT, events)
  {
    AlwaysInductive(DEFAULT, events);
    GuardsSuffice(After(DEFAULT, events), e);
  }

  // ----- generations mean history -----

  predicate Cuts(e: Event) { e == Stop || e == GoOffline }

  /** The accepted timer fire that started the latest cycle is at `f`. */
  predicate LastFire(s: State, events: seq<Event>, f: nat) {
    && f < |events| && events[f] == TimerFire && Accepted(s, events, f)
    && forall j :: f < j < |events| && events[j] == TimerFire ==> !Accepted(s, events, j)
  }

  /** Since the cycle was started at `f`, the scheduler was neither stopped nor taken offline. */
  predicate Uncut(s: State, events: seq<Event>, f: nat) {
    forall j :: f < j < |events| && Cuts(events[j]) ==> !Accepted(s, events, j)
  }

  lemma AcceptedPrefix(s: State, events: seq<Event>, e: Event)
    ensures After(s, events + [e]) == Next(After(s, events), e)
    ensures forall i :: 0 <= i < |events| ==> (Accepted(s, events + [e], i) <==> Accepted(s, events, i))
  {
    assert (events + [e])[..|events|] == events;
    assert forall i :: 0 <= i < |events| ==> (events + [e])[..i] == events[..i];
  }

  /** A cycle that stays pending stays current unless the step cuts it off. */
  lemma CycleStep(s: State, e: Event)
    requires Inductive(s) && Guard(s, e) && e != TimerFire && Transition(s, e).cyclePending
    ensures s.cyclePending && (CurrentCycle(Transition(s, e)) <==> CurrentCycle(s) && !Cuts(e))
  {}

  lemma FireExtends(s: State, events: seq<Event>, e: Event, f: nat)
    requires LastFire(s, events, f)
    requires e == TimerFire ==> !Accepted(s, events + [e], |events|)
    ensures LastFire(s, events + [e], f)
    ensures Uncut(s, events + [e], f) <==>
            Uncut(s, events, f) && (Cuts(e) ==> !Accepted(s, events + [e], |events|))
  {
    AcceptedPrefix(s, events, e);
    var all := events + [e];
    assert all[|events|] == e && forall i :: 0 <= i < |events| ==> all[i] == events[i];
  }

  /** A pending cycle was started by the latest fire, and it is current exactly while uncut. */
  ghost predicate CycleExplained(events: seq<Event>) {
    var s := After(DEFAULT, events);
    s.cyclePending ==>
      exists f :: LastFire(DEFAULT, events, f) && (CurrentCycle(s) <==> Uncut(DEFAULT, events, f))
  }

  lemma FireExplains(events: seq<Event>)
    requires Guard(After(DEFAULT, events), TimerFire)
    ensures CycleExplained(events + [TimerFire])
  {
    var all := events + [TimerFire];
    AcceptedPrefix(DEFAULT, events, TimerFire);
    OnlyGuardsReject(events, TimerFire);
    assert all[..|events|] == events;
    assert LastFire(DEFAULT, all, |events|) && Uncut(DEFAULT, all, |events|);
  }

  lemma StepExplains(events: seq<Event>, e: Event)
    requires CycleExplained(events) && (e == TimerFire ==> !Guard(After(DEFAULT, events), e))
    ensures CycleExplained(events + [e])
  {
    var s, n := After(DEFAULT, events), After(DEFAULT, events + [e]);
    AcceptedPrefix(DEFAULT, events, e);
    assert (events + [e])[..|events|] == events;
    OnlyGuardsReject(events, e);
    AlwaysInductive(DEFAULT, events);
    if n.cyclePending {
      if Guard(s, e) {
        CycleStep(s, e);
      }
      var f :| LastFire(DEFAULT, events, f) && (CurrentCycle(s) <==> Uncut(DEFAULT, events, f));
      FireExtends(DEFAULT, events, e, f);
    }
  }

  lemma {:induction false} GenerationsMeanHistory(events: seq<Event>)
    ensures CycleExplained(events)
  {
    if events != [] {
      var before, e := events[..|events| - 1], events[|events| - 1];
      assert events == before + [e];
      GenerationsMeanHistory(before);
      if e == TimerFire && Guard(After(DEFAULT, before), e) {
        FireExplains(before);
      } else {
        StepExplains(before, e);
      }
    }
  }

  predicate WorksOnCycle(e: Event) {
    || e == PageMore || e == BeginReset || e == FinishReset || e == CycleSuccess || e == CycleSuccessMore
    || e == CycleRetryableFailure || e == CyclePermanentFailure || e == MalformedResponse
  }

  predicate MovesTimer(e: Event) { e == Hint || e == TimerFire || e == TimerJoin || e == StaleTimerFire }

  predicate SettlesStale(e: Event) { e == StaleCycleSuccess || e == StaleCycleFailure }

  lemma PendingCycleMoves(s: State, e: Event)
    requires Inductive(s) && s.cyclePending && (WorksOnCycle(e) || SettlesStale(e))
    ensures CurrentCycle(s) && SettlesStale(e) ==> !Guard(s, e)
    ensures !CurrentCycle(s) ==> (Guard(s, e) <==> SettlesStale(e))
    ensures !CurrentCycle(s) && Guard(s, e) ==>
              var n := Transition(s, e);
              n.phase == s.phase && n.generation == s.generation && n.failures == s.failures && !n.cyclePending
  {}

  /** A cut-off cycle can only settle as stale, and then changes neither phase, generation nor failure count. */
  lemma CutCycleIsInert(events: seq<Event>, f: nat, e: Event)
    requires After(DEFAULT, events).cyclePending
    requires LastFire(DEFAULT, events, f)
    requires WorksOnCycle(e) || SettlesStale(e)
    ensures var s := After(DEFAULT, events);
            if Uncut(DEFAULT, events, f) then SettlesStale(e) ==> !Guard(s, e)
            else
              && (Guard(s, e) <==> SettlesStale(e))
              && (Guard(s, e) ==>
                    var n := Transition(s, e);
                    n.phase == s.phase && n.generation == s.generation && n.failures == s.failures && !n.cyclePending)
  {
    GenerationsMeanHistory(events);
    AlwaysInductive(DEFAULT, events);
    var s := After(DEFAULT, events);
    var g :| LastFire(DEFAULT, events, g) && (CurrentCycle(s) <==> Uncut(DEFAULT, events, g));
    assert f == g;
    PendingCycleMoves(s, e);
  }

  // ----- the failure count -----

  function Counted(retries: nat, e: Event): nat {
    match e
    case Start => 0
    case CycleSuccess => 0
    case CycleSuccessMore => 0
    case CycleRetryableFailure => retries + 1
    case _ => retries
  }

  /** Retryable failures since the last start or successful cycle, counting accepted events only. */
  function Retries(events: seq<Event>): nat {
    if events == [] then 0
    else
      var before, e := events[..|events| - 1], events[|events| - 1];
      if Guard(After(DEFAULT, before), e) then Counted(Retries(before), e) else Retries(before)
  }

  function Capped(n: nat): nat { if n < MAX_CONSECUTIVE_FAILURES then n else MAX_CONSECUTIVE_FAILURES }

  lemma {:induction false} FailureStep(s: State, e: Event, retries: nat)
    requires s.failures == Capped(retries)
    ensures Transition(s, e).failures == Capped(Counted(retries, e))
  {
    match e
    case Start =>
    case CycleSuccess =>
    case CycleSuccessMore =>
    case CycleRetryableFailure =>
    case Hint =>
    case _ =>
  }

  /** The count that the host's backoff is computed from: stops, stale settlements and reconnections
      neither reset nor raise it. */
  lemma {:induction false} FailuresCountRetries(events: seq<Event>)
    ensures After(DEFAULT, events).failures == Capped(Retries(events))
  {
    if events != [] {
      var before, e := events[..|events| - 1], events[|events| - 1];
      FailuresCountRetries(before);
      OnlyGuardsReject(before, e);
      FailureStep(After(DEFAULT, before), e, Retries(before));
    }
  }

  // ----- accepted hints are not lost -----

  predicate Owed(s: State) { s.timerPending || s.wakePending }

  /** What may discharge a pending wake: a newer cycle, or a cancellation. */
  predicate Discharges(e: Event) {
    e == TimerFire || Cuts(e) || e == CyclePermanentFailure || e == MalformedResponse
  }

  lemma OwedStep(s: State, e: Event)
    requires Inductive(s) && Guard(s, e) && !Discharges(e)
    ensures Owed(s) || e == Hint ==> Owed(Transition(s, e))
  {}

  /** After an accepted hint a timer or a wake stays pending until something discharges it. */
  lemma {:induction false} HintsAreNotLost(events: seq<Event>, h: nat)
    requires h < |events| && events[h] == Hint && Accepted(DEFAULT, events, h)
    requires forall j :: h < j < |events| && Accepted(DEFAULT, events, j) ==> !Discharges(events[j])
    ensures Owed(After(DEFAULT, events))
    decreases |events|
  {
    var before, e := events[..|events| - 1], events[|events| - 1];
    assert events == before + [e];
    AcceptedPrefix(DEFAULT, before, e);
    AlwaysInductive(DEFAULT, before);
    GuardsSuffice(After(DEFAULT, before), e);
    if h < |before| {
      HintsAreNotLost(before, h);
      assert Accepted(DEFAULT, events, |before|) ==> !Discharges(e);
    }
    if Guard(After(DEFAULT, before), e) {
      OwedStep(After(DEFAULT, before), e);
    }
  }

  /** Events that only the host's own timers and cycles produce. */
  predicate HostOwned(e: Event) {
    e == TimerFire || e == TimerJoin || e == StaleTimerFire || WorksOnCycle(e) || SettlesStale(e)
  }

  function Bit(b: bool): nat { if b then 1 else 0 }

  /** Work left before the next cycle can start. */
  function Measure(s: State): nat {
    Bit(s.staleTimerPending) + Bit(s.timerPending)
    + if !s.cyclePending then 0
      else
        10 + (if s.pagesSeen <= MAX_PAGES_PER_REFINEMENT_TRACE then MAX_PAGES_PER_REFINEMENT_TRACE - s.pagesSeen else 0)
        + match s.resetPhase case NoReset => 2 case SnapshotRequested => 1 case SnapshotInstalled => 0
  }

  lemma HostStepDecreases(s: State, e: Event)
    requires Inductive(s) && HostOwned(e) && Guard(s, e) && !Discharges(e)
    ensures Measure(Transition(s, e)) < Measure(s)
  {}

  /** While a wake is owed the host always has an enabled move of its own. */
  lemma OwedIsNeverStuck(s: State)
    requires Inductive(s) && Owed(s)
    ensures exists e :: HostOwned(e) && Guard(s, e)
  {
    if s.timerPending {
      assert Guard(s, TimerFire) || Guard(s, TimerJoin);
    } else if s.cycleGeneration != s.generation {
      assert Guard(s, StaleCycleSuccess);
    } else {
      assert Guard(s, FinishReset) || Guard(s, CycleSuccess);
    }
  }

  /** Host moves that discharge nothing run out after at most `Measure` steps, and until then none of
      them is the end: the next timer fire, or a cancelling failure, is reached. */
  lemma {:induction false} HostReachesNextCycle(s: State, events: seq<Event>)
    requires Inductive(s) && Owed(s)
    requires forall i :: 0 <= i < |events| ==> HostOwned(events[i]) && Accepted(s, events, i) && !Discharges(events[i])
    ensures |events| + Measure(After(s, events)) <= Measure(s) <= 16
    ensures Owed(After(s, events)) && exists e :: HostOwned(e) && Guard(After(s, events), e)
  {
    AlwaysInductive(s, events);
    if events != [] {
      var before, e := events[..|events| - 1], events[|events| - 1];
      assert events == before + [e];
      AcceptedPrefix(s, before, e);
      HostReachesNextCycle(s, before);
      AlwaysInductive(s, before);
      assert Accepted(s, events, |before|) && (before + [e])[..|before|] == before;
      HostStepDecreases(After(s, before), e);
      OwedStep(After(s, before), e);
    }
    OwedIsNeverStuck(After(s, events));
  }
}
