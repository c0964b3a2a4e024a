/** The ownership lifecycle, and the Rust runner that drives it together with a lease store. */
module Lifecycle {
  import opened Wrappers

  datatype Phase = Idle | Acquiring | Running | Releasing | Closed

  datatype Event =
    | Wake | Join | BeginAcquire | AcquireGranted | AcquireDeferred
    | Cancel | CycleSettled | ReleaseSettled | Close | ProcessAbort

  datatype Snapshot = Snapshot(phase: Phase, wakePending: bool, closeRequested: bool, cancelRequested: bool, permitHeld: bool)

  const INITIAL := Snapshot(Idle, false, false, false, false)

  predicate IsValid(s: Snapshot) {
    && (s.permitHeld <==> s.phase == Running || s.phase == Releasing)
    && if s.phase == Closed then s.closeRequested && !s.wakePending && !s.cancelRequested && !s.permitHeld
       else !(s.closeRequested && s.wakePending) && (s.cancelRequested ==> s.phase == Running)
  }

  predicate Active(phase: Phase) {
    phase == Acquiring || phase == Running || phase == Releasing
  }

  /** Where ownership ends up once given back. */
  function Rest(s: Snapshot): Phase { if s.closeRequested then Closed else Idle }

  /** `None` is an undefined event. */
  function Attempt(s: Snapshot, e: Event): Option<Snapshot> {
    match e
    case Wake => if s.phase == Closed || s.closeRequested then None else Some(s.(wakePending := true))
    case Join => if Active(s.phase) then Some(s) else None
    case BeginAcquire =>
      if s.phase != Idle || !s.wakePending || s.closeRequested then None
      else Some(s.(phase := Acquiring, wakePending := false))
    case AcquireGranted =>
      if s.phase != Acquiring then None
      else Some(s.(phase := if s.closeRequested then Releasing else Running, permitHeld := true, cancelRequested := false))
    case AcquireDeferred =>
      if s.phase != Acquiring then None
      else Some(s.(phase := Rest(s), wakePending := s.wakePending && !s.closeRequested, cancelRequested := false, permitHeld := false))
    case Cancel => if s.phase != Running then None else Some(s.(cancelRequested := true))
    case CycleSettled =>
      if s.phase != Running || !s.permitHeld then None else Some(s.(phase := Releasing, cancelRequested := false))
    case ReleaseSettled =>
      if s.phase != Releasing || !s.permitHeld then None
      else Some(s.(phase := Rest(s), wakePending := s.wakePending && !s.closeRequested, cancelRequested := false, permitHeld := false))
    case Close =>
      if s.phase == Closed then None
      else if s.phase == Idle then Some(s.(phase := Closed, wakePending := false, closeRequested := true, cancelRequested := false))
      else Some(s.(wakePending := false, closeRequested := true, cancelRequested := s.phase == Running))
    case ProcessAbort =>
      if !Active(s.phase) then None
      else Some(s.(phase := Rest(s), wakePending := false, cancelRequested := false, permitHeld := false))
  }

  function Transition(s: Snapshot, e: Event): Option<Snapshot> {
    if !IsValid(s) then None
    else
      match Attempt(s, e)
      case None => None
      case Some(n) => if IsValid(n) then Some(n) else None
  }

  /** In a valid state the check on the successor never rejects anything, and the events have meaning in
      exactly these phases. */
  lemma EventsDefined(s: Snapshot)
    requires IsValid(s)
    ensures forall e :: Transition(s, e) == Attempt(s, e)
    ensures Transition(s, Wake).Some? <==> s.phase != Closed && !s.closeRequested
    ensures Transition(s, BeginAcquire).Some? <==> s.phase == Idle && s.wakePending
    ensures Transition(s, AcquireGranted).Some? <==> s.phase == Acquiring
    ensures Transition(s, AcquireDeferred).Some? <==> s.phase == Acquiring
    ensures Transition(s, Cancel).Some? <==> s.phase == Running
    ensures Transition(s, CycleSettled).Some? <==> s.phase == Running
    ensures Transition(s, ReleaseSettled).Some? <==> s.phase == Releasing
    ensures Transition(s, Close).Some? <==> s.phase != Closed
    ensures Transition(s, Join).Some? <==> s.phase == Acquiring || s.phase == Running || s.phase == Releasing
    ensures Transition(s, ProcessAbort).Some? <==> s.phase == Acquiring || s.phase == Running || s.phase == Releasing
  {}

  /** What an event does: the phases of ownership, the wake that waits for the next one, and the requests. */
  lemma EventsMean(s: Snapshot, e: Event)
    requires Transition(s, e).Some?
    ensures var n := Transition(s, e).value;
            && n.phase == (match e
                           case Wake => s.phase
                           case Join => s.phase
                           case Cancel => s.phase
                           case BeginAcquire => Acquiring
                           case AcquireGranted => if s.closeRequested then Releasing else Running
                           case CycleSettled => Releasing
                           case Close => if s.phase == Idle then Closed else s.phase
                           case _ => if s.closeRequested then Closed else Idle)
            && (n.closeRequested <==> s.closeRequested || e == Close)
            && (n.wakePending <==> e == Wake || (s.wakePending && e != BeginAcquire && e != Close && e != ProcessAbort))
            && (n.cancelRequested <==>
                  n.phase == Running && (e == Cancel || e == Close || (s.cancelRequested && e != AcquireGranted)))
            && (n.permitHeld <==> n.phase == Running || n.phase == Releasing)
  {}

  class SyncLifecycleMachine {
    var state: Snapshot

    constructor ()
      ensures state == INITIAL
    {
      state := INITIAL;
    }

    method Apply(e: Event) returns (defined: bool)
      modifies this
      ensures defined <==> Transition(old(state), e).Some?
      ensures state == if defined then Transition(old(state), e).value else old(state)
    {
      var next := Transition(state, e);
      if next.None? {
        return false;
      }
      state := next.value;
      defined := true;
    }
  }

  // ----- run_once -----

  /** What the lease store does when asked. A panic inside it unwinds through the runner and poisons
      the store's lock for good. */
  datatype StoreAnswer = Granted(fence: nat) | Refused | StoreFails | StorePanics

  datatype CycleAnswer = CycleOk | CycleErr | CyclePanic

  datatype ReleaseAnswer = ReleaseOk | ReleaseFails | ReleasePanics

  /** How the release went, as the outcome reports it. */
  datatype Released = Given | NotGiven | NotAsked

  datatype Outcome =
    | BusyInProcess
    | BusyDurable
    | InvalidToken
    | StoreError
    | StorePoisoned
    | UndefinedLifecycle
    | Completed(fence: nat, released: Released)
    | CycleFailed(fence: nat, released: Released)
    | Panicked

  /** A call that the runner makes on the store or on the callback. */
  datatype Made = Acquired(fence: nat) | Cycled(fence: nat) | ReleaseAsked(fence: nat)

  /** `meanwhile` says that the store's lock was poisoned while the callback ran: by the callback
      itself, or by another user of the shared store. */
  datatype Inputs = Inputs(token: string, store: StoreAnswer, cycle: CycleAnswer, meanwhile: bool, release: ReleaseAnswer)

  predicate TokenOk(token: string) { 0 < |token| <= 512 }

  /** The call gets a lease. */
  predicate Leases(x: Inputs, poisoned: bool) {
    TokenOk(x.token) && !poisoned && x.store.Granted?
  }

  /** A panic of the store ends the call. */
  predicate StoreUnwinds(x: Inputs, poisoned: bool) {
    TokenOk(x.token) && !poisoned
    && (x.store.StorePanics? || (x.store.Granted? && !x.meanwhile && x.release.ReleasePanics?))
  }

  /** The lock of the store that any number of runners share. */
  class StoreLock {
    var poisoned: bool

    constructor ()
      ensures !poisoned
    {
      poisoned := false;
    }
  }

  class DesktopSyncRunner {
    const machine: SyncLifecycleMachine
    const lock: StoreLock
    var inProcess: bool
    /** Calls made on the store and on the callback, in order. */
    var made: seq<Made>

    /** Between calls the machine rests in its initial state. */
    ghost predicate Quiet()
      reads this, machine
    {
      !inProcess && machine.state == INITIAL
    }

    constructor (lock: StoreLock)
      ensures Quiet() && fresh(machine) && this.lock == lock && made == []
    {
      machine := new SyncLifecycleMachine();
      this.lock := lock;
      inProcess, made := false, [];
    }

    /** The guard's drop. Whatever ended the call, no ownership is active afterwards, an ownership that
        was aborted leaves nothing pending, and a requested close is kept. */
    method DropGuard()
      requires IsValid(machine.state)
      modifies this`inProcess, machine
      ensures !inProcess
      ensures IsValid(machine.state) && !Active(machine.state.phase)
      ensures machine.state.closeRequested == old(machine.state.closeRequested)
      ensures old(Active(machine.state.phase)) ==>
                && !machine.state.wakePending && !machine.state.cancelRequested && !machine.state.permitHeld
                && (machine.state.phase == Closed <==> machine.state.closeRequested)
      ensures !old(Active(machine.state.phase)) ==> machine.state == old(machine.state)
    {
      if Active(machine.state.phase) {
        var _ := machine.Apply(ProcessAbort);
      }
      inProcess := false;
    }

    /** The body between taking the flag and dropping the guard. A panic of the callback is caught and
        raised again at the end; a panic of the store leaves the ownership where it was; a lock that was
        poisoned while the callback ran means that the release is never asked for. */
    method RunGuarded(x: Inputs) returns (r: Outcome)
      requires machine.state == INITIAL
      modifies this`made, lock, machine
      ensures IsValid(machine.state) && !machine.state.closeRequested
      ensures StoreUnwinds(x, old(lock.poisoned)) ==>
                r == Panicked && machine.state.phase == (if x.store.StorePanics? then Acquiring else Releasing)
      ensures !StoreUnwinds(x, old(lock.poisoned)) ==> machine.state == INITIAL
      ensures lock.poisoned == (old(lock.poisoned) || StoreUnwinds(x, false) || (Leases(x, false) && x.meanwhile))
      ensures !Leases(x, old(lock.poisoned)) ==> made == old(made)
      ensures Leases(x, old(lock.poisoned)) ==>
                made == old(made) + [Acquired(x.store.fence), Cycled(x.store.fence)]
                        + if x.meanwhile then [] else [ReleaseAsked(x.store.fence)]
      ensures !TokenOk(x.token) ==> r == InvalidToken
      ensures TokenOk(x.token) && old(lock.poisoned) ==> r == StorePoisoned
      ensures TokenOk(x.token) && !old(lock.poisoned) && x.store.StoreFails? ==> r == StoreError
      ensures TokenOk(x.token) && !old(lock.poisoned) && x.store.Refused? ==> r == BusyDurable
      ensures Leases(x, old(lock.poisoned)) && !StoreUnwinds(x, old(lock.poisoned)) ==>
                var released := if x.meanwhile then NotAsked else if x.release.ReleaseOk? then Given else NotGiven;
                r == match x.cycle
                     case CycleOk => Completed(x.store.fence, released)
                     case CycleErr => CycleFailed(x.store.fence, released)
                     case CyclePanic => Panicked
    {
      if x.token == "" || |x.token| > 512 {
        return InvalidToken;
      }
      var defined := machine.Apply(Wake);
      if !defined {
        return UndefinedLifecycle;
      }
      defined := machine.Apply(BeginAcquire);
      if !defined {
        return UndefinedLifecycle;
      }
      if !lock.poisoned && x.store.StorePanics? {
        lock.poisoned := true;
        return Panicked;
      }
      if lock.poisoned || !x.store.Granted? {
        defined := machine.Apply(AcquireDeferred);
        if !defined {
          return UndefinedLifecycle;
        }
        return if lock.poisoned then StorePoisoned else if x.store.Refused? then BusyDurable else StoreError;
      }
      made := made + [Acquired(x.store.fence)];
      defined := machine.Apply(AcquireGranted);
      if !defined {
        return UndefinedLifecycle;
      }
      made := made + [Cycled(x.store.fence)];
      if x.meanwhile {
        lock.poisoned := true;
      }
      defined := machine.Apply(CycleSettled);
      if !defined {
        return UndefinedLifecycle;
      }
      var released := NotAsked;
      if !lock.poisoned {
        made := made + [ReleaseAsked(x.store.fence)];
        if x.release.ReleasePanics? {
          lock.poisoned := true;
          return Panicked;
        }
        released := if x.release.ReleaseOk? then Given else NotGiven;
      }
      defined := machine.Apply(ReleaseSettled);
      if !defined {
        return UndefinedLifecycle;
      }
      r := match x.cycle
        case CycleOk => Completed(x.store.fence, released)
        case CycleErr => CycleFailed(x.store.fence, released)
        case CyclePanic => Panicked;
    }

    /** Every path, panics of the callback and of the store included, ends quiet and without an undefined
        event. The release of a grant is asked for, once, if and only if the store's lock was not
        poisoned while the callback ran; otherwise the outcome keeps the cycle's result and says so. A
        second call while one is running changes nothing. */
    method RunOnce(x: Inputs) returns (r: Outcome)
      requires inProcess || Quiet()
      modifies this, machine, lock
      ensures old(inProcess) ==> r == BusyInProcess && unchanged(this) && unchanged(machine) && unchanged(lock)
      ensures !old(inProcess) ==> Quiet() && r != BusyInProcess && r != UndefinedLifecycle
      ensures !old(inProcess) ==> made == old(made) + Trace(x, old(lock.poisoned)) && lock.poisoned == PoisonedBy(x, old(lock.poisoned))
      ensures !old(inProcess) && 0 < |x.token| <= 512 && !old(lock.poisoned) && x.store.Granted? ==>
                && made == old(made) + [Acquired(x.store.fence), Cycled(x.store.fence)]
                           + (if x.meanwhile then [] else [ReleaseAsked(x.store.fence)])
                && (x.meanwhile || !x.release.ReleasePanics? ==>
                      var released := if x.meanwhile then NotAsked else if x.release.ReleaseOk? then Given else NotGiven;
                      r == match x.cycle
                           case CycleOk => Completed(x.store.fence, released)
                           case CycleErr => CycleFailed(x.store.fence, released)
                           case CyclePanic => Panicked)
                && (!x.meanwhile && x.release.ReleasePanics? ==> r == Panicked)
      ensures !old(inProcess) && (|x.token| == 0 || |x.token| > 512 || old(lock.poisoned) || !x.store.Granted?) ==>
                && made == old(made)
                && r == if |x.token| == 0 || |x.token| > 512 then InvalidToken
                        else if old(lock.poisoned) then StorePoisoned
                        else match x.store case Refused => BusyDurable case StoreFails => StoreError case _ => Panicked
      ensures !old(inProcess) && Leases(x, old(lock.poisoned)) && x.meanwhile ==>
                && lock.poisoned
                && r == match x.cycle
                        case CycleOk => Completed(x.store.fence, NotAsked)
                        case CycleErr => CycleFailed(x.store.fence, NotAsked)
                        case CyclePanic => Panicked
      ensures !old(inProcess) ==>
                && (r.Completed? ==> x.cycle.CycleOk?) && (r.StorePoisoned? <==> TokenOk(x.token) && old(lock.poisoned))
                && (r.Panicked? <==> StoreUnwinds(x, old(lock.poisoned)) || (Leases(x, old(lock.poisoned)) && x.cycle.CyclePanic?))
    {
      if inProcess {
        return BusyInProcess;
      }
      inProcess := true;
      r := RunGuarded(x);
      DropGuard();
    }
  }

  // ----- leases that are left held, over many calls -----

  /** The calls made by one `RunOnce`. */
  function Trace(x: Inputs, poisoned: bool): seq<Made> {
    if !Leases(x, poisoned) then []
    else [Acquired(x.store.fence), Cycled(x.store.fence)] + if x.meanwhile then [] else [ReleaseAsked(x.store.fence)]
  }

  function PoisonedBy(x: Inputs, poisoned: bool): bool {
    poisoned || StoreUnwinds(x, false) || (Leases(x, false) && x.meanwhile)
  }

  /** What can happen to one runner: a call of its own, a panic of someone else under the lock, or a host
      that clears the poison. */
  datatype Happening = Called(x: Inputs) | PoisonedElsewhere | PoisonCleared

  function LockAfter(poisoned: bool, events: seq<Happening>): bool {
    if events == [] then poisoned
    else
      var before := LockAfter(poisoned, events[..|events| - 1]);
      match events[|events| - 1]
      case Called(x) => PoisonedBy(x, before)
      case PoisonedElsewhere => true
      case PoisonCleared => false
  }

  function Traces(poisoned: bool, events: seq<Happening>): seq<Made> {
    if events == [] then []
    else
      var n := |events| - 1;
      Traces(poisoned, events[..n])
      + match events[n] case Called(x) => Trace(x, LockAfter(poisoned, events[..n])) case _ => []
  }

  /** Leases that were granted and whose release was never asked for, oldest first. */
  function LeftHeld(made: seq<Made>): seq<nat> {
    if made == [] then []
    else
      var before := LeftHeld(made[..|made| - 1]);
      match made[|made| - 1]
      case Acquired(fence) => before + [fence]
      case Cycled(_) => before
      case ReleaseAsked(fence) => if before != [] && before[|before| - 1] == fence then before[..|before| - 1] else before
  }

  /** The leases of the calls during whose callback the lock was poisoned. */
  function Overtaken(poisoned: bool, events: seq<Happening>): seq<nat> {
    if events == [] then []
    else
      var n := |events| - 1;
      Overtaken(poisoned, events[..n])
      + if events[n].Called? && Leases(events[n].x, LockAfter(poisoned, events[..n])) && events[n].x.meanwhile
        then [events[n].x.store.fence] else []
  }

  lemma LeftHeldPush(made: seq<Made>, m: Made)
    ensures (made + [m])[..|made|] == made
  {}

  lemma LeftHeldTrace(made: seq<Made>, x: Inputs, poisoned: bool)
    ensures LeftHeld(made + Trace(x, poisoned))
            == LeftHeld(made) + if Leases(x, poisoned) && x.meanwhile then [x.store.fence] else []
  {
    if !Leases(x, poisoned) {
      assert made + [] == made;
    } else {
      var f := x.store.fence;
      var a := made + [Acquired(f)];
      var b := a + [Cycled(f)];
      LeftHeldPush(made, Acquired(f));
      LeftHeldPush(a, Cycled(f));
      assert LeftHeld(b) == LeftHeld(made) + [f];
      if x.meanwhile {
        assert made + Trace(x, poisoned) == b;
      } else {
        LeftHeldPush(b, ReleaseAsked(f));
        assert made + Trace(x, poisoned) == b + [ReleaseAsked(f)];
        assert (LeftHeld(made) + [f])[..|LeftHeld(made)|] == LeftHeld(made);
      }
    }
  }

  /** Over any number of calls every granted lease has its release asked for, except exactly the leases
      of the calls during whose callback the lock was poisoned. */
  lemma {:induction false} LeftHeldExactly(poisoned: bool, events: seq<Happening>)
    ensures LeftHeld(Traces(poisoned, events)) == Overtaken(poisoned, events)
  {
    if events != [] {
      var n := |events| - 1;
      LeftHeldExactly(poisoned, events[..n]);
      var made := Traces(poisoned, events[..n]);
      match events[n] {
        case Called(x) => LeftHeldTrace(made, x, LockAfter(poisoned, events[..n]));
        case _ => assert made + [] == made;
      }
    }
  }

  /** Unless a host clears the poison that is at most one lease, for none is granted after it. */
  lemma {:induction false} AtMostOneLeftHeld(poisoned: bool, events: seq<Happening>)
    requires forall i :: 0 <= i < |events| ==> !events[i].PoisonCleared?
    ensures |LeftHeld(Traces(poisoned, events))| <= 1
    ensures LeftHeld(Traces(poisoned, events)) != [] ==> LockAfter(poisoned, events)
  {
    LeftHeldExactly(poisoned, events);
    if events != [] {
      AtMostOneLeftHeld(poisoned, events[..|events| - 1]);
      LeftHeldExactly(poisoned, events[..|events| - 1]);
    }
  }

  /** Such a run: the callback takes the shared lock and panics, and its lease stays held. */
  lemma CallbackPoisons(token: string, fence: nat, release: ReleaseAnswer)
    requires TokenOk(token)
    ensures var events := [Called(Inputs(token, Granted(fence), CyclePanic, true, release))];
            Traces(false, events) == [Acquired(fence), Cycled(fence)] && LeftHeld(Traces(false, events)) == [fence]
            && LockAfter(false, events)
  {
    var x := Inputs(token, Granted(fence), CyclePanic, true, release);
    var events := [Called(x)];
    assert events[..0] == [];
    assert Traces(false, events) == Trace(x, false);
    LeftHeldTrace([], x, false);
    assert [] + Trace(x, false) == Trace(x, false);
  }
}
