/** Any number of processes on one coordination table, over whole runs. */
module LeaseRuns {
  import opened Wrappers
  import opened LeaseTable

  datatype Kind = RustRunner | TypeScriptRunner

  /** A held lease: the grant as last renewed, the wake seen when it was acquired, completed cycles. */
  datatype Ownership = Ownership(grant: Grant, firstWake: nat, done: nat)

  /** Where a runner is between two of its transactions. `begin` is the run position of the step
      that started the current cycle, `seen` the durable wake generation at that moment. */
  datatype Phase =
    | Idle
    | Acquiring
    | Ready(o: Ownership)
    | Cycling(o: Ownership, begin: nat, seen: nat)
    | Succeeded(o: Ownership, begin: nat, seen: nat)
    | Failed(o: Ownership)
    | Renewing(o: Ownership, completion: Completion)
    | Finished(own: nat, cycles: nat, firstWake: nat, lastWake: nat)
    | Stopped

  /** `own` is the highest wake generation this process has signalled. */
  datatype Proc = Proc(kind: Kind, key: string, ownerId: string, ttl: nat, own: nat, phase: Phase)

  datatype Written = Written(key: string, fence: nat)

  datatype Success = Success(p: nat, key: string, begin: nat, end: nat, seen: nat)

  datatype Sys = Sys(
    table: Table, procs: seq<Proc>, time: nat,
    issued: seq<Grant>, writes: seq<Written>, successes: seq<Success>)

  /** One atomic step. `now`, `before` and `after` are store-clock readings, in any order at all.
      The last group is anyone else using the coordinator: other hosts, cycle callbacks. */
  datatype Step =
    | Signal(p: nat, now: int)
    | Resume(p: nat)
    | TryAcquire(p: nat, token: string, now: int)
    | GiveUp(p: nat)
    | StartCycle(p: nat, now: int)
    | EndCycle(p: nat, ok: bool)
    | CompleteCycle(p: nat, now: int)
    | RenewLease(p: nat, now: int)
    | ReleaseFailed(p: nat, now: int)
    | Crash(p: nat)
    | OtherSignal(key: string, now: int)
    | OtherAcquire(q: AcquireRequest, now: int)
    | OtherRenew(i: nat, ttl: nat, now: int)
    | OtherRelease(i: nat, now: int)
    | Write(i: nat, kind: Kind, before: int, writeOk: bool, after: int)

  datatype Effect = Effect(
    table: Table, proc: Option<Proc>,
    issued: Option<Grant>, write: Option<Written>, success: Option<Success>)

  function Only(t: Table): Effect { Effect(t, None, None, None, None) }

  function Moved(t: Table, proc: Proc, phase: Phase): Effect {
    Effect(t, Some(proc.(phase := phase)), None, None, None)
  }

  predicate BetweenRuns(phase: Phase) {
    phase.Idle? || phase.Finished? || phase.Stopped?
  }

  /** A Rust runner signals once per call; a TypeScript `wake` may arrive at any time. */
  function SignalEffect(t: Table, proc: Proc, now: int): Effect {
    if proc.kind.RustRunner? && !BetweenRuns(proc.phase) then Only(t)
    else
      var (n, r) := SignalWake(t, proc.key, now);
      match r
      case Err(_) => if proc.kind.RustRunner? then Moved(n, proc, Stopped) else Only(n)
      case Ok(receipt) =>
        Moved(n, proc.(own := receipt.generation), if BetweenRuns(proc.phase) then Acquiring else proc.phase)
  }

  /** The schema refuses every write of a row at a negative clock reading. A Rust process refuses the
      reading itself; a TypeScript process finds an unexpired owner first, and waits. */
  predicate WaitsAtNegative(t: Table, proc: Proc, now: int) {
    && proc.kind.TypeScriptRunner? && now < 0 && proc.key in t
    && t[proc.key].owner.Some? && t[proc.key].expires > now
  }

  function AcquireEffect(t: Table, proc: Proc, token: string, now: int): Effect {
    if !proc.phase.Acquiring? then Only(t)
    else
      var (n, r) := Acquire(t, AcquireRequest(proc.key, proc.ownerId, token, proc.ttl), now);
      match r
      case Err(_) => if WaitsAtNegative(t, proc, now) then Only(t) else Moved(n, proc, Stopped)
      case Ok(Busy(_, _, _)) => Only(n)
      case Ok(Granted(g)) => Moved(n, proc, Ready(Ownership(g, g.wake, 0))).(issued := Some(g))
  }

  /** The Rust runner reads the store clock for the deadline first, and gives up if that fails. */
  function StartEffect(s: Sys, proc: Proc, now: int): Effect {
    if !proc.phase.Ready? then Only(s.table)
    else if proc.kind.RustRunner? && now < 0 then Moved(s.table, proc, Stopped)
    else Moved(s.table, proc, Cycling(proc.phase.o, s.time, RowOf(s.table, proc.key).wake))
  }

  function EndEffect(s: Sys, p: nat, proc: Proc, ok: bool): Effect {
    match proc.phase
    case Cycling(o, begin, seen) =>
      if ok then Moved(s.table, proc, Succeeded(o, begin, seen)).(success := Some(Success(p, proc.key, begin, s.time, seen)))
      else Moved(s.table, proc, Failed(o))
    case _ => Only(s.table)
  }

  function CompleteEffect(t: Table, proc: Proc, now: int): Effect {
    match proc.phase
    case Succeeded(o, _, _) =>
      var (n, r) := Complete(t, o.grant, o.grant.wake, now);
      (match r
       case Err(_) => Moved(n, proc, Stopped)
       case Ok(c) =>
         if c.released then Moved(n, proc, Finished(proc.own, o.done + 1, o.firstWake, o.grant.wake))
         else Moved(n, proc, Renewing(o.(done := o.done + 1), c)))
    case _ => Only(t)
  }

  /** The renewed grant goes on with the generations that the completion reported. */
  function RenewEffect(t: Table, proc: Proc, now: int): Effect {
    match proc.phase
    case Renewing(o, c) =>
      var (n, r) := Renew(t, o.grant, proc.ttl, now);
      (match r
       case Ok(Some(g)) => Moved(n, proc, Ready(o.(grant := g.(wake := c.wake, handled := c.handled))))
       case _ => Moved(n, proc, Stopped))
    case _ => Only(t)
  }

  function ReleaseEffect(t: Table, proc: Proc, now: int): Effect {
    match proc.phase
    case Failed(o) => Moved(Release(t, o.grant, now).0, proc, Stopped)
    case _ => Only(t)
  }

  function WriteEffect(t: Table, g: Grant, kind: Kind, before: int, writeOk: bool, after: int): Effect {
    Only(t).(write := if FencedWrite(t, g, kind.RustRunner?, before, writeOk, after).Ok? then Some(Written(g.key, g.fence)) else None)
  }

  function ProcEffect(s: Sys, p: nat, proc: Proc, step: Step): Effect {
    match step
    case Signal(_, now) => SignalEffect(s.table, proc, now)
    case Resume(_) =>
      if proc.kind.TypeScriptRunner? && BetweenRuns(proc.phase) then Moved(s.table, proc, Acquiring) else Only(s.table)
    case TryAcquire(_, token, now) => AcquireEffect(s.table, proc, token, now)
    case GiveUp(_) => if proc.phase.Acquiring? then Moved(s.table, proc, Stopped) else Only(s.table)
    case StartCycle(_, now) => StartEffect(s, proc, now)
    case EndCycle(_, ok) => EndEffect(s, p, proc, ok)
    case CompleteCycle(_, now) => CompleteEffect(s.table, proc, now)
    case RenewLease(_, now) => RenewEffect(s.table, proc, now)
    case ReleaseFailed(_, now) => ReleaseEffect(s.table, proc, now)
    case Crash(_) => Moved(s.table, proc, Idle)
    case _ => Only(s.table)
  }

  function Actor(step: Step): Option<nat> {
    match step
    case Signal(p, _) => Some(p)
    case Resume(p) => Some(p)
    case TryAcquire(p, _, _) => Some(p)
    case GiveUp(p) => Some(p)
    case StartCycle(p, _) => Some(p)
    case EndCycle(p, _) => Some(p)
    case CompleteCycle(p, _) => Some(p)
    case RenewLease(p, _) => Some(p)
    case ReleaseFailed(p, _) => Some(p)
    case Crash(p) => Some(p)
    case _ => None
  }

  function OtherEffect(s: Sys, step: Step): Effect {
    match step
    case OtherSignal(key, now) => Only(SignalWake(s.table, key, now).0)
    case OtherAcquire(q, now) =>
      var (n, r) := Acquire(s.table, q, now);
      Only(n).(issued := if r.Ok? && r.value.Granted? then Some(r.value.grant) else None)
    case OtherRenew(i, ttl, now) => if i < |s.issued| then Only(Renew(s.table, s.issued[i], ttl, now).0) else Only(s.table)
    case OtherRelease(i, now) => if i < |s.issued| then Only(Release(s.table, s.issued[i], now).0) else Only(s.table)
    case Write(i, kind, before, writeOk, after) =>
      if i < |s.issued| then WriteEffect(s.table, s.issued[i], kind, before, writeOk, after) else Only(s.table)
    case _ => Only(s.table)
  }

  function EffectOf(s: Sys, step: Step): Effect {
    var actor := Actor(step);
    if actor.None? then OtherEffect(s, step)
    else if actor.value < |s.procs| then ProcEffect(s, actor.value, s.procs[actor.value], step)
    else Only(s.table)
  }

  function ToSeq<X>(x: Option<X>): seq<X> {
    if x.Some? then [x.value] else []
  }

  function Next(s: Sys, step: Step): Sys {
    var e := EffectOf(s, step);
    var actor := Actor(step);
    Sys(e.table,
        if actor.Some? && actor.value < |s.procs| && e.proc.Some? then s.procs[actor.value := e.proc.value] else s.procs,
        s.time + 1,
        s.issued + ToSeq(e.issued), s.writes + ToSeq(e.write), s.successes + ToSeq(e.success))
  }

  /** An empty table and runners that have not done anything yet. */
  predicate Initial(s: Sys) {
    && s.table == map[] && s.time == 0 && s.issued == [] && s.writes == [] && s.successes == []
    && forall p :: 0 <= p < |s.procs| ==> s.procs[p].phase == Idle && s.procs[p].own == 0
  }

  function After(s: Sys, steps: seq<Step>): Sys {
    if steps == [] then s else Next(After(s, steps[..|steps| - 1]), steps[|steps| - 1])
  }

  // ----- what one step does to the table -----

  lemma ProcEvolves(s: Sys, p: nat, proc: Proc, step: Step)
    requires Valid(s.table)
    ensures var n := ProcEffect(s, p, proc, step).table; Valid(n) && Evolves(s.table, n)
  {
    match step {
      case Signal(_, now) => SignalWakeEvolves(s.table, proc.key, now);
      case TryAcquire(_, token, now) => AcquireEvolves(s.table, AcquireRequest(proc.key, proc.ownerId, token, proc.ttl), now);
      case CompleteCycle(_, now) => if proc.phase.Succeeded? { CompleteEvolves(s.table, proc.phase.o.grant, proc.phase.o.grant.wake, now); }
      case RenewLease(_, now) => if proc.phase.Renewing? { RenewEvolves(s.table, proc.phase.o.grant, proc.ttl, now); }
      case ReleaseFailed(_, now) => if proc.phase.Failed? { ReleaseEvolves(s.table, proc.phase.o.grant, now); }
      case _ =>
    }
  }

  lemma OtherEvolves(s: Sys, step: Step)
    requires Valid(s.table)
    ensures var n := OtherEffect(s, step).table; Valid(n) && Evolves(s.table, n)
  {
    match step {
      case OtherSignal(key, now) => SignalWakeEvolves(s.table, key, now);
      case OtherAcquire(q, now) => AcquireEvolves(s.table, q, now);
      case OtherRenew(i, ttl, now) => if i < |s.issued| { RenewEvolves(s.table, s.issued[i], ttl, now); }
      case OtherRelease(i, now) => if i < |s.issued| { ReleaseEvolves(s.table, s.issued[i], now); }
      case _ =>
    }
  }

  lemma EffectEvolves(s: Sys, step: Step)
    requires Valid(s.table)
    ensures Valid(EffectOf(s, step).table) && Evolves(s.table, EffectOf(s, step).table)
  {
    var actor := Actor(step);
    if actor.None? {
      OtherEvolves(s, step);
    } else if actor.value < |s.procs| {
      ProcEvolves(s, actor.value, s.procs[actor.value], step);
    }
  }

  /** A new grant is the new top fence of its key and its owner; without one, no fence moves and no
      row gains an owner. */
  lemma EffectFences(s: Sys, step: Step)
    ensures var e := EffectOf(s, step);
            match e.issued
            case None => forall k :: k in e.table ==>
                           e.table[k].fence == RowOf(s.table, k).fence
                           && (e.table[k].owner.Some? ==> e.table[k].owner == RowOf(s.table, k).owner)
            case Some(g) =>
              && g.key in e.table && Owns(e.table[g.key], g) && g.wake == e.table[g.key].wake
              && g.fence == RowOf(s.table, g.key).fence + 1
              && e.table == s.table[g.key := e.table[g.key]]
  {}

  /** Only a runner completing a cycle that returned success moves a handled generation. */
  lemma EffectHandled(s: Sys, step: Step, k: string)
    requires k in EffectOf(s, step).table
    requires EffectOf(s, step).table[k].handled != RowOf(s.table, k).handled
    ensures step.CompleteCycle? && step.p < |s.procs| && s.procs[step.p].phase.Succeeded?
    ensures var o := s.procs[step.p].phase.o;
            && o.grant.key == k && EffectOf(s, step).table[k].handled == o.grant.wake
            && k in s.table && s.table[k].owner == Some(o.grant.token) && s.table[k].fence == o.grant.fence
            && 0 <= step.now < s.table[k].expires
  {}

  // ----- fencing -----

  predicate Issued(s: Sys) {
    forall i :: 0 <= i < |s.issued| ==>
      s.issued[i].key in s.table && 1 <= s.issued[i].fence <= s.table[s.issued[i].key].fence
  }

  predicate FencesIncrease(s: Sys) {
    forall i, j :: 0 <= i < j < |s.issued| && s.issued[i].key == s.issued[j].key ==> s.issued[i].fence < s.issued[j].fence
  }

  /** A row with an owner was given to the latest grant of its key. */
  ghost predicate OwnersIssued(s: Sys) {
    forall k :: k in s.table && s.table[k].owner.Some? ==>
      exists i :: 0 <= i < |s.issued| && s.issued[i].key == k && Owns(s.table[k], s.issued[i])
  }

  predicate WritesOrdered(s: Sys) {
    && (forall i :: 0 <= i < |s.writes| ==> s.writes[i].key in s.table && s.writes[i].fence <= s.table[s.writes[i].key].fence)
    && (forall i, j :: 0 <= i < j < |s.writes| && s.writes[i].key == s.writes[j].key ==> s.writes[i].fence <= s.writes[j].fence)
  }

  ghost predicate Fenced(s: Sys) {
    Valid(s.table) && Issued(s) && FencesIncrease(s) && OwnersIssued(s) && WritesOrdered(s)
  }

  lemma IssuedKept(s: Sys, step: Step)
    requires Fenced(s)
    ensures Valid(Next(s, step).table) && Issued(Next(s, step)) && FencesIncrease(Next(s, step))
  {
    EffectEvolves(s, step);
    EffectFences(s, step);
  }

  lemma OwnersKept(s: Sys, step: Step)
    requires Fenced(s)
    ensures OwnersIssued(Next(s, step))
  {
    EffectFences(s, step);
    var n, e := Next(s, step), EffectOf(s, step);
    forall k | k in n.table && n.table[k].owner.Some?
      ensures exists i :: 0 <= i < |n.issued| && n.issued[i].key == k && Owns(n.table[k], n.issued[i])
    {
      if e.issued.Some? && e.issued.value.key == k {
        assert n.issued[|s.issued|] == e.issued.value;
      } else {
        assert k in s.table && s.table[k].owner == n.table[k].owner && s.table[k].fence == n.table[k].fence;
        var i :| 0 <= i < |s.issued| && s.issued[i].key == k && Owns(s.table[k], s.issued[i]);
        assert n.issued[i] == s.issued[i];
      }
    }
  }

  lemma WritesKept(s: Sys, step: Step)
    requires Fenced(s)
    ensures WritesOrdered(Next(s, step))
  {
    EffectEvolves(s, step);
    var e := EffectOf(s, step);
    if e.write.Some? {
      assert e.table == s.table && e.write.value.fence == s.table[e.write.value.key].fence;
    }
  }

  lemma {:induction false} AlwaysFenced(s: Sys, steps: seq<Step>)
    requires Initial(s)
    ensures Fenced(After(s, steps)) && |After(s, steps).procs| == |s.procs| && After(s, steps).time == |steps|
  {
    if steps != [] {
      var n := |steps| - 1;
      AlwaysFenced(s, steps[..n]);
      IssuedKept(After(s, steps[..n]), steps[n]);
      OwnersKept(After(s, steps[..n]), steps[n]);
      WritesKept(After(s, steps[..n]), steps[n]);
    }
  }

  lemma OneStepEvolves(s: Sys, steps: seq<Step>, n: nat)
    requires Initial(s) && n < |steps|
    ensures Evolves(After(s, steps[..n]).table, After(s, steps[..n + 1]).table)
  {
    assert steps[..n + 1][..n] == steps[..n];
    AlwaysFenced(s, steps[..n]);
    EffectEvolves(After(s, steps[..n]), steps[n]);
  }

  lemma {:induction false} ChainEvolves(tables: seq<Table>, m: nat, n: nat)
    requires m <= n < |tables|
    requires forall i :: 0 <= i < |tables| - 1 ==> Evolves(tables[i], tables[i + 1])
    ensures Evolves(tables[m], tables[n])
  {
    if m < n {
      ChainEvolves(tables, m, n - 1);
      assert Evolves(tables[n - 1], tables[n - 1 + 1]);
      EvolvesTransitive(tables[m], tables[n - 1], tables[n]);
    }
  }

  lemma {:induction false} TableEvolves(s: Sys, steps: seq<Step>, m: nat, n: nat)
    requires Initial(s) && m <= n <= |steps|
    ensures Evolves(After(s, steps[..m]).table, After(s, steps[..n]).table)
  {
    var tables := seq(|steps| + 1, i requires 0 <= i <= |steps| => After(s, steps[..i]).table);
    forall i | 0 <= i < |steps|
      ensures Evolves(tables[i], tables[i + 1])
    {
      OneStepEvolves(s, steps, i);
    }
    ChainEvolves(tables, m, n);
  }

  /** Every acquisition of a key gets a fence strictly above all earlier ones, and of any two grants
      of one key at least the earlier is dead: at most one issued grant can ever be used. */
  lemma {:induction false} OneLiveGrant(s: Sys, steps: seq<Step>, i: nat, j: nat)
    requires Initial(s)
    requires i < j < |After(s, steps).issued| && After(s, steps).issued[i].key == After(s, steps).issued[j].key
    ensures After(s, steps).issued[i].fence < After(s, steps).issued[j].fence
    ensures Dead(After(s, steps).table, After(s, steps).issued[i])
  {
    AlwaysFenced(s, steps);
  }

  /** A grant dead at one moment of a run is refused everywhere from then on, whatever the clock says. */
  lemma {:induction false} DeadForever(s: Sys, steps: seq<Step>, m: nat, n: nat, g: Grant, ttl: nat, observed: nat, now: int, checked: bool, writeOk: bool, after: int)
    requires Initial(s) && m <= n <= |steps|
    requires Dead(After(s, steps[..m]).table, g)
    ensures var t := After(s, steps[..n]).table;
            && Dead(t, g)
            && (Renew(t, g, ttl, now).1.Ok? ==> Renew(t, g, ttl, now).1.value.None?) && Renew(t, g, ttl, now).0 == t
            && Complete(t, g, observed, now).1.Err? && Complete(t, g, observed, now).0 == t
            && FencedWrite(t, g, checked, now, writeOk, after).Err?
  {
    TableEvolves(s, steps, m, n);
    DeadStaysDead(After(s, steps[..m]).table, After(s, steps[..n]).table, g);
    DeadIsPowerless(After(s, steps[..n]).table, g, ttl, observed, now, checked, writeOk, after);
  }

  predicate SameLease(g: Grant, h: Grant) {
    g.key == h.key && g.token == h.token && g.fence == h.fence
  }

  /** Giving an issued grant back kills it, and so does a completion with nothing newer signalled,
      whatever was observed and however often the grant was renewed in between. */
  lemma {:induction false} GivingBackKills(s: Sys, steps: seq<Step>, i: nat, h: Grant, observed: nat, now: int)
    requires Initial(s) && i < |After(s, steps).issued| && SameLease(After(s, steps).issued[i], h)
    ensures var t, g := After(s, steps).table, After(s, steps).issued[i];
            && (Release(t, h, now).1.Ok? ==> Dead(Release(t, h, now).0, g))
            && (Complete(t, h, observed, now).1.Ok? && Complete(t, h, observed, now).1.value.released ==>
                  Dead(Complete(t, h, observed, now).0, g))
  {
    var f := After(s, steps);
    AlwaysFenced(s, steps);
    var g := f.issued[i];
    if f.table[g.key].fence == g.fence && f.table[g.key].owner.Some? {
      var j :| 0 <= j < |f.issued| && f.issued[j].key == g.key && Owns(f.table[g.key], f.issued[j]);
      assert j == i;
    }
  }

  /** Application writes that commit under a key's fences commit in fence order. */
  lemma {:induction false} WritesFollowFences(s: Sys, steps: seq<Step>, i: nat, j: nat)
    requires Initial(s)
    requires i < j < |After(s, steps).writes| && After(s, steps).writes[i].key == After(s, steps).writes[j].key
    ensures After(s, steps).writes[i].fence <= After(s, steps).writes[j].fence
  {
    AlwaysFenced(s, steps);
  }

  // ----- a live lease is exclusive -----

  predicate Holds(t: Table, g: Grant) {
    g.key in t && Owns(t[g.key], g)
  }

  /** The clock reading of an attempt to acquire `key` at this step. */
  function AcquireReading(s: Sys, step: Step, key: string): Option<int> {
    match step
    case TryAcquire(p, _, now) => if p < |s.procs| && s.procs[p].key == key then Some(now) else None
    case OtherAcquire(q, now) => if q.key == key then Some(now) else None
    case _ => None
  }

  /** The grant that this step would give back; a completion that keeps the lease gives nothing back. */
  function GivenBack(s: Sys, step: Step): Option<Grant> {
    match step
    case CompleteCycle(p, now) =>
      if p < |s.procs| && s.procs[p].phase.Succeeded? then
        var g := s.procs[p].phase.o.grant;
        var r := Complete(s.table, g, g.wake, now).1;
        if r.Ok? && r.value.released then Some(g) else None
      else None
    case ReleaseFailed(p, _) => if p < |s.procs| && s.procs[p].phase.Failed? then Some(s.procs[p].phase.o.grant) else None
    case OtherRelease(i, _) => if i < |s.issued| then Some(s.issued[i]) else None
    case _ => None
  }

  /** Nobody asks after the lease has expired, and its own holder does not give it back. */
  predicate Undisturbed(s: Sys, step: Step, g: Grant) {
    && (g.key in s.table && AcquireReading(s, step, g.key).Some? ==> AcquireReading(s, step, g.key).value < s.table[g.key].expires)
    && (GivenBack(s, step).Some? ==> !SameLease(g, GivenBack(s, step).value))
  }

  lemma HeldStep(s: Sys, step: Step, g: Grant)
    requires Holds(s.table, g) && Undisturbed(s, step, g)
    ensures Holds(EffectOf(s, step).table, g)
    ensures EffectOf(s, step).issued.Some? ==> EffectOf(s, step).issued.value.key != g.key
  {}

  lemma {:induction false} HeldChain(states: seq<Sys>, steps: seq<Step>, m: nat, n: nat, g: Grant)
    requires m <= n <= |steps| && |states| == |steps| + 1 && Holds(states[m].table, g)
    requires forall i :: 0 <= i < |steps| ==> states[i + 1].table == EffectOf(states[i], steps[i]).table
    requires forall i :: m <= i < n ==> Undisturbed(states[i], steps[i], g)
    ensures Holds(states[n].table, g)
  {
    if m < n {
      HeldChain(states, steps, m, n - 1, g);
      HeldStep(states[n - 1], steps[n - 1], g);
      assert states[n - 1 + 1].table == EffectOf(states[n - 1], steps[n - 1]).table;
    }
  }

  lemma AfterOne(s: Sys, steps: seq<Step>, i: nat)
    requires i < |steps|
    ensures After(s, steps[..i + 1]).table == EffectOf(After(s, steps[..i]), steps[i]).table
  {
    assert steps[..i + 1][..i] == steps[..i];
  }

  /** Until it expires or is given back, a lease keeps its owner and its fence: nobody else is granted
      the key, whatever the clock does. */
  lemma {:induction false} LeaseIsExclusive(s: Sys, steps: seq<Step>, m: nat, n: nat, g: Grant)
    requires m <= n <= |steps| && Holds(After(s, steps[..m]).table, g)
    requires forall i :: m <= i < n ==> Undisturbed(After(s, steps[..i]), steps[i], g)
    ensures Holds(After(s, steps[..n]).table, g)
  {
    var states := seq(|steps| + 1, i requires 0 <= i <= |steps| => After(s, steps[..i]));
    forall i | 0 <= i < |steps|
      ensures states[i + 1].table == EffectOf(states[i], steps[i]).table
    {
      AfterOne(s, steps, i);
    }
    HeldChain(states, steps, m, n, g);
  }

  // ----- wakes -----

  predicate OwnershipOk(t: Table, proc: Proc, o: Ownership, wake: nat) {
    o.grant.key == proc.key && proc.key in t && o.firstWake + o.done <= wake <= t[proc.key].wake
  }

  predicate PhaseOk(t: Table, proc: Proc) {
    match proc.phase
    case Ready(o) => OwnershipOk(t, proc, o, o.grant.wake)
    case Cycling(o, _, seen) => OwnershipOk(t, proc, o, o.grant.wake) && o.grant.wake <= seen
    case Succeeded(o, _, seen) => OwnershipOk(t, proc, o, o.grant.wake) && o.grant.wake <= seen
    case Renewing(o, c) => OwnershipOk(t, proc, o, c.wake)
    case Finished(own, cycles, firstWake, lastWake) =>
      && proc.key in t && own <= t[proc.key].handled && lastWake <= t[proc.key].handled
      && 1 <= cycles && firstWake + cycles <= lastWake + 1
      && (proc.kind.RustRunner? ==> own == proc.own)
    case _ => true
  }

  predicate ProcOk(t: Table, proc: Proc) {
    PhaseOk(t, proc) && (proc.own > 0 ==> proc.key in t && proc.own <= t[proc.key].wake)
  }

  predicate Accounted(s: Sys) {
    forall p :: 0 <= p < |s.procs| ==> ProcOk(s.table, s.procs[p])
  }

  lemma ProcOkEvolves(t: Table, n: Table, proc: Proc)
    requires ProcOk(t, proc) && Evolves(t, n)
    ensures ProcOk(n, proc)
  {
    if proc.key in t {
      assert RowEvolves(t[proc.key], n[proc.key]);
    }
  }

  lemma SignalledOk(t: Table, proc: Proc, now: int)
    requires Valid(t) && ProcOk(t, proc) && SignalEffect(t, proc, now).proc.Some?
    ensures ProcOk(SignalEffect(t, proc, now).table, SignalEffect(t, proc, now).proc.value)
  {
    SignalWakeEvolves(t, proc.key, now);
    ProcOkEvolves(t, SignalWake(t, proc.key, now).0, proc);
  }

  lemma AcquiredOk(t: Table, proc: Proc, token: string, now: int)
    requires Valid(t) && ProcOk(t, proc) && AcquireEffect(t, proc, token, now).proc.Some?
    ensures ProcOk(AcquireEffect(t, proc, token, now).table, AcquireEffect(t, proc, token, now).proc.value)
  {
    var q := AcquireRequest(proc.key, proc.ownerId, token, proc.ttl);
    AcquireEvolves(t, q, now);
    ProcOkEvolves(t, Acquire(t, q, now).0, proc);
  }

  /** A released completion has handled everything signalled so far, the runner's own wakes included. */
  lemma CompletedOk(t: Table, proc: Proc, now: int)
    requires Valid(t) && ProcOk(t, proc) && CompleteEffect(t, proc, now).proc.Some?
    ensures ProcOk(CompleteEffect(t, proc, now).table, CompleteEffect(t, proc, now).proc.value)
  {
    var o := proc.phase.o;
    CompleteEvolves(t, o.grant, o.grant.wake, now);
    ProcOkEvolves(t, Complete(t, o.grant, o.grant.wake, now).0, proc);
  }

  lemma RenewedOk(t: Table, proc: Proc, now: int)
    requires Valid(t) && ProcOk(t, proc) && RenewEffect(t, proc, now).proc.Some?
    ensures ProcOk(RenewEffect(t, proc, now).table, RenewEffect(t, proc, now).proc.value)
  {
    var o := proc.phase.o;
    RenewEvolves(t, o.grant, proc.ttl, now);
    ProcOkEvolves(t, Renew(t, o.grant, proc.ttl, now).0, proc);
  }

  lemma ReleasedOk(t: Table, proc: Proc, now: int)
    requires Valid(t) && ProcOk(t, proc) && ReleaseEffect(t, proc, now).proc.Some?
    ensures ProcOk(ReleaseEffect(t, proc, now).table, ReleaseEffect(t, proc, now).proc.value)
  {
    ReleaseEvolves(t, proc.phase.o.grant, now);
    ProcOkEvolves(t, Release(t, proc.phase.o.grant, now).0, proc);
  }

  lemma ActorOk(s: Sys, step: Step, p: nat)
    requires Valid(s.table) && Accounted(s)
    requires Actor(step) == Some(p) && p < |s.procs|
    requires EffectOf(s, step).proc.Some?
    ensures ProcOk(EffectOf(s, step).table, EffectOf(s, step).proc.value)
  {
    var proc := s.procs[p];
    assert ProcOk(s.table, proc);
    match step
    case Signal(_, now) => SignalledOk(s.table, proc, now);
    case TryAcquire(_, token, now) => AcquiredOk(s.table, proc, token, now);
    case CompleteCycle(_, now) => CompletedOk(s.table, proc, now);
    case RenewLease(_, now) => RenewedOk(s.table, proc, now);
    case ReleaseFailed(_, now) => ReleasedOk(s.table, proc, now);
    case _ =>
  }

  lemma AccountedKept(s: Sys, step: Step)
    requires Valid(s.table) && Accounted(s)
    ensures Accounted(Next(s, step))
  {
    EffectEvolves(s, step);
    var n := Next(s, step);
    forall p | 0 <= p < |n.procs|
      ensures ProcOk(n.table, n.procs[p])
    {
      if Actor(step) == Some(p) && EffectOf(s, step).proc.Some? {
        ActorOk(s, step, p);
      } else {
        ProcOkEvolves(s.table, n.table, s.procs[p]);
      }
    }
  }

  lemma {:induction false} AlwaysAccounted(s: Sys, steps: seq<Step>)
    requires Initial(s)
    ensures Accounted(After(s, steps))
  {
    if steps != [] {
      AlwaysAccounted(s, steps[..|steps| - 1]);
      AlwaysFenced(s, steps[..|steps| - 1]);
      AccountedKept(After(s, steps[..|steps| - 1]), steps[|steps| - 1]);
    }
  }

  /** When a runner reports success its own wake has been handled, and stays handled. */
  lemma {:induction false} SuccessCoversOwnWake(s: Sys, steps: seq<Step>, m: nat, n: nat, p: nat)
    requires Initial(s) && m <= n <= |steps| && p < |s.procs|
    ensures p < |After(s, steps[..m]).procs|
    ensures var proc := After(s, steps[..m]).procs[p];
            proc.phase.Finished? ==>
              && proc.key in After(s, steps[..n]).table
              && proc.phase.own <= After(s, steps[..n]).table[proc.key].handled
              && (proc.kind.RustRunner? ==> proc.phase.own == proc.own)
  {
    AlwaysFenced(s, steps[..m]);
    AlwaysAccounted(s, steps[..m]);
    TableEvolves(s, steps, m, n);
    var proc := After(s, steps[..m]).procs[p];
    assert ProcOk(After(s, steps[..m]).table, proc);
    if proc.phase.Finished? {
      assert RowEvolves(After(s, steps[..m]).table[proc.key], After(s, steps[..n]).table[proc.key]);
    }
  }

  /** One ownership runs at most one cycle more than the wakes that arrived while it was held. */
  lemma {:induction false} CyclesBounded(s: Sys, steps: seq<Step>, p: nat)
    requires Initial(s) && p < |s.procs|
    ensures p < |After(s, steps).procs|
    ensures var phase := After(s, steps).procs[p].phase;
            phase.Finished? ==> phase.firstWake <= phase.lastWake && 1 <= phase.cycles <= 1 + phase.lastWake - phase.firstWake
  {
    AlwaysFenced(s, steps);
    AlwaysAccounted(s, steps);
    assert ProcOk(After(s, steps).table, After(s, steps).procs[p]);
  }

  // ----- no lost wake -----

  /** Position `begin` of the run starts a cycle of `p`, and `seen` wakes were durable by then. */
  predicate Began(s: Sys, steps: seq<Step>, p: nat, key: string, begin: nat, seen: nat) {
    && begin < |steps| && steps[begin].StartCycle? && steps[begin].p == p
    && RowOf(After(s, steps[..begin]).table, key).wake == seen
  }

  /** A cycle that started at `begin` returned success at `end`. */
  predicate Succeeds(s: Sys, steps: seq<Step>, p: nat, begin: nat, end: nat) {
    && begin < end < |steps| && steps[end] == EndCycle(p, true)
    && p < |After(s, steps[..end]).procs|
    && After(s, steps[..end]).procs[p].phase.Cycling?
    && After(s, steps[..end]).procs[p].phase.begin == begin
  }

  predicate Recorded(s: Sys, steps: seq<Step>, r: Success) {
    && r.p < |s.procs| && s.procs[r.p].key == r.key
    && Began(s, steps, r.p, r.key, r.begin, r.seen) && Succeeds(s, steps, r.p, r.begin, r.end)
  }

  predicate CycleKnown(s: Sys, steps: seq<Step>, p: nat, proc: Proc) {
    && p < |s.procs| && proc.key == s.procs[p].key
    && (proc.phase.Cycling? ==> Began(s, steps, p, proc.key, proc.phase.begin, proc.phase.seen))
  }

  predicate SuccessKnown(f: Sys, proc: Proc) {
    proc.phase.Succeeded? ==>
      exists i :: 0 <= i < |f.successes| && f.successes[i].key == proc.key && f.successes[i].seen == proc.phase.seen
  }

  predicate Covered(f: Sys, k: string) {
    k in f.table && f.table[k].handled > 0 ==>
      exists i :: 0 <= i < |f.successes| && f.successes[i].key == k && f.table[k].handled <= f.successes[i].seen
  }

  /** What the history variables of a run record really happened in it. */
  ghost predicate History(s: Sys, steps: seq<Step>) {
    var f := After(s, steps);
    && (forall p :: 0 <= p < |f.procs| ==> CycleKnown(s, steps, p, f.procs[p]) && SuccessKnown(f, f.procs[p]))
    && (forall i :: 0 <= i < |f.successes| ==> Recorded(s, steps, f.successes[i]))
    && (forall k :: k in f.table ==> Covered(f, k))
  }

  lemma PrefixFacts(s: Sys, steps: seq<Step>, step: Step)
    ensures forall n: nat :: n <= |steps| ==> (steps + [step])[..n] == steps[..n]
    ensures After(s, steps + [step]) == Next(After(s, steps), step)
  {
    assert (steps + [step])[..|steps|] == steps;
  }

  lemma BeganGrows(s: Sys, steps: seq<Step>, step: Step, p: nat, key: string, begin: nat, seen: nat)
    requires Began(s, steps, p, key, begin, seen)
    ensures Began(s, steps + [step], p, key, begin, seen)
  {
    PrefixFacts(s, steps, step);
  }

  lemma SucceedsGrows(s: Sys, steps: seq<Step>, step: Step, p: nat, begin: nat, end: nat)
    requires Succeeds(s, steps, p, begin, end)
    ensures Succeeds(s, steps + [step], p, begin, end)
  {
    PrefixFacts(s, steps, step);
  }

  /** How one step can touch the record of cycles. */
  lemma EffectCycles(s: Sys, step: Step)
    ensures var e := EffectOf(s, step);
            && (e.success.Some? ==>
                  && step.EndCycle? && step.ok && step.p < |s.procs| && s.procs[step.p].phase.Cycling?
                  && var proc := s.procs[step.p];
                     e.success.value == Success(step.p, proc.key, proc.phase.begin, s.time, proc.phase.seen))
            && (e.proc.Some? ==>
                  && Actor(step).Some? && Actor(step).value < |s.procs|
                  && var proc, n := s.procs[Actor(step).value], e.proc.value;
                     && n.key == proc.key && n.kind == proc.kind
                     && (n.phase.Cycling? ==>
                           n.phase == proc.phase
                           || (step.StartCycle? && n.phase.begin == s.time && n.phase.seen == RowOf(s.table, proc.key).wake))
                     && (n.phase.Succeeded? ==>
                           n.phase == proc.phase
                           || (e.success.Some? && e.success.value.key == proc.key && e.success.value.seen == n.phase.seen)))
  {}

  lemma RecordsKept(s: Sys, steps: seq<Step>, step: Step)
    requires Initial(s) && History(s, steps)
    ensures forall i :: 0 <= i < |After(s, steps + [step]).successes| ==> Recorded(s, steps + [step], After(s, steps + [step]).successes[i])
  {
    PrefixFacts(s, steps, step);
    AlwaysFenced(s, steps);
    var f, g := After(s, steps), After(s, steps + [step]);
    EffectCycles(f, step);
    forall i | 0 <= i < |g.successes|
      ensures Recorded(s, steps + [step], g.successes[i])
    {
      var r := g.successes[i];
      if i < |f.successes| {
        assert r == f.successes[i] && Recorded(s, steps, r);
        SucceedsGrows(s, steps, step, r.p, r.begin, r.end);
      } else {
        assert CycleKnown(s, steps, step.p, f.procs[step.p]);
        assert (steps + [step])[|steps|] == step;
        assert Succeeds(s, steps + [step], r.p, r.begin, r.end);
      }
      BeganGrows(s, steps, step, r.p, r.key, r.begin, r.seen);
    }
  }

  lemma CycleKept(s: Sys, steps: seq<Step>, step: Step, p: nat)
    requires Initial(s) && History(s, steps)
    requires p < |After(s, steps + [step]).procs|
    ensures CycleKnown(s, steps + [step], p, After(s, steps + [step]).procs[p])
  {
    PrefixFacts(s, steps, step);
    AlwaysFenced(s, steps);
    var f, proc := After(s, steps), After(s, steps + [step]).procs[p];
    EffectCycles(f, step);
    assert CycleKnown(s, steps, p, f.procs[p]);
    if proc.phase.Cycling? {
      if proc.phase == f.procs[p].phase {
        BeganGrows(s, steps, step, p, proc.key, proc.phase.begin, proc.phase.seen);
      } else {
        assert (steps + [step])[|steps|] == step;
        assert Began(s, steps + [step], p, proc.key, |steps|, proc.phase.seen);
      }
    }
  }

  lemma SuccessKept(s: Sys, steps: seq<Step>, step: Step, p: nat)
    requires Initial(s) && History(s, steps)
    requires p < |After(s, steps + [step]).procs|
    ensures SuccessKnown(After(s, steps + [step]), After(s, steps + [step]).procs[p])
  {
    PrefixFacts(s, steps, step);
    AlwaysFenced(s, steps);
    var f, g := After(s, steps), After(s, steps + [step]);
    EffectCycles(f, step);
    assert SuccessKnown(f, f.procs[p]);
    if g.procs[p].phase.Succeeded? {
      if g.procs[p].phase == f.procs[p].phase {
        var i :| 0 <= i < |f.successes| && f.successes[i].key == f.procs[p].key && f.successes[i].seen == f.procs[p].phase.seen;
        assert g.successes[i] == f.successes[i];
      } else {
        assert g.successes[|f.successes|] == EffectOf(f, step).success.value;
      }
    }
  }

  lemma CoverGrows(f: Sys, g: Sys, k: string)
    requires Covered(f, k) && f.successes <= g.successes
    requires k in g.table && g.table[k].handled == RowOf(f.table, k).handled
    ensures Covered(g, k)
  {
    if g.table[k].handled > 0 {
      var i :| 0 <= i < |f.successes| && f.successes[i].key == k && f.table[k].handled <= f.successes[i].seen;
      assert g.successes[i] == f.successes[i];
    }
  }

  /** A completion counts no more than what was durable when its successful cycle began. */
  lemma CoverGained(f: Sys, step: Step, k: string)
    requires k in Next(f, step).table && Next(f, step).table[k].handled != RowOf(f.table, k).handled
    requires forall p :: 0 <= p < |f.procs| ==> ProcOk(f.table, f.procs[p]) && SuccessKnown(f, f.procs[p])
    ensures Covered(Next(f, step), k)
  {
    EffectHandled(f, step, k);
    var g, proc := Next(f, step), f.procs[step.p];
    assert ProcOk(f.table, proc) && SuccessKnown(f, proc);
    var i :| 0 <= i < |f.successes| && f.successes[i].key == proc.key && f.successes[i].seen == proc.phase.seen;
    assert g.successes[i] == f.successes[i];
  }

  lemma CoverKept(s: Sys, steps: seq<Step>, step: Step, k: string)
    requires Initial(s) && History(s, steps)
    requires k in After(s, steps + [step]).table
    ensures Covered(After(s, steps + [step]), k)
  {
    PrefixFacts(s, steps, step);
    AlwaysFenced(s, steps);
    AlwaysAccounted(s, steps);
    var f, g := After(s, steps), After(s, steps + [step]);
    if g.table[k].handled == RowOf(f.table, k).handled {
      assert k in f.table ==> Covered(f, k);
      CoverGrows(f, g, k);
    } else {
      CoverGained(f, step, k);
    }
  }

  lemma {:induction false} HistoryHolds(s: Sys, steps: seq<Step>)
    requires Initial(s)
    ensures History(s, steps)
  {
    if steps != [] {
      var before, step := steps[..|steps| - 1], steps[|steps| - 1];
      assert steps == before + [step];
      HistoryHolds(s, before);
      RecordsKept(s, before, step);
      forall p | 0 <= p < |After(s, steps).procs|
        ensures CycleKnown(s, steps, p, After(s, steps).procs[p]) && SuccessKnown(After(s, steps), After(s, steps).procs[p])
      {
        CycleKept(s, before, step, p);
        SuccessKept(s, before, step, p);
      }
      forall k | k in After(s, steps).table
        ensures Covered(After(s, steps), k)
      {
        CoverKept(s, before, step, k);
      }
    }
  }

  /** No lost wake: every generation counted as handled was durable before the start of some cycle
      on its key, and that cycle returned success. */
  lemma {:induction false} NoLostWake(s: Sys, steps: seq<Step>, key: string, generation: nat)
    requires Initial(s)
    requires key in After(s, steps).table && 0 < generation <= After(s, steps).table[key].handled
    ensures exists p: nat, begin: nat, end: nat ::
              && p < |s.procs| && s.procs[p].key == key
              && Succeeds(s, steps, p, begin, end)
              && steps[begin].StartCycle? && steps[begin].p == p
              && generation <= RowOf(After(s, steps[..begin]).table, key).wake
  {
    HistoryHolds(s, steps);
    var f := After(s, steps);
    assert Covered(f, key);
    var i :| 0 <= i < |f.successes| && f.successes[i].key == key && f.table[key].handled <= f.successes[i].seen;
    var r := f.successes[i];
    assert Recorded(s, steps, r);
    assert Succeeds(s, steps, r.p, r.begin, r.end);
  }

  /** The lease is free or expired at `now`, and nothing is at its limit. */
  predicate Available(proc: Proc, row: Row, token: string, now: nat) {
    && Identifier(proc.key) && Identifier(proc.ownerId) && Identifier(token) && TtlInRange(proc.ttl)
    && RowValid(row) && row.wake < I64_MAX && row.fence < I64_MAX
    && (row.owner.None? || row.expires <= now) && now + proc.ttl <= I64_MAX
  }

  lemma QuietAcquisition(s: Sys, p: nat, token: string, signalled: nat, now: nat)
    requires p < |s.procs| && BetweenRuns(s.procs[p].phase)
    requires Available(s.procs[p], RowOf(s.table, s.procs[p].key), token, now)
    ensures var proc := s.procs[p];
            var row := RowOf(s.table, proc.key);
            var g := Grant(proc.key, proc.ownerId, token, row.fence + 1, now, now + proc.ttl, row.wake + 1, row.handled);
            var f := Next(Next(s, Signal(p, signalled)), TryAcquire(p, token, now));
            && |f.procs| == |s.procs|
            && f.procs[p] == proc.(own := row.wake + 1, phase := Ready(Ownership(g, row.wake + 1, 0)))
            && proc.key in f.table && f.table[proc.key] == Row(Some(token), row.fence + 1, now + proc.ttl, row.wake + 1, row.handled)
  {
    var proc, row := s.procs[p], RowOf(s.table, s.procs[p].key);
    var s1 := Next(s, Signal(p, signalled));
    assert s1.table == s.table[proc.key := row.(wake := row.wake + 1)];
    assert s1.procs[p] == proc.(own := row.wake + 1, phase := Acquiring);
  }

  lemma QuietCycle(s: Sys, p: nat, started: nat, completed: nat)
    requires p < |s.procs| && s.procs[p].phase.Ready?
    requires var proc, o := s.procs[p], s.procs[p].phase.o;
             && o.grant.key == proc.key && proc.key in s.table && Owns(s.table[proc.key], o.grant) && SqliteGrantReadable(o.grant)
             && s.table[proc.key].wake == o.grant.wake == proc.own && s.table[proc.key].handled <= o.grant.wake
             && completed < s.table[proc.key].expires
    ensures var proc, o := s.procs[p], s.procs[p].phase.o;
            var f := Next(Next(Next(s, StartCycle(p, started)), EndCycle(p, true)), CompleteCycle(p, completed));
            && |f.procs| == |s.procs| && f.procs[p].phase == Finished(proc.own, o.done + 1, o.firstWake, o.grant.wake)
            && proc.key in f.table && f.table[proc.key].owner.None?
            && f.table[proc.key].handled == f.table[proc.key].wake == o.grant.wake
  {
    var o := s.procs[p].phase.o;
    var s1 := Next(s, StartCycle(p, started));
    assert s1.table == s.table && s1.procs[p].phase.Cycling? && s1.procs[p].phase.o == o;
    var s2 := Next(s1, EndCycle(p, true));
    assert s2.table == s.table && s2.procs[p].phase.Succeeded? && s2.procs[p].phase.o == o;
  }

  /** Progress of a trailing cycle: if something newer was signalled while a cycle ran, its completion keeps
      the lease, and the renewed grant goes on under the same fence with all the wakes so far. */
  lemma QuietTrailingCycle(s: Sys, p: nat, started: nat, completed: nat, renewed: nat)
    requires p < |s.procs| && s.procs[p].phase.Ready?
    requires var proc, o := s.procs[p], s.procs[p].phase.o;
             && o.grant.key == proc.key && proc.key in s.table && SqliteGrantReadable(o.grant) && TtlInRange(proc.ttl)
             && s.table[proc.key].owner == Some(o.grant.token) && s.table[proc.key].fence == o.grant.fence
             && o.grant.wake < s.table[proc.key].wake && s.table[proc.key].handled <= o.grant.wake
             && completed < s.table[proc.key].expires && renewed < s.table[proc.key].expires && renewed + proc.ttl <= I64_MAX
    ensures var proc, o := s.procs[p], s.procs[p].phase.o;
            var f := Next(Next(Next(Next(s, StartCycle(p, started)), EndCycle(p, true)), CompleteCycle(p, completed)), RenewLease(p, renewed));
            && |f.procs| == |s.procs| && f.procs[p].phase.Ready? && proc.key in f.table
            && var n, row := f.procs[p].phase.o, f.table[proc.key];
               && n.done == o.done + 1 && n.firstWake == o.firstWake
               && n.grant.wake == row.wake == s.table[proc.key].wake && n.grant.handled == row.handled == o.grant.wake
               && row.owner == s.table[proc.key].owner && row.fence == n.grant.fence == o.grant.fence && row.expires == renewed + proc.ttl
  {
    var o, key := s.procs[p].phase.o, s.procs[p].key;
    var s1 := Next(s, StartCycle(p, started));
    assert s1.table == s.table && s1.procs[p].phase.Cycling? && s1.procs[p].phase.o == o;
    var s2 := Next(s1, EndCycle(p, true));
    assert s2.table == s.table && s2.procs[p].phase.Succeeded? && s2.procs[p].phase.o == o;
    var s3 := Next(s2, CompleteCycle(p, completed));
    assert s3.table == s.table[key := s.table[key].(handled := o.grant.wake)];
    assert s3.procs[p].phase == Renewing(o.(done := o.done + 1), Completion(false, s.table[key].wake, o.grant.wake));
  }

  /** Progress: a runner that finds the lease free or expired, and whose cycle succeeds before its own
      lease runs out, handles every wake signalled so far and gives the lease back. */
  lemma QuietRunHandlesEverything(s: Sys, p: nat, token: string, signalled: nat, acquired: nat, started: nat, completed: nat)
    requires p < |s.procs| && BetweenRuns(s.procs[p].phase)
    requires Available(s.procs[p], RowOf(s.table, s.procs[p].key), token, acquired)
    requires completed < acquired + s.procs[p].ttl
    ensures var key, own := s.procs[p].key, RowOf(s.table, s.procs[p].key).wake + 1;
            var f := Next(Next(Next(Next(Next(s, Signal(p, signalled)), TryAcquire(p, token, acquired)),
                                    StartCycle(p, started)), EndCycle(p, true)), CompleteCycle(p, completed));
            && p < |f.procs| && f.procs[p].phase == Finished(own, 1, own, own)
            && key in f.table && f.table[key].handled == f.table[key].wake == own && f.table[key].owner.None?
  {
    QuietAcquisition(s, p, token, signalled, acquired);
    QuietCycle(Next(Next(s, Signal(p, signalled)), TryAcquire(p, token, acquired)), p, started, completed);
  }

  /** A crash, a failed cycle, a takeover, a release or a foreign call never counts a wake as handled. */
  lemma {:induction false} OnlySuccessHandles(s: Sys, steps: seq<Step>, step: Step, key: string)
    requires Initial(s)
    ensures var f, g := After(s, steps), After(s, steps + [step]);
            RowOf(g.table, key).handled != RowOf(f.table, key).handled ==>
              && step.CompleteCycle? && step.p < |s.procs| == |f.procs| && s.procs[step.p].key == key
              && f.procs[step.p].phase.Succeeded?
              && RowOf(f.table, key).handled < RowOf(g.table, key).handled <= f.procs[step.p].phase.seen
              && key in f.table && f.table[key].owner == Some(f.procs[step.p].phase.o.grant.token)
              && f.table[key].fence == f.procs[step.p].phase.o.grant.fence && 0 <= step.now < f.table[key].expires
  {
    PrefixFacts(s, steps, step);
    AlwaysFenced(s, steps);
    AlwaysAccounted(s, steps);
    HistoryHolds(s, steps);
    var f := After(s, steps);
    EffectEvolves(f, step);
    if RowOf(Next(f, step).table, key).handled != RowOf(f.table, key).handled {
      EffectHandled(f, step, key);
      var proc := f.procs[step.p];
      assert ProcOk(f.table, proc);
      assert CycleKnown(s, steps, step.p, proc);
      assert RowEvolves(f.table[key], Next(f, step).table[key]);
    }
  }
}
