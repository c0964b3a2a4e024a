/** What every row and every runner of a run owes to the steps that led there. */
module LeaseHistory {
  import opened Wrappers
  import opened Positions
  import opened LeaseTable
  import opened LeaseRuns

  type Event = (Sys, Step) -> bool

  function Reach(s: Sys): seq<Step> -> Sys {
    (steps: seq<Step>) => After(s, steps)
  }

  // ----- what happens to a row -----

  predicate Name(s: string) { 0 < |s| <= 512 }

  /** A wake of `key` becomes durable. A Rust runner has one wake per call. */
  predicate Signals(s: Sys, step: Step, key: string) {
    && Name(key) && RowOf(s.table, key).wake < 0x7fff_ffff_ffff_ffff
    && match step
       case Signal(p, now) =>
         && now >= 0 && p < |s.procs| && s.procs[p].key == key
         && (s.procs[p].kind.TypeScriptRunner? || BetweenRuns(s.procs[p].phase))
       case OtherSignal(k, now) => k == key && now >= 0
       case _ => false
  }

  /** Who asks for `key`, with which names, lifetime and clock reading. */
  function Request(s: Sys, step: Step, key: string): Option<(string, string, nat, int)> {
    match step
    case TryAcquire(p, token, now) =>
      if p < |s.procs| && s.procs[p].phase.Acquiring? && s.procs[p].key == key
      then Some((s.procs[p].ownerId, token, s.procs[p].ttl, now)) else None
    case OtherAcquire(q, now) => if q.key == key then Some((q.ownerId, q.token, q.ttl, now)) else None
    case _ => None
  }

  predicate Taken(row: Row, now: int) { row.owner.Some? && now < row.expires }

  /** An attempt on `key` is granted: the lease is free or has expired, and nothing is out of range. */
  predicate Takes(s: Sys, step: Step, key: string) {
    var row := RowOf(s.table, key);
    match Request(s, step, key)
    case None => false
    case Some((owner, token, ttl, now)) =>
      && Name(key) && Name(owner) && Name(token) && 1_000 <= ttl <= 900_000
      && now >= 0 && !Taken(row, now) && row.fence < 0x7fff_ffff_ffff_ffff && now + ttl <= 0x7fff_ffff_ffff_ffff
  }

  /** Names a store can read, and numbers it can hold. */
  predicate Writable(g: Grant) { Name(g.key) && Name(g.token) && g.fence <= 0x7fff_ffff_ffff_ffff }

  predicate FullyWritable(g: Grant) {
    Writable(g) && Name(g.ownerId) && g.wake <= 0x7fff_ffff_ffff_ffff && g.handled <= 0x7fff_ffff_ffff_ffff
  }

  predicate HoldsAt(s: Sys, g: Grant, key: string) {
    g.key == key && key in s.table && s.table[key].owner == Some(g.token) && s.table[key].fence == g.fence
  }

  predicate HoldsUnexpired(s: Sys, g: Grant, key: string, now: int) {
    HoldsAt(s, g, key) && now < s.table[key].expires
  }

  /** A runner counts what its successful cycle observed as handled, while it still holds the lease. */
  predicate Completes(s: Sys, step: Step, key: string) {
    && step.CompleteCycle? && step.p < |s.procs| && s.procs[step.p].phase.Succeeded?
    && var g := s.procs[step.p].phase.o.grant;
       FullyWritable(g) && step.now >= 0 && HoldsUnexpired(s, g, key, step.now) && g.wake <= s.table[key].wake
  }

  /** The wake generation that the completed cycle had seen. */
  function Observed(s: Sys, step: Step): int {
    if step.CompleteCycle? && step.p < |s.procs| && s.procs[step.p].phase.Succeeded? then s.procs[step.p].phase.o.grant.wake else 0
  }

  predicate Frees(s: Sys, g: Grant, key: string, now: int) {
    Writable(g) && now >= 0 && HoldsAt(s, g, key)
  }

  /** The lease is given back: after a failed cycle, by anyone with the grant, or with nothing newer to do. */
  predicate GivesBack(s: Sys, step: Step, key: string) {
    match step
    case ReleaseFailed(p, now) => p < |s.procs| && s.procs[p].phase.Failed? && Frees(s, s.procs[p].phase.o.grant, key, now)
    case OtherRelease(i, now) => i < |s.issued| && Frees(s, s.issued[i], key, now)
    case CompleteCycle(p, now) => Completes(s, step, key) && Observed(s, step) == s.table[key].wake
    case _ => false
  }

  predicate Extends(s: Sys, g: Grant, key: string, ttl: nat, now: int) {
    && FullyWritable(g) && 1_000 <= ttl <= 900_000 && now >= 0 && now + ttl <= 0x7fff_ffff_ffff_ffff
    && HoldsUnexpired(s, g, key, now)
  }

  predicate Renews(s: Sys, step: Step, key: string) {
    match step
    case RenewLease(p, now) => p < |s.procs| && s.procs[p].phase.Renewing? && Extends(s, s.procs[p].phase.o.grant, key, s.procs[p].ttl, now)
    case OtherRenew(i, ttl, now) => i < |s.issued| && Extends(s, s.issued[i], key, ttl, now)
    case _ => false
  }

  /** When the lease given or extended by this step runs out. */
  function Until(s: Sys, step: Step, key: string): int {
    match step
    case TryAcquire(p, _, now) => if p < |s.procs| then now + s.procs[p].ttl else 0
    case OtherAcquire(q, now) => now + q.ttl
    case RenewLease(p, now) => if p < |s.procs| then now + s.procs[p].ttl else 0
    case OtherRenew(_, ttl, now) => now + ttl
    case _ => 0
  }

  predicate RowFollows(s: Sys, step: Step, key: string, after: Table) {
    var row, n := RowOf(s.table, key), RowOf(after, key);
    && n.wake == row.wake + (if Signals(s, step, key) then 1 else 0)
    && n.fence == row.fence + (if Takes(s, step, key) then 1 else 0)
    && n.handled == (if Completes(s, step, key) && Observed(s, step) > row.handled then Observed(s, step) else row.handled)
    && (n.owner.Some? <==> Takes(s, step, key) || (row.owner.Some? && !GivesBack(s, step, key)))
    && n.expires == (if Takes(s, step, key) || Renews(s, step, key) then Until(s, step, key)
                     else if GivesBack(s, step, key) then 0 else row.expires)
  }

  lemma SignalRow(s: Sys, step: Step, key: string)
    requires Valid(s.table) && (step.Signal? || step.OtherSignal?)
    ensures RowFollows(s, step, key, EffectOf(s, step).table)
  {}

  lemma AcquireRow(s: Sys, step: Step, key: string)
    requires Valid(s.table) && (step.TryAcquire? || step.OtherAcquire?)
    ensures RowFollows(s, step, key, EffectOf(s, step).table)
  {}

  lemma CompleteRow(s: Sys, step: Step, key: string)
    requires Valid(s.table) && step.CompleteCycle?
    ensures RowFollows(s, step, key, EffectOf(s, step).table)
  {}

  lemma RenewRow(s: Sys, step: Step, key: string)
    requires Valid(s.table) && (step.RenewLease? || step.OtherRenew?)
    ensures RowFollows(s, step, key, EffectOf(s, step).table)
  {}

  lemma ReleaseRow(s: Sys, step: Step, key: string)
    requires Valid(s.table) && (step.ReleaseFailed? || step.OtherRelease?)
    ensures RowFollows(s, step, key, EffectOf(s, step).table)
  {}

  lemma OtherRow(s: Sys, step: Step, key: string)
    requires step.Resume? || step.GiveUp? || step.StartCycle? || step.EndCycle? || step.Crash? || step.Write?
    ensures RowFollows(s, step, key, EffectOf(s, step).table)
  {}

  lemma RowStep(s: Sys, step: Step, key: string)
    requires Valid(s.table)
    ensures RowFollows(s, step, key, EffectOf(s, step).table)
  {
    if step.Signal? || step.OtherSignal? {
      SignalRow(s, step, key);
    } else if step.TryAcquire? || step.OtherAcquire? {
      AcquireRow(s, step, key);
    } else if step.CompleteCycle? {
      CompleteRow(s, step, key);
    } else if step.RenewLease? || step.OtherRenew? {
      RenewRow(s, step, key);
    } else if step.ReleaseFailed? || step.OtherRelease? {
      ReleaseRow(s, step, key);
    } else {
      OtherRow(s, step, key);
    }
  }

  lemma RunStep(s: Sys, steps: seq<Step>, i: nat, key: string)
    requires Initial(s) && i < |steps|
    ensures RowFollows(After(s, steps[..i]), steps[i], key, After(s, steps[..i + 1]).table)
  {
    AlwaysFenced(s, steps[..i]);
    AfterOne(s, steps, i);
    RowStep(After(s, steps[..i]), steps[i], key);
  }

  // ----- over whole runs -----

  function SignalsOn(key: string): Event { (s: Sys, step: Step) => Signals(s, step, key) }
  function TakesOn(key: string): Event { (s: Sys, step: Step) => Takes(s, step, key) }
  function GivesBackOn(key: string): Event { (s: Sys, step: Step) => GivesBack(s, step, key) }
  function CompletesOn(key: string): Event { (s: Sys, step: Step) => Completes(s, step, key) }
  function SetsExpiryOn(key: string): Event { (s: Sys, step: Step) => Takes(s, step, key) || Renews(s, step, key) }

  /** A row is what the run did to its key: the wake generation counts the signals, the fence the grants;
      it has an owner since a grant that was not given back, expiry alone taking nothing away; the expiry is
      the one that the last grant or renewal set; and the handled generation is the highest that a completed
      cycle had observed. */
  lemma RowExactly(s: Sys, steps: seq<Step>, key: string)
    requires Initial(s)
    ensures var row := RowOf(After(s, steps).table, key);
            && row.wake == Tally(Reach(s), steps, SignalsOn(key))
            && row.fence == Tally(Reach(s), steps, TakesOn(key))
            && (row.owner.Some? <==> Since(Reach(s), steps, TakesOn(key), GivesBackOn(key)))
            && (row.owner.Some? ==> SetTo(Reach(s), steps, SetsExpiryOn(key), (t: Sys, e: Step) => Until(t, e, key), row.expires))
            && (row.handled == 0 || Shown(Reach(s), steps, CompletesOn(key), Observed, row.handled))
            && forall v :: Shown(Reach(s), steps, CompletesOn(key), Observed, v) ==> v <= row.handled
  {
    forall i | 0 <= i < |steps|
      ensures RowFollows(Reach(s)(steps[..i]), steps[i], key, Reach(s)(steps[..i + 1]).table)
    {
      RunStep(s, steps, i, key);
    }
    TallyOf(Reach(s), steps, (t: Sys) => RowOf(t.table, key).wake, SignalsOn(key));
    TallyOf(Reach(s), steps, (t: Sys) => RowOf(t.table, key).fence, TakesOn(key));
    HistoryOf(Reach(s), steps, (t: Sys) => RowOf(t.table, key).owner.Some?, TakesOn(key), GivesBackOn(key));
    SetToOf(Reach(s), steps, (t: Sys) => RowOf(t.table, key).owner.Some?, (t: Sys) => RowOf(t.table, key).expires,
            SetsExpiryOn(key), (t: Sys, e: Step) => Until(t, e, key));
    HighestOf(Reach(s), steps, (t: Sys) => RowOf(t.table, key).handled, CompletesOn(key), Observed);
  }

  // ----- fenced writes -----

  /** A write commits if its grant holds the lease, unexpired, before and after the application's part. */
  predicate Commits(s: Sys, step: Step) {
    && step.Write? && step.i < |s.issued| && step.writeOk && Writable(s.issued[step.i])
    && (step.kind.RustRunner? ==> step.before >= 0 && step.after >= 0)
    && HoldsUnexpired(s, s.issued[step.i], s.issued[step.i].key, step.before)
    && HoldsUnexpired(s, s.issued[step.i], s.issued[step.i].key, step.after)
  }

  function CommittedWrite(s: Sys, step: Step): seq<Written> {
    if Commits(s, step) then [Written(s.issued[step.i].key, s.issued[step.i].fence)] else []
  }

  lemma WriteStep(s: Sys, step: Step)
    ensures Next(s, step).writes == s.writes + CommittedWrite(s, step)
  {}

  lemma WriteAt(s: Sys, steps: seq<Step>, i: nat)
    requires i < |steps|
    ensures After(s, steps[..i + 1]).writes == After(s, steps[..i]).writes + CommittedWrite(After(s, steps[..i]), steps[i])
  {
    assert steps[..i + 1][..i] == steps[..i];
    WriteStep(After(s, steps[..i]), steps[i]);
  }

  /** Exactly those writes of a run commit, in the order of the steps. */
  lemma WritesExactly(s: Sys, steps: seq<Step>)
    requires Initial(s)
    ensures After(s, steps).writes == Gathered(Reach(s), steps, CommittedWrite)
  {
    forall i | 0 <= i < |steps|
      ensures Reach(s)(steps[..i + 1]).writes == Reach(s)(steps[..i]).writes + CommittedWrite(Reach(s)(steps[..i]), steps[i])
    {
      WriteAt(s, steps, i);
    }
    GatheredOf(Reach(s), steps, (t: Sys) => t.writes, CommittedWrite);
  }

  // ----- where a runner is -----

  predicate Acts(s: Sys, step: Step, p: nat) { Actor(step) == Some(p) && p < |s.procs| }

  predicate Crashes(s: Sys, step: Step, p: nat) { Acts(s, step, p) && step.Crash? }

  /** A wake gives a runner at rest something to acquire for. Only a TypeScript runner resumes by itself. */
  predicate Rouses(s: Sys, step: Step, p: nat) {
    && Acts(s, step, p) && BetweenRuns(s.procs[p].phase)
    && ((step.Signal? && Signals(s, step, s.procs[p].key)) || (step.Resume? && s.procs[p].kind.TypeScriptRunner?))
  }

  /** The call of a Rust runner that cannot signal its wake ends there. */
  predicate LeavesRest(s: Sys, step: Step, p: nat) {
    Rouses(s, step, p) || (Acts(s, step, p) && BetweenRuns(s.procs[p].phase) && step.Signal? && s.procs[p].kind.RustRunner?)
  }

  predicate Granted(s: Sys, step: Step, p: nat) {
    Acts(s, step, p) && step.TryAcquire? && s.procs[p].phase.Acquiring? && Takes(s, step, s.procs[p].key)
  }

  /** Somebody else holds the lease, so the runner goes on waiting. */
  predicate Waits(s: Sys, step: Step, p: nat) {
    && Acts(s, step, p) && step.TryAcquire? && Taken(RowOf(s.table, s.procs[p].key), step.now)
    && var proc := s.procs[p];
       if step.now < 0 then proc.kind.TypeScriptRunner?
       else Name(proc.key) && Name(proc.ownerId) && Name(step.token) && 1_000 <= proc.ttl <= 900_000
  }

  predicate StopsWaiting(s: Sys, step: Step, p: nat) {
    Crashes(s, step, p) || (Acts(s, step, p) && (step.GiveUp? || (step.TryAcquire? && !Waits(s, step, p))))
  }

  predicate Renewed(s: Sys, step: Step, p: nat) {
    Acts(s, step, p) && step.RenewLease? && s.procs[p].phase.Renewing? && Renews(s, step, s.procs[p].phase.o.grant.key)
  }

  predicate Begins(s: Sys, step: Step, p: nat) {
    && Acts(s, step, p) && step.StartCycle? && s.procs[p].phase.Ready?
    && (s.procs[p].kind.RustRunner? ==> step.now >= 0)
  }

  predicate Ends(s: Sys, step: Step, p: nat, ok: bool) {
    Acts(s, step, p) && step.EndCycle? && step.ok == ok && s.procs[p].phase.Cycling?
  }

  predicate Settles(s: Sys, step: Step, p: nat, newer: bool) {
    && Acts(s, step, p) && step.CompleteCycle? && s.procs[p].phase.Succeeded?
    && var key := s.procs[p].phase.o.grant.key;
       Completes(s, step, key) && (Observed(s, step) < RowOf(s.table, key).wake <==> newer)
  }

  /** Called is anywhere since the first call after a crash. */
  datatype Place = Called | Waiting | Prepared | Running | Won | Lost | Between | Done

  predicate At(place: Place, s: Sys, p: nat) {
    p < |s.procs| &&
    match place
    case Called => !s.procs[p].phase.Idle?
    case Waiting => s.procs[p].phase.Acquiring?
    case Prepared => s.procs[p].phase.Ready?
    case Running => s.procs[p].phase.Cycling?
    case Won => s.procs[p].phase.Succeeded?
    case Lost => s.procs[p].phase.Failed?
    case Between => s.procs[p].phase.Renewing?
    case Done => s.procs[p].phase.Finished?
  }

  predicate Enters(place: Place, s: Sys, step: Step, p: nat) {
    match place
    case Called => LeavesRest(s, step, p)
    case Waiting => Rouses(s, step, p)
    case Prepared => Granted(s, step, p) || Renewed(s, step, p)
    case Running => Begins(s, step, p)
    case Won => Ends(s, step, p, true)
    case Lost => Ends(s, step, p, false)
    case Between => Settles(s, step, p, true)
    case Done => Settles(s, step, p, false)
  }

  predicate Exits(place: Place, s: Sys, step: Step, p: nat) {
    || Crashes(s, step, p)
    || (Acts(s, step, p) &&
        match place
        case Called => false
        case Waiting => StopsWaiting(s, step, p)
        case Prepared => step.StartCycle?
        case Running => step.EndCycle?
        case Won => step.CompleteCycle?
        case Lost => step.ReleaseFailed?
        case Between => step.RenewLease?
        case Done => LeavesRest(s, step, p))
  }

  predicate PlaceFollows(place: Place, s: Sys, step: Step, p: nat, n: Sys) {
    At(place, n, p) <==> Enters(place, s, step, p) || (At(place, s, p) && !Exits(place, s, step, p))
  }

  lemma AcquireMoves(place: Place, s: Sys, step: Step, p: nat)
    requires Valid(s.table) && step.TryAcquire?
    ensures PlaceFollows(place, s, step, p, Next(s, step))
  {}

  lemma CompleteMoves(place: Place, s: Sys, step: Step, p: nat)
    requires Valid(s.table) && step.CompleteCycle?
    ensures PlaceFollows(place, s, step, p, Next(s, step))
  {}

  lemma RenewMoves(place: Place, s: Sys, step: Step, p: nat)
    requires Valid(s.table) && step.RenewLease?
    ensures PlaceFollows(place, s, step, p, Next(s, step))
  {}

  lemma WakeMoves(place: Place, s: Sys, step: Step, p: nat)
    requires Valid(s.table) && (step.Signal? || step.Resume?)
    ensures PlaceFollows(place, s, step, p, Next(s, step))
  {}

  lemma OtherMoves(place: Place, s: Sys, step: Step, p: nat)
    requires !step.TryAcquire? && !step.CompleteCycle? && !step.RenewLease? && !step.Signal? && !step.Resume?
    ensures PlaceFollows(place, s, step, p, Next(s, step))
  {}

  lemma PlaceStep(place: Place, s: Sys, step: Step, p: nat)
    requires Valid(s.table)
    ensures PlaceFollows(place, s, step, p, Next(s, step))
  {
    if step.TryAcquire? {
      AcquireMoves(place, s, step, p);
    } else if step.CompleteCycle? {
      CompleteMoves(place, s, step, p);
    } else if step.RenewLease? {
      RenewMoves(place, s, step, p);
    } else if step.Signal? || step.Resume? {
      WakeMoves(place, s, step, p);
    } else {
      OtherMoves(place, s, step, p);
    }
  }

  lemma PlaceAt(place: Place, s: Sys, steps: seq<Step>, i: nat, p: nat)
    requires Initial(s) && i < |steps|
    ensures PlaceFollows(place, After(s, steps[..i]), steps[i], p, After(s, steps[..i + 1]))
  {
    AlwaysFenced(s, steps[..i]);
    assert steps[..i + 1][..i] == steps[..i];
    PlaceStep(place, After(s, steps[..i]), steps[i], p);
  }

  /** Where a runner is follows from what it did and met: each place has its way in and its ways out. */
  lemma PlacesExactly(s: Sys, steps: seq<Step>, p: nat, place: Place)
    requires Initial(s)
    ensures At(place, After(s, steps), p) <==>
            Since(Reach(s), steps, (t: Sys, e: Step) => Enters(place, t, e, p), (t: Sys, e: Step) => Exits(place, t, e, p))
  {
    forall i | 0 <= i < |steps|
      ensures PlaceFollows(place, Reach(s)(steps[..i]), steps[i], p, Reach(s)(steps[..i + 1]))
    {
      PlaceAt(place, s, steps, i, p);
    }
    HistoryOf(Reach(s), steps, (t: Sys) => At(place, t, p), (t: Sys, e: Step) => Enters(place, t, e, p), (t: Sys, e: Step) => Exits(place, t, e, p));
  }

  // ----- what a runner remembers -----

  function Held(s: Sys, p: nat): Option<Ownership> {
    if p >= |s.procs| then None
    else
      match s.procs[p].phase
      case Ready(o) => Some(o)
      case Cycling(o, _, _) => Some(o)
      case Succeeded(o, _, _) => Some(o)
      case Failed(o) => Some(o)
      case Renewing(o, _) => Some(o)
      case _ => None
  }

  /** The row of the runner's key, as a step of that runner finds it. */
  function OwnRow(s: Sys, step: Step): Row {
    if Actor(step).Some? && Actor(step).value < |s.procs| then RowOf(s.table, s.procs[Actor(step).value].key) else FRESH_ROW
  }

  /** The generation that the current cycle, or else the next one, counts as handled if it succeeds. */
  function Aim(s: Sys, p: nat): int {
    if p < |s.procs| && s.procs[p].phase.Renewing? then s.procs[p].phase.completion.wake
    else if Held(s, p).Some? then Held(s, p).value.grant.wake else 0
  }

  function HeldFence(s: Sys, p: nat): int {
    if Held(s, p).Some? then Held(s, p).value.grant.fence else 0
  }

  function FirstWake(s: Sys, p: nat): int {
    if Held(s, p).Some? then Held(s, p).value.firstWake else 0
  }

  function Own(s: Sys, p: nat): int {
    if p < |s.procs| then s.procs[p].own else 0
  }

  predicate Aims(s: Sys, step: Step, p: nat) { Granted(s, step, p) || Settles(s, step, p, true) }

  predicate OwnWake(s: Sys, step: Step, p: nat) {
    Acts(s, step, p) && step.Signal? && Signals(s, step, s.procs[p].key)
  }

  ghost predicate MemoryFollows(s: Sys, step: Step, p: nat, n: Sys) {
    && Own(n, p) == (if OwnWake(s, step, p) then OwnRow(s, step).wake + 1 else Own(s, p))
    && (Held(n, p).Some? ==>
          && (Granted(s, step, p) || Held(s, p).Some?)
          && HeldFence(n, p) == (if Granted(s, step, p) then OwnRow(s, step).fence + 1 else HeldFence(s, p))
          && FirstWake(n, p) == (if Granted(s, step, p) then OwnRow(s, step).wake else FirstWake(s, p))
          && Aim(n, p) == (if Aims(s, step, p) then OwnRow(s, step).wake else Aim(s, p)))
  }

  lemma SignalRemembers(s: Sys, step: Step, p: nat)
    requires Valid(s.table) && step.Signal?
    ensures MemoryFollows(s, step, p, Next(s, step))
  {}

  lemma AcquireRemembers(s: Sys, step: Step, p: nat)
    requires Valid(s.table) && step.TryAcquire?
    ensures MemoryFollows(s, step, p, Next(s, step))
  {}

  lemma CompleteRemembers(s: Sys, step: Step, p: nat)
    requires Valid(s.table) && Accounted(s) && step.CompleteCycle?
    ensures MemoryFollows(s, step, p, Next(s, step))
  {
    if p < |s.procs| {
      assert ProcOk(s.table, s.procs[p]);
    }
  }

  lemma OtherRemembers(s: Sys, step: Step, p: nat)
    requires !step.Signal? && !step.TryAcquire? && !step.CompleteCycle?
    ensures MemoryFollows(s, step, p, Next(s, step))
  {}

  lemma MemoryStep(s: Sys, step: Step, p: nat)
    requires Valid(s.table) && Accounted(s)
    ensures MemoryFollows(s, step, p, Next(s, step))
  {
    if step.Signal? {
      SignalRemembers(s, step, p);
    } else if step.TryAcquire? {
      AcquireRemembers(s, step, p);
    } else if step.CompleteCycle? {
      CompleteRemembers(s, step, p);
    } else {
      OtherRemembers(s, step, p);
    }
  }

  lemma MemoryAt(s: Sys, steps: seq<Step>, i: nat, p: nat)
    requires Initial(s) && i < |steps|
    ensures MemoryFollows(After(s, steps[..i]), steps[i], p, After(s, steps[..i + 1]))
  {
    AlwaysFenced(s, steps[..i]);
    AlwaysAccounted(s, steps[..i]);
    assert steps[..i + 1][..i] == steps[..i];
    MemoryStep(After(s, steps[..i]), steps[i], p);
  }

  function GrantedTo(p: nat): Event { (s: Sys, step: Step) => Granted(s, step, p) }
  function OwnWakeOf(p: nat): Event { (s: Sys, step: Step) => OwnWake(s, step, p) }
  function AimsOf(p: nat): Event { (s: Sys, step: Step) => Aims(s, step, p) }

  /** A runner that holds a lease has the fence of its last grant, and aims at the generation that was durable
      when it was granted or when its last cycle was counted; its own wake is the last one it signalled. */
  lemma MemoryExactly(s: Sys, steps: seq<Step>, p: nat)
    requires Initial(s)
    ensures var f := After(s, steps);
            && (Own(f, p) > 0 ==> SetTo(Reach(s), steps, OwnWakeOf(p), (t: Sys, e: Step) => OwnRow(t, e).wake + 1, Own(f, p)))
            && (Held(f, p).Some? ==>
                  && SetTo(Reach(s), steps, GrantedTo(p), (t: Sys, e: Step) => OwnRow(t, e).fence + 1, HeldFence(f, p))
                  && SetTo(Reach(s), steps, GrantedTo(p), (t: Sys, e: Step) => OwnRow(t, e).wake, FirstWake(f, p))
                  && SetTo(Reach(s), steps, AimsOf(p), (t: Sys, e: Step) => OwnRow(t, e).wake, Aim(f, p)))
  {
    forall i | 0 <= i < |steps|
      ensures MemoryFollows(Reach(s)(steps[..i]), steps[i], p, Reach(s)(steps[..i + 1]))
    {
      MemoryAt(s, steps, i, p);
    }
    SetToOf(Reach(s), steps, (t: Sys) => Own(t, p) > 0, (t: Sys) => Own(t, p), OwnWakeOf(p), (t: Sys, e: Step) => OwnRow(t, e).wake + 1);
    var holds := (t: Sys) => Held(t, p).Some?;
    SetToOf(Reach(s), steps, holds, (t: Sys) => HeldFence(t, p), GrantedTo(p), (t: Sys, e: Step) => OwnRow(t, e).fence + 1);
    SetToOf(Reach(s), steps, holds, (t: Sys) => FirstWake(t, p), GrantedTo(p), (t: Sys, e: Step) => OwnRow(t, e).wake);
    SetToOf(Reach(s), steps, holds, (t: Sys) => Aim(t, p), AimsOf(p), (t: Sys, e: Step) => OwnRow(t, e).wake);
  }
}
