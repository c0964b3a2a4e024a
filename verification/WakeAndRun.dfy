/** The synchronous runner: signal, acquire, cycle until nothing newer is waiting. */
module WakeAndRun {
  import opened Wrappers
  import T = LeaseTable
  import opened SqliteDesktop

  /** A call made by any other user of the table, this runner's own cycle callback included. */
  datatype Other =
    | OtherSignal(key: string, now: int)
    | OtherAcquire(q: T.AcquireRequest, now: int)
    | OtherRenew(g: T.Grant, ttl: nat, now: int)
    | OtherComplete(g: T.Grant, observed: nat, now: int)
    | OtherRelease(g: T.Grant, now: int)

  function ApplyOther(t: T.Table, o: Other): T.Table {
    match o
    case OtherSignal(key, now) => T.SignalWake(t, key, now).0
    case OtherAcquire(q, now) => T.Acquire(t, q, now).0
    case OtherRenew(g, ttl, now) => T.Renew(t, g, ttl, now).0
    case OtherComplete(g, observed, now) => T.Complete(t, g, observed, now).0
    case OtherRelease(g, now) => T.Release(t, g, now).0
  }

  lemma OtherEvolves(t: T.Table, o: Other)
    requires T.Valid(t)
    ensures T.Valid(ApplyOther(t, o)) && T.Evolves(t, ApplyOther(t, o))
  {
    match o
    case OtherSignal(key, now) => T.SignalWakeEvolves(t, key, now);
    case OtherAcquire(q, now) => T.AcquireEvolves(t, q, now);
    case OtherRenew(g, ttl, now) => T.RenewEvolves(t, g, ttl, now);
    case OtherComplete(g, observed, now) => T.CompleteEvolves(t, g, observed, now);
    case OtherRelease(g, now) => T.ReleaseEvolves(t, g, now);
  }

  /** Nobody takes, renews, completes or gives back anything: wakes may arrive. */
  predicate OnlySignals(others: seq<Other>) {
    forall i :: 0 <= i < |others| ==> others[i].OtherSignal?
  }

  predicate LeasesKept(t: T.Table, n: T.Table) {
    forall k :: k in t ==> k in n && n[k] == t[k].(wake := n[k].wake)
  }

  /** Everything the runner does not control, per waiting attempt or per cycle: store-clock readings
      in any order, calls by other users before an acquisition, during a cycle and before a renewal,
      tokens, time lost while waiting, and what the callback returns. */
  datatype World = World(
    signalNow: int, acquireNow: nat -> int,
    deadlineNow: nat -> int, releaseNow: nat -> int, completeNow: nat -> int, renewNow: nat -> int,
    beforeAcquire: nat -> seq<Other>, duringCycle: nat -> seq<Other>, beforeRenew: nat -> seq<Other>,
    tokens: nat -> string, lag: nat -> nat, cycleOk: nat -> bool)

  datatype Completed = Completed(fence: nat, wake: nat, handled: nat)

  datatype RunResult =
    | Done(completed: seq<Completed>)
    | CoordinatorError(error: T.Error)
    | GaveUpBusy(retryAfter: nat, wake: nat, handled: nat)
    | CycleFailed(releaseError: Option<T.Error>, fence: nat, wake: nat)

  function Min(a: nat, b: nat): nat { if a < b then a else b }
  function Max(a: nat, b: nat): nat { if a < b then b else a }

  /** A busy wait makes progress and never sleeps past the budget. */
  function BusyDelay(cap: nat, retryAfter: nat, budget: nat, elapsed: nat): (delay: nat)
    requires 1 <= cap && elapsed < budget
    ensures 1 <= delay <= budget - elapsed && delay <= cap
    ensures retryAfter > 0 ==> delay <= retryAfter
    ensures delay < cap && delay < budget - elapsed ==> delay == if retryAfter == 0 then 1 else retryAfter
  {
    Min(Min(cap, Max(retryAfter, 1)), Max(budget - elapsed, 1))
  }

  /** The cycles of one ownership: same fence, each for a strictly newer wake. */
  predicate OneOwnership(completed: seq<Completed>) {
    && (forall i, j :: 0 <= i < j < |completed| ==> completed[i].wake < completed[j].wake)
    && (forall i, j :: 0 <= i < j < |completed| ==> completed[i].fence == completed[j].fence)
    && (forall i :: 0 <= i < |completed| ==> completed[i].wake <= completed[i].handled)
  }

  /** The cycles so far of an ownership that began by observing `first` and observes `wake` next. */
  predicate Behind(completed: seq<Completed>, fence: nat, first: nat, wake: nat) {
    && OneOwnership(completed) && (if completed == [] then wake else completed[0].wake) == first
    && forall i :: 0 <= i < |completed| ==> completed[i].wake < wake && completed[i].fence == fence
  }

  lemma OneMoreCycle(completed: seq<Completed>, c: Completed, first: nat)
    requires Behind(completed, c.fence, first, c.wake) && c.wake <= c.handled
    ensures OneOwnership(completed + [c]) && (completed + [c])[0].wake == first
    ensures forall wake :: c.wake < wake ==> Behind(completed + [c], c.fence, first, wake)
  {}

  lemma {:induction false} CyclesBound(completed: seq<Completed>)
    requires OneOwnership(completed) && completed != []
    ensures |completed| <= 1 + completed[|completed| - 1].wake - completed[0].wake
  {
    if |completed| > 1 {
      var init := completed[..|completed| - 1];
      CyclesBound(init);
      assert init[|init| - 1].wake < completed[|completed| - 1].wake;
    }
  }

  predicate ConfigOk(leaseKey: string, ownerId: string, cycleBudgetMs: nat, leaseTtlMs: nat,
                     busyRetryCapMs: nat, busyWaitBudgetMs: nat) {
    && T.Identifier(leaseKey) && T.Identifier(ownerId)
    && 1_000 <= cycleBudgetMs <= 600_000
    && T.TtlInRange(leaseTtlMs) && cycleBudgetMs + 1_000 <= leaseTtlMs
    && 1 <= busyRetryCapMs <= leaseTtlMs
    && busyRetryCapMs <= busyWaitBudgetMs <= 2 * T.MAX_TTL_MS
  }

  class SqliteCoordinatedDesktopSyncRunner {
    const coordinator: SqliteDesktopCoordinator
    const leaseKey: string
    const ownerId: string
    const cycleBudgetMs: nat
    const leaseTtlMs: nat
    const busyRetryCapMs: nat
    const busyWaitBudgetMs: nat

    predicate Configured() {
      ConfigOk(leaseKey, ownerId, cycleBudgetMs, leaseTtlMs, busyRetryCapMs, busyWaitBudgetMs)
    }

    constructor (coordinator: SqliteDesktopCoordinator, leaseKey: string, ownerId: string,
                 cycleBudgetMs: nat, leaseTtlMs: nat, busyRetryCapMs: nat, busyWaitBudgetMs: nat)
      requires ConfigOk(leaseKey, ownerId, cycleBudgetMs, leaseTtlMs, busyRetryCapMs, busyWaitBudgetMs)
      ensures Configured() && this.coordinator == coordinator && this.leaseKey == leaseKey
    {
      this.coordinator, this.leaseKey, this.ownerId := coordinator, leaseKey, ownerId;
      this.cycleBudgetMs, this.leaseTtlMs := cycleBudgetMs, leaseTtlMs;
      this.busyRetryCapMs, this.busyWaitBudgetMs := busyRetryCapMs, busyWaitBudgetMs;
    }

    static method New(coordinator: SqliteDesktopCoordinator, leaseKey: string, ownerId: string,
                      cycleBudgetMs: nat, leaseTtlMs: nat, busyRetryCapMs: nat, busyWaitBudgetMs: nat)
      returns (r: Result<SqliteCoordinatedDesktopSyncRunner, T.Error>)
      ensures r.Ok? <==>
                && 0 < |leaseKey| <= 512 && 0 < |ownerId| <= 512 && 1_000 <= cycleBudgetMs <= 600_000
                && cycleBudgetMs + 1_000 <= leaseTtlMs <= 900_000
                && 1 <= busyRetryCapMs <= leaseTtlMs && busyRetryCapMs <= busyWaitBudgetMs <= 1_800_000
      ensures r.Ok? ==> fresh(r.value) && r.value.Configured() && r.value.coordinator == coordinator
      ensures r.Err? ==> r.error == T.InvalidConfiguration
    {
      if !T.Identifier(leaseKey) || !T.Identifier(ownerId)
         || cycleBudgetMs < 1_000 || cycleBudgetMs > 600_000
         || !T.TtlInRange(leaseTtlMs) || leaseTtlMs < cycleBudgetMs + 1_000
         || busyRetryCapMs == 0 || busyRetryCapMs > leaseTtlMs
         || busyWaitBudgetMs < busyRetryCapMs || busyWaitBudgetMs > 2 * T.MAX_TTL_MS {
        return Err(T.InvalidConfiguration);
      }
      var runner := new SqliteCoordinatedDesktopSyncRunner(
        coordinator, leaseKey, ownerId, cycleBudgetMs, leaseTtlMs, busyRetryCapMs, busyWaitBudgetMs);
      r := Ok(runner);
    }

    /** Other users of the table run between two transactions of this runner. */
    method Interleave(others: seq<Other>)
      requires coordinator.Valid()
      modifies coordinator
      ensures coordinator.Valid() && T.Evolves(old(coordinator.rows), coordinator.rows)
      ensures others == [] ==> coordinator.rows == old(coordinator.rows)
      ensures OnlySignals(others) ==> LeasesKept(old(coordinator.rows), coordinator.rows)
    {
      for i := 0 to |others|
        invariant coordinator.Valid() && T.Evolves(old(coordinator.rows), coordinator.rows)
        invariant i == 0 ==> coordinator.rows == old(coordinator.rows)
        invariant OnlySignals(others) ==> LeasesKept(old(coordinator.rows), coordinator.rows)
      {
        ghost var before := coordinator.rows;
        OtherEvolves(coordinator.rows, others[i]);
        match others[i] {
          case OtherSignal(key, now) => var _ := coordinator.SignalWake(key, now);
          case OtherAcquire(q, now) => var _ := coordinator.Acquire(q, now);
          case OtherRenew(g, ttl, now) => var _ := coordinator.Renew(g, ttl, now);
          case OtherComplete(g, observed, now) => var _ := coordinator.Complete(g, observed, now);
          case OtherRelease(g, now) => var _ := coordinator.ReleaseLease(g, now);
        }
        assert coordinator.rows == ApplyOther(before, others[i]);
        T.EvolvesTransitive(old(coordinator.rows), before, coordinator.rows);
      }
    }

    /** Nobody interferes with the first attempt, and it finds the lease free or expired. */
    predicate Free(row: T.Row, world: World) {
      && world.beforeAcquire(0) == [] && 0 < |world.tokens(0)| <= 512
      && 0 <= world.acquireNow(0) && world.acquireNow(0) + leaseTtlMs <= T.I64_MAX
      && (row.owner.None? || row.expires <= world.acquireNow(0)) && row.fence < T.I64_MAX
    }

    /** Wakes at most arrive during the n-th cycle, and it succeeds before the lease runs out. */
    predicate Undisturbed(t: T.Table, grant: T.Grant, world: World, n: nat) {
      && Held(t, grant) && OnlySignals(world.duringCycle(n)) && world.deadlineNow(n) >= 0 && world.cycleOk(n)
      && 0 <= world.completeNow(n) < t[leaseKey].expires
    }

    predicate Alone(t: T.Table, grant: T.Grant, world: World, n: nat) {
      Undisturbed(t, grant, world, n) && world.duringCycle(n) == [] && grant.wake == t[leaseKey].wake
    }

    predicate Held(t: T.Table, grant: T.Grant) {
      && leaseKey in t && grant.key == leaseKey && T.SqliteGrantReadable(grant)
      && t[leaseKey].owner == Some(grant.token) && t[leaseKey].fence == grant.fence && grant.wake <= t[leaseKey].wake
    }

    /** The n-th cycle and the renewal after it, if there is one, come before `expires`. */
    predicate Prompt(world: World, n: nat, expires: int) {
      0 <= world.completeNow(n) < expires && 0 <= world.renewNow(n) < expires
    }

    predicate InTime(t: T.Table, grant: T.Grant, world: World, n: nat) {
      Held(t, grant) && T.TtlInRange(leaseTtlMs) && Prompt(world, n, t[leaseKey].expires)
    }

    ghost predicate AlwaysSteady(world: World) {
      forall n: nat :: Steady(world, n)
    }

    /** Nothing but wakes arrives during and after the n-th cycle, it succeeds, and the next one is in time. */
    predicate Steady(world: World, n: nat) {
      && OnlySignals(world.duringCycle(n)) && OnlySignals(world.beforeRenew(n))
      && world.deadlineNow(n) >= 0 && world.cycleOk(n)
      && world.renewNow(n) + leaseTtlMs <= T.I64_MAX && Prompt(world, n + 1, world.renewNow(n) + leaseTtlMs)
    }

    /** Retries until the lease is granted or the waiting budget is spent. */
    method AcquireWithin(world: World, own: nat)
      returns (r: Result<T.Grant, RunResult>, ghost attempts: nat, ghost slept: nat, ghost waited: nat)
      requires Configured() && coordinator.Valid()
      requires leaseKey in coordinator.rows && own <= coordinator.rows[leaseKey].wake
      modifies coordinator
      ensures coordinator.Valid() && T.Evolves(old(coordinator.rows), coordinator.rows)
      ensures slept <= busyWaitBudgetMs && attempts <= slept + 1
      ensures r.Ok? ==> r.value.key == leaseKey && own <= r.value.wake == coordinator.rows[leaseKey].wake
      ensures r.Ok? ==> T.Owns(coordinator.rows[leaseKey], r.value)
      ensures r.Err? ==> r.error.CoordinatorError? || (r.error.GaveUpBusy? && waited >= busyWaitBudgetMs)
      ensures r.Err? && r.error.GaveUpBusy? ==>
                && leaseKey in coordinator.rows && coordinator.rows[leaseKey].owner.Some? && r.error.retryAfter > 0
                && r.error.wake == coordinator.rows[leaseKey].wake && r.error.handled == coordinator.rows[leaseKey].handled
      ensures Free(old(coordinator.rows)[leaseKey], world) ==>
                && r.Ok? && attempts == 1 && T.SqliteGrantReadable(r.value)
                && r.value.fence == old(coordinator.rows)[leaseKey].fence + 1
                && coordinator.rows[leaseKey].expires == world.acquireNow(0) + leaseTtlMs
                && coordinator.rows[leaseKey].wake == old(coordinator.rows)[leaseKey].wake
    {
      var elapsed, attempt := 0, 0;
      attempts, slept, waited := 0, 0, 0;
      while true
        invariant coordinator.Valid() && T.Evolves(old(coordinator.rows), coordinator.rows)
        invariant slept <= elapsed && slept <= busyWaitBudgetMs && attempts == attempt <= slept
        invariant attempt == 0 ==> coordinator.rows == old(coordinator.rows)
        invariant Free(old(coordinator.rows)[leaseKey], world) ==> attempt == 0
        decreases busyWaitBudgetMs - slept, 0
      {
        Interleave(world.beforeAcquire(attempt));
        ghost var before := coordinator.rows;
        attempts := attempts + 1;
        var q := T.AcquireRequest(leaseKey, ownerId, world.tokens(attempt), leaseTtlMs);
        T.AcquireEvolves(coordinator.rows, q, world.acquireNow(attempt));
        var acquired := coordinator.Acquire(q, world.acquireNow(attempt));
        assert T.RowEvolves(old(coordinator.rows)[leaseKey], before[leaseKey]);
        T.EvolvesTransitive(old(coordinator.rows), before, coordinator.rows);
        if acquired.Err? {
          return Err(CoordinatorError(acquired.error)), attempts, slept, elapsed;
        }
        if acquired.value.Granted? {
          return Ok(acquired.value.grant), attempts, slept, elapsed;
        }
        elapsed := elapsed + world.lag(attempt);
        if elapsed >= busyWaitBudgetMs {
          var busy := acquired.value;
          return Err(GaveUpBusy(busy.retryAfter, busy.wake, busy.handled)), attempts, slept, elapsed;
        }
        var delay := BusyDelay(busyRetryCapMs, acquired.value.retryAfter, busyWaitBudgetMs, elapsed);
        elapsed := elapsed + delay;
        slept := slept + delay;
        attempt := attempt + 1;
      }
    }

    /** Success means: this call's own wake is handled, nothing newer is waiting, the lease is given
        back, and no more cycles ran than one plus the wakes that arrived meanwhile. It terminates
        whatever the other users do, because the observed generation strictly climbs. Left alone, with a
        lease to be had and a cycle that succeeds in time, it succeeds after one cycle. */
    method WakeAndRun(world: World) returns (r: RunResult)
      requires Configured() && coordinator.Valid()
      modifies coordinator
      ensures coordinator.Valid() && T.Evolves(old(coordinator.rows), coordinator.rows)
      ensures r.Done? ==>
                && r.completed != [] && OneOwnership(r.completed)
                && |r.completed| <= 1 + r.completed[|r.completed| - 1].wake - r.completed[0].wake
                && leaseKey in coordinator.rows
                && var row, last := coordinator.rows[leaseKey], r.completed[|r.completed| - 1];
                   && T.RowOf(old(coordinator.rows), leaseKey).wake + 1 <= r.completed[0].wake
                   && last.wake == last.handled == row.handled == row.wake
                   && row.owner.None? && row.fence == last.fence
      ensures var row := T.RowOf(old(coordinator.rows), leaseKey);
              && world.signalNow >= 0 && row.wake < T.I64_MAX && Free(row, world)
              && world.duringCycle(0) == [] && world.deadlineNow(0) >= 0 && world.cycleOk(0)
              && 0 <= world.completeNow(0) < world.acquireNow(0) + leaseTtlMs ==>
                r == Done([Completed(row.fence + 1, row.wake + 1, row.wake + 1)])
      ensures var row := T.RowOf(old(coordinator.rows), leaseKey);
              && world.signalNow >= 0 && row.wake < T.I64_MAX && Free(row, world)
              && AlwaysSteady(world) && Prompt(world, 0, world.acquireNow(0) + leaseTtlMs) ==>
                r.Done?
    {
      T.SignalWakeEvolves(coordinator.rows, leaseKey, world.signalNow);
      var receipt := coordinator.SignalWake(leaseKey, world.signalNow);
      if receipt.Err? {
        return CoordinatorError(receipt.error);
      }
      ghost var signalled := coordinator.rows;
      var acquisition, _, _, _ := AcquireWithin(world, receipt.value.generation);
      T.EvolvesTransitive(old(coordinator.rows), signalled, coordinator.rows);
      if acquisition.Err? {
        return acquisition.error;
      }
      ghost var granted := coordinator.rows;
      r := RunCycles(world, acquisition.value);
      T.EvolvesTransitive(old(coordinator.rows), granted, coordinator.rows);
      if r.Done? {
        CyclesBound(r.completed);
      }
    }

    /** One callback and its settlement: a failure gives the lease back and counts nothing. */
    method CycleOnce(world: World, grant: T.Grant, n: nat) returns (r: Result<T.Completion, RunResult>)
      requires coordinator.Valid() && grant.key == leaseKey
      modifies coordinator
      ensures coordinator.Valid() && T.Evolves(old(coordinator.rows), coordinator.rows)
      ensures r.Err? ==> r.error.CoordinatorError? || r.error.CycleFailed?
      ensures r.Err? && r.error.CycleFailed? <==> world.deadlineNow(n) >= 0 && !world.cycleOk(n)
      ensures r.Err? && r.error.CycleFailed? ==> r.error.fence == grant.fence && r.error.wake == grant.wake
      ensures Undisturbed(old(coordinator.rows), grant, world, n) ==>
                && r.Ok? && (!r.value.released ==> Held(coordinator.rows, grant))
                && (!r.value.released ==> coordinator.rows[leaseKey].expires == old(coordinator.rows)[leaseKey].expires)
      ensures world.duringCycle(n) == [] && leaseKey in old(coordinator.rows) && leaseKey in coordinator.rows ==>
                coordinator.rows[leaseKey].wake == old(coordinator.rows)[leaseKey].wake
      ensures r.Err? && r.error.CycleFailed? ==>
                r.error.releaseError == if T.GrantReadable(grant) && world.releaseNow(n) >= 0 then None else Some(T.InvalidConfiguration)
      ensures r.Err? && r.error.CoordinatorError? && world.deadlineNow(n) >= 0 ==>
                !(Held(coordinator.rows, grant) && 0 <= world.completeNow(n) < coordinator.rows[leaseKey].expires)
      ensures r.Err? && r.error.CycleFailed? && r.error.releaseError.None? && leaseKey in coordinator.rows ==>
                !T.Owns(coordinator.rows[leaseKey], grant)
      ensures r.Ok? ==>
                && leaseKey in coordinator.rows
                && var row := coordinator.rows[leaseKey];
                   && grant.wake <= row.handled == r.value.handled && row.wake == r.value.wake && (r.value.released <==> grant.wake == row.wake)
                   && (r.value.released ==> grant.wake == row.handled == row.wake && row.owner.None? && row.fence == grant.fence)
                   && (!r.value.released ==> grant.wake < r.value.wake <= T.I64_MAX)
    {
      if world.deadlineNow(n) < 0 {
        return Err(CoordinatorError(T.InvalidConfiguration));
      }
      Interleave(world.duringCycle(n));
      ghost var before := coordinator.rows;
      if !world.cycleOk(n) {
        T.ReleaseEvolves(coordinator.rows, grant, world.releaseNow(n));
        var released := coordinator.ReleaseLease(grant, world.releaseNow(n));
        T.EvolvesTransitive(old(coordinator.rows), before, coordinator.rows);
        return Err(CycleFailed(if released.Err? then Some(released.error) else None, grant.fence, grant.wake));
      }
      T.CompleteEvolves(coordinator.rows, grant, grant.wake, world.completeNow(n));
      var completion := coordinator.Complete(grant, grant.wake, world.completeNow(n));
      T.EvolvesTransitive(old(coordinator.rows), before, coordinator.rows);
      if completion.Err? {
        return Err(CoordinatorError(completion.error));
      }
      r := Ok(completion.value);
    }

    /** The trailing cycle runs under the same fence with the generation the completion reported. */
    method RenewFor(world: World, grant: T.Grant, completion: T.Completion, n: nat) returns (r: Result<T.Grant, RunResult>)
      requires coordinator.Valid()
      modifies coordinator
      ensures coordinator.Valid() && T.Evolves(old(coordinator.rows), coordinator.rows)
      ensures r.Err? ==> r.error.CoordinatorError?
      ensures r.Ok? ==> r.value == grant.(expires := r.value.expires, wake := completion.wake, handled := completion.handled)
      ensures Held(old(coordinator.rows), grant) && OnlySignals(world.beforeRenew(n)) && T.TtlInRange(leaseTtlMs)
              && 0 <= world.renewNow(n) < old(coordinator.rows)[leaseKey].expires && world.renewNow(n) + leaseTtlMs <= T.I64_MAX ==>
                && r.Ok? && leaseKey in coordinator.rows
                && var row := coordinator.rows[leaseKey];
                   row == old(coordinator.rows)[leaseKey].(expires := world.renewNow(n) + leaseTtlMs, wake := row.wake)
    {
      Interleave(world.beforeRenew(n));
      ghost var before := coordinator.rows;
      T.RenewEvolves(coordinator.rows, grant, leaseTtlMs, world.renewNow(n));
      var renewed := coordinator.Renew(grant, leaseTtlMs, world.renewNow(n));
      T.EvolvesTransitive(old(coordinator.rows), before, coordinator.rows);
      if renewed.Err? {
        return Err(CoordinatorError(renewed.error));
      }
      if renewed.value.None? {
        return Err(CoordinatorError(T.StaleFence));
      }
      r := Ok(renewed.value.value.(wake := completion.wake, handled := completion.handled));
    }

    /** One cycle and, if something newer was signalled meanwhile, the renewal for the trailing one. */
    method Turn(world: World, grant: T.Grant, n: nat) returns (r: Result<(Completed, Option<T.Grant>), RunResult>)
      requires coordinator.Valid() && grant.key == leaseKey
      modifies coordinator
      ensures coordinator.Valid() && T.Evolves(old(coordinator.rows), coordinator.rows)
      ensures r.Err? ==> r.error.CoordinatorError? || (r.error.CycleFailed? && r.error.fence == grant.fence && r.error.wake == grant.wake)
      ensures r.Err? && r.error.CycleFailed? <==> world.deadlineNow(n) >= 0 && !world.cycleOk(n)
      ensures r.Err? && r.error.CycleFailed? && r.error.releaseError.None? && leaseKey in coordinator.rows ==>
                !T.Owns(coordinator.rows[leaseKey], grant)
      ensures r.Ok? ==> r.value.0.fence == grant.fence && r.value.0.wake == grant.wake <= r.value.0.handled
      ensures r.Ok? && r.value.1.None? ==>
                && leaseKey in coordinator.rows
                && var row := coordinator.rows[leaseKey];
                   r.value.0.handled == grant.wake == row.handled == row.wake && row.owner.None? && row.fence == grant.fence
      ensures r.Ok? && r.value.1.Some? ==>
                && var next := r.value.1.value;
                   && next.key == leaseKey && next.token == grant.token && next.fence == grant.fence
                   && grant.wake < next.wake <= T.I64_MAX
      ensures Alone(old(coordinator.rows), grant, world, n) ==>
                r == Ok((Completed(grant.fence, grant.wake, grant.wake), None))
      ensures InTime(old(coordinator.rows), grant, world, n) && Steady(world, n) ==>
                r.Ok? && (r.value.1.Some? ==> InTime(coordinator.rows, r.value.1.value, world, n + 1))
    {
      var completion := CycleOnce(world, grant, n);
      if completion.Err? {
        return Err(completion.error);
      }
      var completed := Completed(grant.fence, grant.wake, completion.value.handled);
      if completion.value.released {
        return Ok((completed, None));
      }
      ghost var before := coordinator.rows;
      var renewed := RenewFor(world, grant, completion.value, n);
      T.EvolvesTransitive(old(coordinator.rows), before, coordinator.rows);
      if renewed.Err? {
        return Err(renewed.error);
      }
      r := Ok((completed, Some(renewed.value)));
    }

    /** Cycles under one ownership until nothing newer is waiting. It ends well, however many wakes arrive, if nothing
        but wakes arrives, every cycle succeeds and each comes before the lease runs out. */
    method RunCycles(world: World, acquired: T.Grant) returns (r: RunResult)
      requires coordinator.Valid()
      requires acquired.key == leaseKey && acquired.wake <= T.I64_MAX
      modifies coordinator
      ensures coordinator.Valid() && T.Evolves(old(coordinator.rows), coordinator.rows)
      ensures r.Done? ==>
                && r.completed != [] && OneOwnership(r.completed)
                && r.completed[0].wake == acquired.wake
                && leaseKey in coordinator.rows
                && var row, last := coordinator.rows[leaseKey], r.completed[|r.completed| - 1];
                   && last.wake == last.handled == row.handled == row.wake
                   && row.owner.None? && row.fence == last.fence == acquired.fence
      ensures Alone(old(coordinator.rows), acquired, world, 0) ==>
                r == Done([Completed(acquired.fence, acquired.wake, acquired.wake)])
      ensures InTime(old(coordinator.rows), acquired, world, 0) && AlwaysSteady(world) ==> r.Done?
      ensures r.Done? || r.CoordinatorError? || r.CycleFailed?
      ensures r.CycleFailed? ==> r.fence == acquired.fence
      ensures r.CycleFailed? && r.releaseError.None? && leaseKey in coordinator.rows ==>
                !T.Owns(coordinator.rows[leaseKey], acquired)
    {
      ghost var quiet := Alone(coordinator.rows, acquired, world, 0);
      ghost var steady := InTime(coordinator.rows, acquired, world, 0) && AlwaysSteady(world);
      var grant := acquired;
      var completed: seq<Completed> := [];
      while true
        invariant coordinator.Valid() && T.Evolves(old(coordinator.rows), coordinator.rows)
        invariant grant.key == leaseKey && grant.token == acquired.token && grant.fence == acquired.fence && grant.wake <= T.I64_MAX
        invariant Behind(completed, grant.fence, acquired.wake, grant.wake)
        invariant completed == [] ==> coordinator.rows == old(coordinator.rows) && grant == acquired
        invariant quiet ==> completed == []
        invariant steady ==> InTime(coordinator.rows, grant, world, |completed|)
        decreases T.I64_MAX - grant.wake
      {
        assert steady ==> Steady(world, |completed|);
        ghost var before := coordinator.rows;
        var turn := Turn(world, grant, |completed|);
        T.EvolvesTransitive(old(coordinator.rows), before, coordinator.rows);
        if turn.Err? {
          return turn.error;
        }
        OneMoreCycle(completed, turn.value.0, acquired.wake);
        completed := completed + [turn.value.0];
        if turn.value.1.None? {
          return Done(completed);
        }
        grant := turn.value.1.value;
      }
    }
  }
}
