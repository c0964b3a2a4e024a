/** The in-memory and the SQLite lease stores behind one interface, and the register both refine. */
module LeaseStores {
  import opened Wrappers
  import T = LeaseTable
  import opened SqliteDesktop

  const U128_MAX: nat := 0xffff_ffff_ffff_ffff_ffff_ffff_ffff_ffff

  datatype LeaseRequest = LeaseRequest(key: string, ownerId: string, token: string, now: nat, expires: nat)

  datatype LeaseGrant = LeaseGrant(key: string, ownerId: string, token: string, fence: nat, expires: nat)

  // ----- the register: one fence counter and at most one holder per key -----

  datatype Register = Register(fence: nat, holder: Option<(string, nat)>)

  const EMPTY := Register(0, None)

  type Registers = map<string, Register>

  function At(regs: Registers, key: string): Register {
    if key in regs then regs[key] else EMPTY
  }

  function RegisterAcquire(r: Register, q: LeaseRequest): (Register, Option<LeaseGrant>) {
    if r.holder.Some? && r.holder.value.1 > q.now then (r, None)
    else (Register(r.fence + 1, Some((q.token, q.expires))), Some(LeaseGrant(q.key, q.ownerId, q.token, r.fence + 1, q.expires)))
  }

  function RegisterRelease(r: Register, g: LeaseGrant): Register {
    if r.holder.Some? && r.holder.value.0 == g.token && r.fence == g.fence then r.(holder := None) else r
  }

  // ----- the in-memory store -----

  class InMemoryDesktopLeaseStore {
    var leases: map<string, LeaseGrant>
    var fences: map<string, nat>

    /** A held lease carries the latest fence of its key. */
    ghost predicate Valid()
      reads this
    {
      forall k :: k in leases ==> k in fences && leases[k].fence == fences[k]
    }

    ghost function View(key: string): Register
      reads this
    {
      Register(if key in fences then fences[key] else 0,
               if key in leases then Some((leases[key].token, leases[key].expires)) else None)
    }

    constructor ()
      ensures Valid() && forall k :: View(k) == EMPTY
    {
      leases, fences := map[], map[];
    }

    method TryAcquire(q: LeaseRequest) returns (r: Option<LeaseGrant>)
      requires Valid()
      modifies this
      ensures Valid()
      ensures old(View(q.key)).fence < U128_MAX ==> (View(q.key), r) == RegisterAcquire(old(View(q.key)), q)
      ensures r.None? <==> q.key in old(leases) && old(leases)[q.key].expires > q.now
      ensures r.None? ==> leases == old(leases) && fences == old(fences)
      ensures r.Some? ==>
                && q.key in leases && q.key in fences && leases[q.key] == r.value
                && r.value == LeaseGrant(q.key, q.ownerId, q.token, fences[q.key], q.expires)
                && fences[q.key] == var last := if q.key in old(fences) then old(fences)[q.key] else 0;
                                    if last == 0xffff_ffff_ffff_ffff_ffff_ffff_ffff_ffff then last else last + 1
      ensures forall k :: k != q.key ==> View(k) == old(View(k))
    {
      if q.key in leases && leases[q.key].expires > q.now {
        return None;
      }
      var last := if q.key in fences then fences[q.key] else 0;
      var fence := if last == U128_MAX then last else last + 1;
      fences := fences[q.key := fence];
      var grant := LeaseGrant(q.key, q.ownerId, q.token, fence, q.expires);
      leases := leases[q.key := grant];
      r := Some(grant);
    }

    method Release(g: LeaseGrant)
      requires Valid()
      modifies this
      ensures Valid()
      ensures View(g.key) == RegisterRelease(old(View(g.key)), g)
      ensures fences == old(fences)
      ensures leases == if g.key in old(leases) && old(leases)[g.key].token == g.token && old(leases)[g.key].fence == g.fence
                        then old(leases) - {g.key} else old(leases)
      ensures forall k :: k != g.key ==> View(k) == old(View(k))
    {
      if g.key in leases && leases[g.key].token == g.token && leases[g.key].fence == g.fence {
        leases := leases - {g.key};
      }
    }
  }

  // ----- the SQLite store behind the same interface -----

  function RowView(r: T.Row): Register {
    Register(r.fence, if r.owner.Some? then Some((r.owner.value, r.expires)) else None)
  }

  /** Requests that both stores answer: bounded identifiers, a lifetime in range, room for the expiry. */
  predicate Acceptable(q: LeaseRequest) {
    && T.Identifier(q.key) && T.Identifier(q.ownerId) && T.Identifier(q.token)
    && q.now <= q.expires <= T.I64_MAX && T.TtlInRange(q.expires - q.now)
  }

  predicate Readable(g: LeaseGrant) {
    T.Identifier(g.key) && T.Identifier(g.token) && g.fence <= T.I64_MAX
  }

  function AsSqlite(g: LeaseGrant): T.Grant {
    T.Grant(g.key, g.ownerId, g.token, g.fence, 0, g.expires, 0, 0)
  }

  /** The adapter: the lifetime is recomputed from the request and applied to the store's own clock. */
  method SqliteTryAcquire(store: SqliteDesktopCoordinator, q: LeaseRequest, storeNow: int)
    returns (r: Result<Option<LeaseGrant>, T.Error>)
    requires store.Valid()
    modifies store
    ensures store.Valid()
    ensures forall k :: k != q.key ==> T.RowOf(store.rows, k) == old(T.RowOf(store.rows, k))
    ensures storeNow == q.now && Acceptable(q) && old(T.RowOf(store.rows, q.key)).fence < T.I64_MAX ==>
              && r.Ok?
              && (RowView(T.RowOf(store.rows, q.key)), r.value) == RegisterAcquire(old(RowView(T.RowOf(store.rows, q.key))), q)
    ensures !Acceptable(q) && storeNow == q.now ==> r.Err? || r.value.None?
    ensures r.Ok? && r.value.Some? <==>
              && q.now <= q.expires && 0 < |q.key| <= 512 && 0 < |q.ownerId| <= 512 && 0 < |q.token| <= 512
              && 1_000 <= q.expires - q.now <= 900_000 && 0 <= storeNow && storeNow + (q.expires - q.now) <= 0x7fff_ffff_ffff_ffff
              && (q.key in old(store.rows) ==>
                    && (old(store.rows)[q.key].owner.None? || old(store.rows)[q.key].expires <= storeNow)
                    && old(store.rows)[q.key].fence < 0x7fff_ffff_ffff_ffff)
    ensures r.Ok? && r.value.Some? ==>
              && q.key in store.rows && store.rows[q.key].owner == Some(q.token)
              && r.value.value == LeaseGrant(q.key, q.ownerId, q.token, store.rows[q.key].fence, storeNow + (q.expires - q.now))
    ensures r.Err? ==> store.rows == old(store.rows)
  {
    if q.expires < q.now {
      return Err(T.InvalidConfiguration);
    }
    T.AcquireEvolves(store.rows, T.AcquireRequest(q.key, q.ownerId, q.token, q.expires - q.now), storeNow);
    var acquired := store.Acquire(T.AcquireRequest(q.key, q.ownerId, q.token, q.expires - q.now), storeNow);
    match acquired {
      case Err(e) => r := Err(e);
      case Ok(Busy(_, _, _)) => r := Ok(None);
      case Ok(Granted(g)) => r := Ok(Some(LeaseGrant(g.key, g.ownerId, g.token, g.fence, g.expires)));
    }
  }

  method SqliteRelease(store: SqliteDesktopCoordinator, g: LeaseGrant, storeNow: int) returns (r: Result<(), T.Error>)
    requires store.Valid()
    modifies store
    ensures store.Valid()
    ensures forall k :: k != g.key ==> T.RowOf(store.rows, k) == old(T.RowOf(store.rows, k))
    ensures storeNow >= 0 && Readable(g) ==>
              r.Ok? && RowView(T.RowOf(store.rows, g.key)) == RegisterRelease(old(RowView(T.RowOf(store.rows, g.key))), g)
    ensures r.Err? ==> store.rows == old(store.rows)
  {
    T.ReleaseEvolves(store.rows, AsSqlite(g), storeNow);
    r := store.ReleaseLease(AsSqlite(g), storeNow);
  }

  // ----- the same calls, the same answers -----

  datatype Call =
    | Acquire(q: LeaseRequest)
    | Release(g: LeaseGrant, storeNow: nat)

  predicate Answerable(call: Call) {
    match call
    case Acquire(q) => Acceptable(q)
    case Release(g, _) => Readable(g)
  }

  function Key(call: Call): string {
    match call
    case Acquire(q) => q.key
    case Release(g, _) => g.key
  }

  /** The register of the call's key afterwards, and its answer: a grant or a refusal for an
      acquire, nothing for a release. */
  function Answer(r: Register, call: Call): (Register, Option<LeaseGrant>) {
    match call
    case Acquire(q) => RegisterAcquire(r, q)
    case Release(g, _) => (RegisterRelease(r, g), None)
  }

  function Answers(regs: Registers, calls: seq<Call>): seq<Option<LeaseGrant>>
    decreases |calls|
  {
    if calls == [] then []
    else
      var (r, a) := Answer(At(regs, Key(calls[0])), calls[0]);
      [a] + Answers(regs[Key(calls[0]) := r], calls[1..])
  }

  /** Both stores hold what the registers say. */
  ghost predicate Agree(regs: Registers, mem: InMemoryDesktopLeaseStore, sql: SqliteDesktopCoordinator)
    reads mem, sql
  {
    mem.Valid() && sql.Valid() && forall k :: At(regs, k) == mem.View(k) == RowView(T.RowOf(sql.rows, k))
  }

  method CallBoth(mem: InMemoryDesktopLeaseStore, sql: SqliteDesktopCoordinator, call: Call, ghost regs: Registers)
    returns (m: Option<LeaseGrant>, s: Option<LeaseGrant>)
    requires Agree(regs, mem, sql) && Answerable(call) && At(regs, Key(call)).fence < T.I64_MAX
    modifies mem, sql
    ensures m == s == Answer(At(regs, Key(call)), call).1
    ensures Agree(regs[Key(call) := Answer(At(regs, Key(call)), call).0], mem, sql)
  {
    assert At(regs, Key(call)) == mem.View(Key(call));
    match call {
      case Acquire(q) =>
        m := mem.TryAcquire(q);
        var r := SqliteTryAcquire(sql, q, q.now);
        s := r.value;
      case Release(g, storeNow) =>
        mem.Release(g);
        var _ := SqliteRelease(sql, g, storeNow);
        m, s := None, None;
    }
  }

  predicate FencesBelow(regs: Registers, limit: nat) {
    forall k :: k in regs ==> regs[k].fence <= limit
  }

  lemma AnswersUnfold(regs: Registers, calls: seq<Call>, i: nat)
    requires i < |calls| && FencesBelow(regs, i)
    ensures var (r, a) := Answer(At(regs, Key(calls[i])), calls[i]);
            && Answers(regs, calls[i..]) == [a] + Answers(regs[Key(calls[i]) := r], calls[i + 1..])
            && FencesBelow(regs[Key(calls[i]) := r], i + 1)
  {
    assert calls[i..][0] == calls[i] && calls[i..][1..] == calls[i + 1..];
  }

  /** Run side by side on empty stores with equal clocks, both stores give the register's answers. */
  method SideBySide(calls: seq<Call>) returns (memory: seq<Option<LeaseGrant>>, sqlite: seq<Option<LeaseGrant>>)
    requires |calls| <= T.I64_MAX
    requires forall i :: 0 <= i < |calls| ==> Answerable(calls[i])
    ensures memory == sqlite == Answers(map[], calls)
  {
    var mem := new InMemoryDesktopLeaseStore();
    var sql := new SqliteDesktopCoordinator();
    memory, sqlite := [], [];
    ghost var regs: Registers := map[];
    for i := 0 to |calls|
      invariant Agree(regs, mem, sql) && fresh(mem) && fresh(sql)
      invariant FencesBelow(regs, i)
      invariant memory == sqlite && memory + Answers(regs, calls[i..]) == Answers(map[], calls)
    {
      var call := calls[i];
      var m, s := CallBoth(mem, sql, call, regs);
      memory, sqlite := memory + [m], sqlite + [s];
      AnswersUnfold(regs, calls, i);
      regs := regs[Key(call) := Answer(At(regs, Key(call)), call).0];
    }
  }
}
