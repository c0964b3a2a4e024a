/** The shared coordination table: each operation is one immediate transaction over it. */
module LeaseTable {
  import opened Wrappers

  const I64_MAX: nat := 0x7fff_ffff_ffff_ffff
  const MIN_TTL_MS: nat := 1_000
  const MAX_TTL_MS: nat := 900_000
  const MAX_IDENTIFIER_BYTES: nat := 512

  datatype Row = Row(owner: Option<string>, fence: nat, expires: nat, wake: nat, handled: nat)

  const FRESH_ROW := Row(None, 0, 0, 0, 0)

  type Table = map<string, Row>

  /** The CHECK constraints of the schema, and SQLite's integer range. */
  predicate RowValid(r: Row) {
    r.handled <= r.wake <= I64_MAX && r.fence <= I64_MAX && r.expires <= I64_MAX
  }

  predicate Valid(t: Table) {
    forall k :: k in t ==> RowValid(t[k])
  }

  datatype Error = InvalidConfiguration | GenerationExhausted | StaleFence | MissingRow | WriteFailed

  datatype AcquireRequest = AcquireRequest(key: string, ownerId: string, token: string, ttl: nat)

  datatype Grant = Grant(
    key: string, ownerId: string, token: string, fence: nat,
    acquiredAt: nat, expires: nat, wake: nat, handled: nat)

  datatype Receipt = Receipt(generation: nat, handled: nat, dirty: bool, retryAfter: nat)

  datatype Acquired =
    | Busy(retryAfter: nat, wake: nat, handled: nat)
    | Granted(grant: Grant)

  datatype Completion = Completion(released: bool, wake: nat, handled: nat)

  predicate Identifier(s: string) {
    0 < |s| <= MAX_IDENTIFIER_BYTES
  }

  predicate TtlInRange(ttl: nat) {
    MIN_TTL_MS <= ttl <= MAX_TTL_MS
  }

  predicate GrantReadable(g: Grant) {
    Identifier(g.key) && Identifier(g.token) && g.fence <= I64_MAX
  }

  predicate SqliteGrantReadable(g: Grant) {
    GrantReadable(g) && Identifier(g.ownerId) && g.wake <= I64_MAX && g.handled <= I64_MAX
  }

  /** The row an operation works on after its insert-if-absent. */
  function RowOf(t: Table, key: string): Row {
    if key in t then t[key] else FRESH_ROW
  }

  predicate Owns(r: Row, g: Grant) {
    r.owner == Some(g.token) && r.fence == g.fence
  }

  function RetryAfter(r: Row, now: nat): nat {
    if r.owner.None? || r.expires <= now then 0 else r.expires - now
  }

  // ----- each transaction: the table afterwards, and the answer -----

  function SignalWake(t: Table, key: string, now: int): (Table, Result<Receipt, Error>) {
    if !Identifier(key) || now < 0 then (t, Err(InvalidConfiguration))
    else
      var row := RowOf(t, key);
      if row.wake == I64_MAX then (t, Err(GenerationExhausted))
      else
        var next := row.(wake := row.wake + 1);
        (t[key := next], Ok(Receipt(next.wake, next.handled, next.wake != next.handled, RetryAfter(next, now))))
  }

  function Acquire(t: Table, q: AcquireRequest, now: int): (Table, Result<Acquired, Error>) {
    if !Identifier(q.key) || !Identifier(q.ownerId) || !Identifier(q.token) || !TtlInRange(q.ttl) || now < 0 then
      (t, Err(InvalidConfiguration))
    else
      var row := RowOf(t, q.key);
      if row.owner.Some? && row.expires > now then (t, Ok(Busy(row.expires - now, row.wake, row.handled)))
      else if row.fence == I64_MAX then (t, Err(GenerationExhausted))
      else if now + q.ttl > I64_MAX then (t, Err(InvalidConfiguration))
      else
        var next := Row(Some(q.token), row.fence + 1, now + q.ttl, row.wake, row.handled);
        (t[q.key := next],
         Ok(Granted(Grant(q.key, q.ownerId, q.token, next.fence, now, next.expires, next.wake, next.handled))))
  }

  function Renew(t: Table, g: Grant, ttl: nat, now: int): (Table, Result<Option<Grant>, Error>) {
    if !SqliteGrantReadable(g) || !TtlInRange(ttl) || now < 0 || now + ttl > I64_MAX then (t, Err(InvalidConfiguration))
    else if g.key !in t || !Owns(t[g.key], g) || t[g.key].expires <= now then (t, Ok(None))
    else
      var next := t[g.key].(expires := now + ttl);
      (t[g.key := next], Ok(Some(g.(expires := next.expires, wake := next.wake, handled := next.handled))))
  }

  /** The row, if the grant still owns it and has not expired. */
  function OwnedUnexpired(t: Table, g: Grant, now: int): Result<Row, Error> {
    if g.key !in t then Err(MissingRow)
    else if !Owns(t[g.key], g) || t[g.key].expires <= now then Err(StaleFence)
    else Ok(t[g.key])
  }

  function Complete(t: Table, g: Grant, observed: nat, now: int): (Table, Result<Completion, Error>) {
    if !SqliteGrantReadable(g) || observed > I64_MAX || now < 0 then (t, Err(InvalidConfiguration))
    else
      match OwnedUnexpired(t, g, now)
      case Err(e) => (t, Err(e))
      case Ok(row) =>
        if observed > row.wake then (t, Err(InvalidConfiguration))
        else
          var handled := if observed > row.handled then observed else row.handled;
          var released := observed == row.wake;
          var next := if released then row.(handled := handled, owner := None, expires := 0) else row.(handled := handled);
          (t[g.key := next], Ok(Completion(released, row.wake, handled)))
  }

  function Release(t: Table, g: Grant, now: int): (Table, Result<(), Error>) {
    if !GrantReadable(g) || now < 0 then (t, Err(InvalidConfiguration))
    else if g.key !in t || !Owns(t[g.key], g) then (t, Ok(()))
    else (t[g.key := t[g.key].(owner := None, expires := 0)], Ok(()))
  }

  /** `checked` is whether the process refuses a negative clock reading here. The application write commits only between two ownership checks of the same transaction. */
  function FencedWrite(t: Table, g: Grant, checked: bool, before: int, writeOk: bool, after: int): Result<(), Error> {
    if !GrantReadable(g) || (checked && before < 0) then Err(InvalidConfiguration)
    else
      match OwnedUnexpired(t, g, before)
      case Err(e) => Err(e)
      case Ok(_) =>
        if !writeOk then Err(WriteFailed)
        else if checked && after < 0 then Err(InvalidConfiguration)
        else
          match OwnedUnexpired(t, g, after)
          case Err(e) => Err(e)
          case Ok(_) => Ok(())
  }

  // ----- what every transaction keeps, whatever the clock reads -----

  predicate RowEvolves(r: Row, n: Row) {
    && r.fence <= n.fence && r.wake <= n.wake && r.handled <= n.handled
    && (n.fence == r.fence ==> n.owner == r.owner || n.owner.None?)
  }

  /** Counters only climb, and a fence never gains an owner it did not start with. */
  predicate Evolves(t: Table, n: Table) {
    forall k :: k in t ==> k in n && RowEvolves(t[k], n[k])
  }

  lemma EvolvesTransitive(a: Table, b: Table, c: Table)
    requires Evolves(a, b) && Evolves(b, c)
    ensures Evolves(a, c)
  {
    forall k | k in a
      ensures k in c && RowEvolves(a[k], c[k])
    {
      assert RowEvolves(a[k], b[k]) && RowEvolves(b[k], c[k]);
    }
  }

  /** The grant can never be used again: it was released, or a later fence was issued. */
  predicate Dead(t: Table, g: Grant) {
    g.key in t && (g.fence < t[g.key].fence || (g.fence == t[g.key].fence && t[g.key].owner.None?))
  }

  lemma DeadStaysDead(t: Table, n: Table, g: Grant)
    requires Dead(t, g) && Evolves(t, n)
    ensures Dead(n, g)
  {
    assert RowEvolves(t[g.key], n[g.key]);
  }

  /** No clock reading, forward or backward, gives a dead grant any power. */
  lemma DeadIsPowerless(t: Table, g: Grant, ttl: nat, observed: nat, now: int, checked: bool, writeOk: bool, after: int)
    requires Dead(t, g)
    ensures Renew(t, g, ttl, now).0 == t && (Renew(t, g, ttl, now).1.Ok? ==> Renew(t, g, ttl, now).1 == Ok(None))
    ensures Complete(t, g, observed, now).0 == t && Complete(t, g, observed, now).1.Err?
    ensures Release(t, g, now).0 == t
    ensures FencedWrite(t, g, checked, now, writeOk, after).Err?
  {}

  lemma PutEvolves(t: Table, key: string, n: Row)
    requires Valid(t) && RowValid(n) && RowEvolves(RowOf(t, key), n)
    ensures Valid(t[key := n]) && Evolves(t, t[key := n])
  {}

  lemma SignalWakeEvolves(t: Table, key: string, now: int)
    requires Valid(t)
    ensures var n := SignalWake(t, key, now).0; Valid(n) && Evolves(t, n)
  {
    var row := RowOf(t, key);
    if row.wake < I64_MAX {
      PutEvolves(t, key, row.(wake := row.wake + 1));
    }
  }

  lemma AcquireEvolves(t: Table, q: AcquireRequest, now: int)
    requires Valid(t)
    ensures var n := Acquire(t, q, now).0; Valid(n) && Evolves(t, n)
  {
    var row := RowOf(t, q.key);
    if row.fence < I64_MAX && 0 <= now + q.ttl <= I64_MAX {
      PutEvolves(t, q.key, Row(Some(q.token), row.fence + 1, now + q.ttl, row.wake, row.handled));
    }
  }

  lemma RenewEvolves(t: Table, g: Grant, ttl: nat, now: int)
    requires Valid(t)
    ensures var n := Renew(t, g, ttl, now).0; Valid(n) && Evolves(t, n)
  {
    if g.key in t && 0 <= now + ttl <= I64_MAX {
      PutEvolves(t, g.key, t[g.key].(expires := now + ttl));
    }
  }

  lemma CompleteEvolves(t: Table, g: Grant, observed: nat, now: int)
    requires Valid(t)
    ensures var n := Complete(t, g, observed, now).0; Valid(n) && Evolves(t, n)
  {
    if g.key in t && t[g.key].handled <= observed <= t[g.key].wake {
      PutEvolves(t, g.key, t[g.key].(handled := observed));
      PutEvolves(t, g.key, t[g.key].(handled := observed, owner := None, expires := 0));
    } else if g.key in t {
      PutEvolves(t, g.key, t[g.key]);
      PutEvolves(t, g.key, t[g.key].(owner := None, expires := 0));
    }
  }

  lemma ReleaseEvolves(t: Table, g: Grant, now: int)
    requires Valid(t)
    ensures var n := Release(t, g, now).0; Valid(n) && Evolves(t, n)
  {
    if g.key in t {
      PutEvolves(t, g.key, t[g.key].(owner := None, expires := 0));
    }
  }
}
