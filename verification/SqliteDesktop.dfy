/** The SQLite coordinator as an object over its table; a failed transaction leaves the table alone. */
module SqliteDesktop {
  import opened Wrappers
  import T = LeaseTable

  class SqliteDesktopCoordinator {
    var rows: T.Table

    ghost predicate Valid()
      reads this
    {
      T.Valid(rows)
    }

    constructor ()
      ensures Valid() && rows == map[]
    {
      rows := map[];
    }

    method SignalWake(key: string, now: int) returns (r: Result<T.Receipt, T.Error>)
      requires Valid()
      modifies this
      ensures Valid() && (rows, r) == T.SignalWake(old(rows), key, now)
      ensures r.Ok? <==> 0 < |key| <= 512 && now >= 0 && (key in old(rows) ==> old(rows)[key].wake < 0x7fff_ffff_ffff_ffff)
      ensures r == Err(T.GenerationExhausted) <==>
                0 < |key| <= 512 && now >= 0 && key in old(rows) && old(rows)[key].wake == 0x7fff_ffff_ffff_ffff
      ensures r.Ok? && key in old(rows) ==>
                key in rows && rows[key] == old(rows)[key].(wake := old(rows)[key].wake + 1)
      ensures r.Ok? && key !in old(rows) ==> key in rows && rows[key] == T.Row(None, 0, 0, 1, 0)
      ensures r.Ok? ==>
                var row := rows[key];
                && r.value.generation == row.wake && r.value.handled == row.handled && (r.value.dirty <==> row.handled != row.wake)
                && r.value.retryAfter == if row.owner.Some? && row.expires > now then row.expires - now else 0
      ensures forall k :: k in rows && k != key ==> k in old(rows) && rows[k] == old(rows)[k]
      ensures r.Err? ==> rows == old(rows)
    {
      if key == "" || |key| > T.MAX_IDENTIFIER_BYTES {
        return Err(T.InvalidConfiguration);
      }
      if now < 0 {
        return Err(T.InvalidConfiguration);
      }
      var tx := rows;
      if key !in tx {
        tx := tx[key := T.FRESH_ROW];
      }
      if tx[key].wake == T.I64_MAX {
        return Err(T.GenerationExhausted);
      }
      tx := tx[key := tx[key].(wake := tx[key].wake + 1)];
      var row := tx[key];
      r := Ok(T.Receipt(row.wake, row.handled, row.wake != row.handled, T.RetryAfter(row, now)));
      assert tx == old(rows)[key := row];
      rows := tx;
    }

    method Acquire(q: T.AcquireRequest, now: int) returns (r: Result<T.Acquired, T.Error>)
      requires Valid()
      modifies this
      ensures Valid() && (rows, r) == T.Acquire(old(rows), q, now)
      ensures r.Ok? && r.value.Busy? <==>
                && 0 < |q.key| <= 512 && 0 < |q.ownerId| <= 512 && 0 < |q.token| <= 512 && 1_000 <= q.ttl <= 900_000 && now >= 0
                && q.key in old(rows) && old(rows)[q.key].owner.Some? && old(rows)[q.key].expires > now
      ensures r.Ok? && r.value.Granted? <==>
                && 0 < |q.key| <= 512 && 0 < |q.ownerId| <= 512 && 0 < |q.token| <= 512 && 1_000 <= q.ttl <= 900_000
                && now >= 0 && now + q.ttl <= 0x7fff_ffff_ffff_ffff
                && (q.key in old(rows) ==>
                      && (old(rows)[q.key].owner.None? || old(rows)[q.key].expires <= now)
                      && old(rows)[q.key].fence < 0x7fff_ffff_ffff_ffff)
      ensures r == Err(T.GenerationExhausted) <==>
                && 0 < |q.key| <= 512 && 0 < |q.ownerId| <= 512 && 0 < |q.token| <= 512 && 1_000 <= q.ttl <= 900_000 && now >= 0
                && q.key in old(rows) && (old(rows)[q.key].owner.None? || old(rows)[q.key].expires <= now)
                && old(rows)[q.key].fence == 0x7fff_ffff_ffff_ffff
      ensures r.Ok? && r.value.Busy? ==>
                r.value == T.Busy(old(rows)[q.key].expires - now, old(rows)[q.key].wake, old(rows)[q.key].handled)
      ensures r.Ok? && r.value.Granted? ==>
                var row, g := rows[q.key], r.value.grant;
                && row.owner == Some(q.token) && row.expires == now + q.ttl
                && (if q.key in old(rows) then
                      row.fence == old(rows)[q.key].fence + 1 && row.wake == old(rows)[q.key].wake && row.handled == old(rows)[q.key].handled
                    else row.fence == 1 && row.wake == row.handled == 0)
                && g == T.Grant(q.key, q.ownerId, q.token, row.fence, now, row.expires, row.wake, row.handled)
      ensures forall k :: k in rows && k != q.key ==> k in old(rows) && rows[k] == old(rows)[k]
      ensures r.Err? || r.value.Busy? ==> rows == old(rows)
    {
      if !T.Identifier(q.key) || !T.Identifier(q.ownerId) || !T.Identifier(q.token) {
        return Err(T.InvalidConfiguration);
      }
      if !T.TtlInRange(q.ttl) {
        return Err(T.InvalidConfiguration);
      }
      if now < 0 {
        return Err(T.InvalidConfiguration);
      }
      var tx := rows;
      if q.key !in tx {
        tx := tx[q.key := T.FRESH_ROW];
      }
      var current := tx[q.key];
      if current.owner.Some? && current.expires > now {
        assert tx == rows;
        rows := tx;
        return Ok(T.Busy(current.expires - now, current.wake, current.handled));
      }
      if current.fence == T.I64_MAX {
        return Err(T.GenerationExhausted);
      }
      if now + q.ttl > T.I64_MAX {
        return Err(T.InvalidConfiguration);
      }
      tx := tx[q.key := current.(owner := Some(q.token), fence := current.fence + 1, expires := now + q.ttl)];
      var granted := tx[q.key];
      assert tx == old(rows)[q.key := granted];
      rows := tx;
      r := Ok(T.Granted(T.Grant(q.key, q.ownerId, q.token, granted.fence, now, granted.expires, granted.wake, granted.handled)));
    }

    method Renew(g: T.Grant, ttl: nat, now: int) returns (r: Result<Option<T.Grant>, T.Error>)
      requires Valid()
      modifies this
      ensures Valid() && (rows, r) == T.Renew(old(rows), g, ttl, now)
      ensures r.Ok? && r.value.Some? <==>
                && 0 < |g.key| <= 512 && 0 < |g.token| <= 512 && 0 < |g.ownerId| <= 512
                && g.fence <= 0x7fff_ffff_ffff_ffff && g.wake <= 0x7fff_ffff_ffff_ffff && g.handled <= 0x7fff_ffff_ffff_ffff
                && 1_000 <= ttl <= 900_000 && now + ttl <= 0x7fff_ffff_ffff_ffff
                && g.key in old(rows) && old(rows)[g.key].owner == Some(g.token) && old(rows)[g.key].fence == g.fence
                && 0 <= now < old(rows)[g.key].expires
      ensures r.Ok? && r.value.Some? ==>
                && g.key in rows && rows[g.key] == old(rows)[g.key].(expires := now + ttl)
                && r.value.value == g.(expires := now + ttl, wake := rows[g.key].wake, handled := rows[g.key].handled)
      ensures forall k :: k in rows && k != g.key ==> k in old(rows) && rows[k] == old(rows)[k]
      ensures r.Err? || r.value.None? ==> rows == old(rows)
    {
      if !T.SqliteGrantReadable(g) || !T.TtlInRange(ttl) {
        return Err(T.InvalidConfiguration);
      }
      if now < 0 || now + ttl > T.I64_MAX {
        return Err(T.InvalidConfiguration);
      }
      if g.key in rows && rows[g.key].owner == Some(g.token) && rows[g.key].fence == g.fence && rows[g.key].expires > now {
        rows := rows[g.key := rows[g.key].(expires := now + ttl)];
      } else {
        return Ok(None);
      }
      var row := rows[g.key];
      r := Ok(Some(T.Grant(g.key, g.ownerId, g.token, g.fence, g.acquiredAt, row.expires, row.wake, row.handled)));
    }

    /** Only an owner moves `handled`, never past what it observed, and it lets go only when
        nothing newer has been signalled. */
    method Complete(g: T.Grant, observed: nat, now: int) returns (r: Result<T.Completion, T.Error>)
      requires Valid()
      modifies this
      ensures Valid() && (rows, r) == T.Complete(old(rows), g, observed, now)
      ensures r.Ok? <==>
                && 0 < |g.key| <= 512 && 0 < |g.token| <= 512 && 0 < |g.ownerId| <= 512
                && g.fence <= 0x7fff_ffff_ffff_ffff && g.wake <= 0x7fff_ffff_ffff_ffff && g.handled <= 0x7fff_ffff_ffff_ffff
                && g.key in old(rows) && observed <= old(rows)[g.key].wake
                && old(rows)[g.key].owner == Some(g.token) && old(rows)[g.key].fence == g.fence
                && 0 <= now < old(rows)[g.key].expires
      ensures r == Err(T.StaleFence) <==>
                && 0 < |g.key| <= 512 && 0 < |g.token| <= 512 && 0 < |g.ownerId| <= 512
                && g.fence <= 0x7fff_ffff_ffff_ffff && g.wake <= 0x7fff_ffff_ffff_ffff && g.handled <= 0x7fff_ffff_ffff_ffff
                && observed <= 0x7fff_ffff_ffff_ffff && now >= 0 && g.key in old(rows)
                && (old(rows)[g.key].owner != Some(g.token) || old(rows)[g.key].fence != g.fence || old(rows)[g.key].expires <= now)
      ensures r.Ok? ==>
                var row, next := old(rows)[g.key], rows[g.key];
                && next.wake == row.wake && next.fence == row.fence
                && next.handled == (if observed > row.handled then observed else row.handled)
                && (if observed == row.wake then next.owner.None? && next.expires == 0
                    else next.owner == row.owner && next.expires == row.expires)
                && (r.value.released <==> observed == row.wake)
      ensures forall k :: k in rows && k != g.key ==> k in old(rows) && rows[k] == old(rows)[k]
      ensures r.Err? ==> rows == old(rows)
      ensures r.Ok? ==> g.key in rows && observed <= rows[g.key].handled == r.value.handled <= rows[g.key].wake == r.value.wake
      ensures r.Ok? ==> (r.value.released <==> rows[g.key].owner.None?)
      ensures r.Ok? && r.value.released ==> rows[g.key].handled == rows[g.key].wake
      ensures r.Ok? && !r.value.released ==> observed < r.value.wake && T.Owns(rows[g.key], g)
    {
      if !T.SqliteGrantReadable(g) || observed > T.I64_MAX || now < 0 {
        return Err(T.InvalidConfiguration);
      }
      var owned := T.OwnedUnexpired(rows, g, now);
      if owned.Err? {
        return Err(owned.error);
      }
      var row := owned.value;
      if observed > row.wake {
        return Err(T.InvalidConfiguration);
      }
      var nextHandled := if observed > row.handled then observed else row.handled;
      var released := observed == row.wake;
      rows := rows[g.key := row.(handled := nextHandled,
                                 owner := if released then None else row.owner,
                                 expires := if released then 0 else row.expires)];
      r := Ok(T.Completion(released, row.wake, nextHandled));
    }

    method ReleaseLease(g: T.Grant, now: int) returns (r: Result<(), T.Error>)
      requires Valid()
      modifies this
      ensures Valid() && (rows, r) == T.Release(old(rows), g, now)
      ensures r.Ok? <==> 0 < |g.key| <= 512 && 0 < |g.token| <= 512 && g.fence <= 0x7fff_ffff_ffff_ffff && now >= 0
      ensures r.Ok? && g.key in old(rows) && old(rows)[g.key].owner == Some(g.token) && old(rows)[g.key].fence == g.fence ==>
                rows == old(rows)[g.key := old(rows)[g.key].(owner := None, expires := 0)]
      ensures r.Err? || g.key !in old(rows) || old(rows)[g.key].owner != Some(g.token) || old(rows)[g.key].fence != g.fence ==>
                rows == old(rows)
    {
      if !T.GrantReadable(g) || now < 0 {
        return Err(T.InvalidConfiguration);
      }
      if g.key in rows && rows[g.key].owner == Some(g.token) && rows[g.key].fence == g.fence {
        rows := rows[g.key := rows[g.key].(owner := None, expires := 0)];
      }
      r := Ok(());
    }

    /** The callback touches application data only; its result is an input here. */
    method WithFencedWrite(g: T.Grant, before: int, writeOk: bool, after: int) returns (r: Result<(), T.Error>)
      requires Valid()
      ensures r == T.FencedWrite(rows, g, true, before, writeOk, after)
      ensures r.Ok? <==>
                && 0 < |g.key| <= 512 && 0 < |g.token| <= 512 && g.fence <= 0x7fff_ffff_ffff_ffff && writeOk
                && g.key in rows && rows[g.key].owner == Some(g.token) && rows[g.key].fence == g.fence
                && 0 <= before < rows[g.key].expires && 0 <= after < rows[g.key].expires
    {
      if !T.GrantReadable(g) || before < 0 {
        return Err(T.InvalidConfiguration);
      }
      var first := T.OwnedUnexpired(rows, g, before);
      if first.Err? {
        return Err(first.error);
      }
      if !writeOk {
        return Err(T.WriteFailed);
      }
      if after < 0 {
        return Err(T.InvalidConfiguration);
      }
      var second := T.OwnedUnexpired(rows, g, after);
      if second.Err? {
        return Err(second.error);
      }
      r := Ok(());
    }
  }
}
