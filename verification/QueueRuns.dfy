/** Runs of the queue: what calls keep, from the empty queue and from a restored one. */
module QueueRuns {
  import opened Wrappers
  import opened PushQueue

  datatype Call =
    | CallEnqueue(intent: Intent)
    | CallAcknowledge(request: PushRequest, response: PushResponse)
    | CallRestoreOwn

  function Apply(c: Config, q: Queue, call: Call): Queue {
    match call
    case CallEnqueue(intent) => (match Enqueue(c, q, intent) case Ok((n, _)) => n case Err(_) => q)
    case CallAcknowledge(request, response) => (match Acknowledge(c, q, request, response) case Ok((n, _)) => n case Err(_) => q)
    case CallRestoreOwn =>
      match Export(c, q)
      case Err(_) => q
      case Ok(s) => match Restore(c, s) case Ok(n) => n case Err(_) => q
  }

  function Run(c: Config, q: Queue, calls: seq<Call>): Queue {
    if calls == [] then q else Apply(c, Run(c, q, calls[..|calls| - 1]), calls[|calls| - 1])
  }

  lemma RunPush(c: Config, q: Queue, calls: seq<Call>, call: Call)
    ensures Run(c, q, calls + [call]) == Apply(c, Run(c, q, calls), call)
  {
    assert (calls + [call])[..|calls|] == calls;
  }

  lemma ShapeKept(c: Config, q: Queue, call: Call)
    requires Shape(c, q)
    ensures Shape(c, Apply(c, q, call))
  {
    match call
    case CallEnqueue(intent) => if Enqueue(c, q, intent).Ok? { EnqueueKeeps(c, q, intent); }
    case CallAcknowledge(request, response) =>
      if Acknowledge(c, q, request, response).Ok? { AcknowledgeKeeps(c, q, request, response); }
    case CallRestoreOwn => if c.clientId.Some? { RestoreOfExport(c, q); }
  }

  /** Over every run from a queue of the shape - the empty one, say - the ids are 1 to n, pending rows
      form a suffix, and a batch can always be built. */
  lemma {:induction false} ShapeAlways(c: Config, q: Queue, calls: seq<Call>, limit: nat)
    requires Shape(c, q) && 1 <= limit <= MAX_PROTOCOL_BATCH
    ensures Shape(c, Run(c, q, calls))
    ensures c.clientId.Some? ==> BuildRequest(c, Run(c, q, calls), limit).Ok?
  {
    if calls != [] {
      ShapeAlways(c, q, calls[..|calls| - 1], limit);
      ShapeKept(c, Run(c, q, calls[..|calls| - 1]), calls[|calls| - 1]);
    }
    if c.clientId.Some? {
      BuildSucceeds(c, Run(c, q, calls), limit);
    }
  }

  // ----- acknowledgement without the shape -----

  lemma {:induction false} PendingMembers(rows: seq<Row>, row: Row)
    ensures row in PendingRows(rows) <==> row in rows && row.status.Pending?
  {
    if rows != [] {
      var init, last := rows[..|rows| - 1], rows[|rows| - 1];
      PendingMembers(init, row);
      assert rows == init + [last];
    }
  }

  predicate Climbing(batch: seq<Row>) {
    forall i, j :: 0 <= i < j < |batch| ==> batch[i].id < batch[j].id
  }

  lemma {:induction false} PendingClimbs(rows: seq<Row>)
    requires NumberedRows(rows)
    ensures Climbing(PendingRows(rows))
    ensures forall i :: 0 <= i < |PendingRows(rows)| ==> PendingRows(rows)[i].id <= |rows|
  {
    if rows != [] {
      PendingClimbs(rows[..|rows| - 1]);
    }
  }

  /** The rows whose ids are not settled. */
  function Without(batch: seq<Row>, statuses: map<nat, Status>): seq<Row> {
    if batch == [] then []
    else Without(batch[..|batch| - 1], statuses) + if batch[|batch| - 1].id in statuses then [] else [batch[|batch| - 1]]
  }

  lemma WithoutPush(batch: seq<Row>, row: Row, statuses: map<nat, Status>)
    ensures Without(batch + [row], statuses) == Without(batch, statuses) + if row.id in statuses then [] else [row]
  {
    assert (batch + [row])[..|batch|] == batch;
  }

  predicate Final(statuses: map<nat, Status>) {
    forall id :: id in statuses ==> !statuses[id].Pending? && !statuses[id].Unknown?
  }

  lemma {:induction false} SettledPending(rows: seq<Row>, statuses: map<nat, Status>)
    requires Final(statuses)
    ensures PendingRows(Settle(rows, statuses)) == Without(PendingRows(rows), statuses)
  {
    if rows != [] {
      var n := |rows| - 1;
      SettledPending(rows[..n], statuses);
      assert Settle(rows, statuses)[..n] == Settle(rows[..n], statuses);
      var last := Settle(rows, statuses)[n];
      assert PendingRows(Settle(rows, statuses)) == PendingRows(Settle(rows[..n], statuses)) + if last.status.Pending? then [last] else [];
      if rows[n].status.Pending? {
        WithoutPush(PendingRows(rows[..n]), rows[n], statuses);
      } else {
        assert PendingRows(rows) == PendingRows(rows[..n]);
      }
    }
  }

  lemma {:induction false} WithoutPrefix(batch: seq<Row>, statuses: map<nat, Status>, k: nat)
    requires k <= |batch|
    requires forall i :: 0 <= i < |batch| ==> (batch[i].id in statuses <==> i < k)
    ensures Without(batch, statuses) == batch[k..]
  {
    if batch != [] {
      var n := |batch| - 1;
      if k <= n {
        WithoutPrefix(batch[..n], statuses, k);
        assert batch[k..] == batch[..n][k..] + [batch[n]];
      } else {
        WithoutPrefix(batch[..n], statuses, n);
        assert batch[..n][n..] == [] && batch[k..] == [] && batch[n].id in statuses;
      }
    }
  }

  predicate Answered(batch: seq<Row>, results: seq<PushResult>) {
    && |results| == |batch|
    && forall i :: 0 <= i < |batch| ==> ResultOk(PushMutation(batch[i].id, batch[i].intent), results[i])
  }

  lemma {:induction false} AnsweredIds(batch: seq<Row>, results: seq<PushResult>)
    requires Answered(batch, results)
    ensures Final(StatusById(results))
    ensures forall i :: 0 <= i < |batch| ==> batch[i].id in StatusById(results)
    ensures forall id :: id in StatusById(results) ==> exists i :: 0 <= i < |batch| && batch[i].id == id
  {
    if batch != [] {
      var n := |batch| - 1;
      AnsweredIds(batch[..n], results[..n]);
      forall id | id in StatusById(results)
        ensures exists i :: 0 <= i < |batch| && batch[i].id == id
      {
        if id != batch[n].id {
          var i :| 0 <= i < n && batch[..n][i].id == id;
          assert batch[i].id == id;
        } else {
          assert batch[n].id == id;
        }
      }
    }
  }

  /** Which batch an accepted acknowledgement answered: the first pending rows. */
  lemma AcknowledgedBatch(c: Config, q: Queue, request: PushRequest, response: PushResponse)
    requires Acknowledge(c, q, request, response).Ok?
    ensures 1 <= |request.mutations| <= |PendingRows(q.rows)|
    ensures Answered(PendingRows(q.rows)[..|request.mutations|], response.results)
  {
    var k := |request.mutations|;
    assert request.mutations == Wire(Batch(q, k));
    assert Batch(q, k) == PendingRows(q.rows)[..k];
    forall i | 0 <= i < k
      ensures ResultOk(PushMutation(Batch(q, k)[i].id, Batch(q, k)[i].intent), response.results[i])
    {
      assert ResultOk(request.mutations[i], response.results[i]);
    }
  }

  lemma PrefixIds(batch: seq<Row>, k: nat, statuses: map<nat, Status>)
    requires Climbing(batch) && k <= |batch|
    requires forall i :: 0 <= i < k ==> batch[..k][i].id in statuses
    requires forall id :: id in statuses ==> exists i :: 0 <= i < k && batch[..k][i].id == id
    ensures forall i :: 0 <= i < |batch| ==> (batch[i].id in statuses <==> i < k)
  {
    forall i | 0 <= i < |batch|
      ensures batch[i].id in statuses <==> i < k
    {
      if i < k {
        assert batch[..k][i].id in statuses;
      } else {
        forall j | 0 <= j < k
          ensures batch[..k][j].id != batch[i].id
        {
          assert batch[j].id < batch[i].id;
        }
      }
    }
  }

  lemma SettledRestorable(c: Config, rows: seq<Row>, statuses: map<nat, Status>)
    requires RowsRestorable(c, rows) && Final(statuses)
    ensures RowsRestorable(c, Settle(rows, statuses))
  {
    forall i | 0 <= i < |rows|
      ensures RowRestorable(c, Settle(rows, statuses)[i], i)
    {
      assert RowRestorable(c, rows[i], i);
    }
  }

  /** Even in a queue that has lost the shape, an accepted acknowledgement takes exactly the first
      pending rows off the retry set. */
  lemma AcknowledgeDrops(c: Config, q: Queue, request: PushRequest, response: PushResponse)
    requires Admitted(c, q) && Acknowledge(c, q, request, response).Ok?
    ensures var n := Acknowledge(c, q, request, response).value.0;
            && Admitted(c, n) && n.nextId == q.nextId && 1 <= |request.mutations| <= |PendingRows(q.rows)|
            && PendingRows(n.rows) == PendingRows(q.rows)[|request.mutations|..]
  {
    var pending, k, statuses := PendingRows(q.rows), |request.mutations|, StatusById(response.results);
    AcknowledgedBatch(c, q, request, response);
    AnsweredIds(pending[..k], response.results);
    Numbered(c, q.rows);
    PendingClimbs(q.rows);
    PrefixIds(pending, k, statuses);
    WithoutPrefix(pending, statuses, k);
    SettledPending(q.rows, statuses);
    SettledRestorable(c, q.rows, statuses);
  }

  // ----- when a restored queue can hit the contiguity error -----

  /** The pending rows are a suffix; or they have no gap and no second row can ever be put behind them. */
  predicate NoGapAhead(c: Config, q: Queue) {
    || PendingSuffix(q.rows)
    || (Gapless(PendingRows(q.rows)) && (c.maxPending <= 1 || q.nextId == PHP_INT_MAX))
  }

  /** After these calls a batch of this size cannot be built for want of contiguity. */
  predicate HitsGap(c: Config, q: Queue, calls: seq<Call>, limit: nat) {
    BuildRequest(c, Run(c, q, calls), limit) == Err(NotContiguous)
  }

  lemma BatchProblem(c: Config, q: Queue, limit: nat)
    requires Admitted(c, q)
    ensures Problem(Batch(q, limit)) == if Gapless(Batch(q, limit)) then None else Some(NotContiguous)
  {
    assert forall i :: 0 <= i < |q.rows| ==> RowRestorable(c, q.rows[i], i);
    PendingFromRows(c, q.rows);
    ProblemExactly(Batch(q, limit));
  }

  lemma NoGapBuilds(c: Config, q: Queue, limit: int)
    requires Admitted(c, q) && NoGapAhead(c, q)
    ensures BuildRequest(c, q, limit) != Err(NotContiguous)
  {
    if c.clientId.Some? && 1 <= limit <= MAX_PROTOCOL_BATCH {
      if PendingSuffix(q.rows) {
        BuildSucceeds(c, q, limit);
      } else {
        BatchProblem(c, q, limit);
        assert Gapless(Batch(q, limit));
      }
    }
  }

  lemma EnqueueNoGap(c: Config, q: Queue, intent: Intent)
    requires Admitted(c, q) && NoGapAhead(c, q) && Enqueue(c, q, intent).Ok?
    ensures Admitted(c, Enqueue(c, q, intent).value.0) && NoGapAhead(c, Enqueue(c, q, intent).value.0)
  {
    EnqueueAppends(c, q, intent);
    EnqueueAdmitted(c, q, intent);
    if PendingSuffix(q.rows) {
      EnqueueKeeps(c, q, intent);
    }
  }

  lemma EnqueueAdmitted(c: Config, q: Queue, intent: Intent)
    requires Admitted(c, q) && Enqueue(c, q, intent).Ok?
    ensures Admitted(c, Enqueue(c, q, intent).value.0)
  {
    EnqueueAppends(c, q, intent);
    var n := Enqueue(c, q, intent).value.0;
    forall i | 0 <= i < |n.rows|
      ensures RowRestorable(c, n.rows[i], i)
    {
      assert i < |q.rows| ==> RowRestorable(c, q.rows[i], i);
    }
  }

  lemma NoGapKept(c: Config, q: Queue, call: Call)
    requires Admitted(c, q) && NoGapAhead(c, q)
    ensures Admitted(c, Apply(c, q, call)) && NoGapAhead(c, Apply(c, q, call))
  {
    match call
    case CallEnqueue(intent) => if Enqueue(c, q, intent).Ok? { EnqueueNoGap(c, q, intent); }
    case CallAcknowledge(request, response) =>
      if Acknowledge(c, q, request, response).Ok? {
        AcknowledgeDrops(c, q, request, response);
        if PendingSuffix(q.rows) {
          AcknowledgeKeeps(c, q, request, response);
        }
      }
    case CallRestoreOwn => if c.clientId.Some? { RestoreOfExport(c, q); }
  }

  lemma {:induction false} NoGapAlways(c: Config, q: Queue, calls: seq<Call>, limit: nat)
    requires Admitted(c, q) && NoGapAhead(c, q)
    ensures Admitted(c, Run(c, q, calls)) && NoGapAhead(c, Run(c, q, calls))
    ensures BuildRequest(c, Run(c, q, calls), limit) != Err(NotContiguous)
  {
    if calls != [] {
      NoGapAlways(c, q, calls[..|calls| - 1], limit);
      NoGapKept(c, Run(c, q, calls[..|calls| - 1]), calls[|calls| - 1]);
    }
    NoGapBuilds(c, Run(c, q, calls), limit);
  }

  /** Pushing one row at a time always works, whatever the gaps: the first pending row alone, and an
      honest answer to it. */
  function HeadCall(clientId: string, row: Row): Call {
    CallAcknowledge(
      PushRequest(1, clientId, [PushMutation(row.id, row.intent)]),
      PushResponse(1, clientId, Some(row.id), Some("0"), [PushResult(Some(row.id), Applied, None, None, None)]))
  }

  lemma HeadAcknowledged(c: Config, q: Queue)
    requires Admitted(c, q) && c.clientId.Some? && PendingRows(q.rows) != []
    ensures var pending, n := PendingRows(q.rows), Apply(c, q, HeadCall(c.clientId.value, PendingRows(q.rows)[0]));
            Admitted(c, n) && n.nextId == q.nextId && PendingRows(n.rows) == pending[1..]
  {
    var pending := PendingRows(q.rows);
    var call := HeadCall(c.clientId.value, pending[0]);
    assert Batch(q, 1) == [pending[0]];
    BatchProblem(c, q, 1);
    assert Wire([pending[0]]) == [PushMutation(pending[0].id, pending[0].intent)];
    assert BuildRequest(c, q, 1) == Ok(call.request);
    ZeroIsCanonical();
    assert ResponseOk(call.request, call.response);
    AcknowledgeDrops(c, q, call.request, call.response);
  }

  lemma SliceHead(batch: seq<Row>, k: nat)
    requires k < |batch|
    ensures batch[k..] != [] && batch[k..][0] == batch[k] && batch[k..][1..] == batch[k + 1..]
  {}

  /** The first `m` pending rows have been pushed one by one. */
  predicate Drained(c: Config, q: Queue, n: Queue, m: nat) {
    m <= |PendingRows(q.rows)| && Admitted(c, n) && n.nextId == q.nextId && PendingRows(n.rows) == PendingRows(q.rows)[m..]
  }

  lemma {:induction false} HeadPush(c: Config, q: Queue, before: seq<Call>, pending: seq<Row>, k: nat)
    requires c.clientId.Some? && k < |pending|
    requires Admitted(c, Run(c, q, before)) && PendingRows(Run(c, q, before).rows) == pending[k..]
    ensures var n := Run(c, q, before + [HeadCall(c.clientId.value, pending[k])]);
            Admitted(c, n) && n.nextId == Run(c, q, before).nextId && PendingRows(n.rows) == pending[k + 1..]
  {
    SliceHead(pending, k);
    HeadAcknowledged(c, Run(c, q, before));
    RunPush(c, q, before, HeadCall(c.clientId.value, pending[k]));
  }

  lemma {:induction false} HeadCallsDrain(c: Config, q: Queue, m: nat) returns (calls: seq<Call>)
    requires Admitted(c, q) && c.clientId.Some? && m <= |PendingRows(q.rows)|
    ensures Drained(c, q, Run(c, q, calls), m)
  {
    if m == 0 {
      calls := [];
    } else {
      var before := HeadCallsDrain(c, q, m - 1);
      var pending := PendingRows(q.rows);
      calls := before + [HeadCall(c.clientId.value, pending[m - 1])];
      HeadPush(c, q, before, pending, m - 1);
    }
  }

  /** Two pending rows that do not follow each other stop every batch that holds both. */
  lemma TwoWithGap(c: Config, q: Queue)
    requires Admitted(c, q) && c.clientId.Some? && |PendingRows(q.rows)| >= 2
    requires PendingRows(q.rows)[1].id != PendingRows(q.rows)[0].id + 1
    ensures BuildRequest(c, q, 2) == Err(NotContiguous)
  {
    var batch := Batch(q, 2);
    assert batch[1] == PendingRows(q.rows)[1] && batch[1 - 1] == PendingRows(q.rows)[0];
    BatchProblem(c, q, 2);
  }

  lemma {:induction false} GapAtHead(c: Config, q: Queue, pending: seq<Row>, g: nat)
    requires Admitted(c, q) && c.clientId.Some? && 0 < g < |pending| && pending[g].id != pending[g - 1].id + 1
    requires PendingRows(q.rows) == pending[g - 1..]
    ensures BuildRequest(c, q, 2) == Err(NotContiguous)
  {
    SliceHead(pending, g - 1);
    SliceHead(pending, g);
    TwoWithGap(c, q);
  }

  lemma {:induction false} PendingGapReached(c: Config, q: Queue)
    requires Admitted(c, q) && c.clientId.Some? && !Gapless(PendingRows(q.rows))
    ensures exists calls :: HitsGap(c, q, calls, 2)
  {
    var pending := PendingRows(q.rows);
    var g :| 0 < g < |pending| && pending[g].id != pending[g - 1].id + 1;
    var calls := HeadCallsDrain(c, q, g - 1);
    GapAtHead(c, Run(c, q, calls), pending, g);
    assert HitsGap(c, q, calls, 2);
  }

  lemma {:induction false} GaplessIds(batch: seq<Row>, i: nat)
    requires Gapless(batch) && i < |batch|
    ensures batch[i].id == batch[0].id + i
  {
    if i > 0 {
      GaplessIds(batch, i - 1);
    }
  }

  lemma PendingBetween(rows: seq<Row>, j: nat)
    requires NumberedRows(rows) && Gapless(PendingRows(rows)) && PendingRows(rows) != []
    requires PendingRows(rows)[0].id <= j + 1 <= PendingRows(rows)[|PendingRows(rows)| - 1].id
    ensures j < |rows| && rows[j].status.Pending?
  {
    var pending := PendingRows(rows);
    GaplessIds(pending, |pending| - 1);
    var at := j + 1 - pending[0].id;
    GaplessIds(pending, at);
    PendingMembers(rows, pending[at]);
    var x :| 0 <= x < |rows| && rows[x] == pending[at];
  }

  /** A settled row behind a pending one, and no gap between pending rows: the last row is settled. */
  lemma SettledRowLast(c: Config, q: Queue)
    requires Admitted(c, q) && !PendingSuffix(q.rows) && Gapless(PendingRows(q.rows))
    ensures var pending := PendingRows(q.rows);
            pending != [] && pending[|pending| - 1].id < |q.rows|
  {
    var rows, pending := q.rows, PendingRows(q.rows);
    var i, j :| 0 <= i < j < |rows| && rows[i].status.Pending? && !rows[j].status.Pending?;
    Numbered(c, rows);
    PendingClimbs(rows);
    PendingMembers(rows, rows[i]);
    var m :| 0 <= m < |pending| && pending[m] == rows[i];
    GaplessIds(pending, m);
    if j + 1 <= pending[|pending| - 1].id {
      PendingBetween(rows, j);
    }
  }

  lemma NewRowBehindGap(c: Config, q: Queue, row: Row)
    requires Admitted(c, q) && c.clientId.Some? && PendingRows(q.rows) == [row] && row.id + 1 < q.nextId
    requires c.maxPending >= 2 && q.nextId < PHP_INT_MAX
    ensures BuildRequest(c, Apply(c, q, CallEnqueue(Delete("t", "r", None))), 2) == Err(NotContiguous)
  {
    var intent := Delete("t", "r", None);
    assert Enqueue(c, q, intent).Ok?;
    EnqueueAdmitted(c, q, intent);
    EnqueueAppends(c, q, intent);
    TwoWithGap(c, Enqueue(c, q, intent).value.0);
  }

  lemma EnqueueGapReached(c: Config, q: Queue)
    requires Admitted(c, q) && c.clientId.Some? && !PendingSuffix(q.rows) && Gapless(PendingRows(q.rows))
    requires c.maxPending >= 2 && q.nextId < PHP_INT_MAX
    ensures exists calls :: HitsGap(c, q, calls, 2)
  {
    var pending := PendingRows(q.rows);
    var n := |pending| - 1;
    SettledRowLast(c, q);
    var calls := HeadCallsDrain(c, q, n);
    SliceHead(pending, n);
    assert PendingRows(Run(c, q, calls).rows) == [pending[n]];
    NewRowBehindGap(c, Run(c, q, calls), pending[n]);
    RunPush(c, q, calls, CallEnqueue(Delete("t", "r", None)));
    assert HitsGap(c, q, calls + [CallEnqueue(Delete("t", "r", None))], 2);
  }

  /** After an accepted restore, some run of calls and some batch size hit the contiguity error exactly
      if a settled row follows a pending one, and there is a gap already or a row can be put behind it. */
  lemma {:induction false} GapReachableExactly(c: Config, s: Snapshot)
    requires Restore(c, s).Ok?
    ensures (exists calls, limit: nat :: HitsGap(c, s.queue, calls, limit)) <==> !NoGapAhead(c, s.queue)
  {
    RestoreAdmits(c, s);
    if NoGapAhead(c, s.queue) {
      forall calls, limit: nat
        ensures !HitsGap(c, s.queue, calls, limit)
      {
        NoGapAlways(c, s.queue, calls, limit);
      }
    } else {
      if Gapless(PendingRows(s.queue.rows)) {
        EnqueueGapReached(c, s.queue);
      } else {
        PendingGapReached(c, s.queue);
      }
    }
  }

  function Deletion(id: nat, status: Status): Row {
    Row(id, status, Delete("t", "r", None))
  }

  /** Such a snapshot: a settled row between two pending ones passes every restore check, sends one row
      at a time, and can send no larger batch. */
  lemma RestoreAdmitsGap(c: Config, clientId: string, limit: nat)
    requires c.clientId == Some(clientId) && c.maxPending >= 2 && 1 <= limit <= MAX_PROTOCOL_BATCH
    ensures var s := Snapshot(1, clientId, Queue([Deletion(1, Pending), Deletion(2, Applied), Deletion(3, Pending)], 4, "0"));
            && Restore(c, s) == Ok(s.queue)
            && (BuildRequest(c, s.queue, limit) == Err(NotContiguous) <==> limit > 1)
  {
    var rows := [Deletion(1, Pending), Deletion(2, Applied), Deletion(3, Pending)];
    var s := Snapshot(1, clientId, Queue(rows, 4, "0"));
    ThreeRowsPending();
    ZeroIsCanonical();
    assert Restore(c, s) == Ok(s.queue);
    RestoreAdmits(c, s);
    BatchProblem(c, s.queue, limit);
    var batch := Batch(s.queue, limit);
    if limit > 1 {
      assert batch[1].id != batch[1 - 1].id + 1;
    } else {
      assert |batch| == 1;
    }
  }

  lemma ThreeRowsPending()
    ensures PendingRows([Deletion(1, Pending), Deletion(2, Applied), Deletion(3, Pending)]) == [Deletion(1, Pending), Deletion(3, Pending)]
  {
    var rows := [Deletion(1, Pending), Deletion(2, Applied), Deletion(3, Pending)];
    assert rows[..2] == [Deletion(1, Pending), Deletion(2, Applied)] && rows[..2][..1] == [Deletion(1, Pending)] && rows[..2][..1][..0] == [];
    assert PendingRows(rows[..2][..1]) == [Deletion(1, Pending)];
    assert PendingRows(rows[..2]) == [Deletion(1, Pending)];
  }
}
