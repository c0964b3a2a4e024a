/** The protocol v1 mutation queue: contiguous ids, immutable batches, exact-batch acknowledgement. */
module PushQueue {
  import opened Wrappers
  import opened Decimal

  const MAX_PROTOCOL_BATCH: nat := 100
  const PHP_INT_MAX: nat := 0x7fff_ffff_ffff_ffff

  /** JSON text; only an object may be pushed. Its length stands for its bytes. */
  datatype Payload = JsonObject(text: string) | JsonOther(text: string)

  datatype Intent =
    | Upsert(table: string, recordId: string, payload: Payload, baseRevision: Option<string>, resurrect: bool)
    | Delete(table: string, recordId: string, baseRevision: Option<string>)

  datatype Status = Pending | Applied | Duplicate | Rejected | Unknown(text: string)

  datatype Row = Row(id: nat, status: Status, intent: Intent)

  datatype Queue = Queue(rows: seq<Row>, nextId: nat, checkpoint: string)

  datatype Config = Config(clientId: Option<string>, maxPending: nat, maxPayloadBytes: nat)

  datatype Snapshot = Snapshot(schemaVersion: int, clientId: string, queue: Queue)

  datatype PushMutation = PushMutation(id: nat, intent: Intent)

  datatype PushRequest = PushRequest(protocolVersion: int, clientId: string, mutations: seq<PushMutation>)

  /** `None` stands for a missing field or a value that is not a canonical decimal. */
  datatype PushResult = PushResult(
    id: Option<nat>, status: Status, originalStatus: Option<Status>, checkpoint: Option<string>, revision: Option<string>)

  datatype PushResponse = PushResponse(
    protocolVersion: int, clientId: string, lastMutationId: Option<nat>, checkpoint: Option<string>, results: seq<PushResult>)

  datatype Error = InvalidArgument | NoIdentity | QueueFull | IdsExhausted | NotContiguous | BadPayload | Mismatch

  const EMPTY := Queue([], 1, "0")

  // ----- what the operations compute -----

  function PendingRows(rows: seq<Row>): seq<Row> {
    if rows == [] then []
    else PendingRows(rows[..|rows| - 1]) + if rows[|rows| - 1].status.Pending? then [rows[|rows| - 1]] else []
  }

  predicate RevisionOk(r: Option<string>) {
    r.None? || IsCanonical(r.value)
  }

  predicate IntentOk(i: Intent, maxPayloadBytes: nat) {
    && i.table != "" && i.recordId != "" && RevisionOk(i.baseRevision)
    && (i.Upsert? ==> i.payload.JsonObject? && |i.payload.text| <= maxPayloadBytes)
  }

  function Enqueue(c: Config, q: Queue, intent: Intent): Result<(Queue, nat), Error> {
    if c.clientId.None? then Err(NoIdentity)
    else if !IntentOk(intent, c.maxPayloadBytes) then Err(InvalidArgument)
    else if |PendingRows(q.rows)| >= c.maxPending then Err(QueueFull)
    else if q.nextId == PHP_INT_MAX then Err(IdsExhausted)
    else Ok((Queue(q.rows + [Row(q.nextId, Pending, intent)], q.nextId + 1, q.checkpoint), q.nextId))
  }

  function Batch(q: Queue, limit: nat): seq<Row> {
    var pending := PendingRows(q.rows);
    if |pending| <= limit then pending else pending[..limit]
  }

  /** First row that cannot be sent, and why: a gap before it, or a payload that is not an object. */
  function Problem(batch: seq<Row>): Option<Error> {
    if batch == [] then None
    else
      var n := |batch| - 1;
      match Problem(batch[..n])
      case Some(e) => Some(e)
      case None =>
        if n > 0 && batch[n].id != batch[n - 1].id + 1 then Some(NotContiguous)
        else if batch[n].intent.Upsert? && !batch[n].intent.payload.JsonObject? then Some(BadPayload)
        else None
  }

  function Wire(batch: seq<Row>): (r: seq<PushMutation>)
    ensures |r| == |batch|
    ensures forall i :: 0 <= i < |r| ==> r[i] == PushMutation(batch[i].id, batch[i].intent)
  {
    if batch == [] then [] else Wire(batch[..|batch| - 1]) + [PushMutation(batch[|batch| - 1].id, batch[|batch| - 1].intent)]
  }

  function BuildRequest(c: Config, q: Queue, limit: int): Result<PushRequest, Error> {
    if c.clientId.None? then Err(NoIdentity)
    else if limit < 1 || limit > MAX_PROTOCOL_BATCH then Err(InvalidArgument)
    else
      match Problem(Batch(q, limit))
      case Some(e) => Err(e)
      case None => Ok(PushRequest(1, c.clientId.value, Wire(Batch(q, limit))))
  }

  predicate ResultOk(m: PushMutation, r: PushResult) {
    && r.id == Some(m.id)
    && (r.status == Applied || r.status == Duplicate || r.status == Rejected)
    && (r.checkpoint.None? || IsCanonical(r.checkpoint.value))
    && (r.revision.None? || (IsCanonical(r.revision.value) && r.revision.value != "0"))
    && (r.originalStatus.None? || r.originalStatus.value == Applied || r.originalStatus.value == Rejected)
    && (r.status == Duplicate <==> r.originalStatus.Some?)
  }

  predicate ResponseOk(request: PushRequest, response: PushResponse) {
    && request.protocolVersion == 1 && request.mutations != []
    && response.protocolVersion == 1 && response.clientId == request.clientId
    && response.lastMutationId == Some(request.mutations[|request.mutations| - 1].id)
    && response.checkpoint.Some? && IsCanonical(response.checkpoint.value)
    && |response.results| == |request.mutations|
    && forall i :: 0 <= i < |request.mutations| ==> ResultOk(request.mutations[i], response.results[i])
  }

  /** Statuses by mutation id; a later result for the same id wins. */
  function StatusById(results: seq<PushResult>): map<nat, Status> {
    if results == [] then map[]
    else
      var m, r := StatusById(results[..|results| - 1]), results[|results| - 1];
      if r.id.Some? then m[r.id.value := r.status] else m
  }

  function Settle(rows: seq<Row>, statuses: map<nat, Status>): (r: seq<Row>)
    ensures |r| == |rows|
    ensures forall i :: 0 <= i < |rows| ==>
              r[i] == if rows[i].id in statuses then rows[i].(status := statuses[rows[i].id]) else rows[i]
  {
    seq(|rows|, i requires 0 <= i < |rows| =>
      if rows[i].id in statuses then rows[i].(status := statuses[rows[i].id]) else rows[i])
  }

  function Acknowledge(c: Config, q: Queue, request: PushRequest, response: PushResponse): Result<(Queue, nat), Error> {
    if !ResponseOk(request, response) then Err(Mismatch)
    else
      match BuildRequest(c, q, |request.mutations|)
      case Err(e) => Err(e)
      case Ok(expected) =>
        if expected != request then Err(Mismatch)
        else
          var statuses := StatusById(response.results);
          Ok((Queue(Settle(q.rows, statuses), q.nextId, response.checkpoint.value), |statuses|))
  }

  predicate RowRestorable(c: Config, row: Row, prior: nat) {
    && 1 <= row.id <= PHP_INT_MAX && row.id == prior + 1 && !row.status.Unknown?
    && IntentOk(row.intent, c.maxPayloadBytes)
  }

  predicate RowsRestorable(c: Config, rows: seq<Row>) {
    forall i :: 0 <= i < |rows| ==> RowRestorable(c, rows[i], i)
  }

  function Restore(c: Config, s: Snapshot): Result<Queue, Error> {
    if c.clientId.None? then Err(NoIdentity)
    else if s.schemaVersion != 1 || s.clientId != c.clientId.value || !(1 <= s.queue.nextId <= PHP_INT_MAX)
            || !IsCanonical(s.queue.checkpoint) then Err(InvalidArgument)
    else if !RowsRestorable(c, s.queue.rows) then Err(InvalidArgument)
    else if |PendingRows(s.queue.rows)| > c.maxPending then Err(InvalidArgument)
    else if s.queue.nextId != |s.queue.rows| + 1 then Err(InvalidArgument)
    else Ok(s.queue)
  }

  function Export(c: Config, q: Queue): Result<Snapshot, Error> {
    if c.clientId.None? then Err(NoIdentity) else Ok(Snapshot(1, c.clientId.value, q))
  }

  // ----- the shape every operation keeps -----

  /** Settled rows first, pending rows after them. */
  predicate PendingSuffix(rows: seq<Row>) {
    forall i, j :: 0 <= i < j < |rows| && rows[i].status.Pending? ==> rows[j].status.Pending?
  }

  /** What a restore checks: everything but the order of settled and pending rows. */
  predicate Admitted(c: Config, q: Queue) {
    && RowsRestorable(c, q.rows) && q.nextId == |q.rows| + 1 <= PHP_INT_MAX && IsCanonical(q.checkpoint)
    && |PendingRows(q.rows)| <= c.maxPending
  }

  predicate Shape(c: Config, q: Queue) {
    && RowsRestorable(c, q.rows) && PendingSuffix(q.rows)
    && q.nextId == |q.rows| + 1 <= PHP_INT_MAX && IsCanonical(q.checkpoint)
    && |PendingRows(q.rows)| <= c.maxPending
  }

  /** How many rows are settled, in a queue of the right shape. */
  function Settled(rows: seq<Row>): (k: nat)
    ensures k <= |rows|
    ensures forall i :: 0 <= i < k ==> !rows[i].status.Pending?
    ensures k < |rows| ==> rows[k].status.Pending?
  {
    if rows == [] || rows[0].status.Pending? then 0 else 1 + Settled(rows[1..])
  }

  lemma PendingIsSuffix(rows: seq<Row>)
    requires PendingSuffix(rows)
    ensures PendingRows(rows) == rows[Settled(rows)..]
  {
    CutAtSettled(rows);
    PendingAfterCut(rows, Settled(rows));
  }

  /** Exactly the first `k` rows are settled. */
  predicate CutAt(rows: seq<Row>, k: nat) {
    k <= |rows| && forall i :: 0 <= i < |rows| ==> (rows[i].status.Pending? <==> k <= i)
  }

  lemma {:induction false} PendingAfterCut(rows: seq<Row>, k: nat)
    requires CutAt(rows, k)
    ensures PendingRows(rows) == rows[k..]
  {
    if rows != [] {
      var n := |rows| - 1;
      if k <= n {
        PendingAfterCut(rows[..n], k);
        assert rows[k..] == rows[..n][k..] + [rows[n]];
      } else {
        PendingAfterCut(rows[..n], n);
      }
    }
  }

  lemma {:induction false} ContiguousHasNoProblem(batch: seq<Row>)
    requires forall i :: 0 < i < |batch| ==> batch[i].id == batch[i - 1].id + 1
    requires forall i :: 0 <= i < |batch| && batch[i].intent.Upsert? ==> batch[i].intent.payload.JsonObject?
    ensures Problem(batch) == None
  {
    if batch != [] {
      ContiguousHasNoProblem(batch[..|batch| - 1]);
    }
  }

  predicate NumberedRows(rows: seq<Row>) {
    forall i :: 0 <= i < |rows| ==>
      rows[i].id == i + 1 && (rows[i].intent.Upsert? ==> rows[i].intent.payload.JsonObject?)
  }

  lemma Numbered(c: Config, rows: seq<Row>)
    requires RowsRestorable(c, rows)
    ensures NumberedRows(rows)
  {
    forall i | 0 <= i < |rows|
      ensures rows[i].id == i + 1 && (rows[i].intent.Upsert? ==> rows[i].intent.payload.JsonObject?)
    {
      assert RowRestorable(c, rows[i], i);
    }
  }

  /** The first rows that are not yet settled. */
  function NextRows(rows: seq<Row>, limit: nat): seq<Row> {
    var k := Settled(rows);
    rows[k..if |rows| - k <= limit then |rows| else k + limit]
  }

  lemma BatchIsNextRows(q: Queue, limit: nat)
    requires PendingSuffix(q.rows)
    ensures Batch(q, limit) == NextRows(q.rows, limit)
  {
    PendingIsSuffix(q.rows);
  }

  lemma NextRowsAt(rows: seq<Row>, limit: nat, i: nat)
    requires NumberedRows(rows) && i < |NextRows(rows, limit)|
    ensures |NextRows(rows, limit)| <= |rows| - Settled(rows)
    ensures NextRows(rows, limit)[i] == rows[Settled(rows) + i] && NextRows(rows, limit)[i].id == Settled(rows) + i + 1
  {}

  lemma NextRowsSend(rows: seq<Row>, limit: nat)
    requires NumberedRows(rows)
    ensures Problem(NextRows(rows, limit)) == None
  {
    var batch := NextRows(rows, limit);
    forall i | 0 <= i < |batch|
      ensures i > 0 ==> batch[i].id == batch[i - 1].id + 1
      ensures batch[i].intent.Upsert? ==> batch[i].intent.payload.JsonObject?
    {
      NextRowsAt(rows, limit, i);
      if i > 0 { NextRowsAt(rows, limit, i - 1); }
    }
    ContiguousHasNoProblem(batch);
  }

  /** A queue of this shape never hits the contiguity error: it sends its next unsettled rows, with
      their ids and contents. */
  lemma BuildSucceeds(c: Config, q: Queue, limit: nat)
    requires Shape(c, q) && c.clientId.Some? && 1 <= limit <= MAX_PROTOCOL_BATCH
    ensures BuildRequest(c, q, limit) == Ok(PushRequest(1, c.clientId.value, Wire(NextRows(q.rows, limit))))
  {
    Numbered(c, q.rows);
    BatchIsNextRows(q, limit);
    NextRowsSend(q.rows, limit);
  }

  lemma {:induction false} EnqueueKeeps(c: Config, q: Queue, intent: Intent)
    requires Shape(c, q) && Enqueue(c, q, intent).Ok?
    ensures var (n, id) := Enqueue(c, q, intent).value;
            && Shape(c, n) && id == |n.rows| && n.rows[..id - 1] == q.rows && n.rows[id - 1].intent == intent
            && PendingRows(n.rows) == PendingRows(q.rows) + [Row(id, Pending, intent)]
            && Settled(n.rows) == Settled(q.rows)
  {
    var n := Enqueue(c, q, intent).value.0;
    assert n.rows[..|q.rows|] == q.rows;
    PendingIsSuffix(q.rows);
    SettledAppend(q.rows, Row(q.nextId, Pending, intent));
  }

  lemma {:induction false} SettledAppend(rows: seq<Row>, row: Row)
    requires row.status.Pending?
    ensures Settled(rows + [row]) == Settled(rows)
  {
    if rows != [] {
      assert (rows + [row])[1..] == rows[1..] + [row];
      SettledAppend(rows[1..], row);
    }
  }

  /** Which mutations are accepted, and what an accepted one adds. */
  lemma EnqueuedExactly(c: Config, q: Queue, intent: Intent)
    ensures Enqueue(c, q, intent).Ok? <==>
              && c.clientId.Some? && intent.table != "" && intent.recordId != ""
              && (intent.baseRevision.None? || IsCanonical(intent.baseRevision.value))
              && (intent.Upsert? ==> intent.payload.JsonObject? && |intent.payload.text| <= c.maxPayloadBytes)
              && |PendingRows(q.rows)| < c.maxPending && q.nextId != 0x7fff_ffff_ffff_ffff
    ensures Enqueue(c, q, intent).Ok? ==>
              Enqueue(c, q, intent).value == (Queue(q.rows + [Row(q.nextId, Pending, intent)], q.nextId + 1, q.checkpoint), q.nextId)
  {}

  lemma EnqueueAppends(c: Config, q: Queue, intent: Intent)
    requires Enqueue(c, q, intent).Ok?
    ensures PendingRows(Enqueue(c, q, intent).value.0.rows) == PendingRows(q.rows) + [Row(q.nextId, Pending, intent)]
  {
    var row := Row(q.nextId, Pending, intent);
    assert (q.rows + [row])[..|q.rows|] == q.rows;
  }

  /** The first `k` pending mutations alone decide what a request for `k` mutations looks like. */
  lemma RequestOfPrefix(c: Config, q: Queue, n: Queue, k: nat)
    requires PendingRows(q.rows) <= PendingRows(n.rows) && k <= |PendingRows(q.rows)|
    ensures BuildRequest(c, n, k) == BuildRequest(c, q, k)
  {
    assert PendingRows(n.rows)[..k] == PendingRows(q.rows)[..k];
    assert Batch(n, k) == PendingRows(n.rows)[..k];
    assert Batch(q, k) == PendingRows(q.rows)[..k];
  }

  lemma {:induction false} StatusOfResults(results: seq<PushResult>, first: nat)
    requires NumberedFrom(results, first)
    ensures forall id :: id in StatusById(results) <==> first <= id < first + |results|
    ensures forall id :: id in StatusById(results) ==> StatusById(results)[id] == results[id - first].status
    ensures |StatusById(results)| == |results|
  {
    if results != [] {
      var n := |results| - 1;
      StatusOfResults(results[..n], first);
      assert first + n !in StatusById(results[..n]);
    }
  }

  /** The settled results answer rows `k`, `k + 1`, ... of the queue. */
  predicate AnswersFrom(rows: seq<Row>, k: nat, results: seq<PushResult>) {
    && k + |results| <= |rows|
    && forall i :: 0 <= i < |results| ==>
         results[i].id == Some(k + i + 1) && !results[i].status.Pending? && !results[i].status.Unknown?
  }

  lemma AnsweredRow(rows: seq<Row>, limit: nat, m: PushMutation, r: PushResult, i: nat)
    requires NumberedRows(rows) && i < |NextRows(rows, limit)|
    requires m == Wire(NextRows(rows, limit))[i] && ResultOk(m, r)
    ensures r.id == Some(Settled(rows) + i + 1) && !r.status.Pending? && !r.status.Unknown?
  {
    NextRowsAt(rows, limit, i);
  }

  lemma AnsweredBatch(rows: seq<Row>, limit: nat, request: PushRequest, response: PushResponse)
    requires NumberedRows(rows) && request.mutations == Wire(NextRows(rows, limit))
    requires ResponseOk(request, response) && |request.mutations| == limit
    ensures |response.results| == limit >= 1 && AnswersFrom(rows, Settled(rows), response.results)
  {
    NextRowsAt(rows, limit, 0);
    var k, results := Settled(rows), response.results;
    forall i | 0 <= i < |results|
      ensures results[i].id == Some(k + i + 1) && !results[i].status.Pending? && !results[i].status.Unknown?
    {
      AnsweredRow(rows, limit, request.mutations[i], results[i], i);
    }
  }

  /** What the request and the response of an accepted acknowledgement must look like. */
  lemma {:induction false} AcceptedBatch(c: Config, q: Queue, request: PushRequest, response: PushResponse)
    requires Shape(c, q) && Acknowledge(c, q, request, response).Ok?
    ensures c.clientId.Some? && request == PushRequest(1, c.clientId.value, Wire(NextRows(q.rows, |request.mutations|)))
    ensures response.clientId == request.clientId
    ensures |response.results| == |request.mutations| >= 1 && AnswersFrom(q.rows, Settled(q.rows), response.results)
    ensures response.checkpoint.Some? && IsCanonical(response.checkpoint.value)
  {
    BuildSucceeds(c, q, |request.mutations|);
    Numbered(c, q.rows);
    AnsweredBatch(q.rows, |request.mutations|, request, response);
  }

  /** Writing the answers into the rows they name. */
  function Written(rows: seq<Row>, k: nat, results: seq<PushResult>): (r: seq<Row>)
    requires k + |results| <= |rows|
    ensures |r| == |rows|
    ensures forall i :: 0 <= i < |rows| ==>
              r[i] == if k <= i < k + |results| then rows[i].(status := results[i - k].status) else rows[i]
  {
    seq(|rows|, i requires 0 <= i < |rows| =>
      if k <= i < k + |results| then rows[i].(status := results[i - k].status) else rows[i])
  }

  lemma {:induction false} SettleIsWritten(rows: seq<Row>, k: nat, results: seq<PushResult>)
    requires NumberedRows(rows) && AnswersFrom(rows, k, results)
    ensures Settle(rows, StatusById(results)) == Written(rows, k, results)
    ensures |StatusById(results)| == |results|
  {
    StatusCount(results, k + 1);
    forall i | 0 <= i < |rows|
      ensures Settle(rows, StatusById(results))[i] == Written(rows, k, results)[i]
    {
      SettleRow(rows, k, results, i);
    }
  }

  lemma {:induction false} SettleRow(rows: seq<Row>, k: nat, results: seq<PushResult>, i: nat)
    requires i < |rows| && rows[i].id == i + 1 && AnswersFrom(rows, k, results)
    ensures Settle(rows, StatusById(results))[i] == Written(rows, k, results)[i]
  {
    StatusAt(results, k + 1, i + 1);
  }

  predicate NumberedFrom(results: seq<PushResult>, first: nat) {
    forall i :: 0 <= i < |results| ==> results[i].id == Some(first + i)
  }

  lemma {:induction false} StatusCount(results: seq<PushResult>, first: nat)
    requires NumberedFrom(results, first)
    ensures |StatusById(results)| == |results|
  {
    StatusOfResults(results, first);
  }

  lemma {:induction false} StatusAt(results: seq<PushResult>, first: nat, id: nat)
    requires NumberedFrom(results, first)
    ensures id in StatusById(results) <==> first <= id < first + |results|
    ensures id in StatusById(results) ==> StatusById(results)[id] == results[id - first].status
  {
    StatusOfResults(results, first);
  }

  /** An accepted acknowledgement settles exactly the next rows, each once, with the server's words. */
  lemma {:induction false} AcknowledgeSettlesBatch(c: Config, q: Queue, request: PushRequest, response: PushResponse)
    requires Shape(c, q) && Acknowledge(c, q, request, response).Ok?
    ensures AnswersFrom(q.rows, Settled(q.rows), response.results)
    ensures Acknowledge(c, q, request, response)
            == Ok((Queue(Written(q.rows, Settled(q.rows), response.results), q.nextId, response.checkpoint.GetOr("")), |request.mutations|))
    ensures Settled(Written(q.rows, Settled(q.rows), response.results)) == Settled(q.rows) + |request.mutations|
  {
    AcceptedBatch(c, q, request, response);
    Numbered(c, q.rows);
    AnswersSettle(q.rows, response.results);
  }

  lemma {:induction false} AnswersSettle(rows: seq<Row>, results: seq<PushResult>)
    requires NumberedRows(rows) && PendingSuffix(rows) && AnswersFrom(rows, Settled(rows), results)
    ensures Settle(rows, StatusById(results)) == Written(rows, Settled(rows), results)
    ensures |StatusById(results)| == |results|
    ensures Settled(Written(rows, Settled(rows), results)) == Settled(rows) + |results|
  {
    SettleIsWritten(rows, Settled(rows), results);
    CutAtSettled(rows);
    WrittenSettles(rows, Settled(rows), results);
    CutIsSuffix(Written(rows, Settled(rows), results), Settled(rows) + |results|);
  }

  lemma CutAtSettled(rows: seq<Row>)
    requires PendingSuffix(rows)
    ensures CutAt(rows, Settled(rows))
  {}

  lemma CutIsSuffix(rows: seq<Row>, k: nat)
    requires CutAt(rows, k)
    ensures Settled(rows) == k && PendingSuffix(rows) && PendingRows(rows) == rows[k..]
  {
    SettledAt(rows, k);
    PendingIsSuffix(rows);
  }

  lemma WrittenSettles(rows: seq<Row>, k: nat, results: seq<PushResult>)
    requires CutAt(rows, k) && AnswersFrom(rows, k, results)
    ensures CutAt(Written(rows, k, results), k + |results|)
  {}

  lemma {:induction false} SettledAt(rows: seq<Row>, k: nat)
    requires k <= |rows|
    requires forall i :: 0 <= i < k ==> !rows[i].status.Pending?
    requires k < |rows| ==> rows[k].status.Pending?
    ensures Settled(rows) == k
  {
    if k > 0 {
      SettledAt(rows[1..], k - 1);
    }
  }

  lemma WrittenRestorable(c: Config, rows: seq<Row>, k: nat, results: seq<PushResult>)
    requires RowsRestorable(c, rows) && AnswersFrom(rows, k, results)
    ensures RowsRestorable(c, Written(rows, k, results))
  {
    var n := Written(rows, k, results);
    forall i | 0 <= i < |n|
      ensures RowRestorable(c, n[i], i)
    {
      assert RowRestorable(c, rows[i], i);
    }
  }

  lemma AcknowledgeKeeps(c: Config, q: Queue, request: PushRequest, response: PushResponse)
    requires Shape(c, q) && Acknowledge(c, q, request, response).Ok?
    ensures Shape(c, Acknowledge(c, q, request, response).value.0)
    ensures |request.mutations| <= |PendingRows(q.rows)|
    ensures PendingRows(Acknowledge(c, q, request, response).value.0.rows) == PendingRows(q.rows)[|request.mutations|..]
  {
    AcceptedBatch(c, q, request, response);
    AcknowledgeSettlesBatch(c, q, request, response);
    WrittenRestorable(c, q.rows, Settled(q.rows), response.results);
    CutAtSettled(q.rows);
    WrittenSettles(q.rows, Settled(q.rows), response.results);
    CutIsSuffix(Written(q.rows, Settled(q.rows), response.results), Settled(q.rows) + |request.mutations|);
    WrittenTail(q.rows, Settled(q.rows), response.results);
  }

  lemma WrittenTail(rows: seq<Row>, k: nat, results: seq<PushResult>)
    requires CutAt(rows, k) && AnswersFrom(rows, k, results)
    ensures |results| <= |PendingRows(rows)|
    ensures PendingRows(Written(rows, k, results)) == PendingRows(rows)[|results|..]
  {
    PendingAfterCut(rows, k);
    WrittenSettles(rows, k, results);
    PendingAfterCut(Written(rows, k, results), k + |results|);
    BehindWritten(rows, k, results);
  }

  lemma BehindWritten(rows: seq<Row>, k: nat, results: seq<PushResult>)
    requires k + |results| <= |rows|
    ensures Written(rows, k, results)[k + |results|..] == rows[k..][|results|..]
  {
    assert rows[k..][|results|..] == rows[k + |results|..];
  }

  lemma ZeroIsCanonical()
    ensures IsCanonical("0")
  {}

  /** Which acknowledgements are accepted, field by field: of exactly the request that would be sent now,
      with an answer of the required form to each of its mutations in turn. */
  lemma AcknowledgedExactly(c: Config, q: Queue, request: PushRequest, response: PushResponse)
    ensures Acknowledge(c, q, request, response).Ok? <==>
              && BuildRequest(c, q, |request.mutations|) == Ok(request)
              && request.protocolVersion == 1 && request.mutations != []
              && response.protocolVersion == 1 && response.clientId == request.clientId
              && response.lastMutationId == Some(request.mutations[|request.mutations| - 1].id)
              && response.checkpoint.Some? && IsCanonical(response.checkpoint.value)
              && |response.results| == |request.mutations|
              && forall i :: 0 <= i < |request.mutations| ==>
                   var result := response.results[i];
                   && result.id == Some(request.mutations[i].id)
                   && (result.status == Applied || result.status == Duplicate || result.status == Rejected)
                   && (result.checkpoint.None? || IsCanonical(result.checkpoint.value))
                   && (result.revision.None? || (IsCanonical(result.revision.value) && result.revision.value != "0"))
                   && (result.originalStatus.None? || result.originalStatus.value == Applied || result.originalStatus.value == Rejected)
                   && (result.status == Duplicate <==> result.originalStatus.Some?)
  {}

  /** What an accepted one writes: the status of each named row, and nothing else. */
  lemma AcknowledgedRows(c: Config, q: Queue, request: PushRequest, response: PushResponse)
    requires Shape(c, q) && Acknowledge(c, q, request, response).Ok?
    ensures var (n, count) := Acknowledge(c, q, request, response).value;
            && count == |request.mutations| == |response.results| && response.checkpoint == Some(n.checkpoint) && n.nextId == q.nextId
            && |n.rows| == |q.rows|
            && forall i :: 0 <= i < |q.rows| ==> RowAfter(q.rows[i], n.rows[i], request, response)
  {
    AcceptedBatch(c, q, request, response);
    AcknowledgeSettlesBatch(c, q, request, response);
    Numbered(c, q.rows);
    NextRowsNamed(q.rows, |request.mutations|);
    forall i | 0 <= i < |q.rows|
      ensures RowAfter(q.rows[i], Written(q.rows, Settled(q.rows), response.results)[i], request, response)
    {
      WrittenRow(q.rows, Settled(q.rows), i, request, response);
    }
  }

  /** The row keeps id and intent; its status is that of the result for its id, and is kept if there is none. */
  predicate RowAfter(before: Row, after: Row, request: PushRequest, response: PushResponse)
    requires |request.mutations| == |response.results|
  {
    && after.id == before.id && after.intent == before.intent
    && (forall j :: 0 <= j < |request.mutations| && request.mutations[j].id == before.id ==> after.status == response.results[j].status)
    && ((forall j :: 0 <= j < |request.mutations| ==> request.mutations[j].id != before.id) ==> after == before)
  }

  /** The request names rows `k`, `k + 1`, ... by their ids. */
  predicate NamesFrom(ms: seq<PushMutation>, k: nat) {
    forall j :: 0 <= j < |ms| ==> ms[j].id == k + j + 1
  }

  lemma NextRowsNamed(rows: seq<Row>, limit: nat)
    requires NumberedRows(rows)
    ensures NamesFrom(Wire(NextRows(rows, limit)), Settled(rows))
  {
    forall j | 0 <= j < |NextRows(rows, limit)|
      ensures Wire(NextRows(rows, limit))[j].id == Settled(rows) + j + 1
    {
      NextRowsAt(rows, limit, j);
    }
  }

  lemma WrittenRow(rows: seq<Row>, k: nat, i: nat, request: PushRequest, response: PushResponse)
    requires i < |rows| && rows[i].id == i + 1 && |request.mutations| == |response.results| && k + |response.results| <= |rows|
    requires NamesFrom(request.mutations, k)
    ensures RowAfter(rows[i], Written(rows, k, response.results)[i], request, response)
  {
    if k <= i < k + |request.mutations| {
      assert request.mutations[i - k].id == rows[i].id;
    }
  }

  lemma EmptyShape(c: Config)
    ensures Shape(c, EMPTY)
  {
    ZeroIsCanonical();
  }

  /** Restoring one's own export is the identity, even of a queue that has lost the shape. */
  lemma RestoreOfExport(c: Config, q: Queue)
    requires Admitted(c, q) && c.clientId.Some?
    ensures Export(c, q).Ok? && Restore(c, Export(c, q).value) == Ok(q)
  {}

  /** An accepted snapshot has the shape exactly when its pending rows are a suffix. */
  lemma RestoreAdmits(c: Config, s: Snapshot)
    requires Restore(c, s).Ok?
    ensures Restore(c, s).value == s.queue && Admitted(c, s.queue)
    ensures Shape(c, s.queue) <==> PendingSuffix(s.queue.rows)
  {}

  predicate Gapless(batch: seq<Row>) {
    forall i :: 0 < i < |batch| ==> batch[i].id == batch[i - 1].id + 1
  }

  lemma {:induction false} ProblemExactly(batch: seq<Row>)
    requires forall i :: 0 <= i < |batch| && batch[i].intent.Upsert? ==> batch[i].intent.payload.JsonObject?
    ensures Problem(batch) == if Gapless(batch) then None else Some(NotContiguous)
  {
    if batch != [] {
      var n := |batch| - 1;
      ProblemExactly(batch[..n]);
      assert Gapless(batch) <==> Gapless(batch[..n]) && (n > 0 ==> batch[n].id == batch[n - 1].id + 1);
    }
  }

  lemma {:induction false} PendingFromRows(c: Config, rows: seq<Row>)
    requires forall i :: 0 <= i < |rows| ==> IntentOk(rows[i].intent, c.maxPayloadBytes)
    ensures forall i :: 0 <= i < |PendingRows(rows)| ==>
              PendingRows(rows)[i].intent.Upsert? ==> PendingRows(rows)[i].intent.payload.JsonObject?
  {
    if rows != [] {
      PendingFromRows(c, rows[..|rows| - 1]);
    }
  }
}
