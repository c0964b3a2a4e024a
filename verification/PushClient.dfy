/** The queue as the client object holds it: methods change its fields row by row. */
module PushClient {
  import opened Wrappers
  import opened Decimal
  import opened PushQueue

  class Client {
    const clientId: Option<string>
    const maxPendingMutations: nat
    const maxPayloadBytes: nat
    var mutations: seq<Row>
    var nextMutationId: nat
    var checkpoint: string

    function Limits(): Config { Config(clientId, maxPendingMutations, maxPayloadBytes) }

    function Contents(): Queue
      reads this
    {
      Queue(mutations, nextMutationId, checkpoint)
    }

    ghost predicate Valid()
      reads this
    {
      Shape(Limits(), Contents())
    }

    constructor (clientId: Option<string>, maxPendingMutations: nat, maxPayloadBytes: nat)
      requires clientId != Some("") && maxPendingMutations >= 1 && maxPayloadBytes >= 1
      ensures Valid() && Contents() == EMPTY && Limits() == Config(clientId, maxPendingMutations, maxPayloadBytes)
    {
      this.clientId, this.maxPendingMutations, this.maxPayloadBytes := clientId, maxPendingMutations, maxPayloadBytes;
      mutations, nextMutationId, checkpoint := [], 1, "0";
      assert IsCanonical("0");
    }

    method Pending() returns (rows: seq<Row>)
      ensures rows == PendingRows(mutations)
    {
      rows := [];
      for i := 0 to |mutations|
        invariant rows == PendingRows(mutations[..i])
      {
        assert mutations[..i + 1][..i] == mutations[..i];
        if mutations[i].status.Pending? {
          rows := rows + [mutations[i]];
        }
      }
      assert mutations[..|mutations|] == mutations;
    }

    method EnqueueMutation(intent: Intent) returns (r: Result<nat, Error>)
      requires Valid()
      modifies this
      ensures Valid()
      ensures match Enqueue(Limits(), old(Contents()), intent)
              case Ok((q, id)) => r == Ok(id) && Contents() == q
              case Err(e) => r == Err(e) && Contents() == old(Contents())
      ensures r.Ok? ==> PendingRows(mutations) == old(PendingRows(mutations)) + [Row(r.value, Status.Pending, intent)]
      ensures r.Ok? <==>
                && clientId.Some? && intent.table != "" && intent.recordId != ""
                && (intent.baseRevision.None? || IsCanonical(intent.baseRevision.value))
                && (intent.Upsert? ==> intent.payload.JsonObject? && |intent.payload.text| <= maxPayloadBytes)
                && |old(PendingRows(mutations))| < maxPendingMutations && old(nextMutationId) != 0x7fff_ffff_ffff_ffff
      ensures r.Ok? ==>
                && r.value == old(nextMutationId) && nextMutationId == old(nextMutationId) + 1 && checkpoint == old(checkpoint)
                && mutations == old(mutations) + [Row(r.value, Status.Pending, intent)]
      ensures r.Err? ==> mutations == old(mutations) && nextMutationId == old(nextMutationId) && checkpoint == old(checkpoint)
    {
      EnqueuedExactly(Limits(), Contents(), intent);
      if clientId.None? {
        return Err(NoIdentity);
      }
      if !IntentOk(intent, maxPayloadBytes) {
        return Err(InvalidArgument);
      }
      var pending := Pending();
      if |pending| >= maxPendingMutations {
        return Err(QueueFull);
      }
      if nextMutationId == PHP_INT_MAX {
        return Err(IdsExhausted);
      }
      EnqueueAppends(Limits(), Contents(), intent);
      EnqueueKeeps(Limits(), Contents(), intent);
      ghost var q := Enqueue(Limits(), Contents(), intent).value.0;
      var id := nextMutationId;
      nextMutationId := nextMutationId + 1;
      mutations := mutations + [Row(id, Status.Pending, intent)];
      assert Contents() == q;
      r := Ok(id);
    }

    method BuildPushRequest(limit: int) returns (r: Result<PushRequest, Error>)
      ensures r == BuildRequest(Limits(), Contents(), limit)
      ensures Valid() ==> (r.Ok? <==> clientId.Some? && 1 <= limit <= 100)
      ensures r.Ok? ==>
                var pending, sent := PendingRows(mutations), r.value.mutations;
                && r.value.protocolVersion == 1 && clientId == Some(r.value.clientId)
                && |sent| == (if |pending| < limit then |pending| else limit)
                && forall i :: 0 <= i < |sent| ==> sent[i].id == pending[i].id && sent[i].intent == pending[i].intent
    {
      if Valid() && clientId.Some? && 1 <= limit <= MAX_PROTOCOL_BATCH {
        BuildSucceeds(Limits(), Contents(), limit);
      }
      if clientId.None? {
        return Err(NoIdentity);
      }
      if limit < 1 || limit > MAX_PROTOCOL_BATCH {
        return Err(InvalidArgument);
      }
      var pending := Pending();
      var encoded := EncodeBatch(if |pending| <= limit then pending else pending[..limit]);
      if encoded.Err? {
        return Err(encoded.error);
      }
      r := Ok(PushRequest(1, clientId.value, encoded.value));
    }

    method EncodeBatch(batch: seq<Row>) returns (r: Result<seq<PushMutation>, Error>)
      ensures r == match Problem(batch) case Some(e) => Err(e) case None => Ok(Wire(batch))
    {
      var protocolMutations: seq<PushMutation> := [];
      var priorId: Option<nat> := None;
      for i := 0 to |batch|
        invariant Problem(batch[..i]) == None && protocolMutations == Wire(batch[..i])
        invariant priorId == if i == 0 then None else Some(batch[i - 1].id)
      {
        assert batch[..i + 1][..i] == batch[..i];
        var row := batch[i];
        if priorId.Some? && row.id != priorId.value + 1 {
          ProblemGrows(batch, i + 1);
          return Err(NotContiguous);
        }
        priorId := Some(row.id);
        if row.intent.Upsert? && !row.intent.payload.JsonObject? {
          ProblemGrows(batch, i + 1);
          return Err(BadPayload);
        }
        protocolMutations := protocolMutations + [PushMutation(row.id, row.intent)];
      }
      assert batch[..|batch|] == batch;
      r := Ok(protocolMutations);
    }

    /** Accepted only for the exact batch that would be sent now; then exactly that batch leaves the
        retry set, and otherwise nothing changes. */
    method AcknowledgePush(request: PushRequest, response: PushResponse) returns (r: Result<nat, Error>)
      requires Valid()
      modifies this
      ensures Valid()
      ensures match Acknowledge(Limits(), old(Contents()), request, response)
              case Ok((q, count)) => r == Ok(count) && Contents() == q
              case Err(e) => r == Err(e) && Contents() == old(Contents())
      ensures r.Ok? ==> r.value <= |old(PendingRows(mutations))| && PendingRows(mutations) == old(PendingRows(mutations))[r.value..]
      ensures r.Ok? <==>
                && BuildRequest(Limits(), old(Contents()), |request.mutations|) == Ok(request)
                && request.protocolVersion == 1 && request.mutations != []
                && response.protocolVersion == 1 && response.clientId == request.clientId
                && response.lastMutationId == Some(request.mutations[|request.mutations| - 1].id)
                && response.checkpoint.Some? && IsCanonical(response.checkpoint.value)
                && |response.results| == |request.mutations|
                && forall i :: 0 <= i < |request.mutations| ==>
                     var result := response.results[i];
                     && result.id == Some(request.mutations[i].id)
                     && (result.status == Applied || result.status == Duplicate || result.status == Rejected)
                     && (result.checkpoint.None? || IsCanonical(result.checkpoint.value))
                     && (result.revision.None? || (IsCanonical(result.revision.value) && result.revision.value != "0"))
                     && (result.originalStatus.None? || result.originalStatus.value == Applied || result.originalStatus.value == Rejected)
                     && (result.status == Duplicate <==> result.originalStatus.Some?)
      ensures r.Ok? ==>
                && r.value == |request.mutations| == |response.results| && response.checkpoint == Some(checkpoint)
                && nextMutationId == old(nextMutationId) && |mutations| == |old(mutations)|
                && forall i :: 0 <= i < |mutations| ==> RowAfter(old(mutations)[i], mutations[i], request, response)
    {
      AcknowledgedExactly(Limits(), Contents(), request, response);
      var valid := ValidatePushResponse(request, response);
      if !valid {
        return Err(Mismatch);
      }
      var expected := BuildPushRequest(|request.mutations|);
      if expected.Err? {
        return Err(expected.error);
      }
      if expected.value != request {
        return Err(Mismatch);
      }
      AcknowledgeKeeps(Limits(), Contents(), request, response);
      AcknowledgeSettlesBatch(Limits(), Contents(), request, response);
      AcknowledgedRows(Limits(), Contents(), request, response);
      ghost var q := Acknowledge(Limits(), Contents(), request, response).value.0;
      var statusById := IndexStatuses(response.results);
      MarkRows(statusById);
      checkpoint := response.checkpoint.value;
      assert Contents() == q;
      r := Ok(|statusById|);
    }

    method IndexStatuses(results: seq<PushResult>) returns (statusById: map<nat, Status>)
      ensures statusById == StatusById(results)
    {
      statusById := map[];
      for i := 0 to |results|
        invariant statusById == StatusById(results[..i])
      {
        assert results[..i + 1][..i] == results[..i];
        if results[i].id.Some? {
          statusById := statusById[results[i].id.value := results[i].status];
        }
      }
      assert results[..|results|] == results;
    }

    method MarkRows(statusById: map<nat, Status>)
      modifies this`mutations
      ensures mutations == Settle(old(mutations), statusById)
    {
      for i := 0 to |mutations|
        invariant |mutations| == |old(mutations)|
        invariant forall j :: 0 <= j < |mutations| ==>
                    mutations[j] == if j < i then Settle(old(mutations), statusById)[j] else old(mutations)[j]
      {
        var id := mutations[i].id;
        if id in statusById {
          mutations := mutations[i := mutations[i].(status := statusById[id])];
        }
      }
    }

    method ValidatePushResponse(request: PushRequest, response: PushResponse) returns (ok: bool)
      ensures ok <==> ResponseOk(request, response)
      ensures ok <==>
                && request.protocolVersion == 1 && request.mutations != []
                && response.protocolVersion == 1 && response.clientId == request.clientId
                && response.lastMutationId == Some(request.mutations[|request.mutations| - 1].id)
                && response.checkpoint.Some? && IsCanonical(response.checkpoint.value)
                && |response.results| == |request.mutations|
                && forall i :: 0 <= i < |request.mutations| ==>
                     var result := response.results[i];
                     && result.id == Some(request.mutations[i].id)
                     && (result.status == Applied || result.status == Duplicate || result.status == Rejected)
                     && (result.checkpoint.None? || IsCanonical(result.checkpoint.value))
                     && (result.revision.None? || (IsCanonical(result.revision.value) && result.revision.value != "0"))
                     && (result.originalStatus.None? || result.originalStatus.value == Applied || result.originalStatus.value == Rejected)
                     && (result.status == Duplicate <==> result.originalStatus.Some?)
    {
      if request.protocolVersion != 1 || request.mutations == []
         || response.protocolVersion != 1 || response.clientId != request.clientId
         || response.checkpoint.None? || !IsCanonical(response.checkpoint.value)
         || |response.results| != |request.mutations|
         || response.lastMutationId != Some(request.mutations[|request.mutations| - 1].id) {
        return false;
      }
      for i := 0 to |request.mutations|
        invariant forall j :: 0 <= j < i ==> ResultOk(request.mutations[j], response.results[j])
      {
        if !ResultOk(request.mutations[i], response.results[i]) {
          return false;
        }
      }
      ok := true;
    }

    method ExportQueue() returns (r: Result<Snapshot, Error>)
      ensures r == Export(Limits(), Contents())
      ensures r == if clientId.Some? then Ok(Snapshot(1, clientId.value, Contents())) else Err(NoIdentity)
    {
      if clientId.None? {
        return Err(NoIdentity);
      }
      r := Ok(Snapshot(1, clientId.value, Contents()));
    }

    /** Fields change only after every check has passed. */
    method RestoreQueue(snapshot: Snapshot) returns (r: Result<(), Error>)
      modifies this
      ensures match Restore(Limits(), snapshot)
              case Ok(q) => r == Ok(()) && Contents() == q
              case Err(e) => r == Err(e) && Contents() == old(Contents())
      ensures r.Ok? ==> Contents() == snapshot.queue
      ensures var rows := snapshot.queue.rows;
              r.Ok? <==>
                && clientId == Some(snapshot.clientId) && snapshot.schemaVersion == 1 && IsCanonical(snapshot.queue.checkpoint)
                && snapshot.queue.nextId == |rows| + 1 <= 0x7fff_ffff_ffff_ffff && |PendingRows(rows)| <= maxPendingMutations
                && forall i :: 0 <= i < |rows| ==>
                     && rows[i].id == i + 1 && !rows[i].status.Unknown? && rows[i].intent.table != "" && rows[i].intent.recordId != ""
                     && (rows[i].intent.baseRevision.None? || IsCanonical(rows[i].intent.baseRevision.value))
                     && (rows[i].intent.Upsert? ==>
                           rows[i].intent.payload.JsonObject? && |rows[i].intent.payload.text| <= maxPayloadBytes)
    {
      if clientId.None? {
        return Err(NoIdentity);
      }
      var rows, nextId := snapshot.queue.rows, snapshot.queue.nextId;
      if snapshot.schemaVersion != 1 || snapshot.clientId != clientId.value
         || nextId < 1 || nextId > PHP_INT_MAX || !IsCanonical(snapshot.queue.checkpoint) {
        return Err(InvalidArgument);
      }
      var priorId, pendingCount := 0, 0;
      for i := 0 to |rows|
        invariant priorId == i && pendingCount == |PendingRows(rows[..i])|
        invariant forall j :: 0 <= j < i ==> RowRestorable(Limits(), rows[j], j)
      {
        assert rows[..i + 1][..i] == rows[..i];
        if !RowRestorable(Limits(), rows[i], priorId) {
          return Err(InvalidArgument);
        }
        if rows[i].status.Pending? {
          pendingCount := pendingCount + 1;
        }
        priorId := rows[i].id;
      }
      assert rows[..|rows|] == rows;
      if pendingCount > maxPendingMutations {
        return Err(InvalidArgument);
      }
      if nextId != priorId + 1 {
        return Err(InvalidArgument);
      }
      mutations, nextMutationId, checkpoint := rows, nextId, snapshot.queue.checkpoint;
      r := Ok(());
    }
  }

  /** The first problem of a batch is the problem of the whole batch. */
  lemma {:induction false} ProblemGrows(batch: seq<Row>, i: nat)
    requires i <= |batch| && Problem(batch[..i]).Some?
    ensures Problem(batch) == Problem(batch[..i])
    decreases |batch|
  {
    if i == |batch| {
      assert batch[..i] == batch;
    } else {
      var init := batch[..|batch| - 1];
      assert init[..i] == batch[..i];
      ProblemGrows(init, i);
    }
  }
}
