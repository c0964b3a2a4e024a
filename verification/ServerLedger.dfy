/** Which pushes the server takes, what it records and answers, and what each step does to a client. */
module ServerLedger {
  import opened Wrappers
  import opened Decimal
  import opened PushQueue
  import opened ExactlyOnce

  /** The highest id known after these mutations. */
  function Watermark(w: nat, ms: seq<PushMutation>): nat {
    if ms == [] then w
    else
      var before, id := Watermark(w, ms[..|ms| - 1]), ms[|ms| - 1].id;
      if id > before then id else before
  }

  predicate New(ledger: seq<Entry>, ms: seq<PushMutation>, i: nat)
    requires i < |ms|
  {
    ms[i].id > Watermark(|ledger|, ms[..i])
  }

  /** No gap, and no content other than the one recorded or named earlier under the same id. */
  predicate Fits(ledger: seq<Entry>, ms: seq<PushMutation>, i: nat)
    requires i < |ms|
  {
    && 1 <= ms[i].id <= Watermark(|ledger|, ms[..i]) + 1
    && (ms[i].id <= |ledger| ==> ledger[ms[i].id - 1].intent == ms[i].intent)
    && forall j :: 0 <= j < i && ms[j].id == ms[i].id ==> ms[j].intent == ms[i].intent
  }

  /** One effect for each new mutation that the server accepts, in request order. */
  function NewEffects(c: string, w: nat, ms: seq<PushMutation>, decide: nat -> Decision): seq<Effect> {
    if ms == [] then []
    else
      var n := |ms| - 1;
      var m := ms[n];
      NewEffects(c, w, ms[..n], decide)
      + if m.id > Watermark(w, ms[..n]) && decide(n).accept then [Effect(c, m.id, m.intent)] else []
  }

  /** Mutation `i` is recorded with its content, a new one with the decision on it, and answered truthfully. */
  predicate Answered(ledger: seq<Entry>, ms: seq<PushMutation>, decide: nat -> Decision, d: Served, i: nat)
    requires i < |ms| == |d.results|
  {
    var m, result := ms[i], d.results[i];
    && 1 <= m.id <= |d.ledger| && d.ledger[m.id - 1].intent == m.intent
    && result.id == Some(m.id) && result.checkpoint == decide(i).checkpoint && result.revision == decide(i).revision
    && var verdict := if d.ledger[m.id - 1].applied then Applied else Rejected;
       if New(ledger, ms, i) then
         d.ledger[m.id - 1].applied == decide(i).accept && result.status == verdict && result.originalStatus == None
       else result.status == Duplicate && result.originalStatus == Some(verdict)
  }

  predicate Named(ms: seq<PushMutation>, id: nat, intent: Intent) {
    exists i :: 0 <= i < |ms| && ms[i].id == id && ms[i].intent == intent
  }

  /** Every new entry of the ledger comes from a mutation of the push. */
  predicate Recorded(ledger: seq<Entry>, ms: seq<PushMutation>, d: Served) {
    forall k :: |ledger| <= k < |d.ledger| ==> Named(ms, k + 1, d.ledger[k].intent)
  }

  lemma NamedPush(ms: seq<PushMutation>, m: PushMutation, id: nat, intent: Intent)
    ensures Named(ms + [m], id, intent) <==> Named(ms, id, intent) || (m.id == id && m.intent == intent)
  {
    if Named(ms, id, intent) {
      var i :| 0 <= i < |ms| && ms[i].id == id && ms[i].intent == intent;
      assert (ms + [m])[i] == ms[i];
    }
    assert (ms + [m])[|ms|] == m;
  }

  ghost predicate ServedExactly(c: string, ledger: seq<Entry>, ms: seq<PushMutation>, decide: nat -> Decision, d: Served) {
    && ledger <= d.ledger && |d.ledger| == Watermark(|ledger|, ms) && Recorded(ledger, ms, d)
    && |d.results| == |ms| && (forall i :: 0 <= i < |ms| ==> Answered(ledger, ms, decide, d, i))
    && d.effects == NewEffects(c, |ledger|, ms, decide)
  }

  lemma FitsPrefix(ledger: seq<Entry>, ms: seq<PushMutation>, n: nat)
    requires n <= |ms|
    ensures forall i :: 0 <= i < n ==> (Fits(ledger, ms[..n], i) <==> Fits(ledger, ms, i))
    ensures forall i :: 0 <= i < n ==> (New(ledger, ms[..n], i) <==> New(ledger, ms, i))
  {
    assert forall i :: 0 <= i <= n ==> ms[..n][..i] == ms[..i];
  }

  lemma AnsweredStays(ledger: seq<Entry>, ms: seq<PushMutation>, decide: nat -> Decision, d: Served, m: Served, i: nat)
    requires i < |ms| - 1 == |d.results| && |m.results| == |ms| && d.ledger <= m.ledger && d.results <= m.results
    requires Answered(ledger, ms[..|ms| - 1], decide, d, i)
    ensures Answered(ledger, ms, decide, m, i)
  {
    FitsPrefix(ledger, ms, |ms| - 1);
  }

  /** One more mutation: served exactly if it fits. */
  lemma OneMore(c: string, ledger: seq<Entry>, ms: seq<PushMutation>, decide: nat -> Decision, d: Served)
    requires ms != [] && ServedExactly(c, ledger, ms[..|ms| - 1], decide, d)
    ensures var n := |ms| - 1; ServeOne(c, d, ms[n], decide(n)).Some? <==> Fits(ledger, ms, n)
  {
    var n := |ms| - 1;
    var before, m := ms[..n], ms[n];
    if 1 <= m.id <= |d.ledger| {
      if m.id > |ledger| {
        var k := m.id - 1;
        assert Named(before, k + 1, d.ledger[k].intent);
        var i :| 0 <= i < |before| && before[i].id == m.id && before[i].intent == d.ledger[k].intent;
        assert ms[i] == before[i];
      }
      forall j | 0 <= j < n && ms[j].id == m.id
        ensures ms[j].intent == d.ledger[m.id - 1].intent
      {
        assert Answered(ledger, before, decide, d, j) && before[j] == ms[j];
      }
    } else if m.id == |d.ledger| + 1 {
      forall j | 0 <= j < n
        ensures ms[j].id <= |d.ledger|
      {
        assert Answered(ledger, before, decide, d, j) && before[j] == ms[j];
      }
    }
  }

  lemma OneMoreServed(c: string, ledger: seq<Entry>, ms: seq<PushMutation>, decide: nat -> Decision, d: Served)
    requires ms != [] && ServedExactly(c, ledger, ms[..|ms| - 1], decide, d)
    requires ServeOne(c, d, ms[|ms| - 1], decide(|ms| - 1)).Some?
    ensures ServedExactly(c, ledger, ms, decide, ServeOne(c, d, ms[|ms| - 1], decide(|ms| - 1)).value)
  {
    var n := |ms| - 1;
    var m := ServeOne(c, d, ms[n], decide(n)).value;
    forall i | 0 <= i < |ms|
      ensures Answered(ledger, ms, decide, m, i)
    {
      if i < n {
        AnsweredStays(ledger, ms, decide, d, m, i);
      }
    }
    forall k | |ledger| <= k < |m.ledger|
      ensures Named(ms, k + 1, m.ledger[k].intent)
    {
      assert ms == ms[..n] + [ms[n]];
      NamedPush(ms[..n], ms[n], k + 1, m.ledger[k].intent);
    }
  }

  /** A push is taken, whole, if and only if each of its mutations fits; and then exactly so. */
  lemma {:induction false} ServeExactly(c: string, ledger: seq<Entry>, ms: seq<PushMutation>, decide: nat -> Decision)
    ensures Serve(c, ledger, ms, decide).Some? <==> forall i :: 0 <= i < |ms| ==> Fits(ledger, ms, i)
    ensures Serve(c, ledger, ms, decide).Some? ==> ServedExactly(c, ledger, ms, decide, Serve(c, ledger, ms, decide).value)
  {
    if ms != [] {
      var n := |ms| - 1;
      ServeExactly(c, ledger, ms[..n], decide);
      FitsPrefix(ledger, ms, n);
      if Serve(c, ledger, ms[..n], decide).Some? {
        var d := Serve(c, ledger, ms[..n], decide).value;
        OneMore(c, ledger, ms, decide, d);
        if ServeOne(c, d, ms[n], decide(n)).Some? {
          OneMoreServed(c, ledger, ms, decide, d);
        }
      }
    }
  }

  // ----- what one step does to a client -----

  /** A client takes a mutation that is well formed and for which it has room. */
  predicate Takes(n: Node, intent: Intent) {
    && intent.table != "" && intent.recordId != "" && (intent.baseRevision.None? || IsCanonical(intent.baseRevision.value))
    && (intent.Upsert? ==> intent.payload.JsonObject? && |intent.payload.text| <= n.limits.maxPayloadBytes)
    && |PendingRows(n.queue.rows)| < n.limits.maxPending && n.queue.nextId != 0x7fff_ffff_ffff_ffff
  }

  predicate Settles(s: Sys, n: Node, request: PushRequest, response: PushResponse) {
    response in s.responses && Acknowledge(n.limits, n.queue, request, response).Ok?
  }

  /** The client's queue after a step: a crash brings back the last export, whole. */
  function QueueAfter(s: Sys, step: Step, c: string): Queue
    requires c in s.nodes
  {
    var n := s.nodes[c];
    match step
    case EnqueueAt(x, intent) =>
      if x == c && Takes(n, intent)
      then Queue(n.queue.rows + [Row(n.queue.nextId, Pending, intent)], n.queue.nextId + 1, n.queue.checkpoint) else n.queue
    case AcknowledgeAt(x, request, response) =>
      if x == c && Settles(s, n, request, response) then Acknowledge(n.limits, n.queue, request, response).value.0 else n.queue
    case CrashAt(x) => if x == c then n.durable else n.queue
    case _ => n.queue
  }

  predicate ClientFollows(s: Sys, step: Step, c: string, n: Sys)
    requires c in s.nodes
  {
    && c in n.nodes && n.nodes[c].limits == s.nodes[c].limits && n.nodes[c].queue == QueueAfter(s, step, c)
    && n.nodes[c].durable == if step == PersistAt(c) then s.nodes[c].queue else s.nodes[c].durable
  }

  lemma EnqueueMoves(s: Sys, x: string, intent: Intent, c: string)
    requires c in s.nodes && LocalOk(c, s.nodes[c])
    ensures ClientFollows(s, EnqueueAt(x, intent), c, Next(s, EnqueueAt(x, intent)))
  {
    EnqueuedExactly(s.nodes[c].limits, s.nodes[c].queue, intent);
  }

  lemma CrashMoves(s: Sys, x: string, c: string)
    requires c in s.nodes && LocalOk(c, s.nodes[c])
    ensures ClientFollows(s, CrashAt(x), c, Next(s, CrashAt(x)))
  {
    RestoreOfExport(s.nodes[c].limits, s.nodes[c].durable);
  }

  lemma OtherMoves(s: Sys, step: Step, c: string)
    requires c in s.nodes && (step.SendFrom? || step.Deliver? || step.AcknowledgeAt? || step.PersistAt?)
    ensures ClientFollows(s, step, c, Next(s, step))
  {}

  lemma ClientStep(s: Sys, step: Step, c: string)
    requires Inv(s) && c in s.nodes
    ensures ClientFollows(s, step, c, Next(s, step))
  {
    assert LocalOk(c, s.nodes[c]);
    match step
    case EnqueueAt(x, intent) => EnqueueMoves(s, x, intent, c);
    case CrashAt(x) => CrashMoves(s, x, c);
    case _ => OtherMoves(s, step, c);
  }

  lemma {:induction false} NodesStay(s: Sys, steps: seq<Step>, c: string)
    requires Initial(s) && c in s.nodes
    ensures c in After(s, steps).nodes
  {
    if steps != [] {
      NodesStay(s, steps[..|steps| - 1], c);
      InvAlways(s, steps[..|steps| - 1]);
      ClientStep(After(s, steps[..|steps| - 1]), steps[|steps| - 1], c);
    }
  }

  /** In every run the client's queue moves like that: only its own enqueue, its own accepted acknowledgement of a
      response that the server gave, and a crash touch it; only an export changes what a crash brings back. */
  lemma ClientExactly(s: Sys, steps: seq<Step>, i: nat, c: string)
    requires Initial(s) && c in s.nodes && i < |steps|
    ensures c in After(s, steps[..i]).nodes && ClientFollows(After(s, steps[..i]), steps[i], c, After(s, steps[..i + 1]))
  {
    NodesStay(s, steps[..i], c);
    InvAlways(s, steps[..i]);
    assert steps[..i + 1][..i] == steps[..i];
    ClientStep(After(s, steps[..i]), steps[i], c);
  }

  /** A request goes out exactly if it is the current batch and its last mutation has been exported. */
  lemma SentExactly(s: Sys, step: Step, r: PushRequest)
    requires r !in s.requests
    ensures r in Next(s, step).requests <==>
            && step.SendFrom? && step.c in s.nodes
            && BuildRequest(s.nodes[step.c].limits, s.nodes[step.c].queue, step.limit) == Ok(r)
            && (r.mutations == [] || r.mutations[|r.mutations| - 1].id <= |s.nodes[step.c].durable.rows|)
  {}

  /** Delivering a request commits it and answers it exactly if every mutation of it fits; else nothing changes. */
  lemma DeliveredExactly(s: Sys, r: PushRequest, decide: nat -> Decision, last: Option<nat>, checkpoint: Option<string>)
    requires r in s.requests
    ensures var n, ledger := Next(s, Deliver(r, decide, last, checkpoint)), LedgerOf(s, r.clientId);
            if forall i :: 0 <= i < |r.mutations| ==> Fits(ledger, r.mutations, i) then
              && (exists d :: ServedExactly(r.clientId, ledger, r.mutations, decide, d)
                   && n == s.(ledgers := s.ledgers[r.clientId := d.ledger], effects := s.effects + d.effects,
                              responses := s.responses + {PushResponse(1, r.clientId, last, checkpoint, d.results)}))
            else n == s
  {
    ServeExactly(r.clientId, LedgerOf(s, r.clientId), r.mutations, decide);
  }
}
