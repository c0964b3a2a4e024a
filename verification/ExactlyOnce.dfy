/** Queues, a deduplicating server and a network that loses, repeats and reorders everything. */
module ExactlyOnce {
  import opened Wrappers
  import opened Decimal
  import opened PushQueue

  // ----- the server: one ledger per client, one transaction per push -----

  /** Entry `i` is mutation `i + 1`; the watermark is the length. */
  datatype Entry = Entry(intent: Intent, applied: bool)

  datatype Effect = Effect(clientId: string, id: nat, intent: Intent)

  datatype Served = Served(ledger: seq<Entry>, results: seq<PushResult>, effects: seq<Effect>)

  datatype Decision = Decision(accept: bool, checkpoint: Option<string>, revision: Option<string>)

  /** Checkpoints are canonical decimals, revisions positive ones, and both may be absent. */
  ghost predicate WellFormed(decide: nat -> Decision) {
    forall i ::
      && (decide(i).checkpoint.None? || IsCanonical(decide(i).checkpoint.value))
      && (decide(i).revision.None? || (IsCanonical(decide(i).revision.value) && decide(i).revision.value != "0"))
  }

  function Verdict(e: Entry): Status { if e.applied then Applied else Rejected }

  /** In request order, directly after the watermark. A gap, or an id reused for other content, rolls
      the whole push back. `decide` is the server's own permanent decision on each new mutation, and the checkpoint and
      revision that it attaches to each result. */
  function Serve(clientId: string, ledger: seq<Entry>, ms: seq<PushMutation>, decide: nat -> Decision): Option<Served> {
    if ms == [] then Some(Served(ledger, [], []))
    else
      match Serve(clientId, ledger, ms[..|ms| - 1], decide)
      case None => None
      case Some(s) => ServeOne(clientId, s, ms[|ms| - 1], decide(|ms| - 1))
  }

  function ServeOne(clientId: string, s: Served, m: PushMutation, decision: Decision): Option<Served> {
    if 1 <= m.id <= |s.ledger| then
      var e := s.ledger[m.id - 1];
      if e.intent != m.intent then None
      else Some(s.(results := s.results + [PushResult(Some(m.id), Duplicate, Some(Verdict(e)), decision.checkpoint, decision.revision)]))
    else if m.id != |s.ledger| + 1 then None
    else
      var e := Entry(m.intent, decision.accept);
      Some(Served(
        s.ledger + [e],
        s.results + [PushResult(Some(m.id), Verdict(e), None, decision.checkpoint, decision.revision)],
        s.effects + if decision.accept then [Effect(clientId, m.id, m.intent)] else []))
  }

  // ----- the whole system -----

  /** `durable` is the last exported queue. */
  datatype Node = Node(limits: Config, queue: Queue, durable: Queue)

  datatype Sys = Sys(
    nodes: map<string, Node>, ledgers: map<string, seq<Entry>>, effects: seq<Effect>,
    requests: set<PushRequest>, responses: set<PushResponse>)

  /** The host's one duty: what goes out has been exported before. */
  predicate Saved(n: Node, r: PushRequest) {
    r.mutations != [] ==> r.mutations[|r.mutations| - 1].id <= |n.durable.rows|
  }

  /** Anything ever sent may be delivered at any time, again and again, or never. */
  datatype Step =
    | EnqueueAt(c: string, intent: Intent)
    | SendFrom(c: string, limit: int)
    | Deliver(request: PushRequest, decide: nat -> Decision, last: Option<nat>, checkpoint: Option<string>)
    | AcknowledgeAt(c: string, request: PushRequest, response: PushResponse)
    | PersistAt(c: string)
    | CrashAt(c: string)

  function LedgerOf(s: Sys, c: string): seq<Entry> {
    if c in s.ledgers then s.ledgers[c] else []
  }

  function WithQueue(s: Sys, c: string, q: Queue): Sys
    requires c in s.nodes
  {
    s.(nodes := s.nodes[c := s.nodes[c].(queue := q)])
  }

  function Next(s: Sys, step: Step): Sys {
    match step
    case EnqueueAt(c, intent) =>
      if c !in s.nodes then s
      else (match Enqueue(s.nodes[c].limits, s.nodes[c].queue, intent)
            case Err(_) => s
            case Ok((q, _)) => WithQueue(s, c, q))
    case SendFrom(c, limit) =>
      if c !in s.nodes then s
      else (match BuildRequest(s.nodes[c].limits, s.nodes[c].queue, limit)
            case Err(_) => s
            case Ok(r) => if Saved(s.nodes[c], r) then s.(requests := s.requests + {r}) else s)
    case Deliver(r, decide, last, checkpoint) =>
      if r !in s.requests then s
      else (match Serve(r.clientId, LedgerOf(s, r.clientId), r.mutations, decide)
            case None => s
            case Some(d) =>
              s.(ledgers := s.ledgers[r.clientId := d.ledger], effects := s.effects + d.effects,
                 responses := s.responses + {PushResponse(1, r.clientId, last, checkpoint, d.results)}))
    case AcknowledgeAt(c, request, response) =>
      if c !in s.nodes || response !in s.responses then s
      else (match Acknowledge(s.nodes[c].limits, s.nodes[c].queue, request, response)
            case Err(_) => s
            case Ok((q, _)) => WithQueue(s, c, q))
    case PersistAt(c) =>
      if c !in s.nodes then s else s.(nodes := s.nodes[c := s.nodes[c].(durable := s.nodes[c].queue)])
    case CrashAt(c) =>
      if c !in s.nodes then s
      else (match Export(s.nodes[c].limits, s.nodes[c].durable)
            case Err(_) => s
            case Ok(snapshot) =>
              match Restore(s.nodes[c].limits, snapshot)
              case Err(_) => s
              case Ok(q) => WithQueue(s, c, q))
  }

  predicate Initial(s: Sys) {
    && s.ledgers == map[] && s.effects == [] && s.requests == {} && s.responses == {}
    && forall c :: c in s.nodes ==>
         s.nodes[c].limits.clientId == Some(c) && s.nodes[c].limits.maxPending >= 1
         && s.nodes[c].queue == EMPTY && s.nodes[c].durable == EMPTY
  }

  function After(s: Sys, steps: seq<Step>): Sys {
    if steps == [] then s else Next(After(s, steps[..|steps| - 1]), steps[|steps| - 1])
  }

  // ----- invariants, one per part -----

  /** `b` starts with the mutations of `a`, whatever their status. */
  predicate Extends(a: seq<Row>, b: seq<Row>) {
    |a| <= |b| && forall i :: 0 <= i < |a| ==> b[i].intent == a[i].intent
  }

  predicate StatusOk(status: Status, e: Entry) {
    (status.Applied? ==> e.applied) && (status.Rejected? ==> !e.applied)
  }

  /** The ledger records a prefix of what the client exported, id by id. */
  predicate LedgerOk(ledger: seq<Entry>, rows: seq<Row>) {
    |ledger| <= |rows| && forall i :: 0 <= i < |ledger| ==> ledger[i].intent == rows[i].intent
  }

  /** Only what the ledger holds is settled, and with the ledger's verdict. */
  predicate SettledOk(ledger: seq<Entry>, rows: seq<Row>) {
    forall i :: 0 <= i < |rows| && !rows[i].status.Pending? ==> i < |ledger| && StatusOk(rows[i].status, ledger[i])
  }

  /** A contiguous run of enqueued mutations that starts no later than directly after the watermark. */
  predicate RequestOk(ms: seq<PushMutation>, rows: seq<Row>, watermark: nat) {
    ms == []
    || (&& 1 <= ms[0].id <= watermark + 1 && ms[0].id + |ms| <= |rows| + 1
        && forall i :: 0 <= i < |ms| ==> ms[i] == PushMutation(ms[0].id + i, rows[ms[0].id + i - 1].intent))
  }

  predicate ResultsOk(results: seq<PushResult>, ledger: seq<Entry>) {
    forall i :: 0 <= i < |results| ==>
      results[i].id.Some? && 1 <= results[i].id.value <= |ledger| && StatusOk(results[i].status, ledger[results[i].id.value - 1])
  }

  predicate LocalOk(c: string, n: Node) {
    && n.limits.clientId == Some(c)
    && Shape(n.limits, n.queue) && Shape(n.limits, n.durable) && Extends(n.durable.rows, n.queue.rows)
  }

  predicate RecordOk(n: Node, ledger: seq<Entry>) {
    LedgerOk(ledger, n.durable.rows) && SettledOk(ledger, n.queue.rows) && SettledOk(ledger, n.durable.rows)
  }

  function Count(effects: seq<Effect>, c: string, id: nat): nat {
    if effects == [] then 0
    else
      var e := effects[|effects| - 1];
      Count(effects[..|effects| - 1], c, id) + if e.clientId == c && e.id == id then 1 else 0
  }

  /** One effect for each applied entry, none for anything else. */
  ghost predicate EffectsOk(effects: seq<Effect>, c: string, ledger: seq<Entry>) {
    forall id: nat :: Count(effects, c, id) == if 1 <= id <= |ledger| && ledger[id - 1].applied then 1 else 0
  }

  predicate EffectsNamed(s: Sys) {
    forall i :: 0 <= i < |s.effects| ==>
      var e := s.effects[i];
      1 <= e.id <= |LedgerOf(s, e.clientId)| && e.intent == LedgerOf(s, e.clientId)[e.id - 1].intent
  }

  predicate LocalsOk(s: Sys) {
    forall c :: c in s.nodes ==> LocalOk(c, s.nodes[c])
  }

  predicate RecordsOk(s: Sys) {
    && (forall c :: c in s.nodes ==> RecordOk(s.nodes[c], LedgerOf(s, c)))
    && (forall c :: c in s.ledgers ==> c in s.nodes)
  }

  predicate RequestsOk(s: Sys) {
    forall r :: r in s.requests ==>
      r.clientId in s.nodes && RequestOk(r.mutations, s.nodes[r.clientId].durable.rows, |LedgerOf(s, r.clientId)|)
  }

  predicate ResponsesOk(s: Sys) {
    forall r :: r in s.responses ==> ResultsOk(r.results, LedgerOf(s, r.clientId))
  }

  ghost predicate EffectsExact(s: Sys) {
    EffectsNamed(s) && forall c :: EffectsOk(s.effects, c, LedgerOf(s, c))
  }

  ghost predicate Inv(s: Sys) {
    LocalsOk(s) && RecordsOk(s) && RequestsOk(s) && ResponsesOk(s) && EffectsExact(s)
  }

  // ----- the server step -----

  lemma {:induction false} CountAppend(a: seq<Effect>, b: seq<Effect>, c: string, id: nat)
    ensures Count(a + b, c, id) == Count(a, c, id) + Count(b, c, id)
  {
    if b == [] {
      assert a + b == a;
    } else {
      assert (a + b)[..|a + b| - 1] == a + b[..|b| - 1];
      CountAppend(a, b[..|b| - 1], c, id);
    }
  }

  /** Everything the server adds: a longer ledger of the same intents, truthful results, and one
      effect for each newly applied entry. */
  ghost predicate ServedOk(c: string, ledger: seq<Entry>, d: Served, rows: seq<Row>) {
    && ledger <= d.ledger && LedgerOk(d.ledger, rows) && ResultsOk(d.results, d.ledger)
    && NamedBy(d.effects, c, d.ledger) && CountsFrom(d.effects, c, |ledger|, d.ledger)
  }

  predicate NamedBy(effects: seq<Effect>, c: string, ledger: seq<Entry>) {
    forall i :: 0 <= i < |effects| ==>
      effects[i].clientId == c && 1 <= effects[i].id <= |ledger| && effects[i].intent == ledger[effects[i].id - 1].intent
  }

  lemma NamedExtend(effects: seq<Effect>, c: string, a: seq<Entry>, b: seq<Entry>)
    requires NamedBy(effects, c, a) && a <= b
    ensures NamedBy(effects, c, b)
  {}

  /** One effect for each entry recorded after `from` and applied, none for anything else. */
  ghost predicate CountsFrom(effects: seq<Effect>, c: string, from: nat, ledger: seq<Entry>) {
    forall id: nat :: Count(effects, c, id) == if from < id <= |ledger| && ledger[id - 1].applied then 1 else 0
  }

  lemma CountsExtend(effects: seq<Effect>, c: string, from: nat, ledger: seq<Entry>, intent: Intent, accept: bool)
    requires CountsFrom(effects, c, from, ledger) && from <= |ledger|
    ensures CountsFrom(effects + if accept then [Effect(c, |ledger| + 1, intent)] else [], c, from, ledger + [Entry(intent, accept)])
  {
    var added := if accept then [Effect(c, |ledger| + 1, intent)] else [];
    var longer := ledger + [Entry(intent, accept)];
    forall id: nat
      ensures Count(effects + added, c, id) == if from < id <= |longer| && longer[id - 1].applied then 1 else 0
    {
      CountAppend(effects, added, c, id);
      assert added[..0] == [];
      assert Count(added, c, id) == if accept && id == |ledger| + 1 then 1 else 0;
      assert 1 <= id <= |ledger| ==> longer[id - 1] == ledger[id - 1];
    }
  }

  lemma ServeOneNew(c: string, ledger: seq<Entry>, d: Served, m: PushMutation, decision: Decision, rows: seq<Row>)
    requires ServedOk(c, ledger, d, rows)
    requires m.id == |d.ledger| + 1 <= |rows| && m.intent == rows[m.id - 1].intent
    ensures ServeOne(c, d, m, decision).Some?
    ensures var n := ServeOne(c, d, m, decision).value;
            ServedOk(c, ledger, n, rows) && m.id <= |n.ledger| && |n.results| == |d.results| + 1
  {
    var n := ServeOne(c, d, m, decision).value;
    var e := Entry(m.intent, decision.accept);
    assert n.ledger == d.ledger + [e] && n.ledger[m.id - 1] == e;
    assert n.effects == d.effects + if decision.accept then [Effect(c, m.id, m.intent)] else [];
    CountsExtend(d.effects, c, |ledger|, d.ledger, m.intent, decision.accept);
    LedgerGrows(d.ledger, n.ledger, rows, d.results);
    NamedExtend(d.effects, c, d.ledger, n.ledger);
    NewResult(d, n, m, e);
  }

  lemma NewResult(d: Served, n: Served, m: PushMutation, e: Entry)
    requires ResultsOk(d.results, n.ledger) && n.ledger == d.ledger + [e] && m.id == |n.ledger| && e.intent == m.intent
    requires |n.results| == |d.results| + 1 && n.results[..|d.results|] == d.results
    requires n.results[|d.results|].id == Some(m.id) && n.results[|d.results|].status == Verdict(e)
    ensures ResultsOk(n.results, n.ledger)
  {
    forall i | 0 <= i < |n.results|
      ensures n.results[i].id.Some? && 1 <= n.results[i].id.value <= |n.ledger|
      ensures StatusOk(n.results[i].status, n.ledger[n.results[i].id.value - 1])
    {
      assert i < |d.results| ==> n.results[i] == d.results[i];
    }
  }

  lemma ServeOneSound(c: string, ledger: seq<Entry>, d: Served, m: PushMutation, decision: Decision, rows: seq<Row>)
    requires ServedOk(c, ledger, d, rows)
    requires 1 <= m.id <= |rows| && m.id <= |d.ledger| + 1 && m.intent == rows[m.id - 1].intent
    ensures ServeOne(c, d, m, decision).Some?
    ensures var n := ServeOne(c, d, m, decision).value;
            ServedOk(c, ledger, n, rows) && m.id <= |n.ledger| && |n.results| == |d.results| + 1
  {
    if m.id == |d.ledger| + 1 {
      ServeOneNew(c, ledger, d, m, decision, rows);
    } else {
      assert d.ledger[m.id - 1].intent == m.intent;
    }
  }

  lemma LastOfRequest(ms: seq<PushMutation>, rows: seq<Row>, watermark: nat)
    requires ms != [] && RequestOk(ms, rows, watermark)
    ensures var n := |ms| - 1;
            && RequestOk(ms[..n], rows, watermark) && 1 <= ms[n].id <= |rows| && ms[n].intent == rows[ms[n].id - 1].intent
            && (n == 0 ==> ms[n].id <= watermark + 1) && (n > 0 ==> ms[n].id == ms[n - 1].id + 1)
  {
    var n := |ms| - 1;
    assert n > 0 ==> ms[..n][0] == ms[0];
    assert ms[n] == PushMutation(ms[0].id + n, rows[ms[0].id + n - 1].intent);
    assert n > 0 ==> ms[n - 1] == PushMutation(ms[0].id + (n - 1), rows[ms[0].id + (n - 1) - 1].intent);
  }

  /** A request of the right form is always served: never a gap, never an id reused. */
  lemma {:induction false} ServeSound(c: string, ledger: seq<Entry>, ms: seq<PushMutation>, decide: nat -> Decision, rows: seq<Row>)
    requires LedgerOk(ledger, rows) && RequestOk(ms, rows, |ledger|)
    ensures Serve(c, ledger, ms, decide).Some?
    ensures var d := Serve(c, ledger, ms, decide).value;
            ServedOk(c, ledger, d, rows) && |d.results| == |ms| && (ms != [] ==> ms[|ms| - 1].id <= |d.ledger|)
  {
    if ms != [] {
      var n := |ms| - 1;
      LastOfRequest(ms, rows, |ledger|);
      ServeSound(c, ledger, ms[..n], decide, rows);
      var d := Serve(c, ledger, ms[..n], decide).value;
      ServeOneSound(c, ledger, d, ms[n], decide(n), rows);
    }
  }

  lemma LedgerGrows(a: seq<Entry>, b: seq<Entry>, rows: seq<Row>, results: seq<PushResult>)
    requires a <= b
    ensures SettledOk(a, rows) ==> SettledOk(b, rows)
    ensures ResultsOk(results, a) ==> ResultsOk(results, b)
  {}

  /** The system after the server committed `d` for client `c`. */
  function Committed(s: Sys, c: string, d: Served, response: PushResponse): Sys {
    s.(ledgers := s.ledgers[c := d.ledger], effects := s.effects + d.effects, responses := s.responses + {response})
  }

  lemma CommittedLedger(s: Sys, c: string, d: Served, response: PushResponse, x: string)
    ensures LedgerOf(Committed(s, c, d, response), x) == if x == c then d.ledger else LedgerOf(s, x)
  {}

  lemma CommittedRecords(s: Sys, c: string, d: Served, response: PushResponse)
    requires RecordsOk(s) && c in s.nodes && ServedOk(c, LedgerOf(s, c), d, s.nodes[c].durable.rows)
    ensures RecordsOk(Committed(s, c, d, response))
  {
    var n := Committed(s, c, d, response);
    forall x | x in n.nodes
      ensures RecordOk(n.nodes[x], LedgerOf(n, x))
    {
      CommittedLedger(s, c, d, response, x);
      assert RecordOk(s.nodes[x], LedgerOf(s, x));
      LedgerGrows(LedgerOf(s, c), d.ledger, s.nodes[c].queue.rows, []);
      LedgerGrows(LedgerOf(s, c), d.ledger, s.nodes[c].durable.rows, []);
    }
  }

  lemma CommittedRequests(s: Sys, c: string, d: Served, response: PushResponse)
    requires RequestsOk(s) && LedgerOf(s, c) <= d.ledger
    ensures RequestsOk(Committed(s, c, d, response))
  {
    var n := Committed(s, c, d, response);
    forall q | q in n.requests
      ensures q.clientId in n.nodes && RequestOk(q.mutations, n.nodes[q.clientId].durable.rows, |LedgerOf(n, q.clientId)|)
    {
      CommittedLedger(s, c, d, response, q.clientId);
      assert RequestOk(q.mutations, s.nodes[q.clientId].durable.rows, |LedgerOf(s, q.clientId)|);
    }
  }

  lemma CommittedResponses(s: Sys, c: string, d: Served, response: PushResponse)
    requires ResponsesOk(s) && LedgerOf(s, c) <= d.ledger
    requires response.clientId == c && response.results == d.results && ResultsOk(d.results, d.ledger)
    ensures ResponsesOk(Committed(s, c, d, response))
  {
    var n := Committed(s, c, d, response);
    forall q | q in n.responses
      ensures ResultsOk(q.results, LedgerOf(n, q.clientId))
    {
      CommittedLedger(s, c, d, response, q.clientId);
      if q in s.responses {
        assert ResultsOk(q.results, LedgerOf(s, q.clientId));
        LedgerGrows(LedgerOf(s, c), d.ledger, [], q.results);
      }
    }
  }

  lemma CommittedEffects(s: Sys, c: string, d: Served, response: PushResponse, rows: seq<Row>)
    requires EffectsExact(s) && ServedOk(c, LedgerOf(s, c), d, rows)
    ensures EffectsExact(Committed(s, c, d, response))
  {
    var n := Committed(s, c, d, response);
    forall x
      ensures EffectsOk(n.effects, x, LedgerOf(n, x))
    {
      CommittedLedger(s, c, d, response, x);
      assert EffectsOk(s.effects, x, LedgerOf(s, x));
      forall id: nat
        ensures Count(n.effects, x, id) == if 1 <= id <= |LedgerOf(n, x)| && LedgerOf(n, x)[id - 1].applied then 1 else 0
      {
        CountAppend(s.effects, d.effects, x, id);
        if x != c {
          NoneElsewhere(d.effects, c, x, id);
        }
      }
    }
    forall i | 0 <= i < |n.effects|
      ensures 1 <= n.effects[i].id <= |LedgerOf(n, n.effects[i].clientId)|
      ensures n.effects[i].intent == LedgerOf(n, n.effects[i].clientId)[n.effects[i].id - 1].intent
    {
      CommittedLedger(s, c, d, response, n.effects[i].clientId);
      if i < |s.effects| {
        assert n.effects[i] == s.effects[i];
      } else {
        assert n.effects[i] == d.effects[i - |s.effects|];
      }
    }
  }

  lemma DeliverServes(s: Sys, r: PushRequest, decide: nat -> Decision)
    requires RecordsOk(s) && RequestsOk(s) && r in s.requests
    ensures r.clientId in s.nodes && Serve(r.clientId, LedgerOf(s, r.clientId), r.mutations, decide).Some?
    ensures ServedOk(r.clientId, LedgerOf(s, r.clientId),
                     Serve(r.clientId, LedgerOf(s, r.clientId), r.mutations, decide).value, s.nodes[r.clientId].durable.rows)
  {
    assert RecordOk(s.nodes[r.clientId], LedgerOf(s, r.clientId));
    ServeSound(r.clientId, LedgerOf(s, r.clientId), r.mutations, decide, s.nodes[r.clientId].durable.rows);
  }

  lemma DeliverStep(s: Sys, r: PushRequest, decide: nat -> Decision, last: Option<nat>, checkpoint: Option<string>)
    requires Inv(s)
    ensures Inv(Next(s, Deliver(r, decide, last, checkpoint)))
  {
    if r in s.requests {
      var c := r.clientId;
      DeliverServes(s, r, decide);
      var d := Serve(c, LedgerOf(s, c), r.mutations, decide).value;
      var response := PushResponse(1, c, last, checkpoint, d.results);
      CommittedRecords(s, c, d, response);
      CommittedRequests(s, c, d, response);
      CommittedResponses(s, c, d, response);
      CommittedEffects(s, c, d, response, s.nodes[c].durable.rows);
    }
  }

  lemma {:induction false} NoneElsewhere(effects: seq<Effect>, c: string, x: string, id: nat)
    requires c != x && forall i :: 0 <= i < |effects| ==> effects[i].clientId == c
    ensures Count(effects, x, id) == 0
  {
    if effects != [] {
      NoneElsewhere(effects[..|effects| - 1], c, x, id);
    }
  }

  // ----- the client steps -----

  function Replaced(s: Sys, c: string, node: Node): Sys {
    s.(nodes := s.nodes[c := node])
  }

  lemma ReplacedRequests(s: Sys, c: string, node: Node)
    requires RequestsOk(s) && c in s.nodes
    requires Extends(s.nodes[c].durable.rows, node.durable.rows)
    ensures RequestsOk(Replaced(s, c, node))
  {
    var n := Replaced(s, c, node);
    forall r | r in n.requests
      ensures r.clientId in n.nodes && RequestOk(r.mutations, n.nodes[r.clientId].durable.rows, |LedgerOf(n, r.clientId)|)
    {
      assert RequestOk(r.mutations, s.nodes[r.clientId].durable.rows, |LedgerOf(s, r.clientId)|);
    }
  }

  lemma ReplacedRecords(s: Sys, c: string, node: Node)
    requires RecordsOk(s) && c in s.nodes && RecordOk(node, LedgerOf(s, c))
    ensures RecordsOk(Replaced(s, c, node))
  {
    var n := Replaced(s, c, node);
    forall x | x in n.nodes
      ensures RecordOk(n.nodes[x], LedgerOf(n, x))
    {
      assert LedgerOf(n, x) == LedgerOf(s, x);
      assert x != c ==> RecordOk(s.nodes[x], LedgerOf(s, x));
    }
  }

  lemma ReplacedServer(s: Sys, c: string, node: Node)
    ensures ResponsesOk(s) ==> ResponsesOk(Replaced(s, c, node))
    ensures EffectsExact(s) ==> EffectsExact(Replaced(s, c, node))
  {
    assert forall x :: LedgerOf(Replaced(s, c, node), x) == LedgerOf(s, x);
  }

  /** Replacing an export by one with the same or more intents leaves requests and effects alone. */
  lemma QueueReplaced(s: Sys, c: string, node: Node)
    requires Inv(s) && c in s.nodes && LocalOk(c, node) && RecordOk(node, LedgerOf(s, c))
    requires Extends(s.nodes[c].durable.rows, node.durable.rows)
    ensures Inv(Replaced(s, c, node))
  {
    ReplacedRequests(s, c, node);
    ReplacedRecords(s, c, node);
    ReplacedServer(s, c, node);
    assert forall x :: x in s.nodes ==> LocalOk(x, s.nodes[x]);
  }

  lemma EnqueuedRecord(c: string, node: Node, intent: Intent, ledger: seq<Entry>)
    requires LocalOk(c, node) && RecordOk(node, ledger) && Enqueue(node.limits, node.queue, intent).Ok?
    ensures var n := node.(queue := Enqueue(node.limits, node.queue, intent).value.0);
            LocalOk(c, n) && RecordOk(n, ledger)
  {
    EnqueueKeeps(node.limits, node.queue, intent);
    EnqueueExtends(node.limits, node.queue, intent);
  }

  lemma EnqueueStep(s: Sys, c: string, intent: Intent)
    requires Inv(s)
    ensures Inv(Next(s, EnqueueAt(c, intent)))
  {
    if c in s.nodes && Enqueue(s.nodes[c].limits, s.nodes[c].queue, intent).Ok? {
      var node := s.nodes[c];
      assert LocalOk(c, node) && RecordOk(node, LedgerOf(s, c));
      EnqueuedRecord(c, node, intent, LedgerOf(s, c));
      QueueReplaced(s, c, node.(queue := Enqueue(node.limits, node.queue, intent).value.0));
    }
  }

  lemma BuiltFits(c: string, node: Node, limit: int, ledger: seq<Entry>)
    requires LocalOk(c, node) && RecordOk(node, ledger) && BuildRequest(node.limits, node.queue, limit).Ok?
    ensures var r := BuildRequest(node.limits, node.queue, limit).value;
            r.clientId == c && RequestOk(r.mutations, node.queue.rows, |ledger|)
  {
    BuildSucceeds(node.limits, node.queue, limit);
    Numbered(node.limits, node.queue.rows);
    NextRowsFit(node.queue.rows, limit, ledger);
  }

  lemma SentFits(c: string, node: Node, limit: int, ledger: seq<Entry>)
    requires LocalOk(c, node) && RecordOk(node, ledger) && BuildRequest(node.limits, node.queue, limit).Ok?
    requires Saved(node, BuildRequest(node.limits, node.queue, limit).value)
    ensures var r := BuildRequest(node.limits, node.queue, limit).value;
            r.clientId == c && RequestOk(r.mutations, node.durable.rows, |ledger|)
  {
    BuiltFits(c, node, limit, ledger);
    SavedFits(BuildRequest(node.limits, node.queue, limit).value.mutations, node.durable.rows, node.queue.rows, |ledger|);
  }

  lemma SavedFits(ms: seq<PushMutation>, durable: seq<Row>, rows: seq<Row>, watermark: nat)
    requires RequestOk(ms, rows, watermark) && Extends(durable, rows)
    requires ms != [] ==> ms[|ms| - 1].id <= |durable|
    ensures RequestOk(ms, durable, watermark)
  {
    if ms != [] {
      var n := |ms| - 1;
      assert ms[n] == PushMutation(ms[0].id + n, rows[ms[0].id + n - 1].intent);
    }
  }

  lemma RequestAdded(s: Sys, r: PushRequest)
    requires Inv(s) && r.clientId in s.nodes
    requires RequestOk(r.mutations, s.nodes[r.clientId].durable.rows, |LedgerOf(s, r.clientId)|)
    ensures Inv(Sent(s, r))
  {
    SentClients(s, r);
    SentServer(s, r);
  }

  function Sent(s: Sys, r: PushRequest): Sys {
    s.(requests := s.requests + {r})
  }

  lemma SentClients(s: Sys, r: PushRequest)
    requires LocalsOk(s) && RecordsOk(s)
    ensures LocalsOk(Sent(s, r)) && RecordsOk(Sent(s, r))
  {
    var n := Sent(s, r);
    forall c | c in n.nodes
      ensures LocalOk(c, n.nodes[c]) && RecordOk(n.nodes[c], LedgerOf(n, c))
    {
      assert LocalOk(c, s.nodes[c]) && RecordOk(s.nodes[c], LedgerOf(s, c));
    }
  }

  lemma SentServer(s: Sys, r: PushRequest)
    requires RequestsOk(s) && ResponsesOk(s) && EffectsExact(s) && r.clientId in s.nodes
    requires RequestOk(r.mutations, s.nodes[r.clientId].durable.rows, |LedgerOf(s, r.clientId)|)
    ensures RequestsOk(Sent(s, r)) && ResponsesOk(Sent(s, r)) && EffectsExact(Sent(s, r))
  {
    var n := Sent(s, r);
    assert forall x :: LedgerOf(n, x) == LedgerOf(s, x);
    forall q | q in n.requests
      ensures q.clientId in n.nodes && RequestOk(q.mutations, n.nodes[q.clientId].durable.rows, |LedgerOf(n, q.clientId)|)
    {
      assert q in s.requests ==> RequestOk(q.mutations, s.nodes[q.clientId].durable.rows, |LedgerOf(s, q.clientId)|);
    }
  }

  lemma SendStep(s: Sys, c: string, limit: int)
    requires Inv(s)
    ensures Inv(Next(s, SendFrom(c, limit)))
  {
    if c in s.nodes && BuildRequest(s.nodes[c].limits, s.nodes[c].queue, limit).Ok?
       && Saved(s.nodes[c], BuildRequest(s.nodes[c].limits, s.nodes[c].queue, limit).value) {
      assert LocalOk(c, s.nodes[c]) && RecordOk(s.nodes[c], LedgerOf(s, c));
      SentFits(c, s.nodes[c], limit, LedgerOf(s, c));
      RequestAdded(s, BuildRequest(s.nodes[c].limits, s.nodes[c].queue, limit).value);
    }
  }

  lemma NextRowsFit(rows: seq<Row>, limit: nat, ledger: seq<Entry>)
    requires NumberedRows(rows) && SettledOk(ledger, rows)
    ensures RequestOk(Wire(NextRows(rows, limit)), rows, |ledger|)
  {
    var ms, k := Wire(NextRows(rows, limit)), Settled(rows);
    SettledWithin(rows, ledger);
    if ms != [] {
      NextRowsAt(rows, limit, 0);
      NextRowsAt(rows, limit, |ms| - 1);
      assert ms[0].id == k + 1;
      forall i | 0 <= i < |ms|
        ensures ms[i] == PushMutation(ms[0].id + i, rows[ms[0].id + i - 1].intent)
      {
        NextRowsAt(rows, limit, i);
        assert ms[0].id + i - 1 == k + i;
      }
    }
  }

  lemma SettledWithin(rows: seq<Row>, ledger: seq<Entry>)
    requires SettledOk(ledger, rows)
    ensures Settled(rows) <= |ledger|
  {
    var k := Settled(rows);
    assert k > 0 ==> !rows[k - 1].status.Pending?;
  }

  lemma ExtendsTransitive(a: seq<Row>, b: seq<Row>, c: seq<Row>)
    requires Extends(a, b) && Extends(b, c)
    ensures Extends(a, c)
  {}

  lemma AcknowledgedRecord(c: string, node: Node, request: PushRequest, response: PushResponse, ledger: seq<Entry>)
    requires LocalOk(c, node) && RecordOk(node, ledger) && Acknowledge(node.limits, node.queue, request, response).Ok?
    requires ResultsOk(response.results, ledger)
    ensures var n := node.(queue := Acknowledge(node.limits, node.queue, request, response).value.0);
            LocalOk(c, n) && RecordOk(n, ledger)
  {
    var rows := node.queue.rows;
    AcknowledgeSettlesBatch(node.limits, node.queue, request, response);
    AcknowledgeKeeps(node.limits, node.queue, request, response);
    WrittenIsTrue(rows, Settled(rows), response.results, ledger);
    ExtendsTransitive(node.durable.rows, rows, Written(rows, Settled(rows), response.results));
  }

  lemma AcknowledgeStep(s: Sys, c: string, request: PushRequest, response: PushResponse)
    requires Inv(s)
    ensures Inv(Next(s, AcknowledgeAt(c, request, response)))
  {
    if c in s.nodes && response in s.responses && Acknowledge(s.nodes[c].limits, s.nodes[c].queue, request, response).Ok? {
      var node, ledger := s.nodes[c], LedgerOf(s, c);
      assert LocalOk(c, node) && RecordOk(node, ledger);
      AcceptedBatch(node.limits, node.queue, request, response);
      assert ResultsOk(response.results, LedgerOf(s, response.clientId));
      AcknowledgedRecord(c, node, request, response, ledger);
      QueueReplaced(s, c, node.(queue := Acknowledge(node.limits, node.queue, request, response).value.0));
    }
  }

  lemma WrittenIsTrue(rows: seq<Row>, k: nat, results: seq<PushResult>, ledger: seq<Entry>)
    requires AnswersFrom(rows, k, results) && ResultsOk(results, ledger)
    requires SettledOk(ledger, rows)
    ensures SettledOk(ledger, Written(rows, k, results)) && Extends(rows, Written(rows, k, results))
  {
    var n := Written(rows, k, results);
    forall i | 0 <= i < |n| && !n[i].status.Pending?
      ensures i < |ledger| && StatusOk(n[i].status, ledger[i])
    {
      if k <= i < k + |results| {
        assert n[i].status == results[i - k].status && results[i - k].id == Some(k + (i - k) + 1);
      }
    }
  }

  lemma PersistStep(s: Sys, c: string)
    requires Inv(s)
    ensures Inv(Next(s, PersistAt(c)))
  {
    if c in s.nodes {
      assert LocalOk(c, s.nodes[c]) && RecordOk(s.nodes[c], LedgerOf(s, c));
      QueueReplaced(s, c, s.nodes[c].(durable := s.nodes[c].queue));
    }
  }

  lemma CrashStep(s: Sys, c: string)
    requires Inv(s)
    ensures Inv(Next(s, CrashAt(c)))
  {
    if c in s.nodes {
      var node := s.nodes[c];
      assert LocalOk(c, node) && RecordOk(node, LedgerOf(s, c));
      RestoreOfExport(node.limits, node.durable);
      QueueReplaced(s, c, node.(queue := node.durable));
    }
  }

  lemma InvKept(s: Sys, step: Step)
    requires Inv(s)
    ensures Inv(Next(s, step))
  {
    match step
    case EnqueueAt(c, intent) => EnqueueStep(s, c, intent);
    case SendFrom(c, limit) => SendStep(s, c, limit);
    case Deliver(r, decide, last, checkpoint) => DeliverStep(s, r, decide, last, checkpoint);
    case AcknowledgeAt(c, request, response) => AcknowledgeStep(s, c, request, response);
    case PersistAt(c) => PersistStep(s, c);
    case CrashAt(c) => CrashStep(s, c);
  }

  lemma {:induction false} InvAlways(s: Sys, steps: seq<Step>)
    requires Initial(s)
    ensures Inv(After(s, steps))
  {
    if steps == [] {
      forall c | c in s.nodes
        ensures LocalOk(c, s.nodes[c]) && RecordOk(s.nodes[c], LedgerOf(s, c))
      {
        EmptyShape(s.nodes[c].limits);
      }
    } else {
      InvAlways(s, steps[..|steps| - 1]);
      InvKept(After(s, steps[..|steps| - 1]), steps[|steps| - 1]);
    }
  }

  // ----- what the protocol promises -----

  lemma {:induction false} EffectCount(s: Sys, c: string, id: nat)
    requires EffectsOk(s.effects, c, LedgerOf(s, c))
    ensures Count(s.effects, c, id) <= 1
    ensures Count(s.effects, c, id) == 1 <==> 1 <= id <= |LedgerOf(s, c)| && LedgerOf(s, c)[id - 1].applied
  {}

  /** The effect is what its client has in the queue under its id. */
  predicate EffectEnqueued(s: Sys, e: Effect) {
    && e.clientId in s.nodes && 1 <= e.id <= |s.nodes[e.clientId].queue.rows|
    && e.intent == s.nodes[e.clientId].queue.rows[e.id - 1].intent
  }

  lemma {:induction false} LedgerIsEnqueued(n: Node, ledger: seq<Entry>, id: nat)
    requires LedgerOk(ledger, n.durable.rows) && Extends(n.durable.rows, n.queue.rows) && 1 <= id <= |ledger|
    ensures id <= |n.queue.rows| && ledger[id - 1].intent == n.queue.rows[id - 1].intent
  {}

  lemma {:induction false} EffectIsEnqueued(s: Sys, i: nat)
    requires Inv(s) && i < |s.effects|
    ensures EffectEnqueued(s, s.effects[i])
  {
    var e := s.effects[i];
    assert 1 <= e.id <= |LedgerOf(s, e.clientId)| && e.clientId in s.ledgers;
    assert LocalOk(e.clientId, s.nodes[e.clientId]) && RecordOk(s.nodes[e.clientId], LedgerOf(s, e.clientId));
    LedgerIsEnqueued(s.nodes[e.clientId], LedgerOf(s, e.clientId), e.id);
  }

  /** Each mutation takes effect at most once, exactly once if the ledger says applied, and the
      effect is what the client enqueued under that id. */
  lemma {:induction false} AppliedAtMostOnce(s: Sys, steps: seq<Step>, c: string, id: nat)
    requires Initial(s)
    ensures Count(After(s, steps).effects, c, id) <= 1
    ensures Count(After(s, steps).effects, c, id) == 1 <==>
            1 <= id <= |LedgerOf(After(s, steps), c)| && LedgerOf(After(s, steps), c)[id - 1].applied
    ensures forall i :: 0 <= i < |After(s, steps).effects| ==> EffectEnqueued(After(s, steps), After(s, steps).effects[i])
  {
    InvAlways(s, steps);
    var f := After(s, steps);
    EffectCount(f, c, id);
    forall i | 0 <= i < |f.effects|
      ensures EffectEnqueued(f, f.effects[i])
    {
      EffectIsEnqueued(f, i);
    }
  }

  /** A client never settles a mutation that is absent from the ledger, nor with another verdict. */
  lemma SettledIsRecorded(s: Sys, steps: seq<Step>, c: string, i: nat)
    requires Initial(s) && c in After(s, steps).nodes
    requires i < |After(s, steps).nodes[c].queue.rows| && !After(s, steps).nodes[c].queue.rows[i].status.Pending?
    ensures var f := After(s, steps);
            && i < |LedgerOf(f, c)| && LedgerOf(f, c)[i].intent == f.nodes[c].queue.rows[i].intent
            && (f.nodes[c].queue.rows[i].status.Applied? ==> Count(f.effects, c, i + 1) == 1)
            && (f.nodes[c].queue.rows[i].status.Rejected? ==> Count(f.effects, c, i + 1) == 0)
  {
    InvAlways(s, steps);
    var f := After(s, steps);
    assert RecordOk(f.nodes[c], LedgerOf(f, c)) && EffectsOk(f.effects, c, LedgerOf(f, c));
  }

  lemma {:induction false} ServeAnswers(c: string, ledger: seq<Entry>, ms: seq<PushMutation>, decide: nat -> Decision)
    requires Serve(c, ledger, ms, decide).Some? && WellFormed(decide)
    ensures var results := Serve(c, ledger, ms, decide).value.results;
            |results| == |ms| && forall i :: 0 <= i < |ms| ==> ResultOk(ms[i], results[i])
  {
    if ms != [] {
      ServeAnswers(c, ledger, ms[..|ms| - 1], decide);
    }
  }

  /** The answer of a server that names the batch's last mutation and a canonical checkpoint. */
  function HonestResponse(r: PushRequest, results: seq<PushResult>, checkpoint: string): PushResponse
    requires r.mutations != []
  {
    PushResponse(1, r.clientId, Some(r.mutations[|r.mutations| - 1].id), Some(checkpoint), results)
  }

  lemma HonestIsValid(r: PushRequest, ledger: seq<Entry>, decide: nat -> Decision, checkpoint: string)
    requires r.protocolVersion == 1 && r.mutations != [] && IsCanonical(checkpoint) && WellFormed(decide)
    requires Serve(r.clientId, ledger, r.mutations, decide).Some?
    ensures ResponseOk(r, HonestResponse(r, Serve(r.clientId, ledger, r.mutations, decide).value.results, checkpoint))
  {
    ServeAnswers(r.clientId, ledger, r.mutations, decide);
  }

  /** What a client with pending mutations sends: at least one, and served. */
  lemma SendIsServed(c: string, n: Node, ledger: seq<Entry>, limit: nat, decide: nat -> Decision)
    requires LocalOk(c, n) && RecordOk(n, ledger)
    requires 1 <= limit <= MAX_PROTOCOL_BATCH && PendingRows(n.queue.rows) != []
    ensures BuildRequest(n.limits, n.queue, limit) == Ok(PushRequest(1, c, Wire(NextRows(n.queue.rows, limit))))
    ensures 1 <= |NextRows(n.queue.rows, limit)| <= limit
    ensures Serve(c, ledger, Wire(NextRows(n.queue.rows, limit)), decide).Some?
    ensures Saved(n.(durable := n.queue), PushRequest(1, c, Wire(NextRows(n.queue.rows, limit))))
  {
    BuildSucceeds(n.limits, n.queue, limit);
    PendingIsSuffix(n.queue.rows);
    BuiltFits(c, n, limit, ledger);
    FitIsServed(c, n.queue.rows, n.durable.rows, ledger, Wire(NextRows(n.queue.rows, limit)), decide);
  }

  lemma FitIsServed(c: string, rows: seq<Row>, durable: seq<Row>, ledger: seq<Entry>, ms: seq<PushMutation>, decide: nat -> Decision)
    requires LedgerOk(ledger, durable) && Extends(durable, rows) && RequestOk(ms, rows, |ledger|)
    ensures Serve(c, ledger, ms, decide).Some?
    ensures ms != [] ==> ms[|ms| - 1].id <= |rows|
  {
    ServeSound(c, ledger, ms, decide, rows);
    if ms != [] {
      LastOfRequest(ms, rows, |ledger|);
    }
  }

  /** Any valid response to the request that would be sent now is accepted. */
  lemma ValidIsAccepted(limits: Config, q: Queue, limit: nat, response: PushResponse)
    requires Shape(limits, q) && limits.clientId.Some? && 1 <= limit <= MAX_PROTOCOL_BATCH
    requires BuildRequest(limits, q, limit).Ok? && ResponseOk(BuildRequest(limits, q, limit).value, response)
    ensures Acknowledge(limits, q, BuildRequest(limits, q, limit).value, response).Ok?
  {
    var r := BuildRequest(limits, q, limit).value;
    BuildSucceeds(limits, q, limit);
    SameBatch(q.rows, limit);
    BuildSucceeds(limits, q, |r.mutations|);
  }

  lemma SameBatch(rows: seq<Row>, limit: nat)
    ensures |NextRows(rows, limit)| <= limit
    ensures NextRows(rows, |NextRows(rows, limit)|) == NextRows(rows, limit)
  {}

  /** The client's next request, and the honest answer of the server to it. */
  function Exchange(s: Sys, c: string, limit: nat, decide: nat -> Decision, checkpoint: string): Option<(PushRequest, PushResponse)>
    requires c in s.nodes
  {
    match BuildRequest(s.nodes[c].limits, s.nodes[c].queue, limit)
    case Err(_) => None
    case Ok(r) =>
      match Serve(c, LedgerOf(s, c), r.mutations, decide)
      case None => None
      case Some(d) => if r.mutations == [] then None else Some((r, HonestResponse(r, d.results, checkpoint)))
  }

  lemma ExchangeIsValid(s: Sys, c: string, limit: nat, decide: nat -> Decision, checkpoint: string)
    requires c in s.nodes && LocalOk(c, s.nodes[c]) && RecordOk(s.nodes[c], LedgerOf(s, c))
    requires 1 <= limit <= MAX_PROTOCOL_BATCH && IsCanonical(checkpoint) && WellFormed(decide)
    requires PendingRows(s.nodes[c].queue.rows) != []
    ensures Exchange(s, c, limit, decide, checkpoint).Some?
    ensures var (r, answer) := Exchange(s, c, limit, decide, checkpoint).value;
            && BuildRequest(s.nodes[c].limits, s.nodes[c].queue, limit) == Ok(r)
            && r.clientId == c && r.mutations != [] && ResponseOk(r, answer)
            && Saved(s.nodes[c].(durable := s.nodes[c].queue), r)
  {
    SendIsServed(c, s.nodes[c], LedgerOf(s, c), limit, decide);
    ExchangeOf(s, c, limit, decide, checkpoint, PushRequest(1, c, Wire(NextRows(s.nodes[c].queue.rows, limit))));
  }

  lemma ExchangeOf(s: Sys, c: string, limit: nat, decide: nat -> Decision, checkpoint: string, r: PushRequest)
    requires c in s.nodes && BuildRequest(s.nodes[c].limits, s.nodes[c].queue, limit) == Ok(r)
    requires r.protocolVersion == 1 && r.clientId == c && r.mutations != [] && IsCanonical(checkpoint) && WellFormed(decide)
    requires Serve(c, LedgerOf(s, c), r.mutations, decide).Some?
    ensures Exchange(s, c, limit, decide, checkpoint).Some?
    ensures Exchange(s, c, limit, decide, checkpoint).value.0 == r
    ensures ResponseOk(r, Exchange(s, c, limit, decide, checkpoint).value.1)
  {
    HonestIsValid(r, LedgerOf(s, c), decide, checkpoint);
  }

  lemma AnswerSettles(limits: Config, q: Queue, limit: nat, response: PushResponse)
    requires Shape(limits, q) && limits.clientId.Some? && 1 <= limit <= MAX_PROTOCOL_BATCH
    requires BuildRequest(limits, q, limit).Ok? && ResponseOk(BuildRequest(limits, q, limit).value, response)
    ensures var r := BuildRequest(limits, q, limit).value;
            && Acknowledge(limits, q, r, response).Ok? && |r.mutations| <= |PendingRows(q.rows)|
            && PendingRows(Acknowledge(limits, q, r, response).value.0.rows) == PendingRows(q.rows)[|r.mutations|..]
  {
    ValidIsAccepted(limits, q, limit, response);
    AcknowledgeKeeps(limits, q, BuildRequest(limits, q, limit).value, response);
  }

  /** The system after an export and an exchange that got through. */
  function Exchanged(s: Sys, c: string, limit: nat, r: PushRequest, answer: PushResponse, decide: nat -> Decision): Sys {
    Next(Next(Next(Next(s, PersistAt(c)), SendFrom(c, limit)), Deliver(r, decide, answer.lastMutationId, answer.checkpoint)), AcknowledgeAt(c, r, answer))
  }

  lemma ExchangedQueue(s: Sys, c: string, limit: nat, decide: nat -> Decision, checkpoint: string, r: PushRequest, answer: PushResponse)
    requires c in s.nodes && Exchange(s, c, limit, decide, checkpoint) == Some((r, answer)) && r.clientId == c
    requires Saved(s.nodes[c].(durable := s.nodes[c].queue), r)
    requires Acknowledge(s.nodes[c].limits, s.nodes[c].queue, r, answer).Ok?
    ensures var g := Exchanged(s, c, limit, r, answer, decide);
            c in g.nodes && g.nodes[c].queue == Acknowledge(s.nodes[c].limits, s.nodes[c].queue, r, answer).value.0
  {
    ExportedAndSent(s, c, limit, r);
    var f1 := Next(Next(s, PersistAt(c)), SendFrom(c, limit));
    Delivered(f1, r, decide, answer);
  }

  lemma Delivered(s: Sys, r: PushRequest, decide: nat -> Decision, answer: PushResponse)
    requires r in s.requests && Serve(r.clientId, LedgerOf(s, r.clientId), r.mutations, decide).Some?
    requires answer.protocolVersion == 1 && answer.clientId == r.clientId
    requires answer.results == Serve(r.clientId, LedgerOf(s, r.clientId), r.mutations, decide).value.results
    ensures var f := Next(s, Deliver(r, decide, answer.lastMutationId, answer.checkpoint));
            f.nodes == s.nodes && answer in f.responses
  {}

  lemma ExportedAndSent(s: Sys, c: string, limit: nat, r: PushRequest)
    requires c in s.nodes && BuildRequest(s.nodes[c].limits, s.nodes[c].queue, limit) == Ok(r)
    requires Saved(s.nodes[c].(durable := s.nodes[c].queue), r)
    ensures var f := Next(Next(s, PersistAt(c)), SendFrom(c, limit));
            && r in f.requests && LedgerOf(f, c) == LedgerOf(s, c)
            && c in f.nodes && f.nodes[c] == s.nodes[c].(durable := s.nodes[c].queue)
  {}

  lemma ExchangeSettles(s: Sys, c: string, limit: nat, decide: nat -> Decision, checkpoint: string)
    requires c in s.nodes && LocalOk(c, s.nodes[c]) && RecordOk(s.nodes[c], LedgerOf(s, c))
    requires 1 <= limit <= MAX_PROTOCOL_BATCH && IsCanonical(checkpoint) && WellFormed(decide)
    requires PendingRows(s.nodes[c].queue.rows) != []
    ensures Exchange(s, c, limit, decide, checkpoint).Some?
    ensures var (r, answer) := Exchange(s, c, limit, decide, checkpoint).value;
            var g := Exchanged(s, c, limit, r, answer, decide);
            && c in g.nodes && 1 <= |r.mutations| <= |PendingRows(s.nodes[c].queue.rows)|
            && PendingRows(g.nodes[c].queue.rows) == PendingRows(s.nodes[c].queue.rows)[|r.mutations|..]
  {
    ExchangeIsValid(s, c, limit, decide, checkpoint);
    var (r, answer) := Exchange(s, c, limit, decide, checkpoint).value;
    AnswerSettles(s.nodes[c].limits, s.nodes[c].queue, limit, answer);
    ExchangedQueue(s, c, limit, decide, checkpoint, r, answer);
  }

  /** Progress: from any reachable state one export, one send, one delivery and one answer that gets
      through settle the whole batch, even if earlier copies of it were applied before. */
  lemma {:induction false} RoundTripSettles(s: Sys, steps: seq<Step>, c: string, limit: nat, decide: nat -> Decision, checkpoint: string)
    requires Initial(s) && c in After(s, steps).nodes
    requires 1 <= limit <= MAX_PROTOCOL_BATCH && IsCanonical(checkpoint) && WellFormed(decide)
    requires PendingRows(After(s, steps).nodes[c].queue.rows) != []
    ensures Exchange(After(s, steps), c, limit, decide, checkpoint).Some?
    ensures var f := After(s, steps);
            var (r, answer) := Exchange(f, c, limit, decide, checkpoint).value;
            var g := Exchanged(f, c, limit, r, answer, decide);
            && c in g.nodes && 1 <= |r.mutations| <= |PendingRows(f.nodes[c].queue.rows)|
            && PendingRows(g.nodes[c].queue.rows) == PendingRows(f.nodes[c].queue.rows)[|r.mutations|..]
  {
    InvAlways(s, steps);
    ExchangeSettles(After(s, steps), c, limit, decide, checkpoint);
  }

  /** Whatever is in the network, however late or often it arrives, the server serves it: the client
      never causes a gap and never reuses an id for different content. */
  lemma EveryRequestIsServed(s: Sys, steps: seq<Step>, r: PushRequest, decide: nat -> Decision)
    requires Initial(s) && r in After(s, steps).requests
    ensures Serve(r.clientId, LedgerOf(After(s, steps), r.clientId), r.mutations, decide).Some?
  {
    InvAlways(s, steps);
    DeliverServes(After(s, steps), r, decide);
  }

  lemma EnqueueExtends(limits: Config, q: Queue, intent: Intent)
    requires Enqueue(limits, q, intent).Ok?
    ensures Extends(q.rows, Enqueue(limits, q, intent).value.0.rows)
  {}

  lemma IntentsKept(s: Sys, step: Step, c: string)
    requires c in s.nodes && LocalOk(c, s.nodes[c])
    ensures c in Next(s, step).nodes && Extends(s.nodes[c].durable.rows, Next(s, step).nodes[c].durable.rows)
  {}

  /** Once exported, `(clientId, mutationId)` names one content for ever: neither crashes nor restores
      change it, and the live queue agrees. */
  lemma {:induction false} ContentNeverChanges(s: Sys, steps: seq<Step>, m: nat, c: string, i: nat)
    requires Initial(s) && m <= |steps| && c in After(s, steps[..m]).nodes
    requires i < |After(s, steps[..m]).nodes[c].durable.rows|
    ensures c in After(s, steps).nodes && i < |After(s, steps).nodes[c].durable.rows| <= |After(s, steps).nodes[c].queue.rows|
    ensures After(s, steps).nodes[c].durable.rows[i].intent == After(s, steps[..m]).nodes[c].durable.rows[i].intent
    ensures After(s, steps).nodes[c].queue.rows[i].intent == After(s, steps[..m]).nodes[c].durable.rows[i].intent
    decreases |steps|
  {
    InvAlways(s, steps);
    if m == |steps| {
      assert steps[..m] == steps;
    } else {
      var before := steps[..|steps| - 1];
      assert before[..m] == steps[..m];
      ContentNeverChanges(s, before, m, c, i);
      InvAlways(s, before);
      IntentsKept(After(s, before), steps[|steps| - 1], c);
    }
    assert LocalOk(c, After(s, steps).nodes[c]);
  }

  // ----- retries -----

  /** The step neither acknowledges a batch of `c` nor restarts it. */
  predicate Spares(step: Step, c: string) {
    (step.AcknowledgeAt? || step.CrashAt?) ==> step.c != c
  }

  lemma SparedStep(s: Sys, step: Step, c: string)
    requires c in s.nodes && Spares(step, c)
    ensures c in Next(s, step).nodes && Next(s, step).nodes[c].limits == s.nodes[c].limits
    ensures PendingRows(s.nodes[c].queue.rows) <= PendingRows(Next(s, step).nodes[c].queue.rows)
  {
    match step
    case EnqueueAt(x, intent) =>
      if x == c && Enqueue(s.nodes[c].limits, s.nodes[c].queue, intent).Ok? {
        EnqueueAppends(s.nodes[c].limits, s.nodes[c].queue, intent);
      }
    case _ =>
  }

  lemma {:induction false} PendingOnlyGrows(s: Sys, more: seq<Step>, c: string)
    requires c in s.nodes && forall i :: 0 <= i < |more| ==> Spares(more[i], c)
    ensures c in After(s, more).nodes && After(s, more).nodes[c].limits == s.nodes[c].limits
    ensures PendingRows(s.nodes[c].queue.rows) <= PendingRows(After(s, more).nodes[c].queue.rows)
  {
    if more != [] {
      PendingOnlyGrows(s, more[..|more| - 1], c);
      SparedStep(After(s, more[..|more| - 1]), more[|more| - 1], c);
    }
  }

  /** Until a batch is acknowledged, retrying the first `k` pending mutations sends the identical
      request, whatever is enqueued, sent, delivered, saved or done by other clients in between. */
  lemma {:induction false} RetryIsIdentical(s: Sys, more: seq<Step>, c: string, k: nat)
    requires c in s.nodes && k <= |PendingRows(s.nodes[c].queue.rows)|
    requires forall i :: 0 <= i < |more| ==> Spares(more[i], c)
    ensures c in After(s, more).nodes
    ensures BuildRequest(After(s, more).nodes[c].limits, After(s, more).nodes[c].queue, k)
            == BuildRequest(s.nodes[c].limits, s.nodes[c].queue, k)
  {
    PendingOnlyGrows(s, more, c);
    RequestOfPrefix(s.nodes[c].limits, s.nodes[c].queue, After(s, more).nodes[c].queue, k);
  }
}
