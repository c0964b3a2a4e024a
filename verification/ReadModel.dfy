/** Authoritative rows by revision, then pending intent replayed on top. */
module ReadModel {
  import opened Wrappers
  import opened Text
  import opened Decimal
  import opened Hlc

  const AUTHORITATIVE := "authoritative"
  const PENDING := "pending"
  const TRANSFORMED := "transformed"

  /** Payloads are JSON texts; `identity` is the mutation id a row came from. */
  datatype BaseRow = BaseRow(
    table: string, recordId: string, revision: string, operation: string, payload: Option<string>, identity: Option<string>)

  datatype ProjectedRow = ProjectedRow(
    table: string, recordId: string, revision: string, operation: string, payload: Option<string>, provenance: string)

  datatype OverlayEntry = OverlayEntry(
    mutationId: string, table: string, recordId: string, operation: string, payload: Option<string>,
    revision: Option<string>, policy: string, status: string, transformedPayload: Option<string>)

  datatype Input = Input(localBase: seq<BaseRow>, overlay: seq<OverlayEntry>, remote: seq<BaseRow>, acknowledged: seq<string>)

  datatype Policy = RemoteAcknowledged | WriteThroughLocalFirst | QueuedLocalFirst

  datatype Error = UnknownPolicy(identifier: string)

  const POLICY_NAMES: map<string, Policy> := map[
    "opto.consistency.remote-acknowledged.v1" := RemoteAcknowledged,
    "remote-acknowledged" := RemoteAcknowledged,
    "strict" := RemoteAcknowledged,
    "remote-confirmed" := RemoteAcknowledged,
    "await-server" := RemoteAcknowledged,
    "opto.consistency.write-through-local-first.v1" := WriteThroughLocalFirst,
    "write-through-local-first" := WriteThroughLocalFirst,
    "local-then-remote" := WriteThroughLocalFirst,
    "local-first" := WriteThroughLocalFirst,
    "opto.consistency.queued-local-first.v1" := QueuedLocalFirst,
    "queued-local-first" := QueuedLocalFirst,
    "local-durable" := QueuedLocalFirst,
    "background" := QueuedLocalFirst
  ]

  /** Unknown identifiers fail closed. */
  function CanonicalizePolicy(identifier: string): Result<Policy, Error> {
    if identifier in POLICY_NAMES then Ok(POLICY_NAMES[identifier]) else Err(UnknownPolicy(identifier))
  }

  const NUL: char := '\0'

  function RecordKey(table: string, recordId: string): string {
    table + [NUL] + recordId
  }

  /** With table names free of NUL a key names one record. */
  lemma RecordKeyInjective(t1: string, r1: string, t2: string, r2: string)
    requires NUL !in t1 && NUL !in t2
    ensures RecordKey(t1, r1) == RecordKey(t2, r2) <==> t1 == t2 && r1 == r2
  {
    SplitOnceJoin(t1, NUL, r1);
    SplitOnceJoin(t2, NUL, r2);
  }

  lemma LongerTable(t1: string, r1: string, t2: string, r2: string)
    requires RecordKey(t1, r1) == RecordKey(t2, r2) && |t1| < |t2|
    ensures t1 + [NUL] <= t2
  {
    var key := RecordKey(t1, r1);
    assert t2 == key[..|t2|] && t1 + [NUL] == key[..|t1| + 1];
    assert key[..|t2|][..|t1| + 1] == key[..|t1| + 1];
  }

  lemma SameLengthTable(t1: string, r1: string, t2: string, r2: string)
    requires RecordKey(t1, r1) == RecordKey(t2, r2) && |t1| == |t2|
    ensures t1 == t2
  {
    assert t1 == RecordKey(t1, r1)[..|t1|];
    assert t2 == RecordKey(t2, r2)[..|t2|];
  }

  lemma PrefixCollides(t1: string, t2: string)
    requires t1 + [NUL] <= t2
    ensures exists r1, r2 :: RecordKey(t1, r1) == RecordKey(t2, r2)
  {
    var rest := t2[|t1| + 1..];
    assert t2 == t1 + [NUL] + rest;
    assert RecordKey(t1, rest + [NUL]) == RecordKey(t2, "");
  }

  /** Two tables can have records under one key, of which one then disappears from the view, exactly if
      one name begins with the other and a NUL. */
  lemma RecordKeyCollidesExactly(t1: string, t2: string)
    requires t1 != t2
    ensures (exists r1, r2 :: RecordKey(t1, r1) == RecordKey(t2, r2)) <==> t1 + [NUL] <= t2 || t2 + [NUL] <= t1
  {
    if r1, r2 :| RecordKey(t1, r1) == RecordKey(t2, r2) {
      if |t1| < |t2| {
        LongerTable(t1, r1, t2, r2);
      } else if |t2| < |t1| {
        LongerTable(t2, r2, t1, r1);
      } else {
        SameLengthTable(t1, r1, t2, r2);
      }
    }
    if t1 + [NUL] <= t2 {
      PrefixCollides(t1, t2);
    }
    if t2 + [NUL] <= t1 {
      PrefixCollides(t2, t1);
      var r2, r1 :| RecordKey(t2, r2) == RecordKey(t1, r1);
    }
  }

  function KeyOf(row: BaseRow): string { RecordKey(row.table, row.recordId) }

  function Project(row: BaseRow): ProjectedRow {
    ProjectedRow(row.table, row.recordId, row.revision, row.operation, row.payload, AUTHORITATIVE)
  }

  // ----- what the reconciliation computes -----

  /** The later of two rows of one record: higher revision, then smaller mutation id, then first. */
  function Better(winner: BaseRow, candidate: BaseRow): BaseRow {
    match CompareDecimal(candidate.revision, winner.revision)
    case Greater => candidate
    case Lower => winner
    case Same => if Less(candidate.identity.GetOr(""), winner.identity.GetOr("")) then candidate else winner
  }

  function Winner(group: seq<BaseRow>): BaseRow
    requires group != []
  {
    if |group| == 1 then group[0] else Better(Winner(group[..|group| - 1]), group[|group| - 1])
  }

  /** The rows of one record, in order. */
  function Group(rows: seq<BaseRow>, key: string): seq<BaseRow> {
    if rows == [] then []
    else
      var row := rows[|rows| - 1];
      Group(rows[..|rows| - 1], key) + if KeyOf(row) == key then [row] else []
  }

  function BaseMap(rows: seq<BaseRow>): map<string, ProjectedRow> {
    if rows == [] then map[] else BaseMap(rows[..|rows| - 1])[KeyOf(rows[|rows| - 1]) := Project(rows[|rows| - 1])]
  }

  /** A remote winner replaces the local row only with a strictly higher revision. */
  function Merged(local: Option<ProjectedRow>, group: seq<BaseRow>): Option<ProjectedRow> {
    if group == [] then local
    else
      var remote := Winner(group);
      if local.None? || CompareDecimal(remote.revision, local.value.revision).Greater? then Some(Project(remote)) else local
  }

  function Lookup<K, V>(m: map<K, V>, k: K): Option<V> {
    if k in m then Some(m[k]) else None
  }

  function KeySet(rows: seq<BaseRow>): set<string> {
    set i | 0 <= i < |rows| :: KeyOf(rows[i])
  }

  function Authoritative(local: seq<BaseRow>, remote: seq<BaseRow>): map<string, ProjectedRow> {
    map k | k in KeySet(local) + KeySet(remote) && Merged(Lookup(BaseMap(local), k), Group(remote, k)).Some?
      :: Merged(Lookup(BaseMap(local), k), Group(remote, k)).value
  }

  function EntryKey(e: OverlayEntry): string { RecordKey(e.table, e.recordId) }

  predicate Skipped(e: OverlayEntry, policy: Policy) {
    e.status == PENDING && policy.RemoteAcknowledged?
  }

  function EntryRow(e: OverlayEntry, current: Option<ProjectedRow>): ProjectedRow {
    ProjectedRow(
      e.table, e.recordId,
      if e.revision.Some? then e.revision.value else if current.Some? then current.value.revision else "0",
      e.operation,
      if e.status == TRANSFORMED && e.transformedPayload.Some? then e.transformedPayload else e.payload,
      e.status)
  }

  /** One entry on the row of its own record. */
  function ApplyEntry(current: Option<ProjectedRow>, e: OverlayEntry): Result<Option<ProjectedRow>, Error> {
    match CanonicalizePolicy(e.policy)
    case Err(error) => Err(error)
    case Ok(policy) => if Skipped(e, policy) then Ok(current) else Ok(Some(EntryRow(e, current)))
  }

  /** The overlay in order; the first unacknowledged entry with an unknown policy ends it. */
  function Replay(working: map<string, ProjectedRow>, overlay: seq<OverlayEntry>, acknowledged: set<string>)
    : Result<map<string, ProjectedRow>, Error>
  {
    if overlay == [] then Ok(working)
    else
      var e := overlay[|overlay| - 1];
      match Replay(working, overlay[..|overlay| - 1], acknowledged)
      case Err(error) => Err(error)
      case Ok(m) =>
        if e.mutationId in acknowledged then Ok(m)
        else
          match ApplyEntry(Lookup(m, EntryKey(e)), e)
          case Err(error) => Err(error)
          case Ok(None) => Ok(m)
          case Ok(Some(row)) => Ok(m[EntryKey(e) := row])
  }

  // ----- the authoritative view is the highest revision of every record -----

  predicate UniqueKeys(rows: seq<BaseRow>) {
    forall i, j :: 0 <= i < j < |rows| ==> KeyOf(rows[i]) != KeyOf(rows[j])
  }

  predicate HighestFor(row: BaseRow, rows: seq<BaseRow>, key: string) {
    && row in rows && KeyOf(row) == key
    && forall other :: other in rows && KeyOf(other) == key ==> NumberOf(other.revision) <= NumberOf(row.revision)
  }

  /** Each record that has a row is shown once, at its numerically highest revision. */
  ghost predicate IsView(m: map<string, ProjectedRow>, rows: seq<BaseRow>) {
    && (forall row :: row in rows ==> KeyOf(row) in m)
    && (forall k :: k in m ==> exists row :: HighestFor(row, rows, k) && m[k] == Project(row))
  }

  lemma {:induction false} GroupMembers(rows: seq<BaseRow>, key: string, row: BaseRow)
    ensures row in Group(rows, key) <==> row in rows && KeyOf(row) == key
  {
    if rows != [] {
      var init, last := rows[..|rows| - 1], rows[|rows| - 1];
      GroupMembers(init, key, row);
      assert rows == init + [last];
    }
  }

  lemma {:induction false} WinnerIsHighest(group: seq<BaseRow>)
    requires group != []
    ensures Winner(group) in group
    ensures forall row :: row in group ==> NumberOf(row.revision) <= NumberOf(Winner(group).revision)
  {
    if |group| > 1 {
      var init, last := group[..|group| - 1], group[|group| - 1];
      WinnerIsHighest(init);
      CompareDecimalIsNumeric(last.revision, Winner(init).revision);
      assert group == init + [last];
    }
  }

  lemma {:induction false} BaseMapOfUnique(rows: seq<BaseRow>, key: string)
    requires UniqueKeys(rows)
    ensures key in BaseMap(rows) <==> exists row :: row in rows && KeyOf(row) == key
    ensures forall row :: row in rows ==> Lookup(BaseMap(rows), KeyOf(row)) == Some(Project(row))
  {
    if rows != [] {
      var init, last := rows[..|rows| - 1], rows[|rows| - 1];
      BaseMapOfUnique(init, key);
      assert rows == init + [last];
      forall row | row in rows
        ensures Lookup(BaseMap(rows), KeyOf(row)) == Some(Project(row))
      {
        if row in init {
          assert KeyOf(row) != KeyOf(last);
        }
      }
    }
  }

  lemma MergedIsHighest(local: seq<BaseRow>, remote: seq<BaseRow>, key: string)
    requires UniqueKeys(local) && Merged(Lookup(BaseMap(local), key), Group(remote, key)).Some?
    ensures exists row :: HighestFor(row, local + remote, key) && Merged(Lookup(BaseMap(local), key), Group(remote, key)).value == Project(row)
  {
    BaseMapOfUnique(local, key);
    var group := Group(remote, key);
    forall row
      ensures row in group <==> row in remote && KeyOf(row) == key
    {
      GroupMembers(remote, key, row);
    }
    if group != [] {
      WinnerIsHighest(group);
    }
    if key in BaseMap(local) {
      var mine :| mine in local && KeyOf(mine) == key;
      OnlyOneLocal(local, mine);
      if group != [] && CompareDecimal(Winner(group).revision, mine.revision).Greater? {
        CompareDecimalIsNumeric(Winner(group).revision, mine.revision);
        assert HighestFor(Winner(group), local + remote, key);
      } else {
        if group != [] {
          CompareDecimalIsNumeric(Winner(group).revision, mine.revision);
        }
        assert HighestFor(mine, local + remote, key);
      }
    } else {
      assert HighestFor(Winner(group), local + remote, key);
    }
  }

  lemma OnlyOneLocal(local: seq<BaseRow>, mine: BaseRow)
    requires UniqueKeys(local) && mine in local
    ensures forall other :: other in local && KeyOf(other) == KeyOf(mine) ==> other == mine
  {}

  lemma {:induction false} AuthoritativeIsView(local: seq<BaseRow>, remote: seq<BaseRow>)
    requires UniqueKeys(local)
    ensures IsView(Authoritative(local, remote), local + remote)
  {
    var m, rows := Authoritative(local, remote), local + remote;
    forall row | row in rows
      ensures KeyOf(row) in m
    {
      BaseMapOfUnique(local, KeyOf(row));
      GroupMembers(remote, KeyOf(row), row);
      if row in remote {
        assert KeyOf(row) in KeySet(remote);
      } else {
        assert KeyOf(row) in KeySet(local);
      }
    }
    forall k | k in m
      ensures exists row :: HighestFor(row, rows, k) && m[k] == Project(row)
    {
      MergedIsHighest(local, remote, k);
    }
  }

  /** Rows of one record with numerically equal revisions are shown alike. */
  predicate ContentDetermined(rows: seq<BaseRow>) {
    forall a, b :: a in rows && b in rows && KeyOf(a) == KeyOf(b) && NumberOf(a.revision) == NumberOf(b.revision) ==>
      Project(a) == Project(b)
  }

  /** Canonical revisions, NUL-free tables, and content fixed by (table, record, revision) are enough. */
  lemma CanonicalContentIsDetermined(rows: seq<BaseRow>)
    requires forall a :: a in rows ==> IsCanonical(a.revision) && NUL !in a.table
    requires forall a, b :: a in rows && b in rows && a.table == b.table && a.recordId == b.recordId && a.revision == b.revision ==>
               a.operation == b.operation && a.payload == b.payload
    ensures ContentDetermined(rows)
  {
    forall a, b | a in rows && b in rows && KeyOf(a) == KeyOf(b) && NumberOf(a.revision) == NumberOf(b.revision)
      ensures Project(a) == Project(b)
    {
      RecordKeyInjective(a.table, a.recordId, b.table, b.recordId);
      CompareDecimalIsNumeric(a.revision, b.revision);
    }
  }

  predicate SameRows(a: seq<BaseRow>, b: seq<BaseRow>) {
    (forall row :: row in a ==> row in b) && (forall row :: row in b ==> row in a)
  }

  /** Two views of the same rows, however they were delivered, are equal. */
  lemma {:induction false} ViewIsUnique(m: map<string, ProjectedRow>, n: map<string, ProjectedRow>, a: seq<BaseRow>, b: seq<BaseRow>)
    requires IsView(m, a) && IsView(n, b) && SameRows(a, b) && ContentDetermined(a)
    ensures m == n
  {
    forall k
      ensures k in m ==> k in n && m[k] == n[k]
      ensures k in n ==> k in m
    {
      ViewAt(m, n, a, b, k);
      ViewAt(n, m, b, a, k);
    }
  }

  lemma ViewAt(m: map<string, ProjectedRow>, n: map<string, ProjectedRow>, a: seq<BaseRow>, b: seq<BaseRow>, k: string)
    requires IsView(m, a) && IsView(n, b) && SameRows(a, b)
    requires ContentDetermined(a) || ContentDetermined(b)
    ensures k in m ==> k in n && m[k] == n[k]
  {
    if k in m {
      var x :| HighestFor(x, a, k) && m[k] == Project(x);
      assert x in b;
      var y :| HighestFor(y, b, k) && n[k] == Project(y);
      assert y in a;
    }
  }

  /** A shown row fed back as a local row. */
  function AsBase(p: ProjectedRow): BaseRow {
    BaseRow(p.table, p.recordId, p.revision, p.operation, p.payload, None)
  }

  /** `rows` holds exactly the values of a view, once each. */
  ghost predicate Lists(rows: seq<BaseRow>, m: map<string, ProjectedRow>) {
    && UniqueKeys(rows)
    && (forall row :: row in rows ==> KeyOf(row) in m && row == AsBase(m[KeyOf(row)]))
    && (forall k :: k in m ==> AsBase(m[k]) in rows && KeyOf(AsBase(m[k])) == k)
  }

  /** Merging a second batch into the view of the first is the view of both. */
  lemma ViewsCompose(m: map<string, ProjectedRow>, shown: seq<BaseRow>, a: seq<BaseRow>, b: seq<BaseRow>)
    requires IsView(m, a) && Lists(shown, m)
    ensures IsView(Authoritative(shown, b), a + b)
  {
    var n, rows := Authoritative(shown, b), a + b;
    AuthoritativeIsView(shown, b);
    forall row | row in rows
      ensures KeyOf(row) in n
    {
      if row in a {
        assert AsBase(m[KeyOf(row)]) in shown + b;
      } else {
        assert row in shown + b;
      }
    }
    forall k | k in n
      ensures exists row :: HighestFor(row, rows, k) && n[k] == Project(row)
    {
      var x :| HighestFor(x, shown + b, k) && n[k] == Project(x);
      HighestComposes(m, shown, a, b, k, x);
    }
  }

  lemma HighestComposes(m: map<string, ProjectedRow>, shown: seq<BaseRow>, a: seq<BaseRow>, b: seq<BaseRow>, k: string, x: BaseRow)
    requires IsView(m, a) && Lists(shown, m) && HighestFor(x, shown + b, k)
    ensures exists row :: HighestFor(row, a + b, k) && Project(row) == Project(x)
  {
    if k in m {
      var y :| HighestFor(y, a, k) && m[k] == Project(y);
      assert AsBase(m[k]) in shown + b;
      if x in b {
        assert HighestFor(x, a + b, k);
      } else {
        assert x == AsBase(m[k]);
        forall other | other in a + b && KeyOf(other) == k
          ensures NumberOf(other.revision) <= NumberOf(y.revision)
        {
          if other !in a {
            assert other in shown + b;
          }
        }
        assert HighestFor(y, a + b, k);
      }
    } else {
      assert x in b;
      assert HighestFor(x, a + b, k);
    }
  }
}
