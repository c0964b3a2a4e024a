/** The reconciliation pass itself, and what its overlay replay means record by record. */
module ReadReconciliation {
  import opened Wrappers
  import opened Text
  import opened Decimal
  import opened ReadModel
  import opened ReadOverlay

  // ----- equal revisions with different content -----

  /** When all rows are of one record, the view is that record's merged row. */
  lemma OneRecordView(local: seq<BaseRow>, remote: seq<BaseRow>, k: string, row: ProjectedRow)
    requires forall x :: x in local + remote ==> KeyOf(x) == k
    requires local + remote != []
    requires Merged(Lookup(BaseMap(local), k), Group(remote, k)) == Some(row)
    ensures Authoritative(local, remote) == map[k := row]
  {
    var x := (local + remote)[0];
    assert x in local + remote;
    assert k in KeySet(local) + KeySet(remote) by {
      if local != [] {
        assert KeyOf(local[0]) == k && local[0] == x;
      } else {
        assert KeyOf(remote[0]) == k && remote[0] == x;
      }
    }
    forall key | key in KeySet(local) + KeySet(remote)
      ensures key == k
    {
      if key in KeySet(local) {
        var i :| 0 <= i < |local| && KeyOf(local[i]) == key;
        assert local[i] in local + remote;
      } else {
        var i :| 0 <= i < |remote| && KeyOf(remote[i]) == key;
        assert remote[i] in local + remote;
      }
    }
  }

  lemma GroupOfOne(row: BaseRow)
    ensures Group([row], KeyOf(row)) == [row] && Winner([row]) == row
    ensures BaseMap([row]) == map[KeyOf(row) := Project(row)]
  {
    assert [row][..0] == [];
  }

  lemma TieWinner(a: BaseRow, b: BaseRow)
    requires KeyOf(a) == KeyOf(b) && a.revision == b.revision
    requires Less(b.identity.GetOr(""), a.identity.GetOr(""))
    ensures Group([a, b], KeyOf(a)) == [a, b] && Winner([a, b]) == b
  {
    GroupOfOne(a);
    assert [a, b][..1] == [a];
    CompareDecimalIsNumeric(a.revision, b.revision);
  }

  /** Content must be determined: on a tie one batch prefers the smaller mutation id, while two
      batches keep whichever came first. */
  lemma SplitMattersOnTies(a: BaseRow, b: BaseRow)
    requires KeyOf(a) == KeyOf(b) && a.revision == b.revision && a.payload != b.payload
    requires Less(b.identity.GetOr(""), a.identity.GetOr(""))
    ensures Lists([AsBase(Project(a))], Authoritative([], [a]))
    ensures Authoritative([], [a, b]) == map[KeyOf(a) := Project(b)]
    ensures Authoritative([AsBase(Project(a))], [b]) == map[KeyOf(a) := Project(a)]
    ensures Project(a) != Project(b)
  {
    var k, first := KeyOf(a), AsBase(Project(a));
    assert Authoritative([], [a]) == map[k := Project(a)] by {
      GroupOfOne(a);
      OneRecordView([], [a], k, Project(a));
    }
    assert Authoritative([], [a, b]) == map[k := Project(b)] by {
      TieWinner(a, b);
      OneRecordView([], [a, b], k, Project(b));
    }
    TieKeepsLocal(first, b);
    OneListed(Project(a));
  }

  /** Against an equal revision the local row stays. */
  lemma TieKeepsLocal(a: BaseRow, b: BaseRow)
    requires KeyOf(a) == KeyOf(b) && a.revision == b.revision
    ensures Authoritative([a], [b]) == map[KeyOf(a) := Project(a)]
  {
    GroupOfOne(a);
    GroupOfOne(b);
    assert Lookup(BaseMap([a]), KeyOf(a)) == Some(Project(a)) && Group([b], KeyOf(a)) == [b];
    assert Merged(Some(Project(a)), [b]) == Some(Project(a)) by {
      CompareDecimalIsNumeric(b.revision, a.revision);
    }
    OneRecordView([a], [b], KeyOf(a), Project(a));
  }

  lemma OneListed(p: ProjectedRow)
    ensures Lists([AsBase(p)], map[RecordKey(p.table, p.recordId) := p])
  {}

  // ----- overlay replay -----

  function Unacknowledged(overlay: seq<OverlayEntry>, acknowledged: set<string>): seq<OverlayEntry> {
    if overlay == [] then []
    else
      var e := overlay[|overlay| - 1];
      Unacknowledged(overlay[..|overlay| - 1], acknowledged) + if e.mutationId in acknowledged then [] else [e]
  }

  /** Acknowledged entries could as well not be there: same rows, same error. */
  lemma {:induction false} AcknowledgedAreInert(working: map<string, ProjectedRow>, overlay: seq<OverlayEntry>, acknowledged: set<string>)
    ensures Replay(working, Unacknowledged(overlay, acknowledged), acknowledged) == Replay(working, overlay, acknowledged)
    ensures Replay(working, Unacknowledged(overlay, acknowledged), {}) == Replay(working, overlay, acknowledged)
  {
    if overlay != [] {
      var init, e := overlay[..|overlay| - 1], overlay[|overlay| - 1];
      AcknowledgedAreInert(working, init, acknowledged);
      var kept := Unacknowledged(init, acknowledged);
      if e.mutationId !in acknowledged {
        assert (kept + [e])[..|kept + [e]| - 1] == kept;
      } else {
        assert kept + [] == kept;
      }
    }
  }

  /** The entries that take effect on one record, in order. */
  function EffectiveFor(overlay: seq<OverlayEntry>, acknowledged: set<string>, key: string): seq<OverlayEntry> {
    if overlay == [] then []
    else
      var e := overlay[|overlay| - 1];
      var rest := EffectiveFor(overlay[..|overlay| - 1], acknowledged, key);
      if e.mutationId in acknowledged || EntryKey(e) != key || CanonicalizePolicy(e.policy).Err?
         || Skipped(e, CanonicalizePolicy(e.policy).value) then rest
      else rest + [e]
  }

  /** One record on its own: each effective entry replaces the row it finds. */
  function FoldRecord(row: Option<ProjectedRow>, entries: seq<OverlayEntry>): Option<ProjectedRow> {
    if entries == [] then row
    else Some(EntryRow(entries[|entries| - 1], FoldRecord(row, entries[..|entries| - 1])))
  }

  /** A successful replay is, for each record, a fold of that record's own effective entries. */
  lemma {:induction false} ReplayIsPerRecord(working: map<string, ProjectedRow>, overlay: seq<OverlayEntry>, acknowledged: set<string>, key: string)
    requires Replay(working, overlay, acknowledged).Ok?
    ensures Lookup(Replay(working, overlay, acknowledged).value, key)
            == FoldRecord(Lookup(working, key), EffectiveFor(overlay, acknowledged, key))
  {
    if overlay != [] {
      var init, e := overlay[..|overlay| - 1], overlay[|overlay| - 1];
      ReplayIsPerRecord(working, init, acknowledged, key);
      var m := Replay(working, init, acknowledged).value;
      if e.mutationId !in acknowledged {
        assert ApplyEntry(Lookup(m, EntryKey(e)), e).Ok?;
        if EntryKey(e) == key && !Skipped(e, CanonicalizePolicy(e.policy).value) {
          FoldPush(Lookup(working, key), EffectiveFor(init, acknowledged, key), e);
        }
      }
    }
  }

  lemma {:induction false} FoldPush(row: Option<ProjectedRow>, entries: seq<OverlayEntry>, e: OverlayEntry)
    ensures FoldRecord(row, entries + [e]) == Some(EntryRow(e, FoldRecord(row, entries)))
  {
    assert (entries + [e])[..|entries|] == entries;
  }

  /** How entries of different records interleave is irrelevant. */
  lemma {:induction false} InterleavingIsIrrelevant(working: map<string, ProjectedRow>, a: seq<OverlayEntry>, b: seq<OverlayEntry>, acknowledged: set<string>)
    requires Replay(working, a, acknowledged).Ok? && Replay(working, b, acknowledged).Ok?
    requires forall key :: EffectiveFor(a, acknowledged, key) == EffectiveFor(b, acknowledged, key)
    ensures Replay(working, a, acknowledged) == Replay(working, b, acknowledged)
  {
    var m, n := Replay(working, a, acknowledged).value, Replay(working, b, acknowledged).value;
    forall key
      ensures Lookup(m, key) == Lookup(n, key)
    {
      ReplayIsPerRecord(working, a, acknowledged, key);
      ReplayIsPerRecord(working, b, acknowledged, key);
    }
    assert forall key :: key in m <==> Lookup(m, key).Some?;
    assert forall key :: key in n <==> Lookup(n, key).Some?;
    assert forall key :: key in m ==> Lookup(m, key).value == m[key] && Lookup(n, key).value == n[key];
    assert m == n;
  }

  // ----- the output order -----

  predicate RowLess(a: ProjectedRow, b: ProjectedRow) {
    Less(a.table, b.table) || (a.table == b.table && Less(a.recordId, b.recordId))
  }

  predicate Sorted(rows: seq<ProjectedRow>) {
    forall i, j :: 0 <= i < j < |rows| ==> RowLess(rows[i], rows[j])
  }

  /** Every stored row sits under its own key. */
  predicate Keyed(m: map<string, ProjectedRow>) {
    forall k :: k in m ==> k == RecordKey(m[k].table, m[k].recordId)
  }

  lemma RowLessTransitive(a: ProjectedRow, b: ProjectedRow, c: ProjectedRow)
    requires RowLess(a, b) && RowLess(b, c)
    ensures RowLess(a, c)
  {
    if Less(a.table, b.table) && Less(b.table, c.table) {
      LessTransitive(a.table, b.table, c.table);
    }
    if Less(a.recordId, b.recordId) && Less(b.recordId, c.recordId) {
      LessTransitive(a.recordId, b.recordId, c.recordId);
    }
  }

  lemma RowLessTotal(a: ProjectedRow, b: ProjectedRow)
    ensures RowLess(a, b) || RowLess(b, a) || (a.table == b.table && a.recordId == b.recordId)
    ensures !RowLess(a, a) && !(RowLess(a, b) && RowLess(b, a))
  {
    LessTotal(a.table, b.table);
    LessTotal(a.recordId, b.recordId);
    LessIrreflexive(a.table);
    LessIrreflexive(a.recordId);
  }

  /** A sorted list is determined by its members, so the view determines the output. */
  lemma {:induction false} SortedIsUnique(a: seq<ProjectedRow>, b: seq<ProjectedRow>)
    requires Sorted(a) && Sorted(b)
    requires forall row :: row in a <==> row in b
    ensures a == b
  {
    assert |a| > 0 ==> a[0] in a;
    assert |b| > 0 ==> b[0] in b;
    if a != [] {
      FirstIsLeast(a, b[0]);
      FirstIsLeast(b, a[0]);
      RowLessTotal(a[0], b[0]);
      assert a[0] == b[0];
      forall row
        ensures row in a[1..] <==> row in b[1..]
      {
        TailMembers(a, row);
        TailMembers(b, row);
      }
      SortedIsUnique(a[1..], b[1..]);
      assert a == [a[0]] + a[1..] && b == [b[0]] + b[1..];
    }
  }

  lemma FirstIsLeast(a: seq<ProjectedRow>, row: ProjectedRow)
    requires Sorted(a) && row in a
    ensures row == a[0] || RowLess(a[0], row)
  {}

  lemma TailMembers(a: seq<ProjectedRow>, row: ProjectedRow)
    requires Sorted(a) && a != []
    ensures row in a[1..] <==> row in a && row != a[0]
  {
    RowLessTotal(a[0], a[0]);
    assert a == [a[0]] + a[1..];
  }

  // ----- the pass -----

  method InsertSorted(rows: seq<ProjectedRow>, row: ProjectedRow) returns (r: seq<ProjectedRow>)
    requires Sorted(rows)
    requires forall other :: other in rows ==> other.table != row.table || other.recordId != row.recordId
    ensures Sorted(r) && forall x :: x in r <==> x in rows || x == row
  {
    var i := 0;
    while i < |rows| && RowLess(rows[i], row)
      invariant 0 <= i <= |rows|
      invariant forall j :: 0 <= j < i ==> RowLess(rows[j], row)
    {
      i := i + 1;
    }
    r := rows[..i] + [row] + rows[i..];
    InsertedSorted(rows, i, row);
    assert rows == rows[..i] + rows[i..];
  }

  lemma InsertedSorted(rows: seq<ProjectedRow>, i: nat, row: ProjectedRow)
    requires Sorted(rows) && i <= |rows|
    requires forall other :: other in rows ==> other.table != row.table || other.recordId != row.recordId
    requires forall j :: 0 <= j < i ==> RowLess(rows[j], row)
    requires i < |rows| ==> !RowLess(rows[i], row)
    ensures Sorted(rows[..i] + [row] + rows[i..])
  {
    forall j | i <= j < |rows|
      ensures RowLess(row, rows[j])
    {
      assert rows[i] in rows;
      RowLessTotal(rows[i], row);
      if i < j {
        RowLessTransitive(row, rows[i], rows[j]);
      }
    }
  }

  method SortRows(m: map<string, ProjectedRow>) returns (rows: seq<ProjectedRow>)
    requires Keyed(m)
    ensures Sorted(rows) && forall row :: row in rows <==> exists k :: k in m && m[k] == row
  {
    rows := [];
    var todo := m.Keys;
    while todo != {}
      invariant todo <= m.Keys && Sorted(rows)
      invariant forall row :: row in rows <==> exists k :: k in m && k !in todo && m[k] == row
      decreases todo
    {
      var k :| k in todo;
      forall other | other in rows
        ensures other.table != m[k].table || other.recordId != m[k].recordId
      {
        var k' :| k' in m && k' !in todo && m[k'] == other;
      }
      rows := InsertSorted(rows, m[k]);
      todo := todo - {k};
    }
  }

  method GroupRemote(remote: seq<BaseRow>) returns (grouped: map<string, seq<BaseRow>>)
    ensures grouped.Keys == KeySet(remote)
    ensures forall k :: k in grouped ==> grouped[k] == Group(remote, k) != []
    ensures forall k :: k !in grouped ==> Group(remote, k) == []
  {
    grouped := map[];
    for i := 0 to |remote|
      invariant grouped.Keys == KeySet(remote[..i])
      invariant forall k :: k in grouped ==> grouped[k] == Group(remote[..i], k) != []
      invariant forall k :: k !in grouped ==> Group(remote[..i], k) == []
    {
      var key := KeyOf(remote[i]);
      assert remote[..i + 1][..i] == remote[..i];
      KeySetGrows(remote, i);
      forall k
        ensures Group(remote[..i + 1], k) == Group(remote[..i], k) + if key == k then [remote[i]] else []
      {
        GroupGrows(remote, i, k);
      }
      grouped := grouped[key := (if key in grouped then grouped[key] else []) + [remote[i]]];
    }
    assert remote[..|remote|] == remote;
  }

  lemma GroupGrows(rows: seq<BaseRow>, i: nat, k: string)
    requires i < |rows|
    ensures Group(rows[..i + 1], k) == Group(rows[..i], k) + if KeyOf(rows[i]) == k then [rows[i]] else []
  {
    assert rows[..i + 1][..i] == rows[..i];
  }

  lemma KeySetGrows(rows: seq<BaseRow>, i: nat)
    requires i < |rows|
    ensures KeySet(rows[..i + 1]) == KeySet(rows[..i]) + {KeyOf(rows[i])}
  {
    forall k | k in KeySet(rows[..i + 1])
      ensures k in KeySet(rows[..i]) + {KeyOf(rows[i])}
    {
      var j :| 0 <= j < i + 1 && KeyOf(rows[..i + 1][j]) == k;
      if j < i {
        assert rows[..i][j] == rows[j];
      }
    }
    forall k | k in KeySet(rows[..i])
      ensures k in KeySet(rows[..i + 1])
    {
      var j :| 0 <= j < i && KeyOf(rows[..i][j]) == k;
      assert rows[..i + 1][j] == rows[j];
    }
    assert rows[..i + 1][i] == rows[i];
  }

  method SelectRemoteWinner(group: seq<BaseRow>) returns (winner: BaseRow)
    requires group != []
    ensures winner == Winner(group)
    ensures winner in group && forall row :: row in group ==> NumberOf(row.revision) <= NumberOf(winner.revision)
  {
    winner := group[0];
    for i := 1 to |group|
      invariant winner == Winner(group[..i])
    {
      assert group[..i + 1][..i] == group[..i];
      winner := Better(winner, group[i]);
    }
    assert group[..|group|] == group;
    WinnerIsHighest(group);
  }

  lemma {:induction false} BaseMapKeys(rows: seq<BaseRow>)
    ensures BaseMap(rows).Keys == KeySet(rows) && Keyed(BaseMap(rows))
  {
    if rows != [] {
      var n := |rows| - 1;
      BaseMapKeys(rows[..n]);
      KeySetGrows(rows, n);
      assert rows[..n + 1] == rows;
    }
  }

  method CollectLocal(local: seq<BaseRow>) returns (working: map<string, ProjectedRow>)
    ensures working == BaseMap(local) && Keyed(working)
  {
    working := map[];
    for i := 0 to |local|
      invariant working == BaseMap(local[..i])
    {
      assert local[..i + 1][..i] == local[..i];
      working := working[KeyOf(local[i]) := Project(local[i])];
    }
    assert local[..|local|] == local;
    BaseMapKeys(local);
  }

  /** Every record outside `todo` has met its remote winner. */
  ghost predicate PartlyMerged(working: map<string, ProjectedRow>, base: map<string, ProjectedRow>, remote: seq<BaseRow>, todo: set<string>) {
    forall k :: Lookup(working, k) == if k in todo then Lookup(base, k) else Merged(Lookup(base, k), Group(remote, k))
  }

  lemma MergeOne(working: map<string, ProjectedRow>, base: map<string, ProjectedRow>, remote: seq<BaseRow>, todo: set<string>, key: string)
    requires PartlyMerged(working, base, remote, todo) && key in todo && Group(remote, key) != []
    ensures var winner := Winner(Group(remote, key));
            PartlyMerged(
              if key !in working || CompareDecimal(winner.revision, working[key].revision).Greater? then working[key := Project(winner)] else working,
              base, remote, todo - {key})
  {
    assert Lookup(working, key) == Lookup(base, key);
  }

  method MergeAuthoritative(local: seq<BaseRow>, remote: seq<BaseRow>) returns (working: map<string, ProjectedRow>)
    ensures working == Authoritative(local, remote) && Keyed(working)
  {
    working := CollectLocal(local);
    ghost var base := working;
    var grouped := GroupRemote(remote);
    var todo := grouped.Keys;
    while todo != {}
      invariant todo <= grouped.Keys && Keyed(working) && PartlyMerged(working, base, remote, todo)
      decreases todo
    {
      var key :| key in todo;
      var winner := SelectRemoteWinner(grouped[key]);
      GroupMembers(remote, key, winner);
      MergeOne(working, base, remote, todo, key);
      if key !in working || CompareDecimal(winner.revision, working[key].revision).Greater? {
        working := working[key := Project(winner)];
      }
      todo := todo - {key};
    }
    MatchesAuthoritative(local, remote, working);
  }

  lemma MatchesAuthoritative(local: seq<BaseRow>, remote: seq<BaseRow>, working: map<string, ProjectedRow>)
    requires forall k :: Lookup(working, k) == Merged(Lookup(BaseMap(local), k), Group(remote, k))
    ensures working == Authoritative(local, remote)
  {
    var m := Authoritative(local, remote);
    BaseMapKeys(local);
    forall k
      ensures Lookup(m, k) == Lookup(working, k)
    {
      if k !in KeySet(remote) {
        NoGroup(remote, k);
      }
    }
    assert forall k :: k in working <==> Lookup(working, k).Some?;
    assert forall k :: k in m <==> Lookup(m, k).Some?;
    assert forall k :: k in working ==> Lookup(working, k).value == working[k] && Lookup(m, k).value == m[k];
  }

  lemma {:induction false} NoGroup(rows: seq<BaseRow>, k: string)
    requires k !in KeySet(rows)
    ensures Group(rows, k) == []
  {
    if rows != [] {
      var n := |rows| - 1;
      KeySetGrows(rows, n);
      assert rows[..n + 1] == rows;
      NoGroup(rows[..n], k);
    }
  }

  method ReplayOverlay(base: map<string, ProjectedRow>, overlay: seq<OverlayEntry>, acknowledged: set<string>)
    returns (r: Result<map<string, ProjectedRow>, Error>)
    requires Keyed(base)
    ensures r == Replay(base, overlay, acknowledged)
    ensures r.Ok? ==> Keyed(r.value)
  {
    var working := base;
    for i := 0 to |overlay|
      invariant Replay(base, overlay[..i], acknowledged) == Ok(working) && Keyed(working)
    {
      assert overlay[..i + 1][..i] == overlay[..i];
      var e := overlay[i];
      ReplayGrows(base, overlay, acknowledged, i, working);
      if e.mutationId in acknowledged {
        continue;
      }
      var policy := CanonicalizePolicy(e.policy);
      if policy.Err? {
        ErrorIsFinal(base, overlay, acknowledged, i + 1);
        return Err(policy.error);
      }
      if e.status == PENDING && policy.value.RemoteAcknowledged? {
        assert EntryKey(e) in working ==> working[EntryKey(e) := working[EntryKey(e)]] == working;
        continue;
      }
      var key := RecordKey(e.table, e.recordId);
      var payload := e.payload;
      if e.status == TRANSFORMED && e.transformedPayload.Some? {
        payload := e.transformedPayload;
      }
      var revision := if e.revision.Some? then e.revision.value else if key in working then working[key].revision else "0";
      var row := ProjectedRow(e.table, e.recordId, revision, e.operation, payload, e.status);
      assert row == EntryRow(e, Lookup(working, EntryKey(e)));
      working := working[key := row];
    }
    assert overlay[..|overlay|] == overlay;
    r := Ok(working);
  }

  lemma ReplayGrows(base: map<string, ProjectedRow>, overlay: seq<OverlayEntry>, acknowledged: set<string>, i: nat, m: map<string, ProjectedRow>)
    requires i < |overlay| && Replay(base, overlay[..i], acknowledged) == Ok(m)
    ensures var e := overlay[i];
            Replay(base, overlay[..i + 1], acknowledged) ==
            if e.mutationId in acknowledged then Ok(m)
            else
              match ApplyEntry(Lookup(m, EntryKey(e)), e)
              case Err(error) => Err(error)
              case Ok(None) => Ok(m)
              case Ok(Some(row)) => Ok(m[EntryKey(e) := row])
  {
    assert overlay[..i + 1][..i] == overlay[..i];
  }

  lemma {:induction false} ErrorIsFinal(base: map<string, ProjectedRow>, overlay: seq<OverlayEntry>, acknowledged: set<string>, i: nat)
    requires i <= |overlay| && Replay(base, overlay[..i], acknowledged).Err?
    ensures Replay(base, overlay, acknowledged) == Replay(base, overlay[..i], acknowledged)
    decreases |overlay|
  {
    if i == |overlay| {
      assert overlay[..i] == overlay;
    } else {
      var init := overlay[..|overlay| - 1];
      assert init[..i] == overlay[..i];
      ErrorIsFinal(base, init, acknowledged, i);
    }
  }

  /** Everything the rows shown must satisfy, in terms of the input. A record is shown exactly if it has an
      authoritative row or an effective entry, and its row shows its last effective entry, or else the
      authoritative row. */
  ghost predicate Shown(input: Input, acknowledged: set<string>, rows: seq<ProjectedRow>) {
    var base := Authoritative(input.localBase, input.remote);
    && Sorted(rows)
    && (forall row :: row in rows ==>
          Replayed(base, input.overlay, acknowledged, RecordKey(row.table, row.recordId), Some(row)))
    && forall key :: HasRow(rows, key) <==> key in base || HasEntry(input.overlay, acknowledged, key)
  }

  ghost predicate HasRow(rows: seq<ProjectedRow>, key: string) {
    exists row :: row in rows && RecordKey(row.table, row.recordId) == key
  }

  /** Some entry for the record has an effect. */
  ghost predicate HasEntry(overlay: seq<OverlayEntry>, acknowledged: set<string>, key: string) {
    exists i :: Last(overlay, acknowledged, key, i)
  }

  lemma RowOfKey(m: map<string, ProjectedRow>, rows: seq<ProjectedRow>, key: string)
    requires Keyed(m) && forall row :: row in rows <==> exists k :: k in m && m[k] == row
    ensures key in m <==> HasRow(rows, key)
  {
    if key in m {
      assert m[key] in rows;
    }
    if row :| row in rows && RecordKey(row.table, row.recordId) == key {
      var k :| k in m && m[k] == row;
    }
  }

  lemma KeyIsShown(working: map<string, ProjectedRow>, overlay: seq<OverlayEntry>, acknowledged: set<string>, m: map<string, ProjectedRow>, key: string)
    requires Replay(working, overlay, acknowledged) == Ok(m)
    ensures Replayed(working, overlay, acknowledged, key, Lookup(m, key))
    ensures key in m <==> key in working || HasEntry(overlay, acknowledged, key)
  {
    ReplayedExactly(working, overlay, acknowledged, key);
    ReplayKeeps(working, overlay, acknowledged, key);
    if i :| Last(overlay, acknowledged, key, i) {
      assert Lookup(m, key).Some?;
    } else {
      assert Lookup(m, key) == Lookup(working, key);
    }
  }

  lemma {:induction false} ReplayKeeps(working: map<string, ProjectedRow>, overlay: seq<OverlayEntry>, acknowledged: set<string>, key: string)
    requires Replay(working, overlay, acknowledged).Ok?
    ensures key in working ==> key in Replay(working, overlay, acknowledged).value
  {
    if overlay != [] {
      ReplayKeeps(working, overlay[..|overlay| - 1], acknowledged, key);
    }
  }

  lemma KeysAreShown(base: map<string, ProjectedRow>, overlay: seq<OverlayEntry>, acknowledged: set<string>, m: map<string, ProjectedRow>, rows: seq<ProjectedRow>)
    requires Replay(base, overlay, acknowledged) == Ok(m)
    requires Keyed(m) && forall row :: row in rows <==> exists k :: k in m && m[k] == row
    ensures forall key :: HasRow(rows, key) <==> key in base || HasEntry(overlay, acknowledged, key)
  {
    forall key
      ensures HasRow(rows, key) <==> key in base || HasEntry(overlay, acknowledged, key)
    {
      KeyIsShown(base, overlay, acknowledged, m, key);
      RowOfKey(m, rows, key);
    }
  }

  lemma ViewIsShown(input: Input, acknowledged: set<string>, m: map<string, ProjectedRow>, rows: seq<ProjectedRow>)
    requires Replay(Authoritative(input.localBase, input.remote), input.overlay, acknowledged) == Ok(m)
    requires Keyed(m) && Sorted(rows) && forall row :: row in rows <==> exists k :: k in m && m[k] == row
    ensures Shown(input, acknowledged, rows)
  {
    var base := Authoritative(input.localBase, input.remote);
    assert forall key :: HasRow(rows, key) <==> key in base || HasEntry(input.overlay, acknowledged, key) by {
      KeysAreShown(base, input.overlay, acknowledged, m, rows);
    }
    forall row | row in rows
      ensures Replayed(base, input.overlay, acknowledged, RecordKey(row.table, row.recordId), Some(row))
    {
      var k :| k in m && m[k] == row;
      KeyIsShown(base, input.overlay, acknowledged, m, k);
    }
  }

  /** The sorted rows of the replayed view, or the first policy error. */
  method ReconcileReadModel(input: Input) returns (r: Result<seq<ProjectedRow>, Error>)
    ensures var acknowledged := set id | id in input.acknowledged;
            && (r.Err? <==> exists i :: 0 <= i < |input.overlay| && Refused(input.overlay, acknowledged, i))
            && (forall i :: 0 <= i < |input.overlay| && FirstRefused(input.overlay, acknowledged, i) ==>
                  r == Err(UnknownPolicy(input.overlay[i].policy)))
            && (r.Ok? ==> Shown(input, acknowledged, r.value))
            && match Replay(Authoritative(input.localBase, input.remote), input.overlay, acknowledged)
               case Err(e) => r == Err(e)
               case Ok(m) => r.Ok? && Sorted(r.value) && forall row :: row in r.value <==> exists k :: k in m && m[k] == row
    ensures r.Ok? ==> forall i, j :: 0 <= i < j < |r.value| ==>
              || Less(r.value[i].table, r.value[j].table)
              || (r.value[i].table == r.value[j].table && Less(r.value[i].recordId, r.value[j].recordId))
  {
    var working := MergeAuthoritative(input.localBase, input.remote);
    var acknowledged := set id | id in input.acknowledged;
    ReplayFailsExactly(working, input.overlay, acknowledged);
    var replayed := ReplayOverlay(working, input.overlay, acknowledged);
    if replayed.Err? {
      return Err(replayed.error);
    }
    var rows := SortRows(replayed.value);
    ViewIsShown(input, acknowledged, replayed.value, rows);
    r := Ok(rows);
  }
}
