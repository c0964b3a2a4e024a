/** What pending intent shows, entry by entry, without reference to how it is replayed. */
module ReadOverlay {
  import opened Wrappers
  import opened Text
  import opened Decimal
  import opened ReadModel

  /** The names a client may give to the three policies. */
  predicate MeansRemoteAcknowledged(policy: string) {
    policy in {"opto.consistency.remote-acknowledged.v1", "remote-acknowledged", "strict", "remote-confirmed", "await-server"}
  }

  predicate MeansWriteThrough(policy: string) {
    policy in {"opto.consistency.write-through-local-first.v1", "write-through-local-first", "local-then-remote", "local-first"}
  }

  predicate MeansQueued(policy: string) {
    policy in {"opto.consistency.queued-local-first.v1", "queued-local-first", "local-durable", "background"}
  }

  predicate Known(policy: string) {
    MeansRemoteAcknowledged(policy) || MeansWriteThrough(policy) || MeansQueued(policy)
  }

  /** The policy table knows exactly these names, and reads each in one way. */
  lemma PolicyNames(policy: string)
    ensures CanonicalizePolicy(policy) ==
            if MeansRemoteAcknowledged(policy) then Ok(RemoteAcknowledged)
            else if MeansWriteThrough(policy) then Ok(WriteThroughLocalFirst)
            else if MeansQueued(policy) then Ok(QueuedLocalFirst)
            else Err(UnknownPolicy(policy))
    ensures !(MeansRemoteAcknowledged(policy) && MeansWriteThrough(policy))
    ensures !(MeansRemoteAcknowledged(policy) && MeansQueued(policy)) && !(MeansWriteThrough(policy) && MeansQueued(policy))
  {}

  /** An entry takes effect unless it is acknowledged, or still pending under a policy that waits for the
      remote. */
  predicate Effective(e: OverlayEntry, acknowledged: set<string>) {
    e.mutationId !in acknowledged && !(e.status == "pending" && MeansRemoteAcknowledged(e.policy))
  }

  predicate For(e: OverlayEntry, acknowledged: set<string>, key: string) {
    RecordKey(e.table, e.recordId) == key && Effective(e, acknowledged)
  }

  /** The last effective entry of a record. */
  predicate Last(overlay: seq<OverlayEntry>, acknowledged: set<string>, key: string, i: int) {
    && 0 <= i < |overlay| && For(overlay[i], acknowledged, key)
    && forall j :: i < j < |overlay| ==> !For(overlay[j], acknowledged, key)
  }

  /** The last effective entry of a record that names a revision. */
  predicate LastRevision(overlay: seq<OverlayEntry>, acknowledged: set<string>, key: string, i: int) {
    && 0 <= i < |overlay| && For(overlay[i], acknowledged, key) && overlay[i].revision.Some?
    && forall j :: i < j < |overlay| && For(overlay[j], acknowledged, key) ==> overlay[j].revision.None?
  }

  /** What the last effective entry of a record shows: its own operation and status, the transformed payload
      if it has been transformed into one, and else its own. */
  predicate Shows(p: ProjectedRow, e: OverlayEntry) {
    && p.table == e.table && p.recordId == e.recordId && p.operation == e.operation && p.provenance == e.status
    && p.payload == if e.status == "transformed" && e.transformedPayload.Some? then e.transformedPayload else e.payload
  }

  /** The revision shown is that of the last effective entry that names one, else that of the authoritative
      row, else zero. */
  ghost predicate ShowsRevision(p: ProjectedRow, overlay: seq<OverlayEntry>, acknowledged: set<string>, key: string, base: Option<ProjectedRow>) {
    && (forall j :: LastRevision(overlay, acknowledged, key, j) ==> p.revision == overlay[j].revision.value)
    && ((forall j :: !LastRevision(overlay, acknowledged, key, j)) ==>
          p.revision == if base.Some? then base.value.revision else "0")
  }

  lemma LastPush(overlay: seq<OverlayEntry>, e: OverlayEntry, acknowledged: set<string>, key: string, i: int)
    ensures Last(overlay + [e], acknowledged, key, i) <==>
            if For(e, acknowledged, key) then i == |overlay| else Last(overlay, acknowledged, key, i)
    ensures LastRevision(overlay + [e], acknowledged, key, i) <==>
            if For(e, acknowledged, key) && e.revision.Some? then i == |overlay| else LastRevision(overlay, acknowledged, key, i)
  {
    var all := overlay + [e];
    assert all[|overlay|] == e && forall j :: 0 <= j < |overlay| ==> all[j] == overlay[j];
  }

  /** One more entry on a replayed map. */
  lemma ReplayPush(working: map<string, ProjectedRow>, overlay: seq<OverlayEntry>, e: OverlayEntry, acknowledged: set<string>, key: string)
    requires Replay(working, overlay + [e], acknowledged).Ok?
    ensures Replay(working, overlay, acknowledged).Ok?
    ensures var m, n := Replay(working, overlay, acknowledged).value, Replay(working, overlay + [e], acknowledged).value;
            if For(e, acknowledged, key) then
              && key in n && Shows(n[key], e)
              && n[key].revision == (if e.revision.Some? then e.revision.value else if key in m then m[key].revision else "0")
            else Lookup(n, key) == Lookup(m, key)
  {
    assert (overlay + [e])[..|overlay|] == overlay;
    PolicyNames(e.policy);
  }

  /** The row of a record after a successful replay. */
  ghost predicate Replayed(working: map<string, ProjectedRow>, overlay: seq<OverlayEntry>, acknowledged: set<string>, key: string, row: Option<ProjectedRow>) {
    && (forall i :: Last(overlay, acknowledged, key, i) ==>
          row.Some? && Shows(row.value, overlay[i]) && ShowsRevision(row.value, overlay, acknowledged, key, Lookup(working, key)))
    && ((forall i :: !Last(overlay, acknowledged, key, i)) ==> row == Lookup(working, key))
  }

  lemma {:induction false} SomeLast(overlay: seq<OverlayEntry>, acknowledged: set<string>, key: string, j: int)
    requires 0 <= j < |overlay| && For(overlay[j], acknowledged, key)
    ensures exists i :: Last(overlay, acknowledged, key, i)
    decreases |overlay|
  {
    var n := |overlay| - 1;
    if For(overlay[n], acknowledged, key) {
      assert Last(overlay, acknowledged, key, n);
    } else {
      SomeLast(overlay[..n], acknowledged, key, j);
      var i :| Last(overlay[..n], acknowledged, key, i);
      assert overlay == overlay[..n] + [overlay[n]];
      LastPush(overlay[..n], overlay[n], acknowledged, key, i);
    }
  }

  lemma KeepsShown(working: map<string, ProjectedRow>, overlay: seq<OverlayEntry>, e: OverlayEntry, acknowledged: set<string>, key: string, row: Option<ProjectedRow>)
    requires Replayed(working, overlay, acknowledged, key, row) && !For(e, acknowledged, key)
    ensures Replayed(working, overlay + [e], acknowledged, key, row)
  {
    var all := overlay + [e];
    forall i
      ensures Last(all, acknowledged, key, i) <==> Last(overlay, acknowledged, key, i)
      ensures LastRevision(all, acknowledged, key, i) <==> LastRevision(overlay, acknowledged, key, i)
      ensures LastRevision(overlay, acknowledged, key, i) || Last(overlay, acknowledged, key, i) ==> all[i] == overlay[i]
    {
      LastPush(overlay, e, acknowledged, key, i);
    }
  }

  lemma NewShown(working: map<string, ProjectedRow>, overlay: seq<OverlayEntry>, e: OverlayEntry, acknowledged: set<string>, key: string,
                 before: Option<ProjectedRow>, row: ProjectedRow)
    requires Replayed(working, overlay, acknowledged, key, before) && For(e, acknowledged, key) && Shows(row, e)
    requires row.revision == if e.revision.Some? then e.revision.value else if before.Some? then before.value.revision else "0"
    ensures Replayed(working, overlay + [e], acknowledged, key, Some(row))
  {
    var all := overlay + [e];
    forall i
      ensures Last(all, acknowledged, key, i) <==> i == |overlay|
      ensures e.revision.Some? ==> (LastRevision(all, acknowledged, key, i) <==> i == |overlay|)
      ensures e.revision.None? ==> (LastRevision(all, acknowledged, key, i) <==> LastRevision(overlay, acknowledged, key, i))
      ensures LastRevision(overlay, acknowledged, key, i) ==> all[i] == overlay[i]
    {
      LastPush(overlay, e, acknowledged, key, i);
    }
    assert all[|overlay|] == e && Last(all, acknowledged, key, |overlay|);
    if e.revision.None? {
      if j :| LastRevision(overlay, acknowledged, key, j) {
        SomeLast(overlay, acknowledged, key, j);
      }
    }
  }

  /** After a successful replay every record shows its last effective entry, or else what it showed before. */
  lemma {:induction false} ReplayedExactly(working: map<string, ProjectedRow>, overlay: seq<OverlayEntry>, acknowledged: set<string>, key: string)
    requires Replay(working, overlay, acknowledged).Ok?
    ensures Replayed(working, overlay, acknowledged, key, Lookup(Replay(working, overlay, acknowledged).value, key))
  {
    if overlay != [] {
      var init, e := overlay[..|overlay| - 1], overlay[|overlay| - 1];
      assert overlay == init + [e];
      ReplayPush(working, init, e, acknowledged, key);
      ReplayedExactly(working, init, acknowledged, key);
      var before := Lookup(Replay(working, init, acknowledged).value, key);
      if For(e, acknowledged, key) {
        NewShown(working, init, e, acknowledged, key, before, Replay(working, overlay, acknowledged).value[key]);
      } else {
        KeepsShown(working, init, e, acknowledged, key, before);
      }
    }
  }

  /** An unacknowledged entry whose policy nobody knows. */
  predicate Refused(overlay: seq<OverlayEntry>, acknowledged: set<string>, i: nat)
    requires i < |overlay|
  {
    overlay[i].mutationId !in acknowledged && !Known(overlay[i].policy)
  }

  predicate FirstRefused(overlay: seq<OverlayEntry>, acknowledged: set<string>, i: nat)
    requires i < |overlay|
  {
    Refused(overlay, acknowledged, i) && forall j :: 0 <= j < i ==> !Refused(overlay, acknowledged, j)
  }

  lemma RefusedPrefix(overlay: seq<OverlayEntry>, e: OverlayEntry, acknowledged: set<string>, i: nat)
    requires i < |overlay|
    ensures Refused(overlay + [e], acknowledged, i) <==> Refused(overlay, acknowledged, i)
    ensures FirstRefused(overlay + [e], acknowledged, i) <==> FirstRefused(overlay, acknowledged, i)
  {
    assert forall j :: 0 <= j <= i ==> (overlay + [e])[j] == overlay[j];
    assert forall j :: 0 <= j <= i ==> (Refused(overlay + [e], acknowledged, j) <==> Refused(overlay, acknowledged, j));
  }

  /** Replay fails exactly if there is one, with the policy of the first. */
  lemma {:induction false} ReplayFailsExactly(working: map<string, ProjectedRow>, overlay: seq<OverlayEntry>, acknowledged: set<string>)
    ensures Replay(working, overlay, acknowledged).Err? <==> exists i :: 0 <= i < |overlay| && Refused(overlay, acknowledged, i)
    ensures forall i :: 0 <= i < |overlay| && FirstRefused(overlay, acknowledged, i) ==>
              Replay(working, overlay, acknowledged) == Err(UnknownPolicy(overlay[i].policy))
  {
    if overlay != [] {
      var n := |overlay| - 1;
      var init, e := overlay[..n], overlay[n];
      assert overlay == init + [e];
      ReplayFailsExactly(working, init, acknowledged);
      PolicyNames(e.policy);
      forall i | 0 <= i < n
        ensures Refused(overlay, acknowledged, i) <==> Refused(init, acknowledged, i)
        ensures FirstRefused(overlay, acknowledged, i) <==> FirstRefused(init, acknowledged, i)
      {
        RefusedPrefix(init, e, acknowledged, i);
      }
      ReplayLast(working, init, e, acknowledged);
      assert Refused(overlay, acknowledged, n) <==> e.mutationId !in acknowledged && !Known(e.policy);
      if Replay(working, init, acknowledged).Err? {
        var i :| 0 <= i < |init| && Refused(init, acknowledged, i);
        assert Refused(overlay, acknowledged, i);
      }
      if i :| 0 <= i < |overlay| && Refused(overlay, acknowledged, i) {
        assert i < n ==> Refused(init, acknowledged, i);
      }
    }
  }

  lemma ReplayLast(working: map<string, ProjectedRow>, overlay: seq<OverlayEntry>, e: OverlayEntry, acknowledged: set<string>)
    ensures Replay(working, overlay, acknowledged).Err? ==>
              Replay(working, overlay + [e], acknowledged) == Replay(working, overlay, acknowledged)
    ensures Replay(working, overlay, acknowledged).Ok? ==>
              if e.mutationId !in acknowledged && !Known(e.policy) then Replay(working, overlay + [e], acknowledged) == Err(UnknownPolicy(e.policy))
              else Replay(working, overlay + [e], acknowledged).Ok?
  {
    assert (overlay + [e])[..|overlay|] == overlay;
    PolicyNames(e.policy);
  }

  // ----- authoritative rows -----

  /** An authoritative row is, field by field, a row of its record at the highest revision. */
  lemma AuthoritativeShows(local: seq<BaseRow>, remote: seq<BaseRow>, key: string)
    requires UniqueKeys(local) && key in Authoritative(local, remote)
    ensures exists row :: HighestFor(row, local + remote, key)
              && var p := Authoritative(local, remote)[key];
                 && p.table == row.table && p.recordId == row.recordId && p.revision == row.revision
                 && p.operation == row.operation && p.payload == row.payload && p.provenance == "authoritative"
  {
    AuthoritativeIsView(local, remote);
    var row :| HighestFor(row, local + remote, key) && Authoritative(local, remote)[key] == Project(row);
  }

  /** Between remote rows of one record at the highest revision the smallest mutation id wins, no id at all
      before any other, and the first of equals. */
  predicate Preferred(group: seq<BaseRow>, i: int) {
    && 0 <= i < |group|
    && (forall j :: 0 <= j < |group| ==>
          NumberOf(group[j].revision) < NumberOf(group[i].revision)
          || (NumberOf(group[j].revision) == NumberOf(group[i].revision)
              && !Less(group[j].identity.GetOr(""), group[i].identity.GetOr(""))))
    && (forall j :: 0 <= j < i ==>
          NumberOf(group[j].revision) < NumberOf(group[i].revision)
          || group[j].identity.GetOr("") != group[i].identity.GetOr(""))
  }

  lemma PreferredPush(group: seq<BaseRow>, row: BaseRow, i: int)
    requires Preferred(group, i)
    ensures if Better(group[i], row) == row && Better(group[i], row) != group[i] then Preferred(group + [row], |group|) else Preferred(group + [row], i)
  {
    CompareDecimalIsNumeric(row.revision, group[i].revision);
    var all := group + [row];
    assert all[|group|] == row && forall j :: 0 <= j < |group| ==> all[j] == group[j];
    forall j | 0 <= j < |group|
      ensures !Less(group[j].identity.GetOr(""), row.identity.GetOr(""))
              || Less(group[j].identity.GetOr(""), group[i].identity.GetOr(""))
              || !Less(row.identity.GetOr(""), group[i].identity.GetOr(""))
    {
      if Less(group[j].identity.GetOr(""), row.identity.GetOr("")) && Less(row.identity.GetOr(""), group[i].identity.GetOr("")) {
        LessTransitive(group[j].identity.GetOr(""), row.identity.GetOr(""), group[i].identity.GetOr(""));
      }
    }
    LessIrreflexive(row.identity.GetOr(""));
  }

  /** The remote winner is the preferred row of its group. */
  lemma {:induction false} WinnerIsPreferred(group: seq<BaseRow>) returns (i: nat)
    requires group != []
    ensures Preferred(group, i) && Winner(group) == group[i]
  {
    var n := |group| - 1;
    if n == 0 {
      LessIrreflexive(group[0].identity.GetOr(""));
      i := 0;
    } else {
      var before := WinnerIsPreferred(group[..n]);
      PreferredPush(group[..n], group[n], before);
      assert group[..n] + [group[n]] == group;
      i := if Better(group[before], group[n]) == group[n] && group[n] != group[before] then n else before;
    }
  }
}
