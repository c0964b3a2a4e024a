/** Delivery of remote rows in any number of batches, each merged into what was shown before. */
module ReadDelivery {
  import opened Wrappers
  import opened Decimal
  import opened ReadModel

  function Flatten(batches: seq<seq<BaseRow>>): seq<BaseRow> {
    if batches == [] then [] else Flatten(batches[..|batches| - 1]) + batches[|batches| - 1]
  }

  /** `m` is shown after the batches: the first is merged into the local rows, each later one into any
      listing of what was shown so far. */
  ghost predicate Delivers(local: seq<BaseRow>, batches: seq<seq<BaseRow>>, m: map<string, ProjectedRow>)
    decreases |batches|
  {
    && batches != []
    && var n := |batches| - 1;
       if n == 0 then m == Authoritative(local, batches[0])
       else exists before, shown :: Delivers(local, batches[..n], before) && Lists(shown, before) && m == Authoritative(shown, batches[n])
  }

  /** A delivery of exactly these remote rows, in any order, with any repetitions, split in any way. */
  ghost predicate Delivery(local: seq<BaseRow>, remote: seq<BaseRow>, batches: seq<seq<BaseRow>>, m: map<string, ProjectedRow>) {
    SameRows(Flatten(batches), remote) && Delivers(local, batches, m)
  }

  lemma FlattenOne(batch: seq<BaseRow>)
    ensures Flatten([batch]) == batch
  {
    assert [batch][..0] == [];
  }

  lemma {:induction false} NextBatchIsView(local: seq<BaseRow>, batches: seq<seq<BaseRow>>, before: map<string, ProjectedRow>, shown: seq<BaseRow>)
    requires batches != [] && Lists(shown, before)
    requires IsView(before, local + Flatten(batches[..|batches| - 1]))
    ensures IsView(Authoritative(shown, batches[|batches| - 1]), local + Flatten(batches))
  {
    var n := |batches| - 1;
    ViewsCompose(before, shown, local + Flatten(batches[..n]), batches[n]);
    assert local + Flatten(batches[..n]) + batches[n] == local + Flatten(batches);
  }

  /** Whatever the batches, each record is shown once, at the highest revision of all its rows. */
  lemma {:induction false} DeliveryIsView(local: seq<BaseRow>, batches: seq<seq<BaseRow>>, m: map<string, ProjectedRow>)
    requires UniqueKeys(local) && Delivers(local, batches, m)
    ensures IsView(m, local + Flatten(batches))
    decreases |batches|
  {
    var n := |batches| - 1;
    if n == 0 {
      FlattenOne(batches[0]);
      assert batches == [batches[0]];
      AuthoritativeIsView(local, batches[0]);
    } else {
      var before, shown :| Delivers(local, batches[..n], before) && Lists(shown, before) && m == Authoritative(shown, batches[n]);
      DeliveryIsView(local, batches[..n], before);
      NextBatchIsView(local, batches, before, shown);
    }
  }

  // ----- a row that is at the top already stays -----

  /** No row of the same record has a higher revision. */
  predicate NoneAbove(rows: seq<BaseRow>, row: BaseRow) {
    forall other :: other in rows && KeyOf(other) == KeyOf(row) ==> NumberOf(other.revision) <= NumberOf(row.revision)
  }

  lemma TopStays(shown: seq<BaseRow>, batch: seq<BaseRow>, row: BaseRow)
    requires UniqueKeys(shown) && row in shown
    requires NoneAbove(batch, row)
    ensures Lookup(Authoritative(shown, batch), KeyOf(row)) == Some(Project(row))
  {
    var k := KeyOf(row);
    BaseMapOfUnique(shown, k);
    assert k in KeySet(shown);
    var group := Group(batch, k);
    if group != [] {
      WinnerIsHighest(group);
      GroupMembers(batch, k, Winner(group));
      CompareDecimalIsNumeric(Winner(group).revision, row.revision);
    }
  }

  lemma {:induction false} NoneAbovePrefix(batches: seq<seq<BaseRow>>, row: BaseRow)
    requires batches != [] && NoneAbove(Flatten(batches), row)
    ensures NoneAbove(Flatten(batches[..|batches| - 1]), row) && NoneAbove(batches[|batches| - 1], row)
  {
    assert forall other :: other in Flatten(batches[..|batches| - 1]) || other in batches[|batches| - 1] ==> other in Flatten(batches);
  }

  lemma {:induction false} LocalStays(local: seq<BaseRow>, batches: seq<seq<BaseRow>>, m: map<string, ProjectedRow>, row: BaseRow)
    requires UniqueKeys(local) && Delivers(local, batches, m) && row in local
    requires NoneAbove(Flatten(batches), row)
    ensures Lookup(m, KeyOf(row)) == Some(Project(row))
    decreases |batches|
  {
    var n := |batches| - 1;
    if n == 0 {
      FlattenOne(batches[0]);
      assert batches == [batches[0]];
      TopStays(local, batches[0], row);
    } else {
      var before, shown :| Delivers(local, batches[..n], before) && Lists(shown, before) && m == Authoritative(shown, batches[n]);
      NoneAbovePrefix(batches, row);
      LocalStays(local, batches[..n], before, row);
      TopStays(shown, batches[n], AsBase(Project(row)));
    }
  }

  // ----- when delivery is irrelevant -----

  /** The local row of the record is already at the highest revision. */
  ghost predicate LocalOnTop(local: seq<BaseRow>, remote: seq<BaseRow>, k: string) {
    exists row :: row in local && HighestFor(row, local + remote, k)
  }

  /** All remote rows of the record at the highest revision are shown alike. */
  predicate TopsAlike(local: seq<BaseRow>, remote: seq<BaseRow>, k: string) {
    forall a, b :: a in remote && b in remote && HighestFor(a, local + remote, k) && HighestFor(b, local + remote, k) ==>
      Project(a) == Project(b)
  }

  ghost predicate TopSettled(local: seq<BaseRow>, remote: seq<BaseRow>) {
    forall k :: LocalOnTop(local, remote, k) || TopsAlike(local, remote, k)
  }

  lemma HighestSame(row: BaseRow, a: seq<BaseRow>, b: seq<BaseRow>, k: string)
    requires SameRows(a, b)
    ensures HighestFor(row, a, k) <==> HighestFor(row, b, k)
  {}

  lemma SameBehind(local: seq<BaseRow>, a: seq<BaseRow>, b: seq<BaseRow>)
    requires SameRows(a, b)
    ensures SameRows(local + a, local + b)
  {}

  /** What a delivery shows for a record: the local row if that is at the top, else a top remote row. */
  lemma DeliveredRow(local: seq<BaseRow>, remote: seq<BaseRow>, batches: seq<seq<BaseRow>>, m: map<string, ProjectedRow>, k: string)
    requires UniqueKeys(local) && Delivery(local, remote, batches, m)
    ensures k in m <==> exists row :: row in local + remote && KeyOf(row) == k
    ensures forall row :: row in local && HighestFor(row, local + remote, k) ==> k in m && m[k] == Project(row)
    ensures k in m && !LocalOnTop(local, remote, k) ==>
              exists row :: row in remote && HighestFor(row, local + remote, k) && m[k] == Project(row)
  {
    var rows := local + Flatten(batches);
    DeliveryIsView(local, batches, m);
    SameBehind(local, Flatten(batches), remote);
    if k in m {
      var x :| HighestFor(x, rows, k) && m[k] == Project(x);
      HighestSame(x, rows, local + remote, k);
      assert x in local + remote;
    }
    forall row | row in local + remote && KeyOf(row) == k
      ensures k in m
    {
      assert row in rows;
    }
    forall row | row in local && HighestFor(row, local + remote, k)
      ensures k in m && m[k] == Project(row)
    {
      HighestSame(row, rows, local + remote, k);
      LocalStays(local, batches, m, row);
    }
  }

  lemma DeliveriesAgreeAt(local: seq<BaseRow>, remote: seq<BaseRow>, a: seq<seq<BaseRow>>, m: map<string, ProjectedRow>,
                          b: seq<seq<BaseRow>>, n: map<string, ProjectedRow>, k: string)
    requires UniqueKeys(local) && Delivery(local, remote, a, m) && Delivery(local, remote, b, n)
    requires LocalOnTop(local, remote, k) || TopsAlike(local, remote, k)
    ensures Lookup(m, k) == Lookup(n, k)
  {
    DeliveredRow(local, remote, a, m, k);
    DeliveredRow(local, remote, b, n, k);
    if row :| row in local && HighestFor(row, local + remote, k) {
      assert m[k] == Project(row) == n[k];
    }
  }

  lemma {:induction false} DeliveriesAgree(local: seq<BaseRow>, remote: seq<BaseRow>, a: seq<seq<BaseRow>>, m: map<string, ProjectedRow>,
                                           b: seq<seq<BaseRow>>, n: map<string, ProjectedRow>)
    requires UniqueKeys(local) && TopSettled(local, remote)
    requires Delivery(local, remote, a, m) && Delivery(local, remote, b, n)
    ensures m == n
  {
    forall k
      ensures Lookup(m, k) == Lookup(n, k)
    {
      assert LocalOnTop(local, remote, k) || TopsAlike(local, remote, k);
      DeliveriesAgreeAt(local, remote, a, m, b, n, k);
    }
    SameLookups(m, n);
  }

  lemma SameLookups(m: map<string, ProjectedRow>, n: map<string, ProjectedRow>)
    requires forall k :: Lookup(m, k) == Lookup(n, k)
    ensures m == n
  {
    assert forall k :: k in m <==> Lookup(m, k).Some?;
    assert forall k :: k in n <==> Lookup(n, k).Some?;
    assert forall k :: k in m ==> Lookup(m, k).value == m[k] && Lookup(n, k).value == n[k];
  }

  /** Delivery does not matter: permuting, repeating, or splitting the remote rows into any number of
      batches gives the rows of one single batch. */
  lemma {:induction false} DeliveryInsensitive(local: seq<BaseRow>, remote: seq<BaseRow>, batches: seq<seq<BaseRow>>, m: map<string, ProjectedRow>)
    requires UniqueKeys(local) && TopSettled(local, remote) && Delivery(local, remote, batches, m)
    ensures m == Authoritative(local, remote)
  {
    FlattenOne(remote);
    DeliveriesAgree(local, remote, batches, m, [remote], Authoritative(local, remote));
  }

  /** Content fixed by record and revision is more than enough. */
  lemma ContentIsSettled(local: seq<BaseRow>, remote: seq<BaseRow>)
    requires ContentDetermined(local + remote)
    ensures TopSettled(local, remote)
  {}

  // ----- and only then -----

  predicate KeyedByRecord(m: map<string, ProjectedRow>) {
    forall k :: k in m ==> KeyOf(AsBase(m[k])) == k
  }

  lemma {:induction false} ListsExist(m: map<string, ProjectedRow>) returns (shown: seq<BaseRow>)
    requires KeyedByRecord(m)
    ensures Lists(shown, m)
    decreases |m|
  {
    if m == map[] {
      shown := [];
    } else {
      var k :| k in m;
      var rest := m - {k};
      assert |rest| < |m| by { assert m.Keys == rest.Keys + {k}; }
      var before := ListsExist(rest);
      shown := before + [AsBase(m[k])];
      ListsPush(rest, before, m, k);
    }
  }

  lemma ListsPush(rest: map<string, ProjectedRow>, before: seq<BaseRow>, m: map<string, ProjectedRow>, k: string)
    requires KeyedByRecord(m) && k in m && rest == m - {k} && Lists(before, rest)
    ensures Lists(before + [AsBase(m[k])], m)
  {
    var shown := before + [AsBase(m[k])];
    assert forall i :: 0 <= i < |before| ==> before[i] in before;
    forall j | j in m
      ensures AsBase(m[j]) in shown && KeyOf(AsBase(m[j])) == j
    {
      assert j != k ==> AsBase(rest[j]) in before;
    }
  }

  /** A remote row strictly above the local one is shown. */
  lemma NewTopWins(local: seq<BaseRow>, row: BaseRow)
    requires UniqueKeys(local)
    requires forall other :: other in local && KeyOf(other) == KeyOf(row) ==> NumberOf(other.revision) < NumberOf(row.revision)
    ensures Lookup(Authoritative(local, [row]), KeyOf(row)) == Some(Project(row))
  {
    var k := KeyOf(row);
    assert [row][..0] == [];
    assert Group([row], k) == [row];
    assert [row][0] == row && k in KeySet([row]);
    BaseMapOfUnique(local, k);
    if k in BaseMap(local) {
      var mine :| mine in local && KeyOf(mine) == k;
      CompareDecimalIsNumeric(row.revision, mine.revision);
    }
  }

  lemma StrictlyBelow(other: BaseRow, row: BaseRow, local: seq<BaseRow>, remote: seq<BaseRow>, k: string)
    requires other in local && KeyOf(other) == k && HighestFor(row, local + remote, k) && !LocalOnTop(local, remote, k)
    ensures NumberOf(other.revision) < NumberOf(row.revision)
  {
    assert !HighestFor(other, local + remote, k) && other in local + remote;
  }

  /** Delivered alone before everything else, a top remote row stays for good. */
  lemma FirstComesFirst(local: seq<BaseRow>, remote: seq<BaseRow>, row: BaseRow) returns (m: map<string, ProjectedRow>)
    requires UniqueKeys(local) && row in remote && HighestFor(row, local + remote, KeyOf(row))
    requires !LocalOnTop(local, remote, KeyOf(row))
    ensures Delivery(local, remote, [[row], remote], m)
    ensures Lookup(m, KeyOf(row)) == Some(Project(row))
  {
    var k, first := KeyOf(row), Authoritative(local, [row]);
    forall other | other in local && KeyOf(other) == k
      ensures NumberOf(other.revision) < NumberOf(row.revision)
    {
      StrictlyBelow(other, row, local, remote, k);
    }
    NewTopWins(local, row);
    AuthoritativeIsView(local, [row]);
    var shown := ListsExist(first);
    m := Authoritative(shown, remote);
    forall other | other in remote && KeyOf(other) == k
      ensures NumberOf(other.revision) <= NumberOf(row.revision)
    {
      assert other in local + remote;
    }
    TopStays(shown, remote, AsBase(Project(row)));
    TwoBatches(local, [row], remote, shown);
  }

  lemma TwoBatches(local: seq<BaseRow>, first: seq<BaseRow>, second: seq<BaseRow>, shown: seq<BaseRow>)
    requires Lists(shown, Authoritative(local, first))
    ensures Delivers(local, [first, second], Authoritative(shown, second))
    ensures Flatten([first, second]) == first + second
  {
    FlattenOne(first);
    assert [first, second][..1] == [first];
    assert Delivers(local, [first], Authoritative(local, first));
  }

  ghost predicate AlwaysTheSame(local: seq<BaseRow>, remote: seq<BaseRow>) {
    forall a, m, b, n :: Delivery(local, remote, a, m) && Delivery(local, remote, b, n) ==> m == n
  }

  lemma {:induction false} UnlikeTopsSplit(local: seq<BaseRow>, remote: seq<BaseRow>, k: string)
    requires UniqueKeys(local) && !LocalOnTop(local, remote, k) && !TopsAlike(local, remote, k)
    ensures !AlwaysTheSame(local, remote)
  {
    var x, y :| x in remote && y in remote && HighestFor(x, local + remote, k) && HighestFor(y, local + remote, k) && Project(x) != Project(y);
    UnlikeRowsSplit(local, remote, x, y);
  }

  lemma {:induction false} UnlikeRowsSplit(local: seq<BaseRow>, remote: seq<BaseRow>, x: BaseRow, y: BaseRow)
    requires UniqueKeys(local) && KeyOf(x) == KeyOf(y) && !LocalOnTop(local, remote, KeyOf(x)) && Project(x) != Project(y)
    requires x in remote && HighestFor(x, local + remote, KeyOf(x))
    requires y in remote && HighestFor(y, local + remote, KeyOf(y))
    ensures !AlwaysTheSame(local, remote)
  {
    var m := FirstComesFirst(local, remote, x);
    var n := FirstComesFirst(local, remote, y);
    DifferentDeliveries(local, remote, [[x], remote], m, [[y], remote], n);
  }

  lemma DifferentDeliveries(local: seq<BaseRow>, remote: seq<BaseRow>, a: seq<seq<BaseRow>>, m: map<string, ProjectedRow>,
                            b: seq<seq<BaseRow>>, n: map<string, ProjectedRow>)
    requires Delivery(local, remote, a, m) && Delivery(local, remote, b, n) && m != n
    ensures !AlwaysTheSame(local, remote)
  {}

  /** The exact condition: every delivery of the remote rows shows the same if and only if, for each
      record, the local row is at the highest revision already or the remote rows there look alike. */
  lemma {:induction false} DeliveryInsensitiveExactly(local: seq<BaseRow>, remote: seq<BaseRow>)
    requires UniqueKeys(local)
    ensures AlwaysTheSame(local, remote) <==> TopSettled(local, remote)
  {
    if TopSettled(local, remote) {
      forall a, m, b, n | Delivery(local, remote, a, m) && Delivery(local, remote, b, n)
        ensures m == n
      {
        DeliveriesAgree(local, remote, a, m, b, n);
      }
    } else {
      var k :| !LocalOnTop(local, remote, k) && !TopsAlike(local, remote, k);
      UnlikeTopsSplit(local, remote, k);
    }
  }
}
