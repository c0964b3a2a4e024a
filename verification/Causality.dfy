/** Many clocks exchanging timestamps, with wall-clock rollback and crashes that reload persistence. */
module Causality {
  import opened Wrappers
  import opened Text
  import opened Hlc
  import opened Clock

  /** One device: its live clock, and the persistence slot the clock saves to. */
  datatype Device = Device(nodeId: string, store: nat, maxDrift: nat, state: State)

  datatype World = World(devices: seq<Device>, stores: map<nat, string>) {
    function Saved(store: nat): Option<string> {
      if store in stores then Some(stores[store]) else None
    }
  }

  datatype Op =
    | Issue(d: nat, wall: nat)
    | Receive(d: nat, remote: string, wall: nat)
    | Restart(d: nat, nodeId: string)

  /** What `next` returns at this step; `None` also when it panics. */
  function Issued(w: World, op: Op): Option<string> {
    if op.Issue? && op.d < |w.devices| then
      var device := w.devices[op.d];
      var s := Advance(device.state, op.wall);
      if s.Printable() && ValidNodeId(device.nodeId) then Some(s.Stamp(device.nodeId)) else None
    else None
  }

  /** The timestamp was readable and `observe` did not refuse it. */
  predicate Accepted(w: World, op: Op) {
    && op.Receive? && op.d < |w.devices| && Parse(op.remote).Some?
    && Observed(w.devices[op.d].state, op.remote, op.wall, w.devices[op.d].maxDrift).1.None?
  }

  function WithState(w: World, d: nat, s: State): World
    requires d < |w.devices|
  {
    w.(devices := w.devices[d := w.devices[d].(state := s)])
  }

  /** A clock that changed its state saves the new stamp in the same call. */
  function Keep(w: World, d: nat, s: State): World
    requires d < |w.devices| && ValidNodeId(w.devices[d].nodeId) && s.Printable()
  {
    var device := w.devices[d];
    WithState(w, d, s).(stores := w.stores[device.store := s.Stamp(device.nodeId)])
  }

  /** A panic inside `next` is a crash of the device: it comes back from its persistence. */
  function Step(w: World, op: Op): World {
    if op.d >= |w.devices| || !ValidNodeId(w.devices[op.d].nodeId) then w
    else
      var device := w.devices[op.d];
      match op
      case Issue(d, wall) =>
        var s := Advance(device.state, wall);
        if s.Printable() then Keep(w, d, s) else WithState(w, d, Load(w.Saved(device.store)))
      case Receive(d, remote, wall) =>
        var s := Observed(device.state, remote, wall, device.maxDrift).0;
        if s == device.state || !s.Printable() then w else Keep(w, d, s)
      case Restart(d, nodeId) =>
        if !ValidNodeId(nodeId) then w
        else w.(devices := w.devices[d := Device(nodeId, device.store, device.maxDrift, Load(w.Saved(device.store)))])
  }

  function After(w: World, ops: seq<Op>): World {
    if ops == [] then w else Step(After(w, ops[..|ops| - 1]), ops[|ops| - 1])
  }

  function IssuedAt(w: World, ops: seq<Op>, i: nat): Option<string>
    requires i < |ops|
  {
    Issued(After(w, ops[..i]), ops[i])
  }

  predicate AcceptedAt(w: World, ops: seq<Op>, r: nat)
    requires r < |ops|
  {
    Accepted(After(w, ops[..r]), ops[r])
  }

  // ----- happened before -----

  /** The timestamp issued at `i` reached the issuing device of `j` before `j`. */
  ghost predicate Delivered(w: World, ops: seq<Op>, i: nat, j: nat)
    requires i < j < |ops| && IssuedAt(w, ops, i).Some?
  {
    exists r: nat :: i < r < j && AcceptedAt(w, ops, r) && ops[r].d == ops[j].d
                     && ops[r].remote == IssuedAt(w, ops, i).value
  }

  ghost predicate DirectlyBefore(w: World, ops: seq<Op>, i: nat, j: nat) {
    && i < j < |ops|
    && IssuedAt(w, ops, i).Some? && IssuedAt(w, ops, j).Some?
    && (ops[i].d == ops[j].d || Delivered(w, ops, i, j))
  }

  /** A chain of issues, each directly before the next. */
  ghost predicate Chain(w: World, ops: seq<Op>, path: seq<nat>) {
    |path| >= 2 && forall k :: 0 <= k < |path| - 1 ==> DirectlyBefore(w, ops, path[k], path[k + 1])
  }

  ghost predicate HappenedBefore(w: World, ops: seq<Op>, i: nat, j: nat) {
    exists path :: Chain(w, ops, path) && path[0] == i && path[|path| - 1] == j
  }

  // ----- worlds in which every clock owns its persistence -----

  predicate PrivateStores(w: World) {
    forall a, b :: 0 <= a < b < |w.devices| ==> w.devices[a].store != w.devices[b].store
  }

  /** Every clock was just created or has saved whatever it issued or adopted. */
  predicate Coherent(w: World) {
    forall d :: 0 <= d < |w.devices| ==>
      ValidNodeId(w.devices[d].nodeId) && w.devices[d].state == Load(w.Saved(w.devices[d].store))
  }

  /** Saving a later state of one device disturbs no other device. */
  lemma KeepKeeps(w: World, d: nat, s: State)
    requires PrivateStores(w) && Coherent(w)
    requires d < |w.devices| && s.Printable()
    requires ValidNodeId(w.devices[d].nodeId)
    ensures PrivateStores(Keep(w, d, s)) && Coherent(Keep(w, d, s))
  {
    var u, stamp := Keep(w, d, s), s.Stamp(w.devices[d].nodeId);
    LoadOfStamp(s, w.devices[d].nodeId);
    assert u.Saved(w.devices[d].store) == Some(stamp);
    forall e | 0 <= e < |w.devices|
      ensures ValidNodeId(u.devices[e].nodeId) && u.devices[e].state == Load(u.Saved(u.devices[e].store))
    {
      if e != d {
        assert w.devices[e].store != w.devices[d].store;
        assert u.Saved(w.devices[e].store) == w.Saved(w.devices[e].store);
      }
    }
  }

  /** The invariant is kept and no device loses ground. */
  ghost predicate Advanced(w: World, u: World) {
    && PrivateStores(u) && Coherent(u) && |u.devices| == |w.devices|
    && forall d :: 0 <= d < |w.devices| ==> w.devices[d].state.Packed() <= u.devices[d].state.Packed()
  }

  lemma IssueKeeps(w: World, d: nat, wall: nat)
    requires PrivateStores(w) && Coherent(w) && d < |w.devices|
    ensures Advanced(w, Step(w, Issue(d, wall)))
  {
    var device := w.devices[d];
    var s := Advance(device.state, wall);
    LoadIsPrintable(w.Saved(device.store));
    AdvanceIsMax(device.state, wall);
    if s.Printable() {
      KeepKeeps(w, d, s);
    } else {
      assert WithState(w, d, Load(w.Saved(device.store))) == w;
    }
  }

  lemma ReceiveKeeps(w: World, d: nat, remote: string, wall: nat)
    requires PrivateStores(w) && Coherent(w) && d < |w.devices|
    ensures Advanced(w, Step(w, Receive(d, remote, wall)))
  {
    var device := w.devices[d];
    var s := Observed(device.state, remote, wall, device.maxDrift).0;
    if s != device.state && s.Printable() {
      LoadIsPrintable(w.Saved(device.store));
      FormatOfParse(remote);
      AdoptIsMax(device.state, Parse(remote).value);
      KeepKeeps(w, d, s);
    }
  }

  /** A crash loses nothing: the device comes back where it was, under the node id it is given if that is usable. */
  lemma RestartKeeps(w: World, d: nat, nodeId: string)
    requires PrivateStores(w) && Coherent(w) && d < |w.devices|
    ensures Advanced(w, Step(w, Restart(d, nodeId)))
    ensures Step(w, Restart(d, nodeId)) == if ValidNodeId(nodeId) then w.(devices := w.devices[d := w.devices[d].(nodeId := nodeId)]) else w
  {}

  /** One step keeps the invariant, and the stepping device does not lose ground. */
  lemma {:induction false} StepKeeps(w: World, op: Op)
    requires PrivateStores(w) && Coherent(w)
    ensures PrivateStores(Step(w, op)) && Coherent(Step(w, op))
    ensures |Step(w, op).devices| == |w.devices|
    ensures forall d :: 0 <= d < |w.devices| ==>
              w.devices[d].state.Packed() <= Step(w, op).devices[d].state.Packed()
    ensures forall d :: 0 <= d < |w.devices| && d != op.d ==> Step(w, op).devices[d] == w.devices[d]
  {
    if op.d < |w.devices| {
      match op
      case Issue(d, wall) => IssueKeeps(w, d, wall);
      case Receive(d, remote, wall) => ReceiveKeeps(w, d, remote, wall);
      case Restart(d, nodeId) => RestartKeeps(w, d, nodeId);
    }
  }

  /** Crashes included, no device ever falls behind a value it has held. */
  lemma {:induction false} NeverFallsBack(w: World, ops: seq<Op>, i: nat, j: nat)
    requires PrivateStores(w) && Coherent(w)
    requires i <= j <= |ops|
    ensures var v, u := After(w, ops[..i]), After(w, ops[..j]);
            && PrivateStores(u) && Coherent(u) && |v.devices| == |u.devices| == |w.devices|
            && forall d :: 0 <= d < |w.devices| ==> v.devices[d].state.Packed() <= u.devices[d].state.Packed()
    decreases j
  {
    if j > 0 {
      assert ops[..j][..j - 1] == ops[..j - 1];
      if i < j {
        NeverFallsBack(w, ops, i, j - 1);
      } else {
        NeverFallsBack(w, ops, j - 1, j - 1);
      }
      StepKeeps(After(w, ops[..j - 1]), ops[j - 1]);
    }
  }

  lemma IssueStep(w: World, op: Op)
    requires Issued(w, op).Some? && w.devices[op.d].state.Printable()
    ensures op.d < |Step(w, op).devices| == |w.devices|
    ensures var s := Step(w, op).devices[op.d].state;
            && s.Printable() && ValidNodeId(w.devices[op.d].nodeId)
            && Issued(w, op).value == s.Stamp(w.devices[op.d].nodeId)
            && w.devices[op.d].state.Packed() < s.Packed()
  {
    AdvanceIsMax(w.devices[op.d].state, op.wall);
  }

  /** When a device issues at all: with a usable node id, unless the formatter would panic. */
  lemma IssuesExactly(w: World, d: nat, wall: nat)
    requires Coherent(w) && d < |w.devices|
    ensures Issued(w, Issue(d, wall)).Some? <==>
            wall <= 9_999_999_999_999 && w.devices[d].state != State(9_999_999_999_999, 0xffff)
  {
    LoadIsPrintable(w.Saved(w.devices[d].store));
    NextPanicsExactly(w.devices[d].state, wall);
    AdvanceIsMax(w.devices[d].state, wall);
  }

  /** When a device accepts: any timestamp that is not beyond its wall clock by more than the drift bound. */
  lemma AcceptsExactly(w: World, d: nat, remote: string, wall: nat)
    requires d < |w.devices|
    ensures Accepted(w, Receive(d, remote, wall)) <==>
            Parse(remote).Some? && Parse(remote).value.millis <= wall + w.devices[d].maxDrift
  {}

  /** An issued stamp carries the device's new packed value, which exceeds the old one. */
  lemma IssueRaises(w: World, ops: seq<Op>, i: nat)
    requires PrivateStores(w) && Coherent(w)
    requires i < |ops| && IssuedAt(w, ops, i).Some?
    ensures var d := ops[i].d;
            var before, after := After(w, ops[..i]), After(w, ops[..i + 1]);
            && d < |before.devices| == |after.devices|
            && var s := after.devices[d].state;
               && s.Printable() && ValidNodeId(before.devices[d].nodeId)
               && IssuedAt(w, ops, i).value == s.Stamp(before.devices[d].nodeId)
               && before.devices[d].state.Packed() < s.Packed()
  {
    NeverFallsBack(w, ops, i, i);
    assert ops[..i + 1][..i] == ops[..i];
    var before := After(w, ops[..i]);
    LoadIsPrintable(before.Saved(before.devices[ops[i].d].store));
    IssueStep(before, ops[i]);
  }

  lemma ReceiveCatchesUp(w: World, ops: seq<Op>, r: nat, s: State, nodeId: string)
    requires PrivateStores(w) && Coherent(w)
    requires r < |ops| && AcceptedAt(w, ops, r)
    requires s.Printable() && ValidNodeId(nodeId) && ops[r].remote == s.Stamp(nodeId)
    ensures ops[r].d < |After(w, ops[..r + 1]).devices|
    ensures s.Packed() <= After(w, ops[..r + 1]).devices[ops[r].d].state.Packed()
  {
    NeverFallsBack(w, ops, r, r);
    assert ops[..r + 1][..r] == ops[..r];
    var before := After(w, ops[..r]);
    ParseOfFormat(HlcParts(s.millis, s.counter, nodeId));
    LoadIsPrintable(before.Saved(before.devices[ops[r].d].store));
    AdoptIsMax(before.devices[ops[r].d].state, Parse(ops[r].remote).value);
  }

  /** A device that accepted a stamp stays at or past it. */
  lemma StaysPast(w: World, ops: seq<Op>, r: nat, j: nat, s: State, nodeId: string)
    requires PrivateStores(w) && Coherent(w)
    requires r < j <= |ops| && AcceptedAt(w, ops, r)
    requires s.Printable() && ValidNodeId(nodeId) && ops[r].remote == s.Stamp(nodeId)
    ensures ops[r].d < |After(w, ops[..j]).devices|
    ensures s.Packed() <= After(w, ops[..j]).devices[ops[r].d].state.Packed()
  {
    ReceiveCatchesUp(w, ops, r, s, nodeId);
    NeverFallsBack(w, ops, r + 1, j);
  }

  /** The issuing device of `j` has caught up with the stamp of `i` before it issues. */
  lemma CaughtUp(w: World, ops: seq<Op>, i: nat, j: nat, s: State, nodeId: string)
    requires PrivateStores(w) && Coherent(w)
    requires DirectlyBefore(w, ops, i, j) && s.Printable() && ValidNodeId(nodeId) && IssuedAt(w, ops, i).value == s.Stamp(nodeId)
    requires ops[i].d < |After(w, ops[..i + 1]).devices| && s == After(w, ops[..i + 1]).devices[ops[i].d].state
    ensures ops[j].d < |After(w, ops[..j]).devices|
    ensures s.Packed() <= After(w, ops[..j]).devices[ops[j].d].state.Packed()
  {
    if ops[i].d == ops[j].d {
      NeverFallsBack(w, ops, i + 1, j);
    } else {
      var r: nat :| i < r < j && AcceptedAt(w, ops, r) && ops[r].d == ops[j].d
                    && ops[r].remote == IssuedAt(w, ops, i).value;
      StaysPast(w, ops, r, j, s, nodeId);
    }
  }

  lemma DirectOrder(w: World, ops: seq<Op>, i: nat, j: nat)
    requires PrivateStores(w) && Coherent(w)
    requires DirectlyBefore(w, ops, i, j)
    ensures Less(IssuedAt(w, ops, i).value, IssuedAt(w, ops, j).value)
  {
    IssueRaises(w, ops, i);
    IssueRaises(w, ops, j);
    var si := After(w, ops[..i + 1]).devices[ops[i].d].state;
    var sj := After(w, ops[..j + 1]).devices[ops[j].d].state;
    var ni, nj := After(w, ops[..i]).devices[ops[i].d].nodeId, After(w, ops[..j]).devices[ops[j].d].nodeId;
    CaughtUp(w, ops, i, j, si, ni);
    assert si.Packed() < sj.Packed();
    PackedOrder(HlcParts(si.millis, si.counter, ni), HlcParts(sj.millis, sj.counter, nj));
  }

  lemma {:induction false} ChainOrder(w: World, ops: seq<Op>, path: seq<nat>)
    requires PrivateStores(w) && Coherent(w)
    requires Chain(w, ops, path)
    ensures path[0] < path[|path| - 1] < |ops|
    ensures IssuedAt(w, ops, path[0]).Some? && IssuedAt(w, ops, path[|path| - 1]).Some?
    ensures Less(IssuedAt(w, ops, path[0]).value, IssuedAt(w, ops, path[|path| - 1]).value)
    decreases |path|
  {
    var n := |path| - 1;
    assert DirectlyBefore(w, ops, path[n - 1], path[n]);
    DirectOrder(w, ops, path[n - 1], path[n]);
    if n > 1 {
      ChainOrder(w, ops, path[..n]);
      LessTransitive(IssuedAt(w, ops, path[0]).value, IssuedAt(w, ops, path[n - 1]).value, IssuedAt(w, ops, path[n]).value);
    }
  }

  /** Causality: what happened before compares smaller, as plain text, in every run. */
  lemma HappenedBeforeIsTextOrder(w: World, ops: seq<Op>, i: nat, j: nat)
    requires PrivateStores(w) && Coherent(w)
    requires HappenedBefore(w, ops, i, j)
    ensures i < j < |ops| && IssuedAt(w, ops, i).Some? && IssuedAt(w, ops, j).Some?
    ensures Less(IssuedAt(w, ops, i).value, IssuedAt(w, ops, j).value)
  {
    var path :| Chain(w, ops, path) && path[0] == i && path[|path| - 1] == j;
    ChainOrder(w, ops, path);
  }

  // ----- no two timestamps are ever equal -----

  /** Node ids are handed out so that no two devices ever use the same one. */
  predicate DistinctNodeIds(w: World, ops: seq<Op>, home: map<string, nat>) {
    && (forall d :: 0 <= d < |w.devices| ==> w.devices[d].nodeId in home && home[w.devices[d].nodeId] == d)
    && (forall i :: 0 <= i < |ops| && ops[i].Restart? ==> ops[i].nodeId in home && home[ops[i].nodeId] == ops[i].d)
  }

  lemma {:induction false} NodeIdsStayHome(w: World, ops: seq<Op>, home: map<string, nat>, i: nat)
    requires DistinctNodeIds(w, ops, home) && i <= |ops|
    ensures DistinctNodeIds(After(w, ops[..i]), ops, home)
    ensures |After(w, ops[..i]).devices| == |w.devices|
  {
    if i > 0 {
      assert ops[..i][..i - 1] == ops[..i - 1];
      NodeIdsStayHome(w, ops, home, i - 1);
    }
  }

  /** Two issues, anywhere in a run, never produce the same text. */
  lemma IssuesNeverTie(w: World, ops: seq<Op>, home: map<string, nat>, i: nat, j: nat)
    requires PrivateStores(w) && Coherent(w) && DistinctNodeIds(w, ops, home)
    requires i < j < |ops| && IssuedAt(w, ops, i).Some? && IssuedAt(w, ops, j).Some?
    ensures IssuedAt(w, ops, i).value != IssuedAt(w, ops, j).value
  {
    if ops[i].d == ops[j].d {
      DirectOrder(w, ops, i, j);
      LessIrreflexive(IssuedAt(w, ops, i).value);
    } else {
      IssueRaises(w, ops, i);
      IssueRaises(w, ops, j);
      NodeIdsStayHome(w, ops, home, i);
      NodeIdsStayHome(w, ops, home, j);
      var si := After(w, ops[..i + 1]).devices[ops[i].d].state;
      var sj := After(w, ops[..j + 1]).devices[ops[j].d].state;
      ParseOfFormat(HlcParts(si.millis, si.counter, After(w, ops[..i]).devices[ops[i].d].nodeId));
      ParseOfFormat(HlcParts(sj.millis, sj.counter, After(w, ops[..j]).devices[ops[j].d].nodeId));
    }
  }

  // ----- a persistence slot shared by two live clocks -----

  /** `a` issues far ahead, `b` overwrites the shared slot with less, `a` crashes and issues again. */
  function OverwriteRun(w: World, a: nat, b: nat): seq<Op>
    requires a < |w.devices| && b < |w.devices|
  {
    var ahead := Max(w.devices[a].state.millis, w.devices[b].state.millis) + 2;
    [Issue(a, ahead), Issue(b, w.devices[b].state.millis + 1), Restart(a, w.devices[a].nodeId), Issue(a, 0)]
  }

  lemma Prefixes(w: World, ops: seq<Op>)
    requires |ops| == 4
    ensures After(w, ops[..0]) == w
    ensures After(w, ops[..3]) == Step(Step(Step(w, ops[0]), ops[1]), ops[2])
  {
    assert ops[..3][..2] == ops[..2] && ops[..2][..1] == ops[..1] && ops[..1][..0] == ops[..0] == [];
    assert After(w, ops[..1]) == Step(w, ops[0]);
    assert After(w, ops[..2]) == Step(After(w, ops[..1]), ops[1]);
    assert After(w, ops[..3]) == Step(After(w, ops[..2]), ops[2]);
  }

  predicate Sharing(w: World, a: nat, b: nat) {
    && a < |w.devices| && b < |w.devices| && a != b && w.devices[a].store == w.devices[b].store
    && ValidNodeId(w.devices[a].nodeId) && ValidNodeId(w.devices[b].nodeId)
    && Max(w.devices[a].state.millis, w.devices[b].state.millis) + 2 <= MAX_MILLIS
  }

  lemma FreshMillisecond(w: World, d: nat, wall: nat)
    requires d < |w.devices| && ValidNodeId(w.devices[d].nodeId)
    requires w.devices[d].state.millis < wall <= MAX_MILLIS
    ensures Step(w, Issue(d, wall)) == Keep(w, d, State(wall, 0))
  {}

  lemma ReloadOf(w: World, d: nat, s: State, writer: string)
    requires d < |w.devices| && ValidNodeId(w.devices[d].nodeId) && ValidNodeId(writer) && s.Printable()
    requires w.Saved(w.devices[d].store) == Some(s.Stamp(writer))
    ensures Step(w, Restart(d, w.devices[d].nodeId)) == WithState(w, d, s)
  {
    LoadOfStamp(s, writer);
  }

  lemma OverwrittenSlot(w: World, a: nat, b: nat, high: State, low: State)
    requires Sharing(w, a, b) && high.Printable() && low.Printable()
    ensures var v := Keep(Keep(w, a, high), b, low);
            && v.devices[a] == w.devices[a].(state := high)
            && v.Saved(w.devices[a].store) == Some(low.Stamp(w.devices[b].nodeId))
            && WithState(v, a, low).devices == w.devices[b := w.devices[b].(state := low)][a := w.devices[a].(state := low)]
  {}

  /** After the crash, `a` has loaded the lower value that `b` saved. */
  lemma OverwrittenReload(w: World, a: nat, b: nat)
    requires Sharing(w, a, b)
    ensures var ops, low := OverwriteRun(w, a, b), State(w.devices[b].state.millis + 1, 0);
            After(w, ops[..3]).devices == w.devices[b := w.devices[b].(state := low)][a := w.devices[a].(state := low)]
  {
    var ops := OverwriteRun(w, a, b);
    var high, low := State(ops[0].wall, 0), State(w.devices[b].state.millis + 1, 0);
    FreshMillisecond(w, a, high.millis);
    var w1 := Keep(w, a, high);
    FreshMillisecond(w1, b, low.millis);
    var w2 := Keep(w1, b, low);
    OverwrittenSlot(w, a, b, high, low);
    ReloadOf(w2, a, low, w.devices[b].nodeId);
    Prefixes(w, ops);
  }

  /** Causality needs private persistence: with a shared slot one device goes backwards. */
  lemma {:induction false} SharedStoreGoesBack(w: World, a: nat, b: nat)
    requires Sharing(w, a, b)
    ensures var ops := OverwriteRun(w, a, b);
            && HappenedBefore(w, ops, 0, 3)
            && IssuedAt(w, ops, 0).Some? && IssuedAt(w, ops, 3).Some?
            && Less(IssuedAt(w, ops, 3).value, IssuedAt(w, ops, 0).value)
  {
    var ops := OverwriteRun(w, a, b);
    var na := w.devices[a].nodeId;
    var high, again := State(ops[0].wall, 0), State(w.devices[b].state.millis + 1, 1);
    assert IssuedAt(w, ops, 0) == Some(high.Stamp(na)) by { Prefixes(w, ops); }
    assert IssuedAt(w, ops, 3) == Some(again.Stamp(na)) by { OverwrittenReload(w, a, b); }
    PackedOrder(HlcParts(again.millis, 1, na), HlcParts(high.millis, 0, na));
    assert DirectlyBefore(w, ops, 0, 3);
    assert Chain(w, ops, [0, 3]);
  }
}
