/** The hybrid logical clock: issue, observe with bounded trust, reload from persistence. */
module Clock {
  import opened Wrappers
  import opened Hlc

  datatype ClockError =
    | InvalidNodeId(nodeId: string)
    | Drift(remote: string, driftMs: nat, maxDriftMs: nat)

  /** The two fields of a clock that move. */
  datatype State = State(millis: nat, counter: nat) {
    function Packed(): nat { Hlc.Packed(millis, counter) }

    /** Fits the fixed-width format; formatting anything else panics. */
    predicate Printable() { millis <= MAX_MILLIS && counter <= MAX_COUNTER }

    function Stamp(nodeId: string): string
      requires Printable() && ValidNodeId(nodeId)
    {
      Format(HlcParts(millis, counter, nodeId))
    }
  }

  /** What a restart recovers: anything that is not a timestamp counts as absent. */
  function Load(saved: Option<string>): State {
    match saved
    case None => State(0, 0)
    case Some(text) =>
      match Parse(text)
      case None => State(0, 0)
      case Some(p) => State(p.millis, p.counter)
  }

  function Advance(s: State, physical: nat): State {
    if physical > s.millis then State(physical, 0)
    else if s.counter + 1 > MAX_COUNTER then State(s.millis + 1, 0)
    else State(s.millis, s.counter + 1)
  }

  predicate Refused(remote: HlcParts, now: nat, maxDrift: nat) {
    remote.millis > now && remote.millis - now > maxDrift
  }

  function Adopt(s: State, remote: HlcParts): State {
    if remote.millis > s.millis then State(remote.millis, remote.counter)
    else if remote.millis == s.millis && remote.counter > s.counter then State(s.millis, remote.counter)
    else s
  }

  /** State after one `observe`, and the refusal if there was one. */
  function Observed(s: State, remote: string, now: nat, maxDrift: nat): (State, Option<ClockError>) {
    match Parse(remote)
    case None => (s, None)
    case Some(p) =>
      if Refused(p, now, maxDrift) then (s, Some(Drift(remote, p.millis - now, maxDrift)))
      else (Adopt(s, p), None)
  }

  function Max(a: nat, b: nat): nat { if a < b then b else a }

  lemma LoadIsPrintable(saved: Option<string>)
    ensures Load(saved).Printable()
  {
    if saved.Some? && Parse(saved.value).Some? {
      FormatOfParse(saved.value);
    }
  }

  lemma LoadOfStamp(s: State, nodeId: string)
    requires s.Printable() && ValidNodeId(nodeId)
    ensures Load(Some(s.Stamp(nodeId))) == s
  {
    ParseOfFormat(HlcParts(s.millis, s.counter, nodeId));
  }

  /** `next` moves to the later of "one tick on" and "the start of this millisecond". */
  lemma AdvanceIsMax(s: State, physical: nat)
    requires s.counter <= MAX_COUNTER
    ensures Advance(s, physical).Packed() == Max(s.Packed() + 1, Packed(physical, 0))
    ensures Advance(s, physical).counter <= MAX_COUNTER
  {}

  /** `observe` moves to the later of the two timestamps. */
  lemma AdoptIsMax(s: State, remote: HlcParts)
    requires s.counter <= MAX_COUNTER && ValidParts(remote)
    ensures Adopt(s, remote).Packed() == Max(s.Packed(), Packed(remote.millis, remote.counter))
    ensures Adopt(s, remote).counter <= MAX_COUNTER
  {}

  /** From a printable state, `next` panics for exactly these two reasons. */
  lemma NextPanicsExactly(s: State, physical: nat)
    requires s.Printable()
    ensures !Advance(s, physical).Printable()
            <==> physical > MAX_MILLIS || (s == State(MAX_MILLIS, MAX_COUNTER))
  {}

  /** After a caught panic the clock panics again on every `next`, and `observe` cannot repair it. */
  lemma PanicSticks(s: State, physical: nat, remote: string, now: nat, maxDrift: nat)
    requires s.millis > MAX_MILLIS
    ensures Advance(s, physical).millis > MAX_MILLIS
    ensures Observed(s, remote, now, maxDrift).0 == s
  {
    if Parse(remote).Some? {
      FormatOfParse(remote);
    }
  }

  class HybridLogicalClock {
    const nodeId: string
    const maxDriftMs: nat
    var millis: nat
    var counter: nat
    /** The one string held by the persistence this clock owns. */
    var saved: Option<string>

    /** While printable, memory and persistence agree: a crash loses nothing. */
    ghost predicate Valid()
      reads this
    {
      && ValidNodeId(nodeId)
      && counter <= MAX_COUNTER
      && (millis <= MAX_MILLIS ==> Load(saved) == Now())
    }

    function Now(): State
      reads this
    {
      State(millis, counter)
    }

    constructor Restore(nodeId: string, saved: Option<string>, maxDriftMs: nat)
      requires ValidNodeId(nodeId)
      ensures Valid() && Now() == Load(saved) && Now().Printable()
      ensures this.nodeId == nodeId && this.saved == saved && this.maxDriftMs == maxDriftMs
    {
      this.nodeId := nodeId;
      this.saved := saved;
      this.maxDriftMs := maxDriftMs;
      millis := Load(saved).millis;
      counter := Load(saved).counter;
      LoadIsPrintable(saved);
    }

    static method WithMaxDrift(nodeId: string, saved: Option<string>, maxDriftMs: nat)
      returns (r: Result<HybridLogicalClock, ClockError>)
      ensures r.Ok? <==> nodeId != "" && '-' !in nodeId
      ensures r.Ok? && (saved.None? || Parse(saved.value).None?) ==> r.value.millis == 0 && r.value.counter == 0
      ensures r.Ok? && saved.Some? && Parse(saved.value).Some? ==>
                r.value.millis == Parse(saved.value).value.millis && r.value.counter == Parse(saved.value).value.counter
      ensures r.Ok? ==> fresh(r.value) && r.value.Valid() && r.value.Now() == Load(saved)
      ensures r.Ok? ==> r.value.nodeId == nodeId && r.value.saved == saved && r.value.maxDriftMs == maxDriftMs
      ensures r.Err? ==> r.error == InvalidNodeId(nodeId)
    {
      if nodeId == "" || '-' in nodeId {
        return Err(InvalidNodeId(nodeId));
      }
      var clock := new HybridLogicalClock.Restore(nodeId, saved, maxDriftMs);
      r := Ok(clock);
    }

    /** `None` is the panic of the formatter; the fields keep what was already assigned. */
    method Next(physical: nat) returns (r: Option<string>)
      requires Valid()
      modifies this`millis, this`counter, this`saved
      ensures Valid()
      ensures Now() == Advance(old(Now()), physical)
      ensures Now().Packed() == Max(old(Now().Packed()) + 1, Packed(physical, 0))
      ensures r.Some? <==> Now().Printable()
      ensures r.Some? ==> r.value == Now().Stamp(nodeId) && saved == r
      ensures r.None? ==> saved == old(saved)
    {
      AdvanceIsMax(Now(), physical);
      if physical > millis {
        millis := physical;
        counter := 0;
      } else {
        counter := counter + 1;
        if counter > MAX_COUNTER {
          millis := millis + 1;
          counter := 0;
        }
      }
      if millis > MAX_MILLIS {
        return None;
      }
      LoadOfStamp(Now(), nodeId);
      var ts := Format(HlcParts(millis, counter, nodeId));
      saved := Some(ts);
      r := Some(ts);
    }

    /** A refused or unreadable timestamp leaves the clock, and its persistence, untouched. */
    method Observe(remote: string, now: nat) returns (r: Option<ClockError>)
      requires Valid()
      modifies this`millis, this`counter, this`saved
      ensures Valid()
      ensures (Now(), r) == Observed(old(Now()), remote, now, maxDriftMs)
      ensures r.Some? <==> Parse(remote).Some? && Parse(remote).value.millis > now + maxDriftMs
      ensures r.None? && Parse(remote).Some? ==>
                var p := Parse(remote).value;
                Now().Packed() == Max(old(Now().Packed()), Packed(p.millis, p.counter))
      ensures r.Some? ==> r.value == Drift(remote, Parse(remote).value.millis - now, maxDriftMs)
      ensures r.Some? || Parse(remote).None? ==> Now() == old(Now())
      ensures Now() == old(Now()) ==> saved == old(saved)
      ensures Now() != old(Now()) && Now().Printable() ==> saved == Some(Now().Stamp(nodeId))
    {
      var parsed := Parse(remote);
      if parsed.None? {
        return None;
      }
      var p := parsed.value;
      FormatOfParse(remote);
      AdoptIsMax(Now(), p);
      if p.millis > now && p.millis - now > maxDriftMs {
        return Some(Drift(remote, p.millis - now, maxDriftMs));
      }
      if p.millis > millis {
        millis := p.millis;
        counter := p.counter;
      } else if p.millis == millis && p.counter > counter {
        counter := p.counter;
      } else {
        return None;
      }
      LoadOfStamp(Now(), nodeId);
      saved := Some(Format(HlcParts(millis, counter, nodeId)));
      r := None;
    }
  }

  // ----- one clock over a whole run -----

  datatype Call =
    | Next(wall: nat)
    | Observe(remote: string, wall: nat)

  function Apply(s: State, call: Call, maxDrift: nat): State {
    match call
    case Next(wall) => Advance(s, wall)
    case Observe(remote, wall) => Observed(s, remote, wall, maxDrift).0
  }

  function Run(s: State, calls: seq<Call>, maxDrift: nat): State {
    if calls == [] then s else Apply(Run(s, calls[..|calls| - 1], maxDrift), calls[|calls| - 1], maxDrift)
  }

  function NextCount(calls: seq<Call>): nat {
    if calls == [] then 0
    else NextCount(calls[..|calls| - 1]) + if calls[|calls| - 1].Next? then 1 else 0
  }

  /** Bounded trust: no choice of remote timestamps, and no rollback of the wall clock, can push
      the clock further than the drift bound beyond its own wall clock plus one tick per issue. */
  lemma {:induction false} BoundedPoisoning(s: State, calls: seq<Call>, maxDrift: nat, maxWall: nat)
    requires s.counter <= MAX_COUNTER
    requires forall i :: 0 <= i < |calls| ==> calls[i].wall <= maxWall
    ensures Run(s, calls, maxDrift).counter <= MAX_COUNTER
    ensures s.Packed() + NextCount(calls) <= Run(s, calls, maxDrift).Packed()
    ensures Run(s, calls, maxDrift).Packed()
            <= Max(s.Packed(), Packed(maxWall + maxDrift, MAX_COUNTER)) + NextCount(calls)
  {
    if calls != [] {
      var n := |calls| - 1;
      var before, call := Run(s, calls[..n], maxDrift), calls[n];
      BoundedPoisoning(s, calls[..n], maxDrift, maxWall);
      if call.Next? {
        AdvanceIsMax(before, call.wall);
      } else if Parse(call.remote).Some? {
        FormatOfParse(call.remote);
        AdoptIsMax(before, Parse(call.remote).value);
      }
    }
  }
}
