/** Conditions on the positions of a run. */
module Positions {

  /** Some step was marked and no later step cleared it. `reach` is the state after a prefix. */
  ghost predicate Since<S(!new), E(!new)>(reach: seq<E> -> S, steps: seq<E>, mark: (S, E) -> bool, clear: (S, E) -> bool) {
    exists i :: 0 <= i < |steps| && mark(reach(steps[..i]), steps[i]) && NoneAfter(reach, steps, i, clear)
  }

  ghost predicate NoneAfter<S(!new), E(!new)>(reach: seq<E> -> S, steps: seq<E>, i: nat, clear: (S, E) -> bool) {
    forall j :: i < j < |steps| ==> !clear(reach(steps[..j]), steps[j])
  }

  lemma NoneAfterPush<S(!new), E(!new)>(reach: seq<E> -> S, steps: seq<E>, e: E, i: nat, clear: (S, E) -> bool)
    requires i < |steps|
    ensures NoneAfter(reach, steps + [e], i, clear) <==> NoneAfter(reach, steps, i, clear) && !clear(reach(steps), e)
  {
    var all := steps + [e];
    assert all[..|steps|] == steps && all[|steps|] == e;
    assert forall j :: 0 <= j < |steps| ==> all[..j] == steps[..j] && all[j] == steps[j];
    if NoneAfter(reach, all, i, clear) {
      forall j | i < j < |steps|
        ensures !clear(reach(steps[..j]), steps[j])
      {
        assert !clear(reach(all[..j]), all[j]);
      }
      assert !clear(reach(all[..|steps|]), all[|steps|]);
    }
  }

  lemma SincePush<S(!new), E(!new)>(reach: seq<E> -> S, steps: seq<E>, e: E, mark: (S, E) -> bool, clear: (S, E) -> bool)
    ensures Since(reach, steps + [e], mark, clear) <==>
            mark(reach(steps), e) || (Since(reach, steps, mark, clear) && !clear(reach(steps), e))
  {
    var all := steps + [e];
    assert all[..|steps|] == steps && all[|steps|] == e;
    assert forall i :: 0 <= i < |steps| ==> all[..i] == steps[..i] && all[i] == steps[i];
    if mark(reach(steps), e) {
      assert mark(reach(all[..|steps|]), all[|steps|]) && NoneAfter(reach, all, |steps|, clear);
    }
    if Since(reach, steps, mark, clear) && !clear(reach(steps), e) {
      var i :| 0 <= i < |steps| && mark(reach(steps[..i]), steps[i]) && NoneAfter(reach, steps, i, clear);
      NoneAfterPush(reach, steps, e, i, clear);
      assert mark(reach(all[..i]), all[i]);
    }
    if Since(reach, all, mark, clear) {
      var i :| 0 <= i < |all| && mark(reach(all[..i]), all[i]) && NoneAfter(reach, all, i, clear);
      if i < |steps| {
        NoneAfterPush(reach, steps, e, i, clear);
        assert mark(reach(steps[..i]), steps[i]);
      }
    }
  }

  /** A property that each step of a run keeps in step with a mark and a clear has them as its history. */
  lemma {:induction false} HistoryOf<S(!new), E(!new)>(reach: seq<E> -> S, steps: seq<E>, p: S -> bool, mark: (S, E) -> bool, clear: (S, E) -> bool)
    requires !p(reach([]))
    requires forall i :: 0 <= i < |steps| ==>
               (p(reach(steps[..i + 1])) <==> mark(reach(steps[..i]), steps[i]) || (p(reach(steps[..i])) && !clear(reach(steps[..i]), steps[i])))
    ensures p(reach(steps)) <==> Since(reach, steps, mark, clear)
  {
    if steps != [] {
      var n := |steps| - 1;
      var before := steps[..n];
      assert steps == before + [steps[n]] && steps[..n + 1] == steps;
      assert forall i :: 0 <= i < n ==> before[i] == steps[i];
      assert forall i :: 0 <= i <= n ==> before[..i] == steps[..i];
      HistoryOf(reach, before, p, mark, clear);
      SincePush(reach, before, steps[n], mark, clear);
    }
  }

  // ----- values that a run accumulates -----

  function Tally<S(!new), E(!new)>(reach: seq<E> -> S, steps: seq<E>, mark: (S, E) -> bool): nat {
    if steps == [] then 0
    else
      var before := steps[..|steps| - 1];
      Tally(reach, before, mark) + if mark(reach(before), steps[|steps| - 1]) then 1 else 0
  }

  /** Everything the steps contribute, in the order of the steps. */
  function Gathered<S(!new), E(!new), X>(reach: seq<E> -> S, steps: seq<E>, part: (S, E) -> seq<X>): seq<X> {
    if steps == [] then []
    else
      var before := steps[..|steps| - 1];
      Gathered(reach, before, part) + part(reach(before), steps[|steps| - 1])
  }

  ghost predicate SetTo<S(!new), E(!new)>(reach: seq<E> -> S, steps: seq<E>, mark: (S, E) -> bool, shown: (S, E) -> int, value: int) {
    exists i :: 0 <= i < |steps| && mark(reach(steps[..i]), steps[i]) && NoneAfter(reach, steps, i, mark)
                && shown(reach(steps[..i]), steps[i]) == value
  }

  ghost predicate Shown<S(!new), E(!new)>(reach: seq<E> -> S, steps: seq<E>, mark: (S, E) -> bool, shown: (S, E) -> int, value: int) {
    exists i :: 0 <= i < |steps| && mark(reach(steps[..i]), steps[i]) && shown(reach(steps[..i]), steps[i]) == value
  }

  lemma {:induction false} TallyOf<S(!new), E(!new)>(reach: seq<E> -> S, steps: seq<E>, value: S -> int, mark: (S, E) -> bool)
    requires forall i :: 0 <= i < |steps| ==>
               value(reach(steps[..i + 1])) == value(reach(steps[..i])) + if mark(reach(steps[..i]), steps[i]) then 1 else 0
    ensures value(reach(steps)) == value(reach([])) + Tally(reach, steps, mark)
  {
    if steps != [] {
      var n := |steps| - 1;
      var before := steps[..n];
      assert steps[..n + 1] == steps;
      assert forall i :: 0 <= i < n ==> before[i] == steps[i];
      assert forall i :: 0 <= i <= n ==> before[..i] == steps[..i];
      TallyOf(reach, before, value, mark);
    }
  }

  lemma {:induction false} GatheredOf<S(!new), E(!new), X>(reach: seq<E> -> S, steps: seq<E>, value: S -> seq<X>, part: (S, E) -> seq<X>)
    requires value(reach([])) == []
    requires forall i :: 0 <= i < |steps| ==> value(reach(steps[..i + 1])) == value(reach(steps[..i])) + part(reach(steps[..i]), steps[i])
    ensures value(reach(steps)) == Gathered(reach, steps, part)
  {
    if steps != [] {
      var n := |steps| - 1;
      var before := steps[..n];
      assert steps[..n + 1] == steps;
      assert forall i :: 0 <= i < n ==> before[i] == steps[i];
      assert forall i :: 0 <= i <= n ==> before[..i] == steps[..i];
      GatheredOf(reach, before, value, part);
    }
  }

  /** A value that marked steps set, and that others leave alone while `live`, is the one set last. */
  lemma {:induction false} SetToOf<S(!new), E(!new)>(reach: seq<E> -> S, steps: seq<E>, live: S -> bool, value: S -> int, mark: (S, E) -> bool, shown: (S, E) -> int)
    requires !live(reach([]))
    requires forall i :: 0 <= i < |steps| && live(reach(steps[..i + 1])) ==>
               if mark(reach(steps[..i]), steps[i]) then value(reach(steps[..i + 1])) == shown(reach(steps[..i]), steps[i])
               else live(reach(steps[..i])) && value(reach(steps[..i + 1])) == value(reach(steps[..i]))
    ensures live(reach(steps)) ==> SetTo(reach, steps, mark, shown, value(reach(steps)))
  {
    if steps != [] {
      var n := |steps| - 1;
      var before := steps[..n];
      assert steps == before + [steps[n]] && steps[..n + 1] == steps;
      assert forall i :: 0 <= i < n ==> before[i] == steps[i];
      assert forall i :: 0 <= i <= n ==> before[..i] == steps[..i];
      SetToOf(reach, before, live, value, mark, shown);
      if live(reach(steps)) {
        if mark(reach(before), steps[n]) {
          assert NoneAfter(reach, steps, n, mark);
        } else {
          var i :| 0 <= i < n && mark(reach(before[..i]), before[i]) && NoneAfter(reach, before, i, mark)
                   && shown(reach(before[..i]), before[i]) == value(reach(before));
          NoneAfterPush(reach, before, steps[n], i, mark);
          assert mark(reach(steps[..i]), steps[i]);
        }
      }
    }
  }

  lemma ShownPush<S(!new), E(!new)>(reach: seq<E> -> S, steps: seq<E>, e: E, mark: (S, E) -> bool, shown: (S, E) -> int)
    ensures forall v :: Shown(reach, steps + [e], mark, shown, v) <==>
              Shown(reach, steps, mark, shown, v) || (mark(reach(steps), e) && shown(reach(steps), e) == v)
  {
    var all, n := steps + [e], |steps|;
    assert all[..n] == steps && all[n] == e;
    assert forall i :: 0 <= i < n ==> all[i] == steps[i];
    assert forall i :: 0 <= i <= n ==> all[..i] == steps[..i];
    forall v | Shown(reach, steps, mark, shown, v)
      ensures Shown(reach, all, mark, shown, v)
    {
      var i :| 0 <= i < n && mark(reach(steps[..i]), steps[i]) && shown(reach(steps[..i]), steps[i]) == v;
      assert mark(reach(all[..i]), all[i]);
    }
    if mark(reach(steps), e) {
      assert mark(reach(all[..n]), all[n]);
    }
  }

  /** A value that marked steps raise to what they show, and others leave alone, is the highest shown. */
  lemma {:induction false} HighestOf<S(!new), E(!new)>(reach: seq<E> -> S, steps: seq<E>, value: S -> int, mark: (S, E) -> bool, shown: (S, E) -> int)
    requires forall i :: 0 <= i < |steps| ==>
               value(reach(steps[..i + 1])) ==
               if mark(reach(steps[..i]), steps[i]) && shown(reach(steps[..i]), steps[i]) > value(reach(steps[..i])) then shown(reach(steps[..i]), steps[i])
               else value(reach(steps[..i]))
    ensures value(reach([])) <= value(reach(steps))
    ensures value(reach(steps)) == value(reach([])) || Shown(reach, steps, mark, shown, value(reach(steps)))
    ensures forall v :: Shown(reach, steps, mark, shown, v) ==> v <= value(reach(steps))
  {
    if steps != [] {
      var n := |steps| - 1;
      var before := steps[..n];
      assert steps[..n + 1] == steps;
      assert forall i :: 0 <= i < n ==> before[i] == steps[i];
      assert forall i :: 0 <= i <= n ==> before[..i] == steps[..i];
      HighestOf(reach, before, value, mark, shown);
      ShownPush(reach, before, steps[n], mark, shown);
      assert steps == before + [steps[n]];
    }
  }
}
