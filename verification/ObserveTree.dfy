/** Observing every selected timestamp of an incoming document, and stamping the next mutation. */
module ObserveTree {
  import opened Wrappers
  import opened Text
  import opened Hlc
  import opened Clock
  import opened Decimal
  import opened Json

  const UPDATED_AT := "updatedAt"

  // ----- which texts a document offers, in visiting order -----

  function NodeTexts(node: Json, selectors: seq<string>): seq<string>
    requires node.Object?
  {
    if selectors == [] then []
    else
      NodeTexts(node, selectors[..|selectors| - 1])
      + match SelectText(node, selectors[|selectors| - 1])
        case Some(s) => [s]
        case None => []
  }

  /** The sub-documents of a node, in order. */
  function Children(node: Json): (r: seq<Json>)
    ensures forall c <- r :: c < node
  {
    match node
    case Array(items) => items
    case Object(fields) => seq(|fields|, i requires 0 <= i < |fields| => fields[i].value)
    case _ => []
  }

  function Texts(node: Json, selectors: seq<string>): seq<string>
    decreases node, 1, 0
  {
    (if node.Object? then NodeTexts(node, selectors) else []) + ChildTexts(node, |Children(node)|, selectors)
  }

  /** Texts of the first `n` sub-documents. */
  function ChildTexts(node: Json, n: nat, selectors: seq<string>): seq<string>
    requires n <= |Children(node)|
    decreases node, 0, n
  {
    if n == 0 then []
    else ChildTexts(node, n - 1, selectors) + Texts(Children(node)[n - 1], selectors)
  }

  /** The sub-document reached by a path of child positions. */
  function Descend(node: Json, path: seq<nat>): Option<Json> {
    if path == [] then Some(node)
    else if path[0] < |Children(node)| then Descend(Children(node)[path[0]], path[1..])
    else None
  }

  /** `text` is what `selector` yields at the object that `path` reaches. */
  predicate SelectedAt(node: Json, path: seq<nat>, selector: string, text: string) {
    match Descend(node, path)
    case Some(Object(fields)) => SelectText(Object(fields), selector) == Some(text)
    case _ => false
  }

  lemma {:induction false} NodeTextsExact(node: Json, selectors: seq<string>, text: string)
    requires node.Object?
    ensures text in NodeTexts(node, selectors) <==>
            exists selector :: selector in selectors && SelectText(node, selector) == Some(text)
  {
    if selectors != [] {
      var n := |selectors| - 1;
      NodeTextsExact(node, selectors[..n], text);
      assert selectors == selectors[..n] + [selectors[n]];
    }
  }

  /** The walk visits a selected text, whatever its depth. */
  lemma {:induction false} SelectedIsVisited(node: Json, selectors: seq<string>, path: seq<nat>, selector: string, text: string)
    requires selector in selectors && SelectedAt(node, path, selector, text)
    ensures text in Texts(node, selectors)
    decreases |path|
  {
    if path == [] {
      NodeTextsExact(node, selectors, text);
    } else {
      SelectedIsVisited(Children(node)[path[0]], selectors, path[1..], selector, text);
      ChildIsVisited(node, |Children(node)|, path[0], selectors, text);
    }
  }

  lemma {:induction false} ChildIsVisited(node: Json, n: nat, k: nat, selectors: seq<string>, text: string)
    requires k < n <= |Children(node)|
    requires text in Texts(Children(node)[k], selectors)
    ensures text in ChildTexts(node, n, selectors)
  {
    if k < n - 1 {
      ChildIsVisited(node, n - 1, k, selectors, text);
    }
  }

  /** Some selector yields `text` at some depth. */
  ghost predicate Offered(node: Json, selectors: seq<string>, text: string) {
    exists path, selector :: selector in selectors && SelectedAt(node, path, selector, text)
  }

  lemma OfferedBelow(node: Json, k: nat, selectors: seq<string>, text: string)
    requires k < |Children(node)| && Offered(Children(node)[k], selectors, text)
    ensures Offered(node, selectors, text)
  {
    var path, selector :| selector in selectors && SelectedAt(Children(node)[k], path, selector, text);
    assert ([k] + path)[1..] == path;
    assert SelectedAt(node, [k] + path, selector, text);
  }

  lemma OfferedHere(node: Json, selectors: seq<string>, text: string)
    requires node.Object? && text in NodeTexts(node, selectors)
    ensures Offered(node, selectors, text)
  {
    NodeTextsExact(node, selectors, text);
    var selector :| selector in selectors && SelectText(node, selector) == Some(text);
    assert SelectedAt(node, [], selector, text);
  }

  /** Nothing else is visited: every visited text is selected at some depth. */
  lemma {:induction false} VisitedIsOffered(node: Json, selectors: seq<string>, text: string)
    requires text in Texts(node, selectors)
    ensures Offered(node, selectors, text)
    decreases node, 1, 0
  {
    if node.Object? && text in NodeTexts(node, selectors) {
      OfferedHere(node, selectors, text);
    } else {
      VisitedBelow(node, |Children(node)|, selectors, text);
    }
  }

  lemma {:induction false} VisitedBelow(node: Json, n: nat, selectors: seq<string>, text: string)
    requires n <= |Children(node)| && text in ChildTexts(node, n, selectors)
    ensures Offered(node, selectors, text)
    decreases node, 0, n
  {
    if text in Texts(Children(node)[n - 1], selectors) {
      VisitedIsOffered(Children(node)[n - 1], selectors, text);
      OfferedBelow(node, n - 1, selectors, text);
    } else {
      VisitedBelow(node, n - 1, selectors, text);
    }
  }

  /** The texts the clock sees are exactly the selected ones, at every depth. */
  lemma VisitedExactly(node: Json, selectors: seq<string>, text: string)
    ensures text in Texts(node, selectors) <==> Offered(node, selectors, text)
  {
    if text in Texts(node, selectors) {
      VisitedIsOffered(node, selectors, text);
    }
    if Offered(node, selectors, text) {
      var path, selector :| selector in selectors && SelectedAt(node, path, selector, text);
      SelectedIsVisited(node, selectors, path, selector, text);
    }
  }

  // ----- the same in terms of paths of names -----

  lemma ChildIsSubdocument(node: Json, token: string)
    requires Child(node, token).Some?
    ensures exists k :: 0 <= k < |Children(node)| && Children(node)[k] == Child(node, token).value
  {
    match node
    case Object(fields) =>
      var i := FieldOf(fields, token);
      assert Children(node)[i] == fields[i].value;
    case Array(items) => assert Children(node)[Value(token, 10)] == Child(node, token).value;
  }

  lemma {:induction false} FieldOf(fields: seq<Field>, key: string) returns (i: nat)
    requires Get(fields, key).Some?
    ensures i < |fields| && Get(fields, key) == Some(fields[i].value)
  {
    if fields[0].key == key {
      i := 0;
    } else {
      var j := FieldOf(fields[1..], key);
      i := j + 1;
    }
  }

  /** Whatever a path of names leads to is a sub-document at some depth. */
  lemma {:induction false} FollowDescends(node: Json, at: seq<string>, target: Json) returns (path: seq<nat>)
    requires Follow(node, at) == Some(target)
    ensures Descend(node, path) == Some(target)
    decreases |at|
  {
    if at == [] {
      path := [];
    } else {
      ChildIsSubdocument(node, at[0]);
      var k :| 0 <= k < |Children(node)| && Children(node)[k] == Child(node, at[0]).value;
      var rest := FollowDescends(Children(node)[k], at[1..], target);
      path := [k] + rest;
      assert path[1..] == rest;
    }
  }

  /** At the object that the names `at` lead to, the names `tokens` of a selector lead to a text. */
  predicate Found(doc: Json, selectors: seq<string>, at: seq<string>, selector: string, tokens: seq<string>, text: string) {
    && selector in selectors && Names(selector, tokens)
    && Follow(doc, at).Some? && Follow(doc, at).value.Object?
    && Follow(Follow(doc, at).value, tokens) == Some(Str(text))
  }

  lemma FoundIsOffered(doc: Json, selectors: seq<string>, at: seq<string>, selector: string, tokens: seq<string>, text: string)
    requires Found(doc, selectors, at, selector, tokens, text)
    ensures Offered(doc, selectors, text)
  {
    var target := Follow(doc, at).value;
    var path := FollowDescends(doc, at, target);
    SelectFollows(target, selector, tokens);
    assert SelectedAt(doc, path, selector, text);
  }

  // ----- what observing them in order does to a clock -----

  /** State, first refusal if any, and how many texts were offered to the clock. */
  datatype Outcome = Outcome(state: State, refusal: Option<ClockError>, seen: nat)

  /** The wall clock may read anything at each call: `walls(k)` is the reading at the k-th text. */
  function ObserveAll(o: Outcome, texts: seq<string>, walls: nat -> nat, maxDrift: nat): Outcome
    decreases |texts|
  {
    if texts == [] || o.refusal.Some? then o
    else
      var (s, refusal) := Observed(o.state, texts[0], walls(o.seen), maxDrift);
      ObserveAll(Outcome(s, refusal, o.seen + 1), texts[1..], walls, maxDrift)
  }

  lemma {:induction false} ObserveAppend(o: Outcome, a: seq<string>, b: seq<string>, walls: nat -> nat, maxDrift: nat)
    ensures ObserveAll(o, a + b, walls, maxDrift) == ObserveAll(ObserveAll(o, a, walls, maxDrift), b, walls, maxDrift)
    decreases |a|
  {
    if a == [] {
      assert a + b == b;
    } else if o.refusal.None? {
      var (s, refusal) := Observed(o.state, a[0], walls(o.seen), maxDrift);
      assert (a + b)[1..] == a[1..] + b;
      ObserveAppend(Outcome(s, refusal, o.seen + 1), a[1..], b, walls, maxDrift);
    }
  }

  lemma ObserveOneMore(o: Outcome, texts: seq<string>, text: string, walls: nat -> nat, maxDrift: nat)
    requires ObserveAll(o, texts, walls, maxDrift).refusal.None?
    ensures var before := ObserveAll(o, texts, walls, maxDrift);
            var (s, refusal) := Observed(before.state, text, walls(before.seen), maxDrift);
            ObserveAll(o, texts + [text], walls, maxDrift) == Outcome(s, refusal, before.seen + 1)
  {
    ObserveAppend(o, texts, [text], walls, maxDrift);
    var before := ObserveAll(o, texts, walls, maxDrift);
    var (s, refusal) := Observed(before.state, text, walls(before.seen), maxDrift);
    assert [text][1..] == [];
    assert ObserveAll(before, [text], walls, maxDrift) == ObserveAll(Outcome(s, refusal, before.seen + 1), [], walls, maxDrift);
  }

  predicate Covers(s: State, text: string) {
    Parse(text).Some? ==> Packed(Parse(text).value.millis, Parse(text).value.counter) <= s.Packed()
  }

  /** The clock never goes back, and without a refusal it has caught up with every text. */
  lemma {:induction false} ObserveAllCatchesUp(o: Outcome, texts: seq<string>, walls: nat -> nat, maxDrift: nat)
    requires o.state.counter <= MAX_COUNTER
    ensures var r := ObserveAll(o, texts, walls, maxDrift);
            && r.state.counter <= MAX_COUNTER
            && o.state.Packed() <= r.state.Packed()
            && (r.refusal.None? ==> forall t <- texts :: Covers(r.state, t))
    decreases |texts|
  {
    if texts != [] && o.refusal.None? {
      var (s, refusal) := Observed(o.state, texts[0], walls(o.seen), maxDrift);
      if Parse(texts[0]).Some? {
        FormatOfParse(texts[0]);
        AdoptIsMax(o.state, Parse(texts[0]).value);
      }
      ObserveAllCatchesUp(Outcome(s, refusal, o.seen + 1), texts[1..], walls, maxDrift);
      assert texts == [texts[0]] + texts[1..];
    }
  }

  /** The text is a timestamp beyond the wall clock by more than the drift bound. */
  predicate TooFar(text: string, wall: nat, maxDrift: nat) {
    Parse(text).Some? && Parse(text).value.millis > wall + maxDrift
  }

  predicate FirstTooFar(texts: seq<string>, i: nat, seen: nat, walls: nat -> nat, maxDrift: nat) {
    && i < |texts| && TooFar(texts[i], walls(seen + i), maxDrift)
    && forall j :: 0 <= j < i ==> !TooFar(texts[j], walls(seen + j), maxDrift)
  }

  function Blame(text: string, wall: nat, maxDrift: nat): Option<ClockError> {
    if TooFar(text, wall, maxDrift) then Some(Drift(text, Parse(text).value.millis - wall, maxDrift)) else None
  }

  /** The state is one that some text shows. */
  ghost predicate ShownBy(s: State, texts: seq<string>) {
    exists i :: 0 <= i < |texts| && Parse(texts[i]).Some? && s == State(Parse(texts[i]).value.millis, Parse(texts[i]).value.counter)
  }

  /** Everything is observed up to the first text that is too far ahead, and that one is refused. */
  ghost predicate RefusedExactly(o: Outcome, texts: seq<string>, walls: nat -> nat, maxDrift: nat, r: Outcome) {
    && (r.refusal.None? ==>
          r.seen == o.seen + |texts| && forall i :: 0 <= i < |texts| ==> !TooFar(texts[i], walls(o.seen + i), maxDrift))
    && (r.refusal.Some? ==>
          && o.seen < r.seen && FirstTooFar(texts, r.seen - o.seen - 1, o.seen, walls, maxDrift)
          && r.refusal == Blame(texts[r.seen - o.seen - 1], walls(r.seen - 1), maxDrift))
  }

  /** The clock is where it was or at one of the texts. */
  lemma {:induction false} ObserveAllExactly(o: Outcome, texts: seq<string>, walls: nat -> nat, maxDrift: nat)
    requires o.refusal.None?
    ensures RefusedExactly(o, texts, walls, maxDrift, ObserveAll(o, texts, walls, maxDrift))
    ensures var s := ObserveAll(o, texts, walls, maxDrift).state; s == o.state || ShownBy(s, texts)
    decreases |texts|
  {
    if texts != [] {
      var n := |texts| - 1;
      var before := ObserveAll(o, texts[..n], walls, maxDrift);
      ObserveAllExactly(o, texts[..n], walls, maxDrift);
      assert texts == texts[..n] + [texts[n]];
      if before.refusal.Some? {
        RefusalIsFinal(o, texts[..n], texts, walls, maxDrift);
      } else {
        ObserveOneMore(o, texts[..n], texts[n], walls, maxDrift);
        ObservedOne(before.state, texts[n], walls(before.seen), maxDrift);
        OneMoreExactly(o, texts, before, ObserveAll(o, texts, walls, maxDrift), walls, maxDrift);
      }
      ShownByMore(before.state, texts);
    }
  }

  lemma ShownByMore(s: State, texts: seq<string>)
    requires texts != []
    ensures ShownBy(s, texts[..|texts| - 1]) ==> ShownBy(s, texts)
  {
    var n := |texts| - 1;
    if ShownBy(s, texts[..n]) {
      var i :| 0 <= i < n && Parse(texts[..n][i]).Some?
               && s == State(Parse(texts[..n][i]).value.millis, Parse(texts[..n][i]).value.counter);
      assert texts[i] == texts[..n][i];
    }
  }

  lemma ObservedOne(s: State, text: string, wall: nat, maxDrift: nat)
    ensures var (n, refusal) := Observed(s, text, wall, maxDrift);
            && refusal == Blame(text, wall, maxDrift)
            && (n == s || (Parse(text).Some? && n == State(Parse(text).value.millis, Parse(text).value.counter)))
  {}

  lemma OneMoreExactly(o: Outcome, texts: seq<string>, before: Outcome, after: Outcome, walls: nat -> nat, maxDrift: nat)
    requires texts != [] && before.refusal.None? && RefusedExactly(o, texts[..|texts| - 1], walls, maxDrift, before)
    requires after.seen == before.seen + 1 && after.refusal == Blame(texts[|texts| - 1], walls(before.seen), maxDrift)
    ensures RefusedExactly(o, texts, walls, maxDrift, after)
  {
    var n := |texts| - 1;
    assert forall i :: 0 <= i < n ==> texts[i] == texts[..n][i];
    assert before.seen == o.seen + n;
  }

  /** Once refused, the rest of the document is not looked at. */
  lemma RefusalIsFinal(o: Outcome, prefix: seq<string>, all: seq<string>, walls: nat -> nat, maxDrift: nat)
    requires prefix <= all && ObserveAll(o, prefix, walls, maxDrift).refusal.Some?
    ensures ObserveAll(o, all, walls, maxDrift) == ObserveAll(o, prefix, walls, maxDrift)
  {
    assert all == prefix + all[|prefix|..];
    ObserveAppend(o, prefix, all[|prefix|..], walls, maxDrift);
  }

  lemma {:induction false} NodeTextsPrefix(node: Json, selectors: seq<string>, i: nat)
    requires node.Object? && i <= |selectors|
    ensures NodeTexts(node, selectors[..i]) <= NodeTexts(node, selectors)
  {
    if i < |selectors| {
      var n := |selectors| - 1;
      assert selectors[..n][..i] == selectors[..i];
      NodeTextsPrefix(node, selectors[..n], i);
    } else {
      assert selectors[..i] == selectors;
    }
  }

  lemma {:induction false} ChildTextsPrefix(node: Json, i: nat, n: nat, selectors: seq<string>)
    requires i <= n <= |Children(node)|
    ensures ChildTexts(node, i, selectors) <= ChildTexts(node, n, selectors)
  {
    if i < n {
      ChildTextsPrefix(node, i, n - 1, selectors);
    }
  }

  lemma ObserveOneMoreChild(o: Outcome, node: Json, i: nat, selectors: seq<string>, walls: nat -> nat, maxDrift: nat)
    requires i < |Children(node)|
    ensures ObserveAll(o, ChildTexts(node, i + 1, selectors), walls, maxDrift)
            == ObserveAll(ObserveAll(o, ChildTexts(node, i, selectors), walls, maxDrift), Texts(Children(node)[i], selectors), walls, maxDrift)
  {
    ObserveAppend(o, ChildTexts(node, i, selectors), Texts(Children(node)[i], selectors), walls, maxDrift);
  }

  lemma ChildRefused(o: Outcome, node: Json, i: nat, selectors: seq<string>, walls: nat -> nat, maxDrift: nat)
    requires i <= |Children(node)| && ObserveAll(o, ChildTexts(node, i, selectors), walls, maxDrift).refusal.Some?
    ensures ObserveAll(o, ChildTexts(node, |Children(node)|, selectors), walls, maxDrift)
            == ObserveAll(o, ChildTexts(node, i, selectors), walls, maxDrift)
  {
    ChildTextsPrefix(node, i, |Children(node)|, selectors);
    RefusalIsFinal(o, ChildTexts(node, i, selectors), ChildTexts(node, |Children(node)|, selectors), walls, maxDrift);
  }

  method ObserveSelected(clock: HybridLogicalClock, selectors: seq<string>, node: Json, walls: nat -> nat, seen: nat)
    returns (refusal: Option<ClockError>, next: nat)
    requires clock.Valid() && node.Object?
    modifies clock`millis, clock`counter, clock`saved
    ensures clock.Valid()
    ensures Outcome(clock.Now(), refusal, next)
            == ObserveAll(Outcome(old(clock.Now()), None, seen), NodeTexts(node, selectors), walls, clock.maxDriftMs)
  {
    refusal, next := None, seen;
    ghost var start := Outcome(clock.Now(), None, seen);
    for i := 0 to |selectors|
      invariant clock.Valid() && refusal.None?
      invariant Outcome(clock.Now(), refusal, next)
                == ObserveAll(start, NodeTexts(node, selectors[..i]), walls, clock.maxDriftMs)
    {
      assert selectors[..i + 1][..i] == selectors[..i];
      var text := SelectText(node, selectors[i]);
      if text.None? {
        assert NodeTexts(node, selectors[..i + 1]) == NodeTexts(node, selectors[..i]);
      } else {
        assert NodeTexts(node, selectors[..i + 1]) == NodeTexts(node, selectors[..i]) + [text.value];
        ObserveOneMore(start, NodeTexts(node, selectors[..i]), text.value, walls, clock.maxDriftMs);
        refusal := clock.Observe(text.value, walls(next));
        next := next + 1;
        if refusal.Some? {
          NodeTextsPrefix(node, selectors, i + 1);
          RefusalIsFinal(start, NodeTexts(node, selectors[..i + 1]), NodeTexts(node, selectors), walls, clock.maxDriftMs);
          return;
        }
      }
    }
    assert selectors[..|selectors|] == selectors;
  }

  /** The sub-documents of a node, stopping at the first refusal. */
  method ObserveChildren(clock: HybridLogicalClock, selectors: seq<string>, node: Json, walls: nat -> nat, seen: nat)
    returns (refusal: Option<ClockError>, next: nat)
    requires clock.Valid()
    modifies clock`millis, clock`counter, clock`saved
    ensures clock.Valid()
    ensures Outcome(clock.Now(), refusal, next)
            == ObserveAll(Outcome(old(clock.Now()), None, seen), ChildTexts(node, |Children(node)|, selectors), walls, clock.maxDriftMs)
    decreases node, 0
  {
    refusal, next := None, seen;
    ghost var start := Outcome(clock.Now(), None, seen);
    var children := Children(node);
    for i := 0 to |children|
      invariant clock.Valid() && refusal.None?
      invariant Outcome(clock.Now(), refusal, next)
                == ObserveAll(start, ChildTexts(node, i, selectors), walls, clock.maxDriftMs)
    {
      ghost var before := Outcome(clock.Now(), refusal, next);
      refusal, next := ObserveNode(clock, selectors, children[i], walls, next);
      assert Outcome(clock.Now(), refusal, next) == ObserveAll(before, Texts(children[i], selectors), walls, clock.maxDriftMs);
      ObserveOneMoreChild(start, node, i, selectors, walls, clock.maxDriftMs);
      if refusal.Some? {
        ChildRefused(start, node, i + 1, selectors, walls, clock.maxDriftMs);
        return;
      }
    }
  }

  /** A node's own selected texts, then its sub-documents. */
  method ObserveNode(clock: HybridLogicalClock, selectors: seq<string>, node: Json, walls: nat -> nat, seen: nat)
    returns (refusal: Option<ClockError>, next: nat)
    requires clock.Valid()
    modifies clock`millis, clock`counter, clock`saved
    ensures clock.Valid()
    ensures Outcome(clock.Now(), refusal, next)
            == ObserveAll(Outcome(old(clock.Now()), None, seen), Texts(node, selectors), walls, clock.maxDriftMs)
    decreases node, 1
  {
    refusal, next := None, seen;
    if node.Object? {
      ObserveAppend(Outcome(clock.Now(), None, seen), NodeTexts(node, selectors),
                    ChildTexts(node, |Children(node)|, selectors), walls, clock.maxDriftMs);
      refusal, next := ObserveSelected(clock, selectors, node, walls, seen);
      if refusal.Some? {
        return;
      }
    } else {
      assert Texts(node, selectors) == ChildTexts(node, |Children(node)|, selectors);
    }
    refusal, next := ObserveChildren(clock, selectors, node, walls, next);
  }

  // ----- the client -----

  datatype ClientError = InvalidJson | NotAJsonObject | ClockRefused(error: ClockError)

  /** The stamped payload: `updatedAt` is added unless the caller supplied one. */
  function Stamped(payload: Json, ts: string): Json
    requires payload.Object?
  {
    if Get(payload.fields, UPDATED_AT).Some? then payload
    else Object(payload.fields + [Field(UPDATED_AT, Str(ts))])
  }

  lemma {:induction false} GetAppended(fields: seq<Field>, key: string, value: Json)
    requires Get(fields, key).None?
    ensures Get(fields + [Field(key, value)], key) == Some(value)
  {
    if fields != [] {
      assert (fields + [Field(key, value)])[1..] == fields[1..] + [Field(key, value)];
      GetAppended(fields[1..], key, value);
    }
  }

  lemma {:induction false} GetOther(fields: seq<Field>, key: string, value: Json, other: string)
    requires other != key
    ensures Get(fields + [Field(key, value)], other) == Get(fields, other)
  {
    if fields != [] {
      assert (fields + [Field(key, value)])[1..] == fields[1..] + [Field(key, value)];
      GetOther(fields[1..], key, value, other);
    }
  }

  /** The same in terms of the document: what is refused is offered by it, and too far ahead. */
  lemma DocumentRefused(s: State, doc: Json, selectors: seq<string>, walls: nat -> nat, maxDrift: nat)
    ensures var r := ObserveAll(Outcome(s, None, 0), Texts(doc, selectors), walls, maxDrift);
            && (r.refusal.Some? ==> exists text, k ::
                  Offered(doc, selectors, text) && TooFar(text, walls(k), maxDrift) && r.refusal == Blame(text, walls(k), maxDrift))
            && (r.refusal.None? ==> forall text :: Offered(doc, selectors, text) ==> exists k :: !TooFar(text, walls(k), maxDrift))
  {
    var texts := Texts(doc, selectors);
    var r := ObserveAll(Outcome(s, None, 0), texts, walls, maxDrift);
    ObserveAllExactly(Outcome(s, None, 0), texts, walls, maxDrift);
    if r.refusal.Some? {
      VisitedExactly(doc, selectors, texts[r.seen - 1]);
    } else {
      forall text | Offered(doc, selectors, text)
        ensures exists k :: !TooFar(text, walls(k), maxDrift)
      {
        VisitedExactly(doc, selectors, text);
        var i :| 0 <= i < |texts| && texts[i] == text;
        assert !TooFar(texts[i], walls(0 + i), maxDrift);
      }
    }
  }

  /** And the clock moves only to a timestamp that the document offers. */
  lemma DocumentAdopted(s: State, doc: Json, selectors: seq<string>, walls: nat -> nat, maxDrift: nat)
    ensures var r := ObserveAll(Outcome(s, None, 0), Texts(doc, selectors), walls, maxDrift);
            r.state != s ==> exists text ::
              Offered(doc, selectors, text) && Parse(text).Some? && r.state == State(Parse(text).value.millis, Parse(text).value.counter)
  {
    var texts := Texts(doc, selectors);
    var r := ObserveAll(Outcome(s, None, 0), texts, walls, maxDrift);
    ObserveAllExactly(Outcome(s, None, 0), texts, walls, maxDrift);
    if r.state != s {
      var i :| 0 <= i < |texts| && Parse(texts[i]).Some? && r.state == State(Parse(texts[i]).value.millis, Parse(texts[i]).value.counter);
      VisitedExactly(doc, selectors, texts[i]);
    }
  }

  class OptoSyncClient {
    const selectors: seq<string>
    /** A client may be built without a clock; it then stamps and observes nothing. */
    const clock: HybridLogicalClock?
    /** Payloads in queue order; the position is the id. */
    var queue: seq<Json>

    ghost predicate Valid()
      reads clock
    {
      clock != null ==> clock.Valid()
    }

    constructor (clock: HybridLogicalClock?, selectors: seq<string>)
      ensures this.clock == clock && this.selectors == selectors && queue == []
    {
      this.clock := clock;
      this.selectors := selectors;
      queue := [];
    }

    /** `None` is a text that is not JSON. After success the clock is at or past every timestamp
        selected at any depth; after a refusal it has kept what it legitimately adopted. */
    method ObserveIncoming(payload: Option<Json>, walls: nat -> nat) returns (r: Option<ClientError>)
      requires Valid()
      modifies clock
      ensures Valid()
      ensures payload.None? ==> r == Some(InvalidJson) && (clock != null ==> clock.Now() == old(clock.Now()) && clock.saved == old(clock.saved))
      ensures payload.Some? && clock == null ==> r == None
      ensures clock != null ==> old(clock.Now().Packed()) <= clock.Now().Packed()
      ensures payload.Some? && clock != null ==>
                var o := ObserveAll(Outcome(old(clock.Now()), None, 0), Texts(payload.value, selectors), walls, clock.maxDriftMs);
                && clock.Now() == o.state
                && r == match o.refusal { case None => None case Some(e) => Some(ClockRefused(e)) }
      ensures clock != null && payload.Some? && r.Some? ==>
                exists text, k :: && Offered(payload.value, selectors, text) && TooFar(text, walls(k), clock.maxDriftMs)
                                  && r == Some(ClockRefused(Drift(text, Parse(text).value.millis - walls(k), clock.maxDriftMs)))
      ensures clock != null && payload.Some? && r.None? ==>
                forall text :: Offered(payload.value, selectors, text) ==> exists k :: !TooFar(text, walls(k), clock.maxDriftMs)
      ensures clock != null && payload.Some? && clock.Now() != old(clock.Now()) ==>
                exists text :: && Offered(payload.value, selectors, text) && Parse(text).Some?
                               && clock.Now() == State(Parse(text).value.millis, Parse(text).value.counter)
      ensures r.None? && clock != null ==> forall path, selector, text ::
                selector in selectors && SelectedAt(payload.value, path, selector, text) ==> Covers(clock.Now(), text)
      ensures r.None? && clock != null ==> forall at, selector, tokens, text ::
                Found(payload.value, selectors, at, selector, tokens, text) && Parse(text).Some? ==>
                  Packed(Parse(text).value.millis, Parse(text).value.counter) <= clock.Now().Packed()
    {
      if payload.None? {
        return Some(InvalidJson);
      }
      if clock == null {
        return None;
      }
      ObserveAllCatchesUp(Outcome(clock.Now(), None, 0), Texts(payload.value, selectors), walls, clock.maxDriftMs);
      DocumentRefused(clock.Now(), payload.value, selectors, walls, clock.maxDriftMs);
      DocumentAdopted(clock.Now(), payload.value, selectors, walls, clock.maxDriftMs);
      var refusal, _ := ObserveNode(clock, selectors, payload.value, walls, 0);
      if refusal.Some? {
        return Some(ClockRefused(refusal.value));
      }
      forall path, selector, text | selector in selectors && SelectedAt(payload.value, path, selector, text)
        ensures Covers(clock.Now(), text)
      {
        SelectedIsVisited(payload.value, selectors, path, selector, text);
      }
      forall at, selector, tokens, text | Found(payload.value, selectors, at, selector, tokens, text)
        ensures Covers(clock.Now(), text)
      {
        FoundIsOffered(payload.value, selectors, at, selector, tokens, text);
      }
      r := None;
    }

    /** Inner `None` is the clock's panic; nothing is queued then, nor for a payload that is not an object. */
    method QueueMutationValue(payload: Json, wall: nat) returns (r: Result<Option<nat>, ClientError>)
      requires Valid()
      modifies this`queue, clock
      ensures Valid()
      ensures r.Err? <==> !payload.Object?
      ensures r.Err? ==> r.error == NotAJsonObject && queue == old(queue) && (clock != null ==> clock.Now() == old(clock.Now()))
      ensures r == Ok(None) ==> queue == old(queue)
      ensures r.Ok? && r.value.Some? ==> r.value.value == |old(queue)| && |queue| == |old(queue)| + 1 && queue[..|old(queue)|] == old(queue)
      ensures payload.Object? && (clock == null || Get(payload.fields, UPDATED_AT).Some?) ==>
                r == Ok(Some(|old(queue)|)) && queue == old(queue) + [payload] && (clock != null ==> clock.Now() == old(clock.Now()))
      ensures payload.Object? && clock != null && Get(payload.fields, UPDATED_AT).None? ==>
                clock.Now() == Advance(old(clock.Now()), wall)
                && (r == Ok(None) <==> !clock.Now().Printable())
                && (clock.Now().Printable() ==>
                      clock.saved == Some(clock.Now().Stamp(clock.nodeId))
                      && queue == old(queue) + [Stamped(payload, clock.Now().Stamp(clock.nodeId))])
      ensures payload.Object? && clock != null && Get(payload.fields, "updatedAt").None? && clock.Now().Printable() ==>
                var queued := queue[|old(queue)|];
                && queued.Object? && Get(queued.fields, "updatedAt") == Some(Str(clock.Now().Stamp(clock.nodeId)))
                && forall key :: key != "updatedAt" ==> Get(queued.fields, key) == Get(payload.fields, key)
    {
      if !payload.Object? {
        return Err(NotAJsonObject);
      }
      var stamped := payload;
      if clock != null && Get(payload.fields, UPDATED_AT).None? {
        var ts := clock.Next(wall);
        if ts.None? {
          return Ok(None);
        }
        stamped := Object(payload.fields + [Field(UPDATED_AT, Str(ts.value))]);
        GetAppended(payload.fields, UPDATED_AT, Str(ts.value));
        forall key | key != UPDATED_AT
          ensures Get(stamped.fields, key) == Get(payload.fields, key)
        {
          GetOther(payload.fields, UPDATED_AT, Str(ts.value), key);
        }
      }
      queue := queue + [stamped];
      r := Ok(Some(|queue| - 1));
    }
  }

  /** The next stamp after a successful observation outranks, as text, everything that was seen. */
  lemma NextStampOutranks(s: State, text: string, wall: nat, nodeId: string, payload: Json)
    requires s.counter <= MAX_COUNTER && Covers(s, text) && Parse(text).Some?
    requires Advance(s, wall).Printable() && ValidNodeId(nodeId)
    requires payload.Object? && Get(payload.fields, UPDATED_AT).None?
    ensures var ts := Advance(s, wall).Stamp(nodeId);
            Less(text, ts) && SelectText(Stamped(payload, ts), UPDATED_AT) == Some(ts)
  {
    var p, next := Parse(text).value, Advance(s, wall);
    FormatOfParse(text);
    AdvanceIsMax(s, wall);
    PackedOrder(p, HlcParts(next.millis, next.counter, nodeId));
    GetAppended(payload.fields, UPDATED_AT, Str(next.Stamp(nodeId)));
  }

  /** Pull, then write: the stamp of a queued mutation is greater than every timestamp the pulled
      document selects at any depth, and a refused pull never moves the clock back. */
  method PullThenQueue(client: OptoSyncClient, incoming: Json, payload: Json, walls: nat -> nat, wall: nat)
    returns (refusal: Option<ClientError>, ts: Option<string>)
    requires client.Valid() && client.clock != null
    requires payload.Object? && Get(payload.fields, UPDATED_AT).None?
    modifies client`queue, client.clock
    ensures client.Valid()
    ensures old(client.clock.Now().Packed()) < client.clock.Now().Packed()
    ensures ts.Some? ==> client.queue == old(client.queue) + [Stamped(payload, ts.value)]
    ensures refusal.None? && ts.Some? ==> forall path, selector, text ::
              selector in client.selectors && SelectedAt(incoming, path, selector, text) && Parse(text).Some? ==> Less(text, ts.value)
    ensures refusal.None? && ts.Some? ==> forall at, selector, tokens, text ::
              Found(incoming, client.selectors, at, selector, tokens, text) && Parse(text).Some? ==> Less(text, ts.value)
  {
    var clock := client.clock;
    refusal := client.ObserveIncoming(Some(incoming), walls);
    ghost var s := clock.Now();
    AdvanceIsMax(s, wall);
    var queued := client.QueueMutationValue(payload, wall);
    ts := if queued == Ok(None) then None else clock.saved;
    if refusal.None? && ts.Some? {
      forall path, selector, text |
        selector in client.selectors && SelectedAt(incoming, path, selector, text) && Parse(text).Some?
        ensures Less(text, ts.value)
      {
        NextStampOutranks(s, text, wall, clock.nodeId, payload);
      }
      forall at, selector, tokens, text | Found(incoming, client.selectors, at, selector, tokens, text) && Parse(text).Some?
        ensures Less(text, ts.value)
      {
        NextStampOutranks(s, text, wall, clock.nodeId, payload);
      }
    }
  }
}
