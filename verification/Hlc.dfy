/** The wire format of a hybrid logical timestamp: `<13 digits>-<4 hex digits>-<node id>`. */
module Hlc {
  import opened Wrappers
  import opened Text
  import opened Decimal

  const MILLIS_DIGITS: nat := 13
  const COUNTER_DIGITS: nat := 4
  const MAX_MILLIS: nat := 9_999_999_999_999
  const MAX_COUNTER: nat := 0xffff

  datatype HlcParts = HlcParts(millis: nat, counter: nat, nodeId: string)

  predicate ValidNodeId(nodeId: string) {
    nodeId != "" && '-' !in nodeId
  }

  /** The parts that `Format` accepts; the formatter panics on anything else. */
  predicate ValidParts(p: HlcParts) {
    p.millis <= MAX_MILLIS && p.counter <= MAX_COUNTER && ValidNodeId(p.nodeId)
  }

  function Format(p: HlcParts): string
    requires ValidParts(p)
  {
    Fixed(p.millis, 10, MILLIS_DIGITS) + "-" + Fixed(p.counter, 16, COUNTER_DIGITS) + "-" + p.nodeId
  }

  /** Index of the first `c` in `s`, or the length of `s`. */
  function IndexOf(s: string, c: char): (i: nat)
    ensures i <= |s|
    ensures i < |s| ==> s[i] == c
    ensures c !in s[..i]
  {
    if s == "" || s[0] == c then 0
    else
      var i := IndexOf(s[1..], c) + 1;
      assert s[..i] == [s[0]] + s[1..][..i - 1];
      i
  }

  lemma IndexOfHead(head: string, c: char, rest: string)
    requires c !in head
    ensures IndexOf(head + [c] + rest, c) == |head|
  {
    var s := head + [c] + rest;
    var i := IndexOf(s, c);
    assert s[..|head|] == head && s[|head|] == c;
    assert forall j :: 0 <= j < |head| ==> s[j] == head[j];
    assert forall j :: 0 <= j < i ==> s[j] in s[..i];
  }

  /** The text before and after the first delimiter. */
  function SplitOnce(s: string, c: char): Option<(string, string)> {
    var i := IndexOf(s, c);
    if i == |s| then None else Some((s[..i], s[i + 1..]))
  }

  lemma SplitOnceJoin(head: string, c: char, rest: string)
    requires c !in head
    ensures SplitOnce(head + [c] + rest, c) == Some((head, rest))
  {
    IndexOfHead(head, c, rest);
    var s := head + [c] + rest;
    assert s[..|head|] == head && s[|head| + 1..] == rest;
  }

  /** At most three pieces: the third keeps any further delimiter and is then refused. */
  function Parse(s: string): Option<HlcParts> {
    match SplitOnce(s, '-')
    case None => None
    case Some((millis, rest)) =>
      match SplitOnce(rest, '-')
      case None => None
      case Some((counter, nodeId)) =>
        if |millis| != MILLIS_DIGITS || !AllDigits(millis, 10) then None
        else if |counter| != COUNTER_DIGITS || !AllDigits(counter, 16) then None
        else if nodeId == "" || '-' in nodeId then None
        else Some(HlcParts(Value(millis, 10), Value(counter, 16), nodeId))
  }

  lemma Widths()
    ensures Pow(10, MILLIS_DIGITS) == MAX_MILLIS + 1
    ensures Pow(16, COUNTER_DIGITS) == MAX_COUNTER + 1
  {
    assert Pow(10, 4) == 10_000 && Pow(10, 8) == 100_000_000 && Pow(10, 12) == 1_000_000_000_000;
    assert Pow(16, 2) == 256;
  }

  lemma DigitsHaveNoDash(s: string, base: nat)
    requires AllDigits(s, base)
    ensures '-' !in s
  {
    forall i | 0 <= i < |s| ensures s[i] != '-' {
      assert IsDigit(s[i], base);
    }
  }

  /** Reading back what was written. */
  lemma ParseOfFormat(p: HlcParts)
    requires ValidParts(p)
    ensures Parse(Format(p)) == Some(p)
  {
    Widths();
    var m, c := Fixed(p.millis, 10, MILLIS_DIGITS), Fixed(p.counter, 16, COUNTER_DIGITS);
    FixedIsDigits(p.millis, 10, MILLIS_DIGITS);
    FixedIsDigits(p.counter, 16, COUNTER_DIGITS);
    DigitsHaveNoDash(m, 10);
    DigitsHaveNoDash(c, 16);
    var rest := c + ['-'] + p.nodeId;
    assert Format(p) == m + ['-'] + rest;
    SplitOnceJoin(m, '-', rest);
    SplitOnceJoin(c, '-', p.nodeId);
    ValueOfFixed(p.millis, 10, MILLIS_DIGITS);
    ValueOfFixed(p.counter, 16, COUNTER_DIGITS);
  }

  lemma SplitOnceRejoins(s: string, c: char)
    requires SplitOnce(s, c).Some?
    ensures s == SplitOnce(s, c).value.0 + [c] + SplitOnce(s, c).value.1
  {}

  /** Every accepted text is the canonical one of its parts: re-formatting is the identity. */
  lemma FormatOfParse(s: string)
    requires Parse(s).Some?
    ensures ValidParts(Parse(s).value) && Format(Parse(s).value) == s
  {
    Widths();
    var (m, rest) := SplitOnce(s, '-').value;
    var (c, nodeId) := SplitOnce(rest, '-').value;
    ValueBound(m, 10);
    ValueBound(c, 16);
    FixedOfValue(m, 10);
    FixedOfValue(c, 16);
    SplitOnceRejoins(s, '-');
    SplitOnceRejoins(rest, '-');
    assert m + ['-'] + (c + ['-'] + nodeId) == m + "-" + c + "-" + nodeId;
  }

  /** `Parse` accepts exactly the outputs of `Format`. */
  lemma ParseExact(s: string, p: HlcParts)
    ensures Parse(s) == Some(p) <==> ValidParts(p) && Format(p) == s
  {
    if Parse(s) == Some(p) {
      FormatOfParse(s);
    }
    if ValidParts(p) {
      ParseOfFormat(p);
    }
  }

  /** The shape of every timestamp: 13 decimal digits, 4 hexadecimal ones and the node id, between dashes. */
  lemma FormatShape(p: HlcParts)
    requires ValidParts(p)
    ensures var s := Format(p);
            && |s| == 19 + |p.nodeId| && s[13] == '-' && s[18] == '-' && s[19..] == p.nodeId
            && AllDigits(s[..13], 10) && Value(s[..13], 10) == p.millis
            && AllDigits(s[14..18], 16) && Value(s[14..18], 16) == p.counter
  {
    Widths();
    var m, c := Fixed(p.millis, 10, MILLIS_DIGITS), Fixed(p.counter, 16, COUNTER_DIGITS);
    FixedIsDigits(p.millis, 10, MILLIS_DIGITS);
    FixedIsDigits(p.counter, 16, COUNTER_DIGITS);
    ValueOfFixed(p.millis, 10, MILLIS_DIGITS);
    ValueOfFixed(p.counter, 16, COUNTER_DIGITS);
    var s := Format(p);
    assert s == m + ['-'] + c + ['-'] + p.nodeId;
    assert s[..13] == m && s[14..18] == c && s[19..] == p.nodeId;
  }

  /** Logical order: milliseconds, then counter, then node id. */
  predicate PartsLess(p: HlcParts, q: HlcParts) {
    p.millis < q.millis
    || (p.millis == q.millis
        && (p.counter < q.counter || (p.counter == q.counter && Less(p.nodeId, q.nodeId))))
  }

  lemma FixedFieldOrder(x: nat, y: nat, base: nat, width: nat, restX: string, restY: string)
    requires base == 10 || base == 16
    requires x < Pow(base, width) && y < Pow(base, width)
    ensures Less(Fixed(x, base, width) + restX, Fixed(y, base, width) + restY)
            <==> x < y || (x == y && Less(restX, restY))
  {
    var a, b := Fixed(x, base, width), Fixed(y, base, width);
    FixedIsDigits(x, base, width);
    FixedIsDigits(y, base, width);
    ValueOfFixed(x, base, width);
    ValueOfFixed(y, base, width);
    SameWidthOrder(a, b, base);
    if x == y {
      LessCommonPrefix(a, restX, restY);
    } else {
      LessFixedWidthHead(a, b, restX, restY);
    }
  }

  /** What follows the milliseconds. */
  function Tail(p: HlcParts): string
    requires ValidParts(p)
  {
    "-" + (Fixed(p.counter, 16, COUNTER_DIGITS) + ("-" + p.nodeId))
  }

  lemma FormatIsFields(p: HlcParts)
    requires ValidParts(p)
    ensures Format(p) == Fixed(p.millis, 10, MILLIS_DIGITS) + Tail(p)
  {}

  lemma TailOrder(p: HlcParts, q: HlcParts)
    requires ValidParts(p) && ValidParts(q)
    ensures Less(Tail(p), Tail(q)) <==> p.counter < q.counter || (p.counter == q.counter && Less(p.nodeId, q.nodeId))
  {
    Widths();
    FixedFieldOrder(p.counter, q.counter, 16, COUNTER_DIGITS, "-" + p.nodeId, "-" + q.nodeId);
    LessCommonPrefix("-", p.nodeId, q.nodeId);
    LessCommonPrefix("-", Fixed(p.counter, 16, COUNTER_DIGITS) + ("-" + p.nodeId), Fixed(q.counter, 16, COUNTER_DIGITS) + ("-" + q.nodeId));
  }

  lemma FormatInjective(p: HlcParts, q: HlcParts)
    requires ValidParts(p) && ValidParts(q) && Format(p) == Format(q)
    ensures p == q
  {
    ParseOfFormat(p);
    ParseOfFormat(q);
  }

  /** Fixed width at work: comparing two timestamps as plain text is comparing their parts. */
  lemma {:induction false} TextOrderIsLogicalOrder(p: HlcParts, q: HlcParts)
    requires ValidParts(p) && ValidParts(q)
    ensures Less(Format(p), Format(q)) <==> PartsLess(p, q)
    ensures Format(p) == Format(q) <==> p == q
  {
    Widths();
    FormatIsFields(p);
    FormatIsFields(q);
    FixedFieldOrder(p.millis, q.millis, 10, MILLIS_DIGITS, Tail(p), Tail(q));
    TailOrder(p, q);
    if Format(p) == Format(q) {
      FormatInjective(p, q);
    }
  }

  /** Milliseconds and counter as one number; a node's issued timestamps climb along it. */
  function Packed(millis: nat, counter: nat): nat {
    millis * 65536 + counter
  }

  lemma {:induction false} PackedOrder(p: HlcParts, q: HlcParts)
    requires ValidParts(p) && ValidParts(q)
    requires Packed(p.millis, p.counter) < Packed(q.millis, q.counter)
    ensures Less(Format(p), Format(q))
  {
    TextOrderIsLogicalOrder(p, q);
  }
}
