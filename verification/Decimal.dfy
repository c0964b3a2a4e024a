/** Digit strings: positional values, fixed-width fields, and canonical decimals of any length. */
module Decimal {
  import opened Wrappers
  import opened Text

  const DIGITS := "0123456789abcdef"

  function Pow(base: nat, width: nat): nat {
    if width == 0 then 1 else base * Pow(base, width - 1)
  }

  lemma {:induction false} PowPositive(base: nat, width: nat)
    requires 1 <= base
    ensures 1 <= Pow(base, width)
  {
    if width > 0 {
      PowPositive(base, width - 1);
      assert base * Pow(base, width - 1) >= Pow(base, width - 1);
    }
  }

  /** The digit character of `d`; hexadecimal digits are lower case. */
  function DigitChar(d: nat): char
    requires d < 16
  {
    DIGITS[d]
  }

  predicate IsDigit(c: char, base: nat) {
    ('0' <= c <= '9' && c as int - '0' as int < base) || (base == 16 && 'a' <= c <= 'f')
  }

  function DigitValue(c: char): nat {
    if '0' <= c <= '9' then c as int - '0' as int
    else if 'a' <= c <= 'f' then c as int - 'a' as int + 10
    else 0
  }

  predicate AllDigits(s: string, base: nat) {
    forall i :: 0 <= i < |s| ==> IsDigit(s[i], base)
  }

  /** Positional value, most significant digit first. */
  function Value(s: string, base: nat): nat {
    if s == "" then 0 else Value(s[..|s| - 1], base) * base + DigitValue(s[|s| - 1])
  }

  lemma DigitOrder(c: char, d: char, base: nat)
    requires base == 10 || base == 16
    requires IsDigit(c, base) && IsDigit(d, base)
    ensures c < d <==> DigitValue(c) < DigitValue(d)
    ensures c == d <==> DigitValue(c) == DigitValue(d)
    ensures DigitValue(c) < base
  {}

  lemma {:induction false} ValueBound(s: string, base: nat)
    requires base == 10 || base == 16
    requires AllDigits(s, base)
    ensures Value(s, base) < Pow(base, |s|)
  {
    if s != "" {
      var n := |s| - 1;
      assert IsDigit(s[n], base);
      ValueBound(s[..n], base);
      DigitOrder(s[n], s[n], base);
      assert (Value(s[..n], base) + 1) * base <= Pow(base, n) * base;
    }
  }

  /** Among digit strings of one width, the text order is the order of the values. */
  lemma {:induction false} SameWidthOrder(a: string, b: string, base: nat)
    requires base == 10 || base == 16
    requires AllDigits(a, base) && AllDigits(b, base) && |a| == |b|
    ensures Less(a, b) <==> Value(a, base) < Value(b, base)
    ensures a == b <==> Value(a, base) == Value(b, base)
  {
    if a != "" {
      var n := |a| - 1;
      var a', b' := a[..n], b[..n];
      assert a == a' + [a[n]] && b == b' + [b[n]];
      assert IsDigit(a[n], base) && IsDigit(b[n], base);
      SameWidthOrder(a', b', base);
      DigitOrder(a[n], b[n], base);
      if a' == b' {
        LessCommonPrefix(a', [a[n]], [b[n]]);
      } else {
        LessFixedWidthHead(a', b', [a[n]], [b[n]]);
        LessTotal(a', b');
        var x, y := Value(a', base), Value(b', base);
        if x < y {
          assert (x + 1) * base <= y * base;
        } else {
          assert (y + 1) * base <= x * base;
        }
      }
    }
  }

  /** `value` written with exactly `width` digits, zero padded on the left. */
  function Fixed(value: nat, base: nat, width: nat): (s: string)
    requires 2 <= base <= 16
    ensures |s| == width
  {
    if width == 0 then "" else Fixed(value / base, base, width - 1) + [DigitChar(value % base)]
  }

  lemma {:induction false} FixedIsDigits(value: nat, base: nat, width: nat)
    requires base == 10 || base == 16
    ensures AllDigits(Fixed(value, base, width), base)
  {
    if width > 0 {
      FixedIsDigits(value / base, base, width - 1);
    }
  }

  lemma SplitLastDigit(value: nat, base: nat, power: nat)
    requires base == 10 || base == 16
    requires value < base * power
    ensures value / base < power
    ensures value / base * base + DigitValue(DigitChar(value % base)) == value
  {
    if base == 10 {
      assert DigitValue(DigitChar(value % 10)) == value % 10;
    } else {
      assert DigitValue(DigitChar(value % 16)) == value % 16;
    }
  }

  lemma {:induction false} ValueOfFixed(value: nat, base: nat, width: nat)
    requires base == 10 || base == 16
    requires value < Pow(base, width)
    ensures Value(Fixed(value, base, width), base) == value
  {
    if width > 0 {
      var head, last := Fixed(value / base, base, width - 1), DigitChar(value % base);
      SplitLastDigit(value, base, Pow(base, width - 1));
      ValueOfFixed(value / base, base, width - 1);
      assert (head + [last])[..width - 1] == head;
    }
  }

  lemma {:induction false} FixedOfValue(s: string, base: nat)
    requires base == 10 || base == 16
    requires AllDigits(s, base)
    ensures Fixed(Value(s, base), base, |s|) == s
  {
    ValueBound(s, base);
    ValueOfFixed(Value(s, base), base, |s|);
    FixedIsDigits(Value(s, base), base, |s|);
    SameWidthOrder(s, Fixed(Value(s, base), base, |s|), base);
  }

  /** No sign, no leading zero, at least one digit. */
  predicate IsCanonical(s: string) {
    s != "" && AllDigits(s, 10) && (s[0] == '0' ==> |s| == 1)
  }

  /** The canonical decimal of `n`, as integer-to-text conversion produces it. */
  function ToDecimal(n: nat): string {
    if n < 10 then [DigitChar(n)] else ToDecimal(n / 10) + [DigitChar(n % 10)]
  }

  lemma {:induction false} ToDecimalCanonical(n: nat)
    ensures IsCanonical(ToDecimal(n)) && Value(ToDecimal(n), 10) == n
    ensures n > 0 ==> ToDecimal(n)[0] != '0'
  {
    if n < 10 {
      assert ToDecimal(n)[..0] == "";
    } else {
      ToDecimalCanonical(n / 10);
      var s := ToDecimal(n);
      assert s[..|s| - 1] == ToDecimal(n / 10);
      assert s[0] == ToDecimal(n / 10)[0];
    }
  }

  /** A longer canonical decimal is the larger number. */
  lemma {:induction false} CanonicalLowerBound(s: string)
    requires IsCanonical(s) && |s| > 1
    ensures Pow(10, |s| - 1) <= Value(s, 10)
  {
    var n := |s| - 1;
    assert IsDigit(s[0], 10);
    if n == 1 {
      assert s[..1][..0] == "";
      assert Value(s[..1], 10) == DigitValue(s[0]) >= 1;
    } else {
      CanonicalLowerBound(s[..n]);
    }
  }

  /** Canonical decimals and natural numbers are in bijection. */
  lemma ToDecimalOfValue(s: string)
    requires IsCanonical(s)
    ensures ToDecimal(Value(s, 10)) == s
  {
    ToDecimalCanonical(Value(s, 10));
    CanonicalOrder(s, ToDecimal(Value(s, 10)));
  }

  datatype Ordering = Lower | Same | Greater

  function CompareNat(a: nat, b: nat): Ordering {
    if a < b then Lower else if a == b then Same else Greater
  }

  function CompareText(a: string, b: string): Ordering {
    if Less(a, b) then Lower else if a == b then Same else Greater
  }

  /** Anything that is not a canonical decimal counts as zero. */
  function Normalize(s: string): string {
    if IsCanonical(s) then s else "0"
  }

  /** Length first, then text: never converts to a machine integer. */
  function CompareDecimal(left: string, right: string): Ordering {
    var a, b := Normalize(left), Normalize(right);
    if |a| != |b| then CompareNat(|a|, |b|) else CompareText(a, b)
  }

  lemma {:induction false} PowMonotone(base: nat, m: nat, n: nat)
    requires 1 <= base && m <= n
    ensures Pow(base, m) <= Pow(base, n)
  {
    if m < n {
      PowMonotone(base, m, n - 1);
      PowPositive(base, n - 1);
      assert Pow(base, n - 1) <= base * Pow(base, n - 1);
    }
  }

  lemma CanonicalShorterIsLower(a: string, b: string)
    requires IsCanonical(a) && IsCanonical(b) && |a| < |b|
    ensures Value(a, 10) < Value(b, 10)
  {
    ValueBound(a, 10);
    CanonicalLowerBound(b);
    PowMonotone(10, |a|, |b| - 1);
  }

  lemma CanonicalOrder(a: string, b: string)
    requires IsCanonical(a) && IsCanonical(b)
    ensures CompareDecimal(a, b) == CompareNat(Value(a, 10), Value(b, 10))
    ensures a == b <==> Value(a, 10) == Value(b, 10)
  {
    if |a| < |b| {
      CanonicalShorterIsLower(a, b);
    } else if |b| < |a| {
      CanonicalShorterIsLower(b, a);
    } else {
      SameWidthOrder(a, b, 10);
    }
  }

  /** The number a revision or generation text stands for. */
  function NumberOf(s: string): nat {
    Value(Normalize(s), 10)
  }

  /** `compare_decimal` is the integer order, for decimals of any length and for junk. */
  lemma CompareDecimalIsNumeric(left: string, right: string)
    ensures CompareDecimal(left, right) == CompareNat(NumberOf(left), NumberOf(right))
    ensures IsCanonical(left) && IsCanonical(right) ==>
              (left == right <==> NumberOf(left) == NumberOf(right))
  {
    assert IsCanonical("0");
    CanonicalOrder(Normalize(left), Normalize(right));
  }

  /** Decimal text of a non-negative 64-bit integer; anything else is refused. */
  function ParseDecimal(s: string, limit: nat): Option<nat> {
    if !IsCanonical(s) || Value(s, 10) > limit then None else Some(Value(s, 10))
  }

  /** What the digits are: `0` to `9` and, in hexadecimal, lower-case `a` to `f`. */
  lemma DigitsExactly(c: char, base: nat)
    requires base == 10 || base == 16
    ensures IsDigit(c, base) <==> '0' <= c <= '9' || (base == 16 && 'a' <= c <= 'f')
    ensures '0' <= c <= '9' ==> DigitValue(c) == c as int - '0' as int
    ensures 'a' <= c <= 'f' ==> DigitValue(c) == c as int - 'a' as int + 10
  {}

  /** Parsing accepts exactly the texts that printing produces, and undoes it. */
  lemma ParseDecimalExact(s: string, n: nat, limit: nat)
    ensures ParseDecimal(s, limit) == Some(n) <==> n <= limit && s == ToDecimal(n)
  {
    ToDecimalCanonical(n);
    if IsCanonical(s) {
      ToDecimalOfValue(s);
    }
  }
}
