/** Decimal notation and JavaScript's default string order. */
module Decimals {

  predicate IsDigit(c: char) {
    '0' <= c <= '9'
  }

  ghost predicate IsDigits(s: string) {
    forall c :: c in s ==> IsDigit(c)
  }

  function DigitValue(c: char): nat {
    if IsDigit(c) then c as int - '0' as int else 0
  }

  function DigitChar(d: nat): (c: char)
    requires d < 10
    ensures IsDigit(c) && DigitValue(c) == d
  {
    ('0' as int + d) as char
  }

  /** The number a digit string denotes. */
  function Value(s: string): nat {
    if s == "" then 0 else 10 * Value(s[..|s| - 1]) + DigitValue(s[|s| - 1])
  }

  /** `Number.prototype.toString` on a non-negative integer. */
  function Decimal(n: nat): (s: string)
    ensures s != "" && IsDigits(s) && Value(s) == n
  {
    if n < 10 then
      var s := [DigitChar(n)];
      assert s[..0] == "";
      s
    else
      var s := Decimal(n / 10) + [DigitChar(n % 10)];
      assert s[..|s| - 1] == Decimal(n / 10);
      s
  }

  lemma {:induction false} NoLeadingZero(n: nat)
    ensures n > 0 ==> Decimal(n)[0] != '0'
    ensures n == 0 ==> |Decimal(n)| == 1
  {
    if n >= 10 {
      NoLeadingZero(n / 10);
      assert Decimal(n)[0] == Decimal(n / 10)[0];
    } else if n > 0 {
      assert Decimal(n) == [DigitChar(n)] && DigitValue('0') == 0;
    }
  }

  /** The order used by `Array.prototype.sort` without a comparator. */
  predicate StringLess(a: string, b: string) {
    b != "" && (a == "" || a[0] < b[0] || (a[0] == b[0] && StringLess(a[1..], b[1..])))
  }

  lemma {:induction false} StringLessTotal(a: string, b: string)
    ensures StringLess(a, b) || a == b || StringLess(b, a)
    ensures !(StringLess(a, b) && StringLess(b, a)) && !StringLess(a, a)
  {
    if a != "" && b != "" {
      StringLessTotal(a[1..], b[1..]);
      assert a == [a[0]] + a[1..] && b == [b[0]] + b[1..];
    }
    if a != "" {
      StringLessTotal(a[1..], a[1..]);
    }
  }

  lemma {:induction false} StringLessTransitive(a: string, b: string, c: string)
    requires StringLess(a, b) && StringLess(b, c)
    ensures StringLess(a, c)
  {
    if a != "" && a[0] == b[0] == c[0] {
      StringLessTransitive(a[1..], b[1..], c[1..]);
    }
  }

  lemma {:induction false} StringLessSnoc(a: string, b: string, x: char, y: char)
    requires |a| == |b|
    ensures StringLess(a + [x], b + [y]) <==> StringLess(a, b) || (a == b && x < y)
  {
    if a == "" {
      assert [x][1..] == "" && [y][1..] == "";
    } else {
      assert (a + [x])[1..] == a[1..] + [x] && (b + [y])[1..] == b[1..] + [y];
      StringLessSnoc(a[1..], b[1..], x, y);
      assert a == [a[0]] + a[1..] && b == [b[0]] + b[1..];
    }
  }

  /** String order agrees with numeric order between numbers of equal width. */
  lemma {:induction false} DecimalOrder(a: nat, b: nat)
    requires |Decimal(a)| == |Decimal(b)|
    ensures StringLess(Decimal(a), Decimal(b)) <==> a < b
  {
    if a >= 10 && b >= 10 {
      DecimalOrder(a / 10, b / 10);
      StringLessSnoc(Decimal(a / 10), Decimal(b / 10), DigitChar(a % 10), DigitChar(b % 10));
      assert Decimal(a / 10) == Decimal(b / 10) <==> a / 10 == b / 10;
    } else {
      assert a < 10 && b < 10;
      assert StringLess("" + [DigitChar(a)], "" + [DigitChar(b)]) <==> a < b by {
        StringLessSnoc("", "", DigitChar(a), DigitChar(b));
      }
      assert "" + [DigitChar(a)] == [DigitChar(a)] && "" + [DigitChar(b)] == [DigitChar(b)];
    }
  }
}
