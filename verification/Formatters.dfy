/** `denominate`: prints an integer amount with a decimal point, optionally cut to
    some decimals and with thousands separators, by editing a character array. */
module Formatters {
  import opened Sequences
  import opened Decimals
  import opened Strings

  // ----- What is printed -----

  function Zeros(n: int): (s: string)
    ensures |s| == Max(n, 0)
    ensures forall c :: c in s ==> c == '0'
  {
    if n <= 0 then "" else "0" + Zeros(n - 1)
  }

  function IntegerDigits(big: string, denomination: nat): string {
    if denomination == 0 then big
    else if |big| > denomination then big[..|big| - denomination]
    else "0"
  }

  function FractionDigits(big: string, denomination: nat): (s: string)
    ensures |s| == denomination
  {
    if |big| > denomination then big[|big| - denomination..] else Zeros(denomination - |big|) + big
  }

  /** The length of `s` without its trailing zeros. */
  function SignificantLength(s: string): (n: nat)
    ensures n <= |s|
    ensures forall i :: n <= i < |s| ==> s[i] == '0'
    ensures n > 0 ==> s[n - 1] != '0'
  {
    if s == "" then 0
    else if s[|s| - 1] != '0' then |s|
    else SignificantLength(s[..|s| - 1])
  }

  function KeptDigits(big: string, denomination: nat, decimals: nat, showLastNonZeroDecimal: bool): string {
    if denomination == 0 then ""
    else
      var padded := FractionDigits(big, denomination) + Zeros(decimals - denomination);
      padded[..if showLastNonZeroDecimal then Max(decimals, SignificantLength(padded)) else decimals]
  }

  predicate AllZero(s: string) {
    forall i :: 0 <= i < |s| ==> s[i] == '0'
  }

  /** Thousands separators, grouped from the right. */
  function Grouped(s: string): string {
    if |s| <= 3 then s else Grouped(s[..|s| - 3]) + "," + s[|s| - 3..]
  }

  function Formatted(big: string, denomination: nat, decimals: nat, showLastNonZeroDecimal: bool,
      addCommas: bool): string {
    var ints := IntegerDigits(big, denomination);
    var whole := if addCommas then Grouped(ints) else ints;
    var kept := KeptDigits(big, denomination, decimals, showLastNonZeroDecimal);
    if AllZero(kept) then whole
    else if decimals == 0 then whole + kept
    else whole + "." + kept
  }

  // ----- Reading it back -----

  function Pow10(n: nat): (p: nat)
    ensures p > 0
  {
    if n == 0 then 1 else 10 * Pow10(n - 1)
  }

  function DigitChars(): char -> bool {
    (c: char) => IsDigit(c)
  }

  function NotComma(): char -> bool {
    (c: char) => c != ','
  }

  /** The number printed, read without its decimal point and commas. */
  function Mantissa(printed: string): nat {
    Value(Filter(printed, DigitChars()))
  }

  /** The number of digits after the decimal point. */
  function Scale(printed: string): nat {
    if IndexOf(printed, '.') == -1 then 0 else |printed| - IndexOf(printed, '.') - 1
  }

  /** `0 <= n / 10^d - m / 10^f < 10^-decimals`, over the integers. */
  ghost predicate TruncatesTo(n: nat, d: nat, m: nat, f: nat, decimals: nat) {
    && m * Pow10(d) <= n * Pow10(f)
    && (n * Pow10(f) - m * Pow10(d)) * Pow10(decimals) < Pow10(d + f)
  }

  /** `n / 10^d == m / 10^f`, over the integers. */
  ghost predicate EqualsExactly(n: nat, d: nat, m: nat, f: nat) {
    m * Pow10(d) == n * Pow10(f)
  }

  lemma {:induction false} PowAdd(a: nat, b: nat)
    ensures Pow10(a + b) == Pow10(a) * Pow10(b)
  {
    if a > 0 {
      PowAdd(a - 1, b);
      assert Pow10(a + b) == 10 * (Pow10(a - 1) * Pow10(b)) == (10 * Pow10(a - 1)) * Pow10(b);
    }
  }

  lemma {:induction false} ValueConcat(a: string, b: string)
    ensures Value(a + b) == Value(a) * Pow10(|b|) + Value(b)
  {
    if b == "" {
      assert a + b == a;
    } else {
      var b' := b[..|b| - 1];
      ValueConcat(a, b');
      assert (a + b)[..|a + b| - 1] == a + b';
      assert 10 * (Value(a) * Pow10(|b'|)) == Value(a) * (10 * Pow10(|b'|));
    }
  }

  lemma {:induction false} ValueBound(s: string)
    ensures Value(s) < Pow10(|s|)
  {
    if s != "" {
      ValueBound(s[..|s| - 1]);
    }
  }

  lemma {:induction false} ValueZero(s: string)
    requires IsDigits(s)
    ensures Value(s) == 0 <==> AllZero(s)
  {
    if s != "" {
      var s' := s[..|s| - 1];
      ValueZero(s');
      assert s == s' + [s[|s| - 1]];
      assert s[|s| - 1] in s;
      assert AllZero(s) <==> AllZero(s') && s[|s| - 1] == '0';
    }
  }

  lemma {:induction false} LeadingZeros(k: int, s: string)
    ensures Value(Zeros(k) + s) == Value(s)
  {
    ValueConcat(Zeros(k), s);
    ZerosValue(k);
  }

  lemma ZerosValue(k: int)
    ensures Value(Zeros(k)) == 0
  {
    var zeros := Zeros(k);
    assert forall i :: 0 <= i < |zeros| ==> zeros[i] in zeros;
    ValueZero(zeros);
  }

  lemma PartsValue(big: string, d: nat)
    ensures Value(IntegerDigits(big, d) + FractionDigits(big, d)) == Value(big)
  {
    if |big| > d {
      assert IntegerDigits(big, d) + FractionDigits(big, d) == big;
    } else {
      assert "0" + Zeros(d - |big|) == Zeros(d - |big| + 1);
      ConcatAssoc("0", Zeros(d - |big|), big);
      LeadingZeros(d - |big| + 1, big);
    }
  }

  lemma PartsDigits(big: string, d: nat)
    requires IsDigits(big)
    ensures IsDigits(IntegerDigits(big, d)) && IsDigits(FractionDigits(big, d))
  {
  }

  /** With as many decimals as the denomination or more, nothing is cut. */
  lemma KeptInFull(big: string, d: nat, decimals: nat, show: bool)
    requires 0 < d <= decimals
    ensures var kept := KeptDigits(big, d, decimals, show);
      |kept| == decimals && Value(IntegerDigits(big, d) + kept) == Value(big) * Pow10(decimals - d)
  {
    var ints, frac, zeros := IntegerDigits(big, d), FractionDigits(big, d), Zeros(decimals - d);
    assert KeptDigits(big, d, decimals, show) == frac + zeros;
    ConcatAssoc(ints, frac, zeros);
    ValueConcat(ints + frac, zeros);
    ZerosValue(decimals - d);
    PartsValue(big, d);
  }

  lemma SplitValue(ints: string, frac: string, k: nat)
    requires k <= |frac|
    ensures Value(ints + frac) == Value(ints + frac[..k]) * Pow10(|frac| - k) + Value(frac[k..])
  {
    hide Value, Pow10;
    assert frac == frac[..k] + frac[k..];
    ConcatAssoc(ints, frac[..k], frac[k..]);
    ValueConcat(ints + frac[..k], frac[k..]);
  }

  /** With fewer decimals, the kept digits are the first of the fraction, and with
      the last non-zero digit shown only zeros are cut off. */
  lemma KeptIsPrefix(big: string, d: nat, decimals: nat, show: bool)
    requires decimals < d
    ensures var kept, frac := KeptDigits(big, d, decimals, show), FractionDigits(big, d);
      && decimals <= |kept| <= d && (!show ==> |kept| == decimals)
      && kept == frac[..|kept|] && (show ==> AllZero(frac[|kept|..]))
  {
    hide FractionDigits;
    var frac := FractionDigits(big, d);
    assert frac + Zeros(decimals - d) == frac;
  }

  /** With fewer decimals, the digits after the kept ones are cut off. */
  lemma KeptInPart(big: string, d: nat, decimals: nat, show: bool)
    requires decimals < d && IsDigits(big)
    ensures var kept := KeptDigits(big, d, decimals, show);
      && decimals <= |kept| <= d && (!show ==> |kept| == decimals)
      && kept == FractionDigits(big, d)[..|kept|]
      && (var cut := FractionDigits(big, d)[|kept|..];
          && Value(big) == Value(IntegerDigits(big, d) + kept) * Pow10(d - |kept|) + Value(cut)
          && (show ==> Value(cut) == 0))
  {
    hide Value, Pow10, IntegerDigits, FractionDigits, KeptDigits;
    var ints, frac, kept := IntegerDigits(big, d), FractionDigits(big, d), KeptDigits(big, d, decimals, show);
    KeptIsPrefix(big, d, decimals, show);
    SplitValue(ints, frac, |kept|);
    PartsValue(big, d);
    PartsDigits(big, d);
    CutDigits(frac, |kept|);
    ValueZero(frac[|kept|..]);
  }

  lemma CutDigits(s: string, n: nat)
    requires IsDigits(s) && n <= |s|
    ensures IsDigits(s[..n]) && IsDigits(s[n..])
  {
    CutAt(s, n);
  }

  lemma Assoc(a: int, b: int, c: int)
    ensures (a * b) * c == a * (b * c)
  {
  }

  lemma Distribute(a: int, b: int, c: int)
    ensures (a + b) * c == a * c + b * c && (a - b) * c == a * c - b * c
  {
  }

  lemma MulLess(x: int, y: int, q: int)
    requires q > 0
    ensures (x < y <==> x * q < y * q) && (x == y <==> x * q == y * q)
  {
  }

  /** `m` and a rest `v` below one unit `p`, on a grid refined by `q`. */
  lemma UnitsAndRest(n: nat, m: nat, v: nat, p: nat, q: nat, r: nat)
    requires n == m * p + v && v < p && 0 < r <= q
    ensures n * q == m * (p * q) + v * q
    ensures (n * q - m * (p * q)) * r < (p * q) * q
    ensures m * (p * q) == n * q <==> v == 0
  {
    Distribute(m * p, v, q);
    Assoc(m, p, q);
    MulLess(v, 0, q);
    MulLess(v, p, q);
    MulLess(v * q, p * q, r);
    MulLess(r, q, p * q);
  }

  lemma ExactScaling(n: nat, d: nat, m: nat, f: nat, decimals: nat)
    requires d <= f && m == n * Pow10(f - d)
    ensures EqualsExactly(n, d, m, f) && TruncatesTo(n, d, m, f, decimals)
  {
    PowAdd(f - d, d);
    Assoc(n, Pow10(f - d), Pow10(d));
    assert (n * Pow10(f) - m * Pow10(d)) * Pow10(decimals) == 0;
  }

  lemma Truncation(n: nat, d: nat, m: nat, f: nat, v: nat, decimals: nat)
    requires decimals <= f <= d && n == m * Pow10(d - f) + v && v < Pow10(d - f)
    ensures TruncatesTo(n, d, m, f, decimals) && (EqualsExactly(n, d, m, f) <==> v == 0)
  {
    hide Pow10;
    PowAdd(d - f, f);
    PowAdd(d, f);
    PowAdd(f - decimals, decimals);
    assert Pow10(decimals) <= Pow10(f) by {
      MulLess(1, Pow10(f - decimals), Pow10(decimals));
    }
    UnitsAndRest(n, m, v, Pow10(d - f), Pow10(f), Pow10(decimals));
  }

  /** Trailing zeros that are not printed do not change the number. */
  lemma DropZeros(n: nat, d: nat, m: nat, f: nat, decimals: nat)
    ensures EqualsExactly(n, d, m * Pow10(f), f) <==> EqualsExactly(n, d, m, 0)
    ensures TruncatesTo(n, d, m * Pow10(f), f, decimals) <==> TruncatesTo(n, d, m, 0, decimals)
  {
    PowAdd(d, f);
    Rescale(n, m, Pow10(d), Pow10(f), Pow10(decimals));
  }

  lemma Rescale(n: nat, m: nat, p: nat, q: nat, r: nat)
    requires q > 0
    ensures (m * q) * p == n * q <==> m * p == n
    ensures (m * q) * p <= n * q <==> m * p <= n
    ensures (n * q - (m * q) * p) * r < p * q <==> (n - m * p) * r < p
  {
    Assoc(m, q, p);
    Assoc(m, p, q);
    assert (m * q) * p == (m * p) * q;
    MulLess(m * p, n, q);
    MulLess(n, m * p, q);
    Distribute(n, m * p, q);
    Assoc(n - m * p, q, r);
    Assoc(n - m * p, r, q);
    MulLess((n - m * p) * r, p, q);
  }

  // ----- Thousands separators -----

  lemma StripTail(head: string, tail: string, p: char -> bool)
    requires !p(',') && forall c :: c in tail ==> p(c)
    ensures Filter(head + "," + tail, p) == Filter(head, p) + tail
  {
    hide Filter;
    FilterNone(",", p);
    FilterAll(tail, p);
    FilterConcat(head, ",", p);
    FilterConcat(head + ",", tail, p);
    assert Filter(head, p) + [] == Filter(head, p);
  }

  lemma CutAt(s: string, n: nat)
    requires n <= |s|
    ensures s == s[..n] + s[n..]
    ensures forall c :: c in s[..n] ==> c in s
    ensures forall c :: c in s[n..] ==> c in s
  {
  }

  /** Dropping the commas, or anything else but the digits, undoes the grouping. */
  lemma {:induction false} GroupedStrips(s: string, p: char -> bool)
    requires !p(',') && forall c :: c in s ==> p(c)
    ensures Filter(Grouped(s), p) == s
  {
    if |s| <= 3 {
      FilterAll(s, p);
    } else {
      var head, tail := s[..|s| - 3], s[|s| - 3..];
      assert Grouped(s) == Grouped(head) + "," + tail;
      hide Grouped, Filter;
      CutAt(s, |s| - 3);
      GroupedStrips(head, p);
      StripTail(Grouped(head), tail, p);
    }
  }

  lemma {:induction false} GroupedHasNoPoint(s: string)
    requires IsDigits(s)
    ensures '.' !in Grouped(s)
  {
    assert '.' !in s by {
      assert '.' in s ==> IsDigit('.');
    }
    if |s| > 3 {
      assert forall c :: c in s[..|s| - 3] ==> c in s;
      assert forall c :: c in s[|s| - 3..] ==> c in s;
      GroupedHasNoPoint(s[..|s| - 3]);
    }
  }

  /** A first group of one to three digits, then groups of exactly three. */
  lemma {:induction false} GroupedShape(s: string)
    requires s != "" && IsDigits(s)
    ensures var groups := Split(Grouped(s), ',');
      1 <= |groups[0]| <= 3 && forall i :: 0 < i < |groups| ==> |groups[i]| == 3
  {
    if |s| <= 3 {
      SplitNone(s, ',');
    } else {
      var head, tail := s[..|s| - 3], s[|s| - 3..];
      assert forall c :: c in tail ==> c in s && IsDigit(c);
      assert forall c :: c in head ==> c in s;
      GroupedShape(head);
      SplitNone(tail, ',');
      SplitConcat(Grouped(head), tail, ',');
    }
  }

  /** Without its commas the output is the output that never had any. */
  lemma CommasOnlyGroup(big: string, d: nat, decimals: nat, show: bool)
    requires IsDigits(big)
    ensures Filter(Formatted(big, d, decimals, show, true), NotComma()) == Formatted(big, d, decimals, show, false)
  {
    var ints, kept := IntegerDigits(big, d), KeptDigits(big, d, decimals, show);
    PartsDigits(big, d);
    GroupedStrips(ints, NotComma());
    KeptDigitsAreDigits(big, d, decimals, show);
    FilterAll(kept, NotComma());
    FilterAll("." + kept, NotComma());
    FilterConcat(Grouped(ints), kept, NotComma());
    FilterConcat(Grouped(ints), "." + kept, NotComma());
    ConcatAssoc(Grouped(ints), ".", kept);
    ConcatAssoc(ints, ".", kept);
  }

  lemma KeptDigitsAreDigits(big: string, d: nat, decimals: nat, show: bool)
    requires IsDigits(big)
    ensures IsDigits(KeptDigits(big, d, decimals, show))
  {
    PartsDigits(big, d);
    if d > 0 {
      var padded := FractionDigits(big, d) + Zeros(decimals - d);
      assert IsDigits(padded);
      var kept := KeptDigits(big, d, decimals, show);
      assert forall c :: c in kept ==> c in padded;
    }
  }

  // ----- The printed number -----

  lemma ReadWhole(whole: string, ints: string)
    requires Filter(whole, DigitChars()) == ints && '.' !in whole
    ensures Mantissa(whole) == Value(ints) && Scale(whole) == 0
  {
    IndexOfNone(whole, '.');
  }

  lemma ReadWithPoint(whole: string, ints: string, kept: string)
    requires Filter(whole, DigitChars()) == ints && '.' !in whole && IsDigits(kept)
    ensures Mantissa(whole + "." + kept) == Value(ints + kept) && Scale(whole + "." + kept) == |kept|
    ensures Mantissa(whole + kept) == Value(ints + kept) && Scale(whole + kept) == 0
  {
    IndexOfFirst(whole, '.', kept);
    IndexOfNone(whole + kept, '.');
    FilterAll(kept, DigitChars());
    FilterConcat(whole + ".", kept, DigitChars());
    FilterConcat(whole, ".", DigitChars());
    FilterConcat(whole, kept, DigitChars());
  }

  /** The one way to lose the decimal point of a fraction. */
  predicate LosesPoint(n: nat, d: nat, decimals: nat, show: bool) {
    decimals == 0 && show && n % Pow10(d) != 0
  }

  lemma FractionIsRemainder(big: string, d: nat)
    requires IsDigits(big)
    ensures Value(big) % Pow10(d) == Value(FractionDigits(big, d))
  {
    var ints, frac := IntegerDigits(big, d), FractionDigits(big, d);
    PartsValue(big, d);
    ValueConcat(ints, frac);
    ValueBound(frac);
    RemainderOf(Value(big), Value(ints), Pow10(d), Value(frac));
  }

  lemma RemainderOf(n: nat, m: nat, p: nat, v: nat)
    requires n == m * p + v && v < p
    ensures n % p == v
  {
    var k := n / p;
    assert n == k * p + n % p;
    Distribute(k, m, p);
    if k > m {
      MulLess(m + 1, k, p);
      MulLess(m + 1, k + 1, p);
      Distribute(m, 1, p);
    } else if k < m {
      MulLess(k + 1, m, p);
      MulLess(k + 1, m + 1, p);
      Distribute(k, 1, p);
    }
  }

  lemma NothingKept(big: string, decimals: nat, show: bool)
    ensures KeptDigits(big, 0, decimals, show) == "" && IntegerDigits(big, 0) + "" == big
  {
  }

  /** The value of the kept digits, before the printer decides what to leave out. */
  lemma KeptTruncates(big: string, d: nat, decimals: nat, show: bool)
    requires IsDigits(big)
    ensures var kept := KeptDigits(big, d, decimals, show);
      var m := Value(IntegerDigits(big, d) + kept);
      && TruncatesTo(Value(big), d, m, |kept|, decimals)
      && (EqualsExactly(Value(big), d, m, |kept|) <==>
            show || decimals >= d || Value(big) % Pow10(d - decimals) == 0)
  {
    hide Value, Pow10, KeptDigits, FractionDigits, TruncatesTo, EqualsExactly;
    var n, ints, kept := Value(big), IntegerDigits(big, d), KeptDigits(big, d, decimals, show);
    if d == 0 {
      NothingKept(big, decimals, show);
      PowBounds(0);
      ExactScaling(n, 0, n, 0, decimals);
    } else if decimals >= d {
      KeptInFull(big, d, decimals, show);
      ExactScaling(n, d, n * Pow10(decimals - d), decimals, decimals);
    } else {
      KeptInPart(big, d, decimals, show);
      var m, cut := Value(ints + kept), FractionDigits(big, d)[|kept|..];
      ValueBound(cut);
      Truncation(n, d, m, |kept|, Value(cut), decimals);
      RemainderOf(n, m, Pow10(d - |kept|), Value(cut));
    }
  }

  /** How the output reads, case by case: the kept digits are printed after a
      point, left out when they are all zero, or run into the integer part. */
  lemma PrintedReads(big: string, d: nat, decimals: nat, show: bool, commas: bool)
    requires IsDigits(big)
    ensures var ints, kept := IntegerDigits(big, d), KeptDigits(big, d, decimals, show);
      var printed := Formatted(big, d, decimals, show, commas);
      && Mantissa(printed) == (if AllZero(kept) then Value(ints) else Value(ints + kept))
      && Scale(printed) == (if AllZero(kept) || decimals == 0 then 0 else |kept|)
  {
    var ints, kept := IntegerDigits(big, d), KeptDigits(big, d, decimals, show);
    var whole := if commas then Grouped(ints) else ints;
    PartsDigits(big, d);
    KeptDigitsAreDigits(big, d, decimals, show);
    GroupedStrips(ints, DigitChars());
    GroupedHasNoPoint(ints);
    FilterAll(ints, DigitChars());
    ReadWhole(whole, ints);
    ReadWithPoint(whole, ints, kept);
  }

  lemma WithoutPoint(big: string, d: nat, show: bool)
    ensures var frac, kept := FractionDigits(big, d), KeptDigits(big, d, 0, show);
      AllZero(kept) <==> !show || AllZero(frac)
  {
    hide FractionDigits;
    var frac, kept := FractionDigits(big, d), KeptDigits(big, d, 0, show);
    if d > 0 && show {
      assert frac + Zeros(0 - d) == frac;
      var n := SignificantLength(frac);
      assert kept == frac[..n];
      assert n > 0 ==> kept[n - 1] != '0' && frac[n - 1] != '0';
    }
  }

  /** Kept digits without a point are non-zero exactly when the point is lost. */
  lemma KeptWithoutPoint(big: string, d: nat, show: bool)
    requires IsDigits(big)
    ensures AllZero(KeptDigits(big, d, 0, show)) <==> !LosesPoint(Value(big), d, 0, show)
  {
    hide Value, Pow10, FractionDigits, KeptDigits, AllZero;
    WithoutPoint(big, d, show);
    FractionIsRemainder(big, d);
    PartsDigits(big, d);
    ValueZero(FractionDigits(big, d));
  }

  lemma PowBounds(f: nat)
    ensures Pow10(0) == 1 && (f > 0 ==> Pow10(f) > 1)
  {
    assert f > 0 ==> Pow10(f) == 10 * Pow10(f - 1);
  }

  lemma TooLarge(m: nat, p: nat, q: nat)
    requires m > 0 && p > 0 && q > 1
    ensures m * (p * q) > m * p
  {
    MulLess(1, q, p);
    assert p < p * q;
    MulLess(p, p * q, m);
  }

  /** What is printed when the point is lost is far too large. */
  lemma PointLost(n: nat, d: nat, m: nat, f: nat, decimals: nat)
    requires 0 < f <= d && n == m * Pow10(d - f) && m > 0
    ensures !TruncatesTo(n, d, m, 0, decimals)
  {
    hide Pow10;
    PowAdd(d - f, f);
    PowBounds(f);
    TooLarge(m, Pow10(d - f), Pow10(f));
  }

  /** The printed number is the amount cut, not rounded, to the decimals asked for,
      exactly when the output does not lose the point of a fraction. */
  lemma FormatTruncatesIff(big: string, d: nat, decimals: nat, show: bool, commas: bool)
    requires IsDigits(big)
    ensures var printed := Formatted(big, d, decimals, show, commas);
      TruncatesTo(Value(big), d, Mantissa(printed), Scale(printed), decimals) <==>
        !LosesPoint(Value(big), d, decimals, show)
  {
    var n, ints, kept := Value(big), IntegerDigits(big, d), KeptDigits(big, d, decimals, show);
    if decimals == 0 {
      UnpointedTruncatesIff(big, d, show, commas);
    } else {
      hide Formatted, KeptDigits, IntegerDigits, TruncatesTo, EqualsExactly, Mantissa, Scale, Value, Pow10;
      PrintedReads(big, d, decimals, show, commas);
      KeptTruncates(big, d, decimals, show);
      if AllZero(kept) {
        DropKept(big, d, decimals, show);
      }
    }
  }

  lemma UnpointedTruncatesIff(big: string, d: nat, show: bool, commas: bool)
    requires IsDigits(big)
    ensures var printed := Formatted(big, d, 0, show, commas);
      TruncatesTo(Value(big), d, Mantissa(printed), Scale(printed), 0) <==> !LosesPoint(Value(big), d, 0, show)
  {
    hide Formatted, KeptDigits, IntegerDigits, FractionDigits, TruncatesTo, EqualsExactly, Mantissa, Scale, Value,
      Pow10, LosesPoint;
    var n, ints, kept := Value(big), IntegerDigits(big, d), KeptDigits(big, d, 0, show);
    PrintedReads(big, d, 0, show, commas);
    KeptWithoutPoint(big, d, show);
    if AllZero(kept) {
      KeptTruncates(big, d, 0, show);
      DropKept(big, d, 0, show);
    } else {
      KeptDigitsAreDigits(big, d, 0, show);
      KeptNonZero(ints, kept);
      KeptShown(big, d, show);
      PointLost(n, d, Value(ints + kept), |kept|, 0);
    }
  }

  lemma KeptShown(big: string, d: nat, show: bool)
    requires IsDigits(big) && KeptDigits(big, d, 0, show) != ""
    ensures var kept := KeptDigits(big, d, 0, show);
      0 < |kept| <= d && Value(big) == Value(IntegerDigits(big, d) + kept) * Pow10(d - |kept|)
  {
    hide Value, Pow10, IntegerDigits, FractionDigits;
    assert d > 0 && show;
    KeptInPart(big, d, 0, show);
  }

  lemma DropKept(big: string, d: nat, decimals: nat, show: bool)
    requires IsDigits(big) && AllZero(KeptDigits(big, d, decimals, show))
    ensures var ints, kept := IntegerDigits(big, d), KeptDigits(big, d, decimals, show);
      && (TruncatesTo(Value(big), d, Value(ints), 0, decimals) <==>
        TruncatesTo(Value(big), d, Value(ints + kept), |kept|, decimals))
      && (EqualsExactly(Value(big), d, Value(ints), 0) <==> EqualsExactly(Value(big), d, Value(ints + kept), |kept|))
  {
    hide KeptDigits, IntegerDigits, TruncatesTo, EqualsExactly, Value, Pow10;
    var ints, kept := IntegerDigits(big, d), KeptDigits(big, d, decimals, show);
    KeptDigitsAreDigits(big, d, decimals, show);
    ValueConcat(ints, kept);
    ValueZero(kept);
    DropZeros(Value(big), d, Value(ints), |kept|, decimals);
  }

  lemma KeptNonZero(ints: string, kept: string)
    requires IsDigits(kept) && !AllZero(kept)
    ensures kept != "" && Value(ints + kept) > 0
  {
    ValueConcat(ints, kept);
    ValueZero(kept);
  }

  /** The printed number is exactly the amount exactly when the point is not lost
      and all digits may be shown, or the digits cut off are zero. */
  lemma FormatExactIff(big: string, d: nat, decimals: nat, show: bool, commas: bool)
    requires IsDigits(big)
    ensures var printed := Formatted(big, d, decimals, show, commas);
      EqualsExactly(Value(big), d, Mantissa(printed), Scale(printed)) <==>
        && !LosesPoint(Value(big), d, decimals, show)
        && (show || decimals >= d || Value(big) % Pow10(d - decimals) == 0)
  {
    hide Formatted, Mantissa, Scale, Value, LosesPoint;
    if LosesPoint(Value(big), d, decimals, show) {
      FormatTruncatesIff(big, d, decimals, show, commas);
    } else {
      PointedExactIff(big, d, decimals, show, commas);
    }
  }

  lemma PointedExactIff(big: string, d: nat, decimals: nat, show: bool, commas: bool)
    requires IsDigits(big) && !LosesPoint(Value(big), d, decimals, show)
    ensures var printed := Formatted(big, d, decimals, show, commas);
      EqualsExactly(Value(big), d, Mantissa(printed), Scale(printed)) <==>
        show || decimals >= d || Value(big) % Pow10(d - decimals) == 0
  {
    hide Formatted, KeptDigits, IntegerDigits, FractionDigits, TruncatesTo, EqualsExactly, Mantissa, Scale, Value,
      Pow10;
    PrintedReads(big, d, decimals, show, commas);
    KeptTruncates(big, d, decimals, show);
    if AllZero(KeptDigits(big, d, decimals, show)) {
      DropKept(big, d, decimals, show);
    } else if decimals == 0 {
      KeptWithoutPoint(big, d, show);
    }
  }

  // ----- How many digits are printed -----

  /** The digits kept are zero: all of the fraction when it is kept in full, and
      otherwise what stands before the digits cut off. */
  lemma KeptZeroIff(big: string, d: nat, decimals: nat, show: bool)
    requires IsDigits(big)
    ensures AllZero(KeptDigits(big, d, decimals, show)) <==>
      if show || decimals >= d then Value(big) % Pow10(d) == 0
      else Value(big) % Pow10(d) < Pow10(d - decimals)
  {
    hide Value, Pow10, FractionDigits, AllZero;
    var frac, kept := FractionDigits(big, d), KeptDigits(big, d, decimals, show);
    FractionIsRemainder(big, d);
    PartsDigits(big, d);
    ValueZero(frac);
    if d == 0 {
      assert kept == frac == "";
    } else if show || decimals >= d {
      KeptAllZero(big, d, decimals, show);
    } else {
      assert frac + Zeros(decimals - d) == frac && kept == frac[..decimals];
      CutDigits(frac, decimals);
      ValueZero(kept);
      ValueBound(frac[decimals..]);
      SplitValue("", frac, decimals);
      assert "" + frac == frac && "" + kept == kept;
      BelowUnit(Value(frac), Value(kept), Pow10(d - decimals), Value(frac[decimals..]));
    }
  }

  lemma BelowUnit(n: nat, m: nat, p: nat, v: nat)
    requires n == m * p + v && v < p
    ensures n < p <==> m == 0
  {
    if m > 0 {
      MulLess(0, m, p);
      assert m * p >= p by {
        MulLess(m, 1, p);
      }
    }
  }

  lemma KeptAllZero(big: string, d: nat, decimals: nat, show: bool)
    requires d > 0 && (show || decimals >= d)
    ensures AllZero(KeptDigits(big, d, decimals, show)) <==> AllZero(FractionDigits(big, d))
  {
    hide FractionDigits;
    var frac, zeros := FractionDigits(big, d), Zeros(decimals - d);
    var padded, kept := frac + zeros, KeptDigits(big, d, decimals, show);
    assert forall i :: 0 <= i < |zeros| ==> zeros[i] in zeros;
    assert forall i :: 0 <= i < |frac| ==> padded[i] == frac[i];
    assert kept <= padded;
    assert forall i :: |kept| <= i < |padded| ==> padded[i] == '0';
    assert AllZero(kept) <==> AllZero(padded);
  }

  lemma KeptLength(big: string, d: nat, decimals: nat, show: bool)
    requires d > 0
    ensures var kept := KeptDigits(big, d, decimals, show);
      && |kept| >= decimals && (!show ==> |kept| == decimals)
      && (|kept| > decimals ==> kept[|kept| - 1] != '0')
  {
    hide FractionDigits;
  }

  lemma PrintedEnd(big: string, d: nat, decimals: nat, show: bool, commas: bool)
    requires IsDigits(big) && decimals > 0
    ensures var kept := KeptDigits(big, d, decimals, show);
      var printed := Formatted(big, d, decimals, show, commas);
      && (!AllZero(kept) ==> kept != "" && printed != "" && printed[|printed| - 1] == kept[|kept| - 1])
      && (!commas ==> |printed| == |IntegerDigits(big, d)| + if AllZero(kept) then 0 else 1 + |kept|)
  {
    hide KeptDigits, IntegerDigits, Grouped;
  }

  /** How long the fraction is: none exactly when the digits kept are zero,
      otherwise the decimals asked for, and more only with the last non-zero digit
      shown, and then ending in it. */
  lemma FormatScale(big: string, d: nat, decimals: nat, show: bool, commas: bool)
    requires IsDigits(big)
    ensures var n, printed := Value(big), Formatted(big, d, decimals, show, commas);
      && (!LosesPoint(n, d, decimals, show) ==>
            (Scale(printed) == 0 <==>
              if show || decimals >= d then n % Pow10(d) == 0 else n % Pow10(d) < Pow10(d - decimals)))
      && (Scale(printed) > 0 ==> Scale(printed) >= decimals && (!show ==> Scale(printed) == decimals))
      && (Scale(printed) > decimals ==> printed != "" && printed[|printed| - 1] != '0')
  {
    hide Formatted, KeptDigits, IntegerDigits, Mantissa, Scale, Value, Pow10, LosesPoint;
    var kept := KeptDigits(big, d, decimals, show);
    PrintedReads(big, d, decimals, show, commas);
    KeptZeroIff(big, d, decimals, show);
    if d == 0 {
      NothingKept(big, decimals, show);
    } else if decimals > 0 {
      KeptLength(big, d, decimals, show);
      PrintedEnd(big, d, decimals, show, commas);
      NonZeroSomewhere(kept);
    } else {
      KeptWithoutPoint(big, d, show);
    }
  }

  lemma NonZeroSomewhere(s: string)
    ensures s == "" ==> AllZero(s)
  {
  }

  /** The integer part has the digits in front of the denomination, or one zero. */
  lemma FormatWidth(big: string, d: nat, decimals: nat, show: bool)
    requires IsDigits(big) && decimals > 0
    ensures var printed := Formatted(big, d, decimals, show, false);
      |printed| == (if d == 0 then |big| else Max(|big| - d, 1)) + if Scale(printed) == 0 then 0 else 1 + Scale(printed)
  {
    hide Formatted, KeptDigits, FractionDigits, Scale;
    PrintedReads(big, d, decimals, show, false);
    PrintedEnd(big, d, decimals, show, false);
  }

  // ----- The editing of the character array -----

  lemma ZerosSnoc(k: nat)
    ensures Zeros(k) + "0" == Zeros(k + 1)
  {
    var a, b := Zeros(k) + "0", Zeros(k + 1);
    forall i | 0 <= i < |a|
      ensures a[i] == b[i]
    {
      assert a[i] in a && b[i] in b;
    }
  }

  lemma DigitsHaveNoPoint(s: string)
    requires IsDigits(s)
    ensures '.' !in s
  {
    assert '.' in s ==> IsDigit('.');
  }

  lemma SignificantLengthIs(s: string, n: nat)
    requires n <= |s| && (forall i :: n <= i < |s| ==> s[i] == '0') && (n > 0 ==> s[n - 1] != '0')
    ensures SignificantLength(s) == n
  {
    var k := SignificantLength(s);
    assert n == 0 || s[n - 1] != '0';
    assert k == 0 || s[k - 1] != '0';
  }

  /** Pads the amount until an integer digit is left, and inserts the point. */
  method InsertPoint(big: string, denomination: nat) returns (chars: string)
    requires denomination > 0
    ensures chars == IntegerDigits(big, denomination) + "." + FractionDigits(big, denomination)
  {
    chars := big;
    ghost var k := 0;
    assert Zeros(0) + big == big;
    while |chars| < denomination + 1
      invariant chars == Zeros(k) + big && (k == 0 || |chars| <= denomination + 1)
      decreases denomination + 1 - |chars|
    {
      ConcatAssoc("0", Zeros(k), big);
      chars := "0" + chars;
      k := k + 1;
    }
    PaddedParts(big, denomination, k);
    chars := chars[..|chars| - denomination] + "." + chars[|chars| - denomination..];
  }

  /** Appends zeros until there are enough decimals. */
  method PadDecimals(input: string, decimals: nat, ghost ints: string, ghost frac: string) returns (chars: string)
    requires input == ints + "." + frac && '.' !in ints
    ensures chars == ints + "." + (frac + Zeros(decimals - |frac|))
  {
    chars := input;
    ghost var z := 0;
    assert frac + Zeros(0) == frac;
    IndexOfFirst(ints, '.', frac);
    while |chars| - IndexOf(chars, '.') <= decimals
      invariant chars == ints + "." + (frac + Zeros(z)) && IndexOf(chars, '.') == |ints|
      invariant z == 0 || |frac| + z <= decimals
      decreases decimals + |ints| - |chars|
    {
      ZerosSnoc(z);
      ConcatAssoc(ints + ".", frac + Zeros(z), "0");
      ConcatAssoc(frac, Zeros(z), "0");
      IndexOfFirst(ints, '.', frac + Zeros(z + 1));
      chars := chars + "0";
      z := z + 1;
    }
    assert z == Max(decimals - |frac|, 0);
    assert Zeros(z) == Zeros(decimals - |frac|);
  }

  /** Pads with zeros, inserts the point, and cuts to the digits to keep. */
  method PointAndCut(big: string, denomination: nat, decimals: nat, showLastNonZeroDecimal: bool)
      returns (chars: string)
    requires IsDigits(big) && denomination > 0
    ensures chars == IntegerDigits(big, denomination) + "." +
      KeptDigits(big, denomination, decimals, showLastNonZeroDecimal)
  {
    ghost var ints, frac := IntegerDigits(big, denomination), FractionDigits(big, denomination);
    ghost var padded := frac + Zeros(decimals - denomination);
    PartsDigits(big, denomination);
    DigitsHaveNoPoint(ints);
    chars := InsertPoint(big, denomination);
    chars := PadDecimals(chars, decimals, ints, frac);
    IndexOfFirst(ints, '.', padded);
    if showLastNonZeroDecimal {
      var nonZeroDigitIndex := LastNonZero(chars, ints, padded);
      var decimalsIndex := IndexOf(chars, '.') + decimals + 1;
      chars := chars[..Max(decimalsIndex, nonZeroDigitIndex)];
    } else {
      chars := chars[..IndexOf(chars, '.') + decimals + 1];
    }
  }

  lemma PaddedParts(big: string, d: nat, k: nat)
    requires d > 0 && (k == 0 || k + |big| == d + 1) && k + |big| >= d + 1
    ensures Zeros(k) + big == IntegerDigits(big, d) + FractionDigits(big, d)
  {
    if |big| > d {
      assert big == big[..|big| - d] + big[|big| - d..];
      assert k > 0 ==> k + |big| > d + 1;
      assert Zeros(0) + big == big;
    } else {
      ConcatAssoc("0", Zeros(d - |big|), big);
    }
  }

  /** One past the last character that is not a zero. */
  method LastNonZero(chars: string, ghost ints: string, ghost padded: string) returns (nonZeroDigitIndex: nat)
    requires chars == ints + "." + padded && ints != ""
    ensures nonZeroDigitIndex == |ints| + 1 + SignificantLength(padded)
  {
    nonZeroDigitIndex := 0;
    var i := |chars| - 1;
    while i > 0
      invariant |ints| <= i < |chars|
      invariant forall j :: i < j < |chars| ==> chars[j] == '0'
      decreases i
    {
      if chars[i] != '0' {
        nonZeroDigitIndex := i + 1;
        break;
      }
      assert chars[|ints|] == '.';
      i := i - 1;
    }
    assert forall j :: 0 <= j < |padded| ==> padded[j] == chars[|ints| + 1 + j];
    assert chars[|ints|] == '.';
    SignificantLengthIs(padded, i - |ints|);
  }

  /** Thousands separators of a reversed integer part. */
  function ReverseGrouped(s: string): string {
    if |s| <= 3 then s else s[..3] + "," + ReverseGrouped(s[3..])
  }

  lemma {:induction false} ReverseGroupedIsGrouped(s: string)
    ensures Reverse(ReverseGrouped(Reverse(s))) == Grouped(s)
  {
    if |s| <= 3 {
      ReverseTwice(s);
    } else {
      var head, tail := s[..|s| - 3], s[|s| - 3..];
      assert s == head + tail;
      ReverseConcat(head, tail);
      var r := Reverse(s);
      assert r[..3] == Reverse(tail) && r[3..] == Reverse(head);
      ReverseGroupedIsGrouped(head);
      ReverseConcat(Reverse(tail) + ",", ReverseGrouped(Reverse(head)));
      ReverseConcat(Reverse(tail), ",");
      ReverseTwice(tail);
      assert Reverse(",") == ",";
      ConcatAssoc(Grouped(head), ",", tail);
    }
  }

  lemma ShortGroup(s: string)
    requires |s| <= 3
    ensures ReverseGrouped(s) == s
  {
  }

  /** Where the point is found in the reversed array: just after the decimals, or
      nowhere, which also counts as one before the integer digits. */
  lemma PointInReverse(kept: string, suffix: string, rest: string)
    requires IsDigits(kept) && (suffix == "" || suffix == "." + kept) && '.' !in rest
    ensures IndexOf(Reverse(suffix) + rest, '.') == |suffix| - 1
  {
    if suffix == "" {
      assert Reverse(suffix) + rest == rest;
      IndexOfNone(rest, '.');
    } else {
      var r := Reverse(kept);
      assert Reverse(suffix) == r + ".";
      DigitsHaveNoPoint(kept);
      assert forall i :: 0 <= i < |r| ==> r[i] in kept;
      IndexOfFirst(r, '.', rest);
    }
  }

  lemma SpliceComma(prefix: string, head: string, tail: string)
    requires |tail| > 3
    ensures var chars, position := prefix + (head + tail), |prefix| + |head| + 3;
      chars[..position] + "," + chars[position..] == prefix + ((head + tail[..3] + ",") + tail[3..])
  {
    var chars, position := prefix + (head + tail), |prefix| + |head| + 3;
    assert chars[..position] == prefix + (head + tail[..3]);
    assert chars[position..] == tail[3..];
  }

  lemma SpliceGroups(head: string, tail: string)
    requires |tail| > 3
    ensures (head + tail[..3] + ",") + ReverseGrouped(tail[3..]) == head + ReverseGrouped(tail)
  {
    var group, rest := tail[..3], ReverseGrouped(tail[3..]);
    assert ReverseGrouped(tail) == group + "," + rest;
    hide ReverseGrouped;
    ConcatAssoc(head, group, ",");
    ConcatAssoc(head, group + ",", rest);
  }

  lemma SpliceKeepsPoints(head: string, tail: string)
    requires |tail| > 3 && '.' !in head && '.' !in tail
    ensures '.' !in head + tail[..3] + "," && '.' !in tail[3..]
  {
    var group := tail[..3];
    assert '.' !in group && '.' !in ",";
    assert '.' !in head + group;
  }

  /** After `i` commas the head holds `i` finished groups. */
  predicate Spliced(head: string, tail: string, i: nat, digits: nat) {
    |head| == 4 * i && |tail| == digits - 3 * i
  }

  lemma SpliceStep(prefix: string, head: string, tail: string, i: nat, digits: nat)
    requires |tail| > 3 && '.' !in head && '.' !in tail && i > 0 && Spliced(head, tail, i - 1, digits)
    ensures var chars, position := prefix + (head + tail), |prefix| + 4 * i - 1;
      var done, rest := head + tail[..3] + ",", tail[3..];
      && chars[..position] + "," + chars[position..] == prefix + (done + rest)
      && '.' !in done && '.' !in rest
      && done + ReverseGrouped(rest) == head + ReverseGrouped(tail)
      && Spliced(done, rest, i, digits)
  {
    hide ReverseGrouped;
    SpliceComma(prefix, head, tail);
    SpliceGroups(head, tail);
    SpliceKeepsPoints(head, tail);
  }

  /** Walks the reversed array and splices a comma in after every third integer
      digit but the last; the positions allow for the commas already inserted. */
  method SpliceCommas(input: string, count: nat, ghost kept: string, ghost suffix: string, ghost digits: string)
    returns (chars: string)
    requires IsDigits(kept) && (suffix == "" || suffix == "." + kept) && '.' !in digits
    requires input == Reverse(suffix) + digits && count == |digits| / 3
    ensures chars == Reverse(suffix) + ReverseGrouped(digits)
  {
    hide Reverse, ReverseGrouped, IndexOf, IsDigits;
    ghost var prefix, head, tail := Reverse(suffix), "", digits;
    chars := input;
    assert head + tail == digits && head + ReverseGrouped(tail) == ReverseGrouped(digits);
    var i := 1;
    while i <= count
      invariant 1 <= i <= count + 1
      invariant chars == prefix + (head + tail) && '.' !in head && '.' !in tail
      invariant head + ReverseGrouped(tail) == ReverseGrouped(digits)
      invariant i <= count ==> Spliced(head, tail, i - 1, |digits|)
      invariant i == count + 1 ==> |tail| <= 3
    {
      PointInReverse(kept, suffix, head + tail);
      var position := IndexOf(chars, '.') + 3 * i + i;
      if position != |chars| {
        chars := chars[..position] + "," + chars[position..];
        SpliceStep(prefix, head, tail, i, |digits|);
        head, tail := head + tail[..3] + ",", tail[3..];
      }
      i := i + 1;
    }
    ShortGroup(tail);
  }

  /** Reverses, splices the commas in, and reverses back. */
  method AddCommas(input: string, denomination: nat, ghost ints: string, ghost kept: string) returns (chars: string)
    requires IsDigits(ints) && IsDigits(kept)
    requires input == if denomination == 0 then ints else ints + "." + kept
    ensures chars == Grouped(ints) + if denomination == 0 then "" else "." + kept
  {
    hide Reverse, ReverseGrouped, IndexOf, Grouped, IsDigits;
    ghost var suffix := if denomination == 0 then "" else "." + kept;
    assert input == ints + suffix;
    chars := Reverse(input);
    ghost var digits := Reverse(ints);
    ReverseConcat(ints, suffix);
    DigitsHaveNoPoint(ints);
    assert forall i :: 0 <= i < |digits| ==> digits[i] in ints;
    PointInReverse(kept, suffix, digits);
    var reference := if denomination != 0 then |chars| - IndexOf(chars, '.') - 1 else |chars|;
    chars := SpliceCommas(chars, reference / 3, kept, suffix, digits);
    chars := Reverse(chars);
    ReverseConcat(Reverse(suffix), ReverseGrouped(digits));
    ReverseGroupedIsGrouped(ints);
    ReverseTwice(suffix);
  }

  function Concat(parts: seq<string>): string {
    if parts == [] then "" else parts[0] + Concat(parts[1..])
  }

  lemma PointedParts(whole: string, kept: string)
    requires '.' !in whole && '.' !in kept
    ensures IndexOf(whole, '.') == -1 && Split(whole, '.') == [whole] && Concat([whole]) == whole
    ensures var pointed := whole + "." + kept;
      && pointed[IndexOf(pointed, '.') + 1..] == kept
      && Split(pointed, '.') == [whole, kept] && Concat([whole, kept]) == whole + kept
  {
    SplitNone(whole, '.');
    SplitNone(kept, '.');
    SplitConcat(whole, kept, '.');
    IndexOfNone(whole, '.');
    IndexOfFirst(whole, '.', kept);
    assert [whole, kept][1..] == [kept] && [whole][1..] == [] && Concat([kept]) == kept;
  }

  /** `format`: the text of the amount, cut, pointed and grouped. */
  method Format(big: string, denomination: nat, decimals: nat, showLastNonZeroDecimal: bool, addCommas: bool)
      returns (r: string)
    requires IsDigits(big)
    ensures r == Formatted(big, denomination, decimals, showLastNonZeroDecimal, addCommas)
  {
    var chars := big;
    ghost var ints, kept := IntegerDigits(big, denomination), KeptDigits(big, denomination, decimals,
      showLastNonZeroDecimal);
    if denomination != 0 {
      chars := PointAndCut(big, denomination, decimals, showLastNonZeroDecimal);
    }
    PartsDigits(big, denomination);
    KeptDigitsAreDigits(big, denomination, decimals, showLastNonZeroDecimal);
    ghost var whole := if addCommas then Grouped(ints) else ints;
    if addCommas {
      chars := AddCommas(chars, denomination, ints, kept);
    }
    GroupedHasNoPoint(ints);
    DigitsHaveNoPoint(ints);
    DigitsHaveNoPoint(kept);
    PointedParts(whole, kept);
    ConcatAssoc(whole, ".", kept);
    assert chars == if denomination == 0 then whole else whole + "." + kept;
    var allDecimalsZero := AllZero(chars[IndexOf(chars, '.') + 1..]);
    if allDecimalsZero {
      r := Split(chars, '.')[0];
    } else {
      r := if decimals == 0 then Concat(Split(chars, '.')) else chars;
    }
  }

  /** `denominate`, the exported entry point: "..." is passed through, and an
      empty or missing amount counts as zero. */
  method Denominate(input: Option<string>, denomination: nat, decimals: nat, showLastNonZeroDecimal: bool,
      addCommas: bool)
    returns (r: string)
    requires input.Some? && input.value != "..." ==> IsDigits(input.value)
    ensures input == Some("...") ==> r == "..."
    ensures input == None || input == Some("") ==>
      r == Formatted("0", denomination, decimals, showLastNonZeroDecimal, addCommas)
    ensures input.Some? && input.value != "..." && input.value != "" ==>
      r == Formatted(input.value, denomination, decimals, showLastNonZeroDecimal, addCommas)
  {
    if input == Some("...") {
      return "...";
    }
    var amount := if input == None || input == Some("") || input == Some("0") then "0" else input.value;
    assert IsDigits("0");
    r := Format(amount, denomination, decimals, showLastNonZeroDecimal, addCommas);
  }
}
