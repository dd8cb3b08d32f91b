/** Sharing an amount among units in minor currency units, from decimal text to decimal text. */
module MinorUnits {
  import opened Sequences

  // ----- Decimal digits -----

  predicate Digits(s: string) {
    forall i | 0 <= i < |s| :: '0' <= s[i] <= '9'
  }

  /** The number that a run of digits stands for; the empty run stands for zero. */
  function Value(s: string): nat
    requires Digits(s)
  {
    if s == "" then 0
    else
      var n := |s| - 1;
      10 * Value(s[..n]) + (s[n] as int - '0' as int)
  }

  function Digit(n: nat): char
    requires n < 10
  {
    '0' + n as char
  }

  /** `String(n)`: no leading zeros, and `0` for zero. */
  function Decimal(n: nat): (s: string)
    ensures s != "" && Digits(s)
  {
    if n < 10 then [Digit(n)] else Decimal(n / 10) + [Digit(n % 10)]
  }

  function Zeros(n: nat): (s: string)
    ensures |s| == n && Digits(s)
  {
    seq(n, _ => '0')
  }

  function PadStart(s: string, n: nat): string {
    if |s| >= n then s else Zeros(n - |s|) + s
  }

  function Pow10(n: nat): (p: nat)
    ensures p >= 1
  {
    if n == 0 then 1 else 10 * Pow10(n - 1)
  }

  lemma DigitValue(n: nat)
    requires n < 10
    ensures Digit(n) as int - '0' as int == n && '0' <= Digit(n) <= '9'
  {}

  lemma {:induction false} DecimalValue(n: nat)
    ensures Value(Decimal(n)) == n
  {
    if n < 10 {
      DigitValue(n);
      assert [Digit(n)][..0] == "";
    } else {
      DecimalValue(n / 10);
      DigitValue(n % 10);
      var s := Decimal(n);
      assert s[..|s| - 1] == Decimal(n / 10) && s[|s| - 1] == Digit(n % 10);
    }
  }

  lemma {:induction false} DecimalShort(n: nat, d: nat)
    requires d >= 1 && n < Pow10(d)
    ensures |Decimal(n)| <= d
  {
    if n >= 10 {
      assert d >= 2 by { assert Pow10(1) == 10 * Pow10(0); }
      assert n / 10 < Pow10(d - 1);
      DecimalShort(n / 10, d - 1);
    }
  }

  lemma ValueSnoc(s: string, c: char)
    requires Digits(s) && '0' <= c <= '9'
    ensures Digits(s + [c]) && Value(s + [c]) == 10 * Value(s) + (c as int - '0' as int)
  {
    assert (s + [c])[..|s|] == s;
  }

  /** Digits in front count for as much more as there are digits behind. */
  lemma {:induction false} ValueConcat(a: string, b: string)
    requires Digits(a) && Digits(b)
    ensures Digits(a + b) && Value(a + b) == Value(a) * Pow10(|b|) + Value(b)
  {
    if b == "" {
      assert a + b == a;
    } else {
      var n := |b| - 1;
      ValueConcat(a, b[..n]);
      assert b == b[..n] + [b[n]];
      OneMore(a, b[..n], b[n], Value(a), Pow10(n), Value(b[..n]));
    }
  }

  lemma OneMore(a: string, b: string, c: char, x: nat, p: nat, y: nat)
    requires Digits(a) && Digits(b) && Digits(a + b) && '0' <= c <= '9'
    requires x == Value(a) && p == Pow10(|b|) && y == Value(b) && Value(a + b) == x * p + y
    ensures Digits(a + (b + [c])) && Value(a + (b + [c])) == x * Pow10(|b + [c]|) + Value(b + [c])
  {
    ValueSnoc(b, c);
    ValueSnoc(a + b, c);
    Associate(a, b, [c]);
    Shift(x, p, y, c as int - '0' as int);
    assert Pow10(|b + [c]|) == 10 * p;
  }

  lemma Shift(a: nat, p: nat, b: nat, last: int)
    ensures 10 * (a * p + b) + last == a * (10 * p) + (10 * b + last)
  {
    assert a * (10 * p) == 10 * (a * p);
  }

  lemma {:induction false} ValueOfZeros(n: nat)
    ensures Value(Zeros(n)) == 0
  {
    if n > 0 {
      assert Zeros(n)[..n - 1] == Zeros(n - 1);
      ValueOfZeros(n - 1);
    }
  }

  lemma {:induction false} ValueBelow(s: string)
    requires Digits(s)
    ensures Value(s) < Pow10(|s|)
  {
    if s != "" {
      ValueBelow(s[..|s| - 1]);
    }
  }

  lemma PadValue(s: string, n: nat)
    requires Digits(s)
    ensures Digits(PadStart(s, n)) && Value(PadStart(s, n)) == Value(s)
  {
    if |s| < n {
      ValueConcat(Zeros(n - |s|), s);
      ValueOfZeros(n - |s|);
    }
  }

  // ----- Amounts -----

  function Until(s: string, c: char): (r: string)
    ensures |r| <= |s| && r == s[..|r|] && c !in r
    ensures |r| < |s| ==> s[|r|] == c
  {
    if s == "" || s[0] == c then "" else [s[0]] + Until(s[1..], c)
  }

  function Whole(amount: string): string {
    Until(amount, '.')
  }

  /** The text between the first and the second point, or nothing. */
  function Fraction(amount: string): string {
    if |Whole(amount)| < |amount| then Until(amount[|Whole(amount)| + 1..], '.') else ""
  }

  /** A non-negative amount as PostgreSQL prints a `numeric`. */
  predicate Amount(s: string) {
    Digits(Whole(s)) && Digits(Fraction(s))
  }

  /** The decimals filled up with zeros or cut off to the minor digits. */
  function Kept(fraction: string, digits: nat): (s: string)
    requires Digits(fraction)
    ensures Digits(s) && |s| == digits
  {
    (fraction + Zeros(digits))[..digits]
  }

  /** The amount in minor units; further decimals are cut off. */
  function Minor(amount: string, digits: nat): nat
    requires Amount(amount)
  {
    Value(Whole(amount)) * Pow10(digits) + Value(Kept(Fraction(amount), digits))
  }

  function Quotient(a: nat, b: nat): nat
    requires b > 0
  {
    a / b
  }

  function Remainder(a: nat, b: nat): (r: nat)
    requires b > 0
    ensures r < b && a == Quotient(a, b) * b + r
  {
    a % b
  }

  function PrintMinor(units: nat, digits: nat): string {
    Decimal(Quotient(units, Pow10(digits))) + "." + PadStart(Decimal(Remainder(units, Pow10(digits))), digits)
  }

  lemma {:induction false} UntilSplits(a: string, b: string, c: char)
    requires c !in a
    ensures Until(a + [c] + b, c) == a
    ensures Until(a, c) == a
  {
    if a == "" {
      assert a + [c] + b == [c] + b;
    } else {
      assert a[0] in a;
      UntilSplits(a[1..], b, c);
      assert (a + [c] + b)[1..] == a[1..] + [c] + b;
    }
  }

  lemma PointSplits(a: string, b: string)
    requires Digits(a) && Digits(b)
    ensures Whole(a + "." + b) == a && Fraction(a + "." + b) == b
  {
    assert '.' !in a && '.' !in b;
    UntilSplits(a, b, '.');
    UntilSplits(b, "", '.');
    assert (a + "." + b)[|a| + 1..] == b;
  }

  /** The decimals of a remainder fill exactly the minor digits, if there are any. */
  lemma KeptDigits(low: nat, digits: nat)
    requires low < Pow10(digits)
    ensures var fraction := PadStart(Decimal(low), digits);
            Digits(fraction) && Value(Kept(fraction, digits)) == low
  {
    var fraction := PadStart(Decimal(low), digits);
    DecimalValue(low);
    PadValue(Decimal(low), digits);
    if digits == 0 {
      assert low == 0;
      assert Kept(fraction, digits) == "";
    } else {
      DecimalShort(low, digits);
      assert |fraction| == digits;
      assert Kept(fraction, digits) == fraction;
    }
  }

  /** A printed amount reads back as the minor units it was printed from, for any number of
      minor digits including none. */
  lemma PrintMinorReads(units: nat, digits: nat)
    ensures Amount(PrintMinor(units, digits)) && Minor(PrintMinor(units, digits), digits) == units
  {
    var high, low := Quotient(units, Pow10(digits)), Remainder(units, Pow10(digits));
    DecimalValue(high);
    KeptDigits(low, digits);
    PointSplits(Decimal(high), PadStart(Decimal(low), digits));
  }

  /** The amount times ten to the number of its decimals. */
  function Scaled(amount: string): nat
    requires Amount(amount)
  {
    Value(Whole(amount)) * Pow10(|Fraction(amount)|) + Value(Fraction(amount))
  }

  lemma {:induction false} Pow10Adds(a: nat, b: nat)
    ensures Pow10(a + b) == Pow10(a) * Pow10(b)
  {
    if a > 0 {
      Pow10Adds(a - 1, b);
      calc {
        Pow10(a + b);
        10 * Pow10(a - 1 + b);
        10 * (Pow10(a - 1) * Pow10(b));
        (10 * Pow10(a - 1)) * Pow10(b);
      }
    }
  }

  /** Missing decimals are filled with zeros. */
  lemma MinorFills(amount: string, digits: nat, missing: nat)
    requires Amount(amount) && digits == |Fraction(amount)| + missing
    ensures Minor(amount, digits) == Value(Whole(amount)) * Pow10(digits) + Value(Fraction(amount)) * Pow10(missing)
  {
    assert Kept(Fraction(amount), digits) == Fraction(amount) + Zeros(missing);
    ValueConcat(Fraction(amount), Zeros(missing));
    ValueOfZeros(missing);
  }

  /** Further decimals are cut off. */
  lemma MinorCuts(amount: string, digits: nat) returns (kept: nat, cut: nat)
    requires Amount(amount) && digits < |Fraction(amount)|
    ensures Minor(amount, digits) == Value(Whole(amount)) * Pow10(digits) + kept
    ensures Value(Fraction(amount)) == kept * Pow10(|Fraction(amount)| - digits) + cut
    ensures cut < Pow10(|Fraction(amount)| - digits)
  {
    var fraction := Fraction(amount);
    assert Kept(fraction, digits) == fraction[..digits];
    assert fraction == fraction[..digits] + fraction[digits..];
    ValueConcat(fraction[..digits], fraction[digits..]);
    ValueBelow(fraction[digits..]);
    kept, cut := Value(fraction[..digits]), Value(fraction[digits..]);
  }

  /** Minor units are the amount times ten to the minor digits, rounded down. */
  lemma MinorTruncates(amount: string, digits: nat)
    requires Amount(amount)
    ensures Minor(amount, digits) == Scaled(amount) * Pow10(digits) / Pow10(|Fraction(amount)|)
  {
    if |Fraction(amount)| <= digits {
      TruncatesFilled(amount, digits, Scaled(amount), Value(Whole(amount)), Value(Fraction(amount)));
    } else {
      TruncatesCut(amount, digits, Scaled(amount), Value(Whole(amount)), Value(Fraction(amount)));
    }
  }

  lemma TruncatesFilled(amount: string, digits: nat, scaled: nat, w: nat, v: nat)
    requires Amount(amount) && |Fraction(amount)| <= digits
    requires w == Value(Whole(amount)) && v == Value(Fraction(amount)) && scaled == w * Pow10(|Fraction(amount)|) + v
    ensures Minor(amount, digits) == scaled * Pow10(digits) / Pow10(|Fraction(amount)|)
  {
    var f := |Fraction(amount)|;
    MinorFills(amount, digits, digits - f);
    Pow10Adds(f, digits - f);
    FillDivides(w, Pow10(f), Pow10(digits - f), v, Pow10(digits), scaled);
  }

  lemma TruncatesCut(amount: string, digits: nat, scaled: nat, w: nat, v: nat)
    requires Amount(amount) && digits < |Fraction(amount)|
    requires w == Value(Whole(amount)) && v == Value(Fraction(amount)) && scaled == w * Pow10(|Fraction(amount)|) + v
    ensures Minor(amount, digits) == scaled * Pow10(digits) / Pow10(|Fraction(amount)|)
  {
    var f := |Fraction(amount)|;
    var kept, cut := MinorCuts(amount, digits);
    Pow10Adds(digits, f - digits);
    CutDivides(w, Pow10(digits), Pow10(f - digits), kept, cut, Pow10(f), v, scaled);
  }

  /** An amount counted in its fourth decimal, as the database prints it. */
  function Printed(amount: nat): (s: string)
    ensures Amount(s)
  {
    PrintMinorReads(amount, 4);
    PrintMinor(amount, 4)
  }

  /** Such an amount in minor units; further decimals are cut off. */
  function InMinor(amount: nat, digits: nat): nat {
    Quotient(amount * Pow10(digits), Pow10(4))
  }

  lemma PrintedInMinor(amount: nat, digits: nat)
    ensures Minor(Printed(amount), digits) == InMinor(amount, digits)
  {
    PrintMinorScaled(amount, 4);
    MinorTruncates(Printed(amount), digits);
  }

  lemma PrintMinorScaled(units: nat, digits: nat)
    requires digits > 0
    ensures Amount(PrintMinor(units, digits)) && |Fraction(PrintMinor(units, digits))| == digits
    ensures Scaled(PrintMinor(units, digits)) == units
  {
    var high, low := Quotient(units, Pow10(digits)), Remainder(units, Pow10(digits));
    DecimalValue(high);
    DecimalValue(low);
    DecimalShort(low, digits);
    PadValue(Decimal(low), digits);
    PointSplits(Decimal(high), PadStart(Decimal(low), digits));
  }

  lemma FillDivides(w: nat, q: nat, m: nat, v: nat, p: nat, scaled: nat)
    requires q >= 1 && p == q * m && scaled == w * q + v
    ensures scaled * p / q == w * p + v * m
  {
    ScaleUp(w, q, m, v);
    QuotientOf(w * p + v * m, q, 0, scaled * p);
  }

  lemma CutDivides(w: nat, p: nat, m: nat, kept: nat, cut: nat, q: nat, v: nat, scaled: nat)
    requires p >= 1 && cut < m && q == p * m && q >= 1 && v == kept * m + cut && scaled == w * q + v
    ensures scaled * p / q == w * p + kept
  {
    ScaleDown(w, p, m, kept, cut);
    ProductBelow(cut, m, p);
    QuotientOf(w * p + kept, q, cut * p, scaled * p);
  }

  lemma ScaleUp(w: nat, q: nat, m: nat, v: nat)
    ensures (w * q + v) * (q * m) == q * (w * (q * m) + v * m)
  {
    assert (w * q + v) * (q * m) == w * q * (q * m) + v * (q * m);
    assert q * (w * (q * m) + v * m) == q * (w * (q * m)) + q * (v * m);
    assert w * q * (q * m) == q * (w * (q * m));
    assert v * (q * m) == q * (v * m);
  }

  lemma ScaleDown(w: nat, p: nat, m: nat, kept: nat, cut: nat)
    ensures (w * (p * m) + (kept * m + cut)) * p == (p * m) * (w * p + kept) + cut * p
  {
    assert (w * (p * m) + (kept * m + cut)) * p == w * (p * m) * p + kept * m * p + cut * p;
    assert (p * m) * (w * p + kept) == (p * m) * (w * p) + (p * m) * kept;
    assert w * (p * m) * p == (p * m) * (w * p);
    assert kept * m * p == (p * m) * kept;
  }

  lemma ProductBelow(a: nat, b: nat, p: nat)
    requires a < b && p >= 1
    ensures a * p < p * b
  {
    assert p * b - a * p == p * (b - a);
  }

  lemma QuotientOf(n: nat, divisor: nat, rest: nat, product: nat)
    requires rest < divisor && product == divisor * n + rest
    ensures product / divisor == n
  {
    var q := product / divisor;
    assert q * divisor + product % divisor == product;
    Between(n, q, divisor, rest, product % divisor);
  }

  lemma Between(n: nat, q: nat, divisor: nat, rest: nat, rest': nat)
    requires rest < divisor && rest' < divisor && divisor * n + rest == q * divisor + rest'
    ensures q == n
  {
    assert divisor * (n - q) == rest' - rest;
    if n > q {
      AtLeast(divisor, n - q);
    } else if n < q {
      AtLeast(divisor, q - n);
    }
  }

  lemma AtLeast(a: nat, k: nat)
    requires k >= 1
    ensures a * k >= a
  {}

  // ----- Shares -----

  /** Equal shares, the first ones one minor unit larger. */
  function Share(total: nat, count: nat, index: nat): nat
    requires index < count
  {
    total / count + if index < total % count then 1 else 0
  }

  function SumShares(total: nat, count: nat, n: nat): nat
    requires n <= count
  {
    if n == 0 then 0 else SumShares(total, count, n - 1) + Share(total, count, n - 1)
  }

  lemma {:induction false} SumSharesClosed(total: nat, count: nat, n: nat, each: nat, rest: nat)
    requires 0 < count && n <= count && each == total / count && rest == total % count
    ensures SumShares(total, count, n) == n * each + if n < rest then n else rest
  {
    if n > 0 {
      SumSharesClosed(total, count, n - 1, each, rest);
      OneMoreTimes(n - 1, each);
    }
  }

  lemma OneMoreTimes(n: nat, each: nat)
    ensures n * each + each == (n + 1) * each
  {
  }

  /** Nothing is lost or created: the shares add up to the total. */
  lemma SharesConserve(total: nat, count: nat)
    requires 0 < count
    ensures SumShares(total, count, count) == total
  {
    SumSharesClosed(total, count, count, total / count, total % count);
    assert total == count * (total / count) + total % count;
  }

  lemma SharesAreFair(total: nat, count: nat, i: nat, j: nat)
    requires i < count && j < count
    ensures -1 <= Share(total, count, i) - Share(total, count, j) <= 1
    ensures i <= j ==> Share(total, count, i) >= Share(total, count, j)
  {}

  /** `splitMinorUnits`, with the number of minor digits of the currency given. */
  function SplitMinorUnits(amount: string, count: nat, digits: nat): (shares: seq<string>)
    requires Amount(amount) && 0 < count
    ensures |shares| == count
  {
    seq(count, i requires 0 <= i < count => PrintMinor(Share(Minor(amount, digits), count, i), digits))
  }

  /** What the first `n` amounts add up to in minor units. */
  ghost function TotalMinor(amounts: seq<string>, digits: nat, n: nat): nat
    requires n <= |amounts| && forall i | 0 <= i < n :: Amount(amounts[i])
  {
    if n == 0 then 0 else TotalMinor(amounts, digits, n - 1) + Minor(amounts[n - 1], digits)
  }

  ghost predicate HasShares(shares: seq<string>, digits: nat, total: nat, count: nat)
    requires 0 < count
  {
    |shares| == count
    && forall i | 0 <= i < count :: Amount(shares[i]) && Minor(shares[i], digits) == Share(total, count, i)
  }

  lemma {:induction false} TotalOfShares(shares: seq<string>, digits: nat, total: nat, count: nat, n: nat)
    requires 0 < count && n <= count && HasShares(shares, digits, total, count)
    ensures TotalMinor(shares, digits, n) == SumShares(total, count, n)
  {
    if n > 0 {
      TotalOfShares(shares, digits, total, count, n - 1);
    }
  }

  lemma SplitShares(amount: string, count: nat, digits: nat)
    requires Amount(amount) && 0 < count
    ensures HasShares(SplitMinorUnits(amount, count, digits), digits, Minor(amount, digits), count)
  {
    forall i | 0 <= i < count
      ensures var share := SplitMinorUnits(amount, count, digits)[i];
              Amount(share) && Minor(share, digits) == Share(Minor(amount, digits), count, i)
    {
      PrintMinorReads(Share(Minor(amount, digits), count, i), digits);
    }
  }

  ghost predicate Conserves(shares: seq<string>, digits: nat, total: nat)
    requires forall i | 0 <= i < |shares| :: Amount(shares[i])
  {
    TotalMinor(shares, digits, |shares|) == total
  }

  ghost predicate Fair(shares: seq<string>, digits: nat)
    requires forall i | 0 <= i < |shares| :: Amount(shares[i])
  {
    forall i, j | 0 <= i < j < |shares| :: 0 <= Minor(shares[i], digits) - Minor(shares[j], digits) <= 1
  }

  lemma SharesAddToTotal(shares: seq<string>, digits: nat, total: nat, count: nat)
    requires 0 < count && HasShares(shares, digits, total, count)
    ensures Conserves(shares, digits, total)
  {
    TotalOfShares(shares, digits, total, count, count);
    SharesConserve(total, count);
  }

  lemma SharesFair(shares: seq<string>, digits: nat, total: nat, count: nat)
    requires 0 < count && HasShares(shares, digits, total, count)
    ensures Fair(shares, digits)
  {
    forall i, j | 0 <= i < j < |shares|
      ensures 0 <= Minor(shares[i], digits) - Minor(shares[j], digits) <= 1
    {
      SharesAreFair(total, count, i, j);
    }
  }

  /** The printed shares, read back, add up to the amount in minor units, and no two of them
      differ by more than one minor unit. */
  lemma SplitConserves(amount: string, count: nat, digits: nat)
    requires Amount(amount) && 0 < count
    ensures var shares := SplitMinorUnits(amount, count, digits);
            && (forall i | 0 <= i < count :: Amount(shares[i]))
            && Conserves(shares, digits, Minor(amount, digits)) && Fair(shares, digits)
  {
    var shares, total := SplitMinorUnits(amount, count, digits), Minor(amount, digits);
    SplitShares(amount, count, digits);
    SharesAddToTotal(shares, digits, total, count);
    SharesFair(shares, digits, total, count);
  }
}
