/** Python's `float()` on the strings the scripts hand it: runs of digits and dots. */
module Floats {
  import opened Errors
  import opened Text
  import opened Wrappers

  /** A character of the regular-expression class `[\d.]`. */
  predicate IsNumChar(c: char) { IsDigit(c) || c == '.' }

  predicate AllNumChars(s: string) { forall i :: 0 <= i < |s| ==> IsNumChar(s[i]) }

  /** Some digit occurs at index `i` or later. */
  predicate HasDigit(t: string, i: nat)
    decreases |t| - i
  {
    i < |t| && (IsDigit(t[i]) || HasDigit(t, i + 1))
  }

  /** The number of dots at index `i` or later. */
  function DotCount(t: string, i: nat): nat
    requires i <= |t|
    decreases |t| - i
  {
    if i == |t| then 0 else (if t[i] == '.' then 1 else 0) + DotCount(t, i + 1)
  }

  /** What Python's `float` accepts among runs of digits and dots: at least one digit and
      at most one dot. */
  predicate IsDecimal(t: string)
  {
    HasDigit(t, 0) && DotCount(t, 0) <= 1
  }

  /** `float(t)` on a run of digits and dots, read left to right from index `i`: `num` holds
      every digit read so far, `den` is 10 to the number of digits read after the dot, `dot`
      and `digit` say whether a dot and a digit have been read. A second dot, or no digit at
      all, is a `ValueError`; otherwise the value is `num / den`. */
  function Decimal(t: string, i: nat, num: nat, den: nat, dot: bool, digit: bool): (r: Result<(nat, nat), Error>)
    requires i <= |t| && AllNumChars(t) && den >= 1
    ensures r.Err? ==> r.error == ValueError(t)
    ensures r.Ok? ==> r.value.1 >= 1
    decreases |t| - i
  {
    if i == |t| then
      if digit then Ok((num, den)) else Err(ValueError(t))
    else if t[i] == '.' then
      if dot then Err(ValueError(t)) else Decimal(t, i + 1, num, den, true, digit)
    else
      Decimal(t, i + 1, 10 * num + DigitValue(t[i]), if dot then 10 * den else den, dot, true)
  }

  /** `float(t)`: succeeds exactly on decimals, with a nonnegative value. */
  function ParseFloat(t: string): (r: Result<real, Error>)
    requires AllNumChars(t)
    ensures r.Ok? <==> IsDecimal(t)
    ensures r.Err? ==> r.error == ValueError(t)
    ensures r.Ok? ==> r.value >= 0.0
  {
    DecimalOkIff(t, 0, 0, 1, false, false);
    match Decimal(t, 0, 0, 1, false, false)
    case Ok(q) => Ok(q.0 as real / q.1 as real)
    case Err(e) => Err(e)
  }

  /** The scan from `i` succeeds exactly when a digit has been or will be read and no dot
      is read twice. */
  lemma {:induction false} DecimalOkIff(t: string, i: nat, num: nat, den: nat, dot: bool, digit: bool)
    requires i <= |t| && AllNumChars(t) && den >= 1
    ensures Decimal(t, i, num, den, dot, digit).Ok? <==>
      (digit || HasDigit(t, i)) && DotCount(t, i) <= (if dot then 0 else 1)
    decreases |t| - i
  {
    if i < |t| {
      if t[i] == '.' {
        if !dot {
          DecimalOkIff(t, i + 1, num, den, true, digit);
        }
      } else {
        DecimalOkIff(t, i + 1, 10 * num + DigitValue(t[i]), if dot then 10 * den else den, dot, true);
      }
    }
  }

  /** Every character before index `j` is a digit. */
  predicate DigitsBefore(t: string, j: nat)
  {
    forall k :: 0 <= k < j && k < |t| ==> IsDigit(t[k])
  }

  /** Every character strictly between index `m` and index `j` is a digit. */
  predicate DigitsBetween(t: string, m: nat, j: nat)
  {
    forall k :: m < k < j && k < |t| ==> IsDigit(t[k])
  }

  /** The digits before index `i` read as one number, dots skipped. */
  function Numerator(t: string, i: nat): nat
    requires i <= |t|
  {
    if i == 0 then 0
    else if t[i - 1] == '.' then Numerator(t, i - 1)
    else 10 * Numerator(t, i - 1) + DigitValue(t[i - 1])
  }

  /** Before the dot, the scan holds the digits read so far. */
  lemma {:induction false} ScanWhole(t: string, i: nat, j: nat)
    requires i <= j <= |t| && AllNumChars(t) && DigitsBefore(t, j)
    ensures Decimal(t, i, Numerator(t, i), 1, false, 0 < i) == Decimal(t, j, Numerator(t, j), 1, false, 0 < j)
    decreases j - i
  {
    if i < j {
      assert IsDigit(t[i]);
      ScanWhole(t, i + 1, j);
    }
  }

  /** After the dot at `m`, the scan holds the digits read so far over 10 to the number
      of digits after the dot. */
  lemma {:induction false} ScanFraction(t: string, m: nat, i: nat, j: nat)
    requires m < i <= j <= |t| && AllNumChars(t) && DigitsBetween(t, m, j)
    ensures Decimal(t, i, Numerator(t, i), Pow10(i - (m + 1)), true, 0 < m || m + 1 < i)
         == Decimal(t, j, Numerator(t, j), Pow10(j - (m + 1)), true, 0 < m || m + 1 < j)
    decreases j - i
  {
    if i < j {
      assert IsDigit(t[i]);
      assert Pow10(i + 1 - (m + 1)) == 10 * Pow10(i - (m + 1));
      ScanFraction(t, m, i + 1, j);
    }
  }

  /** Digits, one dot at `m`, and digits again, with a digit on at least one side. */
  predicate DottedAt(t: string, m: nat)
  {
    && m < |t| && AllNumChars(t) && t[m] == '.' && (0 < m || m + 1 < |t|)
    && DigitsBefore(t, m) && DigitsBetween(t, m, |t|)
  }

  /** The scan of a dotted decimal reads every digit over 10 to the number of digits
      after the dot. */
  lemma DottedScan(t: string, m: nat)
    requires DottedAt(t, m)
    ensures Decimal(t, 0, 0, 1, false, false)
         == Ok((DigitsValue(t[..m]) * Pow10(|t| - (m + 1)) + DigitsValue(t[m + 1..|t|]), Pow10(|t| - (m + 1))))
  {
    ScanWhole(t, 0, m);
    assert Numerator(t, m + 1) == Numerator(t, m);
    ScanFraction(t, m, m + 1, |t|);
    NumeratorFraction(t, m, |t|);
  }

  /** Before any dot, the numerator is the value of the digits so far. */
  lemma {:induction false} NumeratorWhole(t: string, i: nat)
    requires i <= |t| && DigitsBefore(t, i)
    ensures Numerator(t, i) == DigitsValue(t[..i])
  {
    if i > 0 {
      assert t[..i][..i - 1] == t[..i - 1] && t[..i][i - 1] == t[i - 1];
      assert IsDigit(t[i - 1]);
      NumeratorWhole(t, i - 1);
    }
  }

  /** After the dot at `m`, the numerator is the whole part shifted left by the digits
      after the dot, plus those digits. */
  lemma {:induction false} NumeratorFraction(t: string, m: nat, i: nat)
    requires m < i <= |t| && t[m] == '.' && DigitsBefore(t, m) && DigitsBetween(t, m, i)
    ensures Numerator(t, i) == DigitsValue(t[..m]) * Pow10(i - (m + 1)) + DigitsValue(t[m + 1..i])
  {
    if i == m + 1 {
      NumeratorWhole(t, m);
      assert t[m + 1..i] == [];
    } else {
      var w := t[m + 1..i];
      assert w[..|w| - 1] == t[m + 1..i - 1] && w[|w| - 1] == t[i - 1];
      assert IsDigit(t[i - 1]);
      NumeratorFraction(t, m, i - 1);
      TenTimes(DigitsValue(t[..m]), Pow10(i - 1 - (m + 1)), DigitsValue(t[m + 1..i - 1]), DigitValue(t[i - 1]));
    }
  }

  /** `float` of a run of digits is the integer they spell. */
  lemma ParseWhole(a: string)
    requires |a| > 0 && AllDigits(a)
    ensures ParseFloat(a) == Ok(DigitsValue(a) as real)
  {
    assert AllNumChars(a) && DigitsBefore(a, |a|);
    ScanWhole(a, 0, |a|);
    NumeratorWhole(a, |a|);
    assert a[..|a|] == a;
    ParseOfScan(a, DigitsValue(a), DigitsValue(a), 0, 1);
  }

  /** `float(a + "." + b)` is the whole part `a` plus `b` tenths, hundredths, ...; either
      side of the dot may be empty, not both. */
  lemma ParseFraction(a: string, b: string)
    requires AllDigits(a) && AllDigits(b) && |a| + |b| > 0
    ensures ParseFloat(a + "." + b) == Ok(DigitsValue(a) as real + DigitsValue(b) as real / Pow10(|b|) as real)
  {
    var t := a + "." + b;
    DottedShape(t, a, b);
    ParseDotted(t, |a|, a, b);
  }

  /** `float(t)` for digits, one dot at `m`, and digits again. */
  lemma ParseDotted(t: string, m: nat, a: string, b: string)
    requires DottedAt(t, m) && t[..m] == a && t[m + 1..|t|] == b
    ensures ParseFloat(t) == Ok(DigitsValue(a) as real + DigitsValue(b) as real / Pow10(|b|) as real)
  {
    DottedScan(t, m);
    assert |t| - (m + 1) == |b|;
    ParseOfScan(t, DigitsValue(a) * Pow10(|b|) + DigitsValue(b), DigitsValue(a), DigitsValue(b), Pow10(|b|));
  }

  /** `float` divides what the scan read by its power of ten: `x` whole and `y` over `p`. */
  lemma ParseOfScan(t: string, n: nat, x: nat, y: nat, p: nat)
    requires AllNumChars(t) && p >= 1 && Decimal(t, 0, 0, 1, false, false) == Ok((n, p)) && n == x * p + y
    ensures ParseFloat(t) == Ok(x as real + y as real / p as real)
  {
    assert ParseFloat(t) == Ok(n as real / p as real);
    SplitFraction(x, y, p);
  }

  /** The pieces of `a + "." + b` where the scan meets them. */
  lemma DottedShape(t: string, a: string, b: string)
    requires t == a + "." + b && AllDigits(a) && AllDigits(b)
    requires |a| + |b| > 0
    ensures DottedAt(t, |a|)
    ensures t[..|a|] == a && t[|a| + 1..|t|] == b
  {
    assert t[..|a|] == a && t[|a| + 1..|t|] == b;
    forall k | 0 <= k < |t| ensures IsNumChar(t[k]) && (k != |a| ==> IsDigit(t[k])) {
      if k < |a| { assert t[k] == a[k]; } else if k > |a| { assert t[k] == b[k - |a| - 1]; }
    }
  }

  lemma TenTimes(num: nat, p: nat, v: nat, d: nat)
    ensures 10 * (num * p + v) + d == num * (10 * p) + (v * 10 + d)
  {
  }

  lemma SplitFraction(x: nat, y: nat, p: nat)
    requires p >= 1
    ensures (x * p + y) as real / p as real == x as real + y as real / p as real
  {
    assert (x * p + y) as real == x as real * p as real + y as real;
  }

  /** A sign `float` accepts in front of the number. */
  predicate IsSign(c: char) { c == '-' || c == '+' }

  /** Digit/dot text behind an optional sign that `float` accepts. */
  predicate IsSignedDecimal(t: string)
  {
    || (AllNumChars(t) && IsDecimal(t))
    || (|t| > 0 && IsSign(t[0]) && AllNumChars(t[1..]) && IsDecimal(t[1..]))
  }

  /** `float(t)` on digit/dot text with an optional leading sign: the sign negates (`-`) or
      keeps (`+`) the value of the text after it; any other text is a `ValueError`. */
  function ParseSigned(t: string): (r: Result<real, Error>)
    ensures r.Ok? <==> IsSignedDecimal(t)
    ensures r.Err? ==> r == Err(ValueError(t))
    ensures r.Ok? && AllNumChars(t) ==> ParseFloat(t) == r
    ensures r.Ok? && t[0] == '+' ==> ParseFloat(t[1..]) == r
    ensures r.Ok? && t[0] == '-' ==> ParseFloat(t[1..]) == Ok(-r.value)
    ensures r.Ok? ==> (r.value < 0.0 ==> t[0] == '-')
  {
    if AllNumChars(t) then ParseFloat(t)
    else if |t| > 0 && IsSign(t[0]) && AllNumChars(t[1..]) then
      match ParseFloat(t[1..])
      case Ok(x) => Ok(if t[0] == '-' then -x else x)
      case Err(_) => Err(ValueError(t))
    else Err(ValueError(t))
  }
}
