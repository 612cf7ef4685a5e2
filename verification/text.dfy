/** String helpers with the meaning Python's `str` gives them (on `seq<char>`). */
module Text {

  predicate IsDigit(c: char) { '0' <= c <= '9' }

  predicate AllDigits(s: string) { forall i :: 0 <= i < |s| ==> IsDigit(s[i]) }

  /** The value of a decimal digit; other characters, which no caller passes, count as 0. */
  function DigitValue(c: char): (d: nat)
    ensures d < 10
    ensures IsDigit(c) ==> d == c as int - '0' as int
  {
    if IsDigit(c) then c as int - '0' as int else 0
  }

  function DigitChar(d: nat): (c: char)
    requires d < 10
    ensures IsDigit(c) && DigitValue(c) == d
  {
    ('0' as int + d) as char
  }

  /** The value of a run of decimal digits, read left to right. */
  function DigitsValue(s: string): nat
  {
    if s == [] then 0 else DigitsValue(s[..|s| - 1]) * 10 + DigitValue(s[|s| - 1])
  }

  /** `10 ** n`. */
  function Pow10(n: nat): (p: nat)
    ensures p >= 1
  {
    if n == 0 then 1 else 10 * Pow10(n - 1)
  }

  /** Python's `str(n)` for a non-negative int: shortest decimal, no leading zero. */
  function NatToString(n: nat): (s: string)
    ensures |s| >= 1 && AllDigits(s)
    ensures s[0] == '0' ==> n == 0
  {
    if n < 10 then [DigitChar(n)] else NatToString(n / 10) + [DigitChar(n % 10)]
  }

  /** Python's `str(i)` for any int. */
  function IntToString(i: int): (s: string)
    ensures |s| >= 1
    ensures s[0] == '-' <==> i < 0
  {
    if i < 0 then "-" + NatToString(-i) else NatToString(i)
  }

  lemma {:induction false} DigitsOfNatToString(n: nat)
    ensures DigitsValue(NatToString(n)) == n
  {
    if n >= 10 {
      var s := NatToString(n / 10) + [DigitChar(n % 10)];
      assert s[..|s| - 1] == NatToString(n / 10);
      DigitsOfNatToString(n / 10);
    } else {
      assert NatToString(n)[..0] == [];
    }
  }

  /** `str(i)` is injective, so a command line built from it determines the number. */
  lemma IntToStringInjective(i: int, j: int)
    requires IntToString(i) == IntToString(j)
    ensures i == j
  {
    var a, b := IntToString(i), IntToString(j);
    if i < 0 && j < 0 {
      assert a == "-" + NatToString(-i) && b == "-" + NatToString(-j);
      assert a[1..] == NatToString(-i) && b[1..] == NatToString(-j);
      NatToStringInjective(-i, -j);
    } else if i >= 0 && j >= 0 {
      NatToStringInjective(i, j);
    }
  }

  lemma NatToStringInjective(m: nat, n: nat)
    requires NatToString(m) == NatToString(n)
    ensures m == n
  {
    DigitsOfNatToString(m);
    DigitsOfNatToString(n);
  }

  predicate StartsWith(s: string, prefix: string) { |prefix| <= |s| && s[..|prefix|] == prefix }

  predicate EndsWith(s: string, suffix: string) { |suffix| <= |s| && s[|s| - |suffix|..] == suffix }

  /** Python's `s.find(c)`: the first index of `c`, or -1. */
  function Find(s: string, c: char): (r: int)
    ensures -1 <= r < |s|
    ensures r >= 0 ==> s[r] == c
    ensures forall j :: 0 <= j < |s| && (r < 0 || j < r) ==> s[j] != c
  {
    if s == [] then -1
    else if s[0] == c then 0
    else var k := Find(s[1..], c); if k < 0 then -1 else k + 1
  }

  /** Python's `s.rfind(c)`: the last index of `c`, or -1. */
  function RFind(s: string, c: char): (r: int)
    ensures -1 <= r < |s|
    ensures r >= 0 ==> s[r] == c
    ensures forall j :: r < j < |s| ==> s[j] != c
  {
    if s == [] then -1
    else if s[|s| - 1] == c then |s| - 1
    else RFind(s[..|s| - 1], c)
  }

  /** Python's `s.split(sep)` for a one-character separator. */
  function Split(s: string, sep: char): (parts: seq<string>)
    ensures |parts| >= 1
    decreases |s|
  {
    var i := Find(s, sep);
    if i < 0 then [s] else [s[..i]] + Split(s[i + 1..], sep)
  }

  /** The inverse of `Split`: Python's `sep.join(parts)`. */
  function Join(parts: seq<string>, sep: char): string
    requires |parts| >= 1
  {
    if |parts| == 1 then parts[0] else parts[0] + [sep] + Join(parts[1..], sep)
  }

  lemma {:induction false} JoinSplit(s: string, sep: char)
    ensures Join(Split(s, sep), sep) == s
    decreases |s|
  {
    var i := Find(s, sep);
    if i >= 0 {
      var t := s[i + 1..];
      var parts := Split(s, sep);
      assert parts == [s[..i]] + Split(t, sep);
      assert parts[1..] == Split(t, sep);
      JoinSplit(t, sep);
      calc {
        Join(parts, sep);
        parts[0] + [sep] + Join(parts[1..], sep);
        s[..i] + [sep] + t;
        { assert s == s[..i] + [sep] + t; }
        s;
      }
    }
  }

  /** No part holds `sep`. */
  predicate PartsWithout(parts: seq<string>, sep: char)
  {
    forall k, j :: 0 <= k < |parts| && 0 <= j < |parts[k]| ==> parts[k][j] != sep
  }

  /** No part of `s.split(sep)` holds `sep`. */
  lemma {:induction false} SplitNoSep(s: string, sep: char)
    ensures PartsWithout(Split(s, sep), sep)
    decreases |s|
  {
    var i := Find(s, sep);
    var parts := Split(s, sep);
    if i >= 0 {
      var rest := Split(s[i + 1..], sep);
      SplitNoSep(s[i + 1..], sep);
      assert parts == [s[..i]] + rest;
      forall k, j | 0 <= k < |parts| && 0 <= j < |parts[k]| ensures parts[k][j] != sep {
        if k > 0 {
          assert parts[k] == rest[k - 1];
          assert rest[k - 1][j] != sep;
        } else {
          assert parts[k] == s[..i];
          assert parts[k][j] == s[j];
        }
      }
    } else {
      assert parts == [s];
    }
  }

  /** A separator and a part without it, appended to the text, add that part at the end. */
  lemma {:induction false} SplitAppendPart(s: string, sep: char, w: string)
    requires forall j :: 0 <= j < |w| ==> w[j] != sep
    ensures Split(s + [sep] + w, sep) == Split(s, sep) + [w]
    decreases |s|
  {
    var i := Find(s, sep);
    if i < 0 {
      SplitAppendWhole(s, sep, w);
    } else {
      SplitAppendPart(s[i + 1..], sep, w);
      SplitAppendStep(s, sep, w, i);
    }
  }

  /** Text without a separator is one part; the appended separator starts the second. */
  lemma SplitAppendWhole(s: string, sep: char, w: string)
    requires forall j :: 0 <= j < |w| ==> w[j] != sep
    requires Find(s, sep) < 0
    ensures Split(s + [sep] + w, sep) == Split(s, sep) + [w]
  {
    var t := s + [sep] + w;
    FindConcat(s, sep, w);
    FindNone(w, sep);
    SplitAt(t, sep, |s|);
    assert t[..|s|] == s && t[|s| + 1..] == w;
  }

  /** The first separator of `s` is also the first of `s + [sep] + w`, so the appended part
      lands where it lands in the split of what follows it. */
  lemma SplitAppendStep(s: string, sep: char, w: string, i: int)
    requires 0 <= i && Find(s, sep) == i
    requires Split(s[i + 1..] + [sep] + w, sep) == Split(s[i + 1..], sep) + [w]
    ensures Split(s + [sep] + w, sep) == Split(s, sep) + [w]
  {
    var rest := s[i + 1..];
    FindConcat(s, sep, w);
    SplitAt(s, sep, i);
    SplitAt(s + [sep] + w, sep, i);
    SlicesOfAppend(s, [sep] + w, i);
    AppendAssoc(s, [sep], w);
    AppendAssoc(rest, [sep], w);
    AppendAssoc([s[..i]], Split(rest, sep), [w]);
  }

  /** Slicing around index `i` of `s` is not affected by what follows `s`. */
  lemma SlicesOfAppend(s: string, x: string, i: int)
    requires 0 <= i < |s|
    ensures (s + x)[..i] == s[..i] && (s + x)[i + 1..] == s[i + 1..] + x
  {
  }

  /** Splitting at the first separator: the part before it, then the split of the rest. */
  lemma SplitAt(s: string, sep: char, i: int)
    requires 0 <= i && Find(s, sep) == i
    ensures i < |s| && Split(s, sep) == [s[..i]] + Split(s[i + 1..], sep)
  {
    assert Split(s, sep) == [s[..Find(s, sep)]] + Split(s[Find(s, sep) + 1..], sep);
  }

  /** The first separator of `s + [c] + w` is the first of `s`, or the appended one. */
  lemma {:induction false} FindConcat(s: string, c: char, w: string)
    ensures Find(s + [c] + w, c) == if Find(s, c) < 0 then |s| else Find(s, c)
    decreases |s|
  {
    var t := s + [c] + w;
    if s != [] && s[0] != c {
      assert t[0] == s[0] && t[1..] == s[1..] + [c] + w;
      FindConcat(s[1..], c, w);
    }
  }

  lemma {:induction false} FindNone(s: string, c: char)
    requires forall j :: 0 <= j < |s| ==> s[j] != c
    ensures Find(s, c) < 0
    decreases |s|
  {
    if s != [] {
      assert forall j :: 0 <= j < |s| - 1 ==> s[1..][j] == s[j + 1];
      FindNone(s[1..], c);
    }
  }

  /** A separator appended to the text adds one empty part at the end. */
  lemma SplitAppendSep(s: string, sep: char)
    ensures Split(s + [sep], sep) == Split(s, sep) + [[]]
  {
    SplitAppendPart(s, sep, []);
    assert s + [sep] + [] == s + [sep];
  }

  lemma AppendAssoc<T>(a: seq<T>, b: seq<T>, c: seq<T>)
    ensures a + (b + c) == (a + b) + c
  {
  }

  /** `s.split(sep)[0]` is everything before the first separator. */
  lemma SplitFirst(s: string, sep: char)
    ensures Split(s, sep)[0] == if Find(s, sep) < 0 then s else s[..Find(s, sep)]
  {
  }

  /** `s.split(sep)[-1]` is everything after the last separator. */
  lemma {:induction false} SplitLast(s: string, sep: char)
    ensures Split(s, sep)[|Split(s, sep)| - 1] == s[RFind(s, sep) + 1..]
  {
    var r := RFind(s, sep);
    if r < 0 {
      FindNone(s, sep);
      SplitWhole(s, sep);
    } else {
      SplitAround(s, sep, r);
    }
  }

  /** Cut at its last separator, `s` ends with the part after it. */
  lemma SplitAround(s: string, sep: char, r: int)
    requires 0 <= r < |s| && s[r] == sep
    requires forall j :: r < j < |s| ==> s[j] != sep
    ensures Split(s, sep)[|Split(s, sep)| - 1] == s[r + 1..]
  {
    var w := s[r + 1..];
    assert s == s[..r] + [sep] + w;
    forall j | 0 <= j < |w| ensures w[j] != sep {
      assert w[j] == s[r + 1 + j];
    }
    SplitAppendPart(s[..r], sep, w);
  }

  /** Text without a separator is its own only part, and has no last separator. */
  lemma SplitWhole(s: string, sep: char)
    requires Find(s, sep) < 0
    ensures Split(s, sep) == [s] && RFind(s, sep) == -1 && s[RFind(s, sep) + 1..] == s
  {
    RFindUnique(s, sep, -1);
  }

  /** Any index that holds `c` with no `c` after it is the one `RFind` returns. */
  lemma RFindUnique(s: string, c: char, q: int)
    requires q == -1 || (0 <= q < |s| && s[q] == c)
    requires forall j :: q < j < |s| ==> s[j] != c
    ensures RFind(s, c) == q
  {
  }

  /** One character of Python's `str.lower` restricted to ASCII letters. */
  function LowerChar(c: char): (d: char)
    ensures 'A' <= c <= 'Z' ==> d as int == c as int + 32
    ensures !('A' <= c <= 'Z') ==> d == c
  {
    if 'A' <= c <= 'Z' then (c as int + 32) as char else c
  }

  function Lower(s: string): (r: string)
    ensures |r| == |s|
    ensures forall i :: 0 <= i < |s| ==> r[i] == LowerChar(s[i])
  {
    seq(|s|, i requires 0 <= i < |s| => LowerChar(s[i]))
  }

  predicate IsLower(s: string) { forall i :: 0 <= i < |s| ==> !('A' <= s[i] <= 'Z') }

  lemma LowerIsLower(s: string)
    ensures IsLower(Lower(s))
  {
  }

  /** A lower-case string is its own lower-casing; so lowering twice changes nothing. */
  lemma LowerFixesLower(s: string)
    requires IsLower(s)
    ensures Lower(s) == s
  {
  }
}
