/**
 Decimal rendering and parsing of integers: the behaviour of Python's `str()`
 on an `int` and of `int()` on a string of decimal digits, which the pipeline
 uses to build amount-store keys and to split membership dates.
 */
module Digits {

  predicate IsDigit(c: char) {
    '0' <= c <= '9'
  }

  predicate AllDigits(s: string) {
    forall i :: 0 <= i < |s| ==> IsDigit(s[i])
  }

  function DigitChar(d: int): (c: char)
    requires 0 <= d < 10
    ensures IsDigit(c)
  {
    (48 + d) as char
  }

  function DigitValue(c: char): (d: int)
    requires IsDigit(c)
    ensures 0 <= d < 10
  {
    c as int - 48
  }

  function Pow10(k: nat): (p: nat)
    ensures p >= 1
  {
    if k == 0 then 1 else 10 * Pow10(k - 1)
  }

  /** `str(n)` for a non-negative integer: the shortest decimal form. */
  function NatToString(n: nat): (s: string)
    ensures |s| >= 1
    ensures AllDigits(s)
    decreases n
  {
    if n < 10 then [DigitChar(n)] else NatToString(n / 10) + [DigitChar(n % 10)]
  }

  /** `str(i)` for any integer: a minus sign precedes the digits of a negative value. */
  function IntToString(i: int): (s: string)
    ensures |s| >= 1
  {
    if i < 0 then "-" + NatToString(-i) else NatToString(i)
  }

  /** `int(s)` for a string made of decimal digits only; the empty string reads as 0. */
  function ParseDigits(s: string): (n: nat)
    requires AllDigits(s)
  {
    if s == [] then 0 else ParseDigits(s[..|s| - 1]) * 10 + DigitValue(s[|s| - 1])
  }

  /** Parsing undoes rendering. */
  lemma {:induction false} ParseNatToString(n: nat)
    ensures ParseDigits(NatToString(n)) == n
    decreases n
  {
    var s := NatToString(n);
    if n >= 10 {
      ParseNatToString(n / 10);
      assert s[..|s| - 1] == NatToString(n / 10);
    }
  }

  /** Rendering never emits a leading zero, except for zero itself. */
  lemma {:induction false} NatToStringLeading(n: nat)
    ensures n >= 10 ==> NatToString(n)[0] != '0'
    ensures n < 10 ==> |NatToString(n)| == 1
    decreases n
  {
    if n >= 10 {
      NatToStringLeading(n / 10);
    }
  }

  /** Distinct naturals render to distinct strings. */
  lemma NatToStringInjective(a: nat, b: nat)
    requires NatToString(a) == NatToString(b)
    ensures a == b
  {
    ParseNatToString(a);
    ParseNatToString(b);
  }

  /** The rendering starts with a minus sign exactly for negative values. */
  lemma IntToStringSign(i: int)
    ensures IntToString(i)[0] == '-' <==> i < 0
  {
    if i >= 0 {
      assert IsDigit(NatToString(i)[0]);
    }
  }

  /** Distinct integers render to distinct strings, signs included. */
  lemma IntToStringInjective(a: int, b: int)
    requires IntToString(a) == IntToString(b)
    ensures a == b
  {
    IntToStringSign(a);
    IntToStringSign(b);
    var sa, sb := IntToString(a), IntToString(b);
    if a < 0 {
      assert NatToString(-a) == sa[1..] == sb[1..] == NatToString(-b);
      NatToStringInjective(-a, -b);
    } else {
      NatToStringInjective(a, b);
    }
  }

  /** Reads an optionally signed decimal string; any other text reads as 0. */
  function ParseInt(s: string): int {
    if |s| >= 1 && s[0] == '-' && AllDigits(s[1..]) then -(ParseDigits(s[1..]) as int)
    else if AllDigits(s) then ParseDigits(s)
    else 0
  }

  /** Parsing undoes rendering, signs included. */
  lemma ParseIntToString(i: int)
    ensures ParseInt(IntToString(i)) == i
  {
    var s := IntToString(i);
    if i < 0 {
      assert s[1..] == NatToString(-i);
      ParseNatToString(-i);
    } else {
      IntToStringSign(i);
      ParseNatToString(i);
    }
  }

  /** A digit string reads as less than ten to the power of its length. */
  lemma {:induction false} ParseDigitsBound(s: string)
    requires AllDigits(s)
    ensures ParseDigits(s) < Pow10(|s|)
    decreases |s|
  {
    if s != [] {
      ParseDigitsBound(s[..|s| - 1]);
    }
  }

  lemma ShiftDigit(p: int, q: int, x: int, d: int)
    ensures (p * q + x) * 10 + d == p * (10 * q) + (x * 10 + d)
  {
    assert (p * q + x) * 10 == p * q * 10 + x * 10;
    assert p * q * 10 == p * (10 * q);
  }

  /** Reading a concatenation shifts the first part by the length of the second. */
  lemma {:induction false} ParseDigitsAppend(a: string, b: string)
    requires AllDigits(a) && AllDigits(b)
    ensures AllDigits(a + b)
    ensures ParseDigits(a + b) == ParseDigits(a) * Pow10(|b|) + ParseDigits(b)
    decreases |b|
  {
    if b == [] {
      assert a + b == a;
    } else {
      var b' := b[..|b| - 1];
      var d := DigitValue(b[|b| - 1]);
      assert (a + b)[..|a + b| - 1] == a + b';
      assert (a + b)[|a + b| - 1] == b[|b| - 1];
      ParseDigitsAppend(a, b');
      assert ParseDigits(a + b) == ParseDigits(a + b') * 10 + d;
      assert ParseDigits(b) == ParseDigits(b') * 10 + d;
      assert Pow10(|b|) == 10 * Pow10(|b'|);
      ShiftDigit(ParseDigits(a), Pow10(|b'|), ParseDigits(b'), d);
    }
  }

  lemma MulAtLeast(k: int, m: int)
    requires k >= 1 && m > 0
    ensures k * m >= m
  {
    assert k * m == (k - 1) * m + m;
  }

  /** Quotient and remainder are determined by any decomposition with a remainder in range. */
  lemma DivModUnique(n: int, m: int, q: int, r: int)
    requires m > 0 && 0 <= r < m && n == q * m + r
    ensures n / m == q && n % m == r
  {
    var q', r' := n / m, n % m;
    assert n == q' * m + r';
    assert 0 <= r' < m;
    if q' > q {
      assert (q' - q) * m == q' * m - q * m;
      MulAtLeast(q' - q, m);
    } else if q' < q {
      assert (q - q') * m == q * m - q' * m;
      MulAtLeast(q - q', m);
    }
  }

  /** Splitting a digit string at `k` splits its value into quotient and remainder by ten to the `|s| - k`. */
  lemma ParseDigitsSplit(s: string, k: nat)
    requires AllDigits(s) && k <= |s|
    ensures ParseDigits(s[..k]) == ParseDigits(s) / Pow10(|s| - k)
    ensures ParseDigits(s[k..]) == ParseDigits(s) % Pow10(|s| - k)
  {
    assert s == s[..k] + s[k..];
    ParseDigitsAppend(s[..k], s[k..]);
    ParseDigitsBound(s[k..]);
    DivModUnique(ParseDigits(s), Pow10(|s| - k), ParseDigits(s[..k]), ParseDigits(s[k..]));
  }

  /** A digit string with a non-zero first digit reads as at least ten to its length minus one. */
  lemma ParseDigitsLower(s: string)
    requires AllDigits(s) && |s| >= 1 && s[0] != '0'
    ensures ParseDigits(s) >= Pow10(|s| - 1)
  {
    assert s == s[..1] + s[1..];
    ParseDigitsAppend(s[..1], s[1..]);
    assert s[..1][..0] == [];
    assert ParseDigits(s[..1]) == DigitValue(s[0]) >= 1;
    MulAtLeast(ParseDigits(s[..1]), Pow10(|s| - 1));
  }

  /** The rendered length of `n` is the number of decimal digits of `n`. */
  lemma NatToStringLength(n: nat, k: nat)
    requires k >= 1 && (k == 1 || Pow10(k - 1) <= n) && n < Pow10(k)
    ensures |NatToString(n)| == k
  {
    var s := NatToString(n);
    ParseNatToString(n);
    ParseDigitsBound(s);
    NatToStringLeading(n);
    if n >= 10 {
      ParseDigitsLower(s);
    }
    assert (|s| == 1 || Pow10(|s| - 1) <= n) && n < Pow10(|s|);
    if |s| < k {
      Pow10Monotone(|s|, k - 1);
    } else if |s| > k {
      Pow10Monotone(k, |s| - 1);
    }
  }

  lemma {:induction false} Pow10Monotone(i: nat, j: nat)
    requires i <= j
    ensures Pow10(i) <= Pow10(j)
    decreases j
  {
    if i < j {
      Pow10Monotone(i, j - 1);
    }
  }

  /** Multiplying by ten appends a zero digit. */
  lemma NatToStringTimesTen(n: nat)
    requires n >= 1
    ensures NatToString(10 * n) == NatToString(n) + "0"
  {
    assert (10 * n) / 10 == n && (10 * n) % 10 == 0;
  }

  /** Multiplying by 10000 appends four zero digits. */
  lemma NatToStringTimesTenThousand(n: nat)
    requires n >= 1
    ensures NatToString(10000 * n) == NatToString(n) + "0000"
  {
    NatToStringTimesTen(n);
    NatToStringTimesTen(10 * n);
    NatToStringTimesTen(100 * n);
    NatToStringTimesTen(1000 * n);
    assert 10 * (10 * n) == 100 * n && 10 * (100 * n) == 1000 * n && 10 * (1000 * n) == 10000 * n;
  }
}
