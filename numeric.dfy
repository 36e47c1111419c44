/**
 * Numbers as JavaScript and Node.js Buffers handle them: octets, big-endian digit
 * strings, 32-bit wrap-around of the bitwise operators, and decimal text.
 */
module Numeric {

  /** One octet of a Node.js Buffer. */
  type byte = b: int | 0 <= b < 256

  const TWO_31: int := 0x8000_0000
  const TWO_32: int := 0x1_0000_0000
  const TWO_64: int := 0x1_0000_0000_0000_0000

  function Pow(base: nat, e: nat): (r: nat)
    ensures base >= 1 ==> r >= 1
  {
    if e == 0 then 1 else base * Pow(base, e - 1)
  }

  /** Every element of `ds` is a digit in the given base. */
  predicate DigitsIn(ds: seq<int>, base: nat) {
    forall i :: 0 <= i < |ds| ==> 0 <= ds[i] < base
  }

  /** Digit strings written one after the other are a digit string. */
  lemma DigitsInConcat(a: seq<int>, b: seq<int>, base: nat)
    requires DigitsIn(a, base) && DigitsIn(b, base)
    ensures DigitsIn(a + b, base)
  {
    forall i | 0 <= i < |a + b| ensures 0 <= (a + b)[i] < base {
      if i >= |a| {
        assert (a + b)[i] == b[i - |a|];
      }
    }
  }

  /** The number that the big-endian digit string `ds` denotes in `base`. */
  function ValueBE(ds: seq<int>, base: nat): int {
    if |ds| == 0 then 0 else ValueBE(ds[..|ds| - 1], base) * base + ds[|ds| - 1]
  }

  /** The `n` lowest big-endian digits of `v` in `base`. */
  function DigitsBE(v: nat, base: nat, n: nat): (ds: seq<int>)
    requires base >= 2
    ensures |ds| == n && DigitsIn(ds, base)
  {
    if n == 0 then [] else DigitsBE(v / base, base, n - 1) + [v % base]
  }

  /** Euclidean division is unique: a quotient and remainder that fit are the ones `/` and `%` give. */
  lemma DivModUnique(v: int, m: int, k: int, s: int)
    requires m > 0 && v == k * m + s && 0 <= s < m
    ensures v / m == k && v % m == s
  {
    var q, r := v / m, v % m;
    var d := q - k;
    assert d * m == s - r by {
      assert q * m + r == k * m + s;
      assert (q - k) * m == q * m - k * m;
    }
    if d >= 1 {
      MulAtLeast(d, m);
    } else if d <= -1 {
      MulAtLeast(-d, m);
    }
  }

  lemma MulAtLeast(d: int, m: int)
    requires d >= 1 && m >= 0
    ensures d * m >= m
  {
    assert d * m == m + (d - 1) * m;
  }

  /** Taking the quotient by `b` and then the remainder by `p` loses exactly the digits above `p * b`. */
  lemma ModOfQuotient(v: nat, b: nat, p: nat)
    requires b >= 1 && p >= 1
    ensures (v / b) % p * b + v % b == v % (p * b)
  {
    var q, r := v / b, v % b;
    var a, c := q / p, q % p;
    MulLe(c, p - 1, b);
    assert (p - 1) * b == p * b - b;
    assert v == q * b + r && q == a * p + c;
    AppendArith(a, p, c, b, r);
    assert b * p == p * b;
    DivModUnique(v, p * b, a, c * b + r);
  }

  lemma {:induction false} DigitsBEValue(v: nat, base: nat, n: nat)
    requires base >= 2
    ensures ValueBE(DigitsBE(v, base, n), base) == v % Pow(base, n)
    decreases n
  {
    if n == 0 {
    } else {
      var ds := DigitsBE(v, base, n);
      var p := Pow(base, n - 1);
      assert ds[..n - 1] == DigitsBE(v / base, base, n - 1) && ds[n - 1] == v % base;
      DigitsBEValue(v / base, base, n - 1);
      assert ValueBE(ds, base) == (v / base) % p * base + v % base;
      ModOfQuotient(v, base, p);
      assert Pow(base, n) == p * base;
    }
  }

  lemma {:induction false} ValueBEBound(ds: seq<int>, base: nat)
    requires base >= 1 && DigitsIn(ds, base)
    ensures 0 <= ValueBE(ds, base) < Pow(base, |ds|)
  {
    if |ds| > 0 {
      var n := |ds|;
      ValueBEBound(ds[..n - 1], base);
      var w := ValueBE(ds[..n - 1], base);
      var p := Pow(base, n - 1);
      assert ValueBE(ds, base) == w * base + ds[n - 1];
      MulLe(w, p - 1, base);
      assert (p - 1) * base == p * base - base;
      assert Pow(base, n) == base * p;
      assert 0 <= w * base by { MulLe(0, w, base); }
    }
  }

  lemma MulLe(a: int, b: int, c: nat)
    requires a <= b
    ensures a * c <= b * c
  {
    assert b * c - a * c == (b - a) * c;
  }

  /** Digits read back from their value are the digits themselves. */
  lemma {:induction false} DigitsOfValueBE(ds: seq<int>, base: nat)
    requires base >= 2 && DigitsIn(ds, base)
    ensures ValueBE(ds, base) >= 0
    ensures DigitsBE(ValueBE(ds, base), base, |ds|) == ds
  {
    ValueBEBound(ds, base);
    if |ds| > 0 {
      var n := |ds|;
      var w := ValueBE(ds[..n - 1], base);
      DigitsOfValueBE(ds[..n - 1], base);
      DivModUnique(ValueBE(ds, base), base, w, ds[n - 1]);
      assert ds == ds[..n - 1] + [ds[n - 1]];
    }
  }

  lemma PowAdd(base: nat, m: nat, n: nat)
    ensures Pow(base, m + n) == Pow(base, m) * Pow(base, n)
    decreases m
  {
    if m > 0 {
      PowAdd(base, m - 1, n);
      assert Pow(base, m + n) == base * Pow(base, m - 1 + n);
    }
  }

  lemma PowersOfTwo()
    ensures Pow(2, 5) == 32 && Pow(2, 32) == TWO_32
  {
    assert Pow(2, 4) == 16;
    PowAdd(2, 4, 4);
    PowAdd(2, 8, 8);
    PowAdd(2, 16, 16);
  }

  /** The powers the octet and bit arithmetic uses. */
  lemma KnownPowers()
    ensures Pow(2, 5) == 32 && Pow(2, 8) == 256 && Pow(2, 16) == 0x1_0000 && Pow(2, 27) == 0x800_0000
    ensures Pow(2, 32) == TWO_32 && Pow(256, 4) == TWO_32 && Pow(256, 8) == TWO_64
    ensures Pow(32, 8) == 0x100_0000_0000 && Pow(256, 5) == 0x100_0000_0000
  {
    assert Pow(2, 4) == 16;
    PowAdd(2, 4, 4);
    PowAdd(2, 8, 8);
    PowAdd(2, 16, 16);
    PowAdd(2, 16, 11);
    assert Pow(2, 11) == 2048 by { PowAdd(2, 8, 3); }
    assert Pow(256, 2) == 0x1_0000;
    PowAdd(256, 2, 2);
    PowAdd(256, 4, 1);
    PowAdd(256, 4, 4);
    assert Pow(32, 4) == 0x10_0000;
    PowAdd(32, 4, 4);
  }

  /** The value of two digit strings written one after the other. */
  lemma {:induction false} ValueBEAppend(a: seq<int>, b: seq<int>, base: nat)
    ensures ValueBE(a + b, base) == ValueBE(a, base) * Pow(base, |b|) + ValueBE(b, base)
    decreases |b|
  {
    if |b| == 0 {
      assert a + b == a;
    } else {
      var n := |b|;
      assert (a + b)[..|a + b| - 1] == a + b[..n - 1];
      ValueBEAppend(a, b[..n - 1], base);
      assert ValueBE(a + b, base) == ValueBE(a + b[..n - 1], base) * base + b[n - 1];
      AppendArith(ValueBE(a, base), Pow(base, n - 1), ValueBE(b[..n - 1], base), base, b[n - 1]);
    }
  }

  /** The step of ValueBEAppend: one more digit multiplies the front part by one more `base`. */
  lemma AppendArith(x: int, p: int, y: int, base: int, d: int)
    ensures (x * p + y) * base + d == x * (base * p) + (y * base + d)
  {
    assert (x * p + y) * base == x * p * base + y * base;
  }

  /** A digit string whose value is 0 is all zeros. */
  lemma {:induction false} ValueBEZero(ds: seq<int>, base: nat)
    requires base >= 1 && DigitsIn(ds, base) && ValueBE(ds, base) == 0
    ensures forall i :: 0 <= i < |ds| ==> ds[i] == 0
  {
    if |ds| > 0 {
      var n := |ds|;
      ValueBEBound(ds[..n - 1], base);
      MulLe(0, ValueBE(ds[..n - 1], base), base);
      assert ValueBE(ds[..n - 1], base) == 0 by {
        if ValueBE(ds[..n - 1], base) >= 1 {
          MulLe(1, ValueBE(ds[..n - 1], base), base);
        }
      }
      ValueBEZero(ds[..n - 1], base);
      assert forall i :: 0 <= i < n - 1 ==> ds[i] == ds[..n - 1][i];
    }
  }

  /** The value of a 32-bit integer operand of a JavaScript bitwise operator (the ToInt32 conversion). */
  function ToInt32(x: int): (r: int)
    ensures -TWO_31 <= r < TWO_31
    ensures (x - r) % TWO_32 == 0
  {
    var m := x % TWO_32;
    if m >= TWO_31 then m - TWO_32 else m
  }

  /** ToInt32 leaves a value that is already a 32-bit integer alone. */
  lemma ToInt32InRange(x: int)
    requires -TWO_31 <= x < TWO_31
    ensures ToInt32(x) == x
  {
    if x < 0 {
      DivModUnique(x, TWO_32, -1, x + TWO_32);
    } else {
      DivModUnique(x, TWO_32, 0, x);
    }
  }

  // ---------------------------------------------------------------- decimal text

  predicate IsDigit(c: char) {
    '0' <= c <= '9'
  }

  predicate IsDecimal(s: string) {
    forall i :: 0 <= i < |s| ==> IsDigit(s[i])
  }

  function DigitChar(d: int): (c: char)
    requires 0 <= d < 10
    ensures IsDigit(c)
  {
    (48 + d) as char
  }

  /** The decimal text JavaScript's `String(n)` gives for a non-negative integer. */
  function NatToString(n: nat): (s: string)
    ensures |s| >= 1 && IsDecimal(s)
  {
    if n < 10 then [DigitChar(n)] else NatToString(n / 10) + [DigitChar(n % 10)]
  }

  /** The number a string of decimal digits denotes. */
  function DecimalValue(s: string): nat
    requires IsDecimal(s)
  {
    if |s| == 0 then 0 else DecimalValue(s[..|s| - 1]) * 10 + (s[|s| - 1] as int - 48)
  }

  lemma {:induction false} NatToStringValue(n: nat)
    ensures DecimalValue(NatToString(n)) == n
  {
    if n >= 10 {
      var s := NatToString(n);
      assert s[..|s| - 1] == NatToString(n / 10);
      NatToStringValue(n / 10);
    }
  }

  /** Distinct numbers print differently. */
  lemma NatToStringInjective(a: nat, b: nat)
    requires NatToString(a) == NatToString(b)
    ensures a == b
  {
    NatToStringValue(a);
    NatToStringValue(b);
  }

  /** A number below `10^k` prints in at most `k` digits. */
  lemma {:induction false} NatToStringLength(n: nat, k: nat)
    requires k >= 1 && n < Pow(10, k)
    ensures |NatToString(n)| <= k
    decreases k
  {
    if n >= 10 {
      assert Pow(10, 1) == 10;
      assert n / 10 < Pow(10, k - 1) by {
        assert Pow(10, k) == 10 * Pow(10, k - 1);
      }
      NatToStringLength(n / 10, k - 1);
    }
  }

  /** Leading zeros do not change the value of a decimal string. */
  lemma {:induction false} DecimalLeadingZeros(z: string, s: string)
    requires IsDecimal(z) && IsDecimal(s) && forall i :: 0 <= i < |z| ==> z[i] == '0'
    ensures IsDecimal(z + s) && DecimalValue(z + s) == DecimalValue(s)
    decreases |z| + |s|
  {
    if |s| == 0 {
      assert z + s == z;
      if |z| > 0 {
        DecimalLeadingZeros(z[..|z| - 1], "");
        assert z[..|z| - 1] + "" == z[..|z| - 1];
      }
    } else {
      assert (z + s)[..|z + s| - 1] == z + s[..|s| - 1];
      DecimalLeadingZeros(z, s[..|s| - 1]);
    }
  }

  /** JavaScript's `String(i)` for an integer. */
  function IntToString(i: int): string {
    if i < 0 then "-" + NatToString(-i) else NatToString(i)
  }

  /** JavaScript's `s.padStart(width, fill)` with a one-character fill. */
  function PadStart(s: string, width: nat, fill: char): (r: string)
    ensures |r| == if |s| >= width then |s| else width
    ensures r[|r| - |s|..] == s
    ensures forall i :: 0 <= i < |r| - |s| ==> r[i] == fill
  {
    if |s| >= width then s else seq(width - |s|, _ => fill) + s
  }
}
