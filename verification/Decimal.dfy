/** Decimal digit strings and powers of ten. */
module Decimal {
  predicate IsDigit(c: char)
  {
    '0' <= c <= '9'
  }

  ghost predicate AllDigits(s: string)
  {
    forall i | 0 <= i < |s| :: IsDigit(s[i])
  }

  function DigitValue(c: char): (d: nat)
    ensures d < 10
    ensures IsDigit(c) ==> c as int == '0' as int + d
  {
    if IsDigit(c) then c as int - '0' as int else 0
  }

  function DigitChar(d: nat): (c: char)
    requires d < 10
    ensures IsDigit(c) && c as int == '0' as int + d
  {
    ('0' as int + d) as char
  }

  /** Python's str() of a non-negative integer. */
  function DigitsOf(n: nat): (s: string)
    ensures s != "" && AllDigits(s)
    ensures Val(s) == n
    ensures n > 0 ==> s[0] != '0'
  {
    if n < 10 then [DigitChar(n)]
    else
      var s := DigitsOf(n / 10) + [DigitChar(n % 10)];
      assert s[..|s| - 1] == DigitsOf(n / 10);
      s
  }

  /** The number a digit string denotes. */
  function Val(s: string): nat
  {
    if s == "" then 0 else 10 * Val(s[..|s| - 1]) + DigitValue(s[|s| - 1])
  }

  function Tens(k: nat): nat
  {
    if k == 0 then 1 else 10 * Tens(k - 1)
  }

  /** n * 10^e, one factor of ten at a time. */
  ghost function Scaled(n: nat, e: int): real
    decreases if e < 0 then -e else e
  {
    if e == 0 then n as real else if e > 0 then 10.0 * Scaled(n, e - 1) else Scaled(n, e + 1) / 10.0
  }

  ghost function Signed(neg: bool, r: real): real
  {
    if neg then -r else r
  }

  function Zeros(k: nat): (s: string)
    ensures |s| == k && forall i | 0 <= i < k :: s[i] == '0'
  {
    seq(k, _ => '0')
  }

  lemma {:induction false} ValConcat(a: string, b: string)
    ensures Val(a + b) == Val(a) * Tens(|b|) + Val(b)
    decreases |b|
  {
    if b == "" {
      assert a + b == a;
    } else {
      var b' := b[..|b| - 1];
      assert (a + b)[..|a + b| - 1] == a + b' && (a + b)[|a + b| - 1] == b[|b| - 1];
      ValConcat(a, b');
      LastDigit(a + b);
      LastDigit(b);
      hide Val;
      Regroup(Val(a), Tens(|b'|));
    }
  }

  lemma LastDigit(s: string)
    requires s != ""
    ensures Val(s) == 10 * Val(s[..|s| - 1]) + DigitValue(s[|s| - 1])
  {
  }

  lemma Regroup(x: nat, t: nat)
    ensures 10 * (x * t) == x * (10 * t)
  {
  }

  lemma {:induction false} ValZeros(k: nat)
    ensures Val(Zeros(k)) == 0
  {
    if k > 0 {
      assert Zeros(k)[..k - 1] == Zeros(k - 1);
      ValZeros(k - 1);
    }
  }

  lemma {:induction false} ScaledTen(n: nat, e: int)
    ensures Scaled(10 * n, e) == Scaled(n, e + 1)
    decreases if e < 0 then -e else e
  {
    if e > 0 {
      ScaledTen(n, e - 1);
    } else if e < 0 {
      ScaledTen(n, e + 1);
    }
  }

  /** Appending zeros scales by ten. */
  lemma {:induction false} ZerosAfter(s: string, m: nat, e: int)
    ensures Scaled(Val(s + Zeros(m)), e) == Scaled(Val(s), e + m)
    decreases m
  {
    var t := s + Zeros(m);
    if m == 0 {
      assert t == s;
    } else {
      assert t[..|t| - 1] == s + Zeros(m - 1);
      ScaledTen(Val(s + Zeros(m - 1)), e);
      ZerosAfter(s, m - 1, e + 1);
    }
  }

  lemma ZerosBefore(s: string, m: nat)
    ensures Val(Zeros(m) + s) == Val(s)
  {
    ValConcat(Zeros(m), s);
    ValZeros(m);
  }

  /** A digit string without a leading zero is bounded by its length on both sides. */
  lemma {:induction false} ValBounds(s: string)
    requires AllDigits(s)
    ensures Val(s) < Tens(|s|)
    ensures s != "" && s[0] != '0' ==> Val(s) >= Tens(|s| - 1)
    decreases |s|
  {
    if s != "" {
      ValBounds(s[..|s| - 1]);
    }
  }

  /** Digit strings of one length and value are equal. */
  lemma {:induction false} SameLengthUnique(a: string, b: string)
    requires AllDigits(a) && AllDigits(b) && |a| == |b| && Val(a) == Val(b)
    ensures a == b
    decreases |a|
  {
    if a != "" {
      var a', b' := a[..|a| - 1], b[..|b| - 1];
      assert AllDigits(a') && AllDigits(b');
      SameLengthUnique(a', b');
      assert a == a' + [a[|a| - 1]] && b == b' + [b[|b| - 1]];
    }
  }

  lemma {:induction false} TensMonotone(j: nat, k: nat)
    requires j <= k
    ensures Tens(j) <= Tens(k)
    decreases k
  {
    if j < k {
      TensMonotone(j, k - 1);
    }
  }

  lemma NotLonger(a: string, b: string)
    requires AllDigits(a) && AllDigits(b) && a != "" && b != "" && b[0] != '0' && Val(b) <= Val(a)
    ensures |b| <= |a|
  {
    if |a| < |b| {
      TensMonotone(|a|, |b| - 1);
      ValBounds(a);
      ValBounds(b);
    }
  }

  /** A value has one digit string without leading zeros. */
  lemma DigitsUnique(a: string, b: string)
    requires AllDigits(a) && AllDigits(b) && a != "" && b != "" && a[0] != '0' && b[0] != '0'
    requires Val(a) == Val(b)
    ensures a == b
  {
    NotLonger(a, b);
    NotLonger(b, a);
    SameLengthUnique(a, b);
  }

  // ----- digits with no zero at either end

  ghost predicate NoZeroEnds(s: string)
  {
    AllDigits(s) && s != "" && s[0] != '0' && s[|s| - 1] != '0'
  }

  lemma {:induction false} ScaledInjective(p: nat, q: nat, e: int)
    requires Scaled(p, e) == Scaled(q, e)
    ensures p == q
    decreases if e < 0 then -e else e
  {
    if e > 0 {
      ScaledInjective(p, q, e - 1);
    } else if e < 0 {
      ScaledInjective(p, q, e + 1);
    }
  }

  lemma {:induction false} ScaledPositive(p: nat, e: int)
    ensures Scaled(p, e) >= 0.0 && (p > 0 ==> Scaled(p, e) > 0.0)
    decreases if e < 0 then -e else e
  {
    if e > 0 {
      ScaledPositive(p, e - 1);
    } else if e < 0 {
      ScaledPositive(p, e + 1);
    }
  }

  /** Of two forms of one number without zero ends neither has the smaller exponent. */
  lemma SameExponent(s: string, e: int, t: string, f: int)
    requires NoZeroEnds(s) && NoZeroEnds(t) && Scaled(Val(s), e) == Scaled(Val(t), f)
    ensures e >= f
  {
    if e < f {
      ZerosAfter(t, f - e, e);
      var padded := t + Zeros(f - e);
      ScaledInjective(Val(s), Val(padded), e);
    }
  }

  lemma ShortestUnique(s: string, e: int, t: string, f: int)
    requires NoZeroEnds(s) && NoZeroEnds(t) && Scaled(Val(s), e) == Scaled(Val(t), f)
    ensures s == t && e == f
  {
    SameExponent(s, e, t, f);
    SameExponent(t, f, s, e);
    ScaledInjective(Val(s), Val(t), e);
    DigitsUnique(s, t);
  }

  lemma {:induction false} PositiveValue(s: string)
    requires AllDigits(s) && s != "" && s[0] != '0'
    ensures Val(s) > 0
  {
    ValBounds(s);
    TensMonotone(0, |s| - 1);
  }

  /** Zeros at the end go to the exponent. */
  lemma {:induction false} StripZeros(d: string) returns (s: string, z: nat)
    requires AllDigits(d) && d != "" && d[0] != '0'
    ensures NoZeroEnds(s) && d == s + Zeros(z)
    decreases |d|
  {
    if d[|d| - 1] != '0' {
      s, z := d, 0;
      assert d == s + Zeros(0);
    } else {
      var d' := d[..|d| - 1];
      assert d == d' + "0";
      s, z := StripZeros(d');
      assert Zeros(z) + "0" == Zeros(z + 1);
      assert d == s + Zeros(z + 1);
      z := z + 1;
    }
  }
}
