/** IEEE 754 binary64: the exact value of a float, correct rounding, and the shortest digits that round back. */
module Binary64 {
  import opened Decimal

  /** 2^e. */
  ghost function Two(e: int): (r: real)
    ensures r > 0.0
    decreases if e < 0 then -e else e
  {
    if e == 0 then 1.0 else if e > 0 then 2.0 * Two(e - 1) else Two(e + 1) / 2.0
  }

  ghost function Times(a: real, b: real): (r: real)
    ensures a >= 0.0 && b > 0.0 ==> r >= 0.0
  {
    a * b
  }

  const HALF := 0x10_0000_0000_0000      // 2^52
  const LIMIT := 0x20_0000_0000_0000     // 2^53

  /** The magnitude mant * 2^exp of a finite float: 53 bits, normalized unless the exponent is the least. */
  datatype Magnitude = Magnitude(mant: nat, exp: int) {
    ghost predicate Valid() {
      mant < LIMIT && -1074 <= exp <= 971 && (mant >= HALF || exp == -1074)
    }

    ghost function Value(): (r: real)
      ensures r >= 0.0
    {
      Times(mant as real, Two(exp))
    }
  }

  ghost function Dist(a: real, b: real): (r: real)
    ensures r >= 0.0
  {
    if a < b then b - a else a - b
  }

  /** x is nearer to r than y, or as near with the even mantissa. */
  ghost predicate Nearer(r: real, x: Magnitude, y: Magnitude) {
    || Dist(r, x.Value()) < Dist(r, y.Value())
    || (Dist(r, x.Value()) == Dist(r, y.Value()) && x.mant % 2 == 0 && y.mant % 2 == 1)
  }

  /** Rounding to nearest, ties to even, below the numbers that round to infinity. */
  ghost predicate RoundsTo(r: real, x: Magnitude) {
    && x.Valid()
    && r < Two(1024) - Two(970)
    && forall y: Magnitude | y.Valid() && y != x :: Nearer(r, x, y)
  }

  lemma RoundsToOne(r: real, x: Magnitude, y: Magnitude)
    requires RoundsTo(r, x) && RoundsTo(r, y)
    ensures x == y
  {
  }

  /** digits * 10^exp with no zero digit at either end. */
  datatype Digits = Digits(s: string, exp: int) {
    ghost function Value(): real {
      Scaled(Val(s), exp)
    }
  }

  type ShortDigits = d: Digits | NoZeroEnds(d.s) witness Digits("1", 0)

  /** How repr writes a magnitude that is not zero. */
  type Repr = Magnitude -> ShortDigits

  /** The digits round back to m, none that do are fewer, and none as few are closer. */
  ghost predicate IsShortest(m: Magnitude, d: ShortDigits) {
    && RoundsTo(d.Value(), m)
    && forall t: ShortDigits | RoundsTo(t.Value(), m) ::
         && |d.s| <= |t.s|
         && (|d.s| == |t.s| ==> Dist(d.Value(), m.Value()) <= Dist(t.Value(), m.Value()))
  }

  ghost predicate RoundTrips(repr: Repr) {
    forall m: Magnitude | m.Valid() && m.mant > 0 :: IsShortest(m, repr(m))
  }

  lemma AtMostAsLong(m: Magnitude, d: ShortDigits, t: ShortDigits)
    requires IsShortest(m, d) && RoundsTo(t.Value(), m)
    ensures RoundsTo(d.Value(), m) && |d.s| <= |t.s|
    ensures |d.s| == |t.s| ==> Dist(d.Value(), m.Value()) <= Dist(t.Value(), m.Value())
  {
  }

  /** Different floats are written with different digits. */
  lemma ReprInjective(repr: Repr, x: Magnitude, y: Magnitude)
    requires RoundTrips(repr) && x.Valid() && y.Valid() && x.mant > 0 && y.mant > 0
    requires repr(x).Value() == repr(y).Value()
    ensures x == y
  {
    assert IsShortest(x, repr(x)) && IsShortest(y, repr(y));
    RoundsToOne(repr(x).Value(), x, y);
  }

  // ----- powers of two

  lemma TwoStep(e: int)
    ensures Two(e + 1) == 2.0 * Two(e)
  {
  }

  lemma {:induction false} TwoAdd(e: int, k: nat)
    ensures Two(e + k) == Two(e) * Two(k)
  {
    hide Two;
    if k == 0 {
      TwoZero();
    } else {
      TwoAdd(e, k - 1);
      TwoStep(e + (k - 1));
      TwoStep(k - 1);
      assert e + (k - 1) + 1 == e + k;
      Doubled(Two(e), Two(k - 1), Two(k), Two(e + (k - 1)), Two(e + k));
    }
  }

  lemma TwoZero()
    ensures Two(0) == 1.0
  {
  }

  lemma Doubled(a: real, b: real, b2: real, c: real, c2: real)
    requires c == a * b && b2 == 2.0 * b && c2 == 2.0 * c
    ensures c2 == a * b2
  {
    assert a * (2.0 * b) == 2.0 * (a * b);
  }

  lemma {:induction false} TwoGrows(e: int, f: int)
    requires e <= f
    ensures Two(e) <= Two(f)
    decreases f - e
  {
    if e < f {
      hide Two;
      TwoStep(f - 1);
      TwoGrows(e, f - 1);
    }
  }

  lemma ScaleUp(a: real, b: real, c: real)
    requires a <= b && c > 0.0
    ensures a * c <= b * c
    ensures a < b ==> a * c < b * c
  {
  }

  lemma PowersOfTwo()
    ensures Two(7) == 128.0 && Two(8) == 256.0 && Two(52) == TWO52 && Two(53) == TWO53
    ensures Two(60) == 1152921504606846976.0
  {
    assert Two(7) == 128.0 && Two(8) == 256.0 && Two(12) == 4096.0;
    TwelveMore(12, 4096.0);
    TwelveMore(24, 16777216.0);
    TwelveMore(36, 68719476736.0);
    TwelveMore(48, 281474976710656.0);
    FourMore(48, 281474976710656.0);
    FourMore(52, 4503599627370496.0);
  }

  lemma FourMore(e: int, r: real)
    requires Two(e) == r
    ensures Two(e + 1) == 2.0 * r && Two(e + 2) == 4.0 * r && Two(e + 4) == 16.0 * r
  {
    hide Two;
    TwoStep(e);
    TwoStep(e + 1);
    TwoStep(e + 2);
    TwoStep(e + 3);
  }

  lemma TwelveMore(e: int, r: real)
    requires Two(e) == r
    ensures Two(e + 12) == 4096.0 * r
  {
    hide Two;
    FourMore(e, r);
    FourMore(e + 4, 16.0 * r);
    FourMore(e + 8, 256.0 * r);
  }

  // ----- one magnitude for each value

  lemma Product(a: real, b: real, c: real, d: real)
    requires 0.0 <= a <= b && 0.0 < c <= d
    ensures a * c <= b * d
  {
    ScaleUp(a, b, c);
    ScaleUp(c, d, b + 1.0);
    assert b * d - b * c == (d * (b + 1.0) - c * (b + 1.0)) - (d - c);
    assert b * (d - c) >= 0.0;
  }

  const TWO52 := 4503599627370496.0
  const TWO53 := 9007199254740992.0

  lemma TimesGrows(a: real, b: real, c: real)
    requires a <= b && c > 0.0
    ensures Times(a, c) <= Times(b, c) && (a < b ==> Times(a, c) < Times(b, c))
  {
    ScaleUp(a, b, c);
  }

  lemma ValueRange(x: Magnitude)
    requires x.Valid()
    ensures x.Value() < Times(TWO53, Two(x.exp))
    ensures x.exp > -1074 ==> x.Value() >= Times(TWO52, Two(x.exp))
  {
    hide Two, Times;
    TimesGrows(x.mant as real, TWO53, Two(x.exp));
    if x.exp > -1074 {
      TimesGrows(TWO52, x.mant as real, Two(x.exp));
    }
  }

  /** The larger exponent means the larger value. */
  lemma LargerExponent(x: Magnitude, y: Magnitude)
    requires x.Valid() && y.Valid() && x.exp < y.exp
    ensures x.Value() < Times(TWO53, Two(x.exp)) <= y.Value()
  {
    hide Two, Times, Magnitude.Value;
    ValueRange(x);
    ValueRange(y);
    TwoStep(x.exp);
    TwoGrows(x.exp + 1, y.exp);
    HalfOfDouble(Two(x.exp), Two(y.exp));
  }

  lemma HalfOfDouble(a: real, b: real)
    requires b >= 2.0 * a
    ensures Times(TWO52, b) >= Times(TWO53, a)
  {
  }

  lemma ValueUnique(x: Magnitude, y: Magnitude)
    requires x.Valid() && y.Valid() && x.Value() == y.Value()
    ensures x == y
  {
    hide Two, Times;
    if x.exp < y.exp {
      LargerExponent(x, y);
    } else if y.exp < x.exp {
      LargerExponent(y, x);
    } else if x.mant < y.mant {
      TimesGrows(x.mant as real, y.mant as real, Two(x.exp));
    } else if y.mant < x.mant {
      TimesGrows(y.mant as real, x.mant as real, Two(x.exp));
    }
  }

  lemma BelowOverflow(x: Magnitude)
    requires x.Valid()
    ensures x.Value() < Two(1024) - Two(970)
  {
    hide Two;
    TwoGrows(x.exp, 971);
    Product(x.mant as real, TWO53 - 1.0, Two(x.exp), Two(971));
    PowersOfTwo();
    TwoAdd(971, 53);
    TwoStep(970);
    OneLess(TWO53, Two(971));
  }

  lemma OneLess(a: real, b: real)
    ensures (a - 1.0) * b == b * a - b
  {
  }

  /** A float's own value rounds to it. */
  lemma OwnValue(x: Magnitude)
    requires x.Valid()
    ensures RoundsTo(x.Value(), x)
  {
    hide Two, Magnitude.Value;
    BelowOverflow(x);
    forall y: Magnitude | y.Valid() && y != x ensures Nearer(x.Value(), x, y) {
      if y.Value() == x.Value() {
        ValueUnique(x, y);
      }
    }
  }

  // ----- integers up to 2^53

  /** Every integer up to 2^53 is a float. */
  lemma IntegerIsFloat(n: nat) returns (x: Magnitude)
    requires n <= LIMIT
    ensures x.Valid() && x.Value() == n as real
  {
    if n == LIMIT {
      x := Magnitude(HALF, 1);
    } else if n == 0 {
      x := Magnitude(0, -1074);
    } else {
      x := Normalized(n, 0);
    }
  }

  lemma {:induction false} Normalized(mant: nat, exp: int) returns (x: Magnitude)
    requires 0 < mant < LIMIT && -1074 <= exp <= 0
    ensures x.Valid() && x.Value() == mant as real * Two(exp)
    decreases exp + 1074
  {
    x := Magnitude(mant, exp);
    if mant < HALF && exp > -1074 {
      TwoStep(exp - 1);
      x := Normalized(2 * mant, exp - 1);
    }
  }

  /** Any float that a number rounds to is at least as near as each other float. */
  lemma NoneNearer(r: real, x: Magnitude, y: Magnitude)
    requires RoundsTo(r, x) && y.Valid()
    ensures Dist(r, x.Value()) <= Dist(r, y.Value())
  {
    assert y == x || Nearer(r, x, y);
  }

  lemma {:induction false} ScaledSize(p: nat, e: int)
    ensures e < 0 ==> 10.0 * Scaled(p, e) <= p as real
    ensures e >= 0 ==> Scaled(p, e) >= p as real
    decreases if e < 0 then -e else e
  {
    ScaledPositive(p, e);
    if e > 0 {
      ScaledSize(p, e - 1);
    } else if e < -1 {
      ScaledSize(p, e + 1);
    }
  }

  /** Digits with an exponent of zero or more denote an integer. */
  lemma WholeNumber(d: ShortDigits) returns (k: nat)
    requires d.exp >= 0
    ensures d.Value() == k as real && k >= Val(d.s) && (d.exp > 0 ==> k % 10 == 0)
  {
    var padded := d.s + Zeros(d.exp);
    k := Val(padded);
    ZerosAfter(d.s, d.exp, 0);
    ScaledSize(Val(d.s), d.exp);
    NoExponent(k);
    hide Val, Scaled;
    if d.exp > 0 {
      assert padded[|padded| - 1] == '0';
      LastDigit(padded);
    }
  }

  lemma NoExponent(k: nat)
    ensures Scaled(k, 0) == k as real
  {
  }

  /** A fraction with fewer digits than an integer is less than a tenth of it, so zero is nearer. */
  lemma FractionMisses(m: Magnitude, c: ShortDigits, t: ShortDigits)
    requires m.Valid() && c.exp >= 0 && m.Value() == c.Value() && |t.s| < |c.s| && t.exp < 0
    ensures !RoundsTo(t.Value(), m)
  {
    ScaledSize(Val(t.s), t.exp);
    ScaledSize(Val(c.s), c.exp);
    ScaledPositive(Val(t.s), t.exp);
    ValBounds(t.s);
    ValBounds(c.s);
    TensMonotone(|t.s|, |c.s| - 1);
    PositiveValue(c.s);
    var zero := Magnitude(0, -1074);
    assert zero.Value() == 0.0;
    if RoundsTo(t.Value(), m) {
      NoneNearer(t.Value(), m, zero);
    }
  }

  /** An integer that rounds to an integer float up to 2^53 is that float, or 2^53 + 1. */
  lemma IntegerRounds(k: nat, m: Magnitude, n: nat)
    requires m.Value() == n as real && n <= LIMIT && RoundsTo(k as real, m)
    ensures k == n || (n == LIMIT && k == LIMIT + 1)
  {
    hide Two;
    if k <= LIMIT {
      var y := IntegerIsFloat(k);
      NoneNearer(k as real, m, y);
    } else {
      TwoStep(0);
      TwoZero();
      var top, next := Magnitude(HALF, 1), Magnitude(HALF + 1, 1);
      assert 0 + 1 == 1 && top.Value() == TWO53 && next.Value() == TWO53 + 2.0;
      NoneNearer(k as real, m, top);
      NoneNearer(k as real, m, next);
    }
  }

  lemma FewerDigitsMiss(m: Magnitude, n: nat, c: ShortDigits, t: ShortDigits)
    requires m.Valid() && n <= LIMIT && m.Value() == c.Value() == n as real && c.exp >= 0 && |t.s| < |c.s|
    ensures !RoundsTo(t.Value(), m)
  {
    if t.exp < 0 {
      FractionMisses(m, c, t);
    } else if RoundsTo(t.Value(), m) {
      var k := WholeNumber(t);
      IntegerRounds(k, m, n);
      if k == n {
        ShortestUnique(t.s, t.exp, c.s, c.exp);
      } else {
        ScaledSize(Val(c.s), c.exp);
        assert t.exp == 0 && Val(t.s) == k;
        NotLonger(t.s, c.s);
      }
    }
  }

  /** An integer's digits without the zeros at the end. */
  lemma DigitsOfInteger(n: nat) returns (c: ShortDigits)
    requires n > 0
    ensures c.Value() == n as real && c.exp >= 0 && DigitsOf(n) == c.s + Zeros(c.exp)
  {
    var s, z := StripZeros(DigitsOf(n));
    c := Digits(s, z);
    ZerosAfter(s, z, 0);
  }

  /** Up to 2^53 the shortest digits of an integer float denote exactly that integer. */
  lemma SafeInteger(m: Magnitude, d: ShortDigits, n: nat)
    requires 0 < n <= LIMIT && m.Value() == n as real && IsShortest(m, d)
    ensures d.Value() == n as real
  {
    hide Two, Magnitude.Value, Digits.Value;
    var c := DigitsOfInteger(n);
    OwnValue(m);
    AtMostAsLong(m, d, c);
    if |d.s| < |c.s| {
      FewerDigitsMiss(m, n, c, d);
    }
  }

  // ----- beyond: 2^60

  const TWO60 := 1152921504606846976
  const SHORT60 := 1152921504606847      // the digits that repr writes for 2^60, in front of three zeros

  function Magnitude60(): Magnitude {
    Magnitude(HALF, 8)
  }

  lemma Value60()
    ensures Magnitude60().Valid() && Magnitude60().Value() == TWO60 as real
  {
    PowersOfTwo();
  }

  lemma Neighbours60(y: Magnitude)
    requires y.Valid() && y != Magnitude60()
    ensures y.Value() <= (TWO60 - 128) as real || y.Value() >= (TWO60 + 256) as real
  {
    hide Two;
    PowersOfTwo();
    var x := Magnitude60();
    if y.exp > 8 {
      LargerExponent(x, y);
    } else if y.exp < 7 {
      LargerExponent(y, Magnitude(HALF, 7));
    }
  }

  lemma Rounds60(r: real)
    requires (TWO60 - 64) as real < r < (TWO60 + 128) as real
    ensures RoundsTo(r, Magnitude60())
  {
    hide Two, Magnitude.Value;
    Value60();
    BelowOverflow(Magnitude(HALF, 9));
    LargerExponent(Magnitude60(), Magnitude(HALF, 9));
    Neighbours60(Magnitude(HALF, 9));
    forall y: Magnitude | y.Valid() && y != Magnitude60() ensures Nearer(r, Magnitude60(), y) {
      Neighbours60(y);
    }
  }

  lemma Near60(r: real)
    requires RoundsTo(r, Magnitude60())
    ensures (TWO60 - 64) as real <= r <= (TWO60 + 128) as real
  {
    PowersOfTwo();
    hide Two;
    var below, above := Magnitude(LIMIT - 1, 7), Magnitude(HALF + 1, 8);
    assert below.Value() == (TWO60 - 128) as real && above.Value() == (TWO60 + 256) as real;
    Value60();
    NoneNearer(r, Magnitude60(), below);
    NoneNearer(r, Magnitude60(), above);
  }

  lemma TenTo16()
    ensures Tens(16) == 10000000000000000
  {
    assert Tens(4) == 10000;
    assert Tens(8) == 10000 * Tens(4);
    assert Tens(12) == 10000 * Tens(8);
    assert Tens(16) == 10000 * Tens(12);
  }

  lemma ThreeZeros(n: nat)
    ensures Scaled(n, 3) == (1000 * n) as real
  {
  }

  lemma LastDigitKept(n: nat)
    requires n % 10 != 0
    ensures NoZeroEnds(DigitsOf(n))
  {
  }

  lemma ShortForm60() returns (t: ShortDigits)
    ensures t.Value() == (1000 * SHORT60) as real && |t.s| <= 16 && RoundsTo(t.Value(), Magnitude60())
  {
    hide Two, Tens, Val, DigitsOf, Scaled;
    LastDigitKept(SHORT60);
    var s := DigitsOf(SHORT60);
    t := Digits(s, 3);
    ThreeZeros(SHORT60);
    ValBounds(s);
    TenTo16();
    if |s| > 16 {
      TensMonotone(16, |s| - 1);
    }
    Rounds60(t.Value());
  }

  /** repr writes 2^60 with sixteen digits, which denote another integer. */
  lemma Digits60(d: ShortDigits)
    requires IsShortest(Magnitude60(), d)
    ensures d.Value() == (1000 * SHORT60) as real
  {
    hide Two, Magnitude.Value, IsShortest, Tens, Val, Scaled, RoundsTo;
    var t := ShortForm60();
    AtMostAsLong(Magnitude60(), d, t);
    Near60(d.Value());
    ValBounds(d.s);
    TensMonotone(|d.s|, 16);
    TenTo16();
    LargeExponent(Val(d.s), d.exp);
    var k := Thousands(d);
  }

  lemma LargeExponent(p: nat, e: int)
    requires p < 10000000000000000 && Scaled(p, e) >= 1000000000000000000.0
    ensures e >= 3
  {
    if e < 3 {
      ScaledGrows(p, e, 2);
    }
  }

  lemma {:induction false} ScaledGrows(p: nat, e: int, f: int)
    requires e <= f
    ensures Scaled(p, e) <= Scaled(p, f)
    decreases f - e
  {
    if e < f {
      ScaledPositive(p, f - 1);
      ScaledGrows(p, e, f - 1);
    }
  }

  lemma Thousands(d: ShortDigits) returns (k: nat)
    requires d.exp >= 3
    ensures d.Value() == (1000 * k) as real
  {
    k := Val(d.s + Zeros(d.exp - 3));
    ZerosAfter(d.s, d.exp - 3, 3);
  }
}
