/** When an int and a float share their canonical text: ints are written digit by digit, floats by their shortest digits. */
module CanonicalNumbers {
  import opened Prelude
  import opened Binary64
  import opened Decimal
  import opened Json
  import opened Canonical
  import opened ReadBack

  function Size(n: int): nat
  {
    if n < 0 then -n else n
  }

  lemma ExponentMark(s: string, e: int)
    requires s != "" && e + |s| > 21
    ensures 'e' in Es6Body(s, e)
  {
    var mant := [s[0]] + (if |s| > 1 then "." + s[1..] else "");
    assert Es6Body(s, e)[|mant|] == 'e';
  }

  lemma DigitsHaveNoE(n: int)
    ensures 'e' !in IntText(n)
  {
  }

  /** Digits that denote an integer are written like the integer exactly below 10^21. */
  lemma WholeBody(n: int, d: ShortDigits)
    requires n != 0 && d.Value() == Size(n) as real
    ensures SignText(n < 0) + Es6Body(d.s, d.exp) == IntText(n) <==> Size(n) < Tens(21)
  {
    var digits := DigitsOf(Size(n));
    var c := DigitsOfInteger(Size(n));
    ShortestUnique(c.s, c.exp, d.s, d.exp);
    ValBounds(digits);
    if |digits| > 21 {
      TensMonotone(21, |digits| - 1);
      ExponentMark(d.s, d.exp);
      DigitsHaveNoE(n);
    } else {
      TensMonotone(|digits|, 21);
    }
  }

  lemma PositiveDigits(d: ShortDigits)
    ensures d.Value() > 0.0
  {
    PositiveValue(d.s);
    ScaledPositive(Val(d.s), d.exp);
  }

  /** An int and a float share their text exactly if the float's digits denote the int and the int is below 10^21. */
  lemma IntFloatText(repr: Repr, n: int, x: Double)
    requires x.Valid() && !x.NaN? && !x.Infinite?
    ensures Text(repr, Int(n)) == Text(repr, Float(x)) <==> DecimalOf(repr, x) == n as real && Size(n) < Tens(21)
  {
    hide Tens;
    if Text(repr, Int(n)) == Text(repr, Float(x)) {
      TextDeterminesReading(repr, Int(n), Float(x));
    }
    if x.Zero? {
      assert IntText(0) == "0";
      TensPositive(21);
    } else {
      PositiveDigits(repr(x.size));
      if DecimalOf(repr, x) == n as real {
        WholeBody(n, repr(x.size));
      }
    }
  }

  lemma TensPositive(k: nat)
    ensures Tens(k) > 0
  {
    TensMonotone(0, k);
  }

  /** An int and the float equal to it are written alike exactly if the float's digits denote it and it is below 10^21. */
  lemma IntFloatAgree(repr: Repr, n: int, x: Double)
    requires x.Valid() && !x.NaN? && !x.Infinite? && NumberOf(x) == n as real
    ensures Text(repr, Int(n)) == Text(repr, Float(x)) <==> DecimalOf(repr, x) == NumberOf(x) && Size(n) < Tens(21)
  {
    IntFloatText(repr, n, x);
  }

  /** The float nearest to n is n exactly if it is written like n. */
  ghost predicate Unambiguous(repr: Repr, n: int)
  {
    forall m: Magnitude | m.mant > 0 && RoundsTo(Size(n) as real, m) ::
      m.Value() == Size(n) as real <==> repr(m).Value() == Size(n) as real && Size(n) < Tens(21)
  }

  lemma PositiveSize(m: Magnitude)
    requires m.mant > 0
    ensures m.Value() > 0.0
  {
    hide Two;
    ProductPositive(m.mant as real, Two(m.exp));
  }

  lemma ProductPositive(a: real, b: real)
    requires a > 0.0 && b > 0.0
    ensures a * b > 0.0
  {
  }

  /** That is the exact condition under which n and each float share their text if and only if they are equal. */
  lemma UnambiguousIff(repr: Repr, n: int)
    requires RoundTrips(repr)
    ensures Unambiguous(repr, n) <==>
              forall x: Double | x.Valid() && !x.NaN? && !x.Infinite? ::
                Text(repr, Int(n)) == Text(repr, Float(x)) <==> NumberOf(x) == n as real
  {
    hide Text, RoundsTo, Tens, Magnitude.Value, Digits.Value;
    if Unambiguous(repr, n) {
      forall x: Double | x.Valid() && !x.NaN? && !x.Infinite?
        ensures Text(repr, Int(n)) == Text(repr, Float(x)) <==> NumberOf(x) == n as real
      {
        UnambiguousFloat(repr, n, x);
      }
    } else {
      var m: Magnitude :| m.mant > 0 && RoundsTo(Size(n) as real, m)
        && !(m.Value() == Size(n) as real <==> repr(m).Value() == Size(n) as real && Size(n) < Tens(21));
      var x := Finite(n < 0, m);
      RoundsToValid(Size(n) as real, m);
      IntFloatText(repr, n, x);
    }
  }

  lemma RoundsToValid(r: real, m: Magnitude)
    requires RoundsTo(r, m)
    ensures m.Valid()
  {
  }

  lemma UnambiguousFloat(repr: Repr, n: int, x: Double)
    requires RoundTrips(repr) && Unambiguous(repr, n) && x.Valid() && !x.NaN? && !x.Infinite?
    ensures Text(repr, Int(n)) == Text(repr, Float(x)) <==> NumberOf(x) == n as real
  {
    hide Text, Tens, Two;
    IntFloatText(repr, n, x);
    if x.Zero? {
      TensPositive(21);
    } else {
      assert IsShortest(x.size, repr(x.size));
      OwnValue(x.size);
      PositiveSize(x.size);
      PositiveDigits(repr(x.size));
    }
  }

  /** Every int up to 2^53 is unambiguous. */
  lemma SafeIntsAreUnambiguous(repr: Repr, n: int)
    requires RoundTrips(repr) && Size(n) <= LIMIT
    ensures Unambiguous(repr, n)
  {
    hide RoundsTo, Magnitude.Value, Digits.Value, IsShortest, Tens;
    LimitBelowTens();
    forall m: Magnitude | m.mant > 0 && RoundsTo(Size(n) as real, m)
      ensures m.Value() == Size(n) as real && repr(m).Value() == Size(n) as real && Size(n) < Tens(21)
    {
      RoundsToValid(Size(n) as real, m);
      PositiveSize(m);
      var y := IntegerIsFloat(Size(n));
      NoneNearer(Size(n) as real, m, y);
      SafeInteger(m, repr(m), Size(n));
    }
  }

  lemma LimitBelowTens()
    ensures LIMIT < Tens(21)
  {
    TenTo16();
    TensMonotone(16, 21);
  }

  /**
    Beyond 2^53 both directions fail: 2^60 as an int and as a float are equal and are written differently, and the
    float shares its text with an int that is not equal to it.
   */
  lemma TwoTo60(repr: Repr)
    requires RoundTrips(repr)
    ensures var x := Finite(false, Magnitude60());
      && x.Valid() && NumberOf(x) == TWO60 as real
      && Text(repr, Int(TWO60)) != Text(repr, Float(x))
      && Text(repr, Int(1000 * SHORT60)) == Text(repr, Float(x)) && 1000 * SHORT60 != TWO60
      && !Unambiguous(repr, TWO60) && !Unambiguous(repr, 1000 * SHORT60)
  {
    hide Text, Tens, Two, Magnitude.Value, Digits.Value;
    var x := Finite(false, Magnitude60());
    Value60();
    assert IsShortest(Magnitude60(), repr(Magnitude60()));
    Digits60(repr(Magnitude60()));
    TenTo16();
    TensStep(16);
    TensStep(17);
    TensStep(18);
    TensMonotone(19, 21);
    IntFloatText(repr, TWO60, x);
    IntFloatText(repr, 1000 * SHORT60, x);
    UnambiguousIff(repr, TWO60);
    UnambiguousIff(repr, 1000 * SHORT60);
  }

  lemma TensStep(k: nat)
    ensures Tens(k + 1) == 10 * Tens(k)
  {
  }


  // ----- the layout of a float

  lemma {:induction false} ScaledOrder(p: nat, q: nat, e: int)
    requires p <= q
    ensures Scaled(p, e) <= Scaled(q, e) && (p < q ==> Scaled(p, e) < Scaled(q, e))
    decreases if e < 0 then -e else e
  {
    if e > 0 {
      ScaledOrder(p, q, e - 1);
    } else if e < 0 {
      ScaledOrder(p, q, e + 1);
    }
  }

  lemma {:induction false} PowerOfTen(k: nat, e: int)
    ensures Scaled(Tens(k), e) == Scaled(1, e + k)
  {
    if k > 0 {
      ScaledTen(Tens(k - 1), e);
      PowerOfTen(k - 1, e + 1);
    }
  }

  /** Digits in front of a point: the number lies between two powers of ten. */
  lemma BetweenPowers(d: ShortDigits)
    ensures var n := d.exp + |d.s|; Scaled(1, n - 1) <= d.Value() < Scaled(1, n)
  {
    ValBounds(d.s);
    ScaledOrder(Val(d.s), Tens(|d.s|), d.exp);
    ScaledOrder(Tens(|d.s| - 1), Val(d.s), d.exp);
    PowerOfTen(|d.s|, d.exp);
    PowerOfTen(|d.s| - 1, d.exp);
  }

  lemma ThresholdPowers()
    ensures Scaled(1, 21) == 1000000000000000000000.0 && Scaled(1, -6) == 0.000001
  {
    assert Scaled(1, 7) == 10000000.0;
    PowerOfTen(7, 7);
    PowerOfTen(14, 7);
    TensSteps();
  }

  lemma TensSteps()
    ensures Tens(7) == 10000000 && Tens(14) == 100000000000000
    ensures Scaled(100000000000000, 7) == 1000000000000000000000.0
  {
    assert Tens(7) == 10000000;
    assert Tens(14) == 10000000 * Tens(7);
  }

  /**
    A positive float is written with an exponent exactly below 10^-6 and from 10^21 on; then one digit that is not zero
    stands in front of the point. No digit too many: no zero leads a longer integer part or ends a fraction.
   */
  lemma NumberForm(d: ShortDigits) returns (whole: string, fraction: string, e: Option<int>)
    ensures Es6Body(d.s, d.exp) == Layout(whole, fraction, e) && AllDigits(whole) && AllDigits(fraction)
    ensures e.Some? <==> d.Value() < 0.000001 || d.Value() >= 1000000000000000000000.0
    ensures whole != "" && (whole[0] == '0' ==> whole == "0" && e.None?) && (e.Some? ==> |whole| == 1)
    ensures fraction != "" ==> fraction[|fraction| - 1] != '0'
  {
    var shape := ShapeOf(d.s, d.exp);
    whole, fraction, e := shape.0, shape.1, shape.2;
    Es6Shape(d.s, d.exp);
    hide Es6Body, Layout, Scaled, Digits.Value, ShapeOf, AllDigits;
    ExponentAt(d);
    ShapeIsTight(d.s, d.exp);
  }

  lemma ShapeIsTight(s: string, exp: int)
    requires AllDigits(s) && s != "" && s[0] != '0' && s[|s| - 1] != '0'
    ensures var (whole, fraction, e) := ShapeOf(s, exp);
      && (e.Some? <==> exp + |s| > 21 || exp + |s| <= -6)
      && (whole[0] == '0' ==> whole == "0" && e.None?) && (e.Some? ==> |whole| == 1)
      && (fraction != "" ==> fraction[|fraction| - 1] != '0')
  {
    hide AllDigits;
    var (whole, fraction, e) := ShapeOf(s, exp);
    var k, n := |s|, exp + |s|;
    if k <= n <= 21 {
      assert whole[0] == s[0];
    } else if 0 < n <= 21 {
      assert whole[0] == s[0] && fraction[|fraction| - 1] == s[k - 1];
    } else if -6 < n <= 0 {
      assert fraction[|fraction| - 1] == s[k - 1];
    } else {
      assert fraction != "" ==> fraction[|fraction| - 1] == s[k - 1];
    }
  }

  lemma ExponentAt(d: ShortDigits)
    ensures var n := d.exp + |d.s|; n > 21 || n <= -6 <==> d.Value() < 0.000001 || d.Value() >= 1000000000000000000000.0
  {
    hide Scaled, Digits.Value;
    BetweenPowers(d);
    ThresholdPowers();
    var n := d.exp + |d.s|;
    if n <= 21 {
      ScaledGrows(1, n, 21);
    } else {
      ScaledGrows(1, 21, n - 1);
    }
    if n <= -6 {
      ScaledGrows(1, n, -6);
    } else {
      ScaledGrows(1, -6, n - 1);
    }
  }
}
