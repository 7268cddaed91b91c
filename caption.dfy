/** The "Ring spacing N/D\"" caption of target.cpp: the ring spacing
    rounded to 32nds of an inch and reduced by the gcd. */
module Caption {
  import opened Units
  import opened Euclid
  import Rings
  import Target

  /** The caption's denominator: 32nds of an inch. */
  const Den: nat := 32

  /** The printed fraction `num / den`. */
  datatype Fraction = Fraction(num: nat, den: nat)

  /** No divisor above one is shared by the numerator and denominator. */
  ghost predicate LowestTerms(f: Fraction)
  {
    forall d: nat :: d > 0 && Divides(d, f.num) && Divides(d, f.den) ==> d == 1
  }

  /** `num` of the caption: the spacing in inches times 32, plus one half,
      converted to int. For a non-negative spacing it is the nearest number
      of 32nds of an inch (halves rounding up). */
  function SpacingNumerator(rs: real): (num: int)
    ensures rs >= 0.0 ==> 0 <= num
    ensures rs >= 0.0 ==>
      num as real - 0.5 <= PointToInch(rs) * Den as real < num as real + 0.5
  {
    Trunc(PointToInch(rs) * 32.0 + 0.5)
  }

  /** The spacings whose caption would compute gcd(32, 32), on which the
      recursion of `gcd` never returns: those from 70.875 up to, but not
      including, 73.125 points. */
  lemma OneInchSpacings(rs: real)
    ensures SpacingNumerator(rs) == Den <==> 70.875 <= rs < 73.125
  {
    var x := PointToInch(rs) * 32.0 + 0.5;
    assert x == rs * 4.0 / 9.0 + 0.5;
  }

  /** Scaling a multiple and its divisor by the same positive factor keeps
      the one a multiple of the other. */
  lemma ScaleDivides(g: int, d: int, n: int)
    requires g > 0 && d > 0 && n % d == 0
    ensures g * d > 0 && (g * n) % (g * d) == 0
  {
    var s := n / d;
    assert n == d * s;
    assert g * n == (g * d) * s;
    MulBound(g, d);
    MulMod(g * d, s);
  }

  /** A common divisor d of n and m makes g * d a common divisor of g * n
      and g * m. */
  lemma ScaledCommonDivisor(g: nat, n: nat, m: nat, d: nat)
    requires g > 0 && d > 0 && n % d == 0 && m % d == 0
    ensures Divides(g * d, g * n) && Divides(g * d, g * m)
  {
    ScaleDivides(g, d, n);
    ScaleDivides(g, d, m);
  }

  /** Dividing both parts by their gcd gives a fraction in lowest terms,
      with the same value and a denominator that divides the original. */
  lemma ReduceByGcd(num: nat, den: nat, g: nat)
    requires den > 0 && IsGcd(g, num, den)
    ensures g > 0
    ensures var f := Fraction(num / g, den / g);
      f.den > 0 && Divides(f.den, den) && f.num * den == num * f.den && LowestTerms(f)
  {
    assert g != 0;
    var n, m := num / g, den / g;
    assert num == g * n && den == g * m;
    MulBound(g, m);
    MulMod(m, g);
    assert n * den == num * m by {
      assert n * (g * m) == (g * n) * m;
    }
    forall d: nat | d > 0 && Divides(d, n) && Divides(d, m)
      ensures d == 1
    {
      ScaledCommonDivisor(g, n, m, d);
      var gd: nat := g * d;
      assert Divides(gd, num) && Divides(gd, den);
      assert Divides(gd, g);
      DividesBound(gd, g);
      MulBound(g, d - 1);
    }
  }

  /** The caption's fraction as target.cpp computes it, with the C gcd;
      defined where that gcd returns, that is for every numerator but 32. */
  function CaptionFraction(num: nat): (f: Fraction)
    requires num != Den
    ensures f.den > 0 && Divides(f.den, Den)
    ensures f.num * Den == num * f.den
    ensures LowestTerms(f)
  {
    GcdAsWrittenIsGcd(num, Den);
    var g := GcdAsWritten(num, Den);
    ReduceByGcd(num, Den, g);
    Fraction(num / g, Den / g)
  }

  /** The caption with the corrected gcd: defined for every numerator, and
      one inch is printed as 1/1. */
  function CaptionFractionFixed(num: nat): (f: Fraction)
    ensures f.den > 0 && Divides(f.den, Den)
    ensures f.num * Den == num * f.den
    ensures LowestTerms(f)
  {
    GcdIsGreatestCommonDivisor(num, Den);
    var g := Gcd(num, Den);
    ReduceByGcd(num, Den, g);
    Fraction(num / g, Den / g)
  }

  /** The two captions agree wherever the C gcd returns. */
  lemma CaptionFixedAgrees(num: nat)
    requires num != Den
    ensures CaptionFraction(num) == CaptionFractionFixed(num)
  {
    GcdAsWrittenAgrees(num, Den);
  }

  /** A zero spacing prints 0/1, a one-inch spacing 1/1 once corrected. */
  lemma CaptionEnds()
    ensures CaptionFraction(0) == Fraction(0, 1)
    ensures CaptionFractionFixed(Den) == Fraction(1, 1)
  {
  }

  /** A spacing of 54 points is 24/32 of an inch, printed as 3/4. */
  lemma ThreeQuarterInch()
    ensures SpacingNumerator(54.0) == 24
    ensures CaptionFraction(24) == Fraction(3, 4)
  {
  }

  /** The default target has a spacing of 286/8.5 points, printed as 15/32. */
  lemma DefaultCaption()
    ensures SpacingNumerator(Rings.RingSpacing(Target.TargetRadius(Target.DefaultOptions) as real, 8)) == 15
    ensures CaptionFraction(15) == Fraction(15, 32)
  {
    Target.DefaultRadius();
  }

  /** A 9.5 by 11 inch page with 4 rings has a target radius of 322 points
      and a spacing of 322/4.5 points, which rounds to 32/32: its caption
      calls gcd(32, 32), which never returns. */
  lemma HangingConfiguration(fuel: nat)
    ensures Target.TargetRadius(Target.Options(9.5, 11.0, 0.25, 0.05, 4, 3, 2)) == 322
    ensures SpacingNumerator(Rings.RingSpacing(322.0, 4)) == Den
    ensures GcdRun(Den, Den, fuel) == Recurse(Den, Den)
  {
    GcdAsWrittenDiverges(Den, fuel);
  }
}
