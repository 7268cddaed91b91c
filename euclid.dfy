/** The recursive `gcd` of target.cpp, as written and corrected.

    As written, `gcd(a, b)` is `a == 0 ? b : a < b ? gcd(a, b % a) : gcd(b, a)`.
    On `a == b > 0` the last branch calls `gcd(b, a)`, which is the same call,
    so the recursion never reaches its base case. The model therefore gives
    the C recursion one step at a time (GcdStep, GcdRun), proves where it
    terminates and where it does not, and defines the corrected Gcd that the
    rest of the model relies on. Only non-negative arguments are modelled. */
module Euclid {

  /** d divides n (a zero divisor divides only zero). */
  predicate Divides(d: nat, n: nat)
  {
    if d == 0 then n == 0 else n % d == 0
  }

  /** g is a greatest common divisor of a and b: a common divisor that every
      positive common divisor divides. */
  ghost predicate IsGcd(g: nat, a: nat, b: nat)
  {
    Divides(g, a) && Divides(g, b) &&
    forall d: nat :: d > 0 && Divides(d, a) && Divides(d, b) ==> Divides(d, g)
  }

  /** What one evaluation of gcd's body does: return a value, or recurse. */
  datatype GcdCall = Return(value: nat) | Recurse(a: nat, b: nat)

  function GcdStep(a: nat, b: nat): GcdCall
  {
    if a == 0 then Return(b)
    else if a < b then Recurse(a, b % a)
    else Recurse(b, a)
  }

  /** The C recursion unfolded at most `fuel` times; `Recurse` means that it
      has not returned yet. */
  function GcdRun(a: nat, b: nat, fuel: nat): GcdCall
    decreases fuel
  {
    if fuel == 0 then Recurse(a, b)
    else match GcdStep(a, b)
      case Return(v) => Return(v)
      case Recurse(x, y) => GcdRun(x, y, fuel - 1)
  }

  /** An upper bound on the number of steps gcd takes where it terminates. */
  function GcdMeasure(a: nat, b: nat): nat
  {
    a + b + (if a < b then 0 else 1)
  }

  /** The C gcd, on the arguments where it terminates. */
  function GcdAsWritten(a: nat, b: nat): nat
    requires a == 0 || a != b
    decreases GcdMeasure(a, b)
  {
    match GcdStep(a, b)
    case Return(v) => v
    case Recurse(x, y) => GcdAsWritten(x, y)
  }

  /** gcd(a, a) with a > 0 recurses into itself: however many steps are
      taken, the computation is back at gcd(a, a) and has not returned. */
  lemma {:induction false} GcdAsWrittenDiverges(a: nat, fuel: nat)
    requires a > 0
    ensures GcdRun(a, a, fuel) == Recurse(a, a)
  {
    if fuel > 0 {
      assert GcdStep(a, a) == Recurse(a, a);
      GcdAsWrittenDiverges(a, fuel - 1);
    }
  }

  /** Everywhere else the recursion returns GcdAsWritten(a, b) within
      GcdMeasure(a, b) + 1 steps. */
  lemma {:induction false} GcdAsWrittenReturns(a: nat, b: nat, fuel: nat)
    requires a == 0 || a != b
    requires fuel > GcdMeasure(a, b)
    ensures GcdRun(a, b, fuel) == Return(GcdAsWritten(a, b))
    decreases GcdMeasure(a, b)
  {
    match GcdStep(a, b)
    case Return(v) =>
    case Recurse(x, y) => GcdAsWrittenReturns(x, y, fuel - 1);
  }

  /** The corrected gcd: `a <= b` instead of `a < b`, so that gcd(a, a)
      reaches gcd(a, 0) and then gcd(0, a) == a. */
  function Gcd(a: nat, b: nat): nat
    decreases GcdMeasure(a, b)
  {
    if a == 0 then b
    else if a <= b then Gcd(a, b % a)
    else Gcd(b, a)
  }

  /** Gcd agrees with the C gcd wherever the latter terminates. */
  lemma {:induction false} GcdAsWrittenAgrees(a: nat, b: nat)
    requires a == 0 || a != b
    ensures GcdAsWritten(a, b) == Gcd(a, b)
    decreases GcdMeasure(a, b)
  {
    if a != 0 {
      if a < b {
        GcdAsWrittenAgrees(a, b % a);
      } else {
        GcdAsWrittenAgrees(b, a);
      }
    }
  }

  lemma MulBound(d: int, k: int)
    requires d > 0
    ensures k >= 1 ==> d * k >= d
    ensures k <= -1 ==> d * k <= -d
  {
  }

  lemma MulMod(d: int, m: int)
    requires d > 0
    ensures (d * m) % d == 0
  {
    var q, r := (d * m) / d, (d * m) % d;
    assert d * m == d * q + r;
    assert d * (m - q) == r;
    MulBound(d, m - q);
  }

  /** A linear combination of multiples of d is a multiple of d. */
  lemma CombinationMod(d: int, x: int, y: int, c: int)
    requires d > 0 && x % d == 0 && y % d == 0
    ensures (x * c + y) % d == 0
  {
    var p, q := x / d, y / d;
    assert x == d * p && y == d * q;
    assert x * c + y == d * (p * c + q);
    MulMod(d, p * c + q);
  }

  /** A positive multiple of d is at least d. */
  lemma DividesBound(d: nat, n: nat)
    requires n > 0 && Divides(d, n)
    ensures 0 < d <= n
  {
    assert n == d * (n / d);
  }

  lemma {:induction false} GcdIsGreatestCommonDivisor(a: nat, b: nat)
    ensures IsGcd(Gcd(a, b), a, b)
    ensures a == 0 ==> Gcd(a, b) == b
    decreases GcdMeasure(a, b)
  {
    var g := Gcd(a, b);
    if a == 0 {
      assert Divides(b, 0);
    } else if a <= b {
      var r := b % a;
      GcdIsGreatestCommonDivisor(a, r);
      assert g == Gcd(a, r);
      assert b == a * (b / a) + r;
      assert Divides(g, b) by {
        assert g != 0;
        CombinationMod(g, a, r, b / a);
      }
      forall d: nat | d > 0 && Divides(d, a) && Divides(d, b)
        ensures Divides(d, g)
      {
        assert r == a * (-(b / a)) + b;
        CombinationMod(d, a, b, -(b / a));
      }
    } else {
      GcdIsGreatestCommonDivisor(b, a);
    }
  }

  /** The C gcd computes a greatest common divisor wherever it terminates. */
  lemma GcdAsWrittenIsGcd(a: nat, b: nat)
    requires a == 0 || a != b
    ensures IsGcd(GcdAsWritten(a, b), a, b)
    ensures a == 0 ==> GcdAsWritten(a, b) == b
  {
    GcdAsWrittenAgrees(a, b);
    GcdIsGreatestCommonDivisor(a, b);
  }
}
