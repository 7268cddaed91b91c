/** Unit conversions and the C integer conversion used by the target layout.
    Doubles are modelled as exact reals. */
module Units {

  /** Points per inch, the PDF surface's native unit (INCH_PT / PT_INCH). */
  const PointsPerInch: real := 72.0

  function InchToPoint(inches: real): real
  {
    inches * PointsPerInch
  }

  function PointToInch(points: real): real
  {
    points / PointsPerInch
  }

  /** The two conversions are inverse to each other. */
  lemma InchPointRoundTrip(x: real)
    ensures PointToInch(InchToPoint(x)) == x
    ensures InchToPoint(PointToInch(x)) == x
  {
  }

  /** C's conversion of a double to int: truncation toward zero. */
  function Trunc(x: real): (n: int)
    ensures 0.0 <= x ==> 0 <= n && n as real <= x < n as real + 1.0
    ensures x < 0.0 ==> n <= 0 && n as real - 1.0 < x <= n as real
  {
    if x >= 0.0 then x.Floor else -((-x).Floor)
  }
}
