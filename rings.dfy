/** Ring layout: `ring_spacing` and `ring_radius` of target.cpp over exact reals.
    Ring 0 is the bullseye, ring `rings` the outermost; `radius` is the radius
    of the outside of the outer ring. */
module Rings {

  /** `radius / (rings + 0.5)`. An integer plus one half is never zero, so
      the division is defined for every ring count. */
  function RingSpacing(radius: real, rings: int): (rs: real)
    ensures rs * (rings as real + 0.5) == radius
  {
    assert rings as real + 0.5 != 0.0 by {
      if rings >= 0 {
        assert rings as real + 0.5 >= 0.5;
      } else {
        assert rings as real + 0.5 <= -0.5;
      }
    }
    radius / (rings as real + 0.5)
  }

  /** Radius of the outer edge of ring `ring`: half a spacing for the
      bullseye plus one spacing per ring. */
  function RingRadius(radius: real, rings: int, ring: int): (r: real)
    ensures r * (rings as real + 0.5) == radius * (ring as real + 0.5)
  {
    var rs := RingSpacing(radius, rings);
    rs / 2.0 + ring as real * rs
  }

  /** The outermost ring's edge lies exactly at the target radius. */
  lemma OuterRingAtRadius(radius: real, rings: int)
    ensures RingRadius(radius, rings, rings) == radius
  {
    var rs := RingSpacing(radius, rings);
    assert rs / 2.0 + rings as real * rs == rs * (rings as real + 0.5);
  }

  /** Consecutive ring edges are one spacing apart. */
  lemma RingStep(radius: real, rings: int, ring: int)
    ensures RingRadius(radius, rings, ring + 1) - RingRadius(radius, rings, ring)
            == RingSpacing(radius, rings)
  {
    var rs := RingSpacing(radius, rings);
    assert (ring + 1) as real * rs == ring as real * rs + rs;
  }

  /** For a positive radius and a non-negative ring count the spacing is
      positive. */
  lemma SpacingPositive(radius: real, rings: int)
    requires radius > 0.0 && rings >= 0
    ensures RingSpacing(radius, rings) > 0.0
  {
    assert rings as real + 0.5 > 0.0;
  }

  /** Ring edges strictly increase with the ring index. */
  lemma {:induction false} RadiiIncrease(radius: real, rings: int, i: int, j: int)
    requires radius > 0.0 && rings >= 0
    requires i < j
    ensures RingRadius(radius, rings, i) < RingRadius(radius, rings, j)
    decreases j - i
  {
    SpacingPositive(radius, rings);
    RingStep(radius, rings, j - 1);
    if i < j - 1 {
      RadiiIncrease(radius, rings, i, j - 1);
    }
  }

  /** Distance from the centre at which the number of ring `ring` is
      painted: `ring * rs`. */
  function LabelDistance(radius: real, rings: int, ring: int): real
  {
    ring as real * RingSpacing(radius, rings)
  }

  /** The number of ring k lies exactly halfway between the edges of rings
      k - 1 and k. */
  lemma LabelMidway(radius: real, rings: int, ring: int)
    ensures LabelDistance(radius, rings, ring)
            == (RingRadius(radius, rings, ring - 1) + RingRadius(radius, rings, ring)) / 2.0
  {
    var rs := RingSpacing(radius, rings);
    assert (ring - 1) as real * rs == ring as real * rs - rs;
  }

  /** One ring: the bullseye has radius `radius` and the spacing is twice
      the radius. */
  lemma SingleRing(radius: real)
    ensures RingSpacing(radius, 0) == 2.0 * radius
    ensures RingRadius(radius, 0, 0) == radius
  {
  }

  /** A radius of 100 points with 8 rings gives a spacing of 200/17 points. */
  lemma SpacingExample()
    ensures RingSpacing(100.0, 8) == 200.0 / 17.0
  {
  }
}
