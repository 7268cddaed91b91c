# Fishlet target layout in Dafny

A model of the arithmetic under the drawing calls of `target.cpp`, the
program that writes a printable PDF shooting target with Cairo. The model
covers:

- the ring layout (`ring_spacing`, `ring_radius`) over exact reals;
- the target radius derived from the page size, margin and line width,
  stored in an `int` by C's truncating conversion;
- the black/white choice for each ring outline and each ring number, and
  the two loops of `main` that make those choices;
- the "Ring spacing N/D\"" caption: the spacing rounded to 32nds of an
  inch and reduced by the recursive `gcd`;
- the text offsets of `aligned_text`;
- the `fish` image holder (its width, derived height and paint scale) and
  the four corner paints made with it.

Modules: `Units` (inch/point conversion, truncation), `Euclid` (the gcd as
written and corrected), `Rings`, `Align`, `Fish` (a class, as in the
source), `Target` (the layout computed in `main`) and `Caption`.

Doubles are modelled as exact reals. The Cairo calls are left out; text
extents and the image's native size are parameters.

Some consequences of the code that are easy to get wrong:

- With zero rings the spacing is 2R and the bullseye's radius is R
  (`Rings.SingleRing`).
- R = 100 with 8 rings gives a spacing of 100/8.5 = 200/17, about 11.76
  (`Rings.SpacingExample`).
- Ring 0's outline is black exactly when rings <= 0 or the outer band fits
  in the target (`outerRings <= rings`). Ring N's outline is black exactly
  when rings <= 0 or the inner band fits (`innerRings <= rings`). See
  `Target.EndOutlinesBlack`.

## Model

| member | source | states |
|---|---|---|
| `Units.InchPointRoundTrip` | target.cpp:22-23 | inch-to-point (×72) and point-to-inch are inverse to each other |
| `Units.InchToPoint` | target.cpp:22 | `INCH_PT`: inches times 72; `Units.InchPointRoundTrip` proves it inverse to `PointToInch` |
| `Units.PointToInch` | target.cpp:23 | `PT_INCH`: points divided by 72; `Units.InchPointRoundTrip` proves it inverse to `InchToPoint` |
| `Units.Trunc` | target.cpp:225-229 | C's double-to-int conversion: the largest int not above a non-negative value, the smallest not below a negative one |
| `Euclid.GcdStep` | target.cpp:27-31 | one evaluation of gcd's body, branch for branch; `Euclid.GcdAsWrittenDiverges` and `Euclid.GcdAsWrittenReturns` carry its properties |
| `Euclid.GcdRun` | target.cpp:27-31 | the C recursion unfolded up to a step bound; `Euclid.GcdAsWrittenDiverges` proves it never returns from gcd(a, a), `Euclid.GcdAsWrittenReturns` that it returns everywhere else |
| `Euclid.GcdAsWritten` | target.cpp:27-31 | the C gcd where it terminates; `Euclid.GcdAsWrittenReturns`, `Euclid.GcdAsWrittenAgrees` and `Euclid.GcdAsWrittenIsGcd` carry its properties |
| `Euclid.Gcd` | target.cpp:30 | the corrected gcd (`a <= b`); `Euclid.GcdIsGreatestCommonDivisor` proves it a greatest common divisor |
| `Euclid.GcdAsWrittenDiverges` | target.cpp:27-31 | for a > 0, gcd(a, a) is back at gcd(a, a) after any number of steps and never returns |
| `Euclid.GcdAsWrittenReturns` | target.cpp:27-31 | when a == 0 or a != b, the recursion returns GcdAsWritten(a, b) within a + b + 2 steps |
| `Euclid.GcdAsWrittenAgrees` | target.cpp:27-31 | where the C gcd returns, it returns what the corrected Gcd returns |
| `Euclid.GcdIsGreatestCommonDivisor` | target.cpp:27-31 | the corrected Gcd divides both arguments, every positive common divisor divides it, and Gcd(0, b) == b |
| `Euclid.GcdAsWrittenIsGcd` | target.cpp:27-31 | for a, b >= 0 with a == 0 or a != b the C gcd is a greatest common divisor, and gcd(0, b) == b |
| `Rings.RingSpacing` | target.cpp:157-161 | the spacing times (rings + 1/2) is the radius, for every int ring count |
| `Rings.RingRadius` | target.cpp:163-167 | ring k's edge is the radius scaled by (k + 1/2)/(N + 1/2); `Rings.OuterRingAtRadius`, `Rings.RingStep`, `Rings.RadiiIncrease` and `Rings.LabelMidway` carry its other properties |
| `Rings.OuterRingAtRadius` | target.cpp:163-167 | ring_radius(R, N, N) == R |
| `Rings.RingStep` | target.cpp:163-167 | consecutive ring radii differ by exactly the spacing |
| `Rings.SpacingPositive` | target.cpp:157-161 | R > 0 and N >= 0 give a positive spacing |
| `Rings.RadiiIncrease` | target.cpp:163-167 | for R > 0 and N >= 0 ring radii strictly increase with the ring index |
| `Rings.LabelMidway` | target.cpp:292-295 | the number of ring k, at k * rs from the centre, is halfway between the edges of rings k - 1 and k |
| `Rings.SingleRing` | target.cpp:157-167 | with zero rings the spacing is 2R and ring 0's radius is R |
| `Rings.SpacingExample` | target.cpp:157-161 | R = 100, N = 8 gives a spacing of 200/17 |
| `Align.TextOffset` | target.cpp:71-81 | dx and dy of `aligned_text`; `Align.PaintedBox`, `Align.FlagsIndependent` and `Align.CentredLabel` carry its properties |
| `Align.PaintedBox` | target.cpp:71-86 | the text box has the measured width and height; the anchor is its horizontal midpoint under H_CENTER, its right edge under H_RIGHT alone, its left edge otherwise; its vertical midpoint under V_CENTER, its top under V_TOP alone, its bottom otherwise |
| `Align.FlagsIndependent` | target.cpp:57-81 | dx depends only on the horizontal flags, dy only on the vertical ones, and H_LEFT and V_BOTTOM change nothing |
| `Align.CentredLabel` | target.cpp:292 | centring on both axes gives dx = -w/2 and dy = h/2 |
| `Fish.Fish.constructor` | target.cpp:101-117 | a new holder has the image's native size and width 0 |
| `Fish.Fish.WidthSet` | target.cpp:123-125 | only the width changes, and the derived height is then w * im_h / im_w |
| `Fish.Fish.HeightGet` | target.cpp:127-129 | height / width == im_h / im_w: the aspect ratio is preserved |
| `Fish.Fish.Put` | target.cpp:131-140 | requires a non-zero width; the paint is at (x, y) and its scale makes the painted image `width` wide and `HeightGet()` high |
| `Target.ExactRadius` | target.cpp:216-229 | the radius before truncation: half the shorter side less the margin and half the line width; `Target.TargetRadius` ties the stored int to it |
| `Target.TargetRadius` | target.cpp:216-229 | when the page leaves room, the int radius is the exact radius rounded down, and the outer stroke stays within the margin on the shorter side |
| `Target.OutlineColour` | target.cpp:271-272 | the outline rule (white strictly inside either band); `Target.EndOutlinesBlack`, `Target.WhiteOutlineWhiteLabel`, `Target.LabelOutlineDiffer` and `Target.StrokeRings` carry its properties |
| `Target.LabelColour` | target.cpp:288 | the number rule (white up to I inclusive and beyond N - O); `Target.WhiteOutlineWhiteLabel`, `Target.LabelOutlineDiffer`, `Target.DefaultLabels` and `Target.LabelRings` carry its properties |
| `Target.EndOutlinesBlack` | target.cpp:268-277 | ring 0's outline is black iff rings <= 0 or the outer band fits; ring N's iff rings <= 0 or the inner band fits |
| `Target.WhiteOutlineWhiteLabel` | target.cpp:271-288 | every ring with a white outline has a white number |
| `Target.LabelOutlineDiffer` | target.cpp:271-288 | with disjoint bands, the rings with a white number but a black outline are exactly ring I and, if O > 0, ring N |
| `Target.StrokeRings` | target.cpp:268-277 | the outline loop gives one stroke per ring 0..N, at that ring's radius, in the outline colour rule's colour |
| `Target.LabelRings` | target.cpp:280-296 | the number loop gives one label per ring 1..N, in the label colour rule's colour, at k * rs from the centre on both axes in both directions |
| `Target.LabelsBetweenOutlines` | target.cpp:268-296 | in the loops' output, each number lies halfway between the outline inside it and its own outline |
| `Target.KoiCorners` | target.cpp:311-323 | the four images are painted 2 inches wide with one uniform scale, each touching the margin at its page corner |
| `Target.DefaultRadius` | target.cpp:216-229 | the default 8.5x11 page gives a target radius of 286 points |
| `Target.DefaultLabels` | target.cpp:285-291 | with 8 rings, 3 inner and 2 outer, ring 3's number is white, ring 4's black, ring 7's white |
| `Caption.SpacingNumerator` | target.cpp:326-328 | for a non-negative spacing the numerator is the nearest number of 32nds of an inch, halves rounding up |
| `Caption.OneInchSpacings` | target.cpp:328-329 | the numerator is 32, so the caption calls gcd(32, 32), exactly for spacings in [70.875, 73.125) points |
| `Caption.ReduceByGcd` | target.cpp:329-332 | dividing num and den by their gcd gives a fraction in lowest terms, of equal value, whose denominator divides den |
| `Caption.CaptionFraction` | target.cpp:326-332 | for num != 32 the printed fraction is in lowest terms, equals num/32, and its denominator divides 32 |
| `Caption.CaptionFractionFixed` | target.cpp:326-332 | with the corrected gcd the same holds for every numerator, 32 included |
| `Caption.CaptionFixedAgrees` | target.cpp:329 | both captions agree wherever the C gcd returns |
| `Caption.CaptionEnds` | target.cpp:326-332 | numerator 0 prints 0/1; numerator 32 prints 1/1 once corrected |
| `Caption.ThreeQuarterInch` | target.cpp:326-332 | a 54-point spacing is 24/32 and prints 3/4 |
| `Caption.DefaultCaption` | target.cpp:326-332 | the default target's spacing prints 15/32 |
| `Caption.HangingConfiguration` | target.cpp:326-329 | a 9.5x11 page with 4 rings has radius 322, numerator 32, and its gcd(32, 32) never returns |

## Left out

- All Cairo calls: PDF surface creation, arcs, fills, strokes, fonts, text measurement, `save`/`restore`, image loading and `check_status`. Text extents and the image's native size are parameters.
- Option parsing (`getopt`, `atoi`, `atof`), `perr`, `usage` and the exit codes. This is process I/O. The `-o` file name and the `-b` background flag only feed Cairo. `opt_bg` is read uninitialised when `-b` is absent, which is undefined behaviour, not logic.
- The four filled colour zones (target.cpp:247-265). They are Cairo fills at `ring_radius` of N, N - O, I and 0, and their RGBA values (including the out-of-range 10.0) are rendering detail.
- The eye positions (target.cpp:300-308). They use `sqrt(2.0)` and floating-point rounding.
- The placement of the four caption strings (target.cpp:337-344). These are `aligned_text` calls with fixed flags; the offsets themselves are modelled in `Align`.
- Floating point: doubles are exact reals, so rounding error in the conversions near a truncation boundary is not modelled.
- Integer width: `int` overflow of the radius, of `num` and of the loop counters is not modelled.
- Align.PaintedBox: uses the text's width and height only and ignores Cairo's bearings, so the box is where `aligned_text` aims the text, not the exact ink.
- Caption.CaptionFraction: takes a non-negative numerator. A negative `num` comes from a negative spacing: a margin wider than the page, or a negative ring count (`-r -1` gives a spacing of -2R, so `num` is about -253 on the default page). The gcd is not modelled on negative arguments. By reading target.cpp:30, the C gcd does not return either for any a < 0 <= b. C's `b % a` then lies in [0, -a), so `a < b` stays true, and from the second call on `b % a == b`, so the call repeats. This is a second hang, beside gcd(32, 32).
- Fish.Fish.constructor: requires a positive native size. A zero-width image would make the C division return an IEEE infinity or NaN, which reals cannot model.

## Findings

| source | as written | input that shows it | evidently intended | confidence | as-written member | corrected member |
|---|---|---|---|---|---|---|
| target.cpp:30 | `gcd(a, b)` recurses to `gcd(b, a)` whenever `a >= b`, so `gcd(a, a)` calls itself forever | `-s 9.5x11 -r 4`: radius 322, spacing 322/4.5 ≈ 71.56 points, numerator 32, so the caption calls `gcd(32, 32)` | the Euclidean gcd, with `a <= b` instead of `a < b`, so a one-inch spacing prints `1/1` | not executed | `Caption.HangingConfiguration` | `Caption.CaptionFractionFixed` |
