/** The layout computed by `main` in target.cpp, with the Cairo calls
    abstracted away: the target radius from the page geometry, the colour
    of each ring outline and ring number, and the four corner images. */
module Target {
  import opened Units
  import opened Rings
  import Align
  import Fish

  /** The command-line settings that the layout reads (page size, margin
      and line width in inches). */
  datatype Options = Options(
    pageWidth: real, pageHeight: real, margin: real, lineWidth: real,
    rings: int, innerRings: int, outerRings: int)

  /** `-s 8.5x11 -m 0.25 -l 0.05 -r 8 -I 3 -O 2`. */
  const DefaultOptions := Options(8.5, 11.0, 0.25, 0.05, 8, 3, 2)

  function Min(a: real, b: real): real
  {
    if a <= b then a else b
  }

  /** The target radius the page allows before it is stored in an int:
      half the shorter side, less the margin and half the line width. */
  function ExactRadius(o: Options): real
  {
    Min(InchToPoint(o.pageWidth), InchToPoint(o.pageHeight)) / 2.0
      - InchToPoint(o.margin) - InchToPoint(o.lineWidth) / 2.0
  }

  /** The int `radius` of `main`. When the page leaves room for a target
      at all, the stored radius is the exact one rounded down, so the outer
      stroke, which reaches half a line width beyond it, stays within the
      margin on the shorter side of the page. */
  function TargetRadius(o: Options): (r: int)
    ensures ExactRadius(o) >= 0.0 ==> 0 <= r && r as real <= ExactRadius(o) < r as real + 1.0
    ensures ExactRadius(o) >= 0.0 ==>
      r as real + InchToPoint(o.lineWidth) / 2.0 + InchToPoint(o.margin)
        <= Min(InchToPoint(o.pageWidth), InchToPoint(o.pageHeight)) / 2.0
    ensures ExactRadius(o) < 0.0 ==> r <= 0 && r as real - 1.0 < ExactRadius(o) <= r as real
  {
    var width := InchToPoint(o.pageWidth);
    var height := InchToPoint(o.pageHeight);
    var margin := InchToPoint(o.margin);
    var linew := InchToPoint(o.lineWidth);
    if width < height then Trunc(width / 2.0 - margin - linew / 2.0)
    else Trunc(height / 2.0 - margin - linew / 2.0)
  }

  datatype Colour = Black | White

  /** Outline colour of ring `ring`: white strictly inside the inner band
      or strictly inside the outer band, black otherwise. */
  function OutlineColour(ring: int, rings: int, innerRings: int, outerRings: int): Colour
  {
    if 0 < ring < innerRings || rings - outerRings < ring < rings then White else Black
  }

  /** Ring-number colour of ring `ring`: white up to and including the
      inner count, and beyond `rings - outerRings`. */
  function LabelColour(ring: int, rings: int, innerRings: int, outerRings: int): Colour
  {
    if ring <= innerRings || ring > rings - outerRings then White else Black
  }

  /** The bullseye outline and the outermost outline are black unless the
      outer band, respectively the inner band, is wider than the target. */
  lemma EndOutlinesBlack(rings: int, innerRings: int, outerRings: int)
    ensures OutlineColour(0, rings, innerRings, outerRings) == Black
            <==> rings <= 0 || outerRings <= rings
    ensures OutlineColour(rings, rings, innerRings, outerRings) == Black
            <==> rings <= 0 || innerRings <= rings
  {
  }

  /** A ring whose outline is white also has a white number. */
  lemma WhiteOutlineWhiteLabel(ring: int, rings: int, innerRings: int, outerRings: int)
    requires OutlineColour(ring, rings, innerRings, outerRings) == White
    ensures LabelColour(ring, rings, innerRings, outerRings) == White
  {
  }

  /** With disjoint bands, the numbered rings whose number is white but
      whose outline is black are exactly ring `innerRings` and, when there
      is an outer band, ring `rings`. */
  lemma LabelOutlineDiffer(ring: int, rings: int, innerRings: int, outerRings: int)
    requires 0 <= innerRings && 0 <= outerRings && innerRings + outerRings < rings
    requires 1 <= ring <= rings
    ensures (LabelColour(ring, rings, innerRings, outerRings) == White &&
             OutlineColour(ring, rings, innerRings, outerRings) == Black)
            <==> (ring == innerRings || (ring == rings && outerRings > 0))
  {
  }

  /** One ring outline: its radius and the colour it is stroked in. */
  datatype Stroke = Stroke(radius: real, colour: Colour)

  /** The outline loop of `main`: one stroke for each ring 0..rings. */
  method StrokeRings(radius: int, rings: int, innerRings: int, outerRings: int)
    returns (strokes: seq<Stroke>)
    ensures |strokes| == if rings >= 0 then rings + 1 else 0
    ensures forall k :: 0 <= k < |strokes| ==>
      strokes[k] == Stroke(RingRadius(radius as real, rings, k),
                           OutlineColour(k, rings, innerRings, outerRings))
  {
    strokes := [];
    var ring := 0;
    while ring <= rings
      invariant 0 <= ring <= if rings >= 0 then rings + 1 else 0
      invariant |strokes| == ring
      invariant forall k :: 0 <= k < ring ==>
        strokes[k] == Stroke(RingRadius(radius as real, rings, k),
                             OutlineColour(k, rings, innerRings, outerRings))
    {
      var r := RingRadius(radius as real, rings, ring);
      var colour;
      if (ring > 0 && ring < innerRings) || (ring > rings - outerRings && ring < rings) {
        colour := White;
      } else {
        colour := Black;
      }
      strokes := strokes + [Stroke(r, colour)];
      ring := ring + 1;
    }
  }

  datatype Point = Point(x: real, y: real)

  /** One ring number: the number, its colour, and the four points on the
      axes through the centre where it is painted, centred on both axes. */
  datatype Label = Label(number: int, colour: Colour, anchors: seq<Point>)

  function Anchors(cx: real, cy: real, offset: real): seq<Point>
  {
    [Point(cx + offset, cy), Point(cx - offset, cy), Point(cx, cy + offset), Point(cx, cy - offset)]
  }

  /** The ring-number loop of `main`: rings 1..rings, each number placed at
      `ring * rs` from the centre (cx, cy) along both axes, in both
      directions. */
  method LabelRings(cx: real, cy: real, radius: int, rings: int, innerRings: int, outerRings: int)
    returns (labels: seq<Label>)
    ensures |labels| == if rings >= 0 then rings else 0
    ensures forall i :: 0 <= i < |labels| ==>
      labels[i] == Label(i + 1, LabelColour(i + 1, rings, innerRings, outerRings),
                         Anchors(cx, cy, LabelDistance(radius as real, rings, i + 1)))
  {
    var rs := RingSpacing(radius as real, rings);
    labels := [];
    var ring := 1;
    while ring <= rings
      invariant 1 <= ring <= if rings >= 0 then rings + 1 else 1
      invariant |labels| == ring - 1
      invariant forall i :: 0 <= i < ring - 1 ==>
        labels[i] == Label(i + 1, LabelColour(i + 1, rings, innerRings, outerRings),
                           Anchors(cx, cy, LabelDistance(radius as real, rings, i + 1)))
    {
      var colour;
      if ring <= innerRings || ring > rings - outerRings {
        colour := White;
      } else {
        colour := Black;
      }
      var d := ring as real * rs;
      var anchors := [Point(cx + d, cy), Point(cx - d, cy), Point(cx, cy + d), Point(cx, cy - d)];
      assert d == LabelDistance(radius as real, rings, ring);
      assert anchors == Anchors(cx, cy, LabelDistance(radius as real, rings, ring));
      labels := labels + [Label(ring, colour, anchors)];
      ring := ring + 1;
    }
  }

  /** Each ring number lies on a circle halfway between the outline inside
      it and its own outline. */
  lemma LabelsBetweenOutlines(cx: real, cy: real, radius: int, rings: int, innerRings: int, outerRings: int,
                              labels: seq<Label>, strokes: seq<Stroke>, k: int)
    requires rings >= 0
    requires |labels| == rings && |strokes| == rings + 1
    requires forall i :: 0 <= i < |labels| ==>
      labels[i] == Label(i + 1, LabelColour(i + 1, rings, innerRings, outerRings),
                         Anchors(cx, cy, LabelDistance(radius as real, rings, i + 1)))
    requires forall j :: 0 <= j < |strokes| ==>
      strokes[j] == Stroke(RingRadius(radius as real, rings, j),
                           OutlineColour(j, rings, innerRings, outerRings))
    requires 1 <= k <= rings
    ensures |labels[k - 1].anchors| == 4
    ensures labels[k - 1].anchors[0].x - cx == (strokes[k - 1].radius + strokes[k].radius) / 2.0
  {
    var lab := labels[k - 1];
    assert lab == Label(k, LabelColour(k, rings, innerRings, outerRings),
                         Anchors(cx, cy, LabelDistance(radius as real, rings, k)));
    assert lab.anchors == Anchors(cx, cy, LabelDistance(radius as real, rings, k));
    LabelMidway(radius as real, rings, k);
  }

  /** The width the corner images are painted at: 2 inches. */
  const ImageWidth: real := InchToPoint(2.0)

  /** The koi decorations of `main`: the image painted 2 inches wide at the
      four page corners, inset by the margin (width, height and margin in
      points; imageWidth and imageHeight the image's native size). */
  method KoiCorners(width: real, height: real, margin: real, imageWidth: real, imageHeight: real)
    returns (paints: seq<Fish.Paint>)
    requires imageWidth > 0.0 && imageHeight > 0.0
    ensures |paints| == 4
    ensures forall i :: 0 <= i < 4 ==>
      paints[i].scale * imageWidth == ImageWidth
    ensures paints[0].x == margin && paints[0].y == margin
    ensures paints[1].x + paints[1].scale * imageWidth == width - margin && paints[1].y == margin
    ensures paints[2].x == margin && paints[2].y + paints[2].scale * imageHeight == height - margin
    ensures paints[3].x + paints[3].scale * imageWidth == width - margin
    ensures paints[3].y + paints[3].scale * imageHeight == height - margin
  {
    var f := new Fish.Fish(imageWidth, imageHeight);
    f.WidthSet(ImageWidth);
    var h := f.HeightGet();
    var p0 := f.Put(margin, margin);
    var p1 := f.Put(width - margin - ImageWidth, margin);
    var p2 := f.Put(margin, height - margin - h);
    var p3 := f.Put(width - margin - ImageWidth, height - margin - h);
    paints := [p0, p1, p2, p3];
  }

  /** The default page: 612 by 792 points, target radius 286 points. */
  lemma DefaultRadius()
    ensures TargetRadius(DefaultOptions) == 286
  {
  }

  /** With the default bands, ring 3's number is white, ring 4's black and
      ring 7's white. */
  lemma DefaultLabels()
    ensures LabelColour(3, 8, 3, 2) == White
    ensures LabelColour(4, 8, 3, 2) == Black
    ensures LabelColour(7, 8, 3, 2) == White
  {
  }
}
