/** The `fish` holder of target.cpp: the decorative image's native size and
    the width it is to be painted at. Loading the image is Cairo's work; its
    native size is given to the constructor. */
module Fish {

  /** A paint of the image: translate to (x, y), then scale uniformly. */
  datatype Paint = Paint(x: real, y: real, scale: real)

  class Fish {
    var imW: real
    var imH: real
    var width: real

    /** A loaded image has a positive native size. */
    ghost predicate Valid()
      reads this
    {
      imW > 0.0 && imH > 0.0
    }

    constructor (imageWidth: real, imageHeight: real)
      requires imageWidth > 0.0 && imageHeight > 0.0
      ensures Valid()
      ensures imW == imageWidth && imH == imageHeight && width == 0.0
    {
      imW := imageWidth;
      imH := imageHeight;
      width := 0.0;
    }

    /** `width_set`: only the width changes. */
    method WidthSet(w: real)
      requires Valid()
      modifies this`width
      ensures Valid()
      ensures width == w
      ensures HeightGet() * imW == w * imH
    {
      width := w;
    }

    /** `height_get`: the height that keeps the image's aspect ratio. */
    function HeightGet(): (h: real)
      reads this
      requires Valid()
      ensures h * imW == width * imH
    {
      width * imH / imW
    }

    /** `put`: the paint scales the image so that it is painted `width`
        wide and `HeightGet()` high, with its top-left corner at (x, y). */
    method Put(x: real, y: real) returns (p: Paint)
      requires Valid()
      requires width != 0.0
      ensures p.x == x && p.y == y
      ensures p.scale * imW == width
      ensures p.scale * imH == HeightGet()
    {
      var s := width / imW;
      p := Paint(x, y, s);
    }
  }
}
