/**
 * "Cover" placement of an image on a canvas: scale uniformly until both
 * axes are covered, then centre.
 */
module ScaleFill {

  /** A decoded image always has at least one pixel in each direction. */
  type Pixels = n: nat | n > 0 witness 1

  /** The arguments `x, y, width, height` of the `drawImage` call. */
  datatype Placement = Placement(x: real, y: real, width: real, height: real)

  function Max(a: real, b: real): real {
    if a >= b then a else b
  }

  /** `Math.max(canvas.width / img.width, canvas.height / img.height)`. */
  function Scale(canvasWidth: nat, canvasHeight: nat, imageWidth: Pixels, imageHeight: Pixels): (s: real)
    ensures s >= 0.0
    ensures imageWidth as real * s >= canvasWidth as real
    ensures imageHeight as real * s >= canvasHeight as real
    ensures imageWidth as real * s == canvasWidth as real || imageHeight as real * s == canvasHeight as real
  {
    var w, h := imageWidth as real, imageHeight as real;
    var sx, sy := canvasWidth as real / w, canvasHeight as real / h;
    assert w * sx == canvasWidth as real && h * sy == canvasHeight as real;
    var s := Max(sx, sy);
    MulMonotone(w, sx, s);
    MulMonotone(h, sy, s);
    s
  }

  lemma MulMonotone(a: real, b: real, c: real)
    requires a > 0.0 && b <= c
    ensures a * b <= a * c
  {
  }

  /** No smaller scale covers the canvas: the scale is the least covering one. */
  lemma ScaleIsLeastCover(canvasWidth: nat, canvasHeight: nat, imageWidth: Pixels, imageHeight: Pixels, t: real)
    requires imageWidth as real * t >= canvasWidth as real
    requires imageHeight as real * t >= canvasHeight as real
    ensures t >= Scale(canvasWidth, canvasHeight, imageWidth, imageHeight)
  {
    var w, h := imageWidth as real, imageHeight as real;
    var s := Scale(canvasWidth, canvasHeight, imageWidth, imageHeight);
    // A smaller scale would leave a gap along the axis that fits exactly.
    if t < s {
      if w * s == canvasWidth as real { StrictMul(w, t, s); } else { StrictMul(h, t, s); }
    }
  }

  lemma StrictMul(a: real, b: real, c: real)
    requires a > 0.0 && b < c
    ensures a * b < a * c
  {
  }

  /**
   * The placement `ScaleToFill` draws: the scaled image covers the canvas,
   * is centred on it, starts at or before its origin, fits one axis exactly
   * and keeps the image's aspect ratio.
   */
  function ScaleToFill(canvasWidth: nat, canvasHeight: nat, imageWidth: Pixels, imageHeight: Pixels): (p: Placement)
    ensures p.width == imageWidth as real * Scale(canvasWidth, canvasHeight, imageWidth, imageHeight)
    ensures p.height == imageHeight as real * Scale(canvasWidth, canvasHeight, imageWidth, imageHeight)
    ensures p.width >= canvasWidth as real && p.height >= canvasHeight as real
    ensures p.x + p.width / 2.0 == canvasWidth as real / 2.0
    ensures p.y + p.height / 2.0 == canvasHeight as real / 2.0
    ensures p.x <= 0.0 && p.y <= 0.0
    ensures p.width == canvasWidth as real || p.height == canvasHeight as real
    ensures p.width * imageHeight as real == p.height * imageWidth as real
  {
    var scale := Scale(canvasWidth, canvasHeight, imageWidth, imageHeight);
    var x := canvasWidth as real / 2.0 - (imageWidth as real / 2.0) * scale;
    var y := canvasHeight as real / 2.0 - (imageHeight as real / 2.0) * scale;
    Placement(x, y, imageWidth as real * scale, imageHeight as real * scale)
  }
}
