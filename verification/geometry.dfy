/**
 * Box geometry of the annotation tool (APP/core/utils.py): conversion between
 * pixel-space corner boxes and centre-based normalized boxes, and the
 * Intersection-over-Union overlap measure. All arithmetic is over `real`.
 */
module Geometry {

  /** A box given by its two pixel-space corners (x1, y1) and (x2, y2). */
  datatype Corners = Corners(x1: real, y1: real, x2: real, y2: real)

  /** A box in the normalized label format: centre and size as fractions of the image size. */
  datatype Norm = Norm(nx: real, ny: real, nw: real, nh: real)

  function Max(a: real, b: real): (m: real) {
    if a >= b then a else b
  }

  function Min(a: real, b: real): (m: real) {
    if a <= b then a else b
  }

  /** Centre-based normalized box to pixel corners; no clamping to the image. */
  function YoloToPixels(n: Norm, w: real, h: real): (c: Corners)
    ensures c.x2 - c.x1 == n.nw * w && c.y2 - c.y1 == n.nh * h
    ensures (c.x1 + c.x2) / 2.0 == n.nx * w && (c.y1 + c.y2) / 2.0 == n.ny * h
    ensures n.nw >= 0.0 && w >= 0.0 ==> c.x1 <= c.x2
    ensures n.nh >= 0.0 && h >= 0.0 ==> c.y1 <= c.y2
  {
    var cx := n.nx * w;
    var cy := n.ny * h;
    var bw := n.nw * w;
    var bh := n.nh * h;
    Corners(cx - bw / 2.0, cy - bh / 2.0, cx + bw / 2.0, cy + bh / 2.0)
  }

  /**
   * The box the label format can represent for `c`: the top-left corner is
   * kept and the width and height are raised to at least one pixel.
   */
  function AtLeastOnePixel(c: Corners): (f: Corners) {
    Corners(c.x1, c.y1, c.x1 + Max(1.0, c.x2 - c.x1), c.y1 + Max(1.0, c.y2 - c.y1))
  }

  /** Pixel corners to the normalized format; width and height are floored to one pixel first. */
  function PixelsToYolo(c: Corners, w: real, h: real): (n: Norm)
    requires w != 0.0 && h != 0.0
    ensures n.nw * w == Max(1.0, c.x2 - c.x1) && n.nh * h == Max(1.0, c.y2 - c.y1)
    ensures n.nx * w - n.nw * w / 2.0 == c.x1 && n.ny * h - n.nh * h / 2.0 == c.y1
    ensures w > 0.0 ==> n.nw >= 1.0 / w > 0.0
    ensures h > 0.0 ==> n.nh >= 1.0 / h > 0.0
  {
    var bw := Max(1.0, c.x2 - c.x1);
    var bh := Max(1.0, c.y2 - c.y1);
    var cx := c.x1 + bw / 2.0;
    var cy := c.y1 + bh / 2.0;
    Norm(cx / w, cy / h, bw / w, bh / h)
  }

  /** Going to the label format and back yields the box floored to one pixel, for every box. */
  lemma RoundTrip(c: Corners, w: real, h: real)
    requires w != 0.0 && h != 0.0
    ensures YoloToPixels(PixelsToYolo(c, w, h), w, h) == AtLeastOnePixel(c)
  {
  }

  /** A box at least one pixel wide and high survives the round trip exactly. */
  lemma RoundTripExact(c: Corners, w: real, h: real)
    requires w != 0.0 && h != 0.0
    requires c.x2 - c.x1 >= 1.0 && c.y2 - c.y1 >= 1.0
    ensures YoloToPixels(PixelsToYolo(c, w, h), w, h) == c
  {
    RoundTrip(c, w, h);
  }

  /** A box narrower than one pixel keeps x1 and comes back exactly one pixel wide; likewise for the height. */
  lemma RoundTripLossy(c: Corners, w: real, h: real)
    requires w != 0.0 && h != 0.0
    ensures var r := YoloToPixels(PixelsToYolo(c, w, h), w, h);
      && r.x1 == c.x1 && r.y1 == c.y1
      && (c.x2 - c.x1 < 1.0 ==> r.x2 == c.x1 + 1.0 && r.x2 != c.x2)
      && (c.y2 - c.y1 < 1.0 ==> r.y2 == c.y1 + 1.0 && r.y2 != c.y2)
  {
    RoundTrip(c, w, h);
  }

  /** The other direction: a normalized box covering at least one pixel each way is reproduced. */
  lemma RoundTripFromNorm(n: Norm, w: real, h: real)
    requires w != 0.0 && h != 0.0
    requires n.nw * w >= 1.0 && n.nh * h >= 1.0
    ensures PixelsToYolo(YoloToPixels(n, w, h), w, h) == n
  {
  }

  /** Clamped area of a box: an inverted box has area 0. */
  function Area(a: Corners): (area: real) {
    Max(0.0, a.x2 - a.x1) * Max(0.0, a.y2 - a.y1)
  }

  /** Area of the overlap of two boxes, clamped at zero per axis. */
  function Intersection(a: Corners, b: Corners): (inter: real) {
    Max(0.0, Min(a.x2, b.x2) - Max(a.x1, b.x1)) * Max(0.0, Min(a.y2, b.y2) - Max(a.y1, b.y1))
  }

  function Union(a: Corners, b: Corners): (u: real) {
    Area(a) + Area(b) - Intersection(a, b)
  }

  /** Intersection over Union, 0 when the union is not positive. */
  function Iou(a: Corners, b: Corners): (r: real)
    ensures 0.0 <= r <= 1.0
    ensures Union(a, b) <= 0.0 ==> r == 0.0
    ensures Union(a, b) > 0.0 ==> r * Union(a, b) == Intersection(a, b)
  {
    var u := Union(a, b);
    IntersectionWithinAreas(a, b);
    if u > 0.0 then Intersection(a, b) / u else 0.0
  }

  lemma MulMono(a: real, b: real, c: real, d: real)
    requires 0.0 <= a <= c && 0.0 <= b <= d
    ensures 0.0 <= a * b <= c * d
  {
    assert a * b <= c * b by {
      assert (c - a) * b >= 0.0;
    }
    assert c * b <= c * d by {
      assert c * (d - b) >= 0.0;
    }
  }

  /** The clamped intersection is never larger than either clamped area, so the union bounds it. */
  lemma IntersectionWithinAreas(a: Corners, b: Corners)
    ensures 0.0 <= Intersection(a, b) <= Area(a)
    ensures Intersection(a, b) <= Area(b)
    ensures Intersection(a, b) <= Union(a, b)
  {
    var iw := Max(0.0, Min(a.x2, b.x2) - Max(a.x1, b.x1));
    var ih := Max(0.0, Min(a.y2, b.y2) - Max(a.y1, b.y1));
    MulMono(iw, ih, Max(0.0, a.x2 - a.x1), Max(0.0, a.y2 - a.y1));
    MulMono(iw, ih, Max(0.0, b.x2 - b.x1), Max(0.0, b.y2 - b.y1));
  }

  lemma IouSymmetric(a: Corners, b: Corners)
    ensures Iou(a, b) == Iou(b, a)
  {
    assert Intersection(a, b) == Intersection(b, a);
    assert Union(a, b) == Union(b, a);
  }

  /** A box of positive area overlaps itself completely. */
  lemma IouSelf(a: Corners)
    requires Area(a) > 0.0
    ensures Iou(a, a) == 1.0
  {
    assert Intersection(a, a) == Area(a);
    assert Union(a, a) == Area(a);
  }

  /** Boxes separated along either axis have IoU exactly 0. */
  lemma IouDisjoint(a: Corners, b: Corners)
    requires a.x2 <= b.x1 || b.x2 <= a.x1 || a.y2 <= b.y1 || b.y2 <= a.y1
    ensures Iou(a, b) == 0.0
  {
  }
}
