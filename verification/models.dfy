/**
 * The box record (APP/core/models.py). Boxes have identity: two boxes built
 * from the same arguments are different objects, which is what lets the
 * annotation stores move and remove a particular box.
 */
module Models {

  import opened Geometry

  class BBox {
    const cls: int
    const x1: real
    const y1: real
    const x2: real
    const y2: real
    const alpha: real

    /** Stores the arguments as given; the corners are not reordered. */
    constructor (cls: int, x1: real, y1: real, x2: real, y2: real, alpha: real := 1.0)
      ensures this.cls == cls && this.alpha == alpha
      ensures this.x1 == x1 && this.y1 == y1 && this.x2 == x2 && this.y2 == y2
    {
      this.cls := cls;
      this.x1 := x1;
      this.y1 := y1;
      this.x2 := x2;
      this.y2 := y2;
      this.alpha := alpha;
    }

    /** The corners in the order (x1, y1, x2, y2). */
    function AsTuple(): (t: Corners)
      ensures t.x1 == x1 && t.y1 == y1 && t.x2 == x2 && t.y2 == y2
    {
      Corners(x1, y1, x2, y2)
    }

    /** The box in the label format for an image of size w by h. */
    function Normalize(w: real, h: real): (n: Norm)
      requires w != 0.0 && h != 0.0
      ensures YoloToPixels(n, w, h) == AtLeastOnePixel(AsTuple())
      ensures x2 - x1 >= 1.0 && y2 - y1 >= 1.0 ==> YoloToPixels(n, w, h) == AsTuple()
      ensures w > 0.0 && h > 0.0 ==> n.nw > 0.0 && n.nh > 0.0
    {
      RoundTrip(AsTuple(), w, h);
      PixelsToYolo(AsTuple(), w, h)
    }
  }

  /**
   * Two boxes built from equal arguments: both hold exactly those corners in
   * that order, both get the default opacity, and they are still distinct.
   */
  method TwoEqualBoxes(cls: int, x1: real, y1: real, x2: real, y2: real) returns (a: BBox, b: BBox)
    ensures a != b
    ensures a.cls == b.cls == cls
    ensures a.AsTuple() == b.AsTuple() == Corners(x1, y1, x2, y2)
    ensures a.alpha == b.alpha == 1.0
  {
    a := new BBox(cls, x1, y1, x2, y2);
    b := new BBox(cls, x1, y1, x2, y2);
  }
}
