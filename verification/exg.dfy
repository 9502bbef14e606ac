/**
 * The excess-green tool (APP/MV/eXg.py): a per-pixel threshold mask, and
 * adding the bounding box of the mask's region to the current image's extra
 * boxes. The speckle filter and the bounding-box search over the mask belong
 * to the imaging library and are not modelled; their outcome is an input.
 */
module ExcessGreen {

  import opened Wrappers
  import opened Models
  import opened Store

  /** An 8-bit colour channel value. */
  type Channel = c: int | 0 <= c <= 255

  datatype Pixel = Pixel(r: Channel, g: Channel, b: Channel)

  /** Excess green of a pixel: how far green exceeds the larger of red and blue. */
  function ExcessOf(p: Pixel): (e: int) {
    p.g - (if p.r >= p.b then p.r else p.b)
  }

  /**
   * The mask of an image indexed [x, y], with width `img.Length0` and height
   * `img.Length1`: 255 where the excess green is strictly above `thresh`,
   * 0 everywhere else.
   */
  method ExcessGreenMask(img: array2<Pixel>, thresh: int) returns (mask: array2<int>)
    ensures mask.Length0 == img.Length0 && mask.Length1 == img.Length1
    ensures forall x, y :: 0 <= x < mask.Length0 && 0 <= y < mask.Length1 ==>
      (mask[x, y] == 255 <==> ExcessOf(img[x, y]) > thresh)
    ensures forall x, y :: 0 <= x < mask.Length0 && 0 <= y < mask.Length1 ==>
      mask[x, y] == 0 || mask[x, y] == 255
  {
    var w := img.Length0;
    var h := img.Length1;
    mask := new int[w, h];
    var yy := 0;
    while yy < h
      invariant 0 <= yy <= h
      invariant forall x, y :: 0 <= x < w && 0 <= y < yy ==>
        mask[x, y] == (if ExcessOf(img[x, y]) > thresh then 255 else 0)
    {
      var xx := 0;
      while xx < w
        invariant 0 <= xx <= w
        invariant forall x, y :: 0 <= x < w && 0 <= y < yy ==>
          mask[x, y] == (if ExcessOf(img[x, y]) > thresh then 255 else 0)
        invariant forall x :: 0 <= x < xx ==>
          mask[x, yy] == (if ExcessOf(img[x, yy]) > thresh then 255 else 0)
      {
        var gv := img[xx, yy].g;
        var mv := if img[xx, yy].r >= img[xx, yy].b then img[xx, yy].r else img[xx, yy].b;
        if gv - mv > thresh {
          mask[xx, yy] := 255;
        } else {
          mask[xx, yy] := 0;
        }
        xx := xx + 1;
      }
      yy := yy + 1;
    }
  }

  /**
   * What the imaging library made of the mask: it could not be computed, it
   * has no nonzero region, or the region's bounds (left, upper, right, lower).
   */
  datatype MaskOutcome = MaskFailed | NoRegion | Region(left: int, upper: int, right: int, lower: int)

  /**
   * Adds one class-0 box with the region's corners to the extra boxes of the
   * current image, creating that image's list when it has none; nothing
   * changes without a current image or without a region.
   */
  method ExcessGreenApply(s: Session, mask: MaskOutcome) returns (s': Session)
    ensures s.current.None? || !mask.Region? ==> s' == s
    ensures s.current.Some? && mask.Region? ==>
      var p := s.current.value;
      && p in s'.extra
      && s' == s.(extra := s.extra[p := s'.extra[p]])
      && |s'.extra[p]| == |Lookup(s.extra, p)| + 1
      && s'.extra[p][..|Lookup(s.extra, p)|] == Lookup(s.extra, p)
      && var nb := s'.extra[p][|Lookup(s.extra, p)|];
         && nb.cls == 0 && nb.alpha == 1.0
         && nb.x1 == mask.left as real && nb.y1 == mask.upper as real
         && nb.x2 == mask.right as real && nb.y2 == mask.lower as real
  {
    if s.current.None? {
      return s;
    }
    match mask {
      case MaskFailed => return s;
      case NoRegion => return s;
      case Region(x1, y1, x2, y2) =>
        var nb := new BBox(0, x1 as real, y1 as real, x2 as real, y2 as real);
        var p := s.current.value;
        var list := Lookup(s.extra, p) + [nb];
        assert list[..|Lookup(s.extra, p)|] == Lookup(s.extra, p);
        s' := s.(extra := s.extra[p := list]);
    }
  }
}
