/**
 * The application state the modelled operations read and write: whether a
 * detector is loaded, the image on display and its size, and the three
 * per-image box collections keyed by image path.
 */
module Store {

  import opened Wrappers
  import opened Models

  type ImagePath = string

  /** Per-image lists of boxes. */
  type BoxMap = map<ImagePath, seq<BBox>>

  /**
   * `current` is the path of the image on display, present exactly when an
   * image is loaded; `imgW` and `imgH` are its pixel size.
   */
  datatype Session = Session(
    modelLoaded: bool,
    current: Option<ImagePath>,
    imgW: int,
    imgH: int,
    gt: BoxMap,
    pred: BoxMap,
    extra: BoxMap)

  /** The list for `p`, or the empty list when `p` has none yet. */
  function Lookup(m: BoxMap, p: ImagePath): (bs: seq<BBox>) {
    if p in m then m[p] else []
  }
}
