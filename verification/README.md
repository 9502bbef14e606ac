# Box geometry and detector plumbing of an object-detection labelling tool

This project models, in Dafny, the computational core of a desktop tool for
labelling object-detection datasets in the normalized "class cx cy w h" text
format:

- **Geometry** (`geometry.dfy`, from `APP/core/utils.py`): conversion of a
  centre-based normalized box to pixel corners (`YoloToPixels`) and back
  (`PixelsToYolo`, which floors width and height to one pixel), and
  Intersection-over-Union (`Iou`) with per-axis clamping and a zero-union guard.
  All arithmetic is over `real`.
- **Box record** (`models.dfy`, from `APP/core/models.py`): the `BBox` class.
  It is a class, not a value type, because the tool tells boxes apart by
  identity. `Normalize` delegates to `PixelsToYolo`.
- **Session state** (`store.dfy`): whether a detector is loaded, the current
  image's path and size, and the per-image box lists (ground truth,
  predictions, extras) keyed by image path. `current` stands for "an image is
  loaded and its path is `image_files[current_index]`".
- **Detector integration** (`yolo.dfy`, from `APP/AI/yolo.py`): the detector's
  output becomes the prediction list of the current image, which replaces the
  old list. Each box becomes one line of the prediction file. The module's own
  copies of the geometry helpers are proved equal to the shared ones.
  `StepOf`, `Flatten` and `Collect` are a reference definition of the
  conversion: one step per detector box, results in order and boxes in order.
  The loops in `ConvertBoxes` and `ConvertResults` are proved against it.
- **Excess-green tool** (`exg.dfy`, from `APP/MV/eXg.py`): the per-pixel
  threshold mask, computed by a nested loop over a 2-D array, and the update
  that appends one class-0 box to the current image's extras.

Two facts about the code that the model keeps:

- `predict_current_image` replaces `bboxes_pred[img_path]`
  (APP/AI/yolo.py:42) before it normalizes the lines (APP/AI/yolo.py:46). So
  a zero image width or height with at least one box raises after the store
  was replaced. `PredictCurrentImage` models this: the store is updated and
  no file is written.
- The `BBox` constructor stores its arguments as given
  (APP/core/models.py:5-10); it does not reorder the corners.

## Model

| member | source | states |
|---|---|---|
| Geometry.YoloToPixels | APP/core/utils.py:1-10 | the corners are exactly nw·w apart horizontally and nh·h apart vertically, centred on (nx·w, ny·h); nothing is clamped, and a non-negative size gives ordered corners |
| Geometry.PixelsToYolo | APP/core/utils.py:12-17 | the normalized size times the image size is the pixel size floored to 1, the box's left/top edge is kept, and for a positive image size the normalized width is at least 1/w and the height at least 1/h (so both are strictly positive) |
| Geometry.RoundTrip | APP/core/utils.py:1-17 | for every box, converting to the normalized format and back gives the box with its top-left corner kept and its width and height raised to at least one pixel |
| Geometry.RoundTripExact | APP/core/utils.py:1-17 | a box at least one pixel wide and high comes back exactly |
| Geometry.RoundTripLossy | APP/core/utils.py:13-15 | a box narrower (lower) than one pixel keeps x1 (y1) and comes back with x2 = x1 + 1 (y2 = y1 + 1), which differs from the original |
| Geometry.RoundTripFromNorm | APP/core/utils.py:1-17 | the reverse round trip: a normalized box covering at least one pixel each way is reproduced exactly |
| Geometry.Iou | APP/core/utils.py:19-28 | IoU lies in [0, 1] for all inputs, including inverted boxes; it is exactly 0 when the union is not positive, and otherwise it is the intersection divided by the union |
| Geometry.IntersectionWithinAreas | APP/core/utils.py:22-27 | the clamped intersection is non-negative and no larger than either clamped area or the union |
| Geometry.IouSymmetric | APP/core/utils.py:19-28 | IoU(a, b) = IoU(b, a) for all boxes |
| Geometry.IouSelf | APP/core/utils.py:22-28 | a box with positive area has IoU 1 with itself |
| Geometry.IouDisjoint | APP/core/utils.py:22-28 | boxes separated along either axis have IoU exactly 0 |
| Models.BBox.constructor | APP/core/models.py:4-10 | the box holds cls, x1, y1, x2, y2 and alpha exactly as passed, without reordering the corners; alpha is 1.0 when omitted |
| Models.BBox.AsTuple | APP/core/models.py:11-12 | the tuple is the stored corners in the order (x1, y1, x2, y2) |
| Models.BBox.Normalize | APP/core/models.py:13-14 | the normalized box converts back to the stored corners floored to one pixel, exactly the stored corners when the box is at least 1×1, and has positive size for a positive image size |
| Models.TwoEqualBoxes | APP/core/models.py:3-12 | two boxes built from the same arguments are distinct objects; each holds cls and the corners (x1, y1, x2, y2) as given, in that order, and alpha defaults to 1.0 |
| Yolo.StepOf | APP/AI/yolo.py:33-41 | per detector box: no xyxy means skip; an xyxy without rows raises; a first row with fewer than four values means skip; otherwise a None class raises, a missing class gives class 0, and a present class is used, with the corners taken from the first four values |
| Yolo.FlattenConcat | APP/AI/yolo.py:31-32 | the boxes of consecutive result lists are visited result by result, in order |
| Yolo.CollectConcat | APP/AI/yolo.py:31-41 | converting a concatenation puts the first part's records before the second's; an exception in either part aborts the whole conversion |
| Yolo.RaiseAt | APP/AI/yolo.py:37-41 | a box that raises after the boxes before it converted successfully aborts the conversion of its whole list |
| Yolo.RaiseIsFinal | APP/AI/yolo.py:25-54 | once a box has raised, no later box can make the conversion succeed |
| Yolo.CollectOnePerBox | APP/AI/yolo.py:33-41 | when every box has xyxy with at least four coordinates and a usable class, there is exactly one record per box, in order, built from that box's first four coordinates |
| Yolo.ConvertBoxes | APP/AI/yolo.py:32-41 | the loop over one result's boxes builds boxes whose class and corners are the reference records, with alpha 1.0, and fails exactly when the reference raises |
| Yolo.ConvertResults | APP/AI/yolo.py:30-41 | the loop over all results builds the reference records in order, or fails exactly when the reference raises |
| Yolo.PredictionLines | APP/AI/yolo.py:44-47 | one line per box in the same order, each with the box's class and a normalized box that converts back to the box floored to one pixel |
| Yolo.PredictCurrentImage | APP/AI/yolo.py:19-54 | without a model or a current image nothing changes; if a box raises nothing changes; otherwise the current image's prediction list is replaced (not extended) by one box per usable detector box, in order, while other images and all other state are untouched, and the file lines are those of `PredictionLines` unless a zero image size makes normalizing raise |
| Yolo.LocalHelpersAgree | APP/AI/yolo.py:57-84 | the module's own copies of the three geometry helpers compute the same results as the shared ones on every input |
| ExcessGreen.ExcessGreenMask | APP/MV/eXg.py:9-26 | the mask has the image's width and height, every value is 0 or 255, and a pixel is 255 exactly when G − max(R, B) is strictly greater than the threshold (equality gives 0) |
| ExcessGreen.ExcessGreenApply | APP/MV/eXg.py:34-54 | without a current image, or when the mask failed or has no region, nothing changes; otherwise exactly one class-0 box with the region's corners and alpha 1.0 is appended to the current image's extras (the list is created if absent), and all other images and state are untouched |

## Left out

- Detector loading and inference (`APP/AI/yolo.py:9-17, 26`): the detector's output is a parameter. An exception raised inside inference would leave the store unchanged, like the modelled abort path.
- File paths, writing the prediction file, the `:.6f` line formatting, message boxes and re-rendering. Prediction lines are modelled as (class, normalized box) records. An exception while writing the file happens after the store update and is not modelled.
- PyTorch details of the detector boxes. A box's xyxy is modelled as missing or as a list of rows, and the first row is the coordinate list. The branch for an xyxy without a length (iterated directly) is not modelled. The class attribute is modelled as missing (class 0), None (raises) or an already-extracted integer. Truncating a float class id with `int()` and indexing an empty class tensor are not modelled.
- Image conversion and channel splitting (`APP/MV/eXg.py:12-16`): the image is given as an array of RGB pixels indexed [x, y].
- The 3×3 maximum filter, `getbbox` and the exception path of the mask computation (`APP/MV/eXg.py:28-32, 44`): their outcome enters `ExcessGreenApply` as an input (`MaskOutcome`). Reading the threshold setting, which defaults to 50, is not modelled; the threshold is a parameter of `ExcessGreenMask`.
- IEEE-754 rounding: all coordinates are exact reals. Python's `int()`/`float()` coercions in the `BBox` constructor become the parameter types.
- Mutation of a box's fields by interactive edits happens outside these files. The fields are modelled as immutable because no modelled operation changes a box after construction.
- `APP/MV/Shapes.py` (classical shape detectors), the view transform, label-file load/save, promotion/removal/hit-testing and clamping are not part of this model: they live in OpenCV or in UI code outside the modelled files.
