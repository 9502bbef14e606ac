/**
 * Detector integration (APP/AI/yolo.py): turning the detector's output into
 * the prediction list of the current image and into the lines of its
 * prediction file, plus the module's own copies of the geometry helpers.
 * Inference itself is a black box: its output is a parameter.
 */
module Yolo {

  import opened Wrappers
  import opened Geometry
  import opened Models
  import opened Store

  /** The `cls` attribute of a detector box: missing, present but None, or a class id. */
  datatype ClassAttr = ClsAbsent | ClsNone | ClsValue(id: int)

  /** The `xyxy` attribute of a detector box: missing (or None), or its rows of coordinates. */
  datatype XyAttr = XyMissing | XyRows(rows: seq<seq<real>>)

  datatype DetectedBox = DetectedBox(xyxy: XyAttr, cls: ClassAttr)

  /** One element of the detector's result list. */
  datatype DetectionResult = DetectionResult(boxes: seq<DetectedBox>)

  /** What the conversion keeps of a box: its class and corners. */
  datatype Detection = Detection(cls: int, box: Corners)

  /** What happens to one detector box: skipped, turned into a record, or an exception is raised. */
  datatype Step = Skip | Emit(d: Detection) | Raise

  /** One line of the prediction file: the class followed by the normalized box. */
  datatype PredictionLine = PredictionLine(cls: int, n: Norm)

  /**
   * A box without xyxy is skipped; an empty xyxy has no first row and raises;
   * a first row with fewer than four values is skipped; otherwise the class is
   * the cls attribute (0 when missing, an error when None).
   */
  function StepOf(b: DetectedBox): (r: Step)
    ensures b.xyxy.XyMissing? ==> r.Skip?
    ensures b.xyxy.XyRows? && |b.xyxy.rows| == 0 ==> r.Raise?
    ensures b.xyxy.XyRows? && |b.xyxy.rows| > 0 && |b.xyxy.rows[0]| < 4 ==> r.Skip?
    ensures b.xyxy.XyRows? && |b.xyxy.rows| > 0 && |b.xyxy.rows[0]| >= 4 ==>
      var coords := b.xyxy.rows[0];
      && (r.Raise? <==> b.cls.ClsNone?)
      && (b.cls.ClsAbsent? ==> r == Emit(Detection(0, Corners(coords[0], coords[1], coords[2], coords[3]))))
      && (b.cls.ClsValue? ==> r == Emit(Detection(b.cls.id, Corners(coords[0], coords[1], coords[2], coords[3]))))
  {
    match b.xyxy
    case XyMissing => Skip
    case XyRows(rows) =>
      if |rows| == 0 then Raise
      else
        var coords := rows[0];
        if |coords| < 4 then Skip
        else
          var box := Corners(coords[0], coords[1], coords[2], coords[3]);
          match b.cls
          case ClsAbsent => Emit(Detection(0, box))
          case ClsNone => Raise
          case ClsValue(k) => Emit(Detection(k, box))
  }

  /** All detector boxes, results in order and boxes in order within each result. */
  function Flatten(rs: seq<DetectionResult>): (bs: seq<DetectedBox>) {
    if |rs| == 0 then [] else Flatten(rs[..|rs| - 1]) + rs[|rs| - 1].boxes
  }

  /** The records built from `bs` in order, or None when one of them raises. */
  function Collect(bs: seq<DetectedBox>): (out: Option<seq<Detection>>) {
    if |bs| == 0 then Some([])
    else
      match Collect(bs[..|bs| - 1])
      case None => None
      case Some(ds) =>
        match StepOf(bs[|bs| - 1])
        case Skip => Some(ds)
        case Raise => None
        case Emit(d) => Some(ds + [d])
  }

  function Join(a: Option<seq<Detection>>, b: Option<seq<Detection>>): (j: Option<seq<Detection>>) {
    if a.Some? && b.Some? then Some(a.value + b.value) else None
  }

  lemma {:induction false} FlattenConcat(a: seq<DetectionResult>, b: seq<DetectionResult>)
    ensures Flatten(a + b) == Flatten(a) + Flatten(b)
    decreases |b|
  {
    if |b| == 0 {
      assert a + b == a;
    } else {
      var b' := b[..|b| - 1];
      assert (a + b)[..|a + b| - 1] == a + b';
      FlattenConcat(a, b');
      assert b[..|b| - 1] == b';
    }
  }

  /**
   * Converting a concatenation converts each part and keeps the first part's
   * records first; an exception in either part aborts the whole.
   */
  lemma {:induction false} CollectConcat(a: seq<DetectedBox>, b: seq<DetectedBox>)
    ensures Collect(a + b) == Join(Collect(a), Collect(b))
    decreases |b|
  {
    if |b| == 0 {
      assert a + b == a;
      assert Collect(b) == Some([]);
      if Collect(a).Some? {
        assert Collect(a).value + [] == Collect(a).value;
      }
    } else {
      var b' := b[..|b| - 1];
      assert (a + b)[..|a + b| - 1] == a + b';
      assert (a + b)[|a + b| - 1] == b[|b| - 1];
      CollectConcat(a, b');
      match Collect(a) {
        case None =>
        case Some(da) =>
          match Collect(b') {
            case None =>
            case Some(db) =>
              match StepOf(b[|b| - 1]) {
                case Skip =>
                case Raise =>
                case Emit(d) =>
                  assert da + (db + [d]) == (da + db) + [d];
              }
          }
      }
    }
  }

  /**
   * When no box is skipped or raises, the conversion yields exactly one
   * record per box, in the boxes' order.
   */
  lemma {:induction false} CollectOnePerBox(bs: seq<DetectedBox>)
    requires forall i :: 0 <= i < |bs| ==> StepOf(bs[i]).Emit?
    ensures Collect(bs).Some? && |Collect(bs).value| == |bs|
    ensures forall i :: 0 <= i < |bs| ==> Collect(bs).value[i] == StepOf(bs[i]).d
    decreases |bs|
  {
    if |bs| > 0 {
      var init := bs[..|bs| - 1];
      CollectOnePerBox(init);
      assert Collect(bs).value == Collect(init).value + [StepOf(bs[|bs| - 1]).d];
    }
  }

  /** The class and corners of each box, in order. */
  function Detections(bs: seq<BBox>): (ds: seq<Detection>)
    ensures |ds| == |bs|
  {
    seq(|bs|, i requires 0 <= i < |bs| => Detection(bs[i].cls, bs[i].AsTuple()))
  }

  /**
   * One line per box, in order, each with the box's class and a normalized
   * box that converts back to the box floored to one pixel.
   */
  function PredictionLines(bs: seq<BBox>, w: real, h: real): (ls: seq<PredictionLine>)
    requires bs == [] || (w != 0.0 && h != 0.0)
    ensures |ls| == |bs|
    ensures forall i :: 0 <= i < |bs| ==>
      ls[i].cls == bs[i].cls && YoloToPixels(ls[i].n, w, h) == AtLeastOnePixel(bs[i].AsTuple())
  {
    seq(|bs|, i requires 0 <= i < |bs| => PredictionLine(bs[i].cls, bs[i].Normalize(w, h)))
  }

  /** Once the conversion has raised, no further boxes can rescue it. */
  lemma RaiseIsFinal(a: seq<DetectedBox>, b: seq<DetectedBox>)
    requires Collect(a).None?
    ensures Collect(a + b).None?
  {
    CollectConcat(a, b);
  }

  /** A box that raises, reached after a successful prefix, aborts the whole list. */
  lemma RaiseAt(done: seq<DetectedBox>, frame: seq<DetectedBox>, j: int)
    requires 0 <= j < |frame|
    requires Collect(done + frame[..j]).Some?
    requires StepOf(frame[j]).Raise?
    ensures Collect(done + frame).None?
  {
    var upto := done + frame[..j + 1];
    assert upto[..|upto| - 1] == done + frame[..j];
    assert upto[|upto| - 1] == frame[j];
    assert Collect(upto).None?;
    assert frame == frame[..j + 1] + frame[j + 1..];
    assert done + frame == upto + frame[j + 1..];
    RaiseIsFinal(upto, frame[j + 1..]);
  }

  /**
   * The inner loop over one result's boxes: extends `boxes`, the boxes built
   * so far from `done`, with those built from `frame`, or reports None when a
   * box raises.
   */
  method ConvertBoxes(ghost done: seq<DetectedBox>, boxes: seq<BBox>, frame: seq<DetectedBox>)
    returns (out: Option<seq<BBox>>)
    requires Collect(done) == Some(Detections(boxes))
    requires forall b <- boxes :: b.alpha == 1.0
    ensures out.None? <==> Collect(done + frame).None?
    ensures out.Some? ==> Collect(done + frame) == Some(Detections(out.value))
    ensures out.Some? ==> forall b <- out.value :: b.alpha == 1.0
  {
    var acc := boxes;
    var j := 0;
    assert done + frame[..j] == done;
    while j < |frame|
      invariant 0 <= j <= |frame|
      invariant Collect(done + frame[..j]) == Some(Detections(acc))
      invariant forall b <- acc :: b.alpha == 1.0
    {
      ghost var prefix := done + frame[..j];
      assert prefix + [frame[j]] == done + frame[..j + 1];
      assert (prefix + [frame[j]])[..|prefix|] == prefix;
      var b := frame[j];
      if b.xyxy.XyRows? {
        var rows := b.xyxy.rows;
        if |rows| == 0 {
          RaiseAt(done, frame, j);
          return None;
        }
        var coords := rows[0];
        if |coords| >= 4 {
          var cls;
          match b.cls {
            case ClsAbsent => cls := 0;
            case ClsNone =>
              RaiseAt(done, frame, j);
              return None;
            case ClsValue(k) => cls := k;
          }
          var bb := new BBox(cls, coords[0], coords[1], coords[2], coords[3]);
          assert Detections(acc + [bb]) == Detections(acc) + [Detection(bb.cls, bb.AsTuple())];
          acc := acc + [bb];
        }
      }
      j := j + 1;
    }
    assert frame[..j] == frame;
    return Some(acc);
  }

  /** The outer loop over the detector's results: the boxes built from all of them, in order. */
  method ConvertResults(results: seq<DetectionResult>) returns (out: Option<seq<BBox>>)
    ensures out.None? <==> Collect(Flatten(results)).None?
    ensures out.Some? ==> Collect(Flatten(results)) == Some(Detections(out.value))
    ensures out.Some? ==> forall b <- out.value :: b.alpha == 1.0
  {
    var boxes: seq<BBox> := [];
    var i := 0;
    while i < |results|
      invariant 0 <= i <= |results|
      invariant Collect(Flatten(results[..i])) == Some(Detections(boxes))
      invariant forall b <- boxes :: b.alpha == 1.0
    {
      assert results[..i + 1] == results[..i] + [results[i]];
      FlattenConcat(results[..i], [results[i]]);
      assert Flatten([results[i]]) == Flatten([results[i]][..0]) + results[i].boxes;
      var next := ConvertBoxes(Flatten(results[..i]), boxes, results[i].boxes);
      if next.None? {
        assert results == results[..i + 1] + results[i + 1..];
        FlattenConcat(results[..i + 1], results[i + 1..]);
        RaiseIsFinal(Flatten(results[..i + 1]), Flatten(results[i + 1..]));
        return None;
      }
      boxes := next.value;
      i := i + 1;
    }
    assert results[..i] == results;
    return Some(boxes);
  }

  /**
   * Runs the conversion on the detector's output `results` for the current
   * image. Returns the new state and the lines written to the prediction
   * file (None when no file is written).
   */
  method PredictCurrentImage(s: Session, results: seq<DetectionResult>)
    returns (s': Session, written: Option<seq<PredictionLine>>)
    ensures !s.modelLoaded || s.current.None? ==> s' == s && written == None
    ensures s.modelLoaded && s.current.Some? && Collect(Flatten(results)).None? ==>
      s' == s && written == None
    ensures s.modelLoaded && s.current.Some? && Collect(Flatten(results)).Some? ==>
      var p := s.current.value;
      var recs := Collect(Flatten(results)).value;
      && p in s'.pred
      && s' == s.(pred := s.pred[p := s'.pred[p]])
      && Detections(s'.pred[p]) == recs
      && (forall b <- s'.pred[p] :: b.alpha == 1.0)
      && written == (if recs != [] && (s.imgW == 0 || s.imgH == 0) then None
                     else Some(PredictionLines(s'.pred[p], s.imgW as real, s.imgH as real)))
  {
    if !s.modelLoaded {
      return s, None;
    }
    if s.current.None? {
      return s, None;
    }
    var p := s.current.value;
    var out := ConvertResults(results);
    if out.None? {
      return s, None;
    }
    var boxes := out.value;
    s' := s.(pred := s.pred[p := boxes]);
    if boxes != [] && (s.imgW == 0 || s.imgH == 0) {
      written := None;
    } else {
      written := Some(PredictionLines(boxes, s.imgW as real, s.imgH as real));
    }
  }

  // The module keeps its own copies of the geometry helpers.

  function LocalYoloToPixels(n: Norm, w: real, h: real): (c: Corners) {
    var cx := n.nx * w;
    var cy := n.ny * h;
    var bw := n.nw * w;
    var bh := n.nh * h;
    Corners(cx - bw / 2.0, cy - bh / 2.0, cx + bw / 2.0, cy + bh / 2.0)
  }

  function LocalPixelsToYolo(c: Corners, w: real, h: real): (n: Norm)
    requires w != 0.0 && h != 0.0
  {
    var bw := if 1.0 >= c.x2 - c.x1 then 1.0 else c.x2 - c.x1;
    var bh := if 1.0 >= c.y2 - c.y1 then 1.0 else c.y2 - c.y1;
    var cx := c.x1 + bw / 2.0;
    var cy := c.y1 + bh / 2.0;
    Norm(cx / w, cy / h, bw / w, bh / h)
  }

  function LocalCalculateIou(b1: Corners, b2: Corners): (r: real) {
    var ix1 := Max(b1.x1, b2.x1);
    var iy1 := Max(b1.y1, b2.y1);
    var ix2 := Min(b1.x2, b2.x2);
    var iy2 := Min(b1.y2, b2.y2);
    var inter := Max(0.0, ix2 - ix1) * Max(0.0, iy2 - iy1);
    var a1 := Max(0.0, b1.x2 - b1.x1) * Max(0.0, b1.y2 - b1.y1);
    var a2 := Max(0.0, b2.x2 - b2.x1) * Max(0.0, b2.y2 - b2.y1);
    var union := a1 + a2 - inter;
    if union > 0.0 then inter / union else 0.0
  }

  /** The copies agree with the shared helpers on every input. */
  lemma LocalHelpersAgree(n: Norm, c: Corners, a: Corners, b: Corners, w: real, h: real)
    ensures LocalYoloToPixels(n, w, h) == YoloToPixels(n, w, h)
    ensures w != 0.0 && h != 0.0 ==> LocalPixelsToYolo(c, w, h) == PixelsToYolo(c, w, h)
    ensures LocalCalculateIou(a, b) == Iou(a, b)
  {
  }
}
