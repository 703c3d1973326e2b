/**
 * Points, affine transforms and the marker-corner conventions shared by
 * ViewController.swift and Decoder.swift.  Float and CGFloat values are
 * modelled as reals.
 */
module Geometry {

  datatype Point = Point(x: real, y: real)

  datatype Size = Size(width: real, height: real)

  /** A CGAffineTransform: the matrix [a b 0; c d 0; tx ty 1], applied to row vectors. */
  datatype Affine = Affine(a: real, b: real, c: real, d: real, tx: real, ty: real)

  const Identity := Affine(1.0, 0.0, 0.0, 1.0, 0.0, 0.0)

  /** A point transformed by an affine transform (`applying`). */
  function Apply(t: Affine, p: Point): Point
  {
    Point(t.a * p.x + t.c * p.y + t.tx, t.b * p.x + t.d * p.y + t.ty)
  }

  /** A pure scaling transform. */
  function Scale(sx: real, sy: real): Affine
  {
    Affine(sx, 0.0, 0.0, sy, 0.0, 0.0)
  }

  /** `t1.concatenating(t2)`: the matrix product t1 * t2. */
  function Concat(t1: Affine, t2: Affine): Affine
  {
    Affine(t1.a * t2.a + t1.b * t2.c, t1.a * t2.b + t1.b * t2.d,
           t1.c * t2.a + t1.d * t2.c, t1.c * t2.b + t1.d * t2.d,
           t1.tx * t2.a + t1.ty * t2.c + t2.tx, t1.tx * t2.b + t1.ty * t2.d + t2.ty)
  }

  /** Applying a concatenation applies t1 first and t2 second. */
  lemma ConcatApplies(t1: Affine, t2: Affine, p: Point)
    ensures Apply(Concat(t1, t2), p) == Apply(t2, Apply(t1, p))
  {
    var q := Apply(t1, p);
    calc {
      Apply(t2, q).x;
      t2.a * (t1.a * p.x + t1.c * p.y + t1.tx) + t2.c * (t1.b * p.x + t1.d * p.y + t1.ty) + t2.tx;
      (t1.a * t2.a + t1.b * t2.c) * p.x + (t1.c * t2.a + t1.d * t2.c) * p.y + (t1.tx * t2.a + t1.ty * t2.c + t2.tx);
      Apply(Concat(t1, t2), p).x;
    }
    calc {
      Apply(t2, q).y;
      t2.b * (t1.a * p.x + t1.c * p.y + t1.tx) + t2.d * (t1.b * p.x + t1.d * p.y + t1.ty) + t2.ty;
      (t1.a * t2.b + t1.b * t2.d) * p.x + (t1.c * t2.b + t1.d * t2.d) * p.y + (t1.tx * t2.b + t1.ty * t2.d + t2.ty);
      Apply(Concat(t1, t2), p).y;
    }
  }

  /**
   * What `transformPoint` reads from the frame and the view: the pixel size
   * of the captured image, ARKit's display transform for the current
   * orientation (opaque here) and the viewport size in points.
   */
  datatype FrameGeometry = FrameGeometry(imageWidth: nat, imageHeight: nat, display: Affine, viewport: Size)

  predicate NonDegenerate(frame: FrameGeometry)
  {
    frame.imageWidth > 0 && frame.imageHeight > 0
  }

  /** The one transform `transformPoint` applies: normalise, then the display transform, then scale to the viewport. */
  function ImageToViewport(frame: FrameGeometry): Affine
    requires NonDegenerate(frame)
  {
    Concat(Concat(Scale(1.0 / frame.imageWidth as real, 1.0 / frame.imageHeight as real), frame.display),
           Scale(frame.viewport.width, frame.viewport.height))
  }

  /** The image point as a fraction of the image size. */
  function Normalized(p: Point, frame: FrameGeometry): (n: Point)
    requires NonDegenerate(frame)
  {
    Point(p.x / frame.imageWidth as real, p.y / frame.imageHeight as real)
  }

  /** Scaling by the reciprocal image size is the normalisation. */
  lemma NormalizeApplies(p: Point, frame: FrameGeometry)
    requires NonDegenerate(frame)
    ensures Apply(Scale(1.0 / frame.imageWidth as real, 1.0 / frame.imageHeight as real), p) == Normalized(p, frame)
  {
    var w, h := frame.imageWidth as real, frame.imageHeight as real;
    assert (1.0 / w) * p.x == p.x / w;
    assert (1.0 / h) * p.y == p.y / h;
  }

  /** `transformPoint`: the concatenated transform applied to one image point. */
  function TransformPoint(p: Point, frame: FrameGeometry): Point
    requires NonDegenerate(frame)
  {
    Apply(ImageToViewport(frame), p)
  }

  /**
   * Image pixel space to viewport space in three steps: normalise by the
   * image size first, then apply the display transform, then scale to the
   * viewport.
   */
  lemma TransformPointSteps(p: Point, frame: FrameGeometry)
    requires NonDegenerate(frame)
    ensures TransformPoint(p, frame)
            == Apply(Scale(frame.viewport.width, frame.viewport.height), Apply(frame.display, Normalized(p, frame)))
  {
    var normalize := Scale(1.0 / frame.imageWidth as real, 1.0 / frame.imageHeight as real);
    var toViewport := Scale(frame.viewport.width, frame.viewport.height);
    calc {
      TransformPoint(p, frame);
      Apply(Concat(Concat(normalize, frame.display), toViewport), p);
      { ConcatApplies(Concat(normalize, frame.display), toViewport, p); }
      Apply(toViewport, Apply(Concat(normalize, frame.display), p));
      { ConcatApplies(normalize, frame.display, p); }
      Apply(toViewport, Apply(frame.display, Apply(normalize, p)));
      { NormalizeApplies(p, frame); }
      Apply(toViewport, Apply(frame.display, Normalized(p, frame)));
    }
  }

  /**
   * With the identity display transform the image's origin maps to the
   * viewport's origin and the image's far corner to the viewport's far corner.
   */
  lemma IdentityDisplayCorners(frame: FrameGeometry)
    requires NonDegenerate(frame) && frame.display == Identity
    ensures TransformPoint(Point(0.0, 0.0), frame) == Point(0.0, 0.0)
    ensures TransformPoint(Point(frame.imageWidth as real, frame.imageHeight as real), frame)
            == Point(frame.viewport.width, frame.viewport.height)
  {
    var far := Point(frame.imageWidth as real, frame.imageHeight as real);
    var toViewport := Scale(frame.viewport.width, frame.viewport.height);
    TransformPointSteps(Point(0.0, 0.0), frame);
    TransformPointSteps(far, frame);
    assert Normalized(Point(0.0, 0.0), frame) == Point(0.0, 0.0);
    assert Apply(Identity, Point(0.0, 0.0)) == Point(0.0, 0.0);
    assert Apply(toViewport, Point(0.0, 0.0)) == Point(0.0, 0.0);
    assert Normalized(far, frame) == Point(1.0, 1.0);
    assert Apply(Identity, Point(1.0, 1.0)) == Point(1.0, 1.0);
    assert Apply(toViewport, Point(1.0, 1.0)) == Point(frame.viewport.width, frame.viewport.height);
  }

  /** One detector corner, `[row, column]` as Floats. */
  type RawCorner = seq<real>

  /** One detected marker: its corners in the order top-left, top-right, bottom-left, bottom-right. */
  type RawDetection = seq<RawCorner>

  /** The corner indexing both files perform does not trap. */
  predicate WellFormed(raw: RawDetection)
  {
    |raw| >= 4 && forall k :: 0 <= k < 4 ==> |raw[k]| >= 2
  }

  /** The detector's `[row, column]` as an image point: x is the column, y the row. */
  function CornerPoint(c: RawCorner): Point
    requires |c| >= 2
  {
    Point(c[1], c[0])
  }

  /** The inverse of CornerPoint: a point back in the detector's `[row, column]` layout. */
  function PointToCorner(p: Point): RawCorner
  {
    [p.y, p.x]
  }

  /** `convertCornerArray`: the first four corners, swapped to (x: column, y: row), in TL, TR, BL, BR order. */
  function ConvertCornerArray(raw: RawDetection): (points: seq<Point>)
    requires WellFormed(raw)
    ensures |points| == 4
    ensures forall k :: 0 <= k < 4 ==> points[k].x == raw[k][1] && points[k].y == raw[k][0]
  {
    [CornerPoint(raw[0]), CornerPoint(raw[1]), CornerPoint(raw[2]), CornerPoint(raw[3])]
  }

  /** Four points in the detector's layout. */
  function ToRawDetection(points: seq<Point>): (raw: RawDetection)
    ensures |raw| == |points|
  {
    seq(|points|, i requires 0 <= i < |points| => PointToCorner(points[i]))
  }

  /** Swapping is its own inverse: converting and writing back loses nothing from four `[row, column]` pairs. */
  lemma ConvertRoundTrip(raw: RawDetection, points: seq<Point>)
    requires |raw| == 4 && forall k :: 0 <= k < 4 ==> |raw[k]| == 2
    requires |points| == 4
    ensures ToRawDetection(ConvertCornerArray(raw)) == raw
    ensures ConvertCornerArray(ToRawDetection(points)) == points
  {
    var back := ToRawDetection(ConvertCornerArray(raw));
    forall k | 0 <= k < 4
      ensures back[k] == raw[k]
    {
      assert back[k] == [raw[k][0], raw[k][1]];
    }
  }

  /**
   * The closed UIBezierPath both files draw around a marker: move to the
   * transformed top-left corner, lines to top-right, bottom-left,
   * bottom-right and back to top-left.
   */
  function MarkerOutline(corners: seq<Point>, frame: FrameGeometry): (path: seq<Point>)
    requires |corners| >= 4 && NonDegenerate(frame)
    ensures |path| == 5 && path[4] == path[0]
    ensures forall k :: 0 <= k < 4 ==> path[k] == TransformPoint(corners[k], frame)
  {
    var topLeft := TransformPoint(corners[0], frame);
    [topLeft, TransformPoint(corners[1], frame), TransformPoint(corners[2], frame),
     TransformPoint(corners[3], frame), topLeft]
  }

  /**
   * The outline `drawPaths` strokes for one detection, written out corner by
   * corner, is the outline of its converted corners.
   */
  lemma DetectionOutline(raw: RawDetection, frame: FrameGeometry)
    requires WellFormed(raw) && NonDegenerate(frame)
    ensures MarkerOutline(ConvertCornerArray(raw), frame)
            == [TransformPoint(Point(raw[0][1], raw[0][0]), frame), TransformPoint(Point(raw[1][1], raw[1][0]), frame),
                TransformPoint(Point(raw[2][1], raw[2][0]), frame), TransformPoint(Point(raw[3][1], raw[3][0]), frame),
                TransformPoint(Point(raw[0][1], raw[0][0]), frame)]
  {
  }
}
