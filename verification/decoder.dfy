/**
 * Decoder.swift: turns the detector's corner arrays into one overlay layer
 * per marker (an outline, dots at auxiliary points, and a text label naming
 * the block face and the cube number).
 *
 * The layers built here are fresh values that the caller receives and nobody
 * else holds, so they are modelled as datatype values rather than objects.
 */
module Decoder {

  import opened Wrappers
  import opened Geometry

  /** `enum BlockFace: String, CaseIterable` */
  datatype BlockFace = Red | Blue | Green | Yellow | White | Black | Unknown

  /** `BlockFace.allCases`, in declaration order. */
  function AllCases(): (cases: seq<BlockFace>)
    ensures |cases| == 7
    ensures forall i, j :: 0 <= i < j < |cases| ==> cases[i] != cases[j]
  {
    [Red, Blue, Green, Yellow, White, Black, Unknown]
  }

  /** Every face is listed in `allCases`. */
  lemma AllCasesComplete(face: BlockFace)
    ensures face in AllCases()
  {
    var cases := AllCases();
    match face
    case Red => assert cases[0] == face;
    case Blue => assert cases[1] == face;
    case Green => assert cases[2] == face;
    case Yellow => assert cases[3] == face;
    case White => assert cases[4] == face;
    case Black => assert cases[5] == face;
    case Unknown => assert cases[6] == face;
  }

  /** `rawValue`: each case's raw value is its own name. */
  function RawValue(face: BlockFace): (name: string)
    ensures |name| >= 3 && ' ' !in name
  {
    match face
    case Red => "red"
    case Blue => "blue"
    case Green => "green"
    case Yellow => "yellow"
    case White => "white"
    case Black => "black"
    case Unknown => "unknown"
  }

  /** `BlockFace(rawValue:)`: the failable initialiser Swift derives for a String-backed enum. */
  function FromRawValue(s: string): (face: Option<BlockFace>)
    ensures face.Some? ==> RawValue(face.value) == s
    ensures face.None? ==> forall f :: RawValue(f) != s
  {
    if s == "red" then Some(Red)
    else if s == "blue" then Some(Blue)
    else if s == "green" then Some(Green)
    else if s == "yellow" then Some(Yellow)
    else if s == "white" then Some(White)
    else if s == "black" then Some(Black)
    else if s == "unknown" then Some(Unknown)
    else None
  }

  /** Raw values identify their case: reading a raw value back gives the case, so no two cases share one. */
  lemma RawValueRoundTrip(face: BlockFace, other: BlockFace)
    ensures FromRawValue(RawValue(face)) == Some(face)
    ensures face != other ==> RawValue(face) != RawValue(other)
    ensures ' ' !in RawValue(face)
  {
  }

  // ---------------------------------------------------------------------------
  // `String(cubeNumber)`: decimal rendering of an Int, and its inverse.

  predicate IsDigit(c: char)
  {
    '0' <= c <= '9'
  }

  predicate AllDigits(s: string)
  {
    forall i :: 0 <= i < |s| ==> IsDigit(s[i])
  }

  function DigitChar(d: nat): (c: char)
    requires d < 10
    ensures IsDigit(c)
  {
    (48 + d) as char
  }

  function DigitValue(c: char): nat
    requires IsDigit(c)
  {
    c as int - 48
  }

  /** The number a string of decimal digits denotes. */
  function DigitsValue(s: string): nat
    requires AllDigits(s)
    decreases |s|
  {
    if s == [] then 0 else 10 * DigitsValue(s[..|s| - 1]) + DigitValue(s[|s| - 1])
  }

  /** Decimal digits of n, most significant first, without leading zeros. */
  function NatToString(n: nat): (s: string)
    ensures |s| >= 1 && AllDigits(s)
    ensures |s| > 1 ==> s[0] != '0'
    ensures DigitsValue(s) == n
    decreases n
  {
    if n < 10 then [DigitChar(n)]
    else
      var prefix := NatToString(n / 10);
      var s := prefix + [DigitChar(n % 10)];
      assert s[..|s| - 1] == prefix;
      s
  }

  /** Reads an optional minus sign followed by at least one decimal digit. */
  function ParseInt(s: string): (n: Option<int>)
  {
    if |s| >= 2 && s[0] == '-' && AllDigits(s[1..]) then
      var magnitude: int := DigitsValue(s[1..]);
      Some(-magnitude)
    else if |s| >= 1 && AllDigits(s) then Some(DigitsValue(s))
    else None
  }

  /**
   * `String(n)` for an Int: a minus sign exactly for negatives, then the
   * digits of the magnitude without leading zeros (so never "-0" or "007").
   */
  function IntToString(n: int): (s: string)
    ensures |s| >= 1 && ' ' !in s
    ensures (s[0] == '-') == (n < 0)
    ensures var digits := if n < 0 then s[1..] else s;
            |digits| >= 1 && AllDigits(digits) && (|digits| > 1 ==> digits[0] != '0')
    ensures ParseInt(s) == Some(n)
  {
    if n < 0 then
      var s := "-" + NatToString(-n);
      assert s[1..] == NatToString(-n);
      s
    else NatToString(n)
  }

  // ---------------------------------------------------------------------------
  // The text label.

  /** Index of the first occurrence of c in s. */
  function IndexOf(s: string, c: char): (r: Option<nat>)
    ensures r.Some? ==> r.value < |s| && s[r.value] == c && c !in s[..r.value]
    ensures r.None? ==> c !in s
    decreases |s|
  {
    if s == [] then None
    else if s[0] == c then Some(0)
    else
      match IndexOf(s[1..], c)
      case None => None
      case Some(k) =>
        assert s[..k + 1] == [s[0]] + s[1..][..k];
        Some(k + 1)
  }

  /** The index of a first occurrence is the one IndexOf finds. */
  lemma IndexOfIs(s: string, c: char, k: nat)
    requires k < |s| && s[k] == c && c !in s[..k]
    ensures IndexOf(s, c) == Some(k)
  {
    assert s[k] == c;
  }

  /** The label text: the face's raw value, one space, then the cube number in decimal. */
  function LabelText(face: BlockFace, cubeNumber: int): string
  {
    RawValue(face) + " " + IntToString(cubeNumber)
  }

  /** Splits a label at its first space and reads the face and the number back. */
  function ParseLabel(text: string): (r: Option<(BlockFace, int)>)
  {
    match IndexOf(text, ' ')
    case None => None
    case Some(k) =>
      match (FromRawValue(text[..k]), ParseInt(text[k + 1..]))
      case (Some(face), Some(n)) => Some((face, n))
      case _ => None
  }

  /** A label names its face and cube number unambiguously: parsing it gives both back. */
  lemma LabelRoundTrip(face: BlockFace, cubeNumber: int)
    ensures ParseLabel(LabelText(face, cubeNumber)) == Some((face, cubeNumber))
  {
    var name, number := RawValue(face), IntToString(cubeNumber);
    var text := LabelText(face, cubeNumber);
    RawValueRoundTrip(face, face);
    assert text[..|name|] == name;
    assert text[|name| + 1..] == number;
    IndexOfIs(text, ' ', |name|);
  }

  // ---------------------------------------------------------------------------
  // Layers.

  /** A CGRect. */
  datatype Rect = Rect(x: real, y: real, width: real, height: real)

  /** The rect of the oval drawn for one tracked point: 4 by 4, centred on the point. */
  function CircleRect(p: Point): (r: Rect)
    ensures r.width == 4.0 && r.height == 4.0
    ensures r.x + r.width / 2.0 == p.x && r.y + r.height / 2.0 == p.y
  {
    Rect(p.x - 2.0, p.y - 2.0, 4.0, 4.0)
  }

  /**
   * A sublayer of the outer CALayer: the outline CAShapeLayer, a dot
   * CAShapeLayer (an oval in a rect) or the CATextLayer.  Colours, line
   * width and font size are not modelled.
   */
  datatype Sublayer =
    | Outline(path: seq<Point>)
    | Dot(oval: Rect)
    | TextLabel(position: Point, text: string)

  /** The outer CALayer with its sublayers in the order they were added. */
  datatype OverlayLayer = OverlayLayer(sublayers: seq<Sublayer>)

  /** What `decodeOne` returns for one marker. */
  datatype Decoded = Decoded(face: BlockFace, cubeNumber: int, pointsToDraw: seq<Point>)

  function Dots(points: seq<Point>): (dots: seq<Sublayer>)
    ensures |dots| == |points|
    ensures forall i :: 0 <= i < |points| ==> dots[i] == Dot(CircleRect(points[i]))
  {
    seq(|points|, i requires 0 <= i < |points| => Dot(CircleRect(points[i])))
  }

  /** The layer `visualizeDetected` builds, as one expression. */
  function Visualized(cornerArray: seq<Point>, face: BlockFace, cubeNumber: int,
                      pointsToDraw: seq<Point>, frame: FrameGeometry): (layer: OverlayLayer)
    requires |cornerArray| >= 4 && NonDegenerate(frame)
  {
    OverlayLayer([Outline(MarkerOutline(cornerArray, frame))] + Dots(pointsToDraw)
                 + [TextLabel(TransformPoint(cornerArray[1], frame), LabelText(face, cubeNumber))])
  }

  /**
   * The layout of that layer: the outline through the transformed corners
   * first, then one dot per tracked point in input order, centred on the
   * point as given (not transformed), and last the label at the transformed
   * top-right corner (LabelRoundTrip shows the label names the face and the
   * cube number).
   */
  lemma VisualizedLayout(cornerArray: seq<Point>, face: BlockFace, cubeNumber: int,
                         pointsToDraw: seq<Point>, frame: FrameGeometry)
    requires |cornerArray| >= 4 && NonDegenerate(frame)
    ensures |Visualized(cornerArray, face, cubeNumber, pointsToDraw, frame).sublayers| == |pointsToDraw| + 2
    ensures Visualized(cornerArray, face, cubeNumber, pointsToDraw, frame).sublayers[0]
            == Outline(MarkerOutline(cornerArray, frame))
    ensures forall i :: 0 <= i < |pointsToDraw| ==>
              Visualized(cornerArray, face, cubeNumber, pointsToDraw, frame).sublayers[i + 1]
              == Dot(CircleRect(pointsToDraw[i]))
    ensures Visualized(cornerArray, face, cubeNumber, pointsToDraw, frame).sublayers[|pointsToDraw| + 1]
            == TextLabel(TransformPoint(cornerArray[1], frame), LabelText(face, cubeNumber))
  {
    var outline := Outline(MarkerOutline(cornerArray, frame));
    var dots := Dots(pointsToDraw);
    var caption := TextLabel(TransformPoint(cornerArray[1], frame), LabelText(face, cubeNumber));
    var sublayers := Visualized(cornerArray, face, cubeNumber, pointsToDraw, frame).sublayers;
    assert sublayers == [outline] + dots + [caption];
    assert sublayers[1..|pointsToDraw| + 1] == dots;
  }

  /** `visualizeDetected`, adding the sublayers one at a time. */
  method VisualizeDetected(cornerArray: seq<Point>, face: BlockFace, cubeNumber: int,
                           pointsToDraw: seq<Point>, frame: FrameGeometry) returns (outerLayer: OverlayLayer)
    requires |cornerArray| >= 4 && NonDegenerate(frame)
    ensures outerLayer == Visualized(cornerArray, face, cubeNumber, pointsToDraw, frame)
  {
    var topLeft := TransformPoint(cornerArray[0], frame);
    var topRight := TransformPoint(cornerArray[1], frame);
    var bottomLeft := TransformPoint(cornerArray[2], frame);
    var bottomRight := TransformPoint(cornerArray[3], frame);
    var path := [topLeft, topRight, bottomLeft, bottomRight, topLeft];
    var sublayers := [Outline(path)];
    for i := 0 to |pointsToDraw|
      invariant sublayers == [Outline(path)] + Dots(pointsToDraw[..i])
    {
      sublayers := sublayers + [Dot(CircleRect(pointsToDraw[i]))];
    }
    assert pointsToDraw[..|pointsToDraw|] == pointsToDraw;
    var detectedText := RawValue(face) + " " + IntToString(cubeNumber);
    sublayers := sublayers + [TextLabel(topRight, detectedText)];
    outerLayer := OverlayLayer(sublayers);
  }

  /** The layer drawn for one marker's converted corners, with `decodeOne`'s verdict on them. */
  function DecodedLayer(cornerArray: seq<Point>, frame: FrameGeometry,
                        decodeOne: seq<Point> -> Decoded): OverlayLayer
    requires |cornerArray| >= 4 && NonDegenerate(frame)
  {
    var d := decodeOne(cornerArray);
    Visualized(cornerArray, d.face, d.cubeNumber, d.pointsToDraw, frame)
  }

  /** `decodeAndVisualize`: classify the marker, then draw it. */
  method DecodeAndVisualize(cornerArray: seq<Point>, frame: FrameGeometry,
                            decodeOne: seq<Point> -> Decoded) returns (layer: OverlayLayer)
    requires |cornerArray| >= 4 && NonDegenerate(frame)
    ensures layer == DecodedLayer(cornerArray, frame, decodeOne)
  {
    var d := decodeOne(cornerArray);
    layer := VisualizeDetected(cornerArray, d.face, d.cubeNumber, d.pointsToDraw, frame);
  }

  /** The layer drawn for one detection, straight from the detector's corner array. */
  function DetectionLayer(raw: RawDetection, frame: FrameGeometry,
                          decodeOne: seq<Point> -> Decoded): OverlayLayer
    requires WellFormed(raw) && NonDegenerate(frame)
  {
    DecodedLayer(ConvertCornerArray(raw), frame, decodeOne)
  }

  /** `decode(detectedCorners:)`: one layer per detection, layer i drawn from detection i. */
  method Decode(corners: seq<RawDetection>, frame: FrameGeometry,
                decodeOne: seq<Point> -> Decoded) returns (shapeLayers: seq<OverlayLayer>)
    requires NonDegenerate(frame)
    requires forall i :: 0 <= i < |corners| ==> WellFormed(corners[i])
    ensures |shapeLayers| == |corners|
    ensures forall i :: 0 <= i < |corners| ==>
              shapeLayers[i] == DetectionLayer(corners[i], frame, decodeOne)
  {
    shapeLayers := [];
    for i := 0 to |corners|
      invariant |shapeLayers| == i
      invariant forall j :: 0 <= j < i ==>
                  shapeLayers[j] == DetectionLayer(corners[j], frame, decodeOne)
    {
      var cornerArray := ConvertCornerArray(corners[i]);
      var layer := DecodeAndVisualize(cornerArray, frame, decodeOne);
      assert layer == DetectionLayer(corners[i], frame, decodeOne);
      shapeLayers := shapeLayers + [layer];
    }
  }
}
