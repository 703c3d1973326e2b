# cvAruco overlay and node bookkeeping, modelled in Dafny

cvAruco is an iOS app that runs an ArUco marker detector on each ARKit camera
frame and draws what it finds over the camera view. Its core has three parts,
and this project models each one and proves properties about it:

- **Slot reconciliation of the marker outlines.** `drawPaths` in
  `ViewController.swift` keeps one `CAShapeLayer` outline per detected marker
  in the field `shapeLayers`, reusing slots by position.
  - Detection i always lands in slot i. A slot that already exists has its old
    layer detached from `view.layer` and is overwritten; otherwise a new slot
    is appended. Either way the new layer is attached.
  - Afterwards the surplus slots are detached and popped, last slot first.
  - The model is the class `ViewController.ViewController`. Its field
    `shapeLayers` holds `ShapeLayer` objects, so layer identity matters. A
    ghost log `layerEvents` records every attach and detach call.
  - The module `OverlaySlots` states the same algorithm on values:
    - `FillSlots` gives the slot list after the first loop;
    - `FillEvents`, `TrimEvents` and `ReconcileEvents` give the event sequences;
    - `ApplyAll` replays an event sequence onto a set of attached layers.
  - Its lemmas state the event order, the net effect on the attached set, and
    how often each layer is attached and detached.
- **The id-keyed cache of scene nodes.** This is `findCube` and
  `updateContentNodeCache` in `ViewController.swift`.
  - `findCube` is a linear find-first over the root node's children for an
    `ArucoNode` with a given id.
  - `updateContentNodeCache` gives the found cube a new world transform, or
    appends a new cube when none is found.
  - The only call to `updateContentNodeCache` is commented out
    (ViewController.swift line 111), so the app as written never runs it;
    the model covers the function on its own.
  - The module `NodeCache` holds the pure specification (`FindFirst`,
    `Upsert`, `UpsertAll`) and its lemmas. The class methods `FindCube` and
    `UpdateContentNodeCache` are proved against it.
- **Decoding and overlay assembly.** This is `Decoder.swift`.
  - Corner arrays arrive as `[row, column]` pairs. They are converted to
    points, classified by `decodeOne`, and drawn as one layer each.
  - Each layer is a closed five-point outline, one dot per tracked point, and
    a text label `"<face> <number>"`.
  - The module `Decoder` models the `BlockFace` enum and its raw values.
  - It also models `String(Int)` together with a parser that inverts it, so
    the label provably names its face and number.
  - The layer structure is a value (`Visualized`). The methods
    `VisualizeDetected`, `DecodeAndVisualize` and `Decode` build it step by
    step, as the source does.

The geometry shared by both files lives in the module `Geometry`:
- `CGAffineTransform` as `Affine`, with `applying` and `concatenating`;
- `transformPoint` as `TransformPoint`, composed from the normalisation, the
  display transform and the viewport scaling;
- the corner swap `ConvertCornerArray`;
- `MarkerOutline`, the closed path TL → TR → BL → BR → TL.

Three choices follow the code as written:
- The code indexes corner arrays without checking and traps on a malformed
  detection, so the model requires well-formed detections (`WellFormed`).
- The code divides by the image width and height, so the model requires a
  non-degenerate frame (`NonDegenerate`).
- The outlines `drawPaths` keeps are plain outlines, with no dots and no
  label; only the layers of `Decoder.swift` carry dots and a label.

## Model

| member | source | states |
|---|---|---|
| Geometry.ConcatApplies | cvAruco/ViewController.swift:133 | Applying `t1.concatenating(t2)` to a point applies t1 first and then t2. |
| Geometry.NormalizeApplies | cvAruco/ViewController.swift:128 | Scaling by the reciprocal image size divides x by the width and y by the height. |
| Geometry.ImageToViewport | cvAruco/ViewController.swift:128-133 | The single transform `transformPoint` applies: the normalisation concatenated with the display transform, concatenated with the viewport scaling. TransformPointSteps states what it does to a point. |
| Geometry.TransformPoint | cvAruco/ViewController.swift:117-134 | `transformPoint` in both files: that transform applied to one image point. TransformPointSteps and IdentityDisplayCorners state its meaning. |
| Geometry.TransformPointSteps | cvAruco/ViewController.swift:117-134 | `transformPoint` normalises by the image size, then applies the display transform, then scales to the viewport, in that order. |
| Geometry.IdentityDisplayCorners | cvAruco/Decoder.swift:47-54 | With the identity display transform, the image origin maps to the viewport origin and the far image corner maps to the far viewport corner. |
| Geometry.ConvertCornerArray | cvAruco/Decoder.swift:56-62 | Exactly four points; point k has x = raw[k][1] and y = raw[k][0]. |
| Geometry.ConvertRoundTrip | cvAruco/Decoder.swift:56-62 | The swap loses nothing: writing the points back as `[row, column]` gives the raw corners, and converting written-back points gives the points. |
| Geometry.MarkerOutline | cvAruco/Decoder.swift:66-75 | The path has five points, the last equals the first, and point k is corner k passed through `transformPoint`. |
| Geometry.DetectionOutline | cvAruco/ViewController.swift:143-152 | The outline `drawPaths` writes out corner by corner, reading (x: corners[k][1], y: corners[k][0]), equals the outline of the converted corner array. |
| Decoder.AllCases | cvAruco/Decoder.swift:13-21 | `allCases` has exactly seven pairwise-distinct cases. |
| Decoder.AllCasesComplete | cvAruco/Decoder.swift:13-21 | Every face, `unknown` included, is among `allCases`. |
| Decoder.RawValue | cvAruco/Decoder.swift:14-20 | Each case's raw value is its own name. The contract says it is non-empty and contains no space. RawValueRoundTrip shows the raw values are distinct and read back to their face. |
| Decoder.FromRawValue | cvAruco/Decoder.swift:13-21 | `BlockFace(rawValue:)` returns a face only when that face's raw value is the string, and nil only when no face has that raw value. |
| Decoder.RawValueRoundTrip | cvAruco/Decoder.swift:13-21 | Reading a raw value back gives its face, so distinct faces have distinct raw values; no raw value contains a space. |
| Decoder.NatToString | cvAruco/Decoder.swift:93 | The decimal rendering is non-empty, all digits, has no leading zero, and denotes the number. |
| Decoder.IntToString | cvAruco/Decoder.swift:93 | `String(cubeNumber)` is non-empty and has no space. It starts with a minus sign exactly when the number is negative, and the digits after it have no leading zero, so "-0" and "007" never occur. It parses back to the number. |
| Decoder.LabelText | cvAruco/Decoder.swift:93 | The label: the face's raw value, one space, then the cube number. LabelRoundTrip shows it splits back into both. |
| Decoder.LabelRoundTrip | cvAruco/Decoder.swift:93 | Splitting the label at its first space gives back both the face and the cube number. |
| Decoder.CircleRect | cvAruco/Decoder.swift:87 | The dot's rect is 4 by 4 and centred on the point. |
| Decoder.Visualized | cvAruco/Decoder.swift:64-102 | The finished outer layer as one value: the outline, the dots, then the label. VisualizedLayout states its layout, and VisualizeDetected builds it step by step. |
| Decoder.DecodedLayer | cvAruco/Decoder.swift:41-45 | `decodeOne`'s face, number and tracked points for the corners, drawn as Visualized. DecodeAndVisualize computes it. |
| Decoder.DetectionLayer | cvAruco/Decoder.swift:34-36 | The layer for one raw detection: its corners converted, then classified and drawn. Decode returns one per detection. |
| Decoder.Dots | cvAruco/Decoder.swift:85-90 | One dot per tracked point, in input order, each centred on the untransformed point. |
| Decoder.VisualizedLayout | cvAruco/Decoder.swift:64-102 | The sublayers are the outline through the transformed corners, then one dot per tracked point in order, then the label at the transformed top-right corner; there are `pointsToDraw.count + 2` of them. |
| Decoder.VisualizeDetected | cvAruco/Decoder.swift:64-102 | Adding sublayers one at a time, including the loop over the tracked points, builds exactly the layer whose layout VisualizedLayout states. |
| Decoder.DecodeAndVisualize | cvAruco/Decoder.swift:41-45 | The layer is `decodeOne`'s verdict on the corners, drawn by `visualizeDetected`. |
| Decoder.Decode | cvAruco/Decoder.swift:32-39 | One layer per corner array; layer i is drawn from the converted corners of detection i. |
| OverlaySlots.FillSlots | cvAruco/ViewController.swift:140-169 | After the first loop the list has max(old count, detection count) slots: slots below the detection count hold the new layers, and the old layers stay above it. |
| OverlaySlots.SlotEvents | cvAruco/ViewController.swift:160-168 | The calls for slot i: detach the old layer if the slot existed, then attach the new one. FillOrder and SlotNet state their order and effect. |
| OverlaySlots.FillEvents | cvAruco/ViewController.swift:140-169 | The calls of the first loop, slot after slot. FillOrder, FillNet and FillCounts state their order, net effect and counts. |
| OverlaySlots.TrimEvents | cvAruco/ViewController.swift:170-174 | The calls of the trim loop, one detach per popped slot. TrimOrder, TrimNet and TrimCounts state their order, net effect and counts. |
| OverlaySlots.ReconcileEvents | cvAruco/ViewController.swift:140-174 | The calls of one whole `drawPaths`: the first loop's, then the trim loop's. ReconcileNet, ReconcileReplay and ReconcileCounts state its net effect and counts. |
| OverlaySlots.FillStep | cvAruco/ViewController.swift:160-168 | One iteration overwrites slot i when it exists and appends otherwise; it adds the events of that one slot. |
| OverlaySlots.FillOrder | cvAruco/ViewController.swift:160-168 | In the first loop, each existing slot's old layer is detached right before its new layer is attached. Past the old length, each new layer is only attached. |
| OverlaySlots.TrimOrder | cvAruco/ViewController.swift:170-174 | The trim loop detaches one layer per surplus slot, highest index first. |
| OverlaySlots.FillNet | cvAruco/ViewController.swift:160-168 | After the first loop, the replaced old layers are off screen and every new layer is on screen. |
| OverlaySlots.TrimNet | cvAruco/ViewController.swift:170-174 | Popping down to n slots detaches exactly the layers in the popped slots. |
| OverlaySlots.ReconcileNet | cvAruco/ViewController.swift:136-176 | Over one whole call, every old layer leaves the screen and every new layer joins it. |
| OverlaySlots.ReconcileReplay | cvAruco/ViewController.swift:136-176 | If the log shows exactly the old layers on screen, the log plus one call shows exactly the new layers, each listed once. |
| OverlaySlots.FillCounts | cvAruco/ViewController.swift:160-168 | In the first loop each new layer is attached once, and each replaced old layer is detached once. |
| OverlaySlots.TrimCounts | cvAruco/ViewController.swift:170-174 | The trim loop attaches nothing and detaches each popped layer once. |
| OverlaySlots.ReconcileCounts | cvAruco/ViewController.swift:160-174 | Over one call, each new layer is attached exactly once and never detached. Each old layer is detached exactly once and never re-attached. |
| NodeCache.FindFirst | cvAruco/ViewController.swift:68-78 | Returns the first child that is an ArucoNode with the id, skipping all other children; returns nil iff there is no such child. |
| NodeCache.FindFirstIs | cvAruco/ViewController.swift:68-78 | A matching index with no earlier match is the index found. |
| NodeCache.Upsert | cvAruco/ViewController.swift:52-65 | One iteration: the first cube with the id gets the new transform, or a new cube is appended. The list grows by one exactly when no cube had the id. UpsertEffect and UpsertOthers state the rest. |
| NodeCache.UpsertAll | cvAruco/ViewController.swift:50-66 | All iterations in order. The list never shrinks and grows by at most one node per pose. The UpsertAll lemmas state the rest. |
| NodeCache.UpsertEffect | cvAruco/ViewController.swift:52-65 | One iteration keeps every node in place and kind. It appends a cube exactly when none had the id. Afterwards the first cube with the id has the new transform. Every other node keeps its record: only the first matching cube changes, and an append leaves the old children as they were. |
| NodeCache.UpsertOthers | cvAruco/ViewController.swift:52-65 | One iteration changes neither the lookup of any other id nor the node that lookup finds. |
| NodeCache.UpsertAllKeepsNodes | cvAruco/ViewController.swift:50-66 | The call never removes a node. Each child keeps its position and kind, and a plain node keeps its transform. At most one node is added per pose. |
| NodeCache.UpsertAllFrame | cvAruco/ViewController.swift:50-66 | Nothing else changes: every plain node, and every cube whose id the call does not report, keeps its record and its position. |
| NodeCache.UpsertAllCovers | cvAruco/ViewController.swift:50-66 | Afterwards every id of the call has a cube, and the first cube with that id carries the transform of the last pose reported for it. |
| NodeCache.UpsertAllAppendsNew | cvAruco/ViewController.swift:50-66 | Appended nodes are cubes for ids of the call that had no cube before the call. |
| NodeCache.UpsertAllAppendsOncePerId | cvAruco/ViewController.swift:50-66 | No id gets two appended cubes: a repeated id creates at most one node. |
| ViewController.OutlinedAt | cvAruco/ViewController.swift:141-154 | Layer i of an outlined list is stroked along the transformed outline of detection i. |
| ViewController.OutlinedSamePaths | cvAruco/ViewController.swift:140-169 | Drawing the same detections on the same frame twice gives the same paths slot by slot. |
| ViewController.ViewController.constructor | cvAruco/ViewController.swift:17 | The controller starts with no layer slots and nothing attached. |
| ViewController.ViewController.DrawPaths | cvAruco/ViewController.swift:136-176 | Afterwards there is exactly one slot per detection, and slot i holds a layer outlining detection i. The new layers are distinct from each other and from the old ones. The attach/detach calls are exactly those of one reconciliation, and exactly the listed layers are on screen. The scene nodes are unchanged. |
| ViewController.ViewController.RefillSlots | cvAruco/ViewController.swift:140-169 | The first loop builds one new outline layer per detection and leaves the slots as FillSlots says, with FillEvents logged. |
| ViewController.ViewController.PlaceInSlot | cvAruco/ViewController.swift:160-168 | Appends the layer or detaches and overwrites slot i, then attaches the layer. This is one FillStep. |
| ViewController.ViewController.TrimSlots | cvAruco/ViewController.swift:170-174 | The trim loop leaves the first `count` slots untouched, drops the rest, and logs TrimEvents. It needs `count <= shapeLayers.count`, so `numToRemove` is never negative. |
| ViewController.ViewController.OutlineLayer | cvAruco/ViewController.swift:141-157 | A fresh layer, distinct from all existing ones, whose path is the marker outline of the converted corners. |
| ViewController.ViewController.FindCube | cvAruco/ViewController.swift:68-78 | The scan with early return gives the FindFirst index. |
| ViewController.ViewController.UpdateContentNodeCache | cvAruco/ViewController.swift:50-66 | The child list becomes UpsertAll of the old one. The layer slots and the event log are unchanged. |

## Left out

- `session(_:didUpdate:)`, `mutexlock` and the asynchronous hand-off to the main queue: these are about concurrency, which is not modelled. `drawPaths` and `updateContentNodeCache` are modelled as single calls.
- `ArucoCV.detectPotentialMarkers` and `ArucoCV.estimatePose` (OpenCV): their results are inputs (`detected`, `targTransforms`).
- `decodeOne`: it is not part of this model. It is a function parameter returning face, cube number and tracked points. The malformed tuple binding at `Decoder.swift` line 42 is read as the evidently intended destructuring of that triple.
- `SCNMatrix4Mult` and the camera-matrix construction: the multiplication is a function parameter `mult`, and matrices are never inspected.
- ARKit's `displayTransform(for:viewportSize:)`: it is a given `Affine` in the frame geometry. The image size and viewport size are also given there.
- Float and CGFloat arithmetic is modelled as exact real arithmetic. Rounding, infinities and NaN are not modelled.
- A zero image width or height (which would divide by zero) is excluded by the precondition `NonDegenerate`.
- Malformed detections, which trap on an index out of range, are excluded by the precondition `WellFormed`.
- Styling (stroke and fill colours, line width, font size) and the `print` calls: presentation and logging only.
- View lifecycle, session configuration and the empty delegate callbacks: UI plumbing.
- `Decoder`'s layers are values, not objects. They are fresh, returned and never shared, so identity plays no role.
- Scene nodes are records in a sequence, and `setWorldTransform` replaces a record. Aliasing of `SCNNode` objects is not modelled.
- ViewController.ViewController.FindCube: returns the index of the cube among the children rather than the node object.
- ViewController.ViewController.DrawPaths: newness of the layers is stated as distinctness from the old layers and from each other, not as freshness.
- ViewController.ViewController.DrawPaths: what is on screen is derived from the ghost event log rather than from a view hierarchy.
