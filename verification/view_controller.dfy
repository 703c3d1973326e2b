/**
 * ViewController.swift: the view controller's own bookkeeping.  `drawPaths`
 * keeps one CAShapeLayer outline per detected marker in `shapeLayers`,
 * reusing slots by position; `findCube` and `updateContentNodeCache` keep
 * one ArucoNode per marker id among the scene root's children.
 */
module ViewController {

  import opened Wrappers
  import opened Geometry
  import opened OverlaySlots
  import opened NodeCache

  /**
   * A CAShapeLayer.  Only its path is modelled (colours and line width are
   * styling); `drawPaths` sets it once, right after creating the layer.
   */
  class ShapeLayer {
    const path: seq<Point>

    constructor (path: seq<Point>)
      ensures this.path == path
    {
      this.path := path;
    }
  }

  /**
   * Layer i is stroked along the outline of detection i, for every layer
   * listed; stated one layer at a time, as the first loop of `drawPaths`
   * establishes it (OutlinedAt gives it index by index).
   */
  ghost predicate Outlined(layers: seq<ShapeLayer>, detected: seq<RawDetection>, frame: FrameGeometry)
    decreases |layers|
  {
    |layers| <= |detected| && NonDegenerate(frame) &&
    (layers == [] ||
     (var n := |layers| - 1;
      Outlined(layers[..n], detected, frame) &&
      WellFormed(detected[n]) && layers[n].path == MarkerOutline(ConvertCornerArray(detected[n]), frame)))
  }

  /** Every listed layer carries the outline of the detection at its index. */
  lemma {:induction false} OutlinedAt(layers: seq<ShapeLayer>, detected: seq<RawDetection>, frame: FrameGeometry, i: nat)
    requires Outlined(layers, detected, frame) && i < |layers|
    ensures WellFormed(detected[i]) && NonDegenerate(frame)
    ensures layers[i].path == MarkerOutline(ConvertCornerArray(detected[i]), frame)
    decreases |layers|
  {
    var n := |layers| - 1;
    if i < n {
      OutlinedAt(layers[..n], detected, frame, i);
      assert layers[..n][i] == layers[i];
    }
  }

  /**
   * The outlines depend on the detections and the frame alone: two layer
   * lists outlining the same detections carry the same paths slot by slot,
   * so drawing the same detections twice gives the same geometry.
   */
  lemma OutlinedSamePaths(a: seq<ShapeLayer>, b: seq<ShapeLayer>, detected: seq<RawDetection>, frame: FrameGeometry)
    requires Outlined(a, detected, frame) && Outlined(b, detected, frame) && |a| == |b|
    ensures forall i :: 0 <= i < |a| ==> a[i].path == b[i].path
  {
    forall i | 0 <= i < |a|
      ensures a[i].path == b[i].path
    {
      OutlinedAt(a, detected, frame, i);
      OutlinedAt(b, detected, frame, i);
    }
  }

  /** Adding the layer for the next detection keeps every listed layer on its outline. */
  lemma OutlinedAppend(layers: seq<ShapeLayer>, detected: seq<RawDetection>, frame: FrameGeometry, layer: ShapeLayer)
    requires Outlined(layers, detected, frame) && |layers| < |detected|
    requires WellFormed(detected[|layers|])
    requires layer.path == MarkerOutline(ConvertCornerArray(detected[|layers|]), frame)
    ensures Outlined(layers + [layer], detected, frame)
  {
    assert (layers + [layer])[..|layers|] == layers;
  }

  class ViewController {
    /** `shapeLayers`: slot i holds the outline of the i-th detection of the last frame. */
    var shapeLayers: seq<ShapeLayer>
    /**
     * Every `addSublayer` and `removeFromSuperlayer` `drawPaths` has
     * performed, in order; replaying it from no layers gives the layers
     * currently on screen.
     */
    ghost var layerEvents: seq<LayerEvent<ShapeLayer>>
    /** The children of the scene's root node. */
    var childNodes: seq<SceneNode<Matrix4>>

    /** The layers on screen are exactly the listed ones, each listed once. */
    ghost predicate Valid()
      reads this
    {
      ApplyAll({}, layerEvents) == Elems(shapeLayers) && Distinct(shapeLayers)
    }

    constructor (children: seq<SceneNode<Matrix4>>)
      ensures Valid()
      ensures shapeLayers == [] && layerEvents == [] && childNodes == children
    {
      shapeLayers := [];
      layerEvents := [];
      childNodes := children;
    }

    /**
     * `drawPaths(detected:frame:)`.  Afterwards there is one slot per
     * detection, slot i holds a new layer outlining detection i, and the
     * attach/detach calls are exactly those of ReconcileEvents: each old
     * slot that a detection still covers is detached and overwritten, new
     * slots are appended, and surplus slots are detached and popped from the
     * end.
     */
    method DrawPaths(detected: seq<RawDetection>, frame: FrameGeometry)
      requires Valid()
      requires NonDegenerate(frame)
      requires forall i :: 0 <= i < |detected| ==> WellFormed(detected[i])
      modifies this
      ensures Valid()
      ensures |shapeLayers| == |detected| && Outlined(shapeLayers, detected, frame)
      ensures Disjoint(shapeLayers, old(shapeLayers))
      ensures layerEvents == old(layerEvents) + ReconcileEvents(old(shapeLayers), shapeLayers)
      ensures childNodes == old(childNodes)
    {
      ghost var olds := shapeLayers;
      ghost var built := RefillSlots(detected, frame);
      ghost var fill, filled := FillEvents(olds, built), shapeLayers;
      TrimSlots(|detected|);
      assert layerEvents == old(layerEvents) + (fill + TrimEvents(filled, |detected|));
      ReconcileReplay(old(layerEvents), olds, built);
      AllNewDistinct(built, olds);
    }

    /**
     * The first loop of `drawPaths`: slot i gets a new layer outlining
     * detection i, detaching the layer it held, if any.  `built` lists the
     * new layers.
     */
    method RefillSlots(detected: seq<RawDetection>, frame: FrameGeometry) returns (ghost built: seq<ShapeLayer>)
      requires NonDegenerate(frame)
      requires forall i :: 0 <= i < |detected| ==> WellFormed(detected[i])
      modifies this
      ensures |built| == |detected|
      ensures Outlined(built, detected, frame)
      ensures AllNew(built, old(shapeLayers))
      ensures shapeLayers == FillSlots(old(shapeLayers), built)
      ensures layerEvents == old(layerEvents) + FillEvents(old(shapeLayers), built)
      ensures childNodes == old(childNodes)
    {
      ghost var olds := shapeLayers;
      built := [];
      for i := 0 to |detected|
        invariant |built| == i
        invariant shapeLayers == FillSlots(olds, built)
        invariant Outlined(built, detected, frame)
        invariant AllNew(built, olds)
        invariant layerEvents == old(layerEvents) + FillEvents(olds, built)
        invariant childNodes == old(childNodes)
      {
        var shapeLayer := OutlineLayer(detected[i], frame, olds + built);
        OutlinedAppend(built, detected, frame, shapeLayer);
        AllNewAppend(built, olds, shapeLayer);
        PlaceInSlot(i, shapeLayer, olds, built, old(layerEvents));
        built := built + [shapeLayer];
      }
    }

    /**
     * One iteration of the first loop of `drawPaths`, after the layer is
     * built: append it, or detach the layer in slot i and overwrite the
     * slot; then attach it.  The ghost parameters name the loop's progress:
     * `built` are the layers already placed in slots 0 to i - 1, and
     * `events0` the log before the loop.
     */
    method PlaceInSlot(i: nat, shapeLayer: ShapeLayer, ghost olds: seq<ShapeLayer>, ghost built: seq<ShapeLayer>,
                       ghost events0: seq<LayerEvent<ShapeLayer>>)
      requires |built| == i && shapeLayers == FillSlots(olds, built)
      requires layerEvents == events0 + FillEvents(olds, built)
      modifies this
      ensures shapeLayers == FillSlots(olds, built + [shapeLayer])
      ensures layerEvents == events0 + FillEvents(olds, built + [shapeLayer])
      ensures childNodes == old(childNodes)
    {
      FillStep(olds, built, shapeLayer);
      ghost var fill := FillEvents(olds, built);
      if |shapeLayers| <= i {
        shapeLayers := shapeLayers + [shapeLayer];
      } else {
        // detach the layer that slot i held, then overwrite the slot
        layerEvents := layerEvents + [Detached(shapeLayers[i])];
        shapeLayers := shapeLayers[i := shapeLayer];
      }
      // attach the new layer to the view's layer
      layerEvents := layerEvents + [Attached(shapeLayer)];
      assert layerEvents == events0 + (fill + SlotEvents(olds, i, shapeLayer));
    }

    /**
     * The second loop of `drawPaths`: detach and pop the last slot until
     * only `count` remain.
     */
    method TrimSlots(count: nat)
      requires count <= |shapeLayers|
      modifies this
      ensures shapeLayers == old(shapeLayers)[..count]
      ensures layerEvents == old(layerEvents) + TrimEvents(old(shapeLayers), count)
      ensures childNodes == old(childNodes)
    {
      var numToRemove: nat := |shapeLayers| - count;
      ghost var filled := shapeLayers;
      for k := 0 to numToRemove
        invariant |shapeLayers| == |filled| - k
        invariant shapeLayers == filled[..|shapeLayers|]
        invariant layerEvents == old(layerEvents) + TrimEvents(filled, |shapeLayers|)
        invariant childNodes == old(childNodes)
      {
        var last := shapeLayers[|shapeLayers| - 1];
        // detach the layer in the last slot
        layerEvents := layerEvents + [Detached(last)];
        assert layerEvents == old(layerEvents) + (TrimEvents(filled, |shapeLayers|) + [Detached(last)]);
        // and drop that slot
        shapeLayers := shapeLayers[..|shapeLayers| - 1];
      }
    }

    /**
     * The layer `drawPaths` builds for one detection: the four corners, read
     * as (x: column, y: row), mapped into the view and joined in the order
     * top-left, top-right, bottom-left, bottom-right and back to top-left.
     */
    static method OutlineLayer(corners: RawDetection, frame: FrameGeometry, ghost existing: seq<ShapeLayer>)
      returns (shapeLayer: ShapeLayer)
      requires WellFormed(corners) && NonDegenerate(frame)
      ensures fresh(shapeLayer) && shapeLayer !in existing
      ensures shapeLayer.path == MarkerOutline(ConvertCornerArray(corners), frame)
    {
      var topLeft := TransformPoint(Point(corners[0][1], corners[0][0]), frame);
      var topRight := TransformPoint(Point(corners[1][1], corners[1][0]), frame);
      var bottomLeft := TransformPoint(Point(corners[2][1], corners[2][0]), frame);
      var bottomRight := TransformPoint(Point(corners[3][1], corners[3][0]), frame);
      DetectionOutline(corners, frame);
      shapeLayer := new ShapeLayer([topLeft, topRight, bottomLeft, bottomRight, topLeft]);
    }

    /** `findCube(arucoId:)`: a linear scan that stops at the first matching cube. */
    method FindCube(arucoId: int) returns (index: Option<nat>)
      ensures index == FindFirst(childNodes, arucoId)
    {
      var k := 0;
      while k < |childNodes|
        invariant 0 <= k <= |childNodes|
        invariant forall j :: 0 <= j < k ==> !IsCube(childNodes[j], arucoId)
      {
        if childNodes[k].ArucoNode? && childNodes[k].arucoId == arucoId {
          FindFirstIs(childNodes, arucoId, k);
          return Some(k);
        }
        k := k + 1;
      }
      return None;
    }

    /**
     * `updateContentNodeCache(targTransforms:cameraTransform:)`: for each
     * pose, move the cube with its id, or add one.  The overlay state is
     * untouched.
     */
    method UpdateContentNodeCache(targTransforms: seq<WorldTransform<Matrix4>>, cameraTransform: Matrix4,
                                  mult: (Matrix4, Matrix4) -> Matrix4)
      modifies this
      ensures childNodes == UpsertAll(old(childNodes), targTransforms, cameraTransform, mult)
      ensures shapeLayers == old(shapeLayers) && layerEvents == old(layerEvents)
    {
      for i := 0 to |targTransforms|
        invariant childNodes == UpsertAll(old(childNodes), targTransforms[..i], cameraTransform, mult)
        invariant shapeLayers == old(shapeLayers) && layerEvents == old(layerEvents)
      {
        var transform := targTransforms[i];
        var targTransform := mult(transform.transform, cameraTransform);
        var box := FindCube(transform.arucoId);
        if box.Some? {
          // the cube found gets the new world transform
          childNodes := childNodes[box.value := childNodes[box.value].(worldTransform := targTransform)];
        } else {
          // no cube yet: add one for this id, carrying the new world transform
          childNodes := childNodes + [ArucoNode(transform.arucoId, targTransform)];
        }
        assert targTransforms[..i + 1][..i] == targTransforms[..i];
      }
      assert targTransforms[..|targTransforms|] == targTransforms;
    }
  }
}
