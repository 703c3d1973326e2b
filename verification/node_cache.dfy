/**
 * The id-keyed node cache of ViewController.swift (`findCube`,
 * `updateContentNodeCache`), stated on values.  A child node of the scene's
 * root is a record; `setWorldTransform` on a node is the replacement of its
 * record in the child list.  The matrix type M and its multiplication
 * (`SCNMatrix4Mult`) are left abstract.
 */
module NodeCache {

  import opened Wrappers

  /** A child of the scene's root node: a plain SCNNode or an ArucoNode carrying a marker id. */
  datatype SceneNode<M> =
    | PlainNode(worldTransform: M)
    | ArucoNode(arucoId: int, worldTransform: M)

  /** One pose the estimator reports (`SKWorldTransform`): a marker id and its transform. */
  datatype WorldTransform<M> = WorldTransform(arucoId: int, transform: M)

  /** A 4x4 SceneKit matrix, row-major; only passed around, never inspected. */
  datatype Matrix4 = Matrix4(entries: seq<real>)

  /** The node is an ArucoNode carrying the given marker id. */
  predicate IsCube<M>(node: SceneNode<M>, arucoId: int)
  {
    node.ArucoNode? && node.arucoId == arucoId
  }

  /** `findCube`: the index of the first ArucoNode child with the given id, skipping every other child. */
  function FindFirst<M>(children: seq<SceneNode<M>>, arucoId: int): (r: Option<nat>)
    ensures r.Some? ==> r.value < |children| && IsCube(children[r.value], arucoId)
    ensures r.Some? ==> forall j :: 0 <= j < r.value ==> !IsCube(children[j], arucoId)
    ensures r.None? <==> forall j :: 0 <= j < |children| ==> !IsCube(children[j], arucoId)
    decreases |children|
  {
    if children == [] then None
    else if IsCube(children[0], arucoId) then Some(0)
    else
      match FindFirst(children[1..], arucoId)
      case None => None
      case Some(k) => Some(k + 1)
  }

  /** The find-first contract pins the result down: a first matching index is the one found. */
  lemma FindFirstIs<M>(children: seq<SceneNode<M>>, arucoId: int, k: nat)
    requires k < |children| && IsCube(children[k], arucoId)
    requires forall j :: 0 <= j < k ==> !IsCube(children[j], arucoId)
    ensures FindFirst(children, arucoId) == Some(k)
  {
  }

  /**
   * One iteration of `updateContentNodeCache`: give the first cube with this
   * id the new world transform, or append a new cube when there is none.
   */
  function Upsert<M>(children: seq<SceneNode<M>>, arucoId: int, m: M): (after: seq<SceneNode<M>>)
    ensures |after| == if FindFirst(children, arucoId).Some? then |children| else |children| + 1
  {
    match FindFirst(children, arucoId)
    case Some(k) => children[k := children[k].(worldTransform := m)]
    case None => children + [ArucoNode(arucoId, m)]
  }

  /** All iterations of `updateContentNodeCache`, in order. */
  function UpsertAll<M>(children: seq<SceneNode<M>>, targTransforms: seq<WorldTransform<M>>,
                        cameraTransform: M, mult: (M, M) -> M): (after: seq<SceneNode<M>>)
    ensures |children| <= |after| <= |children| + |targTransforms|
    decreases |targTransforms|
  {
    if targTransforms == [] then children
    else
      var last := targTransforms[|targTransforms| - 1];
      Upsert(UpsertAll(children, targTransforms[..|targTransforms| - 1], cameraTransform, mult),
             last.arucoId, mult(last.transform, cameraTransform))
  }

  /** b is a's node with at most its transform changed. */
  predicate SameNode<M(==)>(a: SceneNode<M>, b: SceneNode<M>)
  {
    match a
    case PlainNode(_) => b == a
    case ArucoNode(id, _) => b.ArucoNode? && b.arucoId == id
  }

  /** Ids of the poses in one call. */
  function Ids<M(==)>(targTransforms: seq<WorldTransform<M>>): set<int>
  {
    set t | t in targTransforms :: t.arucoId
  }

  /**
   * One upsert keeps every existing node in place (only a transform may
   * change), afterwards finds a cube with the id carrying the new
   * transform, and leaves the lookup of every other id as it was.
   */
  lemma UpsertEffect<M>(children: seq<SceneNode<M>>, arucoId: int, m: M)
    ensures var after := Upsert(children, arucoId, m);
            && |children| <= |after| <= |children| + 1
            && (forall k :: 0 <= k < |children| ==> SameNode(children[k], after[k]))
            && (|after| > |children| <==> FindFirst(children, arucoId).None?)
            && (|after| > |children| ==> after[|children|] == ArucoNode(arucoId, m))
            && FindFirst(after, arucoId).Some?
            && after[FindFirst(after, arucoId).value] == ArucoNode(arucoId, m)
    ensures var after := Upsert(children, arucoId, m);
            FindFirst(children, arucoId).Some? ==>
              forall j :: 0 <= j < |children| && j != FindFirst(children, arucoId).value ==> after[j] == children[j]
    ensures FindFirst(children, arucoId).None? ==> Upsert(children, arucoId, m)[..|children|] == children
  {
    var after := Upsert(children, arucoId, m);
    match FindFirst(children, arucoId)
    case Some(k) =>
      assert forall j :: 0 <= j < |after| ==> (IsCube(after[j], arucoId) <==> IsCube(children[j], arucoId));
      FindFirstIs(after, arucoId, k);
    case None =>
      assert forall j :: 0 <= j < |children| ==> after[j] == children[j];
      FindFirstIs(after, arucoId, |children|);
  }

  /** An upsert for one id does not change where any other id is found, nor that node. */
  lemma UpsertOthers<M>(children: seq<SceneNode<M>>, arucoId: int, m: M, other: int)
    requires other != arucoId
    ensures var after := Upsert(children, arucoId, m);
            && FindFirst(after, other) == FindFirst(children, other)
            && (FindFirst(children, other).Some? ==>
                  after[FindFirst(children, other).value] == children[FindFirst(children, other).value])
  {
    var after := Upsert(children, arucoId, m);
    UpsertEffect(children, arucoId, m);
    assert forall j :: 0 <= j < |children| ==> (IsCube(after[j], other) <==> IsCube(children[j], other));
    assert |after| > |children| ==> !IsCube(after[|children|], other);
    match FindFirst(children, other)
    case Some(k) =>
      FindFirstIs(after, other, k);
      assert after[k] == children[k] by {
        if |after| == |children| {
          assert FindFirst(children, arucoId).Some?;
        }
      }
    case None =>
      assert forall j :: 0 <= j < |after| ==> !IsCube(after[j], other);
  }

  /**
   * `updateContentNodeCache` never removes a node: every child keeps its
   * position and kind (and a plain node its transform); only cubes are
   * added, at the end.
   */
  lemma {:induction false} UpsertAllKeepsNodes<M>(children: seq<SceneNode<M>>, targTransforms: seq<WorldTransform<M>>,
                                                  cameraTransform: M, mult: (M, M) -> M)
    ensures var after := UpsertAll(children, targTransforms, cameraTransform, mult);
            && |children| <= |after| <= |children| + |targTransforms|
            && (forall k :: 0 <= k < |children| ==> SameNode(children[k], after[k]))
    decreases |targTransforms|
  {
    if targTransforms != [] {
      var front := targTransforms[..|targTransforms| - 1];
      var last := targTransforms[|targTransforms| - 1];
      var mid := UpsertAll(children, front, cameraTransform, mult);
      UpsertAllKeepsNodes(children, front, cameraTransform, mult);
      UpsertEffect(mid, last.arucoId, mult(last.transform, cameraTransform));
    }
  }

  /**
   * Nothing else changes: every plain node, and every cube whose id the call
   * does not report, keeps its record and its position.
   */
  lemma {:induction false} UpsertAllFrame<M>(children: seq<SceneNode<M>>, targTransforms: seq<WorldTransform<M>>,
                                             cameraTransform: M, mult: (M, M) -> M)
    ensures var after := UpsertAll(children, targTransforms, cameraTransform, mult);
            && |children| <= |after|
            && forall k :: 0 <= k < |children| && (children[k].PlainNode? || children[k].arucoId !in Ids(targTransforms))
                 ==> after[k] == children[k]
    decreases |targTransforms|
  {
    if targTransforms != [] {
      var n := |targTransforms| - 1;
      var front, last := targTransforms[..n], targTransforms[n];
      var m := mult(last.transform, cameraTransform);
      var mid := UpsertAll(children, front, cameraTransform, mult);
      var after := UpsertAll(children, targTransforms, cameraTransform, mult);
      assert after == Upsert(mid, last.arucoId, m);
      UpsertAllFrame(children, front, cameraTransform, mult);
      UpsertEffect(mid, last.arucoId, m);
      assert last in targTransforms;
      forall k | 0 <= k < |children| && (children[k].PlainNode? || children[k].arucoId !in Ids(targTransforms))
        ensures after[k] == children[k]
      {
        if children[k].ArucoNode? {
          forall t | t in front
            ensures t.arucoId != children[k].arucoId
          {
            assert t in targTransforms;
          }
        }
        assert mid[k] == children[k];
        assert !IsCube(mid[k], last.arucoId);
      }
    }
  }

  /** Pose j is the last one the call reports for its id. */
  ghost predicate LastPoseFor<M>(targTransforms: seq<WorldTransform<M>>, j: int)
  {
    0 <= j < |targTransforms| &&
    forall j2 :: j < j2 < |targTransforms| ==> targTransforms[j2].arucoId != targTransforms[j].arucoId
  }

  /** `findCube(arucoId)` finds a cube, and it has world transform m. */
  ghost predicate CubeHas<M>(children: seq<SceneNode<M>>, arucoId: int, m: M)
  {
    FindFirst(children, arucoId).Some? && children[FindFirst(children, arucoId).value] == ArucoNode(arucoId, m)
  }

  /**
   * Afterwards every id of the call has a cube, and the first cube with
   * that id carries the transform of the last pose reported for it.
   */
  lemma {:induction false} UpsertAllCovers<M>(children: seq<SceneNode<M>>, targTransforms: seq<WorldTransform<M>>,
                                              cameraTransform: M, mult: (M, M) -> M)
    ensures forall j :: LastPoseFor(targTransforms, j) ==>
              CubeHas(UpsertAll(children, targTransforms, cameraTransform, mult), targTransforms[j].arucoId,
                      mult(targTransforms[j].transform, cameraTransform))
    decreases |targTransforms|
  {
    if targTransforms != [] {
      var n := |targTransforms| - 1;
      var front := targTransforms[..n];
      var last := targTransforms[n];
      var m := mult(last.transform, cameraTransform);
      var mid := UpsertAll(children, front, cameraTransform, mult);
      var after := UpsertAll(children, targTransforms, cameraTransform, mult);
      assert after == Upsert(mid, last.arucoId, m);
      UpsertAllCovers(children, front, cameraTransform, mult);
      UpsertEffect(mid, last.arucoId, m);
      forall j | LastPoseFor(targTransforms, j)
        ensures CubeHas(after, targTransforms[j].arucoId, mult(targTransforms[j].transform, cameraTransform))
      {
        if j < n {
          assert LastPoseFor(front, j);
          UpsertOthers(mid, last.arucoId, m, targTransforms[j].arucoId);
        }
      }
    }
  }

  /**
   * The nodes one call appends are cubes for ids of the call that had no
   * cube before.
   */
  lemma {:induction false} UpsertAllAppendsNew<M>(children: seq<SceneNode<M>>, targTransforms: seq<WorldTransform<M>>,
                                                  cameraTransform: M, mult: (M, M) -> M)
    ensures var after := UpsertAll(children, targTransforms, cameraTransform, mult);
            forall k :: |children| <= k < |after| ==>
              after[k].ArucoNode? && after[k].arucoId in Ids(targTransforms) &&
              FindFirst(children, after[k].arucoId).None?
    decreases |targTransforms|
  {
    if targTransforms != [] {
      var n := |targTransforms| - 1;
      var front := targTransforms[..n];
      var last := targTransforms[n];
      var m := mult(last.transform, cameraTransform);
      var mid := UpsertAll(children, front, cameraTransform, mult);
      var after := UpsertAll(children, targTransforms, cameraTransform, mult);
      assert after == Upsert(mid, last.arucoId, m);
      UpsertAllAppendsNew(children, front, cameraTransform, mult);
      UpsertAllKeepsNodes(children, front, cameraTransform, mult);
      UpsertEffect(mid, last.arucoId, m);
      forall k | |children| <= k < |after|
        ensures after[k].ArucoNode? && after[k].arucoId in Ids(targTransforms)
        ensures FindFirst(children, after[k].arucoId).None?
      {
        if k < |mid| {
          assert SameNode(mid[k], after[k]);
          var t :| t in front && t.arucoId == mid[k].arucoId;
          assert t in targTransforms;
        } else {
          // the id had no cube in mid, so none among the old children either
          assert last in targTransforms;
          forall i | 0 <= i < |children|
            ensures !IsCube(children[i], last.arucoId)
          {
            assert SameNode(children[i], mid[i]);
          }
        }
      }
    }
  }

  /** No id gets two appended cubes: a repeated id creates at most one node. */
  lemma {:induction false} UpsertAllAppendsOncePerId<M>(children: seq<SceneNode<M>>, targTransforms: seq<WorldTransform<M>>,
                                                        cameraTransform: M, mult: (M, M) -> M)
    ensures var after := UpsertAll(children, targTransforms, cameraTransform, mult);
            forall k1, k2 :: |children| <= k1 < k2 < |after| ==>
              after[k1].ArucoNode? && after[k2].ArucoNode? && after[k1].arucoId != after[k2].arucoId
    decreases |targTransforms|
  {
    if targTransforms != [] {
      var n := |targTransforms| - 1;
      var front := targTransforms[..n];
      var last := targTransforms[n];
      var m := mult(last.transform, cameraTransform);
      var mid := UpsertAll(children, front, cameraTransform, mult);
      var after := UpsertAll(children, targTransforms, cameraTransform, mult);
      assert after == Upsert(mid, last.arucoId, m);
      UpsertAllAppendsOncePerId(children, front, cameraTransform, mult);
      UpsertAllAppendsNew(children, front, cameraTransform, mult);
      UpsertAllAppendsNew(children, targTransforms, cameraTransform, mult);
      UpsertAllKeepsNodes(children, front, cameraTransform, mult);
      UpsertEffect(mid, last.arucoId, m);
      if |after| > |mid| {
        forall k | |children| <= k < |mid|
          ensures mid[k].arucoId != last.arucoId
        {
          assert !IsCube(mid[k], last.arucoId);
        }
      }
    }
  }
}
