/** "Align UVs to Grid": a cube-style planar projection that writes, for every
    (selected) face of every edit-mode mesh object, UVs taken from two of the
    face's vertex coordinates. */
module Align {
  import opened Geometry
  import opened Axes

  /** A BMesh face: its corner positions in object space (in loop order),
      its normal and its selection flag. */
  datatype BMFace = BMFace(verts: seq<Vec3>, normal: Vec3, select: bool)

  /** Every BMesh face has at least one corner. */
  type Face = f: BMFace | |f.verts| > 0 witness BMFace([Vec3(0.0, 0.0, 0.0)], Vec3(0.0, 0.0, 1.0), false)

  /** The edit-mode mesh of an object: its faces and its active UV layer, or
      null when the mesh has no UV map. The corners of face `k` are the layer
      entries `LoopStart(faces, k)` up to `LoopStart(faces, k + 1)`. */
  datatype BMesh = BMesh(faces: seq<Face>, uvLayer: array?<Vec2>)

  /** An object in edit mode: its type name, its world matrix, the rotation
      `matrix_world.to_quaternion()` applies to a direction, and its mesh
      (only looked at when `objType` is "MESH"). */
  datatype SceneObject = SceneObject(objType: string, matrixWorld: Affine, rotWorld: Vec3 -> Vec3, editMesh: BMesh)

  /** Index in the UV layer of the first corner (loop) of face `k`: the
      number of corners of the faces before it. */
  function LoopStart(faces: seq<Face>, k: nat): nat
    requires k <= |faces|
  {
    if k == 0 then 0 else LoopStart(faces, k - 1) + |faces[k - 1].verts|
  }

  /** Number of corners (loops) of all the faces. */
  function LoopCount(faces: seq<Face>): nat
  {
    LoopStart(faces, |faces|)
  }

  predicate MeshValid(bm: BMesh)
  {
    bm.uvLayer != null ==> bm.uvLayer.Length == LoopCount(bm.faces)
  }

  /** Faces skipped by `if selected_only and not face.select: continue`. */
  predicate IsProcessed(face: Face, selectedOnly: bool)
  {
    !(selectedOnly && !face.select)
  }

  /** The normal whose dominant axis is taken: rotated into world space
      when `world_space` is set. */
  function FaceNormal(face: Face, worldSpace: bool, rotWorld: Vec3 -> Vec3): Vec3
  {
    if worldSpace then rotWorld(face.normal) else face.normal
  }

  /** `best_fit_axis` of a face: dominant for its normal, rotated by
      `rot_world` first in world space only. */
  function FaceAxis(face: Face, worldSpace: bool, rotWorld: Vec3 -> Vec3): (axis: Axis)
    ensures IsDominant(FaceNormal(face, worldSpace, rotWorld), axis)
  {
    BestFitAxis(FaceNormal(face, worldSpace, rotWorld))
  }

  /** `int_face_center`: the face's median centre, floored per component. */
  function IntFaceCenter(face: Face): (f: Vec3)
    ensures IsIntegral(f)
    ensures forall i :: 0 <= i < 3 ==> Get(f, i) <= Get(Mean(face.verts), i) < Get(f, i) + 1.0
  {
    FloorVec(Mean(face.verts))
  }

  /** The UV of one corner at object-space position `pos`: the floored centre
      is subtracted in object space, then the world matrix is applied when
      `world_space` is set, then two coordinates are kept. */
  function CornerUV(pos: Vec3, intCenter: Vec3, axis: Axis, worldSpace: bool, matrixWorld: Affine): (uv: Vec2)
    ensures !worldSpace ==> uv == Sub2(Project(axis, pos), Project(axis, intCenter))
    ensures worldSpace ==>
      uv == Sub2(Project(axis, Apply(matrixWorld, pos)), Project(axis, MulVec(matrixWorld.linear, intCenter)))
  {
    var offset := Sub(pos, intCenter);
    OffsetThenProject(pos, intCenter, axis, worldSpace, matrixWorld);
    Project(axis, if worldSpace then Apply(matrixWorld, offset) else offset)
  }

  /** The offset reaches the UV through the linear part of the matrix only. */
  lemma OffsetThenProject(pos: Vec3, intCenter: Vec3, axis: Axis, worldSpace: bool, matrixWorld: Affine)
    ensures var offset := Sub(pos, intCenter);
      !worldSpace ==> Project(axis, offset) == Sub2(Project(axis, pos), Project(axis, intCenter))
    ensures var offset := Sub(pos, intCenter);
      worldSpace ==> Project(axis, Apply(matrixWorld, offset))
                     == Sub2(Project(axis, Apply(matrixWorld, pos)), Project(axis, MulVec(matrixWorld.linear, intCenter)))
  {
    if worldSpace {
      ApplySub(matrixWorld, pos, intCenter);
      MulVecSub(matrixWorld.linear, pos, intCenter);
      ProjectLinear(axis, Apply(matrixWorld, pos), MulVec(matrixWorld.linear, intCenter), 0.0);
    } else {
      ProjectLinear(axis, pos, intCenter, 0.0);
    }
  }

  /** The UVs of corners at positions `verts`, sharing one offset and one axis. */
  function CornerUVs(verts: seq<Vec3>, intCenter: Vec3, axis: Axis, worldSpace: bool, matrixWorld: Affine): (uvs: seq<Vec2>)
    ensures |uvs| == |verts|
    ensures forall c :: 0 <= c < |verts| ==> uvs[c] == CornerUV(verts[c], intCenter, axis, worldSpace, matrixWorld)
  {
    seq(|verts|, c requires 0 <= c < |verts| => CornerUV(verts[c], intCenter, axis, worldSpace, matrixWorld))
  }

  /** The UVs written to the corners of one processed face, in loop order. */
  function FaceUVs(face: Face, worldSpace: bool, matrixWorld: Affine, rotWorld: Vec3 -> Vec3): (uvs: seq<Vec2>)
    ensures |uvs| == |face.verts|
  {
    CornerUVs(face.verts, IntFaceCenter(face), FaceAxis(face, worldSpace, rotWorld), worldSpace, matrixWorld)
  }

  /** The projected UVs of every face, face by face. */
  function ProjectFaces(faces: seq<Face>, worldSpace: bool, matrixWorld: Affine, rotWorld: Vec3 -> Vec3): (projected: seq<seq<Vec2>>)
    ensures Fits(faces, projected)
  {
    seq(|faces|, k requires 0 <= k < |faces| => FaceUVs(faces[k], worldSpace, matrixWorld, rotWorld))
  }

  /** `projected` holds one UV per corner of every face. */
  predicate Fits(faces: seq<Face>, projected: seq<seq<Vec2>>)
  {
    |projected| == |faces| && forall k :: 0 <= k < |faces| ==> |projected[k]| == |faces[k].verts|
  }

  /** What one face's stretch of the UV layer holds afterwards. */
  function FacePiece(face: Face, before: seq<Vec2>, selectedOnly: bool, uvs: seq<Vec2>): seq<Vec2>
  {
    if IsProcessed(face, selectedOnly) then uvs else before
  }

  /** The first `LoopStart(faces, k)` entries of the UV layer once
      `align_one_object` has handled faces `0..k`, given the layer before
      and the UVs `projected[j]` computed for face `j`. */
  function AlignPrefix(faces: seq<Face>, layer: seq<Vec2>, k: nat, selectedOnly: bool,
                       projected: seq<seq<Vec2>>): (r: seq<Vec2>)
    requires k <= |faces| && |layer| == LoopCount(faces) && Fits(faces, projected)
    ensures |r| == LoopStart(faces, k)
  {
    if k == 0 then []
    else
      LoopStartMono(faces, k, |faces|);
      AlignPrefix(faces, layer, k - 1, selectedOnly, projected)
        + FacePiece(faces[k - 1], layer[LoopStart(faces, k - 1)..LoopStart(faces, k)], selectedOnly, projected[k - 1])
  }

  /** The UV layer after `align_one_object`. */
  function AlignLayer(faces: seq<Face>, layer: seq<Vec2>, selectedOnly: bool, projected: seq<seq<Vec2>>): (r: seq<Vec2>)
    requires |layer| == LoopCount(faces) && Fits(faces, projected)
    ensures |r| == |layer|
  {
    AlignPrefix(faces, layer, |faces|, selectedOnly, projected)
  }

  /** `align_one_object` raises when a face is to be written and the mesh has
      no active UV layer: `loop[uv_layer]` with `uv_layer` None. */
  predicate RaisesNoLayer(bm: BMesh, selectedOnly: bool): (raises: bool)
    ensures raises ==> bm.uvLayer == null && |bm.faces| > 0
    ensures !selectedOnly ==> (raises <==> bm.uvLayer == null && |bm.faces| > 0)
  {
    assert !selectedOnly && |bm.faces| > 0 ==> IsProcessed(bm.faces[0], selectedOnly);
    bm.uvLayer == null && exists k :: 0 <= k < |bm.faces| && IsProcessed(bm.faces[k], selectedOnly)
  }

  predicate RaisesOn(obj: SceneObject, selectedOnly: bool)
  {
    obj.objType == "MESH" && RaisesNoLayer(obj.editMesh, selectedOnly)
  }

  /** Index of the first object on which `align_objects` raises, or the
      number of objects when none does. */
  function FirstRaise(objects: seq<SceneObject>, selectedOnly: bool): (r: nat)
    ensures r <= |objects|
    ensures forall i :: 0 <= i < r ==> !RaisesOn(objects[i], selectedOnly)
    ensures r < |objects| ==> RaisesOn(objects[r], selectedOnly)
  {
    if objects == [] then 0
    else if RaisesOn(objects[0], selectedOnly) then 0
    else 1 + FirstRaise(objects[1..], selectedOnly)
  }

  // ---------------------------------------------------------------------
  // Layout of the UV layer

  lemma {:induction false} LoopStartMono(faces: seq<Face>, j: nat, k: nat)
    requires j <= k <= |faces|
    ensures LoopStart(faces, j) <= LoopStart(faces, k)
    decreases k
  {
    if j < k {
      LoopStartMono(faces, j, k - 1);
    }
  }

  /** The state of the face loop of `align_one_object` before face `k`: with
      no UV layer no processed face has been met yet (else the loop would have
      raised); with one, faces `0..k` are aligned. */
  predicate FaceLoopState(faces: seq<Face>, uvLayer: array?<Vec2>, before: seq<Vec2>, k: nat, selectedOnly: bool, projected: seq<seq<Vec2>>)
    requires k <= |faces| && Fits(faces, projected)
    reads uvLayer
  {
    (uvLayer == null ==> forall j :: 0 <= j < k ==> !IsProcessed(faces[j], selectedOnly)) &&
    (uvLayer != null ==> AlignedUpTo(faces, before, k, selectedOnly, projected, uvLayer[..]))
  }

  /** `layer` is `before` with faces `0..k` handled by `align_one_object`
      and the rest not yet touched. */
  predicate AlignedUpTo(faces: seq<Face>, before: seq<Vec2>, k: nat, selectedOnly: bool, projected: seq<seq<Vec2>>,
                        layer: seq<Vec2>)
    requires k <= |faces| && Fits(faces, projected)
  {
    |layer| == |before| == LoopCount(faces) && LoopStart(faces, k) <= LoopCount(faces) &&
    layer[..LoopStart(faces, k)] == AlignPrefix(faces, before, k, selectedOnly, projected) &&
    layer[LoopStart(faces, k)..] == before[LoopStart(faces, k)..]
  }

  /** One iteration of the face loop of `align_one_object`, on the layer's
      contents: `pre` is the layer before face `k` is handled, `now` after. */
  lemma AlignPrefixStep(faces: seq<Face>, before: seq<Vec2>, k: nat, selectedOnly: bool, projected: seq<seq<Vec2>>,
                        pre: seq<Vec2>, now: seq<Vec2>)
    requires k < |faces| && Fits(faces, projected) && LoopStart(faces, k + 1) <= LoopCount(faces)
    requires AlignedUpTo(faces, before, k, selectedOnly, projected, pre)
    requires now == if IsProcessed(faces[k], selectedOnly)
                    then pre[..LoopStart(faces, k)] + projected[k] + pre[LoopStart(faces, k + 1)..]
                    else pre
    ensures AlignedUpTo(faces, before, k + 1, selectedOnly, projected, now)
  {
    var s, e := LoopStart(faces, k), LoopStart(faces, k + 1);
    Splice(pre, before, now, s, e, pre[..s], projected[k], IsProcessed(faces[k], selectedOnly));
    AlignPrefixUnfold(faces, before, k + 1, selectedOnly, projected);
  }

  /** One iteration of the face loop for a processed face, whose corners get
      the UVs computed from its (possibly rotated) normal and floored centre. */
  lemma AlignPrefixWritten(faces: seq<Face>, before: seq<Vec2>, k: nat, selectedOnly: bool, projected: seq<seq<Vec2>>,
                           worldSpace: bool, matrixWorld: Affine, rotWorld: Vec3 -> Vec3,
                           intFaceCenter: Vec3, bestFitAxis: Axis, pre: seq<Vec2>, now: seq<Vec2>)
    requires k < |faces| && Fits(faces, projected) && LoopStart(faces, k + 1) <= LoopCount(faces)
    requires ProjectedFaces(faces, projected, worldSpace, matrixWorld, rotWorld)
    requires AlignedUpTo(faces, before, k, selectedOnly, projected, pre) && IsProcessed(faces[k], selectedOnly)
    requires intFaceCenter == FloorVec(Mean(faces[k].verts))
    requires bestFitAxis == BestFitAxis(FaceNormal(faces[k], worldSpace, rotWorld))
    requires LoopStart(faces, k) + |faces[k].verts| <= |pre|
    requires now == pre[..LoopStart(faces, k)]
                    + CornerUVs(faces[k].verts, intFaceCenter, bestFitAxis, worldSpace, matrixWorld)
                    + pre[LoopStart(faces, k) + |faces[k].verts|..]
    ensures AlignedUpTo(faces, before, k + 1, selectedOnly, projected, now)
  {
    assert projected[k] == FaceUVs(faces[k], worldSpace, matrixWorld, rotWorld);
    AlignPrefixStep(faces, before, k, selectedOnly, projected, pre, now);
  }

  /** Writing `piece` over corners `s..e` of a layer that already holds `done`
      before `s` and the old contents from `s` on. */
  lemma Splice(pre: seq<Vec2>, before: seq<Vec2>, now: seq<Vec2>, s: nat, e: nat, done: seq<Vec2>,
               piece: seq<Vec2>, processed: bool)
    requires s <= e <= |pre| == |before| && |piece| == e - s
    requires pre[..s] == done && pre[s..] == before[s..]
    requires now == if processed then pre[..s] + piece + pre[e..] else pre
    ensures now[..e] == done + (if processed then piece else before[s..e])
    ensures now[e..] == before[e..]
  {
    assert before[s..] == before[s..e] + before[e..];
    assert pre[s..] == pre[s..e] + pre[e..];
    assert pre[s..e] == before[s..e] && pre[e..] == before[e..];
    if processed {
      assert now[..e] == pre[..s] + piece;
    } else {
      assert now[..e] == pre[..s] + pre[s..e];
    }
  }

  // ---------------------------------------------------------------------
  // Which corners are written

  /** Face `k`'s stretch of an aligned prefix that covers it is that face's piece. */
  lemma {:induction false} AlignPrefixSlice(faces: seq<Face>, layer: seq<Vec2>, j: nat, k: nat, selectedOnly: bool,
                                            projected: seq<seq<Vec2>>)
    requires k < j <= |faces| && |layer| == LoopCount(faces) && Fits(faces, projected)
    ensures LoopStart(faces, k + 1) <= LoopStart(faces, j) <= |layer|
    ensures
      var s, e := LoopStart(faces, k), LoopStart(faces, k + 1);
      AlignPrefix(faces, layer, j, selectedOnly, projected)[s..e]
      == FacePiece(faces[k], layer[s..e], selectedOnly, projected[k])
    decreases j
  {
    LoopStartMono(faces, k + 1, j);
    LoopStartMono(faces, j, |faces|);
    var s, e := LoopStart(faces, k), LoopStart(faces, k + 1);
    var prefix := AlignPrefix(faces, layer, j - 1, selectedOnly, projected);
    var piece := FacePiece(faces[j - 1], layer[LoopStart(faces, j - 1)..LoopStart(faces, j)], selectedOnly, projected[j - 1]);
    assert AlignPrefix(faces, layer, j, selectedOnly, projected) == prefix + piece;
    var whole := FacePiece(faces[k], layer[s..e], selectedOnly, projected[k]);
    if k < j - 1 {
      AlignPrefixSlice(faces, layer, j - 1, k, selectedOnly, projected);
      SliceOfConcat(prefix, piece, s, e);
      assert prefix[s..e] == whole;
    } else {
      SliceOfConcat(prefix, piece, s, e);
      assert piece == whole;
    }
    assert AlignPrefix(faces, layer, j, selectedOnly, projected)[s..e] == whole;
  }

  /** A slice of `a + b` that lies within `a`, or is exactly `b`. */
  lemma SliceOfConcat<T>(a: seq<T>, b: seq<T>, s: nat, e: nat)
    requires s <= e <= |a| + |b|
    ensures e <= |a| ==> (a + b)[s..e] == a[s..e]
    ensures s == |a| && e == |a| + |b| ==> (a + b)[s..e] == b
  {
  }

  /** Face `k`'s corners end up with the face's projected UVs when it is
      processed, and keep their UVs when `selected_only` skips it. */
  lemma AlignLayerFace(faces: seq<Face>, layer: seq<Vec2>, k: nat, selectedOnly: bool,
                       worldSpace: bool, matrixWorld: Affine, rotWorld: Vec3 -> Vec3)
    requires |layer| == LoopCount(faces) && k < |faces|
    ensures LoopStart(faces, k + 1) <= |layer|
    ensures
      var s, e := LoopStart(faces, k), LoopStart(faces, k + 1);
      var r := AlignLayer(faces, layer, selectedOnly, ProjectFaces(faces, worldSpace, matrixWorld, rotWorld));
      (IsProcessed(faces[k], selectedOnly) ==> r[s..e] == FaceUVs(faces[k], worldSpace, matrixWorld, rotWorld)) &&
      (!IsProcessed(faces[k], selectedOnly) ==> r[s..e] == layer[s..e])
  {
    AlignPrefixSlice(faces, layer, |faces|, k, selectedOnly, ProjectFaces(faces, worldSpace, matrixWorld, rotWorld));
  }

  /** Aligning a layer twice with the same selection mode leaves what the
      second run writes, whatever the first wrote: in particular aligning is
      idempotent. */
  lemma AlignLayerOverwrite(faces: seq<Face>, layer: seq<Vec2>, selectedOnly: bool,
                            first: seq<seq<Vec2>>, second: seq<seq<Vec2>>)
    requires |layer| == LoopCount(faces) && Fits(faces, first) && Fits(faces, second)
    ensures
      AlignLayer(faces, AlignLayer(faces, layer, selectedOnly, first), selectedOnly, second)
      == AlignLayer(faces, layer, selectedOnly, second)
  {
    AlignPrefixOverwriteFirst(faces, layer, selectedOnly, first, second);
  }

  /** Face `k`'s stretch of a layer with one entry per corner. */
  function FaceSlice(faces: seq<Face>, x: seq<Vec2>, k: nat): (piece: seq<Vec2>)
    requires k < |faces| && |x| == LoopCount(faces)
    ensures LoopStart(faces, k + 1) <= |x|
    ensures piece == x[LoopStart(faces, k)..LoopStart(faces, k + 1)]
  {
    LoopStartMono(faces, k + 1, |faces|);
    x[LoopStart(faces, k)..LoopStart(faces, k + 1)]
  }

  lemma AlignPrefixOverwriteFirst(faces: seq<Face>, layer: seq<Vec2>, selectedOnly: bool,
                                  first: seq<seq<Vec2>>, second: seq<seq<Vec2>>)
    requires |layer| == LoopCount(faces) && Fits(faces, first) && Fits(faces, second)
    ensures
      AlignPrefix(faces, AlignLayer(faces, layer, selectedOnly, first), |faces|, selectedOnly, second)
      == AlignPrefix(faces, layer, |faces|, selectedOnly, second)
  {
    var mid := AlignLayer(faces, layer, selectedOnly, first);
    forall k | 0 <= k < |faces|
      ensures FaceSlice(faces, mid, k) == FacePiece(faces[k], FaceSlice(faces, layer, k), selectedOnly, first[k])
    {
      AlignPrefixSlice(faces, layer, |faces|, k, selectedOnly, first);
    }
    AlignPrefixOverwrite(faces, layer, mid, |faces|, selectedOnly, first, second);
  }

  /** Realigning a layer `mid` whose every face stretch was itself aligned
      from `layer` gives what aligning `layer` gives. */
  lemma {:induction false} AlignPrefixOverwrite(faces: seq<Face>, layer: seq<Vec2>, mid: seq<Vec2>, j: nat,
                                                selectedOnly: bool, first: seq<seq<Vec2>>, second: seq<seq<Vec2>>)
    requires j <= |faces| && |layer| == LoopCount(faces) && |mid| == |layer|
    requires Fits(faces, first) && Fits(faces, second)
    requires forall k {:trigger FaceSlice(faces, mid, k)} :: 0 <= k < |faces| ==>
      FaceSlice(faces, mid, k) == FacePiece(faces[k], FaceSlice(faces, layer, k), selectedOnly, first[k])
    ensures AlignPrefix(faces, mid, j, selectedOnly, second) == AlignPrefix(faces, layer, j, selectedOnly, second)
    decreases j
  {
    if j > 0 {
      assert FaceSlice(faces, mid, j - 1)
             == FacePiece(faces[j - 1], FaceSlice(faces, layer, j - 1), selectedOnly, first[j - 1]);
      AlignPrefixOverwrite(faces, layer, mid, j - 1, selectedOnly, first, second);
      AlignPrefixUnfold(faces, mid, j, selectedOnly, second);
      AlignPrefixUnfold(faces, layer, j, selectedOnly, second);
    }
  }

  /** An aligned prefix that covers face `j - 1` ends with that face's piece. */
  lemma AlignPrefixUnfold(faces: seq<Face>, layer: seq<Vec2>, j: nat, selectedOnly: bool, projected: seq<seq<Vec2>>)
    requires 0 < j <= |faces| && |layer| == LoopCount(faces) && Fits(faces, projected)
    ensures AlignPrefix(faces, layer, j, selectedOnly, projected)
            == AlignPrefix(faces, layer, j - 1, selectedOnly, projected)
               + FacePiece(faces[j - 1], FaceSlice(faces, layer, j - 1), selectedOnly, projected[j - 1])
  {
    LoopStartMono(faces, j, |faces|);
  }

  // ---------------------------------------------------------------------
  // Properties of one face's UVs

  /** The difference of two corner UVs is the projection of the difference of
      their positions, mapped by the linear part of the world matrix in world
      space: the common offset and the matrix translation cancel. */
  lemma CornerDifference(face: Face, worldSpace: bool, matrixWorld: Affine, rotWorld: Vec3 -> Vec3, c1: nat, c2: nat)
    requires c1 < |face.verts| && c2 < |face.verts|
    ensures
      var uvs := FaceUVs(face, worldSpace, matrixWorld, rotWorld);
      var d := Sub(face.verts[c2], face.verts[c1]);
      Sub2(uvs[c2], uvs[c1])
      == Project(FaceAxis(face, worldSpace, rotWorld), if worldSpace then MulVec(matrixWorld.linear, d) else d)
  {
    var f := IntFaceCenter(face);
    var axis := FaceAxis(face, worldSpace, rotWorld);
    var q1, q2 := Sub(face.verts[c1], f), Sub(face.verts[c2], f);
    assert Sub(q2, q1) == Sub(face.verts[c2], face.verts[c1]);
    if worldSpace {
      ApplySub(matrixWorld, q2, q1);
      ProjectLinear(axis, Apply(matrixWorld, q2), Apply(matrixWorld, q1), 0.0);
    } else {
      ProjectLinear(axis, q2, q1, 0.0);
    }
  }

  lemma MulVecSub(m: Mat3, p: Vec3, q: Vec3)
    ensures MulVec(m, Sub(p, q)) == Sub(MulVec(m, p), MulVec(m, q))
  {
  }

  lemma {:induction false} SumProjected(ps: seq<Vec3>, uvs: seq<Vec2>, f: Vec3, axis: Axis)
    requires |uvs| == |ps|
    requires forall c :: 0 <= c < |ps| ==> uvs[c] == Project(axis, Sub(ps[c], f))
    ensures Sum2(uvs) == Project(axis, Sub(Sum(ps), Scale(|ps| as real, f)))
  {
    if ps != [] {
      var n := |ps| - 1;
      SumProjected(ps[..n], uvs[..n], f, axis);
      ScaleSucc(n as real, f);
      var s := Sum(ps[..n]);
      var a := Scale(n as real, f);
      var head, last := Project(axis, Sub(s, a)), Project(axis, Sub(ps[n], f));
      assert Sum2(uvs) == Vec2(head.x + last.x, head.y + last.y);
      assert Sub(Add(s, ps[n]), Add(a, f)) == Add(Sub(s, a), Sub(ps[n], f));
      ProjectAdd(axis, Sub(s, a), Sub(ps[n], f));
    }
  }

  /** In object space the mean of a face's corner UVs is the fractional part
      of the projected face centre, so it lies in the unit square: this is
      what "move UV island to near center" achieves. */
  lemma ObjectSpaceMeanIsFrac(face: Face, matrixWorld: Affine, rotWorld: Vec3 -> Vec3)
    ensures
      var uvs := FaceUVs(face, false, matrixWorld, rotWorld);
      var m := Mean2(uvs);
      m == Project(FaceAxis(face, false, rotWorld), Frac(Mean(face.verts))) &&
      0.0 <= m.x < 1.0 && 0.0 <= m.y < 1.0
  {
    var uvs := FaceUVs(face, false, matrixWorld, rotWorld);
    var axis := FaceAxis(face, false, rotWorld);
    var f := IntFaceCenter(face);
    assert forall c :: 0 <= c < |uvs| ==> uvs[c] == Project(axis, Sub(face.verts[c], f));
    MeanProjected(face.verts, uvs, f, axis);
    ProjectFracInSquare(axis, Mean(face.verts));
  }

  /** The mean of corner UVs projected after an offset is the projection of
      the offset mean. */
  lemma MeanProjected(ps: seq<Vec3>, uvs: seq<Vec2>, f: Vec3, axis: Axis)
    requires |ps| > 0 && |uvs| == |ps|
    requires forall c :: 0 <= c < |ps| ==> uvs[c] == Project(axis, Sub(ps[c], f))
    ensures Mean2(uvs) == Project(axis, Sub(Mean(ps), f))
  {
    SumProjected(ps, uvs, f, axis);
    var n := |ps| as real;
    var d := Sub(Sum(ps), Scale(n, f));
    ProjectLinear(axis, d, d, 1.0 / n);
    ScaleOffset(n, Sum(ps), f);
  }

  /** Both coordinates of a projected fractional part lie in [0, 1). */
  lemma ProjectFracInSquare(axis: Axis, v: Vec3)
    ensures var uv := Project(axis, Frac(v)); 0.0 <= uv.x < 1.0 && 0.0 <= uv.y < 1.0
  {
    FracInUnitCube(v);
    var fr := Frac(v);
    assert Get(fr, 0) == fr.x && Get(fr, 1) == fr.y && Get(fr, 2) == fr.z;
  }

  /** In object space neither the world matrix nor its rotation has any
      influence on a face's UVs. */
  lemma ObjectSpaceIgnoresWorld(face: Face, m1: Affine, r1: Vec3 -> Vec3, m2: Affine, r2: Vec3 -> Vec3)
    ensures FaceUVs(face, false, m1, r1) == FaceUVs(face, false, m2, r2)
  {
  }

  /** Moving every vertex of a face by a whole-number vector (in object
      space) leaves its UVs unchanged, in object and in world space: the
      floored centre moves by the same vector. */
  lemma IntegerTranslationInvariant(face: Face, t: Vec3, worldSpace: bool, matrixWorld: Affine, rotWorld: Vec3 -> Vec3)
    requires IsIntegral(t)
    ensures
      var moved: Face := BMFace(Translate(face.verts, t), face.normal, face.select);
      FaceUVs(moved, worldSpace, matrixWorld, rotWorld) == FaceUVs(face, worldSpace, matrixWorld, rotWorld)
  {
    var moved: Face := BMFace(Translate(face.verts, t), face.normal, face.select);
    IntFaceCenterTranslate(face, t);
    assert FaceAxis(moved, worldSpace, rotWorld) == FaceAxis(face, worldSpace, rotWorld);
    CornerUVsTranslate(face.verts, t, IntFaceCenter(face), FaceAxis(face, worldSpace, rotWorld), worldSpace, matrixWorld);
  }

  lemma IntFaceCenterTranslate(face: Face, t: Vec3)
    requires IsIntegral(t)
    ensures IntFaceCenter(BMFace(Translate(face.verts, t), face.normal, face.select)) == Add(IntFaceCenter(face), t)
  {
    MeanTranslate(face.verts, t);
    FloorVecTranslate(Mean(face.verts), t);
  }

  /** Moving the corners and the offset by the same vector leaves the UVs unchanged. */
  lemma CornerUVsTranslate(verts: seq<Vec3>, t: Vec3, f: Vec3, axis: Axis, worldSpace: bool, matrixWorld: Affine)
    ensures CornerUVs(Translate(verts, t), Add(f, t), axis, worldSpace, matrixWorld)
            == CornerUVs(verts, f, axis, worldSpace, matrixWorld)
  {
    var a := CornerUVs(Translate(verts, t), Add(f, t), axis, worldSpace, matrixWorld);
    var b := CornerUVs(verts, f, axis, worldSpace, matrixWorld);
    forall c | 0 <= c < |b| ensures a[c] == b[c] {
      assert Sub(Add(verts[c], t), Add(f, t)) == Sub(verts[c], f);
    }
  }

  // ---------------------------------------------------------------------
  // The operation

  /** The `for loop in face.loops` block of `align_one_object` for one
      processed face whose corners start at `loopStart`: writes each corner's
      UV and leaves every other entry of the layer as it was. */
  method WriteCornerUVs(uvLayer: array<Vec2>, loopStart: nat, verts: seq<Vec3>, intFaceCenter: Vec3,
                        bestFitAxis: Axis, worldSpace: bool, matrixWorld: Affine)
    requires loopStart + |verts| <= uvLayer.Length
    modifies uvLayer
    ensures uvLayer[..] == old(uvLayer[..loopStart])
                           + CornerUVs(verts, intFaceCenter, bestFitAxis, worldSpace, matrixWorld)
                           + old(uvLayer[loopStart + |verts|..])
  {
    ghost var uvs := CornerUVs(verts, intFaceCenter, bestFitAxis, worldSpace, matrixWorld);
    var c := 0;
    while c < |verts|
      invariant 0 <= c <= |verts|
      invariant forall i :: 0 <= i < loopStart ==> uvLayer[i] == old(uvLayer[i])
      invariant forall i :: 0 <= i < c ==> uvLayer[loopStart + i] == uvs[i]
      invariant forall i :: loopStart + c <= i < uvLayer.Length ==> uvLayer[i] == old(uvLayer[i])
    {
      var vertPos := Sub(verts[c], intFaceCenter);
      if worldSpace {
        vertPos := Apply(matrixWorld, vertPos);
      }
      if bestFitAxis == 0 {
        uvLayer[loopStart + c] := Vec2(vertPos.y, vertPos.z);
      } else if bestFitAxis == 1 {
        uvLayer[loopStart + c] := Vec2(vertPos.x, vertPos.z);
      } else {
        uvLayer[loopStart + c] := Vec2(vertPos.x, vertPos.y);
      }
      c := c + 1;
    }
    assert uvLayer[..] == old(uvLayer[..loopStart]) + uvs + old(uvLayer[loopStart + |verts|..]);
  }

  /** `projected[j]` holds the UVs `align_one_object` computes for face `j`. */
  predicate ProjectedFaces(faces: seq<Face>, projected: seq<seq<Vec2>>, worldSpace: bool, matrixWorld: Affine,
                           rotWorld: Vec3 -> Vec3)
  {
    |projected| == |faces| &&
    forall j {:trigger FaceUVs(faces[j], worldSpace, matrixWorld, rotWorld)} :: 0 <= j < |faces| ==>
      projected[j] == FaceUVs(faces[j], worldSpace, matrixWorld, rotWorld)
  }

  /** The ghost UVs the methods carry are exactly the computed ones. */
  lemma ProjectedFacesUnique(faces: seq<Face>, projected: seq<seq<Vec2>>, worldSpace: bool, matrixWorld: Affine,
                             rotWorld: Vec3 -> Vec3)
    ensures ProjectedFaces(faces, projected, worldSpace, matrixWorld, rotWorld)
            <==> projected == ProjectFaces(faces, worldSpace, matrixWorld, rotWorld)
  {
  }

  /** Writes the corners of processed face `k`, given its floored centre and
      its axis, so that faces `0..k+1` are aligned. */
  method WriteFace(faces: seq<Face>, k: nat, uvLayer: array<Vec2>, loopStart: nat, selectedOnly: bool,
                   worldSpace: bool, matrixWorld: Affine, rotWorld: Vec3 -> Vec3, intFaceCenter: Vec3, bestFitAxis: Axis,
                   ghost before: seq<Vec2>, ghost projected: seq<seq<Vec2>>)
    requires k < |faces| && loopStart == LoopStart(faces, k) && LoopStart(faces, k + 1) <= LoopCount(faces)
    requires Fits(faces, projected) && ProjectedFaces(faces, projected, worldSpace, matrixWorld, rotWorld)
    requires AlignedUpTo(faces, before, k, selectedOnly, projected, uvLayer[..]) && IsProcessed(faces[k], selectedOnly)
    requires intFaceCenter == FloorVec(Mean(faces[k].verts))
    requires bestFitAxis == BestFitAxis(FaceNormal(faces[k], worldSpace, rotWorld))
    modifies uvLayer
    ensures AlignedUpTo(faces, before, k + 1, selectedOnly, projected, uvLayer[..])
  {
    ghost var pre := uvLayer[..];
    WriteCornerUVs(uvLayer, loopStart, faces[k].verts, intFaceCenter, bestFitAxis, worldSpace, matrixWorld);
    AlignPrefixWritten(faces, before, k, selectedOnly, projected, worldSpace, matrixWorld, rotWorld,
                       intFaceCenter, bestFitAxis, pre, uvLayer[..]);
  }

  /** The body of the face loop of `align_one_object` for face `k`, whose
      corners start at `loopStart`: a face that `selected_only` skips is left
      alone; otherwise the face's (possibly rotated) normal picks the axis,
      its floored median centre the offset, and its corners are written.
      Reports whether `loop[uv_layer]` raised for lack of a UV layer. */
  method AlignFace(faces: seq<Face>, k: nat, uvLayer: array?<Vec2>, loopStart: nat, selectedOnly: bool,
                   worldSpace: bool, matrixWorld: Affine, rotWorld: Vec3 -> Vec3,
                   ghost before: seq<Vec2>, ghost projected: seq<seq<Vec2>>) returns (raised: bool)
    requires k < |faces| && loopStart == LoopStart(faces, k)
    requires Fits(faces, projected) && ProjectedFaces(faces, projected, worldSpace, matrixWorld, rotWorld)
    requires FaceLoopState(faces, uvLayer, before, k, selectedOnly, projected)
    modifies uvLayer
    ensures raised <==> uvLayer == null && IsProcessed(faces[k], selectedOnly)
    ensures !raised ==> FaceLoopState(faces, uvLayer, before, k + 1, selectedOnly, projected)
  {
    var face := faces[k];
    LoopStartMono(faces, k + 1, |faces|);
    if selectedOnly && !face.select {
      if uvLayer != null {
        AlignPrefixStep(faces, before, k, selectedOnly, projected, uvLayer[..], uvLayer[..]);
      }
      return false;
    }

    var normal := face.normal;
    if worldSpace {
      normal := rotWorld(normal);
    }
    var faceCenter := Mean(face.verts);
    var intFaceCenter := FloorVec(faceCenter);
    var bestFitAxis := BestFitAxis(normal);

    // `loop[uv_layer]` raises on the face's first corner when there is no
    // active UV layer; every face has a corner.
    if uvLayer == null {
      return true;
    }
    assert normal == FaceNormal(face, worldSpace, rotWorld);
    WriteFace(faces, k, uvLayer, loopStart, selectedOnly, worldSpace, matrixWorld, rotWorld,
              intFaceCenter, bestFitAxis, before, projected);
    raised := false;
  }

  /** The face loop of `align_one_object` over the mesh's faces and its
      active UV layer (null when there is none), given the UVs each face
      gets. */
  method AlignFaces(faces: seq<Face>, uvLayer: array?<Vec2>, selectedOnly: bool, worldSpace: bool,
                    matrixWorld: Affine, rotWorld: Vec3 -> Vec3, ghost projected: seq<seq<Vec2>>) returns (ok: bool)
    requires uvLayer != null ==> uvLayer.Length == LoopCount(faces)
    requires Fits(faces, projected) && ProjectedFaces(faces, projected, worldSpace, matrixWorld, rotWorld)
    modifies uvLayer
    ensures ok <==> !(uvLayer == null && exists k :: 0 <= k < |faces| && IsProcessed(faces[k], selectedOnly))
    ensures uvLayer != null ==> uvLayer[..] == AlignLayer(faces, old(uvLayer[..]), selectedOnly, projected)
  {
    ghost var before := if uvLayer != null then uvLayer[..] else [];
    var k, loopStart := 0, 0;
    while k < |faces|
      invariant 0 <= k <= |faces|
      invariant loopStart == LoopStart(faces, k)
      invariant FaceLoopState(faces, uvLayer, before, k, selectedOnly, projected)
    {
      var raised := AlignFace(faces, k, uvLayer, loopStart, selectedOnly, worldSpace, matrixWorld, rotWorld,
                              before, projected);
      if raised {
        return false;
      }
      k, loopStart := k + 1, loopStart + |faces[k].verts|;
    }
    if uvLayer != null {
      assert uvLayer[..] == uvLayer[..loopStart];
    }
    ok := true;
  }

  /** `align_one_object`: writes the UVs of every processed face into the
      active UV layer; faces, normals and positions are not touched. Returns
      false where the source raises because the mesh has no active UV layer;
      nothing is written in that case. `projected` names the UVs of each
      face, which `ProjectedFacesUnique` shows are `ProjectFaces(...)`. */
  method AlignOneObject(obj: SceneObject, selectedOnly: bool, worldSpace: bool, ghost projected: seq<seq<Vec2>>)
    returns (ok: bool)
    requires ObjectInput(obj, projected, worldSpace)
    modifies obj.editMesh.uvLayer
    ensures ok <==> !RaisesNoLayer(obj.editMesh, selectedOnly)
    ensures obj.editMesh.uvLayer != null ==>
      obj.editMesh.uvLayer[..] == AlignLayer(obj.editMesh.faces, old(obj.editMesh.uvLayer[..]), selectedOnly, projected)
  {
    var bm := obj.editMesh;
    ok := AlignFaces(bm.faces, bm.uvLayer, selectedOnly, worldSpace, obj.matrixWorld, obj.rotWorld, projected);
  }

  /** Every object's UV layer, for mesh objects. */
  function MeshLayers(objects: seq<SceneObject>): set<array?<Vec2>>
  {
    set i | 0 <= i < |objects| && objects[i].objType == "MESH" :: objects[i].editMesh.uvLayer
  }

  /** No two objects share a UV layer. */
  predicate LayersDistinct(objects: seq<SceneObject>)
  {
    forall i, j :: 0 <= i < j < |objects| && objects[i].editMesh.uvLayer != null ==>
      objects[i].editMesh.uvLayer != objects[j].editMesh.uvLayer
  }

  /** `projected` holds the UVs `align_one_object` computes for every face
      of `obj`, and the object's UV layer, if any, has one entry per corner. */
  predicate ObjectInput(obj: SceneObject, projected: seq<seq<Vec2>>, worldSpace: bool)
  {
    MeshValid(obj.editMesh) && Fits(obj.editMesh.faces, projected) &&
    ProjectedFaces(obj.editMesh.faces, projected, worldSpace, obj.matrixWorld, obj.rotWorld)
  }

  /** `align_objects`: aligns every mesh object in edit mode, in order, and
      skips the others. An exception on one object abandons the rest, so the
      objects before it are aligned and it and the ones after are untouched.
      `projected[i]` names the UVs of the faces of object `i`, which
      `ProjectedFacesUnique` shows are `ProjectFaces(...)` of that object. */
  method AlignObjects(objects: seq<SceneObject>, selectedOnly: bool, worldSpace: bool,
                      ghost projected: seq<seq<seq<Vec2>>>) returns (ok: bool)
    requires |projected| == |objects|
    requires forall i :: 0 <= i < |objects| && objects[i].objType == "MESH" ==>
      ObjectInput(objects[i], projected[i], worldSpace)
    requires LayersDistinct(objects)
    modifies MeshLayers(objects)
    ensures ok <==> FirstRaise(objects, selectedOnly) == |objects|
    ensures forall i :: 0 <= i < FirstRaise(objects, selectedOnly) && objects[i].objType == "MESH" &&
                        objects[i].editMesh.uvLayer != null ==>
      MeshValid(objects[i].editMesh) && Fits(objects[i].editMesh.faces, projected[i]) &&
      objects[i].editMesh.uvLayer[..] ==
        AlignLayer(objects[i].editMesh.faces, old(objects[i].editMesh.uvLayer[..]), selectedOnly, projected[i])
    ensures forall i :: 0 <= i < |objects| && !(i < FirstRaise(objects, selectedOnly) && objects[i].objType == "MESH") &&
                        objects[i].editMesh.uvLayer != null ==>
      objects[i].editMesh.uvLayer[..] == old(objects[i].editMesh.uvLayer[..])
  {
    var k := 0;
    while k < |objects|
      invariant 0 <= k <= FirstRaise(objects, selectedOnly)
      invariant forall i :: 0 <= i < k && objects[i].objType == "MESH" && objects[i].editMesh.uvLayer != null ==>
        MeshValid(objects[i].editMesh) && Fits(objects[i].editMesh.faces, projected[i]) &&
        objects[i].editMesh.uvLayer[..] ==
          AlignLayer(objects[i].editMesh.faces, old(objects[i].editMesh.uvLayer[..]), selectedOnly, projected[i])
      invariant forall i :: 0 <= i < |objects| && !(i < k && objects[i].objType == "MESH") &&
                            objects[i].editMesh.uvLayer != null ==>
        objects[i].editMesh.uvLayer[..] == old(objects[i].editMesh.uvLayer[..])
    {
      var obj := objects[k];
      if obj.objType == "MESH" {
        label Head:
        var done := AlignOneObject(obj, selectedOnly, worldSpace, projected[k]);
        if !done {
          return false;
        }
        // Every other object has its own layer, which the call leaves alone.
        forall i | 0 <= i < |objects| && i != k && objects[i].editMesh.uvLayer != null
          ensures objects[i].editMesh.uvLayer[..] == old@Head(objects[i].editMesh.uvLayer[..])
        {
          if i < k {
            assert objects[i].editMesh.uvLayer != obj.editMesh.uvLayer;
          } else {
            assert obj.editMesh.uvLayer != objects[i].editMesh.uvLayer;
          }
        }
      }
      k := k + 1;
    }
    ok := true;
  }
}
