# Align UV To Grid — a Dafny model

This project models the Blender add-on "Align UV To Grid" (version 1.0). The add-on projects UVs the way a BSP level editor such as Hammer does. For every face of every mesh object in edit mode (or every selected face), it:

- takes the face's normal, rotated into world space when `world_space` is set;
- picks the dominant axis of that normal, the axis with the largest absolute component;
- subtracts the face's median centre, floored to whole numbers, from each corner position;
- applies the object's world matrix to the result when `world_space` is set;
- writes the two remaining coordinates, in ascending index order, as the corner's UV.

Files:

- `geometry.dfy` (module `Geometry`): exact-real vectors and the affine world matrix. It also holds component-wise `floor`, the fractional part, sums and means.
- `axes.dfy` (module `Axes`):
  - the `dots` list and a model of Python's stable `sorted` by key;
  - the dominant-axis choice `sorted(dots)[2][1]`, proved to be the last index with the greatest key;
  - the pick of the two UV coordinates.
- `align.dfy` (module `Align`):
  - the face, mesh and object entities;
  - the UV layer as an `array` with one entry per corner (loop), face after face;
  - a specification `AlignLayer` of the layer after `align_one_object`, with lemmas about it;
  - the imperative operations `AlignObjects`, `AlignOneObject`, `AlignFaces`, `AlignFace` and `WriteCornerUVs`, each proved against that specification.

The mesh may have no active UV layer (`uv_layer` is `None`). Then `loop[uv_layer]` raises on the first face that would be written. The model returns `false` in that case and writes nothing. Since `align_objects` does not catch the exception, the objects after that one are not visited.

Ties between equal absolute normal components go to the highest index (Z over Y over X). That is what the code does: Python's `sorted` is stable, and element 2 is taken.

## Model

| member | source | states |
|---|---|---|
| Geometry.FloorVec | __init__.py:161 | `int_face_center` is a whole-number vector, and each component lies in `(c - 1, c]` for the centre component `c` |
| Geometry.FloorVecTranslate | __init__.py:161 | moving the centre by a whole-number vector moves its floor by the same vector |
| Geometry.MeanTranslate | __init__.py:160 | translating every vertex translates `calc_center_median` by the same vector |
| Geometry.Mean | __init__.py:160 | `calc_center_median` of a face's corners: the number of corners times the result is the sum of the corner positions |
| Axes.Dots | __init__.py:165 | entry `i` of `dots` is `(abs(normal[i]), i)` |
| Axes.InsertLast | __init__.py:166 | one insertion step of the stable sort: the result is one longer and holds exactly the old entries and the new one |
| Axes.SortByKey | __init__.py:166 | `sorted(dots, key = lambda x: x[0])`: a permutation of `dots` in ascending key order |
| Axes.LastMaxIndex | __init__.py:165-167 | the index of the last entry with the greatest key: no entry has a greater key, and every later entry has a strictly smaller one |
| Axes.SortByKeyLast | __init__.py:166-167 | the last element of the stable sort is the entry at `LastMaxIndex`, the last entry with the greatest key |
| Axes.BestFitAxis | __init__.py:163-167 | `best_fit_axis` has the greatest absolute normal component, and every higher axis has a strictly smaller one (ties go to the highest index) |
| Axes.BestFitAxisUnique | __init__.py:163-167 | that dominance condition holds for exactly one axis, the one `best_fit_axis` picks |
| Axes.Project | __init__.py:176-181 | the UV is the two coordinates other than `best_fit_axis`, lower index first |
| Axes.ProjectIgnoresAxis | __init__.py:176-181 | the coordinate along `best_fit_axis` has no influence on the UV |
| Axes.ProjectLinear | __init__.py:176-181 | the UV pick commutes with differences and scaling of positions |
| Align.IsProcessed | __init__.py:152-154 | a face is written unless `selected_only` is set and the face is not selected |
| Align.FaceNormal | __init__.py:156-158 | the normal that chooses the axis: rotated by `rot_world` in world space, the face's own normal otherwise |
| Align.FaceAxis | __init__.py:156-167 | `best_fit_axis` of a face: dominant for the face's normal, rotated by `rot_world` first in world space only |
| Align.IntFaceCenter | __init__.py:160-161 | `int_face_center` is a whole-number vector, at most the median centre and within 1 below it in each component |
| Align.IntFaceCenterTranslate | __init__.py:160-161 | moving a face by a whole-number vector moves `int_face_center` by the same vector |
| Align.CornerUV | __init__.py:169-181 | a corner's UV is the projected position minus the projected floored centre, both taken through `matrix_world` (the centre through its linear part only, so it is subtracted before the translation applies) in world space, and the plain projections in object space |
| Align.CornerUVs | __init__.py:169-181 | the corner loop yields one UV per corner, each the `CornerUV` of that corner's position |
| Align.CornerUVsTranslate | __init__.py:169-181 | moving every corner and the floored centre by the same vector leaves the corner UVs unchanged |
| Align.FaceUVs | __init__.py:156-181 | a processed face gets exactly one UV per corner |
| Align.ProjectFaces | __init__.py:152-181 | the per-face UVs of the face loop hold one UV per corner of every face |
| Align.AlignPrefix | __init__.py:152-181 | once faces `0..k` are handled, the layer prefix covers exactly the corners of those faces |
| Align.AlignLayer | __init__.py:152-181 | the layer after the face loop, the specification the methods are proved against: it has as many entries as before, and `AlignLayerFace` gives the contents of each face's stretch |
| Align.RaisesNoLayer | __init__.py:147-175 | `loop[uv_layer]` with `uv_layer` None can raise only when the mesh has no UV layer and a face; when `selected_only` is off, exactly then |
| Align.FirstRaise | __init__.py:139-142 | the index of the first mesh object on which `align_one_object` raises for lack of a UV layer (non-mesh objects never raise), or the number of objects |
| Align.AlignLayerFace | __init__.py:152-181 | after aligning, a processed face's corners hold that face's projected UVs, and a face skipped by `selected_only` keeps its old UVs |
| Align.AlignLayerOverwrite | __init__.py:152-181 | aligning twice with the same `selected_only` leaves what the second run writes; in particular, aligning is idempotent |
| Align.CornerDifference | __init__.py:169-181 | the difference of two corner UVs is the projected difference of their positions, through the linear part of `matrix_world` in world space: the floored centre and the translation cancel |
| Align.ObjectSpaceMeanIsFrac | __init__.py:160-171 | in object space the mean of a face's UVs is the projected fractional part of its centre, so both coordinates lie in `[0, 1)` |
| Align.MeanProjected | __init__.py:160-171 | the mean of the corner UVs is the projection of the offset median centre |
| Align.IntegerTranslationInvariant | __init__.py:160-181 | moving a face by a whole-number vector leaves its UVs unchanged, in object and in world space |
| Align.ObjectSpaceIgnoresWorld | __init__.py:156-173 | with `world_space` off, neither `matrix_world` nor `rot_world` has any influence on a face's UVs |
| Align.ProjectedFacesUnique | __init__.py:152-181 | the per-face UVs the methods are given are exactly the ones the face loop computes |
| Align.WriteCornerUVs | __init__.py:169-181 | the corner loop writes the projected UV of each corner of the face into its stretch of the layer and changes no other entry |
| Align.WriteFace | __init__.py:169-181 | writing the corners of processed face `k` extends the aligned prefix of the layer to faces `0..k+1` |
| Align.AlignFace | __init__.py:152-181 | one iteration of the face loop: a skipped face leaves the layer alone; a processed face raises without a UV layer, and otherwise gets its UVs, so faces `0..k+1` are aligned |
| Align.AlignFaces | __init__.py:152-181 | the face loop raises exactly when there is no UV layer and some face is processed; otherwise the layer ends up as `AlignLayer` of its old contents |
| Align.AlignOneObject | __init__.py:144-184 | `align_one_object` fails exactly when the mesh has no active UV layer and has a face to write; otherwise the layer holds the aligned UVs |
| Align.AlignObjects | __init__.py:139-142 | only `MESH` objects are aligned, in order; the run stops at the first object that raises; objects before it are aligned, and it and all later ones are untouched |

## Left out

- Registration, the menu entries, the lock-rotation panel, the operator's `poll` and `execute`, and `main`: these are user interface and have no computational content.
- The `print` calls, the unused `ATTR_*` and axis constants, and the `make_attrs` stub: they do not affect the UVs.
- `bmesh.from_edit_mesh`, `bmesh.update_edit_mesh` and `bm.free`: opening the mesh becomes the `BMesh` value the object holds, and flushing and freeing it have no effect on the model.
- `matrix_world.to_quaternion()`: it is an abstract direction map `rotWorld` carried by each object. The model states nothing about the rotation itself.
- Floating-point arithmetic: coordinates are exact reals, so rounding in the centre, the floor or the matrix product is not modelled.
- Geometry that BMesh keeps consistent is taken as given. Each face has at least one corner, its normal is an input, and the UV layer holds one entry per corner, face after face.
- AlignOneObject: `projected`, the UVs each face gets, is a ghost argument. `ProjectedFacesUnique` pins it to the computed ones. The methods then compare their writes with it instead of re-deriving each face's UVs. `AlignObjects` takes one such list per object in the same way. Stating the result directly in terms of `ProjectFaces` would make the solver unfold every face's UVs inside the loops' proofs.
- AlignObjects: requires the UV layers of distinct objects to be distinct arrays. Objects that share one mesh (linked duplicates) are not modelled. `AlignLayerOverwrite` describes what a second pass over the same layer leaves.
- Exceptions other than the missing UV layer (for example Blender errors while the mesh is open) are not modelled.
