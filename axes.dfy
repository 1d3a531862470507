/** The dominant-axis choice of `align_one_object` and the pick of the two
    remaining coordinates that become a corner's UV. */
module Axes {
  import opened Geometry

  /** 0, 1 or 2 for x, y or z. */
  type Axis = a: nat | a < 3

  /** One entry of the source's `dots` list: `(abs(normal[i]), i)`. */
  type DotEntry = (real, nat)

  /** The sort key, `lambda x: x[0]`. */
  function Key(d: DotEntry): real { d.0 }

  predicate SortedByKey(s: seq<DotEntry>)
  {
    forall i, j :: 0 <= i < j < |s| ==> Key(s[i]) <= Key(s[j])
  }

  /** Inserts `d` into `t` after every trailing entry whose key is greater
      than `d`'s, so that `d` lands after every entry with an equal key. The
      result holds exactly the entries of `t` and `d`. */
  function InsertLast(t: seq<DotEntry>, d: DotEntry): (r: seq<DotEntry>)
    ensures |r| == |t| + 1
    ensures multiset(r) == multiset(t) + multiset{d}
  {
    if t == [] then [d]
    else if Key(t[|t| - 1]) <= Key(d) then t + [d]
    else
      var m := |t| - 1;
      assert t == t[..m] + [t[m]];
      InsertLast(t[..m], d) + [t[m]]
  }

  /** `sorted(s, key = lambda x: x[0])`: Python's sort is stable and
      ascending, which is what insertion from the right computes. The result
      is a permutation of `s` in ascending key order. */
  function SortByKey(s: seq<DotEntry>): (r: seq<DotEntry>)
    ensures |r| == |s|
    ensures multiset(r) == multiset(s)
    ensures SortedByKey(r)
  {
    if s == [] then []
    else
      var m := |s| - 1;
      assert s == s[..m] + [s[m]];
      var t := SortByKey(s[..m]);
      InsertLastSorted(t, s[m]);
      InsertLast(t, s[m])
  }

  /** The entry at the end after insertion. */
  lemma InsertLastLast(t: seq<DotEntry>, d: DotEntry)
    ensures InsertLast(t, d)[|t|] == if t == [] || Key(t[|t| - 1]) <= Key(d) then d else t[|t| - 1]
  {
  }

  /** A bound on every key of `t` and on `d` bounds every key after insertion. */
  lemma {:induction false} InsertLastBound(t: seq<DotEntry>, d: DotEntry, b: real)
    requires forall i :: 0 <= i < |t| ==> Key(t[i]) <= b
    requires Key(d) <= b
    ensures forall i :: 0 <= i < |InsertLast(t, d)| ==> Key(InsertLast(t, d)[i]) <= b
  {
    if t != [] && Key(d) < Key(t[|t| - 1]) {
      var m := |t| - 1;
      InsertLastBound(t[..m], d, b);
    }
  }

  /** Inserting into a sorted sequence keeps it sorted. */
  lemma {:induction false} InsertLastSorted(t: seq<DotEntry>, d: DotEntry)
    requires SortedByKey(t)
    ensures SortedByKey(InsertLast(t, d))
  {
    if t != [] && Key(d) < Key(t[|t| - 1]) {
      var m := |t| - 1;
      InsertLastSorted(t[..m], d);
      InsertLastBound(t[..m], d, Key(t[m]));
      var r := InsertLast(t[..m], d);
      assert InsertLast(t, d) == r + [t[m]];
    }
  }

  /** The position of the last entry with the greatest key: an independent
      description of what the last element of a stable ascending sort is. */
  function LastMaxIndex(s: seq<DotEntry>): (j: nat)
    requires |s| > 0
    ensures j < |s|
    ensures forall i :: 0 <= i < |s| ==> Key(s[i]) <= Key(s[j])
    ensures forall i :: j < i < |s| ==> Key(s[i]) < Key(s[j])
  {
    if |s| == 1 then 0
    else
      var j := LastMaxIndex(s[..|s| - 1]);
      if Key(s[j]) <= Key(s[|s| - 1]) then |s| - 1 else j
  }

  /** The last element of the stable sort is the last entry with the greatest key. */
  lemma {:induction false} SortByKeyLast(s: seq<DotEntry>)
    requires |s| > 0
    ensures |SortByKey(s)| == |s|
    ensures SortByKey(s)[|s| - 1] == s[LastMaxIndex(s)]
  {
    var m := |s| - 1;
    var t := SortByKey(s[..m]);
    assert SortByKey(s) == InsertLast(t, s[m]);
    InsertLastLast(t, s[m]);
    if m > 0 {
      SortByKeyLast(s[..m]);
      var j := LastMaxIndex(s[..m]);
      assert t[m - 1] == s[j];
      assert LastMaxIndex(s) == if Key(s[j]) <= Key(s[m]) then m else j;
    }
  }

  /** The source's `dots` list for a normal. */
  function Dots(normal: Vec3): (dots: seq<DotEntry>)
    ensures |dots| == 3
    ensures forall i :: 0 <= i < 3 ==> dots[i] == (Abs(Get(normal, i)), i)
  {
    [(Abs(normal.x), 0), (Abs(normal.y), 1), (Abs(normal.z), 2)]
  }

  /** `axis` has the greatest absolute normal component, and every later
      axis has a strictly smaller one (ties go to the highest index). */
  predicate IsDominant(normal: Vec3, axis: Axis)
  {
    (forall i :: 0 <= i < 3 ==> Abs(Get(normal, i)) <= Abs(Get(normal, axis))) &&
    (forall i :: axis < i < 3 ==> Abs(Get(normal, i)) < Abs(Get(normal, axis)))
  }

  /** `best_fit_axis = sorted(dots, key = lambda x: x[0])[2][1]`. */
  function BestFitAxis(normal: Vec3): (axis: Axis)
    ensures IsDominant(normal, axis)
  {
    var dots := Dots(normal);
    SortByKeyLast(dots);
    SortByKey(dots)[2].1
  }

  /** The dominance condition picks exactly one axis, the one `BestFitAxis` returns. */
  lemma BestFitAxisUnique(normal: Vec3, axis: Axis)
    ensures IsDominant(normal, axis) <==> axis == BestFitAxis(normal)
  {
  }

  /** The UV of a corner: the two coordinates other than `axis`, in
      ascending index order. */
  function Project(axis: Axis, v: Vec3): (uv: Vec2)
    ensures forall i, j :: 0 <= i < j < 3 && i != axis && j != axis ==> uv == Vec2(Get(v, i), Get(v, j))
  {
    if axis == 0 then Vec2(v.y, v.z)
    else if axis == 1 then Vec2(v.x, v.z)
    else Vec2(v.x, v.y)
  }

  /** The dropped coordinate has no influence on the UV. */
  lemma ProjectIgnoresAxis(axis: Axis, v: Vec3, w: Vec3)
    requires forall i :: 0 <= i < 3 && i != axis ==> Get(v, i) == Get(w, i)
    ensures Project(axis, v) == Project(axis, w)
  {
    if axis != 0 { assert Get(v, 0) == Get(w, 0); }
    if axis != 1 { assert Get(v, 1) == Get(w, 1); }
    if axis != 2 { assert Get(v, 2) == Get(w, 2); }
  }

  /** Projection commutes with addition. */
  lemma ProjectAdd(axis: Axis, v: Vec3, w: Vec3)
    ensures Project(axis, Add(v, w)) == Vec2(Project(axis, v).x + Project(axis, w).x, Project(axis, v).y + Project(axis, w).y)
  {
  }

  /** Projection is linear: it commutes with differences and scaling. */
  lemma ProjectLinear(axis: Axis, v: Vec3, w: Vec3, k: real)
    ensures Project(axis, Sub(v, w)) == Sub2(Project(axis, v), Project(axis, w))
    ensures Project(axis, Scale(k, v)) == Scale2(k, Project(axis, v))
  {
  }
}
