/**
 * The discrete parts of augmentation/ar.py: the autoscale factor, the colour
 * each face is painted with, the per-face point pipeline of `augment_aruco`
 * (project, resize, shift to the marker centre), the nearest-first ordering
 * of `order_faces`, and `_remove_z_coords`.
 *
 * The floating-point geometry stays abstract: `cv2.Rodrigues` is the
 * parameter `rodrigues`, the product of the camera matrix, the intrinsic
 * matrix and a point is the parameter `project`, and the distance of a face
 * to the reference point is the parameter `key`. `fillConvexPoly` is not
 * run: `AugmentAruco` returns the polygons it would fill, in drawing order.
 */
module Ar {
  import opened Wrappers
  import opened Mesh
  import opened ObjText
  import opened Aruco

  /** `DEFAULT_COLOR`, in B, G, R order. */
  const DefaultColor := Color(158, 5, 81)

  /** `M`, the autoscale constant. */
  const AutoscaleConstant := 2000.0

  /** A projected point: one row of `np.dot(projection_matrix, ext_point)`. */
  datatype Vec3 = Vec3(x: real, y: real, z: real)

  type Matrix = seq<seq<real>>

  /** `cv2.Rodrigues(rotation_vectors)[0]`: the entries of a 3x3 rotation matrix. */
  type Rodrigues = Vec3 -> ((nat, nat) -> real)

  /** `np.dot(np.dot(EXTRINSIC_MATRIX, intrinsic_matrix), point + [1])` for a 3-coordinate point. */
  type Projection = (Matrix, Vec) -> Vec3

  // ---------------------------------------------------------------------
  // calculate_autoscale_factor

  function Abs(x: real): real {
    if x < 0.0 then -x else x
  }

  function Max(a: real, b: real): real {
    if a >= b then a else b
  }

  /**
   * `max(abs(aruco_corners[i] - aruco_corners[i-1]))`: the larger coordinate
   * difference between corner i and the corner before it, the last corner
   * coming before the first (index -1).
   */
  function EdgeSize(corners: seq<Point2>, i: nat): real
    requires i < |corners|
  {
    var prev := corners[if i == 0 then |corners| - 1 else i - 1];
    Max(Abs(corners[i].x - prev.x), Abs(corners[i].y - prev.y))
  }

  /** The largest edge size among the first n corners. */
  function MaxEdge(corners: seq<Point2>, n: nat): (m: real)
    requires 0 < n <= |corners|
    ensures forall i :: 0 <= i < n ==> EdgeSize(corners, i) <= m
    ensures exists i :: 0 <= i < n && EdgeSize(corners, i) == m
  {
    if n == 1 then EdgeSize(corners, 0)
    else Max(MaxEdge(corners, n - 1), EdgeSize(corners, n - 1))
  }

  /**
   * `calculate_autoscale_factor` (the second definition, which replaces the
   * identical first one): the largest edge size over all corners, divided by
   * 2000. `max` of an empty list raises ValueError.
   */
  function AutoscaleFactor(corners: seq<Point2>): (r: Result<real, PyError>)
    ensures r.Err? <==> corners == []
    ensures r.Err? ==> r.error == ValueError
    ensures r.Ok? ==> (r.value >= 0.0 &&
      (forall i :: 0 <= i < |corners| ==> EdgeSize(corners, i) / AutoscaleConstant <= r.value) &&
      (exists i :: 0 <= i < |corners| && EdgeSize(corners, i) / AutoscaleConstant == r.value))
  {
    if corners == [] then Err(ValueError)
    else
      var m := MaxEdge(corners, |corners|);
      assert EdgeSize(corners, 0) >= 0.0;
      Ok(m / AutoscaleConstant)
  }

  /** A marker seen as an axis-aligned square of side s gets the factor s / 2000. */
  lemma AutoscaleOfSquare(x: real, y: real, s: real)
    requires s >= 0.0
    ensures AutoscaleFactor([Point2(x, y), Point2(x + s, y), Point2(x + s, y + s), Point2(x, y + s)]) ==
      Ok(s / AutoscaleConstant)
  {
    var cs := [Point2(x, y), Point2(x + s, y), Point2(x + s, y + s), Point2(x, y + s)];
    assert EdgeSize(cs, 0) == s && EdgeSize(cs, 1) == s && EdgeSize(cs, 2) == s && EdgeSize(cs, 3) == s;
  }

  // ---------------------------------------------------------------------
  // Face colour

  /** An entry of `obj.materials`: its `diffuse_color`, if it has one. */
  datatype Material = Material(diffuseColor: Option<Color>)

  datatype Channel = Blue | Green | Red

  function ChannelOf(c: Color, ch: Channel): int {
    match ch
    case Blue => c.b
    case Green => c.g
    case Red => c.r
  }

  /** `sum([vertices_colors[i][ch] for i in range(len(colors))])` */
  function ChannelSum(cs: seq<Color>, ch: Channel): int {
    if cs == [] then 0 else ChannelSum(cs[..|cs| - 1], ch) + ChannelOf(cs[|cs| - 1], ch)
  }

  /** `int(sum / len)`: the mean, truncated toward zero. */
  function ChannelMean(cs: seq<Color>, ch: Channel): int
    requires cs != []
  {
    Trunc(ChannelSum(cs, ch) as real / |cs| as real)
  }

  /** The colour of a face with vertex colours: per-channel mean; no colours divides by zero. */
  function AverageColor(cs: seq<Color>): (r: Result<Color, PyError>)
    ensures r.Err? <==> cs == []
    ensures r.Err? ==> r.error == ZeroDivisionError
  {
    if cs == [] then Err(ZeroDivisionError)
    else Ok(Color(ChannelMean(cs, Blue), ChannelMean(cs, Green), ChannelMean(cs, Red)))
  }

  /**
   * The colour `augment_aruco` paints a face with. With materials: the
   * material's diffuse colour. Without: the average vertex colour. Every
   * missing key (the face's `material`, the material itself, its
   * `diffuse_color`, the face's `colors`) is a KeyError, which gives
   * DEFAULT_COLOR; an empty `colors` list raises ZeroDivisionError.
   */
  function FaceColor(materials: Option<map<string, Material>>, face: Face): Result<Color, PyError> {
    match materials
    case Some(mats) =>
      if face.material.Some? && face.material.value in mats && mats[face.material.value].diffuseColor.Some?
      then Ok(mats[face.material.value].diffuseColor.value)
      else Ok(DefaultColor)
    case None =>
      match face.colors
      case None => Ok(DefaultColor)
      case Some(cs) => AverageColor(cs)
  }

  /** Each channel of a colour lies in [lo, hi]. */
  predicate ChannelsWithin(c: Color, lo: int, hi: int) {
    lo <= c.b <= hi && lo <= c.g <= hi && lo <= c.r <= hi
  }

  lemma {:induction false} ChannelSumBounds(cs: seq<Color>, ch: Channel, lo: int, hi: int)
    requires forall k :: 0 <= k < |cs| ==> ChannelsWithin(cs[k], lo, hi)
    ensures |cs| * lo <= ChannelSum(cs, ch) <= |cs| * hi
    decreases |cs|
  {
    if cs != [] {
      ChannelSumBounds(cs[..|cs| - 1], ch, lo, hi);
      assert ChannelsWithin(cs[|cs| - 1], lo, hi);
      assert (|cs| - 1) * lo + lo == |cs| * lo;
      assert (|cs| - 1) * hi + hi == |cs| * hi;
    }
  }

  lemma MeanBounds(sum: int, n: int, lo: int, hi: int)
    requires n > 0 && 0 <= lo && n * lo <= sum <= n * hi
    ensures lo <= Trunc(sum as real / n as real) <= hi
  {
    assert (n * lo) as real == lo as real * n as real;
    assert (n * hi) as real == hi as real * n as real;
    QuotientAtLeast(sum as real, lo as real, n as real);
    QuotientAtMost(sum as real, hi as real, n as real);
  }

  /**
   * Averaging keeps every channel within the bounds all vertex colours keep
   * (for non-negative bounds, such as the 0..255 of an 8-bit texture).
   */
  lemma AverageColorWithin(cs: seq<Color>, lo: int, hi: int)
    requires cs != [] && 0 <= lo
    requires forall k :: 0 <= k < |cs| ==> ChannelsWithin(cs[k], lo, hi)
    ensures AverageColor(cs).Ok? && ChannelsWithin(AverageColor(cs).value, lo, hi)
  {
    ChannelSumBounds(cs, Blue, lo, hi);
    ChannelSumBounds(cs, Green, lo, hi);
    ChannelSumBounds(cs, Red, lo, hi);
    MeanBounds(ChannelSum(cs, Blue), |cs|, lo, hi);
    MeanBounds(ChannelSum(cs, Green), |cs|, lo, hi);
    MeanBounds(ChannelSum(cs, Red), |cs|, lo, hi);
  }

  /** A face whose vertices all have colour c is painted c. */
  lemma AverageColorOfUniform(cs: seq<Color>, c: Color)
    requires cs != [] && forall k :: 0 <= k < |cs| ==> cs[k] == c
    ensures AverageColor(cs) == Ok(c)
  {
    ChannelSumUniform(cs, c, Blue);
    ChannelSumUniform(cs, c, Green);
    ChannelSumUniform(cs, c, Red);
    TruncOfQuotient(ChannelOf(c, Blue), |cs|);
    TruncOfQuotient(ChannelOf(c, Green), |cs|);
    TruncOfQuotient(ChannelOf(c, Red), |cs|);
  }

  lemma {:induction false} ChannelSumUniform(cs: seq<Color>, c: Color, ch: Channel)
    requires forall k :: 0 <= k < |cs| ==> cs[k] == c
    ensures ChannelSum(cs, ch) == |cs| * ChannelOf(c, ch)
    decreases |cs|
  {
    if cs != [] {
      ChannelSumUniform(cs[..|cs| - 1], c, ch);
      assert (|cs| - 1) * ChannelOf(c, ch) + ChannelOf(c, ch) == |cs| * ChannelOf(c, ch);
    }
  }

  lemma TruncOfQuotient(v: int, n: int)
    requires n > 0
    ensures Trunc((n * v) as real / n as real) == v
  {
    assert (n * v) as real == n as real * v as real;
    assert (n * v) as real / n as real == v as real;
  }

  /**
   * The KeyError fallbacks: with materials, a face without a material, or
   * with a material that is unknown or has no diffuse colour, gets
   * DEFAULT_COLOR; without materials, so does a face without `colors`. A
   * face with colours never gets an error other than ZeroDivisionError.
   */
  lemma FaceColorFallbacks(materials: Option<map<string, Material>>, face: Face)
    ensures materials.Some? ==>
      (FaceColor(materials, face) == Ok(DefaultColor) <==>
        face.material.None? || face.material.value !in materials.value ||
        materials.value[face.material.value].diffuseColor.None? ||
        materials.value[face.material.value].diffuseColor == Some(DefaultColor))
    ensures materials.None? && face.colors.None? ==> FaceColor(materials, face) == Ok(DefaultColor)
    ensures FaceColor(materials, face).Err? <==> materials.None? && face.colors == Some([])
  {
  }

  // ---------------------------------------------------------------------
  // The intrinsic matrix

  /**
   * `compose_intrisic_matrix`: row i is row i of the Rodrigues rotation
   * matrix followed by `translation_vector[i]`, for the three rows. Indexing
   * a rotation vector or a translation vector shorter than 3 raises
   * IndexError.
   */
  method ComposeIntrinsic(rotation: seq<real>, translation: seq<real>, rodrigues: Rodrigues) returns (r: Result<Matrix, PyError>)
    ensures r.Err? <==> |rotation| < 3 || |translation| < 3
    ensures r.Err? ==> r.error == IndexError
    ensures r.Ok? ==>
      var rot := rodrigues(Vec3(rotation[0], rotation[1], rotation[2]));
      |r.value| == 3 &&
      forall i :: 0 <= i < 3 ==>
        |r.value[i]| == 4 && r.value[i][3] == translation[i] &&
        forall j :: 0 <= j < 3 ==> r.value[i][j] == rot(i, j)
  {
    if |rotation| < 3 {
      return Err(IndexError);
    }
    var rot := rodrigues(Vec3(rotation[0], rotation[1], rotation[2]));
    var m: Matrix := [];
    for i := 0 to 3
      invariant |m| == i
      invariant i <= |translation|
      invariant forall k :: 0 <= k < i ==>
        |m[k]| == 4 && m[k][3] == translation[k] && forall j :: 0 <= j < 3 ==> m[k][j] == rot(k, j)
    {
      if i >= |translation| {
        return Err(IndexError);
      }
      m := m + [[rot(i, 0), rot(i, 1), rot(i, 2), translation[i]]];
    }
    r := Ok(m);
  }

  // ---------------------------------------------------------------------
  // The point pipeline

  /** `[project_3d_point(point, P) for point in points]`; `np.dot` raises ValueError unless the point has 3 coordinates. */
  function ProjectAll(points: seq<Vec>, intrinsic: Matrix, project: Projection): (r: Result<seq<Vec3>, PyError>)
    ensures r.Ok? <==> forall j :: 0 <= j < |points| ==> |points[j]| == 3
    ensures r.Ok? ==> |r.value| == |points| && forall j :: 0 <= j < |points| ==> r.value[j] == project(intrinsic, points[j])
  {
    if points == [] then Ok([])
    else
      match ProjectAll(points[..|points| - 1], intrinsic, project)
      case Err(e) => Err(e)
      case Ok(ps) =>
        var p := points[|points| - 1];
        if |p| != 3 then Err(ValueError) else Ok(ps + [project(intrinsic, p)])
  }

  function Scale(p: Vec3, s: real): Vec3 {
    Vec3(Mul(p.x, s), Mul(p.y, s), Mul(p.z, s))
  }

  /** `resize_object`: `face_points * scale`, every coordinate of every point multiplied by the scale. */
  function Resize(points: seq<Vec3>, s: real): (r: seq<Vec3>)
    ensures |r| == |points|
    ensures forall j :: 0 <= j < |r| ==> r[j] == Scale(points[j], s)
  {
    seq(|points|, j requires 0 <= j < |points| => Scale(points[j], s))
  }

  /** `points += aruco_center`, the centre extended with z = 0. */
  function Shift(points: seq<Vec3>, center: Point2): (r: seq<Vec3>)
    ensures |r| == |points|
  {
    seq(|points|, j requires 0 <= j < |points| => Vec3(points[j].x + center.x, points[j].y + center.y, points[j].z))
  }

  /**
   * The points a face is drawn with, before ordering: projected, resized,
   * shifted to the centre. A face without points becomes an array of shape
   * (0,), which cannot take the 3-element centre: ValueError.
   */
  function Placed(face: Face, intrinsic: Matrix, project: Projection, factor: real, center: Point2): Result<seq<Vec3>, PyError> {
    match ProjectAll(face.points, intrinsic, project)
    case Err(e) => Err(e)
    case Ok(ps) => if ps == [] then Err(ValueError) else Ok(Shift(Resize(ps, factor), center))
  }

  /** A face without points raises ValueError before its colour is looked at. */
  lemma EmptyFaceRaises(face: Face, materials: Option<map<string, Material>>, intrinsic: Matrix, project: Projection,
                        factor: real, center: Point2)
    requires face.points == []
    ensures FaceError(face, materials, intrinsic, project, factor, center) == Some(ValueError)
  {
  }

  /** A face fails when its points or its colour raise; the points are looked at first. */
  function FaceError(face: Face, materials: Option<map<string, Material>>, intrinsic: Matrix, project: Projection,
                     factor: real, center: Point2): Option<PyError>
  {
    match Placed(face, intrinsic, project, factor, center)
    case Err(e) => Some(e)
    case Ok(_) =>
      match FaceColor(materials, face)
      case Err(e) => Some(e)
      case Ok(_) => None
  }

  /**
   * The loop of `augment_aruco` over `obj.faces`: one point list and one
   * colour per face, in face order; the first face that raises ends it.
   */
  method CollectFaces(faces: seq<Face>, materials: Option<map<string, Material>>, intrinsic: Matrix,
                      project: Projection, factor: real, center: Point2)
    returns (r: Result<(seq<seq<Vec3>>, seq<Color>), PyError>)
    ensures r.Ok? <==> forall i :: 0 <= i < |faces| ==> FaceError(faces[i], materials, intrinsic, project, factor, center).None?
    ensures r.Ok? ==>
      var (pts, cols) := r.value;
      |pts| == |faces| && |cols| == |faces| &&
      forall i :: 0 <= i < |faces| ==>
        Placed(faces[i], intrinsic, project, factor, center) == Ok(pts[i]) &&
        FaceColor(materials, faces[i]) == Ok(cols[i])
    ensures r.Err? ==> exists i :: (0 <= i < |faces| &&
      FaceError(faces[i], materials, intrinsic, project, factor, center) == Some(r.error) &&
      forall k :: 0 <= k < i ==> FaceError(faces[k], materials, intrinsic, project, factor, center).None?)
  {
    var facesPoints: seq<seq<Vec3>> := [];
    var facesColors: seq<Color> := [];
    for i := 0 to |faces|
      invariant |facesPoints| == i && |facesColors| == i
      invariant forall k :: 0 <= k < i ==>
        Placed(faces[k], intrinsic, project, factor, center) == Ok(facesPoints[k]) &&
        FaceColor(materials, faces[k]) == Ok(facesColors[k])
    {
      var points := Placed(faces[i], intrinsic, project, factor, center);
      if points.Err? {
        return Err(points.error);
      }
      var color := FaceColor(materials, faces[i]);
      if color.Err? {
        return Err(color.error);
      }
      facesPoints := facesPoints + [points.value];
      facesColors := facesColors + [color.value];
    }
    r := Ok((facesPoints, facesColors));
  }

  // ---------------------------------------------------------------------
  // order_faces

  /** `order` lists every index below n exactly once. */
  predicate IsPermutation(order: seq<nat>, n: nat) {
    |order| == n &&
    (forall k :: 0 <= k < n ==> order[k] < n) &&
    (forall x :: 0 <= x < n ==> x in order) &&
    (forall j, k :: 0 <= j < k < n ==> order[j] != order[k])
  }

  /** Following `order`, the keys never decrease. */
  predicate SortedBy(order: seq<nat>, keys: seq<real>) {
    forall j, k :: 0 <= j < k < |order| && order[j] < |keys| && order[k] < |keys| ==> keys[order[j]] <= keys[order[k]]
  }

  /**
   * `np.argsort(distances)`: the indices of the keys, smallest key first.
   * Ties may come in any order (numpy's default sort is not stable), so only
   * the order of the keys is promised.
   */
  method ArgSort(keys: seq<real>) returns (order: seq<nat>)
    ensures IsPermutation(order, |keys|) && SortedBy(order, keys)
  {
    order := [];
    for i := 0 to |keys|
      invariant IsPermutation(order, i) && SortedBy(order, keys)
    {
      var p := 0;
      while p < |order| && keys[order[p]] <= keys[i]
        invariant 0 <= p <= |order|
        invariant forall k :: 0 <= k < p ==> keys[order[k]] <= keys[i]
      {
        p := p + 1;
      }
      InsertSorted(order, keys, i, p);
      order := order[..p] + [i] + order[p..];
    }
  }

  /** Inserting index i at the first position whose key is larger keeps the invariant of `ArgSort`. */
  lemma InsertSorted(order: seq<nat>, keys: seq<real>, i: nat, p: nat)
    requires i < |keys| && IsPermutation(order, i) && SortedBy(order, keys)
    requires p <= |order|
    requires forall k :: 0 <= k < p ==> keys[order[k]] <= keys[i]
    requires p < |order| ==> keys[order[p]] > keys[i]
    ensures IsPermutation(order[..p] + [i] + order[p..], i + 1)
    ensures SortedBy(order[..p] + [i] + order[p..], keys)
  {
    InsertPermutation(order, i, p);
    InsertKeepsSorted(order, keys, i, p);
  }

  lemma InsertPermutation(order: seq<nat>, i: nat, p: nat)
    requires IsPermutation(order, i) && p <= |order|
    ensures IsPermutation(order[..p] + [i] + order[p..], i + 1)
  {
    var o := order[..p] + [i] + order[p..];
    assert forall k :: 0 <= k < p ==> o[k] == order[k];
    assert o[p] == i;
    assert forall k :: p < k < |o| ==> o[k] == order[k - 1];
    forall x | 0 <= x < i + 1 ensures x in o {
      if x < i {
        assert x in order;
        var k :| 0 <= k < |order| && order[k] == x;
        if k < p { assert o[k] == x; } else { assert o[k + 1] == x; }
      } else {
        assert o[p] == x;
      }
    }
  }

  lemma InsertKeepsSorted(order: seq<nat>, keys: seq<real>, i: nat, p: nat)
    requires i < |keys| && p <= |order| && SortedBy(order, keys)
    requires forall k :: 0 <= k < |order| ==> order[k] < |keys|
    requires forall k :: 0 <= k < p ==> keys[order[k]] <= keys[i]
    requires p < |order| ==> keys[order[p]] > keys[i]
    ensures SortedBy(order[..p] + [i] + order[p..], keys)
  {
    var o := order[..p] + [i] + order[p..];
    assert forall k :: 0 <= k < p ==> o[k] == order[k];
    assert o[p] == i;
    assert forall k :: p < k < |o| ==> o[k] == order[k - 1];
    forall j, k | 0 <= j < k < |o| ensures keys[o[j]] <= keys[o[k]] {
      if k < p || j > p {
      } else if j == p {
        assert keys[order[p]] <= keys[order[k - 1]] || k - 1 == p;
      } else if k > p {
        assert keys[order[j]] <= keys[order[p]];
      }
    }
  }

  /** The faces' points and colours, both in the order `order` gives. */
  function Permuted<T>(xs: seq<T>, order: seq<nat>): (r: seq<T>)
    requires forall k :: 0 <= k < |order| ==> order[k] < |xs|
    ensures |r| == |order|
  {
    seq(|order|, k requires 0 <= k < |order| => xs[order[k]])
  }

  /**
   * The `centroid` of `order_faces` as written: `centroid += face_point[0]`
   * on the list `[0, 0, 0]` extends the list by the point's coordinates
   * instead of adding them.
   */
  function CentroidList(facePoints: seq<Vec3>): (c: seq<real>)
    ensures |c| == 3 + 3 * |facePoints|
    ensures c[..3] == [0.0, 0.0, 0.0]
  {
    if facePoints == [] then [0.0, 0.0, 0.0]
    else
      var p := facePoints[|facePoints| - 1];
      CentroidList(facePoints[..|facePoints| - 1]) + [p.x, p.y, p.z]
  }

  /** Python's `/` with a list on the left and an int on the right: no such operation, TypeError. */
  function ListDivide(xs: seq<real>, n: int): Result<seq<real>, PyError> {
    Err(TypeError)
  }

  /**
   * `order_faces` as written: for the first face, `centroid / len(face_points)`
   * divides the list `CentroidList` by an int and raises; with no faces the
   * loop does not run and nothing raises.
   */
  function OrderFacesAsWritten(facesPoints: seq<seq<Vec3>>): Option<PyError> {
    if facesPoints == [] then None
    else
      match ListDivide(CentroidList(facesPoints[0]), |facesPoints[0]|)
      case Err(e) => Some(e)
      case Ok(_) => None
  }

  /**
   * As written, `order_faces` raises TypeError on every non-empty face list,
   * and the list it would divide is never a 3-point: it holds 3 + 3n
   * numbers for a face of n points. `OrderFaces` orders them instead.
   */
  lemma OrderFacesAsWrittenRaises(facesPoints: seq<seq<Vec3>>)
    requires facesPoints != []
    ensures OrderFacesAsWritten(facesPoints) == Some(TypeError)
    ensures |facesPoints[0]| > 0 ==> |CentroidList(facesPoints[0])| > 3
  {
  }

  /**
   * `order_faces`: points and colours reordered by one and the same
   * permutation, the face nearest to the reference first. `key` is the
   * distance of a face's points to the reference point.
   */
  method OrderFaces(key: seq<Vec3> -> real, facesPoints: seq<seq<Vec3>>, facesColors: seq<Color>)
    returns (points: seq<seq<Vec3>>, colors: seq<Color>)
    requires |facesColors| == |facesPoints|
    ensures exists order :: (IsPermutation(order, |facesPoints|) &&
      points == Permuted(facesPoints, order) && colors == Permuted(facesColors, order))
    ensures |points| == |facesPoints| && |colors| == |facesColors|
    ensures forall j, k :: 0 <= j < k < |points| ==> key(points[j]) <= key(points[k])
  {
    var distances: seq<real> := [];
    for i := 0 to |facesPoints|
      invariant |distances| == i
      invariant forall k :: 0 <= k < i ==> distances[k] == key(facesPoints[k])
    {
      distances := distances + [key(facesPoints[i])];
    }
    var order := ArgSort(distances);
    points := Permuted(facesPoints, order);
    colors := Permuted(facesColors, order);
    forall j, k | 0 <= j < k < |points| ensures key(points[j]) <= key(points[k]) {
      assert distances[order[j]] <= distances[order[k]];
    }
  }

  /**
   * `_remove_z_coords`: every point keeps its first two coordinates; faces
   * and points keep their order.
   */
  method RemoveZ(facesPoints: seq<seq<Vec3>>) returns (r: seq<seq<Point2>>)
    ensures |r| == |facesPoints|
    ensures forall i :: 0 <= i < |r| ==> (|r[i]| == |facesPoints[i]| &&
      forall j :: 0 <= j < |r[i]| ==> r[i][j] == Point2(facesPoints[i][j].x, facesPoints[i][j].y))
  {
    r := [];
    for i := 0 to |facesPoints|
      invariant |r| == i
      invariant forall a :: 0 <= a < i ==> (|r[a]| == |facesPoints[a]| &&
        forall j :: 0 <= j < |r[a]| ==> r[a][j] == Point2(facesPoints[a][j].x, facesPoints[a][j].y))
    {
      var face: seq<Point2> := [];
      for j := 0 to |facesPoints[i]|
        invariant |face| == j
        invariant forall b :: 0 <= b < j ==> face[b] == Point2(facesPoints[i][b].x, facesPoints[i][b].y)
      {
        face := face + [Point2(facesPoints[i][j].x, facesPoints[i][j].y)];
      }
      r := r + [face];
    }
  }

  // ---------------------------------------------------------------------
  // augment_aruco

  /** One `cv2.fillConvexPoly(image, points, color)`. */
  datatype Fill = Fill(points: seq<Point2>, color: Color)

  function Flat(ps: seq<Vec3>): seq<Point2> {
    seq(|ps|, j requires 0 <= j < |ps| => Point2(ps[j].x, ps[j].y))
  }

  /**
   * `augment_aruco(image, aruco, obj, scale)`: the polygons drawn onto the
   * image, one per face, nearest face first. Each is the face's placed points
   * without z, painted with the face's colour. It raises when the rotation
   * vector is shorter than 3 (IndexError) or at the first face whose points
   * or colour raise.
   */
  method AugmentAruco(marker: Observation, faces: seq<Face>, materials: Option<map<string, Material>>,
                      rodrigues: Rodrigues, project: Projection, key: seq<Vec3> -> real, scale: real := 1.0)
    returns (r: Result<seq<Fill>, PyError>)
    requires |marker.corners| == 4
    ensures |marker.rotation| < 3 ==> r == Err(IndexError)
    ensures r.Err? && |marker.rotation| >= 3 ==>
      exists i :: (0 <= i < |faces| && FaceError(faces[i], materials, Intrinsic(marker, rodrigues), project,
        Mul(scale, AutoscaleFactor(marker.corners).value), Center(marker.corners)) == Some(r.error) &&
        forall k :: 0 <= k < i ==> FaceError(faces[k], materials, Intrinsic(marker, rodrigues), project,
          Mul(scale, AutoscaleFactor(marker.corners).value), Center(marker.corners)).None?)
    ensures r.Ok? ==> (|marker.rotation| >= 3 && |r.value| == |faces| &&
      exists order, placed :: Drawn(faces, materials, Intrinsic(marker, rodrigues), project,
        Mul(scale, AutoscaleFactor(marker.corners).value), Center(marker.corners), key, order, placed, r.value))
  {
    var center := Center(marker.corners);
    var intrinsic := ComposeIntrinsic(marker.rotation, [0.0, 0.0, 0.0], rodrigues);
    if intrinsic.Err? {
      return Err(intrinsic.error);
    }
    forall i | 0 <= i < 3 ensures intrinsic.value[i] == Intrinsic(marker, rodrigues)[i] {
    }
    assert intrinsic.value == Intrinsic(marker, rodrigues);
    var autoscale := AutoscaleFactor(marker.corners);
    var factor := Mul(scale, autoscale.value);
    var collected := CollectFaces(faces, materials, intrinsic.value, project, factor, center);
    if collected.Err? {
      return Err(collected.error);
    }
    var (facesPoints, facesColors) := collected.value;
    var points, colors := OrderFaces(key, facesPoints, facesColors);
    var flat := RemoveZ(points);
    r := Ok(seq(|flat|, k requires 0 <= k < |flat| => Fill(flat[k], colors[k])));
    var order :| IsPermutation(order, |facesPoints|) &&
      points == Permuted(facesPoints, order) && colors == Permuted(facesColors, order);
    assert Drawn(faces, materials, intrinsic.value, project, factor, center, key, order, points, r.value);
  }

  /**
   * `fills` draws the faces in the order `order`, nearest first: fill k is
   * face `order[k]`'s placed points `placed[k]` without z, in its colour.
   */
  ghost predicate Drawn(faces: seq<Face>, materials: Option<map<string, Material>>, intrinsic: Matrix,
                        project: Projection, factor: real, center: Point2, key: seq<Vec3> -> real,
                        order: seq<nat>, placed: seq<seq<Vec3>>, fills: seq<Fill>)
  {
    IsPermutation(order, |faces|) && |placed| == |faces| && |fills| == |faces| &&
    (forall k :: 0 <= k < |faces| ==>
      Placed(faces[order[k]], intrinsic, project, factor, center) == Ok(placed[k]) &&
      FaceColor(materials, faces[order[k]]).Ok? &&
      fills[k] == Fill(Flat(placed[k]), FaceColor(materials, faces[order[k]]).value)) &&
    (forall j, k :: 0 <= j < k < |faces| ==> key(placed[j]) <= key(placed[k]))
  }

  /** The intrinsic matrix `augment_aruco` composes: the marker's rotation, translation [0, 0, 0]. */
  function Intrinsic(marker: Observation, rodrigues: Rodrigues): Matrix
    requires |marker.rotation| >= 3
  {
    var rot := rodrigues(Vec3(marker.rotation[0], marker.rotation[1], marker.rotation[2]));
    seq(3, i requires 0 <= i < 3 => [rot(i, 0), rot(i, 1), rot(i, 2), 0.0])
  }
}
