/**
 * The mesh data shared by the OBJ readers, the projector and the helpers of
 * main.py: faces as the readers build them (the `{'points', 'colors',
 * 'normals'}` dictionaries), BGR colours, the Python exceptions the modelled
 * code can raise, and the furthest-point scale that normalisation divides by.
 */
module Mesh {
  import opened Wrappers

  /** A point or vector: a Python list of floats. */
  type Vec = seq<real>

  /** A colour in OpenCV's B, G, R channel order. */
  datatype Color = Color(b: int, g: int, r: int)

  /**
   * One face dictionary. A key the reader did not set is None: `colors` and
   * `normals` are set only when non-empty, `material` never by these readers.
   */
  datatype Face = Face(points: seq<Vec>, colors: Option<seq<Color>>, normals: Option<seq<Vec>>, material: Option<string>)

  /** The exceptions the modelled code raises or catches. */
  datatype PyError = ValueError | IndexError | ZeroDivisionError | AttributeError | KeyError | TypeError

  /** The `normalised_axis` / `flag` argument: "XY" or "XYZ". */
  datatype Axis = XY | XYZ

  function Dim(axis: Axis): nat {
    if axis == XY then 2 else 3
  }

  /** `math.sqrt`, left abstract: any function giving the non-negative square root. */
  type Root = real -> real

  ghost predicate IsSqrt(root: Root) {
    forall x: real :: 0.0 <= x ==> 0.0 <= root(x) && Sq(root(x)) == x
  }

  /**
   * Products, named so that the solver relates them by the names alone: the
   * facts about them that the proofs below need are lemmas of this module.
   */
  function Sq(x: real): real {
    Mul(x, x)
  }

  function Mul(a: real, b: real): real {
    a * b
  }

  /** Sum of the squared coordinates. */
  function SumSq(p: Vec): (s: real)
    ensures s >= 0.0
  {
    if p == [] then 0.0 else SumSq(p[..|p| - 1]) + Sq(p[|p| - 1])
  }

  /**
   * `dist(point[0:k], [0]*k)` with k = 2 for "XY" and 3 for "XYZ": the length of
   * the point's first k coordinates. `math.dist` raises ValueError when the
   * two points differ in dimension, that is when the point is shorter than k.
   */
  function Distance(p: Vec, axis: Axis, root: Root): Option<real> {
    if |p| < Dim(axis) then None else Some(root(SumSq(p[..Dim(axis)])))
  }

  /** Every point of every face, face by face. */
  function Points(faces: seq<Face>): seq<Vec> {
    if faces == [] then [] else Points(faces[..|faces| - 1]) + faces[|faces| - 1].points
  }

  /**
   * The running maximum of `_furthest_point` / `furthest_point`: starts at 0
   * and takes each point's distance when it is larger.
   */
  function Furthest(ps: seq<Vec>, axis: Axis, root: Root): Result<real, PyError> {
    if ps == [] then Ok(0.0)
    else
      match Furthest(ps[..|ps| - 1], axis, root)
      case Err(e) => Err(e)
      case Ok(m) =>
        match Distance(ps[|ps| - 1], axis, root)
        case None => Err(ValueError)
        case Some(d) => Ok(if d > m then d else m)
  }

  /** `[coord/norm for coord in point]` */
  function Divided(p: Vec, norm: real): (r: Vec)
    requires norm != 0.0
    ensures |r| == |p| && forall k :: 0 <= k < |p| ==> r[k] == p[k] / norm
  {
    seq(|p|, k requires 0 <= k < |p| => p[k] / norm)
  }

  /** Every point of `f`, divided by `norm`; nothing else of the face changes. */
  function DividedFace(f: Face, norm: real): Face
    requires norm != 0.0
  {
    f.(points := seq(|f.points|, j requires 0 <= j < |f.points| => Divided(f.points[j], norm)))
  }

  /** The faces after normalisation by `norm`. */
  function Normalised(faces: seq<Face>, norm: real): (r: seq<Face>)
    requires norm != 0.0
  {
    seq(|faces|, i requires 0 <= i < |faces| => DividedFace(faces[i], norm))
  }

  /** Some point of some face has a coordinate, so normalising by 0 divides by zero. */
  predicate HasCoordinate(faces: seq<Face>) {
    exists i, j :: 0 <= i < |faces| && 0 <= j < |faces[i].points| && |faces[i].points[j]| > 0
  }

  /**
   * `normalise` / `normalize_obj_points`: divide every point by the furthest
   * distance. A furthest distance of 0 raises ZeroDivisionError at the first
   * coordinate; with no coordinate at all nothing is divided and the faces
   * stay as they are.
   */
  function NormaliseFaces(faces: seq<Face>, axis: Axis, root: Root): Result<seq<Face>, PyError> {
    match Furthest(Points(faces), axis, root)
    case Err(e) => Err(e)
    case Ok(n) =>
      if n != 0.0 then Ok(Normalised(faces, n))
      else if HasCoordinate(faces) then Err(ZeroDivisionError)
      else Ok(faces)
  }

  // ---------------------------------------------------------------------
  // Properties of the furthest point

  lemma {:induction false} PointsAppend(a: seq<Face>, b: seq<Face>)
    ensures Points(a + b) == Points(a) + Points(b)
    decreases |b|
  {
    if b == [] {
      assert a + b == a;
    } else {
      assert (a + b)[..|a + b| - 1] == a + b[..|b| - 1];
      PointsAppend(a, b[..|b| - 1]);
    }
  }

  /** The points of face `i` sit in `Points(faces)` right after those of the faces before it. */
  lemma PointsOfFace(faces: seq<Face>, i: nat)
    requires i < |faces|
    ensures Points(faces) == Points(faces[..i]) + faces[i].points + Points(faces[i + 1..])
  {
    var front, back := faces[..i + 1], faces[i + 1..];
    assert faces == front + back;
    PointsAppend(front, back);
    assert front[..|front| - 1] == faces[..i];
    assert Points(front) == Points(faces[..i]) + faces[i].points;
  }

  /** A point at index k of `Points(faces)` is a point of some face, and conversely. */
  lemma {:induction false} PointsMembers(faces: seq<Face>)
    ensures forall i, j :: 0 <= i < |faces| && 0 <= j < |faces[i].points| ==> faces[i].points[j] in Points(faces)
    ensures forall p :: p in Points(faces) ==> exists i, j :: 0 <= i < |faces| && 0 <= j < |faces[i].points| && faces[i].points[j] == p
    decreases |faces|
  {
    if faces != [] {
      var init := faces[..|faces| - 1];
      PointsMembers(init);
      forall i, j | 0 <= i < |faces| && 0 <= j < |faces[i].points|
        ensures faces[i].points[j] in Points(faces)
      {
        if i < |init| {
          assert init[i] == faces[i];
        }
      }
      forall p | p in Points(faces)
        ensures exists i, j :: 0 <= i < |faces| && 0 <= j < |faces[i].points| && faces[i].points[j] == p
      {
        if p in Points(init) {
          var i, j :| 0 <= i < |init| && 0 <= j < |init[i].points| && init[i].points[j] == p;
          assert faces[i] == init[i];
        } else {
          var last := faces[|faces| - 1].points;
          assert p in last;
          var j :| 0 <= j < |last| && last[j] == p;
        }
      }
    }
  }

  /** Once a point raises, the whole scan raises. */
  lemma {:induction false} FurthestErrSticks(ps: seq<Vec>, qs: seq<Vec>, axis: Axis, root: Root)
    requires Furthest(ps, axis, root).Err?
    ensures Furthest(ps + qs, axis, root) == Furthest(ps, axis, root)
    decreases |qs|
  {
    if qs == [] {
      assert ps + qs == ps;
    } else {
      assert (ps + qs)[..|ps + qs| - 1] == ps + qs[..|qs| - 1];
      FurthestErrSticks(ps, qs[..|qs| - 1], axis, root);
    }
  }

  /**
   * The furthest-point scan raises exactly when some point has fewer
   * coordinates than the axis set needs; otherwise it gives the largest
   * distance, which some point attains, and 0 when there are no points.
   */
  lemma {:induction false} FurthestIsMax(ps: seq<Vec>, axis: Axis, root: Root)
    requires IsSqrt(root)
    ensures Furthest(ps, axis, root).Err? <==> exists k :: 0 <= k < |ps| && |ps[k]| < Dim(axis)
    ensures Furthest(ps, axis, root).Err? ==> Furthest(ps, axis, root).error == ValueError
    ensures Furthest(ps, axis, root).Ok? ==>
      var m := Furthest(ps, axis, root).value;
      m >= 0.0 &&
      (forall k :: 0 <= k < |ps| ==> Distance(ps[k], axis, root).Some? && Distance(ps[k], axis, root).value <= m) &&
      (ps == [] ==> m == 0.0) &&
      (ps != [] ==> exists k :: 0 <= k < |ps| && Distance(ps[k], axis, root) == Some(m))
    decreases |ps|
  {
    if ps != [] {
      var init := ps[..|ps| - 1];
      var last := ps[|ps| - 1];
      FurthestIsMax(init, axis, root);
      assert forall k :: 0 <= k < |init| ==> init[k] == ps[k];
      if Furthest(init, axis, root).Ok? && Distance(last, axis, root).Some? {
        var m := Furthest(init, axis, root).value;
        var d := Distance(last, axis, root).value;
        assert d >= 0.0 by {
          assert 0.0 <= SumSq(last[..Dim(axis)]);
        }
        if init != [] && d <= m {
          var k :| 0 <= k < |init| && Distance(init[k], axis, root) == Some(m);
          assert Distance(ps[k], axis, root) == Some(m);
        }
        if init == [] && d <= m {
          assert d == 0.0;
          assert Distance(ps[0], axis, root) == Some(m);
        }
      }
    }
  }

  lemma SqNonNegative(x: real)
    ensures Sq(x) >= 0.0
  {
    if x < 0.0 {
      assert x * x == (-x) * (-x);
    }
  }

  lemma SqPositive(x: real)
    requires x > 0.0
    ensures Sq(x) > 0.0
  {
    Positive(x, x);
  }

  lemma Positive(a: real, b: real)
    requires a > 0.0 && b > 0.0
    ensures Mul(a, b) > 0.0
  {
  }

  lemma SqMonotone(d: real, n: real)
    requires 0.0 <= d <= n
    ensures Sq(d) <= Sq(n)
  {
    assert d * d <= n * d;
  }

  lemma MulGrows(a: real, q: real)
    requires a > 1.0 && q > 0.0
    ensures Mul(a, q) > q
  {
  }

  lemma MulAdd(a: real, b: real, c: real)
    ensures Mul(a + b, c) == Mul(a, c) + Mul(b, c)
  {
  }

  /** Squaring a quotient: (x / n)^2 * n^2 == x^2. */
  lemma SqQuotient(x: real, n: real)
    requires n != 0.0
    ensures Mul(Sq(x / n), Sq(n)) == Sq(x)
  {
    var y := x / n;
    assert y * n == x;
    assert (y * y) * (n * n) == (y * n) * (y * n);
  }

  /** A non-negative number whose square is at most 1 is at most 1. */
  lemma WithinUnit(x: real, root: Root)
    requires IsSqrt(root)
    requires 0.0 <= x <= 1.0
    ensures root(x) <= 1.0
  {
    var r := root(x);
    assert 0.0 <= r && Sq(r) == x;
    if r > 1.0 {
      SqMonotone(1.0, r);
      MulGrows(r, r);
    }
  }

  /** Cancelling a positive square: a * n^2 <= n^2 means a <= 1. */
  lemma SquareCancel(a: real, n: real)
    requires n > 0.0 && Mul(a, Sq(n)) <= Sq(n)
    ensures a <= 1.0
  {
    if a > 1.0 {
      SqPositive(n);
      MulGrows(a, Sq(n));
    }
  }

  lemma {:induction false} SumSqDivided(p: Vec, norm: real)
    requires norm != 0.0
    ensures Mul(SumSq(Divided(p, norm)), Sq(norm)) == SumSq(p)
    decreases |p|
  {
    if p == [] {
      assert Mul(0.0, Sq(norm)) == 0.0;
    } else {
      var q := p[..|p| - 1];
      assert Divided(p, norm)[..|p| - 1] == Divided(q, norm);
      SumSqDivided(q, norm);
      var x := p[|p| - 1];
      SqQuotient(x, norm);
      MulAdd(SumSq(Divided(q, norm)), Sq(x / norm), Sq(norm));
    }
  }

  /** Taking the first k coordinates commutes with the division. */
  lemma DividedPrefix(p: Vec, norm: real, k: nat)
    requires norm != 0.0 && k <= |p|
    ensures Divided(p, norm)[..k] == Divided(p[..k], norm)
  {
  }

  /**
   * After dividing by the furthest distance, every point lies within distance 1
   * of the origin in the same axis set.
   */
  lemma NormalisedWithinUnit(p: Vec, axis: Axis, root: Root, norm: real)
    requires IsSqrt(root)
    requires norm > 0.0
    requires Distance(p, axis, root).Some? && Distance(p, axis, root).value <= norm
    ensures Distance(Divided(p, norm), axis, root).Some?
    ensures Distance(Divided(p, norm), axis, root).value <= 1.0
  {
    var k := Dim(axis);
    var s := SumSq(p[..k]);
    var d := root(s);
    DividedPrefix(p, norm, k);
    SumSqDivided(p[..k], norm);
    var t := SumSq(Divided(p, norm)[..k]);
    SqMonotone(d, norm);
    SquareCancel(t, norm);
    WithinUnit(t, root);
  }

  /** Normalisation keeps the number of faces and of points, and every key but `points`. */
  lemma NormalisedShape(faces: seq<Face>, norm: real)
    requires norm != 0.0
    ensures |Normalised(faces, norm)| == |faces|
    ensures forall i :: 0 <= i < |faces| ==>
      var f := Normalised(faces, norm)[i];
      |f.points| == |faces[i].points| &&
      f.colors == faces[i].colors && f.normals == faces[i].normals && f.material == faces[i].material &&
      forall j :: 0 <= j < |f.points| ==> f.points[j] == Divided(faces[i].points[j], norm)
  {
  }

  /**
   * After a normalisation that does not raise, every point lies within the
   * unit ball of the chosen axes (the "one-unit-side cube" of `normalise`),
   * and the faces keep their number, their point counts and their other keys.
   */
  lemma NormaliseFacesWithinUnit(faces: seq<Face>, axis: Axis, root: Root)
    requires IsSqrt(root)
    requires NormaliseFaces(faces, axis, root).Ok?
    ensures var r := NormaliseFaces(faces, axis, root).value;
      |r| == |faces| &&
      forall i :: 0 <= i < |faces| ==>
        |r[i].points| == |faces[i].points| && r[i].colors == faces[i].colors && r[i].normals == faces[i].normals &&
        forall j :: 0 <= j < |r[i].points| ==>
          Distance(r[i].points[j], axis, root).Some? && Distance(r[i].points[j], axis, root).value <= 1.0
  {
    var n := Furthest(Points(faces), axis, root).value;
    FurthestIsMax(Points(faces), axis, root);
    PointsMembers(faces);
    if n != 0.0 {
      NormalisedShape(faces, n);
      forall i, j | 0 <= i < |faces| && 0 <= j < |faces[i].points|
        ensures Distance(Divided(faces[i].points[j], n), axis, root).Some?
        ensures Distance(Divided(faces[i].points[j], n), axis, root).value <= 1.0
      {
        NormalisedWithinUnit(faces[i].points[j], axis, root, n);
      }
    }
  }

  /**
   * Normalisation raises ValueError exactly when some point has fewer
   * coordinates than the axes measure.
   */
  lemma NormaliseFacesValueError(faces: seq<Face>, axis: Axis, root: Root)
    requires IsSqrt(root)
    ensures NormaliseFaces(faces, axis, root) == Err(ValueError) <==>
      exists i, j :: 0 <= i < |faces| && 0 <= j < |faces[i].points| && |faces[i].points[j]| < Dim(axis)
  {
    var ps := Points(faces);
    assert (Furthest(ps, axis, root).Err? <==> exists k :: 0 <= k < |ps| && |ps[k]| < Dim(axis)) &&
      (Furthest(ps, axis, root).Err? ==> Furthest(ps, axis, root).error == ValueError) by {
      FurthestIsMax(ps, axis, root);
    }
    assert NormaliseFaces(faces, axis, root) == Err(ValueError) <==> Furthest(ps, axis, root).Err?;
    if Furthest(ps, axis, root).Err? {
      var k :| 0 <= k < |ps| && |ps[k]| < Dim(axis);
      assert ps[k] in ps;
      PointsMembers(faces);
    }
    if exists i, j :: 0 <= i < |faces| && 0 <= j < |faces[i].points| && |faces[i].points[j]| < Dim(axis) {
      var i, j :| 0 <= i < |faces| && 0 <= j < |faces[i].points| && |faces[i].points[j]| < Dim(axis);
      assert faces[i].points[j] in ps by {
        PointsMembers(faces);
      }
      var k :| 0 <= k < |ps| && ps[k] == faces[i].points[j];
    }
  }

  /**
   * Normalisation raises ZeroDivisionError exactly when some face has a point
   * and every point is at distance 0 from the origin.
   */
  lemma NormaliseFacesZeroDivision(faces: seq<Face>, axis: Axis, root: Root)
    requires IsSqrt(root)
    ensures NormaliseFaces(faces, axis, root) == Err(ZeroDivisionError) <==>
      (exists i :: 0 <= i < |faces| && |faces[i].points| > 0) && AllAtOrigin(faces, axis, root)
  {
    var ps := Points(faces);
    FurthestIsMax(ps, axis, root);
    PointsMembers(faces);
    if NormaliseFaces(faces, axis, root) == Err(ZeroDivisionError) {
      var n := Furthest(ps, axis, root).value;
      assert n == 0.0 && HasCoordinate(faces);
      forall i, j | 0 <= i < |faces| && 0 <= j < |faces[i].points|
        ensures Distance(faces[i].points[j], axis, root) == Some(0.0)
      {
        DistanceNonNegative(faces[i].points[j], axis, root);
      }
    }
    if (exists i :: 0 <= i < |faces| && |faces[i].points| > 0) && AllAtOrigin(faces, axis, root) {
      var i :| 0 <= i < |faces| && |faces[i].points| > 0;
      var p := faces[i].points[0];
      assert p in ps;
      forall k | 0 <= k < |ps| ensures |ps[k]| >= Dim(axis) {
        assert ps[k] in ps;
        var i', j' :| 0 <= i' < |faces| && 0 <= j' < |faces[i'].points| && faces[i'].points[j'] == ps[k];
        assert Distance(faces[i'].points[j'], axis, root).Some?;
      }
      var k :| 0 <= k < |ps| && Distance(ps[k], axis, root) == Some(Furthest(ps, axis, root).value);
      assert ps[k] in ps;
      var i', j' :| 0 <= i' < |faces| && 0 <= j' < |faces[i'].points| && faces[i'].points[j'] == ps[k];
      assert Furthest(ps, axis, root).value == 0.0;
      assert Distance(faces[i].points[0], axis, root).Some?;
      assert |faces[i].points[0]| > 0;
      assert HasCoordinate(faces);
    }
  }

  /** Every point is at distance 0 from the origin on the chosen axes. */
  ghost predicate AllAtOrigin(faces: seq<Face>, axis: Axis, root: Root) {
    forall i, j :: 0 <= i < |faces| && 0 <= j < |faces[i].points| ==>
      Distance(faces[i].points[j], axis, root) == Some(0.0)
  }

  lemma DistanceNonNegative(p: Vec, axis: Axis, root: Root)
    requires IsSqrt(root) && Distance(p, axis, root).Some?
    ensures Distance(p, axis, root).value >= 0.0
  {
  }

  // ---------------------------------------------------------------------
  // Bounds on quotients

  lemma QuotientAtLeast(a: real, b: real, n: real)
    requires n > 0.0 && b * n <= a
    ensures b <= a / n
  {
    assert a / n - b == (a - b * n) / n;
  }

  lemma QuotientAtMost(a: real, b: real, n: real)
    requires n > 0.0 && a <= b * n
    ensures a / n <= b
  {
    assert b - a / n == (b * n - a) / n;
  }
}
