/**
 * The helpers of main.py around the frame loop: the sliding-window average
 * of a marker's rotation, and the furthest-point scan and normalisation
 * applied to an OBJ (the same loops as the OBJ class's own, measured on
 * x, y and z by default).
 */
module MainHelpers {
  import opened Wrappers
  import opened Mesh
  import opened ObjParser

  /** A rotation vector (x, y, z). */
  datatype Rotation = Rotation(x: real, y: real, z: real)

  /** `rotation[c]` for c = 0, 1, 2. */
  function Component(r: Rotation, c: nat): real
    requires c < 3
  {
    if c == 0 then r.x else if c == 1 then r.y else r.z
  }

  /** `sum([rotation[c] for rotation in rotations])` */
  function Sum(w: seq<Rotation>, c: nat): real
    requires c < 3
  {
    if w == [] then 0.0 else Sum(w[..|w| - 1], c) + Component(w[|w| - 1], c)
  }

  /** The per-component arithmetic mean of a non-empty window. */
  function Mean(w: seq<Rotation>): Rotation
    requires w != []
  {
    Rotation(Sum(w, 0) / |w| as real, Sum(w, 1) / |w| as real, Sum(w, 2) / |w| as real)
  }

  /**
   * `rotations[-length:]` when the list is longer than `length`, else the
   * list itself. A positive `length` keeps the last `length` rotations, 0
   * keeps all (`-0` is 0), and a negative one drops the first `-length`.
   */
  function Window(rotations: seq<Rotation>, length: int): (w: seq<Rotation>)
    ensures |w| <= |rotations| && w == rotations[|rotations| - |w|..]
  {
    if |rotations| <= length then rotations
    else if length > 0 then rotations[|rotations| - length..]
    else if length == 0 then rotations
    else rotations[(if -length <= |rotations| then -length else |rotations|)..]
  }

  /** The caller's list of recent rotations, which the average appends to. */
  class RotationHistory {
    var rotations: seq<Rotation>

    constructor (rotations: seq<Rotation>)
      ensures this.rotations == rotations
    {
      this.rotations := rotations;
    }
  }

  /**
   * `moving_average_rotation(latest, rotations, length=5)`: appends the
   * latest rotation to the caller's list, keeps the window of the last
   * rotations, and returns the window's mean with the window. An empty
   * window (a negative `length` at least as long as the list) divides by
   * zero.
   */
  method MovingAverageRotation(latest: Rotation, history: RotationHistory, length: int := 5)
    returns (r: Result<(Rotation, seq<Rotation>), PyError>)
    modifies history
    ensures history.rotations == old(history.rotations) + [latest]
    ensures r.Err? <==> Window(history.rotations, length) == []
    ensures r.Err? ==> r.error == ZeroDivisionError
    ensures r.Ok? ==> r.value.1 == Window(history.rotations, length) && r.value.0 == Mean(r.value.1)
  {
    history.rotations := history.rotations + [latest];
    var rotations := history.rotations;
    if |rotations| > length {
      rotations := Window(rotations, length);
    }
    if rotations == [] {
      return Err(ZeroDivisionError);
    }
    var avgX := Sum(rotations, 0) / |rotations| as real;
    var avgY := Sum(rotations, 1) / |rotations| as real;
    var avgZ := Sum(rotations, 2) / |rotations| as real;
    r := Ok((Rotation(avgX, avgY, avgZ), rotations));
  }

  /**
   * For a positive `length`, the window after appending `latest` is the last
   * min(n + 1, length) rotations of the extended list, and ends with
   * `latest`.
   */
  lemma WindowKeepsLatest(rotations: seq<Rotation>, latest: Rotation, length: int)
    requires length >= 1
    ensures var all := rotations + [latest];
      var w := Window(all, length);
      |w| == (if |all| < length then |all| else length) &&
      w == all[|all| - |w|..] && w[|w| - 1] == latest
  {
  }

  lemma {:induction false} SumUniform(w: seq<Rotation>, c: nat, v: Rotation)
    requires c < 3 && forall k :: 0 <= k < |w| ==> w[k] == v
    ensures Sum(w, c) == |w| as real * Component(v, c)
    decreases |w|
  {
    if w != [] {
      SumUniform(w[..|w| - 1], c, v);
    }
  }

  /** Averaging a window of one and the same rotation gives that rotation back. */
  lemma MeanOfUniform(w: seq<Rotation>, v: Rotation)
    requires w != [] && forall k :: 0 <= k < |w| ==> w[k] == v
    ensures Mean(w) == v
  {
    SumUniform(w, 0, v);
    SumUniform(w, 1, v);
    SumUniform(w, 2, v);
  }

  lemma {:induction false} SumBounds(w: seq<Rotation>, c: nat, lo: real, hi: real)
    requires c < 3 && forall k :: 0 <= k < |w| ==> lo <= Component(w[k], c) <= hi
    ensures lo * |w| as real <= Sum(w, c) <= hi * |w| as real
    decreases |w|
  {
    if w != [] {
      SumBounds(w[..|w| - 1], c, lo, hi);
      assert lo * (|w| - 1) as real + lo == lo * |w| as real;
      assert hi * (|w| - 1) as real + hi == hi * |w| as real;
    }
  }

  /** Each component of the mean lies between the smallest and the largest value of that component in the window. */
  lemma MeanWithin(w: seq<Rotation>, c: nat, lo: real, hi: real)
    requires w != [] && c < 3
    requires forall k :: 0 <= k < |w| ==> lo <= Component(w[k], c) <= hi
    ensures lo <= Component(Mean(w), c) <= hi
  {
    SumBounds(w, c, lo, hi);
    QuotientAtLeast(Sum(w, c), lo, |w| as real);
    QuotientAtMost(Sum(w, c), hi, |w| as real);
  }

  /**
   * `furthest_point(obj, flag="XYZ")`: the furthest-point scan of the OBJ's
   * faces, on x, y and z unless told otherwise.
   */
  method FurthestPoint(obj: Obj, root: Root, flag: Axis := XYZ) returns (r: Result<real, PyError>)
    ensures r == Furthest(Points(obj.faces), flag, root)
  {
    r := obj.FurthestPoint(flag, root);
  }

  /**
   * `normalize_obj_points(obj)`: divides the OBJ's face points by its
   * furthest distance on x, y and z, in place, and returns the same OBJ.
   */
  method NormalizeObjPoints(obj: Obj, root: Root) returns (r: Result<Obj, PyError>)
    modifies obj
    ensures NormaliseFaces(old(obj.faces), XYZ, root).Ok? ==>
      r == Ok(obj) && obj.faces == NormaliseFaces(old(obj.faces), XYZ, root).value
    ensures NormaliseFaces(old(obj.faces), XYZ, root).Err? ==>
      r == Err(NormaliseFaces(old(obj.faces), XYZ, root).error) && obj.faces == old(obj.faces)
    ensures obj.vertices == old(obj.vertices)
    ensures obj.texCoords == old(obj.texCoords) && obj.normals == old(obj.normals)
  {
    var err := obj.Normalise(XYZ, root);
    if err.Some? {
      return Err(err.value);
    }
    r := Ok(obj);
  }
}
