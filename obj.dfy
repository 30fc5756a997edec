/**
 * The OBJ classes of augmentation/obj.py and augmentation/object.py as one
 * class: the four lists the constructor fills line by line, the texture it
 * samples colours from, and the furthest-point scan and normalisation that
 * rewrite the faces in place. `variant` tells the two classes apart (see
 * module ObjText); object.py has no furthest point and no normalisation.
 *
 * Reading the file and the image is left to the caller: the constructor
 * takes the file's lines and the image `cv2.imread` produced (None when
 * there is no texture path or the image cannot be read).
 */
module ObjParser {
  import opened Wrappers
  import opened Strings
  import opened Mesh
  import opened ObjText

  class Obj {
    const variant: Variant
    /** `self.texture`; None where the attribute is missing or `imread` gave None. */
    const texture: Option<Image>
    /** `_vertices` */
    var vertices: seq<Vec>
    /** `_texture_coordinates` */
    var texCoords: seq<Vec>
    /** `_vertices_normals` */
    var normals: seq<Vec>
    var faces: seq<Face>

    function Lists(): Tables
      reads this
    {
      Tables(vertices, texCoords, normals, faces)
    }

    /** The object before its file is read: four empty lists. */
    constructor Empty(variant: Variant, texture: Option<Image>)
      ensures this.variant == variant && this.texture == texture
      ensures Lists() == NoTables
    {
      this.variant := variant;
      this.texture := texture;
      vertices, texCoords, normals, faces := [], [], [], [];
    }

    /**
     * The loop of the constructor over the file's lines. It ends in the
     * tables `ReadAll` gives, or with the exception of the first line that
     * raises.
     */
    method ParseLines(lines: seq<string>, float: FloatParser) returns (err: Option<PyError>)
      modifies this
      ensures ReadAll(variant, texture, float, old(Lists()), lines).Ok? ==>
        err.None? && Ok(Lists()) == ReadAll(variant, texture, float, old(Lists()), lines)
      ensures ReadAll(variant, texture, float, old(Lists()), lines).Err? ==>
        err == Some(ReadAll(variant, texture, float, old(Lists()), lines).error)
    {
      var k := 0;
      while k < |lines|
        invariant 0 <= k <= |lines|
        invariant ReadAll(variant, texture, float, old(Lists()), lines[..k]) == Ok(Lists())
      {
        assert lines[..k + 1][..k] == lines[..k];
        err := ParseLine(lines[k], float);
        if err.Some? {
          assert lines[..k + 1] + lines[k + 1..] == lines;
          ReadAllErrSticks(variant, texture, float, old(Lists()), lines[..k + 1], lines[k + 1..]);
          return;
        }
        k := k + 1;
      }
      assert lines[..k] == lines;
      err := None;
    }

    /** One line of the file: the branch its prefix selects. */
    method ParseLine(line: string, float: FloatParser) returns (err: Option<PyError>)
      modifies this
      ensures ObjText.ReadLine(variant, texture, float, old(Lists()), line).Ok? ==>
        err.None? && Ok(Lists()) == ObjText.ReadLine(variant, texture, float, old(Lists()), line)
      ensures ObjText.ReadLine(variant, texture, float, old(Lists()), line).Err? ==>
        err == Some(ObjText.ReadLine(variant, texture, float, old(Lists()), line).error)
    {
      err := None;
      if StartsWith(line, "#") {
        return;
      }
      if StartsWith(line, "v ") {
        var xs := Floats(PySlice(Words(line), 1, 4), float);
        if xs.Err? { return Some(xs.error); }
        vertices := vertices + [xs.value];
      } else if StartsWith(line, "vt ") {
        var xs := Floats(PySlice(Words(line), 1, 3), float);
        if xs.Err? { return Some(xs.error); }
        texCoords := texCoords + [xs.value];
      } else if StartsWith(line, "vn ") {
        var xs := Floats(PySlice(Words(line), 1, 3), float);
        if xs.Err? { return Some(xs.error); }
        normals := normals + [xs.value];
      } else if StartsWith(line, "f ") {
        var face := ParseFace(Arguments(line));
        if face.Err? { return Some(face.error); }
        faces := faces + [face.value];
      }
    }

    /**
     * The `f` branch: each token adds its point, then its colour when it
     * names a texture coordinate, then its normal when it has a third field;
     * the face keeps `colors` and `normals` only when they are non-empty.
     */
    method ParseFace(tokens: seq<string>) returns (r: Result<Face, PyError>)
      ensures ReadTokens(variant, texture, Lists(), tokens).Ok? ==>
        r == Ok(MakeFace(ReadTokens(variant, texture, Lists(), tokens).value))
      ensures ReadTokens(variant, texture, Lists(), tokens).Err? ==>
        r == Err(ReadTokens(variant, texture, Lists(), tokens).error)
    {
      var points, colors, norms := [], [], [];
      var k := 0;
      while k < |tokens|
        invariant 0 <= k <= |tokens|
        invariant ReadTokens(variant, texture, Lists(), tokens[..k]) == Ok(FaceLists(points, colors, norms))
      {
        assert tokens[..k + 1][..k] == tokens[..k];
        var fields := Split(tokens[k], '/');
        var point := TokenPoint(Lists(), fields);
        if point.Err? {
          ReadTokensErrSticks(variant, texture, Lists(), tokens, k + 1);
          return Err(point.error);
        }
        var color := TokenColor(variant, texture, Lists(), fields);
        if color.Err? {
          ReadTokensErrSticks(variant, texture, Lists(), tokens, k + 1);
          return Err(color.error);
        }
        var normal := TokenNormal(Lists(), fields);
        if normal.Err? {
          ReadTokensErrSticks(variant, texture, Lists(), tokens, k + 1);
          return Err(normal.error);
        }
        points := points + [point.value];
        if color.value.Some? {
          colors := colors + [color.value.value];
        }
        if normal.value.Some? {
          norms := norms + [normal.value.value];
        }
        k := k + 1;
      }
      assert tokens[..k] == tokens;
      r := Ok(MakeFace(FaceLists(points, colors, norms)));
    }

    /**
     * `_furthest_point`: the largest distance of any point of any face from
     * the origin on the given axes, 0 when there are no points; ValueError
     * (from `math.dist`) at the first point with too few coordinates.
     */
    method FurthestPoint(axis: Axis, root: Root) returns (r: Result<real, PyError>)
      ensures r == Furthest(Points(faces), axis, root)
    {
      var maxDistance := 0.0;
      var i := 0;
      while i < |faces|
        invariant 0 <= i <= |faces|
        invariant Furthest(Points(faces[..i]), axis, root) == Ok(maxDistance)
      {
        var points := faces[i].points;
        var j := 0;
        assert Points(faces[..i]) + points[..j] == Points(faces[..i]);
        while j < |points|
          invariant 0 <= j <= |points|
          invariant Furthest(Points(faces[..i]) + points[..j], axis, root) == Ok(maxDistance)
        {
          var ps := Points(faces[..i]) + points[..j];
          assert (Points(faces[..i]) + points[..j + 1])[..|ps|] == ps;
          var distance := Distance(points[j], axis, root);
          if distance.None? {
            FurthestFaceErr(faces, i, j, axis, root);
            return Err(ValueError);
          }
          if distance.value > maxDistance {
            maxDistance := distance.value;
          }
          j := j + 1;
        }
        assert faces[..i + 1][..i] == faces[..i];
        assert points[..j] == points;
        i := i + 1;
      }
      assert faces[..i] == faces;
      r := Ok(maxDistance);
    }

    /**
     * `normalise`: divides every coordinate of every face point by the
     * furthest distance. The faces end as `NormaliseFaces` says; when it
     * raises they are as before (a division by zero can only come at a point
     * before which every point was empty).
     */
    method Normalise(axis: Axis, root: Root) returns (err: Option<PyError>)
      modifies this
      ensures NormaliseFaces(old(faces), axis, root).Ok? ==>
        err.None? && faces == NormaliseFaces(old(faces), axis, root).value
      ensures NormaliseFaces(old(faces), axis, root).Err? ==>
        err == Some(NormaliseFaces(old(faces), axis, root).error) && faces == old(faces)
      ensures vertices == old(vertices) && texCoords == old(texCoords) && normals == old(normals)
    {
      var furthest := FurthestPoint(axis, root);
      if furthest.Err? {
        return Some(furthest.error);
      }
      var norm := furthest.value;
      var i := 0;
      while i < |faces|
        invariant 0 <= i <= |faces| == |old(faces)|
        invariant faces[i..] == old(faces)[i..]
        invariant norm != 0.0 ==> faces[..i] == Normalised(old(faces)[..i], norm)
        invariant norm == 0.0 ==> faces == old(faces) && !HasCoordinate(old(faces)[..i])
        invariant vertices == old(vertices) && texCoords == old(texCoords) && normals == old(normals)
      {
        var points := faces[i].points;
        var normPoints := [];
        var j := 0;
        while j < |points|
          invariant 0 <= j <= |points|
          invariant norm != 0.0 ==> normPoints == seq(j, k requires 0 <= k < j => Divided(points[k], norm))
          invariant norm == 0.0 ==> normPoints == points[..j] && forall k :: 0 <= k < j ==> points[k] == []
        {
          var q := Quotient(points[j], norm);
          if q.Err? {
            NormaliseZeroDivision(old(faces), i, j, axis, root);
            return Some(ZeroDivisionError);
          }
          normPoints := normPoints + [q.value];
          j := j + 1;
        }
        NormaliseStep(old(faces), faces, i, norm, normPoints);
        faces := faces[i := faces[i].(points := normPoints)];
        i := i + 1;
      }
      assert old(faces)[..i] == old(faces);
      err := None;
    }
  }

  /** `[coord/norm for coord in point]`: the first coordinate raises when `norm` is 0. */
  function Quotient(p: Vec, norm: real): (r: Result<Vec, PyError>)
    ensures r.Err? <==> norm == 0.0 && |p| > 0
    ensures r.Ok? && norm != 0.0 ==> r.value == Divided(p, norm)
    ensures r.Ok? && norm == 0.0 ==> r.value == p == []
  {
    if p == [] then Ok([]) else if norm == 0.0 then Err(ZeroDivisionError) else Ok(Divided(p, norm))
  }

  /** What `ParseLines` leaves when the constructor reads `lines` and then, if asked, normalises. */
  function Loaded(variant: Variant, texture: Option<Image>, float: FloatParser, lines: seq<string>,
                  normalise: bool, axis: Axis, root: Root): Result<Tables, PyError>
  {
    match ReadAll(variant, texture, float, NoTables, lines)
    case Err(e) => Err(e)
    case Ok(t) =>
      if !normalise then Ok(t)
      else
        match NormaliseFaces(t.faces, axis, root)
        case Err(e) => Err(e)
        case Ok(fs) => Ok(t.(faces := fs))
  }

  /**
   * `OBJ(obj_path, texture_path, normalise=True, normalised_axis="XY")` of
   * obj.py: read every line, then normalise unless told not to.
   */
  method LoadObj(lines: seq<string>, texture: Option<Image>, float: FloatParser, root: Root,
                 normalise: bool := true, axis: Axis := XY) returns (r: Result<Obj, PyError>)
    ensures Loaded(Current, texture, float, lines, normalise, axis, root).Ok? ==>
      r.Ok? && fresh(r.value) && r.value.variant == Current && r.value.texture == texture &&
      r.value.Lists() == Loaded(Current, texture, float, lines, normalise, axis, root).value
    ensures Loaded(Current, texture, float, lines, normalise, axis, root).Err? ==>
      r == Err(Loaded(Current, texture, float, lines, normalise, axis, root).error)
  {
    var obj := new Obj.Empty(Current, texture);
    var err := obj.ParseLines(lines, float);
    if err.Some? {
      return Err(err.value);
    }
    if normalise {
      err := obj.Normalise(axis, root);
      if err.Some? {
        return Err(err.value);
      }
    }
    r := Ok(obj);
  }

  /** `OBJ(obj_path, texture_path)` of object.py: read every line, no normalisation. */
  method LoadObject(lines: seq<string>, texture: Option<Image>, float: FloatParser) returns (r: Result<Obj, PyError>)
    ensures ReadAll(Legacy, texture, float, NoTables, lines).Ok? ==>
      r.Ok? && fresh(r.value) && r.value.variant == Legacy && r.value.texture == texture &&
      r.value.Lists() == ReadAll(Legacy, texture, float, NoTables, lines).value
    ensures ReadAll(Legacy, texture, float, NoTables, lines).Err? ==>
      r == Err(ReadAll(Legacy, texture, float, NoTables, lines).error)
  {
    var obj := new Obj.Empty(Legacy, texture);
    var err := obj.ParseLines(lines, float);
    if err.Some? {
      return Err(err.value);
    }
    r := Ok(obj);
  }

  // ---------------------------------------------------------------------
  // Lemmas behind the loops

  /** A token that raises makes the whole face raise, whatever tokens follow. */
  lemma ReadTokensErrSticks(variant: Variant, texture: Option<Image>, t: Tables, tokens: seq<string>, k: nat)
    requires 0 < k <= |tokens|
    requires ReadTokens(variant, texture, t, tokens[..k - 1]).Ok?
    requires ReadToken(variant, texture, t, ReadTokens(variant, texture, t, tokens[..k - 1]).value, tokens[k - 1]).Err?
    ensures ReadTokens(variant, texture, t, tokens) ==
      ReadToken(variant, texture, t, ReadTokens(variant, texture, t, tokens[..k - 1]).value, tokens[k - 1])
    decreases |tokens| - k
  {
    assert tokens[..k][..k - 1] == tokens[..k - 1];
    if k < |tokens| {
      ReadTokensErrPrefix(variant, texture, t, tokens, k);
    } else {
      assert tokens[..k] == tokens;
    }
  }

  lemma {:induction false} ReadTokensErrPrefix(variant: Variant, texture: Option<Image>, t: Tables, tokens: seq<string>, k: nat)
    requires 0 < k <= |tokens|
    requires ReadTokens(variant, texture, t, tokens[..k]).Err?
    ensures ReadTokens(variant, texture, t, tokens) == ReadTokens(variant, texture, t, tokens[..k])
    decreases |tokens| - k
  {
    if k == |tokens| {
      assert tokens[..k] == tokens;
    } else {
      assert tokens[..k + 1][..k] == tokens[..k];
      ReadTokensErrPrefix(variant, texture, t, tokens, k + 1);
    }
  }

  /** A point with too few coordinates makes the furthest-point scan of all faces raise. */
  lemma FurthestFaceErr(faces: seq<Face>, i: nat, j: nat, axis: Axis, root: Root)
    requires i < |faces| && j < |faces[i].points|
    requires Furthest(Points(faces[..i]) + faces[i].points[..j], axis, root).Ok?
    requires Distance(faces[i].points[j], axis, root).None?
    ensures Furthest(Points(faces), axis, root) == Err(ValueError)
  {
    var pts := faces[i].points;
    var pre := Points(faces[..i]) + pts[..j + 1];
    assert pre[..|pre| - 1] == Points(faces[..i]) + pts[..j];
    assert Furthest(pre, axis, root) == Err(ValueError);
    PointsOfFace(faces, i);
    assert pts == pts[..j + 1] + pts[j + 1..];
    assert Points(faces) == pre + (pts[j + 1..] + Points(faces[i + 1..]));
    FurthestErrSticks(pre, pts[j + 1..] + Points(faces[i + 1..]), axis, root);
  }

  /**
   * A coordinate met while normalising by 0 makes `NormaliseFaces` raise
   * ZeroDivisionError: the scan found every distance to be 0.
   */
  lemma NormaliseZeroDivision(faces: seq<Face>, i: nat, j: nat, axis: Axis, root: Root)
    requires i < |faces| && j < |faces[i].points| && |faces[i].points[j]| > 0
    requires Furthest(Points(faces), axis, root) == Ok(0.0)
    ensures NormaliseFaces(faces, axis, root) == Err(ZeroDivisionError)
  {
  }

  /** Replacing face `i`'s points keeps the loop invariants of `Normalise`. */
  lemma NormaliseStep(old0: seq<Face>, faces: seq<Face>, i: nat, norm: real, normPoints: seq<Vec>)
    requires i < |faces| == |old0|
    requires faces[i..] == old0[i..]
    requires norm != 0.0 ==> faces[..i] == Normalised(old0[..i], norm)
    requires norm != 0.0 ==> normPoints == seq(|faces[i].points|, k requires 0 <= k < |faces[i].points| => Divided(faces[i].points[k], norm))
    requires norm == 0.0 ==> faces == old0 && !HasCoordinate(old0[..i])
    requires norm == 0.0 ==> normPoints == faces[i].points && forall k :: 0 <= k < |normPoints| ==> normPoints[k] == []
    ensures var faces' := faces[i := faces[i].(points := normPoints)];
      faces'[i + 1..] == old0[i + 1..] &&
      (norm != 0.0 ==> faces'[..i + 1] == Normalised(old0[..i + 1], norm)) &&
      (norm == 0.0 ==> faces' == old0 && !HasCoordinate(old0[..i + 1]))
  {
    var faces' := faces[i := faces[i].(points := normPoints)];
    assert faces[i] == old0[i] by {
      assert faces[i..][0] == old0[i..][0];
    }
    assert faces'[i + 1..] == faces[i + 1..] == old0[i + 1..] by {
      assert faces[i + 1..] == faces[i..][1..];
      assert old0[i + 1..] == old0[i..][1..];
    }
    if norm != 0.0 {
      assert faces'[..i + 1] == faces[..i] + [faces'[i]];
      assert Normalised(old0[..i + 1], norm) == Normalised(old0[..i], norm) + [DividedFace(old0[i], norm)];
    } else {
      assert faces[i].(points := normPoints) == faces[i];
      var pre := old0[..i + 1];
      forall a, b | 0 <= a < |pre| && 0 <= b < |pre[a].points|
        ensures |pre[a].points[b]| == 0
      {
        if a < i {
          assert old0[..i][a] == pre[a];
        } else {
          assert normPoints[b] == [];
        }
      }
    }
  }

  // ---------------------------------------------------------------------
  // Properties of a load

  /**
   * An OBJ of obj.py that loads with normalisation has one face per `f ` line,
   * each with its points within the unit ball of the normalised axes.
   */
  lemma LoadedNormalised(texture: Option<Image>, float: FloatParser, lines: seq<string>, axis: Axis, root: Root)
    requires IsSqrt(root)
    requires Loaded(Current, texture, float, lines, true, axis, root).Ok?
    ensures var t := Loaded(Current, texture, float, lines, true, axis, root).value;
      |t.faces| == CountPrefix(lines, "f ") &&
      |t.vertices| == CountPrefix(lines, "v ") &&
      forall i, j :: 0 <= i < |t.faces| && 0 <= j < |t.faces[i].points| ==>
        Distance(t.faces[i].points[j], axis, root).Some? && Distance(t.faces[i].points[j], axis, root).value <= 1.0
  {
    var t := ReadAll(Current, texture, float, NoTables, lines).value;
    ReadAllCounts(Current, texture, float, lines);
    NormaliseFacesWithinUnit(t.faces, axis, root);
  }
}
