/**
 * The text of a Wavefront .obj file as the two OBJ classes read it, on values:
 * line-prefix dispatch, `v/vt/vn` face tokens with 1-based lookups, and the
 * texture sampling that gives a face token its colour. The class in module
 * ObjParser runs the same reading in place and is proved to end in the tables
 * `ReadAll` describes.
 *
 * augmentation/obj.py and its older copy augmentation/object.py read a file the
 * same way except for texture sampling; `Variant` says which one runs:
 * `Current` rounds, clamps and ignores a missing texture, `Legacy` truncates,
 * does not clamp and lets a missing texture raise.
 */
module ObjText {
  import opened Wrappers
  import opened Strings
  import opened Mesh

  /** `float(token)`, left abstract: None where Python raises ValueError. */
  type FloatParser = string -> Option<real>

  /** An image as `cv2.imread` returns it: `shape == (height, width, 3)`. */
  datatype Image = Image(height: nat, width: nat, pixel: (nat, nat) -> Color)

  datatype Variant = Current | Legacy

  /** The lists a reader fills: `_vertices`, `_texture_coordinates`, `_vertices_normals`, `faces`. */
  datatype Tables = Tables(vertices: seq<Vec>, texCoords: seq<Vec>, normals: seq<Vec>, faces: seq<Face>)

  /** The three per-token lists of one `f` line: `vertex_points`, `vertex_colors`, `vertex_normals`. */
  datatype FaceLists = FaceLists(points: seq<Vec>, colors: seq<Color>, normals: seq<Vec>)

  const NoTables := Tables([], [], [], [])

  // ---------------------------------------------------------------------
  // Python indexing and slicing

  /**
   * Index normalisation of Python lists and numpy arrays: `i` counts from
   * the front when non-negative and from the end when negative; anything
   * else raises IndexError (None).
   */
  function NormIndex(i: int, n: nat): (r: Option<nat>)
    ensures r.Some? <==> -(n as int) <= i < n
    ensures r.Some? ==> r.value < n && (0 <= i ==> r.value == i) && (i < 0 ==> r.value == n + i)
  {
    if 0 <= i < n then Some(i) else if -(n as int) <= i < 0 then Some(n + i) else None
  }

  /** `s[i]` on a Python list. */
  function PyIndex<T>(s: seq<T>, i: int): Option<T> {
    match NormIndex(i, |s|)
    case None => None
    case Some(k) => Some(s[k])
  }

  /** `s[lo:hi]` for non-negative bounds: bounds past the end are cut to it. */
  function PySlice<T>(s: seq<T>, lo: nat, hi: nat): (r: seq<T>)
    ensures |r| == if lo >= hi || lo >= |s| then 0 else (if hi <= |s| then hi else |s|) - lo
    ensures forall k :: 0 <= k < |r| ==> r[k] == s[lo + k]
  {
    var h := if hi <= |s| then hi else |s|;
    var l := if lo <= h then lo else h;
    s[l..h]
  }

  /** `[float(i) for i in words]`: raises on the first word that is not a number. */
  function Floats(words: seq<string>, float: FloatParser): (r: Result<Vec, PyError>)
    ensures r.Ok? <==> forall k :: 0 <= k < |words| ==> float(words[k]).Some?
    ensures r.Ok? ==> |r.value| == |words| && forall k :: 0 <= k < |words| ==> Some(r.value[k]) == float(words[k])
  {
    if words == [] then Ok([])
    else
      match Floats(words[..|words| - 1], float)
      case Err(e) => Err(e)
      case Ok(xs) =>
        match float(words[|words| - 1])
        case None => Err(ValueError)
        case Some(x) => Ok(xs + [x])
  }

  // ---------------------------------------------------------------------
  // Texture sampling (`_get_vertex_color`)

  /** Python's `round` on a float: to the nearest integer, halves to the even one. */
  function Round(x: real): (n: int)
    ensures x - 0.5 <= n as real <= x + 0.5
  {
    var f := x.Floor;
    var frac := x - f as real;
    if frac < 0.5 then f else if frac > 0.5 then f + 1 else if f % 2 == 0 then f else f + 1
  }

  /** Python's `int` on a float: truncation toward zero. */
  function Trunc(x: real): (n: int)
    ensures 0.0 <= x ==> 0 <= n && n as real <= x < n as real + 1.0
    ensures x < 0.0 ==> n <= 0 && n as real - 1.0 < x <= n as real
  {
    if x >= 0.0 then x.Floor else -((-x).Floor)
  }

  /** Lines 90-97 of obj.py: below 0 becomes 0, at or past `bound` becomes `bound - 1`. */
  function ClampIndex(i: int, bound: int): int {
    if i < 0 then 0 else if i >= bound then bound - 1 else i
  }

  /** `texture[x][y]`: row x, column y, each normalised as numpy does. */
  function Pixel(img: Image, x: int, y: int): Result<Color, PyError> {
    match (NormIndex(x, img.height), NormIndex(y, img.width))
    case (Some(row), Some(col)) => Ok(img.pixel(row, col))
    case _ => Err(IndexError)
  }

  /** The pixel position the variant computes from the texture coordinates (u, v). */
  function TexturePosition(variant: Variant, img: Image, u: real, v: real): (int, int) {
    var h, w := img.height, img.width;
    match variant
    case Current =>
      (ClampIndex(Round(Mul(h as real, 1.0 - v)), w), ClampIndex(Round(Mul(w as real, u)), h))
    case Legacy =>
      (Trunc(Mul(h as real, 1.0 - v)), Trunc(Mul(w as real, u)))
  }

  /**
   * `_get_vertex_color(index)`: look up the 1-based texture coordinate, unpack
   * it into (u, v), read the texture's shape (AttributeError when there is no
   * texture), and sample the pixel.
   */
  function VertexColor(variant: Variant, texture: Option<Image>, texCoords: seq<Vec>, index: int): Result<Color, PyError> {
    match PyIndex(texCoords, index - 1)
    case None => Err(IndexError)
    case Some(uv) =>
      if |uv| != 2 then Err(ValueError)
      else
        match texture
        case None => Err(AttributeError)
        case Some(img) =>
          var (x, y) := TexturePosition(variant, img, uv[0], uv[1]);
          Pixel(img, x, y)
  }

  // ---------------------------------------------------------------------
  // Face tokens: `v`, `v/vt`, `v/vt/vn`, `v//vn`

  /** `elements[1]` exists and is not "". */
  predicate Textured(fields: seq<string>) {
    |fields| > 1 && fields[1] != ""
  }

  /** `len(elements) > 2` */
  predicate WithNormal(fields: seq<string>) {
    |fields| > 2
  }

  /** The vertex a token names: `_vertices[int(elements[0]) - 1]`. */
  function TokenPoint(t: Tables, fields: seq<string>): Result<Vec, PyError>
    requires |fields| >= 1
  {
    match ParseInt(fields[0])
    case None => Err(ValueError)
    case Some(i) =>
      match PyIndex(t.vertices, i - 1)
      case None => Err(IndexError)
      case Some(p) => Ok(p)
  }

  /**
   * The colour a token adds, if any. obj.py swallows the AttributeError of a
   * missing texture (the token then adds nothing); object.py does not.
   */
  function TokenColor(variant: Variant, texture: Option<Image>, t: Tables, fields: seq<string>): Result<Option<Color>, PyError> {
    if !Textured(fields) then Ok(None)
    else
      match ParseInt(fields[1])
      case None => Err(ValueError)
      case Some(i) =>
        match VertexColor(variant, texture, t.texCoords, i)
        case Ok(c) => Ok(Some(c))
        case Err(e) => if e == AttributeError && variant == Current then Ok(None) else Err(e)
  }

  /** The normal a token adds, if any: `_vertices_normals[int(elements[2]) - 1]`. */
  function TokenNormal(t: Tables, fields: seq<string>): Result<Option<Vec>, PyError> {
    if !WithNormal(fields) then Ok(None)
    else
      match ParseInt(fields[2])
      case None => Err(ValueError)
      case Some(i) =>
        match PyIndex(t.normals, i - 1)
        case None => Err(IndexError)
        case Some(n) => Ok(Some(n))
  }

  function AppendIf<T>(s: seq<T>, x: Option<T>): seq<T> {
    if x.Some? then s + [x.value] else s
  }

  /** One token of an `f` line: its point, then its colour, then its normal. */
  function ReadToken(variant: Variant, texture: Option<Image>, t: Tables, acc: FaceLists, token: string): Result<FaceLists, PyError> {
    var fields := Split(token, '/');
    match TokenPoint(t, fields)
    case Err(e) => Err(e)
    case Ok(p) =>
      match TokenColor(variant, texture, t, fields)
      case Err(e) => Err(e)
      case Ok(c) =>
        match TokenNormal(t, fields)
        case Err(e) => Err(e)
        case Ok(n) => Ok(FaceLists(acc.points + [p], AppendIf(acc.colors, c), AppendIf(acc.normals, n)))
  }

  /** The tokens of an `f` line, left to right. */
  function ReadTokens(variant: Variant, texture: Option<Image>, t: Tables, tokens: seq<string>): Result<FaceLists, PyError> {
    if tokens == [] then Ok(FaceLists([], [], []))
    else
      match ReadTokens(variant, texture, t, tokens[..|tokens| - 1])
      case Err(e) => Err(e)
      case Ok(acc) => ReadToken(variant, texture, t, acc, tokens[|tokens| - 1])
  }

  /** The face dictionary: `colors` and `normals` only when non-empty. */
  function MakeFace(acc: FaceLists): Face {
    Face(acc.points,
         if acc.colors == [] then None else Some(acc.colors),
         if acc.normals == [] then None else Some(acc.normals),
         None)
  }

  // ---------------------------------------------------------------------
  // Lines

  /** `line.split()[1:]` */
  function Arguments(line: string): seq<string> {
    var ws := Words(line);
    PySlice(ws, 1, |ws|)
  }

  /** One line of the file, dispatched on its prefix. */
  function ReadLine(variant: Variant, texture: Option<Image>, float: FloatParser, t: Tables, line: string): Result<Tables, PyError> {
    if StartsWith(line, "#") then Ok(t)
    else if StartsWith(line, "v ") then
      match Floats(PySlice(Words(line), 1, 4), float)
      case Err(e) => Err(e)
      case Ok(xs) => Ok(t.(vertices := t.vertices + [xs]))
    else if StartsWith(line, "vt ") then
      match Floats(PySlice(Words(line), 1, 3), float)
      case Err(e) => Err(e)
      case Ok(xs) => Ok(t.(texCoords := t.texCoords + [xs]))
    else if StartsWith(line, "vn ") then
      match Floats(PySlice(Words(line), 1, 3), float)
      case Err(e) => Err(e)
      case Ok(xs) => Ok(t.(normals := t.normals + [xs]))
    else if StartsWith(line, "f ") then
      match ReadTokens(variant, texture, t, Arguments(line))
      case Err(e) => Err(e)
      case Ok(acc) => Ok(t.(faces := t.faces + [MakeFace(acc)]))
    else Ok(t)
  }

  /** The lines, in order, starting from the tables `t`; the first exception ends the reading. */
  function ReadAll(variant: Variant, texture: Option<Image>, float: FloatParser, t: Tables, lines: seq<string>): Result<Tables, PyError> {
    if lines == [] then Ok(t)
    else
      match ReadAll(variant, texture, float, t, lines[..|lines| - 1])
      case Err(e) => Err(e)
      case Ok(t') => ReadLine(variant, texture, float, t', lines[|lines| - 1])
  }

  // ---------------------------------------------------------------------
  // Properties of the dispatch

  /** Lines that start with `p`. */
  function CountPrefix(lines: seq<string>, p: string): (n: nat)
    ensures n <= |lines|
  {
    if lines == [] then 0
    else CountPrefix(lines[..|lines| - 1], p) + (if StartsWith(lines[|lines| - 1], p) then 1 else 0)
  }

  /**
   * A file read without error holds one vertex per `v ` line (at most 3
   * numbers), one texture coordinate per `vt ` line and one normal per `vn `
   * line (at most 2 numbers each: the normal keeps only its first two, by the
   * slice `[1:3]`), and one face per `f ` line.
   */
  lemma {:induction false} ReadAllCounts(variant: Variant, texture: Option<Image>, float: FloatParser, lines: seq<string>)
    requires ReadAll(variant, texture, float, NoTables, lines).Ok?
    ensures var t := ReadAll(variant, texture, float, NoTables, lines).value;
      |t.vertices| == CountPrefix(lines, "v ") && |t.texCoords| == CountPrefix(lines, "vt ") &&
      |t.normals| == CountPrefix(lines, "vn ") && |t.faces| == CountPrefix(lines, "f ") &&
      Shaped(t)
    decreases |lines|
  {
    if lines != [] {
      var init := lines[..|lines| - 1];
      var line := lines[|lines| - 1];
      ReadAllCounts(variant, texture, float, init);
      var t0 := ReadAll(variant, texture, float, NoTables, init).value;
      var t1 := ReadAll(variant, texture, float, NoTables, lines).value;
      assert t1 == ReadLine(variant, texture, float, t0, line).value;
      ReadLineGrows(variant, texture, float, t0, line);
      ShapedGrows(t0, t1);
    }
  }

  /** Vertices have at most 3 numbers, texture coordinates and normals at most 2. */
  predicate Shaped(t: Tables) {
    (forall k :: 0 <= k < |t.vertices| ==> |t.vertices[k]| <= 3) &&
    (forall k :: 0 <= k < |t.texCoords| ==> |t.texCoords[k]| <= 2) &&
    (forall k :: 0 <= k < |t.normals| ==> |t.normals[k]| <= 2)
  }

  lemma ShapedGrows(t: Tables, t': Tables)
    requires Shaped(t)
    requires t.vertices <= t'.vertices && t.texCoords <= t'.texCoords && t.normals <= t'.normals
    requires |t'.vertices| <= |t.vertices| + 1 && |t'.texCoords| <= |t.texCoords| + 1 && |t'.normals| <= |t.normals| + 1
    requires |t'.vertices| > |t.vertices| ==> |t'.vertices[|t.vertices|]| <= 3
    requires |t'.texCoords| > |t.texCoords| ==> |t'.texCoords[|t.texCoords|]| <= 2
    requires |t'.normals| > |t.normals| ==> |t'.normals[|t.normals|]| <= 2
    ensures Shaped(t')
  {
  }

  function Added(p: bool): nat {
    if p then 1 else 0
  }

  /** What one line adds to the tables: one entry to the list its prefix names, nothing elsewhere. */
  lemma ReadLineGrows(variant: Variant, texture: Option<Image>, float: FloatParser, t: Tables, line: string)
    requires ReadLine(variant, texture, float, t, line).Ok?
    ensures var t' := ReadLine(variant, texture, float, t, line).value;
      t'.vertices[..|t.vertices|] == t.vertices && t'.texCoords[..|t.texCoords|] == t.texCoords &&
      t'.normals[..|t.normals|] == t.normals && t'.faces[..|t.faces|] == t.faces &&
      |t'.vertices| == |t.vertices| + Added(StartsWith(line, "v ")) &&
      |t'.texCoords| == |t.texCoords| + Added(StartsWith(line, "vt ")) &&
      |t'.normals| == |t.normals| + Added(StartsWith(line, "vn ")) &&
      |t'.faces| == |t.faces| + Added(StartsWith(line, "f ")) &&
      (|t'.vertices| > |t.vertices| ==> |t'.vertices[|t.vertices|]| <= 3) &&
      (|t'.texCoords| > |t.texCoords| ==> |t'.texCoords[|t.texCoords|]| <= 2) &&
      (|t'.normals| > |t.normals| ==> |t'.normals[|t.normals|]| <= 2)
  {
    PrefixesExclusive(line);
  }

  /** At most one of the prefixes the reader dispatches on starts a line. */
  lemma PrefixesExclusive(line: string)
    ensures StartsWith(line, "#") ==> !StartsWith(line, "v ") && !StartsWith(line, "vt ") && !StartsWith(line, "vn ") && !StartsWith(line, "f ")
    ensures StartsWith(line, "v ") ==> !StartsWith(line, "vt ") && !StartsWith(line, "vn ") && !StartsWith(line, "f ")
    ensures StartsWith(line, "vt ") ==> !StartsWith(line, "vn ") && !StartsWith(line, "f ")
    ensures StartsWith(line, "vn ") ==> !StartsWith(line, "f ")
  {
    if |line| >= 1 {
      assert StartsWith(line, "#") ==> line[0] == '#';
      assert StartsWith(line, "v ") || StartsWith(line, "vt ") || StartsWith(line, "vn ") ==> line[0] == 'v';
      assert StartsWith(line, "f ") ==> line[0] == 'f';
    }
    if |line| >= 2 {
      assert StartsWith(line, "v ") ==> line[1] == ' ';
      assert StartsWith(line, "vt ") ==> line[1] == 't';
      assert StartsWith(line, "vn ") ==> line[1] == 'n';
    }
  }

  /** A comment line, or a line with none of the four prefixes, changes nothing. */
  lemma ReadLineIgnores(variant: Variant, texture: Option<Image>, float: FloatParser, t: Tables, line: string)
    requires StartsWith(line, "#") ||
      (!StartsWith(line, "v ") && !StartsWith(line, "vt ") && !StartsWith(line, "vn ") && !StartsWith(line, "f "))
    ensures ReadAll(variant, texture, float, t, [line]) == Ok(t)
  {
    assert [line][..0] == [];
  }

  /** Once a line raises, the reading stays failed. */
  lemma {:induction false} ReadAllErrSticks(variant: Variant, texture: Option<Image>, float: FloatParser, t: Tables, lines: seq<string>, more: seq<string>)
    requires ReadAll(variant, texture, float, t, lines).Err?
    ensures ReadAll(variant, texture, float, t, lines + more) == ReadAll(variant, texture, float, t, lines)
    decreases |more|
  {
    if more == [] {
      assert lines + more == lines;
    } else {
      assert (lines + more)[..|lines + more| - 1] == lines + more[..|more| - 1];
      ReadAllErrSticks(variant, texture, float, t, lines, more[..|more| - 1]);
    }
  }

  // ---------------------------------------------------------------------
  // Properties of the face tokens

  function CountTextured(tokens: seq<string>): (n: nat)
    ensures n <= |tokens|
  {
    if tokens == [] then 0
    else CountTextured(tokens[..|tokens| - 1]) + (if Textured(Split(tokens[|tokens| - 1], '/')) then 1 else 0)
  }

  function CountWithNormal(tokens: seq<string>): (n: nat)
    ensures n <= |tokens|
  {
    if tokens == [] then 0
    else CountWithNormal(tokens[..|tokens| - 1]) + (if WithNormal(Split(tokens[|tokens| - 1], '/')) then 1 else 0)
  }

  /** Whether a textured token adds a colour: always in object.py, only with a texture in obj.py. */
  predicate SamplesColors(variant: Variant, texture: Option<Image>) {
    variant == Legacy || texture.Some?
  }

  /**
   * A face read without error has one point per token, the vertex at the
   * token's 1-based index; one normal per token with three fields; and one
   * colour per token with a texture field when the variant samples colours,
   * none otherwise.
   */
  lemma {:induction false} ReadTokensLists(variant: Variant, texture: Option<Image>, t: Tables, tokens: seq<string>)
    requires ReadTokens(variant, texture, t, tokens).Ok?
    ensures var acc := ReadTokens(variant, texture, t, tokens).value;
      |acc.points| == |tokens| &&
      (forall j :: 0 <= j < |tokens| ==> TokenPoint(t, Split(tokens[j], '/')) == Ok(acc.points[j])) &&
      |acc.normals| == CountWithNormal(tokens) &&
      |acc.colors| == (if SamplesColors(variant, texture) then CountTextured(tokens) else 0)
    decreases |tokens|
  {
    if tokens != [] {
      var init := tokens[..|tokens| - 1];
      var last := tokens[|tokens| - 1];
      ReadTokensLists(variant, texture, t, init);
      var prev := ReadTokens(variant, texture, t, init).value;
      var acc := ReadTokens(variant, texture, t, tokens).value;
      assert acc == ReadToken(variant, texture, t, prev, last).value;
      ReadTokenGrows(variant, texture, t, prev, last);
      assert acc.points == prev.points + [TokenPoint(t, Split(last, '/')).value];
      forall j | 0 <= j < |tokens| ensures TokenPoint(t, Split(tokens[j], '/')) == Ok(acc.points[j]) {
        if j < |init| {
          assert init[j] == tokens[j] && acc.points[j] == prev.points[j];
        }
      }
    }
  }

  /** What one token adds to the lists of its face. */
  lemma ReadTokenGrows(variant: Variant, texture: Option<Image>, t: Tables, acc: FaceLists, token: string)
    requires ReadToken(variant, texture, t, acc, token).Ok?
    ensures var fields := Split(token, '/');
      var acc' := ReadToken(variant, texture, t, acc, token).value;
      acc'.points == acc.points + [TokenPoint(t, fields).value] &&
      TokenPoint(t, fields).Ok? &&
      |acc'.normals| == |acc.normals| + (if WithNormal(fields) then 1 else 0) &&
      |acc'.colors| == |acc.colors| + (if Textured(fields) && SamplesColors(variant, texture) then 1 else 0)
  {
    var fields := Split(token, '/');
    if Textured(fields) && texture.Some? {
      var i := ParseInt(fields[1]).value;
      assert VertexColor(variant, texture, t.texCoords, i) != Err(AttributeError);
    }
  }

  /**
   * The face dictionary of an `f` line: `colors` is present exactly when some
   * token has a texture field and the variant samples colours; `normals`
   * exactly when some token has three fields.
   */
  lemma FaceKeys(variant: Variant, texture: Option<Image>, t: Tables, tokens: seq<string>)
    requires ReadTokens(variant, texture, t, tokens).Ok?
    ensures var f := MakeFace(ReadTokens(variant, texture, t, tokens).value);
      |f.points| == |tokens| &&
      (f.colors.Some? <==> SamplesColors(variant, texture) && CountTextured(tokens) > 0) &&
      (f.normals.Some? <==> CountWithNormal(tokens) > 0) &&
      f.material.None?
  {
    ReadTokensLists(variant, texture, t, tokens);
  }

  // ---------------------------------------------------------------------
  // Properties of the sampling

  /** The clamp of obj.py keeps an index within [0, bound - 1]. */
  lemma ClampIndexWithin(i: int, bound: int)
    requires bound >= 1
    ensures 0 <= ClampIndex(i, bound) < bound
    ensures 0 <= i < bound ==> ClampIndex(i, bound) == i
  {
  }

  /**
   * obj.py bounds the row index by the width and the column index by the
   * height, so the clamped position is always inside a square texture.
   */
  lemma CurrentSquareTextureSamples(img: Image, u: real, v: real)
    requires img.height == img.width >= 1
    ensures var (x, y) := TexturePosition(Current, img, u, v);
      0 <= x < img.height && 0 <= y < img.width &&
      Pixel(img, x, y) == Ok(img.pixel(x, y))
  {
    ClampIndexWithin(Round(Mul(img.height as real, 1.0 - v)), img.width);
    ClampIndexWithin(Round(Mul(img.width as real, u)), img.height);
  }

  /**
   * On a texture wider than it is tall the clamp of obj.py does not keep the
   * row index inside the image: at (u, v) = (0, 0) on a 1-row, 2-column
   * texture the row index is 1 and the lookup raises IndexError.
   */
  lemma CurrentWideTextureRaises(pixel: (nat, nat) -> Color)
    ensures var img := Image(1, 2, pixel);
      TexturePosition(Current, img, 0.0, 0.0).0 == 1 &&
      VertexColor(Current, Some(img), [[0.0, 0.0]], 1) == Err(IndexError)
  {
    var img := Image(1, 2, pixel);
    assert Mul(1.0, 1.0 - 0.0) == 1.0;
    assert Mul(2.0, 0.0) == 0.0;
    assert Round(1.0) == 1 && Round(0.0) == 0;
  }

  lemma MulWithin(a: real, b: real)
    requires 0.0 <= a && 0.0 <= b <= 1.0
    ensures 0.0 <= Mul(a, b) <= a
    ensures b < 1.0 && a > 0.0 ==> Mul(a, b) < a
  {
    assert a * b <= a * 1.0 by { assert a * (1.0 - b) >= 0.0; }
    if b < 1.0 && a > 0.0 {
      assert a * (1.0 - b) > 0.0;
    }
  }

  /**
   * object.py does not clamp: its pixel lookup stays inside the texture when
   * 0 <= u < 1 and 0 < v <= 1, and then reads the pixel at the truncated
   * position.
   */
  lemma LegacyInRangeSamples(img: Image, u: real, v: real)
    requires img.height >= 1 && img.width >= 1
    requires 0.0 <= u < 1.0 && 0.0 < v <= 1.0
    ensures var (x, y) := TexturePosition(Legacy, img, u, v);
      0 <= x < img.height && 0 <= y < img.width &&
      Pixel(img, x, y) == Ok(img.pixel(x, y))
  {
    MulWithin(img.height as real, 1.0 - v);
    MulWithin(img.width as real, u);
  }

  /** object.py raises AttributeError on a textured token when the texture could not be read. */
  lemma LegacyMissingTextureRaises(t: Tables, fields: seq<string>)
    requires Textured(fields) && ParseInt(fields[1]).Some?
    requires PyIndex(t.texCoords, ParseInt(fields[1]).value - 1).Some?
    requires |PyIndex(t.texCoords, ParseInt(fields[1]).value - 1).value| == 2
    ensures TokenColor(Legacy, None, t, fields) == Err(AttributeError)
    ensures TokenColor(Current, None, t, fields) == Ok(None)
  {
  }
}
