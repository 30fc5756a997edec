# ARMOR core, modelled in Dafny

ARMOR draws 3D models on ArUco markers seen by a camera. This project models
the parts of it that decide what gets drawn and where:

- **Marker identity tracker** (`ArucoTracker` of augmentation/aruco_tracker.py).
  It keeps a register from UID strings `dict{A}id{B}#{C}` to entries
  `{missing_frames, aruco}`. Each frame, it matches the observed markers to
  registered entries: greedy nearest-neighbour over same-class pairs within
  `MAX_DISTANCE`. Unmatched observations get fresh UIDs. Entries missing for
  more than `MAX_FRAMES_MISSING` frames are evicted. Module `Tracker` holds the
  class `ArucoTracker`, whose methods change a `map<string, Entry>` in place.
  Modules `TrackerSpec`, `TrackerProperties` and `TrackerCalls` define what
  one `update` does, as values, and prove properties of it.
- **OBJ parsers** (augmentation/obj.py and the older augmentation/object.py).
  They dispatch on line prefixes (`#`, `v `, `vt `, `vn `, `f `) and split face
  tokens `v/vt/vn` with 1-based (and Python negative) index lookup. They sample
  the texture, clamped in obj.py and truncated in object.py, and scale the
  points by the furthest one.
  - Module `ObjText` holds the line-by-line reading as functions over
    `seq<string>`.
  - Module `ObjParser` holds the class `Obj`, whose methods fill its lists and
    rewrite its faces in place.
  - Module `Mesh` holds the faces, the furthest-point norm and normalisation.
- **Projector** (augmentation/ar.py, module `Ar`). It covers:
  - the autoscale factor;
  - per-face colour resolution, with integer averaging and the default colour;
  - the 3x4 intrinsic matrix shape;
  - the per-face loop;
  - `order_faces` as one permutation applied to faces and colours;
  - dropping z;
  - the list of polygons drawn.
- **OBJ cache** (augmentation/renderer.py, module `Rendering`). A generic class
  `Renderer<Asset>` keeps the map of maps `objs[model][texture]`, which it fills
  on demand or by preloading, and falls back to a default asset.
- **Helpers of main.py** (module `MainHelpers`). They cover the sliding-window
  rotation average over the caller's list, and the furthest point and
  normalisation helpers.
- Module `Aruco` holds the observation record and the marker centre. Module
  `Strings` holds decimal rendering and parsing of integers, splitting,
  substring search, lexicographic order and sorted key lists. Module
  `Wrappers` holds `Option` and `Result`.

Python exceptions become `Result`/`Option` values: `ValueError`, `IndexError`,
`ZeroDivisionError`, `AttributeError`, `KeyError` and `TypeError` as `Mesh.PyError`. Where
the code catches them, the model shows what is caught. Some things are passed
in as parameters:

- number parsing (`float`);
- the square root behind `math.dist` (`root`, with `IsSqrt`);
- the marker distance of the tracker (`dist`);
- `cv2.Rodrigues` and the `np.dot` projection;
- the face-distance key of `order_faces`;
- the OBJ loader of the renderer, and the outcome of `augment_aruco` inside `render`.

## Model

| member | source | states |
|---|---|---|
| Aruco.Center | aruco/aruco_detector.py:199-201 | the centre of a four-corner marker is the mean of its corners (the midpoint of the two diagonal midpoints) |
| Tracker.ArucoTracker.constructor | augmentation/aruco_tracker.py:12-18 | the register starts empty and the two limits are the given ones (defaults 5 and 5000) |
| Tracker.ArucoTracker.Delete | augmentation/aruco_tracker.py:24-32 | removes the UID if present; a missing UID leaves the register unchanged instead of raising |
| Tracker.ArucoTracker.RegisteredUids | augmentation/aruco_tracker.py:34-38 | returns exactly the registered UIDs, strictly ascending, or descending when `ascending` is false |
| Tracker.ArucoTracker.GenerateNewUid | augmentation/aruco_tracker.py:40-54 | returns the UID of the generation rule, computed from the sorted UIDs that contain the class prefix |
| Tracker.ArucoTracker.CollectCandidates | augmentation/aruco_tracker.py:84-92 | the nested loop builds exactly the candidate list: observation-major, UIDs ascending, same class only |
| Tracker.ArucoTracker.CollectRow | augmentation/aruco_tracker.py:87-92 | the inner loop for one observation yields its same-class candidates with their distances |
| Tracker.ArucoTracker.CommitMatches | augmentation/aruco_tracker.py:96-111 | the greedy walk over sorted candidates stores each accepted observation with count 0, leaves the unmatched observations pending and records the matched UIDs and updates in order |
| Tracker.ArucoTracker.RegisterObservations | augmentation/aruco_tracker.py:113-117 | each pending observation, in order, is stored under a UID generated from the register the earlier ones left |
| Tracker.ArucoTracker.AgeRegister | augmentation/aruco_tracker.py:119-125 | every UID not updated this frame has its count raised by one and is evicted once above the limit |
| Tracker.ArucoTracker.Update | augmentation/aruco_tracker.py:56-127 | one call takes the register and the returned updates to `Step` of the old register and the frame, and keeps the register well formed |
| TrackerSpec.Containing | augmentation/aruco_tracker.py:46-47 | keeps exactly the UIDs that contain the prefix as a substring |
| TrackerSpec.ContainingSorted | augmentation/aruco_tracker.py:46-47 | filtering an ascending list keeps it strictly ascending |
| TrackerSpec.UidParts | augmentation/aruco_tracker.py:50-54 | a UID splits at `#` into its class prefix and its nonce, which parses back to the number |
| TrackerSpec.UidPrefixInjective | augmentation/aruco_tracker.py:47-54 | different (dictionary, id) pairs give different class prefixes |
| TrackerSpec.NewUidDefined | augmentation/aruco_tracker.py:48-50 | on a well-formed register, the nonce of the last matching UID always parses, so generation never raises |
| TrackerSpec.Row | augmentation/aruco_tracker.py:87-92 | one observation's candidates refer to that observation and to listed UIDs only |
| TrackerSpec.Candidates | augmentation/aruco_tracker.py:86-92 | every candidate names an existing observation and a listed UID |
| TrackerSpec.RowSameClass | augmentation/aruco_tracker.py:89 | a candidate is formed only when the UID's part before `#` equals the class prefix exactly |
| TrackerSpec.CandidatesSameClass | augmentation/aruco_tracker.py:88-92 | every candidate pairs an observation with a UID of its own dictionary and id |
| TrackerSpec.InsertByDistance | augmentation/aruco_tracker.py:94 | one insertion step of the sort adds exactly the inserted candidate |
| TrackerSpec.SortByDistance | augmentation/aruco_tracker.py:94 | the sort is a permutation of the candidates |
| TrackerSpec.Walk | augmentation/aruco_tracker.py:100-111 | only candidates are committed |
| TrackerSpec.Pending | augmentation/aruco_tracker.py:96-113 | the pending observations are exactly the unmatched indices |
| TrackerSpec.ApplyMatches | augmentation/aruco_tracker.py:106-107 | committing matches changes no key of the register |
| TrackerSpec.ApplyMatchesWellFormed | augmentation/aruco_tracker.py:104-107 | storing same-class observations keeps every UID naming its entry's class and nonce |
| TrackerSpec.RegisterNew | augmentation/aruco_tracker.py:113-117 | registration returns one update per pending observation and keeps the register well formed |
| TrackerSpec.AgeAllKeeps | augmentation/aruco_tracker.py:119-125 | after ageing, no entry is above the limit and the register is well formed |
| TrackerSpec.StepMatching | augmentation/aruco_tracker.py:84-111 | in the third case, the matches of one call are the walk over the stably sorted candidates |
| TrackerSpec.StepKeeps | augmentation/aruco_tracker.py:56-127 | every call leaves a well-formed register with no entry above the limit |
| TrackerSpec.PendingAfterMatch | augmentation/aruco_tracker.py:109 | removing a matched observation from the pending list removes exactly its first occurrence |
| TrackerProperties.CandidatesOrdered | augmentation/aruco_tracker.py:86-92 | candidates come in loop order: by observation index, then by ascending UID |
| TrackerProperties.CandidatesDistance | augmentation/aruco_tracker.py:91 | each candidate carries the distance between the observation and the registered marker |
| TrackerProperties.SortByDistanceSorted | augmentation/aruco_tracker.py:94 | after the sort, distances are non-decreasing |
| TrackerProperties.SortByDistanceStable | augmentation/aruco_tracker.py:94 | the sort is stable: candidates of equal distance keep their relative order |
| TrackerProperties.WalkInjective | augmentation/aruco_tracker.py:104-110 | each observation and each UID is matched at most once in a call |
| TrackerProperties.WalkWithin | augmentation/aruco_tracker.py:104 | every committed pair is within `MAX_DISTANCE` |
| TrackerProperties.WalkMaximal | augmentation/aruco_tracker.py:100-111 | every in-range candidate is committed or blocked by a committed pair that shares its observation or UID |
| TrackerProperties.ClosestCommittedFirst | augmentation/aruco_tracker.py:94-104 | when the closest candidate is in range, it is the first pair committed |
| TrackerProperties.NewUidFirst | augmentation/aruco_tracker.py:52-54 | with no registered UID containing the class prefix, the nonce is 0 |
| TrackerProperties.NewUidNext | augmentation/aruco_tracker.py:48-54 | otherwise the nonce is one more than that of the lexicographically greatest containing UID |
| TrackerProperties.UidContainsClass | augmentation/aruco_tracker.py:47-54 | a generated UID contains its own class prefix |
| TrackerProperties.NewUidFresh | augmentation/aruco_tracker.py:46-54 | the generated UID is not registered yet, when every containing UID is of the class and has a one-digit nonce |
| TrackerProperties.ElevenLiveMarkersCollide | augmentation/aruco_tracker.py:46-54 | as written, with nonces 0 to 10 live the rule generates `#10` again, since `#9` sorts last, so a live entry is overwritten |
| TrackerProperties.ElevenLiveMarkersExist | augmentation/aruco_tracker.py:46-54 | a well-formed register with eleven live markers of one class exists, so the collision is reachable |
| TrackerCalls.StepEmptyFrame | augmentation/aruco_tracker.py:62-69 | with no observation, every count rises by one, entries above the limit are dropped, nothing else changes and nothing is returned |
| TrackerCalls.StepEmptyRegister | augmentation/aruco_tracker.py:73-80 | on an empty register, each observation is returned once in input order and stored with count 0; each UID is generated from the register the earlier ones left |
| TrackerCalls.StepMatchesAdmissible | augmentation/aruco_tracker.py:84-111 | committed pairs are same-class, in range and one-to-one, and every in-range candidate is committed or blocked |
| TrackerCalls.StepCoversInputs | augmentation/aruco_tracker.py:96-117 | every input observation is returned exactly once, as a match or as a new registration |
| TrackerCalls.StepEndState | augmentation/aruco_tracker.py:100-125 | matched entries end holding the new observation with count 0; new registrations end with count 1 and are evicted when the limit is below 1; the rest are aged |
| TrackerCalls.StoredKeys | augmentation/aruco_tracker.py:113-117 | storing updates adds exactly their UIDs, each with count 0, and leaves every other entry as it was |
| Strings.ParseIntOfIntToString | augmentation/aruco_tracker.py:50-54 | an integer rendered in decimal parses back to itself |
| Strings.SortedOf | augmentation/aruco_tracker.py:36-37 | the sorted key list is strictly ascending and holds exactly the keys |
| Strings.SortedUnique | augmentation/aruco_tracker.py:36-37 | two strictly ascending lists with the same members are equal, so the sorted key list is unique |
| Mesh.SumSq | augmentation/obj.py:114-116 | a sum of squares is never negative |
| Mesh.FurthestIsMax | augmentation/obj.py:107-119 | the furthest point raises ValueError iff some point has fewer coordinates than the axis needs; otherwise it is the maximum norm over all points, and 0 when there are none |
| Mesh.FurthestErrSticks | augmentation/obj.py:110-116 | once a point raises, the rest of the points do not change the outcome |
| Mesh.NormalisedShape | augmentation/obj.py:124-130 | normalisation keeps the number of faces and points, and the colours and normals of each face |
| Mesh.NormalisedWithinUnit | augmentation/obj.py:121-130 | a point no longer than the norm is, once divided, no longer than 1 |
| Mesh.NormaliseFacesWithinUnit | augmentation/obj.py:121-130 | after normalisation every point's XY or XYZ norm is at most 1, and face and point counts are kept |
| Mesh.NormaliseFacesValueError | augmentation/obj.py:113-123 | normalisation raises ValueError iff some point is too short for the axis |
| Mesh.NormaliseFacesZeroDivision | augmentation/obj.py:123-128 | normalisation raises ZeroDivisionError iff all points are at the origin and some point has a coordinate |
| Mesh.SumSqDivided | augmentation/obj.py:128 | dividing every coordinate by n divides the sum of squares by n squared |
| ObjText.PySlice | augmentation/obj.py:30-47 | a slice is clamped to the list and keeps the elements in order |
| ObjText.Floats | augmentation/obj.py:30-38 | the numbers of a line parse iff every word parses, and each number is its word's value |
| ObjText.Round | augmentation/obj.py:88 | rounding lands within one half of the value |
| ObjText.Trunc | augmentation/object.py:79 | `int()` truncates toward zero |
| ObjText.ClampIndexWithin | augmentation/obj.py:89-97 | a clamped coordinate lies in [0, bound) and an in-range coordinate is kept |
| ObjText.CurrentSquareTextureSamples | augmentation/obj.py:85-98 | on a square texture, the clamped sample always lies inside the image |
| ObjText.CurrentWideTextureRaises | augmentation/obj.py:88-98 | as written, the row is clamped by the width: on a 1x2 texture, uv (0, 0) reads row 1 and raises IndexError |
| ObjText.LegacyInRangeSamples | augmentation/object.py:76-80 | without clamping, the sample is inside the image, at the truncated position, when u is in [0, 1) and v in (0, 1] |
| ObjText.LegacyMissingTextureRaises | augmentation/obj.py:51-57 | without a texture, a textured token raises AttributeError in object.py and is skipped in obj.py |
| ObjText.PrefixesExclusive | augmentation/obj.py:24-40 | at most one branch of the line dispatch applies |
| ObjText.ReadLineIgnores | augmentation/obj.py:24-26 | comment lines and lines with no known prefix change nothing |
| ObjText.ReadLineGrows | augmentation/obj.py:28-67 | one line appends at most one entry, to the list its prefix names: at most 3 numbers for `v `, at most 2 for `vt ` and at most 2 for `vn `, as the slices allow |
| ObjText.ReadAllCounts | augmentation/obj.py:23-67 | the file gives one vertex per `v ` line, one texture coordinate per `vt ` line, one normal per `vn ` line and one face per `f ` line, each of the sliced width |
| ObjText.ReadAllErrSticks | augmentation/obj.py:23-67 | the first line that raises ends the reading |
| ObjText.ReadTokensLists | augmentation/obj.py:47-59 | a face has one point per token, one colour per textured token when colours are sampled, and one normal per token with 3 fields |
| ObjText.ReadTokenGrows | augmentation/obj.py:49-59 | one token adds its vertex, at its 1-based index, and then its colour and normal as present |
| ObjText.FaceKeys | augmentation/obj.py:61-65 | a face gets `colors` iff some colour was sampled, and `normals` iff some token has 3 fields |
| ObjText.CountPrefix | augmentation/obj.py:23-40 | the number of lines with a prefix is at most the number of lines |
| ObjParser.Obj.Empty | augmentation/obj.py:14-21 | a new object has no vertices, texture coordinates, normals or faces |
| ObjParser.Obj.ParseLines | augmentation/obj.py:23-67 | the loop over lines leaves the lists that `ReadAll` gives, or the error of the first line that raises |
| ObjParser.Obj.ParseLine | augmentation/obj.py:24-67 | one line of the dispatch updates the lists as `ReadLine` says |
| ObjParser.Obj.ParseFace | augmentation/obj.py:44-65 | the token loop of an `f ` line builds the face that `ReadTokens` gives, or the first error |
| ObjParser.Obj.FurthestPoint | augmentation/obj.py:107-119 | the running maximum over all face points is `Furthest` of the points |
| ObjParser.Obj.Normalise | augmentation/obj.py:121-130 | faces become `NormaliseFaces` of the old ones or stay unchanged on error; the other lists are not touched |
| ObjParser.Quotient | augmentation/obj.py:128 | dividing a point raises ZeroDivisionError iff the norm is 0 and the point has a coordinate |
| ObjParser.LoadObj | augmentation/obj.py:13-70 | the object holds the lists read from the file, normalised on the given axis (XY by default) when `normalise` is set, or the first error |
| ObjParser.LoadObject | augmentation/object.py:7-61 | the object holds the lists read with truncated texture sampling and no normalisation, or the first error |
| ObjParser.LoadedNormalised | augmentation/obj.py:23-70 | a normalised load keeps one face per `f ` line and leaves every point within the unit ball |
| ObjParser.FurthestFaceErr | augmentation/obj.py:110-116 | a point too short for the axis makes the furthest-point search raise ValueError |
| ObjParser.NormaliseZeroDivision | augmentation/obj.py:123-128 | a zero norm with any coordinate left raises ZeroDivisionError |
| Ar.MaxEdge | augmentation/ar.py:160-169 | the maximum edge is at least every edge and is one of them |
| Ar.AutoscaleFactor | augmentation/ar.py:160-169 | the factor is the largest component difference between a corner and its cyclic predecessor, over 2000: never negative, and ValueError iff there are no corners |
| Ar.AutoscaleOfSquare | augmentation/ar.py:160-169 | an axis-aligned square of side s gets factor s/2000 |
| Ar.AverageColor | augmentation/ar.py:53-59 | the mean colour raises ZeroDivisionError iff there are no vertex colours |
| Ar.AverageColorWithin | augmentation/ar.py:55-59 | the truncated per-channel mean stays within the bounds of the vertex colours |
| Ar.AverageColorOfUniform | augmentation/ar.py:55-59 | vertex colours that are all equal average to that colour |
| Ar.FaceColorFallbacks | augmentation/ar.py:48-61 | with materials, a face's colour is its material's diffuse colour, or the default (158, 5, 81) on any KeyError; without materials or colours it is the default; only an empty colour list raises |
| Ar.ComposeIntrinsic | augmentation/ar.py:83-102 | the matrix has 3 rows of 4 entries: the Rodrigues rotation row, then the translation; IndexError iff a vector is shorter than 3 |
| Ar.ProjectAll | augmentation/ar.py:74-81 | each point is projected as (x, y, z, 1); ValueError unless every point has 3 coordinates |
| Ar.Resize | augmentation/ar.py:113-118 | `resize_object`: every coordinate of every point is multiplied by the scale, and the number of points is kept |
| Ar.CollectFaces | augmentation/ar.py:38-62 | one placed point list and one colour per face, in face order, or the error of the first face that raises |
| Ar.EmptyFaceRaises | augmentation/ar.py:40-45 | a face without points raises ValueError when the marker centre is added, before its colour is read |
| Ar.ArgSort | augmentation/ar.py:144 | the order is a permutation of the indices under which the keys are non-decreasing |
| Ar.InsertSorted | augmentation/ar.py:144 | inserting an index at its place keeps the order a permutation that sorts the keys |
| Ar.OrderFacesAsWrittenRaises | augmentation/ar.py:133-139 | as written, `order_faces` raises TypeError on every non-empty face list, and the list it divides holds 3 + 3n numbers, not a point |
| Ar.OrderFaces | augmentation/ar.py:125-147 | faces and colours are reordered by one and the same permutation, nearest face first |
| Ar.RemoveZ | augmentation/ar.py:149-158 | every point keeps exactly its first two coordinates, in face and point order |
| Ar.AugmentAruco | augmentation/ar.py:18-72 | one filled polygon per face, nearest first, each the face's placed points without z in the face's colour; IndexError exactly when the rotation is shorter than 3; otherwise any error is that of the first face that raises, all earlier faces passing |
| Rendering.Renderer.Empty | augmentation/renderer.py:15-19 | a renderer starts with the given map and an empty cache |
| Rendering.Renderer.LoadObj | augmentation/renderer.py:23-45 | afterwards `objs[model][texture]` is the returned asset; a hit constructs nothing and changes nothing; a miss constructs once and adds alongside the other entries |
| Rendering.Renderer.PreloadObjs | augmentation/renderer.py:47-53 | preloading succeeds iff every map entry names a model and a texture (else KeyError), after which every named pair is cached; nothing is removed, and every pair added is one the map names |
| Rendering.Renderer.PreloadDictionary | augmentation/renderer.py:52-53 | one dictionary's entries are loaded, or KeyError iff one of them lacks `model` or `texture`; only named pairs are added and nothing is removed |
| Rendering.Renderer.GetArucoObj | augmentation/renderer.py:59-74 | keyed by `str(dictionary)` and `str(id)`, it returns the cached asset with nothing changed, or on a miss builds exactly one asset and adds exactly its pair; the default asset with the cache unchanged when any key is missing |
| Rendering.Renderer.Render | augmentation/renderer.py:76-82 | one augmentation per marker, in list order, each with the marker's asset; the first augmentation that raises ends the call with its error; the cache gains exactly the pairs of the markers looked up |
| Rendering.MarkerPairsHas | augmentation/renderer.py:78-80 | every looked-up marker that the map names files for has its pair among those `render` caches |
| Rendering.NewRenderer | augmentation/renderer.py:15-21 | with `preload` the construction fails iff some entry is incomplete, and otherwise exactly the named pairs are cached; without it the cache is empty |
| MainHelpers.Window | main.py:55-57 | the window is a suffix of the rotations: for a positive `length`, the last `length` of them when there are more; `length` 0 keeps all of them; a negative `length` drops the first `-length` |
| MainHelpers.WindowKeepsLatest | main.py:54-62 | for length at least 1, the window is the last min(n+1, length) rotations and ends with the latest one |
| MainHelpers.MovingAverageRotation | main.py:46-62 | the latest rotation is appended to the caller's list; the result is the per-component mean of the window and the window, or ZeroDivisionError iff the window is empty |
| MainHelpers.MeanOfUniform | main.py:59-61 | the mean of equal rotations is that rotation |
| MainHelpers.MeanWithin | main.py:59-61 | each component of the mean lies within the bounds of that component over the window |
| MainHelpers.FurthestPoint | main.py:22-33 | the maximum norm over all face points, XYZ by default, 0 with no points |
| MainHelpers.NormalizeObjPoints | main.py:35-44 | every face-point coordinate of the same object is divided by its XYZ furthest-point norm, with counts kept, the vertex, texture-coordinate and normal lists unchanged, and the object is returned |

## Left out

- Reading files and JSON (`open`, `json.load`, `cv2.imread`) is not modelled. The OBJ text comes in as a `seq<string>` of lines, the texture as `Option<Image>`, and the marker map as a nested `map`.
- `float(...)` is a parameter `FloatParser`. Floating-point numbers are modelled as reals, so there is no rounding, NaN or infinity.
- The square root of `math.dist` is a parameter `root` constrained by `IsSqrt`. The tracker's distance `round(dist(center, center), 3)` is a parameter `dist`.
- `cv2.Rodrigues`, the fixed camera matrix and the `np.dot` products of `compose_projection_matrix` and `project_3d_point` are parameters. Only the shapes and the index errors around them are modelled.
- Ar.ProjectAll: the unit first axis of the `(1, 3)` array that `project_3d_point` returns is not modelled; projected points are 3-vectors.
- `cv2.fillConvexPoly` is not modelled. `Ar.AugmentAruco` returns the list of filled polygons, in drawing order, instead of painting an image, and does not model the `np.int32` conversion.
- Ar.OrderFaces: as written, `order_faces` raises TypeError for any non-empty face list (see Findings), so `augment_aruco` raises for every OBJ with a face that gets that far. The model follows the ordering its docstring promises (ar.py:131), nearest face first, with the per-face distance as an abstract key. The method also requires as many colours as faces, which `augment_aruco` always supplies.
- Ar.AugmentAruco: faces with different numbers of points make `np.array` at ar.py:147 and ar.py:158 ragged, which NumPy 1.24 and later reject with ValueError. The model keeps a list of point lists and draws each face.
- Ar.ArgSort: `np.argsort` is not stable. The model returns one valid sorting permutation (insertion order for ties), and the contracts speak only of sortedness and permutation.
- Ar.AugmentAruco: requires exactly four corners, because `Aruco.center()` is not part of this model. The diagonal-midpoint formula of the detector stands in for it.
- Rendering.Renderer.PreloadObjs: the order in which `dict` iteration visits the map is not modelled, so the contract does not say which entry raises first when several are incomplete.
- Rendering.Renderer.Render: the outcome of `ar.augment_aruco` is the parameter `augment` (None when it returns), because the OBJ is abstract here. `Ar.AugmentAruco` models that call on an OBJ's faces. The image it draws on is not modelled.
- Rendering: the loader is a pure function that never raises. A failing `OBJ(...)` inside `load_OBJ` is not modelled. Neither is the case where `objs[model]` exists but is not a dict.
- ObjParser: axis strings other than "XY" and "XYZ" are not modelled (Python raises `UnboundLocalError` there). `Mesh.Axis` has only these two values.
- Strings.ParseInt: accepts an optional `+` or `-` followed by ASCII decimal digits. Python's `int()` also accepts surrounding whitespace, `_` separators between digits and non-ASCII decimal digits, which the model rejects.
- Tracker: observations are values and matching refers to them by index. The source's `aruco in pending_arucos` and `remove(aruco)` compare by object identity, which indices model as long as no object appears twice in the input list.
- The camera back-ends, the configuration file, the detector (apart from its centre formula), the frame loop of main.py with its timing and text overlay, and `write_ref_json`/`read_ref_json` are not modelled: they are I/O.
- `ArucoTracker.register()` returns the register object itself; the model reads the `register` field directly.

## Findings

| source | as written | input that shows it | evidently intended | confidence | as-written member | corrected member |
|---|---|---|---|---|---|---|
| augmentation/ar.py:136-139 | the centroid starts as the list `[0, 0, 0]`, `+=` extends that list with each point's coordinates, and the list is then divided by the point count, which raises TypeError | any OBJ with at least one face, such as a single triangle | the centroid as the mean of the face's points, with faces ordered by its distance to the reference point, nearest first | not executed | Ar.OrderFacesAsWrittenRaises | Ar.OrderFaces |
