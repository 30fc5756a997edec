/**
 * The OBJ render controller of augmentation/renderer.py: a map from marker
 * (dictionary, id) to model and texture file names, read once, and a cache
 * `objs[model][texture]` of loaded OBJs that lookups fill on demand.
 *
 * Loading an OBJ is the parameter `loader` (an OBJ is whatever it returns);
 * `constructed` records every call of it, so that the model can say when no
 * OBJ is built. `DEFAULT_OBJ` is the parameter `defaultObj`. Reading the
 * JSON map is left to the caller, which hands over the parsed map.
 */
module Rendering {
  import opened Wrappers
  import opened Strings
  import opened Mesh
  import opened Aruco

  /** The parsed OBJ map: dictionary, then id, then the entry's fields ("model", "texture", ...). */
  type ObjMap = map<string, map<string, map<string, string>>>

  /** The (model, texture) a map entry names, when it has both fields. */
  function EntryFiles(entry: map<string, string>): Option<(string, string)> {
    if "model" in entry && "texture" in entry then Some((entry["model"], entry["texture"])) else None
  }

  /**
   * The (model, texture) the map gives a marker: the entry under
   * `str(dictionary)` and `str(id)`; None for every KeyError on the way.
   */
  function MarkerFiles(objMap: ObjMap, marker: Observation): Option<(string, string)> {
    var d, i := IntToString(marker.dictionary), IntToString(marker.id);
    if d in objMap && i in objMap[d] then EntryFiles(objMap[d][i]) else None
  }

  /** Every entry of the map names a model and a texture, so preloading cannot raise KeyError. */
  predicate Complete(objMap: ObjMap) {
    forall d, i :: d in objMap && i in objMap[d] ==> EntryFiles(objMap[d][i]).Some?
  }

  /** The (model, texture) pairs that the map's entries name. */
  function NamedPairs(objMap: ObjMap): set<(string, string)> {
    set d, i | d in objMap && i in objMap[d] && EntryFiles(objMap[d][i]).Some? :: EntryFiles(objMap[d][i]).value
  }

  /** The (model, texture) pairs that the map gives the markers of `markers`. */
  function MarkerPairs(objMap: ObjMap, markers: seq<Observation>): set<(string, string)> {
    if markers == [] then {}
    else
      var last := MarkerFiles(objMap, markers[|markers| - 1]);
      MarkerPairs(objMap, markers[..|markers| - 1]) + (if last.Some? then {last.value} else {})
  }

  /** Every marker the map names files for contributes its pair. */
  lemma {:induction false} MarkerPairsHas(objMap: ObjMap, markers: seq<Observation>, k: nat)
    requires k < |markers| && MarkerFiles(objMap, markers[k]).Some?
    ensures MarkerFiles(objMap, markers[k]).value in MarkerPairs(objMap, markers)
    decreases |markers|
  {
    if k < |markers| - 1 {
      MarkerPairsHas(objMap, markers[..|markers| - 1], k);
    }
  }

  /** Caching one more named pair keeps the cache within the old pairs and the named ones. */
  lemma NamedPairsGrow(start: set<(string, string)>, before: set<(string, string)>, after: set<(string, string)>,
                       named: set<(string, string)>, pair: (string, string))
    requires before <= start + named && pair in named
    requires after == before + {pair}
    ensures after <= start + named
  {
  }

  /** One more marker looked up adds its pair to the cached pairs. */
  lemma MarkerPairsGrow(start: set<(string, string)>, before: set<(string, string)>, after: set<(string, string)>,
                        objMap: ObjMap, markers: seq<Observation>, k: nat)
    requires k < |markers|
    requires before == start + MarkerPairs(objMap, markers[..k])
    requires after == before + MarkerPairs(objMap, [markers[k]])
    ensures after == start + MarkerPairs(objMap, markers[..k + 1])
  {
    MarkerPairsStep(objMap, markers, k);
  }

  /** The pairs of one marker more are those of the prefix and those of the marker. */
  lemma MarkerPairsStep(objMap: ObjMap, markers: seq<Observation>, k: nat)
    requires k < |markers|
    ensures MarkerPairs(objMap, markers[..k + 1]) == MarkerPairs(objMap, markers[..k]) + MarkerPairs(objMap, [markers[k]])
  {
    assert markers[..k + 1][..k] == markers[..k];
    assert [markers[k]][..0] == [];
  }

  /** Every OBJ of `older` is still in `newer`, under the same model and texture. */
  predicate Extends<Asset(==)>(older: map<string, map<string, Asset>>, newer: map<string, map<string, Asset>>) {
    forall m, t :: m in older && t in older[m] ==> m in newer && t in newer[m] && newer[m][t] == older[m][t]
  }

  /** A cache that grew twice grew once. */
  lemma ExtendsTransitive<Asset>(a: map<string, map<string, Asset>>, b: map<string, map<string, Asset>>, c: map<string, map<string, Asset>>)
    requires Extends(a, b) && Extends(b, c)
    ensures Extends(a, c)
  {
  }

  class Renderer<Asset(==)> {
    /** `_obj_map` */
    const objMap: ObjMap
    const loader: (string, string) -> Asset
    const defaultObj: Asset
    /** The cache `objs[model][texture]`. */
    var objs: map<string, map<string, Asset>>
    /** The (model, texture) of every OBJ built so far, in order. */
    ghost var constructed: seq<(string, string)>

    /** Every cached OBJ is the one the loader builds for its model and texture. */
    ghost predicate Valid()
      reads this
    {
      forall m, t :: m in objs && t in objs[m] ==> objs[m][t] == loader(m, t)
    }

    predicate Cached(model: string, texture: string)
      reads this
    {
      model in objs && texture in objs[model]
    }

    /** The (model, texture) pairs the cache holds an OBJ for. */
    function CachedPairs(): set<(string, string)>
      reads this
    {
      set m, t | m in objs && t in objs[m] :: (m, t)
    }

    /** The OBJ `get_aruco_OBJ` hands out for a marker. */
    function AssetFor(marker: Observation): Asset {
      match MarkerFiles(objMap, marker)
      case None => defaultObj
      case Some((model, texture)) => loader(model, texture)
    }

    /** `Renderer(obj_map_path, preload=False)`: the map is kept, the cache is empty. */
    constructor Empty(objMap: ObjMap, loader: (string, string) -> Asset, defaultObj: Asset)
      ensures this.objMap == objMap && this.loader == loader && this.defaultObj == defaultObj
      ensures objs == map[] && constructed == [] && Valid()
    {
      this.objMap := objMap;
      this.loader := loader;
      this.defaultObj := defaultObj;
      objs := map[];
      constructed := [];
    }

    /**
     * `load_OBJ(model, texture)`: the cached OBJ when there is one, with
     * nothing built and the cache unchanged; otherwise a new OBJ, added
     * beside the others: under its model's existing textures, or as a new
     * model.
     */
    method LoadObj(model: string, texture: string) returns (obj: Asset)
      requires Valid()
      modifies this
      ensures Valid() && Cached(model, texture) && objs[model][texture] == obj && obj == loader(model, texture)
      ensures Extends(old(objs), objs)
      ensures old(Cached(model, texture)) ==> objs == old(objs) && constructed == old(constructed)
      ensures !old(Cached(model, texture)) ==>
        constructed == old(constructed) + [(model, texture)] &&
        objs == old(objs)[model := (if model in old(objs) then old(objs)[model] else map[])[texture := obj]]
      ensures CachedPairs() == old(CachedPairs()) + {(model, texture)}
    {
      if model in objs {
        if texture in objs[model] {
          obj := objs[model][texture];
        } else {
          obj := loader(model, texture);
          constructed := constructed + [(model, texture)];
          objs := objs[model := objs[model][texture := obj]];
        }
      } else {
        obj := loader(model, texture);
        constructed := constructed + [(model, texture)];
        objs := objs[model := map[texture := obj]];
      }
    }

    /** The entry under dictionary d and id i names a model and a texture, and their OBJ is cached. */
    predicate EntryCached(d: string, i: string)
      requires d in objMap && i in objMap[d]
      reads this
    {
      EntryFiles(objMap[d][i]).Some? && Cached(EntryFiles(objMap[d][i]).value.0, EntryFiles(objMap[d][i]).value.1)
    }

    /**
     * `_preload_OBJs`: loads the OBJ of every entry of the map. An entry
     * without `model` or `texture` raises KeyError; the dictionaries and ids
     * are visited in an order the model leaves open. Only OBJs the map names
     * are built and cached.
     */
    method PreloadObjs() returns (err: Option<PyError>)
      requires Valid()
      modifies this
      ensures Valid() && Extends(old(objs), objs)
      ensures err.None? <==> Complete(objMap)
      ensures err.Some? ==> err.value == KeyError
      ensures err.None? ==> forall d, i :: d in objMap && i in objMap[d] ==> EntryCached(d, i)
      ensures CachedPairs() <= old(CachedPairs()) + NamedPairs(objMap)
    {
      var dictionaries := objMap.Keys;
      while dictionaries != {}
        invariant dictionaries <= objMap.Keys
        invariant Valid() && Extends(old(objs), objs)
        invariant CachedPairs() <= old(CachedPairs()) + NamedPairs(objMap)
        invariant forall d, i :: d in objMap && d !in dictionaries && i in objMap[d] ==> EntryCached(d, i)
        decreases |dictionaries|
      {
        var d :| d in dictionaries;
        err := PreloadDictionary(d);
        if err.Some? {
          return;
        }
        dictionaries := dictionaries - {d};
      }
      err := None;
    }

    /** `for id in self._obj_map[dictionary]`: the inner loop of `_preload_OBJs`, over one dictionary. */
    method PreloadDictionary(d: string) returns (err: Option<PyError>)
      requires Valid() && d in objMap
      modifies this
      ensures Valid() && Extends(old(objs), objs)
      ensures err.None? <==> forall i :: i in objMap[d] ==> EntryFiles(objMap[d][i]).Some?
      ensures err.Some? ==> err.value == KeyError
      ensures err.None? ==> forall i :: i in objMap[d] ==> EntryCached(d, i)
      ensures CachedPairs() <= old(CachedPairs()) + NamedPairs(objMap)
    {
      var ids := objMap[d].Keys;
      while ids != {}
        invariant ids <= objMap[d].Keys
        invariant Valid() && Extends(old(objs), objs)
        invariant CachedPairs() <= old(CachedPairs()) + NamedPairs(objMap)
        invariant forall i :: i in objMap[d] && i !in ids ==> EntryCached(d, i)
        decreases |ids|
      {
        var i :| i in ids;
        var files := EntryFiles(objMap[d][i]);
        if files.None? {
          return Some(KeyError);
        }
        assert files.value in NamedPairs(objMap);
        ghost var objsBefore, pairsBefore := objs, CachedPairs();
        var _ := LoadObj(files.value.0, files.value.1);
        ExtendsTransitive(old(objs), objsBefore, objs);
        NamedPairsGrow(old(CachedPairs()), pairsBefore, CachedPairs(), NamedPairs(objMap), files.value);
        ids := ids - {i};
      }
      err := None;
    }

    /**
     * `get_aruco_OBJ(aruco)`: the OBJ the map names for the marker, from the
     * cache or freshly loaded into it; DEFAULT_OBJ, with the cache
     * unchanged, when the map has no such entry or the entry lacks `model`
     * or `texture`.
     */
    method GetArucoObj(marker: Observation) returns (obj: Asset)
      requires Valid()
      modifies this
      ensures Valid() && Extends(old(objs), objs)
      ensures obj == AssetFor(marker)
      ensures MarkerFiles(objMap, marker).None? ==> objs == old(objs) && constructed == old(constructed)
      ensures MarkerFiles(objMap, marker).Some? ==>
        var (model, texture) := MarkerFiles(objMap, marker).value;
        Cached(model, texture) && objs[model][texture] == obj &&
        (old(Cached(model, texture)) ==> objs == old(objs) && constructed == old(constructed)) &&
        (!old(Cached(model, texture)) ==>
          constructed == old(constructed) + [(model, texture)] &&
          objs == old(objs)[model := (if model in old(objs) then old(objs)[model] else map[])[texture := obj]])
      ensures CachedPairs() == old(CachedPairs()) + MarkerPairs(objMap, [marker])
    {
      var files := MarkerFiles(objMap, marker);
      if files.None? {
        return defaultObj;
      }
      var (model, texture) := files.value;
      if model in objs && texture in objs[model] {
        obj := objs[model][texture];
      } else {
        obj := LoadObj(model, texture);
      }
    }

    /**
     * `render(image, arucos)`: one lookup and one augmentation per marker,
     * in list order; the first augmentation that raises ends the call.
     * `augment` is the outcome of `ar.augment_aruco` for a marker and its
     * OBJ (None when it returns). The result lists the (marker, OBJ) pairs
     * handed to `augment_aruco`, in call order, the raising one last.
     */
    method Render(markers: seq<Observation>, augment: (Observation, Asset) -> Option<PyError>)
      returns (calls: seq<(Observation, Asset)>, err: Option<PyError>)
      requires Valid()
      modifies this
      ensures Valid() && Extends(old(objs), objs)
      ensures |calls| <= |markers|
      ensures forall k :: 0 <= k < |calls| ==> calls[k] == (markers[k], AssetFor(markers[k]))
      ensures err.None? <==> |calls| == |markers| && forall k :: 0 <= k < |markers| ==> augment(markers[k], AssetFor(markers[k])).None?
      ensures err.Some? ==> (|calls| > 0 && augment(markers[|calls| - 1], AssetFor(markers[|calls| - 1])) == err &&
        forall k :: 0 <= k < |calls| - 1 ==> augment(markers[k], AssetFor(markers[k])).None?)
      ensures CachedPairs() == old(CachedPairs()) + MarkerPairs(objMap, markers[..|calls|])
    {
      calls := [];
      for k := 0 to |markers|
        invariant Valid() && Extends(old(objs), objs)
        invariant |calls| == k
        invariant forall j :: 0 <= j < k ==> calls[j] == (markers[j], AssetFor(markers[j]))
        invariant forall j :: 0 <= j < k ==> augment(markers[j], AssetFor(markers[j])).None?
        invariant CachedPairs() == old(CachedPairs()) + MarkerPairs(objMap, markers[..k])
      {
        ghost var objsBefore, pairsBefore := objs, CachedPairs();
        var obj := GetArucoObj(markers[k]);
        ExtendsTransitive(old(objs), objsBefore, objs);
        MarkerPairsGrow(old(CachedPairs()), pairsBefore, CachedPairs(), objMap, markers, k);
        calls := calls + [(markers[k], obj)];
        var outcome := augment(markers[k], obj);
        if outcome.Some? {
          return calls, outcome;
        }
      }
      err := None;
    }
  }

  /**
   * `Renderer(obj_map_path, preload)`: keeps the map and, when `preload` is
   * set (the default), loads every OBJ it names; a map entry without
   * `model` or `texture` then raises KeyError.
   */
  method NewRenderer<Asset(==)>(objMap: ObjMap, loader: (string, string) -> Asset, defaultObj: Asset, preload: bool := true)
    returns (r: Result<Renderer<Asset>, PyError>)
    ensures preload && !Complete(objMap) <==> r.Err?
    ensures r.Ok? ==> (fresh(r.value) && r.value.Valid() && r.value.objMap == objMap &&
      r.value.loader == loader && r.value.defaultObj == defaultObj &&
      (!preload ==> r.value.objs == map[]) &&
      (preload ==> forall d, i :: d in objMap && i in objMap[d] ==> r.value.EntryCached(d, i)) &&
      (preload ==> r.value.CachedPairs() <= NamedPairs(objMap)))
  {
    var renderer := new Renderer.Empty(objMap, loader, defaultObj);
    if preload {
      var err := renderer.PreloadObjs();
      if err.Some? {
        return Err(err.value);
      }
    }
    r := Ok(renderer);
  }
}
