/**
 * The finder's cache scopes. An anchor component (`LocalComponentCache`, or
 * its subclass `SceneComponentCache`) owns one dictionary; the static
 * `Finder` keeps three registries that say which anchor serves which search
 * root and which scene, resolves or creates anchors on demand, and owns the
 * one shared dictionary of the static scope.
 */
module Matagi {
  import opened Wrappers
  import opened Host
  import opened Text
  import opened FinderUtil
  import opened CacheTypes

  /** The class of an anchor component: the base class or the scene subclass. */
  datatype AnchorKind = LocalAnchor | SceneAnchor

  /** The host, and the anchor component attached to each GameObject (at most one: the class disallows a second). */
  datatype World = World(host: Host, caches: map<NodeId, LocalComponentCache>)

  ghost predicate WellFormedWorld(w: World) {
    && WellFormed(w.host)
    && forall n | n in w.caches :: n in w.host.objects && w.caches[n].gameObject == n
  }

  /** `root.GetComponent<SceneComponentCache>() != null`. */
  predicate HasSceneCache(w: World, n: NodeId) {
    n in w.caches && w.caches[n].kind == SceneAnchor
  }

  /** `scene.GetRootGameObjects()`. */
  function SceneRoots(h: Host, scene: int): seq<NodeId> {
    if scene in h.sceneRoots then h.sceneRoots[scene] else []
  }

  /** The first root, in order, that carries a scene anchor, and that anchor. */
  function FirstSceneCache(w: World, roots: seq<NodeId>): (c: Option<LocalComponentCache>)
    ensures c.Some? ==> c.value.kind == SceneAnchor
    ensures c.Some? ==> exists i :: 0 <= i < |roots| && HasSceneCache(w, roots[i]) && w.caches[roots[i]] == c.value &&
                          forall j :: 0 <= j < i ==> !HasSceneCache(w, roots[j])
    ensures c.None? ==> forall i :: 0 <= i < |roots| ==> !HasSceneCache(w, roots[i])
    decreases |roots|
  {
    if roots == [] then None
    else if HasSceneCache(w, roots[0]) then Some(w.caches[roots[0]])
    else
      var c := FirstSceneCache(w, roots[1..]);
      assert forall i :: 1 <= i < |roots| ==> roots[i] == roots[1..][i - 1];
      c
  }

  /** Appending a root that carries a scene anchor to roots that carry none makes that anchor the first found. */
  lemma {:induction false} FirstSceneCacheAppended(w: World, w': World, roots: seq<NodeId>, id: NodeId, c: LocalComponentCache)
    requires w'.caches == w.caches[id := c] && c.kind == SceneAnchor
    requires FirstSceneCache(w, roots).None?
    ensures FirstSceneCache(w', roots + [id]) == Some(c)
    decreases |roots|
  {
    if roots == [] {
      assert roots + [id] == [id];
      assert HasSceneCache(w', id);
    } else if roots[0] == id {
      assert (roots + [id])[0] == id;
      assert HasSceneCache(w', id);
    } else {
      assert !HasSceneCache(w, roots[0]);
      assert !HasSceneCache(w', (roots + [id])[0]);
      assert (roots + [id])[1..] == roots[1..] + [id];
      FirstSceneCacheAppended(w, w', roots[1..], id, c);
    }
  }

  /**
   * A scene anchor created for a scene that had none is found on that scene's roots
   * by the next resolution in the world its creation leaves, whatever the registries hold.
   */
  lemma SceneAnchorFoundAfterCreate(w: World, scene: int, c: LocalComponentCache)
    requires FirstSceneCache(w, SceneRoots(w.host, scene)).None?
    requires c.kind == SceneAnchor
    ensures var w' := World(AddRootObject(w.host, "[SceneComponentCache]", scene), w.caches[w.host.nextInstanceId := c]);
            FirstSceneCache(w', SceneRoots(w'.host, scene)) == Some(c)
  {
    var w' := World(AddRootObject(w.host, "[SceneComponentCache]", scene), w.caches[w.host.nextInstanceId := c]);
    assert SceneRoots(w'.host, scene) == SceneRoots(w.host, scene) + [w.host.nextInstanceId];
    FirstSceneCacheAppended(w, w', SceneRoots(w.host, scene), w.host.nextInstanceId, c);
  }

  /** The dictionaries the given anchors own. */
  ghost function Dicts(anchors: set<LocalComponentCache>): set<CacheDictionary> {
    set a | a in anchors :: a.cacheDict
  }

  /** Filing a value under a key adds at most that value to a map's values. */
  lemma ValuesUpdated<K, V>(m: map<K, V>, k: K, v: V)
    ensures m[k := v].Values <= m.Values + {v}
  {
    forall x | x in m[k := v].Values
      ensures x in m.Values + {v}
    {
      var j :| j in m[k := v] && m[k := v][j] == x;
      if j != k {
        assert m[j] == x;
      }
    }
  }

  /**
   * The editor snapshot: the entries grouped by the root id their key starts with.
   * None when some key does not start with an integer (`int.Parse` throws).
   */
  function GroupByRoot(entries: map<string, CompId>): (groups: Option<map<int, map<string, CompId>>>)
    ensures groups.None? <==> exists k | k in entries :: KeyRootId(k).None?
    ensures groups.Some? ==> forall k | k in entries :: var id := KeyRootId(k).value;
              id in groups.value && k in groups.value[id] && groups.value[id][k] == entries[k]
    ensures groups.Some? ==> forall id, k | id in groups.value && k in groups.value[id] ::
              k in entries && KeyRootId(k) == Some(id)
    ensures groups.Some? ==> forall id | id in groups.value :: groups.value[id] != map[]
  {
    if exists k | k in entries :: KeyRootId(k).None? then None
    else
      var ids := set k | k in entries :: KeyRootId(k).value;
      var groups := map id | id in ids :: map k | k in entries && KeyRootId(k) == Some(id) :: entries[k];
      assert forall id | id in groups :: groups[id] != map[] by {
        forall id | id in groups ensures groups[id] != map[] {
          var k :| k in entries && KeyRootId(k).value == id;
          assert k in groups[id];
        }
      }
      Some(groups)
  }

  /** Every key a lookup writes starts with an integer, so a dictionary filled by lookups always yields a snapshot. */
  lemma GroupByRootOfLookups(h: Host, findRoot: NodeId, path: Option<string>, typeName: TypeName,
                             includeInactive: bool, entries: map<string, CompId>)
    requires WellFormed(h) && findRoot in h.objects
    requires GroupByRoot(entries).Some?
    ensures GroupByRoot(Lookup(h, findRoot, path, typeName, includeInactive, entries).entries).Some?
  {
    var o := Lookup(h, findRoot, path, typeName, includeInactive, entries);
    var key := LookupKey(h, findRoot, path, typeName);
    KeyRootIdOfGetKey(findRoot, EffectivePath(h, findRoot, path), typeName);
    LookupUpdatesOnlyItsKey(h, findRoot, path, typeName, includeInactive, entries);
    forall k | k in o.entries ensures KeyRootId(k).Some? {
      if k != key {
        assert k in entries;
      }
    }
  }

  /** A `LocalComponentCache` (or, with `kind == SceneAnchor`, a `SceneComponentCache`) on one GameObject. */
  class LocalComponentCache {
    const gameObject: NodeId
    const kind: AnchorKind
    const cacheDict: CacheDictionary
    /** Editor only: set by every lookup and by `OnDestroy`, cleared when the snapshot is rebuilt. */
    var updateCacheDict: bool
    /** Editor only: the last snapshot of the entries, grouped by root id. */
    var visualizeCacheDictionary: map<int, map<string, CompId>>

    /** `AddComponent<LocalComponentCache>()` (or `<SceneComponentCache>`) on `gameObject`. */
    constructor (gameObject: NodeId, kind: AnchorKind)
      ensures this.gameObject == gameObject && this.kind == kind
      ensures fresh(cacheDict) && cacheDict.entries == map[]
      ensures !updateCacheDict && visualizeCacheDictionary == map[]
    {
      this.gameObject := gameObject;
      this.kind := kind;
      cacheDict := new CacheDictionary();
      updateCacheDict := false;
      visualizeCacheDictionary := map[];
    }

    /** The lookup over this anchor's own dictionary; marks the snapshot stale. */
    method GetComponent(h: Host, findRoot: NodeId, path: Option<string>, typeName: TypeName,
                        includeInactive: bool) returns (r: Option<CompId>)
      requires WellFormed(h) && findRoot in h.objects
      modifies this, cacheDict
      ensures Outcome(r, cacheDict.entries) == Lookup(h, findRoot, path, typeName, includeInactive, old(cacheDict.entries))
      ensures updateCacheDict && visualizeCacheDictionary == old(visualizeCacheDictionary)
    {
      updateCacheDict := true;
      r := FinderUtil.GetComponent(h, findRoot, path, typeName, includeInactive, cacheDict);
    }

    /**
     * The snapshot step of the editor's gizmo pass: when the flag is set, regroup the
     * entries and clear the flag. A key that does not parse throws, leaving both as they were.
     */
    method RefreshVisualization()
      modifies this
      ensures var groups := GroupByRoot(cacheDict.entries);
              if old(updateCacheDict) && groups.Some? then
                visualizeCacheDictionary == groups.value && !updateCacheDict
              else
                visualizeCacheDictionary == old(visualizeCacheDictionary) && updateCacheDict == old(updateCacheDict)
      ensures cacheDict.entries == old(cacheDict.entries)
    {
      if updateCacheDict {
        var groups := GroupByRoot(cacheDict.entries);
        if groups.Some? {
          visualizeCacheDictionary := groups.value;
          updateCacheDict := false;
        }
      }
    }

    /**
     * Destruction: empty the dictionary, mark the snapshot stale, then deregister
     * (`RemoveComponentCache`): by GameObject id for a local anchor, by scene handle
     * for a scene anchor.
     */
    method OnDestroy(finder: Finder, h: Host)
      requires gameObject in h.objects
      modifies this, cacheDict, finder
      ensures cacheDict.entries == map[] && updateCacheDict
      ensures visualizeCacheDictionary == old(visualizeCacheDictionary)
      ensures kind == LocalAnchor ==> finder.LocalCacheRemoved(gameObject)
      ensures kind == SceneAnchor ==> finder.SceneCacheRemoved(h.objects[gameObject].scene)
    {
      updateCacheDict := true;
      cacheDict.entries := map[];
      if kind == LocalAnchor {
        finder.RemoveLocalComponentCache(gameObject);
      } else {
        finder.RemoveSceneComponentCache(h.objects[gameObject].scene);
      }
    }
  }

  /**
   * The anchor's dictionary went through one lookup from `obj`: from its old entries
   * when the anchor already existed, from an empty dictionary when it is new.
   */
  twostate predicate AnchorSearched(h: Host, obj: NodeId, path: Option<string>, typeName: TypeName,
                                    includeInactive: bool, new r: Option<CompId>, new anchor: LocalComponentCache)
    requires WellFormed(h) && obj in h.objects
    reads anchor, anchor.cacheDict
  {
    if fresh(anchor) then
      && anchor.visualizeCacheDictionary == map[]
      && Outcome(r, anchor.cacheDict.entries) == Lookup(h, obj, path, typeName, includeInactive, map[])
    else
      && anchor.visualizeCacheDictionary == old(anchor.visualizeCacheDictionary)
      && Outcome(r, anchor.cacheDict.entries) == Lookup(h, obj, path, typeName, includeInactive, old(anchor.cacheDict.entries))
  }

  /** The anchors in `anchors` are as they were, apart from `except` and its dictionary. */
  twostate predicate Untouched(anchors: set<LocalComponentCache>, new except: LocalComponentCache?)
    reads anchors, Dicts(anchors)
  {
    forall a | a in anchors && a != except ::
      && unchanged(a)
      && (except == null || a.cacheDict != except.cacheDict ==> unchanged(a.cacheDict))
  }

  /**
   * `GetLocalComponentCache`: the anchor on `n` itself, else the one on its nearest
   * ancestor, else a new one added to its topmost ancestor.
   */
  twostate predicate ResolvedLocal(w: World, n: NodeId, new c: LocalComponentCache, new w': World)
    requires WellFormedWorld(w) && n in w.host.objects
  {
    if n in w.caches then c == w.caches[n] && w' == w
    else match NearestCarrier(w.host, n, w.caches.Keys)
      case Some(m) => c == w.caches[m] && w' == w
      case None =>
        && fresh(c) && c.kind == LocalAnchor && c.gameObject == Root(w.host, n)
        && w' == w.(caches := w.caches[c.gameObject := c])
  }

  /**
   * The scene anchor for `scene`: the first root of the scene carrying one,
   * else a new one on a new root GameObject of that scene.
   */
  twostate predicate ResolvedScene(w: World, scene: int, new c: LocalComponentCache, new w': World)
  {
    match FirstSceneCache(w, SceneRoots(w.host, scene))
    case Some(a) => c == a && w' == w
    case None =>
      && fresh(c) && c.kind == SceneAnchor && c.gameObject == w.host.nextInstanceId
      && w' == World(AddRootObject(w.host, "[SceneComponentCache]", scene), w.caches[c.gameObject := c])
  }

  /** A new anchor, fresh from its constructor: an empty dictionary of its own, the flag clear, no snapshot. */
  twostate predicate NewAnchor(new c: LocalComponentCache)
    reads c, c.cacheDict
  {
    fresh(c) && fresh(c.cacheDict) && c.cacheDict.entries == map[] && !c.updateCacheDict && c.visualizeCacheDictionary == map[]
  }

  /** The local function `GetLocalComponentCache` of `GetOrCreateLocalComponentCache`. */
  method GetLocalComponentCache(w: World, obj: NodeId) returns (c: LocalComponentCache, w': World)
    requires WellFormedWorld(w) && obj in w.host.objects
    ensures ResolvedLocal(w, obj, c, w')
    ensures WellFormedWorld(w')
    ensures fresh(c) ==> NewAnchor(c)
    ensures !fresh(c) ==> c in w.caches.Values
    ensures w'.caches.Values <= w.caches.Values + {c}
  {
    if obj in w.caches {
      return w.caches[obj], w;
    }
    var carrier := NearestCarrier(w.host, obj, w.caches.Keys);
    if carrier.Some? {
      return w.caches[carrier.value], w;
    }
    var root := Root(w.host, obj);
    c := new LocalComponentCache(root, LocalAnchor);
    w' := w.(caches := w.caches[root := c]);
    ValuesUpdated(w.caches, root, c);
  }

  /** `CreateSceneComponentCache`: a new root GameObject in `obj`'s scene carrying a new scene anchor. */
  method CreateSceneComponentCache(w: World, obj: NodeId) returns (c: LocalComponentCache, w': World)
    requires WellFormedWorld(w) && obj in w.host.objects
    ensures NewAnchor(c) && c.kind == SceneAnchor && c.gameObject == w.host.nextInstanceId
    ensures w' == World(AddRootObject(w.host, "[SceneComponentCache]", w.host.objects[obj].scene), w.caches[c.gameObject := c])
    ensures WellFormedWorld(w')
    ensures w'.caches.Values <= w.caches.Values + {c}
  {
    var scene := w.host.objects[obj].scene;
    var h' := AddRootObject(w.host, "[SceneComponentCache]", scene);
    c := new LocalComponentCache(w.host.nextInstanceId, SceneAnchor);
    w' := World(h', w.caches[c.gameObject := c]);
    ValuesUpdated(w.caches, c.gameObject, c);
  }

  /**
   * The search through a scene anchor, in the host `h'` left by resolving it: `h`
   * itself, or `h` with the anchor's new root object, which changes no lookup from
   * an existing object (`LookupIgnoresNewRoot`).
   */
  method SearchAfterSceneResolution(anchor: LocalComponentCache, h: Host, h': Host, obj: NodeId, path: Option<string>,
                                    typeName: TypeName, includeInactive: bool) returns (r: Option<CompId>)
    requires WellFormed(h) && obj in h.objects
    requires h' == h || h' == AddRootObject(h, "[SceneComponentCache]", h.objects[obj].scene)
    modifies anchor, anchor.cacheDict
    ensures Outcome(r, anchor.cacheDict.entries) == Lookup(h, obj, path, typeName, includeInactive, old(anchor.cacheDict.entries))
    ensures anchor.updateCacheDict && anchor.visualizeCacheDictionary == old(anchor.visualizeCacheDictionary)
  {
    LookupIgnoresNewRoot(h, "[SceneComponentCache]", h.objects[obj].scene, obj, path, typeName, includeInactive,
                         anchor.cacheDict.entries);
    r := anchor.GetComponent(h', obj, path, typeName, includeInactive);
  }

  /** The value-returning overload with a caller dictionary (`Finder.cs` lines 176-185). */
  method FindComponentIn(h: Host, obj: Option<NodeId>, cache: CacheDictionary?, path: Option<string>,
                         typeName: TypeName, includeInactive: bool) returns (r: Option<CompId>)
    requires WellFormed(h)
    modifies cache
    ensures IsNull(h, obj) || cache == null ==> r.None? && (cache != null ==> unchanged(cache))
    ensures !IsNull(h, obj) && cache != null ==>
              Outcome(r, cache.entries) == Lookup(h, obj.value, path, typeName, includeInactive, old(cache.entries))
  {
    if IsNull(h, obj) || cache == null {
      return None;
    }
    r := FinderUtil.GetComponent(h, obj.value, path, typeName, includeInactive, cache);
  }

  /**
   * The callback overload with a caller dictionary (`Finder.cs` lines 144-163): `delivered`
   * is what `loaded` receives (None when it is not invoked), `logged` whether the miss is logged.
   */
  method FindComponentInThen(h: Host, obj: Option<NodeId>, cache: CacheDictionary?, path: Option<string>,
                             typeName: TypeName, includeInactive: bool, hasLoaded: bool)
    returns (delivered: Option<CompId>, logged: bool)
    requires WellFormed(h)
    modifies cache
    ensures IsNull(h, obj) || cache == null ==> delivered.None? && !logged && (cache != null ==> unchanged(cache))
    ensures !IsNull(h, obj) && cache != null ==>
              var o := Lookup(h, obj.value, path, typeName, includeInactive, old(cache.entries));
              && cache.entries == o.entries
              && delivered == (if hasLoaded then o.found else None)
              && logged == o.found.None?
  {
    if IsNull(h, obj) || cache == null {
      return None, false;
    }
    var component := FinderUtil.GetComponent(h, obj.value, path, typeName, includeInactive, cache);
    if component.Some? {
      delivered := if hasLoaded then component else None;
      return delivered, false;
    }
    return None, true;
  }

  /** The value-returning component overload with a caller dictionary (`Finder.cs` lines 64-79). */
  method FindComponentFromIn(h: Host, com: Option<CompId>, cache: CacheDictionary?, path: Option<string>,
                             typeName: TypeName, includeInactive: bool) returns (r: Option<CompId>)
    requires WellFormed(h)
    modifies cache
    ensures IsNull(h, GameObjectOf(h, com)) || cache == null ==> r.None? && (cache != null ==> unchanged(cache))
    ensures !IsNull(h, GameObjectOf(h, com)) && cache != null ==>
              Outcome(r, cache.entries) == Lookup(h, GameObjectOf(h, com).value, path, typeName, includeInactive, old(cache.entries))
  {
    GameObjectOfLive(h, com);
    if IsNullComponent(h, com) {
      return None;
    }
    r := FindComponentIn(h, GameObjectOf(h, com), cache, path, typeName, includeInactive);
  }

  /**
   * The callback component overload with a caller dictionary (`Finder.cs` lines 36-51).
   * It reads `com.gameObject` unguarded, so the component must be live.
   */
  method FindComponentFromInThen(h: Host, com: Option<CompId>, cache: CacheDictionary?, path: Option<string>,
                                 typeName: TypeName, includeInactive: bool, hasLoaded: bool)
    returns (delivered: Option<CompId>, logged: bool)
    requires WellFormed(h) && !IsNull(h, GameObjectOf(h, com))
    modifies cache
    ensures cache == null ==> delivered.None? && !logged
    ensures cache != null ==>
              var o := Lookup(h, GameObjectOf(h, com).value, path, typeName, includeInactive, old(cache.entries));
              && cache.entries == o.entries
              && delivered == (if hasLoaded then o.found else None)
              && logged == o.found.None?
  {
    delivered, logged := FindComponentInThen(h, GameObjectOf(h, com), cache, path, typeName, includeInactive, hasLoaded);
  }

  /** The static `Finder`: the shared dictionary, the three anchor registries and the default scope. */
  class Finder {
    /** `CacheDict`: the dictionary of the static scope and of every search while not playing. */
    const cacheDict: CacheDictionary
    /** `SceneComponentCacheDict`: scene handle to that scene's anchor. */
    var sceneCacheDict: map<int, LocalComponentCache>
    /** `LocalComponentCacheDict`: anchor GameObject id to the anchor. */
    var localCacheDict: map<NodeId, LocalComponentCache>
    /** `RootGameObjectLocalComponentCacheMap`: search-root id to the id of its anchor's GameObject. */
    var rootCacheMap: map<NodeId, NodeId>
    var defaultCacheType: CacheType

    constructor ()
      ensures fresh(cacheDict) && cacheDict.entries == map[]
      ensures sceneCacheDict == map[] && localCacheDict == map[] && rootCacheMap == map[]
      ensures defaultCacheType == Scene
      ensures RegistryConsistent()
    {
      cacheDict := new CacheDictionary();
      sceneCacheDict := map[];
      localCacheDict := map[];
      rootCacheMap := map[];
      defaultCacheType := Scene;
    }

    /** Every anchor the finder can reach: those in the world and those in its registries. */
    ghost function Anchors(w: World): set<LocalComponentCache>
      reads this
    {
      w.caches.Values + localCacheDict.Values + sceneCacheDict.Values
    }

    /** The world is well formed and no anchor shares the static dictionary. */
    ghost predicate Valid(w: World)
      reads this
    {
      WellFormedWorld(w) && forall a | a in Anchors(w) :: a.cacheDict != cacheDict
    }

    /**
     * The registries agree: every mapped root points to a registered anchor,
     * every local anchor is filed under its own GameObject id, and the scene
     * registry holds scene anchors only.
     */
    predicate RegistryConsistent()
      reads this
    {
      && (forall id | id in rootCacheMap :: rootCacheMap[id] in localCacheDict)
      && (forall k | k in localCacheDict :: localCacheDict[k].gameObject == k)
      && (forall s | s in sceneCacheDict :: sceneCacheDict[s].kind == SceneAnchor)
    }

    /**
     * From a consistent registry every mapped root has its anchor entry, so the
     * mapped-but-missing branch of `GetOrCreateLocalComponentCache` is not taken.
     */
    lemma MappedRootRegistered(id: NodeId)
      requires RegistryConsistent()
      ensures id in rootCacheMap ==> rootCacheMap[id] in localCacheDict
    {
    }

    /** `ClearCache`: the shared dictionary becomes empty. */
    method ClearCache()
      modifies cacheDict
      ensures cacheDict.entries == map[]
    {
      cacheDict.entries := map[];
    }

    /** `ClearCacheFromParentInstanceId`: drop exactly the shared entries whose key starts with `instanceId + "_"`. */
    method ClearCacheFromParentInstanceId(instanceId: string)
      modifies cacheDict
      ensures forall k :: k in cacheDict.entries <==> k in old(cacheDict.entries) && !StartsWith(k, instanceId + "_")
      ensures forall k | k in cacheDict.entries :: cacheDict.entries[k] == old(cacheDict.entries)[k]
    {
      var fitKeys := set k | k in cacheDict.entries && StartsWith(k, instanceId + "_");
      while fitKeys != {}
        invariant fitKeys <= cacheDict.entries.Keys
        invariant forall k :: k in cacheDict.entries <==>
                    k in old(cacheDict.entries) && (!StartsWith(k, instanceId + "_") || k in fitKeys)
        invariant forall k | k in cacheDict.entries :: cacheDict.entries[k] == old(cacheDict.entries)[k]
        decreases fitKeys
      {
        ghost var picked := Pick(fitKeys);
        var fitKey :| fitKey in fitKeys;
        cacheDict.entries := cacheDict.entries - {fitKey};
        fitKeys := fitKeys - {fitKey};
      }
    }

    /**
     * `ClearCacheFromParentObject`: every shared entry searched from `obj` is
     * dropped, and every entry searched from another root is kept.
     */
    method ClearCacheFromParentObject(obj: NodeId)
      modifies cacheDict
      ensures forall path, typeName :: GetKey(obj, path, typeName) !in cacheDict.entries
      ensures forall root, path, typeName | root != obj && GetKey(root, path, typeName) in old(cacheDict.entries) ::
                GetKey(root, path, typeName) in cacheDict.entries &&
                cacheDict.entries[GetKey(root, path, typeName)] == old(cacheDict.entries)[GetKey(root, path, typeName)]
      ensures cacheDict.entries.Keys <= old(cacheDict.entries).Keys
    {
      ClearCacheFromParentInstanceId(IntToString(obj));
      forall root, path, typeName ensures StartsWith(GetKey(root, path, typeName), IntToString(obj) + "_") <==> root == obj {
        KeyPrefixSelectsRoot(root, path, typeName, obj);
      }
    }

    /** `ClearComponentCacheMap`: all three registries become empty. */
    method ClearComponentCacheMap()
      modifies this
      ensures sceneCacheDict == map[] && localCacheDict == map[] && rootCacheMap == map[]
      ensures defaultCacheType == old(defaultCacheType)
      ensures RegistryConsistent()
    {
      localCacheDict := map[];
      sceneCacheDict := map[];
      rootCacheMap := map[];
    }

    /** The effect of `RemoveLocalComponentCache(instanceId)` on the registries. */
    twostate predicate LocalCacheRemoved(instanceId: NodeId)
      reads this
    {
      && localCacheDict == old(localCacheDict) - {instanceId}
      && (forall id :: id in rootCacheMap <==> id in old(rootCacheMap) && old(rootCacheMap)[id] != instanceId)
      && (forall id | id in rootCacheMap :: rootCacheMap[id] == old(rootCacheMap)[id])
      && sceneCacheDict == old(sceneCacheDict)
      && defaultCacheType == old(defaultCacheType)
    }

    /** The effect of `RemoveSceneComponentCache(sceneHandle)` on the registries. */
    twostate predicate SceneCacheRemoved(sceneHandle: int)
      reads this
    {
      && sceneCacheDict == old(sceneCacheDict) - {sceneHandle}
      && localCacheDict == old(localCacheDict) && rootCacheMap == old(rootCacheMap)
      && defaultCacheType == old(defaultCacheType)
    }

    /** `RemoveLocalComponentCache`: drop the anchor and every root mapped to it. */
    method RemoveLocalComponentCache(instanceId: NodeId)
      modifies this
      ensures LocalCacheRemoved(instanceId)
      ensures old(RegistryConsistent()) ==> RegistryConsistent()
    {
      localCacheDict := localCacheDict - {instanceId};
      var removeList := set id | id in rootCacheMap && rootCacheMap[id] == instanceId;
      while removeList != {}
        invariant rootCacheMap.Keys <= old(rootCacheMap).Keys
        invariant forall id | id in old(rootCacheMap) ::
                    id in rootCacheMap <==> old(rootCacheMap)[id] != instanceId || id in removeList
        invariant forall id | id in rootCacheMap :: rootCacheMap[id] == old(rootCacheMap)[id]
        invariant localCacheDict == old(localCacheDict) - {instanceId}
        invariant sceneCacheDict == old(sceneCacheDict) && defaultCacheType == old(defaultCacheType)
        decreases removeList
      {
        ghost var picked := Pick(removeList);
        var rootId :| rootId in removeList;
        rootCacheMap := rootCacheMap - {rootId};
        removeList := removeList - {rootId};
      }
    }

    /** `RemoveSceneComponentCache`: drop the scene's entry only. */
    method RemoveSceneComponentCache(sceneHandle: int)
      modifies this
      ensures SceneCacheRemoved(sceneHandle)
      ensures old(RegistryConsistent()) ==> RegistryConsistent()
    {
      sceneCacheDict := sceneCacheDict - {sceneHandle};
    }

    /**
     * What `GetOrCreateLocalComponentCache(id)` returns and registers: a mapped root
     * reuses its registered anchor; a mapped root whose anchor entry is gone re-resolves
     * and files the result under the old key; an unmapped root resolves, files the anchor
     * under its own GameObject id and maps the root to it.
     */
    twostate predicate LocalCacheStep(w: World, id: NodeId, new c: LocalComponentCache, new w': World)
      requires WellFormedWorld(w) && id in w.host.objects
      reads this
    {
      && sceneCacheDict == old(sceneCacheDict)
      && defaultCacheType == old(defaultCacheType)
      && if id in old(rootCacheMap) then
           var key := old(rootCacheMap)[id];
           && rootCacheMap == old(rootCacheMap)
           && if key in old(localCacheDict) then
                c == old(localCacheDict)[key] && w' == w && localCacheDict == old(localCacheDict)
              else
                ResolvedLocal(w, id, c, w') && localCacheDict == old(localCacheDict)[key := c]
         else
           && ResolvedLocal(w, id, c, w')
           && localCacheDict == old(localCacheDict)[c.gameObject := c]
           && rootCacheMap == old(rootCacheMap)[id := c.gameObject]
    }

    /** What `GetOrCreateSceneComponentCache` returns and registers for `scene`. */
    twostate predicate SceneCacheStep(w: World, scene: int, new c: LocalComponentCache, new w': World)
      reads this
    {
      && localCacheDict == old(localCacheDict) && rootCacheMap == old(rootCacheMap)
      && defaultCacheType == old(defaultCacheType)
      && if scene in old(sceneCacheDict) then
           c == old(sceneCacheDict)[scene] && w' == w && sceneCacheDict == old(sceneCacheDict)
         else
           ResolvedScene(w, scene, c, w') && sceneCacheDict == old(sceneCacheDict)[scene := c]
    }

    method GetOrCreateLocalComponentCache(w: World, obj: NodeId) returns (c: LocalComponentCache, w': World)
      requires Valid(w) && obj in w.host.objects
      modifies this
      ensures LocalCacheStep(w, obj, c, w')
      ensures Valid(w')
      ensures old(RegistryConsistent()) ==> RegistryConsistent()
      ensures fresh(c) ==> NewAnchor(c)
      ensures !fresh(c) ==> c in old(Anchors(w))
    {
      var id := obj;
      if id in rootCacheMap {
        var key := rootCacheMap[id];
        if key !in localCacheDict {
          c, w' := GetLocalComponentCache(w, obj);
          localCacheDict := localCacheDict[key := c];
          ValuesUpdated(old(localCacheDict), key, c);
        } else {
          c, w' := localCacheDict[key], w;
        }
      } else {
        c, w' := GetLocalComponentCache(w, obj);
        var componentCacheId := c.gameObject;
        localCacheDict := localCacheDict[componentCacheId := c];
        rootCacheMap := rootCacheMap[id := componentCacheId];
        ValuesUpdated(old(localCacheDict), componentCacheId, c);
      }
      assert Anchors(w') <= old(Anchors(w)) + {c};
      assert c.cacheDict != cacheDict;
    }

    method GetOrCreateSceneComponentCache(w: World, obj: NodeId) returns (c: LocalComponentCache, w': World)
      requires Valid(w) && obj in w.host.objects
      modifies this
      ensures SceneCacheStep(w, w.host.objects[obj].scene, c, w')
      ensures Valid(w')
      ensures old(RegistryConsistent()) ==> RegistryConsistent()
      ensures fresh(c) ==> NewAnchor(c)
      ensures !fresh(c) ==> c in old(Anchors(w))
      ensures forall a | a in old(Anchors(w)) :: unchanged(a) && unchanged(a.cacheDict)
    {
      var key := w.host.objects[obj].scene;
      if key in sceneCacheDict {
        c, w' := sceneCacheDict[key], w;
      } else {
        var found := FirstSceneCache(w, SceneRoots(w.host, key));
        if found.Some? {
          c, w' := found.value, w;
        } else {
          c, w' := CreateSceneComponentCache(w, obj);
        }
        sceneCacheDict := sceneCacheDict[key := c];
        ValuesUpdated(old(sceneCacheDict), key, c);
      }
      assert Anchors(w') <= old(Anchors(w)) + {c};
    }

    /**
     * The search through an anchor chosen for scope `scope`: the registries resolve
     * the anchor for the root (local scope) or its scene (scene scope); only that
     * anchor and its dictionary change, and the dictionary goes through one lookup,
     * starting empty when the anchor is new.
     */
    twostate predicate ServedByAnchor(w: World, obj: NodeId, path: Option<string>, typeName: TypeName,
                                      includeInactive: bool, scope: CacheType,
                                      new r: Option<CompId>, new w': World, new anchor: LocalComponentCache,
                                      anchors: set<LocalComponentCache>)
      requires WellFormedWorld(w) && obj in w.host.objects
      reads this, cacheDict, anchors, Dicts(anchors), anchor, anchor.cacheDict
    {
      && unchanged(cacheDict) && Untouched(anchors, anchor)
      && (if scope == Local then LocalCacheStep(w, obj, anchor, w')
          else SceneCacheStep(w, w.host.objects[obj].scene, anchor, w'))
      && anchor.updateCacheDict
      && (!fresh(anchor) ==> anchor in anchors)
      && (fresh(anchor) ==> fresh(anchor.cacheDict))
      && AnchorSearched(w.host, obj, path, typeName, includeInactive, r, anchor)
    }

    /**
     * What a scoped lookup returns and leaves behind: nothing for a null root; the
     * shared dictionary for the static scope or outside play mode; otherwise the
     * anchor's dictionary, as `ServedByAnchor` says.
     */
    twostate predicate Served(w: World, obj: Option<NodeId>, path: Option<string>, typeName: TypeName,
                              includeInactive: bool, cacheType: Option<CacheType>, isPlaying: bool,
                              new r: Option<CompId>, new w': World, new anchor: LocalComponentCache?,
                              anchors: set<LocalComponentCache>)
      requires WellFormedWorld(w)
      reads this, cacheDict, anchors, Dicts(anchors)
      reads if anchor == null then {} else {anchor}, if anchor == null then {} else {anchor.cacheDict}
    {
      if IsNull(w.host, obj) then
        r.None? && w' == w && anchor == null && unchanged(this, cacheDict) && Untouched(anchors, null)
      else
        var scope := EffectiveCacheType(cacheType, old(defaultCacheType));
        if UsesSharedDictionary(scope, isPlaying) then
          && anchor == null && w' == w && unchanged(this) && Untouched(anchors, null)
          && Outcome(r, cacheDict.entries) == Lookup(w.host, obj.value, path, typeName, includeInactive, old(cacheDict.entries))
        else
          anchor != null && ServedByAnchor(w, obj.value, path, typeName, includeInactive, scope, r, w', anchor, anchors)
    }

    /** The local-scope branch of the scoped overloads: resolve (or create) the root's anchor, then search its dictionary. */
    method SearchLocalAnchor(w: World, obj: NodeId, path: Option<string>, typeName: TypeName, includeInactive: bool)
      returns (r: Option<CompId>, w': World, anchor: LocalComponentCache)
      requires Valid(w) && obj in w.host.objects
      modifies this, Anchors(w), Dicts(Anchors(w))
      ensures Valid(w')
      ensures old(RegistryConsistent()) ==> RegistryConsistent()
      ensures ServedByAnchor(w, obj, path, typeName, includeInactive, Local, r, w', anchor, old(Anchors(w)))
    {
      anchor, w' := GetOrCreateLocalComponentCache(w, obj);
      assert w'.host == w.host;
      label Resolved:
      r := anchor.GetComponent(w'.host, obj, path, typeName, includeInactive);
      assert unchanged@Resolved(this);
    }

    /** The scene-scope branch of the scoped overloads: resolve (or create) the scene's anchor, then search its dictionary. */
    method SearchSceneAnchor(w: World, obj: NodeId, path: Option<string>, typeName: TypeName, includeInactive: bool)
      returns (r: Option<CompId>, w': World, anchor: LocalComponentCache)
      requires Valid(w) && obj in w.host.objects
      modifies this, Anchors(w), Dicts(Anchors(w))
      ensures Valid(w')
      ensures old(RegistryConsistent()) ==> RegistryConsistent()
      ensures ServedByAnchor(w, obj, path, typeName, includeInactive, Scene, r, w', anchor, old(Anchors(w)))
    {
      anchor, w' := GetOrCreateSceneComponentCache(w, obj);
      r := SearchAfterSceneResolution(anchor, w.host, w'.host, obj, path, typeName, includeInactive);
    }

    /** The value-returning GameObject overload with a scope (`Finder.cs` lines 244-266). */
    method FindComponent(w: World, obj: Option<NodeId>, path: Option<string>, typeName: TypeName,
                         includeInactive: bool, cacheType: Option<CacheType>, isPlaying: bool)
      returns (r: Option<CompId>, w': World, ghost anchor: LocalComponentCache?)
      requires Valid(w)
      modifies this, cacheDict, Anchors(w), Dicts(Anchors(w))
      ensures Valid(w')
      ensures old(RegistryConsistent()) ==> RegistryConsistent()
      ensures Served(w, obj, path, typeName, includeInactive, cacheType, isPlaying, r, w', anchor, old(Anchors(w)))
    {
      if IsNull(w.host, obj) {
        return None, w, null;
      }
      var scope := EffectiveCacheType(cacheType, defaultCacheType);
      if scope != Static && isPlaying {
        var componentCache;
        if scope == Local {
          r, w', componentCache := SearchLocalAnchor(w, obj.value, path, typeName, includeInactive);
        } else {
          r, w', componentCache := SearchSceneAnchor(w, obj.value, path, typeName, includeInactive);
        }
        anchor := componentCache;
        return;
      }
      r := FinderUtil.GetComponent(w.host, obj.value, path, typeName, includeInactive, cacheDict);
      w', anchor := w, null;
    }

    /**
     * The callback GameObject overload with a scope (`Finder.cs` lines 196-231): it
     * makes the same choice of dictionary as `FindComponent`, then hands a hit to
     * `loaded` (when given) or logs the miss.
     */
    method FindComponentThen(w: World, obj: Option<NodeId>, path: Option<string>, typeName: TypeName,
                             includeInactive: bool, cacheType: Option<CacheType>, isPlaying: bool, hasLoaded: bool)
      returns (delivered: Option<CompId>, logged: bool, w': World, ghost found: Option<CompId>, ghost anchor: LocalComponentCache?)
      requires Valid(w)
      modifies this, cacheDict, Anchors(w), Dicts(Anchors(w))
      ensures Valid(w')
      ensures old(RegistryConsistent()) ==> RegistryConsistent()
      ensures Served(w, obj, path, typeName, includeInactive, cacheType, isPlaying, found, w', anchor, old(Anchors(w)))
      ensures delivered == (if hasLoaded then found else None)
      ensures logged == (!IsNull(w.host, obj) && found.None?)
    {
      if IsNull(w.host, obj) {
        return None, false, w, None, null;
      }
      var component;
      component, w', anchor := FindComponent(w, obj, path, typeName, includeInactive, cacheType, isPlaying);
      found := component;
      if component.Some? {
        delivered := if hasLoaded then component else None;
        return delivered, false, w', found, anchor;
      }
      return None, true, w', found, anchor;
    }

    /** The value-returning component overload with a scope (`Finder.cs` lines 118-133). */
    method FindComponentFrom(w: World, com: Option<CompId>, path: Option<string>, typeName: TypeName,
                             includeInactive: bool, cacheType: Option<CacheType>, isPlaying: bool)
      returns (r: Option<CompId>, w': World, ghost anchor: LocalComponentCache?)
      requires Valid(w)
      modifies this, cacheDict, Anchors(w), Dicts(Anchors(w))
      ensures Valid(w')
      ensures old(RegistryConsistent()) ==> RegistryConsistent()
      ensures Served(w, GameObjectOf(w.host, com), path, typeName, includeInactive, cacheType, isPlaying, r, w', anchor, old(Anchors(w)))
    {
      GameObjectOfLive(w.host, com);
      if IsNullComponent(w.host, com) {
        return None, w, null;
      }
      r, w', anchor := FindComponent(w, GameObjectOf(w.host, com), path, typeName, includeInactive, cacheType, isPlaying);
    }

    /**
     * The callback component overload with a scope (`Finder.cs` lines 90-105).
     * It reads `com.gameObject` unguarded, so the component must be live.
     */
    method FindComponentFromThen(w: World, com: Option<CompId>, path: Option<string>, typeName: TypeName,
                                 includeInactive: bool, cacheType: Option<CacheType>, isPlaying: bool, hasLoaded: bool)
      returns (delivered: Option<CompId>, logged: bool, w': World, ghost found: Option<CompId>, ghost anchor: LocalComponentCache?)
      requires Valid(w) && !IsNull(w.host, GameObjectOf(w.host, com))
      modifies this, cacheDict, Anchors(w), Dicts(Anchors(w))
      ensures Valid(w')
      ensures old(RegistryConsistent()) ==> RegistryConsistent()
      ensures Served(w, GameObjectOf(w.host, com), path, typeName, includeInactive, cacheType, isPlaying, found, w', anchor, old(Anchors(w)))
      ensures delivered == (if hasLoaded then found else None)
      ensures logged == found.None?
    {
      delivered, logged, w', found, anchor :=
        FindComponentThen(w, GameObjectOf(w.host, com), path, typeName, includeInactive, cacheType, isPlaying, hasLoaded);
    }
  }
}
