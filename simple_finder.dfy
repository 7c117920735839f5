/**
 * The simple variant: one anchor kind, `SimpleLocalComponentCache`, found on the
 * search root, else on its nearest ancestor, else added to the topmost ancestor;
 * no registries; and, outside play mode, a fresh empty dictionary per lookup.
 */
module SimpleFinder {
  import opened Wrappers
  import opened Host
  import opened FinderUtil
  import Matagi

  /** `SimpleLocalComponentCache`: an anchor component owning one dictionary. */
  class SimpleLocalComponentCache {
    /** The GameObject the component is attached to. */
    const gameObject: NodeId
    /** `_cacheDict`. */
    const cacheDict: CacheDictionary

    /** `AddComponent<SimpleLocalComponentCache>()` on `gameObject`. */
    constructor (gameObject: NodeId)
      ensures this.gameObject == gameObject
      ensures fresh(cacheDict) && cacheDict.entries == map[]
    {
      this.gameObject := gameObject;
      cacheDict := new CacheDictionary();
    }

    /** `GetComponent<TComponent>`: the matcher over this anchor's own dictionary. */
    method GetComponent(h: Host, findRoot: NodeId, path: Option<string>, typeName: TypeName,
                        includeInactive: bool) returns (r: Option<CompId>)
      requires WellFormed(h) && findRoot in h.objects
      modifies cacheDict
      ensures Outcome(r, cacheDict.entries) == Lookup(h, findRoot, path, typeName, includeInactive, old(cacheDict.entries))
    {
      r := FinderUtil.GetComponent(h, findRoot, path, typeName, includeInactive, cacheDict);
    }

    /** `OnDestroy`: the dictionary is cleared; nothing else is touched. */
    method OnDestroy()
      modifies cacheDict
      ensures cacheDict.entries == map[]
    {
      cacheDict.entries := map[];
    }
  }

  /** The host, and the simple anchor attached to each GameObject (at most one). */
  datatype SimpleWorld = SimpleWorld(host: Host, caches: map<NodeId, SimpleLocalComponentCache>)

  ghost predicate WellFormedSimpleWorld(w: SimpleWorld) {
    && WellFormed(w.host)
    && forall n | n in w.caches :: n in w.host.objects && w.caches[n].gameObject == n
  }

  /** The dictionaries of a set of anchors. */
  ghost function SimpleDicts(anchors: set<SimpleLocalComponentCache>): set<CacheDictionary> {
    set a | a in anchors :: a.cacheDict
  }

  /** The dictionaries in `anchors` other than `except`'s are as they were. */
  twostate predicate DictsUntouched(anchors: set<SimpleLocalComponentCache>, new except: SimpleLocalComponentCache?)
    reads SimpleDicts(anchors)
  {
    forall a | a in anchors && (except == null || a.cacheDict != except.cacheDict) :: unchanged(a.cacheDict)
  }

  /**
   * The anchor for a search from `n`: the one on `n` itself, else the one on its
   * nearest ancestor, else a new one added to its topmost ancestor.
   */
  twostate predicate SimpleResolved(w: SimpleWorld, n: NodeId, new c: SimpleLocalComponentCache, new w': SimpleWorld)
    requires WellFormedSimpleWorld(w) && n in w.host.objects
  {
    if n in w.caches then c == w.caches[n] && w' == w
    else match NearestCarrier(w.host, n, w.caches.Keys)
      case Some(m) => c == w.caches[m] && w' == w
      case None =>
        && fresh(c) && fresh(c.cacheDict)
        && c.gameObject == Root(w.host, n)
        && w' == w.(caches := w.caches[c.gameObject := c])
  }

  /** The anchor resolution of the play-mode branch (`SimpleFinder.cs` lines 143-145 and 187-189). */
  method ResolveAnchor(w: SimpleWorld, obj: NodeId) returns (c: SimpleLocalComponentCache, w': SimpleWorld)
    requires WellFormedSimpleWorld(w) && obj in w.host.objects
    ensures SimpleResolved(w, obj, c, w')
    ensures WellFormedSimpleWorld(w') && w'.host == w.host
    ensures fresh(c) ==> c.cacheDict.entries == map[]
    ensures !fresh(c) ==> c in w.caches.Values
    ensures w'.caches.Values <= w.caches.Values + {c}
  {
    if obj in w.caches {
      return w.caches[obj], w;
    }
    var carrier := NearestCarrier(w.host, obj, w.caches.Keys);
    if carrier.Some? {
      return w.caches[carrier.value], w;
    }
    var root := Root(w.host, obj);
    c := new SimpleLocalComponentCache(root);
    w' := w.(caches := w.caches[root := c]);
    Matagi.ValuesUpdated(w.caches, root, c);
  }

  /**
   * What a simple lookup returns and leaves behind: nothing for a null root; outside
   * play mode a lookup in a fresh empty dictionary, leaving every anchor as it was;
   * in play mode the resolved anchor's dictionary goes through one lookup (starting
   * empty when the anchor is new) and every other anchor's dictionary is untouched.
   */
  twostate predicate SimpleServed(w: SimpleWorld, obj: Option<NodeId>, path: Option<string>, typeName: TypeName,
                                  includeInactive: bool, isPlaying: bool,
                                  new r: Option<CompId>, new w': SimpleWorld, new anchor: SimpleLocalComponentCache?)
    requires WellFormedSimpleWorld(w)
    reads SimpleDicts(w.caches.Values), if anchor == null then {} else {anchor.cacheDict}
  {
    if IsNull(w.host, obj) then
      r.None? && w' == w && anchor == null && DictsUntouched(w.caches.Values, null)
    else if !isPlaying then
      && anchor == null && w' == w && DictsUntouched(w.caches.Values, null)
      && r == Lookup(w.host, obj.value, path, typeName, includeInactive, map[]).found
    else
      && anchor != null
      && SimpleResolved(w, obj.value, anchor, w')
      && DictsUntouched(w.caches.Values, anchor)
      && if fresh(anchor) then
           Outcome(r, anchor.cacheDict.entries) == Lookup(w.host, obj.value, path, typeName, includeInactive, map[])
         else
           Outcome(r, anchor.cacheDict.entries) == Lookup(w.host, obj.value, path, typeName, includeInactive, old(anchor.cacheDict.entries))
  }

  /** The value-returning GameObject overload (`SimpleFinder.cs` lines 170-192). */
  method FindComponent(w: SimpleWorld, obj: Option<NodeId>, path: Option<string>, typeName: TypeName,
                       includeInactive: bool, isPlaying: bool)
    returns (r: Option<CompId>, w': SimpleWorld, ghost anchor: SimpleLocalComponentCache?)
    requires WellFormedSimpleWorld(w)
    modifies SimpleDicts(w.caches.Values)
    ensures WellFormedSimpleWorld(w')
    ensures SimpleServed(w, obj, path, typeName, includeInactive, isPlaying, r, w', anchor)
  {
    if IsNull(w.host, obj) {
      return None, w, null;
    }
    if !isPlaying {
      var scratch := new CacheDictionary();
      r := FinderUtil.GetComponent(w.host, obj.value, path, typeName, includeInactive, scratch);
      return r, w, null;
    }
    var componentCache;
    componentCache, w' := ResolveAnchor(w, obj.value);
    r := componentCache.GetComponent(w.host, obj.value, path, typeName, includeInactive);
    anchor := componentCache;
  }

  /**
   * The callback GameObject overload (`SimpleFinder.cs` lines 124-158): the same
   * lookup, then a hit goes to `loaded` (when given) and a miss is logged. The
   * GameObject is used unguarded, so it must be live.
   */
  method FindComponentThen(w: SimpleWorld, obj: Option<NodeId>, path: Option<string>, typeName: TypeName,
                           includeInactive: bool, isPlaying: bool, hasLoaded: bool)
    returns (delivered: Option<CompId>, logged: bool, w': SimpleWorld, ghost found: Option<CompId>,
             ghost anchor: SimpleLocalComponentCache?)
    requires WellFormedSimpleWorld(w) && !IsNull(w.host, obj)
    modifies SimpleDicts(w.caches.Values)
    ensures WellFormedSimpleWorld(w')
    ensures SimpleServed(w, obj, path, typeName, includeInactive, isPlaying, found, w', anchor)
    ensures delivered == (if hasLoaded then found else None)
    ensures logged == found.None?
  {
    var component;
    component, w', anchor := FindComponent(w, obj, path, typeName, includeInactive, isPlaying);
    found := component;
    if component.Some? {
      delivered := if hasLoaded then component else None;
      return delivered, false, w', found, anchor;
    }
    return None, true, w', found, anchor;
  }

  /**
   * The value-returning overload with a caller dictionary (`SimpleFinder.cs` lines 235-244),
   * the same code as `Finder`'s.
   */
  method FindComponentIn(h: Host, obj: Option<NodeId>, cache: CacheDictionary?, path: Option<string>,
                         typeName: TypeName, includeInactive: bool) returns (r: Option<CompId>)
    requires WellFormed(h)
    modifies cache
    ensures IsNull(h, obj) || cache == null ==> r.None? && (cache != null ==> unchanged(cache))
    ensures !IsNull(h, obj) && cache != null ==>
              Outcome(r, cache.entries) == Lookup(h, obj.value, path, typeName, includeInactive, old(cache.entries))
  {
    r := Matagi.FindComponentIn(h, obj, cache, path, typeName, includeInactive);
  }

  /**
   * The callback overload with a caller dictionary (`SimpleFinder.cs` lines 203-222), the
   * same code as `Finder`'s: nothing happens for a null root or a null dictionary.
   */
  method FindComponentInThen(h: Host, obj: Option<NodeId>, cache: CacheDictionary?, path: Option<string>,
                             typeName: TypeName, includeInactive: bool, hasLoaded: bool)
    returns (delivered: Option<CompId>, logged: bool)
    requires WellFormed(h)
    modifies cache
    ensures IsNull(h, obj) || cache == null ==> delivered.None? && !logged && (cache != null ==> unchanged(cache))
    ensures !IsNull(h, obj) && cache != null ==>
              var o := Lookup(h, obj.value, path, typeName, includeInactive, old(cache.entries));
              && cache.entries == o.entries
              && delivered == (if hasLoaded then o.found else None)
              && logged == o.found.None?
  {
    delivered, logged := Matagi.FindComponentInThen(h, obj, cache, path, typeName, includeInactive, hasLoaded);
  }

  /** The value-returning component overload (`SimpleFinder.cs` lines 101-114). */
  method FindComponentFrom(w: SimpleWorld, com: Option<CompId>, path: Option<string>, typeName: TypeName,
                           includeInactive: bool, isPlaying: bool)
    returns (r: Option<CompId>, w': SimpleWorld, ghost anchor: SimpleLocalComponentCache?)
    requires WellFormedSimpleWorld(w)
    modifies SimpleDicts(w.caches.Values)
    ensures WellFormedSimpleWorld(w')
    ensures SimpleServed(w, GameObjectOf(w.host, com), path, typeName, includeInactive, isPlaying, r, w', anchor)
  {
    GameObjectOfLive(w.host, com);
    if IsNullComponent(w.host, com) {
      return None, w, null;
    }
    r, w', anchor := FindComponent(w, GameObjectOf(w.host, com), path, typeName, includeInactive, isPlaying);
  }

  /**
   * The callback component overload (`SimpleFinder.cs` lines 76-89). It reads
   * `com.gameObject` unguarded, so the component must be live.
   */
  method FindComponentFromThen(w: SimpleWorld, com: Option<CompId>, path: Option<string>, typeName: TypeName,
                               includeInactive: bool, isPlaying: bool, hasLoaded: bool)
    returns (delivered: Option<CompId>, logged: bool, w': SimpleWorld, ghost found: Option<CompId>,
             ghost anchor: SimpleLocalComponentCache?)
    requires WellFormedSimpleWorld(w) && !IsNull(w.host, GameObjectOf(w.host, com))
    modifies SimpleDicts(w.caches.Values)
    ensures WellFormedSimpleWorld(w')
    ensures SimpleServed(w, GameObjectOf(w.host, com), path, typeName, includeInactive, isPlaying, found, w', anchor)
    ensures delivered == (if hasLoaded then found else None)
    ensures logged == found.None?
  {
    delivered, logged, w', found, anchor :=
      FindComponentThen(w, GameObjectOf(w.host, com), path, typeName, includeInactive, isPlaying, hasLoaded);
  }

  /** The value-returning component overload with a caller dictionary (`SimpleFinder.cs` lines 51-66). */
  method FindComponentFromIn(h: Host, com: Option<CompId>, cache: CacheDictionary?, path: Option<string>,
                             typeName: TypeName, includeInactive: bool) returns (r: Option<CompId>)
    requires WellFormed(h)
    modifies cache
    ensures IsNull(h, GameObjectOf(h, com)) || cache == null ==> r.None? && (cache != null ==> unchanged(cache))
    ensures !IsNull(h, GameObjectOf(h, com)) && cache != null ==>
              Outcome(r, cache.entries) == Lookup(h, GameObjectOf(h, com).value, path, typeName, includeInactive, old(cache.entries))
  {
    r := Matagi.FindComponentFromIn(h, com, cache, path, typeName, includeInactive);
  }

  /**
   * The callback component overload with a caller dictionary (`SimpleFinder.cs`
   * lines 23-38). It reads `com.gameObject` unguarded, so the component must be live.
   */
  method FindComponentFromInThen(h: Host, com: Option<CompId>, cache: CacheDictionary?, path: Option<string>,
                                 typeName: TypeName, includeInactive: bool, hasLoaded: bool)
    returns (delivered: Option<CompId>, logged: bool)
    requires WellFormed(h) && !IsNull(h, GameObjectOf(h, com))
    modifies cache
    ensures cache == null ==> delivered.None? && !logged
    ensures cache != null ==>
              var o := Lookup(h, GameObjectOf(h, com).value, path, typeName, includeInactive, old(cache.entries));
              && cache.entries == o.entries
              && delivered == (if hasLoaded then o.found else None)
              && logged == o.found.None?
  {
    delivered, logged := Matagi.FindComponentFromInThen(h, com, cache, path, typeName, includeInactive, hasLoaded);
  }
}
