/**
 * The lookup-and-cache core: builds the cache key, serves a live cached
 * entry, evicts a dead one, takes the fast path on the search root itself,
 * and otherwise scans the host's candidates matching the `/`-separated path
 * from its last segment up the candidate's chain of ancestor names. A hit is
 * written back into the caller's dictionary.
 */
module FinderUtil {
  import opened Wrappers
  import opened Host
  import opened Text

  /** A `Dictionary<string, Component>` that lookups update in place. */
  class CacheDictionary {
    var entries: map<string, CompId>

    constructor ()
      ensures entries == map[]
    {
      entries := map[];
    }
  }

  /** The cache key `"<instanceId>_<path>_<typeName>"`. */
  function GetKey(findRoot: NodeId, path: string, typeName: TypeName): (key: string)
    ensures StartsWith(key, IntToString(findRoot) + "_")
  {
    IntToString(findRoot) + "_" + path + "_" + typeName
  }

  /** The root id a key is filed under: the integer before its first `'_'`. */
  function KeyRootId(key: string): Option<int> {
    ParseInt(Split(key, '_')[0])
  }

  /** A key built for `findRoot` is filed under `findRoot`. */
  lemma KeyRootIdOfGetKey(findRoot: NodeId, path: string, typeName: TypeName)
    ensures KeyRootId(GetKey(findRoot, path, typeName)) == Some(findRoot)
  {
    var id := IntToString(findRoot);
    assert GetKey(findRoot, path, typeName) == id + ['_'] + (path + "_" + typeName);
    SplitHead(id, '_', path + "_" + typeName);
    ParseIntToString(findRoot);
  }

  /** A key that starts with `instanceId + "_"` is filed under `instanceId`. */
  lemma KeyRootIdOfPrefix(key: string, id: int)
    requires StartsWith(key, IntToString(id) + "_")
    ensures KeyRootId(key) == Some(id)
  {
    var rest := key[|IntToString(id)| + 1..];
    assert key == IntToString(id) + ['_'] + rest;
    SplitHead(IntToString(id), '_', rest);
    ParseIntToString(id);
  }

  /** A key built for `findRoot` starts with `instanceId + "_"` exactly when `instanceId` is `findRoot`'s text. */
  lemma KeyPrefixSelectsRoot(findRoot: NodeId, path: string, typeName: TypeName, id: NodeId)
    ensures StartsWith(GetKey(findRoot, path, typeName), IntToString(id) + "_") <==> findRoot == id
  {
    if StartsWith(GetKey(findRoot, path, typeName), IntToString(id) + "_") {
      KeyRootIdOfPrefix(GetKey(findRoot, path, typeName), id);
      KeyRootIdOfGetKey(findRoot, path, typeName);
    }
  }

  /** `string.IsNullOrEmpty(path) ? findRoot.name : path`. */
  function EffectivePath(h: Host, findRoot: NodeId, path: Option<string>): (p: string)
    requires findRoot in h.objects
    ensures p == h.objects[findRoot].name || (path.Some? && p == path.value)
    ensures p == "" ==> h.objects[findRoot].name == ""
  {
    if path.None? || path.value == "" then h.objects[findRoot].name else path.value
  }

  /**
   * The segment rule: the last segment names `node` itself, the one before it
   * its parent, and so on; past the topmost ancestor the name compared is `""`.
   */
  predicate Matches(h: Host, node: NodeId, segments: seq<string>)
    requires WellFormed(h) && node in h.objects
  {
    forall k | 0 <= k < |segments| :: segments[|segments| - 1 - k] == ChainName(h, node, k)
  }

  predicate AllLive(h: Host, cands: seq<CompId>) {
    forall i | 0 <= i < |cands| :: cands[i] in h.components
  }

  /** Whether the candidate component's GameObject matches the segments. */
  predicate Accepts(h: Host, c: CompId, segments: seq<string>)
    requires WellFormed(h) && c in h.components
  {
    Matches(h, h.components[c].owner, segments)
  }

  /** The first candidate, in enumeration order, that the segments accept. */
  function FirstMatch(h: Host, cands: seq<CompId>, segments: seq<string>): (r: Option<CompId>)
    requires WellFormed(h) && AllLive(h, cands)
    ensures r.Some? ==> exists i :: 0 <= i < |cands| && cands[i] == r.value && Accepts(h, cands[i], segments) &&
                          forall j :: 0 <= j < i ==> !Accepts(h, cands[j], segments)
    ensures r.None? ==> forall i :: 0 <= i < |cands| ==> !Accepts(h, cands[i], segments)
    decreases |cands|
  {
    if cands == [] then None
    else if Accepts(h, cands[0], segments) then Some(cands[0])
    else
      var r := FirstMatch(h, cands[1..], segments);
      assert forall i :: 1 <= i < |cands| ==> cands[i] == cands[1..][i - 1];
      r
  }

  /** The result of one lookup, and the dictionary's entries after it. */
  datatype Outcome = Outcome(found: Option<CompId>, entries: map<string, CompId>)

  /** What one call of `GetComponent` returns and leaves in the dictionary. */
  function Lookup(h: Host, findRoot: NodeId, path: Option<string>, typeName: TypeName,
                  includeInactive: bool, entries: map<string, CompId>): (o: Outcome)
    requires WellFormed(h) && findRoot in h.objects
    ensures o.found.Some? ==> IsLiveOf(h, o.found.value, typeName)
    ensures o.found.Some? ==> var key := LookupKey(h, findRoot, path, typeName);
              key in o.entries && o.entries[key] == o.found.value
    ensures o.found.None? ==> o.entries == entries - {LookupKey(h, findRoot, path, typeName)}
  {
    var p := EffectivePath(h, findRoot, path);
    var key := GetKey(findRoot, p, typeName);
    if key in entries && IsLiveOf(h, entries[key], typeName) then
      Outcome(Some(entries[key]), entries)
    else
      var kept := entries - {key};
      var own := GetComponentOn(h, findRoot, typeName);
      if h.objects[findRoot].name == p && own.Some? then
        Outcome(own, kept[key := own.value])
      else
        match FirstMatch(h, h.componentsInChildren(findRoot, typeName, includeInactive), Split(p, '/'))
        case None => Outcome(None, kept)
        case Some(c) => Outcome(Some(c), kept[key := c])
  }

  /** The segment comparison of one candidate: the inner loop of the scan. */
  method SegmentsMatch(h: Host, node: NodeId, searchKeys: seq<string>) returns (hit: bool)
    requires WellFormed(h) && node in h.objects
    ensures hit == Matches(h, node, searchKeys)
  {
    var name := h.objects[node].name;
    var parent := h.objects[node].parent;
    hit := true;
    var i := |searchKeys| - 1;
    while i >= 0
      invariant -1 <= i < |searchKeys|
      invariant name == ChainName(h, node, |searchKeys| - 1 - i)
      invariant parent == Ancestor(h, node, |searchKeys| - i)
      invariant forall k | 0 <= k < |searchKeys| - 1 - i :: searchKeys[|searchKeys| - 1 - k] == ChainName(h, node, k)
    {
      ghost var j := |searchKeys| - 1 - i;
      if name != searchKeys[i] {
        assert searchKeys[|searchKeys| - 1 - j] != ChainName(h, node, j);
        hit := false;
        break;
      }
      AncestorStep(h, node, j);
      if parent.Some? {
        name := h.objects[parent.value].name;
        parent := h.objects[parent.value].parent;
      } else {
        name := "";
      }
      i := i - 1;
    }
  }

  /** `FinderUtil.GetComponent<T>(findRoot, path, includeInactive, cacheDict)`. */
  method GetComponent(h: Host, findRoot: NodeId, path: Option<string>, typeName: TypeName,
                      includeInactive: bool, cacheDict: CacheDictionary) returns (r: Option<CompId>)
    requires WellFormed(h) && findRoot in h.objects
    modifies cacheDict
    ensures Outcome(r, cacheDict.entries) == Lookup(h, findRoot, path, typeName, includeInactive, old(cacheDict.entries))
  {
    var p := if path.None? || path.value == "" then h.objects[findRoot].name else path.value;
    var key := GetKey(findRoot, p, typeName);
    if key in cacheDict.entries {
      var component := cacheDict.entries[key];
      if IsLiveOf(h, component, typeName) {
        return Some(component);
      }
      cacheDict.entries := cacheDict.entries - {key};
    }
    assert cacheDict.entries == old(cacheDict.entries) - {key};

    if h.objects[findRoot].name == p {
      var component := GetComponentOn(h, findRoot, typeName);
      if component.Some? {
        cacheDict.entries := cacheDict.entries[key := component.value];
        return component;
      }
    }

    var components := h.componentsInChildren(findRoot, typeName, includeInactive);
    var searchKeys := Split(p, '/');
    assert AllLive(h, components);
    var hitComponent := Scan(h, components, searchKeys);
    if hitComponent.None? {
      return None;
    }
    cacheDict.entries := cacheDict.entries[key := hitComponent.value];
    return hitComponent;
  }

  /** The scan over the candidates: the first whose GameObject the segments accept. */
  method Scan(h: Host, components: seq<CompId>, searchKeys: seq<string>) returns (hitComponent: Option<CompId>)
    requires WellFormed(h) && AllLive(h, components)
    ensures hitComponent == FirstMatch(h, components, searchKeys)
  {
    hitComponent := None;
    var i := 0;
    while i < |components|
      invariant 0 <= i <= |components|
      invariant AllLive(h, components[i..])
      invariant FirstMatch(h, components, searchKeys) == FirstMatch(h, components[i..], searchKeys)
    {
      var hit := SegmentsMatch(h, h.components[components[i]].owner, searchKeys);
      if hit {
        hitComponent := Some(components[i]);
        break;
      }
      assert components[i..][1..] == components[i + 1..];
      i := i + 1;
    }
  }

  /** The key the lookup reads and writes. */
  function LookupKey(h: Host, findRoot: NodeId, path: Option<string>, typeName: TypeName): string
    requires findRoot in h.objects
  {
    GetKey(findRoot, EffectivePath(h, findRoot, path), typeName)
  }

  /** A null or empty path is the root's own name: all three share one cache entry and one result. */
  lemma LookupDefaultPath(h: Host, findRoot: NodeId, typeName: TypeName, includeInactive: bool, entries: map<string, CompId>)
    requires WellFormed(h) && findRoot in h.objects
    ensures Lookup(h, findRoot, None, typeName, includeInactive, entries)
         == Lookup(h, findRoot, Some(""), typeName, includeInactive, entries)
         == Lookup(h, findRoot, Some(h.objects[findRoot].name), typeName, includeInactive, entries)
    ensures LookupKey(h, findRoot, None, typeName) == GetKey(findRoot, h.objects[findRoot].name, typeName)
  {
  }

  /** A key that holds a live component of the requested type is served as is, the dictionary untouched. */
  lemma LookupHit(h: Host, findRoot: NodeId, path: Option<string>, typeName: TypeName,
                  includeInactive: bool, entries: map<string, CompId>)
    requires WellFormed(h) && findRoot in h.objects
    requires var key := LookupKey(h, findRoot, path, typeName);
             key in entries && IsLiveOf(h, entries[key], typeName)
    ensures Lookup(h, findRoot, path, typeName, includeInactive, entries)
         == Outcome(Some(entries[LookupKey(h, findRoot, path, typeName)]), entries)
  {
  }

  /** A dead or mistyped entry under the key is dropped: the lookup goes on as if the key were absent. */
  lemma LookupEvictsDead(h: Host, findRoot: NodeId, path: Option<string>, typeName: TypeName,
                         includeInactive: bool, entries: map<string, CompId>)
    requires WellFormed(h) && findRoot in h.objects
    requires var key := LookupKey(h, findRoot, path, typeName);
             key in entries && !IsLiveOf(h, entries[key], typeName)
    ensures Lookup(h, findRoot, path, typeName, includeInactive, entries)
         == Lookup(h, findRoot, path, typeName, includeInactive, entries - {LookupKey(h, findRoot, path, typeName)})
  {
    var key := LookupKey(h, findRoot, path, typeName);
    assert (entries - {key}) - {key} == entries - {key};
  }

  /**
   * After a lookup the key maps to the result, a live component of the requested
   * type, exactly when there is a result; no other key is added, removed or changed.
   */
  lemma LookupUpdatesOnlyItsKey(h: Host, findRoot: NodeId, path: Option<string>, typeName: TypeName,
                                includeInactive: bool, entries: map<string, CompId>)
    requires WellFormed(h) && findRoot in h.objects
    ensures var o := Lookup(h, findRoot, path, typeName, includeInactive, entries);
            var key := LookupKey(h, findRoot, path, typeName);
            && (key in o.entries <==> o.found.Some?)
            && (o.found.Some? ==> o.entries[key] == o.found.value && IsLiveOf(h, o.found.value, typeName))
            && (forall k | k != key :: (k in o.entries <==> k in entries) && (k in entries ==> o.entries[k] == entries[k]))
  {
    var p := EffectivePath(h, findRoot, path);
    var key := GetKey(findRoot, p, typeName);
    if !(key in entries && IsLiveOf(h, entries[key], typeName)) {
      var kept := entries - {key};
      assert key !in kept;
      assert forall k | k != key :: (k in kept <==> k in entries) && (k in kept ==> kept[k] == entries[k]);
      if !(h.objects[findRoot].name == p && GetComponentOn(h, findRoot, typeName).Some?) {
        var cands := h.componentsInChildren(findRoot, typeName, includeInactive);
        var m := FirstMatch(h, cands, Split(p, '/'));
        if m.Some? {
          var i :| 0 <= i < |cands| && cands[i] == m.value;
          assert IsLiveOf(h, cands[i], typeName);
        }
      }
    }
  }

  /** A lookup leaves every entry filed under another root as it was. */
  lemma LookupKeepsOtherRoots(h: Host, findRoot: NodeId, path: Option<string>, typeName: TypeName,
                              includeInactive: bool, entries: map<string, CompId>)
    requires WellFormed(h) && findRoot in h.objects
    ensures var o := Lookup(h, findRoot, path, typeName, includeInactive, entries);
            forall k | KeyRootId(k) != Some(findRoot) ::
              (k in o.entries <==> k in entries) && (k in entries ==> o.entries[k] == entries[k])
  {
    var p := EffectivePath(h, findRoot, path);
    KeyRootIdOfGetKey(findRoot, p, typeName);
    LookupUpdatesOnlyItsKey(h, findRoot, path, typeName, includeInactive, entries);
  }

  /**
   * Fast path: when the root's own name is the path and the root carries the type,
   * that component is the result and is cached, whatever the subtree holds.
   */
  lemma LookupFastPath(h: Host, findRoot: NodeId, path: Option<string>, typeName: TypeName,
                       includeInactive: bool, entries: map<string, CompId>,
                       enumeration: (NodeId, TypeName, bool) -> seq<CompId>)
    requires WellFormed(h) && findRoot in h.objects
    requires WellFormed(h.(componentsInChildren := enumeration))
    requires var key := LookupKey(h, findRoot, path, typeName);
             !(key in entries && IsLiveOf(h, entries[key], typeName))
    requires h.objects[findRoot].name == EffectivePath(h, findRoot, path)
    requires GetComponentOn(h, findRoot, typeName).Some?
    ensures var own := GetComponentOn(h, findRoot, typeName).value;
            var key := LookupKey(h, findRoot, path, typeName);
            Lookup(h, findRoot, path, typeName, includeInactive, entries) == Outcome(Some(own), (entries - {key})[key := own])
    ensures h.components[GetComponentOn(h, findRoot, typeName).value].owner == findRoot
    ensures Lookup(h.(componentsInChildren := enumeration), findRoot, path, typeName, includeInactive, entries)
         == Lookup(h, findRoot, path, typeName, includeInactive, entries)
  {
  }

  /** A cache hit does not consult the subtree: any enumeration gives the same outcome. */
  lemma LookupHitIgnoresSubtree(h: Host, findRoot: NodeId, path: Option<string>, typeName: TypeName,
                                includeInactive: bool, entries: map<string, CompId>,
                                enumeration: (NodeId, TypeName, bool) -> seq<CompId>)
    requires WellFormed(h) && findRoot in h.objects
    requires WellFormed(h.(componentsInChildren := enumeration))
    requires var key := LookupKey(h, findRoot, path, typeName);
             key in entries && IsLiveOf(h, entries[key], typeName)
    ensures Lookup(h.(componentsInChildren := enumeration), findRoot, path, typeName, includeInactive, entries)
         == Lookup(h, findRoot, path, typeName, includeInactive, entries)
  {
  }

  /**
   * The scan: off the cache and off the fast path, the result is the first candidate in
   * enumeration order that the path's segments accept; with none, nothing is cached.
   */
  lemma LookupSearch(h: Host, findRoot: NodeId, path: Option<string>, typeName: TypeName,
                     includeInactive: bool, entries: map<string, CompId>)
    requires WellFormed(h) && findRoot in h.objects
    requires var key := LookupKey(h, findRoot, path, typeName);
             !(key in entries && IsLiveOf(h, entries[key], typeName))
    requires !(h.objects[findRoot].name == EffectivePath(h, findRoot, path) && GetComponentOn(h, findRoot, typeName).Some?)
    ensures var o := Lookup(h, findRoot, path, typeName, includeInactive, entries);
            var cands := h.componentsInChildren(findRoot, typeName, includeInactive);
            var segments := Split(EffectivePath(h, findRoot, path), '/');
            var key := LookupKey(h, findRoot, path, typeName);
            && (o.found.Some? ==> exists i :: 0 <= i < |cands| && cands[i] == o.found.value &&
                                    Matches(h, h.components[cands[i]].owner, segments) &&
                                    forall j :: 0 <= j < i ==> !Matches(h, h.components[cands[j]].owner, segments))
            && (o.found.None? ==> (forall i :: 0 <= i < |cands| ==> !Matches(h, h.components[cands[i]].owner, segments)) &&
                                  o.entries == entries - {key})
  {
  }

  /**
   * A successful lookup makes the identical call (with either `includeInactive`)
   * a cache hit: the same component, the dictionary unchanged.
   */
  lemma {:induction false} LookupIdempotent(h: Host, findRoot: NodeId, path: Option<string>, typeName: TypeName,
                                            includeInactive: bool, again: bool, entries: map<string, CompId>)
    requires WellFormed(h) && findRoot in h.objects
    requires Lookup(h, findRoot, path, typeName, includeInactive, entries).found.Some?
    ensures var o := Lookup(h, findRoot, path, typeName, includeInactive, entries);
            Lookup(h, findRoot, path, typeName, again, o.entries) == o
  {
    LookupUpdatesOnlyItsKey(h, findRoot, path, typeName, includeInactive, entries);
  }

  /** The scene anchor's new root object does not change any lookup from an existing object. */
  lemma LookupIgnoresNewRoot(h: Host, name: string, scene: int, findRoot: NodeId, path: Option<string>,
                             typeName: TypeName, includeInactive: bool, entries: map<string, CompId>)
    requires WellFormed(h) && findRoot in h.objects
    ensures Lookup(AddRootObject(h, name, scene), findRoot, path, typeName, includeInactive, entries)
         == Lookup(h, findRoot, path, typeName, includeInactive, entries)
  {
    var h' := AddRootObject(h, name, scene);
    var cands := h.componentsInChildren(findRoot, typeName, includeInactive);
    assert findRoot != h.nextInstanceId;
    assert h'.componentsInChildren(findRoot, typeName, includeInactive) == cands;
    assert h'.objects[findRoot] == h.objects[findRoot];
    assert GetComponentOn(h', findRoot, typeName) == GetComponentOn(h, findRoot, typeName);
    AddRootObjectExtends(h, name, scene);
    FirstMatchExtends(h, h', cands, Split(EffectivePath(h, findRoot, path), '/'));
    LookupAgrees(h, h', findRoot, path, typeName, includeInactive, entries);
  }

  /** Two hosts that agree on everything a lookup from `findRoot` consults give the same outcome. */
  lemma LookupAgrees(h: Host, h': Host, findRoot: NodeId, path: Option<string>,
                     typeName: TypeName, includeInactive: bool, entries: map<string, CompId>)
    requires WellFormed(h) && findRoot in h.objects && WellFormed(h') && findRoot in h'.objects
    requires h'.objects[findRoot] == h.objects[findRoot] && h'.components == h.components
    requires GetComponentOn(h', findRoot, typeName) == GetComponentOn(h, findRoot, typeName)
    requires h'.componentsInChildren(findRoot, typeName, includeInactive) == h.componentsInChildren(findRoot, typeName, includeInactive)
    requires var cands := h.componentsInChildren(findRoot, typeName, includeInactive);
             FirstMatch(h', cands, Split(EffectivePath(h, findRoot, path), '/')) == FirstMatch(h, cands, Split(EffectivePath(h, findRoot, path), '/'))
    ensures Lookup(h', findRoot, path, typeName, includeInactive, entries) == Lookup(h, findRoot, path, typeName, includeInactive, entries)
  {
  }

  /** An extended host accepts the same first candidate. */
  lemma {:induction false} FirstMatchExtends(h: Host, h': Host, cands: seq<CompId>, segments: seq<string>)
    requires WellFormed(h) && WellFormed(h') && Extends(h, h') && AllLive(h, cands)
    ensures AllLive(h', cands) && FirstMatch(h', cands, segments) == FirstMatch(h, cands, segments)
    decreases |cands|
  {
    if cands != [] {
      var c := cands[0];
      assert c in h.components;
      var n := h.components[c].owner;
      assert n in h.objects;
      forall k: nat ensures ChainName(h', n, k) == ChainName(h, n, k) {
        ExtendsKeepsAncestors(h, h', n, k);
      }
      assert Accepts(h', cands[0], segments) == Accepts(h, cands[0], segments);
      FirstMatchExtends(h, h', cands[1..], segments);
    }
  }
}
