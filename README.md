# Matagi lookup-and-cache core in Dafny

Matagi is a Unity library. It finds a component of a requested type below a
search root, a GameObject, by a `/`-separated path of GameObject names. Each
hit is remembered in a `Dictionary<string, Component>` under the key
`"<instanceId>_<path>_<type>"`. A dictionary belongs to one of three scopes:

- `Static`: the finder's one shared dictionary.
- `Local`: a `LocalComponentCache` anchor found on the search root or above it,
  or added to the root's topmost ancestor.
- `Scene`: the single `SceneComponentCache` anchor of the root's scene.

The `Finder` keeps three registries that say which anchor serves which root
and which scene. The simple variant, `SimpleFinder`, has one anchor kind, no
registries, and a throw-away dictionary outside play mode.

The model has these parts:

- `Host` (`host.dfy`): the Unity state the finder reads, as a value. It holds
  the live GameObjects, each with a name, a parent, a depth, an active flag, a
  scene handle and its components. It also holds the live components, the
  host's own `GetComponentsInChildren` enumeration, each scene's root objects,
  and the next instance id. A destroyed object or component is a handle absent
  from these maps, which is how Unity's "fake null" is modelled.
- `FinderUtil` (`finder_util.dfy`):
  - the cache key `GetKey`;
  - the specification function `Lookup`, which gives the result and the
    dictionary left by one lookup;
  - the imperative `GetComponent`, `Scan` and `SegmentsMatch`, with loops,
    proved equal to `Lookup`;
  - lemmas about `Lookup`: cache hits, eviction of dead entries, the fast path,
    the scan order, that only one key changes, and idempotence.
- `Matagi` (`finder.dfy`):
  - the `LocalComponentCache` class; with `kind == SceneAnchor` it is a
    `SceneComponentCache`;
  - the editor snapshot `GroupByRoot`;
  - the static `Finder` as a class: the shared dictionary, the three registries
    and `DefaultCacheType` are its fields;
  - anchor resolution and creation, the clear and remove methods, and every
    `FindComponent` overload.
- `SimpleFinder` (`simple_finder.dfy`): `SimpleLocalComponentCache` and the
  eight `SimpleFinder.FindComponent` overloads.
- `CacheTypes` (`cache_type.dfy`): the `CacheType` enum, how a missing scope
  defaults, and when the shared dictionary is used.
- `Text` (`text.dfy`): the helpers the key format needs:
  - `int.ToString`, and a strict `int.Parse`;
  - `StartsWith`, `string.Split` and its inverse `Join`.

Integers are unbounded. The host is read-only during a lookup. The finder
changes the host in two ways:

- It creates a new `[SceneComponentCache]` root object. This is
  `AddRootObject`.
- It adds anchor components: `AddComponent<LocalComponentCache>`,
  `AddComponent<SceneComponentCache>` and
  `AddComponent<SimpleLocalComponentCache>`. These anchors are kept in the
  world's `caches` map beside the host, not among the host's components.

`Application.isPlaying` is a parameter. An `Action<T>` callback is modelled by whether one is given (`hasLoaded`) and by what it would receive
(`delivered`). `Debug.LogError` is modelled by a `logged` result.

## Model

| member | source | states |
|---|---|---|
| FinderUtil.EffectivePath | Assets/Matagi/Runtime/FinderUtil.cs:19-22 | the path searched is the root's own name or the given path, and it is empty only when the root's name is empty |
| FinderUtil.Lookup | Assets/Matagi/Runtime/FinderUtil.cs:12-80 | the specification of one lookup: a result is always a live component of the requested type and is then filed under the lookup's key; with no result the dictionary loses only that key |
| FinderUtil.KeyRootId | Assets/Matagi/Runtime/LocalComponentCache.cs:53-54 | `int.Parse` of the text before a key's first `_`, None where the parse throws; its properties are `KeyRootIdOfGetKey` and `KeyRootIdOfPrefix` |
| FinderUtil.GetKey | Assets/Matagi/Runtime/FinderUtil.cs:82-85 | the key starts with the root's instance id followed by `_` |
| FinderUtil.KeyRootIdOfGetKey | Assets/Matagi/Runtime/LocalComponentCache.cs:53-54 | parsing the text before a key's first `_` gives back the root id the key was built for |
| FinderUtil.KeyRootIdOfPrefix | Assets/Matagi/Runtime/LocalComponentCache.cs:53-54 | any key that starts with `id + "_"` is filed under `id` by the snapshot's parse |
| FinderUtil.KeyPrefixSelectsRoot | Assets/Matagi/Runtime/Finder.cs:287 | a key built for one root starts with another id's text followed by `_` exactly when the two ids are equal, so the prefix test selects exactly one root's keys |
| FinderUtil.FirstMatch | Assets/Matagi/Runtime/FinderUtil.cs:46-75 | the result is the first candidate in enumeration order whose GameObject the segments accept, and every earlier candidate is rejected; None means no candidate is accepted |
| FinderUtil.SegmentsMatch | Assets/Matagi/Runtime/FinderUtil.cs:49-72 | the backward loop over the segments, stepping up the parent chain and comparing `""` past the topmost ancestor, returns true exactly when the last segment names the GameObject, the one before it its parent, and so on |
| FinderUtil.Scan | Assets/Matagi/Runtime/FinderUtil.cs:43-75 | the foreach with its early `break` returns the first accepted candidate (`FirstMatch`) |
| FinderUtil.GetComponent | Assets/Matagi/Runtime/FinderUtil.cs:12-80 | the in-place lookup returns exactly the result of `Lookup` and leaves the dictionary exactly as `Lookup` says |
| FinderUtil.LookupDefaultPath | Assets/Matagi/Runtime/FinderUtil.cs:19-24 | a null path, an empty path and the root's own name give the same key, the same result and the same dictionary |
| FinderUtil.LookupHit | Assets/Matagi/Runtime/FinderUtil.cs:25-28 | a live cached component of the requested type is returned as is, and the dictionary is untouched |
| FinderUtil.LookupEvictsDead | Assets/Matagi/Runtime/FinderUtil.cs:25-30 | a destroyed or mistyped cached entry is removed, and the lookup then behaves as if the key had never been cached |
| FinderUtil.LookupFastPath | Assets/Matagi/Runtime/FinderUtil.cs:32-41 | when the path is the root's own name and the root carries the type, that component is returned and cached, whatever the subtree enumeration holds |
| FinderUtil.LookupHitIgnoresSubtree | Assets/Matagi/Runtime/FinderUtil.cs:25-28 | a cache hit returns before the subtree is enumerated: any enumeration gives the same outcome |
| FinderUtil.LookupSearch | Assets/Matagi/Runtime/FinderUtil.cs:43-79 | off the cache and the fast path, the result is the first candidate whose chain of names the path's segments match, and all earlier candidates fail; with no match nothing is cached and the dead key stays removed |
| FinderUtil.LookupUpdatesOnlyItsKey | Assets/Matagi/Runtime/FinderUtil.cs:24-79 | after a lookup its key is present exactly when there is a result; it then maps to that result, a live component of the requested type; every other key keeps its presence and its value |
| FinderUtil.LookupKeepsOtherRoots | Assets/Matagi/Runtime/FinderUtil.cs:24-79 | a lookup leaves every entry filed under another root as it was |
| FinderUtil.LookupIdempotent | Assets/Matagi/Runtime/FinderUtil.cs:25-28 | after a successful lookup, repeating it (with either `includeInactive`) on the new dictionary is a cache hit that returns the same component and changes nothing |
| FinderUtil.LookupIgnoresNewRoot | Assets/Matagi/Runtime/Finder.cs:329-338 | adding the scene anchor's new root object to the host changes no lookup from an existing GameObject |
| FinderUtil.LookupAgrees | Assets/Matagi/Runtime/FinderUtil.cs:12-80 | two hosts that agree on the root, its components, its enumeration and the matching of its candidates give the same lookup outcome |
| FinderUtil.FirstMatchExtends | Assets/Matagi/Runtime/FinderUtil.cs:47-75 | a host that only gains objects accepts the same first candidate |
| Text.ParseIntToString | Assets/Matagi/Runtime/LocalComponentCache.cs:53-54 | `int.Parse` of `id.ToString()` gives back `id` |
| Text.SplitHead | Assets/Matagi/Runtime/LocalComponentCache.cs:54 | the first `_`-part of `prefix + "_" + rest` is `prefix`, when `prefix` has no `_` |
| Text.JoinSplit | Assets/Matagi/Runtime/FinderUtil.cs:44 | joining the parts of `path.Split('/')` with `/` gives back the path |
| Text.SplitJoin | Assets/Matagi/Runtime/FinderUtil.cs:44 | splitting the join of parts without `/` gives back the parts |
| Host.GameObjectOf | Assets/Matagi/Runtime/Finder.cs:71-72 | `com.gameObject` behind the `com == null` guard: the owner of a live component, and None exactly where the guard returns, for a null or destroyed component |
| Host.GameObjectOfLive | Assets/Matagi/Runtime/Finder.cs:45 | a live component's GameObject is live, and a dead component gives none |
| Host.GetComponentOn | Assets/Matagi/Runtime/FinderUtil.cs:34 | `GetComponent<T>()` returns a live `T` attached to the root itself; None means the root carries no live `T` |
| Host.GetComponentOnFirst | Assets/Matagi/Runtime/FinderUtil.cs:34 | the `T` that `GetComponent<T>()` returns is the first live `T` in the object's component order |
| Host.Root | Assets/Matagi/Runtime/Finder.cs:362 | `obj.Root()` is the ancestor reached after `depth` steps up, and it has no parent |
| Host.RootOfParent | Assets/Matagi/Runtime/Finder.cs:362 | a GameObject and its parent share their topmost ancestor |
| Host.NearestCarrier | Assets/Matagi/Runtime/Finder.cs:360-361 | `GetComponent` then `GetComponentInParent` finds the nearest of the object and its ancestors carrying an anchor; every nearer one carries none; None means none on the chain does |
| Host.NearestCarrierAfterRootAdded | Assets/Matagi/Runtime/Finder.cs:358-363 | once an anchor has been added to the topmost ancestor, the next resolution from the same GameObject finds that anchor |
| Host.AddRootObject | Assets/Matagi/Runtime/Finder.cs:329-335 | `new GameObject(name)` moved to the scene is a new active root with the next instance id and no components, appended to that scene's roots; the subtree enumeration of every existing object is unchanged and that of the new one is empty; the host stays well formed |
| Host.AddRootObjectExtends | Assets/Matagi/Runtime/Finder.cs:329-335 | adding the root object keeps every existing object and component as it was |
| Host.ExtendsKeepsAncestors | Assets/Matagi/Runtime/Finder.cs:329-335 | in an extended host every existing object has the same chain of ancestors |
| Matagi.GroupByRoot | Assets/Matagi/Runtime/LocalComponentCache.cs:49-59 | the snapshot fails exactly when some key does not start with an integer; otherwise every entry is under its key's root id with its value, every group entry is a dictionary entry filed under that id, and no group is empty |
| Matagi.GroupByRootOfLookups | Assets/Matagi/Runtime/LocalComponentCache.cs:49-59 | a lookup keeps a dictionary snapshot-able: the key it writes always starts with an integer |
| Matagi.HasSceneCache | Assets/Matagi/Runtime/Finder.cs:371-372 | `root.GetComponent<SceneComponentCache>() != null`: the root carries an anchor of the scene kind |
| Matagi.SceneRoots | Assets/Matagi/Runtime/Finder.cs:370 | `obj.scene.GetRootGameObjects()`: the scene's root objects in order, none for an unknown scene |
| Matagi.FirstSceneCacheAppended | Assets/Matagi/Runtime/Finder.cs:370-372 | when no root carries a scene anchor, appending a root that carries one makes that anchor the first found |
| Matagi.SceneAnchorFoundAfterCreate | Assets/Matagi/Runtime/Finder.cs:329-338 | a scene anchor created for a scene that had none is found on that scene's roots by the next resolution, in the world its creation leaves, whatever the registries hold |
| CacheTypes.EffectiveCacheType | Assets/Matagi/Runtime/Finder.cs:252 | `cacheType ?? DefaultCacheType`: the requested scope, else the default |
| CacheTypes.UsesSharedDictionary | Assets/Matagi/Runtime/CacheType.cs:6-26 | the `Static` scope is the one kept in the static member, and the branch at `Finder.cs` line 253 uses that shared dictionary for `Static` or when the host is not playing |
| CacheTypes.DictionaryChoice | Assets/Matagi/Runtime/Finder.cs:252-253 | the shared dictionary is used exactly when the host is not playing, or `Static` is requested, or no scope is requested and the default is `Static`; `Local` and `Scene` in play mode use an anchor |
| Matagi.FirstSceneCache | Assets/Matagi/Runtime/Finder.cs:370-372 | the first scene root, in order, carrying a `SceneComponentCache`, and that anchor; None means no root carries one |
| Matagi.LocalComponentCache.constructor | Assets/Matagi/Runtime/LocalComponentCache.cs:24 | a new anchor owns a new empty dictionary |
| Matagi.LocalComponentCache.GetComponent | Assets/Matagi/Runtime/LocalComponentCache.cs:27-40 | the anchor's dictionary goes through exactly one `Lookup` from the given root; the snapshot is marked stale |
| Matagi.LocalComponentCache.RefreshVisualization | Assets/Matagi/Runtime/LocalComponentCache.cs:47-60 | with the stale flag set and every key parseable, the snapshot becomes `GroupByRoot` of the entries and the flag clears; otherwise both stay as they were; the entries never change |
| Matagi.LocalComponentCache.OnDestroy | Assets/Matagi/Runtime/LocalComponentCache.cs:101-117 | the dictionary is emptied and the snapshot marked stale; a local anchor is deregistered by its GameObject id, and a scene anchor by its scene handle, the override in `SceneComponentCache.cs` lines 8-11 |
| Matagi.GetLocalComponentCache | Assets/Matagi/Runtime/Finder.cs:358-363 | the anchor on the object itself, else the one on its nearest ancestor, else a new local anchor with an empty dictionary on the topmost ancestor; the world stays well formed |
| Matagi.CreateSceneComponentCache | Assets/Matagi/Runtime/Finder.cs:329-338 | a new `[SceneComponentCache]` root object in the object's scene, carrying a new scene anchor with an empty dictionary |
| Matagi.SearchAfterSceneResolution | Assets/Matagi/Runtime/Finder.cs:255-259 | searching a scene anchor in the host left by its creation is the lookup in the host before it |
| Matagi.FindComponentIn | Assets/Matagi/Runtime/Finder.cs:176-185 | a null root or a null dictionary returns null and changes nothing; otherwise the caller's dictionary goes through one `Lookup` |
| Matagi.FindComponentInThen | Assets/Matagi/Runtime/Finder.cs:144-163 | as `FindComponentIn`, then a hit is handed to `loaded` when one is given, and a miss is logged |
| Matagi.FindComponentFromIn | Assets/Matagi/Runtime/Finder.cs:64-79 | a null or destroyed component returns null; otherwise the lookup runs from the component's GameObject |
| Matagi.FindComponentFromInThen | Assets/Matagi/Runtime/Finder.cs:36-51 | the callback lookup from a live component's GameObject |
| Matagi.Finder.constructor | Assets/Matagi/Runtime/Finder.cs:16-25 | empty shared dictionary and registries, and `Scene` as the default scope |
| Matagi.Finder.ClearCache | Assets/Matagi/Runtime/Finder.cs:271-277 | the shared dictionary becomes empty |
| Matagi.Finder.ClearCacheFromParentInstanceId | Assets/Matagi/Runtime/Finder.cs:283-293 | exactly the entries whose key starts with `instanceId + "_"` are removed, and the rest keep their values |
| Matagi.Finder.ClearCacheFromParentObject | Assets/Matagi/Runtime/Finder.cs:299-302 | every shared entry searched from the object is gone, every entry searched from another root is kept with its value, and no key is added |
| Matagi.Finder.ClearComponentCacheMap | Assets/Matagi/Runtime/Finder.cs:304-309 | all three registries become empty |
| Matagi.Finder.RemoveLocalComponentCache | Assets/Matagi/Runtime/Finder.cs:311-322 | the anchor's entry and exactly the root mappings that point to it are removed; the other mappings and the scene registry are unchanged; registry consistency is kept |
| Matagi.Finder.RemoveSceneComponentCache | Assets/Matagi/Runtime/Finder.cs:324-327 | only the scene's entry is removed; registry consistency is kept |
| Matagi.Finder.GetOrCreateLocalComponentCache | Assets/Matagi/Runtime/Finder.cs:340-364 | a mapped root reuses its registered anchor; a mapped root whose anchor entry is gone re-resolves and files the result under the old key; an unmapped root resolves, files the anchor under its GameObject id and maps the root to it; no existing anchor or dictionary changes and the static dictionary stays unshared |
| Matagi.Finder.MappedRootRegistered | Assets/Matagi/Runtime/Finder.cs:343-347 | in a consistent registry, which every registry method preserves, a mapped root always has its anchor entry, so the mapped-but-missing quirk is unreachable |
| Matagi.Finder.GetOrCreateSceneComponentCache | Assets/Matagi/Runtime/Finder.cs:366-374 | a registered scene anchor is reused; otherwise the first scene root carrying one, else a newly created one, is registered under the scene handle |
| Matagi.Finder.SearchLocalAnchor | Assets/Matagi/Runtime/Finder.cs:255-259 | the local-scope branch: only the resolved anchor and its dictionary change, through one lookup that starts empty when the anchor is new; a newly created anchor comes with a new dictionary, so no existing anchor's entries change |
| Matagi.Finder.SearchSceneAnchor | Assets/Matagi/Runtime/Finder.cs:255-259 | the scene-scope branch: the same, with the scene's anchor |
| Matagi.Finder.FindComponent | Assets/Matagi/Runtime/Finder.cs:244-266 | a null root returns null and changes nothing; the `Static` scope, or a host not playing, runs one lookup in the shared dictionary and touches no anchor; otherwise the scope's anchor is resolved and its dictionary alone goes through one lookup; an anchor created on the way has a new dictionary of its own |
| Matagi.Finder.FindComponentThen | Assets/Matagi/Runtime/Finder.cs:196-231 | the same choice of dictionary, then a hit is handed to `loaded` when one is given, and a miss on a live root is logged |
| Matagi.Finder.FindComponentFrom | Assets/Matagi/Runtime/Finder.cs:118-133 | the scoped lookup from the component's GameObject; a null component returns null |
| Matagi.Finder.FindComponentFromThen | Assets/Matagi/Runtime/Finder.cs:90-105 | the scoped callback lookup from a live component's GameObject |
| SimpleFinder.SimpleLocalComponentCache.constructor | Assets/Matagi/Runtime/Simple/SimpleLocalComponentCache.cs:13 | a new anchor owns a new empty dictionary |
| SimpleFinder.SimpleLocalComponentCache.GetComponent | Assets/Matagi/Runtime/Simple/SimpleLocalComponentCache.cs:16-32 | the anchor's dictionary goes through exactly one `Lookup` |
| SimpleFinder.SimpleLocalComponentCache.OnDestroy | Assets/Matagi/Runtime/Simple/SimpleLocalComponentCache.cs:34-40 | the dictionary becomes empty |
| SimpleFinder.ResolveAnchor | Assets/Matagi/Runtime/Simple/SimpleFinder.cs:187-189 | the anchor on the object, else on its nearest ancestor, else a new one with an empty dictionary on the topmost ancestor; the host is unchanged |
| SimpleFinder.FindComponent | Assets/Matagi/Runtime/Simple/SimpleFinder.cs:170-192 | a null root returns null; outside play mode the result is a lookup in an empty dictionary and no anchor's dictionary changes; in play mode only the resolved anchor's dictionary changes, through one lookup |
| SimpleFinder.FindComponentThen | Assets/Matagi/Runtime/Simple/SimpleFinder.cs:124-158 | the same lookup, then a hit is handed to `loaded` when one is given, and a miss is logged |
| SimpleFinder.FindComponentFrom | Assets/Matagi/Runtime/Simple/SimpleFinder.cs:101-114 | the lookup from the component's GameObject; a null component returns null |
| SimpleFinder.FindComponentFromThen | Assets/Matagi/Runtime/Simple/SimpleFinder.cs:76-89 | the callback lookup from a live component's GameObject |
| SimpleFinder.FindComponentIn | Assets/Matagi/Runtime/Simple/SimpleFinder.cs:235-244 | a null root or a null dictionary returns null and changes nothing; otherwise the caller's dictionary goes through one `Lookup` |
| SimpleFinder.FindComponentInThen | Assets/Matagi/Runtime/Simple/SimpleFinder.cs:203-222 | as `FindComponentIn`, then a hit is handed to `loaded` when one is given, and a miss is logged |
| SimpleFinder.FindComponentFromIn | Assets/Matagi/Runtime/Simple/SimpleFinder.cs:51-66 | the caller-dictionary lookup from the component's GameObject; a null component returns null |
| SimpleFinder.FindComponentFromInThen | Assets/Matagi/Runtime/Simple/SimpleFinder.cs:23-38 | the caller-dictionary callback lookup from a live component's GameObject |

## Left out

- Locks (`lock (...)`) and thread interleavings: each method runs atomically.
- The editor gizmo drawing in `LocalComponentCache` (colours, arrows, selection) is left out. Only the snapshot step of `OnDrawGizmos` (`RefreshVisualization`) is modelled.
- Debug.LogError's message text is left out. Only whether a miss is logged is modelled.
- The `loaded` delegate's own effects are left out. Only what it would be handed is modelled.
- `IComponentCache` dispatch is a direct call on the anchor class. In `Simple/SimpleFinder.cs` lines 143 and 187 a `SimpleLocalComponentCache` is assigned to an `IComponentCache` variable, but that class (`Simple/SimpleLocalComponentCache.cs` line 11) derives from `MonoBehaviour` only, so the assignment does not type-check as written; the model follows the evident direct call.
- `SceneComponentCache` is `LocalComponentCache` with a kind field, because the model has no class inheritance.
- Matagi.GroupByRoot: the snapshot's `Component[]` groups are sub-maps keyed by cache key, so the order of the components in each array is not modelled.
- Unity's `GetComponentsInChildren` enumeration is a host-supplied function; the model assumes only that it yields live components of the requested type, active ones unless `includeInactive`. Its pre-order is not modelled.
- Host.NearestCarrier: Unity's `GetComponentInParent` without `includeInactive` skips inactive ancestors; the model searches the whole chain.
- Host.GameObjectOf: where the source reads `com.gameObject` without a guard, a null or destroyed component throws; the model gives None there, and the overloads that do so require a live component instead.
- Anchor components the finder adds (`AddComponent` in `Finder.cs` lines 331 and 362 and `SimpleFinder.cs` lines 145 and 189) live in the world's `caches` map only. They are not added to the host's components or to its subtree enumeration. So a later lookup for an anchor type never finds a finder-created anchor as a candidate, and the new `[SceneComponentCache]` root has no components in the host.
- Type identity is the type's full name: `as T` and `GetComponent<T>` match one exact type, not subclasses.
- Text.ParseInt: `int.Parse` accepts leading signs, whitespace and culture-specific forms and throws outside the Int32 range; the model accepts only an optional `-` followed by decimal digits, with unbounded integers.
- String comparison and `StartsWith` are ordinal, with no culture rules.
- Instance ids are unbounded integers; Unity's 32-bit ids are not modelled.
- Host.AddRootObject: a new GameObject takes the next id above all live ones, whereas Unity's id allocation is not specified.
- Key injectivity is not claimed: a path or type name containing `_` can make two different searches share a key, as in the source.
- Matagi.Finder.FindComponentFromThen, Matagi.FindComponentFromInThen, SimpleFinder.FindComponentFromThen, SimpleFinder.FindComponentFromInThen: these require a live component, because the source reads `com.gameObject` unguarded and throws otherwise.
- SimpleFinder.FindComponentThen: requires a live GameObject, because the source calls into it without a null check.
- Matagi.Finder.SearchSceneAnchor: states its lookup against the host before the scene anchor's root object was created; `LookupIgnoresNewRoot` shows the two agree.
- `SceneManager.MoveGameObjectToScene` is folded into `AddRootObject`, which creates the object directly in the target scene.
- Scene unloading and GameObject destruction by the host are not operations of the model. They show up only as objects and components missing from a later host.
- `Application.isPlaying` and `Finder.DefaultCacheType` are inputs: a parameter and a field.
