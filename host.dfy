/**
 * The Unity host the finder runs against, as a value: live GameObjects with
 * their names, parents and attached components, the live components, the
 * host's own subtree enumeration and the root objects of each scene. The
 * finder only reads this state; creating a cache anchor produces a new one.
 */
module Host {
  import opened Wrappers

  /** `GameObject.GetInstanceID()`. */
  type NodeId = int
  /** The identity of one component instance. */
  type CompId = int
  /** `typeof(T).ToString()`: the full name of a component type, which also identifies the type. */
  type TypeName = string

  datatype GameObject = GameObject(
    name: string,
    parent: Option<NodeId>,    // `transform.parent`, None for a scene root
    depth: nat,                // number of ancestors, 0 for a scene root
    active: bool,              // `activeSelf`
    scene: int,                // `scene.handle`
    components: seq<CompId>)   // attached components, in the order `GetComponent` scans them

  datatype ComponentInfo = ComponentInfo(owner: NodeId, typeName: TypeName)

  datatype Host = Host(
    objects: map<NodeId, GameObject>,
    /** Live components; a handle missing here compares equal to null ("fake null"). */
    components: map<CompId, ComponentInfo>,
    /** `root.GetComponentsInChildren<T>(includeInactive)`: the host's pre-order enumeration. */
    componentsInChildren: (NodeId, TypeName, bool) -> seq<CompId>,
    /** `scene.GetRootGameObjects()`, per scene handle. */
    sceneRoots: map<int, seq<NodeId>>,
    /** Every live GameObject id is below this one; a new GameObject takes it. */
    nextInstanceId: NodeId)

  /** `c as T != null`: the handle is live and its type is `typeName`. */
  predicate IsLiveOf(h: Host, c: CompId, typeName: TypeName) {
    c in h.components && h.components[c].typeName == typeName
  }

  /** A GameObject reference that is null, or whose object was destroyed, compares equal to null. */
  predicate IsNull(h: Host, obj: Option<NodeId>) {
    obj.None? || obj.value !in h.objects
  }

  /** A component reference that is null, or whose component was destroyed, compares equal to null. */
  predicate IsNullComponent(h: Host, com: Option<CompId>) {
    com.None? || com.value !in h.components
  }

  /**
   * `com.gameObject` behind a `com == null` guard: the GameObject the component is
   * attached to, and None where the guard returns (a null or destroyed component).
   */
  function GameObjectOf(h: Host, com: Option<CompId>): (obj: Option<NodeId>)
    ensures obj.None? <==> IsNullComponent(h, com)
    ensures obj.Some? ==> obj.value == h.components[com.value].owner
  {
    if IsNullComponent(h, com) then None else Some(h.components[com.value].owner)
  }

  ghost predicate ParentLinked(h: Host, n: NodeId)
    requires n in h.objects
  {
    match h.objects[n].parent
    case None => h.objects[n].depth == 0
    case Some(p) => p in h.objects && h.objects[p].depth + 1 == h.objects[n].depth
  }

  /** Every parent link leads one level up to an existing object. */
  ghost predicate Linked(h: Host) {
    forall n {:trigger ParentLinked(h, n)} | n in h.objects :: ParentLinked(h, n)
  }

  /** What the host guarantees about its own state. */
  ghost predicate WellFormed(h: Host) {
    && Linked(h)
    && (forall n | n in h.objects :: n < h.nextInstanceId)
    && (forall n, i | n in h.objects && 0 <= i < |h.objects[n].components| && h.objects[n].components[i] in h.components ::
          h.components[h.objects[n].components[i]].owner == n)
    && (forall c | c in h.components :: h.components[c].owner in h.objects)
    && (forall n, t, b, i | 0 <= i < |h.componentsInChildren(n, t, b)| ::
          IsLiveOf(h, h.componentsInChildren(n, t, b)[i], t) &&
          (!b ==> h.objects[h.components[h.componentsInChildren(n, t, b)[i]].owner].active))
  }

  /** The `k`-th ancestor of `n` (`n` itself for `k == 0`), None once the chain runs out. */
  function Ancestor(h: Host, n: NodeId, k: nat): (a: Option<NodeId>)
    requires Linked(h) && n in h.objects
    ensures a.Some? ==> a.value in h.objects && h.objects[a.value].depth + k == h.objects[n].depth
    ensures a.None? <==> k > h.objects[n].depth
    decreases k
  {
    if k == 0 then Some(n)
    else match Ancestor(h, n, k - 1)
      case None => None
      case Some(b) => assert ParentLinked(h, b); h.objects[b].parent
  }

  /** One step up the chain: the next ancestor is the parent of the current one. */
  lemma AncestorStep(h: Host, n: NodeId, k: nat)
    requires WellFormed(h) && n in h.objects
    ensures ChainName(h, n, k + 1) == (match Ancestor(h, n, k + 1) case None => "" case Some(a) => h.objects[a].name)
    ensures Ancestor(h, n, k + 2) == (match Ancestor(h, n, k + 1) case None => None case Some(a) => h.objects[a].parent)
  {
  }

  /** A live component's GameObject is live. */
  lemma GameObjectOfLive(h: Host, com: Option<CompId>)
    requires WellFormed(h)
    ensures !IsNull(h, GameObjectOf(h, com)) <==> !IsNullComponent(h, com)
  {
    if !IsNullComponent(h, com) {
      var c := com.value;
      assert c in h.components;
      assert h.components[c].owner in h.objects;
    }
  }

  /** An element of a set that is not empty. */
  lemma Pick<T>(s: set<T>) returns (x: T)
    requires s != {}
    ensures x in s
  {
    x :| x in s;
  }

  /** Walking up from `n` one step is walking up from its parent one step less. */
  lemma {:induction false} AncestorOfParent(h: Host, n: NodeId, k: nat)
    requires Linked(h) && n in h.objects && h.objects[n].parent.Some? && h.objects[n].parent.value in h.objects
    ensures Ancestor(h, n, k + 1) == Ancestor(h, h.objects[n].parent.value, k)
    decreases k
  {
    if k > 0 {
      AncestorOfParent(h, n, k - 1);
    }
  }

  /** `obj.Root()`: the topmost ancestor. */
  function Root(h: Host, n: NodeId): (r: NodeId)
    requires WellFormed(h) && n in h.objects
    ensures r in h.objects && h.objects[r].parent.None?
    ensures Ancestor(h, n, h.objects[n].depth) == Some(r)
  {
    var r := Ancestor(h, n, h.objects[n].depth).value;
    assert ParentLinked(h, r);
    r
  }

  /** The name at distance `k` up the chain from `n`; `""` beyond the topmost ancestor. */
  function ChainName(h: Host, n: NodeId, k: nat): string
    requires Linked(h) && n in h.objects
  {
    match Ancestor(h, n, k)
    case None => ""
    case Some(a) => h.objects[a].name
  }

  /**
   * `GetComponentInParent`: the nearest of `n` and its ancestors that is in `carriers`
   * (the GameObjects carrying the component asked for).
   */
  function NearestCarrier(h: Host, n: NodeId, carriers: set<NodeId>): (r: Option<NodeId>)
    requires WellFormed(h) && n in h.objects
    ensures r.Some? ==> r.value in carriers
    ensures r.Some? ==> exists k :: 0 <= k <= h.objects[n].depth && Ancestor(h, n, k) == r &&
                          forall j :: 0 <= j < k ==> Ancestor(h, n, j).value !in carriers
    ensures r.None? ==> forall k :: 0 <= k <= h.objects[n].depth ==> Ancestor(h, n, k).value !in carriers
    decreases h.objects[n].depth
  {
    assert ParentLinked(h, n);
    if n in carriers then
      assert Ancestor(h, n, 0) == Some(n);
      Some(n)
    else match h.objects[n].parent
      case None => None
      case Some(p) =>
        var r := NearestCarrier(h, p, carriers);
        assert forall k :: 0 <= k <= h.objects[p].depth ==> Ancestor(h, n, k + 1) == Ancestor(h, p, k) by {
          forall k | 0 <= k <= h.objects[p].depth ensures Ancestor(h, n, k + 1) == Ancestor(h, p, k) {
            AncestorOfParent(h, n, k);
          }
        }
        if r.Some? then
          var k :| 0 <= k <= h.objects[p].depth && Ancestor(h, p, k) == r &&
                   forall j :: 0 <= j < k ==> Ancestor(h, p, j).value !in carriers;
          assert Ancestor(h, n, k + 1) == r;
          assert forall j :: 0 <= j < k + 1 ==> Ancestor(h, n, j).value !in carriers by {
            forall j | 0 <= j < k + 1 ensures Ancestor(h, n, j).value !in carriers {
              if j > 0 { assert Ancestor(h, n, j) == Ancestor(h, p, j - 1); }
            }
          }
          r
        else
          assert forall k :: 0 <= k <= h.objects[n].depth ==> Ancestor(h, n, k).value !in carriers by {
            forall k | 0 <= k <= h.objects[n].depth ensures Ancestor(h, n, k).value !in carriers {
              if k > 0 { assert Ancestor(h, n, k) == Ancestor(h, p, k - 1); }
            }
          }
          r
  }

  /** A GameObject and its parent share their topmost ancestor. */
  lemma RootOfParent(h: Host, n: NodeId)
    requires WellFormed(h) && n in h.objects && h.objects[n].parent.Some?
    ensures h.objects[n].parent.value in h.objects
    ensures Root(h, h.objects[n].parent.value) == Root(h, n)
  {
    assert ParentLinked(h, n);
    var p := h.objects[n].parent.value;
    AncestorOfParent(h, n, h.objects[p].depth);
  }

  /**
   * Once an anchor is added to the topmost ancestor of a GameObject whose chain had
   * none, the nearest carrier from that GameObject is that topmost ancestor.
   */
  lemma {:induction false} NearestCarrierAfterRootAdded(h: Host, n: NodeId, carriers: set<NodeId>)
    requires WellFormed(h) && n in h.objects && NearestCarrier(h, n, carriers).None?
    ensures NearestCarrier(h, n, carriers + {Root(h, n)}) == Some(Root(h, n))
    decreases h.objects[n].depth
  {
    assert ParentLinked(h, n);
    assert Ancestor(h, n, 0) == Some(n);
    match h.objects[n].parent
    case None =>
      assert Root(h, n) == n;
    case Some(p) =>
      RootOfParent(h, n);
      assert n != Root(h, n) by {
        assert h.objects[Root(h, n)].parent.None?;
      }
      NearestCarrierAfterRootAdded(h, p, carriers);
  }

  /** The first live component of type `typeName` among `cs`. */
  function FirstOfType(h: Host, cs: seq<CompId>, typeName: TypeName): (r: Option<CompId>)
    ensures r.Some? ==> exists i :: 0 <= i < |cs| && cs[i] == r.value && IsLiveOf(h, cs[i], typeName) &&
                          forall j :: 0 <= j < i ==> !IsLiveOf(h, cs[j], typeName)
    ensures r.None? ==> forall i :: 0 <= i < |cs| ==> !IsLiveOf(h, cs[i], typeName)
    decreases |cs|
  {
    if cs == [] then None
    else if IsLiveOf(h, cs[0], typeName) then Some(cs[0])
    else
      var r := FirstOfType(h, cs[1..], typeName);
      assert forall i :: 1 <= i < |cs| ==> cs[i] == cs[1..][i - 1];
      r
  }

  /** `gameObject.GetComponent<T>()`: the first live `T` attached to `n`, owned by `n`. */
  function GetComponentOn(h: Host, n: NodeId, typeName: TypeName): (r: Option<CompId>)
    requires WellFormed(h) && n in h.objects
    ensures r.Some? ==> IsLiveOf(h, r.value, typeName) && h.components[r.value].owner == n
    ensures r.None? ==> forall c | c in h.objects[n].components :: !IsLiveOf(h, c, typeName)
  {
    FirstOfType(h, h.objects[n].components, typeName)
  }

  /** What `GetComponent<T>()` finds is the first live `T` in the object's component order. */
  lemma GetComponentOnFirst(h: Host, n: NodeId, typeName: TypeName)
    requires WellFormed(h) && n in h.objects
    ensures var r := GetComponentOn(h, n, typeName);
            var cs := h.objects[n].components;
            r.Some? ==> exists i :: 0 <= i < |cs| && cs[i] == r.value && forall j :: 0 <= j < i ==> !IsLiveOf(h, cs[j], typeName)
  {
  }

  /**
   * `new GameObject(name)` moved into `scene`: an active scene root without
   * components, with the next instance id, listed after the scene's other roots.
   */
  function AddRootObject(h: Host, name: string, scene: int): (h': Host)
    ensures h'.objects == h.objects[h.nextInstanceId := GameObject(name, None, 0, true, scene, [])]
    ensures h'.components == h.components && h'.nextInstanceId == h.nextInstanceId + 1
    ensures scene in h'.sceneRoots && h'.sceneRoots[scene] == (if scene in h.sceneRoots then h.sceneRoots[scene] else []) + [h.nextInstanceId]
    ensures forall s | s != scene :: (s in h'.sceneRoots <==> s in h.sceneRoots) && (s in h.sceneRoots ==> h'.sceneRoots[s] == h.sceneRoots[s])
    ensures forall n, t, b | n != h.nextInstanceId :: h'.componentsInChildren(n, t, b) == h.componentsInChildren(n, t, b)
    ensures forall t, b :: h'.componentsInChildren(h.nextInstanceId, t, b) == []
    ensures WellFormed(h) ==> WellFormed(h')
  {
    var id := h.nextInstanceId;
    var roots := if scene in h.sceneRoots then h.sceneRoots[scene] else [];
    var enumerate := h.componentsInChildren;
    var h' := Host(h.objects[id := GameObject(name, None, 0, true, scene, [])],
                   h.components,
                   (n: NodeId, t: TypeName, b: bool) => if n == id then [] else enumerate(n, t, b),
                   h.sceneRoots[scene := roots + [id]],
                   id + 1);
    assert WellFormed(h) ==> WellFormed(h') by {
      if WellFormed(h) {
        assert forall c | c in h.components :: h.components[c].owner != id;
        forall n | n in h'.objects
          ensures ParentLinked(h', n)
        {
          if n != id {
            assert ParentLinked(h, n);
          }
        }
      }
    }
    h'
  }

  /** `h'` keeps every object and component of `h` as it was (it may add objects). */
  ghost predicate Extends(h: Host, h': Host) {
    && h'.components == h.components
    && forall m | m in h.objects :: m in h'.objects && h'.objects[m] == h.objects[m]
  }

  /** Adding a root object extends the host. */
  lemma AddRootObjectExtends(h: Host, name: string, scene: int)
    requires WellFormed(h)
    ensures Extends(h, AddRootObject(h, name, scene))
  {
    var h' := AddRootObject(h, name, scene);
    forall m | m in h.objects
      ensures m in h'.objects && h'.objects[m] == h.objects[m]
    {
      assert m < h.nextInstanceId;
    }
  }

  /** Extending a host leaves every existing object's chain of ancestors as it was. */
  lemma {:induction false} ExtendsKeepsAncestors(h: Host, h': Host, n: NodeId, k: nat)
    requires Linked(h) && Linked(h') && Extends(h, h') && n in h.objects
    ensures Ancestor(h', n, k) == Ancestor(h, n, k)
    decreases k
  {
    if k > 0 {
      ExtendsKeepsAncestors(h, h', n, k - 1);
      var a := Ancestor(h, n, k - 1);
      if a.Some? {
        assert ParentLinked(h, a.value);
        assert h'.objects[a.value].parent == h.objects[a.value].parent;
      }
    }
  }
}
