/**
 * `SceneObject` (scenesystem/sceneobject.cpp): an object of a scene that keeps the components
 * attached to it in a `LinkedList<Component>`. Components, objects and scenes are referred to by
 * their addresses.
 */
module SceneObjects {
  import opened Wrappers
  import opened Lists

  /** The address of a heap-allocated `Component`. */
  type ComponentRef = nat
  /** The address of a heap-allocated `SceneObject`. */
  type ObjectRef = nat
  /** The address of a `Scene`. */
  type SceneRef = nat

  /**
   * A `SceneObject`: the scene it belongs to, its own node in that scene's object list, and its
   * component list.
   */
  datatype SceneObject = SceneObject(
    scene: Option<SceneRef>,
    listNode: Option<NodeRef>,
    components: LinkedList<ComponentRef>)

  /** The constructor: stores the scene and the node it was given; no component is attached yet. */
  function NewSceneObject(scene: Option<SceneRef>, listNode: Option<NodeRef>): (o: SceneObject)
    ensures o.scene == scene && o.listNode == listNode
    ensures Valid(o.components, []) && o.components.head == None && o.components.tail == None
  {
    SceneObject(scene, listNode, Empty())
  }

  /**
   * `AddComponent`: appends the component at the tail of the component list and returns the node
   * that now holds it. The scene and the object's own node are unchanged.
   */
  function AddComponent(o: SceneObject, component: Option<ComponentRef>, ghost chain: seq<NodeRef>): (r: (SceneObject, NodeRef))
    requires Valid(o.components, chain)
    ensures r.0.scene == o.scene && r.0.listNode == o.listNode
    ensures r.1 == o.components.nextFree
    ensures Valid(r.0.components, chain + [r.1])
    ensures Elements(r.0.components, chain + [r.1]) == Elements(o.components, chain) + [component]
    ensures r.0.components.tail == Some(r.1)
  {
    var (components, node) := AddToTail(o.components, component, chain);
    (o.(components := components), node)
  }

  /** The chain after `RemoveComponent(it)`: the node is taken out when it is not null. */
  function ChainAfterRemove(chain: seq<NodeRef>, it: Option<NodeRef>): seq<NodeRef>
    requires it.Some? ==> it.value in chain
  {
    if it.Some? then Without(chain, IndexOf(chain, it.value)) else chain
  }

  /**
   * `RemoveComponent`: a null node is ignored; otherwise that node, which must be on this
   * object's list, is unlinked and freed, and the other components keep their order.
   */
  function RemoveComponent(o: SceneObject, it: Option<NodeRef>, ghost chain: seq<NodeRef>): (r: SceneObject)
    requires Valid(o.components, chain)
    requires it.Some? ==> it.value in chain
    ensures r.scene == o.scene && r.listNode == o.listNode && r.components.nextFree == o.components.nextFree
    ensures it.None? ==> r == o
    ensures Valid(r.components, ChainAfterRemove(chain, it))
    ensures it.Some? ==> var i := IndexOf(chain, it.value);
      && it.value !in r.components.nodes
      && Elements(r.components, ChainAfterRemove(chain, it))
         == Elements(o.components, chain)[..i] + Elements(o.components, chain)[i + 1..]
  {
    if it.Some? then o.(components := Remove(o.components, it.value, chain)) else o
  }

  /** Removing the node `AddComponent` returned gives back the component list it started from. */
  lemma AddThenRemoveComponent(o: SceneObject, component: Option<ComponentRef>, chain: seq<NodeRef>)
    requires Valid(o.components, chain)
    ensures var (o', node) := AddComponent(o, component, chain);
      var r := RemoveComponent(o', Some(node), chain + [node]);
      && ChainAfterRemove(chain + [node], Some(node)) == chain
      && Elements(r.components, chain) == Elements(o.components, chain)
      && r.components.head == o.components.head && r.components.tail == o.components.tail
  {
    var (l', node) := AddToTail(o.components, component, chain);
    AddToTailThenRemove(o.components, component, chain);
    assert IndexOf(chain + [node], node) == |chain|;
    assert Without(chain + [node], |chain|) == chain;
  }

  /**
   * The destructor: `ClearAndDeleteElements` on the component list, which deletes every attached
   * component and leaves the list empty. The deleted components are returned in list order.
   */
  method DestroySceneObject(o: SceneObject, ghost chain: seq<NodeRef>) returns (components: LinkedList<ComponentRef>, deleted: seq<ComponentRef>)
    requires Valid(o.components, chain)
    ensures Valid(components, []) && components.head == None && components.tail == None
    ensures deleted == NonNull(Elements(o.components, chain))
    ensures forall c :: c in deleted <==> Some(c) in Elements(o.components, chain)
  {
    components, deleted := ClearAndDeleteElements(o.components, chain);
    forall c ensures c in deleted <==> Some(c) in Elements(o.components, chain) {
      NonNullMembers(Elements(o.components, chain), c);
    }
  }
}
