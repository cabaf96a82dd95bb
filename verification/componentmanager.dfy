/**
 * `ComponentManager` (scenesystem/componentmanager.cpp): every registered component, kept in one
 * `LinkedList<Component>` per component type, in a map keyed by the type's index.
 *
 * The type-info system is not part of this model: what `GetTypeInfo()` answers for a component
 * (its type index and whether the type derives from `Component`) is a parameter.
 */
module ComponentManagers {
  import opened Wrappers
  import opened Lists
  import opened SceneObjects
  import opened Components

  /** An opaque `TypeIndex`. */
  type TypeIndex = nat

  /** The part of a component's `TypeInfo` the manager reads. */
  datatype TypeInfo = TypeInfo(typeIndex: TypeIndex, derivesFromComponent: bool)

  /** `m_Components`. */
  datatype ComponentManager = ComponentManager(lists: map<TypeIndex, LinkedList<ComponentRef>>)

  /** The constructor: no list exists yet. */
  function NewComponentManager(): (m: ComponentManager)
    ensures m.lists == map[]
  {
    ComponentManager(map[])
  }

  /** The list for `t` is well formed with its chain. */
  ghost predicate ValidAt(m: ComponentManager, chains: map<TypeIndex, seq<NodeRef>>, t: TypeIndex)
  {
    t in m.lists && t in chains && Valid(m.lists[t], chains[t])
  }

  /** Every list of the map is well formed with its chain. */
  ghost predicate ManagerValid(m: ComponentManager, chains: map<TypeIndex, seq<NodeRef>>)
  {
    && m.lists.Keys == chains.Keys
    && forall t {:trigger ValidAt(m, chains, t)} | t in m.lists :: ValidAt(m, chains, t)
  }

  /** Replacing one list by a well-formed one keeps the whole map well formed. */
  lemma UpdateKeepsManagerValid(m: ComponentManager, chains: map<TypeIndex, seq<NodeRef>>,
                                t: TypeIndex, l: LinkedList<ComponentRef>, chain: seq<NodeRef>)
    requires ManagerValid(m, chains)
    requires Valid(l, chain)
    ensures ManagerValid(ComponentManager(m.lists[t := l]), chains[t := chain])
  {
    var m', chains' := ComponentManager(m.lists[t := l]), chains[t := chain];
    forall k | k in m'.lists ensures ValidAt(m', chains', k) {
      if k != t {
        assert ValidAt(m, chains, k);
      }
    }
  }

  /** `m_Components[t]`: the list for `t`, a new empty one when there is none yet. */
  function ListFor(m: ComponentManager, t: TypeIndex): (l: LinkedList<ComponentRef>)
    ensures t in m.lists ==> l == m.lists[t]
    ensures t !in m.lists ==> l == Empty()
  {
    if t in m.lists then m.lists[t] else Empty()
  }

  ghost function ChainFor(chains: map<TypeIndex, seq<NodeRef>>, t: TypeIndex): seq<NodeRef>
  {
    if t in chains then chains[t] else []
  }

  /** The chains after a node is appended to the list for `t`. */
  ghost function Appended(chains: map<TypeIndex, seq<NodeRef>>, t: TypeIndex, node: NodeRef): map<TypeIndex, seq<NodeRef>>
  {
    chains[t := ChainFor(chains, t) + [node]]
  }

  /** The list for `t` is well formed with `ChainFor(chains, t)`, also when it does not exist yet. */
  lemma ListForValid(m: ComponentManager, chains: map<TypeIndex, seq<NodeRef>>, t: TypeIndex)
    requires ManagerValid(m, chains)
    ensures Valid(ListFor(m, t), ChainFor(chains, t))
  {
    if t in m.lists {
      assert ValidAt(m, chains, t);
    }
  }

  /**
   * `RegisterComponent`: asserts that the component's type derives from `Component` (reported in
   * the second result, after which it carries on) and appends the component at the tail of the
   * list for its type, creating that list if needed. The new node is not kept. No other list
   * changes.
   */
  function RegisterComponent(m: ComponentManager, self: ComponentRef, info: TypeInfo,
                             ghost chains: map<TypeIndex, seq<NodeRef>>): (r: (ComponentManager, bool))
    requires ManagerValid(m, chains)
    ensures r.1 <==> !info.derivesFromComponent
    ensures r.0.lists.Keys == m.lists.Keys + {info.typeIndex}
    ensures var t := info.typeIndex;
      var chains' := Appended(chains, t, ListFor(m, t).nextFree);
      && ManagerValid(r.0, chains')
      && ValidAt(r.0, chains', t)
      && Valid(ListFor(m, t), ChainFor(chains, t))
      && Elements(r.0.lists[t], chains'[t]) == Elements(ListFor(m, t), ChainFor(chains, t)) + [Some(self)]
      && r.0.lists[t].tail == Some(ListFor(m, t).nextFree)
    ensures forall k | k in m.lists && k != info.typeIndex :: r.0.lists[k] == m.lists[k]
  {
    var t := info.typeIndex;
    ListForValid(m, chains, t);
    var (l, node) := AddToTail(ListFor(m, t), Some(self), ChainFor(chains, t));
    UpdateKeepsManagerValid(m, chains, t, l, ChainFor(chains, t) + [node]);
    (ComponentManager(m.lists[t := l]), !info.derivesFromComponent)
  }

  /**
   * The list that allocated a node. Every list numbers its own nodes, so a node number alone does
   * not say which list a node belongs to: a pointer to a node is that list together with the
   * node's number there.
   */
  datatype ListId = ObjectComponents(obj: ObjectRef) | TypeComponents(t: TypeIndex)

  datatype NodePointer = NodePointer(list: ListId, node: NodeRef)

  /**
   * The pointer a component's `GetIterator()` returns: a node of its owner's component list, the
   * only list that ever allocates a component's iterator.
   */
  function IteratorPointer(c: Component): (p: Option<NodePointer>)
    requires IteratorHasOwner(c)
    ensures p.Some? <==> GetIterator(c).Some?
    ensures p.Some? ==> p.value.list == ObjectComponents(c.owner.value) && p.value.node == GetIterator(c).value
  {
    if c.listNode.Some? then Some(NodePointer(ObjectComponents(c.owner.value), c.listNode.value)) else None
  }

  /**
   * What `UnregisterComponent` needs to be defined: when a list exists for the type, the pointer
   * the component reports through `GetIterator()` is passed to that list's `Remove`, so it must
   * point to a node that list allocated and still holds.
   */
  ghost predicate UnregisterDefined(m: ComponentManager, it: Option<NodePointer>, info: TypeInfo, chains: map<TypeIndex, seq<NodeRef>>)
  {
    info.typeIndex in m.lists ==>
      && info.typeIndex in chains
      && it.Some? && it.value.list == TypeComponents(info.typeIndex)
      && it.value.node in chains[info.typeIndex]
  }

  /** The chains after `node` is removed from the list for `t`. */
  ghost function Removed(chains: map<TypeIndex, seq<NodeRef>>, t: TypeIndex, node: NodeRef): map<TypeIndex, seq<NodeRef>>
    requires t in chains && node in chains[t]
  {
    chains[t := Without(chains[t], IndexOf(chains[t], node))]
  }

  /**
   * `UnregisterComponent` as written, given the component's type and the pointer its
   * `GetIterator()` returns: with no list for the type nothing happens; otherwise the node is
   * removed from that type's list, and no other list changes.
   */
  function UnregisterComponent(m: ComponentManager, it: Option<NodePointer>, info: TypeInfo,
                               ghost chains: map<TypeIndex, seq<NodeRef>>): (r: ComponentManager)
    requires ManagerValid(m, chains)
    requires UnregisterDefined(m, it, info, chains)
    ensures info.typeIndex !in m.lists ==> r == m
    ensures r.lists.Keys == m.lists.Keys
    ensures forall k | k in m.lists && k != info.typeIndex :: r.lists[k] == m.lists[k]
    ensures info.typeIndex in m.lists ==>
      var t := info.typeIndex;
      var i := IndexOf(chains[t], it.value.node);
      var chains' := Removed(chains, t, it.value.node);
      && ManagerValid(r, chains')
      && ValidAt(r, chains', t)
      && ValidAt(m, chains, t)
      && Elements(r.lists[t], chains'[t]) == Elements(m.lists[t], chains[t])[..i] + Elements(m.lists[t], chains[t])[i + 1..]
  {
    var t := info.typeIndex;
    if t in m.lists then
      assert ValidAt(m, chains, t);
      var i := IndexOf(chains[t], it.value.node);
      var l := Remove(m.lists[t], it.value.node, chains[t]);
      UpdateKeepsManagerValid(m, chains, t, l, Without(chains[t], i));
      ComponentManager(m.lists[t := l])
    else m
  }

  /**
   * A component's iterator is null or a node of its owner's component list, never a node of a
   * type's list. So once a list exists for the component's type, `UnregisterComponent` is never
   * defined for it: in the program as written the only defined unregistration is the one that
   * does nothing.
   */
  lemma ComponentIteratorNeverOnTypeList(m: ComponentManager, c: Component, info: TypeInfo, chains: map<TypeIndex, seq<NodeRef>>)
    requires IteratorHasOwner(c)
    ensures UnregisterDefined(m, IteratorPointer(c), info, chains) <==> info.typeIndex !in m.lists
  {
  }

  /**
   * The node `RegisterComponent` creates is dropped, and a new component has no node of its own,
   * so unregistering a component that was just registered passes a null node to `Remove`: the
   * call is never defined.
   */
  lemma UnregisterAfterRegisterUndefined(m: ComponentManager, self: ComponentRef, info: TypeInfo, chains: map<TypeIndex, seq<NodeRef>>)
    requires ManagerValid(m, chains)
    ensures var t := info.typeIndex;
      var registered := RegisterComponent(m, self, info, chains).0;
      var chains' := Appended(chains, t, ListFor(m, t).nextFree);
      && ManagerValid(registered, chains')
      && !UnregisterDefined(registered, IteratorPointer(NewComponent()), info, chains')
  {
  }

  /**
   * The manager as evidently intended: it also keeps, for each registered component, the node
   * its list allocated for it, and unregisters by that node.
   */
  datatype TrackingManager = TrackingManager(manager: ComponentManager, handles: map<ComponentRef, NodeRef>)

  /** `RegisterComponent` keeping the new node under the component's address. */
  function RegisterComponentCorrected(m: TrackingManager, self: ComponentRef, info: TypeInfo,
                                      ghost chains: map<TypeIndex, seq<NodeRef>>): (r: (TrackingManager, bool))
    requires ManagerValid(m.manager, chains)
    ensures r.1 <==> !info.derivesFromComponent
    ensures var t := info.typeIndex;
      var node := ListFor(m.manager, t).nextFree;
      var chains' := Appended(chains, t, node);
      && r.0.handles == m.handles[self := node]
      && ManagerValid(r.0.manager, chains')
      && ValidAt(r.0.manager, chains', t)
      && Valid(ListFor(m.manager, t), ChainFor(chains, t))
      && Elements(r.0.manager.lists[t], chains'[t]) == Elements(ListFor(m.manager, t), ChainFor(chains, t)) + [Some(self)]
    ensures forall k | k in m.manager.lists && k != info.typeIndex :: r.0.manager.lists[k] == m.manager.lists[k]
  {
    var node := ListFor(m.manager, info.typeIndex).nextFree;
    var (manager, asserted) := RegisterComponent(m.manager, self, info, chains);
    (TrackingManager(manager, m.handles[self := node]), asserted)
  }

  /**
   * `UnregisterComponent` by the kept node: a component that was never registered, or whose type
   * has no list, changes nothing; otherwise its node must be on its type's list and is removed,
   * and the component is forgotten.
   */
  function UnregisterComponentCorrected(m: TrackingManager, self: ComponentRef, info: TypeInfo,
                                        ghost chains: map<TypeIndex, seq<NodeRef>>): (r: TrackingManager)
    requires ManagerValid(m.manager, chains)
    requires info.typeIndex in m.manager.lists && self in m.handles ==> m.handles[self] in chains[info.typeIndex]
    ensures info.typeIndex !in m.manager.lists || self !in m.handles ==> r == m
    ensures info.typeIndex in m.manager.lists && self in m.handles ==>
      var t := info.typeIndex;
      var i := IndexOf(chains[t], m.handles[self]);
      var chains' := Removed(chains, t, m.handles[self]);
      && r.handles == m.handles - {self}
      && ManagerValid(r.manager, chains')
      && ValidAt(r.manager, chains', t)
      && ValidAt(m.manager, chains, t)
      && Elements(r.manager.lists[t], chains'[t])
         == Elements(m.manager.lists[t], chains[t])[..i] + Elements(m.manager.lists[t], chains[t])[i + 1..]
  {
    var t := info.typeIndex;
    if t in m.manager.lists && self in m.handles then
      var it := Some(NodePointer(TypeComponents(t), m.handles[self]));
      TrackingManager(UnregisterComponent(m.manager, it, info, chains), m.handles - {self})
    else m
  }

  /** Removing the node that was just appended to the chain for `t` gives back the chains before. */
  lemma RemovedAppended(chains: map<TypeIndex, seq<NodeRef>>, t: TypeIndex, node: NodeRef)
    requires node !in ChainFor(chains, t)
    ensures t in Appended(chains, t, node) && node in Appended(chains, t, node)[t]
    ensures Removed(Appended(chains, t, node), t, node) == chains[t := ChainFor(chains, t)]
  {
    var chain := ChainFor(chains, t);
    assert IndexOf(chain + [node], node) == |chain|;
    assert Without(chain + [node], |chain|) == chain;
  }

  /** With the corrected pair, registering a component and unregistering it restores its type's list. */
  lemma {:induction false} CorrectedRegisterThenUnregister(m: TrackingManager, self: ComponentRef, info: TypeInfo,
                                                           chains: map<TypeIndex, seq<NodeRef>>)
    requires ManagerValid(m.manager, chains)
    ensures var t := info.typeIndex;
      var node := ListFor(m.manager, t).nextFree;
      var registered := RegisterComponentCorrected(m, self, info, chains).0;
      var chains' := Appended(chains, t, node);
      && node in chains'[t]
      && var r := UnregisterComponentCorrected(registered, self, info, chains');
      && Removed(chains', t, node) == chains[t := ChainFor(chains, t)]
      && ManagerValid(r.manager, chains[t := ChainFor(chains, t)])
      && ValidAt(r.manager, chains[t := ChainFor(chains, t)], t)
      && Elements(r.manager.lists[t], ChainFor(chains, t)) == Elements(ListFor(m.manager, t), ChainFor(chains, t))
      && self !in r.handles
  {
    var t := info.typeIndex;
    var node := ListFor(m.manager, t).nextFree;
    var chain := ChainFor(chains, t);
    ListForValid(m.manager, chains, t);
    var registered := RegisterComponentCorrected(m, self, info, chains).0;
    var chains' := Appended(chains, t, node);
    assert node !in chain;
    RemovedAppended(chains, t, node);
    var before := Elements(registered.manager.lists[t], chain + [node]);
    assert before[..|chain|] + before[|chain| + 1..] == Elements(ListFor(m.manager, t), chain);
  }
}
