/**
 * `Component` (scenesystem/component.cpp): a part attached to a scene object. A component knows
 * its owner and the node of the owner's component list that holds it.
 *
 * The scene objects a component talks to are the live objects of the heap, each paired (as a
 * ghost) with the chain of its component list.
 */
module Components {
  import opened Wrappers
  import opened Lists
  import opened SceneObjects

  /** A `Component`: `m_pOwner` and `m_pIterator`. */
  datatype Component = Component(owner: Option<ObjectRef>, listNode: Option<NodeRef>)

  /** The constructor: no owner and no node. */
  function NewComponent(): (c: Component)
    ensures c.owner == None && c.listNode == None
    ensures IteratorHasOwner(c)
  {
    Component(None, None)
  }

  /**
   * `GetIterator`: the node pointer. The component acts on a list exactly when both it and the
   * owner are set, and for a component whose node is set only with its owner, a non-null node
   * means a non-null owner.
   */
  function GetIterator(c: Component): (it: Option<NodeRef>)
    ensures Registered(c) <==> it.Some? && GetOwner(c).Some?
    ensures IteratorHasOwner(c) && it.Some? ==> GetOwner(c).Some?
  {
    c.listNode
  }

  /** `GetOwner`: the owner pointer, which may be null; a component without one is not registered. */
  function GetOwner(c: Component): (o: Option<ObjectRef>)
    ensures o.None? ==> !Registered(c)
  {
    c.owner
  }

  /** Both pointers are set: the case in which the component acts on its owner's list. */
  predicate Registered(c: Component)
  {
    c.owner.Some? && c.listNode.Some?
  }

  /**
   * A component's node pointer is set only together with its owner: `SetOwner` stores a node the
   * new owner's list allocated and then makes that object the owner. So a non-null iterator is
   * always a node of the owner's component list.
   */
  predicate IteratorHasOwner(c: Component)
  {
    c.listNode.Some? ==> c.owner.Some?
  }

  /** The live object `o` has a well-formed component list with its chain. */
  ghost predicate ObjectValidAt(objects: map<ObjectRef, SceneObject>, chains: map<ObjectRef, seq<NodeRef>>, o: ObjectRef)
  {
    o in objects && o in chains && Valid(objects[o].components, chains[o])
  }

  /** Every live scene object has a well-formed component list with the given chain. */
  ghost predicate ObjectsValid(objects: map<ObjectRef, SceneObject>, chains: map<ObjectRef, seq<NodeRef>>)
  {
    && objects.Keys == chains.Keys
    && forall o {:trigger ObjectValidAt(objects, chains, o)} | o in objects :: ObjectValidAt(objects, chains, o)
  }

  /** Replacing one live object by one with a well-formed list keeps every list well formed. */
  lemma UpdateKeepsObjectsValid(objects: map<ObjectRef, SceneObject>, chains: map<ObjectRef, seq<NodeRef>>,
                                o: ObjectRef, updated: SceneObject, chain: seq<NodeRef>)
    requires ObjectsValid(objects, chains)
    requires o in objects
    requires Valid(updated.components, chain)
    ensures ObjectsValid(objects[o := updated], chains[o := chain])
  {
    var objects', chains' := objects[o := updated], chains[o := chain];
    forall k | k in objects' ensures ObjectValidAt(objects', chains', k) {
      if k != o {
        assert ObjectValidAt(objects, chains, k);
      }
    }
  }

  /** A registered component's owner is live and its node is on the owner's component list. */
  ghost predicate OnOwnersList(c: Component, chains: map<ObjectRef, seq<NodeRef>>)
  {
    Registered(c) ==> c.owner.value in chains && c.listNode.value in chains[c.owner.value]
  }

  /** The chains once a registered component has left its owner's list. */
  ghost function ChainsAfterDestroy(c: Component, chains: map<ObjectRef, seq<NodeRef>>): map<ObjectRef, seq<NodeRef>>
    requires OnOwnersList(c, chains)
  {
    if Registered(c) then chains[c.owner.value := ChainAfterRemove(chains[c.owner.value], c.listNode)] else chains
  }

  /**
   * The destructor: the component's node is removed from its owner's list exactly when both
   * pointers are set; every other object, and the owner's other components, are untouched.
   */
  function DestroyComponent(c: Component, objects: map<ObjectRef, SceneObject>, ghost chains: map<ObjectRef, seq<NodeRef>>): (r: map<ObjectRef, SceneObject>)
    requires ObjectsValid(objects, chains)
    requires OnOwnersList(c, chains)
    ensures !Registered(c) ==> r == objects
    ensures r.Keys == objects.Keys
    ensures ObjectsValid(r, ChainsAfterDestroy(c, chains))
    ensures forall o | o in objects && !(Registered(c) && o == c.owner.value) :: r[o] == objects[o]
    ensures Registered(c) ==>
      var o := c.owner.value;
      var i := IndexOf(chains[o], c.listNode.value);
      && c.listNode.value !in r[o].components.nodes
      && ObjectValidAt(r, ChainsAfterDestroy(c, chains), o)
      && ObjectValidAt(objects, chains, o)
      && Elements(r[o].components, ChainsAfterDestroy(c, chains)[o])
         == Elements(objects[o].components, chains[o])[..i] + Elements(objects[o].components, chains[o])[i + 1..]
      && r[o].components.nextFree == objects[o].components.nextFree
      && r[o].scene == objects[o].scene && r[o].listNode == objects[o].listNode
  {
    if Registered(c) then
      var o := c.owner.value;
      assert ObjectValidAt(objects, chains, o);
      var removed := RemoveComponent(objects[o], c.listNode, chains[o]);
      UpdateKeepsObjectsValid(objects, chains, o, removed, ChainAfterRemove(chains[o], c.listNode));
      objects[o := removed]
    else objects
  }

  /**
   * `AddComponent` called on the live object `q`: the component is appended to that object's list
   * at a newly allocated node, which is returned; every other object is untouched.
   */
  function AddComponentTo(self: ComponentRef, q: ObjectRef, objects: map<ObjectRef, SceneObject>,
                          ghost chains: map<ObjectRef, seq<NodeRef>>): (r: (NodeRef, map<ObjectRef, SceneObject>))
    requires ObjectsValid(objects, chains)
    requires q in objects
    ensures r.0 == objects[q].components.nextFree
    ensures r.1.Keys == objects.Keys
    ensures ObjectsValid(r.1, chains[q := chains[q] + [r.0]])
    ensures ObjectValidAt(r.1, chains[q := chains[q] + [r.0]], q) && ObjectValidAt(objects, chains, q)
    ensures Elements(r.1[q].components, chains[q] + [r.0]) == Elements(objects[q].components, chains[q]) + [Some(self)]
    ensures r.1[q].components.tail == Some(r.0)
    ensures r.1[q].scene == objects[q].scene && r.1[q].listNode == objects[q].listNode
    ensures forall o | o in objects && o != q :: r.1[o] == objects[o]
  {
    assert ObjectValidAt(objects, chains, q);
    var (added, node) := AddComponent(objects[q], Some(self), chains[q]);
    UpdateKeepsObjectsValid(objects, chains, q, added, chains[q] + [node]);
    (node, objects[q := added])
  }

  /**
   * `SetOwner` as written: a registered component leaves its old owner's list and is appended to
   * the new owner's, keeping the new node; the owner pointer is set in every case. The new owner
   * is dereferenced in the registered case, so it must then be a live object. An unregistered
   * component touches no list and keeps its node pointer.
   */
  function SetOwner(self: ComponentRef, c: Component, owner: Option<ObjectRef>,
                    objects: map<ObjectRef, SceneObject>, ghost chains: map<ObjectRef, seq<NodeRef>>): (r: (Component, map<ObjectRef, SceneObject>))
    requires ObjectsValid(objects, chains)
    requires OnOwnersList(c, chains)
    requires Registered(c) ==> owner.Some? && owner.value in objects
    ensures r.0.owner == owner
    ensures IteratorHasOwner(c) ==> IteratorHasOwner(r.0)
    ensures !Registered(c) ==> r.1 == objects && r.0.listNode == c.listNode
    ensures Registered(c) ==>
      var q := owner.value;
      var node := objects[q].components.nextFree;
      var left := ChainsAfterDestroy(c, chains);
      var destroyed := DestroyComponent(c, objects, chains);
      && r.0.listNode == Some(node)
      && r.1.Keys == objects.Keys
      && ObjectsValid(r.1, left[q := left[q] + [node]])
      && ObjectValidAt(r.1, left[q := left[q] + [node]], q)
      && ObjectValidAt(destroyed, left, q)
      && Elements(r.1[q].components, left[q] + [node]) == Elements(destroyed[q].components, left[q]) + [Some(self)]
      && r.1[q].components.tail == Some(node)
      && (forall o | o in objects && o != q :: r.1[o] == destroyed[o])
  {
    if Registered(c) then
      var left := DestroyComponent(c, objects, chains);
      var (node, r) := AddComponentTo(self, owner.value, left, ChainsAfterDestroy(c, chains));
      (Component(owner, Some(node)), r)
    else (c.(owner := owner), objects)
  }

  /**
   * `GetOwner` after `SetOwner` answers with the owner just set, null included, whether or not
   * the component was registered; a registered component is then registered with that owner.
   */
  lemma SetOwnerStoresOwner(self: ComponentRef, c: Component, owner: Option<ObjectRef>,
                            objects: map<ObjectRef, SceneObject>, chains: map<ObjectRef, seq<NodeRef>>)
    requires ObjectsValid(objects, chains)
    requires OnOwnersList(c, chains)
    requires Registered(c) ==> owner.Some? && owner.value in objects
    ensures GetOwner(SetOwner(self, c, owner, objects, chains).0) == owner
    ensures Registered(c) ==> Registered(SetOwner(self, c, owner, objects, chains).0)
    ensures !Registered(c) ==> GetIterator(SetOwner(self, c, owner, objects, chains).0) == GetIterator(c)
  {
  }

  /** `SetOwner` applied for each owner in turn, as a sequence of calls on one component. */
  function SetOwners(self: ComponentRef, c: Component, owners: seq<Option<ObjectRef>>,
                     objects: map<ObjectRef, SceneObject>, ghost chains: map<ObjectRef, seq<NodeRef>>): (r: (Component, map<ObjectRef, SceneObject>))
    requires ObjectsValid(objects, chains)
    requires c.listNode == None
    ensures r.0.listNode == None
    decreases |owners|
  {
    if |owners| == 0 then (c, objects)
    else
      var (c', objects') := SetOwner(self, c, owners[0], objects, chains);
      SetOwners(self, c', owners[1..], objects', chains)
  }

  /**
   * A component that starts without a node never gets one: however often its owner is set, no
   * scene object's list changes and its node pointer stays null. So a freshly constructed
   * component is never registered with any owner.
   */
  lemma {:induction false} SetOwnerNeverRegisters(self: ComponentRef, owners: seq<Option<ObjectRef>>,
                                                  objects: map<ObjectRef, SceneObject>, chains: map<ObjectRef, seq<NodeRef>>)
    requires ObjectsValid(objects, chains)
    ensures var (c, objects') := SetOwners(self, NewComponent(), owners, objects, chains);
      && objects' == objects
      && c.listNode == None
      && c.owner == (if |owners| == 0 then None else owners[|owners| - 1])
    decreases |owners|
  {
    SetOwnersFromUnregistered(self, NewComponent(), owners, objects, chains);
  }

  /**
   * So the destructor of any component the program builds (constructed, then given owners) calls
   * back into no list: it never reaches `RemoveComponent`, and every scene object is left as it
   * was. This is why deleting components while a list is being cleared is safe as written.
   */
  lemma DestroyAfterSetOwnersTouchesNothing(self: ComponentRef, owners: seq<Option<ObjectRef>>,
                                            objects: map<ObjectRef, SceneObject>, chains: map<ObjectRef, seq<NodeRef>>)
    requires ObjectsValid(objects, chains)
    ensures var (c, objects') := SetOwners(self, NewComponent(), owners, objects, chains);
      && objects' == objects
      && !Registered(c)
      && DestroyComponent(c, objects', chains) == objects
  {
    SetOwnerNeverRegisters(self, owners, objects, chains);
  }

  lemma {:induction false} SetOwnersFromUnregistered(self: ComponentRef, c: Component, owners: seq<Option<ObjectRef>>,
                                                     objects: map<ObjectRef, SceneObject>, chains: map<ObjectRef, seq<NodeRef>>)
    requires ObjectsValid(objects, chains)
    requires c.listNode == None
    ensures var (c', objects') := SetOwners(self, c, owners, objects, chains);
      && objects' == objects
      && c'.listNode == None
      && c'.owner == (if |owners| == 0 then c.owner else owners[|owners| - 1])
    decreases |owners|
  {
    if |owners| > 0 {
      var (c1, objects1) := SetOwner(self, c, owners[0], objects, chains);
      SetOwnersFromUnregistered(self, c1, owners[1..], objects1, chains);
      if |owners| > 1 {
        assert owners[1..][|owners[1..]| - 1] == owners[|owners| - 1];
      }
    }
  }

  /**
   * `SetOwner` as evidently intended: a registered component leaves its old owner's list, and a
   * component given a live owner is appended to that owner's list whether or not it was registered
   * before; a null owner leaves it unregistered.
   */
  function SetOwnerCorrected(self: ComponentRef, c: Component, owner: Option<ObjectRef>,
                             objects: map<ObjectRef, SceneObject>, ghost chains: map<ObjectRef, seq<NodeRef>>): (r: (Component, map<ObjectRef, SceneObject>))
    requires ObjectsValid(objects, chains)
    requires OnOwnersList(c, chains)
    requires owner.Some? ==> owner.value in objects
    ensures r.0.owner == owner
    ensures IteratorHasOwner(r.0)
    ensures owner.None? ==> r.0.listNode == None && r.1 == DestroyComponent(c, objects, chains)
    ensures owner.Some? ==>
      var q := owner.value;
      var node := objects[q].components.nextFree;
      var left := ChainsAfterDestroy(c, chains);
      && r.0.listNode == Some(node)
      && r.1.Keys == objects.Keys
      && ObjectsValid(r.1, left[q := left[q] + [node]])
      && ObjectValidAt(r.1, left[q := left[q] + [node]], q)
      && ObjectValidAt(DestroyComponent(c, objects, chains), left, q)
      && Elements(r.1[q].components, left[q] + [node])
         == Elements(DestroyComponent(c, objects, chains)[q].components, left[q]) + [Some(self)]
      && r.1[q].components.tail == Some(node)
  {
    var left := DestroyComponent(c, objects, chains);
    if owner.Some? then
      var (node, r) := AddComponentTo(self, owner.value, left, ChainsAfterDestroy(c, chains));
      (Component(owner, Some(node)), r)
    else (Component(None, None), left)
  }

  /**
   * With the corrected `SetOwner`, a new component given an owner is the last entry of that
   * owner's list, registered at that entry's node; destroying it then gives the owner back the
   * components it had.
   */
  lemma CorrectedSetOwnerRegisters(self: ComponentRef, owner: ObjectRef,
                                   objects: map<ObjectRef, SceneObject>, chains: map<ObjectRef, seq<NodeRef>>)
    requires ObjectsValid(objects, chains)
    requires owner in objects
    ensures var (c, objects') := SetOwnerCorrected(self, NewComponent(), Some(owner), objects, chains);
      var chain' := chains[owner] + [c.listNode.value];
      && Registered(c)
      && ObjectValidAt(objects', chains[owner := chain'], owner)
      && ObjectValidAt(objects, chains, owner)
      && Elements(objects'[owner].components, chain') == Elements(objects[owner].components, chains[owner]) + [Some(self)]
      && objects'[owner].components.tail == c.listNode
  {
  }

  /** Destroying a component right after `AddComponentTo` registered it restores the object's list. */
  lemma {:induction false} DestroyUndoesAddComponentTo(self: ComponentRef, q: ObjectRef,
                                                       objects: map<ObjectRef, SceneObject>, chains: map<ObjectRef, seq<NodeRef>>)
    requires ObjectsValid(objects, chains)
    requires q in objects
    ensures var (node, objects') := AddComponentTo(self, q, objects, chains);
      var c := Component(Some(q), Some(node));
      var chains' := chains[q := chains[q] + [node]];
      && OnOwnersList(c, chains')
      && ChainsAfterDestroy(c, chains') == chains
      && ObjectValidAt(DestroyComponent(c, objects', chains'), chains, q)
      && ObjectValidAt(objects, chains, q)
      && Elements(DestroyComponent(c, objects', chains')[q].components, chains[q]) == Elements(objects[q].components, chains[q])
  {
    var chain := chains[q];
    assert ObjectValidAt(objects, chains, q);
    var (added, node) := AddComponent(objects[q], Some(self), chain);
    AddThenRemoveComponent(objects[q], Some(self), chain);
    assert AddComponentTo(self, q, objects, chains) == (node, objects[q := added]);
    var c := Component(Some(q), Some(node));
    var chains' := chains[q := chain + [node]];
    RestoreChain(chains, q, chain + [node]);
  }

  /** Putting back the chain an object had undoes replacing it. */
  lemma RestoreChain(chains: map<ObjectRef, seq<NodeRef>>, q: ObjectRef, chain: seq<NodeRef>)
    requires q in chains
    ensures chains[q := chain][q := chains[q]] == chains
  {
  }

  /** With the corrected `SetOwner`, attaching a new component and destroying it restores the owner's list. */
  lemma CorrectedAttachThenDestroy(self: ComponentRef, owner: ObjectRef,
                                   objects: map<ObjectRef, SceneObject>, chains: map<ObjectRef, seq<NodeRef>>)
    requires ObjectsValid(objects, chains)
    requires owner in objects
    ensures var (c, objects') := SetOwnerCorrected(self, NewComponent(), Some(owner), objects, chains);
      var chains' := chains[owner := chains[owner] + [c.listNode.value]];
      && OnOwnersList(c, chains')
      && ChainsAfterDestroy(c, chains') == chains
      && ObjectValidAt(DestroyComponent(c, objects', chains'), chains, owner)
      && ObjectValidAt(objects, chains, owner)
      && Elements(DestroyComponent(c, objects', chains')[owner].components, chains[owner]) == Elements(objects[owner].components, chains[owner])
  {
    DestroyUndoesAddComponentTo(self, owner, objects, chains);
  }
}
