/**
 * `Scene` (scenesystem/scene.cpp): a named scene that owns a default camera, points at an active
 * camera, and keeps its scene objects in a `LinkedList<SceneObject>`. The addresses `new` hands
 * out for the default camera and for each new scene object are parameters.
 */
module Scenes {
  import opened Wrappers
  import opened Lists
  import opened SceneObjects

  /** The address of a `Camera`. */
  type CameraRef = nat

  /** A `Scene`: its name, its own camera, the active camera pointer and its object list. */
  datatype Scene = Scene(
    name: string,
    defaultCamera: CameraRef,
    activeCamera: Option<CameraRef>,
    sceneObjects: LinkedList<ObjectRef>)

  /** `GetActiveCamera`: the active camera pointer, which may be null. */
  function GetActiveCamera(s: Scene): (r: Option<CameraRef>)
    ensures SetActiveCamera(s, r) == s
  {
    s.activeCamera
  }

  /** `SetActiveCamera`: stores the pointer as given, without any check; nothing else changes. */
  function SetActiveCamera(s: Scene, camera: Option<CameraRef>): (r: Scene)
    ensures r.activeCamera == camera
    ensures r.name == s.name && r.defaultCamera == s.defaultCamera && r.sceneObjects == s.sceneObjects
  {
    s.(activeCamera := camera)
  }

  /**
   * The constructor: keeps the name, creates the default camera at `camera` and makes it the
   * active one; the object list starts empty.
   */
  function NewScene(name: string, camera: CameraRef): (s: Scene)
    ensures s.name == name && s.defaultCamera == camera
    ensures GetActiveCamera(s) == Some(s.defaultCamera)
    ensures Valid(s.sceneObjects, []) && s.sceneObjects.head == None && s.sceneObjects.tail == None
  {
    Scene(name, camera, Some(camera), Empty())
  }

  /**
   * Every node of the object list holds a live scene object that belongs to scene `self` and
   * back-references that very node.
   */
  ghost predicate BackReferenced(s: Scene, self: SceneRef, objects: map<ObjectRef, SceneObject>, chain: seq<NodeRef>)
  {
    && Valid(s.sceneObjects, chain)
    && forall i | 0 <= i < |chain| ::
         var d := s.sceneObjects.nodes[chain[i]].data;
         && d.Some? && d.value in objects
         && objects[d.value].scene == Some(self) && objects[d.value].listNode == Some(chain[i])
  }

  /**
   * `CreateSceneObject`: appends a null entry at the tail of the object list, then stores in that
   * node a new scene object, allocated at `address`, that refers back to this scene and to the
   * node, and returns it. The name and the cameras are unchanged and no other object changes.
   */
  function CreateSceneObject(s: Scene, self: SceneRef, objects: map<ObjectRef, SceneObject>, address: ObjectRef,
                             ghost chain: seq<NodeRef>): (r: (Scene, map<ObjectRef, SceneObject>, ObjectRef))
    requires Valid(s.sceneObjects, chain)
    requires address !in objects
    ensures var node := s.sceneObjects.nextFree;
      && r.2 == address
      && node !in chain
      && Valid(r.0.sceneObjects, chain + [node])
      && Elements(r.0.sceneObjects, chain + [node]) == Elements(s.sceneObjects, chain) + [Some(address)]
      && r.0.sceneObjects.tail == Some(node)
      && r.1.Keys == objects.Keys + {address}
      && r.1[address].scene == Some(self) && r.1[address].listNode == Some(node)
      && Valid(r.1[address].components, []) && r.1[address].components.head == None
    ensures forall o | o in objects :: r.1[o] == objects[o]
    ensures r.0.name == s.name && r.0.defaultCamera == s.defaultCamera && r.0.activeCamera == s.activeCamera
  {
    var (appended, node) := AddToTail(s.sceneObjects, None, chain);
    assert IndexOf(chain + [node], node) == |chain|;
    var stored := SetData(appended, node, Some(address), chain + [node]);
    ReplaceLast(Elements(s.sceneObjects, chain), None, Some(address));
    (s.(sceneObjects := stored), objects[address := NewSceneObject(Some(self), Some(node))], address)
  }

  /** Overwriting the entry just appended. */
  lemma ReplaceLast<T>(s: seq<T>, x: T, y: T)
    ensures (s + [x])[|s| := y] == s + [y]
  {
  }

  /** `CreateSceneObject` keeps every object on the list pointing back at its own node. */
  lemma CreateKeepsBackReferenced(s: Scene, self: SceneRef, objects: map<ObjectRef, SceneObject>, address: ObjectRef,
                                  chain: seq<NodeRef>)
    requires BackReferenced(s, self, objects, chain)
    requires address !in objects
    ensures var (s', objects', _) := CreateSceneObject(s, self, objects, address, chain);
      BackReferenced(s', self, objects', chain + [s.sceneObjects.nextFree])
  {
    var (s', objects', _) := CreateSceneObject(s, self, objects, address, chain);
    var c := chain + [s.sceneObjects.nextFree];
    forall i | 0 <= i < |c|
      ensures var d := s'.sceneObjects.nodes[c[i]].data;
        && d.Some? && d.value in objects'
        && objects'[d.value].scene == Some(self) && objects'[d.value].listNode == Some(c[i])
    {
      assert s'.sceneObjects.nodes[c[i]].data == Elements(s'.sceneObjects, c)[i];
      if i < |chain| {
        assert c[i] == chain[i];
        assert s.sceneObjects.nodes[chain[i]].data == Elements(s.sceneObjects, chain)[i];
      }
    }
  }

  /**
   * Two creations in a row put the two objects at the tail in creation order, at two different
   * nodes, each object back-referencing its own node.
   */
  lemma CreateTwiceKeepsOrder(s: Scene, self: SceneRef, objects: map<ObjectRef, SceneObject>, a: ObjectRef, b: ObjectRef,
                              chain: seq<NodeRef>)
    requires Valid(s.sceneObjects, chain)
    requires a !in objects && b !in objects && a != b
    ensures var (s1, objects1, _) := CreateSceneObject(s, self, objects, a, chain);
      var na := s.sceneObjects.nextFree;
      var (s2, objects2, _) := CreateSceneObject(s1, self, objects1, b, chain + [na]);
      var nb := s1.sceneObjects.nextFree;
      && na != nb
      && Valid(s2.sceneObjects, chain + [na, nb])
      && Elements(s2.sceneObjects, chain + [na, nb]) == Elements(s.sceneObjects, chain) + [Some(a), Some(b)]
      && objects2[a].listNode == Some(na) && objects2[b].listNode == Some(nb)
  {
    var (s1, objects1, _) := CreateSceneObject(s, self, objects, a, chain);
    var na := s.sceneObjects.nextFree;
    var nb := s1.sceneObjects.nextFree;
    assert (chain + [na]) + [nb] == chain + [na, nb];
    var e := Elements(s.sceneObjects, chain);
    assert (e + [Some(a)]) + [Some(b)] == e + [Some(a), Some(b)];
  }

  /** `SetActiveCamera` then `GetActiveCamera` gives back the pointer stored, null included. */
  lemma ActiveCameraRoundTrip(s: Scene, camera: Option<CameraRef>)
    ensures GetActiveCamera(SetActiveCamera(s, camera)) == camera
    ensures SetActiveCamera(s, GetActiveCamera(s)) == s
  {
  }
}
