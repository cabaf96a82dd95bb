# FemboyEngine core, modelled in Dafny

This project models the core of FemboyEngine, a small C++ game engine. It covers four parts:

- **The intrusive doubly linked list.** `fe::LinkedList<T>` is the list every subsystem keeps its objects in. The model gives its nodes a shape invariant and relates them to the sequence they hold.
- **The scene system.**
  - A `Scene` owns a list of `SceneObject`s, and each object owns a list of `Component`s.
  - Every component knows its owner and the node of the owner's list that holds it.
  - The `ComponentManager` keeps one list of components per component type.
- **The renderer's front end.**
  - The `RHI` owns render devices.
  - `ScreenLayer` draws its layer tree.
  - `Viewport_t` has three constructors.
  - The engine-side resource enums live in `renderresource.h`.
- **The Direct3D 11 backend.**
  - The device, its swap chains, the immediate context and the resource wrappers.
  - The conversions from engine enums and flags to their Direct3D values.
  - How `ThrowIfFailed` turns a failed `HRESULT` into an exception.

Besides these, the model covers the `Singleton<T>` template and the global game configuration.

## How the model represents the program

- **Lists as arenas.** A `LinkedList<T>` is an arena of nodes: a map from node address to `Iterator(data, previous, next)`, plus head, tail and the next unused address. A ghost `chain` lists the addresses in list order. `Valid(l, chain)` says that head, tail and every link agree with that chain. `Elements(l, chain)` is the sequence of data pointers, null included.
- **Pointers as addresses.** Every pointer is an address (`nat`), and null is `None`. The addresses `new` hands out are parameters. A fresh address is required only where the source relies on one.
- **Native calls as records.** Each Direct3D and DXGI call is a value of `D3D11.Call`. An operation returns the calls it issued and the result, given the `HRESULT` the runtime answers. What the runtime reports back, such as the descriptor `GetDesc` fills in, is a parameter too. `ThrowIfFailed` on a failing `HRESULT` becomes a `Failure(Fault(call, hr))` that passes up through the caller. The `AddRef`/`Release` pairs of temporary `ComPtr` copies cancel out and are not recorded. The `Release` a wrapper's `ComPtr` member issues when the wrapper is deleted is recorded.
- **Node pointers and their lists.** Each list numbers its own nodes, so a node number means something only together with its list. Where a pointer can reach a list other than the one that allocated it, it is a `ComponentManagers.NodePointer`: the allocating list plus the node number.
- **Assertions as results.** An `SDL_assert` that fails but lets execution carry on becomes a `bool` in the result.
- **Contexts as traces.** A render context keeps the calls issued on it as a trace.
- **Two-file deviations.**
  - `scene.h` declares neither the camera members nor `GetActiveCamera`/`SetActiveCamera`, which `scene.cpp` defines. The model follows `scene.cpp`.
  - `ThrowIfFailed` is a macro in `rendersystem/dx11/dx11.h`.
  - `RenderDevice::ReleaseResource` takes a `RenderResource*` (`renderdevice.h:18`), but no header declares `RenderResource`. The `Texture2D`, `RenderTarget` and `Buffer` classes in `renderresource.h:73-86` have no base class. `VertexShader`, `PixelShader` and `InputLayout` are declared nowhere. The backend wrappers override `Release` and a destructor as `virtual` (`renderdevicedx11.cpp:123-209`). The model therefore assumes a common base with a virtual `Release` returning `uint32_t` and a virtual destructor.

## Model

| member | source | states |
|---|---|---|
| `Lists.Empty` | FemboyEngine/src/fstdlib/linkedlist.h:14-17 | A new list is well formed with the empty chain; its head and tail are null. |
| `Lists.GetHead` | FemboyEngine/src/fstdlib/linkedlist.h:19-21 | The head is the first node of the chain, or null when the list is empty. That node has no predecessor. |
| `Lists.GetTail` | FemboyEngine/src/fstdlib/linkedlist.h:23-25 | The tail is the last node of the chain, or null when the list is empty. That node has no successor. |
| `Lists.AddToTail` | FemboyEngine/src/fstdlib/linkedlist.h:83-101 | The returned node is newly allocated and becomes the tail. It is the head too when the list was empty. The list stays well formed with the node appended to its chain and now holds its old contents followed by the data. Nodes off the chain are untouched. |
| `Lists.AddToHead` | FemboyEngine/src/fstdlib/linkedlist.h:63-81 | The mirror image of `AddToTail`: a newly allocated head whose data precedes the old contents. It is the tail too when the list was empty. |
| `Lists.Remove` | FemboyEngine/src/fstdlib/linkedlist.h:103-127 | A member node is unlinked and freed. The list stays well formed without it and holds its old contents with that one entry cut out. Its neighbours now point at each other. Head and tail move off it to its successor and predecessor. A one-node list becomes empty. |
| `Lists.UnlinkElements` | FemboyEngine/src/fstdlib/linkedlist.h:103-127 | The pointer surgery of `Remove`, followed step by step, leaves exactly the other entries, in order. |
| `Lists.UnlinkValid` | FemboyEngine/src/fstdlib/linkedlist.h:103-127 | After that surgery every link of the remaining chain is mirrored and head and tail are correct. |
| `Lists.SetData` | FemboyEngine/src/scenesystem/scene.cpp:14 | A store through an iterator keeps the list's shape. Only the entry at that position changes. |
| `Lists.Clear` | FemboyEngine/src/fstdlib/linkedlist.h:31-41 | Walking from the head frees exactly the nodes of the chain, and the list is left empty. |
| `Lists.ClearAndDeleteElements` | FemboyEngine/src/fstdlib/linkedlist.h:43-61 | As written: the non-null data elements are deleted in list order and the list is left empty. The only nodes freed are those with non-null data and a successor. |
| `Lists.ClearAndDeleteElementsKeepsTail` | FemboyEngine/src/fstdlib/linkedlist.h:43-61 | The tail node of a non-empty list is never freed by `ClearAndDeleteElements`. |
| `Lists.ClearAndDeleteElementsLeaksSingleNode` | FemboyEngine/src/fstdlib/linkedlist.h:43-61 | For a one-element list, the only node stays allocated after the list forgot it. |
| `Lists.ClearAndDeleteElementsFreeingNodes` | FemboyEngine/src/fstdlib/linkedlist.h:43-61 | As intended, for element destructors that do not call back into the list: every data element is deleted in order and every node of the chain is freed. |
| `Lists.NonNullMembers` | FemboyEngine/src/fstdlib/linkedlist.h:47-48 | The deleted elements are exactly the values that some entry points to. |
| `Lists.ChainDetermined` | FemboyEngine/src/fstdlib/linkedlist.h:8-12 | The pointers of a well-formed list fix its chain: two chains that both fit the same list are equal. |
| `Lists.PrefixAgrees` | FemboyEngine/src/fstdlib/linkedlist.h:8-12 | Two chains that fit the same list agree position by position. |
| `Lists.LinksMirrored` | FemboyEngine/src/fstdlib/linkedlist.h:8-12 | In a well-formed list the ends are open and every `pNext`/`pPrev` link is answered by its partner. |
| `Lists.AddToTailThenRemove` | FemboyEngine/src/fstdlib/linkedlist.h:83-127 | Removing the node `AddToTail` returned restores the contents, head and tail. |
| `Lists.AddToHeadThenRemove` | FemboyEngine/src/fstdlib/linkedlist.h:63-127 | Removing the node `AddToHead` returned restores the contents, head and tail. |
| `Lists.AppendThreeRemoveMiddle` | FemboyEngine/src/fstdlib/linkedlist.h:83-127 | After appending A, B, C and removing B, the list holds A, C, with A at the head and C at the tail. |
| `SceneObjects.NewSceneObject` | FemboyEngine/src/scenesystem/sceneobject.cpp:5-8 | A new object keeps its scene and node pointers and has an empty component list. |
| `SceneObjects.AddComponent` | FemboyEngine/src/scenesystem/sceneobject.cpp:25-27 | The component is appended at the tail of the object's list, at the node that is returned. |
| `SceneObjects.RemoveComponent` | FemboyEngine/src/scenesystem/sceneobject.cpp:29-33 | A null node is ignored. A member node is freed and its entry cut out, and the other components keep their order. |
| `SceneObjects.AddThenRemoveComponent` | FemboyEngine/src/scenesystem/sceneobject.cpp:25-33 | Removing the node `AddComponent` returned gives back the component list the object had. |
| `SceneObjects.DestroySceneObject` | FemboyEngine/src/scenesystem/sceneobject.cpp:10-23 | The destructor deletes exactly the attached components, in list order, and leaves the list empty. |
| `Components.NewComponent` | FemboyEngine/src/scenesystem/component.cpp:6-9 | A new component has neither owner nor node. |
| `Components.GetIterator` | FemboyEngine/src/scenesystem/component.cpp:17-19 | Returns the node pointer. The component is registered exactly when this pointer and the owner are both non-null. For a component whose node is set only with its owner, a non-null pointer implies an owner. `ComponentManagers.IteratorPointer` states which list the node belongs to. |
| `Components.GetOwner` | FemboyEngine/src/scenesystem/component.cpp:21-23 | Returns the owner pointer, which may be null; a component without an owner is not registered. `Components.SetOwnerStoresOwner` states that it answers with the owner last set. |
| `Components.UpdateKeepsObjectsValid` | FemboyEngine/src/scenesystem/component.cpp:11-32 | Replacing one object by one whose list is well formed keeps every object's list well formed. |
| `Components.DestroyComponent` | FemboyEngine/src/scenesystem/component.cpp:11-15 | The node is removed from the owner's list exactly when both pointers are set, leaving the owner's other components in order. Every other object is untouched. |
| `Components.AddComponentTo` | FemboyEngine/src/scenesystem/component.cpp:28 | Appending to a live owner keeps every list well formed and adds the component at the tail. No other object changes. |
| `Components.SetOwner` | FemboyEngine/src/scenesystem/component.cpp:25-32 | As written: the owner pointer is always set. Only a component with both pointers set leaves its old owner's list and joins the new owner's at a new node. Otherwise no list changes and the node pointer is kept. A component whose node pointer is set only with an owner keeps that property. |
| `Components.SetOwnerStoresOwner` | FemboyEngine/src/scenesystem/component.cpp:21-32 | After `SetOwner`, `GetOwner` returns the owner just set, null included. A registered component stays registered, and an unregistered one keeps its node pointer. |
| `Components.DestroyAfterSetOwnersTouchesNothing` | FemboyEngine/src/scenesystem/component.cpp:6-32 | A component built by the constructor and then given any owners is unregistered, and its destructor leaves every scene object as it was: it never calls back into a list. |
| `Components.SetOwners` | FemboyEngine/src/scenesystem/component.cpp:25-32 | Repeated `SetOwner` calls on a component without a node leave it without a node. |
| `Components.SetOwnerNeverRegisters` | FemboyEngine/src/scenesystem/component.cpp:25-32 | However often a new component's owner is set, no object's list changes. Its node stays null and its owner is the last one set. |
| `Components.SetOwnersFromUnregistered` | FemboyEngine/src/scenesystem/component.cpp:25-32 | The same for any component that starts without a node. |
| `Components.SetOwnerCorrected` | FemboyEngine/src/scenesystem/component.cpp:25-32 | As intended: the component leaves its old list. A live new owner gets it appended at the tail whether or not it was registered before. A null owner leaves it unregistered. |
| `Components.CorrectedSetOwnerRegisters` | FemboyEngine/src/scenesystem/component.cpp:25-32 | With the corrected `SetOwner`, a new component given an owner is registered at the last node of that owner's list. |
| `Components.DestroyUndoesAddComponentTo` | FemboyEngine/src/scenesystem/component.cpp:11-15 | Destroying a component right after it was appended restores its owner's chain and contents. |
| `Components.CorrectedAttachThenDestroy` | FemboyEngine/src/scenesystem/component.cpp:11-32 | With the corrected `SetOwner`, attaching a new component and then destroying it restores the owner's list. |
| `ComponentManagers.NewComponentManager` | FemboyEngine/src/scenesystem/componentmanager.h:11-18 | A new manager has no lists. |
| `ComponentManagers.UpdateKeepsManagerValid` | FemboyEngine/src/scenesystem/componentmanager.cpp:7-21 | Replacing one type's list by a well-formed one keeps every list well formed. |
| `ComponentManagers.ListFor` | FemboyEngine/src/scenesystem/componentmanager.cpp:12 | `m_Components[t]` is the stored list, or a new empty one when there is none yet. |
| `ComponentManagers.ListForValid` | FemboyEngine/src/scenesystem/componentmanager.cpp:12 | That list is well formed with its chain, also when it is new. |
| `ComponentManagers.RegisterComponent` | FemboyEngine/src/scenesystem/componentmanager.cpp:7-13 | The assertion fires exactly when the type does not derive from `Component`. The component is appended at the tail of its type's list, which is created if needed. Every other list is unchanged. |
| `ComponentManagers.IteratorPointer` | FemboyEngine/src/scenesystem/component.cpp:17-32 | The pointer `GetIterator()` returns is null exactly when the component has no node. Otherwise it points to a node of the owner's component list. |
| `ComponentManagers.UnregisterComponent` | FemboyEngine/src/scenesystem/componentmanager.cpp:15-21 | As written, given the pointer `GetIterator()` returns. With no list for the type nothing changes. Otherwise the pointer must be to a node that type's list allocated and still holds; that node is cut out and the other entries keep their order. |
| `ComponentManagers.ComponentIteratorNeverOnTypeList` | FemboyEngine/src/scenesystem/componentmanager.cpp:15-21 | A component's own iterator is never a node of a type's list. So unregistering a component is defined exactly when its type has no list, and then it does nothing. |
| `ComponentManagers.UnregisterAfterRegisterUndefined` | FemboyEngine/src/scenesystem/componentmanager.cpp:7-21 | Unregistering a component just registered hands `Remove` a null node, because the new node was dropped. |
| `ComponentManagers.RegisterComponentCorrected` | FemboyEngine/src/scenesystem/componentmanager.cpp:7-13 | As intended: the same append, with the new node kept under the component's address. |
| `ComponentManagers.UnregisterComponentCorrected` | FemboyEngine/src/scenesystem/componentmanager.cpp:15-21 | As intended: the kept node is cut out of its type's list and the component is forgotten. An unknown component changes nothing. |
| `ComponentManagers.RemovedAppended` | FemboyEngine/src/scenesystem/componentmanager.cpp:7-21 | Taking out the node just appended to a chain gives back the chain before. |
| `ComponentManagers.CorrectedRegisterThenUnregister` | FemboyEngine/src/scenesystem/componentmanager.cpp:7-21 | With the corrected pair, registering and then unregistering a component restores its type's list contents. |
| `Scenes.SetActiveCamera` | FemboyEngine/src/scenesystem/scene.cpp:23-25 | The pointer is stored unchecked, null included. Name, default camera and objects are unchanged. |
| `Scenes.NewScene` | FemboyEngine/src/scenesystem/scene.cpp:5-10 | The name is kept. The default camera is the active one. The object list is empty. |
| `Scenes.CreateSceneObject` | FemboyEngine/src/scenesystem/scene.cpp:12-17 | The new object, at the fresh address, is the tail entry of the scene's list. It points back at the scene and at that node. No other object changes. |
| `Scenes.CreateKeepsBackReferenced` | FemboyEngine/src/scenesystem/scene.cpp:12-17 | Creating an object keeps every listed object pointing back at the scene and at its own node. |
| `Scenes.CreateTwiceKeepsOrder` | FemboyEngine/src/scenesystem/scene.cpp:12-17 | Two creations put the objects at the tail in creation order, at two different nodes. |
| `Scenes.GetActiveCamera` | FemboyEngine/src/scenesystem/scene.cpp:19-21 | Returns the active camera pointer: setting the camera to what it answers changes nothing. `Scenes.ActiveCameraRoundTrip` states that it returns the pointer last set. |
| `Scenes.ActiveCameraRoundTrip` | FemboyEngine/src/scenesystem/scene.cpp:19-25 | Reading the active camera gives back the pointer last set. Setting it to what it is changes nothing. |
| `Singletons.Initial` | FemboyEngine/src/core/singleton.h:30-31 | The instance pointer starts null. |
| `Singletons.CreateInstance` | FemboyEngine/src/core/singleton.h:10-14 | After the call an instance exists. An existing instance is kept; otherwise a new one is constructed. |
| `Singletons.DeleteInstance` | FemboyEngine/src/core/singleton.h:16-20 | After the call no instance exists; without one the call does nothing. |
| `Singletons.GetInstance` | FemboyEngine/src/core/singleton.h:22-24 | Defined only when an instance exists, and returns that instance. |
| `Singletons.CreateDeleteLaws` | FemboyEngine/src/core/singleton.h:10-24 | A second `CreateInstance` changes nothing, `DeleteInstance` is idempotent, and deleting then creating makes a new instance. |
| `Singletons.FirstInstance` | FemboyEngine/src/core/singleton.h:10-31 | The first instance created is the first object constructed. |
| `GameConfigs.InitialGameConfig` | FemboyEngine/src/core/gameconfig.cpp:5 | The static configuration starts zeroed. |
| `GameConfigs.SetGameConfig` | FemboyEngine/src/core/gameconfig.cpp:11-13 | Every field is replaced by the given configuration. |
| `GameConfigs.SetGameConfigResolution` | FemboyEngine/src/core/gameconfig.cpp:15-18 | Width and height are replaced and the two flags are kept. |
| `GameConfigs.GetGameConfig` | FemboyEngine/src/core/gameconfig.cpp:7-9 | Returns the stored record: storing it again, whole or only its size, changes nothing. `GameConfigs.GetReturnsLastStored` states that it returns what was last stored. |
| `GameConfigs.GetReturnsLastStored` | FemboyEngine/src/core/gameconfig.cpp:7-18 | The getter returns what was last stored. A later resolution overrides an earlier one, and a full set overrides everything. |
| `GameConfigs.ResolutionUnvalidated` | FemboyEngine/src/core/gameconfig.cpp:15-18 | The resolution is stored unvalidated: a negative width is kept. |
| `ScreenLayers.RenderLayer` | FemboyEngine/src/rendersystem/screenlayer.h:22-31 | As written: the layer itself is drawn first, and a leaf draws only itself. |
| `ScreenLayers.FirstChildDepth` | FemboyEngine/src/rendersystem/screenlayer.h:22-31 | The length of the first-child path from a layer is at least one. |
| `ScreenLayers.RenderLayerIsFirstChildPath` | FemboyEngine/src/rendersystem/screenlayer.h:22-31 | What `RenderLayer` draws is exactly the path that follows each layer's first child. |
| `ScreenLayers.RenderLayerIgnoresLaterSiblings` | FemboyEngine/src/rendersystem/screenlayer.h:22-31 | Children after the first make no difference to `RenderLayer`. |
| `ScreenLayers.Draw` | FemboyEngine/src/rendersystem/screenlayer.h:11-17 | The loop over the screen's children renders each child in list order. |
| `ScreenLayers.RenderEachInOrder` | FemboyEngine/src/rendersystem/screenlayer.h:11-17 | One more child appends its rendering after the others. Each child draws at least one layer. |
| `ScreenLayers.RenderLayerAll` | FemboyEngine/src/rendersystem/screenlayer.h:22-31 | As intended: the layer is drawn first, then every child subtree in order. |
| `ScreenLayers.Size` | FemboyEngine/src/rendersystem/screenlayer.h:22-31 | Every tree holds at least its root. |
| `ScreenLayers.RenderLayerAllDrawsEveryLayer` | FemboyEngine/src/rendersystem/screenlayer.h:22-31 | The intended traversal draws the identity of every layer of the tree and no other, with exactly as many draws as the tree has layers. |
| `ScreenLayers.RenderAllChildrenDrawsEveryLayer` | FemboyEngine/src/rendersystem/screenlayer.h:22-31 | The same for a sequence of subtrees: all their layers and nothing else, as many draws as layers. |
| `ScreenLayers.RenderLayerIsPrefixOfAll` | FemboyEngine/src/rendersystem/screenlayer.h:22-31 | The as-written drawing is a prefix of the intended one. |
| `ScreenLayers.RenderLayerSkipsSecondChild` | FemboyEngine/src/rendersystem/screenlayer.h:22-31 | For a root with two leaf children, as written it draws 0, 1; the intended traversal draws 0, 1, 2. |
| `ScreenLayers.DrawCorrected` | FemboyEngine/src/rendersystem/screenlayer.h:11-31 | With the corrected traversal, `Draw` draws the identity of every layer below the screen and no other, one draw per layer. |
| `Viewports.DefaultViewport` | FemboyEngine/src/rendersystem/viewport.h:10-11 | All zero, except a maximum depth of one. |
| `Viewports.SizedViewport` | FemboyEngine/src/rendersystem/viewport.h:13-14 | The origin is (0, 0) with the given size, and depth runs from 0 to 1. |
| `Viewports.RectViewport` | FemboyEngine/src/rendersystem/viewport.h:16-17 | As written: the origin is (0, 0) whatever x and y are given. Size and depth range are as given. |
| `Viewports.RectViewportDropsOrigin` | FemboyEngine/src/rendersystem/viewport.h:16-17 | A viewport asked for at (10, 20) does not have x = 10 or y = 20. |
| `Viewports.RectViewportCorrected` | FemboyEngine/src/rendersystem/viewport.h:16-17 | As intended: every field is as given. |
| `Viewports.ConstructorsAgree` | FemboyEngine/src/rendersystem/viewport.h:10-17 | The defaults of the six-argument constructor are depth 0 to 1. The size constructor is the corrected one at the origin. The default constructor is the size constructor at 0 × 0. The as-written six-argument constructor equals the corrected one at the origin. |
| `RenderResource.RenderFormatValue` | FemboyEngine/src/rendersystem/renderresource.h:7-13 | Every format has one of the three enumerator values. |
| `RenderResource.RenderFormatOf` | FemboyEngine/src/rendersystem/renderresource.h:7-13 | A number names a format exactly when it is below 3, and then that format's value is the number. |
| `RenderResource.RenderFormatRoundTrip` | FemboyEngine/src/rendersystem/renderresource.h:7-13 | Value then decoding gives back the format. |
| `RenderResource.PrimitiveTopologyOf` | FemboyEngine/src/rendersystem/renderresource.h:15-19 | Only 0 names a topology, `TriangleList`. |
| `RenderResource.BufferUsageOf` | FemboyEngine/src/rendersystem/renderresource.h:21-28 | A number names a usage exactly when it is below 4, and then that usage's value is the number. |
| `RenderResource.BufferUsageOrder` | FemboyEngine/src/rendersystem/renderresource.h:21-28 | The enumerators are `Default` < `Immutable` < `Dynamic` < `Staging`, and decoding is the inverse of the value. |
| `RenderResource.CpuAccessReadIsNoBit` | FemboyEngine/src/rendersystem/renderresource.h:30-36 | `CPUAccessFlags::Read` is 0, so it adds no bit to any mask. `Write` is inside the all-access mask. |
| `RenderResource.BindBit` | FemboyEngine/src/rendersystem/renderresource.h:44-54 | Each bind flag is one bit inside the seven-bit mask. |
| `RenderResource.AllBindFlagsComplete` | FemboyEngine/src/rendersystem/renderresource.h:44-54 | The list of bind flags names every flag. |
| `RenderResource.BindBitsDisjoint` | FemboyEngine/src/rendersystem/renderresource.h:44-54 | Two bind flags share a bit exactly when they are the same flag. |
| `RenderResource.OrBitsHas` | FemboyEngine/src/rendersystem/renderresource.h:44-54 | An OR of flag bits has a flag's bit exactly when the flag is in the set. |
| `RenderResource.MaskOf` | FemboyEngine/src/rendersystem/renderresource.h:44-54 | The mask of a set of flags has exactly their bits, and nothing outside the seven-bit mask. |
| `RenderResource.FlagsOf` | FemboyEngine/src/rendersystem/renderresource.h:44-54 | The flags of a mask are exactly those whose bit is set. |
| `RenderResource.MaskOfRoundTrip` | FemboyEngine/src/rendersystem/renderresource.h:44-54 | Flag set to mask and back gives the same set, and the mask is below 128. |
| `RenderResource.MaskOfInjective` | FemboyEngine/src/rendersystem/renderresource.h:44-54 | Two flag sets have the same mask exactly when they are equal. |
| `D3D11.ThrowIfFailed` | FemboyEngine/src/rendersystem/dx11/dx11.h:14-21 | A call succeeds exactly when its `HRESULT` is not negative. Otherwise the fault names the call and the `HRESULT`. |
| `D3D11.Issue` | FemboyEngine/src/rendersystem/dx11/dx11.h:14-21 | One native call is recorded, and its value is passed on exactly when the `HRESULT` succeeds. |
| `Dx11Convert.ConvertRenderFormat` | FemboyEngine/src/rendersystem/dx11/renderdevicedx11.cpp:16-33 | An engine format maps to the native format that means the same. Any other number maps to `DXGI_FORMAT_UNKNOWN`, and only those do. |
| `Dx11Convert.ConvertRenderFormatOnto` | FemboyEngine/src/rendersystem/dx11/renderdevicedx11.cpp:16-33 | Every known native format is reached, from its engine format. |
| `Dx11Convert.ConvertBufferUsage` | FemboyEngine/src/rendersystem/dx11/renderdevicedx11.cpp:35-56 | An engine usage maps to the native usage of the same meaning. An unknown number fires the assertion and falls back to `D3D11_USAGE_DEFAULT`. |
| `Dx11Convert.ConvertBufferUsageBijective` | FemboyEngine/src/rendersystem/dx11/renderdevicedx11.cpp:35-56 | The usage conversion is one-to-one and onto the four native usages. |
| `Dx11Convert.ConvertPrimitiveTopology` | FemboyEngine/src/rendersystem/dx11/renderdevicedx11.cpp:85-97 | `TriangleList` maps to the native triangle list. Any other number fires the assertion and maps to another value. |
| `Dx11Convert.OrNativeBitsHas` | FemboyEngine/src/rendersystem/dx11/renderdevicedx11.cpp:58-83 | The chain of tests sets a flag's native bit exactly when the engine bit is set. |
| `Dx11Convert.ConvertBindFlags` | FemboyEngine/src/rendersystem/dx11/renderdevicedx11.cpp:58-83 | The result has a flag's native bit exactly when the argument has its engine bit, and no other native bit. |
| `Dx11Convert.ConvertBindFlagsHomomorphic` | FemboyEngine/src/rendersystem/dx11/renderdevicedx11.cpp:58-83 | The conversion maps OR to OR and 0 to 0, and ignores bits outside the engine mask. |
| `Dx11Convert.ConvertBindFlagsOfSet` | FemboyEngine/src/rendersystem/dx11/renderdevicedx11.cpp:58-83 | Converting the mask of a flag set gives exactly those flags' native bits. |
| `Dx11Resources.BufferDescFor` | FemboyEngine/src/rendersystem/dx11/renderdevicedx11.cpp:102-111 | The buffer description carries the size, stride, bind flags and converted usage. CPU write access is granted exactly for dynamic buffers. |
| `Dx11Resources.InitialData` | FemboyEngine/src/rendersystem/dx11/renderdevicedx11.cpp:113-116 | Initial data is passed exactly when a pointer is given, with zero pitches. |
| `Dx11Resources.CreateBuffer` | FemboyEngine/src/rendersystem/dx11/renderdevicedx11.cpp:102-117 | One `CreateBuffer` call with that description is issued, and it fails exactly when its `HRESULT` fails. |
| `Dx11Resources.CreateVertexBuffer` | FemboyEngine/src/rendersystem/dx11/renderdevicedx11.cpp:301-306 | The buffer is created with a byte width equal to the vertex count times the stride, wrapped to 32 bits, and with the `D3D11_BIND_VERTEX_BUFFER` flag. On success the wrapper's constructor (lines 153-157) asks the new buffer for its descriptor with `GetDesc` and keeps the descriptor the runtime reports. A failed creation issues no second call. |
| `Dx11Resources.VertexBufferByteWidth` | FemboyEngine/src/rendersystem/dx11/renderdevicedx11.cpp:301-306 | Without overflow the byte width is the exact product. |
| `Dx11Resources.VertexBufferByteWidthWraps` | FemboyEngine/src/rendersystem/dx11/renderdevicedx11.cpp:301-306 | 65536 vertices of 65536 bytes give a zero byte width. |
| `Dx11Resources.CreateTexture2D` | FemboyEngine/src/rendersystem/dx11/renderdevicedx11.cpp:308-323 | One `CreateTexture2D` call with the described texture and no initial data. It fails exactly when its `HRESULT` fails. |
| `Dx11Resources.CreateTexture2DDefaults` | FemboyEngine/src/rendersystem/renderdevice.h:30 | Without the two defaulted arguments, the texture is created as an array of one, without initial data, exactly as with `nullptr` and `1u`. |
| `Dx11Resources.CreateTexture2DIgnoresInitData` | FemboyEngine/src/rendersystem/dx11/renderdevicedx11.cpp:308-323 | The initial-data pointer makes no difference. |
| `Dx11Resources.ElementDesc` | FemboyEngine/src/rendersystem/dx11/renderdevicedx11.cpp:277-299 | Each input element keeps its semantic, index and offset and converts its format. It is per-vertex data in slot 0. |
| `Dx11Resources.CreateInputLayout` | FemboyEngine/src/rendersystem/dx11/renderdevicedx11.cpp:277-299 | The first `numElements` elements are translated in order and passed with the bytecode in one call. |
| `Dx11Resources.CreateVertexShader` | FemboyEngine/src/rendersystem/dx11/renderdevicedx11.cpp:261-267 | One `CreateVertexShader` call on the bytecode. A successful call returns the shader wrapper. |
| `Dx11Resources.CreatePixelShader` | FemboyEngine/src/rendersystem/dx11/renderdevicedx11.cpp:269-275 | One `CreatePixelShader` call on the bytecode. A successful call returns the shader wrapper. |
| `Dx11Resources.CreateRenderTarget` | FemboyEngine/src/rendersystem/dx11/renderdevicedx11.cpp:325-332 | One `CreateRenderTargetView` on the texture's native texture. A successful call returns the render target wrapper. |
| `Dx11Resources.ReleaseResource` | FemboyEngine/src/rendersystem/dx11/renderdevicedx11.cpp:236-240 | As written: the wrapper is deleted exactly when the remaining count is 0. The native object is released once when the wrapper survives and twice when it is deleted: once by the wrapper's `Release` (for a buffer, lines 161-163) and once by its `ComPtr` member's destructor (line 159). No other resource changes. |
| `Dx11Resources.ReleaseResourceOverReleases` | FemboyEngine/src/rendersystem/dx11/renderdevicedx11.cpp:236-240 | Releasing an object that holds `n` references over-releases it if and only if `n` is 1. Otherwise it is left with `n - 1` references. |
| `Dx11Resources.ReleaseResourceCorrected` | FemboyEngine/src/rendersystem/dx11/renderdevicedx11.cpp:236-240 | As intended: one release of the native object. The wrapper is deleted exactly when the remaining count is 0. No other resource changes. |
| `Dx11Resources.CorrectedReleaseCountsDown` | FemboyEngine/src/rendersystem/dx11/renderdevicedx11.cpp:236-240 | With one release, an object with `n` references is left with `n - 1`, never over-released. The wrapper is freed exactly when that count is 0. |
| `Dx11Resources.Countdown` | FemboyEngine/src/rendersystem/dx11/renderdevicedx11.cpp:236-240 | The reference counts successive releases report: n - 1, n - 2 and so on. |
| `Dx11Resources.ReleaseRepeatedlyFreesAtZero` | FemboyEngine/src/rendersystem/dx11/renderdevicedx11.cpp:236-240 | A resource with n references survives n - 1 releases and is deleted by the n-th. |
| `Dx11Resources.SurvivingReleases` | FemboyEngine/src/rendersystem/dx11/renderdevicedx11.cpp:236-240 | Releases that leave references do not delete anything. |
| `Dx11SwapChain.DefaultSwapChainParams` | FemboyEngine/src/rendersystem/swapchain.h:12-17 | The default parameters are zero with no window. |
| `Dx11SwapChain.NewSwapChain` | FemboyEngine/src/rendersystem/dx11/renderdevicedx11.h:31-38 | A new swap chain has no native objects and a sync interval of 1. |
| `Dx11SwapChain.SwapChainDescFor` | FemboyEngine/src/rendersystem/dx11/renderdevicedx11.cpp:348-361 | The description uses flip-sequential exactly when more than one buffer is asked for, and sequential otherwise. It is windowed RGBA8 with one sample, and its size is left 0. |
| `Dx11SwapChain.IssuedCount` | FemboyEngine/src/rendersystem/dx11/renderdevicedx11.cpp:341-374 | The native calls stop at the first failure, and every call before it succeeded. |
| `Dx11SwapChain.Initialize` | FemboyEngine/src/rendersystem/dx11/renderdevicedx11.cpp:341-374 | The parameters are stored first. The four native calls are issued in order until one fails. It returns true exactly when all four succeed, and then the back buffer wraps the texture obtained. After a failure each member is as the calls before it left it: the factory is set once its creation succeeded, the swap chain is null after a failed `IDXGISwapChain3` query (`As(&m_pSwapChain)` nulls it first) and set after a failed `GetBuffer`, and the back buffer and sync interval are unchanged. |
| `Dx11SwapChain.InitializeNeverReturnsFalse` | FemboyEngine/src/rendersystem/dx11/renderdevicedx11.cpp:341-374 | `Initialize` either throws or returns true. |
| `Dx11SwapChain.Present` | FemboyEngine/src/rendersystem/dx11/renderdevicedx11.cpp:376-378 | Presents with the stored sync interval and no flags. |
| `Dx11SwapChain.SetSyncInterval` | FemboyEngine/src/rendersystem/dx11/renderdevicedx11.cpp:384-386 | The getter then returns the new interval; nothing else changes. |
| `Dx11SwapChain.GetSyncInterval` | FemboyEngine/src/rendersystem/dx11/renderdevicedx11.cpp:380-382 | Returns the interval `Present` passes; setting it to what it answers changes nothing. `Dx11SwapChain.SyncIntervalRoundTrip` states that it is 1 at first and then the last value set. |
| `Dx11SwapChain.SyncIntervalRoundTrip` | FemboyEngine/src/rendersystem/dx11/renderdevicedx11.cpp:376-386 | The initial interval is 1, the last interval set wins, and `Present` uses it. |
| `Dx11SwapChain.GetBackBuffer` | FemboyEngine/src/rendersystem/dx11/renderdevicedx11.cpp:388-390 | Null on a swap chain not yet initialised. `Dx11SwapChain.AccessorsAfterInitialize` states that after a successful `Initialize` it is the wrapper of buffer 0. |
| `Dx11SwapChain.GetNumBackBuffers` | FemboyEngine/src/rendersystem/dx11/renderdevicedx11.cpp:392-394 | 0 on a swap chain not yet initialised. `Dx11SwapChain.AccessorsAfterInitialize` states that after `Initialize` it is the count asked for. |
| `Dx11SwapChain.AccessorsAfterInitialize` | FemboyEngine/src/rendersystem/dx11/renderdevicedx11.cpp:388-394 | After a successful `Initialize`, the buffer count is the one asked for and a back buffer exists. |
| `Dx11Device.NewDevice` | FemboyEngine/src/rendersystem/dx11/renderdevicedx11.h:64-69 | A new device has no native objects, no context and no swap chains. |
| `Dx11Device.CreateFlags` | FemboyEngine/src/rendersystem/dx11/renderdevicedx11.cpp:219-222 | The debug flag is set exactly when debugging is enabled, and no other flag is set. |
| `Dx11Device.Initialize` | FemboyEngine/src/rendersystem/dx11/renderdevicedx11.cpp:218-234 | A hardware device is created with those flags. On success the immediate context wraps the native context and true is returned. On failure the native device and context pointers are null, because `&` on a `ComPtr` releases and nulls it before the call; the immediate context and the swap chains are unchanged. |
| `Dx11Device.CreateDeferredContext` | FemboyEngine/src/rendersystem/dx11/renderdevicedx11.cpp:246-248 | Deferred contexts are not supported: always null. |
| `Dx11Device.GetImmediateContext` | FemboyEngine/src/rendersystem/dx11/renderdevicedx11.cpp:242-244 | Null on a device not yet initialised. `Dx11Device.ImmediateContextAfterInitialize` states that after a successful `Initialize` it wraps the created context with nothing issued. |
| `Dx11Device.ImmediateContextAfterInitialize` | FemboyEngine/src/rendersystem/dx11/renderdevicedx11.cpp:231-244 | After a successful `Initialize`, the immediate context wraps the created context and nothing has been issued on it. |
| `Dx11Device.CreateSwapChainWith` | FemboyEngine/src/rendersystem/dx11/renderdevicedx11.cpp:250-259 | The new swap chain is appended. It is popped again and null is returned if `Initialize` returns false. It stays in the list if `Initialize` throws. |
| `Dx11Device.CreateSwapChain` | FemboyEngine/src/rendersystem/dx11/renderdevicedx11.cpp:250-259 | The list always grows by the new swap chain, which holds the parameters. It is returned exactly when `Initialize` succeeds. |
| `Dx11Device.CreateSwapChainKeepsIdsDistinct` | FemboyEngine/src/rendersystem/dx11/renderdevicedx11.cpp:250-259 | Swap chain addresses stay distinct. |
| `Dx11Context.NewContext` | FemboyEngine/src/rendersystem/dx11/renderdevicedx11.cpp:399-400 | A context wraps the native context, and nothing has been issued yet. |
| `Dx11Context.Emit` | FemboyEngine/src/rendersystem/dx11/renderdevicedx11.cpp:402-450 | Issuing a call appends it to the trace. |
| `Dx11Context.NativeViewport` | FemboyEngine/src/rendersystem/dx11/renderdevicedx11.cpp:406-413 | A native viewport copies every field of the engine viewport. |
| `Dx11Context.SetViewports` | FemboyEngine/src/rendersystem/dx11/renderdevicedx11.cpp:402-416 | One `RSSetViewports` call carries the first `numViewports` viewports, translated in order. |
| `Dx11Context.SetRectViewport` | FemboyEngine/src/rendersystem/viewport.h:16-17 | A six-argument viewport reaches the runtime with its origin at (0, 0). |
| `Dx11Context.ClearRenderTarget` | FemboyEngine/src/rendersystem/dx11/renderdevicedx11.cpp:418-422 | One clear of the target's view with the given colour. |
| `Dx11Context.Views` | FemboyEngine/src/rendersystem/dx11/renderdevicedx11.cpp:424-434 | The native views of the render targets, in order. |
| `Dx11Context.SetRenderTargets` | FemboyEngine/src/rendersystem/dx11/renderdevicedx11.cpp:424-434 | One `OMSetRenderTargets` call with the first `numRenderTargets` views in order and no depth-stencil view. |
| `Dx11Context.SetPrimitiveTopology` | FemboyEngine/src/rendersystem/dx11/renderdevicedx11.cpp:436-438 | One `IASetPrimitiveTopology` with the converted topology. |
| `Dx11Context.SetVertexBuffer` | FemboyEngine/src/rendersystem/dx11/renderdevicedx11.cpp:440-446 | One `IASetVertexBuffers` binding the native buffer to slot 0 with the buffer's own stride and offset 0. |
| `Dx11Context.Draw` | FemboyEngine/src/rendersystem/dx11/renderdevicedx11.cpp:448-450 | One `Draw` with the given count and start. |
| `Dx11Context.VertexBufferBindsItsStride` | FemboyEngine/src/rendersystem/dx11/renderdevicedx11.cpp:301-306 | A vertex buffer, once created and set on a context, is bound at slot 0 with offset 0 and the native buffer created. Its stride is the one in the descriptor the runtime reported. That is the stride asked for when the runtime reports the creation descriptor. |
| `Rhi.NewRhi` | FemboyEngine/src/rendersystem/rhi.cpp:9-11 | A new RHI stores the API and has no devices. |
| `Rhi.CreateRenderDeviceWith` | FemboyEngine/src/rendersystem/rhi.cpp:13-30 | The device is appended. It is popped and null is returned when `Initialize` returns false. It receives the parameters and is returned when `Initialize` returns true. It stays in the list when `Initialize` throws. |
| `Rhi.CreateRenderDevice` | FemboyEngine/src/rendersystem/rhi.cpp:13-30 | With the Direct3D 11 backend the list always grows by the new device. The device is returned, initialised and holding the parameters, exactly when device creation succeeds. |
| `Rhi.Find` | FemboyEngine/src/rendersystem/rhi.cpp:33-35 | The position `find_if` finds: the first device with that address. |
| `Rhi.RemoveRenderDevice` | FemboyEngine/src/rendersystem/rhi.cpp:32-46 | The device is shut down. It reports live objects exactly when debugging is enabled. Then exactly its entry is erased and the others keep their order. |
| `Rhi.CreateThenRemove` | FemboyEngine/src/rendersystem/rhi.cpp:13-46 | Removing a device just created restores the device list. |
| `Rhi.DeviceIdsStayDistinct` | FemboyEngine/src/rendersystem/rhi.cpp:13-46 | Creating at a fresh address, and removing, keep the device addresses distinct. |

## Left out

- **Things left out and why**
  - `main.cpp`, the SDL window and event loop: they drive the engine and are not part of this model.
  - Floating point: viewport fields and clear colours are `real`, copied and never computed with, so rounding cannot arise.
  - `mathlib`, cameras, `typeinfo`, `pointers.h`:
    - `Camera`, the matrix and vector code and the `typeinfo` system are not part of this model.
    - A camera is an address.
    - What `GetTypeInfo()` answers is a parameter.
  - Ownership and reference counting: `ScopedPtr` and `ComPtr` behaviour is not modelled beyond the release count `ReleaseResource` reads and the `Release` a wrapper's `ComPtr` member issues when the wrapper is deleted.
  - The layer tree's own `Draw` of each layer is one drawing event. The `Layer` class and `scenesystem/scenelayer` are not part of this model.
- **Partly modelled**
  - The native runtime:
    - Direct3D 11 and DXGI are not executed.
    - Each call's `HRESULT` and every object it creates are parameters.
    - The `printf` in `ThrowIfFailed` is left out.
  - Element destructors run by `ClearAndDeleteElements` and by the scene object destructor are taken not to call back into the list being cleared. The comment at `linkedlist.h:49` shows that such a call-back was expected. `Component::~Component` calls back into its owner's list when both of its pointers are set (`component.cpp:11-15`). As written that never happens: only `SetOwner` sets the iterator, and it does so only when the iterator is already set (`Components.DestroyAfterSetOwnersTouchesNothing`). With the corrected `SetOwner` the call-back would fire: `Remove` would move `m_pHead` to the next node and free the old head. As written, lines 50-51 would then test and delete the new head, a node still on the list. `Lists.ClearAndDeleteElementsFreeingNodes` would instead free the removed node a second time. So the corrected `SetOwner` and the corrected `ClearAndDeleteElements` conflict, and the model does not combine them.
  - The list destructor (`linkedlist.h:27-29`) only calls `Clear`, which is modelled.
  - `RenderDeviceDx11::D3D11Device` and the empty destructor: the first is the `device` field read directly; the second does nothing.
  - A failed `CreateDXGIFactory1` is taken to leave `m_pFactory` as it was. The source writes through `GetAddressOf()`, which does not release, and what the runtime stores on failure is not modelled.
  - The swap chain's width and height are stored in its parameters, but `Initialize` never puts them in the native description. The model shows this as a zero size in `SwapChainDescFor`.
- **Deliberately weaker contracts**
  - `Lists.Remove`: `Remove` of a node that is not on the list is undefined in the source, so it is required to be on the chain.
  - `Dx11Context.SetViewports`: it requires at most 16 viewports, the size of the `std::array` the source copies them into, and that many supplied. A larger count writes past the array.
  - `Dx11Context.SetRenderTargets`: it requires at most 8 targets, the size of the source's `std::array`, that many supplied, and each a backend render target.
  - `Dx11Context.ClearRenderTarget`: it requires a backend render target, since the source reinterprets the argument as one. It also requires four colour components, the `std::array<float, 4>` type.
  - `Dx11Context.SetVertexBuffer`: it requires a backend buffer, since the source reinterprets the argument as one.
  - `Dx11Resources.CreateRenderTarget`: it requires a backend texture, since the source reinterprets the argument as one.
  - `Dx11SwapChain.Present`: it requires a swap chain, since the source dereferences `m_pSwapChain` unchecked.
  - `Dx11Resources.CreateInputLayout`: it requires at least `numElements` elements, since the source reads that many from `pElements`.
  - `Rhi.CreateRenderDevice`: it requires the `DirectX11` selector. With any other value the source dereferences a null device.
  - `Rhi.RemoveRenderDevice`: it requires the device to be present. The source only asserts it and then erases `end()`.
  - `Components.SetOwner`: it requires a live new owner when the component is registered, since the source then calls `AddComponent` through `pOwner` unchecked (component.cpp:28).
  - `SceneObjects.RemoveComponent`: it requires a non-null node to be on this object's component list, since the list's `Remove` of a foreign node is undefined.
  - `Lists.SetData`: it requires the node to be on this list, since the source stores through the iterator pointer unchecked.
  - `Singletons.GetInstance`: it requires an instance, since the source dereferences `s_pInstance` unchecked.
  - `Dx11Resources.VertexBufferByteWidth`: it states the exact product only without overflow. The wrap-around case is `VertexBufferByteWidthWraps`, and `CreateVertexBuffer` states the width modulo 2^32 for every input.

## Findings

| source | as written | input that shows it | evidently intended | confidence | as-written member | corrected member |
|---|---|---|---|---|---|---|
| FemboyEngine/src/fstdlib/linkedlist.h:43-61 | A node is deleted only inside `if (pData)` and only after stepping to a non-null successor, so the tail node and every null-data node are never freed | a list holding one element: its node is never freed | free every node the element's destructor did not already remove | not executed | `Lists.ClearAndDeleteElementsLeaksSingleNode` | `Lists.ClearAndDeleteElementsFreeingNodes` |
| FemboyEngine/src/rendersystem/viewport.h:16-17 | The six-argument constructor initialises `x` and `y` to 0 and ignores its `x` and `y` arguments | `Viewport_t(10, 20, 640, 480)` has `x == 0`, `y == 0` | store the given origin | not executed | `Viewports.RectViewportDropsOrigin` | `Viewports.RectViewportCorrected` |
| FemboyEngine/src/rendersystem/screenlayer.h:22-31 | `RenderLayer` visits children with `if` instead of `while`, so only the first child of each layer is rendered | a layer with two leaf children draws 0, 1 but not 2 | render every child subtree | not executed | `ScreenLayers.RenderLayerSkipsSecondChild` | `ScreenLayers.RenderLayerAll` |
| FemboyEngine/src/scenesystem/component.cpp:25-32 | `SetOwner` moves the component between lists only when its iterator is already non-null, and nothing else ever sets the iterator | a new component given an owner never appears on that owner's list | append the component to the new owner's list | not executed | `Components.SetOwnerNeverRegisters` | `Components.CorrectedSetOwnerRegisters` |
| FemboyEngine/src/scenesystem/componentmanager.cpp:7-21 | `RegisterComponent` drops the node `AddToTail` returns, and `UnregisterComponent` removes the component's own iterator, which belongs to the owner's list | unregistering a component just registered passes a null node to `Remove`; a registered component's iterator is a node of its owner's list, never of the type's list | keep the node and remove by it | not executed | `ComponentManagers.UnregisterAfterRegisterUndefined` | `ComponentManagers.CorrectedRegisterThenUnregister` |
| FemboyEngine/src/rendersystem/dx11/renderdevicedx11.cpp:236-240 | Each wrapper's `Release` (lines 130-205) calls `Release` on the native object its `ComPtr` member holds. `ReleaseResource` deletes the wrapper when that returns 0, and the default destructor destroys the `ComPtr`, which releases the object again | a buffer whose native object holds one reference: `Release` returns 0, then the `ComPtr` releases an object whose count is already 0 | release the native object once per `ReleaseResource` | not executed | `Dx11Resources.ReleaseResourceOverReleases` | `Dx11Resources.CorrectedReleaseCountsDown` |
