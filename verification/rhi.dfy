/**
 * `RHI` (rendersystem/rhi.cpp): the render hardware interface that owns the render devices of
 * the selected graphics API.
 *
 * `SetDeviceParams`, `Shutdown`, `IsDebuggingEnabled` and `ReportLiveObjects` are not defined in
 * the modelled sources. The first is modelled as recording the parameters in the device's entry,
 * `Shutdown` and `ReportLiveObjects` as calls in a trace, and the answer of `IsDebuggingEnabled`
 * is a parameter.
 */
module Rhi {
  import opened Wrappers
  import Dx11Device
  import D3D11
  import Seqs

  /** `GraphicsAPI::Enum`: only `DirectX11` has a backend; other values are kept as numbers. */
  datatype GraphicsApi = DirectX11 | OtherApi(value: int)

  /** The address of a heap-allocated render device. */
  type DeviceRef = nat

  /** One element of `m_pRenderDeviceList`: the owned device, its address and the parameters set on it. */
  datatype DeviceEntry = DeviceEntry(id: DeviceRef, device: Dx11Device.RenderDeviceDx11, params: Option<Dx11Device.DeviceParams>)

  datatype Rhi = Rhi(graphicsApi: GraphicsApi, devices: seq<DeviceEntry>)

  /** The calls `RemoveRenderDevice` makes on the device it removes. */
  datatype DeviceCall = Shutdown(shutDown: DeviceRef) | ReportLiveObjects(reported: DeviceRef)

  /** The constructor: stores the selector; no device exists yet. */
  function NewRhi(graphicsApi: GraphicsApi): (r: Rhi)
    ensures r.graphicsApi == graphicsApi && r.devices == []
  {
    Rhi(graphicsApi, [])
  }

  function EntryId(e: DeviceEntry): DeviceRef
  {
    e.id
  }

  /** The addresses of the owned devices, in list order. */
  function DeviceIds(devices: seq<DeviceEntry>): seq<DeviceRef>
  {
    Seqs.Ids(devices, EntryId)
  }

  ghost predicate DistinctIds(devices: seq<DeviceEntry>)
  {
    forall i, j | 0 <= i < j < |devices| :: devices[i].id != devices[j].id
  }

  /**
   * The list discipline of `CreateRenderDevice`, for any outcome of the device's `Initialize`. With
   * any selector but `DirectX11` the source dereferences a null device, so `DirectX11` is required.
   * The new device is appended first; if `Initialize` returns false it is popped again and null is
   * returned; if it returns true the parameters are set on it and it is returned; if it throws, the
   * exception passes through and the appended device stays in the list.
   */
  function CreateRenderDeviceWith(rhi: Rhi, params: Dx11Device.DeviceParams, id: DeviceRef,
                                  initialized: Dx11Device.RenderDeviceDx11, outcome: Result<bool, D3D11.Fault>): (r: (Rhi, Result<Option<DeviceRef>, D3D11.Fault>))
    requires rhi.graphicsApi == DirectX11
    ensures r.0.graphicsApi == rhi.graphicsApi
    ensures outcome == Success(true) ==>
      r.0.devices == rhi.devices + [DeviceEntry(id, initialized, Some(params))] && r.1 == Success(Some(id))
    ensures outcome == Success(false) ==> r.0.devices == rhi.devices && r.1 == Success(None)
    ensures outcome.Failure? ==>
      r.0.devices == rhi.devices + [DeviceEntry(id, initialized, None)] && r.1 == Failure(outcome.error)
  {
    var grown := rhi.devices + [DeviceEntry(id, initialized, None)];
    match outcome
    case Failure(e) => (rhi.(devices := grown), Failure(e))
    case Success(ok) =>
      if !ok then (rhi.(devices := grown[..|grown| - 1]), Success(None))
      else
        var last := |grown| - 1;
        (rhi.(devices := grown[last := grown[last].(params := Some(params))]), Success(Some(grown[last].id)))
  }

  /**
   * `CreateRenderDevice` with the Direct3D 11 backend: a new device at the fresh address `id`,
   * initialised with `params`. Because that `Initialize` never returns false, the device list always
   * grows by exactly one entry, and the device is returned unless creation threw.
   */
  function CreateRenderDevice(rhi: Rhi, params: Dx11Device.DeviceParams, id: DeviceRef,
                              hr: D3D11.HResult, device: D3D11.NativeRef, context: D3D11.NativeRef): (r: (Rhi, Result<Option<DeviceRef>, D3D11.Fault>))
    requires rhi.graphicsApi == DirectX11
    requires id !in DeviceIds(rhi.devices)
    ensures r.0.graphicsApi == rhi.graphicsApi
    ensures |r.0.devices| == |rhi.devices| + 1 && r.0.devices[..|rhi.devices|] == rhi.devices
    ensures r.0.devices[|rhi.devices|].id == id
    ensures r.1.Success? <==> !D3D11.Failed(hr)
    ensures r.1.Success? ==> r.1 == Success(Some(id)) && r.0.devices[|rhi.devices|].params == Some(params)
    ensures r.1.Success? ==> r.0.devices[|rhi.devices|].device.device == Some(device)
  {
    var (d, o) := Dx11Device.Initialize(Dx11Device.NewDevice(), params, hr, device, context);
    CreateRenderDeviceWith(rhi, params, id, d, o.result)
  }

  /** The position of the first device with address `id`: what `std::find_if` finds. */
  function Find(devices: seq<DeviceEntry>, id: DeviceRef): (i: nat)
    requires id in DeviceIds(devices)
    ensures i < |devices| && devices[i].id == id
    ensures forall j | 0 <= j < i :: devices[j].id != id
  {
    if devices[0].id == id then 0
    else
      assert DeviceIds(devices) == [devices[0].id] + DeviceIds(devices[1..]);
      1 + Find(devices[1..], id)
  }

  /**
   * `RemoveRenderDevice`: the device must be in the list (the source asserts it). It is shut down,
   * then asked to report live objects exactly when debugging is enabled, and then exactly its entry
   * is erased; the other devices keep their order.
   */
  function RemoveRenderDevice(rhi: Rhi, id: DeviceRef, debuggingEnabled: bool): (r: (Rhi, seq<DeviceCall>))
    requires id in DeviceIds(rhi.devices)
    ensures r.0.graphicsApi == rhi.graphicsApi
    ensures var i := Find(rhi.devices, id);
      r.0.devices == rhi.devices[..i] + rhi.devices[i + 1..]
    ensures |r.0.devices| == |rhi.devices| - 1
    ensures |r.1| >= 1 && r.1[0] == Shutdown(id)
    ensures ReportLiveObjects(id) in r.1 <==> debuggingEnabled
    ensures |r.1| == (if debuggingEnabled then 2 else 1)
  {
    var i := Find(rhi.devices, id);
    var calls := [Shutdown(id)] + (if debuggingEnabled then [ReportLiveObjects(id)] else []);
    (rhi.(devices := rhi.devices[..i] + rhi.devices[i + 1..]), calls)
  }

  /** Creating a device and then removing it restores the device list. */
  lemma CreateThenRemove(rhi: Rhi, params: Dx11Device.DeviceParams, id: DeviceRef,
                         hr: D3D11.HResult, device: D3D11.NativeRef, context: D3D11.NativeRef, debuggingEnabled: bool)
    requires rhi.graphicsApi == DirectX11
    requires id !in DeviceIds(rhi.devices)
    ensures var created := CreateRenderDevice(rhi, params, id, hr, device, context).0;
      id in DeviceIds(created.devices) &&
      RemoveRenderDevice(created, id, debuggingEnabled).0 == rhi
  {
    var created := CreateRenderDevice(rhi, params, id, hr, device, context).0;
    var n := |rhi.devices|;
    assert DeviceIds(created.devices)[n] == id;
    assert Find(created.devices, id) == n;
    assert created.devices[..n] == rhi.devices;
  }

  /** Creating and removing devices keeps their addresses distinct. */
  lemma DeviceIdsStayDistinct(rhi: Rhi, params: Dx11Device.DeviceParams, id: DeviceRef,
                              hr: D3D11.HResult, device: D3D11.NativeRef, context: D3D11.NativeRef, gone: DeviceRef, debuggingEnabled: bool)
    requires rhi.graphicsApi == DirectX11
    requires DistinctIds(rhi.devices)
    ensures id !in DeviceIds(rhi.devices) ==> DistinctIds(CreateRenderDevice(rhi, params, id, hr, device, context).0.devices)
    ensures gone in DeviceIds(rhi.devices) ==> DistinctIds(RemoveRenderDevice(rhi, gone, debuggingEnabled).0.devices)
  {
    if id !in DeviceIds(rhi.devices) {
      var ds := CreateRenderDevice(rhi, params, id, hr, device, context).0.devices;
      forall i, j | 0 <= i < j < |ds| ensures ds[i].id != ds[j].id {
        assert ds[i] == rhi.devices[i];
        if j < |rhi.devices| {
          assert ds[j] == rhi.devices[j];
        } else {
          assert DeviceIds(rhi.devices)[i] == rhi.devices[i].id;
        }
      }
    }
    if gone in DeviceIds(rhi.devices) {
      var k := Find(rhi.devices, gone);
      var ds := RemoveRenderDevice(rhi, gone, debuggingEnabled).0.devices;
      forall i, j | 0 <= i < j < |ds| ensures ds[i].id != ds[j].id {
        var i' := if i < k then i else i + 1;
        var j' := if j < k then j else j + 1;
        assert ds[i] == rhi.devices[i'] && ds[j] == rhi.devices[j'];
      }
    }
  }
}
