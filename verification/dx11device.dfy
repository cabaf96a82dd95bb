/**
 * `RenderDeviceDx11` (rendersystem/dx11/renderdevicedx11.cpp): device creation, the immediate
 * context, and the list of swap chains the device owns.
 */
module Dx11Device {
  import opened Wrappers
  import opened Ints
  import opened Dx11Context
  import opened Dx11SwapChain
  import D3D11
  import Seqs

  /** `RenderDeviceParams_t`. */
  datatype DeviceParams = DeviceParams(enableDebugging: bool)

  /** The address of a heap-allocated `SwapChainDx11`. */
  type SwapChainRef = nat

  /** One element of `m_pSwapChainList`: the owned swap chain and its address. */
  datatype SwapChainEntry = SwapChainEntry(id: SwapChainRef, chain: SwapChainDx11)

  /** A `RenderDeviceDx11` object. */
  datatype RenderDeviceDx11 = RenderDeviceDx11(
    device: Option<D3D11.NativeRef>,
    deviceContext: Option<D3D11.NativeRef>,
    immediateContext: Option<RenderContextDx11>,
    swapChains: seq<SwapChainEntry>)

  /** A newly constructed device, before `Initialize`. */
  function NewDevice(): (d: RenderDeviceDx11)
    ensures d.device == None && d.deviceContext == None && d.immediateContext == None && d.swapChains == []
  {
    RenderDeviceDx11(None, None, None, [])
  }

  /** The creation flags: `D3D11_CREATE_DEVICE_DEBUG` exactly when debugging is enabled, else none. */
  function CreateFlags(params: DeviceParams): (flags: bv32)
    ensures flags == D3D11.CreateDeviceDebug <==> params.enableDebugging
    ensures flags == 0 <==> !params.enableDebugging
  {
    var flags: bv32 := 0;
    if params.enableDebugging then flags | D3D11.CreateDeviceDebug else flags
  }

  /**
   * `RenderDeviceDx11::Initialize`: creates a hardware device with the SDK version of the headers,
   * then wraps the device context it returns as the immediate context. It never returns false.
   * Taking the address of a `ComPtr` with `&` releases and nulls it, so both native pointers are
   * null before the call is made; when creation throws they stay null, and the immediate context
   * and the swap chains are left as they were.
   */
  function Initialize(d: RenderDeviceDx11, params: DeviceParams, hr: D3D11.HResult,
                      device: D3D11.NativeRef, context: D3D11.NativeRef): (r: (RenderDeviceDx11, D3D11.Outcome<bool>))
    ensures r.1.calls == [D3D11.CreateDevice(D3D11.DriverTypeHardware, CreateFlags(params), D3D11.SdkVersion)]
    ensures r.1.result.Success? <==> !D3D11.Failed(hr)
    ensures r.1.result.Success? ==>
      && r.1.result.value
      && r.0.device == Some(device) && r.0.deviceContext == Some(context)
      && r.0.immediateContext == Some(NewContext(context))
      && r.0.swapChains == d.swapChains
    ensures r.1.result.Failure? ==> r.0 == d.(device := None, deviceContext := None)
  {
    var call := D3D11.CreateDevice(D3D11.DriverTypeHardware, CreateFlags(params), D3D11.SdkVersion);
    match D3D11.ThrowIfFailed(call, hr)
    case Failure(e) => (d.(device := None, deviceContext := None), D3D11.Outcome([call], Failure(e)))
    case Success(_) =>
      var d' := d.(device := Some(device), deviceContext := Some(context));
      (d'.(immediateContext := Some(NewContext(context))), D3D11.Outcome([call], Success(true)))
  }

  /** `GetImmediateContext`: the wrapper `Initialize` makes, null on a device not yet initialised. */
  function GetImmediateContext(d: RenderDeviceDx11): (r: Option<RenderContextDx11>)
    ensures d == NewDevice() ==> r == None
  {
    d.immediateContext
  }

  /** `CreateDeferredContext` is not implemented by this backend: it always returns null. */
  function CreateDeferredContext(d: RenderDeviceDx11): (r: Option<RenderContextDx11>)
    ensures r == None
  {
    None
  }

  /** After a successful `Initialize`, the immediate context wraps the device context and has issued nothing. */
  lemma ImmediateContextAfterInitialize(params: DeviceParams, hr: D3D11.HResult, device: D3D11.NativeRef, context: D3D11.NativeRef)
    requires !D3D11.Failed(hr)
    ensures var c := GetImmediateContext(Initialize(NewDevice(), params, hr, device, context).0);
      c.Some? && c.value.context == context && c.value.trace == []
  {
  }

  function EntryId(e: SwapChainEntry): SwapChainRef
  {
    e.id
  }

  /** The addresses of the owned swap chains, in list order. */
  function SwapChainIds(chains: seq<SwapChainEntry>): seq<SwapChainRef>
  {
    Seqs.Ids(chains, EntryId)
  }

  /**
   * The list discipline of `CreateSwapChain`, for any outcome of `Initialize`: the new swap chain is
   * appended first; if `Initialize` returns false it is popped again and null is returned; if it
   * returns true the new swap chain is returned; if it throws, the exception passes through and the
   * appended swap chain stays in the list.
   */
  function CreateSwapChainWith(chains: seq<SwapChainEntry>, id: SwapChainRef, initialized: SwapChainDx11,
                               outcome: Result<bool, D3D11.Fault>): (r: (seq<SwapChainEntry>, Result<Option<SwapChainRef>, D3D11.Fault>))
    ensures outcome == Success(true) ==> r.0 == chains + [SwapChainEntry(id, initialized)] && r.1 == Success(Some(id))
    ensures outcome == Success(false) ==> r.0 == chains && r.1 == Success(None)
    ensures outcome.Failure? ==> r.0 == chains + [SwapChainEntry(id, initialized)] && r.1 == Failure(outcome.error)
  {
    var grown := chains + [SwapChainEntry(id, initialized)];
    match outcome
    case Failure(e) => (grown, Failure(e))
    case Success(ok) =>
      if !ok then (grown[..|grown| - 1], Success(None))
      else (grown, Success(Some(grown[|grown| - 1].id)))
  }

  /**
   * `RenderDeviceDx11::CreateSwapChain`: a new swap chain at the fresh address `id`, initialised on
   * this device. On success the list has grown by exactly that swap chain, which is returned.
   */
  function CreateSwapChain(d: RenderDeviceDx11, params: SwapChainParams, id: SwapChainRef, replies: InitReplies): (r: (RenderDeviceDx11, D3D11.Outcome<Option<SwapChainRef>>))
    requires id !in SwapChainIds(d.swapChains)
    ensures r.0.device == d.device && r.0.immediateContext == d.immediateContext
    ensures |r.0.swapChains| == |d.swapChains| + 1 && r.0.swapChains[..|d.swapChains|] == d.swapChains
    ensures r.0.swapChains[|d.swapChains|].id == id
    ensures r.0.swapChains[|d.swapChains|].chain.params == params
    ensures r.1.result.Success? <==> Dx11SwapChain.Initialize(NewSwapChain(), d.device, params, replies).1.result.Success?
    ensures r.1.result.Success? ==> r.1.result.value == Some(id)
    ensures r.1.calls == Dx11SwapChain.Initialize(NewSwapChain(), d.device, params, replies).1.calls
  {
    var (chain, o) := Dx11SwapChain.Initialize(NewSwapChain(), d.device, params, replies);
    Dx11SwapChain.InitializeNeverReturnsFalse(NewSwapChain(), d.device, params, replies);
    var (chains, result) := CreateSwapChainWith(d.swapChains, id, chain, o.result);
    (d.(swapChains := chains), D3D11.Outcome(o.calls, result))
  }

  /** Swap chain addresses stay distinct as swap chains are created. */
  lemma CreateSwapChainKeepsIdsDistinct(d: RenderDeviceDx11, params: SwapChainParams, id: SwapChainRef, replies: InitReplies)
    requires id !in SwapChainIds(d.swapChains)
    requires forall i, j | 0 <= i < j < |d.swapChains| :: d.swapChains[i].id != d.swapChains[j].id
    ensures var chains := CreateSwapChain(d, params, id, replies).0.swapChains;
      forall i, j | 0 <= i < j < |chains| :: chains[i].id != chains[j].id
  {
    var chains := CreateSwapChain(d, params, id, replies).0.swapChains;
    forall i, j | 0 <= i < j < |chains| ensures chains[i].id != chains[j].id {
      if j == |d.swapChains| {
        assert chains[i] == d.swapChains[i];
        assert SwapChainIds(d.swapChains)[i] == d.swapChains[i].id;
      } else {
        assert chains[i] == d.swapChains[i] && chains[j] == d.swapChains[j];
      }
    }
  }
}
