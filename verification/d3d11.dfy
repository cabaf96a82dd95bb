/**
 * The part of the Direct3D 11 / DXGI API the engine's backend uses, as named constants,
 * descriptor records and the calls it issues.
 *
 * Native calls are not executed by the model: each is a `Call` value recorded in a trace, and
 * the `HRESULT` a call returns is supplied by the caller of the model. The flag values are those
 * of the Windows SDK headers d3d11.h and dxgi.h.
 */
module D3D11 {
  import opened Wrappers
  import opened Ints

  /** `HRESULT`; `FAILED(hr)` holds exactly for negative values. */
  type HResult = int32

  predicate Failed(hr: HResult)
  {
    hr < 0
  }

  /** A COM interface pointer handed out by the runtime (device, buffer, view, swap chain, …). */
  type NativeRef = nat

  // D3D11_BIND_FLAG
  const BindVertexBuffer: bv32 := 0x1
  const BindIndexBuffer: bv32 := 0x2
  const BindConstantBuffer: bv32 := 0x4
  const BindShaderResource: bv32 := 0x8
  const BindStreamOutput: bv32 := 0x10
  const BindRenderTarget: bv32 := 0x20
  const BindDepthStencil: bv32 := 0x40
  const BindUnorderedAccess: bv32 := 0x80

  // D3D11_CPU_ACCESS_FLAG
  const CpuAccessWrite: bv32 := 0x1_0000
  const CpuAccessRead: bv32 := 0x2_0000

  // D3D11_CREATE_DEVICE_FLAG
  const CreateDeviceDebug: bv32 := 0x2

  const SdkVersion: uint32 := 7

  // DXGI_USAGE_RENDER_TARGET_OUTPUT
  const UsageRenderTargetOutput: bv32 := 0x20

  // D3D11_VIEWPORT_AND_SCISSORRECT_OBJECT_COUNT_PER_PIPELINE
  const MaxViewports: nat := 16

  // D3D11_SIMULTANEOUS_RENDER_TARGET_COUNT
  const MaxRenderTargets: nat := 8

  /** The `DXGI_FORMAT` values the engine produces. */
  datatype Format = FormatUnknown | FormatR8G8B8A8UNorm | FormatR32Float | FormatR32G32B32A32Float

  /** `D3D11_USAGE`. */
  datatype Usage = UsageDefault | UsageImmutable | UsageDynamic | UsageStaging

  /** The `D3D_PRIMITIVE_TOPOLOGY` values the engine produces. */
  datatype Topology = TopologyUndefined | TopologyTriangleList

  /** The `DXGI_SWAP_EFFECT` values the engine produces. */
  datatype SwapEffect = SwapEffectSequential | SwapEffectFlipSequential

  datatype DriverType = DriverTypeHardware

  datatype InputClassification = PerVertexData

  /** `D3D11_BUFFER_DESC`. */
  datatype BufferDesc = BufferDesc(
    byteWidth: uint32,
    usage: Usage,
    bindFlags: bv32,
    cpuAccessFlags: bv32,
    miscFlags: bv32,
    structureByteStride: uint32)

  /** `D3D11_SUBRESOURCE_DATA`. */
  datatype SubresourceData = SubresourceData(sysMem: Option<Address>, sysMemPitch: uint32, sysMemSlicePitch: uint32)

  /** `D3D11_TEXTURE2D_DESC`. */
  datatype Texture2DDesc = Texture2DDesc(
    width: uint32,
    height: uint32,
    mipLevels: uint32,
    arraySize: uint32,
    format: Format,
    sampleCount: uint32,
    sampleQuality: uint32,
    usage: Usage,
    bindFlags: bv32,
    cpuAccessFlags: bv32,
    miscFlags: bv32)

  /** `D3D11_INPUT_ELEMENT_DESC`. */
  datatype InputElementDesc = InputElementDesc(
    semanticName: string,
    semanticIndex: uint32,
    format: Format,
    inputSlot: uint32,
    alignedByteOffset: uint32,
    inputSlotClass: InputClassification,
    instanceDataStepRate: uint32)

  /** `DXGI_SWAP_CHAIN_DESC`, with its `BufferDesc` (a `DXGI_MODE_DESC`) flattened in. */
  datatype SwapChainDesc = SwapChainDesc(
    width: uint32,
    height: uint32,
    format: Format,
    sampleCount: uint32,
    sampleQuality: uint32,
    bufferUsage: bv32,
    bufferCount: uint32,
    outputWindow: Option<Address>,
    windowed: bool,
    swapEffect: SwapEffect)

  /** `D3D11_VIEWPORT`. Single-precision floats are modelled as reals. */
  datatype Viewport = Viewport(topLeftX: real, topLeftY: real, width: real, height: real, minDepth: real, maxDepth: real)

  /** A native call, with the arguments the engine passes. */
  datatype Call =
    | CreateDevice(driverType: DriverType, flags: bv32, sdkVersion: uint32)
    | CreateBuffer(bufferDesc: BufferDesc, initialData: Option<SubresourceData>)
    | GetDesc(described: NativeRef)
    | CreateTexture2D(textureDesc: Texture2DDesc, textureData: Option<SubresourceData>)
    | CreateVertexShader(vsBytecode: Address, vsLength: nat)
    | CreatePixelShader(psBytecode: Address, psLength: nat)
    | CreateInputLayout(elements: seq<InputElementDesc>, numElements: uint32, ilBytecode: Address, ilLength: nat)
    | CreateRenderTargetView(resource: NativeRef)
    | CreateFactory
    | CreateSwapChain(device: Option<NativeRef>, swapChainDesc: SwapChainDesc)
    | QuerySwapChain3(swapChain: NativeRef)
    | GetBuffer(bufferIndex: uint32)
    | Present(syncInterval: uint32, presentFlags: uint32)
    | RSSetViewports(numViewports: uint32, viewports: seq<Viewport>)
    | ClearRenderTargetView(view: NativeRef, color: seq<real>)
    | OMSetRenderTargets(numViews: uint32, views: seq<NativeRef>, depthStencil: Option<NativeRef>)
    | IASetPrimitiveTopology(topology: Topology)
    | IASetVertexBuffers(startSlot: uint32, numBuffers: uint32, buffers: seq<NativeRef>, strides: seq<uint32>, offsets: seq<uint32>)
    | Draw(vertexCount: uint32, startVertexLocation: uint32)
    | Release(released: NativeRef)

  /** The exception `ThrowIfFailed` throws: which call failed and with what `HRESULT`. */
  datatype Fault = Fault(call: Call, hr: HResult)

  /** `ThrowIfFailed(call)`: throws when the call's `HRESULT` is a failure, otherwise continues. */
  function ThrowIfFailed(call: Call, hr: HResult): (r: Result<(), Fault>)
    ensures r.Success? <==> !Failed(hr)
    ensures r.Failure? ==> r.error.call == call && r.error.hr == hr
  {
    if Failed(hr) then Failure(Fault(call, hr)) else Success(())
  }

  /** The native calls an engine operation issued, in order, and what it returned or threw. */
  datatype Outcome<T> = Outcome(calls: seq<Call>, result: Result<T, Fault>)

  /** Issues `call` under `ThrowIfFailed` and, if it succeeds, returns `value`. */
  function Issue<T>(call: Call, hr: HResult, value: T): (r: Outcome<T>)
    ensures r.calls == [call]
    ensures r.result.Success? <==> !Failed(hr)
    ensures r.result.Success? ==> r.result.value == value
    ensures r.result.Failure? ==> r.result.error == Fault(call, hr)
  {
    match ThrowIfFailed(call, hr)
    case Success(_) => Outcome([call], Success(value))
    case Failure(e) => Outcome([call], Failure(e))
  }
}
