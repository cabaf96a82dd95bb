/**
 * Resource creation and release in the Direct3D 11 render device
 * (rendersystem/dx11/renderdevicedx11.cpp): the descriptors the device fills in, the native
 * call it issues, and the wrapper object it returns.
 *
 * The native object a successful creation call hands back is a parameter (`created`), and so is
 * the `HRESULT` of the call.
 */
module Dx11Resources {
  import opened Wrappers
  import opened Ints
  import opened RenderResource
  import opened Dx11Convert
  import D3D11

  /** The backend's resource wrappers, each holding the native object it owns. */
  datatype Resource =
    | Texture2DDx11(texture: D3D11.NativeRef)
    | RenderTargetDx11(view: D3D11.NativeRef)
    | BufferDx11(buffer: D3D11.NativeRef, desc: D3D11.BufferDesc)
    | VertexShaderDx11(vertexShader: D3D11.NativeRef)
    | PixelShaderDx11(pixelShader: D3D11.NativeRef)
    | InputLayoutDx11(layout: D3D11.NativeRef)

  /** The native object a wrapper's `Release` releases. */
  function NativeOf(r: Resource): D3D11.NativeRef
  {
    match r
    case Texture2DDx11(t) => t
    case RenderTargetDx11(v) => v
    case BufferDx11(b, _) => b
    case VertexShaderDx11(s) => s
    case PixelShaderDx11(s) => s
    case InputLayoutDx11(l) => l
  }

  /**
   * The descriptor the static `CreateBuffer` helper fills in: CPU write access exactly for dynamic
   * buffers and no CPU access otherwise; size, stride and bind flags as given.
   */
  function BufferDescFor(sizeInBytes: uint32, strideInBytes: uint32, bindFlags: bv32, usage: uint32): (d: D3D11.BufferDesc)
    ensures d.cpuAccessFlags == D3D11.CpuAccessWrite <==> BufferUsageOf(usage) == Some(Dynamic)
    ensures d.cpuAccessFlags == 0 <==> BufferUsageOf(usage) != Some(Dynamic)
    ensures d.byteWidth == sizeInBytes && d.structureByteStride == strideInBytes
    ensures d.bindFlags == bindFlags && d.miscFlags == 0
    ensures d.usage == ConvertBufferUsage(usage).value
  {
    var cpu: bv32 := 0;
    D3D11.BufferDesc(
      byteWidth := sizeInBytes,
      usage := ConvertBufferUsage(usage).value,
      bindFlags := bindFlags,
      cpuAccessFlags := if usage == BufferUsageValue(Dynamic) then cpu | D3D11.CpuAccessWrite else cpu,
      miscFlags := 0,
      structureByteStride := strideInBytes)
  }

  /** The initial data passed to the runtime: present exactly when `pInitData` is non-null. */
  function InitialData(pInitData: Option<Address>): (d: Option<D3D11.SubresourceData>)
    ensures d.Some? <==> pInitData.Some?
    ensures d.Some? ==> d.value.sysMem == pInitData && d.value.sysMemPitch == 0 && d.value.sysMemSlicePitch == 0
  {
    if pInitData.Some? then Some(D3D11.SubresourceData(pInitData, 0, 0)) else None
  }

  /** The static `CreateBuffer` helper: one `ID3D11Device::CreateBuffer` call under `ThrowIfFailed`. */
  function CreateBuffer(sizeInBytes: uint32, strideInBytes: uint32, bindFlags: bv32, usage: uint32,
                        pInitData: Option<Address>, hr: D3D11.HResult): (r: D3D11.Outcome<D3D11.BufferDesc>)
    ensures |r.calls| == 1 && r.calls[0].CreateBuffer?
    ensures r.calls[0].bufferDesc == BufferDescFor(sizeInBytes, strideInBytes, bindFlags, usage)
    ensures r.calls[0].initialData.Some? <==> pInitData.Some?
    ensures r.result.Success? <==> !D3D11.Failed(hr)
    ensures r.result.Success? ==> r.result.value == r.calls[0].bufferDesc
  {
    var desc := BufferDescFor(sizeInBytes, strideInBytes, bindFlags, usage);
    D3D11.Issue(D3D11.CreateBuffer(desc, InitialData(pInitData)), hr, desc)
  }

  /**
   * `CreateVertexBuffer`: a buffer of `numVertices * strideInBytes` bytes (the product taken in
   * `uint32_t`), with that stride and the vertex-buffer bind flag. When creation succeeds the
   * wrapper's constructor asks the new buffer for its descriptor (`GetDesc`) and keeps the one the
   * runtime reports (`reported`, a parameter).
   */
  function CreateVertexBuffer(numVertices: uint32, strideInBytes: uint32, usage: uint32, pInitData: Option<Address>,
                              hr: D3D11.HResult, created: D3D11.NativeRef, reported: D3D11.BufferDesc): (r: D3D11.Outcome<Resource>)
    ensures |r.calls| == (if D3D11.Failed(hr) then 1 else 2) && r.calls[0].CreateBuffer?
    ensures r.calls[0].bufferDesc.byteWidth as int == (numVertices as int * strideInBytes as int) % TwoTo32
    ensures r.calls[0].bufferDesc.structureByteStride == strideInBytes
    ensures r.calls[0].bufferDesc.bindFlags == D3D11.BindVertexBuffer
    ensures r.calls[0].bufferDesc.cpuAccessFlags == D3D11.CpuAccessWrite <==> BufferUsageOf(usage) == Some(Dynamic)
    ensures r.calls[0].initialData.Some? <==> pInitData.Some?
    ensures r.result.Success? <==> !D3D11.Failed(hr)
    ensures r.result.Success? ==> r.calls[1] == D3D11.GetDesc(created) && r.result.value == BufferDx11(created, reported)
  {
    var o := CreateBuffer(MulUint32(numVertices, strideInBytes), strideInBytes, D3D11.BindVertexBuffer, usage, pInitData, hr);
    match o.result
    case Success(_) => D3D11.Outcome(o.calls + [D3D11.GetDesc(created)], Success(BufferDx11(created, reported)))
    case Failure(e) => D3D11.Outcome(o.calls, Failure(e))
  }

  /** The byte width is the exact product while it fits in 32 bits. */
  lemma VertexBufferByteWidth(numVertices: uint32, strideInBytes: uint32, usage: uint32, pInitData: Option<Address>,
                              hr: D3D11.HResult, created: D3D11.NativeRef, reported: D3D11.BufferDesc)
    requires numVertices as int * strideInBytes as int < TwoTo32
    ensures CreateVertexBuffer(numVertices, strideInBytes, usage, pInitData, hr, created, reported).calls[0].bufferDesc.byteWidth as int
      == numVertices as int * strideInBytes as int
  {
    ModBelow(numVertices as int * strideInBytes as int);
  }

  /** Beyond 32 bits the byte width wraps: 65536 vertices of 65536 bytes give a zero-byte buffer. */
  lemma VertexBufferByteWidthWraps(usage: uint32, pInitData: Option<Address>, hr: D3D11.HResult, created: D3D11.NativeRef,
                                   reported: D3D11.BufferDesc)
    ensures CreateVertexBuffer(0x1_0000, 0x1_0000, usage, pInitData, hr, created, reported).calls[0].bufferDesc.byteWidth == 0
  {
    assert (0x1_0000 * 0x1_0000) % TwoTo32 == 0;
  }

  lemma ModBelow(p: int)
    requires 0 <= p < TwoTo32
    ensures p % TwoTo32 == p
  {
  }

  /**
   * `CreateTexture2D`: one mip level, one sample, default usage, bound for unordered access and
   * shader resource. `pInitData` is not passed on: the texture is always created without data.
   * The runtime's answers come before the source's parameters with defaults, which keep their
   * defaults: no initial data and an array of one texture.
   */
  function CreateTexture2D(width: uint32, height: uint32, format: uint32, hr: D3D11.HResult, created: D3D11.NativeRef,
                           pInitData: Option<Address> := None, arraySize: uint32 := 1): (r: D3D11.Outcome<Resource>)
    ensures |r.calls| == 1 && r.calls[0].CreateTexture2D?
    ensures var d := r.calls[0].textureDesc;
      && d.width == width && d.height == height && d.arraySize == arraySize
      && d.mipLevels == 1 && d.sampleCount == 1 && d.usage == D3D11.UsageDefault
      && d.bindFlags == D3D11.BindUnorderedAccess | D3D11.BindShaderResource
      && d.cpuAccessFlags == 0
      && FormatToEngine(d.format) == RenderFormatOf(format)
    ensures r.calls[0].textureData == None
    ensures r.result.Success? <==> !D3D11.Failed(hr)
    ensures r.result.Success? ==> r.result.value == Texture2DDx11(created)
  {
    var desc := D3D11.Texture2DDesc(
      width := width,
      height := height,
      mipLevels := 1,
      arraySize := arraySize,
      format := ConvertRenderFormat(format),
      sampleCount := 1,
      sampleQuality := 0,
      usage := D3D11.UsageDefault,
      bindFlags := D3D11.BindUnorderedAccess | D3D11.BindShaderResource,
      cpuAccessFlags := 0,
      miscFlags := 0);
    D3D11.Issue(D3D11.CreateTexture2D(desc, None), hr, Texture2DDx11(created))
  }

  /** Whatever initial data is passed, `CreateTexture2D` issues the same call and returns the same. */
  lemma CreateTexture2DIgnoresInitData(width: uint32, height: uint32, format: uint32, p: Option<Address>, q: Option<Address>,
                                       arraySize: uint32, hr: D3D11.HResult, created: D3D11.NativeRef)
    ensures CreateTexture2D(width, height, format, hr, created, p, arraySize) == CreateTexture2D(width, height, format, hr, created, q, arraySize)
  {
  }

  /** Called with the defaults, `CreateTexture2D` creates a single texture, without initial data. */
  lemma CreateTexture2DDefaults(width: uint32, height: uint32, format: uint32, hr: D3D11.HResult, created: D3D11.NativeRef)
    ensures var r := CreateTexture2D(width, height, format, hr, created);
      && r.calls[0].textureDesc.arraySize == 1
      && r.calls[0].textureData == None
      && r == CreateTexture2D(width, height, format, hr, created, None, 1)
  {
  }

  /** `InputElement_t`: one vertex attribute as the engine describes it. */
  datatype InputElement = InputElement(semanticName: string, semanticIndex: uint32, format: uint32, byteOffset: uint32)

  /** The native element `CreateInputLayout` builds for one engine element: slot 0, per-vertex data. */
  function ElementDesc(e: InputElement): (d: D3D11.InputElementDesc)
    ensures d.semanticName == e.semanticName && d.semanticIndex == e.semanticIndex
    ensures d.alignedByteOffset == e.byteOffset
    ensures FormatToEngine(d.format) == RenderFormatOf(e.format)
    ensures d.inputSlot == 0 && d.inputSlotClass == D3D11.PerVertexData && d.instanceDataStepRate == 0
  {
    D3D11.InputElementDesc(e.semanticName, e.semanticIndex, ConvertRenderFormat(e.format), 0, e.byteOffset, D3D11.PerVertexData, 0)
  }

  /**
   * `CreateInputLayout`: translates the first `numElements` engine elements, in order, and passes
   * them with the shader bytecode to `ID3D11Device::CreateInputLayout`. The source reads
   * `pElements[0 .. numElements)`, so the caller must supply that many.
   */
  method CreateInputLayout(elements: seq<InputElement>, numElements: uint32, bytecode: Address, bytecodeLength: nat,
                           hr: D3D11.HResult, created: D3D11.NativeRef) returns (r: D3D11.Outcome<Resource>)
    requires numElements as int <= |elements|
    ensures |r.calls| == 1 && r.calls[0].CreateInputLayout?
    ensures |r.calls[0].elements| == numElements as int
    ensures forall i | 0 <= i < numElements as int :: r.calls[0].elements[i] == ElementDesc(elements[i])
    ensures r.calls[0].numElements == numElements
    ensures r.calls[0].ilBytecode == bytecode && r.calls[0].ilLength == bytecodeLength
    ensures r.result.Success? <==> !D3D11.Failed(hr)
    ensures r.result.Success? ==> r.result.value == InputLayoutDx11(created)
  {
    var inputElements: seq<D3D11.InputElementDesc> := [];
    var i: uint32 := 0;
    while i < numElements
      invariant i <= numElements
      invariant |inputElements| == i as int
      invariant forall k | 0 <= k < i as int :: inputElements[k] == ElementDesc(elements[k])
    {
      var elem := elements[i];
      inputElements := inputElements + [ElementDesc(elem)];
      i := i + 1;
    }
    r := D3D11.Issue(D3D11.CreateInputLayout(inputElements, numElements, bytecode, bytecodeLength), hr, InputLayoutDx11(created));
  }

  /** `CreateVertexShader`: compiles nothing, hands the bytecode to the runtime and wraps the shader. */
  function CreateVertexShader(bytecode: Address, bytecodeLength: nat, hr: D3D11.HResult, created: D3D11.NativeRef): (r: D3D11.Outcome<Resource>)
    ensures r.calls == [D3D11.CreateVertexShader(bytecode, bytecodeLength)]
    ensures r.result.Success? <==> !D3D11.Failed(hr)
    ensures r.result.Success? ==> r.result.value == VertexShaderDx11(created)
  {
    D3D11.Issue(D3D11.CreateVertexShader(bytecode, bytecodeLength), hr, VertexShaderDx11(created))
  }

  /** `CreatePixelShader`. */
  function CreatePixelShader(bytecode: Address, bytecodeLength: nat, hr: D3D11.HResult, created: D3D11.NativeRef): (r: D3D11.Outcome<Resource>)
    ensures r.calls == [D3D11.CreatePixelShader(bytecode, bytecodeLength)]
    ensures r.result.Success? <==> !D3D11.Failed(hr)
    ensures r.result.Success? ==> r.result.value == PixelShaderDx11(created)
  {
    D3D11.Issue(D3D11.CreatePixelShader(bytecode, bytecodeLength), hr, PixelShaderDx11(created))
  }

  /**
   * `CreateRenderTarget`: a render-target view of the texture's native object. The source
   * reinterprets the argument as the backend's texture wrapper, so it must be one.
   */
  function CreateRenderTarget(texture: Resource, hr: D3D11.HResult, created: D3D11.NativeRef): (r: D3D11.Outcome<Resource>)
    requires texture.Texture2DDx11?
    ensures r.calls == [D3D11.CreateRenderTargetView(texture.texture)]
    ensures r.result.Success? <==> !D3D11.Failed(hr)
    ensures r.result.Success? ==> r.result.value == RenderTargetDx11(created)
  {
    D3D11.Issue(D3D11.CreateRenderTargetView(texture.texture), hr, RenderTargetDx11(created))
  }

  /** The address of a heap-allocated resource wrapper. */
  type ResourceRef = nat

  /**
   * `ReleaseResource` as written: calls the wrapper's `Release`, which releases its native object
   * and returns the object's remaining reference count (a parameter here); the wrapper is deleted
   * exactly when that count is 0. Its destructor is the default one, so deleting it destroys the
   * `ComPtr` member, which releases the native object a second time. Every other wrapper is
   * untouched.
   */
  function ReleaseResource(live: map<ResourceRef, Resource>, p: ResourceRef, remaining: uint32): (r: (map<ResourceRef, Resource>, seq<D3D11.Call>))
    requires p in live
    ensures p in r.0 <==> remaining != 0
    ensures p in r.0 ==> r.0[p] == live[p]
    ensures forall q | q != p :: (q in r.0 <==> q in live) && (q in live ==> r.0[q] == live[q])
    ensures |r.1| == (if remaining == 0 then 2 else 1)
    ensures forall i | 0 <= i < |r.1| :: r.1[i] == D3D11.Release(NativeOf(live[p]))
  {
    var call := D3D11.Release(NativeOf(live[p]));
    if remaining == 0 then (live - {p}, [call, call]) else (live, [call])
  }

  /**
   * The reference count a native object is left with after `calls`, or `None` when one of them
   * releases the object while its count is already 0. Calls on other objects leave it alone.
   */
  function CountAfter(x: D3D11.NativeRef, count: nat, calls: seq<D3D11.Call>): Option<nat>
    decreases |calls|
  {
    if |calls| == 0 then Some(count)
    else if calls[0] == D3D11.Release(x) then
      if count == 0 then None else CountAfter(x, count - 1, calls[1..])
    else CountAfter(x, count, calls[1..])
  }

  /**
   * As written, `ReleaseResource` over-releases exactly when it frees the wrapper: if the native
   * object held `n` references, `Release` reports `n - 1`, and the object survives the call's
   * releases if and only if `n > 1`. With the last reference, the `ComPtr` releases an object
   * whose count is already 0.
   */
  lemma ReleaseResourceOverReleases(live: map<ResourceRef, Resource>, p: ResourceRef, n: nat)
    requires p in live
    requires 0 < n <= TwoTo32
    ensures var x := NativeOf(live[p]);
      var calls := ReleaseResource(live, p, (n - 1) as uint32).1;
      && (CountAfter(x, n, calls) == None <==> n == 1)
      && (n > 1 ==> CountAfter(x, n, calls) == Some(n - 1))
  {
    var x := NativeOf(live[p]);
    var calls := ReleaseResource(live, p, (n - 1) as uint32).1;
    if n == 1 {
      assert calls == [D3D11.Release(x), D3D11.Release(x)];
      assert CountAfter(x, 0, calls[1..]) == None;
    } else {
      assert calls == [D3D11.Release(x)];
      assert CountAfter(x, n - 1, calls[1..]) == Some(n - 1);
    }
  }

  /**
   * `ReleaseResource` as evidently intended: the native object is released once, through the
   * wrapper's `Release`, and the wrapper is deleted without releasing it again.
   */
  function ReleaseResourceCorrected(live: map<ResourceRef, Resource>, p: ResourceRef, remaining: uint32): (r: (map<ResourceRef, Resource>, seq<D3D11.Call>))
    requires p in live
    ensures p in r.0 <==> remaining != 0
    ensures p in r.0 ==> r.0[p] == live[p]
    ensures forall q | q != p :: (q in r.0 <==> q in live) && (q in live ==> r.0[q] == live[q])
    ensures r.1 == [D3D11.Release(NativeOf(live[p]))]
  {
    var call := D3D11.Release(NativeOf(live[p]));
    if remaining == 0 then (live - {p}, [call]) else (live, [call])
  }

  /**
   * The corrected release never over-releases: an object with `n` references is left with
   * `n - 1`, and the wrapper is freed exactly when that is 0.
   */
  lemma CorrectedReleaseCountsDown(live: map<ResourceRef, Resource>, p: ResourceRef, n: nat)
    requires p in live
    requires 0 < n <= TwoTo32
    ensures var r := ReleaseResourceCorrected(live, p, (n - 1) as uint32);
      && CountAfter(NativeOf(live[p]), n, r.1) == Some(n - 1)
      && (p !in r.0 <==> n == 1)
  {
    var x := NativeOf(live[p]);
    var calls := ReleaseResourceCorrected(live, p, (n - 1) as uint32).1;
    assert CountAfter(x, n - 1, calls[1..]) == Some(n - 1);
  }

  /**
   * Releasing one wrapper again and again, with the reference counts its native object reports
   * each time, stops at the first count of 0.
   */
  function ReleaseRepeatedly(live: map<ResourceRef, Resource>, p: ResourceRef, counts: seq<uint32>): map<ResourceRef, Resource>
    decreases |counts|
  {
    if |counts| == 0 || p !in live then live
    else ReleaseRepeatedly(ReleaseResource(live, p, counts[0]).0, p, counts[1..])
  }

  /** The first `m` counts an object with `n` references reports as it is released: `n-1, n-2, …`. */
  function Countdown(n: nat, m: nat): (s: seq<uint32>)
    requires m <= n < TwoTo32
    ensures |s| == m
    ensures forall k | 0 <= k < m :: s[k] as int == n - 1 - k
  {
    seq(m, k requires 0 <= k < m => (n - 1 - k) as uint32)
  }

  /**
   * An object with `n` references released `n` times through its wrapper reports `n-1, …, 0`: the
   * wrapper survives the first `n-1` releases and is freed by the last; other wrappers stay.
   */
  lemma {:induction false} ReleaseRepeatedlyFreesAtZero(live: map<ResourceRef, Resource>, p: ResourceRef, n: nat)
    requires p in live
    requires 0 < n < TwoTo32
    ensures ReleaseRepeatedly(live, p, Countdown(n, n)) == live - {p}
    ensures forall m | 0 <= m < n :: ReleaseRepeatedly(live, p, Countdown(n, m)) == live
    decreases n
  {
    var counts := Countdown(n, n);
    if n == 1 {
      assert counts[1..] == [];
      assert ReleaseResource(live, p, counts[0]).0 == live - {p};
    } else {
      assert ReleaseResource(live, p, counts[0]).0 == live;
      assert counts[1..] == Countdown(n - 1, n - 1);
      ReleaseRepeatedlyFreesAtZero(live, p, n - 1);
    }
    forall m | 0 <= m < n
      ensures ReleaseRepeatedly(live, p, Countdown(n, m)) == live
    {
      SurvivingReleases(live, p, Countdown(n, m));
    }
  }

  /** Releases that all report a positive count leave the wrappers as they were. */
  lemma {:induction false} SurvivingReleases(live: map<ResourceRef, Resource>, p: ResourceRef, counts: seq<uint32>)
    requires forall k | 0 <= k < |counts| :: counts[k] != 0
    ensures ReleaseRepeatedly(live, p, counts) == live
    decreases |counts|
  {
    if |counts| > 0 && p in live {
      assert ReleaseResource(live, p, counts[0]).0 == live;
      SurvivingReleases(live, p, counts[1..]);
    }
  }
}
