/**
 * The conversion functions at the top of rendersystem/dx11/renderdevicedx11.cpp, which translate
 * the engine's render vocabulary into Direct3D 11 values.
 *
 * `SDL_assert` is not modelled as stopping the program: a conversion that reaches it reports that
 * the assertion fired and goes on to return its fallback value, as a release build does.
 */
module Dx11Convert {
  import opened Wrappers
  import opened Ints
  import opened RenderResource
  import D3D11

  /** A converted value, and whether `SDL_assert` fired on the way. */
  datatype Converted<T> = Converted(value: T, asserted: bool)

  /** The engine format a native format stands for; `DXGI_FORMAT_UNKNOWN` stands for none. */
  function FormatToEngine(f: D3D11.Format): Option<RenderFormat>
  {
    match f
    case FormatUnknown => None
    case FormatR8G8B8A8UNorm => Some(R8G8B8A8_UNorm)
    case FormatR32Float => Some(R32_Float)
    case FormatR32G32B32A32Float => Some(R32G32B32A32_Float)
  }

  /**
   * `ConvertRenderFormat`: each of the three formats maps to its own native format, which gives it
   * back; any other value maps to `DXGI_FORMAT_UNKNOWN` without asserting.
   */
  function ConvertRenderFormat(format: uint32): (r: D3D11.Format)
    ensures r == D3D11.FormatUnknown <==> RenderFormatOf(format).None?
    ensures FormatToEngine(r) == RenderFormatOf(format)
  {
    match RenderFormatOf(format)
    case Some(R8G8B8A8_UNorm) => D3D11.FormatR8G8B8A8UNorm
    case Some(R32_Float) => D3D11.FormatR32Float
    case Some(R32G32B32A32_Float) => D3D11.FormatR32G32B32A32Float
    case None => D3D11.FormatUnknown
  }

  /** Every known native format is reached, from exactly one engine format. */
  lemma ConvertRenderFormatOnto(f: D3D11.Format)
    requires f != D3D11.FormatUnknown
    ensures FormatToEngine(f).Some?
    ensures ConvertRenderFormat(RenderFormatValue(FormatToEngine(f).value)) == f
  {
  }

  function UsageToEngine(u: D3D11.Usage): BufferUsage
  {
    match u
    case UsageDefault => Default
    case UsageImmutable => Immutable
    case UsageDynamic => Dynamic
    case UsageStaging => Staging
  }

  /**
   * `ConvertBufferUsage`: the four usages map one-to-one onto the four native usages; an unknown
   * value fires the assertion and falls back to `D3D11_USAGE_DEFAULT`.
   */
  function ConvertBufferUsage(usage: uint32): (r: Converted<D3D11.Usage>)
    ensures r.asserted <==> BufferUsageOf(usage).None?
    ensures r.asserted ==> r.value == D3D11.UsageDefault
    ensures !r.asserted ==> BufferUsageOf(usage) == Some(UsageToEngine(r.value))
  {
    match BufferUsageOf(usage)
    case Some(Default) => Converted(D3D11.UsageDefault, false)
    case Some(Immutable) => Converted(D3D11.UsageImmutable, false)
    case Some(Dynamic) => Converted(D3D11.UsageDynamic, false)
    case Some(Staging) => Converted(D3D11.UsageStaging, false)
    case None => Converted(D3D11.UsageDefault, true)
  }

  /** The usage conversion is a bijection between the engine's four usages and the native four. */
  lemma ConvertBufferUsageBijective(a: BufferUsage, b: BufferUsage, n: D3D11.Usage)
    ensures ConvertBufferUsage(BufferUsageValue(a)).value == ConvertBufferUsage(BufferUsageValue(b)).value <==> a == b
    ensures ConvertBufferUsage(BufferUsageValue(UsageToEngine(n))) == Converted(n, false)
  {
  }

  /**
   * `ConvertPrimitiveTopology`: `TriangleList` maps to the native triangle list; anything else
   * fires the assertion and yields `D3D_PRIMITIVE_TOPOLOGY_UNDEFINED`.
   */
  function ConvertPrimitiveTopology(topology: int): (r: Converted<D3D11.Topology>)
    ensures r.asserted <==> PrimitiveTopologyOf(topology).None?
    ensures r.value == D3D11.TopologyTriangleList <==> PrimitiveTopologyOf(topology) == Some(TriangleList)
  {
    match PrimitiveTopologyOf(topology)
    case Some(TriangleList) => Converted(D3D11.TopologyTriangleList, false)
    case None => Converted(D3D11.TopologyUndefined, true)
  }

  /** The native bind flag each engine bind flag stands for. */
  function NativeBindBit(f: BindFlag): bv32
  {
    match f
    case VertexBuffer => D3D11.BindVertexBuffer
    case IndexBuffer => D3D11.BindIndexBuffer
    case ConstantBuffer => D3D11.BindConstantBuffer
    case DepthStencil => D3D11.BindDepthStencil
    case RenderTarget => D3D11.BindRenderTarget
    case ShaderResource => D3D11.BindShaderResource
    case UnorderedAccess => D3D11.BindUnorderedAccess
  }

  /** The native bind flags an engine flag can be translated to: all but `D3D11_BIND_STREAM_OUTPUT`. */
  const NativeBindMask: bv32 := 0xEF

  /** A bit is in `r | bit` exactly when it is in `r` or in `bit`. */
  lemma OrHas(r: bv32, bit: bv32, m: bv32)
    ensures ((r | bit) & m != 0) <==> (bit & m != 0 || r & m != 0)
  {
    OrDistributes(r, bit, m);
    OrNonZero(r & m, bit & m);
  }

  lemma OrDistributes(r: bv32, bit: bv32, m: bv32)
    ensures (r | bit) & m == (r & m) | (bit & m)
  {
  }

  lemma OrNonZero(x: bv32, y: bv32)
    ensures x | y != 0 <==> x != 0 || y != 0
  {
  }

  /** The translation as the source writes it: one test per engine flag, in source order. */
  function OrNativeBits(bindFlags: bv32): bv32
  {
    var r0: bv32 := 0;
    var r1 := if bindFlags & BindBit(VertexBuffer) != 0 then r0 | D3D11.BindVertexBuffer else r0;
    var r2 := if bindFlags & BindBit(IndexBuffer) != 0 then r1 | D3D11.BindIndexBuffer else r1;
    var r3 := if bindFlags & BindBit(ConstantBuffer) != 0 then r2 | D3D11.BindConstantBuffer else r2;
    var r4 := if bindFlags & BindBit(DepthStencil) != 0 then r3 | D3D11.BindDepthStencil else r3;
    var r5 := if bindFlags & BindBit(ShaderResource) != 0 then r4 | D3D11.BindShaderResource else r4;
    var r6 := if bindFlags & BindBit(RenderTarget) != 0 then r5 | D3D11.BindRenderTarget else r5;
    if bindFlags & BindBit(UnorderedAccess) != 0 then r6 | D3D11.BindUnorderedAccess else r6
  }

  lemma OrNativeBitsHas(bindFlags: bv32, f: BindFlag)
    ensures (OrNativeBits(bindFlags) & NativeBindBit(f) != 0) <==> (bindFlags & BindBit(f) != 0)
  {
    var m := NativeBindBit(f);
    var r0: bv32 := 0;
    var r1 := if bindFlags & BindBit(VertexBuffer) != 0 then r0 | D3D11.BindVertexBuffer else r0;
    var r2 := if bindFlags & BindBit(IndexBuffer) != 0 then r1 | D3D11.BindIndexBuffer else r1;
    var r3 := if bindFlags & BindBit(ConstantBuffer) != 0 then r2 | D3D11.BindConstantBuffer else r2;
    var r4 := if bindFlags & BindBit(DepthStencil) != 0 then r3 | D3D11.BindDepthStencil else r3;
    var r5 := if bindFlags & BindBit(ShaderResource) != 0 then r4 | D3D11.BindShaderResource else r4;
    var r6 := if bindFlags & BindBit(RenderTarget) != 0 then r5 | D3D11.BindRenderTarget else r5;
    if bindFlags & BindBit(VertexBuffer) != 0 { OrHas(r0, D3D11.BindVertexBuffer, m); }
    if bindFlags & BindBit(IndexBuffer) != 0 { OrHas(r1, D3D11.BindIndexBuffer, m); }
    if bindFlags & BindBit(ConstantBuffer) != 0 { OrHas(r2, D3D11.BindConstantBuffer, m); }
    if bindFlags & BindBit(DepthStencil) != 0 { OrHas(r3, D3D11.BindDepthStencil, m); }
    if bindFlags & BindBit(ShaderResource) != 0 { OrHas(r4, D3D11.BindShaderResource, m); }
    if bindFlags & BindBit(RenderTarget) != 0 { OrHas(r5, D3D11.BindRenderTarget, m); }
    if bindFlags & BindBit(UnorderedAccess) != 0 { OrHas(r6, D3D11.BindUnorderedAccess, m); }
    match f
    case VertexBuffer =>
    case IndexBuffer =>
    case ConstantBuffer =>
    case DepthStencil =>
    case RenderTarget =>
    case ShaderResource =>
    case UnorderedAccess =>
  }

  /**
   * `ConvertBindFlags`: the result has the native flag of each engine flag set in `bindFlags` and
   * nothing else; bits of `bindFlags` that name no engine flag are dropped.
   */
  function ConvertBindFlags(bindFlags: bv32): (r: bv32)
    ensures forall f: BindFlag :: (r & NativeBindBit(f) != 0) <==> (bindFlags & BindBit(f) != 0)
    ensures r & !NativeBindMask == 0
  {
    forall f: BindFlag ensures (OrNativeBits(bindFlags) & NativeBindBit(f) != 0) <==> (bindFlags & BindBit(f) != 0) {
      OrNativeBitsHas(bindFlags, f);
    }
    OrNativeBits(bindFlags)
  }

  /** The translation distributes over `|`, maps 0 to 0 and ignores the bits above bit 6. */
  lemma ConvertBindFlagsHomomorphic(a: bv32, b: bv32)
    ensures ConvertBindFlags(a | b) == ConvertBindFlags(a) | ConvertBindFlags(b)
    ensures ConvertBindFlags(0) == 0
    ensures ConvertBindFlags(a) == ConvertBindFlags(a & BindFlagsMask)
  {
  }

  /** Translating a set of engine flags gives exactly the native flags of the set's members. */
  lemma ConvertBindFlagsOfSet(fs: set<BindFlag>, f: BindFlag)
    ensures (ConvertBindFlags(MaskOf(fs)) & NativeBindBit(f) != 0) <==> f in fs
  {
  }
}
