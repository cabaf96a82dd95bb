/**
 * The backend-independent render vocabulary (rendersystem/renderresource.h).
 *
 * The engine's enums are plain C++ enums, so a variable of enum type can hold any value of the
 * underlying integer type; the conversion functions have a `default:` branch for the values that
 * name no enumerator. Each enum is therefore a datatype of its enumerators together with the
 * enumerator's integer value (`…Value`) and the partial decoding of an integer (`…Of`).
 */
module RenderResource {
  import opened Wrappers
  import opened Ints

  /** `RenderFormat::Enum`, underlying type `uint32_t`. */
  datatype RenderFormat = R8G8B8A8_UNorm | R32_Float | R32G32B32A32_Float

  function RenderFormatValue(f: RenderFormat): (v: uint32)
    ensures v < 3
  {
    match f
    case R8G8B8A8_UNorm => 0
    case R32_Float => 1
    case R32G32B32A32_Float => 2
  }

  /** The enumerator a `RenderFormat::Enum` value names, if any. */
  function RenderFormatOf(v: uint32): (r: Option<RenderFormat>)
    ensures r.Some? <==> v < 3
    ensures r.Some? ==> RenderFormatValue(r.value) == v
  {
    if v == 0 then Some(R8G8B8A8_UNorm)
    else if v == 1 then Some(R32_Float)
    else if v == 2 then Some(R32G32B32A32_Float)
    else None
  }

  /** Decoding an enumerator's value gives back that enumerator: the three values are distinct. */
  lemma RenderFormatRoundTrip(f: RenderFormat)
    ensures RenderFormatOf(RenderFormatValue(f)) == Some(f)
  {
  }

  /** `PrimitiveToplogy::Enum`: no fixed underlying type, a single enumerator. */
  datatype PrimitiveTopology = TriangleList

  function PrimitiveTopologyValue(t: PrimitiveTopology): (v: int)
    ensures v == 0
  {
    match t
    case TriangleList => 0
  }

  function PrimitiveTopologyOf(v: int): (r: Option<PrimitiveTopology>)
    ensures r.Some? <==> v == 0
    ensures r.Some? ==> PrimitiveTopologyValue(r.value) == v
  {
    if v == 0 then Some(TriangleList) else None
  }

  /** `BufferUsage::Enum`, underlying type `uint32_t`: four enumerators in this order. */
  datatype BufferUsage = Default | Immutable | Dynamic | Staging

  function BufferUsageValue(u: BufferUsage): (v: uint32)
    ensures v < 4
  {
    match u
    case Default => 0
    case Immutable => 1
    case Dynamic => 2
    case Staging => 3
  }

  function BufferUsageOf(v: uint32): (r: Option<BufferUsage>)
    ensures r.Some? <==> v < 4
    ensures r.Some? ==> BufferUsageValue(r.value) == v
  {
    if v == 0 then Some(Default)
    else if v == 1 then Some(Immutable)
    else if v == 2 then Some(Dynamic)
    else if v == 3 then Some(Staging)
    else None
  }

  /** The four usages are numbered 0 to 3 in declaration order, and decoding inverts the numbering. */
  lemma BufferUsageOrder(u: BufferUsage)
    ensures BufferUsageValue(Default) < BufferUsageValue(Immutable) < BufferUsageValue(Dynamic) < BufferUsageValue(Staging)
    ensures BufferUsageOf(BufferUsageValue(u)) == Some(u)
  {
  }

  /**
   * `CPUAccessFlags::Enum`: `Read` is 0, `Write` is 1 and `All` is `~0`. `Read` is therefore not a
   * bit of its own: or-ing it into a mask changes nothing and testing for it never succeeds.
   */
  const CpuAccessRead: bv32 := 0
  const CpuAccessWrite: bv32 := 1
  const CpuAccessAll: bv32 := 0xFFFF_FFFF

  lemma CpuAccessReadIsNoBit(m: bv32)
    ensures m | CpuAccessRead == m
    ensures m & CpuAccessRead == 0
    ensures m & CpuAccessAll == m
    ensures CpuAccessWrite & CpuAccessAll == CpuAccessWrite
  {
  }

  /** `MiscFlags::StructuredBuffer`. */
  const MiscStructuredBuffer: bv32 := 1

  /** `BindFlags::Enum`: the seven bind points a resource may be bound to. */
  datatype BindFlag = VertexBuffer | IndexBuffer | ConstantBuffer | DepthStencil | RenderTarget | ShaderResource | UnorderedAccess

  const AllBindFlags: set<BindFlag> :=
    {VertexBuffer, IndexBuffer, ConstantBuffer, DepthStencil, RenderTarget, ShaderResource, UnorderedAccess}

  /** The bits 0 to 6 that `BindFlags::Enum` uses. */
  const BindFlagsMask: bv32 := 0x7F

  /** The engine's bit for a bind flag: `1 << 0` through `1 << 6` in declaration order. */
  function BindBit(f: BindFlag): (b: bv32)
    ensures b != 0 && b & (b - 1) == 0
    ensures b & !BindFlagsMask == 0
  {
    match f
    case VertexBuffer => 1 << 0
    case IndexBuffer => 1 << 1
    case ConstantBuffer => 1 << 2
    case DepthStencil => 1 << 3
    case RenderTarget => 1 << 4
    case ShaderResource => 1 << 5
    case UnorderedAccess => 1 << 6
  }

  lemma AllBindFlagsComplete(f: BindFlag)
    ensures f in AllBindFlags
  {
  }

  /** Distinct flags have disjoint bits. */
  lemma BindBitsDisjoint(f: BindFlag, g: BindFlag)
    ensures f != g <==> BindBit(f) & BindBit(g) == 0
  {
  }

  function OrBits(fs: set<BindFlag>): bv32
  {
    (if VertexBuffer in fs then 0x01 else 0)
    | (if IndexBuffer in fs then 0x02 else 0)
    | (if ConstantBuffer in fs then 0x04 else 0)
    | (if DepthStencil in fs then 0x08 else 0)
    | (if RenderTarget in fs then 0x10 else 0)
    | (if ShaderResource in fs then 0x20 else 0)
    | (if UnorderedAccess in fs then 0x40 else 0)
  }

  lemma OrBitsHas(fs: set<BindFlag>, f: BindFlag)
    ensures (OrBits(fs) & BindBit(f) != 0) <==> f in fs
  {
    match f
    case VertexBuffer =>
    case IndexBuffer =>
    case ConstantBuffer =>
    case DepthStencil =>
    case RenderTarget =>
    case ShaderResource =>
    case UnorderedAccess =>
  }

  /** The mask a set of bind flags is or-ed together into. */
  function MaskOf(fs: set<BindFlag>): (m: bv32)
    ensures forall f: BindFlag :: (m & BindBit(f) != 0) <==> f in fs
    ensures m & !BindFlagsMask == 0
  {
    forall f: BindFlag ensures (OrBits(fs) & BindBit(f) != 0) <==> f in fs {
      OrBitsHas(fs, f);
    }
    OrBits(fs)
  }

  /** The bind flags whose bits are set in `m`; bits above bit 6 name no flag. */
  function FlagsOf(m: bv32): (fs: set<BindFlag>)
    ensures forall f: BindFlag :: f in fs <==> m & BindBit(f) != 0
  {
    forall f: BindFlag ensures f in AllBindFlags { AllBindFlagsComplete(f); }
    set f | f in AllBindFlags && m & BindBit(f) != 0
  }

  /** Every combination of bind flags is a distinct mask below 128, and the mask determines the set. */
  lemma MaskOfRoundTrip(fs: set<BindFlag>)
    ensures FlagsOf(MaskOf(fs)) == fs
    ensures MaskOf(fs) < 128
  {
  }

  lemma MaskOfInjective(a: set<BindFlag>, b: set<BindFlag>)
    ensures MaskOf(a) == MaskOf(b) <==> a == b
  {
    MaskOfRoundTrip(a);
    MaskOfRoundTrip(b);
  }

  /** `BufferDesc`: the engine's buffer description. */
  datatype BufferDesc = BufferDesc(
    initData: Option<Address>,
    sizeInBytes: uint32,
    usage: uint32,
    bindFlags: bv32,
    cpuAccessFlags: bv32)

  /** `TextureDesc`: the engine's texture description. */
  datatype TextureDesc = TextureDesc(
    initData: Option<Address>,
    width: uint32,
    height: uint32,
    depth: uint32,
    format: uint32,
    mipLevels: uint32,
    bindFlags: bv32)
}
