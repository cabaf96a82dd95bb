/**
 * `SwapChainDx11` (rendersystem/dx11/renderdevicedx11.cpp) and the `SwapChainParams_t` it is
 * configured with (rendersystem/swapchain.h).
 *
 * `Initialize` issues four native calls, each under `ThrowIfFailed`; their `HRESULT`s and the
 * objects they return are supplied in an `InitReplies` record.
 */
module Dx11SwapChain {
  import opened Wrappers
  import opened Ints
  import opened Dx11Resources
  import D3D11

  /** `SwapChainParams_t`. */
  datatype SwapChainParams = SwapChainParams(width: uint32, height: uint32, bufferCount: uint32, outputWindow: Option<Address>)

  /** The default constructor of `SwapChainParams_t`: everything zero, no window. */
  function DefaultSwapChainParams(): (p: SwapChainParams)
    ensures p.width == 0 && p.height == 0 && p.bufferCount == 0 && p.outputWindow == None
  {
    SwapChainParams(0, 0, 0, None)
  }

  /** A `SwapChainDx11` object: its factory, swap chain, sync interval, back buffer and parameters. */
  datatype SwapChainDx11 = SwapChainDx11(
    factory: Option<D3D11.NativeRef>,
    swapChain: Option<D3D11.NativeRef>,
    syncInterval: uint32,
    backBuffer: Option<Resource>,
    params: SwapChainParams)

  /** A newly constructed swap chain, before `Initialize`: nothing created, sync interval 1. */
  function NewSwapChain(): (s: SwapChainDx11)
    ensures s.factory == None && s.swapChain == None && s.backBuffer == None
    ensures s.syncInterval == 1
  {
    SwapChainDx11(None, None, 1, None, DefaultSwapChainParams())
  }

  /**
   * The descriptor `Initialize` builds: flip-sequential presentation exactly when more than one
   * buffer is requested, sequential otherwise; always one sample of RGBA8 UNorm, windowed, used as
   * render-target output, into the given window. Width and height stay 0.
   */
  function SwapChainDescFor(params: SwapChainParams): (d: D3D11.SwapChainDesc)
    ensures d.swapEffect == D3D11.SwapEffectFlipSequential <==> params.bufferCount > 1
    ensures d.swapEffect == D3D11.SwapEffectSequential <==> params.bufferCount <= 1
    ensures d.format == D3D11.FormatR8G8B8A8UNorm && d.windowed
    ensures d.sampleCount == 1 && d.sampleQuality == 0
    ensures d.bufferUsage == D3D11.UsageRenderTargetOutput
    ensures d.bufferCount == params.bufferCount && d.outputWindow == params.outputWindow
    ensures d.width == 0 && d.height == 0
  {
    D3D11.SwapChainDesc(
      width := 0,
      height := 0,
      format := D3D11.FormatR8G8B8A8UNorm,
      sampleCount := 1,
      sampleQuality := 0,
      bufferUsage := D3D11.UsageRenderTargetOutput,
      bufferCount := params.bufferCount,
      outputWindow := params.outputWindow,
      windowed := true,
      swapEffect := if params.bufferCount > 1 then D3D11.SwapEffectFlipSequential else D3D11.SwapEffectSequential)
  }

  /**
   * What the runtime answers to the four calls of `Initialize`: `CreateDXGIFactory1`,
   * `IDXGIFactory1::CreateSwapChain`, the query for `IDXGISwapChain3` and `GetBuffer(0)`.
   */
  datatype InitReplies = InitReplies(
    factoryHr: D3D11.HResult, factory: D3D11.NativeRef,
    createHr: D3D11.HResult, swapChain: D3D11.NativeRef,
    queryHr: D3D11.HResult, swapChain3: D3D11.NativeRef,
    getBufferHr: D3D11.HResult, backBuffer: D3D11.NativeRef)

  /** The four calls of a complete `Initialize`, in order. */
  function InitCalls(device: Option<D3D11.NativeRef>, params: SwapChainParams, replies: InitReplies): seq<D3D11.Call>
  {
    [D3D11.CreateFactory,
     D3D11.CreateSwapChain(device, SwapChainDescFor(params)),
     D3D11.QuerySwapChain3(replies.swapChain),
     D3D11.GetBuffer(0)]
  }

  function InitHrs(replies: InitReplies): seq<D3D11.HResult>
  {
    [replies.factoryHr, replies.createHr, replies.queryHr, replies.getBufferHr]
  }

  /** How many of the four calls `Initialize` issues: up to and including the first that fails. */
  function IssuedCount(hrs: seq<D3D11.HResult>): (n: nat)
    requires |hrs| == 4
    ensures 1 <= n <= 4
    ensures forall k | 0 <= k < n - 1 :: !D3D11.Failed(hrs[k])
    ensures n < 4 ==> D3D11.Failed(hrs[n - 1])
  {
    if D3D11.Failed(hrs[0]) then 1
    else if D3D11.Failed(hrs[1]) then 2
    else if D3D11.Failed(hrs[2]) then 3
    else 4
  }

  /**
   * `SwapChainDx11::Initialize`: records the parameters, then creates the factory, the swap chain
   * (on the device's native device, null if the device was never initialised), its `IDXGISwapChain3` interface and the back-buffer wrapper,
   * stopping at the first call that fails. It never returns false: it returns true or throws.
   * The object is returned as the calls left it, also when one threw. The query writes through
   * `&m_pSwapChain`, which releases and nulls the member first, so a failed query leaves it null.
   * A failed factory creation is taken to leave the factory pointer as it was.
   */
  function Initialize(s: SwapChainDx11, device: Option<D3D11.NativeRef>, params: SwapChainParams, replies: InitReplies): (r: (SwapChainDx11, D3D11.Outcome<bool>))
    ensures r.0.params == params
    ensures var n := IssuedCount(InitHrs(replies));
      r.1.calls == InitCalls(device, params, replies)[..n]
    ensures r.1.result.Success? <==> forall k | 0 <= k < 4 :: !D3D11.Failed(InitHrs(replies)[k])
    ensures r.1.result.Success? ==> r.1.result.value
    ensures r.1.result.Failure? ==> var calls := r.1.calls;
      r.1.result.error.call == calls[|calls| - 1] && D3D11.Failed(r.1.result.error.hr)
    ensures var n := IssuedCount(InitHrs(replies));
      r.1.result.Failure? ==>
      && r.0.factory == (if n == 1 then s.factory else Some(replies.factory))
      && r.0.swapChain == (if n <= 2 then s.swapChain else if n == 3 then None else Some(replies.swapChain3))
      && r.0.backBuffer == s.backBuffer
      && r.0.syncInterval == s.syncInterval
    ensures r.1.result.Success? ==>
      && r.0.factory == Some(replies.factory)
      && r.0.swapChain == Some(replies.swapChain3)
      && r.0.backBuffer == Some(Texture2DDx11(replies.backBuffer))
      && r.0.syncInterval == s.syncInterval
  {
    var calls := InitCalls(device, params, replies);
    var s1 := s.(params := params);
    if D3D11.Failed(replies.factoryHr) then
      (s1, D3D11.Outcome(calls[..1], Failure(D3D11.Fault(calls[0], replies.factoryHr))))
    else
      var s2 := s1.(factory := Some(replies.factory));
      if D3D11.Failed(replies.createHr) then
        (s2, D3D11.Outcome(calls[..2], Failure(D3D11.Fault(calls[1], replies.createHr))))
      else if D3D11.Failed(replies.queryHr) then
        (s2.(swapChain := None), D3D11.Outcome(calls[..3], Failure(D3D11.Fault(calls[2], replies.queryHr))))
      else
        var s3 := s2.(swapChain := Some(replies.swapChain3));
        if D3D11.Failed(replies.getBufferHr) then
          assert D3D11.Failed(InitHrs(replies)[3]);
          (s3, D3D11.Outcome(calls[..4], Failure(D3D11.Fault(calls[3], replies.getBufferHr))))
        else
          (s3.(backBuffer := Some(Texture2DDx11(replies.backBuffer))), D3D11.Outcome(calls, Success(true)))
  }

  /** `Initialize` returns false for no replies at all: its only outcomes are true and a throw. */
  lemma InitializeNeverReturnsFalse(s: SwapChainDx11, device: Option<D3D11.NativeRef>, params: SwapChainParams, replies: InitReplies)
    ensures Initialize(s, device, params, replies).1.result != Success(false)
  {
  }

  /** `Present`: presents with the current sync interval and no flags; its `HRESULT` is not checked. */
  function Present(s: SwapChainDx11): (call: D3D11.Call)
    requires s.swapChain.Some?
    ensures call == D3D11.Present(s.syncInterval, 0)
  {
    D3D11.Present(s.syncInterval, 0)
  }

  /** `GetSyncInterval`: the interval `Present` passes, so storing what it answers changes nothing. */
  function GetSyncInterval(s: SwapChainDx11): (r: uint32)
    ensures SetSyncInterval(s, r) == s
    ensures s.swapChain.Some? ==> Present(s) == D3D11.Present(r, 0)
  {
    s.syncInterval
  }

  /** `SetSyncInterval`: stores the interval unchecked and changes nothing else. */
  function SetSyncInterval(s: SwapChainDx11, syncInterval: uint32): (r: SwapChainDx11)
    ensures r.syncInterval == syncInterval
    ensures r.(syncInterval := s.syncInterval) == s
  {
    s.(syncInterval := syncInterval)
  }

  /** The sync interval is 1 until it is set, and `Present` then uses the last value set. */
  lemma SyncIntervalRoundTrip(s: SwapChainDx11, a: uint32, b: uint32)
    ensures GetSyncInterval(NewSwapChain()) == 1
    ensures GetSyncInterval(SetSyncInterval(SetSyncInterval(s, a), b)) == b
    ensures s.swapChain.Some? ==> Present(SetSyncInterval(s, a)) == D3D11.Present(a, 0)
  {
  }

  /** `GetBackBuffer`: the wrapper of buffer 0, null until `Initialize` has created it. */
  function GetBackBuffer(s: SwapChainDx11): (r: Option<Resource>)
    ensures s == NewSwapChain() ==> r == None
  {
    s.backBuffer
  }

  /** `GetNumBackBuffers`: the buffer count of the stored parameters, 0 until `Initialize` stores them. */
  function GetNumBackBuffers(s: SwapChainDx11): (r: uint32)
    ensures s == NewSwapChain() ==> r == 0
  {
    s.params.bufferCount
  }

  /**
   * After `Initialize`, `GetNumBackBuffers` reports the buffer count asked for, whether or not a
   * call threw; after a successful one, `GetBackBuffer` is the wrapper of buffer 0.
   */
  lemma AccessorsAfterInitialize(s: SwapChainDx11, device: Option<D3D11.NativeRef>, params: SwapChainParams, replies: InitReplies)
    ensures var (s', o) := Initialize(s, device, params, replies);
      && GetNumBackBuffers(s') == params.bufferCount
      && (o.result.Success? ==> GetBackBuffer(s') == Some(Texture2DDx11(replies.backBuffer)))
      && GetSyncInterval(s') == GetSyncInterval(s)
  {
  }
}
