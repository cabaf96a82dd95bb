/**
 * `RenderContextDx11` (rendersystem/dx11/renderdevicedx11.cpp): every operation translates its
 * arguments and issues one call on the native device context. The model keeps the calls issued so
 * far as a trace; no operation reads it.
 */
module Dx11Context {
  import opened Wrappers
  import opened Ints
  import opened Dx11Convert
  import opened Dx11Resources
  import Viewports
  import D3D11

  /** The wrapped `ID3D11DeviceContext` and the calls issued on it, oldest first. */
  datatype RenderContextDx11 = RenderContextDx11(context: D3D11.NativeRef, trace: seq<D3D11.Call>)

  /** The constructor: wraps the native context; nothing has been issued yet. */
  function NewContext(context: D3D11.NativeRef): (c: RenderContextDx11)
    ensures c.context == context && c.trace == []
  {
    RenderContextDx11(context, [])
  }

  function Emit(c: RenderContextDx11, call: D3D11.Call): (r: RenderContextDx11)
    ensures r.context == c.context && r.trace == c.trace + [call]
  {
    c.(trace := c.trace + [call])
  }

  /** The native viewport for an engine viewport: the six fields carried over unchanged. */
  function NativeViewport(v: Viewports.Viewport): (n: D3D11.Viewport)
    ensures n.topLeftX == v.x && n.topLeftY == v.y && n.width == v.width && n.height == v.height
    ensures n.minDepth == v.minDepth && n.maxDepth == v.maxDepth
  {
    D3D11.Viewport(v.x, v.y, v.width, v.height, v.minDepth, v.maxDepth)
  }

  /**
   * `SetViewports`: converts the first `numViewports` viewports into a fixed array of
   * `D3D11_VIEWPORT_AND_SCISSORRECT_OBJECT_COUNT_PER_PIPELINE` entries and sets them. A larger
   * count writes past that array, so it is a precondition.
   */
  method SetViewports(c: RenderContextDx11, viewports: seq<Viewports.Viewport>, numViewports: uint32) returns (r: RenderContextDx11)
    requires numViewports as int <= |viewports|
    requires numViewports as int <= D3D11.MaxViewports
    ensures r.context == c.context
    ensures |r.trace| == |c.trace| + 1 && r.trace[..|c.trace|] == c.trace
    ensures var call := r.trace[|c.trace|];
      && call.RSSetViewports? && call.numViewports == numViewports
      && |call.viewports| == numViewports as int
      && forall i | 0 <= i < numViewports as int :: call.viewports[i] == NativeViewport(viewports[i])
  {
    var native: seq<D3D11.Viewport> := [];
    var i: uint32 := 0;
    while i < numViewports
      invariant i <= numViewports
      invariant |native| == i as int
      invariant forall k | 0 <= k < i as int :: native[k] == NativeViewport(viewports[k])
    {
      var vp := viewports[i];
      native := native + [NativeViewport(vp)];
      i := i + 1;
    }
    r := Emit(c, D3D11.RSSetViewports(numViewports, native));
  }

  /** A viewport made by the six-argument constructor reaches the runtime with its origin at (0, 0). */
  method SetRectViewport(c: RenderContextDx11, x: real, y: real, width: real, height: real) returns (r: RenderContextDx11)
    ensures |r.trace| == |c.trace| + 1 && r.trace[..|c.trace|] == c.trace
    ensures var call := r.trace[|c.trace|];
      && call.RSSetViewports? && |call.viewports| == 1
      && call.viewports[0].topLeftX == 0.0 && call.viewports[0].topLeftY == 0.0
      && call.viewports[0].width == width && call.viewports[0].height == height
  {
    r := SetViewports(c, [Viewports.RectViewport(x, y, width, height)], 1);
  }

  /**
   * `ClearRenderTarget`: clears the view of a backend render target to a four-component colour.
   * The source reinterprets the argument as the backend's wrapper, so it must be one.
   */
  function ClearRenderTarget(c: RenderContextDx11, target: Resource, clearColor: seq<real>): (r: RenderContextDx11)
    requires target.RenderTargetDx11?
    requires |clearColor| == 4
    ensures r.context == c.context
    ensures r.trace == c.trace + [D3D11.ClearRenderTargetView(target.view, clearColor)]
  {
    Emit(c, D3D11.ClearRenderTargetView(target.view, clearColor))
  }

  /** The views of a sequence of backend render targets. */
  function Views(targets: seq<Resource>): (vs: seq<D3D11.NativeRef>)
    requires forall i | 0 <= i < |targets| :: targets[i].RenderTargetDx11?
    ensures |vs| == |targets|
    ensures forall i | 0 <= i < |targets| :: vs[i] == targets[i].view
  {
    seq(|targets|, i requires 0 <= i < |targets| => targets[i].view)
  }

  /**
   * `SetRenderTargets`: binds the views of the first `numRenderTargets` targets, with no depth
   * stencil. The views are gathered into an array of `D3D11_SIMULTANEOUS_RENDER_TARGET_COUNT`
   * entries, so a larger count is a precondition.
   */
  method SetRenderTargets(c: RenderContextDx11, targets: seq<Resource>, numRenderTargets: uint32) returns (r: RenderContextDx11)
    requires numRenderTargets as int <= |targets|
    requires numRenderTargets as int <= D3D11.MaxRenderTargets
    requires forall i | 0 <= i < numRenderTargets as int :: targets[i].RenderTargetDx11?
    ensures r.context == c.context
    ensures |r.trace| == |c.trace| + 1 && r.trace[..|c.trace|] == c.trace
    ensures var call := r.trace[|c.trace|];
      && call.OMSetRenderTargets? && call.numViews == numRenderTargets && call.depthStencil == None
      && |call.views| == numRenderTargets as int
      && forall i | 0 <= i < numRenderTargets as int :: call.views[i] == targets[i].view
  {
    var views: seq<D3D11.NativeRef> := [];
    var i: uint32 := 0;
    while i < numRenderTargets
      invariant i <= numRenderTargets
      invariant |views| == i as int
      invariant forall k | 0 <= k < i as int :: views[k] == targets[k].view
    {
      views := views + [targets[i].view];
      i := i + 1;
    }
    r := Emit(c, D3D11.OMSetRenderTargets(numRenderTargets, views, None));
  }

  /** `SetPrimtiveTopology`: sets the converted topology (undefined, after an assertion, for unknown values). */
  function SetPrimitiveTopology(c: RenderContextDx11, topology: int): (r: RenderContextDx11)
    ensures r.context == c.context
    ensures |r.trace| == |c.trace| + 1 && r.trace[..|c.trace|] == c.trace
    ensures r.trace[|c.trace|].IASetPrimitiveTopology?
    ensures r.trace[|c.trace|].topology == ConvertPrimitiveTopology(topology).value
  {
    Emit(c, D3D11.IASetPrimitiveTopology(ConvertPrimitiveTopology(topology).value))
  }

  /**
   * `SetVertexBuffer`: binds the buffer alone to input slot 0, with the stride its descriptor
   * records and offset 0. The argument must be a backend buffer.
   */
  function SetVertexBuffer(c: RenderContextDx11, vertexBuffer: Resource): (r: RenderContextDx11)
    requires vertexBuffer.BufferDx11?
    ensures r.context == c.context
    ensures |r.trace| == |c.trace| + 1 && r.trace[..|c.trace|] == c.trace
    ensures var call := r.trace[|c.trace|];
      && call.IASetVertexBuffers? && call.startSlot == 0 && call.numBuffers == 1
      && call.buffers == [vertexBuffer.buffer]
      && call.strides == [vertexBuffer.desc.structureByteStride]
      && call.offsets == [0]
  {
    Emit(c, D3D11.IASetVertexBuffers(0, 1, [vertexBuffer.buffer], [vertexBuffer.desc.structureByteStride], [0]))
  }

  /** `Draw`: passes both arguments through unchanged. */
  function Draw(c: RenderContextDx11, vertexCount: uint32, startVertexLocation: uint32): (r: RenderContextDx11)
    ensures r.context == c.context
    ensures r.trace == c.trace + [D3D11.Draw(vertexCount, startVertexLocation)]
  {
    Emit(c, D3D11.Draw(vertexCount, startVertexLocation))
  }

  /**
   * A vertex buffer created and then set on a context is bound to slot 0, offset 0, with the
   * native buffer the runtime created and the stride of the descriptor the runtime reported for
   * it; when that report is the descriptor the buffer was created with, the stride is exactly the
   * one asked for.
   */
  lemma VertexBufferBindsItsStride(c: RenderContextDx11, numVertices: uint32, strideInBytes: uint32, usage: uint32,
                                   pInitData: Option<Address>, hr: D3D11.HResult, created: D3D11.NativeRef,
                                   reported: D3D11.BufferDesc)
    requires !D3D11.Failed(hr)
    ensures var o := CreateVertexBuffer(numVertices, strideInBytes, usage, pInitData, hr, created, reported);
      o.result.Success? && o.result.value.BufferDx11? &&
      var r := SetVertexBuffer(c, o.result.value);
      && r.trace[|c.trace|] == D3D11.IASetVertexBuffers(0, 1, [created], [reported.structureByteStride], [0])
      && (reported == o.calls[0].bufferDesc ==> r.trace[|c.trace|] == D3D11.IASetVertexBuffers(0, 1, [created], [strideInBytes], [0]))
  {
  }
}
