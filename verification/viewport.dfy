/**
 * `Viewport_t` (rendersystem/viewport.h): a rectangle of the render target and a depth range,
 * with three constructors. Single-precision floats are modelled as reals; the constructors only
 * assign fields.
 */
module Viewports {

  datatype Viewport = Viewport(x: real, y: real, width: real, height: real, minDepth: real, maxDepth: real)

  /** The default constructor: an empty rectangle at the origin with the full depth range [0, 1]. */
  function DefaultViewport(): (v: Viewport)
    ensures v.x == 0.0 && v.y == 0.0 && v.width == 0.0 && v.height == 0.0
    ensures v.minDepth == 0.0 && v.maxDepth == 1.0
  {
    Viewport(0.0, 0.0, 0.0, 0.0, 0.0, 1.0)
  }

  /** The `(width, height)` constructor: a `width` by `height` rectangle at the origin, depth [0, 1]. */
  function SizedViewport(width: real, height: real): (v: Viewport)
    ensures v.x == 0.0 && v.y == 0.0 && v.width == width && v.height == height
    ensures v.minDepth == 0.0 && v.maxDepth == 1.0
  {
    Viewport(0.0, 0.0, width, height, 0.0, 1.0)
  }

  /**
   * The six-argument constructor as written: width, height and the depth range are stored, but the
   * origin is set to (0, 0) and the `x` and `y` arguments are ignored.
   */
  function RectViewport(x: real, y: real, width: real, height: real, minDepth: real := 0.0, maxDepth: real := 1.0): (v: Viewport)
    ensures v.x == 0.0 && v.y == 0.0
    ensures v.width == width && v.height == height && v.minDepth == minDepth && v.maxDepth == maxDepth
  {
    Viewport(0.0, 0.0, width, height, minDepth, maxDepth)
  }

  /** A viewport requested at (10, 20) comes out at the origin. */
  lemma RectViewportDropsOrigin()
    ensures RectViewport(10.0, 20.0, 640.0, 480.0).x != 10.0
    ensures RectViewport(10.0, 20.0, 640.0, 480.0).y != 20.0
  {
  }

  /** The six-argument constructor as evidently intended: every argument lands in its field. */
  function RectViewportCorrected(x: real, y: real, width: real, height: real, minDepth: real := 0.0, maxDepth: real := 1.0): (v: Viewport)
    ensures v.x == x && v.y == y
    ensures v.width == width && v.height == height && v.minDepth == minDepth && v.maxDepth == maxDepth
  {
    Viewport(x, y, width, height, minDepth, maxDepth)
  }

  /**
   * How the constructors relate: omitted depth arguments default to [0, 1]; the two-argument
   * constructor is the six-argument one at the origin; the default one is the empty rectangle; and
   * the six-argument constructor as written agrees with the corrected one exactly at the origin.
   */
  lemma ConstructorsAgree(x: real, y: real, width: real, height: real, minDepth: real, maxDepth: real)
    ensures RectViewport(x, y, width, height) == RectViewport(x, y, width, height, 0.0, 1.0)
    ensures SizedViewport(width, height) == RectViewportCorrected(0.0, 0.0, width, height)
    ensures DefaultViewport() == SizedViewport(0.0, 0.0)
    ensures RectViewport(x, y, width, height, minDepth, maxDepth) == RectViewportCorrected(x, y, width, height, minDepth, maxDepth)
      <==> x == 0.0 && y == 0.0
  {
  }
}
