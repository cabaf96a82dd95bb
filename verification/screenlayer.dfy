/**
 * `ScreenLayer` (rendersystem/screenlayer.h): draws the layer tree below the screen layer.
 *
 * A layer is modelled by its identity and its child layers in list order (the contents of its
 * `m_ChildLayers`, head to tail). Drawing a layer is modelled as appending its identity to the
 * sequence of draws; what the layer's own `Draw` renders is not part of this model.
 */
module ScreenLayers {

  type LayerId = nat

  datatype Layer = Layer(id: LayerId, children: seq<Layer>)

  /**
   * `RenderLayer` as written: draws the layer, then, if it has children, renders the head child
   * and advances the iterator once without looping, so every later child is skipped.
   */
  function RenderLayer(l: Layer): (drawn: seq<LayerId>)
    ensures |drawn| >= 1 && drawn[0] == l.id
    ensures |l.children| == 0 ==> drawn == [l.id]
  {
    [l.id] + (if |l.children| > 0 then RenderLayer(l.children[0]) else [])
  }

  /** The layer reached from `l` by following the head child `k` times. */
  function FirstDescendant(l: Layer, k: nat): (d: Layer)
    requires k < FirstChildDepth(l)
  {
    if k == 0 then l else FirstDescendant(l.children[0], k - 1)
  }

  /** How many layers the head-child path from `l` visits, `l` included. */
  function FirstChildDepth(l: Layer): (n: nat)
    ensures n >= 1
  {
    if |l.children| == 0 then 1 else 1 + FirstChildDepth(l.children[0])
  }

  /**
   * What `RenderLayer` draws: exactly the layers on the head-child path, from the layer down, one
   * draw each; no later sibling at any level is drawn.
   */
  lemma {:induction false} RenderLayerIsFirstChildPath(l: Layer)
    ensures |RenderLayer(l)| == FirstChildDepth(l)
    ensures forall k | 0 <= k < FirstChildDepth(l) :: RenderLayer(l)[k] == FirstDescendant(l, k).id
  {
    if |l.children| > 0 {
      RenderLayerIsFirstChildPath(l.children[0]);
      forall k | 0 < k < FirstChildDepth(l)
        ensures RenderLayer(l)[k] == FirstDescendant(l, k).id
      {
        assert RenderLayer(l)[k] == RenderLayer(l.children[0])[k - 1];
      }
    }
  }

  /** Replacing every child after the head child does not change what `RenderLayer` draws. */
  lemma RenderLayerIgnoresLaterSiblings(l: Layer, others: seq<Layer>)
    requires |l.children| > 0
    ensures RenderLayer(Layer(l.id, [l.children[0]] + others)) == RenderLayer(l)
  {
  }

  /** The draws of a sequence of layers rendered one after another, as `Draw`'s loop does. */
  function RenderEach(layers: seq<Layer>): (drawn: seq<LayerId>)
  {
    if |layers| == 0 then [] else RenderEach(layers[..|layers| - 1]) + RenderLayer(layers[|layers| - 1])
  }

  /**
   * `Draw`: walks the screen layer's own children from head to tail and renders each. The screen
   * layer itself is not drawn.
   */
  method Draw(screen: Layer) returns (drawn: seq<LayerId>)
    ensures drawn == RenderEach(screen.children)
  {
    drawn := [];
    var i := 0;
    while i < |screen.children|
      invariant 0 <= i <= |screen.children|
      invariant drawn == RenderEach(screen.children[..i])
    {
      assert screen.children[..i + 1][..i] == screen.children[..i];
      drawn := drawn + RenderLayer(screen.children[i]);
      i := i + 1;
    }
    assert screen.children[..i] == screen.children;
  }

  /**
   * `Draw` visits the direct children in list order: the draws are the children's renderings
   * concatenated head to tail, and a childless top-level layer contributes one draw.
   */
  lemma {:induction false} RenderEachInOrder(layers: seq<Layer>, more: Layer)
    ensures RenderEach(layers + [more]) == RenderEach(layers) + RenderLayer(more)
    ensures |more.children| == 0 ==> RenderEach(layers + [more]) == RenderEach(layers) + [more.id]
    ensures |RenderEach(layers)| >= |layers|
    decreases |layers|
  {
    assert (layers + [more])[..|layers|] == layers;
    if |layers| > 0 {
      RenderEachInOrder(layers[..|layers| - 1], layers[|layers| - 1]);
      assert layers[..|layers| - 1] + [layers[|layers| - 1]] == layers;
    }
  }

  /**
   * `RenderLayer` as evidently intended: the `if` is a loop, so every child is rendered in list
   * order, each after its parent: a pre-order walk of the whole tree.
   */
  function RenderLayerAll(l: Layer): (drawn: seq<LayerId>)
    ensures |drawn| >= 1 && drawn[0] == l.id
    decreases l, 1
  {
    [l.id] + RenderAllChildren(l.children)
  }

  function RenderAllChildren(cs: seq<Layer>): (drawn: seq<LayerId>)
    decreases cs, 0
  {
    if |cs| == 0 then [] else RenderLayerAll(cs[0]) + RenderAllChildren(cs[1..])
  }

  /** The number of layers in the tree rooted at `l`. */
  function Size(l: Layer): (n: nat)
    ensures n >= 1
    decreases l, 1
  {
    1 + SizeAll(l.children)
  }

  function SizeAll(cs: seq<Layer>): nat
    decreases cs, 0
  {
    if |cs| == 0 then 0 else Size(cs[0]) + SizeAll(cs[1..])
  }

  /** The identities of the layers in the tree rooted at `l`. */
  function Ids(l: Layer): set<LayerId>
    decreases l, 1
  {
    {l.id} + IdsAll(l.children)
  }

  function IdsAll(cs: seq<Layer>): set<LayerId>
    decreases cs, 0
  {
    if |cs| == 0 then {} else Ids(cs[0]) + IdsAll(cs[1..])
  }

  /**
   * The corrected walk draws every layer of the tree and nothing else, with as many draws as
   * there are layers.
   */
  lemma {:induction false} RenderLayerAllDrawsEveryLayer(l: Layer)
    ensures |RenderLayerAll(l)| == Size(l)
    ensures forall x :: x in RenderLayerAll(l) <==> x in Ids(l)
    decreases l, 1
  {
    RenderAllChildrenDrawsEveryLayer(l.children);
  }

  lemma {:induction false} RenderAllChildrenDrawsEveryLayer(cs: seq<Layer>)
    ensures |RenderAllChildren(cs)| == SizeAll(cs)
    ensures forall x :: x in RenderAllChildren(cs) <==> x in IdsAll(cs)
    decreases cs, 0
  {
    if |cs| > 0 {
      RenderLayerAllDrawsEveryLayer(cs[0]);
      RenderAllChildrenDrawsEveryLayer(cs[1..]);
    }
  }

  /**
   * The as-written walk is the beginning of the corrected one: it agrees with the full pre-order
   * walk up to the point where the first later sibling would have been drawn.
   */
  lemma {:induction false} RenderLayerIsPrefixOfAll(l: Layer)
    ensures |RenderLayer(l)| <= |RenderLayerAll(l)|
    ensures RenderLayerAll(l)[..|RenderLayer(l)|] == RenderLayer(l)
  {
    if |l.children| > 0 {
      var c := l.children[0];
      RenderLayerIsPrefixOfAll(c);
      assert RenderAllChildren(l.children) == RenderLayerAll(c) + RenderAllChildren(l.children[1..]);
      assert RenderLayerAll(l) == [l.id] + RenderLayerAll(c) + RenderAllChildren(l.children[1..]);
      assert RenderLayer(l) == [l.id] + RenderLayer(c);
    }
  }

  /** A root with two childless children: the second child is drawn only by the corrected walk. */
  lemma RenderLayerSkipsSecondChild()
    ensures RenderLayer(Layer(0, [Layer(1, []), Layer(2, [])])) == [0, 1]
    ensures RenderLayerAll(Layer(0, [Layer(1, []), Layer(2, [])])) == [0, 1, 2]
  {
    assert RenderAllChildren([Layer(2, [])]) == [2];
    assert RenderAllChildren([Layer(1, []), Layer(2, [])]) == [1] + RenderAllChildren([Layer(2, [])]);
  }

  /** The screen layer's `Draw` with the corrected walk. */
  function DrawCorrected(screen: Layer): (drawn: seq<LayerId>)
    ensures |drawn| == SizeAll(screen.children)
    ensures forall x :: x in drawn <==> x in IdsAll(screen.children)
  {
    RenderAllChildrenDrawsEveryLayer(screen.children);
    RenderAllChildren(screen.children)
  }
}
