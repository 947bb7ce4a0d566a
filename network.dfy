/**
  * The viewer widget of network.py: it owns the scene (layers of neurons,
  * the edge list and its per-layer buckets), the pan offset and zoom factor,
  * and turns mouse events into panning and rectangle selection.
  *
  * The graphics calls (buffer uploads, drawing, repaint requests) are not
  * part of this model; what they consume is modelled instead: the
  * scene-to-screen transform and the per-bucket colour streams.
  */
module Network {
  import opened Geometry
  import opened Entities
  import opened Layout
  import opened RectSelect

  /** The mouse button of an event; `Other` is any button but the left and right ones. */
  datatype MouseButton = Left | Right | Other

  /** An integer position on the widget, as mouse events report it. */
  datatype ScreenPos = ScreenPos(x: int, y: int)

  function ScreenPoint(pos: ScreenPos): Point {
    Point(pos.x as real, pos.y as real)
  }

  // ---------------------------------------------------------------------
  // Panning (network.py:194-212)
  // ---------------------------------------------------------------------

  /** The pan offset together with the last pointer position seen while panning. */
  datatype Pan = Pan(offsetX: int, offsetY: int, anchor: ScreenPos)

  /**
    * One left-button move: the offset follows the pointer and the anchor
    * moves to the pointer, so the offset minus the anchor stays the same.
    */
  function PanMove(p: Pan, pos: ScreenPos): (r: Pan)
    ensures r.anchor == pos
    ensures r.offsetX - r.anchor.x == p.offsetX - p.anchor.x
    ensures r.offsetY - r.anchor.y == p.offsetY - p.anchor.y
  {
    var dx, dy := pos.x - p.anchor.x, pos.y - p.anchor.y;
    Pan(p.offsetX + dx, p.offsetY + dy, pos)
  }

  /** A sequence of left-button moves. */
  function Drag(p: Pan, path: seq<ScreenPos>): Pan
    decreases path
  {
    if path == [] then p else Drag(PanMove(p, path[0]), path[1..])
  }

  /**
    * After a drag the offset has moved by the total pointer displacement,
    * from the anchor to the last position, whatever the path in between.
    */
  lemma {:induction false} DragDisplacement(p: Pan, path: seq<ScreenPos>)
    requires path != []
    decreases path
    ensures Drag(p, path).anchor == path[|path| - 1]
    ensures Drag(p, path).offsetX == p.offsetX + (path[|path| - 1].x - p.anchor.x)
    ensures Drag(p, path).offsetY == p.offsetY + (path[|path| - 1].y - p.anchor.y)
  {
    if |path| > 1 {
      DragDisplacement(PanMove(p, path[0]), path[1..]);
    }
  }

  // ---------------------------------------------------------------------
  // Edge colour streams (network.py:227-237)
  // ---------------------------------------------------------------------

  /** Selected edges are drawn opaque, the others faint. */
  function Opacity(selected: bool): real {
    if selected then 1.0 else 0.2
  }

  /** The colour of one line vertex: the edge's colour followed by its opacity. */
  function Vertex(e: Edge): seq<real>
    reads e
  {
    e.color + [Opacity(e.selected)]
  }

  /** The colours of a bucket's line vertices, two vertices per edge. */
  function ColorStream(bucket: seq<Edge>): seq<real>
    reads bucket
  {
    if bucket == [] then []
    else
      var last := bucket[|bucket| - 1];
      ColorStream(bucket[..|bucket| - 1]) + Vertex(last) + Vertex(last)
  }

  /**
    * When every colour has `n` components, the stream holds `2 * (n + 1)`
    * values per edge.
    */
  lemma {:induction false} ColorStreamLength(bucket: seq<Edge>, n: nat)
    requires forall e :: e in bucket ==> |e.color| == n
    ensures |ColorStream(bucket)| == 2 * (n + 1) * |bucket|
  {
    if bucket != [] {
      ColorStreamLength(bucket[..|bucket| - 1], n);
    }
  }

  /**
    * When every colour has `n` components, the block of `2 * (n + 1)`
    * values for edge `k` is that edge's colour with its opacity, twice.
    */
  lemma {:induction false} ColorStreamBlock(bucket: seq<Edge>, n: nat, k: nat)
    requires forall e :: e in bucket ==> |e.color| == n
    requires k < |bucket|
    ensures 2 * (n + 1) * (k + 1) <= |ColorStream(bucket)|
    ensures ColorStream(bucket)[2 * (n + 1) * k .. 2 * (n + 1) * (k + 1)] == Vertex(bucket[k]) + Vertex(bucket[k])
  {
    var m := 2 * (n + 1);
    var pre := bucket[..|bucket| - 1];
    var last := bucket[|bucket| - 1];
    ColorStreamLength(pre, n);
    assert ColorStream(bucket) == ColorStream(pre) + (Vertex(last) + Vertex(last));
    assert |Vertex(last)| == n + 1;
    assert m * (|bucket| - 1) + m == m * |bucket|;
    if k < |bucket| - 1 {
      ColorStreamBlock(pre, n, k);
      PrefixSlice(ColorStream(pre), Vertex(last) + Vertex(last), m * k, m * (k + 1));
    } else {
      assert m * k == m * (|bucket| - 1);
    }
  }

  /** A slice that lies inside the first part of a concatenation. */
  lemma PrefixSlice<T>(a: seq<T>, b: seq<T>, lo: nat, hi: nat)
    requires lo <= hi <= |a|
    ensures (a + b)[lo..hi] == a[lo..hi]
  {
  }

  // ---------------------------------------------------------------------
  // The widget
  // ---------------------------------------------------------------------

  /** Neuron `j` of layer `i` has index `(i, j)` and sits on the layout grid. */
  predicate NeuronPlaced(n: Neuron, i: int, j: int) {
    n.index == (i, j) && n.x == StartX + i * SpacingX && n.y == StartY + j * SpacingY
  }

  /** A neuron as `set_network` leaves it: unselected, with colour `c`. */
  predicate NeuronAsBuilt(n: Neuron, c: Color)
    reads n
  {
    !n.selected && n.color == c
  }

  /** An edge as `set_network` leaves it: unselected, with colour `c`. */
  predicate EdgeAsBuilt(e: Edge, c: Color)
    reads e
  {
    !e.selected && e.color == c
  }

  /** Edge `e` is the edge from neuron `s` of layer `i` to neuron `t` of layer `i + 1`. */
  predicate EdgeJoins(neurons: seq<seq<Neuron>>, e: Edge, i: int, s: int, t: int) {
    && 0 <= i && i + 1 < |neurons|
    && 0 <= s < |neurons[i]| && 0 <= t < |neurons[i + 1]|
    && e.index == (i, s, t) && e.start == neurons[i][s] && e.end == neurons[i + 1][t]
  }

  /**
    * Bucket `a` holds the full wiring from layer `a` to layer `a + 1`,
    * start-major, end-minor: its edge `k` joins the neurons at `Slot(k, w)`,
    * where `w` is the number of neurons of layer `a + 1`.
    */
  predicate BucketJoins(neurons: seq<seq<Neuron>>, a: int, bucket: seq<Edge>) {
    && 0 <= a && a + 1 < |neurons|
    && |bucket| == |neurons[a]| * |neurons[a + 1]|
    && (forall k :: 0 <= k < |bucket| ==>
          var slot := Slot(k, |neurons[a + 1]|);
          EdgeJoins(neurons, bucket[k], a, slot.0, slot.1))
  }

  /** Every edge of the list is as built, coloured by consecutive draws from `first` on. */
  predicate EdgesAsBuilt(edges: seq<Edge>, first: nat, rng: nat -> Color)
    reads edges
  {
    forall k :: 0 <= k < |edges| ==> EdgeAsBuilt(edges[k], rng(first + k))
  }

  /** Two runs of consecutive draws make one run. */
  lemma EdgesAsBuiltAppend(a: seq<Edge>, b: seq<Edge>, first: nat, rng: nat -> Color)
    requires EdgesAsBuilt(a, first, rng) && EdgesAsBuilt(b, first + |a|, rng)
    ensures EdgesAsBuilt(a + b, first, rng)
  {
    forall k | |a| <= k < |a + b|
      ensures EdgeAsBuilt((a + b)[k], rng(first + k))
    {
      assert (a + b)[k] == b[k - |a|];
    }
  }

  class NetworkRender {
    var layers: seq<int>
    var neurons: seq<seq<Neuron>>
    var connections: seq<Edge>
    var edgesByLayer: seq<seq<Edge>>
    var scaleFactor: real
    var lastMousePosition: ScreenPos
    var offsetX: int
    var offsetY: int
    const selection: Selection

    /**
      * The zoom factor is positive (zooming only multiplies or divides it by
      * 1.1), and a drag in progress always has both corners set.
      */
    ghost predicate Valid()
      reads this, selection
    {
      && scaleFactor > 0.0
      && (selection.isSelecting ==> selection.selectionStart.Some? && selection.selectionEnd.Some?)
    }

    /** Everything the mouse handlers do not touch. */
    function Scene(): (seq<int>, seq<seq<Neuron>>, seq<Edge>, seq<seq<Edge>>, real)
      reads this
    {
      (layers, neurons, connections, edgesByLayer, scaleFactor)
    }

    function PanState(): Pan
      reads this
    {
      Pan(offsetX, offsetY, lastMousePosition)
    }

    constructor ()
      ensures Valid() && fresh(selection)
      ensures layers == [] && neurons == [] && connections == [] && edgesByLayer == []
      ensures scaleFactor == 1.0 && PanState() == Pan(0, 0, ScreenPos(0, 0))
      ensures !selection.isSelecting && selection.selectionStart == None && selection.selectionEnd == None
      ensures selection.selectedObjects == []
    {
      layers := [];
      neurons := [];
      connections := [];
      edgesByLayer := [];
      scaleFactor := 1.0;
      lastMousePosition := ScreenPos(0, 0);
      offsetX := 0;
      offsetY := 0;
      selection := new Selection();
    }

    // -------------------------------------------------------------------
    // Building the scene (network.py:80-121)
    // -------------------------------------------------------------------

    /**
      * The scene is the one `set_network` builds for `layers`: one list of
      * neurons per layer, on the grid; one bucket per pair of adjacent
      * layers holding the full bipartite wiring start-major, end-minor; and
      * the edge list is the buckets concatenated.
      */
    ghost predicate LaidOut(layers: seq<int>)
      reads this
    {
      && |neurons| == |layers|
      && (forall i {:trigger neurons[i]} :: 0 <= i < |layers| ==> |neurons[i]| == Width(layers[i]))
      && (forall i, j :: 0 <= i < |neurons| && 0 <= j < |neurons[i]| ==> NeuronPlaced(neurons[i][j], i, j))
      && |edgesByLayer| == NumBuckets(layers)
      && (forall i :: 0 <= i < |edgesByLayer| ==> BucketJoins(neurons, i, edgesByLayer[i]))
      && connections == Flatten(edgesByLayer)
    }

    /**
      * Discards the old scene and builds the one for `layers`. `rng(k)` is
      * the colour of the `k`-th call to `random_color`: neurons draw first,
      * layer by layer, then edges, bucket by bucket. Every entity is new and
      * unselected; the pan, zoom and selection state stay as they were.
      */
    method SetNetwork(layers: seq<int>, rng: nat -> Color)
      requires Valid()
      modifies this
      ensures Valid() && this.layers == layers && LaidOut(layers)
      ensures PanState() == old(PanState()) && scaleFactor == old(scaleFactor)
      ensures forall i, j :: 0 <= i < |neurons| && 0 <= j < |neurons[i]| ==>
        fresh(neurons[i][j]) && NeuronAsBuilt(neurons[i][j], rng(NeuronsBefore(layers, i) + j))
      ensures (forall m :: 0 <= m < |connections| ==> fresh(connections[m]))
        && EdgesAsBuilt(connections, NeuronTotal(layers), rng)
    {
      this.layers := layers;
      // Neurons draw their colours first, then the edges.
      neurons := BuildNeurons(layers, rng);
      edgesByLayer, connections := BuildEdges(neurons, NeuronTotal(layers), rng);
    }

    /**
      * The neurons of every layer (network.py:88-99), layer by layer; layer
      * `i` draws its colours after the neurons of the layers before it.
      */
    static method BuildNeurons(layers: seq<int>, rng: nat -> Color) returns (neurons: seq<seq<Neuron>>)
      ensures |neurons| == |layers|
      ensures forall i {:trigger neurons[i]} :: 0 <= i < |layers| ==> |neurons[i]| == Width(layers[i])
      ensures forall i, j :: 0 <= i < |neurons| && 0 <= j < |neurons[i]| ==>
        && NeuronPlaced(neurons[i][j], i, j) && fresh(neurons[i][j])
        && NeuronAsBuilt(neurons[i][j], rng(NeuronsBefore(layers, i) + j))
    {
      neurons := [];
      var draws := 0;
      var layerIdx := 0;
      while layerIdx < |layers|
        invariant 0 <= layerIdx <= |layers|
        invariant |neurons| == layerIdx
        invariant forall i {:trigger neurons[i]} :: 0 <= i < layerIdx ==> |neurons[i]| == Width(layers[i])
        invariant forall i, j :: 0 <= i < |neurons| && 0 <= j < |neurons[i]| ==>
          && NeuronPlaced(neurons[i][j], i, j) && fresh(neurons[i][j])
          && NeuronAsBuilt(neurons[i][j], rng(NeuronsBefore(layers, i) + j))
        invariant draws == NeuronsBefore(layers, layerIdx)
      {
        var layerNeurons := BuildLayer(layerIdx, layers[layerIdx], draws, rng);
        draws := draws + |layerNeurons|;
        neurons := neurons + [layerNeurons];
        layerIdx := layerIdx + 1;
      }
    }

    /**
      * The edges between every pair of adjacent layers (network.py:101-121),
      * bucket by bucket, each edge appended both to its bucket and to the
      * full edge list; bucket `a` draws its colours after the buckets
      * before it.
      */
    static method BuildEdges(neurons: seq<seq<Neuron>>, firstDraw: nat, rng: nat -> Color)
      returns (edgesByLayer: seq<seq<Edge>>, connections: seq<Edge>)
      ensures |edgesByLayer| == if |neurons| == 0 then 0 else |neurons| - 1
      ensures forall a :: 0 <= a < |edgesByLayer| ==> BucketJoins(neurons, a, edgesByLayer[a])
      ensures connections == Flatten(edgesByLayer)
      ensures forall m :: 0 <= m < |connections| ==> fresh(connections[m])
      ensures EdgesAsBuilt(connections, firstDraw, rng)
    {
      edgesByLayer := [];
      connections := [];
      var draws := firstDraw;
      var i := 0;
      while i < |neurons| - 1
        invariant 0 <= i && |edgesByLayer| == i
        invariant i <= if |neurons| == 0 then 0 else |neurons| - 1
        invariant forall a :: 0 <= a < i ==> BucketJoins(neurons, a, edgesByLayer[a])
        invariant connections == Flatten(edgesByLayer)
        invariant forall m :: 0 <= m < |connections| ==> fresh(connections[m])
        invariant EdgesAsBuilt(connections, firstDraw, rng)
        invariant draws == firstDraw + |connections|
      {
        var layerEdges := BuildBucket(neurons, i, draws, rng);
        EdgesAsBuiltAppend(connections, layerEdges, firstDraw, rng);
        FlattenAppend(edgesByLayer, layerEdges);
        edgesByLayer := edgesByLayer + [layerEdges];
        connections := connections + layerEdges;
        draws := draws + |layerEdges|;
        i := i + 1;
      }
    }

    /**
      * The neurons of one layer (network.py:89-98): `count` neurons (none
      * for a negative count) in a column at the layer's x, spaced down from
      * the top, coloured by consecutive draws from `firstDraw` on.
      */
    static method BuildLayer(layerIdx: nat, count: int, firstDraw: nat, rng: nat -> Color)
      returns (layerNeurons: seq<Neuron>)
      ensures |layerNeurons| == Width(count)
      ensures forall j :: 0 <= j < |layerNeurons| ==>
        && NeuronPlaced(layerNeurons[j], layerIdx, j) && fresh(layerNeurons[j])
        && NeuronAsBuilt(layerNeurons[j], rng(firstDraw + j))
    {
      var layerX := StartX + layerIdx * SpacingX;
      layerNeurons := [];
      var neuronIdx := 0;
      while neuronIdx < count
        invariant 0 <= neuronIdx == |layerNeurons| <= Width(count)
        invariant forall j :: 0 <= j < |layerNeurons| ==>
          && NeuronPlaced(layerNeurons[j], layerIdx, j) && fresh(layerNeurons[j])
          && NeuronAsBuilt(layerNeurons[j], rng(firstDraw + j))
      {
        var neuronY := StartY + neuronIdx * SpacingY;
        var neuronColor := rng(firstDraw + neuronIdx);
        var neuron := new Neuron((layerIdx, neuronIdx), layerX, neuronY, neuronColor);
        layerNeurons := layerNeurons + [neuron];
        neuronIdx := neuronIdx + 1;
      }
    }

    /**
      * The edges of bucket `i` (network.py:103-112): one edge from every
      * neuron of layer `i` to every neuron of layer `i + 1`, start-major,
      * end-minor, coloured by consecutive draws from `firstDraw` on.
      */
    static method BuildBucket(neurons: seq<seq<Neuron>>, i: nat, firstDraw: nat, rng: nat -> Color)
      returns (layerEdges: seq<Edge>)
      requires i + 1 < |neurons|
      ensures BucketJoins(neurons, i, layerEdges)
      ensures forall k :: 0 <= k < |layerEdges| ==> fresh(layerEdges[k])
      ensures EdgesAsBuilt(layerEdges, firstDraw, rng)
    {
      layerEdges := [];
      var starts, ends := neurons[i], neurons[i + 1];
      var w := |ends|;
      for startIdx := 0 to |starts|
        invariant |layerEdges| == startIdx * w
        invariant forall k :: 0 <= k < |layerEdges| ==>
          var slot := Slot(k, w);
          && slot.0 < startIdx && slot.1 < w
          && EdgeJoins(neurons, layerEdges[k], i, slot.0, slot.1)
          && fresh(layerEdges[k]) && EdgeAsBuilt(layerEdges[k], rng(firstDraw + k))
      {
        for endIdx := 0 to w
          invariant |layerEdges| == startIdx * w + endIdx
          invariant forall k :: 0 <= k < |layerEdges| ==>
            var slot := Slot(k, w);
            && (slot.0 < startIdx || (slot.0 == startIdx && slot.1 < endIdx)) && slot.1 < w
            && EdgeJoins(neurons, layerEdges[k], i, slot.0, slot.1)
            && fresh(layerEdges[k]) && EdgeAsBuilt(layerEdges[k], rng(firstDraw + k))
        {
          var connectionColor := rng(firstDraw + |layerEdges|);
          SlotOf(startIdx, endIdx, w);
          var edge := new Edge((i, startIdx, endIdx), starts[startIdx], ends[endIdx], connectionColor);
          layerEdges := layerEdges + [edge];
        }
        assert startIdx * w + w == (startIdx + 1) * w;
      }
    }

    // -------------------------------------------------------------------
    // The laid-out scene
    // -------------------------------------------------------------------

    /** Bucket `a` holds `Width(layers[a]) * Width(layers[a + 1])` edges (none next to an empty layer). */
    lemma BucketSizes(a: nat)
      requires LaidOut(layers) && a < |edgesByLayer|
      ensures |edgesByLayer[a]| == BucketSize(layers, a)
    {
      assert BucketJoins(neurons, a, edgesByLayer[a]);
      assert |neurons[a]| == Width(layers[a]) && |neurons[a + 1]| == Width(layers[a + 1]);
    }

    /**
      * The edge list holds `EdgeTotal(layers)` edges, the sum of
      * `Width(layers[i]) * Width(layers[i + 1])`, whatever the layer sizes:
      * none for fewer than two layers or next to empty layers.
      */
    lemma ConnectionCount()
      requires LaidOut(layers)
      ensures |connections| == EdgeTotal(layers)
    {
      forall a | 0 <= a < |edgesByLayer|
        ensures |edgesByLayer[a]| == BucketSize(layers, a)
      {
        BucketSizes(a);
      }
      FlattenLength(edgesByLayer, layers);
    }

    /**
      * The edge list is the buckets in order: edge `k` of bucket `i` sits
      * right after the edges of the buckets before it.
      */
    lemma ConnectionOrder(i: nat, k: nat)
      requires LaidOut(layers)
      requires i < |edgesByLayer| && k < |edgesByLayer[i]|
      ensures |connections| == EdgeTotal(layers)
      ensures EdgesBefore(layers, i) + k < |connections|
      ensures connections[EdgesBefore(layers, i) + k] == edgesByLayer[i][k]
    {
      forall a | 0 <= a < |edgesByLayer|
        ensures |edgesByLayer[a]| == BucketSize(layers, a)
      {
        BucketSizes(a);
      }
      FlattenIndex(edgesByLayer, layers, i, k);
    }

    /**
      * Every start neuron of layer `i` is wired to every end neuron of layer
      * `i + 1`: the edge from neuron `s` to neuron `t` is edge
      * `s * layers[i + 1] + t` of bucket `i`.
      */
    lemma FullWiring(i: nat, s: nat, t: nat)
      requires LaidOut(layers)
      requires i < |edgesByLayer| && s < Width(layers[i]) && t < Width(layers[i + 1])
      ensures s * Width(layers[i + 1]) + t < |edgesByLayer[i]|
      ensures EdgeJoins(neurons, edgesByLayer[i][s * Width(layers[i + 1]) + t], i, s, t)
    {
      var w := Width(layers[i + 1]);
      BucketSizes(i);
      assert s * w + t < (s + 1) * w <= Width(layers[i]) * w by {
        NonNegativeProduct(Width(layers[i]) - (s + 1), w);
      }
      SlotOf(s, t, w);
      assert BucketJoins(neurons, i, edgesByLayer[i]);
    }

    // -------------------------------------------------------------------
    // Screen and scene coordinates (network.py:132-133, 170-177, 241-245)
    // -------------------------------------------------------------------

    /**
      * Where scene point `p` is drawn on the widget: scaled by the zoom
      * factor, then shifted by the pan offset.
      */
    function SceneToScreen(p: Point): Point
      reads this
    {
      Point(offsetX as real + scaleFactor * p.x, offsetY as real + scaleFactor * p.y)
    }

    /** The scene point drawn at widget position `pos`. */
    function MapToScene(pos: ScreenPos): (p: Point)
      reads this
      requires scaleFactor != 0.0
      ensures SceneToScreen(p) == ScreenPoint(pos)
    {
      Point((pos.x - offsetX) as real / scaleFactor, (pos.y - offsetY) as real / scaleFactor)
    }

    /** No other scene point is drawn at `pos`. */
    lemma MapToSceneUnique(pos: ScreenPos, p: Point)
      requires scaleFactor != 0.0
      ensures SceneToScreen(p) == ScreenPoint(pos) <==> p == MapToScene(pos)
    {
      var q := MapToScene(pos);
      if SceneToScreen(p) == ScreenPoint(pos) {
        assert scaleFactor * p.x == scaleFactor * q.x && scaleFactor * p.y == scaleFactor * q.y;
        CancelFactor(scaleFactor, p.x, q.x);
        CancelFactor(scaleFactor, p.y, q.y);
      }
    }

    /**
      * The part of the scene visible in a `width` by `height` widget: its
      * corners are the scene points under the widget's top-left and
      * bottom-right corners.
      */
    function Viewport(width: int, height: int): (v: Rect)
      reads this
      requires scaleFactor != 0.0
      ensures Point(v.xMin, v.yMin) == MapToScene(ScreenPos(0, 0))
      ensures Point(v.xMax, v.yMax) == MapToScene(ScreenPos(width, height))
      ensures scaleFactor > 0.0 && width >= 0 && height >= 0 ==> v.xMin <= v.xMax && v.yMin <= v.yMax
    {
      Rect((-offsetX) as real / scaleFactor, (width - offsetX) as real / scaleFactor,
           (-offsetY) as real / scaleFactor, (height - offsetY) as real / scaleFactor)
    }

    /**
      * A neuron counts as on screen exactly when its centre is drawn inside
      * the widget.
      */
    lemma OnScreenIffVisible(n: Neuron, width: int, height: int)
      requires scaleFactor > 0.0
      ensures n.OnScreen(Viewport(width, height)) <==>
        && 0.0 <= SceneToScreen(n.Pos()).x <= width as real
        && 0.0 <= SceneToScreen(n.Pos()).y <= height as real
    {
      var s := scaleFactor;
      DivBounds(-offsetX as real, (width - offsetX) as real, s, n.x as real);
      DivBounds(-offsetY as real, (height - offsetY) as real, s, n.y as real);
    }

    // -------------------------------------------------------------------
    // Edge colours (network.py:227-237)
    // -------------------------------------------------------------------

    /** The new colour array of every bucket, in bucket order. */
    method UpdateEdgeColors() returns (streams: seq<seq<real>>)
      ensures |streams| == |edgesByLayer|
      ensures forall b :: 0 <= b < |streams| ==> streams[b] == ColorStream(edgesByLayer[b])
    {
      streams := [];
      for b := 0 to |edgesByLayer|
        invariant |streams| == b
        invariant forall a :: 0 <= a < b ==> streams[a] == ColorStream(edgesByLayer[a])
      {
        var layerEdges := edgesByLayer[b];
        var newColors := [];
        for k := 0 to |layerEdges|
          invariant newColors == ColorStream(layerEdges[..k])
        {
          var edge := layerEdges[k];
          var opacity := if edge.selected then 1.0 else 0.2;
          assert layerEdges[..k + 1][..k] == layerEdges[..k];
          newColors := newColors + (edge.color + [opacity]) + (edge.color + [opacity]);
        }
        assert layerEdges[..|layerEdges|] == layerEdges;
        streams := streams + [newColors];
      }
    }

    // -------------------------------------------------------------------
    // Mouse handling (network.py:194-225)
    // -------------------------------------------------------------------

    /**
      * A left press anchors a pan at the pointer; a right press starts a
      * selection whose two corners are both the scene point under the
      * pointer; any other button does nothing.
      */
    method MousePress(button: MouseButton, pos: ScreenPos)
      requires Valid()
      modifies this, selection
      ensures Valid() && Scene() == old(Scene())
      ensures button == Left ==>
        && PanState() == Pan(old(offsetX), old(offsetY), pos)
        && unchanged(selection)
      ensures button == Right ==>
        && PanState() == old(PanState())
        && selection.isSelecting
        && selection.selectionStart == selection.selectionEnd == Some(MapToScene(pos))
        && selection.selectedObjects == old(selection.selectedObjects)
      ensures button == Other ==> unchanged(this) && unchanged(selection)
    {
      if button == Left {
        lastMousePosition := pos;
      } else if button == Right {
        selection.isSelecting := true;
        selection.selectionStart := Some(MapToScene(pos));
        selection.selectionEnd := selection.selectionStart;
      }
    }

    /**
      * With exactly the left button held the view pans with the pointer;
      * with exactly the right button held during a selection the
      * rectangle's free corner follows the pointer; otherwise nothing
      * changes.
      */
    method MouseMove(buttons: set<MouseButton>, pos: ScreenPos)
      requires Valid()
      modifies this, selection
      ensures Valid() && Scene() == old(Scene())
      ensures buttons == {Left} ==>
        && PanState() == PanMove(old(PanState()), pos)
        && unchanged(selection)
      ensures buttons != {Left} && old(selection.isSelecting) && buttons == {Right} ==>
        && PanState() == old(PanState())
        && selection.isSelecting
        && selection.selectionStart == old(selection.selectionStart)
        && selection.selectionEnd == Some(MapToScene(pos))
        && selection.selectedObjects == old(selection.selectedObjects)
      ensures buttons != {Left} && !(old(selection.isSelecting) && buttons == {Right}) ==>
        unchanged(this) && unchanged(selection)
    {
      if buttons == {Left} {
        var dx, dy := pos.x - lastMousePosition.x, pos.y - lastMousePosition.y;
        offsetX := offsetX + dx;
        offsetY := offsetY + dy;
        lastMousePosition := pos;
      } else if selection.isSelecting && buttons == {Right} {
        selection.selectionEnd := Some(MapToScene(pos));
      }
    }

    /**
      * Releasing the right button ends a selection: every edge and neuron
      * is marked by whether it touches the rectangle that was dragged, and
      * the rectangle is cleared. Any other release changes nothing.
      */
    method MouseRelease(button: MouseButton, pos: ScreenPos)
      requires Valid()
      modifies this, selection, EdgeObjects(connections), NeuronObjects(neurons)
      ensures Valid() && Scene() == old(Scene()) && PanState() == old(PanState())
      ensures forall e :: e in connections ==> e.color == old(e.color)
      ensures button == Right && old(selection.isSelecting) ==>
        && !selection.isSelecting
        && selection.selectionStart == None && selection.selectionEnd == None
        && selection.selectedObjects == old(selection.selectedObjects)
        && (forall e :: e in connections ==> e.selected == EdgeHit(e, old(selection.Rectangle()).value))
        && (forall i, j :: 0 <= i < |neurons| && 0 <= j < |neurons[i]| ==>
              neurons[i][j].selected == InRect(neurons[i][j].Pos(), old(selection.Rectangle()).value))
      ensures !(button == Right && old(selection.isSelecting)) ==>
        && unchanged(selection)
        && (forall e :: e in connections ==> unchanged(e))
        && (forall i, j :: 0 <= i < |neurons| && 0 <= j < |neurons[i]| ==> unchanged(neurons[i][j]))
    {
      if button == Right && selection.isSelecting {
        selection.isSelecting := false;
        selection.PerformSelection(connections, neurons);
        selection.selectionStart := None;
        selection.selectionEnd := None;
      }
    }
  }

  /** Dividing bounds by a positive factor is the same as multiplying the point by it. */
  lemma DivBounds(lo: real, hi: real, s: real, x: real)
    requires s > 0.0
    ensures lo / s <= x <==> lo <= s * x
    ensures x <= hi / s <==> s * x <= hi
  {
    var p, q := lo / s, hi / s;
    assert s * x - lo == s * (x - p);
    assert hi - s * x == s * (q - x);
    PositiveFactor(s, x - p);
    PositiveFactor(s, q - x);
  }

  /** A positive factor keeps the sign. */
  lemma PositiveFactor(s: real, d: real)
    requires s > 0.0
    ensures s * d >= 0.0 <==> d >= 0.0
  {
    if d < 0.0 {
      assert s * -d > 0.0;
    }
  }
}
