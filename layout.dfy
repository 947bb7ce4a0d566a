/**
  * The shape of the scene that `set_network` builds from a list of layer
  * sizes (network.py:80-121): how many neurons each layer gets, how many
  * edges each pair of adjacent layers gets, where each colour draw goes and
  * how the per-layer edge buckets concatenate into the full edge list.
  */
module Layout {

  /** Layout constants of the widget (network.py:64-67). */
  const SpacingX: int := 1000
  const SpacingY: int := 50
  const StartX: int := 50
  const StartY: int := 150

  /** How many neurons `range(n)` creates: none for a negative count. */
  function Width(n: int): nat {
    if n < 0 then 0 else n
  }

  /** Number of edge buckets: one per pair of adjacent layers. */
  function NumBuckets(layers: seq<int>): nat {
    if |layers| == 0 then 0 else |layers| - 1
  }

  /** Edges between layer `i` and layer `i + 1`: full bipartite wiring. */
  function BucketSize(layers: seq<int>, i: int): nat
    requires 0 <= i < NumBuckets(layers)
  {
    Width(layers[i]) * Width(layers[i + 1])
  }

  /** Neurons in the first `n` layers. */
  function NeuronsBefore(layers: seq<int>, n: nat): nat
    requires n <= |layers|
  {
    if n == 0 then 0 else NeuronsBefore(layers, n - 1) + Width(layers[n - 1])
  }

  /** Neurons in the whole scene. */
  function NeuronTotal(layers: seq<int>): nat {
    NeuronsBefore(layers, |layers|)
  }

  /** Edges in the first `n` buckets. */
  function EdgesBefore(layers: seq<int>, n: nat): nat
    requires n <= NumBuckets(layers)
  {
    if n == 0 then 0 else EdgesBefore(layers, n - 1) + BucketSize(layers, n - 1)
  }

  /** Edges in the whole scene: the sum of `Width(layers[i]) * Width(layers[i + 1])`. */
  function EdgeTotal(layers: seq<int>): nat {
    EdgesBefore(layers, NumBuckets(layers))
  }

  /**
    * The `(start, end)` neuron positions of edge `k` of a bucket whose end
    * layer has `w` neurons, for buckets listed start-major, end-minor.
    */
  function Slot(k: nat, w: nat): (nat, nat) {
    if w == 0 then (0, 0) else (k / w, k % w)
  }

  /** Edge `s * w + t` of a bucket joins start neuron `s` and end neuron `t`. */
  lemma {:induction false} SlotOf(s: nat, t: nat, w: nat)
    requires t < w
    ensures Slot(s * w + t, w) == (s, t)
  {
    var k := s * w + t;
    var q, r := k / w, k % w;
    assert (q - s) * w == t - r;
    MultipleBound(q - s, w);
  }

  /** A non-zero multiple of `w` is at least `w` away from zero. */
  lemma MultipleBound(d: int, w: int)
    requires w >= 0
    ensures d > 0 ==> d * w >= w
    ensures d < 0 ==> d * w <= -w
  {
    if d > 0 {
      NonNegativeProduct(d - 1, w);
      assert d * w == (d - 1) * w + w;
    } else if d < 0 {
      NonNegativeProduct(-d - 1, w);
      assert d * w == -((-d - 1) * w) - w;
    }
  }

  /** The product of two non-negative integers is non-negative. */
  lemma NonNegativeProduct(a: int, b: int)
    requires a >= 0 && b >= 0
    ensures a * b >= 0
  {
  }

  /** Every edge of a bucket of `w0 * w` edges joins neurons that exist. */
  lemma SlotInRange(k: nat, w0: nat, w: nat)
    requires k < w0 * w
    ensures Slot(k, w).0 < w0 && Slot(k, w).1 < w
  {
    var q, r := k / w, k % w;
    assert k == q * w + r;
  }

  /** The concatenation of a list of lists, in order. */
  function Flatten<T>(xss: seq<seq<T>>): (r: seq<T>)
  {
    if xss == [] then [] else Flatten(xss[..|xss| - 1]) + xss[|xss| - 1]
  }

  /** Appending a bucket appends its elements to the concatenation. */
  lemma FlattenAppend<T>(xss: seq<seq<T>>, xs: seq<T>)
    ensures Flatten(xss + [xs]) == Flatten(xss) + xs
  {
    assert (xss + [xs])[..|xss|] == xss;
  }

  /**
    * Buckets sized for `layers` concatenate to exactly `EdgeTotal(layers)`
    * elements, also when every bucket is empty.
    */
  lemma FlattenLength<T>(xss: seq<seq<T>>, layers: seq<int>)
    requires |xss| == NumBuckets(layers)
    requires forall b :: 0 <= b < |xss| ==> |xss[b]| == BucketSize(layers, b)
    ensures |Flatten(xss)| == EdgeTotal(layers)
  {
    FlattenPrefix(xss, layers, |xss|);
    assert xss[..|xss|] == xss;
  }

  /**
    * Element `k` of bucket `i` is element `(sum of earlier bucket lengths) + k`
    * of the concatenation, which is exactly as long as all buckets together.
    */
  lemma {:induction false} FlattenIndex<T>(xss: seq<seq<T>>, layers: seq<int>, i: nat, k: nat)
    requires |xss| == NumBuckets(layers)
    requires forall b :: 0 <= b < |xss| ==> |xss[b]| == BucketSize(layers, b)
    requires i < |xss| && k < |xss[i]|
    ensures |Flatten(xss)| == EdgeTotal(layers)
    ensures EdgesBefore(layers, i) + k < |Flatten(xss)|
    ensures Flatten(xss)[EdgesBefore(layers, i) + k] == xss[i][k]
  {
    FlattenLength(xss, layers);
    FlattenPrefix(xss, layers, i + 1);
    EdgesBeforeMonotone(layers, i + 1, |xss|);
    var pre := xss[..i + 1];
    assert pre[..i] == xss[..i];
    assert Flatten(pre) == Flatten(xss[..i]) + xss[i];
    FlattenPrefix(xss, layers, i);
    FlattenIsPrefixClosed(xss, i + 1);
  }

  /** The concatenation of the first `n` buckets has `EdgesBefore(n)` elements. */
  lemma {:induction false} FlattenPrefix<T>(xss: seq<seq<T>>, layers: seq<int>, n: nat)
    requires |xss| == NumBuckets(layers)
    requires forall b :: 0 <= b < |xss| ==> |xss[b]| == BucketSize(layers, b)
    requires n <= |xss|
    ensures |Flatten(xss[..n])| == EdgesBefore(layers, n)
  {
    if n > 0 {
      FlattenPrefix(xss, layers, n - 1);
      assert xss[..n][..n - 1] == xss[..n - 1];
    }
  }

  /** The concatenation of a prefix of the buckets is a prefix of the whole. */
  lemma {:induction false} FlattenIsPrefixClosed<T>(xss: seq<seq<T>>, n: nat)
    requires n <= |xss|
    ensures |Flatten(xss[..n])| <= |Flatten(xss)|
    ensures Flatten(xss[..n]) == Flatten(xss)[..|Flatten(xss[..n])|]
  {
    if n < |xss| {
      FlattenIsPrefixClosed(xss[..|xss| - 1], n);
      assert xss[..|xss| - 1][..n] == xss[..n];
    } else {
      assert xss[..n] == xss;
    }
  }

  /** More buckets never hold fewer edges. */
  lemma {:induction false} EdgesBeforeMonotone(layers: seq<int>, m: nat, n: nat)
    requires m <= n <= NumBuckets(layers)
    ensures EdgesBefore(layers, m) <= EdgesBefore(layers, n)
  {
    if m < n {
      EdgesBeforeMonotone(layers, m, n - 1);
    }
  }

  /**
    * A layer with no neurons (size zero or negative) gets no edges on either
    * side.
    */
  lemma EmptyLayerIsolated(layers: seq<int>, i: nat)
    requires i < |layers| && layers[i] <= 0
    ensures 0 < i ==> BucketSize(layers, i - 1) == 0
    ensures i < NumBuckets(layers) ==> BucketSize(layers, i) == 0
  {
  }
}
