# Neural-network diagram viewer: scene, selection and view state

This project models the core of a small viewer that draws a layered neural
network as a diagram. Each neuron is a dot on a grid, one column per layer.
Every neuron is joined by an edge to every neuron of the next layer. The user
pans the view with the left mouse button. Dragging a rectangle with the right
button selects the edges and neurons it touches.

The model has five modules:

- `Geometry` (geometry.dfy): the pure part of rectangle selection. It covers
  - rectangle normalisation;
  - the orientation test and the segment intersection test built on it;
  - the segment-versus-rectangle test.

  The lemmas prove the test symmetric and insensitive to segment direction.
  They prove it complete: segments with a common point always pass, so a
  segment with any point in the closed rectangle is always selected. They
  also prove it sound: segments that an affine function strictly separates
  never pass. From that, an edge lying wholly beyond one side of the
  rectangle is never selected.
- `Entities` (entities.dfy): the `Neuron` and `Edge` classes. Their indices,
  positions and endpoints are fixed at creation. The `selected` flag changes,
  and so does an edge's colour.
- `Layout` (layout.dfy): the shape of the scene built from a list of layer
  sizes, written as specification functions. It gives neuron and edge counts,
  where each colour draw goes, the start-major order of a bucket, and
  concatenation of buckets.
- `RectSelect` (selection.dfy): the `Selection` state and its pass, which
  replaces every edge's and neuron's `selected` flag.
- `Network` (network.dfy): the widget. It builds the scene and maps between
  screen and scene coordinates. It also computes the per-bucket colour streams
  and runs the pan and right-drag selection state machine in the mouse
  handlers.

Coordinates on the layout grid and mouse positions are integers. Scene points,
colours and the zoom factor are exact reals. Colour draws are a parameter
`rng`: `rng(k)` is the colour returned by the `k`-th call of the random colour
source. Neurons draw first, layer by layer; then edges draw, bucket by bucket.

In the source, `Selection` keeps a back-reference to the widget and reads its
`connections` and `neurons` through it. The model passes those two lists to
`PerformSelection` as parameters instead.

A layer size of zero or less gives a layer with no neurons, because the
layer loop runs over `range(n)`. That layer then gets no edges on either side
(`Width`, `EmptyLayerIsolated`); such sizes are not rejected.

## Model

| member | source | states |
|---|---|---|
| Geometry.NormalizeRect | selection.py:15-19 | each axis of the rectangle is the two corners' coordinates in sorted order, so `xMin <= xMax` and `yMin <= yMax` |
| Geometry.NormalizeRectSymmetric | selection.py:15-19 | the rectangle does not depend on which corner the drag started from |
| Geometry.InNormalizedRect | selection.py:15-19 | a point is in the rectangle iff each coordinate lies between the two corners' coordinates, in either order |
| Geometry.OnSegment | selection.py:23-27 | `on_segment` as a predicate; no contract of its own, characterised by `LerpOnSegment` and `CollinearParameter` |
| Geometry.Orientation | selection.py:29-34 | 0 exactly when the three points are collinear (zero cross product); otherwise 1 when the orientation value is positive and 2 when it is negative, each stated as the sign of the cross product |
| Geometry.OrientationReversed | selection.py:29-34 | swapping the first two points negates the value and exchanges results 1 and 2 |
| Geometry.DoIntersect | selection.py:36-51 | `do_intersect` as a predicate; no contract of its own, characterised by `CommonPointIntersects` (segments with a common point pass) and `SeparatedSegmentsDoNotIntersect` (strictly separated segments fail), plus the symmetry lemmas |
| Geometry.DoIntersectSymmetric | selection.py:36-51 | the intersection test gives the same answer with the two segments exchanged |
| Geometry.DoIntersectReversed | selection.py:36-51 | the test does not depend on the direction of either segment |
| Geometry.FirstReversed | selection.py:36-51 | reversing the first segment does not change the test |
| Geometry.SharedEndpointIntersects | selection.py:36-51 | segments that share an endpoint always intersect |
| Geometry.FourPointIdentity | selection.py:31 | the four orientation values of two segments satisfy a linear relation, also when weighted by any affine function |
| Geometry.CollinearParameter | selection.py:23-27 | a point that is collinear with `p`,`r` and inside their bounding box is `p + t(r - p)` with `0 <= t <= 1` |
| Geometry.CollinearBetween | selection.py:23-27 | such a point is on the negative side of an affine function that is negative at both ends |
| Geometry.CollinearBetweenNonNegative | selection.py:23-27 | likewise for the non-negative side |
| Geometry.NoStraddle | selection.py:43-44 | when the values describe two separated segments, the general-position case of the test cannot fire |
| Geometry.SeparatedSegmentsDoNotIntersect | selection.py:36-51 | segments strictly separated by an affine function never pass the test, including its four collinear cases |
| Geometry.LerpOnSegment | selection.py:23-34 | every point of a segment is collinear with its ends and inside their bounding box |
| Geometry.CollinearOverlap | selection.py:46-49 | segments lying on one line and sharing a point pass the test, through one of its collinear clauses |
| Geometry.CommonPointIntersects | selection.py:36-51 | segments that share any point pass the test, whether they cross, touch or overlap |
| Geometry.Corners | selection.py:53-57 | the four corners in border order; no contract of its own |
| Geometry.LineIntersectsRect | selection.py:21-69 | `line_intersects_rect` as a predicate; no contract of its own, characterised by `PointInRectHits` (a segment with a point in the rectangle is hit) and `BeyondOneSideMisses` (one wholly beyond a side is not) |
| Geometry.ContainedSegmentHits | selection.py:65-67 | a segment with both endpoints in the closed rectangle is hit |
| Geometry.CornerEndpointHits | selection.py:53-62 | a segment with an endpoint on a rectangle corner is hit |
| Geometry.LineIntersectsRectReversed | selection.py:21-69 | whether a segment hits the rectangle does not depend on its direction |
| Geometry.BeyondOneSideMisses | selection.py:21-69 | a segment whose endpoints both lie strictly beyond the same side of the rectangle is not hit |
| Geometry.BorderPointHits | selection.py:53-62 | a segment with a point on the rectangle's border meets one of the four sides |
| Geometry.ExitingSegmentHits | selection.py:53-62 | a segment from a point in the rectangle to an end outside it is hit where it leaves |
| Geometry.PointInRectHits | selection.py:21-69 | a segment with any point in the closed rectangle is hit |
| Entities.Neuron.constructor | network.py:13-18 | the neuron has the given index, position and colour and is unselected |
| Entities.Neuron.OnScreen | network.py:20-23 | closed-box test of the centre against the viewport; no contract of its own, characterised by `Network.NetworkRender.OnScreenIffVisible` |
| Entities.Edge.constructor | network.py:40-45 | the edge has the given index, endpoints and colour and is unselected |
| Entities.Edge.SetSelected | network.py:47-54 | the flag is set and the colour becomes `Adjusted(old colour, flag)` |
| Entities.Adjusted | network.py:50-54 | the per-component brighten or darken step; its contract states only the length, and the per-component behaviour is stated by `AdjustedInUnitRange`, `SelectThenDeselect` and `DeselectThenSelect` |
| Entities.AdjustedInUnitRange | network.py:47-54 | brightening or darkening keeps every component of a unit-range colour in [0, 1] |
| Entities.SelectThenDeselect | network.py:47-54 | selecting then deselecting leaves every component capped at 0.5, not the original colour |
| Entities.DeselectThenSelect | network.py:47-54 | deselecting then selecting leaves every component at least 0.5 |
| RectSelect.Selection.constructor | selection.py:2-8 | not selecting, no corners, no selected objects |
| RectSelect.Selection.Rectangle | selection.py:12-19 | present exactly when both corners are set, and then well-ordered on both axes |
| RectSelect.EdgeHit | selection.py:72-79 | an edge's hit test is `LineIntersectsRect` on its two neuron centres; no contract of its own |
| RectSelect.Selection.PerformSelection | selection.py:10-87 | without both corners nothing changes; otherwise every edge's flag becomes whether its segment hits the normalised rectangle, and every neuron's flag becomes whether its centre lies in the closed rectangle, whatever the flags were before; colours and the selection's own state stay unchanged |
| Layout.SlotOf | network.py:107-112 | edge `s * w + t` of a bucket whose end layer has `w` neurons joins start neuron `s` and end neuron `t` |
| Layout.SlotInRange | network.py:107-112 | every edge of a `w0 * w` bucket joins neurons that exist |
| Layout.FlattenAppend | network.py:111-121 | appending a bucket appends its edges to the concatenation |
| Layout.FlattenLength | network.py:101-121 | buckets sized for `layers` concatenate to exactly `EdgeTotal(layers)` edges, also when all are empty |
| Layout.FlattenIndex | network.py:101-121 | the concatenation holds exactly the sum of the bucket sizes, and edge `k` of bucket `i` sits after all edges of earlier buckets |
| Layout.EmptyLayerIsolated | network.py:93 | a layer of size zero or less gets no edges on either side |
| Network.PanMove | network.py:206-211 | after a left move the anchor is the pointer, and offset minus anchor is unchanged |
| Network.DragDisplacement | network.py:206-211 | after any sequence of left moves the offset has moved by the total pointer displacement from the first anchor to the last position |
| Network.ColorStream | network.py:229-234 | the colour array of one bucket; no contract of its own, characterised by `ColorStreamLength` and `ColorStreamBlock` |
| Network.ColorStreamLength | network.py:229-234 | with `n`-component colours a bucket's stream holds `2 * (n + 1)` values per edge |
| Network.ColorStreamBlock | network.py:231-234 | the block for edge `k` is its colour followed by its opacity, twice, with opacity 1.0 when selected and 0.2 otherwise |
| Network.EdgesAsBuiltAppend | network.py:109-112 | two runs of consecutive colour draws make one run |
| Network.NetworkRender.constructor | network.py:57-75 | empty scene, zoom 1, zero offset and anchor; not selecting, both corners unset and no selected objects |
| Network.NetworkRender.SetNetwork | network.py:80-121 | the previous scene is replaced by a new one laid out for `layers`, with all entities fresh and unselected; neuron `j` of layer `i` gets draw `NeuronsBefore(i) + j` and edge `m` gets draw `NeuronTotal + m`; pan, zoom and selection state are kept |
| Network.NetworkRender.BuildNeurons | network.py:88-99 | one list per layer, `Width(layers[i])` neurons each, on the grid, fresh, unselected, coloured by consecutive draws |
| Network.NetworkRender.BuildLayer | network.py:89-98 | `Width(count)` neurons in one column at spacing 50, fresh, unselected, coloured by consecutive draws |
| Network.NetworkRender.BuildEdges | network.py:101-121 | one bucket per adjacent pair of layers, each the full start-major wiring; the edge list is the buckets concatenated, and edge `m` has draw `firstDraw + m` |
| Network.NetworkRender.BuildBucket | network.py:102-112 | every neuron of layer `i` is joined to every neuron of layer `i + 1`, start-major, end-minor, with consecutive draws |
| Network.NetworkRender.BucketSizes | network.py:102-112 | bucket `a` holds `Width(layers[a]) * Width(layers[a + 1])` edges, where a size of zero or less counts as 0 |
| Network.NetworkRender.ConnectionCount | network.py:101-121 | for any layer sizes, including fewer than two layers or empty layers, the edge list has `EdgeTotal(layers)` entries: the sum of `Width(layers[i]) * Width(layers[i + 1])` |
| Network.NetworkRender.ConnectionOrder | network.py:101-121 | the edge list lists the buckets in order: edge `k` of bucket `i` is entry `EdgesBefore(i) + k` |
| Network.NetworkRender.FullWiring | network.py:107-112 | for every start `s` and end `t`, edge `s * layers[i + 1] + t` of bucket `i` joins neuron `s` of layer `i` to neuron `t` of layer `i + 1` with index `(i, s, t)` |
| Network.NetworkRender.SceneToScreen | network.py:132-133 | translate then scale; no contract of its own, inverted by `MapToScene` (`MapToScene`, `MapToSceneUnique`) |
| Network.NetworkRender.MapToScene | network.py:241-245 | drawing the result with the pan/zoom transform lands exactly on the given widget position |
| Network.NetworkRender.MapToSceneUnique | network.py:241-245 | no other scene point is drawn at that position |
| Network.NetworkRender.Viewport | network.py:170-177 | the box's corners are the scene points under the widget's corners `(0, 0)` and `(w, h)`, and the box is well-ordered for a positive zoom and non-negative size |
| Network.NetworkRender.OnScreenIffVisible | network.py:20-23 | a neuron is on screen iff its centre is drawn inside the `w` by `h` widget |
| Network.NetworkRender.UpdateEdgeColors | network.py:227-237 | one colour stream per bucket, equal to `ColorStream` of that bucket |
| Network.NetworkRender.MousePress | network.py:194-203 | left press: the pointer becomes the pan anchor; right press: selecting starts with both corners at the scene point under the pointer; other buttons: nothing changes |
| Network.NetworkRender.MouseMove | network.py:205-216 | exactly left held: the pan moves as `PanMove`; exactly right held while selecting: only the end corner moves to the pointer; otherwise nothing changes |
| Network.NetworkRender.MouseRelease | network.py:218-225 | right release while selecting: every flag is set against the dragged rectangle, then the corners are cleared and selecting stops, and the selected-objects list is kept; otherwise nothing changes; colours never change |

## Left out

- Drawing: `paintGL`, `Neuron.draw`, `resizeGL`, `initializeGL`, the vertex and colour buffers and their upload, and the repaint requests. These are graphics-library calls. The drawing transform is modelled as `SceneToScreen`. `update_edge_colors` is modelled as the colour arrays it builds (`UpdateEdgeColors` returns them).
- `random_color`: it is nondeterministic and is taken as the parameter `rng`.
- Zooming and the window wiring in app.py, and the triangle demo in example.py. The zoom factor is a positive field (`Valid`).
- IEEE floating-point rounding: reals are exact.
- Widget size: `width()`/`height()` come from the windowing toolkit and are parameters of `Viewport`.
- `selected_objects`: it is kept in `Selection` but never used by the selection pass.
- `set_network` appends each edge to the edge list as soon as it is created. The model appends a whole bucket at a time; the resulting list is the same.
- Mouse events are modelled by their button (press, release) or held-button set (move) and an integer position. Event objects and their delivery are not modelled.
- The converse of `CommonPointIntersects`, that every pair of segments passing the orientation test has a common point, is not stated. Only its separated form is proved (`SeparatedSegmentsDoNotIntersect`, `BeyondOneSideMisses`).
- Adjusted: its own contract states only the length; what it does to each component is stated by `AdjustedInUnitRange`, `SelectThenDeselect` and `DeselectThenSelect`.
