/**
  * The selection state and the rectangle selection pass of selection.py.
  */
module RectSelect {
  import opened Geometry
  import opened Entities

  datatype Option<T> = None | Some(value: T)

  /** Whether the segment between an edge's two neuron centres touches the rectangle. */
  function EdgeHit(e: Edge, r: Rect): bool {
    LineIntersectsRect(e.start.Pos(), e.end.Pos(), r)
  }

  /**
    * The drag-rectangle state of the viewer (selection.py:1-8). The
    * rectangle exists only while both corners are set.
    */
  class Selection {
    var isSelecting: bool
    var selectionStart: Option<Point>
    var selectionEnd: Option<Point>
    var selectedObjects: seq<object>

    constructor ()
      ensures !isSelecting && selectionStart == None && selectionEnd == None
      ensures selectedObjects == []
    {
      isSelecting := false;
      selectionStart := None;
      selectionEnd := None;
      selectedObjects := [];
    }

    /** The normalised rectangle, when both corners are set. */
    function Rectangle(): (r: Option<Rect>)
      reads this
      ensures r.Some? <==> selectionStart.Some? && selectionEnd.Some?
      ensures r.Some? ==> r.value.xMin <= r.value.xMax && r.value.yMin <= r.value.yMax
    {
      if selectionStart.Some? && selectionEnd.Some?
      then Some(NormalizeRect(selectionStart.value, selectionEnd.value))
      else None
    }

    /**
      * Replaces the `selected` flag of every edge and every neuron by whether
      * it touches the rectangle; without a rectangle nothing changes. Only
      * the flags change: colours, positions, endpoints and this selection's
      * own state stay as they were.
      */
    method PerformSelection(connections: seq<Edge>, neurons: seq<seq<Neuron>>)
      modifies EdgeObjects(connections), NeuronObjects(neurons)
      ensures Rectangle().None? ==>
        && (forall e :: e in connections ==> unchanged(e))
        && (forall i, j :: 0 <= i < |neurons| && 0 <= j < |neurons[i]| ==> unchanged(neurons[i][j]))
      ensures Rectangle().Some? ==>
        && (forall e :: e in connections ==> e.selected == EdgeHit(e, Rectangle().value))
        && (forall i, j :: 0 <= i < |neurons| && 0 <= j < |neurons[i]| ==>
              neurons[i][j].selected == InRect(neurons[i][j].Pos(), Rectangle().value))
      ensures forall e :: e in connections ==> e.color == old(e.color)
    {
      if selectionStart.None? || selectionEnd.None? {
        return;
      }
      var r := NormalizeRect(selectionStart.value, selectionEnd.value);

      for k := 0 to |connections|
        invariant forall m :: 0 <= m < k ==> connections[m].selected == EdgeHit(connections[m], r)
        invariant forall e :: e in connections ==> e.color == old(e.color)
        invariant forall n :: n in NeuronObjects(neurons) ==> unchanged(n)
      {
        var line := connections[k];
        if EdgeHit(line, r) {
          line.selected := true;
        } else {
          line.selected := false;
        }
      }

      for i := 0 to |neurons|
        invariant forall e :: e in connections ==> e.selected == EdgeHit(e, r) && e.color == old(e.color)
        invariant forall a, b :: 0 <= a < i && 0 <= b < |neurons[a]| ==>
          neurons[a][b].selected == InRect(neurons[a][b].Pos(), r)
      {
        var layer := neurons[i];
        for j := 0 to |layer|
          invariant forall e :: e in connections ==> e.selected == EdgeHit(e, r) && e.color == old(e.color)
          invariant forall a, b :: 0 <= a < i && 0 <= b < |neurons[a]| ==>
            neurons[a][b].selected == InRect(neurons[a][b].Pos(), r)
          invariant forall b :: 0 <= b < j ==> layer[b].selected == InRect(layer[b].Pos(), r)
        {
          var neuron := layer[j];
          if InRect(neuron.Pos(), r) {
            neuron.selected := true;
          } else {
            neuron.selected := false;
          }
        }
      }
    }
  }
}
