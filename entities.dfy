/**
  * The two scene entities of network.py: a neuron drawn as a circle and an
  * edge drawn as a line between two neurons (network.py:12-54).
  */
module Entities {
  import opened Geometry

  /** A colour as the list of components that `random_color` draws. */
  type Color = seq<real>

  /** Every component lies in the closed unit interval. */
  predicate InUnitRange(c: Color) {
    forall k :: 0 <= k < |c| ==> 0.0 <= c[k] <= 1.0
  }

  /**
    * A neuron of the diagram. Its index `(layer, position)`, its integer
    * position in scene space and its colour are fixed at creation; only the
    * `selected` flag changes afterwards.
    */
  class Neuron {
    const index: (int, int)
    const x: int
    const y: int
    const color: Color
    var selected: bool

    constructor (index: (int, int), x: int, y: int, color: Color)
      ensures this.index == index && this.x == x && this.y == y && this.color == color
      ensures !selected
    {
      this.index := index;
      this.x := x;
      this.y := y;
      this.color := color;
      selected := false;
    }

    /** The neuron's centre as a scene point. */
    function Pos(): Point {
      Point(x as real, y as real)
    }

    /** The neuron's centre lies in the closed viewport box. */
    predicate OnScreen(viewport: Rect) {
      InRect(Pos(), viewport)
    }
  }

  /**
    * An edge of the diagram. Its index `(layer, start, end)` and its two
    * neurons are fixed at creation; the colour and the `selected` flag change.
    */
  class Edge {
    const index: (int, int, int)
    const start: Neuron
    const end: Neuron
    var color: Color
    var selected: bool

    constructor (index: (int, int, int), start: Neuron, end: Neuron, color: Color)
      ensures this.index == index && this.start == start && this.end == end
      ensures this.color == color && !selected
    {
      this.index := index;
      this.start := start;
      this.end := end;
      this.color := color;
      selected := false;
    }

    /** Sets the flag and brightens or darkens every colour component by a half. */
    method SetSelected(selected: bool)
      modifies this
      ensures this.selected == selected
      ensures color == Adjusted(old(color), selected)
    {
      this.selected := selected;
      color := Adjusted(color, selected);
    }
  }

  /**
    * The colour `set_selected` leaves behind: each component raised by 0.5
    * and capped at 1.0 when selecting, lowered by 0.5 and floored at 0.0
    * when deselecting.
    */
  function Adjusted(c: Color, brighten: bool): (r: Color)
    ensures |r| == |c|
  {
    seq(|c|, k requires 0 <= k < |c| =>
      if brighten then Min(c[k] + 0.5, 1.0) else Max(c[k] - 0.5, 0.0))
  }

  /** Adjusting a colour keeps it in the unit range. */
  lemma AdjustedInUnitRange(c: Color, brighten: bool)
    requires InUnitRange(c)
    ensures InUnitRange(Adjusted(c, brighten))
  {
  }

  /**
    * Selecting and then deselecting does not restore the colour: every
    * component ends up capped at 0.5.
    */
  lemma SelectThenDeselect(c: Color)
    requires InUnitRange(c)
    ensures Adjusted(Adjusted(c, true), false) == seq(|c|, k requires 0 <= k < |c| => Min(c[k], 0.5))
  {
  }

  /**
    * Deselecting and then selecting does not restore the colour either:
    * every component ends up raised to at least 0.5.
    */
  lemma DeselectThenSelect(c: Color)
    requires InUnitRange(c)
    ensures Adjusted(Adjusted(c, false), true) == seq(|c|, k requires 0 <= k < |c| => Max(c[k], 0.5))
  {
  }

  /** The objects of a list of edges. */
  function EdgeObjects(es: seq<Edge>): set<Edge> {
    set e | e in es
  }

  /** The objects of a list of layers of neurons. */
  function NeuronObjects(layers: seq<seq<Neuron>>): set<Neuron> {
    set i, j | 0 <= i < |layers| && 0 <= j < |layers[i]| :: layers[i][j]
  }
}
