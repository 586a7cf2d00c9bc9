/**
  Coordinates, windows and elements of the world map.

  A coordinate is an integer or one of the two infinities that the axis
  sentinels (and elements without bounds) use. A window is the
  `{left, right, top, bottom}` record of the source; left/right are x
  coordinates, top/bottom are y coordinates.
 */
module Geometry {

  datatype Option<T> = None | Some(value: T)

  /** An ordered coordinate with explicit infinities. */
  datatype Coord = NegInf | Fin(n: int) | PosInf

  /** `a <= b` on coordinates. */
  predicate Le(a: Coord, b: Coord) {
    a.NegInf? || b.PosInf? || (a.Fin? && b.Fin? && a.n <= b.n)
  }

  /** `a < b` on coordinates. */
  predicate Lt(a: Coord, b: Coord) {
    !Le(b, a)
  }

  lemma LeIsTotalOrder(a: Coord, b: Coord, c: Coord)
    ensures Le(a, a)
    ensures Le(a, b) || Le(b, a)
    ensures Le(a, b) && Le(b, a) ==> a == b
    ensures Le(a, b) && Le(b, c) ==> Le(a, c)
    ensures Lt(a, b) <==> Le(a, b) && a != b
  {
  }

  /** The two axes; `Vertical` lines sit at x positions, `Horizontal` lines at y positions. */
  datatype Axis = Horizontal | Vertical

  /** The axis that is not `ax`. */
  function Other(ax: Axis): Axis {
    if ax == Vertical then Horizontal else Vertical
  }

  /** A rectangle: the `range` of an element or an area. */
  datatype Window = Window(left: Coord, right: Coord, top: Coord, bottom: Coord)
  {
    /** The lower edge of this window on an axis (left for x, top for y). */
    function Low(ax: Axis): Coord {
      if ax == Vertical then left else top
    }

    /** The upper edge of this window on an axis (right for x, bottom for y). */
    function High(ax: Axis): Coord {
      if ax == Vertical then right else bottom
    }

    /** This window with its lower edge on `ax` moved to `v`. */
    function WithLow(ax: Axis, v: Coord): (w: Window)
      ensures w.Low(ax) == v && w.High(ax) == High(ax)
      ensures forall other :: other != ax ==> w.Low(other) == Low(other) && w.High(other) == High(other)
    {
      if ax == Vertical then this.(left := v) else this.(top := v)
    }

    /** This window with its upper edge on `ax` moved to `v`. */
    function WithHigh(ax: Axis, v: Coord): (w: Window)
      ensures w.High(ax) == v && w.Low(ax) == Low(ax)
      ensures forall other :: other != ax ==> w.Low(other) == Low(other) && w.High(other) == High(other)
    {
      if ax == Vertical then this.(right := v) else this.(bottom := v)
    }
  }

  type Id = nat

  /** An element of the world: its identifier and its rectangle. */
  datatype Elem = Elem(id: Id, range: Window)

  /** The element's extent on `ax` is not zero, so `add` leaves it on the lines of that axis. */
  predicate Nondegenerate(e: Elem, ax: Axis) {
    e.range.Low(ax) != e.range.High(ax)
  }

  /** The two closed intervals of `r` and `w` on axis `ax` overlap. */
  predicate OverlapsOn(r: Window, w: Window, ax: Axis) {
    Le(r.Low(ax), w.High(ax)) && Le(w.Low(ax), r.High(ax))
  }

  /** `Area.intersect`: closed rectangles, so touching edges intersect. */
  predicate Intersects(r: Window, w: Window) {
    Le(r.left, w.right) && Le(w.left, r.right) && Le(r.top, w.bottom) && Le(w.top, r.bottom)
  }

  /** Intersection is overlap on both axes, and touching edges count. */
  lemma IntersectsIsOverlapOnBothAxes(r: Window, w: Window)
    ensures Intersects(r, w) <==> OverlapsOn(r, w, Vertical) && OverlapsOn(r, w, Horizontal)
    ensures Intersects(r, w) <==> Intersects(w, r)
    ensures r.right == w.left && Le(r.left, r.right) && Le(w.left, w.right) && OverlapsOn(r, w, Horizontal)
            ==> Intersects(r, w)
  {
  }

  /** A window is well formed when its edges are ordered on both axes. */
  predicate WellFormed(w: Window) {
    Le(w.left, w.right) && Le(w.top, w.bottom)
  }
}
