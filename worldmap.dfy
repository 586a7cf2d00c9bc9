/**
  The world map: two axes of lines that index the registered elements by
  their edges, and the areas that keep the set of elements inside a window
  up to date as the window moves.
 */
module Worldmap {
  import opened Geometry
  import opened Notify
  import opened Membership
  import opened Lines

  /** The edge coordinates of the elements `els` on axis `ax`. */
  ghost function Edges(els: map<Id, Elem>, ax: Axis): set<Coord> {
    (set id | id in els :: els[id].range.Low(ax)) + (set id | id in els :: els[id].range.High(ax))
  }

  /** Registering a new element adds its two edges to the edge coordinates. */
  lemma EdgesAdd(els: map<Id, Elem>, e: Elem, ax: Axis)
    requires e.id !in els
    ensures Edges(els[e.id := e], ax) == Edges(els, ax) + {e.range.Low(ax), e.range.High(ax)}
  {
    var els' := els[e.id := e];
    forall c | c in Edges(els', ax) ensures c in Edges(els, ax) + {e.range.Low(ax), e.range.High(ax)} {
      var id :| id in els' && (els'[id].range.Low(ax) == c || els'[id].range.High(ax) == c);
      if id != e.id {
        assert els'[id] == els[id];
      }
    }
    forall c | c in Edges(els, ax) ensures c in Edges(els', ax) {
      var id :| id in els && (els[id].range.Low(ax) == c || els[id].range.High(ax) == c);
      assert els'[id] == els[id];
    }
    assert e.range.Low(ax) in Edges(els', ax) && e.range.High(ax) in Edges(els', ax) by {
      assert els'[e.id].range.Low(ax) == e.range.Low(ax);
    }
  }

  /** Adding the two edges of a new element to the positions of an axis keeps them its edge coordinates. */
  lemma IndexedAdd(ps: set<Coord>, ps': set<Coord>, els: map<Id, Elem>, e: Elem, ax: Axis)
    requires e.id !in els && ps' == ps + {e.range.Low(ax), e.range.High(ax)}
    ensures ps == {NegInf, PosInf} + Edges(els, ax) ==> ps' == {NegInf, PosInf} + Edges(els[e.id := e], ax)
  {
    EdgesAdd(els, e, ax);
  }

  /** The registry of both axes. `elements` is the ghost record of every element registered with `add`. */
  class WorldMap {
    var vertical: seq<Line>
    var horizontal: seq<Line>
    ghost var elements: map<Id, Elem>

    /** `lineGroups[VERTICAL]` or `lineGroups[HORIZONTAL]`. */
    function Lines(ax: Axis): seq<Line>
      reads this
    {
      if ax == Vertical then vertical else horizontal
    }

    ghost function Repr(): set<Line>
      reads this
    {
      (set l | l in vertical) + (set l | l in horizontal)
    }

    /** Both axes are sorted and bounded by the sentinels, and no line belongs to both. */
    ghost predicate Shape()
      reads this
    {
      && Sorted(vertical) && Sorted(horizontal)
      && (forall i, j :: 0 <= i < |vertical| && 0 <= j < |horizontal| ==> vertical[i] != horizontal[j])
    }

    /** `Shape`, and the lines of each axis record exactly the registered elements. */
    ghost predicate Valid()
      reads this, Repr()
    {
      Shape() && Reg(View(vertical), elements, Vertical) && Reg(View(horizontal), elements, Horizontal)
    }

    /**
      Each axis has one line per distinct edge coordinate of the registered
      elements on that axis, plus the two sentinels (lines are never removed).
     */
    ghost predicate Indexed()
      reads this
    {
      Positions(vertical) == {NegInf, PosInf} + Edges(elements, Vertical)
      && Positions(horizontal) == {NegInf, PosInf} + Edges(elements, Horizontal)
    }

    /** Each axis starts with its -infinity and +infinity sentinel lines and nothing is registered. */
    constructor ()
      ensures Valid() && Indexed() && elements == map[] && fresh(Repr())
      ensures |View(vertical)| == 2 && View(vertical)[0] == LineVal(NegInf, map[], map[]) && View(vertical)[1] == LineVal(PosInf, map[], map[])
      ensures |View(horizontal)| == 2 && View(horizontal)[0] == LineVal(NegInf, map[], map[]) && View(horizontal)[1] == LineVal(PosInf, map[], map[])
    {
      var v := Sentinels();
      var h := Sentinels();
      vertical, horizontal := v, h;
      elements := map[];
      new;
      RegSentinels(View(vertical), Vertical);
      RegSentinels(View(horizontal), Horizontal);
      assert Edges(elements, Vertical) == {} && Edges(elements, Horizontal) == {};
    }

    /** `[new Line(-Infinity), new Line(Infinity)]`: a fresh axis of the two empty sentinel lines. */
    static method Sentinels() returns (lines: seq<Line>)
      ensures |lines| == 2 && fresh(lines[0]) && fresh(lines[1]) && forall l :: l in lines ==> fresh(l)
      ensures Sorted(lines) && Positions(lines) == {NegInf, PosInf}
      ensures View(lines) == [LineVal(NegInf, map[], map[]), LineVal(PosInf, map[], map[])]
    {
      var l0 := new Line(NegInf);
      var l1 := new Line(PosInf);
      lines := [l0, l1];
      PositionsPair(l0, l1);
    }

    /**
      The lower-bound search: the least index in `first .. last` whose line
      is at or after `p`, or `last` when there is none.
     */
    static function BinarySearch(p: Coord, lines: seq<Line>, first: nat, last: nat): (i: nat)
      requires first <= last < |lines|
      requires forall a, b :: first <= a < b <= last ==> Le(lines[a].position, lines[b].position)
      ensures first <= i <= last
      ensures forall j :: first <= j < i ==> Lt(lines[j].position, p)
      ensures Le(p, lines[i].position) || i == last
      decreases last - first
    {
      if first == last then first
      else
        var mid := (first + last) / 2;
        if Le(p, lines[mid].position) then BinarySearch(p, lines, first, mid)
        else
          assert forall j :: first <= j <= mid ==> Le(lines[j].position, lines[mid].position);
          BinarySearch(p, lines, mid + 1, last)
    }

    /** With the two sentinels, a position other than -infinity is found at an index in `1 .. |lines| - 1`. */
    static lemma BinarySearchBetweenSentinels(p: Coord, lines: seq<Line>)
      requires Sorted(lines)
      ensures 0 <= BinarySearch(p, lines, 0, |lines| - 1) <= |lines| - 1
      ensures p != NegInf ==> 1 <= BinarySearch(p, lines, 0, |lines| - 1)
      ensures p == NegInf ==> BinarySearch(p, lines, 0, |lines| - 1) == 0
    {
    }

    /**
      `findLineOrCreate`: the line of axis `ax` at `p`, inserted (empty, at
      its sorted place) when the axis has none.
     */
    method FindLineOrCreate(p: Coord, ax: Axis) returns (line: Line, ghost k: nat)
      requires Shape()
      modifies this
      ensures Shape() && elements == old(elements)
      ensures Lines(Other(ax)) == old(Lines(Other(ax))) && View(Lines(Other(ax))) == old(View(Lines(Other(ax))))
      ensures k < |Lines(ax)| && Lines(ax)[k] == line && line.position == p
      ensures old(Has(View(Lines(ax)), p)) ==> Lines(ax) == old(Lines(ax))
      ensures Repr() == if old(Has(View(Lines(ax)), p)) then old(Repr()) else old(Repr()) + {line}
      ensures !old(Has(View(Lines(ax)), p)) ==>
                k <= |old(Lines(ax))| && fresh(line)
                && Lines(ax) == old(Lines(ax))[..k] + [line] + old(Lines(ax))[k..]
                && View(Lines(ax)) == old(View(Lines(ax)))[..k] + [LineVal(p, map[], map[])] + old(View(Lines(ax)))[k..]
    ensures Positions(Lines(ax)) == old(Positions(Lines(ax))) + {p} && |Lines(ax)| <= old(|Lines(ax)|) + 1
    {
      var lines := Lines(ax);
      ghost var v := View(lines);
      SortedView(lines);
      var i := BinarySearch(p, lines, 0, |lines| - 1);
      LowerBoundFinds(v, p, i);
      k := i;
      if lines[i].position == p {
        line := lines[i];
      } else {
        line := InsertLine(p, ax, i);
        PositionsInsert(lines, i, line);
      }
    }

    /** `lines.splice(i, 0, new Line(p))`, where `i` is the sorted place of `p`. */
    method InsertLine(p: Coord, ax: Axis, i: nat) returns (line: Line)
      requires Shape() && 0 < i < |Lines(ax)|
      requires forall j :: 0 <= j < i ==> Lt(Lines(ax)[j].position, p)
      requires Lt(p, Lines(ax)[i].position)
      modifies this
      ensures Shape() && elements == old(elements)
      ensures Lines(Other(ax)) == old(Lines(Other(ax))) && View(Lines(Other(ax))) == old(View(Lines(Other(ax))))
      ensures fresh(line) && line.position == p && Repr() == old(Repr()) + {line}
      ensures Lines(ax) == old(Lines(ax))[..i] + [line] + old(Lines(ax))[i..]
      ensures View(Lines(ax)) == old(View(Lines(ax)))[..i] + [LineVal(p, map[], map[])] + old(View(Lines(ax)))[i..]
    {
      var lines := Lines(ax);
      ghost var others := Lines(Other(ax));
      ghost var o := View(others);
      ghost var v := View(lines);
      line := new Line(p);
      var spliced := lines[..i] + [line] + lines[i..];
      InsertKeepsSorted(lines, i, line);
      InsertDisjoint(lines, others, i, line);
      assert View(lines) == v;
      ViewInsert(lines, i, line);
      ghost var w := View(spliced);
      InsertMembers(lines, i, line);
      assert View(others) == o;
      SetLines(ax, spliced);
    }

    /** Replaces the line array of axis `ax`. */
    method SetLines(ax: Axis, s: seq<Line>)
      modifies this
      ensures Lines(ax) == s && Lines(Other(ax)) == old(Lines(Other(ax))) && elements == old(elements)
      ensures View(Lines(ax)) == old(View(s)) && View(Lines(Other(ax))) == old(View(Lines(Other(ax))))
    {
      if ax == Vertical {
        vertical := s;
      } else {
        horizontal := s;
      }
    }

    /**
      One `findLineOrCreate(p, ax).addElement(e, isBefore, isAfter)` of
      `add`: `v1` is the axis after the line at `p` is found or inserted at
      index `k`, and the line at `k` records the element.
     */
    method Enter(e: Elem, ax: Axis, p: Coord, isBefore: bool, isAfter: bool) returns (ghost k: nat, ghost v1: seq<LineVal>)
      requires Shape()
      modifies this, Repr()
      ensures Shape() && elements == old(elements)
      ensures Lines(Other(ax)) == old(Lines(Other(ax))) && View(Lines(Other(ax))) == old(View(Lines(Other(ax))))
      ensures forall l :: l in Repr() ==> l in old(Repr()) || fresh(l)
      ensures k <= |old(Lines(ax))|
      ensures v1 == if old(Has(View(Lines(ax)), p)) then old(View(Lines(ax)))
                    else old(View(Lines(ax)))[..k] + [LineVal(p, map[], map[])] + old(View(Lines(ax)))[k..]
      ensures k < |v1| && v1[k].position == p && Increasing(v1)
      ensures View(Lines(ax)) == v1[k := Entered(v1[k], e, isBefore, isAfter)]
      ensures Positions(Lines(ax)) == old(Positions(Lines(ax))) + {p} && |Lines(ax)| <= old(|Lines(ax)|) + 1
    {
      ghost var v0 := View(Lines(ax));
      ghost var had := Has(v0, p);
      var line;
      line, k := FindLineOrCreate(p, ax);
      v1 := View(Lines(ax));
      assert v1 == if had then v0 else v0[..k] + [LineVal(p, map[], map[])] + v0[k..];
      assert forall l :: l in Repr() ==> l in old(Repr()) || fresh(l);
      SortedView(Lines(ax));
      EnterLine(line, e, isBefore, isAfter, ax, k);
    }

    /** `line.addElement(e, isBefore, isAfter)` on the line at index `k` of axis `ax`, seen on the whole axis. */
    method EnterLine(line: Line, e: Elem, isBefore: bool, isAfter: bool, ax: Axis, ghost k: nat)
      requires Shape() && k < |Lines(ax)| && Lines(ax)[k] == line
      modifies line
      ensures View(Lines(ax)) == old(View(Lines(ax)))[k := Entered(old(View(Lines(ax)))[k], e, isBefore, isAfter)]
      ensures View(Lines(Other(ax))) == old(View(Lines(Other(ax))))
    {
      ghost var v := View(Lines(ax));
      assert line !in Lines(Other(ax));
      line.AddElement(e, isBefore, isAfter);
      forall j | 0 <= j < |v| && j != k ensures Lines(ax)[j] != line {
        assert Lt(Lines(ax)[j].position, line.position) || Lt(line.position, Lines(ax)[j].position);
      }
    }

    /** The two `findLineOrCreate(...).addElement(...)` calls of `add` on axis `ax`. */
    method Register(e: Elem, ax: Axis)
      requires Shape() && e.id in elements && elements[e.id] == e
      requires RegP(View(Lines(ax)), elements, ax, e.id, 0)
      modifies this, Repr()
      ensures Shape() && elements == old(elements)
      ensures Lines(Other(ax)) == old(Lines(Other(ax))) && View(Lines(Other(ax))) == old(View(Lines(Other(ax))))
      ensures forall l :: l in Repr() ==> l in old(Repr()) || fresh(l)
      ensures Reg(View(Lines(ax)), elements, ax)
      ensures Positions(Lines(ax)) == old(Positions(Lines(ax))) + {e.range.Low(ax), e.range.High(ax)}
      ensures |Lines(ax)| <= old(|Lines(ax)|) + 2
    {
      ghost var v := View(Lines(ax));
      ghost var ps := Positions(Lines(ax));
      ghost var k, v1 := Enter(e, ax, e.range.Low(ax), false, true);
      RegLowStep(v, v1, k, elements, ax, e.id);
      v := View(Lines(ax));
      k, v1 := Enter(e, ax, e.range.High(ax), true, false);
      RegHighStep(v, v1, k, elements, ax, e.id);
      PositionsTwice(ps, e.range.Low(ax), e.range.High(ax));
    }

    /** The inner loop of `iterate`: every entry of one side of a line, in the map's enumeration order `order`. */
    static method Collect(entries: map<Id, Elem>) returns (es: seq<Elem>, ghost order: seq<Id>)
      ensures IsOrdering(order, entries.Keys) && |es| == |order|
      ensures forall i :: 0 <= i < |es| ==> order[i] in entries && es[i] == entries[order[i]]
      ensures forall i :: 0 <= i < |es| ==> es[i] in entries.Values
      ensures forall id :: id in entries ==> entries[id] in es
    {
      var rest := entries.Keys;
      es := [];
      order := [];
      while rest != {}
        invariant rest <= entries.Keys
        invariant IsOrdering(order, entries.Keys - rest) && |es| == |order|
        invariant forall i :: 0 <= i < |es| ==> order[i] in entries && es[i] == entries[order[i]]
        decreases rest
      {
        var id :| id in rest;
        es := es + [entries[id]];
        order := order + [id];
        rest := rest - {id};
      }
    }

    /**
      `iterate(lines, start, end, checkCallback)`: walk the lines from the
      first, stop at the first line strictly after `end`, and return the
      last line strictly before `start` (`None` when there is none) and the
      line the walk stopped at (the last line when it never stopped).
      `found` lists the elements `checkCallback` is called with: the AFTER
      entries of the lines walked (`lineOf` is the line of each, `order` its
      key), line by line, and each entry of a line once.
     */
    static method Iterate(lines: seq<Line>, start: Coord, end: Coord)
      returns (startLine: Option<nat>, endLine: Option<nat>, found: seq<Elem>,
               ghost order: seq<Id>, ghost lineOf: seq<nat>, ghost scanned: nat)
      ensures ScannedTo(View(lines), end, scanned) && StartOf(View(lines), start, scanned, startLine)
      ensures endLine == if lines == [] then None else Some(if scanned < |lines| then scanned else |lines| - 1)
      ensures Listing(View(lines), scanned, found, order, lineOf)
      ensures lines != [] ==> endLine.Some? && endLine.value < |lines|
      ensures endLine.Some? ==> (forall j :: 0 <= j < endLine.value ==> Le(lines[j].position, end))
                                && (Lt(end, lines[endLine.value].position) || endLine.value == |lines| - 1)
      ensures startLine.Some? ==> startLine.value < |lines| && Lt(lines[startLine.value].position, start)
                                  && Le(lines[startLine.value].position, end)
    {
      ghost var v := View(lines);
      startLine := None;
      endLine := None;
      found := [];
      order := [];
      lineOf := [];
      scanned := |lines|;
      ListingNone(v);
      var l := 0;
      while l < |lines|
        invariant 0 <= l <= |lines| && v == View(lines)
        invariant forall j :: 0 <= j < l ==> Le(v[j].position, end)
        invariant endLine == if l == 0 then None else Some(l - 1)
        invariant StartOf(v, start, l, startLine)
        invariant Listing(v, l, found, order, lineOf)
      {
        var position := lines[l].position;
        var after := lines[l].after;
        endLine := Some(l);
        if Lt(end, position) {
          scanned := l;
          break;
        }
        if Lt(position, start) {
          startLine := Some(l);
        }
        var es, ord := Collect(after);
        ListingAppend(v, l, found, order, lineOf, es, ord);
        found := found + es;
        order := order + ord;
        lineOf := lineOf + seq(|es|, _ => l);
        l := l + 1;
      }
    }

    /**
      `getArea(range)`: a new area over this map whose members are the
      answer of a one-shot query for `r` (the elements with nonzero width
      that intersect it), found by walking the x lines up to `r.right`; the
      y lines are walked only for their start and end lines. The cached line
      indices fit `r` whenever its edges are ordered.
     */
    method GetArea(r: Window) returns (area: Area)
      requires Valid()
      ensures fresh(area) && area.worldmap == this && area.range == r && area.callbacks == [] && area.log == []
      ensures area.elementHash == Batch(elements, r)
      ensures WellFormed(r) ==> area.Valid()
    {
      ghost var vv := View(vertical);
      ghost var hv := View(horizontal);
      SortedView(vertical);
      SortedView(horizontal);
      var leftLine, rightLine, found, order, lineOf, scanned := Iterate(vertical, r.left, r.right);
      var topLine, bottomLine, hfound, horder, hlineOf, hscanned := Iterate(horizontal, r.top, r.bottom);
      ListingRegistered(vv, elements, scanned, found, order, lineOf);
      IterateScan(vv, elements, Vertical, r.right, scanned);
      area := Build(r, found, order, LineIndices(leftLine, rightLine, topLine, bottomLine), elements);
      BatchOf(area.elementHash, elements, r);
      if WellFormed(r) {
        IterateCaches(vv, r.left, r.right, scanned, leftLine);
        IterateCaches(hv, r.top, r.bottom, hscanned, topLine);
        assert CachedFor(vv, hv, r, area.lineIndexRange);
        assert View(vertical) == vv && View(horizontal) == hv && Valid();
      }
    }

    /**
      The area `getArea` returns: `new Area`, `checkElement(element, r)` for
      each element the walk of the x lines found (`order` their ids), and
      `setLines` with the lines the two walks stopped at.
     */
    method Build(r: Window, found: seq<Elem>, ghost order: seq<Id>, c: LineIndices, ghost els: map<Id, Elem>) returns (area: Area)
      requires |order| == |found|
      requires forall i :: 0 <= i < |found| ==> order[i] in els && found[i] == els[order[i]] && found[i].id == order[i]
      ensures fresh(area) && area.worldmap == this && area.range == r && area.callbacks == [] && area.log == []
      ensures area.lineIndexRange == c && Consistent(area.elementHash, els)
      ensures forall id :: id in area.elementHash <==> id in order && Intersects(els[id].range, r)
    {
      area := new Area(this, r);
      ghost var notes, done := area.CheckAll(found, r, els, order);
      BroadcastsToNobody(notes);
      area.SetLines(c.left, c.right, c.top, c.bottom);
    }

    /**
      `add`: register a new element on both axes, its left and top edges in
      AFTER, its right and bottom edges in BEFORE.
     */
    method Add(e: Elem)
      requires Valid() && e.id !in elements
      modifies this, Repr()
      ensures Valid() && elements == old(elements)[e.id := e]
      ensures Positions(vertical) == old(Positions(vertical)) + {e.range.left, e.range.right}
      ensures Positions(horizontal) == old(Positions(horizontal)) + {e.range.top, e.range.bottom}
      ensures |vertical| <= old(|vertical|) + 2 && |horizontal| <= old(|horizontal|) + 2
      ensures old(Indexed()) ==> Indexed()
      ensures forall l :: l in Repr() ==> l in old(Repr()) || fresh(l)
    {
      ghost var pv, ph := Positions(vertical), Positions(horizontal);
      elements := elements[e.id := e];
      RegFresh(View(vertical), old(elements), Vertical, e);
      RegFresh(View(horizontal), old(elements), Horizontal, e);
      Register(e, Vertical);
      Register(e, Horizontal);
      IndexedAdd(pv, Positions(vertical), old(elements), e, Vertical);
      IndexedAdd(ph, Positions(horizontal), old(elements), e, Horizontal);
    }
  }

  /** `lineIndexRange`: the cached line index of each edge of an area (`null` is `None`). */
  datatype LineIndices = LineIndices(left: Option<nat>, right: Option<nat>, top: Option<nat>, bottom: Option<nat>)
  {
    function Low(ax: Axis): Option<nat> {
      if ax == Vertical then left else top
    }

    function High(ax: Axis): Option<nat> {
      if ax == Vertical then right else bottom
    }

    function WithLow(ax: Axis, o: Option<nat>): (c: LineIndices)
      ensures c.Low(ax) == o && c.High(ax) == High(ax) && c.Low(Other(ax)) == Low(Other(ax)) && c.High(Other(ax)) == High(Other(ax))
    {
      if ax == Vertical then this.(left := o) else this.(top := o)
    }

    function WithHigh(ax: Axis, o: Option<nat>): (c: LineIndices)
      ensures c.High(ax) == o && c.Low(ax) == Low(ax) && c.Low(Other(ax)) == Low(Other(ax)) && c.High(Other(ax)) == High(Other(ax))
    {
      if ax == Vertical then this.(right := o) else this.(bottom := o)
    }
  }

  /** The cached indices fit the window `r` on both axes of the line values `vv` (x) and `hv` (y). */
  ghost predicate CachedFor(vv: seq<LineVal>, hv: seq<LineVal>, r: Window, c: LineIndices) {
    && LowCached(vv, r.left, c.left) && HighCached(vv, r.right, c.right)
    && LowCached(hv, r.top, c.top) && HighCached(hv, r.bottom, c.bottom)
  }

  /** An expanding lower-edge scan keeps the invariant of `update` between edge steps. */
  lemma ExpandLowBetweenSteps(v: seq<LineVal>, els: map<Id, Elem>, ax: Axis, w: Window, n: Window, i0: nat, k: nat,
                      m: map<Id, Elem>, m': map<Id, Elem>, done: set<Id>)
    requires Reg(v, els, ax) && AxisOk(v) && Lt(n.Low(ax), w.Low(ax))
    requires LowAt(v, w.Low(ax), i0) && LowAt(v, n.Low(ax), k)
    requires done == Keys(v, Before, k, i0 + 1) && Rechecked(m, m', done, n, els)
    ensures AllNondegenerate(els) && BetweenSteps(m, els, w, n) ==> BetweenSteps(m', els, w.WithLow(ax, n.Low(ax)), n)
  {
    if AllNondegenerate(els) && BetweenSteps(m, els, w, n) {
      ExpandLowScan(v, els, ax, w.Low(ax), n.Low(ax), i0, k);
      ExpandLowKeepsBetweenSteps(m, m', els, w, n, ax, done);
    }
  }

  /** A contracting lower-edge scan keeps the invariant of `update` between edge steps. */
  lemma ContractLowBetweenSteps(v: seq<LineVal>, els: map<Id, Elem>, ax: Axis, w: Window, n: Window, i0: nat, k: nat,
                        m: map<Id, Elem>, m': map<Id, Elem>, done: set<Id>)
    requires Reg(v, els, ax) && AxisOk(v) && Lt(w.Low(ax), n.Low(ax))
    requires LowAt(v, w.Low(ax), i0) && LowAt(v, n.Low(ax), k)
    requires done == Keys(v, Before, i0, k + 1) && m' == m - done
    ensures AllNondegenerate(els) && BetweenSteps(m, els, w, n) ==> BetweenSteps(m', els, w.WithLow(ax, n.Low(ax)), n)
  {
    if AllNondegenerate(els) && BetweenSteps(m, els, w, n) {
      ContractLowScan(v, els, ax, w.Low(ax), n.Low(ax), i0, k);
      ContractLowKeepsBetweenSteps(m, m', els, w, n, ax, done);
    }
  }

  /** An expanding upper-edge scan keeps the invariant of `update` between edge steps. */
  lemma ExpandHighBetweenSteps(v: seq<LineVal>, els: map<Id, Elem>, ax: Axis, w: Window, n: Window, i0: nat, k: nat,
                       m: map<Id, Elem>, m': map<Id, Elem>, done: set<Id>)
    requires Reg(v, els, ax) && AxisOk(v) && Lt(w.High(ax), n.High(ax))
    requires HighAt(v, w.High(ax), i0) && HighAt(v, n.High(ax), k)
    requires done == Keys(v, After, i0, k + 1) && Rechecked(m, m', done, n, els)
    ensures AllNondegenerate(els) && BetweenSteps(m, els, w, n) ==> BetweenSteps(m', els, w.WithHigh(ax, n.High(ax)), n)
  {
    if AllNondegenerate(els) && BetweenSteps(m, els, w, n) {
      ExpandHighScan(v, els, ax, w.High(ax), n.High(ax), i0, k);
      ExpandHighKeepsBetweenSteps(m, m', els, w, n, ax, done);
    }
  }

  /** A contracting upper-edge scan keeps the invariant of `update` between edge steps. */
  lemma ContractHighBetweenSteps(v: seq<LineVal>, els: map<Id, Elem>, ax: Axis, w: Window, n: Window, i0: nat, k: nat,
                         m: map<Id, Elem>, m': map<Id, Elem>, done: set<Id>)
    requires Reg(v, els, ax) && AxisOk(v) && Lt(n.High(ax), w.High(ax))
    requires HighAt(v, w.High(ax), i0) && HighAt(v, n.High(ax), k)
    requires done == Keys(v, After, k, i0 + 1) && m' == m - done
    ensures AllNondegenerate(els) && BetweenSteps(m, els, w, n) ==> BetweenSteps(m', els, w.WithHigh(ax, n.High(ax)), n)
  {
    if AllNondegenerate(els) && BetweenSteps(m, els, w, n) {
      ContractHighScan(v, els, ax, w.High(ax), n.High(ax), i0, k);
      ContractHighKeepsBetweenSteps(m, m', els, w, n, ax, done);
    }
  }

  /**
    An area: a window over a world map, the elements currently inside it,
    and the callbacks told about every change. `log` records every callback
    call in order.
   */
  class Area {
    var range: Window
    var lineIndexRange: LineIndices
    const worldmap: WorldMap
    var elementHash: map<Id, Elem>
    var callbacks: seq<CallbackId>
    var log: seq<Event>

    constructor (worldmap: WorldMap, r: Window)
      ensures this.worldmap == worldmap && range == r && elementHash == map[] && callbacks == [] && log == []
      ensures lineIndexRange == LineIndices(Some(0), Some(0), Some(0), Some(0))
    {
      this.worldmap := worldmap;
      range := r;
      lineIndexRange := LineIndices(Some(0), Some(0), Some(0), Some(0));
      elementHash := map[];
      callbacks := [];
      log := [];
    }

    /**
      The area invariant: the map is valid, every member is a registered
      element, and the cached line indices fit the window.
     */
    ghost predicate Valid()
      reads this, worldmap, worldmap.Repr()
    {
      && worldmap.Valid() && Consistent(elementHash, worldmap.elements)
      && CachedFor(View(worldmap.vertical), View(worldmap.horizontal), range, lineIndexRange)
    }

    /** `callbacks.forEach(callback => callback(...))` with one note. */
    method Tell(n: Note)
      modifies this`log
      ensures log == old(log) + Broadcast(callbacks, n)
    {
      var i := 0;
      while i < |callbacks|
        invariant 0 <= i <= |callbacks|
        invariant log == old(log) + Broadcast(callbacks[..i], n)
      {
        BroadcastSnoc(callbacks, i, n);
        log := log + [Event(callbacks[i], n)];
        i := i + 1;
      }
      assert callbacks[..i] == callbacks;
    }

    /** `addElement`: record the member and tell every callback ADD with the current window. */
    method AddElement(e: Elem)
      modifies this`elementHash, this`log
      ensures elementHash == old(elementHash)[e.id := e]
      ensures log == old(log) + Broadcast(callbacks, Add(e, range))
    {
      elementHash := elementHash[e.id := e];
      Tell(Add(e, range));
    }

    /** `removeElement`: drop a member and tell every callback REMOVE; an element that is not a member is ignored. */
    method RemoveElement(e: Elem)
      modifies this`elementHash, this`log
      ensures elementHash == old(elementHash) - {e.id}
      ensures log == old(log) + if e.id in old(elementHash) then Broadcast(callbacks, Remove(e)) else []
    {
      if e.id in elementHash {
        elementHash := elementHash - {e.id};
        Tell(Remove(e));
      }
    }

    /** `updateElement`: tell every callback UPDATE with the current and the previous window. */
    method UpdateElement(e: Elem, previous: Window)
      modifies this`log
      ensures log == old(log) + Broadcast(callbacks, Note.Update(e, range, previous))
    {
      Tell(Note.Update(e, range, previous));
    }

    /**
      `checkElement`: an element that intersects `w` becomes a member (ADD
      the first time), one that does not stops being one (REMOVE if it was).
      `notes` are the notes sent.
     */
    method CheckElement(e: Elem, w: Window) returns (ghost notes: seq<Note>)
      modifies this`elementHash, this`log
      ensures Intersects(e.range, w) ==>
                elementHash == old(elementHash)[e.id := if e.id in old(elementHash) then old(elementHash)[e.id] else e]
                && notes == if e.id in old(elementHash) then [] else [Add(e, range)]
      ensures !Intersects(e.range, w) ==>
                elementHash == old(elementHash) - {e.id}
                && notes == if e.id in old(elementHash) then [Remove(e)] else []
      ensures log == old(log) + Broadcasts(callbacks, notes)
    {
      if Intersects(e.range, w) {
        if e.id !in elementHash {
          AddElement(e);
          notes := [Add(e, range)];
        } else {
          notes := [];
        }
      } else {
        notes := if e.id in elementHash then [Remove(e)] else [];
        RemoveElement(e);
      }
      BroadcastsOne(callbacks, Add(e, range));
      BroadcastsOne(callbacks, Remove(e));
    }

    /** One `checkElement(e)` of a re-check scan that started from `mS` and has re-checked `done`. */
    method RecheckOne(e: Elem, n: Window, ghost els: map<Id, Elem>, ghost m0: map<Id, Elem>,
                      ghost mS: map<Id, Elem>, ghost done: set<Id>, ghost notes0: seq<Note>, ghost log0: seq<Event>)
      returns (ghost notes: seq<Note>)
      requires forall id :: id in els ==> els[id].id == id
      requires e.id in els && els[e.id] == e
      requires Rechecked(mS, elementHash, done, n, els) && Delta(notes0, m0, elementHash, n, els)
      requires log == log0 + Broadcasts(callbacks, notes0)
      modifies this`elementHash, this`log
      ensures Rechecked(mS, elementHash, done + {e.id}, n, els) && Delta(notes, m0, elementHash, n, els)
      ensures log == log0 + Broadcasts(callbacks, notes)
      ensures SentSince(notes0, notes, range)
    {
      ghost var m := elementHash;
      ghost var l := log;
      var step := CheckElement(e, n);
      CheckStep(notes0, step, m0, m, elementHash, e, range, n, els);
      RecheckedStep(mS, m, elementHash, done, e, n, els);
      LogThen(log0, l, log, callbacks, notes0, step);
      SentSinceStep(notes0, step, range);
      notes := notes0 + step;
    }

    /** One `checkElement(e)` of the first scan of an area, which started from `mS` and has checked `done`. */
    method CheckOne(e: Elem, w: Window, ghost els: map<Id, Elem>, ghost mS: map<Id, Elem>, ghost done: set<Id>,
                    ghost notes0: seq<Note>, ghost log0: seq<Event>)
      returns (ghost notes: seq<Note>)
      requires e.id in els && els[e.id] == e
      requires Rechecked(mS, elementHash, done, w, els) && log == log0 + Broadcasts(callbacks, notes0)
      modifies this`elementHash, this`log
      ensures Rechecked(mS, elementHash, done + {e.id}, w, els) && log == log0 + Broadcasts(callbacks, notes)
    {
      ghost var m := elementHash;
      ghost var l := log;
      var step := CheckElement(e, w);
      RecheckedStep(mS, m, elementHash, done, e, w, els);
      LogThen(log0, l, log, callbacks, notes0, step);
      notes := notes0 + step;
    }

    /** One `removeElement(e)` of a removal scan that started from `mS` and has removed `done`. */
    method RemoveOne(e: Elem, n: Window, ghost els: map<Id, Elem>, ghost m0: map<Id, Elem>,
                     ghost mS: map<Id, Elem>, ghost done: set<Id>, ghost notes0: seq<Note>, ghost log0: seq<Event>)
      returns (ghost notes: seq<Note>)
      requires forall id :: id in els ==> els[id].id == id
      requires e.id in els && els[e.id] == e && !Intersects(e.range, n)
      requires elementHash == mS - done && Delta(notes0, m0, elementHash, n, els)
      requires log == log0 + Broadcasts(callbacks, notes0)
      modifies this`elementHash, this`log
      ensures elementHash == mS - (done + {e.id}) && Delta(notes, m0, elementHash, n, els)
      ensures log == log0 + Broadcasts(callbacks, notes)
      ensures SentSince(notes0, notes, range)
    {
      ghost var m := elementHash;
      ghost var l := log;
      ghost var step := if e.id in elementHash then [Remove(e)] else [];
      RemoveElement(e);
      CheckStep(notes0, step, m0, m, elementHash, e, range, n, els);
      BroadcastsOne(callbacks, Remove(e));
      LogThen(log0, l, log, callbacks, notes0, step);
      SentSinceStep(notes0, step, range);
      notes := notes0 + step;
    }

    /**
      `for (let e in elements) this.checkElement(elements[e], ...)` over the
      entries of one side of a line: each entry is re-checked against `n`.
      The scan this belongs to started from membership `mS` and has already
      re-checked `done`; the whole update started from `m0` and has sent
      `notes0` so far, after the log `log0`.
     */
    method RecheckAll(entries: map<Id, Elem>, n: Window, ghost els: map<Id, Elem>, ghost m0: map<Id, Elem>,
                      ghost mS: map<Id, Elem>, ghost done: set<Id>, ghost notes0: seq<Note>, ghost log0: seq<Event>)
      returns (ghost notes: seq<Note>)
      requires forall id :: id in els ==> els[id].id == id
      requires forall id :: id in entries ==> id in els && entries[id] == els[id]
      requires Rechecked(mS, elementHash, done, n, els) && Delta(notes0, m0, elementHash, n, els)
      requires log == log0 + Broadcasts(callbacks, notes0)
      modifies this`elementHash, this`log
      ensures Rechecked(mS, elementHash, done + entries.Keys, n, els) && Delta(notes, m0, elementHash, n, els)
      ensures log == log0 + Broadcasts(callbacks, notes)
      ensures SentSince(notes0, notes, range)
    {
      var rest := entries.Keys;
      ghost var seen := done;
      notes := notes0;
      SentSinceNone(notes0, range);
      while rest != {}
        invariant rest <= entries.Keys && seen == done + (entries.Keys - rest)
        invariant Rechecked(mS, elementHash, seen, n, els)
        invariant Delta(notes, m0, elementHash, n, els)
        invariant log == log0 + Broadcasts(callbacks, notes)
        invariant SentSince(notes0, notes, range)
        decreases rest
      {
        var id :| id in rest;
        ghost var sent := notes;
        notes := RecheckOne(entries[id], n, els, m0, mS, seen, notes, log0);
        SentSinceTrans(notes0, sent, notes, range);
        seen := seen + {id};
        rest := rest - {id};
      }
      assert seen == done + entries.Keys;
    }

    /**
      `for (let e in elements) this.removeElement(elements[e])` over the
      entries of one side of a line, none of which intersects `n`; the scan
      started from `mS` and has already removed `done`.
     */
    method RemoveAll(entries: map<Id, Elem>, n: Window, ghost els: map<Id, Elem>, ghost m0: map<Id, Elem>,
                     ghost mS: map<Id, Elem>, ghost done: set<Id>, ghost notes0: seq<Note>, ghost log0: seq<Event>)
      returns (ghost notes: seq<Note>)
      requires forall id :: id in els ==> els[id].id == id
      requires forall id :: id in entries ==> id in els && entries[id] == els[id] && !Intersects(els[id].range, n)
      requires elementHash == mS - done && Delta(notes0, m0, elementHash, n, els)
      requires log == log0 + Broadcasts(callbacks, notes0)
      modifies this`elementHash, this`log
      ensures elementHash == mS - (done + entries.Keys) && Delta(notes, m0, elementHash, n, els)
      ensures log == log0 + Broadcasts(callbacks, notes)
      ensures SentSince(notes0, notes, range)
    {
      var rest := entries.Keys;
      ghost var gone := done;
      notes := notes0;
      SentSinceNone(notes0, range);
      while rest != {}
        invariant rest <= entries.Keys && gone == done + (entries.Keys - rest)
        invariant elementHash == mS - gone
        invariant Delta(notes, m0, elementHash, n, els)
        invariant log == log0 + Broadcasts(callbacks, notes)
        invariant SentSince(notes0, notes, range)
        decreases rest
      {
        var id :| id in rest;
        ghost var sent := notes;
        notes := RemoveOne(entries[id], n, els, m0, mS, gone, notes, log0);
        SentSinceTrans(notes0, sent, notes, range);
        gone := gone + {id};
        rest := rest - {id};
      }
      assert gone == done + entries.Keys;
    }

    /**
      `checkElement` of every entry on side `s` of line `l` of the scan that
      started from `mS` and has re-checked `done`, against `n`. The scan has
      sent the notes since `notesS`.
     */
    method RecheckLine(n: Window, v: seq<LineVal>, l: nat, s: Side, ghost els: map<Id, Elem>,
                       ghost m0: map<Id, Elem>, ghost mS: map<Id, Elem>, ghost done: set<Id>,
                       ghost notesS: seq<Note>, ghost notes0: seq<Note>, ghost log0: seq<Event>, ghost w: Window)
      returns (ghost notes: seq<Note>)
      requires Recorded(v, els) && l < |v|
      requires Rechecked(mS, elementHash, done, n, els) && Delta(notes0, m0, elementHash, n, els)
      requires log == log0 + Broadcasts(callbacks, notes0) && range == w && SentSince(notesS, notes0, w)
      modifies this`elementHash, this`log
      ensures Rechecked(mS, elementHash, done + v[l].Of(s).Keys, n, els) && Delta(notes, m0, elementHash, n, els)
      ensures log == log0 + Broadcasts(callbacks, notes) && SentSince(notesS, notes, w)
    {
      EntriesRegistered(v, els, l, s);
      notes := RecheckAll(v[l].Of(s), n, els, m0, mS, done, notes0, log0);
      SentSinceTrans(notesS, notes0, notes, w);
    }

    /**
      `removeElement` of every entry on side `s` of line `l` of the scan that
      started from `mS` and has removed `done`; the line lies beyond the new
      edge of `n` (before its lower edge for BEFORE, after its upper edge for
      AFTER). The scan has sent the notes since `notesS`.
     */
    method RemoveLine(ax: Axis, n: Window, v: seq<LineVal>, l: nat, s: Side, ghost els: map<Id, Elem>,
                      ghost m0: map<Id, Elem>, ghost mS: map<Id, Elem>, ghost done: set<Id>,
                      ghost notesS: seq<Note>, ghost notes0: seq<Note>, ghost log0: seq<Event>, ghost w: Window)
      returns (ghost notes: seq<Note>)
      requires Recorded(v, els) && AtEdges(v, els, ax) && l < |v|
      requires if s == Before then Lt(v[l].position, n.Low(ax)) else Lt(n.High(ax), v[l].position)
      requires elementHash == mS - done && Delta(notes0, m0, elementHash, n, els)
      requires log == log0 + Broadcasts(callbacks, notes0) && range == w && SentSince(notesS, notes0, w)
      modifies this`elementHash, this`log
      ensures elementHash == mS - (done + v[l].Of(s).Keys) && Delta(notes, m0, elementHash, n, els)
      ensures log == log0 + Broadcasts(callbacks, notes) && SentSince(notesS, notes, w)
    {
      EntriesRegistered(v, els, l, s);
      EntriesOutside(v, els, ax, l, n);
      notes := RemoveAll(v[l].Of(s), n, els, m0, mS, done, notes0, log0);
      SentSinceTrans(notesS, notes0, notes, w);
    }

    /**
      The expanding branch of a lower edge (`left < this.range.left`, or the
      same for `top`): from the cached line walk down, re-check against `n`
      every element whose upper edge is on a walked line, and stop at the
      first line strictly before the new edge (at the -infinity line when
      the new edge is -infinity).
     */
    method ExpandLow(ax: Axis, n: Window, v: seq<LineVal>, ghost els: map<Id, Elem>,
                     ghost m0: map<Id, Elem>, ghost notes0: seq<Note>, ghost log0: seq<Event>)
      returns (ghost notes: seq<Note>, ghost k: nat, ghost done: set<Id>)
      requires Recorded(v, els) && Consistent(elementHash, els)
      requires lineIndexRange.Low(ax).Some? && LowAt(v, range.Low(ax), lineIndexRange.Low(ax).value)
      requires Lt(n.Low(ax), range.Low(ax))
      requires Delta(notes0, m0, elementHash, n, els) && log == log0 + Broadcasts(callbacks, notes0)
      modifies this`elementHash, this`log, this`lineIndexRange
      ensures k <= old(lineIndexRange.Low(ax).value) && LowAt(v, n.Low(ax), k)
      ensures lineIndexRange == old(lineIndexRange).WithLow(ax, Some(k))
      ensures done == Keys(v, Before, k, old(lineIndexRange.Low(ax).value) + 1) && Rechecked(old(elementHash), elementHash, done, n, els)
      ensures Delta(notes, m0, elementHash, n, els) && log == log0 + Broadcasts(callbacks, notes)
      ensures SentSince(notes0, notes, range)
    {
      var l: int := lineIndexRange.Low(ax).value;
      ghost var i0 := l;
      ghost var c0 := lineIndexRange;
      ghost var mS := elementHash;
      ghost var w := range;
      notes := notes0;
      SentSinceNone(notes0, w);
      done := {};
      RecheckedNone(elementHash, n, els);
      while l >= 0
        invariant -1 <= l <= i0
        invariant forall j :: l < j <= i0 ==> Le(n.Low(ax), v[j].position)
        invariant lineIndexRange == if l == i0 then c0 else c0.WithLow(ax, Some(l + 1))
        invariant done == Keys(v, Before, l + 1, i0 + 1) && Rechecked(mS, elementHash, done, n, els)
        invariant Delta(notes, m0, elementHash, n, els) && log == log0 + Broadcasts(callbacks, notes)
        invariant SentSince(notes0, notes, w)
        decreases l
      {
        notes := RecheckLine(n, v, l, Before, els, m0, mS, done, notes0, notes, log0, w);
        done := done + v[l].Of(Before).Keys;
        assert done == Keys(v, Before, l, i0 + 1);
        lineIndexRange := lineIndexRange.WithLow(ax, Some(l));
        if Lt(v[l].position, n.Low(ax)) {
          break;
        }
        l := l - 1;
      }
      k := if l >= 0 then l else 0;
      assert done == Keys(v, Before, k, i0 + 1) && lineIndexRange == c0.WithLow(ax, Some(k));
      LowWalkDown(v, old(range).Low(ax), n.Low(ax), i0, k);
    }

    /**
      The contracting branch of a lower edge (`left > this.range.left`, or
      the same for `top`), corrected: from the cached line walk up while the
      line is strictly before the new edge, removing every element whose
      upper edge is on a walked line; the last walked line is the new cache.
     */
    method ContractLow(ax: Axis, n: Window, v: seq<LineVal>, ghost els: map<Id, Elem>,
                       ghost m0: map<Id, Elem>, ghost notes0: seq<Note>, ghost log0: seq<Event>)
      returns (ghost notes: seq<Note>, ghost k: nat, ghost done: set<Id>)
      requires Recorded(v, els) && AtEdges(v, els, ax) && AxisOk(v)
      requires lineIndexRange.Low(ax).Some? && LowAt(v, range.Low(ax), lineIndexRange.Low(ax).value)
      requires Lt(range.Low(ax), n.Low(ax))
      requires Delta(notes0, m0, elementHash, n, els) && log == log0 + Broadcasts(callbacks, notes0)
      modifies this`elementHash, this`log, this`lineIndexRange
      ensures old(lineIndexRange.Low(ax).value) <= k < |v| && LowAt(v, n.Low(ax), k)
      ensures lineIndexRange == old(lineIndexRange).WithLow(ax, Some(k))
      ensures done == Keys(v, Before, old(lineIndexRange.Low(ax).value), k + 1) && elementHash == old(elementHash) - done
      ensures Delta(notes, m0, elementHash, n, els) && log == log0 + Broadcasts(callbacks, notes)
      ensures SentSince(notes0, notes, range)
    {
      var l: int := lineIndexRange.Low(ax).value;
      ghost var i0 := l;
      ghost var c0 := lineIndexRange;
      ghost var mS := elementHash;
      LeIsTotalOrder(v[i0].position, range.Low(ax), n.Low(ax));
      ghost var w := range;
      notes := notes0;
      SentSinceNone(notes0, w);
      done := {};
      while l < |v|
        invariant i0 <= l <= |v|
        invariant forall j :: i0 <= j < l ==> Lt(v[j].position, n.Low(ax))
        invariant lineIndexRange == if l == i0 then c0 else c0.WithLow(ax, Some(l - 1))
        invariant done == Keys(v, Before, i0, l) && elementHash == mS - done
        invariant Delta(notes, m0, elementHash, n, els) && log == log0 + Broadcasts(callbacks, notes)
        invariant SentSince(notes0, notes, w)
      {
        if Le(n.Low(ax), v[l].position) {
          break;
        }
        KeysExtendUp(v, Before, i0, l);
        notes := RemoveLine(ax, n, v, l, Before, els, m0, mS, done, notes0, notes, log0, w);
        done := done + v[l].Of(Before).Keys;
        lineIndexRange := lineIndexRange.WithLow(ax, Some(l));
        l := l + 1;
      }
      assert l < |v| && l != i0;
      k := l - 1;
      LowWalkUp(v, n.Low(ax), k);
    }

    /**
      The expanding branch of an upper edge (`right > this.range.right`, or
      the same for `bottom`): from the cached line walk up, re-check against
      `n` every element whose lower edge is on a walked line, and stop at the
      first line strictly after the new edge (at the +infinity line when the
      new edge is +infinity).
     */
    method ExpandHigh(ax: Axis, n: Window, v: seq<LineVal>, ghost els: map<Id, Elem>,
                      ghost m0: map<Id, Elem>, ghost notes0: seq<Note>, ghost log0: seq<Event>)
      returns (ghost notes: seq<Note>, ghost k: nat, ghost done: set<Id>)
      requires Recorded(v, els) && Consistent(elementHash, els)
      requires lineIndexRange.High(ax).Some? && HighAt(v, range.High(ax), lineIndexRange.High(ax).value)
      requires Lt(range.High(ax), n.High(ax))
      requires Delta(notes0, m0, elementHash, n, els) && log == log0 + Broadcasts(callbacks, notes0)
      modifies this`elementHash, this`log, this`lineIndexRange
      ensures old(lineIndexRange.High(ax).value) <= k < |v| && HighAt(v, n.High(ax), k)
      ensures lineIndexRange == old(lineIndexRange).WithHigh(ax, Some(k))
      ensures done == Keys(v, After, old(lineIndexRange.High(ax).value), k + 1) && Rechecked(old(elementHash), elementHash, done, n, els)
      ensures Delta(notes, m0, elementHash, n, els) && log == log0 + Broadcasts(callbacks, notes)
      ensures SentSince(notes0, notes, range)
    {
      var l: int := lineIndexRange.High(ax).value;
      ghost var i0 := l;
      ghost var c0 := lineIndexRange;
      ghost var mS := elementHash;
      ghost var w := range;
      notes := notes0;
      SentSinceNone(notes0, w);
      done := {};
      RecheckedNone(elementHash, n, els);
      while l < |v|
        invariant i0 <= l <= |v|
        invariant forall j :: i0 <= j < l ==> Le(v[j].position, n.High(ax))
        invariant lineIndexRange == if l == i0 then c0 else c0.WithHigh(ax, Some(l - 1))
        invariant done == Keys(v, After, i0, l) && Rechecked(mS, elementHash, done, n, els)
        invariant Delta(notes, m0, elementHash, n, els) && log == log0 + Broadcasts(callbacks, notes)
        invariant SentSince(notes0, notes, w)
      {
        var entries := v[l].after;
        EntriesRegistered(v, els, l, After);
        KeysExtendUp(v, After, i0, l);
        ghost var sent := notes;
        notes := RecheckAll(entries, n, els, m0, mS, done, notes, log0);
        SentSinceTrans(notes0, sent, notes, w);
        done := done + entries.Keys;
        lineIndexRange := lineIndexRange.WithHigh(ax, Some(l));
        if Lt(n.High(ax), v[l].position) {
          break;
        }
        l := l + 1;
      }
      k := if l < |v| then l else |v| - 1;
      assert done == Keys(v, After, i0, k + 1) && lineIndexRange == c0.WithHigh(ax, Some(k));
      HighWalkUp(v, old(range).High(ax), n.High(ax), i0, k);
    }

    /**
      The contracting branch of an upper edge (`right < this.range.right`, or
      the same for `bottom`), as intended: from the cached line walk down,
      remove every element whose lower edge is on a line strictly after the
      new edge, and stop at the first line at or before it.
     */
    method ContractHigh(ax: Axis, n: Window, v: seq<LineVal>, ghost els: map<Id, Elem>,
                        ghost m0: map<Id, Elem>, ghost notes0: seq<Note>, ghost log0: seq<Event>)
      returns (ghost notes: seq<Note>, ghost k: nat, ghost done: set<Id>)
      requires Recorded(v, els) && AtEdges(v, els, ax) && AxisOk(v)
      requires lineIndexRange.High(ax).Some? && HighAt(v, range.High(ax), lineIndexRange.High(ax).value)
      requires Lt(n.High(ax), range.High(ax))
      requires Delta(notes0, m0, elementHash, n, els) && log == log0 + Broadcasts(callbacks, notes0)
      modifies this`elementHash, this`log, this`lineIndexRange
      ensures 0 < k <= old(lineIndexRange.High(ax).value) && HighAt(v, n.High(ax), k)
      ensures lineIndexRange == old(lineIndexRange).WithHigh(ax, Some(k))
      ensures done == Keys(v, After, k, old(lineIndexRange.High(ax).value) + 1) && elementHash == old(elementHash) - done
      ensures Delta(notes, m0, elementHash, n, els) && log == log0 + Broadcasts(callbacks, notes)
      ensures SentSince(notes0, notes, range)
    {
      var l: int := lineIndexRange.High(ax).value;
      ghost var i0 := l;
      ghost var c0 := lineIndexRange;
      ghost var mS := elementHash;
      LeIsTotalOrder(n.High(ax), range.High(ax), v[i0].position);
      ghost var w := range;
      notes := notes0;
      SentSinceNone(notes0, w);
      done := {};
      while l >= 0
        invariant -1 <= l <= i0
        invariant forall j :: l < j <= i0 ==> Lt(n.High(ax), v[j].position)
        invariant lineIndexRange == if l == i0 then c0 else c0.WithHigh(ax, Some(l + 1))
        invariant done == Keys(v, After, l + 1, i0 + 1) && elementHash == mS - done
        invariant Delta(notes, m0, elementHash, n, els) && log == log0 + Broadcasts(callbacks, notes)
        invariant SentSince(notes0, notes, w)
        decreases l
      {
        if Le(v[l].position, n.High(ax)) {
          break;
        }
        notes := RemoveLine(ax, n, v, l, After, els, m0, mS, done, notes0, notes, log0, w);
        done := done + v[l].Of(After).Keys;
        assert done == Keys(v, After, l, i0 + 1);
        lineIndexRange := lineIndexRange.WithHigh(ax, Some(l));
        l := l - 1;
      }
      assert 0 <= l < i0;
      k := l + 1;
      HighWalkDown(v, n.High(ax), k);
    }

    /**
      One lower-edge block of `update` on axis `ax`: expand, contract or keep
      the edge, then `this.range.left = left` (or `top`). `v` holds the lines
      of `ax`, which `update` does not change.
     */
    method StepLow(ax: Axis, n: Window, v: seq<LineVal>, ghost els: map<Id, Elem>,
                   ghost m0: map<Id, Elem>, ghost notes0: seq<Note>, ghost log0: seq<Event>)
      returns (ghost notes: seq<Note>)
      requires Reg(v, els, ax) && AxisOk(v) && Consistent(elementHash, els)
      requires LowCached(v, range.Low(ax), lineIndexRange.Low(ax))
      requires lineIndexRange.Low(ax).None? ==> n.Low(ax) == NegInf
      requires Delta(notes0, m0, elementHash, n, els) && log == log0 + Broadcasts(callbacks, notes0)
      modifies this`elementHash, this`log, this`lineIndexRange, this`range
      ensures range == old(range).WithLow(ax, n.Low(ax)) && callbacks == old(callbacks)
      ensures LowCached(v, n.Low(ax), lineIndexRange.Low(ax))
      ensures lineIndexRange == old(lineIndexRange).WithLow(ax, lineIndexRange.Low(ax))
      ensures Consistent(elementHash, els)
      ensures Delta(notes, m0, elementHash, n, els) && log == log0 + Broadcasts(callbacks, notes)
      ensures SentSince(notes0, notes, old(range))
      ensures n.Low(ax) == old(range).Low(ax) ==>
                notes == notes0 && elementHash == old(elementHash) && lineIndexRange == old(lineIndexRange)
      ensures AllNondegenerate(els) && BetweenSteps(old(elementHash), els, old(range), n) ==> BetweenSteps(elementHash, els, range, n)
    {
      ghost var m := elementHash;
      ghost var w := range;
      RegAtEdges(v, els, ax);
      if Lt(n.Low(ax), range.Low(ax)) {
        ghost var i0 := lineIndexRange.Low(ax).value;
        ghost var k, done;
        notes, k, done := ExpandLow(ax, n, v, els, m0, notes0, log0);
        ExpandLowBetweenSteps(v, els, ax, w, n, i0, k, m, elementHash, done);
      } else if Lt(range.Low(ax), n.Low(ax)) {
        ghost var i0 := lineIndexRange.Low(ax).value;
        ghost var k, done;
        notes, k, done := ContractLow(ax, n, v, els, m0, notes0, log0);
        ContractLowBetweenSteps(v, els, ax, w, n, i0, k, m, elementHash, done);
      } else {
        LeIsTotalOrder(n.Low(ax), range.Low(ax), n.Low(ax));
        notes := notes0;
        SentSinceNone(notes0, range);
      }
      range := range.WithLow(ax, n.Low(ax));
    }

    /**
      One upper-edge block of `update` on axis `ax`: expand, contract or keep
      the edge, then `this.range.right = right` (or `bottom`).
     */
    method StepHigh(ax: Axis, n: Window, v: seq<LineVal>, ghost els: map<Id, Elem>,
                    ghost m0: map<Id, Elem>, ghost notes0: seq<Note>, ghost log0: seq<Event>)
      returns (ghost notes: seq<Note>)
      requires Reg(v, els, ax) && AxisOk(v) && Consistent(elementHash, els)
      requires HighCached(v, range.High(ax), lineIndexRange.High(ax))
      requires Delta(notes0, m0, elementHash, n, els) && log == log0 + Broadcasts(callbacks, notes0)
      modifies this`elementHash, this`log, this`lineIndexRange, this`range
      ensures range == old(range).WithHigh(ax, n.High(ax)) && callbacks == old(callbacks)
      ensures HighCached(v, n.High(ax), lineIndexRange.High(ax))
      ensures lineIndexRange == old(lineIndexRange).WithHigh(ax, lineIndexRange.High(ax))
      ensures Consistent(elementHash, els)
      ensures Delta(notes, m0, elementHash, n, els) && log == log0 + Broadcasts(callbacks, notes)
      ensures SentSince(notes0, notes, old(range))
      ensures n.High(ax) == old(range).High(ax) ==>
                notes == notes0 && elementHash == old(elementHash) && lineIndexRange == old(lineIndexRange)
      ensures AllNondegenerate(els) && BetweenSteps(old(elementHash), els, old(range), n) ==> BetweenSteps(elementHash, els, range, n)
    {
      ghost var m := elementHash;
      ghost var w := range;
      RegAtEdges(v, els, ax);
      if Lt(range.High(ax), n.High(ax)) {
        ghost var i0 := lineIndexRange.High(ax).value;
        ghost var k, done;
        notes, k, done := ExpandHigh(ax, n, v, els, m0, notes0, log0);
        ExpandHighBetweenSteps(v, els, ax, w, n, i0, k, m, elementHash, done);
      } else if Lt(n.High(ax), range.High(ax)) {
        ghost var i0 := lineIndexRange.High(ax).value;
        ghost var k, done;
        notes, k, done := ContractHigh(ax, n, v, els, m0, notes0, log0);
        ContractHighBetweenSteps(v, els, ax, w, n, i0, k, m, elementHash, done);
      } else {
        LeIsTotalOrder(n.High(ax), range.High(ax), n.High(ax));
        notes := notes0;
        SentSinceNone(notes0, range);
      }
      range := range.WithHigh(ax, n.High(ax));
    }

    /**
      The closing loop of `update`: `updateElement(elements[id], oldRange)`
      for every member, in the enumeration order `order`.
     */
    method UpdateAll(previous: Window) returns (ghost order: seq<Id>)
      modifies this`log
      ensures IsOrdering(order, elementHash.Keys)
      ensures log == old(log) + Broadcasts(callbacks, Updates(order, elementHash, range, previous))
    {
      var rest := elementHash.Keys;
      order := [];
      while rest != {}
        invariant rest <= elementHash.Keys
        invariant IsOrdering(order, elementHash.Keys - rest)
        invariant log == old(log) + Broadcasts(callbacks, Updates(order, elementHash, range, previous))
        decreases rest
      {
        var id :| id in rest;
        ghost var u := Note.Update(elementHash[id], range, previous);
        ghost var us := Updates(order, elementHash, range, previous);
        ghost var l := log;
        UpdateElement(elementHash[id], previous);
        BroadcastsOne(callbacks, u);
        LogThen(old(log), l, log, callbacks, us, [u]);
        assert Updates(order + [id], elementHash, range, previous) == us + [u];
        order := order + [id];
        rest := rest - {id};
      }
    }

    /**
      The four edge blocks of `update`, left, right, top and bottom, on the
      x lines `vv` and the y lines `hv`; every element is checked against `n`.
      The notes are those of the left block (`nL`), then of the right, top
      and bottom blocks; the ADDs of each block carry `this.range` as that
      block sees it, with the edges of the blocks before it already moved.
     */
    method MoveEdges(n: Window, vv: seq<LineVal>, hv: seq<LineVal>, ghost els: map<Id, Elem>)
      returns (ghost notes: seq<Note>, ghost nL: seq<Note>, ghost nR: seq<Note>, ghost nT: seq<Note>, ghost nB: seq<Note>)
      requires Reg(vv, els, Vertical) && AxisOk(vv) && Reg(hv, els, Horizontal) && AxisOk(hv)
      requires Consistent(elementHash, els) && CachedFor(vv, hv, range, lineIndexRange)
      requires lineIndexRange.left.None? ==> n.left == NegInf
      requires lineIndexRange.top.None? ==> n.top == NegInf
      modifies this`range, this`lineIndexRange, this`elementHash, this`log
      ensures range == n && callbacks == old(callbacks)
      ensures Consistent(elementHash, els) && CachedFor(vv, hv, n, lineIndexRange)
      ensures Delta(notes, old(elementHash), elementHash, n, els)
      ensures log == old(log) + Broadcasts(callbacks, notes)
      ensures notes == nL + nR + nT + nB
      ensures AddsCarry(nL, old(range)) && AddsCarry(nR, old(range).(left := n.left))
      ensures AddsCarry(nT, n.(top := old(range).top, bottom := old(range).bottom)) && AddsCarry(nB, n.(bottom := old(range).bottom))
      ensures (n.left == old(range).left ==> nL == []) && (n.right == old(range).right ==> nR == [])
      ensures (n.top == old(range).top ==> nT == []) && (n.bottom == old(range).bottom ==> nB == [])
      ensures AllNondegenerate(els) && old(elementHash) == Batch(els, old(range)) ==> elementHash == Batch(els, n)
    {
      ghost var m0 := elementHash;
      ghost var w0 := range;
      DeltaNone(elementHash, n, els);
      if AllNondegenerate(els) && m0 == Batch(els, w0) {
        BetweenStepsStart(m0, els, w0, n);
      }
      ghost var n1 := StepLow(Vertical, n, vv, els, m0, [], old(log));
      ghost var n2 := StepHigh(Vertical, n, vv, els, m0, n1, old(log));
      ghost var n3 := StepLow(Horizontal, n, hv, els, m0, n2, old(log));
      notes := StepHigh(Horizontal, n, hv, els, m0, n3, old(log));
      assert range == n;
      if AllNondegenerate(els) && m0 == Batch(els, w0) {
        BetweenStepsEnd(elementHash, els, n);
      }
      SentSinceSplit([], n1, w0);
      SentSinceSplit(n1, n2, w0.(left := n.left));
      SentSinceSplit(n2, n3, w0.(left := n.left, right := n.right));
      SentSinceSplit(n3, notes, n.(bottom := w0.bottom));
      nL, nR, nT, nB := n1, n2[|n1|..], n3[|n2|..], notes[|n3|..];
    }

    /**
      `update(range)`: move the window to `r` edge by edge (left, right, top,
      bottom), telling the callbacks ADD and REMOVE as elements enter and
      leave (`notes`, block by block `nL`, `nR`, `nT` and `nB`, each ADD with
      the window as its block sees it), then tell every member UPDATE with
      the new and the old window. A `null` cached start line (the window's
      left or top edge was -infinity) cannot be followed by a contraction of
      that edge: the source then reads a line that does not exist.
     */
    method Update(r: Window)
      returns (ghost notes: seq<Note>, ghost nL: seq<Note>, ghost nR: seq<Note>, ghost nT: seq<Note>, ghost nB: seq<Note>,
               ghost order: seq<Id>)
      requires Valid()
      requires lineIndexRange.left.None? ==> r.left == NegInf
      requires lineIndexRange.top.None? ==> r.top == NegInf
      modifies this`range, this`lineIndexRange, this`elementHash, this`log
      ensures Valid() && range == r && callbacks == old(callbacks)
      ensures Delta(notes, old(elementHash), elementHash, r, worldmap.elements)
      ensures notes == nL + nR + nT + nB
      ensures AddsCarry(nL, old(range)) && AddsCarry(nR, old(range).(left := r.left))
      ensures AddsCarry(nT, r.(top := old(range).top, bottom := old(range).bottom)) && AddsCarry(nB, r.(bottom := old(range).bottom))
      ensures (r.left == old(range).left ==> nL == []) && (r.right == old(range).right ==> nR == [])
      ensures (r.top == old(range).top ==> nT == []) && (r.bottom == old(range).bottom ==> nB == [])
      ensures IsOrdering(order, elementHash.Keys)
      ensures log == old(log) + Broadcasts(callbacks, notes) + Broadcasts(callbacks, Updates(order, elementHash, r, old(range)))
      ensures AllNondegenerate(worldmap.elements) && old(elementHash) == Batch(worldmap.elements, old(range))
              ==> elementHash == Batch(worldmap.elements, r)
    {
      var oldRange := range;
      var vv := View(worldmap.vertical);
      var hv := View(worldmap.horizontal);
      SortedView(worldmap.vertical);
      SortedView(worldmap.horizontal);
      notes, nL, nR, nT, nB := MoveEdges(r, vv, hv, worldmap.elements);
      assert View(worldmap.vertical) == vv;
      assert View(worldmap.horizontal) == hv;
      assert Valid();
      order := UpdateAll(oldRange);
    }

    /**
      The `checkCallback` of `getArea`, `checkElement(element, w)`, applied
      to the elements `iterate` finds, in order; `order` holds their ids and
      `done` is the set of them.
     */
    method CheckAll(found: seq<Elem>, w: Window, ghost els: map<Id, Elem>, ghost order: seq<Id>)
      returns (ghost notes: seq<Note>, ghost done: set<Id>)
      requires |order| == |found|
      requires forall i :: 0 <= i < |found| ==> order[i] in els && found[i] == els[order[i]] && found[i].id == order[i]
      requires Consistent(elementHash, els)
      modifies this`elementHash, this`log
      ensures (forall id :: id in done <==> id in order) && Rechecked(old(elementHash), elementHash, done, w, els)
      ensures log == old(log) + Broadcasts(callbacks, notes)
    {
      var i := 0;
      notes := [];
      done := {};
      RecheckedNone(elementHash, w, els);
      while i < |found|
        invariant 0 <= i <= |found|
        invariant (forall id :: id in done <==> id in order[..i]) && Rechecked(old(elementHash), elementHash, done, w, els)
        invariant log == old(log) + Broadcasts(callbacks, notes)
      {
        notes := CheckOne(found[i], w, els, old(elementHash), done, notes, old(log));
        assert order[..i + 1] == order[..i] + [order[i]];
        done := done + {order[i]};
        i := i + 1;
      }
      assert order[..i] == order;
    }

    /** `setLines`. */
    method SetLines(left: Option<nat>, right: Option<nat>, top: Option<nat>, bottom: Option<nat>)
      modifies this`lineIndexRange
      ensures lineIndexRange == LineIndices(left, right, top, bottom)
    {
      lineIndexRange := LineIndices(left, right, top, bottom);
    }

    /**
      `addCallback`: append the callback, then replay an ADD of every current
      member to it alone, in the enumeration order `order`.
     */
    method AddCallback(cb: CallbackId) returns (ghost order: seq<Id>)
      modifies this`callbacks, this`log
      ensures callbacks == old(callbacks) + [cb]
      ensures IsOrdering(order, elementHash.Keys)
      ensures log == old(log) + Replay(cb, order, elementHash, range)
    {
      callbacks := callbacks + [cb];
      var rest := elementHash.Keys;
      order := [];
      while rest != {}
        invariant callbacks == old(callbacks) + [cb]
        invariant rest <= elementHash.Keys
        invariant IsOrdering(order, elementHash.Keys - rest)
        invariant log == old(log) + Replay(cb, order, elementHash, range)
        decreases rest
      {
        var id :| id in rest;
        assert Replay(cb, order + [id], elementHash, range) == Replay(cb, order, elementHash, range) + [Event(cb, Add(elementHash[id], range))];
        log := log + [Event(cb, Add(elementHash[id], range))];
        order := order + [id];
        rest := rest - {id};
      }
    }

    /** `removeCallback`: drop every occurrence of the callback, keeping the others in order. */
    method RemoveCallback(cb: CallbackId)
      modifies this`callbacks
      ensures callbacks == Without(old(callbacks), cb)
    {
      callbacks := Without(callbacks, cb);
    }
  }
}
