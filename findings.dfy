/**
  Two places where `worldmap.js` as written departs from what it evidently
  intends. Each is modelled here as written, on line values, with a
  concrete input that exhibits the difference; the rest of the model uses
  the corrected behaviour (`Worldmap.Area.ContractLow`,
  `Worldmap.Area.ContractHigh` and `Lines.Entered`).
 */
module Findings {
  import opened Geometry
  import opened Lines

  /**
    The contracting branch of a lower edge as written: from line `l` walk up
    and stop only at a line strictly after the new edge `x`, so the BEFORE
    map of a line exactly at `x` is removed too.
   */
  function ContractLowAsWritten(v: seq<LineVal>, x: Coord, l: nat, m: map<Id, Elem>): (r: map<Id, Elem>)
    ensures r.Keys <= m.Keys
    decreases |v| - l
  {
    if l >= |v| || Lt(x, v[l].position) then m
    else ContractLowAsWritten(v, x, l + 1, m - v[l].before.Keys)
  }

  /**
    The contracting branch of an upper edge as written: from line `l` walk
    down and stop only at a line strictly before the new edge `x`, so the
    AFTER map of a line exactly at `x` is removed too.
   */
  function ContractHighAsWritten(v: seq<LineVal>, x: Coord, l: int, m: map<Id, Elem>): (r: map<Id, Elem>)
    requires l < |v|
    ensures r.Keys <= m.Keys
    decreases l + 1
  {
    if l < 0 || Lt(v[l].position, x) then m
    else ContractHighAsWritten(v, x, l - 1, m - v[l].after.Keys)
  }

  /** The element `{left: 0, right: 2, top: 0, bottom: 2}` of the examples below. */
  const Square := Elem(7, Window(Fin(0), Fin(2), Fin(0), Fin(2)))

  /** The vertical axis after `add(Square)` alone: lines at -infinity, 0, 2 and +infinity. */
  const SquareLines := [
    LineVal(NegInf, map[], map[]),
    LineVal(Fin(0), map[], map[7 := Square]),
    LineVal(Fin(2), map[7 := Square], map[]),
    LineVal(PosInf, map[], map[])
  ]

  /**
    Moving the left edge of `{1, 3, 0, 2}` to 2 (cached left line: index 1,
    at 0) drops `Square` although its right edge touches the new window, and
    the closed intersection test counts touching edges.
   */
  lemma ContractLowDropsTouching()
    ensures LowAt(SquareLines, Fin(1), 1)
    ensures Intersects(Square.range, Window(Fin(2), Fin(3), Fin(0), Fin(2)))
    ensures ContractLowAsWritten(SquareLines, Fin(2), 1, map[7 := Square]) == map[]
  {
  }

  /**
    Moving the right edge of `{-1, 1, 0, 2}` to 0 (cached right line:
    index 2, at 2) drops `Square` although its left edge touches the new
    window.
   */
  lemma ContractHighDropsTouching()
    ensures HighAt(SquareLines, Fin(1), 2)
    ensures Intersects(Square.range, Window(Fin(-1), Fin(0), Fin(0), Fin(2)))
    ensures ContractHighAsWritten(SquareLines, Fin(0), 2, map[7 := Square]) == map[]
  {
  }

  /**
    `Line.addElement` as written: when the element ends up on both sides the
    call goes to `removeElement`, whose body names an undeclared
    `elementHashes` and so throws; `None` stands for that throw.
   */
  function EnteredAsWritten(l: LineVal, e: Elem, isBefore: bool, isAfter: bool): (r: Option<LineVal>)
    ensures r.Some? ==> r.value == Entered(l, e, isBefore, isAfter)
    ensures isBefore && isAfter ==> r.None?
    ensures isBefore && Lookup(l.after, e.id) == Some(e) ==> r.None?
    ensures isAfter && Lookup(l.before, e.id) == Some(e) ==> r.None?
    ensures isBefore != isAfter && e.id !in (if isBefore then l.after else l.before) ==> r.Some?
  {
    var b := if isBefore then l.before[e.id := e] else l.before;
    var a := if isAfter then l.after[e.id := e] else l.after;
    if Lookup(b, e.id) == Lookup(a, e.id) then None
    else Some(LineVal(l.position, b, a))
  }

  /**
    `add` of an element with zero width (left == right): the left edge puts it
    in AFTER of its line, and the right edge, on the same line, then throws.
   */
  lemma ZeroWidthAddThrows(p: Coord, e: Elem)
    ensures EnteredAsWritten(LineVal(p, map[], map[]), e, false, true).Some?
    ensures EnteredAsWritten(EnteredAsWritten(LineVal(p, map[], map[]), e, false, true).value, e, true, false).None?
  {
  }
}
