/**
  Lines and axes.

  A `Line` is a breakpoint at one coordinate of one axis. Its AFTER map
  holds the elements whose lower edge (left or top) is at the line, its
  BEFORE map those whose upper edge (right or bottom) is at the line. An
  axis is a sequence of lines strictly increasing by position, bounded by
  a -infinity and a +infinity sentinel.
 */
module Lines {
  import opened Geometry
  import opened Notify

  /** The two maps of a line: BEFORE and AFTER. */
  datatype Side = Before | After

  /** The value of a line at one moment. */
  datatype LineVal = LineVal(position: Coord, before: map<Id, Elem>, after: map<Id, Elem>)
  {
    function Of(s: Side): map<Id, Elem> {
      if s == Before then before else after
    }
  }

  /** The element edge that a side of a line records: AFTER the lower edge, BEFORE the upper edge. */
  function EdgeOf(e: Elem, ax: Axis, s: Side): Coord {
    if s == Before then e.range.High(ax) else e.range.Low(ax)
  }

  function Lookup(m: map<Id, Elem>, id: Id): Option<Elem> {
    if id in m then Some(m[id]) else None
  }

  /**
    `Line.addElement(element, before, after)` on a line value: record the
    element on the requested sides; when that leaves the same element on
    both sides (zero extent) drop it from both.
   */
  function Entered(l: LineVal, e: Elem, isBefore: bool, isAfter: bool): (r: LineVal)
    ensures r.position == l.position
    ensures r.before - {e.id} == l.before - {e.id} && r.after - {e.id} == l.after - {e.id}
    ensures !(e.id in r.before && e.id in r.after && r.before[e.id] == r.after[e.id])
    ensures isBefore ==> (e.id in r.before ==> r.before[e.id] == e) && (e.id !in r.before ==> e.id !in r.after)
    ensures isAfter ==> (e.id in r.after ==> r.after[e.id] == e) && (e.id !in r.after ==> e.id !in r.before)
    ensures isBefore && !isAfter ==> (e.id !in r.before <==> Lookup(l.after, e.id) == Some(e))
    ensures isAfter && !isBefore ==> (e.id !in r.after <==> Lookup(l.before, e.id) == Some(e))
    ensures isBefore && !isAfter ==> Lookup(r.after, e.id) == if Lookup(l.after, e.id) == Some(e) then None else Lookup(l.after, e.id)
    ensures isAfter && !isBefore ==> Lookup(r.before, e.id) == if Lookup(l.before, e.id) == Some(e) then None else Lookup(l.before, e.id)
    ensures !isBefore ==> r.before.Keys <= l.before.Keys
    ensures !isAfter ==> r.after.Keys <= l.after.Keys
  {
    var b := if isBefore then l.before[e.id := e] else l.before;
    var a := if isAfter then l.after[e.id := e] else l.after;
    if Lookup(b, e.id) == Lookup(a, e.id) then LineVal(l.position, b - {e.id}, a - {e.id})
    else LineVal(l.position, b, a)
  }

  /** A breakpoint on one axis; its two maps are updated in place. */
  class Line {
    const position: Coord
    var before: map<Id, Elem>
    var after: map<Id, Elem>

    constructor (position: Coord)
      ensures this.position == position && before == map[] && after == map[]
    {
      this.position := position;
      before := map[];
      after := map[];
    }

    function Value(): LineVal
      reads this
    {
      LineVal(position, before, after)
    }

    method AddElement(e: Elem, isBefore: bool, isAfter: bool)
      modifies this
      ensures Value() == Entered(old(Value()), e, isBefore, isAfter)
    {
      if isBefore {
        before := before[e.id := e];
      }
      if isAfter {
        after := after[e.id := e];
      }
      if Lookup(before, e.id) == Lookup(after, e.id) {
        RemoveElement(e);
      }
    }

    method RemoveElement(e: Elem)
      modifies this
      ensures before == old(before) - {e.id} && after == old(after) - {e.id}
    {
      before := before - {e.id};
      after := after - {e.id};
    }
  }

  /** The positions of the lines of an axis (positions never change, so this reads nothing). */
  ghost function Positions(lines: seq<Line>): set<Coord> {
    set l | l in lines :: l.position
  }

  /** The current value of every line of an axis. */
  function View(lines: seq<Line>): (v: seq<LineVal>)
    reads lines
    ensures |v| == |lines| && forall i :: 0 <= i < |lines| ==> v[i] == lines[i].Value()
  {
    seq(|lines|, i reads lines requires 0 <= i < |lines| => lines[i].Value())
  }

  /** The positions of a two-line axis. */
  lemma PositionsPair(l0: Line, l1: Line)
    ensures Positions([l0, l1]) == {l0.position, l1.position}
  {
    assert l0 in [l0, l1] && l1 in [l0, l1];
  }

  /** Adding two positions one after the other. */
  lemma PositionsTwice(ps: set<Coord>, p: Coord, q: Coord)
    ensures ps + {p} + {q} == ps + {p, q}
  {
  }

  /** Inserting a line adds its position to those of the axis. */
  lemma PositionsInsert(lines: seq<Line>, k: nat, line: Line)
    requires k <= |lines|
    ensures Positions(lines[..k] + [line] + lines[k..]) == Positions(lines) + {line.position}
  {
    InsertMembers(lines, k, line);
  }

  /** The members of a sequence after an insertion. */
  lemma InsertMembers<T>(s: seq<T>, k: nat, x: T)
    requires k <= |s|
    ensures forall y :: y in s[..k] + [x] + s[k..] <==> y in s || y == x
  {
    assert s == s[..k] + s[k..];
  }

  /** Inserting a line that is on no line of `others` keeps the two axes apart. */
  lemma InsertDisjoint(lines: seq<Line>, others: seq<Line>, k: nat, line: Line)
    requires k <= |lines| && line !in others
    requires forall a, b :: 0 <= a < |lines| && 0 <= b < |others| ==> lines[a] != others[b]
    ensures var w := lines[..k] + [line] + lines[k..];
            forall a, b :: 0 <= a < |w| && 0 <= b < |others| ==> w[a] != others[b]
  {
    var w := lines[..k] + [line] + lines[k..];
    forall a, b | 0 <= a < |w| && 0 <= b < |others| ensures w[a] != others[b] {
      if a < k {
        assert w[a] == lines[a];
      } else if a > k {
        assert w[a] == lines[a - 1];
      }
    }
  }

  /** The view of an axis after a line is inserted at index `k`. */
  lemma ViewInsert(lines: seq<Line>, k: nat, line: Line)
    requires k <= |lines|
    ensures View(lines[..k] + [line] + lines[k..]) == View(lines)[..k] + [line.Value()] + View(lines)[k..]
  {
    var w := lines[..k] + [line] + lines[k..];
    assert forall j :: 0 <= j < k ==> w[j] == lines[j];
    assert forall j :: k < j < |w| ==> w[j] == lines[j - 1];
  }

  /**
    Where a lower-bound search stops on a sorted axis: at the line at `p`
    when there is one, and otherwise just after the last line before `p`.
   */
  lemma LowerBoundFinds(v: seq<LineVal>, p: Coord, i: nat)
    requires AxisOk(v) && i < |v|
    requires forall j :: 0 <= j < i ==> Lt(v[j].position, p)
    requires Le(p, v[i].position) || i == |v| - 1
    ensures Has(v, p) <==> v[i].position == p
    ensures !Has(v, p) ==> 0 < i && Lt(p, v[i].position)
  {
    if v[i].position != p {
      forall j | 0 <= j < |v| ensures v[j].position != p {
        if j > i {
          assert Lt(v[i].position, v[j].position);
        }
      }
    }
  }

  /** Positions are strictly increasing. */
  ghost predicate Increasing(v: seq<LineVal>) {
    forall i, j :: 0 <= i < j < |v| ==> Lt(v[i].position, v[j].position)
  }

  /** An axis: strictly increasing, -infinity first and +infinity last. */
  ghost predicate AxisOk(v: seq<LineVal>) {
    |v| >= 2 && v[0].position == NegInf && v[|v| - 1].position == PosInf && Increasing(v)
  }

  /** Some line of the axis is at position `p`. */
  ghost predicate Has(v: seq<LineVal>, p: Coord) {
    exists j :: 0 <= j < |v| && v[j].position == p
  }

  /**
    `i` is where a scan of a lower edge at `x` stops: the last line strictly
    before `x`, or the -infinity line when `x` is -infinity itself.
   */
  ghost predicate LowAt(v: seq<LineVal>, x: Coord, i: nat) {
    i < |v| && (i == 0 || Lt(v[i].position, x)) && forall j :: i < j < |v| ==> Le(x, v[j].position)
  }

  /**
    A walk down from the stop line `i0` of `x` that passed only lines at or
    after `x'` and ended at `k` (a line before `x'`, or the -infinity line)
    found the stop line of `x'`.
   */
  lemma LowWalkDown(v: seq<LineVal>, x: Coord, x': Coord, i0: nat, k: nat)
    requires LowAt(v, x, i0) && Lt(x', x) && k <= i0
    requires k == 0 || Lt(v[k].position, x')
    requires forall j :: k < j <= i0 ==> Le(x', v[j].position)
    ensures LowAt(v, x', k)
  {
    forall j | i0 < j < |v| ensures Le(x', v[j].position) {
      LeIsTotalOrder(x', x, v[j].position);
    }
  }

  /**
    A walk up from the stop line `i0` of `x` that passed only lines before
    `x'` and stopped at the line `k + 1`, at or after `x'`, found the stop
    line `k` of `x'`.
   */
  lemma LowWalkUp(v: seq<LineVal>, x': Coord, k: nat)
    requires Increasing(v) && k + 1 < |v| && Lt(v[k].position, x') && Le(x', v[k + 1].position)
    ensures LowAt(v, x', k)
  {
    forall j | k + 1 < j < |v| ensures Le(x', v[j].position) {
      LeIsTotalOrder(x', v[k + 1].position, v[j].position);
    }
  }

  /**
    A walk up from the end line `i0` of `x` that passed only lines at or
    before `x'` and ended at `k` (a line after `x'`, or the +infinity line)
    found the end line of `x'`.
   */
  lemma HighWalkUp(v: seq<LineVal>, x: Coord, x': Coord, i0: nat, k: nat)
    requires HighAt(v, x, i0) && Lt(x, x') && i0 <= k < |v|
    requires k == |v| - 1 || Lt(x', v[k].position)
    requires forall j :: i0 <= j < k ==> Le(v[j].position, x')
    ensures HighAt(v, x', k)
  {
    forall j | 0 <= j < i0 ensures Le(v[j].position, x') {
      LeIsTotalOrder(v[j].position, x, x');
    }
  }

  /**
    A walk down from the end line of an upper edge that stopped at the
    first line `k - 1` at or before `x'` found the end line `k` of `x'`.
   */
  lemma HighWalkDown(v: seq<LineVal>, x': Coord, k: nat)
    requires Increasing(v) && 0 < k < |v| && Le(v[k - 1].position, x') && Lt(x', v[k].position)
    ensures HighAt(v, x', k)
  {
    forall j | 0 <= j < k - 1 ensures Le(v[j].position, x') {
      LeIsTotalOrder(v[j].position, v[k - 1].position, x');
    }
  }

  /**
    The cached start line of a lower edge at `x`: `None` (the `null` that
    `iterate` returns when no line is before `x`) only for -infinity.
   */
  ghost predicate LowCached(v: seq<LineVal>, x: Coord, o: Option<nat>) {
    match o
    case None => x == NegInf
    case Some(i) => LowAt(v, x, i)
  }

  /** `i` is the first line strictly after `x`, or the last line if there is none. */
  ghost predicate HighAt(v: seq<LineVal>, x: Coord, i: nat) {
    i < |v| && (forall j :: 0 <= j < i ==> Le(v[j].position, x)) && (Lt(x, v[i].position) || i == |v| - 1)
  }

  /** The cached end line of an upper edge at `x`. */
  ghost predicate HighCached(v: seq<LineVal>, x: Coord, o: Option<nat>) {
    o.Some? && HighAt(v, x, o.value)
  }

  /** An axis as an array of lines: sorted by position, -infinity first and +infinity last (positions never change). */
  ghost predicate Sorted(lines: seq<Line>) {
    && |lines| >= 2 && lines[0].position == NegInf && lines[|lines| - 1].position == PosInf
    && forall i, j :: 0 <= i < j < |lines| ==> Lt(lines[i].position, lines[j].position)
  }

  lemma SortedView(lines: seq<Line>)
    ensures Sorted(lines) <==> AxisOk(View(lines))
  {
    var v := View(lines);
    if Sorted(lines) {
      assert forall i, j :: 0 <= i < j < |v| ==> Lt(v[i].position, v[j].position) by {
        forall i, j | 0 <= i < j < |v| ensures Lt(v[i].position, v[j].position) {
          assert Lt(lines[i].position, lines[j].position);
        }
      }
    }
    if AxisOk(v) {
      forall i, j | 0 <= i < j < |lines| ensures Lt(lines[i].position, lines[j].position) {
        assert Lt(v[i].position, v[j].position);
      }
    }
  }

  /** Inserting a line strictly between its neighbours keeps an axis sorted and its sentinels in place. */
  lemma InsertKeepsSorted(lines: seq<Line>, k: nat, line: Line)
    requires Sorted(lines) && 0 < k < |lines|
    requires forall j :: 0 <= j < k ==> Lt(lines[j].position, line.position)
    requires Lt(line.position, lines[k].position)
    ensures Sorted(lines[..k] + [line] + lines[k..])
  {
    var w := lines[..k] + [line] + lines[k..];
    var p := line.position;
    assert forall j :: 0 <= j < k ==> w[j] == lines[j];
    assert forall j :: k < j < |w| ==> w[j] == lines[j - 1];
    forall i, j | 0 <= i < j < |w| ensures Lt(w[i].position, w[j].position) {
      if i < k && j > k {
        LeIsTotalOrder(w[i].position, p, w[j].position);
        LeIsTotalOrder(p, lines[k].position, w[j].position);
        assert Le(lines[k].position, lines[j - 1].position) by {
          if j - 1 > k { assert Lt(lines[k].position, lines[j - 1].position); }
        }
      } else if i == k {
        LeIsTotalOrder(p, lines[k].position, w[j].position);
        if j - 1 > k { assert Lt(lines[k].position, lines[j - 1].position); }
      }
    }
  }

  /** Identifiers on side `s` of the lines `lo .. hi-1`. */
  ghost function Keys(v: seq<LineVal>, s: Side, lo: nat, hi: nat): set<Id>
    requires lo <= hi <= |v|
    decreases hi - lo
  {
    if lo == hi then {} else v[lo].Of(s).Keys + Keys(v, s, lo + 1, hi)
  }

  lemma {:induction false} KeysMembers(v: seq<LineVal>, s: Side, lo: nat, hi: nat)
    requires lo <= hi <= |v|
    ensures forall id :: id in Keys(v, s, lo, hi) <==> exists j :: lo <= j < hi && id in v[j].Of(s)
    decreases hi - lo
  {
    if lo < hi {
      KeysMembers(v, s, lo + 1, hi);
      forall id | id in v[lo].Of(s) ensures exists j :: lo <= j < hi && id in v[j].Of(s) {
        assert lo <= lo < hi;
      }
    }
  }

  lemma {:induction false} KeysExtendUp(v: seq<LineVal>, s: Side, lo: nat, hi: nat)
    requires lo <= hi < |v|
    ensures Keys(v, s, lo, hi + 1) == Keys(v, s, lo, hi) + v[hi].Of(s).Keys
    decreases hi - lo
  {
    if lo < hi {
      KeysExtendUp(v, s, lo + 1, hi);
    }
  }

  /** Where the lines of one axis record element `e` when its registration has reached `stage` (0, 1 or 2). */
  predicate Placed(e: Elem, ax: Axis, s: Side, p: Coord, stage: nat) {
    EdgeOf(e, ax, s) == p
    && if s == After then stage >= 1 && (stage < 2 || Nondegenerate(e, ax)) else stage >= 2 && Nondegenerate(e, ax)
  }

  /** The line for side `s` of an element exists once registration has reached `stage`. */
  predicate Reached(s: Side, stage: nat) {
    if s == After then stage >= 1 else stage >= 2
  }

  /**
    The registration invariant of one axis while element `x` is being
    registered (stage 0: nothing done on this axis, 1: lower edge done,
    2: both edges done); every other element is fully registered.
   */
  ghost predicate RegP(v: seq<LineVal>, els: map<Id, Elem>, ax: Axis, x: Id, stage: nat) {
    && (forall id :: id in els ==> els[id].id == id)
    && (forall j, s, id :: 0 <= j < |v| && id in v[j].Of(s) ==> id in els && v[j].Of(s)[id] == els[id])
    && (forall j, s, id :: 0 <= j < |v| && id in els ==>
          (id in v[j].Of(s) <==> Placed(els[id], ax, s, v[j].position, if id == x then stage else 2)))
    && (forall id, s :: id in els && Reached(s, if id == x then stage else 2) ==> Has(v, EdgeOf(els[id], ax, s)))
  }

  /** Every line entry is the registered element of its identifier. */
  ghost predicate Recorded(v: seq<LineVal>, els: map<Id, Elem>) {
    && (forall id :: id in els ==> els[id].id == id)
    && (forall j, s, id :: 0 <= j < |v| && id in v[j].Of(s) ==> id in els && v[j].Of(s)[id] == els[id])
  }

  /** Every line entry sits at the line of its own edge on that side. */
  ghost predicate AtEdges(v: seq<LineVal>, els: map<Id, Elem>, ax: Axis) {
    forall j, s, id :: 0 <= j < |v| && id in v[j].Of(s) && id in els ==> EdgeOf(els[id], ax, s) == v[j].position
  }

  /** The entries of one side of one line are registered elements. */
  lemma EntriesRegistered(v: seq<LineVal>, els: map<Id, Elem>, j: nat, s: Side)
    requires Recorded(v, els) && j < |v|
    ensures forall id :: id in v[j].Of(s) ==> id in els && v[j].Of(s)[id] == els[id] && els[id].id == id
  {
  }

  /**
    The BEFORE entries of a line strictly before the lower edge of `n`, and
    the AFTER entries of a line strictly after its upper edge, lie outside `n`.
   */
  lemma EntriesOutside(v: seq<LineVal>, els: map<Id, Elem>, ax: Axis, j: nat, n: Window)
    requires Recorded(v, els) && AtEdges(v, els, ax) && j < |v|
    ensures Lt(v[j].position, n.Low(ax)) ==> forall id :: id in v[j].before ==> id in els && !Intersects(els[id].range, n)
    ensures Lt(n.High(ax), v[j].position) ==> forall id :: id in v[j].after ==> id in els && !Intersects(els[id].range, n)
  {
    forall id | id in v[j].before ensures id in els && EdgeOf(els[id], ax, Before) == v[j].position {
      assert id in v[j].Of(Before);
    }
    forall id | id in v[j].after ensures id in els && EdgeOf(els[id], ax, After) == v[j].position {
      assert id in v[j].Of(After);
    }
  }

  /**
    The registration invariant of one axis: every line entry is a registered
    element; a registered element of nonzero extent is in AFTER of exactly
    the line at its lower edge and in BEFORE of exactly the line at its upper
    edge, one of zero extent is on no line; both edge lines exist.
   */
  ghost predicate Reg(v: seq<LineVal>, els: map<Id, Elem>, ax: Axis) {
    && Recorded(v, els)
    && (forall j, s, id :: 0 <= j < |v| && id in els ==>
          (id in v[j].Of(s) <==> EdgeOf(els[id], ax, s) == v[j].position && Nondegenerate(els[id], ax)))
    && (forall id, s :: id in els ==> Has(v, EdgeOf(els[id], ax, s)))
  }

  /** An axis of just the two empty sentinel lines registers nothing. */
  lemma RegSentinels(v: seq<LineVal>, ax: Axis)
    requires v == [LineVal(NegInf, map[], map[]), LineVal(PosInf, map[], map[])]
    ensures AxisOk(v) && Reg(v, map[], ax)
  {
  }

  /** Lines registered for an axis hold their entries at the entries' edges. */
  lemma RegAtEdges(v: seq<LineVal>, els: map<Id, Elem>, ax: Axis)
    requires Reg(v, els, ax)
    ensures Recorded(v, els) && AtEdges(v, els, ax)
  {
  }

  /** Registration of a new identifier starts with it on no line. */
  lemma RegFresh(v: seq<LineVal>, els: map<Id, Elem>, ax: Axis, e: Elem)
    requires Reg(v, els, ax) && e.id !in els
    ensures RegP(v, els[e.id := e], ax, e.id, 0)
  {
  }

  /** A finished registration is the registration invariant. */
  lemma RegDone(v: seq<LineVal>, els: map<Id, Elem>, ax: Axis, x: Id)
    requires RegP(v, els, ax, x, 2)
    ensures Reg(v, els, ax)
  {
  }

  /** Inserting a new empty line at a position no line has keeps the invariant. */
  lemma RegInsert(v: seq<LineVal>, els: map<Id, Elem>, ax: Axis, x: Id, stage: nat, k: nat, p: Coord)
    requires RegP(v, els, ax, x, stage) && k <= |v| && !Has(v, p)
    ensures RegP(v[..k] + [LineVal(p, map[], map[])] + v[k..], els, ax, x, stage)
  {
    var w := v[..k] + [LineVal(p, map[], map[])] + v[k..];
    assert forall j :: 0 <= j < k ==> w[j] == v[j];
    assert forall j :: k < j < |w| ==> w[j] == v[j - 1];
    forall id, s | id in els && Reached(s, if id == x then stage else 2)
      ensures Has(w, EdgeOf(els[id], ax, s))
    {
      var j :| 0 <= j < |v| && v[j].position == EdgeOf(els[id], ax, s);
      if j < k {
        assert w[j] == v[j];
      } else {
        assert w[j + 1] == v[j];
      }
    }
    forall j, s, id | 0 <= j < |w| && id in els
      ensures id in w[j].Of(s) <==> Placed(els[id], ax, s, w[j].position, if id == x then stage else 2)
    {
      if j == k {
        assert !Placed(els[id], ax, s, p, if id == x then stage else 2);
      } else if j > k {
        assert w[j] == v[j - 1];
      }
    }
  }

  /** Recording the lower edge of `x` on the line at that position (stage 0 to 1). */
  lemma RegEnterLow(v: seq<LineVal>, els: map<Id, Elem>, ax: Axis, x: Id, k: nat)
    requires RegP(v, els, ax, x, 0) && Increasing(v) && x in els
    requires k < |v| && v[k].position == els[x].range.Low(ax)
    ensures RegP(v[k := Entered(v[k], els[x], false, true)], els, ax, x, 1)
  {
    var e := els[x];
    assert x !in v[k].Of(Before) && x !in v[k].Of(After);
    var l' := Entered(v[k], e, false, true);
    assert l' == LineVal(v[k].position, v[k].before, v[k].after[x := e]);
    var w := v[k := l'];
    RegUpdateOthers(v, els, ax, x, 0, 1, k, l');
    forall j, s | 0 <= j < |w|
      ensures x in w[j].Of(s) <==> Placed(e, ax, s, w[j].position, 1)
    {
      if j != k {
        assert w[j] == v[j];
        assert Lt(v[j].position, v[k].position) || Lt(v[k].position, v[j].position);
      }
    }
    assert Has(w, e.range.Low(ax)) by {
      assert w[k].position == e.range.Low(ax);
    }
  }

  /** Recording the upper edge of `x` on the line at that position (stage 1 to 2). */
  lemma RegEnterHigh(v: seq<LineVal>, els: map<Id, Elem>, ax: Axis, x: Id, k: nat)
    requires RegP(v, els, ax, x, 1) && Increasing(v) && x in els
    requires k < |v| && v[k].position == els[x].range.High(ax)
    ensures RegP(v[k := Entered(v[k], els[x], true, false)], els, ax, x, 2)
  {
    var e := els[x];
    assert x !in v[k].Of(Before);
    var l' := Entered(v[k], e, true, false);
    if Nondegenerate(e, ax) {
      assert x !in v[k].Of(After);
      assert l' == LineVal(v[k].position, v[k].before[x := e], v[k].after);
    } else {
      assert x in v[k].Of(After) && v[k].after[x] == e;
      assert l' == LineVal(v[k].position, v[k].before, v[k].after - {x});
    }
    var w := v[k := l'];
    RegUpdateOthers(v, els, ax, x, 1, 2, k, l');
    forall j, s | 0 <= j < |w|
      ensures x in w[j].Of(s) <==> Placed(e, ax, s, w[j].position, 2)
    {
      if j != k {
        assert w[j] == v[j];
        assert Lt(v[j].position, v[k].position) || Lt(v[k].position, v[j].position);
      }
    }
    assert Has(w, e.range.High(ax)) by {
      assert w[k].position == e.range.High(ax);
    }
    forall s ensures Has(w, EdgeOf(e, ax, s)) {
      if s == After {
        var j :| 0 <= j < |v| && v[j].position == EdgeOf(e, ax, s);
        assert w[j].position == v[j].position;
      }
    }
  }

  /** Finding or inserting the line at the lower edge of `x`, then recording the edge there (stage 0 to 1). */
  lemma RegLowStep(v0: seq<LineVal>, v1: seq<LineVal>, k: nat, els: map<Id, Elem>, ax: Axis, x: Id)
    requires RegP(v0, els, ax, x, 0) && x in els && k <= |v0|
    requires v1 == if Has(v0, els[x].range.Low(ax)) then v0 else v0[..k] + [LineVal(els[x].range.Low(ax), map[], map[])] + v0[k..]
    requires k < |v1| && v1[k].position == els[x].range.Low(ax) && Increasing(v1)
    ensures RegP(v1[k := Entered(v1[k], els[x], false, true)], els, ax, x, 1)
  {
    if !Has(v0, els[x].range.Low(ax)) {
      RegInsert(v0, els, ax, x, 0, k, els[x].range.Low(ax));
    }
    RegEnterLow(v1, els, ax, x, k);
  }

  /** Finding or inserting the line at the upper edge of `x`, then recording the edge there (stage 1 to 2, done). */
  lemma RegHighStep(v0: seq<LineVal>, v1: seq<LineVal>, k: nat, els: map<Id, Elem>, ax: Axis, x: Id)
    requires RegP(v0, els, ax, x, 1) && x in els && k <= |v0|
    requires v1 == if Has(v0, els[x].range.High(ax)) then v0 else v0[..k] + [LineVal(els[x].range.High(ax), map[], map[])] + v0[k..]
    requires k < |v1| && v1[k].position == els[x].range.High(ax) && Increasing(v1)
    ensures Reg(v1[k := Entered(v1[k], els[x], true, false)], els, ax)
  {
    if !Has(v0, els[x].range.High(ax)) {
      RegInsert(v0, els, ax, x, 1, k, els[x].range.High(ax));
    }
    RegEnterHigh(v1, els, ax, x, k);
    RegDone(v1[k := Entered(v1[k], els[x], true, false)], els, ax, x);
  }

  /**
    Replacing line `k` by a line at the same position that differs only in
    the entries of `x`, and whose entries of `x` are `els[x]`, keeps the
    invariant for every other element and moves `x` to a new stage as far
    as the existing lines are concerned.
   */
  lemma RegUpdateOthers(v: seq<LineVal>, els: map<Id, Elem>, ax: Axis, x: Id, stage: nat, stage': nat, k: nat, l': LineVal)
    requires RegP(v, els, ax, x, stage) && x in els && k < |v| && stage <= stage'
    requires l'.position == v[k].position
    requires l'.before - {x} == v[k].before - {x} && l'.after - {x} == v[k].after - {x}
    requires x in l'.before ==> l'.before[x] == els[x]
    requires x in l'.after ==> l'.after[x] == els[x]
    requires forall j, s :: 0 <= j < |v| && j != k ==> (x in v[j].Of(s) <==> Placed(els[x], ax, s, v[j].position, stage'))
    requires x in l'.before <==> Placed(els[x], ax, Before, l'.position, stage')
    requires x in l'.after <==> Placed(els[x], ax, After, l'.position, stage')
    requires forall s :: Reached(s, stage') && !Reached(s, stage) ==> EdgeOf(els[x], ax, s) == l'.position
    ensures RegP(v[k := l'], els, ax, x, stage')
  {
    var w := v[k := l'];
    forall j, s, id | 0 <= j < |w| && id in w[j].Of(s)
      ensures id in els && w[j].Of(s)[id] == els[id]
    {
      if j != k {
        assert w[j] == v[j];
      } else if id == x {
        assert w[j] == l';
        if s == Before { assert l'.Of(s) == l'.before; } else { assert l'.Of(s) == l'.after; }
      } else {
        assert w[j] == l';
        if s == Before {
          assert id in l'.before - {x};
          assert (l'.before - {x})[id] == (v[k].before - {x})[id];
          assert id in v[k].Of(s) && v[k].Of(s)[id] == l'.before[id];
        } else {
          assert id in l'.after - {x};
          assert (l'.after - {x})[id] == (v[k].after - {x})[id];
          assert id in v[k].Of(s) && v[k].Of(s)[id] == l'.after[id];
        }
      }
    }
    forall j, s, id | 0 <= j < |w| && id in els
      ensures id in w[j].Of(s) <==> Placed(els[id], ax, s, w[j].position, if id == x then stage' else 2)
    {
      if j != k {
        assert w[j] == v[j];
      } else if id == x {
        assert w[j] == l';
        if s == Before { assert l'.Of(s) == l'.before; } else { assert l'.Of(s) == l'.after; }
      } else {
        assert w[j] == l';
        if s == Before {
          assert (id in l'.before) == (id in l'.before - {x});
          assert (id in v[k].before) == (id in v[k].before - {x});
          assert (id in w[j].Of(s)) == (id in v[k].Of(s));
        } else {
          assert (id in l'.after) == (id in l'.after - {x});
          assert (id in v[k].after) == (id in v[k].after - {x});
          assert (id in w[j].Of(s)) == (id in v[k].Of(s));
        }
      }
    }
    forall id, s | id in els && Reached(s, if id == x then stage' else 2)
      ensures Has(w, EdgeOf(els[id], ax, s))
    {
      if id != x || Reached(s, stage) {
        var j :| 0 <= j < |v| && v[j].position == EdgeOf(els[id], ax, s);
        assert w[j].position == v[j].position;
      } else {
        assert w[k].position == EdgeOf(els[id], ax, s);
      }
    }
  }

  /**
    The identifiers on side `s` of lines `lo .. hi-1` are exactly the
    registered elements of nonzero extent whose `s` edge is at one of those
    lines.
   */
  lemma KeysAreEdges(v: seq<LineVal>, els: map<Id, Elem>, ax: Axis, s: Side, lo: nat, hi: nat)
    requires Reg(v, els, ax) && lo <= hi <= |v|
    ensures forall id :: id in Keys(v, s, lo, hi) ==> id in els && Nondegenerate(els[id], ax)
    ensures forall id, j :: id in els && Nondegenerate(els[id], ax) && lo <= j < hi && v[j].position == EdgeOf(els[id], ax, s)
              ==> id in Keys(v, s, lo, hi)
  {
    KeysMembers(v, s, lo, hi);
    forall id, j | id in els && Nondegenerate(els[id], ax) && lo <= j < hi && v[j].position == EdgeOf(els[id], ax, s)
      ensures id in Keys(v, s, lo, hi)
    {
      assert id in v[j].Of(s);
    }
  }

  /** Every element on side `s` of line `j` has its `s` edge at that line. */
  lemma EntryEdge(v: seq<LineVal>, els: map<Id, Elem>, ax: Axis, s: Side, lo: nat, hi: nat)
    requires Reg(v, els, ax) && lo <= hi <= |v|
    ensures forall id :: id in Keys(v, s, lo, hi) ==>
              id in els && exists j :: lo <= j < hi && v[j].position == EdgeOf(els[id], ax, s)
  {
    KeysMembers(v, s, lo, hi);
    forall id | id in Keys(v, s, lo, hi)
      ensures id in els && exists j :: lo <= j < hi && v[j].position == EdgeOf(els[id], ax, s)
    {
      var j :| lo <= j < hi && id in v[j].Of(s);
      assert v[j].position == EdgeOf(els[id], ax, s);
    }
  }

  /**
    The lines an expanding lower edge scans (from the old stop line `i0`
    down to the new one `k`) hold in BEFORE every element whose upper edge
    lies in `[lo', lo)`, and nothing whose upper edge is at or past `lo`.
   */
  lemma ExpandLowScan(v: seq<LineVal>, els: map<Id, Elem>, ax: Axis, lo: Coord, lo': Coord, i0: nat, k: nat)
    requires Reg(v, els, ax) && AxisOk(v)
    requires LowAt(v, lo, i0) && LowAt(v, lo', k) && Lt(lo', lo)
    ensures k <= i0
    ensures forall id :: id in els && Nondegenerate(els[id], ax) && Le(lo', els[id].range.High(ax)) && Lt(els[id].range.High(ax), lo)
              ==> id in Keys(v, Before, k, i0 + 1)
    ensures forall id :: id in Keys(v, Before, k, i0 + 1) ==> id in els && Lt(els[id].range.High(ax), lo)
  {
    KeysAreEdges(v, els, ax, Before, k, i0 + 1);
    EntryEdge(v, els, ax, Before, k, i0 + 1);
    forall id | id in els && Nondegenerate(els[id], ax) && Le(lo', els[id].range.High(ax)) && Lt(els[id].range.High(ax), lo)
      ensures id in Keys(v, Before, k, i0 + 1)
    {
      var j :| 0 <= j < |v| && v[j].position == EdgeOf(els[id], ax, Before);
      assert k <= j;
    }
    forall id | id in Keys(v, Before, k, i0 + 1)
      ensures Lt(els[id].range.High(ax), lo)
    {
      var j :| k <= j < i0 + 1 && v[j].position == EdgeOf(els[id], ax, Before);
      assert j == i0 || Lt(v[j].position, v[i0].position);
    }
  }

  /**
    The lines a contracting lower edge scans (from `i0` up to the new stop
    line `k`) hold in BEFORE every element whose upper edge lies in
    `[lo, lo')`, and nothing whose upper edge is at or past `lo'`.
   */
  lemma ContractLowScan(v: seq<LineVal>, els: map<Id, Elem>, ax: Axis, lo: Coord, lo': Coord, i0: nat, k: nat)
    requires Reg(v, els, ax) && AxisOk(v)
    requires LowAt(v, lo, i0) && LowAt(v, lo', k) && Lt(lo, lo')
    ensures i0 <= k
    ensures forall id :: id in els && Nondegenerate(els[id], ax) && Le(lo, els[id].range.High(ax)) && Lt(els[id].range.High(ax), lo')
              ==> id in Keys(v, Before, i0, k + 1)
    ensures forall id :: id in Keys(v, Before, i0, k + 1) ==> id in els && Lt(els[id].range.High(ax), lo')
  {
    KeysAreEdges(v, els, ax, Before, i0, k + 1);
    EntryEdge(v, els, ax, Before, i0, k + 1);
    forall id | id in els && Nondegenerate(els[id], ax) && Le(lo, els[id].range.High(ax)) && Lt(els[id].range.High(ax), lo')
      ensures id in Keys(v, Before, i0, k + 1)
    {
      var j :| 0 <= j < |v| && v[j].position == EdgeOf(els[id], ax, Before);
      assert i0 <= j;
    }
    forall id | id in Keys(v, Before, i0, k + 1)
      ensures Lt(els[id].range.High(ax), lo')
    {
      var j :| i0 <= j < k + 1 && v[j].position == EdgeOf(els[id], ax, Before);
      assert j == k || Lt(v[j].position, v[k].position);
    }
  }

  /**
    The lines an expanding upper edge scans (from the old stop line `i0` up
    to the new one `k`) hold in AFTER every element whose lower edge lies in
    `(hi, hi']`, and nothing whose lower edge is at or before `hi`.
   */
  lemma ExpandHighScan(v: seq<LineVal>, els: map<Id, Elem>, ax: Axis, hi: Coord, hi': Coord, i0: nat, k: nat)
    requires Reg(v, els, ax) && AxisOk(v)
    requires HighAt(v, hi, i0) && HighAt(v, hi', k) && Lt(hi, hi')
    ensures i0 <= k
    ensures forall id :: id in els && Nondegenerate(els[id], ax) && Lt(hi, els[id].range.Low(ax)) && Le(els[id].range.Low(ax), hi')
              ==> id in Keys(v, After, i0, k + 1)
    ensures forall id :: id in Keys(v, After, i0, k + 1) ==> id in els && Lt(hi, els[id].range.Low(ax))
  {
    assert Lt(hi, v[i0].position);
    assert i0 <= k;
    KeysAreEdges(v, els, ax, After, i0, k + 1);
    EntryEdge(v, els, ax, After, i0, k + 1);
    forall id | id in els && Nondegenerate(els[id], ax) && Lt(hi, els[id].range.Low(ax)) && Le(els[id].range.Low(ax), hi')
      ensures id in Keys(v, After, i0, k + 1)
    {
      var j :| 0 <= j < |v| && v[j].position == EdgeOf(els[id], ax, After);
      assert j <= k;
    }
    forall id | id in Keys(v, After, i0, k + 1)
      ensures Lt(hi, els[id].range.Low(ax))
    {
      var j :| i0 <= j < k + 1 && v[j].position == EdgeOf(els[id], ax, After);
      assert j == i0 || Lt(v[i0].position, v[j].position);
    }
  }

  /**
    The lines a contracting upper edge scans (from `i0` down to the new stop
    line `k`) hold in AFTER every element whose lower edge lies in
    `(hi', hi]`, and nothing whose lower edge is at or before `hi'`.
   */
  lemma ContractHighScan(v: seq<LineVal>, els: map<Id, Elem>, ax: Axis, hi: Coord, hi': Coord, i0: nat, k: nat)
    requires Reg(v, els, ax) && AxisOk(v)
    requires HighAt(v, hi, i0) && HighAt(v, hi', k) && Lt(hi', hi)
    ensures k <= i0
    ensures forall id :: id in els && Nondegenerate(els[id], ax) && Lt(hi', els[id].range.Low(ax)) && Le(els[id].range.Low(ax), hi)
              ==> id in Keys(v, After, k, i0 + 1)
    ensures forall id :: id in Keys(v, After, k, i0 + 1) ==> id in els && Lt(hi', els[id].range.Low(ax))
  {
    assert Lt(hi', v[k].position);
    assert k <= i0;
    KeysAreEdges(v, els, ax, After, k, i0 + 1);
    EntryEdge(v, els, ax, After, k, i0 + 1);
    forall id | id in els && Nondegenerate(els[id], ax) && Lt(hi', els[id].range.Low(ax)) && Le(els[id].range.Low(ax), hi)
      ensures id in Keys(v, After, k, i0 + 1)
    {
      var j :| 0 <= j < |v| && v[j].position == EdgeOf(els[id], ax, After);
      assert j <= i0;
    }
    forall id | id in Keys(v, After, k, i0 + 1)
      ensures Lt(hi', els[id].range.Low(ax))
    {
      var j :| k <= j < i0 + 1 && v[j].position == EdgeOf(els[id], ax, After);
      assert j == k || Lt(v[k].position, v[j].position);
    }
  }

  /**
    The lines `iterate` visits for an upper bound `end`: the first `n`, all
    at or before `end`, followed (if any remain) by one strictly after it.
   */
  ghost predicate ScannedTo(v: seq<LineVal>, end: Coord, n: nat) {
    n <= |v| && (forall j :: 0 <= j < n ==> Le(v[j].position, end)) && (n < |v| ==> Lt(end, v[n].position))
  }

  /** `iterate`'s start line among the first `n` lines: the last one strictly before `x`, `None` when there is none. */
  ghost predicate StartOf(v: seq<LineVal>, x: Coord, n: nat, o: Option<nat>) {
    n <= |v| &&
    match o
    case None => forall j :: 0 <= j < n ==> Le(x, v[j].position)
    case Some(i) => i < n && Lt(v[i].position, x) && forall j :: i < j < n ==> Le(x, v[j].position)
  }

  /**
    The AFTER entries of the lines `iterate` visits are exactly the elements
    of nonzero extent whose lower edge is at or before `end`.
   */
  lemma IterateScan(v: seq<LineVal>, els: map<Id, Elem>, ax: Axis, end: Coord, n: nat)
    requires Reg(v, els, ax) && AxisOk(v) && ScannedTo(v, end, n)
    ensures forall id :: id in Keys(v, After, 0, n) <==> id in els && Nondegenerate(els[id], ax) && Le(els[id].range.Low(ax), end)
  {
    KeysAreEdges(v, els, ax, After, 0, n);
    EntryEdge(v, els, ax, After, 0, n);
    forall id | id in els && Nondegenerate(els[id], ax) && Le(els[id].range.Low(ax), end)
      ensures id in Keys(v, After, 0, n)
    {
      assert Has(v, EdgeOf(els[id], ax, After));
      var j :| 0 <= j < |v| && v[j].position == els[id].range.Low(ax);
      var m := if n < |v| then n else |v| - 1;
      LeIsTotalOrder(end, v[m].position, v[j].position);
      assert j < n;
    }
  }

  /**
    For a window whose edges on the axis are ordered, the start line and the
    end line `iterate` returns are the cached lines of its two edges.
   */
  lemma IterateCaches(v: seq<LineVal>, x: Coord, end: Coord, n: nat, o: Option<nat>)
    requires AxisOk(v) && Le(x, end) && ScannedTo(v, end, n) && StartOf(v, x, n, o)
    ensures LowCached(v, x, o)
    ensures HighCached(v, end, Some(if n < |v| then n else |v| - 1))
  {
    if o.Some? {
      forall j | o.value < j < |v| ensures Le(x, v[j].position) {
        if j >= n {
          assert j == n || Lt(v[n].position, v[j].position);
          LeIsTotalOrder(x, end, v[n].position);
          LeIsTotalOrder(x, v[n].position, v[j].position);
        }
      }
    } else {
      assert 0 < n;
      assert Le(x, v[0].position);
    }
  }

  /**
    `found` lists the AFTER entries of the first `n` lines of `v`, line by
    line, each entry of a line once: `lineOf[i]` is the line of `found[i]`
    and `order[i]` its key.
   */
  ghost predicate Listing(v: seq<LineVal>, n: nat, found: seq<Elem>, order: seq<Id>, lineOf: seq<nat>) {
    && n <= |v| && |found| == |order| == |lineOf|
    && (forall id :: id in order <==> id in Keys(v, After, 0, n))
    && (forall i :: 0 <= i < |found| ==> lineOf[i] < n && order[i] in v[lineOf[i]].after && found[i] == v[lineOf[i]].after[order[i]])
    && (forall i, i' :: 0 <= i < i' < |found| ==> lineOf[i] <= lineOf[i'] && (lineOf[i] == lineOf[i'] ==> order[i] != order[i']))
  }

  lemma ListingNone(v: seq<LineVal>)
    ensures Listing(v, 0, [], [], [])
  {
  }

  /** Listing the entries of line `n` after those of the lines before it. */
  lemma ListingAppend(v: seq<LineVal>, n: nat, found: seq<Elem>, order: seq<Id>, lineOf: seq<nat>, es: seq<Elem>, ord: seq<Id>)
    requires Listing(v, n, found, order, lineOf) && n < |v|
    requires IsOrdering(ord, v[n].after.Keys) && |es| == |ord|
    requires forall i :: 0 <= i < |es| ==> ord[i] in v[n].after && es[i] == v[n].after[ord[i]]
    ensures Listing(v, n + 1, found + es, order + ord, lineOf + seq(|es|, _ => n))
  {
    KeysExtendUp(v, After, 0, n);
    var f, o, w := found + es, order + ord, lineOf + seq(|es|, _ => n);
    assert forall i :: |found| <= i < |f| ==> f[i] == es[i - |found|] && o[i] == ord[i - |found|] && w[i] == n;
    assert forall id :: id in o <==> id in order || id in ord;
  }

  /** The entries `iterate` lists from registered lines are registered elements under their own ids. */
  lemma ListingRegistered(v: seq<LineVal>, els: map<Id, Elem>, n: nat, found: seq<Elem>, order: seq<Id>, lineOf: seq<nat>)
    requires Recorded(v, els) && Listing(v, n, found, order, lineOf)
    ensures forall i :: 0 <= i < |found| ==> order[i] in els && found[i] == els[order[i]] && found[i].id == order[i]
  {
    forall i | 0 <= i < |found| ensures order[i] in els && found[i] == els[order[i]] && found[i].id == order[i] {
      assert order[i] in v[lineOf[i]].Of(After);
    }
  }
}
