/**
  What an area's membership map means, and how the edge scans of
  `Area.update` change it.

  `els` is always the map of registered elements by identifier.
 */
module Membership {
  import opened Geometry
  import opened Notify

  /** Every member is a registered element, stored under its own identifier. */
  ghost predicate Consistent(m: map<Id, Elem>, els: map<Id, Elem>) {
    forall id :: id in m ==> id in els && m[id] == els[id]
  }

  /** The answer of a one-shot query: the registered elements with nonzero width that intersect `w`. */
  function Batch(els: map<Id, Elem>, w: Window): (m: map<Id, Elem>)
    ensures Consistent(m, els)
    ensures forall id :: id in m <==> id in els && Nondegenerate(els[id], Vertical) && Intersects(els[id].range, w)
  {
    map id | id in els && Nondegenerate(els[id], Vertical) && Intersects(els[id].range, w) :: els[id]
  }

  /** A membership holding registered elements with exactly the ids of the batch answer is the batch answer. */
  lemma BatchOf(m: map<Id, Elem>, els: map<Id, Elem>, w: Window)
    requires Consistent(m, els)
    requires forall id :: id in m <==> id in els && Nondegenerate(els[id], Vertical) && Intersects(els[id].range, w)
    ensures m == Batch(els, w)
  {
  }

  /** Every registered element has nonzero extent on both axes. */
  ghost predicate AllNondegenerate(els: map<Id, Elem>) {
    forall id :: id in els ==> Nondegenerate(els[id], Vertical) && Nondegenerate(els[id], Horizontal)
  }

  /** Identifiers a sequence of notes is about. */
  ghost function NoteIds(notes: seq<Note>): set<Id> {
    set i | 0 <= i < |notes| :: notes[i].elem.id
  }

  /**
    `notes` is exactly the membership change from `m0` to `m1` while the
    area moves to window `n`: each note is an ADD of a new member that
    intersects `n` or a REMOVE of a former member that does not, no element
    is notified twice, every element whose membership changed is notified,
    and members that stayed kept their value.
   */
  ghost predicate Delta(notes: seq<Note>, m0: map<Id, Elem>, m1: map<Id, Elem>, n: Window, els: map<Id, Elem>) {
    && (forall i :: 0 <= i < |notes| ==> notes[i].Add? || notes[i].Remove?)
    && (forall i :: 0 <= i < |notes| ==> notes[i].elem.id in els && els[notes[i].elem.id] == notes[i].elem)
    && (forall i :: 0 <= i < |notes| && notes[i].Add? ==>
          Intersects(notes[i].elem.range, n) && notes[i].elem.id !in m0 && notes[i].elem.id in m1)
    && (forall i :: 0 <= i < |notes| && notes[i].Remove? ==>
          !Intersects(notes[i].elem.range, n) && notes[i].elem.id in m0 && notes[i].elem.id !in m1)
    && (forall i, j :: 0 <= i < j < |notes| ==> notes[i].elem.id != notes[j].elem.id)
    && (forall id :: (id in m0) != (id in m1) ==> id in NoteIds(notes))
    && (forall id :: id in m0 && id in m1 ==> m0[id] == m1[id])
  }

  lemma DeltaNone(m: map<Id, Elem>, n: Window, els: map<Id, Elem>)
    ensures Delta([], m, m, n, els)
  {
  }

  /** Two successive changes toward the same window compose into one: nothing is added and then removed. */
  lemma DeltaThen(a: seq<Note>, b: seq<Note>, m0: map<Id, Elem>, m1: map<Id, Elem>, m2: map<Id, Elem>,
                  n: Window, els: map<Id, Elem>)
    requires Delta(a, m0, m1, n, els) && Delta(b, m1, m2, n, els)
    ensures Delta(a + b, m0, m2, n, els)
  {
    var ab := a + b;
    // an element noted in the first change is not noted in the second
    forall i, j | 0 <= i < |a| && 0 <= j < |b|
      ensures a[i].elem.id != b[j].elem.id
    {
      var x, y := a[i].elem, b[j].elem;
      assert els[x.id] == x && els[y.id] == y;
      if a[i].Add? {
        assert x.id in m1 && Intersects(x.range, n);
      } else {
        assert x.id !in m1 && !Intersects(x.range, n);
      }
    }
    forall id | id in NoteIds(b) ensures id !in NoteIds(a) {
      var j :| 0 <= j < |b| && b[j].elem.id == id;
      forall i | 0 <= i < |a| ensures a[i].elem.id != id {
        assert a[i].elem.id != b[j].elem.id;
      }
    }
    forall id | id in NoteIds(a) ensures (id in m1) == (id in m2) {
      assert id !in NoteIds(b);
    }
    forall id | (id in m0) != (id in m2) ensures id in NoteIds(ab) {
      if (id in m0) != (id in m1) {
        var i :| 0 <= i < |a| && a[i].elem.id == id;
        assert ab[i] == a[i];
      } else {
        var j :| 0 <= j < |b| && b[j].elem.id == id;
        assert ab[|a| + j] == b[j];
      }
    }
    forall i | 0 <= i < |ab| && ab[i].Add?
      ensures ab[i].elem.id !in m0 && ab[i].elem.id in m2
    {
      if i < |a| {
        assert ab[i] == a[i];
        assert a[i].elem.id in NoteIds(a);
      } else {
        assert ab[i] == b[i - |a|];
        assert b[i - |a|].elem.id in NoteIds(b);
        assert (b[i - |a|].elem.id in m0) == (b[i - |a|].elem.id in m1);
      }
    }
    forall i | 0 <= i < |ab| && ab[i].Remove?
      ensures ab[i].elem.id in m0 && ab[i].elem.id !in m2
    {
      if i < |a| {
        assert ab[i] == a[i];
        assert a[i].elem.id in NoteIds(a);
      } else {
        assert ab[i] == b[i - |a|];
        assert b[i - |a|].elem.id in NoteIds(b);
        assert (b[i - |a|].elem.id in m0) == (b[i - |a|].elem.id in m1);
      }
    }
    forall i, j | 0 <= i < j < |ab| ensures ab[i].elem.id != ab[j].elem.id {
      if j < |a| {
        assert ab[i] == a[i] && ab[j] == a[j];
      } else if i >= |a| {
        assert ab[i] == b[i - |a|] && ab[j] == b[j - |a|];
      } else {
        assert ab[i] == a[i] && ab[j] == b[j - |a|];
      }
    }
    forall id | id in m0 && id in m2 ensures m0[id] == m2[id] {
      if id !in m1 {
        assert false;
      }
    }
  }

  /**
    One `checkElement` of a registered element against `n` extends a change:
    a new member that intersects is added (ADD), a member that does not is
    removed (REMOVE), anything else is left alone without a note.
   */
  lemma CheckStep(notes: seq<Note>, step: seq<Note>, m0: map<Id, Elem>, m: map<Id, Elem>, m': map<Id, Elem>,
                  e: Elem, r: Window, n: Window, els: map<Id, Elem>)
    requires Delta(notes, m0, m, n, els) && e.id in els && els[e.id] == e
    requires Intersects(e.range, n) ==>
               m' == m[e.id := if e.id in m then m[e.id] else e] && step == if e.id in m then [] else [Add(e, r)]
    requires !Intersects(e.range, n) ==> m' == m - {e.id} && step == if e.id in m then [Remove(e)] else []
    ensures Delta(notes + step, m0, m', n, els)
  {
    if step == [] {
      assert m' == m;
      assert notes + step == notes;
    } else {
      assert |step| == 1 && step[0].elem == e;
      assert NoteIds(step) == {e.id} by {
        assert step[0].elem.id in NoteIds(step);
      }
      assert Delta(step, m, m', n, els);
      DeltaThen(notes, step, m0, m, m', n, els);
    }
  }

  /**
    Membership after the registered elements `done` have been checked
    against `n`: those are members exactly when they intersect `n`, every
    other identifier kept its membership, and members are registered.
   */
  ghost predicate Rechecked(m0: map<Id, Elem>, m: map<Id, Elem>, done: set<Id>, n: Window, els: map<Id, Elem>) {
    && Consistent(m, els) && done <= els.Keys
    && forall id :: id in m <==> if id in done then Intersects(els[id].range, n) else id in m0
  }

  lemma RecheckedNone(m: map<Id, Elem>, n: Window, els: map<Id, Elem>)
    requires Consistent(m, els)
    ensures Rechecked(m, m, {}, n, els)
  {
  }

  /** One more `checkElement` of a registered element. */
  lemma RecheckedStep(m0: map<Id, Elem>, m: map<Id, Elem>, m': map<Id, Elem>, done: set<Id>,
                      e: Elem, n: Window, els: map<Id, Elem>)
    requires Rechecked(m0, m, done, n, els) && e.id in els && els[e.id] == e
    requires Intersects(e.range, n) ==> m' == m[e.id := if e.id in m then m[e.id] else e]
    requires !Intersects(e.range, n) ==> m' == m - {e.id}
    ensures Rechecked(m0, m', done + {e.id}, n, els)
  {
  }

  /**
    The invariant of `Area.update` between two edge steps, where `w` is the
    window the steps so far have reached and `n` the target window: every
    element inside both windows is a member, and every member is inside one
    of them.
   */
  ghost predicate BetweenSteps(m: map<Id, Elem>, els: map<Id, Elem>, w: Window, n: Window) {
    && Consistent(m, els)
    && (forall id :: id in els && Intersects(els[id].range, w) && Intersects(els[id].range, n) ==> id in m)
    && (forall id :: id in m ==> Intersects(els[id].range, w) || Intersects(els[id].range, n))
  }

  /** Before the first step the membership is the batch answer for the old window. */
  lemma BetweenStepsStart(m: map<Id, Elem>, els: map<Id, Elem>, w: Window, n: Window)
    requires AllNondegenerate(els) && m == Batch(els, w)
    ensures BetweenSteps(m, els, w, n)
  {
  }

  /** After the last step (`w == n`) the membership is the batch answer for the new window. */
  lemma BetweenStepsEnd(m: map<Id, Elem>, els: map<Id, Elem>, n: Window)
    requires AllNondegenerate(els) && BetweenSteps(m, els, n, n)
    ensures m == Batch(els, n)
  {
  }

  /**
    An expanding lower edge (left or top moves from `w.Low(ax)` down to `v`):
    the scanned elements `s` are at least those whose upper edge lies in
    `[v, w.Low(ax))` and at most those whose upper edge is below `w.Low(ax)`;
    each of them is re-checked against `n`, every other element keeps its
    membership.
   */
  lemma ExpandLowKeepsBetweenSteps(m: map<Id, Elem>, m': map<Id, Elem>, els: map<Id, Elem>, w: Window, n: Window,
                           ax: Axis, s: set<Id>)
    requires AllNondegenerate(els) && BetweenSteps(m, els, w, n) && Consistent(m', els)
    requires Lt(n.Low(ax), w.Low(ax))
    requires forall id :: id in els && Nondegenerate(els[id], ax) && Le(n.Low(ax), els[id].range.High(ax)) && Lt(els[id].range.High(ax), w.Low(ax)) ==> id in s
    requires forall id :: id in s ==> id in els && Lt(els[id].range.High(ax), w.Low(ax))
    requires forall id :: id in m' <==> if id in s then Intersects(els[id].range, n) else id in m
    ensures BetweenSteps(m', els, w.WithLow(ax, n.Low(ax)), n)
  {
    var w' := w.WithLow(ax, n.Low(ax));
    forall id | id in els && Intersects(els[id].range, w') && Intersects(els[id].range, n)
      ensures id in m'
    {
      if id !in s {
        assert Intersects(els[id].range, w);
      }
    }
  }

  /**
    A contracting lower edge (left or top moves from `w.Low(ax)` up to `v`):
    the removed elements `s` are at least those whose upper edge lies in
    `[w.Low(ax), v)` and at most those whose upper edge is below `v`.
   */
  lemma ContractLowKeepsBetweenSteps(m: map<Id, Elem>, m': map<Id, Elem>, els: map<Id, Elem>, w: Window, n: Window,
                             ax: Axis, s: set<Id>)
    requires AllNondegenerate(els) && BetweenSteps(m, els, w, n)
    requires Lt(w.Low(ax), n.Low(ax))
    requires forall id :: id in els && Nondegenerate(els[id], ax) && Le(w.Low(ax), els[id].range.High(ax)) && Lt(els[id].range.High(ax), n.Low(ax)) ==> id in s
    requires forall id :: id in s ==> id in els && Lt(els[id].range.High(ax), n.Low(ax))
    requires m' == m - s
    ensures BetweenSteps(m', els, w.WithLow(ax, n.Low(ax)), n)
  {
  }

  /** An expanding upper edge (right or bottom moves from `w.High(ax)` up to `v`). */
  lemma ExpandHighKeepsBetweenSteps(m: map<Id, Elem>, m': map<Id, Elem>, els: map<Id, Elem>, w: Window, n: Window,
                            ax: Axis, s: set<Id>)
    requires AllNondegenerate(els) && BetweenSteps(m, els, w, n) && Consistent(m', els)
    requires Lt(w.High(ax), n.High(ax))
    requires forall id :: id in els && Nondegenerate(els[id], ax) && Lt(w.High(ax), els[id].range.Low(ax)) && Le(els[id].range.Low(ax), n.High(ax)) ==> id in s
    requires forall id :: id in s ==> id in els && Lt(w.High(ax), els[id].range.Low(ax))
    requires forall id :: id in m' <==> if id in s then Intersects(els[id].range, n) else id in m
    ensures BetweenSteps(m', els, w.WithHigh(ax, n.High(ax)), n)
  {
    var w' := w.WithHigh(ax, n.High(ax));
    forall id | id in els && Intersects(els[id].range, w') && Intersects(els[id].range, n)
      ensures id in m'
    {
      if id !in s {
        assert Intersects(els[id].range, w);
      }
    }
  }

  /** A contracting upper edge (right or bottom moves from `w.High(ax)` down to `v`). */
  lemma ContractHighKeepsBetweenSteps(m: map<Id, Elem>, m': map<Id, Elem>, els: map<Id, Elem>, w: Window, n: Window,
                              ax: Axis, s: set<Id>)
    requires AllNondegenerate(els) && BetweenSteps(m, els, w, n)
    requires Lt(n.High(ax), w.High(ax))
    requires forall id :: id in els && Nondegenerate(els[id], ax) && Lt(n.High(ax), els[id].range.Low(ax)) && Le(els[id].range.Low(ax), w.High(ax)) ==> id in s
    requires forall id :: id in s ==> id in els && Lt(n.High(ax), els[id].range.Low(ax))
    requires m' == m - s
    ensures BetweenSteps(m', els, w.WithHigh(ax, n.High(ax)), n)
  {
  }
}
