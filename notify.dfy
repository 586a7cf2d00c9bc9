/**
  Notifications an area sends to its callbacks.

  A callback is identified by a `CallbackId` (the source compares callbacks
  by identity). Calling a callback is recorded as an `Event` appended to the
  area's log, so the order and the number of calls can be stated.
 */
module Notify {
  import opened Geometry

  type CallbackId = nat

  /** The arguments of one callback call: ADD, REMOVE or UPDATE. */
  datatype Note =
    | Add(elem: Elem, range: Window)
    | Remove(elem: Elem)
    | Update(elem: Elem, range: Window, previous: Window)

  /** One call of one callback. */
  datatype Event = Event(callback: CallbackId, note: Note)

  /** `callbacks.forEach(callback => callback(...))`: one call per callback, in list order. */
  function Broadcast(cbs: seq<CallbackId>, n: Note): (r: seq<Event>)
    ensures |r| == |cbs|
    ensures forall i :: 0 <= i < |cbs| ==> r[i] == Event(cbs[i], n)
  {
    if cbs == [] then [] else [Event(cbs[0], n)] + Broadcast(cbs[1..], n)
  }

  /** Broadcasting to one more callback appends that callback's call. */
  lemma BroadcastSnoc(cbs: seq<CallbackId>, i: nat, n: Note)
    requires i < |cbs|
    ensures Broadcast(cbs[..i + 1], n) == Broadcast(cbs[..i], n) + [Event(cbs[i], n)]
  {
  }

  /** The events of broadcasting a sequence of notes, one after the other. */
  function Broadcasts(cbs: seq<CallbackId>, notes: seq<Note>): seq<Event> {
    if notes == [] then [] else Broadcast(cbs, notes[0]) + Broadcasts(cbs, notes[1..])
  }

  lemma {:induction false} BroadcastsAppend(cbs: seq<CallbackId>, a: seq<Note>, b: seq<Note>)
    ensures Broadcasts(cbs, a + b) == Broadcasts(cbs, a) + Broadcasts(cbs, b)
  {
    if a == [] {
      assert a + b == b;
    } else {
      assert (a + b)[0] == a[0];
      assert (a + b)[1..] == a[1..] + b;
      BroadcastsAppend(cbs, a[1..], b);
    }
  }

  /** A log extended by the broadcasts of `a` and then of `b` holds the broadcasts of `a + b`. */
  lemma LogThen(l0: seq<Event>, l1: seq<Event>, l2: seq<Event>, cbs: seq<CallbackId>, a: seq<Note>, b: seq<Note>)
    requires l1 == l0 + Broadcasts(cbs, a) && l2 == l1 + Broadcasts(cbs, b)
    ensures l2 == l0 + Broadcasts(cbs, a + b)
  {
    BroadcastsAppend(cbs, a, b);
    AppendAssoc(l0, Broadcasts(cbs, a), Broadcasts(cbs, b));
  }

  lemma AppendAssoc(p: seq<Event>, q: seq<Event>, r: seq<Event>)
    ensures (p + q) + r == p + (q + r)
  {
  }

  lemma BroadcastsOne(cbs: seq<CallbackId>, n: Note)
    ensures Broadcasts(cbs, [n]) == Broadcast(cbs, n)
  {
    assert [n][1..] == [];
  }

  /** Broadcasting to no callback at all records nothing. */
  lemma {:induction false} BroadcastsToNobody(notes: seq<Note>)
    ensures Broadcasts([], notes) == []
  {
    if notes != [] {
      BroadcastsToNobody(notes[1..]);
    }
  }

  /** `callbacks.filter(c => c !== callback)`. */
  function Without(cbs: seq<CallbackId>, c: CallbackId): (r: seq<CallbackId>)
    ensures forall x :: x in r <==> x in cbs && x != c
    ensures |r| <= |cbs|
    ensures c !in cbs ==> r == cbs
  {
    if cbs == [] then []
    else if cbs[0] == c then Without(cbs[1..], c)
    else [cbs[0]] + Without(cbs[1..], c)
  }

  /** Removing a callback keeps the relative order of the others: filtering commutes with concatenation. */
  lemma {:induction false} WithoutAppend(a: seq<CallbackId>, b: seq<CallbackId>, c: CallbackId)
    ensures Without(a + b, c) == Without(a, c) + Without(b, c)
  {
    if a == [] {
      assert a + b == b;
    } else {
      assert (a + b)[0] == a[0];
      assert (a + b)[1..] == a[1..] + b;
      WithoutAppend(a[1..], b, c);
    }
  }

  /** `order` lists every key of `keys` exactly once. */
  ghost predicate IsOrdering(order: seq<Id>, keys: set<Id>) {
    (forall i, j :: 0 <= i < j < |order| ==> order[i] != order[j])
    && (forall id :: id in order <==> id in keys)
  }

  /** A listing of a set without repetition has one entry per element. */
  lemma {:induction false} OrderingSize(order: seq<Id>, keys: set<Id>)
    requires IsOrdering(order, keys)
    ensures |order| == |keys|
  {
    if order != [] {
      var rest := order[1..];
      assert IsOrdering(rest, keys - {order[0]}) by {
        forall id ensures id in rest <==> id in keys - {order[0]} {
          if id in rest {
            var k :| 0 <= k < |rest| && rest[k] == id;
            assert order[k + 1] == id;
          }
          if id in keys - {order[0]} {
            var k :| 0 <= k < |order| && order[k] == id;
            assert k != 0;
            assert rest[k - 1] == id;
          }
        }
      }
      OrderingSize(rest, keys - {order[0]});
    } else {
      assert forall id :: id !in keys;
      assert keys == {};
    }
  }

  /** The ADD replay that `addCallback` sends to the new callback only, one per listed member. */
  function Replay(cb: CallbackId, order: seq<Id>, m: map<Id, Elem>, r: Window): (evs: seq<Event>)
    requires forall id :: id in order ==> id in m
    ensures |evs| == |order|
    ensures forall i :: 0 <= i < |order| ==> evs[i] == Event(cb, Add(m[order[i]], r))
  {
    if order == [] then [] else [Event(cb, Add(m[order[0]], r))] + Replay(cb, order[1..], m, r)
  }

  /** The UPDATE notes that `update` sends, one per listed member, with the new and the previous window. */
  function Updates(order: seq<Id>, m: map<Id, Elem>, r: Window, previous: Window): (ns: seq<Note>)
    requires forall id :: id in order ==> id in m
    ensures |ns| == |order|
    ensures forall i :: 0 <= i < |order| ==> ns[i] == Update(m[order[i]], r, previous)
  {
    if order == [] then [] else [Update(m[order[0]], r, previous)] + Updates(order[1..], m, r, previous)
  }

  /** Every ADD among `notes` carries the window `w`. */
  ghost predicate AddsCarry(notes: seq<Note>, w: Window) {
    forall i :: 0 <= i < |notes| && notes[i].Add? ==> notes[i].range == w
  }

  /** `notes` extends `notes0`, and every ADD sent since then carries the window `w`. */
  ghost predicate SentSince(notes0: seq<Note>, notes: seq<Note>, w: Window) {
    notes0 <= notes && AddsCarry(notes[|notes0|..], w)
  }

  lemma SentSinceNone(notes: seq<Note>, w: Window)
    ensures SentSince(notes, notes, w)
  {
  }

  /** Notes sent after notes sent, all with the same window. */
  lemma SentSinceTrans(a: seq<Note>, b: seq<Note>, c: seq<Note>, w: Window)
    requires SentSince(a, b, w) && SentSince(b, c, w)
    ensures SentSince(a, c, w)
  {
    forall i | 0 <= i < |c| - |a| && c[|a|..][i].Add? ensures c[|a|..][i].range == w {
      if |a| + i < |b| {
        assert c[|a|..][i] == b[|a|..][i];
      } else {
        assert c[|a|..][i] == c[|b|..][|a| + i - |b|];
      }
    }
  }

  /** Sending `step`, whose ADDs carry `w`. */
  lemma SentSinceStep(notes0: seq<Note>, step: seq<Note>, w: Window)
    requires AddsCarry(step, w)
    ensures SentSince(notes0, notes0 + step, w)
  {
    assert (notes0 + step)[|notes0|..] == step;
  }

  /** The notes sent since `a` are the suffix that follows it. */
  lemma SentSinceSplit(a: seq<Note>, b: seq<Note>, w: Window)
    requires SentSince(a, b, w)
    ensures b == a + b[|a|..] && AddsCarry(b[|a|..], w)
  {
  }
}
