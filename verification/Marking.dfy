/** Marking one object and what it leads to at once (lgc.cpp, reallymarkobject and the
    markvalue and markobject macros). */
module Marking {
  import opened Common
  import opened Heap

  /** The part of the collector's state that marking changes. */
  datatype Marks = Marks(color: Colors, gray: seq<Id>)

  predicate IsWhite(c: Colors, o: Id) {
    o in c && c[o].White?
  }

  ghost function Whites(c: Colors): set<Id> {
    set o | o in c && c[o].White?
  }

  /** Objects that wait in a gray list to be traversed. */
  predicate Traversable(o: Object) {
    o.Closure? || o.Proto? || o.Table? || o.Thread?
  }

  ghost predicate Shrinks(m: Marks, r: Marks) {
    && r.color.Keys == m.color.Keys
    && Whites(r.color) <= Whites(m.color)
    && (Whites(r.color) == Whites(m.color) ==> r == m)
  }

  function MarkObject(h: Objects, m: Marks, o: Id): (r: Marks)
    requires o in h && IsWhite(m.color, o)
    ensures Shrinks(m, r) && !IsWhite(r.color, o)
    decreases Whites(m.color), 0
  {
    var m1 := m.(color := m.color[o := Gray]);
    assert o in Whites(m.color) && Whites(m1.color) == Whites(m.color) - {o};
    match h[o]
    case Str => m1
    case Udata(meta, env) =>
      var m2 := m1.(color := m1.color[o := Black]);
      assert Whites(m2.color) == Whites(m1.color);
      MarkValue(h, MarkValue(h, m2, meta), env)
    case OpenUpval(thread, slot) => MarkValue(h, m1, StackValue(h, thread, slot))
    case ClosedUpval(value) =>
      var m2 := MarkValue(h, m1, value);
      m2.(color := m2.color[o := Black])
    case _ => m1.(gray := [o] + m1.gray)
  }

  function MarkValue(h: Objects, m: Marks, v: Value): (r: Marks)
    ensures Shrinks(m, r)
    ensures v.Ref? && v.o in h ==> !IsWhite(r.color, v.o)
    decreases Whites(m.color), 1
  {
    if v.Ref? && v.o in h && IsWhite(m.color, v.o) then MarkObject(h, m, v.o) else m
  }

  function MarkAll(h: Objects, m: Marks, vs: seq<Value>): (r: Marks)
    ensures Shrinks(m, r)
    ensures forall v :: v in vs && v.Ref? && v.o in h ==> !IsWhite(r.color, v.o)
    decreases |vs|
  {
    if vs == [] then m
    else
      var m1 := MarkValue(h, m, vs[0]);
      assert forall o :: !IsWhite(m1.color, o) && o in m1.color ==> o !in Whites(m1.color);
      MarkAll(h, m1, vs[1..])
  }

  // ---------- What marking does ----------

  ghost predicate RefsMarked(h: Objects, c: Colors, o: Id)
    requires o in h
  {
    forall r :: r in AllRefs(h, o) && r in h ==> !IsWhite(c, r)
  }

  /** How marking leaves an object it has turned from white: a leaf gray, an object with direct
      references black with those marked, an open upvalue gray with its value marked, and any
      other gray and listed. */
  ghost predicate Reached(h: Objects, m: Marks, o: Id)
    requires o in h && o in m.color
  {
    if Traversable(h[o]) then m.color[o] == Gray && o in m.gray
    else
      && RefsMarked(h, m.color, o)
      && m.color[o] == (if h[o].Udata? || h[o].ClosedUpval? then Black else Gray)
  }

  /** `r` continues the marking `m`: colours of marked objects stay, newly marked objects are
      `Reached`, and the gray list only got new members that were white before, each once. */
  ghost predicate Continues(h: Objects, m: Marks, r: Marks) {
    && r.color.Keys == m.color.Keys
    && (forall o :: o in m.color && !m.color[o].White? ==> r.color[o] == m.color[o])
    && (forall o :: o in h && IsWhite(m.color, o) && !IsWhite(r.color, o) ==> Reached(h, r, o))
    && (forall o :: IsWhite(m.color, o) && IsWhite(r.color, o) ==> r.color[o] == m.color[o])
    && (forall o :: o in m.gray ==> o in r.gray)
    && (forall o :: o in r.gray && o !in m.gray ==> Pushed(h, m, r, o))
    && (GrayOnce(m) ==> GrayOnce(r))
  }

  ghost predicate Pushed(h: Objects, m: Marks, r: Marks, o: Id) {
    o in h && Traversable(h[o]) && IsWhite(m.color, o) && !IsWhite(r.color, o)
  }

  ghost predicate GrayOnce(m: Marks) {
    NoRepeats(m.gray) && forall o :: o in m.gray ==> !IsWhite(m.color, o)
  }

  lemma ContinuesTransitive(h: Objects, m: Marks, n: Marks, r: Marks)
    requires Continues(h, m, n) && Continues(h, n, r)
    ensures Continues(h, m, r)
  {
    forall o | o in h && IsWhite(m.color, o) && !IsWhite(r.color, o)
      ensures Reached(h, r, o)
    {
      if !IsWhite(n.color, o) {
        assert Reached(h, n, o);
      }
    }
    forall o | o in r.gray && o !in m.gray
      ensures Pushed(h, m, r, o)
    {
      if o in n.gray {
        assert Pushed(h, m, n, o);
      } else {
        assert Pushed(h, n, r, o);
      }
    }
  }

  lemma ContinuesItself(h: Objects, m: Marks)
    ensures Continues(h, m, m)
  {
  }

  lemma {:induction false} MarkObjectContinues(h: Objects, m: Marks, o: Id)
    requires o in h && IsWhite(m.color, o)
    ensures Continues(h, m, MarkObject(h, m, o))
    decreases Whites(m.color), 0
  {
    hide Continues, Reached, MarkValue, StackValue;
    var m1 := m.(color := m.color[o := Gray]);
    assert o in Whites(m.color) && Whites(m1.color) == Whites(m.color) - {o};
    match h[o]
    case Str =>
      ContinuesItself(h, m1);
      DirectContinues(h, m, m1, o, Gray, Gray);
      assert m1.color[o := Gray] == m1.color;
    case Udata(meta, env) =>
      var m2 := m1.(color := m1.color[o := Black]);
      assert Whites(m2.color) == Whites(m1.color) && m2.color == m.color[o := Black];
      var m3 := MarkValue(h, m2, meta);
      var n := MarkValue(h, m3, env);
      MarkValueContinues(h, m2, meta);
      MarkValueContinues(h, m3, env);
      ContinuesTransitive(h, m2, m3, n);
      DirectContinues(h, m, n, o, Black, Black);
      assert n.color[o := Black] == n.color;
    case OpenUpval(thread, slot) =>
      var n := MarkValue(h, m1, StackValue(h, thread, slot));
      MarkValueContinues(h, m1, StackValue(h, thread, slot));
      DirectContinues(h, m, n, o, Gray, Gray);
      assert n.color[o := Gray] == n.color;
    case ClosedUpval(value) =>
      var n := MarkValue(h, m1, value);
      MarkValueContinues(h, m1, value);
      DirectContinues(h, m, n, o, Gray, Black);
    case _ => PushOne(h, m, o);
  }

  /** An object that is followed when marked, once the values it holds are marked. */
  lemma DirectContinues(h: Objects, m: Marks, n: Marks, o: Id, before: Color, after: Color)
    requires o in h && IsWhite(m.color, o) && !Traversable(h[o])
    requires !before.White? && after == (if h[o].Udata? || h[o].ClosedUpval? then Black else Gray)
    requires Continues(h, m.(color := m.color[o := before]), n)
    requires forall v :: v in Values(h, h[o], STRONG) && v.Ref? && v.o in h ==> !IsWhite(n.color, v.o)
    ensures Continues(h, m, n.(color := n.color[o := after]))
  {
    ContinuesAfter(h, m, n, o, before, after);
  }

  lemma PushOne(h: Objects, m: Marks, o: Id)
    requires o in h && IsWhite(m.color, o) && Traversable(h[o])
    ensures Continues(h, m, Marks(m.color[o := Gray], [o] + m.gray))
  {
  }

  lemma StillReached(h: Objects, n: Marks, o: Id, after: Color, x: Id)
    requires x in h && x in n.color && Reached(h, n, x) && x != o && !after.White?
    ensures Reached(h, n.(color := n.color[o := after]), x)
  {
    hide AllRefs;
  }

  /** Recolouring `o`, then marking what it leads to, then recolouring it again. */
  lemma ContinuesAfter(h: Objects, m: Marks, n: Marks, o: Id, before: Color, after: Color)
    requires o in h && IsWhite(m.color, o) && !Traversable(h[o])
    requires !before.White? && !after.White?
    requires Continues(h, m.(color := m.color[o := before]), n)
    requires o in n.color && Reached(h, n.(color := n.color[o := after]), o)
    ensures Continues(h, m, n.(color := n.color[o := after]))
  {
    hide AllRefs, NoRepeats, Reached, Traversable, GrayOnce, Pushed;
    var r := n.(color := n.color[o := after]);
    GrayOnceAfter(h, m, n, o, before, after);
    forall x | x in h && IsWhite(m.color, x) && !IsWhite(r.color, x)
      ensures Reached(h, r, x)
    {
      if x != o {
        assert Reached(h, n, x);
        StillReached(h, n, o, after, x);
      }
    }
    forall x | x in r.gray && x !in m.gray
      ensures Pushed(h, m, r, x)
    {
      PushedAfter(h, m, n, o, before, after, x);
    }
  }

  lemma PushedAfter(h: Objects, m: Marks, n: Marks, o: Id, before: Color, after: Color, x: Id)
    requires Pushed(h, m.(color := m.color[o := before]), n, x) && !before.White? && !after.White?
    ensures Pushed(h, m, n.(color := n.color[o := after]), x)
  {
  }

  lemma GrayOnceAfter(h: Objects, m: Marks, n: Marks, o: Id, before: Color, after: Color)
    requires o in h && IsWhite(m.color, o) && !before.White? && !after.White? && o in n.color
    requires Continues(h, m.(color := m.color[o := before]), n)
    ensures GrayOnce(m) ==> GrayOnce(n.(color := n.color[o := after]))
  {
    hide Reached, Pushed, NoRepeats;
  }

  lemma {:induction false} MarkValueContinues(h: Objects, m: Marks, v: Value)
    ensures Continues(h, m, MarkValue(h, m, v))
    decreases Whites(m.color), 1
  {
    if v.Ref? && v.o in h && IsWhite(m.color, v.o) {
      MarkObjectContinues(h, m, v.o);
    }
  }

  lemma {:induction false} MarkAllContinues(h: Objects, m: Marks, vs: seq<Value>)
    ensures Continues(h, m, MarkAll(h, m, vs))
    decreases |vs|
  {
    if vs != [] {
      var m1 := MarkValue(h, m, vs[0]);
      MarkValueContinues(h, m, vs[0]);
      MarkAllContinues(h, m1, vs[1..]);
      ContinuesTransitive(h, m, m1, MarkAll(h, m1, vs[1..]));
    }
  }

  lemma {:induction false} MarkAllAppend(h: Objects, m: Marks, a: seq<Value>, b: seq<Value>)
    ensures MarkAll(h, m, a + b) == MarkAll(h, MarkAll(h, m, a), b)
    decreases |a|
  {
    if a == [] {
      assert a + b == b;
    } else {
      assert (a + b)[1..] == a[1..] + b;
      MarkAllAppend(h, MarkValue(h, m, a[0]), a[1..], b);
    }
  }

  // ---------- Marking marks nothing else ----------

  /** `s` is closed under the references of the objects that are followed when marked. */
  ghost predicate ClosedForMarking(h: Objects, s: set<Id>) {
    forall o :: o in s && o in h && !Traversable(h[o]) ==> AllRefs(h, o) <= s
  }

  ghost predicate Within(m: Marks, r: Marks, s: set<Id>) {
    forall o :: IsWhite(m.color, o) && !IsWhite(r.color, o) ==> o in s
  }

  lemma {:induction false} MarkObjectWithin(h: Objects, m: Marks, o: Id, s: set<Id>)
    requires o in h && IsWhite(m.color, o) && o in s && ClosedForMarking(h, s)
    ensures Within(m, MarkObject(h, m, o), s)
    decreases Whites(m.color), 0
  {
    var m1 := m.(color := m.color[o := Gray]);
    assert o in Whites(m.color) && Whites(m1.color) == Whites(m.color) - {o};
    match h[o]
    case Udata(meta, env) =>
      var m2 := m1.(color := m1.color[o := Black]);
      assert Whites(m2.color) == Whites(m1.color);
      assert Values(h, h[o], STRONG) == [meta, env];
      MarkValueWithin(h, m2, meta, s);
      MarkValueWithin(h, MarkValue(h, m2, meta), env, s);
    case OpenUpval(thread, slot) =>
      MarkValueWithin(h, m1, StackValue(h, thread, slot), s);
    case ClosedUpval(value) =>
      MarkValueWithin(h, m1, value, s);
    case _ =>
  }

  lemma {:induction false} MarkValueWithin(h: Objects, m: Marks, v: Value, s: set<Id>)
    requires ClosedForMarking(h, s) && (v.Ref? ==> v.o in s)
    ensures Within(m, MarkValue(h, m, v), s)
    decreases Whites(m.color), 1
  {
    if v.Ref? && v.o in h && IsWhite(m.color, v.o) {
      MarkObjectWithin(h, m, v.o, s);
    }
  }

  lemma {:induction false} MarkAllWithin(h: Objects, m: Marks, vs: seq<Value>, s: set<Id>)
    requires ClosedForMarking(h, s) && Targets(vs) <= s
    ensures Within(m, MarkAll(h, m, vs), s)
    decreases |vs|
  {
    if vs != [] {
      var m1 := MarkValue(h, m, vs[0]);
      MarkValueWithin(h, m, vs[0], s);
      assert Targets(vs[1..]) <= Targets(vs);
      MarkAllWithin(h, m1, vs[1..], s);
    }
  }
}
