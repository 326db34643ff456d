/** The mark phase keeps the tricolour invariant, and ends (lgc.cpp, propagatemark and
    propagateall). */
module Propagation {
  import opened Common
  import opened Heap
  import opened Marking
  import opened Collector

  ghost predicate MarkInv(g: State, pending: set<Id>) {
    Listed(g) && ColorsFit(g) && Tricolor(g, pending)
  }

  /** What marking steps never undo. */
  ghost predicate Advances(g: State, g': State) {
    && SameRefs(g.heap, g'.heap)
    && g'.color.Keys == g.color.Keys
    && Whites(g'.color) <= Whites(g.color)
    && (forall o :: o in g.weak ==> o in g'.weak)
    && (forall o :: o in g.grayAgain ==> o in g'.grayAgain)
  }

  /** The parts of the state that marking does not touch. */
  ghost predicate SameLists(g: State, g': State) {
    g' == g.(heap := g'.heap, color := g'.color, gray := g'.gray, grayAgain := g'.grayAgain, weak := g'.weak)
  }

  lemma MarkInKeeps(g: State, vs: seq<Value>, pending: set<Id>)
    requires MarkInv(g, pending)
    ensures MarkInv(MarkIn(g, vs), pending) && Advances(g, MarkIn(g, vs))
    ensures Continues(g.heap, Marks(g.color, g.gray), MarkAll(g.heap, Marks(g.color, g.gray), vs))
  {
    hide GrayOnce, GrayListed;
    var m := Marks(g.color, g.gray);
    var r := MarkAll(g.heap, m, vs);
    var g' := MarkIn(g, vs);
    MarkAllContinues(g.heap, m, vs);
    assert forall o :: IsWhite(g'.color, o) ==> o in Whites(g.color);
    MarkInListed(g, vs);
    forall o | o in g'.heap && o in g'.color && !g'.color[o].White?
      ensures o in g'.gray || o in pending || Settled(g', o)
      ensures ColorFits(g'.heap[o], g'.color[o])
    {
      if g.color[o].White? {
        assert Reached(g.heap, r, o);
      } else if o !in g.gray && o !in pending {
        assert Settled(g, o);
        SettledStays(g, g', o);
      }
    }
  }

  lemma MarkInListed(g: State, vs: seq<Value>)
    requires Listed(g)
    requires Continues(g.heap, Marks(g.color, g.gray), MarkAll(g.heap, Marks(g.color, g.gray), vs))
    ensures Listed(MarkIn(g, vs))
  {
    var m := Marks(g.color, g.gray);
    var r := MarkAll(g.heap, m, vs);
    assert GrayOnce(m);
    forall o | o in r.gray
      ensures o in g.heap && Traversable(g.heap[o]) && r.color[o] == Gray && o !in g.grayAgain && o !in g.weak
    {
      if o !in m.gray {
        assert Pushed(g.heap, m, r, o);
        assert Reached(g.heap, r, o);
      }
    }
  }

  /** Everything a list of values refers to is marked by `MarkIn`. */
  lemma MarkInMarks(g: State, vs: seq<Value>)
    ensures forall r :: r in Targets(vs) && r in g.heap ==> !IsWhite(MarkIn(g, vs).color, r)
  {
  }

  /** One step of the mark phase. */
  lemma PropagateMarkKeeps(g: State, pending: set<Id>)
    requires MarkInv(g, pending) && g.gray != []
    ensures g.gray[0] in g.heap
    ensures MarkInv(PropagateMark(g), pending) && Advances(g, PropagateMark(g))
  {
    var o := g.gray[0];
    assert o in g.gray && forall x :: x in g.gray[1..] ==> x in g.gray && x != o;
    if g.heap[o].Table? {
      VisitTable(g, pending);
    } else {
      VisitValues(g, pending);
    }
  }

  /** Taking `o` off the gray list makes it pending. */
  ghost function Popped(g: State): State
    requires g.gray != []
  {
    g.(gray := g.gray[1..], color := g.color[g.gray[0] := Black])
  }

  /** The same, with a thread moved to the list for the atomic phase. */
  ghost function Taken(g: State): State
    requires g.gray != [] && g.gray[0] in g.heap
  {
    var o := g.gray[0];
    if g.heap[o].Thread? then Popped(g).(grayAgain := [o] + g.grayAgain, color := g.color[o := Gray]) else Popped(g)
  }

  lemma PopListed(g: State)
    requires Listed(g) && ColorsFit(g) && g.gray != []
    ensures g.gray[0] in g.heap && Listed(Taken(g)) && ColorsFit(Taken(g))
  {
    var o := g.gray[0];
    assert o in g.gray;
    TailFacts(g.gray);
    var g1 := Taken(g);
    assert g1.gray == g.gray[1..];
    if g.heap[o].Thread? {
      assert g1.grayAgain == [o] + g.grayAgain && NoRepeats(g1.grayAgain);
      assert forall x :: x in g1.grayAgain ==> x == o || x in g.grayAgain;
    }
  }

  lemma TailFacts(s: seq<Id>)
    requires NoRepeats(s) && s != []
    ensures NoRepeats(s[1..]) && forall x :: x in s[1..] ==> x in s && x != s[0]
  {
  }

  lemma PopKeeps(g: State, pending: set<Id>)
    requires MarkInv(g, pending) && g.gray != []
    ensures g.gray[0] in g.heap && MarkInv(Taken(g), pending + {g.gray[0]}) && Advances(g, Taken(g))
  {
    hide Prune, GrayListed, ColorsFitIn, Settled;
    var o := g.gray[0];
    PopListed(g);
    var g1 := Taken(g);
    assert Whites(g1.color) <= Whites(g.color);
    forall x | x in g1.heap && x in g1.color && !g1.color[x].White?
      ensures x in g1.gray || x in pending + {o} || Settled(g1, x)
    {
      if x != o && x in g.gray {
        assert x in g1.gray;
      } else if x != o && x !in pending {
        SettledStays(g, g1, x);
      }
    }
  }

  /** A closure, a prototype or a thread. */
  lemma VisitValues(g: State, pending: set<Id>)
    requires MarkInv(g, pending) && g.gray != []
    requires var o := g.heap[g.gray[0]]; o.Closure? || o.Proto? || o.Thread?
    ensures MarkInv(PropagateMark(g), pending) && Advances(g, PropagateMark(g))
  {
    hide MarkInv, Advances, MarkIn, Values, Settled, PropagateMark;
    PopKeeps(g, pending);
    var o, g1 := g.gray[0], Taken(g);
    var vs := Values(g.heap, g.heap[o], STRONG);
    var r := MarkIn(g1, vs);
    MarkInKeeps(g1, vs, pending + {o});
    MarkInFacts(g1, vs);
    VisitForm(g);
    ValuesSettle(r, o);
    NotPending(r, o, pending);
    AdvancesTransitive(g, g1, r);
  }

  lemma VisitForm(g: State)
    requires g.gray != [] && g.gray[0] in g.heap && !g.heap[g.gray[0]].Table?
    ensures PropagateMark(g) == MarkIn(Taken(g), Values(g.heap, g.heap[g.gray[0]], STRONG))
  {
    hide MarkIn, Values;
    var o := g.gray[0];
    assert g.color[o := Black][o := Gray] == g.color[o := Gray];
  }

  /** What `MarkIn` does not touch, and what it marks. */
  lemma MarkInFacts(g: State, vs: seq<Value>)
    requires Continues(g.heap, Marks(g.color, g.gray), MarkAll(g.heap, Marks(g.color, g.gray), vs))
    ensures var r := MarkIn(g, vs);
            && r == g.(color := r.color, gray := r.gray) && r.color.Keys == g.color.Keys
            && (forall o :: o in g.color && !g.color[o].White? ==> r.color[o] == g.color[o])
            && forall x :: x in Targets(vs) && x in g.heap ==> !IsWhite(r.color, x)
  {
    MarkInMarks(g, vs);
  }

  lemma ValuesSettle(g: State, o: Id)
    requires o in g.heap && o in g.color && (g.heap[o].Closure? || g.heap[o].Proto? || g.heap[o].Thread?)
    requires if g.heap[o].Thread? then o in g.grayAgain else g.color[o] == Black
    requires forall x :: x in Targets(Values(g.heap, g.heap[o], STRONG)) && x in g.heap ==> !IsWhite(g.color, x)
    ensures Settled(g, o)
  {
  }

  lemma NotPending(g: State, o: Id, pending: set<Id>)
    requires MarkInv(g, pending + {o}) && o in g.heap && o in g.color && Settled(g, o)
    ensures MarkInv(g, pending)
  {
    hide Listed, ColorsFit, Settled;
  }

  lemma AdvancesTransitive(a: State, b: State, c: State)
    requires Advances(a, b) && Advances(b, c)
    ensures Advances(a, c)
  {
    SameRefsTransitive(a.heap, b.heap, c.heap);
    hide SameRefs, Whites;
  }

  lemma VisitTable(g: State, pending: set<Id>)
    requires MarkInv(g, pending) && g.gray != []
    requires g.heap[g.gray[0]].Table?
    ensures MarkInv(PropagateMark(g), pending) && Advances(g, PropagateMark(g))
  {
    hide MarkInv, Advances, MarkIn, Values, TableMode, PropagateMark, Finished;
    PopKeeps(g, pending);
    var o, g1 := g.gray[0], Taken(g);
    var vs := Values(g.heap, g.heap[o], TableMode(g.heap, g.heap[o]));
    var g2 := MarkIn(g1, vs);
    MarkInKeeps(g1, vs, pending + {o});
    MarkInFacts(g1, vs);
    TableForm(g);
    FinishTable(g2, o, pending);
    AdvancesTransitive(g, g1, g2);
    AdvancesTransitive(g, g2, Finished(g2, o));
  }

  lemma TableForm(g: State)
    requires g.gray != [] && g.gray[0] in g.heap && g.heap[g.gray[0]].Table?
    ensures var o := g.gray[0];
            PropagateMark(g) == Finished(MarkIn(Taken(g), Values(g.heap, g.heap[o], TableMode(g.heap, g.heap[o]))), o)
  {
    hide MarkAll, Values, Prune, IsWeak, TableMode;
  }

  /** The end of a table's traversal: it is settled as black, or as gray and on the weak list. */
  ghost function Finished(g2: State, o: Id): State
    requires o in g2.heap && g2.heap[o].Table?
  {
    var t := g2.heap[o];
    var mode := TableMode(g2.heap, t);
    var t' := t.(weakBits := if IsWeak(mode) then mode else t.weakBits,
                 nodes := if mode.keys && mode.values then t.nodes else Prune(t.nodes));
    g2.(heap := g2.heap[o := t'],
        weak := if IsWeak(mode) then [o] + g2.weak else g2.weak,
        color := if IsWeak(mode) then g2.color[o := Gray] else g2.color)
  }

  lemma FinishListed(g2: State, o: Id)
    requires Listed(g2) && ColorsFit(g2) && o in g2.heap && g2.heap[o].Table? && g2.color[o] == Black
    ensures Listed(Finished(g2, o)) && ColorsFit(Finished(g2, o)) && Advances(g2, Finished(g2, o))
  {
    hide Prune, IsWeak, Traversable, TableMode, RemoveEntry;
    assert o !in g2.gray && o !in g2.grayAgain && o !in g2.weak;
    var g' := Finished(g2, o);
    assert SameObject(g2.heap[o], g'.heap[o]);
  }

  lemma FinishTable(g2: State, o: Id, pending: set<Id>)
    requires MarkInv(g2, pending + {o}) && o in g2.heap && g2.heap[o].Table? && g2.color[o] == Black
    requires forall r :: r in StrongRefs(g2.heap, o) && r in g2.heap ==> !IsWhite(g2.color, r)
    ensures MarkInv(Finished(g2, o), pending) && Advances(g2, Finished(g2, o))
  {
    var g' := Finished(g2, o);
    FinishListed(g2, o);
    SameValues(g2.heap, g'.heap, o, STRONG);
    SameValues(g2.heap, g'.heap, o, TableMode(g2.heap, g2.heap[o]));
    assert Settled(g', o);
    forall x | x in g'.heap && x in g'.color && !g'.color[x].White?
      ensures x in g'.gray || x in pending || Settled(g', x)
    {
      if x != o && x !in g2.gray && x !in pending {
        SettledStays(g2, g', x);
      }
    }
  }

  // ---------- Propagating to the end ----------

  /** The mark phase makes progress: fewer white objects, or as many and a shorter gray list. */
  lemma PropagateMarkProgress(g: State)
    requires g.gray != [] && g.gray[0] in g.heap && g.gray[0] in g.color && !g.color[g.gray[0]].White?
    ensures var g' := PropagateMark(g);
            Whites(g'.color) < Whites(g.color) || (Whites(g'.color) == Whites(g.color) && |g'.gray| < |g.gray|)
    ensures SameLists(g, PropagateMark(g))
  {
    var o := g.gray[0];
    assert Whites(g.color[o := Black]) == Whites(g.color);
    assert Whites(g.color[o := Black][o := Gray]) == Whites(g.color);
    if g.heap[o].Table? {
      var g1 := Popped(g);
      var g2 := MarkIn(g1, Values(g.heap, g.heap[o], TableMode(g.heap, g.heap[o])));
      assert o !in Whites(g1.color);
      assert Whites(g2.color[o := Gray]) == Whites(g2.color);
    }
  }

  function PropagateAll(g: State): (r: State)
    requires exists pending :: MarkInv(g, pending)
    ensures SameLists(g, r)
    decreases Whites(g.color), |g.gray|
  {
    if g.gray == [] then g
    else
      assert g.gray[0] in g.gray;
      PropagateMarkProgress(g);
      assert exists pending :: MarkInv(PropagateMark(g), pending) by {
        var pending :| MarkInv(g, pending);
        PropagateMarkKeeps(g, pending);
      }
      PropagateAll(PropagateMark(g))
  }

  lemma {:induction false} PropagateAllKeeps(g: State, pending: set<Id>)
    requires MarkInv(g, pending)
    ensures var r := PropagateAll(g); MarkInv(r, pending) && Advances(g, r) && r.gray == []
    decreases Whites(g.color), |g.gray|
  {
    if g.gray != [] {
      assert g.gray[0] in g.gray;
      PropagateMarkProgress(g);
      PropagateMarkKeeps(g, pending);
      PropagateAllKeeps(PropagateMark(g), pending);
      SameRefsTransitive(g.heap, PropagateMark(g).heap, PropagateAll(g).heap);
    }
  }
}
