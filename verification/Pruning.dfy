/** Every table that a whole mark phase traverses has its empty entries' keys marked dead (lgc.cpp, traversetable and
    removeentry), but for tables that are weak in both ways, which it leaves alone. */
module Pruning {
  import opened Heap
  import opened Marking
  import opened Collector
  import opened Propagation
  import opened AtomicPhase

  /** The entries of `o` once it has been traversed. */
  function Traversed(h: Objects, o: Id): seq<Node>
    requires o in h && h[o].Table?
  {
    if TableMode(h, h[o]) == Mode(true, true) then h[o].nodes else Prune(h[o].nodes)
  }

  /** Whether `o` has been marked and taken off the gray list. */
  predicate Seen(g: State, o: Id) {
    o in g.color && !IsWhite(g.color, o) && o !in g.gray
  }

  ghost predicate EntriesKept(s: State, g: State, o: Id, visiting: set<Id>)
    requires o in s.heap && s.heap[o].Table? && o in g.heap
  {
    && g.heap[o].Table?
    && (g.heap[o].nodes == s.heap[o].nodes || g.heap[o].nodes == Traversed(s.heap, o))
    && (Seen(g, o) && o !in visiting ==> g.heap[o].nodes == Traversed(s.heap, o))
  }

  /** In `g`, tables have the entries that `s` gave them, those already traversed without the keys of the empty ones;
      the table being visited, if there is one, has yet to lose them. */
  ghost predicate PrunedSince(s: State, g: State, visiting: set<Id>) {
    && SameRefs(s.heap, g.heap)
    && forall o :: o in s.heap && s.heap[o].Table? ==> EntriesKept(s, g, o, visiting)
  }

  lemma StartPruned(s: State)
    requires forall o :: o in s.color ==> IsWhite(s.color, o)
    ensures PrunedSince(s, s, {})
  {
  }

  /** Newly marked tables have yet to be traversed. */
  lemma MarkInPruned(s: State, g: State, vs: seq<Value>, visiting: set<Id>)
    requires PrunedSince(s, g, visiting)
    ensures PrunedSince(s, MarkIn(g, vs), visiting)
  {
    hide MarkAll, Traversed;
    var m := Marks(g.color, g.gray);
    var r := MarkAll(g.heap, m, vs);
    MarkAllContinues(g.heap, m, vs);
    forall o | o in s.heap && s.heap[o].Table?
      ensures EntriesKept(s, MarkIn(g, vs), o, visiting)
    {
      assert EntriesKept(s, g, o, visiting);
      if IsWhite(m.color, o) && !IsWhite(r.color, o) {
        assert Reached(g.heap, r, o);
      }
    }
  }

  /** The first gray object is taken off the list. */
  lemma TakenPruned(s: State, g: State)
    requires PrunedSince(s, g, {}) && g.gray != [] && g.gray[0] in g.heap
    ensures PrunedSince(s, Taken(g), if g.heap[g.gray[0]].Table? then {g.gray[0]} else {})
  {
    hide Traversed, SameRefs;
    var first := g.gray[0];
    forall o | o in s.heap && s.heap[o].Table?
      ensures o in g.heap && EntriesKept(s, Taken(g), o, if g.heap[first].Table? then {first} else {})
    {
      KeysSame(s, g);
      assert EntriesKept(s, g, o, {});
      assert g.gray == [first] + g.gray[1..];
    }
  }

  lemma KeysSame(s: State, g: State)
    requires SameRefs(s.heap, g.heap)
    ensures g.heap.Keys == s.heap.Keys
  {
  }

  lemma {:induction false} PruneTwice(nodes: seq<Node>)
    ensures Prune(Prune(nodes)) == Prune(nodes)
  {
  }

  lemma TraversedSame(s: State, g: State, o: Id, visiting: set<Id>)
    requires PrunedSince(s, g, visiting) && o in s.heap && s.heap[o].Table?
    ensures o in g.heap && g.heap[o].Table? && Traversed(g.heap, o) == Traversed(s.heap, o)
  {
    assert EntriesKept(s, g, o, visiting);
    SameValues(s.heap, g.heap, o, STRONG);
    PruneTwice(s.heap[o].nodes);
  }

  /** The end of a table's traversal. */
  lemma FinishedPruned(s: State, g: State, o: Id)
    requires PrunedSince(s, g, {o}) && o in s.heap && s.heap[o].Table? && o in g.heap && g.heap[o].Table?
    ensures PrunedSince(s, Finished(g, o), {})
  {
    TraversedSame(s, g, o, {o});
    var r := Finished(g, o);
    hide Traversed, Prune, TableMode, IsWeak;
    assert r.heap[o].nodes == Traversed(g.heap, o);
    assert SameObject(g.heap[o], r.heap[o]);
    SameRefsTransitive(s.heap, g.heap, r.heap);
    forall x | x in s.heap && s.heap[x].Table?
      ensures EntriesKept(s, r, x, {})
    {
      assert EntriesKept(s, g, x, {o});
    }
  }

  lemma PropagatePruned(s: State, g: State)
    requires PrunedSince(s, g, {}) && g.gray != [] && g.gray[0] in g.heap
    ensures PrunedSince(s, PropagateMark(g), {})
  {
    hide MarkIn, Values, PrunedSince, Finished, TableMode;
    var o := g.gray[0];
    TakenPruned(s, g);
    if g.heap[o].Table? {
      var vs := Values(g.heap, g.heap[o], TableMode(g.heap, g.heap[o]));
      TableForm(g);
      MarkInPruned(s, Taken(g), vs, {o});
      TableThere(s, g);
      MarkInHeap(Taken(g), vs);
      FinishedPruned(s, MarkIn(Taken(g), vs), o);
    } else {
      VisitForm(g);
      MarkInPruned(s, Taken(g), Values(g.heap, g.heap[o], STRONG), {});
    }
  }

  lemma MarkInHeap(g: State, vs: seq<Value>)
    ensures MarkIn(g, vs).heap == g.heap
  {
  }

  lemma TableThere(s: State, g: State)
    requires PrunedSince(s, g, {}) && g.gray != [] && g.gray[0] in g.heap && g.heap[g.gray[0]].Table?
    ensures g.gray[0] in s.heap && s.heap[g.gray[0]].Table?
  {
    assert SameObject(s.heap[g.gray[0]], g.heap[g.gray[0]]);
  }

  lemma {:induction false} PropagateAllPruned(s: State, g: State, pending: set<Id>)
    requires MarkInv(g, pending) && PrunedSince(s, g, {})
    ensures PrunedSince(s, PropagateAll(g), {})
    decreases Whites(g.color), |g.gray|
  {
    hide PrunedSince, PropagateMark;
    if g.gray != [] {
      assert g.gray[0] in g.gray;
      PropagateMarkProgress(g);
      PropagateMarkKeeps(g, pending);
      PropagatePruned(s, g);
      PropagateAllPruned(s, PropagateMark(g), pending);
    }
  }

  lemma {:induction false} RemarkPruned(s: State, g: State, us: seq<Id>)
    requires PrunedSince(s, g, {})
    ensures PrunedSince(s, RemarkUpvals(g, us), {})
    decreases |us|
  {
    hide PrunedSince, MarkIn;
    if us != [] {
      var u := us[0];
      if u in g.heap && g.heap[u].OpenUpval? {
        MarkInPruned(s, g, [StackValue(g.heap, g.heap[u].thread, g.heap[u].slot)], {});
      }
      RemarkPruned(s, RemarkOne(g, u), us[1..]);
    }
  }

  /** Objects that go back to the gray list are to be traversed once more. */
  lemma RequeuedPruned(s: State, g: State, g': State)
    requires PrunedSince(s, g, {}) && g.gray == [] && g'.heap == g.heap && g'.color == g.color
    ensures PrunedSince(s, g', {})
  {
    forall o | o in s.heap && s.heap[o].Table?
      ensures EntriesKept(s, g', o, {})
    {
      assert EntriesKept(s, g, o, {});
    }
  }

  lemma AfterRemarkPruned(s: State, g: State)
    requires ReadyForAtomic(g) && PrunedSince(s, g, {})
    ensures PrunedSince(s, AfterRemark(g), {})
  {
    hide PrunedSince;
    RemarkUpvalsKeeps(g, g.uvhead, Waiting(g));
    RemarkPruned(s, g, g.uvhead);
    PropagateAllPruned(s, RemarkUpvals(g, g.uvhead), Waiting(g));
  }

  lemma AfterWeakPruned(s: State, g: State)
    requires ReadyForAtomic(g) && PrunedSince(s, g, {})
    ensures PrunedSince(s, AfterWeak(g), {})
  {
    hide PrunedSince;
    AfterRemarkPruned(s, g);
    var g2 := AfterRemark(g);
    var g3 := g2.(gray := g2.weak, weak := []);
    RequeuedPruned(s, g2, g3);
    MarkInPruned(s, g3, LateRoots(g), {});
    WeakRemarkedKeeps(g);
    PropagateAllPruned(s, WeakRemarked(g), SetOf(g2.grayAgain));
  }

  /** The atomic phase traverses every table that has to be traversed. */
  lemma AtomicMarkPruned(s: State, g: State)
    requires ReadyForAtomic(g) && PrunedSince(s, g, {})
    ensures PrunedSince(s, AtomicMark(g), {}) && AtomicMark(g).gray == []
  {
    hide PrunedSince;
    AfterWeakPruned(s, g);
    AfterWeakKeeps(g);
    AtomicMarkKeeps(g);
    var g4 := AfterWeak(g);
    var g5 := g4.(gray := g4.grayAgain, grayAgain := []);
    RequeuedPruned(s, g4, g5);
    RequeueAgain(g4, SetOf(AfterRemark(g).grayAgain));
    PropagateAllPruned(s, g5, {});
  }
}
