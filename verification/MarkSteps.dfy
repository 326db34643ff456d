/** The steps of the mark phase keep the invariant (lgc.cpp, markroot, propagatemark, atomic). */
module MarkSteps {
  import opened Heap
  import opened Marking
  import opened Collector
  import opened Propagation
  import opened AtomicPhase
  import opened Invariant

  /** Registration depends only on kinds, threads and open upvalues. */
  ghost predicate SameKinds(h: Objects, h': Objects) {
    && h'.Keys == h.Keys
    && (forall o :: o in h && !h[o].Table? ==> h'[o] == h[o])
    && (forall o :: o in h && h[o].Table? ==> h'[o].Table?)
  }

  lemma SameKindsRegistered(g: State, g': State)
    requires Registered(g) && SameKinds(g.heap, g'.heap) && g'.color.Keys == g.color.Keys
    requires g'.rootgc == g.rootgc && g'.strings == g.strings && g'.uvhead == g.uvhead && g'.fixed == g.fixed
    requires g'.main == g.main && g'.running == g.running && g'.sweepPos <= |g'.rootgc|
    ensures Registered(g')
  {
    hide UpvalsListed, StringsListed, RootsListed, HeadListed, FixedKinds, SameKinds;
    SameKindsUpvals(g.heap, g'.heap);
    SameKindsStrings(g, g');
    SameKindsLists(g, g');
  }

  lemma SameKindsLists(g: State, g': State)
    requires SameKinds(g.heap, g'.heap)
    ensures g'.heap.Keys == g.heap.Keys
    ensures RootsListed(g.heap, g.rootgc) ==> RootsListed(g'.heap, g.rootgc)
    ensures HeadListed(g.heap, g.uvhead) ==> HeadListed(g'.heap, g.uvhead)
    ensures FixedKinds(g.heap, g.fixed, g.main, g.running) ==> FixedKinds(g'.heap, g.fixed, g.main, g.running)
  {
    assert forall o :: o in g.heap ==> OnRoot(g'.heap[o]) == OnRoot(g.heap[o]);
  }

  lemma SameKindsStrings(g: State, g': State)
    requires StringsListed(g.heap, g.strings) && SameKinds(g.heap, g'.heap) && g'.strings == g.strings
    ensures StringsListed(g'.heap, g'.strings)
  {
    assert forall o, i :: InBucket(g'.strings, o, i) <==> InBucket(g.strings, o, i);
    forall o | o in g'.heap && g'.heap[o].Str?
      ensures exists i :: InBucket(g'.strings, o, i)
    {
      assert g.heap[o].Str?;
      var i :| InBucket(g.strings, o, i);
      assert InBucket(g'.strings, o, i);
    }
  }

  lemma SameKindsUpvals(h: Objects, h': Objects)
    requires UpvalsListed(h) && SameKinds(h, h')
    ensures UpvalsListed(h')
  {
    forall th | th in h' && h'[th].Thread?
      ensures OpenListed(h', th)
    {
      assert h[th].Thread? && OpenListed(h, th);
    }
  }

  lemma SameRefsKinds(h: Objects, h': Objects)
    requires SameRefs(h, h')
    ensures SameKinds(h, h')
  {
    forall o | o in h
      ensures h[o].Table? ==> h'[o].Table?
      ensures !h[o].Table? ==> h'[o] == h[o]
    {
      assert SameObject(h[o], h'[o]);
    }
  }

  lemma NoneDead(g: State)
    requires g.color.Keys == g.heap.Keys && NoOtherWhite(g.color, g.white)
    ensures Live(g) == g.heap.Keys
  {
  }

  /** Marking in the mark phase: no object dies and no reference changes. */
  lemma MarkingKeepsCore(g: State, g': State)
    requires Registered(g) && NoDangling(g) && NoOtherWhite(g.color, g.white) && NoOtherWhite(g'.color, g'.white)
    requires SameRefs(g.heap, g'.heap) && g'.color.Keys == g.color.Keys
    requires SameLists(g, g'.(phase := g.phase))
    ensures Registered(g') && NoDangling(g')
  {
    SameRefsKinds(g.heap, g'.heap);
    SameKindsRegistered(g, g');
    NoneDead(g);
    NoneDead(g');
    forall o | o in g'.heap
      ensures AllRefs(g'.heap, o) <= Live(g')
    {
      SameValues(g.heap, g'.heap, o, STRONG);
    }
  }

  lemma MarkInColors(g: State, vs: seq<Value>)
    requires g.color.Keys == g.heap.Keys && NoOtherWhite(g.color, g.white)
    ensures NoOtherWhite(MarkIn(g, vs).color, MarkIn(g, vs).white)
    ensures MarkIn(g, vs) == g.(color := MarkIn(g, vs).color, gray := MarkIn(g, vs).gray)
  {
    MarkAllContinues(g.heap, Marks(g.color, g.gray), vs);
    var g' := MarkIn(g, vs);
    forall o | o in g'.color
      ensures g'.color[o] != White(!g'.white)
    {
      if IsWhite(g'.color, o) && !IsWhite(g.color, o) {
        assert false;
      }
    }
  }

  ghost function Unlisted(g: State): State {
    g.(gray := [], grayAgain := [], weak := [])
  }

  lemma MarkRootKeeps(g: State)
    requires Registered(g) && NoDangling(g) && AllWhite(g.color, g.white)
    ensures Inv(MarkRoot(g))
  {
    var g0 := Unlisted(g);
    var vs := RootValues(g);
    MarkInKeeps(g0, vs, {});
    MarkInColors(g0, vs);
    MarkRootMarks(g, MarkIn(g0, vs));
    StartedInv(g0, MarkIn(g0, vs));
  }

  lemma StartedInv(g0: State, g1: State)
    requires Registered(g0) && NoDangling(g0) && NoOtherWhite(g0.color, g0.white) && NoOtherWhite(g1.color, g1.white)
    requires SameLists(g0, g1)
    requires MarkInv(g1, {}) && Advances(g0, g1)
    requires FirstRootsMarked(g1.color, g0.main, g0.registry)
    ensures Inv(g1.(phase := Propagate))
  {
    var r := g1.(phase := Propagate);
    MarkingKeepsCore(g0, g1);
    assert Registered(r) && NoDangling(r);
    Weaken(g1, {}, Waiting(g1) + SetOf(g1.uvhead));
    MarkPhaseFrom(g1);
    assert MarkPhase(r);
  }

  lemma MarkRootMarks(g: State, g1: State)
    requires Registered(g) && NoDangling(g) && g1 == MarkIn(Unlisted(g), RootValues(g))
    ensures FirstRootsMarked(g1.color, g.main, g.registry)
  {
    var vs := RootValues(g);
    MarkInMarks(Unlisted(g), vs);
    assert Ref(g.main) in vs && g.registry in vs;
    assert g.registry in [g.registry] + g.basicMetas;
    assert g.registry.Ref? ==> g.registry.o in Roots(g);
  }

  lemma Weaken(g: State, a: set<Id>, b: set<Id>)
    requires MarkInv(g, a) && a <= b
    ensures MarkInv(g, b)
  {
  }

  lemma PropagateColors(g: State)
    requires g.color.Keys == g.heap.Keys && NoOtherWhite(g.color, g.white) && g.gray != [] && g.gray[0] in g.heap
    ensures NoOtherWhite(PropagateMark(g).color, PropagateMark(g).white) && SameLists(g, PropagateMark(g))
  {
    hide PropagateMark, MarkIn, Values, TableMode, IsWeak, Prune;
    var o := g.gray[0];
    if g.heap[o].Table? {
      TableForm(g);
      MarkInColors(Taken(g), Values(g.heap, g.heap[o], TableMode(g.heap, g.heap[o])));
    } else {
      VisitForm(g);
      MarkInColors(Taken(g), Values(g.heap, g.heap[o], STRONG));
    }
  }

  lemma StillMarked(g: State, g': State)
    requires Whites(g'.color) <= Whites(g.color)
    ensures forall o :: !IsWhite(g.color, o) ==> !IsWhite(g'.color, o)
  {
    assert forall o :: IsWhite(g'.color, o) ==> o in Whites(g'.color);
  }

  lemma PropagateMarkInv(g: State)
    requires Inv(g) && g.phase == Propagate && g.gray != []
    ensures g.gray[0] in g.heap && Inv(PropagateMark(g))
  {
    var pending := Waiting(g) + SetOf(g.uvhead);
    MarkPhaseReady(g);
    PropagateMarkKeeps(g, pending);
    var g' := PropagateMark(g);
    PropagateColors(g);
    StillMarked(g, g');
    assert pending <= Waiting(g') + SetOf(g'.uvhead);
    Weaken(g', pending, Waiting(g') + SetOf(g'.uvhead));
    MarkingKeepsCore(g, g');
    MarkPhaseFrom(g');
  }

  // ---------- The atomic phase ----------

  lemma MarkPhaseAtomic(g: State)
    requires Inv(g) && g.phase == Propagate && g.gray == []
    ensures ReadyForAtomic(g)
  {
    MarkPhaseReady(g);
  }

  lemma ClearTableShrinks(g: State, o: Id, x: Id)
    requires o in g.heap && g.heap[o].Table? && x in g.heap
    ensures AllRefs(ClearTable(g, o).heap, x) <= AllRefs(g.heap, x)
  {
    if x != o {
      ClearTableFrame(g, o, x);
    } else {
      forall v | v in Values(ClearTable(g, o).heap, ClearTable(g, o).heap[o], STRONG) && v.Ref?
        ensures v in Values(g.heap, g.heap[o], STRONG)
      {
        ClearTableValue(g, o, v);
      }
    }
  }

  lemma ClearTableValue(g: State, o: Id, v: Value)
    requires o in g.heap && g.heap[o].Table? && v.Ref?
    requires v in Values(ClearTable(g, o).heap, ClearTable(g, o).heap[o], STRONG)
    ensures v in Values(g.heap, g.heap[o], STRONG)
  {
    var t := g.heap[o];
    var t' := ClearTable(g, o).heap[o];
    if v in ArrayValues(t'.arr, |t'.arr|) {
      ClearArrayValue(g, t, t'.arr, v);
    } else if v in HashValues(t'.nodes, |t'.nodes|, STRONG) {
      ClearHashValue(g, t.nodes, v);
    }
  }

  lemma ClearArrayValue(g: State, t: Object, arr: seq<Value>, v: Value)
    requires t.Table? && v.Ref? && (arr == t.arr || arr == ClearArray(g, t.arr))
    requires v in ArrayValues(arr, |arr|)
    ensures v in ArrayValues(t.arr, |t.arr|)
  {
    InArrayValues(arr, |arr|, v);
    InArrayValues(t.arr, |t.arr|, v);
  }

  lemma ClearHashValue(g: State, nodes: seq<Node>, v: Value)
    requires v.Ref? && v in HashValues(ClearNodes(g, nodes), |nodes|, STRONG)
    ensures v in HashValues(nodes, |nodes|, STRONG)
  {
    InHashValues(ClearNodes(g, nodes), |nodes|, STRONG, v);
    InHashValues(nodes, |nodes|, STRONG, v);
    var i :| 0 <= i < |nodes| && v in NodeValues(ClearNodes(g, nodes)[i], STRONG);
    assert v in NodeValues(nodes[i], STRONG);
  }

  /** What clearing weak tables leaves alone: kinds of objects, marks, and the colours of objects it does
      not mark; it marks strings only. */
  ghost predicate OnlyCleared(g: State, r: State) {
    && SameKinds(g.heap, r.heap) && r.color.Keys == g.color.Keys
    && (forall o :: o in g.heap ==> AllRefs(r.heap, o) <= AllRefs(g.heap, o))
    && (forall o :: !IsWhite(g.color, o) ==> !IsWhite(r.color, o))
    && (forall o :: IsWhite(r.color, o) ==> r.color[o] == g.color[o])
    && (forall o :: o in r.color && r.color[o] == Black ==> g.color[o] == Black)
    && (forall o :: o in g.color && !IsWhite(r.color, o) && IsWhite(g.color, o) ==> o in g.heap && g.heap[o].Str?)
  }

  lemma ClearedTable(g: State, o: Id)
    requires g.color.Keys == g.heap.Keys && o in g.heap && g.heap[o].Table?
    ensures OnlyCleared(g, ClearTable(g, o))
  {
    hide AllRefs, ClearArray, ClearNodes, KeptStrings;
    ClearedRefs(g, o);
  }

  lemma ClearedRefs(g: State, o: Id)
    requires o in g.heap && g.heap[o].Table?
    ensures forall x :: x in g.heap ==>
              x in ClearTable(g, o).heap && AllRefs(ClearTable(g, o).heap, x) <= AllRefs(g.heap, x)
  {
    hide AllRefs, ClearArray, ClearNodes, KeptStrings;
    forall x | x in g.heap
      ensures AllRefs(ClearTable(g, o).heap, x) <= AllRefs(g.heap, x)
    {
      ClearTableShrinks(g, o, x);
    }
  }

  lemma ClearedAgain(a: State, b: State, c: State)
    requires a.color.Keys == a.heap.Keys && OnlyCleared(a, b) && OnlyCleared(b, c)
    ensures OnlyCleared(a, c)
  {
    hide AllRefs;
  }

  lemma {:induction false} ClearTablesFrame(g: State, ts: seq<Id>)
    requires g.color.Keys == g.heap.Keys
    requires forall o :: o in ts ==> o in g.heap && g.heap[o].Table?
    ensures OnlyCleared(g, ClearTables(g, ts))
    decreases |ts|
  {
    hide ClearTable, AllRefs;
    if ts != [] {
      var g1 := ClearTable(g, ts[0]);
      ClearedTable(g, ts[0]);
      ClearTablesFrame(g1, ts[1..]);
      ClearedAgain(g, g1, ClearTables(g, ts));
    }
  }

  lemma PropagateAllColors(g: State)
    requires exists pending :: MarkInv(g, pending)
    requires NoOtherWhite(g.color, g.white)
    ensures NoOtherWhite(PropagateAll(g).color, PropagateAll(g).white)
    decreases Whites(g.color), |g.gray|
  {
    if g.gray != [] {
      var pending :| MarkInv(g, pending);
      assert g.gray[0] in g.gray;
      PropagateMarkProgress(g);
      PropagateColors(g);
      PropagateMarkKeeps(g, pending);
      PropagateAllColors(PropagateMark(g));
    }
  }

  lemma {:induction false} RemarkColors(g: State, us: seq<Id>)
    requires g.color.Keys == g.heap.Keys && NoOtherWhite(g.color, g.white)
    ensures NoOtherWhite(RemarkUpvals(g, us).color, RemarkUpvals(g, us).white)
    decreases |us|
  {
    if us != [] {
      if RemarkOne(g, us[0]) != g {
        MarkInColors(g, [StackValue(g.heap, g.heap[us[0]].thread, g.heap[us[0]].slot)]);
      }
      assert RemarkOne(g, us[0]).color.Keys == g.heap.Keys;
      RemarkColors(RemarkOne(g, us[0]), us[1..]);
    }
  }

  lemma AtomicMarkColors(g: State)
    requires ReadyForAtomic(g) && NoOtherWhite(g.color, g.white)
    ensures NoOtherWhite(AtomicMark(g).color, AtomicMark(g).white)
  {
    RemarkColors(g, g.uvhead);
    RemarkUpvalsKeeps(g, g.uvhead, Waiting(g));
    PropagateAllColors(RemarkUpvals(g, g.uvhead));
    var g2 := AfterRemark(g);
    MarkInColors(g2.(gray := g2.weak, weak := []), LateRoots(g));
    WeakRemarkedKeeps(g);
    PropagateAllColors(WeakRemarked(g));
    var g4 := AfterWeak(g);
    AfterWeakKeeps(g);
    RequeueAgain(g4, SetOf(g2.grayAgain));
    PropagateAllColors(g4.(gray := g4.grayAgain, grayAgain := []));
  }

  /** The state when the atomic phase has marked everything. */
  lemma MarkedInv(g: State)
    requires Inv(g) && g.phase == Propagate && ReadyForAtomic(g)
    ensures var m := AtomicMark(g);
            && Registered(m) && NoDangling(m) && NoOtherWhite(m.color, m.white) && Live(m) == m.heap.Keys
            && MarkInv(m, {}) && m.gray == []
  {
    AtomicMarkKeeps(g);
    AtomicMarkAdvances(g);
    AtomicMarkColors(g);
    MarkingKeepsCore(g, AtomicMark(g));
    NoneDead(AtomicMark(g));
  }

  lemma RootsMarked(g: State, m: State)
    requires Inv(g) && g.phase == Propagate && Whites(m.color) <= Whites(g.color)
    requires forall x :: x in Targets(LateRoots(g)) && x in g.heap ==> !IsWhite(m.color, x)
    ensures forall o :: o in Roots(g) ==> !IsWhite(m.color, o)
  {
    hide Inv, Live, Whites;
    StillMarked(g, m);
    RootsLive(g);
    forall o | o in Roots(g)
      ensures !IsWhite(m.color, o)
    {
      if o != g.main && g.registry != Ref(o) {
        assert Ref(o) in LateRoots(g);
        assert o in Targets(LateRoots(g));
      }
    }
  }

  lemma RootsLive(g: State)
    requires Inv(g) && g.phase == Propagate
    ensures Roots(g) <= g.heap.Keys && FirstRootsMarked(g.color, g.main, g.registry)
  {
  }

  /** Clearing the weak tables, then making the unmarked objects dead. */
  lemma ClearedInv(m: State, c: State)
    requires Registered(m) && NoDangling(m) && NoOtherWhite(m.color, m.white)
    requires c == m.(heap := c.heap, color := c.color) && SameKinds(m.heap, c.heap)
    requires MarksClosed(c.heap, c.color)
    requires forall o :: o in m.heap ==> AllRefs(c.heap, o) <= AllRefs(m.heap, o)
    requires forall o :: IsWhite(c.color, o) ==> m.color[o] == c.color[o]
    requires forall o :: o in Roots(m) ==> !IsWhite(c.color, o)
    requires OpenNotBlack(c.heap, c.color)
    ensures Inv(Flip(c))
  {
    SameKindsRegistered(m, Flip(c));
    ClearedDangling(m, c);
  }

  lemma ClearedDangling(m: State, c: State)
    requires Registered(m) && NoDangling(m) && NoOtherWhite(m.color, m.white) && Registered(Flip(c))
    requires c == m.(heap := c.heap, color := c.color) && c.heap.Keys == m.heap.Keys
    requires MarksClosed(c.heap, c.color)
    requires forall o :: o in m.heap ==> AllRefs(c.heap, o) <= AllRefs(m.heap, o)
    requires forall o :: IsWhite(c.color, o) ==> m.color[o] == c.color[o]
    requires forall o :: o in Roots(m) ==> !IsWhite(c.color, o)
    ensures NoDangling(Flip(c))
  {
    var r := Flip(c);
    NoneDead(m);
    forall o | o in Roots(r)
      ensures o in Live(r)
    {
      assert o in Roots(m);
    }
    assert c.main in Roots(m);
    forall o | o in r.heap && !IsDead(r, o)
      ensures AllRefs(r.heap, o) <= Live(r)
    {
      assert o in m.heap;
      ClearedRef(m, c, o);
    }
  }

  lemma ClearedRef(m: State, c: State, o: Id)
    requires NoDangling(m) && Live(m) == m.heap.Keys && FixedKinds(c.heap, c.fixed, c.main, c.running)
    requires c == m.(heap := c.heap, color := c.color) && c.heap.Keys == m.heap.Keys
    requires MarksClosed(c.heap, c.color) && !IsWhite(c.color, c.main)
    requires o in c.heap && !IsDead(Flip(c), o)
    requires AllRefs(c.heap, o) <= AllRefs(m.heap, o)
    requires IsWhite(c.color, o) ==> c.color[o] == White(c.white)
    ensures forall x :: x in AllRefs(c.heap, o) ==> x in c.heap && !IsWhite(c.color, x)
  {
    if IsWhite(c.color, o) {
      UnmarkedFixed(Flip(c), o);
    } else {
      assert RefsMarked(c.heap, c.color, o);
      assert o in Live(m);
    }
  }

  lemma ClearedOpen(m: State, c: State)
    requires ColorsFit(m) && m.color.Keys == m.heap.Keys && SameKinds(m.heap, c.heap)
    requires forall o :: o in c.color && c.color[o] == Black ==> o in m.color && m.color[o] == Black
    ensures OpenNotBlack(c.heap, c.color)
  {
    forall u | u in c.heap && c.heap[u].OpenUpval? && u in c.color
      ensures c.color[u] != Black
    {
      assert m.heap[u].OpenUpval?;
    }
  }

  lemma UnmarkedFixed(r: State, o: Id)
    requires FixedKinds(r.heap, r.fixed, r.main, r.running) && o in r.heap && o in r.color && IsWhite(r.color, o) &&
             !IsDead(r, o)
    requires r.color[o] == White(!r.white) && !IsWhite(r.color, r.main)
    ensures AllRefs(r.heap, o) == {}
  {
    assert r.heap[o].Str?;
  }

  /** The atomic phase ends with the roots marked, no dangling reference, and everything
      unmarked dead, fixed strings apart. */
  lemma AtomicInv(g: State)
    requires Inv(g) && g.phase == Propagate && g.gray == []
    ensures ReadyForAtomic(g) && Inv(Atomic(g))
  {
    MarkPhaseAtomic(g);
    MarkedInv(g);
    var m := AtomicMark(g);
    AtomicMarkAdvances(g);
    RootsMarked(g, m);
    AtomicCloses(g);
    ClearTablesFrame(m, m.weak);
    var c := ClearTables(m, m.weak);
    ClearedOpen(m, c);
    ClearedInv(m, c);
  }
}
