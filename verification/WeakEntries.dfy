/** What a full collection (lgc.cpp:584-605) leaves of the objects that survive it: of weak tables exactly the
    entries whose key and value are held elsewhere, of all other tables every entry. */
module WeakEntries {
  import opened Common
  import opened Heap
  import opened Marking
  import opened Collector
  import opened Propagation
  import opened AtomicPhase
  import opened Invariant
  import opened MarkSteps
  import opened Cycle
  import opened Safety
  import opened FullCollection
  import opened Paths
  import opened Pruning

  /** A slot of the array part. */
  ghost predicate SlotAfter(s: State, weak: bool, v: Value, v': Value) {
    v' == if weak && !MayStay(s, v) then Nil else v
  }

  /** An entry of a table with weak keys, weak values or neither. If it is not empty it stays as it is if its key and
      its value may, and loses its value if not. The key of an empty entry is marked dead, so that it refers to
      nothing; tables that are weak in both ways keep the keys of entries that were empty before. */
  ghost predicate EntryAfter(s: State, keys: bool, values: bool, n: Node, n': Node) {
    if n.val == Nil then n' == if keys && values then n else Emptied(n)
    else if (keys || values) && !(MayStay(s, n.key) && MayStay(s, n.val)) then n' == Emptied(n)
    else n' == n
  }

  function Emptied(n: Node): Node {
    Node(if n.key.Ref? then DeadKey(n.key.o) else n.key, Nil)
  }

  ghost predicate TableAfter(s: State, t: Object, t': Object)
    requires t.Table?
  {
    var values := WeakValues(s.heap, t);
    && t'.Table? && t'.meta == t.meta && t'.mode == t.mode && |t'.arr| == |t.arr| && |t'.nodes| == |t.nodes|
    && (forall i :: 0 <= i < |t.arr| ==> SlotAfter(s, values, t.arr[i], t'.arr[i]))
    && (forall i :: 0 <= i < |t.nodes| ==> EntryAfter(s, WeakKeys(s.heap, t), values, t.nodes[i], t'.nodes[i]))
  }

  /** Objects other than tables are what they were, apart from upvalues that have been closed. */
  ghost predicate ObjectAfter(s: State, h: Objects, o: Id) {
    && o in s.heap && o in h
    && if s.heap[o].Table? then TableAfter(s, s.heap[o], h[o]) else SeenAlike(s.heap, h, o)
  }

  // ---------- Clearing ----------

  function Cleared(g: State, t: Object): Object
    requires t.Table?
  {
    t.(arr := if t.weakBits.values then ClearArray(g, t.arr) else t.arr, nodes := ClearNodes(g, t.nodes))
  }

  lemma ClearedAlike(g: State, t: Id, tbl: Object)
    requires t in g.heap && g.heap[t].Table? && g.color.Keys == g.heap.Keys && tbl.Table?
    ensures Cleared(ClearTable(g, t), tbl) == Cleared(g, tbl)
  {
    hide ClearTable, Stays, IsString;
    SameStays(g, t);
  }

  /** Each listed table is cleared by the colours that marking left, and nothing else changes. */
  lemma {:induction false} ClearTablesHeap(g: State, ts: seq<Id>)
    requires g.color.Keys == g.heap.Keys && NoRepeats(ts)
    requires forall t :: t in ts ==> t in g.heap && g.heap[t].Table?
    ensures var r := ClearTables(g, ts);
            && r.heap.Keys == g.heap.Keys
            && forall o :: o in g.heap ==> r.heap[o] == if o in ts then Cleared(g, g.heap[o]) else g.heap[o]
    decreases |ts|
  {
    if ts != [] {
      var t := ts[0];
      var g1 := ClearTable(g, t);
      assert g1.heap == g.heap[t := Cleared(g, g.heap[t])];
      hide ClearTable, Cleared;
      ClearOneKeys(g, t);
      ClearTablesHeap(g1, ts[1..]);
      forall o | o in ts[1..]
        ensures Cleared(g1, g1.heap[o]) == Cleared(g, g.heap[o])
      {
        ClearedAlike(g, t, g.heap[o]);
      }
    }
  }

  /** What an entry holds has been collected: an object, not a string, that is still white. */
  predicate Gone(g: State, v: Value) {
    v.Ref? && v.o in g.color && g.color[v.o].White? && !(v.o in g.heap && g.heap[v.o].Str?)
  }

  /** Exactly the entries that hold something that is gone have lost their values, and, if the values are weak,
      exactly such slots of the array part. */
  ghost predicate GoneCleared(g: State, t: Object, t': Object) {
    && t.Table? && t'.Table? && t' == t.(arr := t'.arr, nodes := t'.nodes)
    && |t'.arr| == |t.arr| && |t'.nodes| == |t.nodes|
    && (forall i :: 0 <= i < |t.arr| ==>
          t'.arr[i] == if t.weakBits.values && Gone(g, t.arr[i]) then Nil else t.arr[i])
    && forall i :: 0 <= i < |t.nodes| ==>
         var n := t.nodes[i];
         t'.nodes[i] == if n.val != Nil && (Gone(g, n.key) || Gone(g, n.val)) then Emptied(n) else n
  }

  lemma ClearedGone(g: State, t: Object)
    requires t.Table? && g.color.Keys == g.heap.Keys
    ensures GoneCleared(g, t, Cleared(g, t))
  {
    forall v: Value
      ensures Stays(g, v) == !Gone(g, v)
    {
    }
    hide Stays, Gone;
  }

  /** Clearing the listed tables by the colours that marking left; no other object changes. */
  lemma ClearedEntries(g: State, ts: seq<Id>, o: Id)
    requires g.color.Keys == g.heap.Keys && NoRepeats(ts) && o in g.heap
    requires forall t :: t in ts ==> t in g.heap && g.heap[t].Table?
    ensures var h := ClearTables(g, ts).heap;
            o in h && if o in ts then GoneCleared(g, g.heap[o], h[o]) else h[o] == g.heap[o]
  {
    hide ClearTables, Cleared, GoneCleared;
    ClearTablesHeap(g, ts);
    if o in ts {
      ClearedGone(g, g.heap[o]);
    }
  }

  lemma ClearOneKeys(g: State, t: Id)
    requires t in g.heap && g.heap[t].Table? && g.color.Keys == g.heap.Keys
    ensures ClearTable(g, t).color.Keys == ClearTable(g, t).heap.Keys == g.heap.Keys
  {
  }

  // ---------- Tables when marking is over ----------

  /** Marking since the state `s` is over, and what is marked is what `s` strongly reaches. */
  ghost predicate MarkedFrom(s: State, m: State) {
    && PrunedSince(s, m, {}) && SameRefs(s.heap, m.heap) && MarkInv(m, {}) && m.gray == []
    && m.color.Keys == m.heap.Keys
    && forall x :: x in m.heap ==> (StronglyReachable(s, x) <==> !IsWhite(m.color, x))
  }

  lemma StayIs(s: State, m: State, v: Value)
    requires MarkedFrom(s, m)
    ensures Stays(m, v) == MayStay(s, v)
  {
    hide StronglyReachable, MarkInv, AllRefs;
    SameRefsKinds(s.heap, m.heap);
    StaysSame(s, m, v);
  }

  lemma SameTable(s: State, m: State, o: Id)
    requires PrunedSince(s, m, {}) && o in s.heap && s.heap[o].Table?
    requires o in m.color && !IsWhite(m.color, o) && m.gray == []
    ensures o in m.heap && m.heap[o].Table? && m.heap[o].meta == s.heap[o].meta && m.heap[o].mode == s.heap[o].mode
    ensures m.heap[o].arr == s.heap[o].arr && |m.heap[o].nodes| == |s.heap[o].nodes|
    ensures TableMode(m.heap, m.heap[o]) == TableMode(s.heap, s.heap[o])
    ensures forall i :: 0 <= i < |s.heap[o].nodes| ==>
              m.heap[o].nodes[i] == PrunedEntry(s.heap[o].nodes[i], WeakKeys(s.heap, s.heap[o]) &&
                                                                   WeakValues(s.heap, s.heap[o]))
  {
    hide TableMode, WeakKeys, WeakValues;
    ModeIs(s.heap, s.heap[o]);
    SameValues(s.heap, m.heap, o, STRONG);
    assert SameObject(s.heap[o], m.heap[o]);
    assert EntriesKept(s, m, o, {});
  }

  function PrunedEntry(n: Node, both: bool): Node {
    if n.val == Nil && !both then Emptied(n) else n
  }

  /** A table on the weak list is cleared of what is not held elsewhere. */
  lemma WeakCleared(s: State, m: State, o: Id)
    requires MarkedFrom(s, m) && o in s.heap && s.heap[o].Table? && o in m.weak
    ensures o in m.heap && m.heap[o].Table? && TableAfter(s, s.heap[o], Cleared(m, m.heap[o]))
  {
    hide StronglyReachable, Stays, MayStay, TableMode, AllRefs, WeakKeys, WeakValues, PrunedSince;
    ModeIs(s.heap, s.heap[o]);
    WeakBits(m, o);
    SameTable(s, m, o);
    var t, t1 := s.heap[o], m.heap[o];
    forall v: Value
      ensures Stays(m, v) == MayStay(s, v)
    {
      StayIs(s, m, v);
    }
    hide MarkedFrom, SameRefs, ClearNode, EntryAfter, PrunedEntry;
    forall i | 0 <= i < |t.nodes|
      ensures EntryAfter(s, WeakKeys(s.heap, t), WeakValues(s.heap, t), t.nodes[i], ClearNode(m, t1.nodes[i]))
    {
      EntryCleared(s, m, WeakKeys(s.heap, t), WeakValues(s.heap, t), t.nodes[i]);
    }
  }

  lemma EntryCleared(s: State, m: State, keys: bool, values: bool, n: Node)
    requires (keys || values) && Stays(m, n.key) == MayStay(s, n.key) && Stays(m, n.val) == MayStay(s, n.val)
    ensures EntryAfter(s, keys, values, n, ClearNode(m, PrunedEntry(n, keys && values)))
  {
    hide Stays, MayStay;
  }

  lemma ModeIs(h: Objects, t: Object)
    ensures TableMode(h, t) == Mode(WeakKeys(h, t), WeakValues(h, t))
  {
  }

  lemma WeakBits(m: State, o: Id)
    requires MarkInv(m, {}) && m.gray == [] && o in m.weak
    ensures o in m.heap && m.heap[o].Table? && m.heap[o].weakBits == TableMode(m.heap, m.heap[o])
    ensures IsWeak(m.heap[o].weakBits) && o in m.color && !IsWhite(m.color, o)
  {
    hide AllRefs, TableMode, IsWeak, StrongRefs;
    assert Settled(m, o);
  }

  /** A marked table that is not on the list holds nothing that could go, whatever its mode is. */
  lemma OthersKept(s: State, m: State, o: Id)
    requires MarkedFrom(s, m) && o in s.heap && s.heap[o].Table? && o !in m.weak && !IsWhite(m.color, o)
    ensures o in m.heap && TableAfter(s, s.heap[o], m.heap[o])
  {
    hide StronglyReachable, TableMode, IsWeak, WeakKeys, WeakValues, PrunedSince;
    SameTable(s, m, o);
    SettledTable(m, o);
    var t, t1 := s.heap[o], m.heap[o];
    forall v | v in Values(m.heap, t1, STRONG)
      ensures MayStay(s, v)
    {
      SameRefsKinds(s.heap, m.heap);
      assert v.Ref? ==> v.o in AllRefs(m.heap, o);
    }
    hide MarkedFrom, SameRefs, RefsMarked, Values, MayStay;
    forall i | 0 <= i < |t.arr|
      ensures MayStay(s, t.arr[i])
    {
      SlotHeld(m.heap, t1, i);
    }
    forall i | 0 <= i < |t.nodes|
      ensures EntryAfter(s, WeakKeys(s.heap, t), WeakValues(s.heap, t), t.nodes[i], t1.nodes[i])
    {
      EntryHeld(m.heap, t1, i);
    }
  }

  lemma SlotHeld(h: Objects, t: Object, i: nat)
    requires t.Table? && i < |t.arr|
    ensures t.arr[i] in Values(h, t, STRONG)
  {
    InArrayValues(t.arr, |t.arr|, t.arr[i]);
  }

  lemma EntryHeld(h: Objects, t: Object, i: nat)
    requires t.Table? && i < |t.nodes|
    ensures t.nodes[i].val != Nil ==> t.nodes[i].key in Values(h, t, STRONG) && t.nodes[i].val in Values(h, t, STRONG)
  {
    var n := t.nodes[i];
    if n.val != Nil {
      assert n.key in NodeValues(n, STRONG) && n.val in NodeValues(n, STRONG);
      InHashValues(t.nodes, |t.nodes|, STRONG, n.key);
      InHashValues(t.nodes, |t.nodes|, STRONG, n.val);
    }
  }

  lemma ClearedAfter(s: State, m: State, o: Id)
    requires MarkedFrom(s, m) && o in m.heap && (m.heap[o].Table? ==> !IsWhite(m.color, o))
    ensures ClearTables.requires(m, m.weak) && ObjectAfter(s, ClearTables(m, m.weak).heap, o)
  {
    hide StronglyReachable, TableAfter, Cleared, ClearTables;
    SettledTables(m);
    assert SameObject(s.heap[o], m.heap[o]);
    ClearTablesHeap(m, m.weak);
    if m.heap[o].Table? {
      if o in m.weak {
        WeakCleared(s, m, o);
      } else {
        OthersKept(s, m, o);
      }
    }
  }

  /** Only tables have changed when clearing is over. */
  lemma OthersSame(s: State, m: State, o: Id)
    requires MarkedFrom(s, m) && o in s.heap && !s.heap[o].Table?
    ensures ClearTables.requires(m, m.weak)
    ensures var c := ClearTables(m, m.weak); o in c.heap && c.heap[o] == s.heap[o]
  {
    hide StronglyReachable, Cleared, ClearTables;
    SettledTables(m);
    assert SameObject(s.heap[o], m.heap[o]);
    ClearTablesHeap(m, m.weak);
  }

  // ---------- Sweeping ----------

  /** Sweeping changes nothing about it. */
  lemma AfterSweep(s: State, a: State, r: State, o: Id)
    requires o in Live(a) && ObjectAfter(s, a.heap, o) && Invisible(a, r)
    requires forall x :: x in s.heap && !s.heap[x].Table? ==> x in a.heap && a.heap[x] == s.heap[x]
    requires forall x :: x in a.heap ==> x in s.heap && (a.heap[x].Table? <==> s.heap[x].Table?)
    ensures ObjectAfter(s, r.heap, o)
  {
    hide TableAfter, Live;
    assert SeenAlike(a.heap, r.heap, o);
  }

  /** A table that survives is held elsewhere: only strings and the main thread are fixed. */
  lemma TableHeld(s: State, o: Id)
    requires Inv(s) && Survives(s, o) && s.heap[o].Table?
    ensures StronglyReachable(s, o)
  {
    hide StronglyReachable;
  }

  lemma AtomicMarkedFrom(s: State, g: State)
    requires Inv(s) && Inv(g) && g.phase == Propagate && g.gray == [] && MarkingSince(s, g)
    requires ReadyForAtomic(g) && PrunedSince(s, g, {})
    ensures MarkedFrom(s, AtomicMark(g))
  {
    hide StronglyReachable, AtomicMark, PrunedSince;
    AtomicMarkPruned(s, g);
    MarkedExactly(s, g);
    MarkedInv(g);
  }

  ghost predicate ClearedInto(m: State, a: State) {
    ClearTables.requires(m, m.weak) && a.heap == ClearTables(m, m.weak).heap
  }

  /** Clearing and sweeping, from the state `m` in which marking is over to the end, by way of `a`. */
  lemma ClearedSwept(s: State, m: State, a: State, r: State, o: Id)
    requires MarkedFrom(s, m) && o in m.heap && (m.heap[o].Table? ==> !IsWhite(m.color, o))
    requires ClearedInto(m, a) && o in Live(a) && Invisible(a, r)
    ensures ObjectAfter(s, r.heap, o)
  {
    hide MarkedFrom, ObjectAfter, Live, ClearTables, Invisible;
    TablesStay(s, m);
    ClearedAfter(s, m, o);
    forall x | x in s.heap && !s.heap[x].Table?
      ensures x in a.heap && a.heap[x] == s.heap[x]
    {
      OthersSame(s, m, x);
    }
    AfterSweep(s, a, r, o);
  }

  lemma AtomicAfter(s: State, g: State, r: State, o: Id)
    requires Inv(s) && Inv(g) && g.phase == Propagate && g.gray == [] && MarkingSince(s, g)
    requires ReadyForAtomic(g) && PrunedSince(s, g, {})
    requires Invisible(Atomic(g), r) && o in Live(Atomic(g)) && Survives(s, o)
    ensures ObjectAfter(s, r.heap, o)
  {
    hide PrunedSince, StronglyReachable, Inv, Atomic, AtomicMark, ObjectAfter, Live, Invisible;
    AtomicMarkedFrom(s, g);
    MarkedTable(s, AtomicMark(g), o);
    AtomicHeap(g);
    ClearedSwept(s, AtomicMark(g), Atomic(g), r, o);
  }

  lemma MarkedTable(s: State, m: State, o: Id)
    requires Inv(s) && MarkedFrom(s, m) && Survives(s, o)
    ensures o in m.heap && (m.heap[o].Table? ==> !IsWhite(m.color, o))
  {
    hide StronglyReachable, Inv, MarkInv;
    assert SameObject(s.heap[o], m.heap[o]);
    if s.heap[o].Table? {
      TableHeld(s, o);
    }
  }

  lemma AtomicHeap(g: State)
    requires ReadyForAtomic(g)
    ensures ClearTables.requires(AtomicMark(g), AtomicMark(g).weak)
    ensures Atomic(g).heap == ClearTables(AtomicMark(g), AtomicMark(g).weak).heap && Atomic(g).phase == SweepString
  {
    AtomicMarkKeeps(g);
  }

  lemma TablesStay(s: State, m: State)
    requires MarkedFrom(s, m)
    ensures ClearTables.requires(m, m.weak)
    ensures var c := ClearTables(m, m.weak);
            forall x :: x in c.heap ==> x in s.heap && x in m.heap && (c.heap[x].Table? <==> s.heap[x].Table?)
  {
    hide StronglyReachable;
    SettledTables(m);
    ClearTablesHeap(m, m.weak);
    forall x | x in m.heap
      ensures s.heap[x].Table? <==> m.heap[x].Table?
    {
      assert SameObject(s.heap[x], m.heap[x]);
    }
  }

  lemma {:induction false} MarkToEndAfter(s: State, g: State, o: Id)
    requires Inv(s) && Inv(g) && g.phase == Propagate && MarkingSince(s, g)
    requires PrunedSince(s, g, {}) && o in Live(RunTo(g, Pause))
    ensures ObjectAfter(s, RunTo(g, Pause).heap, o)
    decreases Whites(g.color), |g.gray|
  {
    hide Inv, ObjectAfter, PrunedSince;
    if g.gray != [] {
      GrayHead(g);
      PropagateSince(s, g);
      PropagateMarkProgress(g);
      PropagateMarkInv(g);
      PropagatePruned(s, g);
      MarkToEndAfter(s, PropagateMark(g), o);
    } else {
      AtomicExactly(s, g);
      AtomicInv(g);
      SweepToEnd(Atomic(g));
      AtomicAfter(s, g, RunTo(Atomic(g), Pause), o);
    }
  }

  lemma MarkRootPruned(s: State)
    requires AllWhite(s.color, s.white)
    ensures PrunedSince(s, MarkRoot(s), {})
  {
    hide PrunedSince, RootValues;
    var s1 := Unlisted(s);
    StartPruned(s1);
    MarkInPruned(s1, s1, RootValues(s), {});
    OtherLists(s, s1, MarkIn(s1, RootValues(s)), MarkRoot(s));
  }

  lemma OtherLists(s: State, s1: State, g: State, g': State)
    requires PrunedSince(s1, g, {}) && s.heap == s1.heap && g' == g.(phase := Propagate)
    ensures PrunedSince(s, g', {})
  {
    forall o | o in s.heap && s.heap[o].Table?
      ensures EntriesKept(s, g', o, {})
    {
      assert EntriesKept(s1, g, o, {});
    }
  }

  /** From any collector state, what a full collection leaves of each survivor, told by the state in which its
      marking began: tables lose exactly the weak slots and entries with something that is not held elsewhere,
      and nothing else is different. */
  lemma EntriesExactly(g: State, o: Id)
    requires Inv(g) && o in FullGC(g).heap
    ensures ObjectAfter(FullStart(g), FullGC(g).heap, o)
  {
    hide Inv, Survives, MarkRoot, RunTo, FullStart, AllWhite, ObjectAfter;
    var s := FullStart(g);
    FinalizeWhite(s);
    FullMarks(s);
    MarkRootSince(s);
    MarkRootPruned(s);
    PauseLive(FullGC(g));
    MarkToEndAfter(s, MarkRoot(s), o);
  }
}
