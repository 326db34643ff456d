/** The atomic end of the mark phase (lgc.cpp, atomic, remarkupvals and cleartable). */
module AtomicPhase {
  import opened Common
  import opened Heap
  import opened Marking
  import opened Collector
  import opened Propagation

  function SetOf(s: seq<Id>): (r: set<Id>)
    ensures forall x :: x in r <==> x in s
  {
    set x | x in s
  }

  // ---------- Remarking open upvalues ----------

  function RemarkOne(g: State, u: Id): State {
    if u in g.heap && g.heap[u].OpenUpval? && u in g.color && g.color[u] == Gray then
      MarkIn(g, [StackValue(g.heap, g.heap[u].thread, g.heap[u].slot)])
    else g
  }

  function RemarkUpvals(g: State, us: seq<Id>): (r: State)
    ensures SameLists(g, r)
    decreases |us|
  {
    if us == [] then g else RemarkUpvals(RemarkOne(g, us[0]), us[1..])
  }

  lemma {:induction false} RemarkUpvalsKeeps(g: State, us: seq<Id>, pending: set<Id>)
    requires MarkInv(g, pending + SetOf(us))
    requires forall u :: u in us ==> u in g.heap && g.heap[u].OpenUpval?
    ensures MarkInv(RemarkUpvals(g, us), pending) && Advances(g, RemarkUpvals(g, us))
    decreases |us|
  {
    if us == [] {
      assert pending + SetOf(us) == pending;
    } else {
      var u := us[0];
      var g1 := RemarkOne(g, u);
      var rest := pending + SetOf(us[1..]);
      assert g1 == g || g1 == MarkIn(g, [StackValue(g.heap, g.heap[u].thread, g.heap[u].slot)]);
      if g1 != g {
        MarkInKeeps(g, [StackValue(g.heap, g.heap[u].thread, g.heap[u].slot)], pending + SetOf(us));
        MarkInMarks(g, [StackValue(g.heap, g.heap[u].thread, g.heap[u].slot)]);
        assert Settled(g1, u);
      }
      forall o | o in g1.heap && o in g1.color && !g1.color[o].White?
        ensures o in g1.gray || o in rest || Settled(g1, o)
      {
        if o == u {
          assert g1.color[u] == Gray by {
            assert ColorFits(g1.heap[u], g1.color[u]);
          }
        }
      }
      RemarkUpvalsKeeps(g1, us[1..], pending);
      SameRefsTransitive(g.heap, g1.heap, RemarkUpvals(g, us).heap);
    }
  }

  // ---------- The marking half of the atomic phase ----------

  ghost function Waiting(g: State): set<Id> {
    SetOf(g.weak) + SetOf(g.grayAgain)
  }

  /** What the atomic phase needs of the mark phase. */
  ghost predicate ReadyForAtomic(g: State) {
    && MarkInv(g, Waiting(g) + SetOf(g.uvhead))
    && g.gray == []
    && forall u :: u in g.uvhead ==> u in g.heap && g.heap[u].OpenUpval?
  }

  function AfterRemark(g: State): (r: State)
    requires ReadyForAtomic(g)
    ensures MarkInv(r, Waiting(g)) && r.gray == [] && Advances(g, r) && SameLists(g, r)
  {
    RemarkUpvalsKeeps(g, g.uvhead, Waiting(g));
    var g1 := RemarkUpvals(g, g.uvhead);
    PropagateAllKeeps(g1, Waiting(g));
    SameRefsTransitive(g.heap, g1.heap, PropagateAll(g1).heap);
    PropagateAll(g1)
  }

  /** The weak tables are traversed again, and the running thread and basic metatables marked. */
  function WeakRemarked(g: State): State
    requires ReadyForAtomic(g)
  {
    var g2 := AfterRemark(g);
    MarkIn(g2.(gray := g2.weak, weak := []), LateRoots(g))
  }

  function LateRoots(g: State): seq<Value> {
    [Ref(g.running)] + g.basicMetas
  }

  lemma WeakRemarkedKeeps(g: State)
    requires ReadyForAtomic(g)
    ensures var g2 := AfterRemark(g);
            && MarkInv(WeakRemarked(g), SetOf(g2.grayAgain))
            && Advances(g2.(weak := []), WeakRemarked(g))
            && forall r :: r in Targets(LateRoots(g)) && r in g.heap ==> !IsWhite(WeakRemarked(g).color, r)
  {
    var g2 := AfterRemark(g);
    var g3 := g2.(gray := g2.weak, weak := []);
    RequeueWeak(g, g2);
    MarkInKeeps(g3, LateRoots(g), SetOf(g2.grayAgain));
    MarkInMarks(g3, LateRoots(g));
  }

  function AfterWeak(g: State): (r: State)
    requires ReadyForAtomic(g)
    ensures SameLists(g, r)
  {
    WeakRemarkedKeeps(g);
    PropagateAll(WeakRemarked(g))
  }

  lemma AfterWeakKeeps(g: State)
    requires ReadyForAtomic(g)
    ensures var g2 := AfterRemark(g);
            && MarkInv(AfterWeak(g), SetOf(g2.grayAgain)) && AfterWeak(g).gray == []
            && Advances(WeakRemarked(g), AfterWeak(g))
            && forall o :: o in g2.grayAgain ==> o in AfterWeak(g).grayAgain
  {
    WeakRemarkedKeeps(g);
    PropagateAllKeeps(WeakRemarked(g), SetOf(AfterRemark(g).grayAgain));
  }

  /** The weak tables go back to the gray list, to be traversed again. */
  lemma RequeueWeak(g: State, g2: State)
    requires MarkInv(g2, Waiting(g)) && g2.gray == [] && Advances(g, g2)
    ensures MarkInv(g2.(gray := g2.weak, weak := []), SetOf(g2.grayAgain))
  {
    var g3 := g2.(gray := g2.weak, weak := []);
    forall o | o in g3.heap && o in g3.color && !g3.color[o].White?
      ensures o in g3.gray || o in SetOf(g2.grayAgain) || Settled(g3, o)
    {
      if o !in g2.weak && o !in g2.grayAgain {
        assert Settled(g2, o);
      }
    }
  }

  lemma RequeueAgain(g4: State, pending: set<Id>)
    requires MarkInv(g4, pending) && g4.gray == [] && forall o :: o in pending ==> o in g4.grayAgain
    ensures MarkInv(g4.(gray := g4.grayAgain, grayAgain := []), {})
  {
    var g5 := g4.(gray := g4.grayAgain, grayAgain := []);
    forall o | o in g5.heap && o in g5.color && !g5.color[o].White?
      ensures o in g5.gray || Settled(g5, o)
    {
      if o !in g4.grayAgain {
        assert Settled(g4, o);
      }
    }
  }

  /** Last, the objects caught by the backward barrier and the threads. */
  function AtomicMark(g: State): (r: State)
    requires ReadyForAtomic(g)
    ensures SameLists(g, r)
  {
    var g4 := AfterWeak(g);
    AfterWeakKeeps(g);
    RequeueAgain(g4, SetOf(AfterRemark(g).grayAgain));
    PropagateAll(g4.(gray := g4.grayAgain, grayAgain := []))
  }

  lemma AtomicMarkKeeps(g: State)
    requires ReadyForAtomic(g)
    ensures MarkInv(AtomicMark(g), {}) && AtomicMark(g).gray == []
    ensures Advances(AfterWeak(g).(grayAgain := []), AtomicMark(g))
  {
    var g4 := AfterWeak(g);
    AfterWeakKeeps(g);
    RequeueAgain(g4, SetOf(AfterRemark(g).grayAgain));
    PropagateAllKeeps(g4.(gray := g4.grayAgain, grayAgain := []), {});
  }

  /** What the whole marking half does to the heap and the colours. */
  lemma AtomicMarkAdvances(g: State)
    requires ReadyForAtomic(g)
    ensures var r := AtomicMark(g);
            && SameRefs(g.heap, r.heap) && r.color.Keys == g.color.Keys && Whites(r.color) <= Whites(g.color)
            && forall x :: x in Targets(LateRoots(g)) && x in g.heap ==> !IsWhite(r.color, x)
  {
    var r := AtomicMark(g);
    WeakRemarkedKeeps(g);
    AfterWeakKeeps(g);
    AtomicMarkKeeps(g);
    SameRefsTransitive(g.heap, AfterRemark(g).heap, WeakRemarked(g).heap);
    SameRefsTransitive(g.heap, WeakRemarked(g).heap, AfterWeak(g).heap);
    SameRefsTransitive(g.heap, AfterWeak(g).heap, r.heap);
    assert forall o :: IsWhite(r.color, o) ==> o in Whites(WeakRemarked(g).color);
  }

  // ---------- Clearing weak tables ----------

  predicate IsString(h: Objects, v: Value) {
    v.Ref? && v.o in h && h[v.o].Str?
  }

  /** Whether a value may stay in a weak table: strings always do. */
  predicate Stays(g: State, v: Value) {
    !(v.Ref? && IsWhite(g.color, v.o)) || IsString(g.heap, v)
  }

  function ClearArray(g: State, arr: seq<Value>): (r: seq<Value>)
    ensures |r| == |arr| && forall i :: 0 <= i < |r| ==> r[i] == if Stays(g, arr[i]) then arr[i] else Nil
  {
    if arr == [] then [] else [if Stays(g, arr[0]) then arr[0] else Nil] + ClearArray(g, arr[1..])
  }

  function ClearNode(g: State, n: Node): Node {
    if n.val == Nil || (Stays(g, n.key) && Stays(g, n.val)) then n else RemoveEntry(n.(val := Nil))
  }

  function ClearNodes(g: State, nodes: seq<Node>): (r: seq<Node>)
    ensures |r| == |nodes| && forall i :: 0 <= i < |r| ==> r[i] == ClearNode(g, nodes[i])
  {
    if nodes == [] then [] else [ClearNode(g, nodes[0])] + ClearNodes(g, nodes[1..])
  }

  /** The strings that clearing `t` marks, as it finds them in a place it may clear. */
  function KeptStrings(g: State, t: Object): (r: set<Id>)
    requires t.Table?
    ensures forall o :: o in r ==> o in g.heap && g.heap[o].Str?
  {
    (set v | v in t.arr && t.weakBits.values && IsString(g.heap, v) :: v.o) +
    (set n | n in t.nodes && n.val != Nil && IsString(g.heap, n.key) :: n.key.o) +
    (set n | n in t.nodes && n.val != Nil && Stays(g, n.key) && IsString(g.heap, n.val) :: n.val.o)
  }

  function MarkStrings(c: Colors, s: set<Id>): (r: Colors)
    ensures r.Keys == c.Keys
    ensures forall o :: o in c ==> r[o] == if o in s && c[o].White? then Gray else c[o]
  {
    map o | o in c :: if o in s && c[o].White? then Gray else c[o]
  }

  function ClearTable(g: State, o: Id): State
    requires o in g.heap && g.heap[o].Table?
  {
    var t := g.heap[o];
    var t' := t.(arr := if t.weakBits.values then ClearArray(g, t.arr) else t.arr, nodes := ClearNodes(g, t.nodes));
    g.(heap := g.heap[o := t'], color := MarkStrings(g.color, KeptStrings(g, t)))
  }

  function ClearTables(g: State, ts: seq<Id>): (r: State)
    requires forall o :: o in ts ==> o in g.heap && g.heap[o].Table?
    ensures r == g.(heap := r.heap, color := r.color)
    decreases |ts|
  {
    if ts == [] then g else ClearTables(ClearTable(g, ts[0]), ts[1..])
  }

  /** What the marking half leaves in a weak table: only weak references may be white. */
  ghost predicate OnlyWeakWhite(g: State, o: Id)
    requires o in g.heap
  {
    && g.heap[o].Table? && g.heap[o].weakBits == TableMode(g.heap, g.heap[o])
    && forall r :: r in StrongRefs(g.heap, o) && r in g.heap ==> !IsWhite(g.color, r)
  }

  lemma ClearTableWorks(g: State, o: Id)
    requires o in g.heap && OnlyWeakWhite(g, o)
    ensures var g' := ClearTable(g, o); RefsMarked(g'.heap, g'.color, o)
  {
    var t := g.heap[o];
    var g' := ClearTable(g, o);
    var t' := g'.heap[o];
    forall v | v in Values(g'.heap, t', STRONG) && v.Ref? && v.o in g.heap
      ensures !IsWhite(g'.color, v.o)
    {
      if v == t.meta {
        assert v.o in StrongRefs(g.heap, o);
      } else if v in ArrayValues(t'.arr, |t'.arr|) {
        InArrayValues(t'.arr, |t'.arr|, v);
        ClearedArray(g, o, v);
      } else {
        InHashValues(t'.nodes, |t'.nodes|, STRONG, v);
        var i :| 0 <= i < |t'.nodes| && v in NodeValues(t'.nodes[i], STRONG);
        ClearedHash(g, o, t.nodes[i], v);
      }
    }
  }

  lemma ClearedArray(g: State, o: Id, v: Value)
    requires o in g.heap && OnlyWeakWhite(g, o)
    requires v in ClearTable(g, o).heap[o].arr && v.Ref? && v.o in g.heap
    ensures !IsWhite(ClearTable(g, o).color, v.o)
  {
    var t := g.heap[o];
    if t.weakBits.values {
      assert v in t.arr && Stays(g, v);
      assert IsString(g.heap, v) ==> v.o in KeptStrings(g, t);
    } else {
      InArrayValues(t.arr, |t.arr|, v);
      assert v in Values(g.heap, t, t.weakBits);
      assert v.o in StrongRefs(g.heap, o);
    }
  }

  lemma ClearedHash(g: State, o: Id, n: Node, v: Value)
    requires o in g.heap && g.heap[o].Table? && n in g.heap[o].nodes
    requires v in NodeValues(ClearNode(g, n), STRONG) && v.Ref? && v.o in g.heap
    ensures !IsWhite(ClearTable(g, o).color, v.o)
  {
    var t := g.heap[o];
    assert n.val != Nil && Stays(g, n.key) && Stays(g, n.val);
    assert IsString(g.heap, v) ==> v.o in KeptStrings(g, t);
  }

  /** Two heaps in which `x` refers to the same things, because only tables changed, and not
      in how weak they make others. */
  lemma FrameValues(h: Objects, h': Objects, x: Id, mode: Mode)
    requires h'.Keys == h.Keys && x in h && h'[x] == h[x]
    requires forall y :: y in h && !h[y].Table? ==> h'[y] == h[y]
    requires forall y :: y in h && h[y].Table? ==> h'[y].Table? && h'[y].mode == h[y].mode
    ensures Values(h', h'[x], mode) == Values(h, h[x], mode)
    ensures TableMode(h', h'[x]) == TableMode(h, h[x])
  {
  }

  /** Clearing one table changes neither what other objects refer to nor how weak they are. */
  lemma ClearTableFrame(g: State, o: Id, x: Id)
    requires o in g.heap && g.heap[o].Table? && x in g.heap && x != o
    ensures var g' := ClearTable(g, o);
            && AllRefs(g'.heap, x) == AllRefs(g.heap, x)
            && StrongRefs(g'.heap, x) == StrongRefs(g.heap, x)
            && TableMode(g'.heap, g'.heap[x]) == TableMode(g.heap, g.heap[x])
  {
    FrameValues(g.heap, ClearTable(g, o).heap, x, STRONG);
    FrameValues(g.heap, ClearTable(g, o).heap, x, TableMode(g.heap, g.heap[x]));
  }

  lemma {:induction false} ClearTablesWorks(g: State, ts: seq<Id>)
    requires g.color.Keys == g.heap.Keys && NoRepeats(ts)
    requires forall o :: o in ts ==> o in g.heap && g.heap[o].Table? && OnlyWeakWhite(g, o)
    requires forall o :: o in g.heap && !IsWhite(g.color, o) && o !in ts ==> RefsMarked(g.heap, g.color, o)
    ensures var r := ClearTables(g, ts);
            && r.color.Keys == r.heap.Keys == g.heap.Keys
            && forall o :: o in r.heap && !IsWhite(r.color, o) ==> RefsMarked(r.heap, r.color, o)
    decreases |ts|
  {
    if ts != [] {
      var t := ts[0];
      var g1 := ClearTable(g, t);
      ClearTableWorks(g, t);
      forall o | o in ts[1..]
        ensures o in g1.heap && OnlyWeakWhite(g1, o)
      {
        assert o in ts && o != t;
        ClearTableFrame(g, t, o);
      }
      forall o | o in g1.heap && !IsWhite(g1.color, o) && o !in ts[1..]
        ensures RefsMarked(g1.heap, g1.color, o)
      {
        if o != t {
          ClearTableFrame(g, t, o);
          if IsWhite(g.color, o) {
            assert g.heap[o].Str?;
          } else {
            assert o !in ts;
          }
        }
      }
      ClearTablesWorks(g1, ts[1..]);
    }
  }

  // ---------- The atomic phase ----------

  function Flip(g: State): State {
    g.(white := !g.white, sweepStr := 0, sweepPos := 0, phase := SweepString)
  }

  function Atomic(g: State): State
    requires ReadyForAtomic(g)
  {
    var r := AtomicMark(g);
    AtomicMarkKeeps(g);
    Flip(ClearTables(r, r.weak))
  }

  /** No marked object refers, even weakly, to an unmarked one. */
  ghost predicate MarksClosed(h: Objects, c: Colors) {
    c.Keys == h.Keys && forall o :: o in h && !IsWhite(c, o) ==> RefsMarked(h, c, o)
  }

  lemma AtomicCloses(g: State)
    requires ReadyForAtomic(g)
    ensures MarksClosed(Atomic(g).heap, Atomic(g).color) && Atomic(g).heap.Keys == g.heap.Keys
  {
    var r := AtomicMark(g);
    AtomicMarkKeeps(g);
    AtomicMarkAdvances(g);
    SettledTables(r);
    ClearTablesWorks(r, r.weak);
  }

  lemma SettledTables(r: State)
    requires MarkInv(r, {}) && r.gray == []
    ensures forall o :: o in r.weak ==> o in r.heap && OnlyWeakWhite(r, o)
    ensures forall o :: o in r.heap && !IsWhite(r.color, o) && o !in r.weak ==> RefsMarked(r.heap, r.color, o)
  {
    forall o | o in r.weak
      ensures o in r.heap && OnlyWeakWhite(r, o)
    {
      assert Settled(r, o);
    }
    forall o | o in r.heap && !IsWhite(r.color, o) && o !in r.weak
      ensures RefsMarked(r.heap, r.color, o)
    {
      assert Settled(r, o);
    }
  }
}
