/** The collector's state machine (lgc.cpp): what one step of each phase does. */
module Collector {
  import opened Common
  import opened Heap
  import opened Marking

  datatype Phase = Pause | Propagate | SweepString | Sweep | Finalize

  datatype State = State(
    heap: Objects, color: Colors,
    fixed: set<Id>,           // the reserved strings and the main thread
    white: bool,              // which of the two whites new objects get
    phase: Phase,
    rootgc: seq<Id>,          // every object but strings and open upvalues
    sweepPos: nat,            // what `sweepgc` points at, as a position in `rootgc`
    strings: seq<seq<Id>>,    // the buckets of the string table
    sweepStr: nat,
    uvhead: seq<Id>,          // every open upvalue
    gray: seq<Id>, grayAgain: seq<Id>, weak: seq<Id>,
    main: Id, running: Id, registry: Value, basicMetas: seq<Value>)

  const GCSWEEPMAX: nat := 40

  /** Garbage waiting to be swept: it carries the white of the previous cycle. */
  predicate IsDead(g: State, o: Id) {
    Dead(g.color, g.fixed, g.white, o)
  }

  predicate Dead(c: Colors, fixed: set<Id>, white: bool, o: Id) {
    o in c && c[o] == White(!white) && o !in fixed
  }

  // ---------- Marking ----------

  function MarkIn(g: State, vs: seq<Value>): State {
    var m := MarkAll(g.heap, Marks(g.color, g.gray), vs);
    g.(color := m.color, gray := m.gray)
  }

  /** The values marked at the start of a cycle. */
  function RootValues(g: State): seq<Value> {
    [Ref(g.main)] + (if g.main in g.heap && g.heap[g.main].Thread? then [g.heap[g.main].globals] else [])
    + [g.registry] + g.basicMetas
  }

  function MarkRoot(g: State): State {
    MarkIn(g.(gray := [], grayAgain := [], weak := []), RootValues(g)).(phase := Propagate)
  }

  function RemoveEntry(n: Node): Node {
    if n.val == Nil && n.key.Ref? then n.(key := DeadKey(n.key.o)) else n
  }

  function Prune(nodes: seq<Node>): (r: seq<Node>)
    ensures |r| == |nodes| && forall i :: 0 <= i < |r| ==> r[i] == RemoveEntry(nodes[i])
  {
    if nodes == [] then [] else [RemoveEntry(nodes[0])] + Prune(nodes[1..])
  }

  /** Traverses the table `o`, which has just been taken off the gray list and blackened. */
  function TraverseTable(g: State, o: Id): State
    requires o in g.heap && g.heap[o].Table?
  {
    var t := g.heap[o];
    var mode := TableMode(g.heap, t);
    var t' := t.(weakBits := if IsWeak(mode) then mode else t.weakBits,
                 nodes := if mode.keys && mode.values then t.nodes else Prune(t.nodes));
    var g1 := MarkIn(g, Values(g.heap, t, mode));
    g1.(heap := g1.heap[o := t'],
        weak := if IsWeak(mode) then [o] + g1.weak else g1.weak,
        color := if IsWeak(mode) then g1.color[o := Gray] else g1.color)
  }

  /** Traverses the first gray object. */
  function PropagateMark(g: State): State
    requires g.gray != [] && g.gray[0] in g.heap
  {
    var o := g.gray[0];
    var g1 := g.(gray := g.gray[1..], color := g.color[o := Black]);
    match g.heap[o]
    case Table(_, _, _, _, _) => TraverseTable(g1, o)
    case Thread(_, _, _) =>
      var g2 := g1.(grayAgain := [o] + g1.grayAgain, color := g1.color[o := Gray]);
      MarkIn(g2, Values(g.heap, g.heap[o], STRONG))
    case _ => MarkIn(g1, Values(g.heap, g.heap[o], STRONG))
  }

  // ---------- The lists that hold gray objects ----------

  ghost predicate Listed(g: State) {
    g.color.Keys == g.heap.Keys && GrayListed(g.heap, g.color, g.gray, g.grayAgain, g.weak)
  }

  ghost predicate GrayListed(h: Objects, c: Colors, gray: seq<Id>, again: seq<Id>, weak: seq<Id>)
    requires c.Keys == h.Keys
  {
    && NoRepeats(gray) && NoRepeats(again) && NoRepeats(weak)
    && (forall o :: o in gray ==> o in h && Traversable(h[o]) && c[o] == Gray && o !in again && o !in weak)
    && (forall o :: o in again ==> o in h && (h[o].Table? || h[o].Thread?) && c[o] == Gray && o !in weak)
    && (forall o :: o in weak ==> o in h && h[o].Table? && c[o] == Gray)
  }

  /** The colours a marked object may have, by its kind. */
  ghost predicate ColorFits(o: Object, c: Color) {
    match o
    case Str => c == Gray
    case OpenUpval(_, _) => c == Gray
    case Thread(_, _, _) => c == Gray
    case Udata(_, _) => c == Black
    case ClosedUpval(_) => c == Black
    case _ => true
  }

  ghost predicate ColorsFit(g: State) {
    ColorsFitIn(g.heap, g.color)
  }

  ghost predicate ColorsFitIn(h: Objects, c: Colors) {
    forall o :: o in h && o in c && !c[o].White? ==> ColorFits(h[o], c[o])
  }

  /** A marked object that needs no more work: all it refers to is marked, except for the weak
      part of a table that is on the weak list and so will be cleared. */
  ghost predicate Settled(g: State, o: Id)
    requires o in g.heap && o in g.color
  {
    match g.heap[o]
    case Table(_, _, _, _, bits) =>
      if g.color[o] == Black then RefsMarked(g.heap, g.color, o)
      else
        && o in g.weak && bits == TableMode(g.heap, g.heap[o]) && IsWeak(bits)
        && (forall r :: r in StrongRefs(g.heap, o) && r in g.heap ==> !IsWhite(g.color, r))
    case Thread(_, _, _) => o in g.grayAgain && RefsMarked(g.heap, g.color, o)
    case Closure(_) => g.color[o] == Black && RefsMarked(g.heap, g.color, o)
    case Proto(_) => g.color[o] == Black && RefsMarked(g.heap, g.color, o)
    case _ => RefsMarked(g.heap, g.color, o)
  }

  /** The tricolour invariant: a marked object waits in the gray list, is `pending` for the
      atomic phase, or is settled. */
  ghost predicate Tricolor(g: State, pending: set<Id>) {
    forall o :: o in g.heap && o in g.color && !g.color[o].White? ==> o in g.gray || o in pending || Settled(g, o)
  }

  /** The heap changed only in ways that leave every reference as it was. */
  ghost predicate SameObject(a: Object, b: Object) {
    a == b ||
    (a.Table? && b.Table? && a.meta == b.meta && a.arr == b.arr && a.mode == b.mode
     && (b.nodes == a.nodes || b.nodes == Prune(a.nodes)))
  }

  ghost predicate SameRefs(h: Objects, h': Objects) {
    h'.Keys == h.Keys && forall o :: o in h ==> SameObject(h[o], h'[o])
  }

  lemma {:induction false} PruneValues(nodes: seq<Node>, n: nat, mode: Mode)
    requires n <= |nodes|
    ensures HashValues(Prune(nodes), n, mode) == HashValues(nodes, n, mode)
  {
    if n > 0 {
      PruneValues(nodes, n - 1, mode);
    }
  }

  lemma SameValues(h: Objects, h': Objects, o: Id, mode: Mode)
    requires SameRefs(h, h') && o in h
    ensures Values(h', h'[o], mode) == Values(h, h[o], mode)
    ensures TableMode(h', h'[o]) == TableMode(h, h[o])
  {
    assert SameObject(h[o], h'[o]);
    if h[o].Table? {
      assert h[o].meta.Ref? && h[o].meta.o in h ==> SameObject(h[h[o].meta.o], h'[h[o].meta.o]);
      PruneValues(h[o].nodes, |h[o].nodes|, mode);
    } else if h[o].OpenUpval? && h[o].thread in h {
      assert SameObject(h[h[o].thread], h'[h[o].thread]);
    }
  }

  lemma SameRefsTransitive(a: Objects, b: Objects, c: Objects)
    requires SameRefs(a, b) && SameRefs(b, c)
    ensures SameRefs(a, c)
  {
    forall o | o in a
      ensures SameObject(a[o], c[o])
    {
      assert SameObject(a[o], b[o]) && SameObject(b[o], c[o]);
      if a[o].Table? && b[o].nodes == Prune(a[o].nodes) && c[o].nodes == Prune(b[o].nodes) {
        assert c[o].nodes == b[o].nodes;
      }
    }
  }

  /** Settled objects stay settled while marking goes on. */
  lemma SettledStays(g: State, g': State, o: Id)
    requires SameRefs(g.heap, g'.heap) && o in g.heap && o in g.color && o in g'.color
    requires g'.color[o] == g.color[o] && g'.heap[o] == g.heap[o]
    requires forall x :: IsWhite(g'.color, x) ==> IsWhite(g.color, x) || x !in g.heap
    requires forall x :: x in g.weak ==> x in g'.weak
    requires forall x :: x in g.grayAgain ==> x in g'.grayAgain
    requires Settled(g, o)
    ensures Settled(g', o)
  {
    SameValues(g.heap, g'.heap, o, STRONG);
    SameValues(g.heap, g'.heap, o, TableMode(g.heap, g.heap[o]));
  }
}
