/** What every reachable state of the collector satisfies. */
module Invariant {
  import opened Common
  import opened Heap
  import opened Marking
  import opened Collector
  import opened Propagation
  import opened AtomicPhase

  // ---------- Every object is on exactly one list ----------

  predicate OnRoot(o: Object) {
    !o.Str? && !o.OpenUpval?
  }

  ghost predicate RootsListed(h: Objects, rootgc: seq<Id>) {
    NoRepeats(rootgc) && forall o :: o in rootgc <==> o in h && OnRoot(h[o])
  }

  predicate InBucket(strings: seq<seq<Id>>, o: Id, i: int) {
    0 <= i < |strings| && o in strings[i]
  }

  ghost predicate StringsListed(h: Objects, strings: seq<seq<Id>>) {
    && |strings| > 0
    && (forall o :: o in h && h[o].Str? ==> exists i :: InBucket(strings, o, i))
    && (forall o, i :: InBucket(strings, o, i) ==> o in h && h[o].Str?)
    && (forall o, i, j :: InBucket(strings, o, i) && InBucket(strings, o, j) ==> i == j)
  }

  ghost predicate OpenListed(h: Objects, th: Id)
    requires th in h && h[th].Thread?
  {
    && NoRepeats(h[th].openUpvals)
    && forall u :: u in h[th].openUpvals ==>
         u in h && h[u].OpenUpval? && h[u].thread == th && h[u].slot < |h[th].stack|
  }

  ghost predicate UpvalsListed(h: Objects) {
    && (forall th :: th in h && h[th].Thread? ==> OpenListed(h, th))
    && (forall u :: u in h && h[u].OpenUpval? ==>
          h[u].thread in h && h[h[u].thread].Thread? && u in h[h[u].thread].openUpvals)
  }

  ghost predicate HeadListed(h: Objects, uvhead: seq<Id>) {
    forall u :: u in uvhead <==> u in h && h[u].OpenUpval?
  }

  ghost predicate FixedKinds(h: Objects, fixed: set<Id>, main: Id, running: Id) {
    && main in fixed && main in h && h[main].Thread?
    && running in h && h[running].Thread?
    && forall o :: o in fixed ==> o in h && (h[o].Str? || o == main)
  }

  ghost predicate Registered(g: State) {
    && g.color.Keys == g.heap.Keys && g.sweepPos <= |g.rootgc|
    && RootsListed(g.heap, g.rootgc) && StringsListed(g.heap, g.strings)
    && UpvalsListed(g.heap) && HeadListed(g.heap, g.uvhead)
    && FixedKinds(g.heap, g.fixed, g.main, g.running)
  }

  // ---------- No live object refers to a dead or freed one ----------

  ghost function LiveSet(h: Objects, c: Colors, fixed: set<Id>, white: bool): set<Id> {
    set o | o in h && !Dead(c, fixed, white, o)
  }

  ghost function Live(g: State): set<Id> {
    LiveSet(g.heap, g.color, g.fixed, g.white)
  }

  ghost function RootSet(main: Id, running: Id, registry: Value, metas: seq<Value>): set<Id> {
    {main, running} + Targets([registry] + metas)
  }

  ghost function Roots(g: State): set<Id> {
    RootSet(g.main, g.running, g.registry, g.basicMetas)
  }

  /** `live` is closed under references. */
  ghost predicate RefsWithin(h: Objects, live: set<Id>) {
    forall o :: o in live && o in h ==> AllRefs(h, o) <= live
  }

  ghost predicate NoDangling(g: State) {
    Roots(g) <= Live(g) && RefsWithin(g.heap, Live(g))
  }

  // ---------- What each phase adds ----------

  /** An object the sweep has passed, and the open upvalues it passes with a thread. */
  ghost predicate Swept(h: Objects, c: Colors, white: bool, o: Id) {
    && o in c && c[o] == White(white)
    && (o in h && h[o].Thread? ==> forall u :: u in h[o].openUpvals ==> u in c && c[u] == White(white))
  }

  ghost predicate AllWhite(c: Colors, white: bool) {
    forall o :: o in c ==> c[o] == White(white)
  }

  ghost predicate NoOtherWhite(c: Colors, white: bool) {
    forall o :: o in c ==> c[o] != White(!white)
  }

  ghost predicate GrayWaits(h: Objects, c: Colors, gray: seq<Id>, again: seq<Id>, weak: seq<Id>) {
    forall o :: o in h && o in c && c[o] == Gray && Traversable(h[o]) ==> o in gray || o in again || o in weak
  }

  ghost predicate BlackClosed(h: Objects, c: Colors) {
    forall o :: o in h && o in c && c[o] == Black ==> RefsMarked(h, c, o)
  }

  ghost predicate FirstRootsMarked(c: Colors, main: Id, registry: Value) {
    !IsWhite(c, main) && (registry.Ref? ==> !IsWhite(c, registry.o))
  }

  /** In the mark phase: gray objects are listed and black objects refer to no white ones. */
  ghost predicate MarkPhase(g: State) {
    && Listed(g) && ColorsFit(g) && NoOtherWhite(g.color, g.white)
    && GrayWaits(g.heap, g.color, g.gray, g.grayAgain, g.weak)
    && BlackClosed(g.heap, g.color)
    && FirstRootsMarked(g.color, g.main, g.registry)
  }

  ghost predicate StringsSwept(strings: seq<seq<Id>>, c: Colors, white: bool, n: int) {
    forall o, i :: InBucket(strings, o, i) && i < n ==> o in c && c[o] == White(white)
  }

  ghost predicate RootsSwept(h: Objects, c: Colors, white: bool, rootgc: seq<Id>, n: int) {
    forall i :: 0 <= i < n <= |rootgc| ==> Swept(h, c, white, rootgc[i])
  }

  /** Only a closed upvalue may be black. */
  ghost predicate OpenNotBlack(h: Objects, c: Colors) {
    forall u :: u in h && h[u].OpenUpval? && u in c ==> c[u] != Black
  }

  ghost predicate PhaseInv(g: State) {
    match g.phase
    case Pause => AllWhite(g.color, g.white)
    case Propagate => MarkPhase(g)
    case SweepString =>
      && g.sweepStr < |g.strings| && g.sweepPos == 0
      && StringsSwept(g.strings, g.color, g.white, g.sweepStr)
      && OpenNotBlack(g.heap, g.color)
    case Sweep =>
      && StringsSwept(g.strings, g.color, g.white, |g.strings|)
      && RootsSwept(g.heap, g.color, g.white, g.rootgc, g.sweepPos)
      && OpenNotBlack(g.heap, g.color)
    case Finalize => AllWhite(g.color, g.white)
  }

  ghost predicate Inv(g: State) {
    Registered(g) && NoDangling(g) && PhaseInv(g)
  }

  // ---------- The mark phase in the terms of the tricolour invariant ----------

  lemma MarkPhaseReady(g: State)
    requires Registered(g) && MarkPhase(g)
    ensures MarkInv(g, Waiting(g) + SetOf(g.uvhead))
  {
    forall o | o in g.heap && o in g.color && !g.color[o].White?
      ensures o in g.gray || o in Waiting(g) + SetOf(g.uvhead) || Settled(g, o)
    {
      assert ColorFits(g.heap[o], g.color[o]);
    }
  }

  lemma MarkPhaseFrom(g: State)
    requires MarkInv(g, Waiting(g) + SetOf(g.uvhead)) && NoOtherWhite(g.color, g.white)
    requires HeadListed(g.heap, g.uvhead) && FirstRootsMarked(g.color, g.main, g.registry)
    ensures MarkPhase(g)
  {
    forall o | o in g.heap && !g.color[o].White?
      ensures g.color[o] == Gray && Traversable(g.heap[o]) ==> o in g.gray || o in g.grayAgain || o in g.weak
      ensures g.color[o] == Black ==> RefsMarked(g.heap, g.color, o)
    {
      assert ColorFits(g.heap[o], g.color[o]);
    }
  }
}
