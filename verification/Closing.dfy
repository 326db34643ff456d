/** Closing an upvalue keeps the invariant in every phase (lfunc.cpp, luaF_close; lgc.cpp,
    luaC_linkupval). */
module Closing {
  import opened Common
  import opened Heap
  import opened Marking
  import opened Collector
  import opened Propagation
  import opened AtomicPhase
  import opened Sweeping
  import opened Invariant
  import opened MarkSteps
  import opened SweepSteps

  /** The heap after the first open upvalue of `th` has been closed. */
  ghost function ClosedHeap(h: Objects, th: Id): Objects
    requires th in h && h[th].Thread? && h[th].openUpvals != []
  {
    var u := h[th].openUpvals[0];
    var v := if u in h && h[u].OpenUpval? then StackValue(h, h[u].thread, h[u].slot) else Nil;
    h[th := h[th].(openUpvals := h[th].openUpvals[1..])][u := ClosedUpval(v)]
  }

  ghost predicate FirstOpen(h: Objects, th: Id, u: Id) {
    th in h && h[th].Thread? && h[th].openUpvals != [] && u == h[th].openUpvals[0]
  }

  lemma FirstOpenFacts(h: Objects, th: Id, u: Id)
    requires UpvalsListed(h) && FirstOpen(h, th, u)
    ensures u in h && h[u].OpenUpval? && h[u].thread == th && u !in h[th].openUpvals[1..]
    ensures NoRepeats(h[th].openUpvals[1..]) && forall x :: x in h[th].openUpvals <==>
            x == u || x in h[th].openUpvals[1..]
    ensures forall t :: t in h && h[t].Thread? && t != th ==> u !in h[t].openUpvals
  {
    assert OpenListed(h, th);
    assert u in h[th].openUpvals;
    forall t | t in h && h[t].Thread? && t != th
      ensures u !in h[t].openUpvals
    {
      assert OpenListed(h, t);
    }
  }

  lemma ClosedUpvals(h: Objects, th: Id, u: Id)
    requires UpvalsListed(h) && FirstOpen(h, th, u)
    ensures UpvalsListed(ClosedHeap(h, th)) && UpvalsListed(ClosedHeap(h, th) - {u})
  {
    FirstOpenFacts(h, th, u);
    var h' := ClosedHeap(h, th);
    forall t | t in h' && h'[t].Thread?
      ensures OpenListed(h', t) && t in h' - {u} && OpenListed(h' - {u}, t)
    {
      assert OpenListed(h, t);
    }
    forall x | x in h' && h'[x].OpenUpval?
      ensures h'[x].thread in h' && h'[h'[x].thread].Thread? && x in h'[h'[x].thread].openUpvals
    {
      assert h[x].OpenUpval? && OpenListed(h, h[x].thread);
    }
  }

  lemma ClosedRefs(h: Objects, th: Id, u: Id, o: Id)
    requires UpvalsListed(h) && FirstOpen(h, th, u) && o in h
    ensures AllRefs(ClosedHeap(h, th), o) == AllRefs(h, o)
  {
    FirstOpenFacts(h, th, u);
    var h' := ClosedHeap(h, th);
    if o == u {
      assert Values(h', h'[u], STRONG) == Values(h, h[u], STRONG);
    } else if o == th {
      assert Values(h', h'[th], STRONG) == Values(h, h[th], STRONG);
    } else {
      assert Values(h', h'[o], STRONG) == Values(h, h[o], STRONG);
    }
  }

  lemma ClosedWithin(h: Objects, th: Id, u: Id, live: set<Id>)
    requires UpvalsListed(h) && FirstOpen(h, th, u) && RefsWithin(h, live)
    ensures RefsWithin(ClosedHeap(h, th), live)
  {
    FirstOpenFacts(h, th, u);
    forall o | o in live && o in ClosedHeap(h, th)
      ensures AllRefs(ClosedHeap(h, th), o) <= live
    {
      ClosedRefs(h, th, u, o);
    }
  }

  /** `h'` is `h` with the first open upvalue `u` of `th` closed. */
  ghost predicate ClosedFrom(h: Objects, h': Objects, th: Id, u: Id) {
    && h'.Keys == h.Keys && th in h && u in h && th != u
    && h[th].Thread? && h'[th].Thread? && h[u].OpenUpval? && h'[u].ClosedUpval?
    && forall o :: o in h && o != th && o != u ==> h'[o] == h[o]
  }

  lemma ClosedShape(h: Objects, th: Id, u: Id)
    requires UpvalsListed(h) && FirstOpen(h, th, u)
    ensures ClosedFrom(h, ClosedHeap(h, th), th, u)
  {
    FirstOpenFacts(h, th, u);
  }

  lemma ClosedStrings(h: Objects, h': Objects, th: Id, u: Id, strings: seq<seq<Id>>)
    requires ClosedFrom(h, h', th, u) && StringsListed(h, strings)
    ensures StringsListed(h', strings) && StringsListed(h' - {u}, strings)
  {
    forall o | o in h' && h'[o].Str?
      ensures exists i :: InBucket(strings, o, i)
    {
      assert h[o].Str?;
    }
    forall o, i | InBucket(strings, o, i)
      ensures o in h' && h'[o].Str? && o != u
    {
    }
  }

  lemma ClosedLists(h: Objects, h': Objects, th: Id, u: Id, rootgc: seq<Id>, uvhead: seq<Id>)
    requires ClosedFrom(h, h', th, u) && RootsListed(h, rootgc) && HeadListed(h, uvhead)
    ensures RootsListed(h', [u] + rootgc) && RootsListed(h' - {u}, rootgc)
    ensures HeadListed(h', Remove(uvhead, u)) && HeadListed(h' - {u}, Remove(uvhead, u))
  {
    assert u !in rootgc;
    forall o
      ensures o in [u] + rootgc <==> o in h' && OnRoot(h'[o])
      ensures o in rootgc <==> o in h' - {u} && OnRoot((h' - {u})[o])
    {
      if o != u && o in h {
        assert OnRoot(h'[o]) == OnRoot(h[o]);
      }
    }
  }

  lemma ClosedFixed(h: Objects, h': Objects, th: Id, u: Id, fixed: set<Id>, main: Id, running: Id)
    requires ClosedFrom(h, h', th, u) && FixedKinds(h, fixed, main, running)
    ensures FixedKinds(h', fixed, main, running) && FixedKinds(h' - {u}, fixed, main, running)
  {
  }

  /** Everything but the phase's own part. */
  lemma ClosedRegistered(g: State, th: Id, u: Id)
    requires Registered(g) && FirstOpen(g.heap, th, u)
    ensures var h' := ClosedHeap(g.heap, th);
            && RootsListed(h', [u] + g.rootgc) && StringsListed(h', g.strings)
            && HeadListed(h', Remove(g.uvhead, u)) && FixedKinds(h', g.fixed, g.main, g.running)
            && UpvalsListed(h') && h'.Keys == g.heap.Keys
  {
    var h' := ClosedHeap(g.heap, th);
    ClosedShape(g.heap, th, u);
    ClosedUpvals(g.heap, th, u);
    ClosedStrings(g.heap, h', th, u, g.strings);
    ClosedLists(g.heap, h', th, u, g.rootgc, g.uvhead);
    ClosedFixed(g.heap, h', th, u, g.fixed, g.main, g.running);
  }

  /** Dropping a dead upvalue, in the terms of its parts. */
  ghost function Dropped(g: State, th: Id, u: Id): State
    requires FirstOpen(g.heap, th, u)
  {
    g.(heap := ClosedHeap(g.heap, th) - {u}, color := g.color - {u}, uvhead := Remove(g.uvhead, u))
  }

  lemma DroppedRegistered(g: State, th: Id, u: Id)
    requires Registered(g) && FirstOpen(g.heap, th, u)
    ensures Registered(Dropped(g, th, u))
  {
    var h' := ClosedHeap(g.heap, th);
    ClosedShape(g.heap, th, u);
    ClosedUpvals(g.heap, th, u);
    ClosedStrings(g.heap, h', th, u, g.strings);
    ClosedLists(g.heap, h', th, u, g.rootgc, g.uvhead);
    ClosedFixed(g.heap, h', th, u, g.fixed, g.main, g.running);
  }

  lemma CloseFreeForm(g: State, th: Id, u: Id)
    requires Registered(g) && FirstOpen(g.heap, th, u) && HasOtherWhite(g, u) && CanClose(g, th, 0)
    ensures CloseOne(g, th) == Dropped(g, th, u)
  {
    FirstOpenFacts(g.heap, th, u);
    var t := g.heap[th].(openUpvals := g.heap[th].openUpvals[1..]);
    assert g.heap[th := t] - {u} == ClosedHeap(g.heap, th) - {u};
  }

  lemma CloseFreeInv(g: State, th: Id, u: Id)
    requires Inv(g) && FirstOpen(g.heap, th, u) && HasOtherWhite(g, u) && CanClose(g, th, 0)
    ensures Inv(CloseOne(g, th))
  {
    CloseFreeForm(g, th, u);
    DroppedRegistered(g, th, u);
    DroppedDangling(g, th, u);
    DroppedPhase(g, th, u);
  }

  lemma DroppedDangling(g: State, th: Id, u: Id)
    requires Registered(g) && NoDangling(g) && FirstOpen(g.heap, th, u) && HasOtherWhite(g, u)
    ensures NoDangling(Dropped(g, th, u))
  {
    hide RefsWithin, ClosedHeap, UpvalsListed, StringsListed, RootsListed, LiveSet;
    var h' := ClosedHeap(g.heap, th);
    ClosedFirst(g, th, u);
    assert u !in g.fixed;
    DeadDropped(g, u);
    LiveAfter(g, h', u);
    ClosedWithin(g.heap, th, u, Live(g));
    ClosedUpvals(g.heap, th, u);
    ClosedRest(h', u);
    WithoutWithin(h', h' - {u}, Live(g));
  }

  lemma ClosedRest(h: Objects, u: Id)
    requires u in h && h[u].ClosedUpval? && UpvalsListed(h)
    ensures Without(h, h - {u})
  {
  }

  lemma LiveAfter(g: State, h: Objects, u: Id)
    requires h.Keys == g.heap.Keys
    ensures LiveSet(h - {u}, g.color - {u}, g.fixed, g.white) == LiveSet(g.heap - {u}, g.color - {u}, g.fixed, g.white)
  {
  }

  lemma DeadDropped(g: State, u: Id)
    requires g.color.Keys == g.heap.Keys && IsDead(g, u)
    ensures LiveSet(g.heap - {u}, g.color - {u}, g.fixed, g.white) == Live(g)
  {
  }

  lemma DroppedPhase(g: State, th: Id, u: Id)
    requires Registered(g) && PhaseInv(g) && FirstOpen(g.heap, th, u) && HasOtherWhite(g, u)
    ensures PhaseInv(Dropped(g, th, u))
  {
    FirstOpenFacts(g.heap, th, u);
    ClosedShape(g.heap, th, u);
    var h', c := ClosedHeap(g.heap, th) - {u}, g.color - {u};
    match g.phase
    case SweepString =>
      StringsStaySwept(g, c);
      DroppedOpen(g.heap, ClosedHeap(g.heap, th), g.color, th, u);
    case Sweep =>
      StringsStaySwept(g, c);
      DroppedOpen(g.heap, ClosedHeap(g.heap, th), g.color, th, u);
      DroppedSwept(g, th, u, h', c);
    case _ =>
  }

  lemma DroppedOpen(h: Objects, h': Objects, c: Colors, th: Id, u: Id)
    requires ClosedFrom(h, h', th, u) && OpenNotBlack(h, c)
    ensures OpenNotBlack(h' - {u}, c - {u}) && forall c' | c' == c || c' == c[u := White(false)] ||
            c' == c[u := White(true)] :: OpenNotBlack(h', c')
  {
  }

  lemma DroppedSwept(g: State, th: Id, u: Id, h': Objects, c: Colors)
    requires Registered(g) && FirstOpen(g.heap, th, u) && u in g.heap && g.heap[u].OpenUpval?
    requires h' == ClosedHeap(g.heap, th) - {u} && c == g.color - {u}
    requires RootsSwept(g.heap, g.color, g.white, g.rootgc, g.sweepPos)
    ensures RootsSwept(h', c, g.white, g.rootgc, g.sweepPos)
  {
    FirstOpenFacts(g.heap, th, u);
    forall i | 0 <= i < g.sweepPos <= |g.rootgc|
      ensures Swept(h', c, g.white, g.rootgc[i])
    {
      var o := g.rootgc[i];
      assert Swept(g.heap, g.color, g.white, o) && o in g.rootgc && o != u;
    }
  }

  /** Strings keep their colours. */
  lemma StringsStaySwept(g: State, c: Colors)
    requires Registered(g) && forall o :: o in g.heap && g.heap[o].Str? ==> o in c && c[o] == g.color[o]
    ensures forall n :: StringsSwept(g.strings, g.color, g.white, n) ==> StringsSwept(g.strings, c, g.white, n)
  {
  }

  // ---------- Closing a live upvalue ----------

  /** The state before `luaC_linkupval` looks at the colour. */
  ghost function Moved(g: State, th: Id, u: Id): State
    requires FirstOpen(g.heap, th, u)
  {
    LinkRoot(g.(heap := ClosedHeap(g.heap, th), uvhead := Remove(g.uvhead, u)), u)
  }

  lemma CloseKeepForm(g: State, th: Id, u: Id)
    requires Registered(g) && FirstOpen(g.heap, th, u) && !HasOtherWhite(g, u) && CanClose(g, th, 0)
    ensures var m := Moved(g, th, u);
            CloseOne(g, th) ==
            if g.color[u] != Gray then m
            else if g.phase == Propagate then
              MarkIn(m.(color := m.color[u := Black]), [StackValue(g.heap, g.heap[u].thread, g.heap[u].slot)])
            else m.(color := m.color[u := White(g.white)])
  {
    FirstOpenFacts(g.heap, th, u);
  }

  lemma MovedCore(g: State, th: Id, u: Id, c: Colors)
    requires Registered(g) && NoDangling(g) && FirstOpen(g.heap, th, u)
    requires c.Keys == g.color.Keys && LiveSet(g.heap, c, g.fixed, g.white) == Live(g)
    ensures Registered(Moved(g, th, u).(color := c)) && NoDangling(Moved(g, th, u).(color := c))
  {
    ClosedRegistered(g, th, u);
    ClosedWithin(g.heap, th, u, Live(g));
    var g' := Moved(g, th, u).(color := c);
    assert Live(g') == Live(g);
  }

  lemma CloseKeepInv(g: State, th: Id, u: Id)
    requires Inv(g) && FirstOpen(g.heap, th, u) && !HasOtherWhite(g, u) && CanClose(g, th, 0)
    ensures Inv(CloseOne(g, th))
  {
    FirstOpenFacts(g.heap, th, u);
    CloseKeepForm(g, th, u);
    if g.phase == Propagate && g.color[u] == Gray {
      CloseBlackens(g, th, u);
    } else if g.phase == Propagate {
      CloseUnmarked(g, th, u);
    } else {
      CloseElsewhere(g, th, u);
    }
  }

  lemma CloseElsewhere(g: State, th: Id, u: Id)
    requires Inv(g) && FirstOpen(g.heap, th, u) && !HasOtherWhite(g, u) && g.phase != Propagate
    requires u in g.color
    ensures Inv(Moved(g, th, u).(color := if g.color[u] == Gray then g.color[u := White(g.white)] else g.color))
  {
    var c := if g.color[u] == Gray then g.color[u := White(g.white)] else g.color;
    Whitened(g, u, c);
    MovedCore(g, th, u, c);
    MovedPhase(g, th, u, c);
  }

  lemma Whitened(g: State, u: Id, c: Colors)
    requires g.color.Keys == g.heap.Keys && u in g.color && (c == g.color || c == g.color[u := White(g.white)])
    requires !IsDead(g, u)
    ensures c.Keys == g.color.Keys && LiveSet(g.heap, c, g.fixed, g.white) == Live(g)
  {
  }

  lemma MovedPhase(g: State, th: Id, u: Id, c: Colors)
    requires Registered(g) && PhaseInv(g) && g.phase != Propagate
    requires FirstOpen(g.heap, th, u) && u in g.color && !HasOtherWhite(g, u)
    requires c == if g.color[u] == Gray then g.color[u := White(g.white)] else g.color
    ensures PhaseInv(Moved(g, th, u).(color := c))
  {
    hide Registered, UpvalsListed, MarkPhase, StringsSwept, RootsSwept, OpenNotBlack, ClosedHeap;
    var h' := ClosedHeap(g.heap, th);
    ClosedFirst(g, th, u);
    match g.phase
    case SweepString =>
      StringsStaySwept(g, c);
      DroppedOpen(g.heap, h', g.color, th, u);
    case Sweep =>
      StringsStaySwept(g, c);
      DroppedOpen(g.heap, h', g.color, th, u);
      MovedSwept(g, th, u, c);
    case _ =>
  }

  lemma MovedSwept(g: State, th: Id, u: Id, c: Colors)
    requires Registered(g) && FirstOpen(g.heap, th, u) && u in g.heap
    requires c.Keys == g.color.Keys && c[u] == White(g.white)
    requires forall o :: o in c && o != u ==> c[o] == g.color[o]
    requires RootsSwept(g.heap, g.color, g.white, g.rootgc, g.sweepPos)
    ensures RootsSwept(ClosedHeap(g.heap, th), c, g.white, [u] + g.rootgc,
                       if g.sweepPos == 0 then 0 else g.sweepPos + 1)
  {
    hide Registered, ClosedHeap, Swept;
    var h' := ClosedHeap(g.heap, th);
    var n := if g.sweepPos == 0 then 0 else g.sweepPos + 1;
    forall i | 0 <= i < n <= |[u] + g.rootgc|
      ensures Swept(h', c, g.white, ([u] + g.rootgc)[i])
    {
      if i == 0 {
        ClosedFirst(g, th, u);
        ClosedSwept(h', c, g.white, u);
      } else {
        assert ([u] + g.rootgc)[i] == g.rootgc[i - 1];
        OneMovedSwept(g, th, u, c, i - 1);
      }
    }
  }

  lemma ClosedSwept(h: Objects, c: Colors, white: bool, u: Id)
    requires u in h && h[u].ClosedUpval? && u in c && c[u] == White(white)
    ensures Swept(h, c, white, u)
  {
  }

  lemma OneMovedSwept(g: State, th: Id, u: Id, c: Colors, i: nat)
    requires Registered(g) && FirstOpen(g.heap, th, u) && u in g.heap
    requires c.Keys == g.color.Keys && c[u] == White(g.white)
    requires forall o :: o in c && o != u ==> c[o] == g.color[o]
    requires i < |g.rootgc| && Swept(g.heap, g.color, g.white, g.rootgc[i])
    ensures Swept(ClosedHeap(g.heap, th), c, g.white, g.rootgc[i])
  {
    FirstOpenFacts(g.heap, th, u);
    assert g.rootgc[i] in g.rootgc;
  }

  lemma ClosedFirst(g: State, th: Id, u: Id)
    requires Registered(g) && FirstOpen(g.heap, th, u)
    ensures ClosedFrom(g.heap, ClosedHeap(g.heap, th), th, u) && g.color.Keys == g.heap.Keys
    ensures OpenNotBlack(g.heap, g.color) && !HasOtherWhite(g, u) ==> g.color[u] == Gray || g.color[u] == White(g.white)
  {
    ClosedShape(g.heap, th, u);
  }

  /** An unmarked upvalue moves to the heap unmarked. */
  lemma CloseUnmarked(g: State, th: Id, u: Id)
    requires Inv(g) && FirstOpen(g.heap, th, u) && g.phase == Propagate
    requires u in g.color && g.heap[u].OpenUpval? && g.color[u] != Gray
    ensures Inv(Moved(g, th, u))
  {
    FirstOpenFacts(g.heap, th, u);
    assert ColorFits(g.heap[u], g.color[u]) || g.color[u].White?;
    MovedCore(g, th, u, g.color);
    MovedMarks(g, th, u, g.color);
    var m := Moved(g, th, u);
    assert m == m.(color := g.color);
    forall o | o in m.heap && m.color[o] == Black
      ensures RefsMarked(m.heap, m.color, o)
    {
      ClosedRefs(g.heap, th, u, o);
    }
  }

  /** The gray lists and colours after the move. */
  lemma MovedMarks(g: State, th: Id, u: Id, c: Colors)
    requires Inv(g) && FirstOpen(g.heap, th, u) && g.phase == Propagate
    requires u in g.color && g.heap[u].OpenUpval? && g.heap[u].thread == th
    requires (c == g.color && c[u].White?) || c == g.color[u := Black]
    ensures var g' := Moved(g, th, u).(color := c);
            && Listed(g') && ColorsFit(g') && NoOtherWhite(c, g.white)
            && GrayWaits(g'.heap, c, g.gray, g.grayAgain, g.weak)
            && FirstRootsMarked(c, g.main, g.registry)
  {
    hide Registered, BlackClosed, GrayListed, ColorsFitIn, GrayWaits, ClosedHeap, NoDangling;
    ClosedFirst(g, th, u);
    MovedLists(g.heap, ClosedHeap(g.heap, th), th, u, g.color, c, g.gray, g.grayAgain, g.weak);
  }

  lemma MovedLists(h: Objects, h': Objects, th: Id, u: Id, c0: Colors, c: Colors,
                   gray: seq<Id>, again: seq<Id>, weak: seq<Id>)
    requires ClosedFrom(h, h', th, u) && c0.Keys == h.Keys && c.Keys == h.Keys
    requires (c == c0 && c[u].White?) || c == c0[u := Black]
    requires GrayListed(h, c0, gray, again, weak) && ColorsFitIn(h, c0) && GrayWaits(h, c0, gray, again, weak)
    ensures GrayListed(h', c, gray, again, weak) && ColorsFitIn(h', c) && GrayWaits(h', c, gray, again, weak)
  {
    hide ColorsFitIn, GrayWaits, NoRepeats;
    assert u !in gray && u !in again && u !in weak;
    assert forall o :: o in h && o != u ==> Traversable(h'[o]) == Traversable(h[o]);
    MovedColors(h, h', th, u, c0, c, gray, again, weak);
  }

  lemma MovedColors(h: Objects, h': Objects, th: Id, u: Id, c0: Colors, c: Colors,
                    gray: seq<Id>, again: seq<Id>, weak: seq<Id>)
    requires ClosedFrom(h, h', th, u) && c0.Keys == h.Keys && c.Keys == h.Keys
    requires (c == c0 && c[u].White?) || c == c0[u := Black]
    requires ColorsFitIn(h, c0) && GrayWaits(h, c0, gray, again, weak)
    ensures ColorsFitIn(h', c) && GrayWaits(h', c, gray, again, weak)
  {
    forall o | o in h
      ensures Traversable(h'[o]) == Traversable(h[o])
      ensures !c[o].White? ==> ColorFits(h'[o], c[o])
    {
      assert !c0[o].White? ==> ColorFits(h[o], c0[o]);
    }
  }

  /** A marked upvalue turns black, and its value is marked. */
  lemma CloseBlackens(g: State, th: Id, u: Id)
    requires Inv(g) && FirstOpen(g.heap, th, u) && g.phase == Propagate
    requires u in g.color && g.heap[u].OpenUpval? && g.heap[u].thread == th && g.color[u] == Gray
    ensures var v := StackValue(g.heap, g.heap[u].thread, g.heap[u].slot);
            var m := Moved(g, th, u);
            Inv(MarkIn(m.(color := m.color[u := Black]), [v]))
  {
    hide StringsListed, UpvalsListed, HeadListed, RootsListed, FixedKinds, RefsWithin, GrayWaits, BlackClosed;
    var v := StackValue(g.heap, g.heap[u].thread, g.heap[u].slot);
    var c := g.color[u := Black];
    var m := Moved(g, th, u).(color := c);
    assert LiveSet(g.heap, c, g.fixed, g.white) == Live(g);
    MovedCore(g, th, u, c);
    MovedMarks(g, th, u, c);
    var pending := Waiting(m) + SetOf(m.uvhead) + {u};
    BlackUpvalPending(g, th, u, m);
    MarkInKeeps(m, [v], pending);
    MarkInMarks(m, [v]);
    MarkInColors(m, [v]);
    BlackUpvalDone(m, u, v, MarkIn(m, [v]));
    MarkingKeepsCore(m, MarkIn(m, [v]));
  }

  lemma BlackUpvalPending(g: State, th: Id, u: Id, m: State)
    requires Registered(g) && BlackClosed(g.heap, g.color) && FirstOpen(g.heap, th, u)
    requires u in g.color && m == Moved(g, th, u).(color := g.color[u := Black])
    requires Listed(m) && ColorsFit(m) && GrayWaits(m.heap, m.color, m.gray, m.grayAgain, m.weak)
    requires HeadListed(m.heap, m.uvhead)
    ensures MarkInv(m, Waiting(m) + SetOf(m.uvhead) + {u})
  {
    forall o | o in m.heap && o in m.color && !m.color[o].White?
      ensures o in m.gray || o in Waiting(m) + SetOf(m.uvhead) + {u} || Settled(m, o)
    {
      if o != u && m.color[o] == Black {
        BlackStays(g, th, u, m, o);
        assert ColorFits(m.heap[o], m.color[o]);
      } else if o != u {
        GrayPending(m, o);
      }
    }
  }

  lemma GrayPending(m: State, o: Id)
    requires Listed(m) && ColorsFit(m) && GrayWaits(m.heap, m.color, m.gray, m.grayAgain, m.weak)
    requires HeadListed(m.heap, m.uvhead) && o in m.heap && m.color[o] == Gray
    ensures o in m.gray || o in Waiting(m) || o in m.uvhead || Settled(m, o)
  {
    assert ColorFits(m.heap[o], m.color[o]);
  }

  lemma BlackStays(g: State, th: Id, u: Id, m: State, o: Id)
    requires Registered(g) && FirstOpen(g.heap, th, u) && BlackClosed(g.heap, g.color)
    requires u in g.color && m == Moved(g, th, u).(color := g.color[u := Black])
    requires o in m.heap && o != u && g.color[o] == Black
    ensures RefsMarked(m.heap, m.color, o)
  {
    ClosedRefs(g.heap, th, u, o);
    assert RefsMarked(g.heap, g.color, o);
  }

  lemma BlackUpvalDone(m: State, u: Id, v: Value, r: State)
    requires Registered(m) && MarkInv(r, Waiting(m) + SetOf(m.uvhead) + {u}) && Advances(m, r)
    requires u in m.heap && m.heap[u] == ClosedUpval(v) && r.heap == m.heap && r == MarkIn(m, [v])
    requires NoOtherWhite(r.color, r.white) && FirstRootsMarked(m.color, m.main, m.registry)
    requires forall x :: x in Targets([v]) && x in m.heap ==> !IsWhite(r.color, x)
    ensures MarkPhase(r)
  {
    StillMarked(m, r);
    assert Settled(r, u);
    assert MarkInv(r, Waiting(r) + SetOf(r.uvhead));
    MarkPhaseFrom(r);
  }

  // ---------- One upvalue, and all of them ----------

  lemma CloseOneInv(g: State, th: Id)
    requires Inv(g) && CanClose(g, th, 0)
    ensures Inv(CloseOne(g, th))
  {
    var u := g.heap[th].openUpvals[0];
    if HasOtherWhite(g, u) {
      CloseFreeInv(g, th, u);
    } else {
      CloseKeepInv(g, th, u);
    }
  }

  /** What closing leaves alone. */
  ghost predicate SameAround(g: State, r: State) {
    r == g.(heap := r.heap, color := r.color, uvhead := r.uvhead, rootgc := r.rootgc, sweepPos := r.sweepPos,
            gray := r.gray)
  }

  /** Closing puts upvalues in front of `rootgc`, and each of them leaves `uvhead`. */
  ghost predicate PutsInFront(g: State, r: State) {
    && |g.rootgc| <= |r.rootgc| && r.rootgc[|r.rootgc| - |g.rootgc|..] == g.rootgc
    && r.sweepPos == (if g.sweepPos == 0 then 0 else g.sweepPos + |r.rootgc| - |g.rootgc|)
    && |r.uvhead| + |r.rootgc| <= |g.uvhead| + |g.rootgc|
  }

  ghost predicate ClosedOne(g: State, r: State, th: Id) {
    && SameAround(g, r) && PutsInFront(g, r)
    && th in g.heap && g.heap[th].Thread? && g.heap[th].openUpvals != []
    && th in r.heap && r.heap[th] == g.heap[th].(openUpvals := g.heap[th].openUpvals[1..])
  }

  lemma CloseOneFrame(g: State, th: Id)
    requires Inv(g) && CanClose(g, th, 0)
    ensures ClosedOne(g, CloseOne(g, th), th)
  {
    var u := g.heap[th].openUpvals[0];
    FirstOpenFacts(g.heap, th, u);
    assert u in g.uvhead && u != th;
    if HasOtherWhite(g, u) {
      CloseFreeForm(g, th, u);
      DroppedFrame(g, th, u);
    } else {
      CloseKeepForm(g, th, u);
      MovedFrame(g, th, u);
      RecolouredFrame(g, Moved(g, th, u), CloseOne(g, th), th);
    }
  }

  /** Colours and the gray list do not matter here. */
  lemma RecolouredFrame(g: State, m: State, r: State, th: Id)
    requires ClosedOne(g, m, th) && r == m.(color := r.color, gray := r.gray)
    ensures ClosedOne(g, r, th)
  {
  }

  lemma DroppedFrame(g: State, th: Id, u: Id)
    requires FirstOpen(g.heap, th, u) && u != th && u in g.uvhead
    ensures ClosedOne(g, Dropped(g, th, u), th)
  {
  }

  lemma MovedFrame(g: State, th: Id, u: Id)
    requires FirstOpen(g.heap, th, u) && u != th && u in g.uvhead
    ensures ClosedOne(g, Moved(g, th, u), th)
  {
    assert ([u] + g.rootgc)[1..] == g.rootgc;
  }

  lemma PutsInFrontTransitive(a: State, b: State, c: State)
    requires PutsInFront(a, b) && PutsInFront(b, c)
    ensures PutsInFront(a, c)
  {
    var n, m := |b.rootgc| - |a.rootgc|, |c.rootgc| - |b.rootgc|;
    assert c.rootgc[m..][n..] == c.rootgc[m + n..];
  }

  lemma {:induction false} CloseUpvalsInv(g: State, th: Id, level: nat)
    requires Inv(g)
    ensures Inv(CloseUpvals(g, th, level))
    decreases if th in g.heap && g.heap[th].Thread? then |g.heap[th].openUpvals| else 0
  {
    if CanClose(g, th, level) {
      CloseOneInv(g, th);
      CloseOneFrame(g, th);
      CloseUpvalsInv(CloseOne(g, th), th, level);
    }
  }

  lemma {:induction false} CloseUpvalsFrame(g: State, th: Id, level: nat)
    requires Inv(g)
    ensures var r := CloseUpvals(g, th, level);
            && SameAround(g, r) && PutsInFront(g, r)
            && (th in g.heap && g.heap[th].Thread? ==>
                  && th in r.heap && r.heap[th].Thread? && SameButOpenList(g.heap[th], r.heap[th])
                  && (level == 0 ==> r.heap[th].openUpvals == []))
    decreases if th in g.heap && g.heap[th].Thread? then |g.heap[th].openUpvals| else 0
  {
    if CanClose(g, th, level) {
      CloseOneInv(g, th);
      CloseOneFrame(g, th);
      CloseUpvalsFrame(CloseOne(g, th), th, level);
      PutsInFrontTransitive(g, CloseOne(g, th), CloseUpvals(g, th, level));
    } else if th in g.heap && g.heap[th].Thread? && g.heap[th].openUpvals != [] {
      assert OpenListed(g.heap, th);
      assert g.heap[th].openUpvals[0] in g.heap[th].openUpvals;
    }
  }
}
