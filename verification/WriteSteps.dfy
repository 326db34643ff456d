/** Upvalues and writes keep the invariant: the part of the program's actions that the barriers
    are for. */
module WriteSteps {
  import opened Heap
  import opened Marking
  import opened Collector
  import opened Propagation
  import opened AtomicPhase
  import opened Sweeping
  import opened Invariant
  import opened MarkSteps
  import opened SweepSteps
  import opened Closing
  import opened Mutator
  import opened MutatorSteps

  // ---------- A new open upvalue ----------

  ghost function WithOpen(h: Objects, th: Id, slot: nat, u: Id, i: nat): Objects
    requires th in h && h[th].Thread? && i <= |h[th].openUpvals|
  {
    var us := h[th].openUpvals;
    h[u := OpenUpval(th, slot)][th := h[th].(openUpvals := us[..i] + [u] + us[i..])]
  }

  lemma WithOpenUpvals(h: Objects, th: Id, slot: nat, u: Id, i: nat)
    requires UpvalsListed(h) && th in h && h[th].Thread? && i <= |h[th].openUpvals|
    requires u !in h && slot < |h[th].stack|
    ensures UpvalsListed(WithOpen(h, th, slot, u, i))
  {
    var h' := WithOpen(h, th, slot, u, i);
    var us := h[th].openUpvals;
    var us' := us[..i] + [u] + us[i..];
    assert OpenListed(h, th) && u !in us;
    assert forall x :: x in us' <==> x == u || x in us by {
      assert us == us[..i] + us[i..];
    }
    forall t | t in h' && h'[t].Thread?
      ensures OpenListed(h', t)
    {
      assert OpenListed(h, t);
    }
    forall x | x in h' && h'[x].OpenUpval?
      ensures h'[x].thread in h' && h'[h'[x].thread].Thread? && x in h'[h'[x].thread].openUpvals
    {
      if x != u {
        assert h[x].OpenUpval? && OpenListed(h, h[x].thread);
      }
    }
  }

  lemma WithOpenKeys(h: Objects, th: Id, slot: nat, u: Id, i: nat)
    requires th in h && h[th].Thread? && i <= |h[th].openUpvals|
    ensures WithOpen(h, th, slot, u, i).Keys == h.Keys + {u}
  {
  }

  lemma WithOpenRefs(h: Objects, th: Id, slot: nat, u: Id, i: nat, x: Id)
    requires UpvalsListed(h) && th in h && h[th].Thread? && i <= |h[th].openUpvals|
    requires u !in h && slot < |h[th].stack| && x in h
    ensures AllRefs(WithOpen(h, th, slot, u, i), x) == AllRefs(h, x)
  {
    var h' := WithOpen(h, th, slot, u, i);
    assert Values(h', h'[x], STRONG) == Values(h, h[x], STRONG);
  }

  lemma WithOpenWithin(h: Objects, th: Id, slot: nat, u: Id, i: nat, live: set<Id>)
    requires UpvalsListed(h) && th in h && h[th].Thread? && i <= |h[th].openUpvals|
    requires u !in h && slot < |h[th].stack| && RefsWithin(h, live) && th in live
    ensures RefsWithin(WithOpen(h, th, slot, u, i), live + {u})
  {
    var h' := WithOpen(h, th, slot, u, i);
    forall x | x in live + {u} && x in h'
      ensures AllRefs(h', x) <= live + {u}
    {
      if x != u {
        WithOpenRefs(h, th, slot, u, i, x);
      } else {
        var v := h[th].stack[slot];
        assert Values(h', h'[u], STRONG) == [v];
        assert v in Values(h, h[th], STRONG);
        assert v.Ref? ==> v.o in AllRefs(h, th);
      }
    }
  }

  lemma WithOpenLists(g: State, th: Id, slot: nat, u: Id, i: nat)
    requires Registered(g) && th in g.heap && g.heap[th].Thread? && i <= |g.heap[th].openUpvals| && u !in g.heap
    ensures var h' := WithOpen(g.heap, th, slot, u, i);
            && RootsListed(h', g.rootgc) && StringsListed(h', g.strings) && HeadListed(h', [u] + g.uvhead)
            && FixedKinds(h', g.fixed, g.main, g.running)
  {
    var h' := WithOpen(g.heap, th, slot, u, i);
    forall o | o in h' && h'[o].Str?
      ensures exists j :: InBucket(g.strings, o, j)
    {
      assert g.heap[o].Str?;
    }
  }

  lemma AddOpenInv(g: State, th: Id, slot: nat, u: Id, i: nat)
    requires Inv(g) && th in g.heap && g.heap[th].Thread? && th in Live(g) && i <= |g.heap[th].openUpvals|
    requires u !in g.heap && slot < |g.heap[th].stack|
    ensures Inv(AddOpen(g, th, slot, u, i)) && Live(AddOpen(g, th, slot, u, i)) == Live(g) + {u}
  {
    hide StringsListed, UpvalsListed, HeadListed, RootsListed, FixedKinds, RefsWithin, PhaseInv;
    var h', c := WithOpen(g.heap, th, slot, u, i), g.color[u := White(g.white)];
    WithOpenUpvals(g.heap, th, slot, u, i);
    WithOpenWithin(g.heap, th, slot, u, i, Live(g));
    WithOpenLists(g, th, slot, u, i);
    WithOpenLive(g, h', u);
    AddOpenPhase(g, th, slot, u, i);
    AddOpenCore(g, th, slot, u, i, h', c);
  }

  lemma WithOpenLive(g: State, h': Objects, u: Id)
    requires g.color.Keys == g.heap.Keys && u !in g.heap && h'.Keys == g.heap.Keys + {u}
    ensures LiveSet(h', g.color[u := White(g.white)], g.fixed, g.white) == Live(g) + {u}
  {
  }

  lemma AddOpenCore(g: State, th: Id, slot: nat, u: Id, i: nat, h': Objects, c: Colors)
    requires Registered(g) && NoDangling(g) && th in g.heap && g.heap[th].Thread? && i <= |g.heap[th].openUpvals|
    requires h' == WithOpen(g.heap, th, slot, u, i) && c == g.color[u := White(g.white)] && UpvalsListed(h')
    requires RootsListed(h', g.rootgc) && StringsListed(h', g.strings) && HeadListed(h', [u] + g.uvhead)
    requires FixedKinds(h', g.fixed, g.main, g.running)
    requires LiveSet(h', c, g.fixed, g.white) == Live(g) + {u} && RefsWithin(h', Live(g) + {u})
    ensures Registered(AddOpen(g, th, slot, u, i)) && NoDangling(AddOpen(g, th, slot, u, i))
  {
    assert AddOpen(g, th, slot, u, i) == g.(heap := h', color := c, uvhead := [u] + g.uvhead);
  }

  lemma AddOpenPhase(g: State, th: Id, slot: nat, u: Id, i: nat)
    requires Registered(g) && NoDangling(g) && PhaseInv(g)
    requires th in g.heap && g.heap[th].Thread? && i <= |g.heap[th].openUpvals|
    requires u !in g.heap && slot < |g.heap[th].stack|
    ensures PhaseInv(AddOpen(g, th, slot, u, i))
  {
    hide StringsListed, UpvalsListed, HeadListed, RootsListed, FixedKinds, RefsWithin, StringsSwept, RootsSwept,
         MarkPhase, Values;
    var c := g.color[u := White(g.white)];
    match g.phase
    case Propagate => AddOpenMarking(g, th, slot, u, i);
    case SweepString => StringsStaySwept(g, c);
    case Sweep =>
      StringsStaySwept(g, c);
      AddOpenSwept(g, th, slot, u, i);
    case _ =>
  }

  lemma AddOpenMarking(g: State, th: Id, slot: nat, u: Id, i: nat)
    requires Registered(g) && NoDangling(g) && MarkPhase(g)
    requires th in g.heap && g.heap[th].Thread? && i <= |g.heap[th].openUpvals|
    requires u !in g.heap && slot < |g.heap[th].stack|
    ensures MarkPhase(AddOpen(g, th, slot, u, i))
  {
    hide StringsListed, UpvalsListed, HeadListed, RootsListed, FixedKinds, RefsWithin, GrayListed, ColorsFitIn,
         BlackClosed, GrayWaits, Values;
    FreshMarks(g, u, OpenUpval(th, slot));
    AddOpenMarks(g, th, slot, u, i);
    NoneDead(g);
    AddOpenBlack(g, th, slot, u, i);
  }

  lemma AddOpenMarks(g: State, th: Id, slot: nat, u: Id, i: nat)
    requires g.color.Keys == g.heap.Keys && th in g.heap && g.heap[th].Thread? && i <= |g.heap[th].openUpvals|
    requires u !in g.heap
    requires var h1, c := g.heap[u := OpenUpval(th, slot)], g.color[u := White(g.white)];
             && GrayListed(h1, c, g.gray, g.grayAgain, g.weak) && ColorsFitIn(h1, c)
             && GrayWaits(h1, c, g.gray, g.grayAgain, g.weak)
    ensures var h', c := WithOpen(g.heap, th, slot, u, i), g.color[u := White(g.white)];
            && GrayListed(h', c, g.gray, g.grayAgain, g.weak) && ColorsFitIn(h', c)
            && GrayWaits(h', c, g.gray, g.grayAgain, g.weak)
  {
    var h1, h', c := g.heap[u := OpenUpval(th, slot)], WithOpen(g.heap, th, slot, u, i), g.color[u := White(g.white)];
    forall o | o in h'
      ensures Traversable(h'[o]) == Traversable(h1[o]) && h'[o].Table? == h1[o].Table? && h'[o].Thread? == h1[o].Thread?
      ensures !c[o].White? ==> ColorFits(h'[o], c[o])
    {
      assert !c[o].White? ==> ColorFits(h1[o], c[o]);
    }
  }

  lemma AddOpenBlack(g: State, th: Id, slot: nat, u: Id, i: nat)
    requires g.color.Keys == g.heap.Keys && BlackClosed(g.heap, g.color)
    requires RefsWithin(g.heap, g.heap.Keys) && UpvalsListed(g.heap)
    requires th in g.heap && g.heap[th].Thread? && i <= |g.heap[th].openUpvals|
    requires u !in g.heap && slot < |g.heap[th].stack|
    ensures BlackClosed(WithOpen(g.heap, th, slot, u, i), g.color[u := White(g.white)])
  {
    hide UpvalsListed, AllRefs, WithOpen;
    var h', c := WithOpen(g.heap, th, slot, u, i), g.color[u := White(g.white)];
    assert h'.Keys == g.heap.Keys + {u} by {
      WithOpenKeys(g.heap, th, slot, u, i);
    }
    forall o | o in h' && c[o] == Black
      ensures RefsMarked(h', c, o)
    {
      WithOpenRefs(g.heap, th, slot, u, i, o);
      assert RefsMarked(g.heap, g.color, o);
    }
  }

  lemma AddOpenSwept(g: State, th: Id, slot: nat, u: Id, i: nat)
    requires Registered(g) && RootsSwept(g.heap, g.color, g.white, g.rootgc, g.sweepPos)
    requires th in g.heap && g.heap[th].Thread? && i <= |g.heap[th].openUpvals| && u !in g.heap
    ensures RootsSwept(WithOpen(g.heap, th, slot, u, i), g.color[u := White(g.white)], g.white, g.rootgc, g.sweepPos)
  {
    var h', c := WithOpen(g.heap, th, slot, u, i), g.color[u := White(g.white)];
    var us := g.heap[th].openUpvals;
    assert us == us[..i] + us[i..];
    forall k | 0 <= k < g.sweepPos <= |g.rootgc|
      ensures Swept(h', c, g.white, g.rootgc[k])
    {
      assert Swept(g.heap, g.color, g.white, g.rootgc[k]) && g.rootgc[k] in g.rootgc;
    }
  }

  // ---------- Filling a closure under construction ----------

  lemma AddSlotInv(g: State, cl: Id, u: Id)
    requires Inv(g) && cl in Live(g) && g.heap[cl].Closure? && IsWhite(g.color, cl) && u in Live(g)
    ensures Inv(AddSlot(g, cl, u))
  {
    hide Inv, Live, Values;
    SlotAdded(g, cl, u);
    RewriteInv(g, cl, Closure(g.heap[cl].slots + [Ref(u)]));
  }

  lemma SlotAdded(g: State, cl: Id, u: Id)
    requires Inv(g) && cl in Live(g) && g.heap[cl].Closure? && IsWhite(g.color, cl) && u in Live(g)
    ensures cl in g.heap && g.color[cl] != Black
    ensures Targets(Values(g.heap, Closure(g.heap[cl].slots + [Ref(u)]), STRONG)) <= Live(g)
  {
    hide Registered, PhaseInv;
    forall x | x in Targets(Values(g.heap, Closure(g.heap[cl].slots + [Ref(u)]), STRONG))
      ensures x in Live(g)
    {
      assert x == u || x in AllRefs(g.heap, cl);
    }
  }

  /** What `luaF_findupval` leaves alone, so that a closure under construction can be filled. */
  ghost predicate KeepsClosures(g: State, r: State) {
    && Live(g) <= Live(r)
    && (forall x :: x in g.heap && g.heap[x].Closure? ==> x in r.heap && r.heap[x] == g.heap[x])
    && (forall x :: x in Live(g) && IsWhite(g.color, x) ==> IsWhite(r.color, x))
  }

  lemma FoundUpvalInv(g: State, th: Id, p: Id)
    requires Inv(g) && th in Live(g) && g.heap[th].Thread? && p in g.heap[th].openUpvals
    ensures Inv(Resurrect(g, p)) && p in Live(Resurrect(g, p)) && KeepsClosures(g, Resurrect(g, p))
  {
    hide StringsListed, HeadListed, RootsListed, FixedKinds, PhaseInv;
    assert OpenListed(g.heap, th);
    var v := g.heap[th].stack[g.heap[p].slot];
    assert Values(g.heap, g.heap[p], STRONG) == [v];
    assert v in Values(g.heap, g.heap[th], STRONG);
    assert AllRefs(g.heap, p) <= Live(g) by {
      assert v.Ref? ==> v.o in AllRefs(g.heap, th);
    }
    ResurrectInv(g, p);
  }

  lemma MadeUpvalInv(g: State, th: Id, slot: nat, u: Id, i: nat)
    requires Inv(g) && th in Live(g) && g.heap[th].Thread? && i <= |g.heap[th].openUpvals|
    requires u !in g.heap && slot < |g.heap[th].stack|
    ensures var r := AddOpen(g, th, slot, u, i); Inv(r) && u in Live(r) && KeepsClosures(g, r)
  {
    hide Inv, Values;
    AddOpenInv(g, th, slot, u, i);
  }

  lemma FindUpvalInv(g: State, slot: nat, u: Id)
    requires Inv(g) && u !in g.heap && slot < |g.heap[g.running].stack|
    ensures var r := FindUpval(g, g.running, slot, u); Inv(r.0) && r.1 in Live(r.0) && KeepsClosures(g, r.0)
  {
    var us := g.heap[g.running].openUpvals;
    var i := ScanOpen(g.heap, us, slot);
    assert g.running in Roots(g);
    if FoundOpen(g.heap, us, slot, i) {
      FoundUpvalInv(g, g.running, us[i]);
    } else {
      MadeUpvalInv(g, g.running, slot, u, i);
    }
  }

  lemma CaptureInv(g: State, cl: Id, slot: nat, u: Id)
    requires Inv(g) && Allowed(g, ACapture(cl, slot, u))
    ensures Inv(Capture(g, cl, slot, u))
  {
    ReachableLive(g, cl);
    FindUpvalInv(g, slot, u);
    var r := FindUpval(g, g.running, slot, u);
    AddSlotInv(r.0, cl, r.1);
  }

  lemma NewUpvalInv(g: State, cl: Id, u: Id)
    requires Inv(g) && Allowed(g, ANewUpval(cl, u))
    ensures Inv(NewUpval(g, cl, u))
  {
    hide Registered, PhaseInv, RefsWithin, Live, Values, AddSlot;
    ReachableLive(g, cl);
    NothingHeld(g.heap, u);
    InsertInv(g, u, ClosedUpval(Nil), 0);
    AddSlotInv(Insert(g, u, ClosedUpval(Nil), 0), cl, u);
  }

  lemma NothingHeld(h: Objects, u: Id)
    ensures Targets(Values(h[u := ClosedUpval(Nil)], ClosedUpval(Nil), STRONG)) == {}
  {
    assert Values(h[u := ClosedUpval(Nil)], ClosedUpval(Nil), STRONG) == [Nil];
  }

  // ---------- The backward barrier ----------

  lemma BarrierBackInv(g: State, t: Id, v: Value)
    requires Inv(g) && t in g.heap && g.heap[t].Table?
    ensures Inv(BarrierBack(g, t, v)) && Live(BarrierBack(g, t, v)) == Live(g)
  {
    if BarrierBack(g, t, v) != g {
      var c := g.color[t := Gray];
      BarrierLive(g, t, c);
      BarrierCore(g, c, [t] + g.grayAgain);
      BarrierPhase(g, t, c);
    }
  }

  lemma BarrierLive(g: State, t: Id, c: Colors)
    requires g.color.Keys == g.heap.Keys && t in g.heap && g.color[t] == Black && c == g.color[t := Gray]
    ensures c.Keys == g.color.Keys && LiveSet(g.heap, c, g.fixed, g.white) == Live(g)
  {
  }

  lemma BarrierPhase(g: State, t: Id, c: Colors)
    requires Registered(g) && PhaseInv(g) && t in g.heap && g.heap[t].Table? && g.color[t] == Black
    requires c == g.color[t := Gray]
    ensures PhaseInv(g.(color := c, grayAgain := [t] + g.grayAgain))
  {
    match g.phase
    case Propagate => BarrierMarks(g, t, c);
    case SweepString => StringsStaySwept(g, c);
    case Sweep =>
      StringsStaySwept(g, c);
      BarrierSwept(g, t, c);
    case _ =>
  }

  lemma BarrierCore(g: State, c: Colors, again: seq<Id>)
    requires Registered(g) && NoDangling(g) && c.Keys == g.color.Keys
    requires LiveSet(g.heap, c, g.fixed, g.white) == Live(g)
    ensures Registered(g.(color := c, grayAgain := again)) && NoDangling(g.(color := c, grayAgain := again))
  {
  }

  lemma BarrierMarks(g: State, t: Id, c: Colors)
    requires Registered(g) && MarkPhase(g) && t in g.heap && g.heap[t].Table? && g.color[t] == Black
    requires c == g.color[t := Gray]
    ensures MarkPhase(g.(color := c, grayAgain := [t] + g.grayAgain))
  {
    hide Registered, GrayListed, ColorsFitIn, GrayWaits, BlackClosed;
    BlackUnlisted(g, t);
    BarrierLists(g.heap, g.color, t, c, g.gray, g.grayAgain, g.weak);
    BarrierBlack(g.heap, g.color, t, c);
  }

  lemma BlackUnlisted(g: State, t: Id)
    requires Listed(g) && t in g.heap && g.color[t] == Black
    ensures t !in g.gray && t !in g.grayAgain && t !in g.weak
  {
  }

  lemma BarrierBlack(h: Objects, c0: Colors, t: Id, c: Colors)
    requires BlackClosed(h, c0) && c0.Keys == h.Keys && t in h && c == c0[t := Gray]
    ensures BlackClosed(h, c)
  {
    hide AllRefs;
    forall o | o in h && c[o] == Black
      ensures RefsMarked(h, c, o)
    {
      assert RefsMarked(h, c0, o);
    }
  }

  lemma BarrierLists(h: Objects, c0: Colors, t: Id, c: Colors, gray: seq<Id>, again: seq<Id>, weak: seq<Id>)
    requires c0.Keys == h.Keys && GrayListed(h, c0, gray, again, weak) && ColorsFitIn(h, c0)
    requires GrayWaits(h, c0, gray, again, weak)
    requires t in h && h[t].Table? && t !in gray && t !in again && t !in weak && c == c0[t := Gray]
    ensures GrayListed(h, c, gray, [t] + again, weak) && ColorsFitIn(h, c) && GrayWaits(h, c, gray, [t] + again, weak)
  {
    assert forall o :: o in [t] + again <==> o == t || o in again;
  }

  lemma BarrierSwept(g: State, t: Id, c: Colors)
    requires RootsSwept(g.heap, g.color, g.white, g.rootgc, g.sweepPos) && Registered(g)
    requires t in g.heap && g.heap[t].Table? && g.color[t] == Black && c == g.color[t := Gray]
    ensures RootsSwept(g.heap, c, g.white, g.rootgc, g.sweepPos)
  {
    forall i | 0 <= i < g.sweepPos <= |g.rootgc|
      ensures Swept(g.heap, c, g.white, g.rootgc[i])
    {
      assert Swept(g.heap, g.color, g.white, g.rootgc[i]) && g.rootgc[i] in g.rootgc;
      if g.heap[g.rootgc[i]].Thread? {
        assert OpenListed(g.heap, g.rootgc[i]);
      }
    }
  }

  /** The barrier may as well come before the write: it looks at colours only. */
  lemma {:induction false} BarrierCommutes(g: State, t: Id, body: Object, vs: seq<Value>)
    ensures BarrierBackAll(Rewrite(g, t, body), t, vs) == Rewrite(BarrierBackAll(g, t, vs), t, body)
    decreases |vs|
  {
    if vs != [] {
      assert BarrierBack(Rewrite(g, t, body), t, vs[0]) == Rewrite(BarrierBack(g, t, vs[0]), t, body);
      BarrierCommutes(BarrierBack(g, t, vs[0]), t, body, vs[1..]);
    }
  }

  lemma {:induction false} BarriersInv(g: State, t: Id, vs: seq<Value>)
    requires Inv(g) && t in g.heap && g.heap[t].Table?
    ensures Inv(BarrierBackAll(g, t, vs)) && Live(BarrierBackAll(g, t, vs)) == Live(g)
    decreases |vs|
  {
    hide Inv;
    if vs != [] {
      BarrierBackInv(g, t, vs[0]);
      BarriersInv(BarrierBack(g, t, vs[0]), t, vs[1..]);
    }
  }

  /** After the barriers the table is not black, or none of the values is white. */
  lemma {:induction false} BarriersDone(g: State, t: Id, vs: seq<Value>)
    requires t in g.color
    ensures var r := BarrierBackAll(g, t, vs);
            && r.heap == g.heap && r.phase == g.phase && r.color.Keys == g.color.Keys
            && (r.color[t] == Black ==> r == g && forall v :: v in vs && v.Ref? ==> !IsWhite(g.color, v.o))
    decreases |vs|
  {
    if vs != [] {
      BarriersDone(BarrierBack(g, t, vs[0]), t, vs[1..]);
    }
  }

  lemma WriteTableInv(g: State, t: Id, body: Object, vs: seq<Value>)
    requires Inv(g) && Allowed(g, AWriteTable(t, body, vs))
    ensures Inv(WriteTable(g, t, body, vs))
  {
    BarrierCommutes(g, t, body, vs);
    BarriersInv(g, t, vs);
    BarriersDone(g, t, vs);
    var r := BarrierBackAll(g, t, vs);
    ReachableLive(g, t);
    forall x | x in Targets(Values(g.heap, body, STRONG))
      ensures x in Live(g)
      ensures g.phase == Propagate && r.color[t] == Black ==> !IsWhite(r.color, x)
    {
      var v := Ref(x);
      if v in vs {
        AccessibleLive(g, v);
      } else {
        assert x in AllRefs(g.heap, t);
        if g.phase == Propagate && r.color[t] == Black {
          assert RefsMarked(g.heap, g.color, t);
        }
      }
    }
    RewriteInv(r, t, body);
  }

  // ---------- The forward barrier ----------

  /** After the write and before its barrier. */
  lemma ForwardWritten(g: State, o: Id, body: Object)
    requires Inv(g) && g.phase == Propagate && o in g.heap && SameRole(g.heap, g.heap[o], body)
    requires Targets(Values(g.heap, body, STRONG)) <= Live(g)
    ensures var m := Rewrite(g, o, body);
            && Registered(m) && NoDangling(m) && Listed(m) && ColorsFit(m)
            && GrayWaits(m.heap, m.color, m.gray, m.grayAgain, m.weak)
  {
    hide UpvalsListed, StringsListed, RootsListed, HeadListed, FixedKinds, RefsWithin, BlackClosed, GrayListed,
         ColorsFitIn, GrayWaits, SameRole, SameLayout, LiveSet, Values;
    var m := Rewrite(g, o, body);
    RewriteLayout(g.heap, o, body);
    LayoutRegistered(g, m.heap);
    RewriteWithin(g.heap, o, body, Live(g));
    LayoutLists(g.heap, m.heap, g.color, g.gray, g.grayAgain, g.weak);
    SameLive(g.heap, m.heap, g.color, g.fixed, g.white);
  }

  /** In the mark phase the value stored in a black object is marked, so the object stays black. */
  lemma ForwardMarks(g: State, o: Id, body: Object, v: Value)
    requires Inv(g) && g.phase == Propagate && o in g.heap && SameRole(g.heap, g.heap[o], body)
    requires g.color[o] == Black && OnlyAdds(g, o, body, [v])
    requires Targets(Values(g.heap, body, STRONG)) <= Live(g)
    ensures Inv(MarkIn(Rewrite(g, o, body), [v]))
  {
    var m := Rewrite(g, o, body);
    ForwardWritten(g, o, body);
    ForwardPending(g, o, body, m);
    MarkInKeeps(m, [v], Waiting(m) + SetOf(m.uvhead) + {o});
    MarkInMarks(m, [v]);
    MarkInColors(m, [v]);
    MarkingKeepsCore(m, MarkIn(m, [v]));
    assert v.Ref? && v.o in m.heap ==> v.o in Targets([v]);
    ForwardSettled(g, o, body, v, m, MarkIn(m, [v]));
    MarkPhaseFrom(MarkIn(m, [v]));
  }

  lemma ForwardPending(g: State, o: Id, body: Object, m: State)
    requires Registered(g) && MarkPhase(g) && o in g.heap && SameRole(g.heap, g.heap[o], body)
    requires m == Rewrite(g, o, body) && HeadListed(m.heap, m.uvhead)
    requires Listed(m) && ColorsFit(m) && GrayWaits(m.heap, m.color, m.gray, m.grayAgain, m.weak)
    ensures MarkInv(m, Waiting(m) + SetOf(m.uvhead) + {o})
  {
    forall x | x in m.heap && x in m.color && !m.color[x].White?
      ensures x in m.gray || x in Waiting(m) + SetOf(m.uvhead) + {o} || Settled(m, x)
    {
      if x != o && m.color[x] == Black {
        assert ColorFits(m.heap[x], m.color[x]);
        RewriteRefs(g.heap, o, body, x);
        assert RefsMarked(g.heap, g.color, x);
      } else if x != o {
        GrayPending(m, x);
      }
    }
  }

  lemma ForwardSettled(g: State, o: Id, body: Object, v: Value, m: State, r: State)
    requires Registered(g) && MarkPhase(g) && o in g.heap && SameRole(g.heap, g.heap[o], body)
    requires g.color[o] == Black && OnlyAdds(g, o, body, [v]) && m == Rewrite(g, o, body)
    requires MarkInv(r, Waiting(m) + SetOf(m.uvhead) + {o}) && r.heap == m.heap && r == MarkIn(m, [v])
    requires Whites(r.color) <= Whites(g.color) && r.color[o] == Black
    requires Advances(m, r)
    requires v.Ref? && v.o in m.heap ==> !IsWhite(r.color, v.o)
    ensures MarkInv(r, Waiting(r) + SetOf(r.uvhead)) && FirstRootsMarked(r.color, r.main, r.registry)
  {
    hide Registered, GrayListed, ColorsFitIn, Tricolor, Settled, AllRefs, Values, SameRole, GrayWaits, BlackClosed,
         Whites;
    StillMarked(g, r);
    ForwardRefs(g, o, body, v, r.color);
    BlackSettled(r, o);
    NotPending(r, o, Waiting(m) + SetOf(m.uvhead));
  }

  lemma ForwardRefs(g: State, o: Id, body: Object, v: Value, c: Colors)
    requires g.color.Keys == g.heap.Keys && BlackClosed(g.heap, g.color)
    requires o in g.heap && SameRole(g.heap, g.heap[o], body) && g.color[o] == Black && OnlyAdds(g, o, body, [v])
    requires forall x :: !IsWhite(g.color, x) ==> !IsWhite(c, x)
    requires v.Ref? && v.o in g.heap ==> !IsWhite(c, v.o)
    ensures RefsMarked(g.heap[o := body], c, o)
  {
    var h' := g.heap[o := body];
    assert RefsMarked(g.heap, g.color, o);
    assert Values(h', body, STRONG) == Values(g.heap, body, STRONG);
    forall x | x in AllRefs(h', o) && x in h'
      ensures !IsWhite(c, x)
    {
      assert Ref(x) in Values(g.heap, body, STRONG);
      if Ref(x) != v {
        assert x in AllRefs(g.heap, o);
      }
    }
  }

  lemma BlackSettled(g: State, o: Id)
    requires ColorsFit(g) && o in g.heap && o in g.color && g.color[o] == Black && RefsMarked(g.heap, g.color, o)
    ensures Settled(g, o)
  {
    hide RefsMarked;
    assert ColorFits(g.heap[o], g.color[o]);
  }

  lemma WriteForwardInv(g: State, o: Id, body: Object, v: Value)
    requires Inv(g) && o in Live(g) && SameRole(g.heap, g.heap[o], body) && !body.Table?
    requires OnlyAdds(g, o, body, [v]) && (v.Ref? ==> v.o in Live(g))
    ensures Inv(WriteForward(g, o, body, v))
  {
    hide Inv, Live, Values, SameRole, OnlyAdds;
    ForwardTargets(g, o, body, v);
    if v.Ref? && IsWhite(g.color, v.o) && g.color[o] == Black {
      if g.phase == Propagate {
        ForwardMarks(g, o, body, v);
      } else {
        ForwardWhitens(g, o, body);
      }
    } else {
      NoBarrierNeeded(g, o, body, v);
      RewriteInv(g, o, body);
    }
  }

  lemma ForwardTargets(g: State, o: Id, body: Object, v: Value)
    requires Inv(g) && o in Live(g) && OnlyAdds(g, o, body, [v]) && (v.Ref? ==> v.o in Live(g))
    ensures Targets(Values(g.heap, body, STRONG)) <= Live(g) && o in g.heap && o in g.color
  {
    hide StringsListed, UpvalsListed, RootsListed, HeadListed, FixedKinds, PhaseInv;
    forall x | x in Targets(Values(g.heap, body, STRONG))
      ensures x in Live(g)
    {
      assert Ref(x) == v || x in AllRefs(g.heap, o);
    }
  }

  lemma NoBarrierNeeded(g: State, o: Id, body: Object, v: Value)
    requires Inv(g) && o in g.heap && OnlyAdds(g, o, body, [v])
    requires v.Ref? ==> !IsWhite(g.color, v.o) || g.color[o] != Black
    ensures g.phase == Propagate && g.color[o] == Black ==>
              forall r :: r in Targets(Values(g.heap, body, STRONG)) && r in g.heap ==> !IsWhite(g.color, r)
  {
    hide Registered, NoDangling, GrayListed, ColorsFitIn, NoOtherWhite, GrayWaits, FirstRootsMarked;
    if g.phase == Propagate && g.color[o] == Black {
      assert RefsMarked(g.heap, g.color, o);
      forall r | r in Targets(Values(g.heap, body, STRONG)) && r in g.heap
        ensures !IsWhite(g.color, r)
      {
        assert Ref(r) == v || r in AllRefs(g.heap, o);
      }
    }
  }

  /** Outside the mark phase the object goes back to white. */
  lemma ForwardWhitens(g: State, o: Id, body: Object)
    requires Inv(g) && g.phase != Propagate && o in g.heap && g.color[o] == Black
    requires SameRole(g.heap, g.heap[o], body) && !body.Table? && Targets(Values(g.heap, body, STRONG)) <= Live(g)
    ensures var m := Rewrite(g, o, body); Inv(m.(color := m.color[o := White(g.white)]))
  {
    RewriteInv(g, o, body);
    WhitenInv(Rewrite(g, o, body), o);
  }

  lemma WhitenInv(g: State, o: Id)
    requires Inv(g) && g.phase != Propagate && o in g.heap && g.color[o] == Black
    ensures Inv(g.(color := g.color[o := White(g.white)]))
  {
    var c := g.color[o := White(g.white)];
    Whitened(g, o, c);
    BarrierCore(g, c, g.grayAgain);
    WhitenPhase(g, o, c);
  }

  lemma WhitenPhase(g: State, o: Id, c: Colors)
    requires Registered(g) && PhaseInv(g) && g.phase != Propagate && o in g.heap && c == g.color[o := White(g.white)]
    ensures PhaseInv(g.(color := c))
  {
    match g.phase
    case Sweep => WhitenSwept(g, o, c);
    case _ =>
  }

  lemma WhitenSwept(g: State, o: Id, c: Colors)
    requires RootsSwept(g.heap, g.color, g.white, g.rootgc, g.sweepPos) && c == g.color[o := White(g.white)]
    ensures RootsSwept(g.heap, c, g.white, g.rootgc, g.sweepPos)
  {
    forall i | 0 <= i < g.sweepPos <= |g.rootgc|
      ensures Swept(g.heap, c, g.white, g.rootgc[i])
    {
      assert Swept(g.heap, g.color, g.white, g.rootgc[i]);
    }
  }

  // ---------- Stacks and upvalues ----------

  /** Stack writes need no barrier: a thread is never black. */
  lemma SetStackInv(g: State, th: Id, globals: Value, stack: seq<Value>)
    requires Inv(g) && th in g.heap && g.heap[th].Thread?
    requires forall v :: v in [globals] + stack && v.Ref? ==> v.o in Live(g)
    requires forall u :: u in g.heap[th].openUpvals && u in g.heap && g.heap[u].OpenUpval? ==> g.heap[u].slot < |stack|
    ensures Inv(SetStack(g, th, globals, stack))
  {
    ThreadNotBlack(g, th);
    RewriteInv(g, th, g.heap[th].(globals := globals, stack := stack));
  }

  /** A write through an open upvalue is a write to the stack it lives in, even if the thread
      itself cannot be reached. */
  lemma SetOpenUpvalInv(g: State, u: Id, v: Value)
    requires Inv(g) && u in Live(g) && g.heap[u].OpenUpval? && (v.Ref? ==> v.o in Live(g))
    ensures Inv(SetUpval(g, u, v))
  {
    hide StringsListed, HeadListed, RootsListed, FixedKinds, RefsWithin, BlackClosed, GrayWaits, StringsSwept,
         RootsSwept, Values;
    var th, slot := g.heap[u].thread, g.heap[u].slot;
    assert OpenListed(g.heap, th);
    var t := g.heap[th];
    var b := t.(stack := t.stack[slot := v]);
    OpenNeverBlack(g, u);
    ThreadNotBlack(g, th);
    RewriteLayout(g.heap, th, b);
    LayoutRegistered(g, g.heap[th := b]);
    SlotWithin(g, th, slot, v);
    assert Live(Rewrite(g, th, b)) == Live(g);
    if g.phase == Propagate {
      RewriteBlack(g, th, b);
    }
    LayoutPhase(g, g.heap[th := b]);
    assert SetUpval(g, u, v) == Rewrite(g, th, b);
  }

  lemma OpenNeverBlack(g: State, u: Id)
    requires Inv(g) && u in g.heap && g.heap[u].OpenUpval?
    ensures g.color[u] != Black
  {
    hide StringsListed, UpvalsListed, HeadListed, RefsWithin, RootsListed, NoDangling, BlackClosed, GrayWaits,
         FixedKinds, FirstRootsMarked, StringsSwept, RootsSwept;
    if g.phase == Propagate {
      assert ColorsFit(g) && (g.color[u].White? || ColorFits(g.heap[u], g.color[u]));
    }
  }

  /** Only a live value enters the stack; the thread need not be live. */
  lemma SlotWithin(g: State, th: Id, slot: nat, v: Value)
    requires Registered(g) && NoDangling(g) && th in g.heap && g.heap[th].Thread? && slot < |g.heap[th].stack|
    requires v.Ref? ==> v.o in Live(g)
    ensures RefsWithin(g.heap[th := g.heap[th].(stack := g.heap[th].stack[slot := v])], Live(g))
  {
    hide Registered, Live, Values;
    var h' := g.heap[th := g.heap[th].(stack := g.heap[th].stack[slot := v])];
    forall x | x in Live(g) && x in h'
      ensures AllRefs(h', x) <= Live(g)
    {
      SlotRefs(g.heap, th, slot, v, x);
      assert v.Ref? ==> {v.o} <= Live(g);
    }
  }

  lemma SlotRefs(h: Objects, th: Id, slot: nat, v: Value, x: Id)
    requires th in h && h[th].Thread? && slot < |h[th].stack| && x in h
    ensures AllRefs(h[th := h[th].(stack := h[th].stack[slot := v])], x) <=
            AllRefs(h, x) + if v.Ref? then {v.o} else {}
  {
    var t := h[th];
    var b := t.(stack := t.stack[slot := v]);
    var h' := h[th := b];
    if x == th {
      forall w | w in Values(h', b, STRONG)
        ensures w == v || w in Values(h, t, STRONG)
      {
      }
    } else if h[x].OpenUpval? && h[x].thread == th {
      var s := h[x].slot;
      assert Values(h', h'[x], STRONG) == [StackValue(h', th, s)];
      assert s != slot ==> StackValue(h', th, s) == StackValue(h, th, s);
      assert Values(h, h[x], STRONG) == [StackValue(h, th, s)];
    } else {
      assert Values(h', h'[x], STRONG) == Values(h, h[x], STRONG);
    }
  }

  lemma LiveHere(g: State, o: Id)
    requires o in Live(g)
    ensures o in g.heap
  {
  }

  lemma SetUpvalInv(g: State, u: Id, v: Value)
    requires Inv(g) && Allowed(g, ASetUpval(u, v))
    ensures Inv(SetUpval(g, u, v))
  {
    hide Registered, PhaseInv, RefsWithin, Reachable, LiveSet;
    ReachableLive(g, u);
    AccessibleLive(g, v);
    LiveHere(g, u);
    match g.heap[u]
    case OpenUpval(_, _) => SetOpenUpvalInv(g, u, v);
    case ClosedUpval(_) => WriteForwardInv(g, u, ClosedUpval(v), v);
    case _ =>
  }

  // ---------- Any action ----------

  lemma ResizeInv(g: State, strings: seq<seq<Id>>)
    requires Inv(g) && Allowed(g, AResizeStrings(strings))
    ensures Inv(g.(strings := strings))
  {
    hide StringsListed, UpvalsListed, RootsListed, HeadListed, FixedKinds, RefsWithin, GrayListed, ColorsFitIn,
         NoOtherWhite, GrayWaits, BlackClosed, FirstRootsMarked, StringsSwept, RootsSwept, SameStrings;
    ResizedListed(g, strings);
    ResizedSwept(g, strings);
  }

  lemma ResizedListed(g: State, strings: seq<seq<Id>>)
    requires StringsListed(g.heap, g.strings) && SameStrings(g.strings, strings)
    ensures StringsListed(g.heap, strings)
  {
    forall o | o in g.heap && g.heap[o].Str?
      ensures exists j :: InBucket(strings, o, j)
    {
      var i :| InBucket(g.strings, o, i);
    }
    forall o, j | InBucket(strings, o, j)
      ensures o in g.heap && g.heap[o].Str?
    {
      var i :| InBucket(g.strings, o, i);
    }
  }

  lemma ResizedSwept(g: State, strings: seq<seq<Id>>)
    requires SameStrings(g.strings, strings)
    ensures StringsSwept(g.strings, g.color, g.white, |g.strings|) ==>
            StringsSwept(strings, g.color, g.white, |strings|)
  {
    forall o, j | StringsSwept(g.strings, g.color, g.white, |g.strings|) && InBucket(strings, o, j)
      ensures o in g.color && g.color[o] == White(g.white)
    {
      var i :| InBucket(g.strings, o, i);
    }
  }

  lemma RootsInv(g: State, r: State)
    requires Inv(g) && r == g.(running := r.running, basicMetas := r.basicMetas)
    requires r.running in g.heap && g.heap[r.running].Thread? && Roots(r) <= Live(g)
    ensures Inv(r)
  {
  }

  lemma SetBasicMetaInv(g: State, i: nat, v: Value)
    requires Inv(g) && i < |g.basicMetas| && (v.Ref? ==> v.o in Live(g))
    ensures Inv(g.(basicMetas := g.basicMetas[i := v]))
  {
    MetaRoots(g.main, g.running, g.registry, g.basicMetas, i, v, Live(g));
    RootsInv(g, g.(basicMetas := g.basicMetas[i := v]));
  }

  lemma MetaRoots(main: Id, running: Id, registry: Value, metas: seq<Value>, i: nat, v: Value, live: set<Id>)
    requires RootSet(main, running, registry, metas) <= live && i < |metas| && (v.Ref? ==> v.o in live)
    ensures RootSet(main, running, registry, metas[i := v]) <= live
  {
    forall w | w in [registry] + metas[i := v] && w.Ref?
      ensures w.o in live
    {
      if w != v {
        assert w in [registry] + metas;
        assert w.o in RootSet(main, running, registry, metas);
      }
    }
  }

  /** The actions that may make an object. */
  lemma MakeInv(g: State, a: Action)
    requires Inv(g) && Allowed(g, a) && g.main in g.rootgc && g.running in g.heap && g.heap[g.running].Thread?
    requires a.ANewObject? || a.ANewUdata? || a.ANewString? || a.AFindString? || a.ACapture? || a.ANewUpval?
    ensures Inv(Act(g, a))
  {
    hide Inv, Reachable, NewObject, NewUdata, NewString, FindString, Capture, NewUpval;
    match a
    case ANewObject(o, body) => NewObjectInv(g, o, body);
    case ANewUdata(o, env) => NewUdataInv(g, o, env);
    case ANewString(o, bucket) => NewStringInv(g, o, bucket);
    case AFindString(o) => FindStringInv(g, o);
    case ACapture(cl, slot, u) => CaptureInv(g, cl, slot, u);
    case ANewUpval(cl, u) => NewUpvalInv(g, cl, u);
  }

  lemma ActInv(g: State, a: Action)
    requires Inv(g) && Allowed(g, a)
    ensures g.main in g.rootgc && g.running in g.heap && g.heap[g.running].Thread? && Inv(Act(g, a))
  {
    hide StringsListed, UpvalsListed, HeadListed, RootsListed, RefsWithin, PhaseInv, Reachable, LiveSet;
    hide Insert, Push, AddString, Resurrect, FindUpval, SetUpval, CloseUpvals;
    MainListed(g);
    match a
    case ANewObject(o, body) => MakeInv(g, a);
    case ANewUdata(o, env) => MakeInv(g, a);
    case ANewString(o, bucket) => MakeInv(g, a);
    case AFindString(o) => MakeInv(g, a);
    case ACapture(cl, slot, u) => MakeInv(g, a);
    case ANewUpval(cl, u) => MakeInv(g, a);
    case ASetStack(th, globals, stack) =>
      forall v | v in [globals] + stack && v.Ref?
        ensures v.o in Live(g)
      {
        AccessibleLive(g, v);
      }
      SetStackInv(g, th, globals, stack);
    case AWriteTable(t, body, vs) => WriteTableInv(g, t, body, vs);
    case AWriteForward(o, body, v) =>
      ReachableLive(g, o);
      AccessibleLive(g, v);
      WriteForwardInv(g, o, body, v);
    case ASetUpval(u, v) => SetUpvalInv(g, u, v);
    case AClose(th, level) => CloseUpvalsInv(g, th, level);
    case AResume(th) =>
      ReachableLive(g, th);
      RootsInv(g, g.(running := th));
    case ASetBasicMeta(i, v) =>
      AccessibleLive(g, v);
      SetBasicMetaInv(g, i, v);
    case AResizeStrings(strings) => ResizeInv(g, strings);
  }
}
