/** Sweeping `rootgc` keeps the invariant, and ends. */
module Reclaim {
  import opened Common
  import opened Heap
  import opened Collector
  import opened Sweeping
  import opened Invariant
  import opened SweepSteps
  import opened Closing

  lemma {:induction false} RemoveAfter(s: seq<Id>, o: Id, n: nat)
    requires NoRepeats(s) && n < |s| && o in s[n..]
    ensures |Remove(s, o)| == |s| - 1 && Remove(s, o)[..n] == s[..n]
  {
    if n > 0 {
      assert s[1..][n - 1..] == s[n..];
      assert s[0] != o by {
        var i :| n <= i < |s| && s[i] == o;
      }
      RemoveAfter(s[1..], o, n - 1);
      assert s[..n] == [s[0]] + s[1..][..n - 1];
    } else {
      RemoveOnce(s, o);
    }
  }

  lemma {:induction false} RemoveOnce(s: seq<Id>, o: Id)
    requires NoRepeats(s) && o in s
    ensures |Remove(s, o)| == |s| - 1
  {
    if s[0] == o {
      RemoveAbsent(s[1..], o);
    } else {
      RemoveOnce(s[1..], o);
    }
  }

  lemma {:induction false} RemoveAbsent(s: seq<Id>, o: Id)
    requires o !in s
    ensures Remove(s, o) == s
  {
    if s != [] {
      RemoveAbsent(s[1..], o);
    }
  }

  // ---------- Freeing one object ----------

  /** Taking the dead object `o` off `rootgc` and out of the heap. */
  ghost function Erased(g: State, o: Id): State {
    g.(rootgc := Remove(g.rootgc, o), heap := g.heap - {o}, color := g.color - {o})
  }

  /** `o` is dead, not a string or upvalue, not passed by the sweep, and has no open upvalues. */
  ghost predicate Erasable(g: State, o: Id) {
    && IsDead(g, o) && o in g.heap && OnRoot(g.heap[o])
    && (g.heap[o].Thread? ==> g.heap[o].openUpvals == [])
    && g.sweepPos < |g.rootgc| && o in g.rootgc[g.sweepPos..]
  }

  lemma ErasedUpvals(h: Objects, o: Id)
    requires UpvalsListed(h) && o in h && OnRoot(h[o]) && (h[o].Thread? ==> h[o].openUpvals == [])
    ensures UpvalsListed(h - {o}) && Without(h, h - {o})
  {
    var h' := h - {o};
    forall t | t in h' && h'[t].Thread?
      ensures OpenListed(h', t)
    {
      assert OpenListed(h, t);
    }
  }

  lemma ErasedStrings(h: Objects, o: Id, strings: seq<seq<Id>>)
    requires StringsListed(h, strings) && o in h && !h[o].Str?
    ensures StringsListed(h - {o}, strings)
  {
    forall s | s in h - {o} && (h - {o})[s].Str?
      ensures exists i :: InBucket(strings, s, i)
    {
      assert h[s].Str?;
    }
  }

  lemma ErasedRegistered(g: State, o: Id)
    requires Registered(g) && NoDangling(g) && Erasable(g, o)
    ensures Registered(Erased(g, o)) && NoDangling(Erased(g, o))
  {
    ErasedUpvals(g.heap, o);
    ErasedStrings(g.heap, o, g.strings);
    RemoveAfter(g.rootgc, o, g.sweepPos);
    DeadDropped(g, o);
    WithoutWithin(g.heap, g.heap - {o}, Live(g));
    assert o !in Live(g) && g.running in Roots(g) && g.main in Roots(g);
  }

  lemma ErasedPhase(g: State, o: Id)
    requires Registered(g) && PhaseInv(g) && g.phase == Sweep && Erasable(g, o)
    ensures PhaseInv(Erased(g, o))
  {
    StringsStaySwept(g, g.color - {o});
    RemoveAfter(g.rootgc, o, g.sweepPos);
    ErasedSwept(g, o, Remove(g.rootgc, o));
  }

  lemma ErasedSwept(g: State, o: Id, rest: seq<Id>)
    requires Registered(g) && Erasable(g, o) && RootsSwept(g.heap, g.color, g.white, g.rootgc, g.sweepPos)
    requires |rest| == |g.rootgc| - 1 && rest[..g.sweepPos] == g.rootgc[..g.sweepPos]
    ensures RootsSwept(g.heap - {o}, g.color - {o}, g.white, rest, g.sweepPos)
  {
    forall i | 0 <= i < g.sweepPos <= |rest|
      ensures Swept(g.heap - {o}, g.color - {o}, g.white, rest[i])
    {
      assert rest[i] == rest[..g.sweepPos][i] == g.rootgc[..g.sweepPos][i] == g.rootgc[i];
      var x := g.rootgc[i];
      assert Swept(g.heap, g.color, g.white, x) && x in g.rootgc;
      if g.heap[x].Thread? {
        assert OpenListed(g.heap, x);
      }
    }
  }

  /** How much of the sweep is left. An upvalue that is closed meanwhile leaves one list for
      the other. */
  ghost function SweepLeft(g: State): int {
    |g.uvhead| + |g.rootgc| - g.sweepPos
  }

  ghost predicate SweepInv(g: State) {
    Inv(g) && g.phase == Sweep
  }

  lemma FreeRootInv(g: State, o: Id)
    requires SweepInv(g) && IsDead(g, o) && g.sweepPos < |g.rootgc| && o == g.rootgc[g.sweepPos]
    ensures SweepInv(FreeRoot(g, o)) && SweepLeft(FreeRoot(g, o)) < SweepLeft(g)
  {
    hide Registered, NoDangling, PhaseInv, CloseUpvals, Erasable, Remove;
    var g1 := CloseUpvals(g, o, 0);
    ErasableThen(g, o);
    ErasedRegistered(g1, o);
    ErasedPhase(g1, o);
    RemoveAfter(g1.rootgc, o, g1.sweepPos);
  }

  /** Once its upvalues are closed, the dead object can go. */
  lemma ErasableThen(g: State, o: Id)
    requires SweepInv(g) && IsDead(g, o) && g.sweepPos < |g.rootgc| && o == g.rootgc[g.sweepPos]
    ensures var g1 := CloseUpvals(g, o, 0);
            && SweepInv(g1) && Erasable(g1, o) && SweepLeft(g1) <= SweepLeft(g)
            && NoRepeats(g1.rootgc) && g1.sweepPos < |g1.rootgc| && o in g1.rootgc[g1.sweepPos..]
  {
    hide Registered, NoDangling, PhaseInv, CloseUpvals, IsDead, SameAround, PutsInFront, SameButOpenList, SweepLeft;
    var g1 := CloseUpvals(g, o, 0);
    RootMember(g, o);
    CloseUpvalsInv(g, o, 0);
    CloseUpvalsFrame(g, o, 0);
    StaysDead(g, o, 0, o);
    NoThread(g, o);
    FrontIndex(g, g1, o);
    RootMember(g1, o);
  }

  lemma NoThread(g: State, o: Id)
    ensures o in g.heap && !g.heap[o].Thread? ==> CloseUpvals(g, o, 0) == g
  {
  }

  lemma RootMember(g: State, o: Id)
    requires Registered(g) && o in g.rootgc
    ensures o in g.heap && OnRoot(g.heap[o]) && NoRepeats(g.rootgc) && g.color.Keys == g.heap.Keys
  {
  }

  lemma FrontIndex(g: State, g1: State, o: Id)
    requires PutsInFront(g, g1) && SameAround(g, g1) && g.sweepPos < |g.rootgc| && o == g.rootgc[g.sweepPos]
    ensures g1.sweepPos < |g1.rootgc| && o in g1.rootgc[g1.sweepPos..] && o in g1.rootgc
    ensures g1.phase == g.phase && SweepLeft(g1) <= SweepLeft(g)
  {
    assert o in g1.rootgc[g1.sweepPos..] ==> o in g1.rootgc;
    var k := |g1.rootgc| - |g.rootgc|;
    assert g1.rootgc[k + g.sweepPos] == g1.rootgc[k..][g.sweepPos] == o;
    assert g1.rootgc[g1.sweepPos..][k + g.sweepPos - g1.sweepPos] == o;
  }

  /** Closing a thread's upvalues in the sweep phase recolours no object but upvalues. */
  lemma {:induction false} StaysDead(g: State, th: Id, level: nat, o: Id)
    requires SweepInv(g) && IsDead(g, o) && o in g.heap && OnRoot(g.heap[o])
    ensures var r := CloseUpvals(g, th, level); o in r.heap && IsDead(r, o)
    decreases if th in g.heap && g.heap[th].Thread? then |g.heap[th].openUpvals| else 0
  {
    if CanClose(g, th, level) {
      CloseOneInv(g, th);
      CloseOneFrame(g, th);
      var u := g.heap[th].openUpvals[0];
      FirstOpenFacts(g.heap, th, u);
      if HasOtherWhite(g, u) {
        CloseFreeForm(g, th, u);
      } else {
        CloseKeepForm(g, th, u);
      }
      var g1 := CloseOne(g, th);
      assert o in g1.heap && OnRoot(g1.heap[o]);
      StaysDead(g1, th, level, o);
    }
  }

  // ---------- One step along `rootgc` ----------

  lemma PassInv(g: State, o: Id)
    requires SweepInv(g) && g.sweepPos < |g.rootgc| && o == g.rootgc[g.sweepPos] && !IsDead(g, o)
    requires o in g.heap && (g.heap[o].Thread? ==>
               forall u :: u in g.heap[o].openUpvals ==> u in g.color && g.color[u] == White(g.white))
    ensures SweepInv(g.(color := g.color[o := White(g.white)], sweepPos := g.sweepPos + 1))
  {
    hide Registered, NoDangling, StringsSwept, RootsSwept, OpenNotBlack, IsDead, LiveSet;
    var c := g.color[o := White(g.white)];
    RootMember(g, o);
    PassOpen(g.heap, g.color, o, g.white);
    Whitened(g, o, c);
    PassCore(g, o, c);
    StringsStaySwept(g, c);
    PassSwept(g, o, c);
  }

  lemma PassOpen(h: Objects, c: Colors, o: Id, white: bool)
    ensures OpenNotBlack(h, c) ==> OpenNotBlack(h, c[o := White(white)])
  {
  }

  lemma PassCore(g: State, o: Id, c: Colors)
    requires Registered(g) && NoDangling(g) && g.sweepPos < |g.rootgc| && c.Keys == g.color.Keys
    requires LiveSet(g.heap, c, g.fixed, g.white) == Live(g)
    ensures Registered(g.(color := c, sweepPos := g.sweepPos + 1)) &&
            NoDangling(g.(color := c, sweepPos := g.sweepPos + 1))
  {
  }

  lemma PassSwept(g: State, o: Id, c: Colors)
    requires RootsSwept(g.heap, g.color, g.white, g.rootgc, g.sweepPos)
    requires g.sweepPos < |g.rootgc| && o == g.rootgc[g.sweepPos]
    requires o in g.heap && (g.heap[o].Thread? ==>
               forall u :: u in g.heap[o].openUpvals ==> u in g.color && g.color[u] == White(g.white))
    requires c == g.color[o := White(g.white)]
    ensures RootsSwept(g.heap, c, g.white, g.rootgc, g.sweepPos + 1)
  {
    forall i | 0 <= i < g.sweepPos + 1 <= |g.rootgc|
      ensures Swept(g.heap, c, g.white, g.rootgc[i])
    {
      if i < g.sweepPos {
        assert Swept(g.heap, g.color, g.white, g.rootgc[i]);
      }
    }
  }

  lemma SweepOneInv(g: State)
    requires SweepInv(g) && g.sweepPos < |g.rootgc|
    ensures SweepInv(SweepOne(g)) && SweepLeft(SweepOne(g)) < SweepLeft(g)
  {
    hide StringsListed, UpvalsListed, HeadListed, FixedKinds, RefsWithin, LiveSet, StringsSwept, RootsSwept, SweepOpen;
    var o := g.rootgc[g.sweepPos];
    assert o in g.rootgc;
    if g.heap[o].Thread? {
      ThreadSwept(g, o);
      var g1 := SweepOpen(g, o);
      if IsDead(g, o) {
        FreeRootInv(g1, o);
      } else {
        PassInv(g1, o);
      }
    } else if IsDead(g, o) {
      FreeRootInv(g, o);
    } else {
      PassInv(g, o);
    }
  }

  lemma ThreadSwept(g: State, th: Id)
    requires SweepInv(g) && th in g.heap && g.heap[th].Thread?
    ensures var g1 := SweepOpen(g, th);
            && SweepInv(g1) && SweepLeft(g1) <= SweepLeft(g) && IsDead(g1, th) == IsDead(g, th)
            && g1.rootgc == g.rootgc && g1.sweepPos == g.sweepPos && th in g1.heap && g1.white == g.white
            && forall u :: u in g1.heap[th].openUpvals ==> u in g1.color && g1.color[u] == White(g1.white)
  {
    SweepOpenSwept(g, th);
    SweepOpenHeap(g, th);
    assert th !in g.heap[th].openUpvals;
  }

  lemma {:induction false} SweepRootsInv(g: State, count: nat)
    requires SweepInv(g)
    ensures SweepInv(SweepRoots(g, count)) && SweepLeft(SweepRoots(g, count)) <= SweepLeft(g)
    ensures count > 0 && g.sweepPos < |g.rootgc| ==> SweepLeft(SweepRoots(g, count)) < SweepLeft(g)
    decreases count
  {
    hide Inv;
    if count > 0 && g.sweepPos < |g.rootgc| {
      SweepOneInv(g);
      SweepRootsInv(SweepOne(g), count - 1);
    }
  }

  /** When the sweep reaches the end, every object has been passed. */
  lemma SweepDone(g: State)
    requires SweepInv(g) && g.sweepPos == |g.rootgc|
    ensures AllWhite(g.color, g.white)
  {
    forall o | o in g.color
      ensures g.color[o] == White(g.white)
    {
      if g.heap[o].Str? {
        var i :| InBucket(g.strings, o, i);
      } else if g.heap[o].OpenUpval? {
        var th := g.heap[o].thread;
        assert th in g.rootgc;
        var i :| 0 <= i < |g.rootgc| && g.rootgc[i] == th;
        assert Swept(g.heap, g.color, g.white, g.rootgc[i]);
      } else {
        assert o in g.rootgc;
        var i :| 0 <= i < |g.rootgc| && g.rootgc[i] == o;
        assert Swept(g.heap, g.color, g.white, g.rootgc[i]);
      }
    }
  }

  lemma SweepStepInv(g: State)
    requires SweepInv(g)
    ensures Inv(SweepStep(g))
    ensures SweepStep(g).phase == Finalize || (SweepInv(SweepStep(g)) && SweepLeft(SweepStep(g)) < SweepLeft(g))
  {
    SweepRootsInv(g, GCSWEEPMAX);
    var g1 := SweepRoots(g, GCSWEEPMAX);
    if g1.sweepPos >= |g1.rootgc| {
      SweepDone(g1);
    }
  }
}
