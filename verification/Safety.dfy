/** Collector safety: no interleaving of collector steps with the program ever frees an object
    that can be reached, and the sweep changes nothing that the program can see. */
module Safety {
  import opened Heap
  import opened Collector
  import opened Propagation
  import opened AtomicPhase
  import opened Sweeping
  import opened Invariant
  import opened MarkSteps
  import opened SweepSteps
  import opened Closing
  import opened Reclaim
  import opened Mutator
  import opened MutatorSteps
  import opened Cycle

  // ---------- The sweep is invisible ----------

  /** An object before and after a sweep step: the same, but a thread's list of open upvalues may
      be shorter, and an upvalue may have moved from a stack to the heap with its value. */
  ghost predicate SeenAlike(h: Objects, h': Objects, o: Id)
    requires o in h && o in h'
  {
    || h'[o] == h[o]
    || SameButOpenList(h[o], h'[o])
    || (h[o].OpenUpval? && h'[o] == ClosedUpval(StackValue(h, h[o].thread, h[o].slot)))
  }

  ghost predicate Invisible(g: State, r: State) {
    && Live(r) == Live(g) && Roots(r) == Roots(g) && r.white == g.white && r.fixed == g.fixed
    && (forall o :: o in Live(g) ==> o in g.heap && o in r.heap && SeenAlike(g.heap, r.heap, o))
    && (forall o :: o in r.heap ==> o in g.heap)
    && (forall o :: o in Live(g) && r.heap[o].OpenUpval? ==>
          StackValue(r.heap, g.heap[o].thread, g.heap[o].slot) == StackValue(g.heap, g.heap[o].thread, g.heap[o].slot))
  }

  lemma InvisibleTransitive(a: State, b: State, c: State)
    requires Invisible(a, b) && Invisible(b, c)
    ensures Invisible(a, c)
  {
    forall o | o in Live(a)
      ensures o in a.heap && o in c.heap && SeenAlike(a.heap, c.heap, o)
      ensures c.heap[o].OpenUpval? ==>
                StackValue(c.heap, a.heap[o].thread, a.heap[o].slot) ==
                  StackValue(a.heap, a.heap[o].thread, a.heap[o].slot)
    {
      assert SeenAlike(a.heap, b.heap, o) && SeenAlike(b.heap, c.heap, o);
    }
  }

  /** What live objects hold is the same on both sides of a sweep step. */
  lemma InvisibleValues(g: State, r: State, o: Id, mode: Mode)
    requires Invisible(g, r) && o in Live(g) && NoDangling(g)
    ensures o in g.heap && o in r.heap && Values(r.heap, r.heap[o], mode) == Values(g.heap, g.heap[o], mode)
    ensures StrongRefs(r.heap, o) == StrongRefs(g.heap, o)
  {
    hide Live, RefsWithin;
    assert SeenAlike(g.heap, r.heap, o);
    SameValuesSeen(g, r, o, mode);
    SameModeSeen(g, r, o);
    SameValuesSeen(g, r, o, TableMode(g.heap, g.heap[o]));
  }

  lemma SameValuesSeen(g: State, r: State, o: Id, mode: Mode)
    requires Invisible(g, r) && o in Live(g)
    ensures o in g.heap && o in r.heap && Values(r.heap, r.heap[o], mode) == Values(g.heap, g.heap[o], mode)
  {
    hide Live;
    assert SeenAlike(g.heap, r.heap, o);
  }

  lemma SameModeSeen(g: State, r: State, o: Id)
    requires Invisible(g, r) && o in Live(g) && NoDangling(g)
    ensures o in g.heap && o in r.heap && TableMode(r.heap, r.heap[o]) == TableMode(g.heap, g.heap[o])
  {
    hide Live;
    assert SeenAlike(g.heap, r.heap, o);
    if g.heap[o].Table? && g.heap[o].meta.Ref? {
      var m := g.heap[o].meta.o;
      assert g.heap[o].meta in Values(g.heap, g.heap[o], STRONG);
      assert m in AllRefs(g.heap, o);
      assert SeenAlike(g.heap, r.heap, m);
    }
  }

  lemma CloseOneInvisible(g: State, th: Id)
    requires Inv(g) && CanClose(g, th, 0)
    ensures Invisible(g, CloseOne(g, th))
  {
    var u := g.heap[th].openUpvals[0];
    CloseOneLive(g, th);
    FirstOpenFacts(g.heap, th, u);
    ClosedShape(g.heap, th, u);
    hide Inv;
    if HasOtherWhite(g, u) {
      CloseFreeForm(g, th, u);
      DroppedAlike(g, th, u);
    } else {
      CloseKeepForm(g, th, u);
      KeptAlike(g, th, u, CloseOne(g, th));
    }
  }

  lemma DroppedAlike(g: State, th: Id, u: Id)
    requires Registered(g) && FirstOpen(g.heap, th, u) && ClosedFrom(g.heap, ClosedHeap(g.heap, th), th, u)
    requires Live(Dropped(g, th, u)) == Live(g)
    ensures Invisible(g, Dropped(g, th, u))
  {
    assert u !in Live(Dropped(g, th, u));
    ClosedAlike(g, th, u, Dropped(g, th, u));
  }

  lemma KeptAlike(g: State, th: Id, u: Id, r: State)
    requires Registered(g) && FirstOpen(g.heap, th, u) && ClosedFrom(g.heap, ClosedHeap(g.heap, th), th, u)
    requires Live(r) == Live(g) && r == Moved(g, th, u).(color := r.color, gray := r.gray)
    ensures Invisible(g, r)
  {
    ClosedAlike(g, th, u, r);
  }

  lemma ClosedAlike(g: State, th: Id, u: Id, r: State)
    requires Registered(g) && FirstOpen(g.heap, th, u) && ClosedFrom(g.heap, ClosedHeap(g.heap, th), th, u)
    requires Live(r) == Live(g) && Roots(r) == Roots(g) && r.white == g.white && r.fixed == g.fixed
    requires r.heap == ClosedHeap(g.heap, th) || (r.heap == ClosedHeap(g.heap, th) - {u} && u !in Live(g))
    ensures Invisible(g, r)
  {
    var h' := ClosedHeap(g.heap, th);
    assert SameButOpenList(g.heap[th], h'[th]);
    forall o | o in Live(g)
      ensures o in g.heap && o in r.heap && SeenAlike(g.heap, r.heap, o)
      ensures r.heap[o].OpenUpval? ==>
                StackValue(r.heap, g.heap[o].thread, g.heap[o].slot) ==
                  StackValue(g.heap, g.heap[o].thread, g.heap[o].slot)
    {
      assert r.heap[o] == h'[o];
    }
  }

  lemma {:induction false} CloseUpvalsInvisible(g: State, th: Id, level: nat)
    requires Inv(g)
    ensures Invisible(g, CloseUpvals(g, th, level))
    decreases if th in g.heap && g.heap[th].Thread? then |g.heap[th].openUpvals| else 0
  {
    if CanClose(g, th, level) {
      CloseOneInv(g, th);
      CloseOneFrame(g, th);
      CloseOneInvisible(g, th);
      CloseUpvalsInvisible(CloseOne(g, th), th, level);
      InvisibleTransitive(g, CloseOne(g, th), CloseUpvals(g, th, level));
    }
  }

  lemma SweepOpenInvisible(g: State, th: Id)
    requires Registered(g) && NoDangling(g) && th in g.heap && g.heap[th].Thread?
    ensures Invisible(g, SweepOpen(g, th))
  {
    hide StringsListed, HeadListed, RootsListed, FixedKinds, RefsWithin;
    SweepOpenHeap(g, th);
    var r := SweepOpen(g, th);
    forall o | o in Live(g)
      ensures o in g.heap && o in r.heap && SeenAlike(g.heap, r.heap, o)
      ensures r.heap[o].OpenUpval? ==>
                StackValue(r.heap, g.heap[o].thread, g.heap[o].slot) ==
                  StackValue(g.heap, g.heap[o].thread, g.heap[o].slot)
    {
      assert o in Live(r);
    }
  }

  lemma FreeRootInvisible(g: State, o: Id)
    requires SweepInv(g) && IsDead(g, o) && g.sweepPos < |g.rootgc| && o == g.rootgc[g.sweepPos]
    ensures Invisible(g, FreeRoot(g, o))
  {
    assert o in g.rootgc;
    var g1 := CloseUpvals(g, o, 0);
    CloseUpvalsInv(g, o, 0);
    CloseUpvalsFrame(g, o, 0);
    CloseUpvalsInvisible(g, o, 0);
    StaysDead(g, o, 0, o);
    DeadDropped(g1, o);
    ErasedInvisible(g1, o);
    InvisibleTransitive(g, g1, FreeRoot(g, o));
  }

  lemma ErasedInvisible(g: State, o: Id)
    requires Registered(g) && IsDead(g, o) && o in g.heap && OnRoot(g.heap[o])
    requires g.heap[o].Thread? ==> g.heap[o].openUpvals == []
    ensures Invisible(g, Erased(g, o))
  {
    DeadDropped(g, o);
    var r := Erased(g, o);
    forall x | x in Live(g)
      ensures x in g.heap && x in r.heap && SeenAlike(g.heap, r.heap, x)
      ensures r.heap[x].OpenUpval? ==>
                StackValue(r.heap, g.heap[x].thread, g.heap[x].slot) ==
                  StackValue(g.heap, g.heap[x].thread, g.heap[x].slot)
    {
    }
  }

  lemma SweepOneInvisible(g: State)
    requires SweepInv(g) && g.sweepPos < |g.rootgc|
    ensures Invisible(g, SweepOne(g))
  {
    var o := g.rootgc[g.sweepPos];
    assert o in g.rootgc;
    if g.heap[o].Thread? {
      ThreadSwept(g, o);
      SweepOpenInvisible(g, o);
      var g1 := SweepOpen(g, o);
      if IsDead(g, o) {
        FreeRootInvisible(g1, o);
      } else {
        PassInvisible(g1, o);
      }
      InvisibleTransitive(g, g1, SweepOne(g));
    } else if IsDead(g, o) {
      FreeRootInvisible(g, o);
    } else {
      PassInvisible(g, o);
    }
  }

  lemma PassInvisible(g: State, o: Id)
    requires Registered(g) && o in g.heap && !IsDead(g, o)
    ensures Invisible(g, g.(color := g.color[o := White(g.white)], sweepPos := g.sweepPos + 1))
  {
    Whitened(g, o, g.color[o := White(g.white)]);
  }

  lemma {:induction false} SweepRootsInvisible(g: State, count: nat)
    requires SweepInv(g)
    ensures Invisible(g, SweepRoots(g, count))
    decreases count
  {
    hide Inv;
    if count > 0 && g.sweepPos < |g.rootgc| {
      SweepOneInv(g);
      SweepOneInvisible(g);
      SweepRootsInvisible(SweepOne(g), count - 1);
      InvisibleTransitive(g, SweepOne(g), SweepRoots(g, count));
    } else {
      InvisibleSame(g, g);
    }
  }

  lemma InvisibleSame(g: State, r: State)
    requires r.heap == g.heap && r.color == g.color && r.fixed == g.fixed && r.white == g.white && Roots(r) == Roots(g)
    ensures Invisible(g, r)
  {
  }

  lemma SweepBucketInvisible(g: State)
    requires Inv(g) && g.phase == SweepString
    ensures Invisible(g, SweepBucket(g))
  {
    hide Registered, NoDangling, PhaseInv, SweepBucket, Live, StackValue;
    BucketReady(g);
    BucketForm(g);
    var r := SweepBucket(g);
    forall o | o in Live(g)
      ensures o in g.heap && o in r.heap && SeenAlike(g.heap, r.heap, o)
      ensures r.heap[o].OpenUpval? ==>
                StackValue(r.heap, g.heap[o].thread, g.heap[o].slot) ==
                  StackValue(g.heap, g.heap[o].thread, g.heap[o].slot)
    {
      BucketAlike(g, o);
    }
  }

  lemma BucketReady(g: State)
    requires Inv(g) && g.phase == SweepString
    ensures Registered(g) && g.sweepStr < |g.strings| && Live(SweepBucket(g)) == Live(g)
    ensures SweepBucket(g).heap.Keys <= g.heap.Keys
  {
    hide UpvalsListed, HeadListed, RootsListed, StringsListed, FixedKinds, NoDangling, StringsSwept, OpenNotBlack;
    SweepIdsLive(g, g.strings[g.sweepStr]);
  }

  lemma BucketAlike(g: State, o: Id)
    requires Registered(g) && g.sweepStr < |g.strings| && Live(SweepBucket(g)) == Live(g) && o in Live(g)
    ensures var r := SweepBucket(g);
            && o in g.heap && o in r.heap && SeenAlike(g.heap, r.heap, o)
            && (r.heap[o].OpenUpval? ==> StackValue(r.heap, g.heap[o].thread, g.heap[o].slot) ==
                                         StackValue(g.heap, g.heap[o].thread, g.heap[o].slot))
  {
    hide RootsListed, HeadListed, FixedKinds;
    assert o in Live(SweepBucket(g));
    assert forall s :: s in g.strings[g.sweepStr] ==> InBucket(g.strings, s, g.sweepStr);
  }

  lemma SweepStepInvisible(g: State)
    requires SweepInv(g)
    ensures Invisible(g, SweepStep(g))
  {
    hide Inv;
    SweepRootsInvisible(g, GCSWEEPMAX);
    var g1 := SweepRoots(g, GCSWEEPMAX);
    InvisibleSame(g1, g1.(phase := Finalize));
    InvisibleSame(g1, g1);
    InvisibleTransitive(g, g1, SweepStep(g));
  }

  /** A step of the sweep phases, or the end of a cycle, changes nothing the program can see. */
  lemma SweepStepsInvisible(g: State)
    requires Inv(g) && (g.phase == SweepString || g.phase == Sweep || g.phase == Finalize)
    ensures Invisible(g, SingleStep(g))
  {
    hide Inv;
    match g.phase
    case SweepString => SweepBucketInvisible(g);
    case Sweep => SweepStepInvisible(g);
    case Finalize => InvisibleSame(g, SingleStep(g));
  }

  // ---------- No live object is freed ----------

  /** The mark phase frees nothing. */
  lemma MarkStepsKeep(g: State)
    requires Inv(g) && (g.phase == Pause || g.phase == Propagate)
    ensures SingleStep(g).heap.Keys == g.heap.Keys
  {
    if g.phase == Propagate {
      if g.gray != [] {
        GrayHead(g);
        MarkPhaseReady(g);
        PropagateMarkKeeps(g, Waiting(g) + SetOf(g.uvhead));
      } else {
        AtomicInv(g);
        AtomicCloses(g);
      }
    }
  }

  lemma CollectKeepsLive(g: State)
    requires Inv(g)
    ensures Live(g) <= SingleStep(g).heap.Keys
  {
    hide Inv;
    if g.phase == Pause || g.phase == Propagate {
      MarkStepsKeep(g);
    } else {
      SweepStepsInvisible(g);
    }
  }

  lemma {:induction false} BarriersKeep(g: State, t: Id, vs: seq<Value>)
    ensures BarrierBackAll(g, t, vs).heap == g.heap
    decreases |vs|
  {
    if vs != [] {
      BarriersKeep(BarrierBack(g, t, vs[0]), t, vs[1..]);
    }
  }

  lemma AllocationKeeps(g: State, a: Action)
    requires g.main in g.rootgc && g.running in g.heap && g.heap[g.running].Thread?
    requires a.ANewObject? || a.ANewUdata? || a.ANewString? || a.AFindString? || a.ACapture? || a.ANewUpval?
    ensures g.heap.Keys <= Act(g, a).heap.Keys
  {
    if a.ACapture? || a.ANewUpval? {
      CaptureKeeps(g, a);
    }
  }

  lemma CaptureKeeps(g: State, a: Action)
    requires g.main in g.rootgc && g.running in g.heap && g.heap[g.running].Thread? && (a.ACapture? || a.ANewUpval?)
    ensures g.heap.Keys <= Act(g, a).heap.Keys
  {
    hide ScanOpen, LinkRoot;
  }

  lemma WriteKeeps(g: State, a: Action)
    requires g.main in g.rootgc && g.running in g.heap && g.heap[g.running].Thread?
    requires a.ASetStack? || a.AWriteTable? || a.AWriteForward? || a.ASetUpval? || a.AResume? || a.ASetBasicMeta? ||
             a.AResizeStrings?
    ensures g.heap.Keys <= Act(g, a).heap.Keys
  {
    if a.AWriteTable? {
      BarriersKeep(Rewrite(g, a.t, a.body), a.t, a.vs);
    }
  }

  lemma ActKeepsLive(g: State, a: Action)
    requires Inv(g) && Allowed(g, a)
    ensures g.main in g.rootgc && g.running in g.heap && g.heap[g.running].Thread? && Live(g) <= Act(g, a).heap.Keys
  {
    assert OnRoot(g.heap[g.main]);
    if a.AClose? {
      CloseUpvalsInvisible(g, a.th, a.level);
    } else if a.ASetStack? || a.AWriteTable? || a.AWriteForward? || a.ASetUpval? || a.AResume? || a.ASetBasicMeta? ||
        a.AResizeStrings? {
      WriteKeeps(g, a);
    } else {
      AllocationKeeps(g, a);
    }
  }

  // ---------- The theorem ----------

  /** The state that opening a Lua state leaves: the main thread 0 with the table of globals 1,
      the registry 2, and the fixed strings. */
  ghost predicate Started(g: State) {
    && g.heap.Keys == g.color.Keys && AllWhite(g.color, g.white) && g.phase == Pause
    && g.rootgc == [2, 1, 0] && g.sweepPos == 0 && g.uvhead == []
    && StringsListed(g.heap, g.strings)
    && (forall o :: o in g.heap <==> o < 3 || InSome(g.strings, o))
    && 0 in g.heap && g.heap[0] == Thread(Ref(1), [], [])
    && 1 in g.heap && g.heap[1] == Table(Nil, [], [], STRONG, STRONG)
    && 2 in g.heap && g.heap[2] == Table(Nil, [], [], STRONG, STRONG)
    && g.main == 0 && g.running == 0 && g.registry == Ref(2) && (forall v :: v in g.basicMetas ==> v == Nil)
    && g.fixed == {0} + (set o | o in g.heap && g.heap[o].Str?)
  }

  ghost predicate InSome(strings: seq<seq<Id>>, o: Id) {
    exists i :: InBucket(strings, o, i)
  }

  lemma OpeningInv(g: State)
    requires Started(g)
    ensures Inv(g)
  {
    StartedStrings(g);
    StartedLists(g);
    StartedRefs(g);
  }

  lemma StartedStrings(g: State)
    requires Started(g)
    ensures forall o :: o in g.heap && o >= 3 ==> g.heap[o].Str?
  {
    forall o | o in g.heap && o >= 3
      ensures g.heap[o].Str?
    {
      assert InSome(g.strings, o);
    }
  }

  lemma StartedLists(g: State)
    requires Started(g) && forall o :: o in g.heap && o >= 3 ==> g.heap[o].Str?
    ensures Registered(g)
  {
    hide UpvalsListed, RootsListed;
    StartedUpvals(g);
    StartedRoots(g);
  }

  lemma StartedUpvals(g: State)
    requires Started(g) && forall o :: o in g.heap && o >= 3 ==> g.heap[o].Str?
    ensures UpvalsListed(g.heap)
  {
    hide StringsListed, AllWhite, InSome, InBucket;
    forall th | th in g.heap && g.heap[th].Thread?
      ensures th == 0 && OpenListed(g.heap, th)
    {
    }
  }

  lemma StartedRoots(g: State)
    requires Started(g) && forall o :: o in g.heap && o >= 3 ==> g.heap[o].Str?
    ensures RootsListed(g.heap, g.rootgc)
  {
    assert g.rootgc == [2, 1, 0];
  }

  lemma StartedRefs(g: State)
    requires Started(g) && forall o :: o in g.heap && o >= 3 ==> g.heap[o].Str?
    ensures NoDangling(g)
  {
    assert Live(g) == g.heap.Keys;
    forall v | v in [g.registry] + g.basicMetas && v.Ref?
      ensures v.o == 2
    {
    }
    forall o | o in g.heap
      ensures AllRefs(g.heap, o) <= Live(g)
    {
      if o == 0 {
        assert Values(g.heap, g.heap[o], STRONG) == [Ref(1)];
      } else if o < 3 {
        assert Values(g.heap, g.heap[o], STRONG) == [Nil];
      } else {
        assert Values(g.heap, g.heap[o], STRONG) == [];
      }
    }
  }

  /** In any state a run can reach, every reachable object is in the heap and not marked for
      freeing, and the next collector step or action of the program, whichever comes, leaves it
      in the heap. */
  lemma ReachableNeverFreed(g: State, es: seq<Event>, e: Event, o: Id)
    requires Inv(g) && Possible(g, es) && Enabled(Outcome(g, es), e) && !e.FullCollect?
    requires Reachable(Outcome(g, es), o)
    ensures var r := Outcome(g, es); o in r.heap && !IsDead(r, o) && o in Next(r, e).heap
  {
    var r := Outcome(g, es);
    ReachableLive(r, o);
    match e
    case Collect => CollectKeepsLive(r);
    case Run(a) => ActKeepsLive(r, a);
  }
}
