/** The steps of the sweep phases keep the invariant, and make progress. */
module SweepSteps {
  import opened Heap
  import opened Collector
  import opened Sweeping
  import opened Invariant

  // ---------- Freeing ----------

  /** `h'` is `h` without some objects that no other object's values depend on: no threads with
      open upvalues among the rest. */
  ghost predicate Without(h: Objects, h': Objects) {
    && h'.Keys <= h.Keys
    && (forall o :: o in h' ==> h'[o] == h[o] || SameButOpenList(h[o], h'[o]))
    && (forall u :: u in h' && h'[u].OpenUpval? && h'[u].thread in h ==> h'[u].thread in h')
  }

  /** The same thread with another list of open upvalues. */
  predicate SameButOpenList(a: Object, b: Object) {
    a.Thread? && b.Thread? && a.globals == b.globals && a.stack == b.stack
  }

  lemma WithoutRefs(h: Objects, h': Objects, o: Id)
    requires Without(h, h') && o in h'
    ensures AllRefs(h', o) == AllRefs(h, o)
  {
    if h'[o].OpenUpval? {
      assert StackValue(h', h'[o].thread, h'[o].slot) == StackValue(h, h[o].thread, h[o].slot);
    }
  }

  lemma WithoutWithin(h: Objects, h': Objects, live: set<Id>)
    requires Without(h, h') && RefsWithin(h, live)
    ensures RefsWithin(h', live)
  {
    forall o | o in live && o in h'
      ensures AllRefs(h', o) <= live
    {
      WithoutRefs(h, h', o);
    }
  }

  /** Sweeping a list frees dead objects only. */
  lemma SweepIdsLive(g: State, s: seq<Id>)
    requires g.color.Keys == g.heap.Keys
    ensures Live(SweepIds(g, s)) == Live(g) && SweepIds(g, s).color.Keys == SweepIds(g, s).heap.Keys
  {
  }

  // ---------- One bucket of the string table ----------

  lemma SweepBucketInv(g: State)
    requires Inv(g) && g.phase == SweepString
    ensures Inv(SweepBucket(g))
  {
    hide UpvalsListed, StringsListed, RootsListed, HeadListed, FixedKinds, NoDangling, SweepBucket, StringsSwept,
         OpenNotBlack;
    BucketForm(g);
    BucketDangling(g);
    BucketStrings(g);
    BucketRegistered(g);
    BucketSwept(g);
  }

  lemma BucketForm(g: State)
    requires Registered(g) && g.sweepStr < |g.strings|
    ensures var g' := SweepBucket(g);
            && g'.color.Keys == g'.heap.Keys
            && g' == g.(heap := g'.heap, color := g'.color, strings := g'.strings, sweepStr := g.sweepStr + 1,
                        phase := g'.phase)
    ensures forall o :: o in g.strings[g.sweepStr] ==> o in g.heap && g.heap[o].Str?
  {
    hide UpvalsListed, RootsListed, HeadListed, FixedKinds;
    assert forall o :: o in g.strings[g.sweepStr] ==> InBucket(g.strings, o, g.sweepStr);
  }

  lemma BucketDangling(g: State)
    requires Registered(g) && NoDangling(g) && g.sweepStr < |g.strings|
    ensures NoDangling(SweepBucket(g))
  {
    hide UpvalsListed, RootsListed, HeadListed, RefsWithin;
    var b := g.strings[g.sweepStr];
    SweepIdsLive(g, b);
    BucketForm(g);
    BucketWithout(g, b);
    WithoutWithin(g.heap, SweepBucket(g).heap, Live(g));
  }

  lemma BucketWithout(g: State, b: seq<Id>)
    requires UpvalsListed(g.heap) && forall o :: o in b ==> o in g.heap && g.heap[o].Str?
    ensures Without(g.heap, SweepIds(g, b).heap)
  {
  }

  lemma BucketStrings(g: State)
    requires Registered(g) && g.sweepStr < |g.strings|
    ensures StringsListed(SweepBucket(g).heap, SweepBucket(g).strings)
    ensures forall o, i :: InBucket(SweepBucket(g).strings, o, i) <==>
              InBucket(g.strings, o, i) && !(i == g.sweepStr && IsDead(g, o))
  {
    var b := g.strings[g.sweepStr];
    var g' := SweepBucket(g);
    assert forall o :: o in b ==> InBucket(g.strings, o, g.sweepStr);
    forall o, i
      ensures InBucket(g'.strings, o, i) <==> InBucket(g.strings, o, i) && !(i == g.sweepStr && IsDead(g, o))
    {
    }
    forall o | o in g'.heap && g'.heap[o].Str?
      ensures exists i :: InBucket(g'.strings, o, i)
    {
      var i :| InBucket(g.strings, o, i);
      assert InBucket(g'.strings, o, i);
    }
  }

  lemma BucketRegistered(g: State)
    requires Registered(g) && g.sweepStr < |g.strings|
    requires forall o :: o in g.strings[g.sweepStr] ==> o in g.heap && g.heap[o].Str?
    ensures var g' := SweepBucket(g);
            && RootsListed(g'.heap, g'.rootgc) && UpvalsListed(g'.heap) && HeadListed(g'.heap, g'.uvhead)
            && FixedKinds(g'.heap, g'.fixed, g'.main, g'.running)
  {
    hide UpvalsListed, StringsListed;
    BucketUpvals(g, g.strings[g.sweepStr]);
    var g' := SweepBucket(g);
    assert forall o :: o in g.heap && !g.heap[o].Str? ==> o in g'.heap;
  }

  lemma BucketUpvals(g: State, b: seq<Id>)
    requires UpvalsListed(g.heap) && forall o :: o in b ==> o in g.heap && g.heap[o].Str?
    ensures UpvalsListed(SweepIds(g, b).heap)
  {
    var h' := SweepIds(g, b).heap;
    forall th | th in h' && h'[th].Thread?
      ensures OpenListed(h', th)
    {
      assert OpenListed(g.heap, th);
    }
  }

  lemma BucketSwept(g: State)
    requires Inv(g) && g.phase == SweepString
    ensures PhaseInv(SweepBucket(g))
  {
    hide UpvalsListed, RootsListed, HeadListed, FixedKinds, NoDangling, StringsListed;
    var g' := SweepBucket(g);
    BucketStrings(g);
    BucketForm(g);
    forall o, i | InBucket(g'.strings, o, i) && i < g.sweepStr + 1
      ensures o in g'.color && g'.color[o] == White(g.white)
    {
      assert InBucket(g.strings, o, i);
    }
  }

  // ---------- The open upvalues of a thread ----------

  /** What sweeping a thread's open upvalues does to the heap. */
  lemma SweepOpenHeap(g: State, th: Id)
    requires Registered(g) && th in g.heap && g.heap[th].Thread?
    ensures var g' := SweepOpen(g, th);
            && th in g'.heap && g'.heap[th] == g.heap[th].(openUpvals := Survivors(g, g.heap[th].openUpvals))
            && g'.heap.Keys == g'.color.Keys && Live(g') == Live(g)
            && (forall u :: u in g.heap[th].openUpvals ==> u in g.heap && g.heap[u].OpenUpval?)
            && (forall o :: o in g'.heap <==> o in g.heap && !Freed(g, g.heap[th].openUpvals, o))
            && (forall o :: o in g'.heap && o != th ==> g'.heap[o] == g.heap[o])
            && g'.uvhead == Unfreed(g, g.heap[th].openUpvals, g.uvhead)
            && g' == g.(heap := g'.heap, color := g'.color, uvhead := g'.uvhead)
  {
    hide RootsListed, StringsListed, HeadListed, FixedKinds, LiveSet, Survivors, Unfreed;
    var us, g' := g.heap[th].openUpvals, SweepOpen(g, th);
    assert OpenListed(g.heap, th);
    SweepIdsLive(g, us);
    SameLive(SweepIds(g, us).heap, g'.heap, g'.color, g.fixed, g.white);
  }

  lemma SameLive(h: Objects, h': Objects, c: Colors, fixed: set<Id>, white: bool)
    requires h'.Keys == h.Keys
    ensures LiveSet(h', c, fixed, white) == LiveSet(h, c, fixed, white)
  {
  }

  lemma SweepOpenCore(g: State, th: Id)
    requires Registered(g) && NoDangling(g) && th in g.heap && g.heap[th].Thread?
    ensures Without(g.heap, SweepOpen(g, th).heap) && NoDangling(SweepOpen(g, th))
  {
    SweepOpenHeap(g, th);
    var h' := SweepOpen(g, th).heap;
    SweepOpenWithout(g, th, h');
    WithoutWithin(g.heap, h', Live(g));
  }

  lemma SweepOpenWithout(g: State, th: Id, h': Objects)
    requires th in g.heap && g.heap[th].Thread? && th in h' && SameButOpenList(g.heap[th], h'[th])
    requires forall u :: u in g.heap[th].openUpvals ==> u in g.heap && g.heap[u].OpenUpval?
    requires forall o :: o in h' <==> o in g.heap && !Freed(g, g.heap[th].openUpvals, o)
    requires forall o :: o in h' && o != th ==> h'[o] == g.heap[o]
    requires UpvalsListed(g.heap)
    ensures Without(g.heap, h')
  {
    forall u | u in h' && h'[u].OpenUpval? && h'[u].thread in g.heap
      ensures h'[u].thread in h'
    {
      assert g.heap[h'[u].thread].Thread?;
    }
  }

  lemma SweepOpenRegistered(g: State, th: Id)
    requires Registered(g) && NoDangling(g) && th in g.heap && g.heap[th].Thread?
    ensures Registered(SweepOpen(g, th))
  {
    hide UpvalsListed, StringsListed, RootsListed, HeadListed, FixedKinds, Survivors, Unfreed, SweepOpen;
    SweepOpenHeap(g, th);
    SweepOpenStrings(g, th);
    SweepOpenUpvals(g, th, SweepOpen(g, th).heap);
    SweepOpenLists(g, th, SweepOpen(g, th).heap);
    SweepOpenHead(g, th, SweepOpen(g, th).heap);
  }

  lemma SweepOpenLists(g: State, th: Id, h': Objects)
    requires Registered(g) && th in g.heap && g.heap[th].Thread? && th in h' && h'[th].Thread?
    requires forall u :: u in g.heap[th].openUpvals ==> u in g.heap && g.heap[u].OpenUpval?
    requires forall o :: o in h' <==> o in g.heap && !Freed(g, g.heap[th].openUpvals, o)
    requires forall o :: o in h' && o != th ==> h'[o] == g.heap[o]
    ensures RootsListed(h', g.rootgc) && FixedKinds(h', g.fixed, g.main, g.running)
  {
    hide UpvalsListed, StringsListed, HeadListed, IsDead;
  }

  lemma SweepOpenHead(g: State, th: Id, h': Objects)
    requires HeadListed(g.heap, g.uvhead) && th in g.heap && g.heap[th].Thread? && th in h' && h'[th].Thread?
    requires forall o :: o in h' <==> o in g.heap && !Freed(g, g.heap[th].openUpvals, o)
    requires forall o :: o in h' && o != th ==> h'[o] == g.heap[o]
    ensures HeadListed(h', Unfreed(g, g.heap[th].openUpvals, g.uvhead))
  {
    hide IsDead;
  }

  lemma SweepOpenUpvals(g: State, th: Id, h': Objects)
    requires th in g.heap && g.heap[th].Thread? && th in h'
    requires h'[th] == g.heap[th].(openUpvals := Survivors(g, g.heap[th].openUpvals))
    requires forall o :: o in h' <==> o in g.heap && !Freed(g, g.heap[th].openUpvals, o)
    requires forall o :: o in h' && o != th ==> h'[o] == g.heap[o]
    requires UpvalsListed(g.heap)
    ensures UpvalsListed(h')
  {
    var us := g.heap[th].openUpvals;
    assert OpenListed(g.heap, th);
    forall t | t in h' && h'[t].Thread?
      ensures OpenListed(h', t)
    {
      assert OpenListed(g.heap, t);
    }
    forall u | u in h' && h'[u].OpenUpval?
      ensures h'[u].thread in h' && h'[h'[u].thread].Thread? && u in h'[h'[u].thread].openUpvals
    {
      assert g.heap[u].OpenUpval?;
      assert OpenListed(g.heap, g.heap[u].thread);
    }
  }

  lemma SweepOpenStrings(g: State, th: Id)
    requires Registered(g) && th in g.heap && g.heap[th].Thread?
    requires forall u :: u in g.heap[th].openUpvals ==> u in g.heap && g.heap[u].OpenUpval?
    ensures StringsListed(SweepOpen(g, th).heap, g.strings)
  {
    SweepOpenHeap(g, th);
    var g' := SweepOpen(g, th);
    forall o | o in g'.heap && g'.heap[o].Str?
      ensures exists i :: InBucket(g.strings, o, i)
    {
      assert g.heap[o].Str?;
    }
  }

  lemma SweepOpenSwept(g: State, th: Id)
    requires Inv(g) && g.phase == Sweep && th in g.heap && g.heap[th].Thread?
    ensures var g' := SweepOpen(g, th);
            && Inv(g') && g'.phase == Sweep
            && forall u :: u in g'.heap[th].openUpvals ==> u in g'.color && g'.color[u] == White(g.white)
  {
    SweepOpenHeap(g, th);
    SweepOpenCore(g, th);
    SweepOpenRegistered(g, th);
    var g' := SweepOpen(g, th);
    var us := g.heap[th].openUpvals;
    assert forall u :: u in us ==> u in g.heap && g.heap[u].OpenUpval?;
    forall o, i | InBucket(g'.strings, o, i) && i < |g'.strings|
      ensures o in g'.color && g'.color[o] == White(g.white)
    {
      assert InBucket(g.strings, o, i) && g.heap[o].Str?;
    }
    forall i | 0 <= i < g'.sweepPos <= |g'.rootgc|
      ensures Swept(g'.heap, g'.color, g.white, g'.rootgc[i])
    {
      assert Swept(g.heap, g.color, g.white, g.rootgc[i]);
      assert g.rootgc[i] in g.rootgc;
      if g.heap[g.rootgc[i]].Thread? {
        assert OpenListed(g.heap, g.rootgc[i]);
      }
    }
  }
}
