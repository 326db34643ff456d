/** The program's actions keep the invariant. */
module MutatorSteps {
  import opened Heap
  import opened Marking
  import opened Collector
  import opened Sweeping
  import opened Invariant
  import opened Closing
  import opened Mutator

  lemma ReachableLive(g: State, o: Id)
    requires NoDangling(g) && Reachable(g, o)
    ensures o in Live(g)
  {
    assert Encloses(g, Live(g));
  }

  lemma AccessibleLive(g: State, v: Value)
    requires NoDangling(g) && Accessible(g, v)
    ensures v.Ref? ==> v.o in Live(g)
  {
    if v.Ref? {
      ReachableLive(g, v.o);
    }
  }

  // ---------- Changing what one object holds ----------

  /** The new body is of the same kind, and keeps what the lists depend on. */
  ghost predicate SameRole(h: Objects, a: Object, b: Object) {
    match a
    case Thread(_, _, us) =>
      b.Thread? && b.openUpvals == us && forall u :: u in us && u in h && h[u].OpenUpval? ==> h[u].slot < |b.stack|
    case Closure(_) => b.Closure?
    case Proto(_) => b.Proto?
    case Udata(_, _) => b.Udata?
    case ClosedUpval(_) => b.ClosedUpval?
    case Table(_, _, _, _, _) => b.Table?
    case Str => false
    case OpenUpval(_, _) => false
  }

  /** Two heaps in which every object has the same kind and open upvalues. */
  ghost predicate SameLayout(h: Objects, h': Objects) {
    h'.Keys == h.Keys && forall o :: o in h ==> SameKind(h[o], h'[o])
  }

  predicate SameKind(a: Object, b: Object) {
    match a
    case Thread(_, _, us) => b.Thread? && b.openUpvals == us
    case Closure(_) => b.Closure?
    case Proto(_) => b.Proto?
    case Udata(_, _) => b.Udata?
    case ClosedUpval(_) => b.ClosedUpval?
    case Table(_, _, _, _, _) => b.Table?
    case Str => b.Str?
    case OpenUpval(_, _) => b == a
  }

  lemma LayoutRegistered(g: State, h': Objects)
    requires Registered(g) && SameLayout(g.heap, h') && UpvalsListed(h')
    ensures Registered(g.(heap := h'))
  {
    hide UpvalsListed, StringsListed, RootsListed, HeadListed, FixedKinds, SameLayout;
    LayoutStrings(g, h');
    LayoutRoots(g, h');
  }

  lemma LayoutStrings(g: State, h': Objects)
    requires StringsListed(g.heap, g.strings) && SameLayout(g.heap, h')
    ensures StringsListed(h', g.strings)
  {
    assert forall o :: o in g.heap ==> SameKind(g.heap[o], h'[o]);
    forall o | o in h' && h'[o].Str?
      ensures exists i :: InBucket(g.strings, o, i)
    {
      assert g.heap[o].Str?;
    }
  }

  lemma LayoutRoots(g: State, h': Objects)
    requires SameLayout(g.heap, h') && RootsListed(g.heap, g.rootgc) && HeadListed(g.heap, g.uvhead)
    requires FixedKinds(g.heap, g.fixed, g.main, g.running)
    ensures RootsListed(h', g.rootgc) && HeadListed(h', g.uvhead) && FixedKinds(h', g.fixed, g.main, g.running)
    ensures h'.Keys == g.heap.Keys
  {
    assert forall o :: o in g.heap ==> SameKind(g.heap[o], h'[o]);
  }

  lemma RewriteLayout(h: Objects, o: Id, b: Object)
    requires UpvalsListed(h) && o in h && SameRole(h, h[o], b)
    ensures SameLayout(h, h[o := b]) && UpvalsListed(h[o := b])
  {
    var h' := h[o := b];
    forall t | t in h' && h'[t].Thread?
      ensures OpenListed(h', t)
    {
      assert OpenListed(h, t);
    }
  }

  /** No other object's references change, but for open upvalues of a rewritten thread. */
  lemma RewriteRefs(h: Objects, o: Id, b: Object, x: Id)
    requires o in h && x in h && x != o && SameRole(h, h[o], b)
    ensures AllRefs(h[o := b], x) <= AllRefs(h, x) + Targets(Values(h, b, STRONG))
    ensures !h[x].OpenUpval? ==> AllRefs(h[o := b], x) == AllRefs(h, x)
  {
    var h' := h[o := b];
    if h[x].OpenUpval? {
      var v := StackValue(h', h[x].thread, h[x].slot);
      assert h[x].thread != o ==> v == StackValue(h, h[x].thread, h[x].slot);
      assert h[x].thread == o && b.Thread? && h[x].slot < |b.stack| ==> v in Values(h, b, STRONG);
    } else {
      assert Values(h', h'[x], STRONG) == Values(h, h[x], STRONG);
    }
  }

  lemma RewriteWithin(h: Objects, o: Id, b: Object, live: set<Id>)
    requires RefsWithin(h, live) && o in h && SameRole(h, h[o], b) && Targets(Values(h, b, STRONG)) <= live
    ensures RefsWithin(h[o := b], live)
  {
    forall x | x in live && x in h[o := b]
      ensures AllRefs(h[o := b], x) <= live
    {
      if x != o {
        RewriteRefs(h, o, b, x);
      } else {
        assert Values(h[o := b], b, STRONG) == Values(h, b, STRONG);
      }
    }
  }

  lemma LayoutPhase(g: State, h': Objects)
    requires Registered(g) && PhaseInv(g) && SameLayout(g.heap, h')
    requires g.phase == Propagate ==> BlackClosed(h', g.color)
    ensures PhaseInv(g.(heap := h'))
  {
    match g.phase
    case Propagate => LayoutLists(g.heap, h', g.color, g.gray, g.grayAgain, g.weak);
    case SweepString => LayoutOpen(g.heap, h', g.color);
    case Sweep =>
      LayoutOpen(g.heap, h', g.color);
      LayoutSwept(g.heap, h', g.color, g.white, g.rootgc, g.sweepPos);
    case _ =>
  }

  lemma LayoutOpen(h: Objects, h': Objects, c: Colors)
    requires SameLayout(h, h') && OpenNotBlack(h, c)
    ensures OpenNotBlack(h', c)
  {
    forall o | o in h' && h'[o].OpenUpval? && o in c
      ensures c[o] != Black
    {
      assert SameKind(h[o], h'[o]);
    }
  }

  lemma LayoutSwept(h: Objects, h': Objects, c: Colors, white: bool, rootgc: seq<Id>, n: int)
    requires SameLayout(h, h') && RootsSwept(h, c, white, rootgc, n)
    ensures RootsSwept(h', c, white, rootgc, n)
  {
    forall i | 0 <= i < n <= |rootgc|
      ensures Swept(h', c, white, rootgc[i])
    {
      assert Swept(h, c, white, rootgc[i]);
      assert rootgc[i] in h ==> SameKind(h[rootgc[i]], h'[rootgc[i]]);
    }
  }

  lemma LayoutLists(h: Objects, h': Objects, c: Colors, gray: seq<Id>, again: seq<Id>, weak: seq<Id>)
    requires SameLayout(h, h') && c.Keys == h.Keys && GrayListed(h, c, gray, again, weak)
    requires ColorsFitIn(h, c) && GrayWaits(h, c, gray, again, weak)
    ensures GrayListed(h', c, gray, again, weak) && ColorsFitIn(h', c) && GrayWaits(h', c, gray, again, weak)
  {
    forall o | o in h
      ensures Traversable(h'[o]) == Traversable(h[o]) && h'[o].Table? == h[o].Table? && h'[o].Thread? == h[o].Thread?
      ensures !c[o].White? ==> ColorFits(h'[o], c[o])
    {
      assert SameKind(h[o], h'[o]);
      assert !c[o].White? ==> ColorFits(h[o], c[o]);
    }
  }

  lemma RewriteBlack(g: State, o: Id, b: Object)
    requires Registered(g) && MarkPhase(g) && o in g.heap && SameRole(g.heap, g.heap[o], b)
    requires g.color[o] == Black ==> forall r :: r in Targets(Values(g.heap, b, STRONG)) && r in g.heap ==>
             !IsWhite(g.color, r)
    ensures BlackClosed(g.heap[o := b], g.color)
  {
    var h' := g.heap[o := b];
    forall x | x in h' && x in g.color && g.color[x] == Black
      ensures RefsMarked(h', g.color, x)
    {
      assert RefsMarked(g.heap, g.color, x);
      if x != o {
        assert ColorFits(g.heap[x], g.color[x]);
        RewriteRefs(g.heap, o, b, x);
      } else {
        assert Values(h', b, STRONG) == Values(g.heap, b, STRONG);
      }
    }
  }

  /** A write that needs no barrier, or has had it. */
  lemma RewriteInv(g: State, o: Id, b: Object)
    requires Inv(g) && o in g.heap && SameRole(g.heap, g.heap[o], b)
    requires Targets(Values(g.heap, b, STRONG)) <= Live(g)
    requires g.phase == Propagate && g.color[o] == Black ==>
               forall r :: r in Targets(Values(g.heap, b, STRONG)) && r in g.heap ==> !IsWhite(g.color, r)
    ensures Inv(Rewrite(g, o, b))
  {
    RewriteLayout(g.heap, o, b);
    LayoutRegistered(g, g.heap[o := b]);
    RewriteWithin(g.heap, o, b, Live(g));
    assert Live(Rewrite(g, o, b)) == Live(g);
    if g.phase == Propagate {
      RewriteBlack(g, o, b);
    }
    LayoutPhase(g, g.heap[o := b]);
  }

  // ---------- Allocation ----------

  lemma Fresh(h: Objects, o: Id, b: Object, x: Id)
    requires o !in h && x in h
    requires h[x].OpenUpval? ==> h[x].thread in h
    ensures AllRefs(h[o := b], x) == AllRefs(h, x)
  {
    assert Values(h[o := b], h[x], STRONG) == Values(h, h[x], STRONG);
  }

  lemma FreshWithin(h: Objects, o: Id, b: Object, live: set<Id>)
    requires o !in h && RefsWithin(h, live) && UpvalsListed(h)
    requires Targets(Values(h[o := b], b, STRONG)) <= live + {o}
    ensures RefsWithin(h[o := b], live + {o})
  {
    forall x | x in live + {o} && x in h[o := b]
      ensures AllRefs(h[o := b], x) <= live + {o}
    {
      if x != o {
        Fresh(h, o, b, x);
      }
    }
  }

  lemma FreshLive(g: State, o: Id, b: Object)
    requires g.color.Keys == g.heap.Keys && o !in g.heap
    ensures LiveSet(g.heap[o := b], g.color[o := White(g.white)], g.fixed, g.white) == Live(g) + {o}
  {
  }

  lemma InsertLists(h: Objects, o: Id, b: Object, rootgc: seq<Id>, k: nat)
    requires RootsListed(h, rootgc) && o !in h && OnRoot(b) && k <= |rootgc|
    ensures RootsListed(h[o := b], rootgc[..k] + [o] + rootgc[k..])
  {
    var s := rootgc[..k] + [o] + rootgc[k..];
    assert o !in rootgc;
    forall x
      ensures x in s <==> x in h[o := b] && OnRoot(h[o := b][x])
    {
      assert x in rootgc <==> x in rootgc[..k] || x in rootgc[k..] by {
        assert rootgc == rootgc[..k] + rootgc[k..];
      }
    }
  }

  lemma FreshOthers(g: State, o: Id, b: Object)
    requires Registered(g) && o !in g.heap && !b.Str? && !b.OpenUpval? && (b.Thread? ==> b.openUpvals == [])
    ensures var h' := g.heap[o := b];
            && StringsListed(h', g.strings) && UpvalsListed(h') && HeadListed(h', g.uvhead)
            && FixedKinds(h', g.fixed, g.main, g.running)
  {
    var h' := g.heap[o := b];
    forall s | s in h' && h'[s].Str?
      ensures exists i :: InBucket(g.strings, s, i)
    {
      assert g.heap[s].Str?;
    }
    forall t | t in h' && h'[t].Thread?
      ensures OpenListed(h', t)
    {
      if t != o {
        assert OpenListed(g.heap, t);
      }
    }
  }

  lemma FreshMarks(g: State, o: Id, b: Object)
    requires Registered(g) && NoDangling(g) && MarkPhase(g) && o !in g.heap
    ensures var h', c := g.heap[o := b], g.color[o := White(g.white)];
            && GrayListed(h', c, g.gray, g.grayAgain, g.weak) && ColorsFitIn(h', c) && NoOtherWhite(c, g.white)
            && GrayWaits(h', c, g.gray, g.grayAgain, g.weak) && BlackClosed(h', c)
            && FirstRootsMarked(c, g.main, g.registry)
  {
    hide Registered, NoDangling, GrayListed, ColorsFitIn, NoOtherWhite, GrayWaits, BlackClosed, FirstRootsMarked;
    FreshGray(g, o, b);
    FreshBlack(g, o, b);
    FreshRoots(g, o);
  }

  lemma FreshGray(g: State, o: Id, b: Object)
    requires Listed(g) && ColorsFit(g) && NoOtherWhite(g.color, g.white) && o !in g.heap
    requires GrayWaits(g.heap, g.color, g.gray, g.grayAgain, g.weak)
    ensures var h', c := g.heap[o := b], g.color[o := White(g.white)];
            && GrayListed(h', c, g.gray, g.grayAgain, g.weak) && ColorsFitIn(h', c) && NoOtherWhite(c, g.white)
            && GrayWaits(h', c, g.gray, g.grayAgain, g.weak)
  {
    assert o !in g.gray && o !in g.grayAgain && o !in g.weak;
  }

  lemma FreshRoots(g: State, o: Id)
    requires NoDangling(g) && FirstRootsMarked(g.color, g.main, g.registry) && o !in g.heap
    ensures FirstRootsMarked(g.color[o := White(g.white)], g.main, g.registry)
  {
    hide RefsWithin;
    assert g.main in Roots(g);
    assert g.registry.Ref? ==> g.registry in [g.registry] + g.basicMetas && g.registry.o in Roots(g);
  }

  /** What the other phases ask of colours. */
  lemma FreshColors(g: State, o: Id, b: Object)
    requires Registered(g) && o !in g.heap && !b.OpenUpval?
    ensures var h', c := g.heap[o := b], g.color[o := White(g.white)];
            && (AllWhite(g.color, g.white) ==> AllWhite(c, g.white))
            && (OpenNotBlack(g.heap, g.color) ==> OpenNotBlack(h', c))
            && forall n :: StringsSwept(g.strings, g.color, g.white, n) ==> StringsSwept(g.strings, c, g.white, n)
  {
    StringsStaySwept(g, g.color[o := White(g.white)]);
  }

  lemma FreshBlack(g: State, o: Id, b: Object)
    requires Registered(g) && NoDangling(g) && BlackClosed(g.heap, g.color) && o !in g.heap
    ensures BlackClosed(g.heap[o := b], g.color[o := White(g.white)])
  {
    forall x | x in g.heap && g.color[x] == Black
      ensures RefsMarked(g.heap[o := b], g.color[o := White(g.white)], x)
    {
      Fresh(g.heap, o, b, x);
      assert x in Live(g) && AllRefs(g.heap, x) <= Live(g);
      assert RefsMarked(g.heap, g.color, x);
    }
  }

  lemma FreshPhase(g: State, o: Id, b: Object, rootgc: seq<Id>, sweepPos: nat)
    requires Registered(g) && NoDangling(g) && PhaseInv(g) && o !in g.heap && !b.OpenUpval?
    requires g.phase == Sweep ==>
               RootsSwept(g.heap[o := b], g.color[o := White(g.white)], g.white, rootgc, sweepPos)
    requires g.phase == SweepString ==> sweepPos == 0
    ensures PhaseInv(g.(heap := g.heap[o := b], color := g.color[o := White(g.white)], rootgc := rootgc,
                        sweepPos := sweepPos))
  {
    hide Registered, NoDangling, GrayListed, ColorsFitIn, NoOtherWhite, GrayWaits, BlackClosed, FirstRootsMarked,
         AllWhite, OpenNotBlack, StringsSwept, RootsSwept;
    FreshColors(g, o, b);
    if g.phase == Propagate {
      FreshMarks(g, o, b);
      FreshKeys(g, o, b);
    }
  }

  lemma FreshKeys(g: State, o: Id, b: Object)
    requires Registered(g)
    ensures g.color[o := White(g.white)].Keys == g.heap[o := b].Keys
  {
  }

  lemma InsertSwept(g: State, o: Id, b: Object, k: nat)
    requires Registered(g) && o !in g.heap && k <= |g.rootgc| && (b.Thread? ==> b.openUpvals == [])
    requires RootsSwept(g.heap, g.color, g.white, g.rootgc, g.sweepPos)
    ensures var r := Insert(g, o, b, k); RootsSwept(r.heap, r.color, g.white, r.rootgc, r.sweepPos)
  {
    var r := Insert(g, o, b, k);
    forall i | 0 <= i < r.sweepPos <= |r.rootgc|
      ensures Swept(r.heap, r.color, g.white, r.rootgc[i])
    {
      if i != k {
        var x := g.rootgc[if i < k then i else i - 1];
        assert r.rootgc[i] == x && x in g.rootgc;
        assert Swept(g.heap, g.color, g.white, x);
        if g.heap[x].Thread? {
          assert OpenListed(g.heap, x);
        }
      } else {
        assert r.rootgc[i] == o;
      }
    }
  }

  ghost predicate NewBody(b: Object) {
    OnRoot(b) && (b.Thread? ==> b.openUpvals == [])
  }

  lemma InsertInv(g: State, o: Id, b: Object, k: nat)
    requires Inv(g) && o !in g.heap && NewBody(b) && k <= |g.rootgc|
    requires Targets(Values(g.heap[o := b], b, STRONG)) <= Live(g) + {o}
    ensures Inv(Insert(g, o, b, k)) && Live(Insert(g, o, b, k)) == Live(g) + {o}
  {
    hide RootsListed, StringsListed, UpvalsListed, HeadListed, FixedKinds, RefsWithin, RootsSwept, LiveSet,
         StringsSwept, OpenNotBlack, AllWhite;
    hide MarkPhase, Values;
    FreshLive(g, o, b);
    FreshWithin(g.heap, o, b, Live(g));
    FreshOthers(g, o, b);
    InsertLists(g.heap, o, b, g.rootgc, k);
    var r := Insert(g, o, b, k);
    if g.phase == Sweep {
      InsertSwept(g, o, b, k);
    }
    FreshPhase(g, o, b, r.rootgc, r.sweepPos);
  }

  lemma PushInv(g: State, v: Value)
    requires Inv(g) && (v.Ref? ==> v.o in Live(g))
    ensures Inv(Push(g, v))
  {
    hide Inv, SameRole, Live;
    PushedBody(g, v);
    ThreadNotBlack(g, g.running);
    var t := g.heap[g.running];
    RewriteInv(g, g.running, t.(stack := t.stack + [v]));
  }

  lemma PushedBody(g: State, v: Value)
    requires Inv(g) && (v.Ref? ==> v.o in Live(g))
    ensures g.running in g.heap && g.heap[g.running].Thread?
    ensures var t := g.heap[g.running];
            var b := t.(stack := t.stack + [v]);
            SameRole(g.heap, t, b) && Targets(Values(g.heap, b, STRONG)) <= Live(g)
  {
    hide StringsListed, RootsListed, HeadListed, PhaseInv;
    var t := g.heap[g.running];
    var b := t.(stack := t.stack + [v]);
    assert OpenListed(g.heap, g.running);
    assert g.running in Roots(g) && g.running in Live(g);
    forall x | x in Targets(Values(g.heap, b, STRONG))
      ensures x in Live(g)
    {
      assert Values(g.heap, b, STRONG) == Values(g.heap, t, STRONG) + [v];
      assert x in AllRefs(g.heap, g.running) || v == Ref(x);
    }
  }

  lemma ThreadNotBlack(g: State, th: Id)
    requires Inv(g) && th in g.heap && g.heap[th].Thread?
    ensures g.phase == Propagate ==> g.color[th] != Black
  {
    hide StringsListed, UpvalsListed, HeadListed, RefsWithin, RootsListed, NoDangling, BlackClosed, GrayWaits,
         FixedKinds, FirstRootsMarked;
    if g.phase == Propagate {
      assert ColorsFit(g);
      assert g.color[th].White? || ColorFits(g.heap[th], g.color[th]);
    }
  }

  lemma NewObjectInv(g: State, o: Id, body: Object)
    requires Inv(g) && Allowed(g, ANewObject(o, body))
    ensures Inv(NewObject(g, o, body))
  {
    assert Values(g.heap[o := body], body, STRONG) == Values(g.heap, body, STRONG);
    forall x | x in Targets(Values(g.heap, body, STRONG))
      ensures x in Live(g)
    {
      AccessibleLive(g, Ref(x));
    }
    InsertInv(g, o, body, 0);
    PushInv(Insert(g, o, body, 0), Ref(o));
  }

  lemma MainListed(g: State)
    requires Inv(g)
    ensures g.main in g.rootgc
  {
    hide StringsListed, UpvalsListed, HeadListed, RefsWithin, PhaseInv, NoDangling;
    assert OnRoot(g.heap[g.main]);
  }

  lemma NewUdataInv(g: State, o: Id, env: Value)
    requires Inv(g) && Allowed(g, ANewUdata(o, env))
    ensures g.main in g.rootgc && Inv(NewUdata(g, o, env))
  {
    hide StringsListed, UpvalsListed, HeadListed, RefsWithin, PhaseInv, RootsListed, FixedKinds, Reachable, LiveSet,
         Insert, Push;
    MainListed(g);
    var b := Udata(Nil, env);
    var k := IndexOf(g.rootgc, g.main) + 1;
    AccessibleLive(g, env);
    assert forall x :: x in Targets(Values(g.heap[o := b], b, STRONG)) ==> env == Ref(x);
    InsertInv(g, o, b, k);
    PushInv(Insert(g, o, b, k), Ref(o));
  }

  // ---------- Strings ----------

  lemma AddStringListed(h: Objects, strings: seq<seq<Id>>, o: Id, bucket: nat)
    requires StringsListed(h, strings) && o !in h && bucket < |strings|
    ensures var s := strings[bucket := [o] + strings[bucket]];
            && StringsListed(h[o := Str], s)
            && forall x, i :: InBucket(s, x, i) <==> InBucket(strings, x, i) || (x == o && i == bucket)
  {
    var s := strings[bucket := [o] + strings[bucket]];
    forall x, i
      ensures InBucket(s, x, i) <==> InBucket(strings, x, i) || (x == o && i == bucket)
    {
    }
    var h' := h[o := Str];
    forall x | x in h' && h'[x].Str?
      ensures exists i :: InBucket(s, x, i)
    {
      if x == o {
        assert InBucket(s, o, bucket);
      } else {
        var i :| InBucket(strings, x, i);
        assert InBucket(s, x, i);
      }
    }
  }

  lemma AddStringInv(g: State, o: Id, bucket: nat)
    requires Inv(g) && o !in g.heap && bucket < |g.strings|
    ensures Inv(AddString(g, o, bucket)) && Live(AddString(g, o, bucket)) == Live(g) + {o}
  {
    hide UpvalsListed, StringsListed, RootsListed, HeadListed, FixedKinds, RefsWithin, PhaseInv, LiveSet;
    FreshLive(g, o, Str);
    FreshWithin(g.heap, o, Str, Live(g));
    AddStringListed(g.heap, g.strings, o, bucket);
    AddStringOthers(g, o);
    AddStringPhase(g, o, bucket);
  }

  lemma AddStringOthers(g: State, o: Id)
    requires Registered(g) && o !in g.heap
    ensures var h' := g.heap[o := Str];
            && RootsListed(h', g.rootgc) && UpvalsListed(h') && HeadListed(h', g.uvhead)
            && FixedKinds(h', g.fixed, g.main, g.running)
  {
    var h' := g.heap[o := Str];
    forall t | t in h' && h'[t].Thread?
      ensures OpenListed(h', t)
    {
      assert OpenListed(g.heap, t);
    }
  }

  lemma AddStringPhase(g: State, o: Id, bucket: nat)
    requires Registered(g) && NoDangling(g) && PhaseInv(g) && o !in g.heap && bucket < |g.strings|
    ensures PhaseInv(AddString(g, o, bucket))
  {
    hide Registered, NoDangling, GrayListed, ColorsFitIn, NoOtherWhite, GrayWaits, BlackClosed, FirstRootsMarked,
         AllWhite, OpenNotBlack, StringsSwept, RootsSwept;
    FreshColors(g, o, Str);
    match g.phase
    case Propagate =>
      FreshMarks(g, o, Str);
      FreshKeys(g, o, Str);
    case SweepString => AddStringSwept(g, o, bucket, g.sweepStr);
    case Sweep =>
      AddStringSwept(g, o, bucket, |g.strings|);
      FreshSwept(g, o, Str);
    case _ =>
  }

  lemma AddStringSwept(g: State, o: Id, bucket: nat, n: int)
    requires Registered(g) && o !in g.heap && bucket < |g.strings| && StringsSwept(g.strings, g.color, g.white, n)
    ensures var r := AddString(g, o, bucket); StringsSwept(r.strings, r.color, g.white, n)
  {
    AddStringListed(g.heap, g.strings, o, bucket);
  }

  lemma FreshSwept(g: State, o: Id, b: Object)
    requires Registered(g) && o !in g.heap && RootsSwept(g.heap, g.color, g.white, g.rootgc, g.sweepPos)
    ensures RootsSwept(g.heap[o := b], g.color[o := White(g.white)], g.white, g.rootgc, g.sweepPos)
  {
    forall i | 0 <= i < g.sweepPos <= |g.rootgc|
      ensures Swept(g.heap[o := b], g.color[o := White(g.white)], g.white, g.rootgc[i])
    {
      assert Swept(g.heap, g.color, g.white, g.rootgc[i]) && g.rootgc[i] in g.rootgc;
    }
  }

  lemma NewStringInv(g: State, o: Id, bucket: nat)
    requires Inv(g) && Allowed(g, ANewString(o, bucket))
    ensures Inv(NewString(g, o, bucket))
  {
    AddStringInv(g, o, bucket);
    PushInv(AddString(g, o, bucket), Ref(o));
  }

  /** Making a dead object white again is safe when it refers to live ones only. */
  lemma ResurrectInv(g: State, o: Id)
    requires Inv(g) && o in g.heap && AllRefs(g.heap, o) <= Live(g)
    ensures Inv(Resurrect(g, o)) && Live(Resurrect(g, o)) == Live(g) + {o}
  {
    hide StringsListed, UpvalsListed, HeadListed, RootsListed, FixedKinds, RefsWithin, PhaseInv;
    if HasOtherWhite(g, o) {
      var c := g.color[o := White(g.white)];
      assert LiveSet(g.heap, c, g.fixed, g.white) == Live(g) + {o};
      ResurrectCore(g, o, c);
      ResurrectPhase(g, o, c);
    } else {
      assert o in Live(g);
    }
  }

  lemma ResurrectCore(g: State, o: Id, c: Colors)
    requires Registered(g) && NoDangling(g) && o in g.heap && AllRefs(g.heap, o) <= Live(g)
    requires c.Keys == g.color.Keys && LiveSet(g.heap, c, g.fixed, g.white) == Live(g) + {o}
    ensures Registered(g.(color := c)) && NoDangling(g.(color := c))
  {
  }

  lemma ResurrectPhase(g: State, o: Id, c: Colors)
    requires Registered(g) && PhaseInv(g) && HasOtherWhite(g, o) && c == g.color[o := White(g.white)]
    ensures PhaseInv(g.(color := c))
  {
    match g.phase
    case SweepString =>
    case Sweep =>
      forall i | 0 <= i < g.sweepPos <= |g.rootgc|
        ensures Swept(g.heap, c, g.white, g.rootgc[i])
      {
        assert Swept(g.heap, g.color, g.white, g.rootgc[i]);
      }
    case _ =>
  }

  lemma FindStringInv(g: State, o: Id)
    requires Inv(g) && Allowed(g, AFindString(o))
    ensures Inv(FindString(g, o))
  {
    ResurrectInv(g, o);
    PushInv(Resurrect(g, o), Ref(o));
  }
}
