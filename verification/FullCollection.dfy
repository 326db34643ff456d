/** A full collection (lgc.cpp, luaC_fullgc) keeps exactly what is strongly reachable, the fixed
    objects, and the strings that weak tables hold. */
module FullCollection {
  import opened Common
  import opened Heap
  import opened Marking
  import opened Collector
  import opened Propagation
  import opened AtomicPhase
  import opened Invariant
  import opened MarkSteps
  import opened Cycle
  import opened Safety

  // ---------- Strong reachability ----------

  ghost predicate StrongClosed(h: Objects, s: set<Id>) {
    forall o :: o in s && o in h ==> StrongRefs(h, o) <= s
  }

  ghost predicate StronglyEncloses(g: State, s: set<Id>) {
    Roots(g) <= s && StrongClosed(g.heap, s)
  }

  ghost predicate StronglyReachable(g: State, o: Id) {
    forall s: set<Id> :: StronglyEncloses(g, s) ==> o in s
  }

  /** A value that may stay in a weak table: no object, a string, or an object that is held elsewhere. */
  ghost predicate MayStay(g: State, v: Value) {
    v.Ref? && v.o in g.heap && !g.heap[v.o].Str? ==> StronglyReachable(g, v.o)
  }

  /** Clearing the weak table `t` meets the string `o` and marks it: in a weak array, as the key
      of an entry, or as the value of an entry whose key may stay. */
  ghost predicate HoldsString(g: State, t: Id, o: Id)
    requires t in g.heap
  {
    && g.heap[t].Table? && IsWeak(TableMode(g.heap, g.heap[t]))
    && (|| (TableMode(g.heap, g.heap[t]).values && Ref(o) in g.heap[t].arr)
        || (exists n :: n in g.heap[t].nodes && n.val != Nil && n.key == Ref(o))
        || (exists n :: n in g.heap[t].nodes && n.val == Ref(o) && MayStay(g, n.key)))
  }

  ghost predicate KeptString(g: State, o: Id) {
    o in g.heap && g.heap[o].Str? && exists t :: t in g.heap && StronglyReachable(g, t) && HoldsString(g, t, o)
  }

  ghost predicate Survives(g: State, o: Id) {
    o in g.heap && (StronglyReachable(g, o) || o in g.fixed || KeptString(g, o))
  }

  // ---------- Marking stays within every enclosing set ----------

  ghost predicate MarkedWithin(g: State, s: set<Id>) {
    forall o :: o in g.color && !IsWhite(g.color, o) ==> o in s
  }

  lemma StrongClosedMarking(h: Objects, s: set<Id>)
    requires StrongClosed(h, s)
    ensures ClosedForMarking(h, s)
  {
    forall o | o in s && o in h && !Traversable(h[o])
      ensures AllRefs(h, o) <= s
    {
      assert StrongRefs(h, o) == AllRefs(h, o);
    }
  }

  lemma SameRefsClosed(h: Objects, h': Objects, s: set<Id>)
    requires SameRefs(h, h') && StrongClosed(h, s)
    ensures StrongClosed(h', s)
  {
    forall o | o in s && o in h'
      ensures StrongRefs(h', o) <= s
    {
      SameValues(h, h', o, TableMode(h, h[o]));
    }
  }

  lemma MarkInWithin(g: State, vs: seq<Value>, s: set<Id>)
    requires StrongClosed(g.heap, s) && MarkedWithin(g, s) && Targets(vs) <= s
    ensures MarkedWithin(MarkIn(g, vs), s)
  {
    StrongClosedMarking(g.heap, s);
    MarkAllWithin(g.heap, Marks(g.color, g.gray), vs, s);
  }

  lemma PropagateWithin(g: State, s: set<Id>)
    requires g.gray != [] && g.gray[0] in g.heap && g.gray[0] in g.color && !IsWhite(g.color, g.gray[0])
    requires StrongClosed(g.heap, s) && MarkedWithin(g, s)
    ensures MarkedWithin(PropagateMark(g), s)
  {
    var o := g.gray[0];
    var g1 := g.(gray := g.gray[1..], color := g.color[o := Black]);
    assert StrongRefs(g.heap, o) <= s;
    match g.heap[o]
    case Table(_, _, _, _, _) =>
      MarkInWithin(g1, Values(g.heap, g.heap[o], TableMode(g.heap, g.heap[o])), s);
    case Thread(_, _, _) =>
      MarkInWithin(g1.(grayAgain := [o] + g1.grayAgain, color := g1.color[o := Gray]),
                   Values(g.heap, g.heap[o], STRONG), s);
    case _ =>
      MarkInWithin(g1, Values(g.heap, g.heap[o], STRONG), s);
  }

  lemma {:induction false} PropagateAllWithin(g: State, pending: set<Id>, s: set<Id>)
    requires MarkInv(g, pending) && StrongClosed(g.heap, s) && MarkedWithin(g, s)
    ensures MarkedWithin(PropagateAll(g), s)
    decreases Whites(g.color), |g.gray|
  {
    if g.gray != [] {
      assert g.gray[0] in g.gray;
      PropagateMarkProgress(g);
      PropagateMarkKeeps(g, pending);
      PropagateWithin(g, s);
      SameRefsClosed(g.heap, PropagateMark(g).heap, s);
      PropagateAllWithin(PropagateMark(g), pending, s);
    }
  }

  lemma {:induction false} RemarkWithin(g: State, us: seq<Id>, s: set<Id>)
    requires g.color.Keys == g.heap.Keys && StrongClosed(g.heap, s) && MarkedWithin(g, s)
    ensures MarkedWithin(RemarkUpvals(g, us), s)
    decreases |us|
  {
    if us != [] {
      var u := us[0];
      var g1 := RemarkOne(g, u);
      if u in g.heap && g.heap[u].OpenUpval? && g.color[u] == Gray {
        assert StrongRefs(g.heap, u) == Targets([StackValue(g.heap, g.heap[u].thread, g.heap[u].slot)]);
        MarkInWithin(g, [StackValue(g.heap, g.heap[u].thread, g.heap[u].slot)], s);
        assert g1.color.Keys == g.heap.Keys;
      }
      RemarkWithin(g1, us[1..], s);
    }
  }

  lemma AtomicMarkWithin(g: State, s: set<Id>)
    requires ReadyForAtomic(g) && StronglyEncloses(g, s) && MarkedWithin(g, s)
    ensures MarkedWithin(AtomicMark(g), s)
  {
    RemarkUpvalsKeeps(g, g.uvhead, Waiting(g));
    var g1 := RemarkUpvals(g, g.uvhead);
    RemarkWithin(g, g.uvhead, s);
    SameRefsClosed(g.heap, g1.heap, s);
    PropagateAllWithin(g1, Waiting(g), s);
    SameRefsClosed(g.heap, AfterRemark(g).heap, s);
    WeakWithin(g, s);
    AgainWithin(g, s);
  }

  lemma WeakWithin(g: State, s: set<Id>)
    requires ReadyForAtomic(g) && Roots(g) <= s
    requires StrongClosed(AfterRemark(g).heap, s) && MarkedWithin(AfterRemark(g), s)
    ensures StrongClosed(AfterWeak(g).heap, s) && MarkedWithin(AfterWeak(g), s)
  {
    var g2 := AfterRemark(g);
    var g3 := g2.(gray := g2.weak, weak := []);
    forall v | v in LateRoots(g) && v.Ref?
      ensures v.o in s
    {
      assert v == Ref(g.running) || v in [g.registry] + g.basicMetas;
      assert v.o in Roots(g);
    }
    MarkInWithin(g3, LateRoots(g), s);
    WeakRemarkedKeeps(g);
    AfterWeakKeeps(g);
    SameRefsClosed(g2.heap, WeakRemarked(g).heap, s);
    PropagateAllWithin(WeakRemarked(g), SetOf(g2.grayAgain), s);
    SameRefsClosed(WeakRemarked(g).heap, AfterWeak(g).heap, s);
  }

  lemma AgainWithin(g: State, s: set<Id>)
    requires ReadyForAtomic(g) && StrongClosed(AfterWeak(g).heap, s) && MarkedWithin(AfterWeak(g), s)
    ensures MarkedWithin(AtomicMark(g), s)
  {
    var g4 := AfterWeak(g);
    AfterWeakKeeps(g);
    RequeueAgain(g4, SetOf(AfterRemark(g).grayAgain));
    PropagateAllWithin(g4.(gray := g4.grayAgain, grayAgain := []), {}, s);
  }

  // ---------- The marked objects are the strongly reachable ones ----------

  ghost function Marked(g: State): set<Id> {
    set o | o in g.heap && !IsWhite(g.color, o)
  }

  /** What the collector has done since it started marking in state `s`: nothing the program could
      see, and only what `s` strongly reaches has been marked. */
  ghost predicate MarkingSince(s: State, g: State) {
    && SameRefs(s.heap, g.heap) && Roots(g) == Roots(s) && g.fixed == s.fixed && g.white == s.white
    && forall x: set<Id> :: StronglyEncloses(s, x) ==> MarkedWithin(g, x)
  }

  lemma MarkRootSince(s: State)
    requires Inv(s) && AllWhite(s.color, s.white)
    ensures MarkingSince(s, MarkRoot(s))
  {
    hide StringsListed, UpvalsListed, HeadListed, RootsListed, FixedKinds, RefsWithin, StrongRefs, RootValues;
    forall x: set<Id> | StronglyEncloses(s, x)
      ensures MarkedWithin(MarkRoot(s), x)
    {
      var g0 := Unlisted(s);
      assert StrongClosed(g0.heap, x) && MarkedWithin(g0, x);
      RootValuesWithin(s, x);
      MarkInWithin(g0, RootValues(s), x);
    }
  }

  lemma RootValuesWithin(s: State, x: set<Id>)
    requires Inv(s) && StronglyEncloses(s, x)
    ensures Targets(RootValues(s)) <= x
  {
    hide Registered, NoDangling, PhaseInv, StrongClosed;
    MainIsThread(s);
    assert s.main in Roots(s);
    GlobalsWithin(s, x);
    forall v | v in RootValues(s) && v.Ref?
      ensures v.o in x
    {
      if v in [s.registry] + s.basicMetas {
        assert v.o in Roots(s);
      }
    }
  }

  lemma MainIsThread(s: State)
    requires Inv(s)
    ensures s.main in s.heap && s.heap[s.main].Thread?
  {
  }

  lemma GlobalsWithin(s: State, x: set<Id>)
    requires StrongClosed(s.heap, x) && s.main in x && s.main in s.heap && s.heap[s.main].Thread?
    ensures var v := s.heap[s.main].globals; v.Ref? ==> v.o in x
  {
    var main := s.heap[s.main];
    assert Values(s.heap, main, STRONG) == [main.globals] + main.stack;
    assert main.globals in Values(s.heap, main, STRONG);
    assert main.globals.Ref? ==> main.globals.o in StrongRefs(s.heap, s.main);
  }

  lemma PropagateSince(s: State, g: State)
    requires Inv(g) && g.phase == Propagate && g.gray != [] && MarkingSince(s, g)
    ensures g.gray[0] in g.heap && MarkingSince(s, PropagateMark(g))
  {
    GrayHead(g);
    MarkPhaseReady(g);
    PropagateMarkKeeps(g, Waiting(g) + SetOf(g.uvhead));
    PropagateColors(g);
    var r := PropagateMark(g);
    SameRefsTransitive(s.heap, g.heap, r.heap);
    forall x: set<Id> | StronglyEncloses(s, x)
      ensures MarkedWithin(r, x)
    {
      SameRefsClosed(s.heap, g.heap, x);
      PropagateWithin(g, x);
    }
  }

  /** When the atomic phase has marked everything, the marks are exactly strong reachability. */
  lemma MarkedExactly(s: State, g: State)
    requires Inv(g) && g.phase == Propagate && ReadyForAtomic(g) && MarkingSince(s, g)
    ensures var m := AtomicMark(g);
            && SameRefs(s.heap, m.heap) && m.color.Keys == m.heap.Keys
            && forall o :: o in m.heap ==> (StronglyReachable(s, o) <==> !IsWhite(m.color, o))
  {
    var m := AtomicMark(g);
    AtomicMarkAdvances(g);
    MarkedInv(g);
    RootsMarked(g, m);
    SameRefsTransitive(s.heap, g.heap, m.heap);
    MarkedEnclose(s, m);
    forall o | o in m.heap && !IsWhite(m.color, o)
      ensures StronglyReachable(s, o)
    {
      forall x: set<Id> | StronglyEncloses(s, x)
        ensures o in x
      {
        SameRefsClosed(s.heap, g.heap, x);
        AtomicMarkWithin(g, x);
      }
    }
  }

  lemma MarkedEnclose(s: State, m: State)
    requires MarkInv(m, {}) && m.gray == [] && SameRefs(s.heap, m.heap)
    requires forall o :: o in Roots(s) ==> o in m.heap && !IsWhite(m.color, o)
    requires forall o :: o in m.heap ==> AllRefs(m.heap, o) <= m.heap.Keys
    ensures StronglyEncloses(s, Marked(m))
    ensures forall o :: StronglyReachable(s, o) ==> o in Marked(m)
  {
    SettledTables(m);
    forall o | o in Marked(m)
      ensures StrongRefs(s.heap, o) <= Marked(m)
    {
      SameValues(s.heap, m.heap, o, TableMode(s.heap, s.heap[o]));
      ModeSubset(m.heap, m.heap[o], TableMode(m.heap, m.heap[o]));
      if o in m.weak {
        assert OnlyWeakWhite(m, o);
      } else {
        assert RefsMarked(m.heap, m.color, o);
      }
    }
  }

  // ---------- The strings that clearing marks ----------

  lemma ClearTableStays(g: State, t: Id, tbl: Object)
    requires t in g.heap && g.heap[t].Table? && g.color.Keys == g.heap.Keys && tbl.Table?
    ensures KeptStrings(ClearTable(g, t), tbl) == KeptStrings(g, tbl)
  {
    hide ClearTable, KeptStrings, Stays, IsString;
    var g' := ClearTable(g, t);
    SameStays(g, t);
    forall o
      ensures o in KeptStrings(g', tbl) <==> o in KeptStrings(g, tbl)
    {
      InKept(g', tbl, o);
      InKept(g, tbl, o);
    }
  }

  lemma SameStays(g: State, t: Id)
    requires t in g.heap && g.heap[t].Table? && g.color.Keys == g.heap.Keys
    ensures var g' := ClearTable(g, t);
            && (forall v: Value :: IsString(g'.heap, v) == IsString(g.heap, v) && Stays(g', v) == Stays(g, v))
            && g'.heap.Keys == g.heap.Keys && forall o :: o in g.heap ==> g'.heap[o].Str? == g.heap[o].Str?
  {
    hide ClearArray, ClearNodes, KeptStrings;
  }

  lemma ClearOneExact(g: State, t: Id)
    requires t in g.heap && g.heap[t].Table? && g.color.Keys == g.heap.Keys
    ensures var r := ClearTable(g, t);
            && r.heap.Keys == g.heap.Keys && r.color.Keys == g.color.Keys
            && (forall x :: x in g.heap && x != t ==> r.heap[x] == g.heap[x])
            && forall o :: o in g.heap ==>
                 (!IsWhite(r.color, o) <==> !IsWhite(g.color, o) || o in KeptStrings(g, g.heap[t]))
  {
    hide ClearArray, ClearNodes, KeptStrings;
  }

  lemma {:induction false} ClearTablesExact(g: State, ts: seq<Id>)
    requires g.color.Keys == g.heap.Keys && NoRepeats(ts)
    requires forall t :: t in ts ==> t in g.heap && g.heap[t].Table?
    ensures var r := ClearTables(g, ts);
            forall o :: o in g.heap ==>
              (!IsWhite(r.color, o) <==> !IsWhite(g.color, o) || exists t :: t in ts && o in KeptStrings(g, g.heap[t]))
    decreases |ts|
  {
    hide ClearTable, KeptStrings;
    if ts != [] {
      var t := ts[0];
      var g1 := ClearTable(g, t);
      ClearOneExact(g, t);
      ClearTablesExact(g1, ts[1..]);
      var r := ClearTables(g, ts);
      forall x | x in ts[1..]
        ensures KeptStrings(g1, g1.heap[x]) == KeptStrings(g, g.heap[x])
      {
        ClearTableStays(g, t, g.heap[x]);
      }
      forall o | o in g.heap
        ensures !IsWhite(r.color, o) <==> !IsWhite(g.color, o) || exists x :: x in ts && o in KeptStrings(g, g.heap[x])
      {
        if exists x :: x in ts && o in KeptStrings(g, g.heap[x]) {
          var x :| x in ts && o in KeptStrings(g, g.heap[x]);
          assert x == t || x in ts[1..];
        }
        if exists x :: x in ts[1..] && o in KeptStrings(g1, g1.heap[x]) {
          var x :| x in ts[1..] && o in KeptStrings(g1, g1.heap[x]);
          assert x in ts;
        }
      }
    }
  }

  lemma InKept(g: State, t: Object, o: Id)
    requires t.Table?
    ensures o in KeptStrings(g, t) <==>
            && o in g.heap && g.heap[o].Str?
            && (|| (t.weakBits.values && Ref(o) in t.arr)
                || (exists n :: n in t.nodes && n.val != Nil && n.key == Ref(o))
                || (exists n :: n in t.nodes && n.val == Ref(o) && Stays(g, n.key)))
  {
    if o in KeptStrings(g, t) {
      if !(t.weakBits.values && Ref(o) in t.arr) && !(exists n :: n in t.nodes && n.val != Nil && n.key == Ref(o)) {
        var n :| n in t.nodes && n.val != Nil && Stays(g, n.key) && IsString(g.heap, n.val) && n.val.o == o;
        assert n.val == Ref(o);
      }
    }
  }

  /** What clearing keeps in the table `t`, seen from the state in which marking started. */
  lemma HoldsKept(s: State, m: State, t: Id, o: Id)
    requires SameRefs(s.heap, m.heap) && m.color.Keys == m.heap.Keys
    requires forall x :: x in m.heap ==> (StronglyReachable(s, x) <==> !IsWhite(m.color, x))
    requires t in m.heap && m.heap[t].Table? && m.heap[t].weakBits == TableMode(m.heap, m.heap[t]) &&
             IsWeak(m.heap[t].weakBits)
    ensures o in KeptStrings(m, m.heap[t]) <==> o in s.heap && s.heap[o].Str? && HoldsString(s, t, o)
  {
    hide StronglyReachable, KeptStrings, TableMode, IsWeak, Values, Stays, MayStay;
    SameValues(s.heap, m.heap, t, STRONG);
    assert SameObject(s.heap[t], m.heap[t]);
    SameRefsKinds(s.heap, m.heap);
    NonemptyNodes(s.heap[t].nodes, m.heap[t].nodes);
    InKept(m, m.heap[t], o);
    forall n | n in m.heap[t].nodes
      ensures Stays(m, n.key) == MayStay(s, n.key)
    {
      StaysSame(s, m, n.key);
    }
  }

  lemma StaysSame(s: State, m: State, v: Value)
    requires SameKinds(s.heap, m.heap) && m.color.Keys == m.heap.Keys
    requires forall x :: x in m.heap ==> (StronglyReachable(s, x) <==> !IsWhite(m.color, x))
    ensures Stays(m, v) == MayStay(s, v)
  {
  }

  /** Pruning touches empty entries only. */
  lemma NonemptyNodes(a: seq<Node>, b: seq<Node>)
    requires b == a || b == Prune(a)
    ensures forall n: Node :: n.val != Nil ==> (n in a <==> n in b)
  {
    forall n: Node | n.val != Nil
      ensures n in a <==> n in b
    {
      if n in a {
        var i :| 0 <= i < |a| && a[i] == n;
        assert b[i] == n;
      }
      if n in b {
        var i :| 0 <= i < |b| && b[i] == n;
        assert a[i] == n;
      }
    }
  }

  lemma KeptExactly(s: State, m: State, o: Id)
    requires MarkInv(m, {}) && m.gray == [] && SameRefs(s.heap, m.heap)
    requires forall x :: x in m.heap ==> (StronglyReachable(s, x) <==> !IsWhite(m.color, x))
    requires o in m.heap
    ensures !IsWhite(ClearTables(m, m.weak).color, o) <==> StronglyReachable(s, o) || KeptString(s, o)
  {
    ClearTablesExact(m, m.weak);
    if KeptString(s, o) {
      HeldIsMarked(s, m, o);
    }
    if exists t :: t in m.weak && o in KeptStrings(m, m.heap[t]) {
      var t :| t in m.weak && o in KeptStrings(m, m.heap[t]);
      KeptIsHeld(s, m, t, o);
    }
  }

  lemma KeptIsHeld(s: State, m: State, t: Id, o: Id)
    requires MarkInv(m, {}) && m.gray == [] && SameRefs(s.heap, m.heap)
    requires forall x :: x in m.heap ==> (StronglyReachable(s, x) <==> !IsWhite(m.color, x))
    requires t in m.weak && o in KeptStrings(m, m.heap[t])
    ensures KeptString(s, o)
  {
    assert Settled(m, t);
    HoldsKept(s, m, t, o);
    assert t in s.heap && StronglyReachable(s, t);
  }

  lemma HeldIsMarked(s: State, m: State, o: Id)
    requires MarkInv(m, {}) && m.gray == [] && SameRefs(s.heap, m.heap)
    requires forall x :: x in m.heap ==> (StronglyReachable(s, x) <==> !IsWhite(m.color, x))
    requires o in m.heap && KeptString(s, o)
    ensures !IsWhite(m.color, o) || exists t :: t in m.weak && o in KeptStrings(m, m.heap[t])
  {
    hide StronglyReachable, HoldsString, MarkInv, KeptStrings, AllRefs;
    var t :| t in s.heap && StronglyReachable(s, t) && HoldsString(s, t, o);
    HoldsTable(s, t, o);
    assert SameObject(s.heap[t], m.heap[t]);
    SettledTable(m, t);
    if t in m.weak {
      HoldsKept(s, m, t, o);
    } else {
      HeldIsRef(s, m, t, o);
    }
  }

  lemma HoldsTable(s: State, t: Id, o: Id)
    requires t in s.heap && HoldsString(s, t, o)
    ensures s.heap[t].Table?
  {
  }

  lemma SettledTable(m: State, t: Id)
    requires MarkInv(m, {}) && m.gray == [] && t in m.heap && m.heap[t].Table? && !IsWhite(m.color, t)
    ensures m.color.Keys == m.heap.Keys
    ensures if t in m.weak then m.heap[t].weakBits == TableMode(m.heap, m.heap[t]) && IsWeak(m.heap[t].weakBits)
            else RefsMarked(m.heap, m.color, t)
  {
    hide AllRefs, TableMode, IsWeak, StrongRefs;
    assert Settled(m, t);
  }

  lemma HeldIsRef(s: State, m: State, t: Id, o: Id)
    requires SameRefs(s.heap, m.heap) && t in s.heap && HoldsString(s, t, o) && RefsMarked(m.heap, m.color, t)
    requires o in m.heap
    ensures !IsWhite(m.color, o)
  {
    hide ArrayValues, HashValues;
    SameValues(s.heap, m.heap, t, STRONG);
    var tbl := s.heap[t];
    InArrayValues(tbl.arr, |tbl.arr|, Ref(o));
    InHashValues(tbl.nodes, |tbl.nodes|, STRONG, Ref(o));
    if exists n :: n in tbl.nodes && n.val != Nil && (n.key == Ref(o) || n.val == Ref(o)) {
      var n :| n in tbl.nodes && n.val != Nil && (n.key == Ref(o) || n.val == Ref(o));
      var i :| 0 <= i < |tbl.nodes| && tbl.nodes[i] == n;
      assert Ref(o) in NodeValues(tbl.nodes[i], STRONG);
    }
    assert Ref(o) in Values(s.heap, tbl, STRONG);
    assert o in AllRefs(m.heap, t);
  }

  // ---------- The theorem ----------

  lemma AtomicExactly(s: State, g: State)
    requires Inv(s) && Inv(g) && g.phase == Propagate && g.gray == [] && MarkingSince(s, g)
    ensures ReadyForAtomic(g)
    ensures forall o :: o in Live(Atomic(g)) <==> Survives(s, o)
  {
    AtomicInv(g);
    MarkedExactly(s, g);
    var m := AtomicMark(g);
    AtomicMarkKeeps(g);
    AtomicMarkColors(g);
    ClearTablesFrame(m, m.weak);
    forall o | o in m.heap
      ensures o in Live(Flip(ClearTables(m, m.weak))) <==> Survives(s, o)
    {
      KeptExactly(s, m, o);
      LiveAfterFlip(m, ClearTables(m, m.weak), o);
    }
  }

  lemma LiveAfterFlip(m: State, c: State, o: Id)
    requires NoOtherWhite(m.color, m.white) && m.color.Keys == m.heap.Keys && c.color.Keys == c.heap.Keys == m.heap.Keys
    requires c == m.(heap := c.heap, color := c.color) && o in m.heap
    requires forall x :: IsWhite(c.color, x) ==> c.color[x] == m.color[x]
    ensures o in Live(Flip(c)) <==> !IsWhite(c.color, o) || o in m.fixed
  {
  }

  /** From the end of marking to the pause the program can see no change. */
  lemma {:induction false} SweepToEnd(g: State)
    requires Inv(g) && g.phase != Propagate
    ensures Invisible(g, RunTo(g, Pause))
    decreases Rank(g.phase), WhitesLeft(g), PhaseLeft(g)
  {
    hide Inv;
    hide SingleStep;
    if g.phase != Pause {
      SingleStepProgress(g);
      SweepStepsInvisible(g);
      SweepToEnd(SingleStep(g));
      InvisibleTransitive(g, SingleStep(g), RunTo(g, Pause));
    } else {
      InvisibleSame(g, g);
    }
  }

  lemma {:induction false} MarkToEnd(s: State, g: State)
    requires Inv(s) && Inv(g) && g.phase == Propagate && MarkingSince(s, g)
    ensures forall o :: o in Live(RunTo(g, Pause)) <==> Survives(s, o)
    decreases Whites(g.color), |g.gray|
  {
    hide Inv;
    if g.gray != [] {
      GrayHead(g);
      PropagateSince(s, g);
      PropagateMarkProgress(g);
      PropagateMarkInv(g);
      MarkToEnd(s, PropagateMark(g));
    } else {
      AtomicExactly(s, g);
      AtomicInv(g);
      SweepToEnd(Atomic(g));
    }
  }

  /** Completeness: from any collector state, a full collection ends in the pause, and what is
      then in the heap is exactly what survives by reachability from where it started marking. */
  lemma FullCollectionExact(g: State)
    requires Inv(g)
    ensures FullGC(g).phase == Pause
    ensures forall o :: o in FullGC(g).heap <==> Survives(FullStart(g), o)
  {
    hide Inv, Survives, MarkRoot, RunTo, FullStart, AllWhite;
    var s := FullStart(g);
    FinalizeWhite(s);
    FullMarks(s);
    MarkRootSince(s);
    MarkToEnd(s, MarkRoot(s));
    PauseLive(FullGC(g));
  }

  lemma FinalizeWhite(s: State)
    requires Inv(s) && s.phase == Finalize
    ensures AllWhite(s.color, s.white) && MarkRoot(s).phase == Propagate
  {
  }

  lemma PauseLive(r: State)
    requires Inv(r) && r.phase == Pause
    ensures Live(r) == r.heap.Keys
  {
    NoneDead(r);
  }

  // ---------- Seen from before the collection ----------

  lemma {:induction false} RunToFinalizeInvisible(g: State)
    requires Inv(g) && Rank(g.phase) >= 1 && g.phase != Propagate
    ensures Invisible(g, RunTo(g, Finalize))
    decreases Rank(g.phase), WhitesLeft(g), PhaseLeft(g)
  {
    hide Inv;
    hide SingleStep;
    if g.phase == Finalize {
      InvisibleSame(g, g);
    } else {
      SingleStepProgress(g);
      SweepStepsInvisible(g);
      RunToFinalizeInvisible(SingleStep(g));
      InvisibleTransitive(g, SingleStep(g), RunTo(g, Finalize));
    }
  }

  lemma FullStartInvisible(g: State)
    requires Inv(g)
    ensures Invisible(g, FullStart(g))
  {
    hide Inv;
    var r := ResetSweep(g);
    InvisibleSame(g, r);
    RunToFinalizeInvisible(r);
    InvisibleTransitive(g, r, FullStart(g));
  }

  /** A full collection frees nothing that is strongly reachable when it is called, whatever the
      collector was doing. */
  lemma FullCollectionSafe(g: State, o: Id)
    requires Inv(g) && StronglyReachable(g, o)
    ensures o in FullGC(g).heap
  {
    assert NoDangling(g);
    hide Inv;
    FullStartInvisible(g);
    StillStrong(g, FullStart(g), o);
    FullCollectionExact(g);
  }

  lemma StillStrong(g: State, s: State, o: Id)
    requires NoDangling(g) && Invisible(g, s) && StronglyReachable(g, o)
    ensures StronglyReachable(s, o) && o in s.heap
  {
    forall x: set<Id> | StronglyEncloses(s, x)
      ensures o in x
    {
      EnclosesBefore(g, s, x);
    }
    LiveStrong(g);
    assert o in Live(g);
  }

  lemma LiveStrong(g: State)
    requires NoDangling(g)
    ensures StronglyEncloses(g, Live(g))
  {
    forall y | y in Live(g) && y in g.heap
      ensures StrongRefs(g.heap, y) <= Live(g)
    {
      ModeSubset(g.heap, g.heap[y], TableMode(g.heap, g.heap[y]));
    }
  }

  lemma EnclosesBefore(g: State, s: State, x: set<Id>)
    requires NoDangling(g) && Invisible(g, s) && StronglyEncloses(s, x)
    ensures StronglyEncloses(g, x * Live(g))
  {
    LiveStrong(g);
    forall y | y in x * Live(g) && y in g.heap
      ensures StrongRefs(g.heap, y) <= x * Live(g)
    {
      InvisibleValues(g, s, y, STRONG);
      assert StrongRefs(s.heap, y) <= x;
    }
  }
}
