/** The collector as it runs (lgc.cpp): one object whose fields its methods update in place, each
    method computing the state that the specification functions describe. */
module CollectorMachine {
  import opened Heap
  import opened Marking
  import opened Collector
  import opened Propagation
  import opened AtomicPhase
  import opened Sweeping
  import opened Invariant
  import opened MarkSteps
  import opened Closing
  import opened Reclaim
  import opened Mutator
  import opened Cycle

  // ---------- Marking does not look inside tables ----------

  lemma {:induction false} MarkObjectAlike(h: Objects, h': Objects, m: Marks, o: Id)
    requires SameKinds(h, h') && o in h && IsWhite(m.color, o)
    ensures MarkObject(h', m, o) == MarkObject(h, m, o)
    decreases Whites(m.color), 0
  {
    var m1 := m.(color := m.color[o := Gray]);
    assert o in Whites(m.color) && Whites(m1.color) == Whites(m.color) - {o};
    match h[o]
    case Udata(meta, env) =>
      var m2 := m1.(color := m1.color[o := Black]);
      assert Whites(m2.color) == Whites(m1.color);
      MarkValueAlike(h, h', m2, meta);
      MarkValueAlike(h, h', MarkValue(h, m2, meta), env);
    case OpenUpval(thread, slot) =>
      assert StackValue(h', thread, slot) == StackValue(h, thread, slot);
      MarkValueAlike(h, h', m1, StackValue(h, thread, slot));
    case ClosedUpval(value) => MarkValueAlike(h, h', m1, value);
    case _ =>
  }

  lemma {:induction false} MarkValueAlike(h: Objects, h': Objects, m: Marks, v: Value)
    requires SameKinds(h, h')
    ensures MarkValue(h', m, v) == MarkValue(h, m, v)
    decreases Whites(m.color), 1
  {
    if v.Ref? && v.o in h && IsWhite(m.color, v.o) {
      MarkObjectAlike(h, h', m, v.o);
    }
  }

  class GlobalState {
    var heap: Objects
    var color: Colors
    const fixed: set<Id>
    var white: bool
    var phase: Phase
    var rootgc: seq<Id>
    var sweepPos: nat
    var strings: seq<seq<Id>>
    var sweepStr: nat
    var uvhead: seq<Id>
    var gray: seq<Id>
    var grayAgain: seq<Id>
    var weak: seq<Id>
    const main: Id
    var running: Id
    const registry: Value
    var basicMetas: seq<Value>

    function State(): State
      reads this
    {
      Collector.State(heap, color, fixed, white, phase, rootgc, sweepPos, strings, sweepStr, uvhead,
                      gray, grayAgain, weak, main, running, registry, basicMetas)
    }

    constructor (g: State)
      ensures State() == g
    {
      heap, color, fixed, white, phase := g.heap, g.color, g.fixed, g.white, g.phase;
      rootgc, sweepPos, strings, sweepStr, uvhead := g.rootgc, g.sweepPos, g.strings, g.sweepStr, g.uvhead;
      gray, grayAgain, weak := g.gray, g.grayAgain, g.weak;
      main, running, registry, basicMetas := g.main, g.running, g.registry, g.basicMetas;
    }

    // ---------- Marking ----------

    /** `reallymarkobject`. */
    method MarkObject(o: Id)
      requires o in heap && IsWhite(color, o)
      modifies `color, `gray
      ensures Marks(color, gray) == Marking.MarkObject(heap, Marks(old(color), old(gray)), o)
      decreases Whites(color), 0
    {
      assert o in Whites(color);
      color := color[o := Gray];
      assert Whites(color) == Whites(old(color)) - {o};
      match heap[o]
      case Str =>
      case Udata(meta, env) =>
        color := color[o := Black];
        assert Whites(color) == Whites(old(color)) - {o};
        MarkValue(meta);
        MarkValue(env);
      case OpenUpval(thread, slot) => MarkValue(StackValue(heap, thread, slot));
      case ClosedUpval(value) =>
        MarkValue(value);
        color := color[o := Black];
      case _ => gray := [o] + gray;
    }

    /** The `markvalue` macro. */
    method MarkValue(v: Value)
      modifies `color, `gray
      ensures Marks(color, gray) == Marking.MarkValue(heap, Marks(old(color), old(gray)), v)
      ensures State() == MarkIn(old(State()), [v])
      decreases Whites(color), 1
    {
      if v.Ref? && v.o in heap && IsWhite(color, v.o) {
        MarkObject(v.o);
      }
      MarkOne(old(State()), v);
    }

    static lemma MarkOne(g: State, v: Value)
      ensures MarkAll(g.heap, Marks(g.color, g.gray), [v]) == Marking.MarkValue(g.heap, Marks(g.color, g.gray), v)
    {
      assert [v][1..] == [];
    }

    /** Marks the values of a vector, first to last. */
    method MarkVector(vs: seq<Value>)
      modifies `color, `gray
      ensures Marks(color, gray) == MarkAll(heap, Marks(old(color), old(gray)), vs)
    {
      var i := 0;
      while i < |vs|
        invariant 0 <= i <= |vs|
        invariant MarkAll(heap, Marks(color, gray), vs[i..]) == MarkAll(heap, Marks(old(color), old(gray)), vs)
      {
        assert vs[i..][1..] == vs[i + 1..];
        MarkValue(vs[i]);
        i := i + 1;
      }
    }

    method ClearLists()
      modifies `gray, `grayAgain, `weak
      ensures State() == old(State()).(gray := [], grayAgain := [], weak := [])
    {
      gray, grayAgain, weak := [], [], [];
    }

    method MarkRoot()
      modifies this
      ensures State() == Collector.MarkRoot(old(State()))
    {
      ghost var g := State();
      ClearLists();
      ghost var g0 := State();
      assert RootValues(g0) == RootValues(g);
      MarkRootValues();
      assert State() == MarkIn(g0, RootValues(g));
      phase := Propagate;
    }

    method MarkRootValues()
      modifies `color, `gray
      ensures State() == MarkIn(old(State()), RootValues(old(State())))
    {
      ghost var m := Marks(color, gray);
      var globals := if main in heap && heap[main].Thread? then [heap[main].globals] else [];
      MarkVector([Ref(main)]);
      MarkMore(m, [Ref(main)], globals);
      MarkMore(m, [Ref(main)] + globals, [registry]);
      MarkMore(m, [Ref(main)] + globals + [registry], basicMetas);
    }

    /** Marks `vs` after `done`. */
    method MarkMore(ghost m: Marks, ghost done: seq<Value>, vs: seq<Value>)
      requires Marks(color, gray) == MarkAll(heap, m, done)
      modifies `color, `gray
      ensures Marks(color, gray) == MarkAll(heap, m, done + vs)
    {
      MarkAllAppend(heap, m, done, vs);
      MarkVector(vs);
    }

    // ---------- Traversal ----------

    /** `traversetable`, for the table `o` just blackened; returns whether it is weak. */
    method TraverseTable(o: Id) returns (isWeak: bool)
      requires o in heap && heap[o].Table?
      modifies `heap, `color, `gray, `weak
      ensures var t, mode := old(heap[o]), TableMode(old(heap), old(heap[o]));
              && isWeak == IsWeak(mode)
              && heap == old(heap)[o := t.(weakBits := if isWeak then mode else t.weakBits,
                                           nodes := if mode.keys && mode.values then t.nodes else Prune(t.nodes))]
              && weak == (if isWeak then [o] + old(weak) else old(weak))
              && Marks(color, gray) == MarkAll(old(heap), Marks(old(color), old(gray)), Values(old(heap), t, mode))
    {
      hide Marking.MarkValue, MarkAll, Values, ArrayValues, HashValues, Prune, TableMode;
      ghost var m := Marks(color, gray);
      var t := heap[o];
      var mode := TableMode(heap, t);
      MarkValue(t.meta);
      ghost var m1 := Marks(color, gray);
      isWeak := IsWeak(mode);
      if isWeak {
        heap := heap[o := t.(weakBits := mode)];
        weak := [o] + weak;
      }
      TraverseOrder(old(heap), m, t, mode);
      if mode.keys && mode.values {
        return;
      }
      if !mode.values {
        MarkArray(old(heap), t.arr);
      }
      MarkHash(old(heap), o, mode);
    }

    /** The order in which a table's values are marked. */
    static lemma TraverseOrder(h: Objects, m: Marks, t: Object, mode: Mode)
      requires t.Table?
      ensures var m1 := Marking.MarkValue(h, m, t.meta);
              MarkAll(h, m, Values(h, t, mode)) ==
              if mode.keys && mode.values then m1
              else if mode.values then MarkAll(h, m1, HashValues(t.nodes, |t.nodes|, mode))
              else MarkAll(h, MarkAll(h, m1, ArrayValues(t.arr, |t.arr|)), HashValues(t.nodes, |t.nodes|, mode))
    {
      var arrayPart := if mode.values then [] else ArrayValues(t.arr, |t.arr|);
      var hashPart := HashValues(t.nodes, |t.nodes|, mode);
      assert Values(h, t, mode) == [t.meta] + (arrayPart + hashPart);
      assert ([t.meta] + (arrayPart + hashPart))[1..] == arrayPart + hashPart;
      MarkAllAppend(h, Marking.MarkValue(h, m, t.meta), arrayPart, hashPart);
      if mode.keys && mode.values {
        HashValuesBothWeak(t.nodes, |t.nodes|);
      }
    }

    static lemma {:induction false} HashValuesBothWeak(nodes: seq<Node>, n: nat)
      requires n <= |nodes|
      ensures HashValues(nodes, n, Mode(true, true)) == []
    {
      if n > 0 {
        HashValuesBothWeak(nodes, n - 1);
      }
    }

    /** The array part, last slot first. */
    method MarkArray(ghost h: Objects, arr: seq<Value>)
      requires SameKinds(h, heap)
      modifies `color, `gray
      ensures Marks(color, gray) == MarkAll(h, Marks(old(color), old(gray)), ArrayValues(arr, |arr|))
    {
      var i := |arr|;
      while i > 0
        invariant 0 <= i <= |arr|
        invariant MarkAll(h, Marks(color, gray), ArrayValues(arr, i)) ==
                  MarkAll(h, Marks(old(color), old(gray)), ArrayValues(arr, |arr|))
      {
        i := i - 1;
        MarkValueAlike(h, heap, Marks(color, gray), arr[i]);
        assert ArrayValues(arr, i + 1)[1..] == ArrayValues(arr, i);
        MarkValue(arr[i]);
      }
    }

    /** The hash part, last node first; the keys of empty entries become dead keys. */
    method MarkHash(ghost h: Objects, o: Id, mode: Mode)
      requires SameKinds(h, heap) && o in heap && heap[o].Table?
      modifies `heap, `color, `gray
      ensures heap == old(heap)[o := old(heap[o]).(nodes := Prune(old(heap[o].nodes)))]
      ensures Marks(color, gray) ==
              MarkAll(h, Marks(old(color), old(gray)), HashValues(old(heap[o].nodes), |old(heap[o].nodes)|, mode))
    {
      hide Marking.MarkValue, MarkAll, NodeValues, HashValues, TableMode, RemoveEntry, SameKinds;
      ghost var nodes := heap[o].nodes;
      HashEnd(h, nodes, mode);
      var i := |heap[o].nodes|;
      while i > 0
        invariant 0 <= i <= |nodes| && SameKinds(h, heap) && o in heap && heap[o].Table?
        invariant |heap[o].nodes| == |nodes| && heap == old(heap)[o := old(heap[o]).(nodes := heap[o].nodes)]
        invariant forall k :: 0 <= k < i ==> heap[o].nodes[k] == nodes[k]
        invariant forall k :: i <= k < |nodes| ==> heap[o].nodes[k] == RemoveEntry(nodes[k])
        invariant MarkAll(h, Marks(color, gray), HashValues(nodes, i, mode)) ==
                  MarkAll(h, Marks(old(color), old(gray)), HashValues(nodes, |nodes|, mode))
      {
        i := i - 1;
        var n := heap[o].nodes[i];
        HashStep(h, Marks(color, gray), nodes, i, mode);
        if n.val == Nil {
          SameKindsTable(h, heap, o, heap[o].(nodes := heap[o].nodes[i := RemoveEntry(n)]));
          heap := heap[o := heap[o].(nodes := heap[o].nodes[i := RemoveEntry(n)])];
        } else {
          FullEntry(n);
          MarkNode(h, n, mode);
        }
      }
      assert heap[o].nodes == Prune(nodes);
    }

    static lemma SameKindsTable(h: Objects, h': Objects, o: Id, t: Object)
      requires SameKinds(h, h') && o in h' && h'[o].Table? && t.Table?
      ensures SameKinds(h, h'[o := t])
    {
    }

    static lemma FullEntry(n: Node)
      requires n.val != Nil
      ensures RemoveEntry(n) == n
    {
    }

    static lemma HashEnd(h: Objects, nodes: seq<Node>, mode: Mode)
      ensures forall m :: MarkAll(h, m, HashValues(nodes, 0, mode)) == m
    {
    }

    static lemma HashStep(h: Objects, m: Marks, nodes: seq<Node>, i: nat, mode: Mode)
      requires i < |nodes|
      ensures MarkAll(h, m, HashValues(nodes, i + 1, mode)) ==
              if nodes[i].val == Nil then MarkAll(h, m, HashValues(nodes, i, mode))
              else MarkAll(h, MarkAll(h, m, NodeValues(nodes[i], mode)), HashValues(nodes, i, mode))
    {
      hide MarkAll;
      MarkAllAppend(h, m, NodeValues(nodes[i], mode), HashValues(nodes, i, mode));
      assert [] + HashValues(nodes, i, mode) == HashValues(nodes, i, mode);
    }

    method MarkNode(ghost h: Objects, n: Node, mode: Mode)
      requires SameKinds(h, heap) && n.val != Nil
      modifies `color, `gray
      ensures Marks(color, gray) == MarkAll(h, Marks(old(color), old(gray)), NodeValues(n, mode))
    {
      ghost var m := Marks(color, gray);
      var keys := if mode.keys then [] else [n.key];
      var values := if mode.values then [] else [n.val];
      MarkAllAppend(h, m, keys, values);
      if !mode.keys {
        MarkValueAlike(h, heap, Marks(color, gray), n.key);
        MarkValue(n.key);
      }
      assert keys != [] ==> keys[1..] == [];
      assert Marks(color, gray) == MarkAll(h, m, keys);
      if !mode.values {
        MarkValueAlike(h, heap, Marks(color, gray), n.val);
        MarkValue(n.val);
      }
      assert values != [] ==> values[1..] == [];
    }

    method PropagateMark()
      requires gray != [] && gray[0] in heap && Traversable(heap[gray[0]])
      modifies `heap, `color, `gray, `grayAgain, `weak
      ensures State() == Collector.PropagateMark(old(State()))
    {
      var o := gray[0];
      gray := gray[1..];
      color := color[o := Black];
      match heap[o]
      case Table(_, _, _, _, _) => VisitTable(old(State()), o);
      case Thread(_, _, _) => VisitThread(old(State()), o);
      case Closure(slots) => VisitSlots(old(State()), o, slots);
      case Proto(slots) => VisitSlots(old(State()), o, slots);
    }

    method VisitThread(ghost g: State, o: Id)
      requires g.gray != [] && o == g.gray[0] && o in g.heap && g.heap[o].Thread?
      requires State() == g.(gray := g.gray[1..], color := g.color[o := Black])
      modifies `heap, `color, `gray, `grayAgain, `weak
      ensures State() == Collector.PropagateMark(g)
    {
      grayAgain := [o] + grayAgain;
      color := color[o := Gray];
      MarkVector([heap[o].globals] + heap[o].stack);
    }

    method VisitSlots(ghost g: State, o: Id, slots: seq<Value>)
      requires g.gray != [] && o == g.gray[0] && o in g.heap &&
               (g.heap[o] == Closure(slots) || g.heap[o] == Proto(slots))
      requires State() == g.(gray := g.gray[1..], color := g.color[o := Black])
      modifies `heap, `color, `gray, `grayAgain, `weak
      ensures State() == Collector.PropagateMark(g)
    {
      MarkVector(slots);
    }

    method VisitTable(ghost g: State, o: Id)
      requires g.gray != [] && o == g.gray[0] && o in g.heap && g.heap[o].Table?
      requires State() == g.(gray := g.gray[1..], color := g.color[o := Black])
      modifies `heap, `color, `gray, `grayAgain, `weak
      ensures State() == Collector.PropagateMark(g)
    {
      hide Values, MarkAll, TableMode, Prune, Collector.TraverseTable;
      ghost var g1 := State();
      var isWeak := TraverseTable(o);
      if isWeak {
        color := color[o := Gray];
      }
      TraverseForm(g1, o, MarkAll(g1.heap, Marks(g1.color, g1.gray),
                                  Values(g1.heap, g1.heap[o], TableMode(g1.heap, g1.heap[o]))));
    }

    static lemma TraverseForm(g: State, o: Id, m: Marks)
      requires o in g.heap && g.heap[o].Table?
      requires m == MarkAll(g.heap, Marks(g.color, g.gray), Values(g.heap, g.heap[o], TableMode(g.heap, g.heap[o])))
      ensures var t, mode := g.heap[o], TableMode(g.heap, g.heap[o]);
              var isWeak := IsWeak(mode);
              Collector.TraverseTable(g, o) ==
              g.(heap := g.heap[o := t.(weakBits := if isWeak then mode else t.weakBits,
                                        nodes := if mode.keys && mode.values then t.nodes else Prune(t.nodes))],
                 weak := if isWeak then [o] + g.weak else g.weak,
                 color := if isWeak then m.color[o := Gray] else m.color,
                 gray := m.gray)
    {
    }

    method PropagateAll(ghost pending: set<Id>)
      requires MarkInv(State(), pending)
      modifies `heap, `color, `gray, `grayAgain, `weak
      ensures State() == Propagation.PropagateAll(old(State()))
    {
      while gray != []
        invariant MarkInv(State(), pending)
        invariant Propagation.PropagateAll(State()) == Propagation.PropagateAll(old(State()))
        decreases Whites(color), |gray|
      {
        assert gray[0] in gray;
        PropagateMarkProgress(State());
        PropagateMarkKeeps(State(), pending);
        PropagateMark();
      }
    }

    // ---------- The atomic phase ----------

    method RemarkUpvals()
      modifies `color, `gray
      ensures State() == AtomicPhase.RemarkUpvals(old(State()), uvhead)
    {
      var i := 0;
      while i < |uvhead|
        invariant 0 <= i <= |uvhead|
        invariant AtomicPhase.RemarkUpvals(State(), uvhead[i..]) == AtomicPhase.RemarkUpvals(old(State()), uvhead)
      {
        var u := uvhead[i];
        assert uvhead[i..][1..] == uvhead[i + 1..];
        if u in heap && heap[u].OpenUpval? && u in color && color[u] == Gray {
          MarkValue(StackValue(heap, heap[u].thread, heap[u].slot));
        }
        i := i + 1;
      }
    }

    /** Two heaps with the same strings. */
    static ghost predicate SameStr(h: Objects, h': Objects) {
      h'.Keys == h.Keys && forall o :: o in h ==> h'[o].Str? == h[o].Str?
    }

    static ghost predicate AreStrings(h: Objects, s: set<Id>) {
      forall o :: o in s ==> o in h && h[o].Str?
    }

    /** `iscleared`, negated: marks a value found in a weak table if it is a string, and says
        whether the value may stay. The state is `g` with the strings `marked` marked. */
    method KeepInWeak(ghost g: State, ghost marked: set<Id>, v: Value) returns (stays: bool, ghost marked': set<Id>)
      requires SameStr(g.heap, heap) && AreStrings(g.heap, marked) && color == MarkStrings(g.color, marked)
      modifies `color
      ensures stays == Stays(g, v) && marked' == marked + StringOf(g.heap, v)
      ensures AreStrings(g.heap, marked') && color == MarkStrings(g.color, marked')
    {
      marked' := marked + StringOf(g.heap, v);
      if IsString(heap, v) {
        if v.o in color && color[v.o].White? {
          color := color[v.o := Gray];
        }
        stays := true;
      } else {
        stays := !(v.Ref? && IsWhite(color, v.o));
      }
      assert color == MarkStrings(g.color, marked');
    }

    static ghost function StringOf(h: Objects, v: Value): set<Id> {
      if IsString(h, v) then {v.o} else {}
    }

    static ghost function StringsIn(h: Objects, vs: seq<Value>): set<Id> {
      if vs == [] then {} else StringOf(h, vs[0]) + StringsIn(h, vs[1..])
    }

    /** The array part of a table with weak values. */
    method ClearArrayPart(ghost g: State, o: Id) returns (ghost marked: set<Id>)
      requires g == State() && o in heap && heap[o].Table?
      modifies `heap, `color
      ensures heap == g.heap[o := g.heap[o].(arr := ClearArray(g, g.heap[o].arr))]
      ensures color == MarkStrings(g.color, marked) && AreStrings(g.heap, marked)
      ensures marked == StringsIn(g.heap, g.heap[o].arr)
    {
      hide Stays, MarkStrings, AreStrings, StringsIn, StringOf, SameStr, ClearArray;
      ghost var first := heap[o].arr;
      var arr := heap[o].arr;
      marked := {};
      NoStrings(color);
      StringsStart(g.heap, first);
      var i := |arr|;
      while i > 0
        invariant 0 <= i <= |arr| == |first| && o in heap && heap[o].Table? && SameStr(g.heap, heap)
        invariant AreStrings(g.heap, marked) && color == MarkStrings(g.color, marked)
        invariant heap == g.heap[o := g.heap[o].(arr := arr)]
        invariant forall k :: 0 <= k < i ==> arr[k] == first[k]
        invariant forall k :: i <= k < |arr| ==> arr[k] == if Stays(g, first[k]) then first[k] else Nil
        invariant marked == StringsIn(g.heap, first[i..])
      {
        i := i - 1;
        StringsStep(g.heap, first, i);
        var stays;
        stays, marked := KeepInWeak(g, marked, arr[i]);
        if !stays {
          arr := arr[i := Nil];
          SameStrTable(g.heap, heap, o, heap[o].(arr := arr));
          heap := heap[o := heap[o].(arr := arr)];
        }
      }
      assert first[0..] == first;
      assert arr == ClearArray(g, first);
    }

    static lemma StringsStart(h: Objects, vs: seq<Value>)
      ensures AreStrings(h, {}) && StringsIn(h, vs[|vs|..]) == {} && SameStr(h, h)
    {
    }

    static lemma StringsStep(h: Objects, vs: seq<Value>, i: nat)
      requires i < |vs|
      ensures StringsIn(h, vs[i..]) == StringsIn(h, vs[i + 1..]) + StringOf(h, vs[i])
    {
      assert vs[i..][1..] == vs[i + 1..];
    }

    static lemma SameStrTable(h: Objects, h': Objects, o: Id, t: Object)
      requires SameStr(h, h') && o in h' && h'[o].Table? && t.Table?
      ensures SameStr(h, h'[o := t])
    {
    }

    /** What clearing an entry marks. */
    static ghost function MarkedBy(g: State, n: Node): set<Id> {
      if n.val == Nil then {}
      else StringOf(g.heap, n.key) + (if Stays(g, n.key) then StringOf(g.heap, n.val) else {})
    }

    static ghost function MarkedByAll(g: State, nodes: seq<Node>): set<Id> {
      if nodes == [] then {} else MarkedBy(g, nodes[0]) + MarkedByAll(g, nodes[1..])
    }

    method ClearEntry(ghost g: State, ghost marked: set<Id>, n: Node) returns (n': Node, ghost marked': set<Id>)
      requires SameStr(g.heap, heap) && AreStrings(g.heap, marked) && color == MarkStrings(g.color, marked)
      modifies `color
      ensures n' == ClearNode(g, n) && marked' == marked + MarkedBy(g, n)
      ensures AreStrings(g.heap, marked') && color == MarkStrings(g.color, marked')
    {
      n', marked' := n, marked;
      if n.val != Nil {
        var stays;
        stays, marked' := KeepInWeak(g, marked, n.key);
        if stays {
          stays, marked' := KeepInWeak(g, marked', n.val);
        }
        if !stays {
          n' := RemoveEntry(n.(val := Nil));
        }
      }
    }

    method ClearHashPart(ghost g: State, ghost marked: set<Id>, o: Id) returns (ghost marked': set<Id>)
      requires o in heap && heap[o].Table? && SameStr(g.heap, heap)
      requires AreStrings(g.heap, marked) && color == MarkStrings(g.color, marked)
      modifies `heap, `color
      ensures heap == old(heap)[o := old(heap)[o].(nodes := ClearNodes(g, old(heap)[o].nodes))]
      ensures marked' == marked + MarkedByAll(g, old(heap)[o].nodes)
      ensures AreStrings(g.heap, marked') && color == MarkStrings(g.color, marked')
    {
      hide MarkStrings, AreStrings, MarkedByAll, MarkedBy, SameStr, ClearNode, ClearNodes;
      ghost var h := heap;
      ghost var first := heap[o].nodes;
      var nodes := heap[o].nodes;
      marked' := marked;
      MarkedStart(g, first);
      var i := |nodes|;
      while i > 0
        invariant 0 <= i <= |nodes| == |first| && o in heap && heap[o].Table? && SameStr(g.heap, heap)
        invariant AreStrings(g.heap, marked') && color == MarkStrings(g.color, marked')
        invariant heap == h[o := h[o].(nodes := nodes)]
        invariant forall k :: 0 <= k < i ==> nodes[k] == first[k]
        invariant forall k :: i <= k < |nodes| ==> nodes[k] == ClearNode(g, first[k])
        invariant marked' == marked + MarkedByAll(g, first[i..])
      {
        i := i - 1;
        MarkedStep(g, first, i);
        var n;
        n, marked' := ClearEntry(g, marked', nodes[i]);
        nodes := nodes[i := n];
        SameStrTable(g.heap, heap, o, heap[o].(nodes := nodes));
        heap := heap[o := heap[o].(nodes := nodes)];
      }
      assert first[0..] == first;
      assert nodes == ClearNodes(g, first);
    }

    static lemma MarkedStart(g: State, nodes: seq<Node>)
      ensures MarkedByAll(g, nodes[|nodes|..]) == {}
    {
    }

    static lemma MarkedStep(g: State, nodes: seq<Node>, i: nat)
      requires i < |nodes|
      ensures MarkedByAll(g, nodes[i..]) == MarkedByAll(g, nodes[i + 1..]) + MarkedBy(g, nodes[i])
    {
      assert nodes[i..][1..] == nodes[i + 1..];
    }

    /** One turn of `cleartable`. */
    method ClearTable(o: Id)
      requires o in heap && heap[o].Table?
      modifies `heap, `color
      ensures State() == AtomicPhase.ClearTable(old(State()), o)
    {
      hide KeptStrings, MarkStrings, ClearArray, ClearNodes, AtomicPhase.ClearTable, AreStrings, SameStr, StringsIn,
           MarkedByAll;
      ghost var g := State();
      ghost var marked: set<Id> := {};
      NoStrings(color);
      StringsStart(heap, heap[o].arr);
      SameStrTable(heap, heap, o, heap[o].(arr := ClearArray(g, heap[o].arr)));
      if heap[o].weakBits.values {
        marked := ClearArrayPart(g, o);
      }
      ghost var all := ClearHashPart(g, marked, o);
      KeptSplit(g, g.heap[o], marked);
      ClearForm(g, o, heap, color);
    }

    static lemma NoStrings(c: Colors)
      ensures MarkStrings(c, {}) == c
    {
    }

    static lemma ClearForm(g: State, o: Id, h: Objects, c: Colors)
      requires o in g.heap && g.heap[o].Table?
      requires h == g.heap[o := g.heap[o].(arr := if g.heap[o].weakBits.values then ClearArray(g, g.heap[o].arr)
                                           else g.heap[o].arr,
                                           nodes := ClearNodes(g, g.heap[o].nodes))]
      requires c == MarkStrings(g.color, KeptStrings(g, g.heap[o]))
      ensures AtomicPhase.ClearTable(g, o) == g.(heap := h, color := c)
    {
    }

    static lemma KeptSplit(g: State, t: Object, arrayPart: set<Id>)
      requires t.Table?
      requires arrayPart == if t.weakBits.values then StringsIn(g.heap, t.arr) else {}
      ensures KeptStrings(g, t) == arrayPart + MarkedByAll(g, t.nodes)
    {
      hide StringsIn, MarkedByAll, IsString, Stays;
      KeptInNodes(g, t.nodes);
      KeptInArray(g, t);
    }

    static lemma KeptInArray(g: State, t: Object)
      requires t.Table?
      ensures (if t.weakBits.values then StringsIn(g.heap, t.arr) else {}) ==
              set v | v in t.arr && t.weakBits.values && IsString(g.heap, v) :: v.o
    {
      StringsInMember(g.heap, t.arr);
    }

    static lemma KeptInNodes(g: State, nodes: seq<Node>)
      ensures MarkedByAll(g, nodes) ==
              (set n | n in nodes && n.val != Nil && IsString(g.heap, n.key) :: n.key.o) +
              (set n | n in nodes && n.val != Nil && Stays(g, n.key) && IsString(g.heap, n.val) :: n.val.o)
    {
      var keys := set n | n in nodes && n.val != Nil && IsString(g.heap, n.key) :: n.key.o;
      var values := set n | n in nodes && n.val != Nil && Stays(g, n.key) && IsString(g.heap, n.val) :: n.val.o;
      MarkedByMember(g, nodes);
      assert MarkedByAll(g, nodes) == keys + values by {
        forall x
          ensures x in MarkedByAll(g, nodes) <==> x in keys + values
        {
          if x in MarkedByAll(g, nodes) {
            var n :| n in nodes && x in MarkedBy(g, n);
          }
        }
      }
    }

    static lemma {:induction false} StringsInMember(h: Objects, vs: seq<Value>)
      ensures StringsIn(h, vs) == set v | v in vs && IsString(h, v) :: v.o
    {
      if vs != [] {
        StringsInMember(h, vs[1..]);
      }
    }

    static lemma {:induction false} MarkedByMember(g: State, nodes: seq<Node>)
      ensures forall x :: x in MarkedByAll(g, nodes) <==> exists n :: n in nodes && x in MarkedBy(g, n)
    {
      if nodes != [] {
        MarkedByMember(g, nodes[1..]);
      }
    }

    /** `cleartable`. */
    method ClearTables(ts: seq<Id>)
      requires forall o :: o in ts ==> o in heap && heap[o].Table?
      modifies `heap, `color
      ensures State() == AtomicPhase.ClearTables(old(State()), ts)
    {
      var i := 0;
      while i < |ts|
        invariant 0 <= i <= |ts| && forall o :: o in ts ==> o in heap && heap[o].Table?
        invariant AtomicPhase.ClearTables(State(), ts[i..]) == AtomicPhase.ClearTables(old(State()), ts)
      {
        assert ts[i..][1..] == ts[i + 1..] && ts[i] in ts;
        ClearTable(ts[i]);
        i := i + 1;
      }
    }

    method Atomic()
      requires ReadyForAtomic(State())
      modifies this
      ensures State() == AtomicPhase.Atomic(old(State()))
    {
      hide ReadyForAtomic, AfterRemark, AfterWeak, AtomicMark, AtomicPhase.ClearTables;
      ghost var g := State();
      Remark(g);
      RemarkWeak(g);
      RemarkAgain(g);
      ClearWeak(g);
      white := !white;
      sweepStr, sweepPos := 0, 0;
      phase := SweepString;
    }

    /** The open upvalues, and what they and the write barriers left gray. */
    method Remark(ghost g: State)
      requires ReadyForAtomic(g) && State() == g
      modifies `heap, `color, `gray, `grayAgain, `weak
      ensures State() == AfterRemark(g)
    {
      RemarkUpvalsKeeps(g, uvhead, Waiting(g));
      RemarkUpvals();
      PropagateAll(Waiting(g));
    }

    /** The weak tables again, with the running thread and the basic metatables. */
    method RemarkWeak(ghost g: State)
      requires ReadyForAtomic(g) && State() == AfterRemark(g)
      modifies `heap, `color, `gray, `grayAgain, `weak
      ensures State() == AfterWeak(g)
    {
      hide ReadyForAtomic, MarkInv, AfterRemark, MarkAll, Propagation.PropagateAll;
      WeakRemarkedKeeps(g);
      gray := weak;
      weak := [];
      MarkVector([Ref(running)] + basicMetas);
      assert State() == WeakRemarked(g);
      PropagateAll(SetOf(AfterRemark(g).grayAgain));
    }

    method RemarkAgain(ghost g: State)
      requires ReadyForAtomic(g) && State() == AfterWeak(g)
      modifies `heap, `color, `gray, `grayAgain, `weak
      ensures State() == AtomicMark(g)
    {
      AfterWeakKeeps(g);
      RequeueAgain(State(), SetOf(AfterRemark(g).grayAgain));
      gray := grayAgain;
      grayAgain := [];
      PropagateAll({});
    }

    method ClearWeak(ghost g: State)
      requires ReadyForAtomic(g) && State() == AtomicMark(g)
      modifies `heap, `color
      ensures forall o :: o in AtomicMark(g).weak ==> o in AtomicMark(g).heap && AtomicMark(g).heap[o].Table?
      ensures State() == AtomicPhase.ClearTables(AtomicMark(g), AtomicMark(g).weak)
    {
      AtomicMarkKeeps(g);
      SettledTables(State());
      ClearTables(weak);
    }

    // ---------- Sweeping ----------

    /** `freeobj`, for an object without open upvalues. */
    method FreeObject(o: Id)
      modifies `heap, `color, `uvhead
      ensures heap == old(heap) - {o} && color == old(color) - {o}
      ensures uvhead == if o in old(heap) && old(heap)[o].OpenUpval? then Remove(old(uvhead), o) else old(uvhead)
    {
      if o in heap && heap[o].OpenUpval? {
        uvhead := Remove(uvhead, o);
      }
      heap, color := heap - {o}, color - {o};
    }

    /** `sweeplist`, for a whole list of strings or of open upvalues; returns what stays on it. */
    method SweepList(s: seq<Id>) returns (kept: seq<Id>)
      requires forall o :: o in s ==> o in color
      requires forall o :: o in uvhead ==> o in heap && heap[o].OpenUpval?
      modifies `heap, `color, `uvhead
      ensures kept == Survivors(old(State()), s)
      ensures Partly(old(State()), s, heap, color) && uvhead == Unfreed(old(State()), s, old(uvhead))
    {
      hide *;
      ghost var g := State();
      kept := [];
      var i := 0;
      SweepStart(g);
      assert s[..0] == [] && s[0..] == s && kept + Survivors(g, s) == Survivors(g, s);
      while i < |s|
        invariant 0 <= i <= |s| && SameRegisters(g)
        invariant kept + Survivors(g, s[i..]) == Survivors(g, s)
        invariant Partly(g, s[..i], heap, color)
        invariant uvhead == Unfreed(g, s[..i], g.uvhead)
      {
        assert s[..i + 1] == s[..i] + [s[i]];
        SurvivorsStep(g, s, i);
        var stays := SweepNext(g, s[..i], s[i]);
        if stays {
          kept := kept + [s[i]];
        }
        i := i + 1;
      }
      assert s[..i] == s;
      assert s[i..] == [];
      SurvivorsEmpty(g);
    }

    lemma SweepStart(g: State)
      requires g == State()
      ensures Partly(g, [], heap, color) && Unfreed(g, [], uvhead) == uvhead && uvhead == g.uvhead && SameRegisters(g)
      ensures g.heap == heap && g.color == color
    {
      UnfreedAll(g, [], uvhead);
    }

    /** An object that was freed already, or carries the other white, is dead. */
    static lemma PartlyDead(g: State, s: seq<Id>, h: Objects, c: Colors, o: Id)
      requires Partly(g, s, h, c) && o in g.color
      ensures IsDead(g, o) <==> !(o in c && !(c[o] == White(!g.white) && o !in g.fixed))
    {
    }

    static lemma PartlyKept(g: State, s: seq<Id>, h: Objects, c: Colors, o: Id)
      requires Partly(g, s, h, c) && !IsDead(g, o) && o in c
      ensures Partly(g, s + [o], h, c[o := White(g.white)])
    {
    }

    static lemma PartlyFreed(g: State, s: seq<Id>, h: Objects, c: Colors, o: Id)
      requires Partly(g, s, h, c) && IsDead(g, o)
      ensures Partly(g, s + [o], h - {o}, c - {o})
    {
    }

    /** `freeobj` unlinks what is still linked. */
    static lemma UnfreedKind(g: State, s: seq<Id>, o: Id, h: Objects)
      requires IsDead(g, o) && forall x :: x in g.uvhead ==> x in g.heap && g.heap[x].OpenUpval?
      requires forall x :: x in h <==> x in g.heap && !Freed(g, s, x)
      requires forall x :: x in h ==> h[x] == g.heap[x]
      ensures (o in h && h[o].OpenUpval?) || Unfreed(g, s + [o], g.uvhead) == Unfreed(g, s, g.uvhead)
    {
      UnfreedRemove(g, s, o, g.uvhead);
    }

    static lemma SurvivorsEmpty(g: State)
      ensures Survivors(g, []) == []
    {
    }

    static lemma SurvivorsStep(g: State, s: seq<Id>, i: nat)
      requires i < |s|
      ensures Survivors(g, s[i..]) == if IsDead(g, s[i]) then Survivors(g, s[i + 1..])
              else [s[i]] + Survivors(g, s[i + 1..])
    {
      assert s[i..][0] == s[i] && s[i..][1..] == s[i + 1..];
    }

    /** One turn of the loop, for the object `o` of a list of which `s` has been swept. */
    method SweepNext(ghost g: State, ghost s: seq<Id>, o: Id) returns (stays: bool)
      requires SameRegisters(g) && Partly(g, s, heap, color) && uvhead == Unfreed(g, s, g.uvhead) && o in g.color
      requires forall x :: x in g.uvhead ==> x in g.heap && g.heap[x].OpenUpval?
      modifies `heap, `color, `uvhead
      ensures Partly(g, s + [o], heap, color) && uvhead == Unfreed(g, s + [o], g.uvhead)
      ensures stays == !IsDead(g, o) && SameRegisters(g)
    {
      PartlyDead(g, s, heap, color, o);
      stays := o in color && !(color[o] == White(!white) && o !in fixed);
      if stays {
        PartlyKept(g, s, heap, color, o);
        UnfreedSame(g, s, o, g.uvhead);
        color := color[o := White(white)];
      } else {
        PartlyFreed(g, s, heap, color, o);
        UnfreedRemove(g, s, o, g.uvhead);
        UnfreedKind(g, s, o, heap);
        FreeObject(o);
      }
    }

    ghost predicate SameRegisters(g: State)
      reads this
    {
      white == g.white && fixed == g.fixed
    }

    /** The heap and the colours when the objects of `s` have been swept. */
    static ghost predicate Partly(g: State, s: seq<Id>, h: Objects, c: Colors) {
      && (forall o :: o in h <==> o in g.heap && !Freed(g, s, o)) && (forall o :: o in h ==> h[o] == g.heap[o])
      && (forall o :: o in c <==> o in g.color && !Freed(g, s, o))
      && (forall o :: o in c ==> c[o] == if o in s then White(g.white) else g.color[o])
    }

    static lemma SweptForm(g: State, s: seq<Id>, h: Objects, c: Colors)
      requires Partly(g, s, h, c)
      ensures h == SweepIds(g, s).heap && c == SweepIds(g, s).color
    {
    }

    static lemma {:induction false} UnfreedAll(g: State, s: seq<Id>, us: seq<Id>)
      requires forall o :: o in us ==> !Freed(g, s, o)
      ensures Unfreed(g, s, us) == us
    {
      if us != [] {
        UnfreedAll(g, s, us[1..]);
      }
    }

    static lemma {:induction false} UnfreedSame(g: State, s: seq<Id>, o: Id, us: seq<Id>)
      requires !IsDead(g, o)
      ensures Unfreed(g, s + [o], us) == Unfreed(g, s, us)
    {
      if us != [] {
        UnfreedSame(g, s, o, us[1..]);
      }
    }

    static lemma {:induction false} UnfreedRemove(g: State, s: seq<Id>, o: Id, us: seq<Id>)
      requires IsDead(g, o)
      ensures Unfreed(g, s + [o], us) == Remove(Unfreed(g, s, us), o)
      ensures Freed(g, s, o) ==> Unfreed(g, s + [o], us) == Unfreed(g, s, us)
      ensures o !in us ==> Unfreed(g, s + [o], us) == Unfreed(g, s, us)
    {
      if us != [] {
        UnfreedRemove(g, s, o, us[1..]);
      }
    }

    method SweepBucket()
      requires Registered(State()) && sweepStr < |strings|
      modifies `heap, `color, `uvhead, `strings, `sweepStr, `phase
      ensures State() == Sweeping.SweepBucket(old(State()))
    {
      hide Registered, Partly, Survivors, Unfreed, Sweeping.SweepBucket;
      ghost var g := State();
      BucketReady(g);
      var kept := SweepList(strings[sweepStr]);
      BucketForm(g, g.strings[g.sweepStr], heap, color);
      strings := strings[sweepStr := kept];
      sweepStr := sweepStr + 1;
      if sweepStr >= |strings| {
        phase := Sweep;
      }
    }

    static lemma BucketForm(g: State, b: seq<Id>, h: Objects, c: Colors)
      requires Registered(g) && g.sweepStr < |g.strings| && b == g.strings[g.sweepStr] && Partly(g, b, h, c)
      ensures Unfreed(g, b, g.uvhead) == g.uvhead
      ensures Sweeping.SweepBucket(g) ==
              g.(heap := h, color := c, strings := g.strings[g.sweepStr := Survivors(g, b)], sweepStr := g.sweepStr + 1,
                 phase := if g.sweepStr + 1 >= |g.strings| then Sweep else g.phase)
    {
      SweptForm(g, b, h, c);
      BucketReady(g);
      UnfreedAll(g, b, g.uvhead);
    }

    static lemma BucketReady(g: State)
      requires Registered(g) && g.sweepStr < |g.strings|
      ensures forall o :: o in g.strings[g.sweepStr] ==> o in g.color && g.heap[o].Str?
      ensures forall o :: o in g.uvhead ==> o in g.heap && g.heap[o].OpenUpval?
    {
      assert forall o :: o in g.strings[g.sweepStr] ==> InBucket(g.strings, o, g.sweepStr);
    }

    /** Sweeps the open upvalues of the thread `th`. */
    method SweepOpen(th: Id)
      requires Registered(State()) && th in heap && heap[th].Thread?
      modifies `heap, `color, `uvhead
      ensures State() == Sweeping.SweepOpen(old(State()), th)
    {
      hide Registered, Survivors, Unfreed, Partly;
      ghost var g := State();
      var t := heap[th];
      OpenReady(g, th);
      var kept := SweepList(t.openUpvals);
      SweptForm(g, t.openUpvals, heap, color);
      heap := heap[th := t.(openUpvals := kept)];
    }

    static lemma OpenReady(g: State, th: Id)
      requires Registered(g) && th in g.heap && g.heap[th].Thread?
      ensures forall o :: o in g.heap[th].openUpvals ==> o in g.color
      ensures th in SweepIds(g, g.heap[th].openUpvals).heap
      ensures forall o :: o in g.uvhead ==> o in g.heap && g.heap[o].OpenUpval?
    {
      assert OpenListed(g.heap, th);
    }

    // ---------- Closing upvalues ----------

    /** `luaC_linkupval`. */
    method LinkUpval(u: Id, v: Value)
      requires u in color
      modifies `rootgc, `sweepPos, `color, `gray
      ensures State() == Sweeping.LinkUpval(old(State()), u, v)
    {
      rootgc := [u] + rootgc;
      if sweepPos != 0 {
        sweepPos := sweepPos + 1;
      }
      if color[u] == Gray {
        if phase == Propagate {
          color := color[u := Black];
          MarkValue(v);
        } else {
          color := color[u := White(white)];
        }
      }
    }

    static lemma FirstReady(g: State, th: Id)
      requires Registered(g) && CanClose(g, th, 0)
      ensures var u := g.heap[th].openUpvals[0]; u != th && u in g.color
    {
      FirstOpenFacts(g.heap, th, g.heap[th].openUpvals[0]);
    }

    /** One turn of `luaF_close`. */
    method CloseOne(th: Id)
      requires Registered(State()) && CanClose(State(), th, 0)
      modifies `heap, `color, `uvhead, `rootgc, `sweepPos, `gray
      ensures State() == Sweeping.CloseOne(old(State()), th)
    {
      hide Registered, StackValue, Sweeping.LinkUpval, Remove;
      FirstReady(State(), th);
      var t := heap[th];
      var u := t.openUpvals[0];
      var v := StackValue(heap, heap[u].thread, heap[u].slot);
      heap := heap[th := t.(openUpvals := t.openUpvals[1..])];
      uvhead := Remove(uvhead, u);
      if color[u] == White(!white) {
        heap, color := heap - {u}, color - {u};
      } else {
        heap := heap[u := ClosedUpval(v)];
        LinkUpval(u, v);
      }
    }

    /** `luaF_close`. */
    method CloseUpvals(th: Id, level: nat)
      requires Inv(State())
      modifies `heap, `color, `uvhead, `rootgc, `sweepPos, `gray
      ensures State() == Sweeping.CloseUpvals(old(State()), th, level)
    {
      hide Inv;
      while CanClose(State(), th, level)
        invariant Inv(State())
        invariant Sweeping.CloseUpvals(State(), th, level) == Sweeping.CloseUpvals(old(State()), th, level)
        decreases if th in heap && heap[th].Thread? then |heap[th].openUpvals| else 0
      {
        CloseTurn(State(), th, level);
        CloseOne(th);
      }
    }

    static lemma CloseTurn(g: State, th: Id, level: nat)
      requires Inv(g) && CanClose(g, th, level)
      ensures var r := Sweeping.CloseOne(g, th);
              && Registered(g) && Inv(r) && Sweeping.CloseUpvals(g, th, level) == Sweeping.CloseUpvals(r, th, level)
              && th in r.heap && r.heap[th].Thread? && |r.heap[th].openUpvals| < |g.heap[th].openUpvals|
    {
      CloseOneInv(g, th);
      CloseOneFrame(g, th);
    }

    // ---------- Sweeping `rootgc` ----------

    /** Frees the object `o` of `rootgc`, closing its upvalues if it is a thread. */
    method FreeRoot(o: Id)
      requires Inv(State())
      modifies `heap, `color, `uvhead, `rootgc, `sweepPos, `gray
      ensures State() == Sweeping.FreeRoot(old(State()), o)
    {
      hide Inv, Sweeping.CloseUpvals;
      CloseUpvals(o, 0);
      rootgc := Remove(rootgc, o);
      heap, color := heap - {o}, color - {o};
    }

    /** One turn of `sweeplist` on `rootgc`. */
    method SweepOne()
      requires SweepInv(State()) && sweepPos < |rootgc|
      modifies `heap, `color, `uvhead, `rootgc, `sweepPos, `gray
      ensures State() == Sweeping.SweepOne(old(State()))
    {
      hide Inv, Registered, Sweeping.SweepOpen, Sweeping.FreeRoot;
      ghost var g := State();
      var o := rootgc[sweepPos];
      RootHere(g, o);
      if heap[o].Thread? {
        ThreadSwept(g, o);
        SweepOpen(o);
        KeysAgree(State());
      }
      if color[o] == White(!white) && o !in fixed {
        FreeRoot(o);
      } else {
        color := color[o := White(white)];
        sweepPos := sweepPos + 1;
      }
    }

    static lemma RootHere(g: State, o: Id)
      requires Inv(g) && o in g.rootgc
      ensures o in g.heap && o in g.color && Registered(g)
    {
    }

    static lemma KeysAgree(g: State)
      requires Inv(g)
      ensures g.heap.Keys == g.color.Keys
    {
    }

    /** At most `GCSWEEPMAX` objects of `rootgc`. */
    method SweepStep()
      requires SweepInv(State())
      modifies `heap, `color, `uvhead, `rootgc, `sweepPos, `gray, `phase
      ensures State() == Sweeping.SweepStep(old(State()))
    {
      hide Inv, Sweeping.SweepOne;
      var count := GCSWEEPMAX;
      while count > 0 && sweepPos < |rootgc|
        invariant SweepInv(State())
        invariant SweepRoots(State(), count) == SweepRoots(old(State()), GCSWEEPMAX)
        invariant phase == old(phase)
      {
        SweepOneInv(State());
        SweepOne();
        count := count - 1;
      }
      if sweepPos >= |rootgc| {
        phase := Finalize;
      }
    }

    // ---------- Steps and full collections ----------

    /** `singlestep`. */
    method SingleStep()
      requires Inv(State())
      modifies this
      ensures State() == Cycle.SingleStep(old(State()))
    {
      hide Inv, Collector.PropagateMark, AtomicPhase.Atomic, Sweeping.SweepBucket, Sweeping.SweepStep,
           Collector.MarkRoot, ReadyForAtomic;
      ghost var g := State();
      StepReady(g);
      match phase
      case Pause => MarkRoot();
      case Propagate =>
        if gray != [] {
          GrayHeadTraversable(g);
          PropagateMark();
        } else {
          AtomicInv(g);
          Atomic();
        }
      case SweepString =>
        RegisteredHere(g);
        SweepBucket();
      case Sweep => SweepStep();
      case Finalize => phase := Pause;
    }

    static lemma RegisteredHere(g: State)
      requires Inv(g)
      ensures Registered(g)
    {
    }

    static lemma GrayHeadTraversable(g: State)
      requires Inv(g) && g.phase == Propagate && g.gray != []
      ensures g.gray[0] in g.heap && Traversable(g.heap[g.gray[0]])
    {
      assert g.gray[0] in g.gray;
    }

    /** `luaC_fullgc`. */
    method FullGC()
      requires Inv(State())
      modifies this
      ensures State() == Cycle.FullGC(old(State()))
    {
      hide Inv, Cycle.SingleStep, RunTo, Collector.MarkRoot, ResetSweep;
      Reset();
      RunPhases(Finalize);
      MarkRootReady(State());
      MarkRoot();
      RunPhases(Pause);
    }

    /** A mark phase under way is dropped. */
    method Reset()
      requires Inv(State())
      modifies `sweepStr, `sweepPos, `gray, `grayAgain, `weak, `phase
      ensures State() == ResetSweep(old(State()))
    {
      hide Inv, ResetSweep;
      ghost var g := State();
      ResetForm(g);
      if phase == Pause || phase == Propagate {
        sweepStr, sweepPos, phase := 0, 0, SweepString;
        ClearLists();
      }
    }

    static lemma ResetForm(g: State)
      requires Inv(g)
      ensures ResetSweep(g) == if g.phase == Pause || g.phase == Propagate then
                g.(sweepStr := 0, sweepPos := 0, gray := [], grayAgain := [], weak := [], phase := SweepString)
              else g
    {
    }

    static lemma MarkRootReady(g: State)
      requires Inv(g) && g.phase == Finalize
      ensures Inv(Collector.MarkRoot(g)) && Collector.MarkRoot(g).phase == Propagate
    {
      MarkRootKeeps(g);
    }

    /** The loop `while (g->gcstate != goal) singlestep(L)`. */
    method RunPhases(goal: Phase)
      requires Inv(State()) && (phase == goal || Rank(phase) > Rank(goal)) && (goal == Finalize || goal == Pause)
      modifies this
      ensures State() == RunTo(old(State()), goal)
    {
      hide Inv, Cycle.SingleStep;
      while phase != goal
        invariant Inv(State()) && (phase == goal || Rank(phase) > Rank(goal))
        invariant RunTo(State(), goal) == RunTo(old(State()), goal)
        decreases Rank(phase), WhitesLeft(State()), PhaseLeft(State())
      {
        SingleStepProgress(State());
        SingleStep();
      }
    }

    // ---------- What the program calls ----------

    /** `luaC_link`. */
    method Link(o: Id, body: Object)
      modifies `heap, `color, `rootgc, `sweepPos
      ensures State() == Insert(old(State()), o, body, 0)
    {
      heap := heap[o := body];
      color := color[o := White(white)];
      rootgc := [o] + rootgc;
      if sweepPos > 0 {
        sweepPos := sweepPos + 1;
      }
    }

    /** The `luaC_barrier` macro and `luaC_barrierf`, for the value `v` just stored in `o`. */
    method BarrierForward(o: Id, v: Value)
      modifies `color, `gray
      ensures State() == Mutator.BarrierForward(old(State()), o, v)
      ensures v.Ref? && IsWhite(old(color), v.o) && o in old(color) && old(color)[o] == Black ==>
                if phase == Propagate then (v.o in heap ==> !IsWhite(color, v.o)) && color.Keys == old(color).Keys
                else color == old(color)[o := White(white)] && gray == old(gray)
    {
      if v.Ref? && IsWhite(color, v.o) && o in color && color[o] == Black {
        if phase == Propagate {
          MarkValue(v);
        } else {
          color := color[o := White(white)];
        }
      }
    }

    /** The `luaC_barriert` macro and `luaC_barrierback`, for the value `v` just stored in `t`. */
    method BarrierBack(t: Id, v: Value)
      modifies `color, `grayAgain
      ensures State() == Mutator.BarrierBack(old(State()), t, v)
    {
      if v.Ref? && IsWhite(color, v.o) && t in color && color[t] == Black {
        color := color[t := Gray];
        grayAgain := [t] + grayAgain;
      }
    }

    /** `luaF_findupval`: the upvalue of the stack slot `slot` of `th`, made with the identifier
        `u` if there is none. */
    method FindUpval(th: Id, slot: nat, u: Id) returns (found: Id)
      requires th in heap && heap[th].Thread?
      modifies `heap, `color, `uvhead
      ensures (State(), found) == Mutator.FindUpval(old(State()), th, slot, u)
    {
      var us := heap[th].openUpvals;
      var i := 0;
      while i < |us| && us[i] in heap && heap[us[i]].OpenUpval? && heap[us[i]].slot > slot
        invariant 0 <= i <= |us| && ScanOpen(heap, us, slot) == i + ScanOpen(heap, us[i..], slot)
      {
        assert us[i..][1..] == us[i + 1..];
        i := i + 1;
      }
      assert ScanOpen(heap, us[i..], slot) == 0;
      if i < |us| && us[i] in heap && heap[us[i]].OpenUpval? && heap[us[i]].slot == slot {
        found := us[i];
        if found in color && color[found] == White(!white) {
          color := color[found := White(white)];
        }
      } else {
        found := u;
        heap := heap[u := OpenUpval(th, slot)][th := heap[th].(openUpvals := us[..i] + [u] + us[i..])];
        color := color[u := White(white)];
        uvhead := [u] + uvhead;
      }
    }
  }
}
