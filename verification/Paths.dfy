/** Strong reachability told by the fields themselves: an object is strongly reachable if a path leads to it, from
    what the state names and from field to field, leaving out the weak parts of tables. */
module Paths {
  import opened Heap
  import opened Collector
  import opened Invariant
  import opened Cycle
  import opened FullCollection

  ghost predicate WeakKeys(h: Objects, t: Object) {
    t.Table? && t.meta.Ref? && t.meta.o in h && h[t.meta.o].Table? && h[t.meta.o].mode.keys
  }

  ghost predicate WeakValues(h: Objects, t: Object) {
    t.Table? && t.meta.Ref? && t.meta.o in h && h[t.meta.o].Table? && h[t.meta.o].mode.values
  }

  /** One of the fields of `o` is `x`, and not a weak one. */
  ghost predicate Refers(h: Objects, o: Object, x: Id) {
    match o
    case Str => false
    case Udata(meta, env) => meta == Ref(x) || env == Ref(x)
    case OpenUpval(thread, slot) =>
      thread in h && h[thread].Thread? && slot < |h[thread].stack| && h[thread].stack[slot] == Ref(x)
    case ClosedUpval(value) => value == Ref(x)
    case Closure(slots) => Ref(x) in slots
    case Proto(slots) => Ref(x) in slots
    case Table(meta, arr, nodes, _, _) =>
      || meta == Ref(x)
      || (!WeakValues(h, o) && Ref(x) in arr)
      || (exists n :: n in nodes && EntryRefers(n, WeakKeys(h, o), WeakValues(h, o), x))
    case Thread(globals, stack, _) => globals == Ref(x) || Ref(x) in stack
  }

  predicate EntryRefers(n: Node, weakKeys: bool, weakValues: bool, x: Id) {
    n.val != Nil && ((!weakKeys && n.key == Ref(x)) || (!weakValues && n.val == Ref(x)))
  }

  /** Where paths start: the main thread, the running thread, the registry and the metatables of basic types. */
  predicate Named(g: State, x: Id) {
    x == g.main || x == g.running || g.registry == Ref(x) || Ref(x) in g.basicMetas
  }

  ghost predicate Path(g: State, p: seq<Id>) {
    && p != [] && Named(g, p[0])
    && forall i :: 0 <= i < |p| - 1 ==> p[i] in g.heap && Refers(g.heap, g.heap[p[i]], p[i + 1])
  }

  ghost predicate LedTo(g: State, x: Id) {
    exists p :: Path(g, p) && p[|p| - 1] == x
  }

  // ---------- The two tellings agree ----------

  lemma HashRefers(h: Objects, o: Object, x: Id)
    requires o.Table?
    ensures Ref(x) in HashValues(o.nodes, |o.nodes|, TableMode(h, o)) <==>
            exists n :: n in o.nodes && EntryRefers(n, WeakKeys(h, o), WeakValues(h, o), x)
  {
    var mode := TableMode(h, o);
    InHashValues(o.nodes, |o.nodes|, mode, Ref(x));
    forall n: Node
      ensures Ref(x) in NodeValues(n, mode) <==> EntryRefers(n, WeakKeys(h, o), WeakValues(h, o), x)
    {
    }
  }

  lemma RefersExactly(h: Objects, o: Id, x: Id)
    requires o in h
    ensures x in StrongRefs(h, o) <==> Refers(h, h[o], x)
  {
    var t := h[o];
    if t.Table? {
      HashRefers(h, t, x);
      InArrayValues(t.arr, |t.arr|, Ref(x));
    }
    assert x in StrongRefs(h, o) <==> Ref(x) in Values(h, t, TableMode(h, t));
  }

  lemma NamedExactly(g: State, x: Id)
    ensures x in Roots(g) <==> Named(g, x)
  {
    assert x in Targets([g.registry] + g.basicMetas) <==> Ref(x) in [g.registry] + g.basicMetas;
  }

  lemma {:induction false} PathWithin(g: State, p: seq<Id>, s: set<Id>, i: nat)
    requires Path(g, p) && StronglyEncloses(g, s) && i < |p|
    ensures p[i] in s
  {
    hide Refers, StrongRefs, Named, Roots;
    if i == 0 {
      NamedExactly(g, p[0]);
    } else {
      PathWithin(g, p, s, i - 1);
      RefersExactly(g.heap, p[i - 1], p[i]);
    }
  }

  lemma LedOn(g: State, o: Id, x: Id)
    requires LedTo(g, o) && o in g.heap && Refers(g.heap, g.heap[o], x)
    ensures LedTo(g, x)
  {
    hide Refers;
    var p :| Path(g, p) && p[|p| - 1] == o;
    var q := p + [x];
    assert forall i :: 0 <= i < |p| ==> q[i] == p[i];
    assert Path(g, q) && q[|q| - 1] == x;
  }

  /** What is led to is closed under strong references, as far as it is in the heap. */
  lemma LedEncloses(g: State)
    requires NoDangling(g)
    ensures StronglyEncloses(g, set x | x in Live(g) && LedTo(g, x))
  {
    hide LedTo;
    LiveStrong(g);
    var s := set x | x in Live(g) && LedTo(g, x);
    forall x | x in Roots(g)
      ensures x in s
    {
      NamedExactly(g, x);
      NamedLed(g, x);
    }
    forall o | o in s && o in g.heap
      ensures StrongRefs(g.heap, o) <= s
    {
      forall x | x in StrongRefs(g.heap, o)
        ensures x in s
      {
        RefersExactly(g.heap, o, x);
        LedOn(g, o, x);
      }
    }
  }

  lemma NamedLed(g: State, x: Id)
    requires Named(g, x)
    ensures LedTo(g, x)
  {
    assert Path(g, [x]) && [x][0] == x;
  }

  /** Strong reachability is being led to by a path. */
  lemma StrongByPaths(g: State, o: Id)
    requires NoDangling(g)
    ensures StronglyReachable(g, o) <==> LedTo(g, o)
  {
    hide NoDangling, StronglyEncloses, Refers, Named;
    LedEncloses(g);
    if LedTo(g, o) {
      var p :| Path(g, p) && p[|p| - 1] == o;
      forall s: set<Id> | StronglyEncloses(g, s)
        ensures o in s
      {
        PathWithin(g, p, s, |p| - 1);
      }
    }
  }

  /** What a full collection leaves: what paths led to when its marking began, the fixed objects, and strings kept
      by weak tables. */
  lemma LeftExactly(g: State, o: Id)
    requires Inv(g)
    ensures o in FullGC(g).heap <==>
            var s := FullStart(g); o in s.heap && (LedTo(s, o) || o in s.fixed || KeptString(s, o))
  {
    hide LedTo, StronglyReachable, KeptString, FullStart, FullGC;
    FullStartInvisible(g);
    FullCollectionExact(g);
    DanglingNone(FullStart(g));
    StrongByPaths(FullStart(g), o);
  }

  lemma DanglingNone(g: State)
    requires Inv(g)
    ensures NoDangling(g)
  {
  }

  /** Nothing is freed that a path leads to when the collection is called. */
  lemma LedToKept(g: State, o: Id)
    requires Inv(g) && LedTo(g, o)
    ensures o in FullGC(g).heap
  {
    hide LedTo, StronglyReachable, FullGC;
    DanglingNone(g);
    StrongByPaths(g, o);
    FullCollectionSafe(g, o);
  }
}
