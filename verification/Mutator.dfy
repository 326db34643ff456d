/** What the running program does to the heap between collector steps: allocation (lgc.cpp,
    luaC_link; lstring.cpp; lfunc.cpp, luaF_findupval), writes with the forward or the backward
    barrier (lgc.h; lgc.cpp, luaC_barrierf and luaC_barrierback), and stack writes without one. */
module Mutator {
  import opened Heap
  import opened Marking
  import opened Collector
  import opened Sweeping
  import opened Invariant

  // ---------- What the program can get at ----------

  /** A set that contains the roots and everything its members refer to. */
  ghost predicate Encloses(g: State, s: set<Id>) {
    Roots(g) <= s && RefsWithin(g.heap, s)
  }

  /** Reachable objects are in every such set. */
  ghost predicate Reachable(g: State, o: Id) {
    forall s: set<Id> :: Encloses(g, s) ==> o in s
  }

  ghost predicate Accessible(g: State, v: Value) {
    v.Ref? ==> Reachable(g, v.o)
  }

  ghost predicate AllAccessible(g: State, vs: seq<Value>) {
    forall v :: v in vs ==> Accessible(g, v)
  }

  // ---------- Allocation ----------

  /** Puts the new object `o` into `rootgc` at position `k`. */
  function Insert(g: State, o: Id, body: Object, k: nat): State
    requires k <= |g.rootgc|
  {
    g.(heap := g.heap[o := body], color := g.color[o := White(g.white)],
       rootgc := g.rootgc[..k] + [o] + g.rootgc[k..],
       sweepPos := if g.sweepPos > k then g.sweepPos + 1 else g.sweepPos)
  }

  function Rewrite(g: State, o: Id, body: Object): State {
    g.(heap := g.heap[o := body])
  }

  /** Leaves a value on the running thread's stack. */
  function Push(g: State, v: Value): State {
    if g.running in g.heap && g.heap[g.running].Thread? then
      Rewrite(g, g.running, g.heap[g.running].(stack := g.heap[g.running].stack + [v]))
    else g
  }

  /** `luaC_link`, with the new object left on the stack. */
  function NewObject(g: State, o: Id, body: Object): State {
    Push(Insert(g, o, body, 0), Ref(o))
  }

  function IndexOf(s: seq<Id>, o: Id): (i: nat)
    ensures i <= |s| && (o in s ==> i < |s| && s[i] == o)
  {
    if s == [] || s[0] == o then 0 else 1 + IndexOf(s[1..], o)
  }

  /** `luaS_newudata`: userdata go behind the main thread. */
  function NewUdata(g: State, o: Id, env: Value): State
    requires g.main in g.rootgc
  {
    Push(Insert(g, o, Udata(Nil, env), IndexOf(g.rootgc, g.main) + 1), Ref(o))
  }

  function AddString(g: State, o: Id, bucket: nat): State
    requires bucket < |g.strings|
  {
    g.(heap := g.heap[o := Str], color := g.color[o := White(g.white)],
       strings := g.strings[bucket := [o] + g.strings[bucket]])
  }

  /** `newlstr`. */
  function NewString(g: State, o: Id, bucket: nat): State
    requires bucket < |g.strings|
  {
    Push(AddString(g, o, bucket), Ref(o))
  }

  /** `changewhite` on an object with the other white. */
  function Resurrect(g: State, o: Id): State {
    if HasOtherWhite(g, o) then g.(color := g.color[o := White(g.white)]) else g
  }

  /** `luaS_newlstr` when the string exists: it may be dead already. */
  function FindString(g: State, o: Id): State {
    Push(Resurrect(g, o), Ref(o))
  }

  // ---------- Upvalues ----------

  /** How far `luaF_findupval` walks down the open list. */
  function ScanOpen(h: Objects, us: seq<Id>, slot: nat): (i: nat)
    ensures i <= |us|
  {
    if us != [] && us[0] in h && h[us[0]].OpenUpval? && h[us[0]].slot > slot then 1 + ScanOpen(h, us[1..], slot) else 0
  }

  predicate FoundOpen(h: Objects, us: seq<Id>, slot: nat, i: nat) {
    i < |us| && us[i] in h && h[us[i]].OpenUpval? && h[us[i]].slot == slot
  }

  function AddOpen(g: State, th: Id, slot: nat, u: Id, i: nat): State
    requires th in g.heap && g.heap[th].Thread? && i <= |g.heap[th].openUpvals|
  {
    var us := g.heap[th].openUpvals;
    g.(heap := g.heap[u := OpenUpval(th, slot)][th := g.heap[th].(openUpvals := us[..i] + [u] + us[i..])],
       color := g.color[u := White(g.white)], uvhead := [u] + g.uvhead)
  }

  /** `luaF_findupval`: the upvalue of a stack slot, found or made with the identifier `u`. */
  function FindUpval(g: State, th: Id, slot: nat, u: Id): (r: (State, Id))
    requires th in g.heap && g.heap[th].Thread?
  {
    var us := g.heap[th].openUpvals;
    var i := ScanOpen(g.heap, us, slot);
    if FoundOpen(g.heap, us, slot, i) then (Resurrect(g, us[i]), us[i]) else (AddOpen(g, th, slot, u, i), u)
  }

  /** Adds an upvalue to a closure under construction; no barrier. */
  function AddSlot(g: State, cl: Id, u: Id): State {
    if cl in g.heap && g.heap[cl].Closure? then Rewrite(g, cl, Closure(g.heap[cl].slots + [Ref(u)])) else g
  }

  /** One turn of the loop of OP_CLOSURE that fills the new closure `cl`. */
  function Capture(g: State, cl: Id, slot: nat, u: Id): State
    requires g.running in g.heap && g.heap[g.running].Thread?
  {
    var r := FindUpval(g, g.running, slot, u);
    AddSlot(r.0, cl, r.1)
  }

  /** `luaF_newupval` for the closure under construction `cl`. */
  function NewUpval(g: State, cl: Id, u: Id): State {
    AddSlot(Insert(g, u, ClosedUpval(Nil), 0), cl, u)
  }

  // ---------- Writes ----------

  /** `luaC_barriert`, for the value `v` just stored in the table `t`. */
  function BarrierBack(g: State, t: Id, v: Value): State {
    if v.Ref? && IsWhite(g.color, v.o) && t in g.color && g.color[t] == Black then
      g.(color := g.color[t := Gray], grayAgain := [t] + g.grayAgain)
    else g
  }

  function BarrierBackAll(g: State, t: Id, vs: seq<Value>): State
    decreases |vs|
  {
    if vs == [] then g else BarrierBackAll(BarrierBack(g, t, vs[0]), t, vs[1..])
  }

  /** Stores the values `vs` in the table `t` (a key and a value, or a metatable). */
  function WriteTable(g: State, t: Id, body: Object, vs: seq<Value>): State {
    BarrierBackAll(Rewrite(g, t, body), t, vs)
  }

  /** `luaC_barrier`, for the value `v` just stored in `o`. */
  function BarrierForward(g: State, o: Id, v: Value): State {
    if v.Ref? && IsWhite(g.color, v.o) && o in g.color && g.color[o] == Black then
      if g.phase == Propagate then MarkIn(g, [v]) else g.(color := g.color[o := White(g.white)])
    else g
  }

  /** Stores `v` in a closure, prototype, userdata or closed upvalue. */
  function WriteForward(g: State, o: Id, body: Object, v: Value): State {
    BarrierForward(Rewrite(g, o, body), o, v)
  }

  /** Replaces the stack (and the table of globals) of a thread; no barrier. */
  function SetStack(g: State, th: Id, globals: Value, stack: seq<Value>): State {
    if th in g.heap && g.heap[th].Thread? then
      Rewrite(g, th, g.heap[th].(globals := globals, stack := stack))
    else g
  }

  /** OP_SETUPVAL: the barrier does nothing for an open upvalue, which is never black. */
  function SetUpval(g: State, u: Id, v: Value): State {
    if u !in g.heap then g
    else match g.heap[u]
      case OpenUpval(th, slot) =>
        if th in g.heap && g.heap[th].Thread? && slot < |g.heap[th].stack| then
          BarrierForward(SetStack(g, th, g.heap[th].globals, g.heap[th].stack[slot := v]), u, v)
        else g
      case ClosedUpval(_) => WriteForward(g, u, ClosedUpval(v), v)
      case _ => g
  }

  // ---------- The program's actions ----------

  datatype Action =
    | ANewObject(o: Id, body: Object)
    | ANewUdata(o: Id, env: Value)
    | ANewString(o: Id, bucket: nat)
    | AFindString(o: Id)
    | ASetStack(th: Id, globals: Value, stack: seq<Value>)
    | AWriteTable(t: Id, body: Object, vs: seq<Value>)
    | AWriteForward(o: Id, body: Object, v: Value)
    | ASetUpval(u: Id, v: Value)
    | ACapture(cl: Id, slot: nat, u: Id)
    | ANewUpval(cl: Id, u: Id)
    | AClose(th: Id, level: nat)
    | AResume(th: Id)
    | ASetBasicMeta(i: nat, v: Value)
    | AResizeStrings(strings: seq<seq<Id>>)

  /** The values a new body holds are old ones of the object or among `vs`. */
  ghost predicate OnlyAdds(g: State, o: Id, body: Object, vs: seq<Value>)
    requires o in g.heap
  {
    forall v :: v in Values(g.heap, body, STRONG) && v.Ref? ==> v in Values(g.heap, g.heap[o], STRONG) || v in vs
  }

  /** `strings` holds the same strings in other buckets. */
  ghost predicate SameStrings(a: seq<seq<Id>>, b: seq<seq<Id>>) {
    && |b| > 0
    && (forall o, i :: InBucket(a, o, i) ==> exists j :: InBucket(b, o, j))
    && (forall o, i :: InBucket(b, o, i) ==> exists j :: InBucket(a, o, j))
    && (forall o, i, j :: InBucket(b, o, i) && InBucket(b, o, j) ==> i == j)
  }

  /** What the program may do: it handles only reachable objects and accessible values, gives a
      new object an unused identifier, fills a closure under construction before the collector
      runs again, and closes the upvalues above a level before giving up the stack there. */
  ghost predicate Allowed(g: State, a: Action) {
    match a
    case ANewObject(o, body) =>
      && o !in g.heap
      && (body.Closure? || body.Proto? || body.Table? || (body.Thread? && body.openUpvals == []))
      && AllAccessible(g, Values(g.heap, body, STRONG))
    case ANewUdata(o, env) => o !in g.heap && Accessible(g, env)
    case ANewString(o, bucket) => o !in g.heap && bucket < |g.strings|
    case AFindString(o) => o in g.heap && g.heap[o].Str?
    case ASetStack(th, globals, stack) =>
      && Reachable(g, th) && th in g.heap && g.heap[th].Thread?
      && AllAccessible(g, [globals] + stack)
      && forall u :: u in g.heap[th].openUpvals && u in g.heap && g.heap[u].OpenUpval? ==> g.heap[u].slot < |stack|
    case AWriteTable(t, body, vs) =>
      && Reachable(g, t) && t in g.heap && g.heap[t].Table? && body.Table?
      && OnlyAdds(g, t, body, vs) && AllAccessible(g, vs)
    case AWriteForward(o, body, v) =>
      && Reachable(g, o) && o in g.heap
      && ((g.heap[o].Closure? && body.Closure?) || (g.heap[o].Proto? && body.Proto?) ||
          (g.heap[o].Udata? && body.Udata?))
      && OnlyAdds(g, o, body, [v]) && Accessible(g, v)
    case ASetUpval(u, v) => Reachable(g, u) && Accessible(g, v)
    case ACapture(cl, slot, u) =>
      && Reachable(g, cl) && cl in g.heap && g.heap[cl].Closure? && IsWhite(g.color, cl) && u !in g.heap
      && g.running in g.heap && g.heap[g.running].Thread? && slot < |g.heap[g.running].stack|
    case ANewUpval(cl, u) =>
      Reachable(g, cl) && cl in g.heap && g.heap[cl].Closure? && IsWhite(g.color, cl) && u !in g.heap
    case AClose(th, level) => true
    case AResume(th) => Reachable(g, th) && th in g.heap && g.heap[th].Thread?
    case ASetBasicMeta(i, v) => i < |g.basicMetas| && Accessible(g, v)
    case AResizeStrings(strings) => g.phase != SweepString && SameStrings(g.strings, strings)
  }

  function Act(g: State, a: Action): State
    requires g.main in g.rootgc && g.running in g.heap && g.heap[g.running].Thread?
  {
    match a
    case ANewObject(o, body) => NewObject(g, o, body)
    case ANewUdata(o, env) => NewUdata(g, o, env)
    case ANewString(o, bucket) => if bucket < |g.strings| then NewString(g, o, bucket) else g
    case AFindString(o) => FindString(g, o)
    case ASetStack(th, globals, stack) => SetStack(g, th, globals, stack)
    case AWriteTable(t, body, vs) => WriteTable(g, t, body, vs)
    case AWriteForward(o, body, v) => WriteForward(g, o, body, v)
    case ASetUpval(u, v) => SetUpval(g, u, v)
    case ACapture(cl, slot, u) => Capture(g, cl, slot, u)
    case ANewUpval(cl, u) => NewUpval(g, cl, u)
    case AClose(th, level) => CloseUpvals(g, th, level)
    case AResume(th) => g.(running := th)
    case ASetBasicMeta(i, v) => if i < |g.basicMetas| then g.(basicMetas := g.basicMetas[i := v]) else g
    case AResizeStrings(strings) => g.(strings := strings)
  }
}
