/** The sweep phases (lgc.cpp, sweeplist and freeobj) and the closing of upvalues that freeing
    a thread entails (lfunc.cpp, luaF_close; lgc.cpp, luaC_linkupval). */
module Sweeping {
  import opened Common
  import opened Heap
  import opened Collector

  /** `isdead`: the object carries the other white. */
  predicate HasOtherWhite(g: State, o: Id) {
    o in g.color && g.color[o] == White(!g.white)
  }

  /** Puts a new object in front of `rootgc`. A sweep that points at the list itself will meet
      the new object; one that has moved on will not. */
  function LinkRoot(g: State, o: Id): State {
    g.(rootgc := [o] + g.rootgc, sweepPos := if g.sweepPos == 0 then 0 else g.sweepPos + 1)
  }

  function Remove(s: seq<Id>, o: Id): (r: seq<Id>)
    ensures forall x :: x in r <==> x in s && x != o
    ensures |r| <= |s| && (o in s ==> |r| < |s|) && (NoRepeats(s) ==> NoRepeats(r))
  {
    if s == [] then []
    else
      var rest := Remove(s[1..], o);
      assert NoRepeats(s) ==> s[0] !in s[1..];
      if s[0] == o then rest else [s[0]] + rest
  }

  // ---------- Closing upvalues ----------

  /** `luaC_linkupval`, for the upvalue `u` just closed. */
  function LinkUpval(g: State, u: Id, v: Value): State {
    var g1 := LinkRoot(g, u);
    if u in g.color && g.color[u] == Gray then
      if g.phase == Propagate then MarkIn(g1.(color := g1.color[u := Black]), [v])
      else g1.(color := g1.color[u := White(g.white)])
    else g1
  }

  predicate CanClose(g: State, th: Id, level: nat) {
    && th in g.heap && g.heap[th].Thread? && g.heap[th].openUpvals != []
    && var u := g.heap[th].openUpvals[0];
       u in g.heap && g.heap[u].OpenUpval? && g.heap[u].slot >= level
  }

  /** Takes the first upvalue off the thread's open list: frees it if dead, closes it if not. */
  function CloseOne(g: State, th: Id): State
    requires CanClose(g, th, 0)
  {
    var t := g.heap[th];
    var u := t.openUpvals[0];
    var g1 := g.(heap := g.heap[th := t.(openUpvals := t.openUpvals[1..])], uvhead := Remove(g.uvhead, u));
    if HasOtherWhite(g, u) then g1.(heap := g1.heap - {u}, color := g1.color - {u})
    else
      var v := StackValue(g.heap, g.heap[u].thread, g.heap[u].slot);
      LinkUpval(g1.(heap := g1.heap[u := ClosedUpval(v)]), u, v)
  }

  function CloseUpvals(g: State, th: Id, level: nat): State
    decreases if th in g.heap && g.heap[th].Thread? then |g.heap[th].openUpvals| else 0
  {
    if CanClose(g, th, level) then CloseUpvals(CloseOne(g, th), th, level) else g
  }

  // ---------- Sweeping ----------

  function Survivors(g: State, s: seq<Id>): (r: seq<Id>)
    ensures forall o :: o in r <==> o in s && !IsDead(g, o)
    ensures NoRepeats(s) ==> NoRepeats(r)
  {
    if s == [] then []
    else
      var rest := Survivors(g, s[1..]);
      assert NoRepeats(s) ==> s[0] !in s[1..];
      if IsDead(g, s[0]) then rest else [s[0]] + rest
  }

  predicate Freed(g: State, s: seq<Id>, o: Id) {
    o in s && IsDead(g, o)
  }

  /** Frees the dead objects among `s`, and makes the others white for the next cycle. */
  function SweepIds(g: State, s: seq<Id>): State {
    g.(heap := map o | o in g.heap && !Freed(g, s, o) :: g.heap[o],
       color := map o | o in g.color && !Freed(g, s, o) :: if o in s then White(g.white) else g.color[o])
  }

  /** One bucket of the string table. */
  function SweepBucket(g: State): State
    requires g.sweepStr < |g.strings|
  {
    var b := g.strings[g.sweepStr];
    var g1 := SweepIds(g, b);
    g1.(strings := g.strings[g.sweepStr := Survivors(g, b)], sweepStr := g.sweepStr + 1,
        phase := if g.sweepStr + 1 >= |g.strings| then Sweep else g.phase)
  }

  /** The open upvalues of the thread `th`. */
  function SweepOpen(g: State, th: Id): State
    requires th in g.heap && g.heap[th].Thread?
  {
    var us := g.heap[th].openUpvals;
    var g1 := SweepIds(g, us);
    if th in g1.heap then
      g1.(heap := g1.heap[th := g.heap[th].(openUpvals := Survivors(g, us))],
          uvhead := Unfreed(g, us, g.uvhead))
    else g1
  }

  /** The part of `s` that sweeping `us` leaves. */
  function Unfreed(g: State, us: seq<Id>, s: seq<Id>): (r: seq<Id>)
    ensures forall o :: o in r <==> o in s && !Freed(g, us, o)
    ensures |r| <= |s|
  {
    if s == [] then []
    else
      var rest := Unfreed(g, us, s[1..]);
      if Freed(g, us, s[0]) then rest else [s[0]] + rest
  }

  /** Frees the object `o`; a thread closes its upvalues first. */
  function FreeRoot(g: State, o: Id): State {
    var g1 := CloseUpvals(g, o, 0);
    g1.(rootgc := Remove(g1.rootgc, o), heap := g1.heap - {o}, color := g1.color - {o})
  }

  /** The object that `sweepgc` points at. */
  function SweepOne(g: State): State
    requires g.sweepPos < |g.rootgc|
  {
    var o := g.rootgc[g.sweepPos];
    var g1 := if o in g.heap && g.heap[o].Thread? then SweepOpen(g, o) else g;
    if IsDead(g, o) then FreeRoot(g1, o)
    else g1.(color := g1.color[o := White(g.white)], sweepPos := g.sweepPos + 1)
  }

  function SweepRoots(g: State, count: nat): State
    decreases count
  {
    if count == 0 || g.sweepPos >= |g.rootgc| then g else SweepRoots(SweepOne(g), count - 1)
  }

  function SweepStep(g: State): State {
    var g1 := SweepRoots(g, GCSWEEPMAX);
    if g1.sweepPos >= |g1.rootgc| then g1.(phase := Finalize) else g1
  }
}
