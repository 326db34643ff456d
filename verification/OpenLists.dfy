/** The open upvalues of a thread in the collector's heap (lfunc.cpp, luaF_findupval and luaF_close): there is one
    at most for a slot, the same one is found again, and closing takes exactly those from a level on. */
module OpenLists {
  import opened Heap
  import opened Marking
  import opened Collector
  import opened Sweeping
  import opened Mutator

  /** The list of the thread `th` holds open upvalues of its stack, from the highest slot down. */
  ghost predicate Descending(h: Objects, th: Id) {
    && th in h && h[th].Thread?
    && var us := h[th].openUpvals;
       && (forall i :: 0 <= i < |us| ==> us[i] in h && h[us[i]].OpenUpval? && h[us[i]].thread == th)
       && forall i, j :: 0 <= i < j < |us| ==> h[us[i]].slot > h[us[j]].slot
  }

  /** `x` is an open upvalue of that list, of the given slot. */
  predicate OpenFor(h: Objects, th: Id, slot: nat, x: Id) {
    th in h && h[th].Thread? && x in h[th].openUpvals && x in h && h[x] == OpenUpval(th, slot)
  }

  /** Where the walk down the list stops. */
  lemma {:induction false} ScanStops(h: Objects, us: seq<Id>, slot: nat)
    ensures var i := ScanOpen(h, us, slot);
            && (forall k :: 0 <= k < i ==> us[k] in h && h[us[k]].OpenUpval? && h[us[k]].slot > slot)
            && (i < |us| && us[i] in h && h[us[i]].OpenUpval? ==> h[us[i]].slot <= slot)
    decreases |us|
  {
    if us != [] && us[0] in h && h[us[0]].OpenUpval? && h[us[0]].slot > slot {
      ScanStops(h, us[1..], slot);
    }
  }

  lemma OneForSlot(h: Objects, th: Id, slot: nat, x: Id, y: Id)
    requires Descending(h, th) && OpenFor(h, th, slot, x) && OpenFor(h, th, slot, y)
    ensures x == y
  {
    var us := h[th].openUpvals;
    var i :| 0 <= i < |us| && us[i] == x;
    var j :| 0 <= j < |us| && us[j] == y;
    assert h[us[i]].slot == h[us[j]].slot;
  }

  /** If the walk stops elsewhere, no upvalue is open for the slot. */
  lemma NoneForSlot(h: Objects, th: Id, slot: nat, i: nat, y: Id)
    requires Descending(h, th) && i <= |h[th].openUpvals|
    requires forall k :: 0 <= k < i ==> h[h[th].openUpvals[k]].slot > slot
    requires i < |h[th].openUpvals| ==> h[h[th].openUpvals[i]].slot < slot
    ensures !OpenFor(h, th, slot, y)
  {
    var us := h[th].openUpvals;
    forall k | 0 <= k < |us|
      ensures h[us[k]].slot != slot
    {
      if k > i {
        assert h[us[i]].slot > h[us[k]].slot;
      }
    }
  }

  /** The new upvalue comes between the higher slots and the lower ones. */
  lemma Added(g: State, th: Id, slot: nat, u: Id, i: nat)
    requires Descending(g.heap, th) && u !in g.heap && i <= |g.heap[th].openUpvals|
    requires forall k :: 0 <= k < i ==> g.heap[g.heap[th].openUpvals[k]].slot > slot
    requires i < |g.heap[th].openUpvals| ==> g.heap[g.heap[th].openUpvals[i]].slot < slot
    ensures var h := AddOpen(g, th, slot, u, i).heap;
            && Descending(h, th) && OpenFor(h, th, slot, u)
            && forall n: nat, y :: y != u ==> (OpenFor(h, th, n, y) <==> OpenFor(g.heap, th, n, y))
  {
    var us, h := g.heap[th].openUpvals, AddOpen(g, th, slot, u, i).heap;
    var vs := us[..i] + [u] + us[i..];
    assert vs[i] == u;
    assert forall y :: y in vs <==> y in us || y == u;
    AddedInOrder(g.heap, h, th, slot, u, i);
  }

  lemma AddedInOrder(h: Objects, h': Objects, th: Id, slot: nat, u: Id, i: nat)
    requires Descending(h, th) && u !in h && i <= |h[th].openUpvals|
    requires forall k :: 0 <= k < i ==> h[h[th].openUpvals[k]].slot > slot
    requires i < |h[th].openUpvals| ==> h[h[th].openUpvals[i]].slot < slot
    requires forall x :: x in h && x != th ==> x in h' && h'[x] == h[x]
    requires u in h' && h'[u] == OpenUpval(th, slot) && th in h' && h'[th].Thread?
    requires h'[th].openUpvals == h[th].openUpvals[..i] + [u] + h[th].openUpvals[i..]
    ensures Descending(h', th)
  {
    var us, vs := h[th].openUpvals, h'[th].openUpvals;
    forall k | i <= k < |us|
      ensures h[us[k]].slot < slot
    {
      assert k > i ==> h[us[i]].slot > h[us[k]].slot;
    }
    forall k | 0 <= k < |vs|
      ensures vs[k] == if k < i then us[k] else if k == i then u else us[k - 1]
      ensures vs[k] in h' && h'[vs[k]].OpenUpval? && h'[vs[k]].thread == th
    {
    }
  }

  /** The upvalue of the slot is the one that is open for it; only if there is none is there a new one, and all
      others stay. It is not dead in either case. */
  lemma FoundExactly(g: State, th: Id, slot: nat, u: Id)
    requires Descending(g.heap, th) && u !in g.heap
    ensures var (r, x) := FindUpval(g, th, slot, u);
            && OpenFor(r.heap, th, slot, x) && !HasOtherWhite(r, x) && Descending(r.heap, th)
            && (forall y :: OpenFor(g.heap, th, slot, y) ==> x == y && r.heap == g.heap)
            && ((forall y :: !OpenFor(g.heap, th, slot, y)) ==> x == u)
            && (forall n: nat, y :: y != u ==> (OpenFor(r.heap, th, n, y) <==> OpenFor(g.heap, th, n, y)))
  {
    var us := g.heap[th].openUpvals;
    var i := ScanOpen(g.heap, us, slot);
    ScanStops(g.heap, us, slot);
    if FoundOpen(g.heap, us, slot, i) {
      assert OpenFor(g.heap, th, slot, us[i]);
      hide OpenFor, Descending;
      forall y | OpenFor(g.heap, th, slot, y)
        ensures y == us[i]
      {
        OneForSlot(g.heap, th, slot, us[i], y);
      }
    } else {
      hide OpenFor;
      forall y
        ensures !OpenFor(g.heap, th, slot, y)
      {
        NoneForSlot(g.heap, th, slot, i, y);
      }
      Added(g, th, slot, u, i);
    }
  }

  // ---------- Closing ----------

  /** What has become of the open upvalue `x` when the slots from `level` on are closed: it has the value of its
      slot, unless it was dead and has been freed. */
  ghost predicate ClosedFrom(g: State, r: State, th: Id, level: nat, x: Id)
    requires x in g.heap && g.heap[x].OpenUpval?
  {
    var slot := g.heap[x].slot;
    if slot < level then OpenFor(r.heap, th, slot, x)
    else if x in r.heap then r.heap[x] == ClosedUpval(StackValue(g.heap, th, slot))
    else HasOtherWhite(g, x)
  }

  /** Nothing else has changed, and nothing else is dead. */
  ghost predicate OthersSame(g: State, r: State, th: Id)
    requires th in g.heap && g.heap[th].Thread?
  {
    && th in r.heap && r.heap[th] == g.heap[th].(openUpvals := if r.heap[th].Thread? then r.heap[th].openUpvals else [])
    && (forall y :: y in g.heap && y != th && y !in g.heap[th].openUpvals ==> y in r.heap && r.heap[y] == g.heap[y])
    && (forall y :: y in r.heap ==> y in g.heap)
    && forall y :: HasOtherWhite(r, y) ==> HasOtherWhite(g, y)
  }

  lemma LinkedSame(g: State, u: Id, v: Value)
    ensures LinkUpval(g, u, v).heap == g.heap
    ensures forall y :: HasOtherWhite(LinkUpval(g, u, v), y) ==> HasOtherWhite(g, y)
  {
    var c := g.color[u := Black];
    MarkAllContinues(g.heap, Marks(c, g.gray), [v]);
  }

  /** The upvalue of the highest slot. */
  lemma OneClosed(g: State, th: Id)
    requires Descending(g.heap, th) && CanClose(g, th, 0)
    ensures var r, u := CloseOne(g, th), g.heap[th].openUpvals[0];
            && Descending(r.heap, th) && r.heap[th] == g.heap[th].(openUpvals := g.heap[th].openUpvals[1..])
            && ClosedFrom(g, r, th, 0, u)
            && (forall y :: y in g.heap && y != th && y != u ==> y in r.heap && r.heap[y] == g.heap[y])
            && (forall y :: y in r.heap ==> y in g.heap)
            && forall y :: HasOtherWhite(r, y) ==> HasOtherWhite(g, y)
  {
    hide LinkUpval, Remove;
    var t := g.heap[th];
    var u := t.openUpvals[0];
    var g1 := g.(heap := g.heap[th := t.(openUpvals := t.openUpvals[1..])], uvhead := Remove(g.uvhead, u));
    var v := StackValue(g.heap, g.heap[u].thread, g.heap[u].slot);
    LinkedSame(g1.(heap := g1.heap[u := ClosedUpval(v)]), u, v);
    forall i | 0 < i < |t.openUpvals|
      ensures t.openUpvals[i] != u
    {
      assert g.heap[t.openUpvals[0]].slot > g.heap[t.openUpvals[i]].slot;
    }
  }

  lemma NoneToClose(g: State, th: Id, level: nat, x: Id)
    requires Descending(g.heap, th) && !CanClose(g, th, level) && x in g.heap[th].openUpvals
    ensures ClosedFrom(g, g, th, level, x)
  {
    var us := g.heap[th].openUpvals;
    var i :| 0 <= i < |us| && us[i] == x;
    assert g.heap[us[0]].slot >= g.heap[us[i]].slot;
  }

  /** The others are closed after the first. */
  lemma ClosedRest(g: State, g1: State, r: State, th: Id, level: nat, x: Id)
    requires Descending(g.heap, th) && CanClose(g, th, level) && x in g.heap[th].openUpvals
    requires Descending(g1.heap, th)
    requires g1.heap[th] == g.heap[th].(openUpvals := g.heap[th].openUpvals[1..])
    requires ClosedFrom(g, g1, th, 0, g.heap[th].openUpvals[0]) && OthersSame(g1, r, th)
    requires forall y :: y in g.heap && y != th && y != g.heap[th].openUpvals[0] ==>
                           y in g1.heap && g1.heap[y] == g.heap[y]
    requires forall y :: HasOtherWhite(g1, y) ==> HasOtherWhite(g, y)
    requires x in g1.heap[th].openUpvals ==> ClosedFrom(g1, r, th, level, x)
    ensures ClosedFrom(g, r, th, level, x)
  {
    hide HasOtherWhite;
    var us := g.heap[th].openUpvals;
    var i :| 0 <= i < |us| && us[i] == x;
    if i == 0 {
      NotAgain(g.heap, th);
    } else {
      assert us[1..][i - 1] == x;
      assert x != us[0] && x != th;
    }
  }

  lemma NotAgain(h: Objects, th: Id)
    requires Descending(h, th) && h[th].openUpvals != []
    ensures h[th].openUpvals[0] !in h[th].openUpvals[1..]
  {
    var us := h[th].openUpvals;
    forall i | 0 < i < |us|
      ensures us[i] != us[0]
    {
      assert h[us[0]].slot > h[us[i]].slot;
    }
  }

  lemma RestSame(g: State, g1: State, r: State, th: Id)
    requires Descending(g.heap, th) && g.heap[th].openUpvals != []
    requires th in g1.heap && g1.heap[th] == g.heap[th].(openUpvals := g.heap[th].openUpvals[1..])
    requires forall y :: y in g.heap && y != th && y != g.heap[th].openUpvals[0] ==>
                           y in g1.heap && g1.heap[y] == g.heap[y]
    requires forall y :: y in g1.heap ==> y in g.heap
    requires (forall y :: HasOtherWhite(g1, y) ==> HasOtherWhite(g, y)) && OthersSame(g1, r, th)
    ensures OthersSame(g, r, th)
  {
    hide HasOtherWhite;
  }

  /** Closing the slots from `level` on closes exactly their upvalues, each with the value of its slot. */
  lemma {:induction false} ClosedExactly(g: State, th: Id, level: nat)
    requires Descending(g.heap, th)
    ensures var r := CloseUpvals(g, th, level);
            && Descending(r.heap, th) && OthersSame(g, r, th)
            && forall x :: x in g.heap[th].openUpvals ==> ClosedFrom(g, r, th, level, x)
    decreases |g.heap[th].openUpvals|
  {
    hide CloseOne, OthersSame, HasOtherWhite;
    var r := CloseUpvals(g, th, level);
    if CanClose(g, th, level) {
      var g1 := CloseOne(g, th);
      OneClosed(g, th);
      ClosedExactly(g1, th, level);
      RestSame(g, g1, r, th);
      forall x | x in g.heap[th].openUpvals
        ensures ClosedFrom(g, r, th, level, x)
      {
        ClosedRest(g, g1, r, th, level, x);
      }
    } else {
      SameItself(g, th);
      forall x | x in g.heap[th].openUpvals
        ensures ClosedFrom(g, r, th, level, x)
      {
        NoneToClose(g, th, level, x);
      }
    }
  }

  lemma SameItself(g: State, th: Id)
    requires th in g.heap && g.heap[th].Thread?
    ensures OthersSame(g, g, th)
  {
  }
}
