/** The lists that upvalues are on, as they are linked (lfunc.cpp): each thread's open upvalues by
    their `next` fields, and all open upvalues in the ring that starts at `uvhead`. */
module UpvalueLists {
  import opened Common
  import opened Upvalues

  /** A pointer to an upvalue, to nothing, or to the head of the ring. */
  type Link = int

  const NULL: Link := -1
  const UVHEAD: Link := -2

  function First(us: seq<Id>): Link {
    if us == [] then NULL else us[0]
  }

  ghost predicate Chain(next: map<Link, Link>, head: Link, us: seq<Id>) {
    head == First(us) && forall i :: 0 <= i < |us| ==> us[i] in next && next[us[i]] == First(us[i + 1..])
  }

  /** The ring: its head, the upvalues, and the head again. */
  function Around(ring: seq<Id>, i: int): Link
    requires 0 <= i <= |ring| + 1
  {
    if 1 <= i <= |ring| then ring[i - 1] else UVHEAD
  }

  ghost predicate Ring(fwd: map<Link, Link>, bwd: map<Link, Link>, ring: seq<Id>) {
    NoRepeats(ring) && forall i :: 0 <= i <= |ring| ==> Linked(fwd, bwd, Around(ring, i), Around(ring, i + 1))
  }

  predicate Linked(fwd: map<Link, Link>, bwd: map<Link, Link>, a: Link, b: Link) {
    a in fwd && fwd[a] == b && b in bwd && bwd[b] == a
  }

  ghost predicate InRing(uv: map<Id, UpVal>, ring: seq<Id>) {
    forall u :: u in ring <==> u in uv && uv[u].Open?
  }

  /** A link in the middle of a chain is changed. */
  lemma ChainInsert(next: map<Link, Link>, us: seq<Id>, i: nat, u: Id)
    requires Chain(next, First(us), us) && i <= |us| && u !in us && NoRepeats(us)
    ensures var next' := (if i == 0 then next else next[us[i - 1] := u])[u := First(us[i..])];
            Chain(next', if i == 0 then u else us[0], us[..i] + [u] + us[i..])
  {
    var us': seq<Id> := us[..i] + [u] + us[i..];
    forall k | 0 <= k < |us'|
      ensures us'[k] in InsertedNext(next, us, i, u) && InsertedNext(next, us, i, u)[us'[k]] == First(us'[k + 1..])
    {
      if k < i {
        InsertedBefore(next, us, i, u, k);
      } else {
        InsertedBehind(next, us, i, u, k);
      }
    }
  }

  function InsertedNext(next: map<Link, Link>, us: seq<Id>, i: nat, u: Id): map<Link, Link>
    requires i <= |us|
  {
    (if i == 0 then next else next[us[i - 1] := u])[u := First(us[i..])]
  }

  lemma InsertedBefore(next: map<Link, Link>, us: seq<Id>, i: nat, u: Id, k: nat)
    requires Chain(next, First(us), us) && k < i <= |us| && u !in us && NoRepeats(us)
    ensures var us': seq<Id> := us[..i] + [u] + us[i..];
            us'[k] in InsertedNext(next, us, i, u) && InsertedNext(next, us, i, u)[us'[k]] == First(us'[k + 1..])
  {
    var us': seq<Id> := us[..i] + [u] + us[i..];
    assert us'[k] == us[k] && us[k] in us;
    FirstKept(us, i, k, u);
  }

  lemma InsertedBehind(next: map<Link, Link>, us: seq<Id>, i: nat, u: Id, k: nat)
    requires Chain(next, First(us), us) && i <= k <= |us| && u !in us && NoRepeats(us)
    ensures var us': seq<Id> := us[..i] + [u] + us[i..];
            us'[k] in InsertedNext(next, us, i, u) && InsertedNext(next, us, i, u)[us'[k]] == First(us'[k + 1..])
  {
    var us': seq<Id> := us[..i] + [u] + us[i..];
    if k == i {
      assert us'[k + 1..] == us[i..];
    } else {
      assert us'[k] == us[k - 1] && us[k - 1] in us && us'[k + 1..] == us[k..];
    }
  }

  lemma FirstKept(us: seq<Id>, i: nat, k: nat, u: Id)
    requires k < i <= |us|
    ensures First((us[..i] + [u] + us[i..])[k + 1..]) == if k + 1 < i then First(us[k + 1..]) else u
  {
    var us': seq<Id> := us[..i] + [u] + us[i..];
    assert us'[k + 1..][0] == us'[k + 1];
  }

  lemma ChainOther(next: map<Link, Link>, next': map<Link, Link>, head: Link, us: seq<Id>)
    requires Chain(next, head, us) && forall u :: u in us && u in next ==> u in next' && next'[u] == next[u]
    ensures Chain(next', head, us)
  {
  }

  lemma ChainRest(next: map<Link, Link>, us: seq<Id>)
    requires Chain(next, First(us), us) && us != []
    ensures us[0] in next && next[us[0]] == First(us[1..]) && Chain(next, next[us[0]], us[1..])
  {
    forall i | 0 <= i < |us[1..]|
      ensures us[1..][i] in next && next[us[1..][i]] == First(us[1..][i + 1..])
    {
      assert us[1..][i] == us[i + 1] && us[1..][i + 1..] == us[i + 2..];
    }
  }

  /** A new upvalue right after the head of the ring. */
  lemma RingInsert(fwd: map<Link, Link>, bwd: map<Link, Link>, ring: seq<Id>, u: Id)
    requires Ring(fwd, bwd, ring) && u !in ring
    ensures UVHEAD in fwd
    ensures var first := fwd[UVHEAD];
            Ring(fwd[u := first][UVHEAD := u], bwd[u := UVHEAD][first := u], [u] + ring)
  {
    assert Linked(fwd, bwd, Around(ring, 0), Around(ring, 1));
    var first := fwd[UVHEAD];
    var fwd', bwd', ring' := fwd[u := first][UVHEAD := u], bwd[u := UVHEAD][first := u], [u] + ring;
    forall i | 0 <= i <= |ring'|
      ensures Linked(fwd', bwd', Around(ring', i), Around(ring', i + 1))
    {
      if i >= 2 {
        assert Linked(fwd, bwd, Around(ring, i - 1), Around(ring, i));
        assert Around(ring', i) == ring[i - 2] && ring[i - 2] in ring;
        assert Around(ring', i + 1) == Around(ring, i);
        assert i <= |ring| ==> ring[i - 1] in ring && ring[i - 1] != ring[0];
      } else if i == 1 {
        assert Around(ring', 2) == Around(ring, 1) == first;
        assert ring != [] ==> ring[0] in ring;
      }
    }
  }

  function Without(ring: seq<Id>, k: nat): seq<Id>
    requires k < |ring|
  {
    ring[..k] + ring[k + 1..]
  }

  lemma WithoutMember(ring: seq<Id>, k: nat, x: Id)
    requires NoRepeats(ring) && k < |ring|
    ensures x in Without(ring, k) <==> x in ring && x != ring[k]
  {
    assert ring == ring[..k] + [ring[k]] + ring[k + 1..];
  }

  /** `unlinkupval`: the neighbours are linked to each other. */
  lemma RingRemove(fwd: map<Link, Link>, bwd: map<Link, Link>, ring: seq<Id>, k: nat)
    requires Ring(fwd, bwd, ring) && k < |ring|
    ensures var u := ring[k];
            && u in fwd && u in bwd && Ring(fwd[bwd[u] := fwd[u]], bwd[fwd[u] := bwd[u]], Without(ring, k))
  {
    var u, ring' := ring[k], Without(ring, k);
    assert Linked(fwd, bwd, Around(ring, k), Around(ring, k + 1)) &&
           Linked(fwd, bwd, Around(ring, k + 1), Around(ring, k + 2));
    var fwd', bwd' := fwd[bwd[u] := fwd[u]], bwd[fwd[u] := bwd[u]];
    forall i | 0 <= i <= |ring'|
      ensures Linked(fwd', bwd', Around(ring', i), Around(ring', i + 1))
    {
      AroundWithout(ring, k, i);
      AroundWithout(ring, k, i + 1);
      if i < k {
        assert Linked(fwd, bwd, Around(ring, i), Around(ring, i + 1));
        AroundDiffer(ring, i, k);
        AroundDiffer(ring, i + 1, k + 2);
      } else if i > k {
        assert Linked(fwd, bwd, Around(ring, i + 1), Around(ring, i + 2));
        AroundDiffer(ring, i + 1, k);
        AroundDiffer(ring, i + 2, k + 2);
      }
    }
  }

  lemma AroundWithout(ring: seq<Id>, k: nat, i: int)
    requires k < |ring| && 0 <= i <= |ring|
    ensures Around(Without(ring, k), i) == if i <= k then Around(ring, i) else Around(ring, i + 1)
  {
  }

  /** Two places of the ring hold the same only if both are the head. */
  lemma AroundDiffer(ring: seq<Id>, i: int, j: int)
    requires NoRepeats(ring) && 0 <= i <= |ring| + 1 && 0 <= j <= |ring| + 1 && i != j
    ensures Around(ring, i) == Around(ring, j) ==> {i, j} == {0, |ring| + 1}
  {
  }

  ghost predicate Chained(next: map<Link, Link>, heads: map<Th, Link>, open: map<Th, seq<Id>>) {
    heads.Keys == open.Keys && forall th :: th in open ==> Chain(next, heads[th], open[th])
  }

  class Threads {
    var stacks: map<Th, seq<Value>>
    var openupval: map<Th, Link>
    var next: map<Link, Link>
    var uv: map<Id, UpVal>
    var fwd: map<Link, Link>       // `u.l.next`
    var bwd: map<Link, Link>       // `u.l.prev`
    var names: map<nat, Id>
    ghost var open: map<Th, seq<Id>>
    ghost var ring: seq<Id>

    ghost function State(): State
      reads this
    {
      Upvalues.State(stacks, open, uv, names)
    }

    /** Both kinds of lists hold what they should: the thread's list its open upvalues, the ring all. */
    ghost predicate Valid()
      reads this
    {
      Upvalues.Valid(State()) && Chained(next, openupval, open) && Ring(fwd, bwd, ring) && InRing(uv, ring)
    }

    constructor (stacks: map<Th, seq<Value>>)
      ensures Valid() && uv == map[] && names == map[] && this.stacks == stacks
    {
      this.stacks := stacks;
      openupval := map th | th in stacks :: NULL;
      open := map th | th in stacks :: [];
      next, uv, names := map[], map[], map[];
      fwd, bwd := map[UVHEAD := UVHEAD], map[UVHEAD := UVHEAD];
      ring := [];
    }

    lemma OpenDistinct(th: Th)
      requires Upvalues.Valid(State()) && th in open
      ensures NoRepeats(open[th]) && forall i :: 0 <= i < |open[th]| ==> OpenAt(uv, open[th][i], th)
    {
      assert Descending(uv, open[th], th);
    }

    /** The loop of `luaF_findupval`: `p` is where it stops, `prev` the upvalue before. */
    method Search(th: Th, level: nat) returns (prev: Link, p: Link, ghost k: nat)
      requires Valid() && th in open
      ensures k == Scan(uv, open[th], th, level) && k <= |open[th]|
      ensures p == First(open[th][k..]) && prev == (if k == 0 then NULL else open[th][k - 1])
    {
      ghost var us: seq<Id> := open[th];
      OpenDistinct(th);
      hide Upvalues.Valid, Ring, InRing;
      k := 0;
      prev, p := NULL, openupval[th];
      while p != NULL && uv[p].slot > level
        invariant 0 <= k <= |us| && p == First(us[k..]) && prev == (if k == 0 then NULL else us[k - 1])
        invariant Scan(uv, us, th, level) == k + Scan(uv, us[k..], th, level)
        invariant p != NULL ==> k < |us| && OpenAt(uv, us[k], th)
        decreases |us| - k
      {
        assert us[k..][0] == us[k] && us[k..][1..] == us[k + 1..];
        prev := p;
        p := next[p];
        k := k + 1;
        assert k < |us| ==> us[k..][0] == us[k] && OpenAt(uv, us[k], th);
      }
      assert k < |us| ==> us[k..][0] == us[k] && OpenAt(uv, us[k], th);
    }

    /** `luaF_findupval`. */
    method FindUpval(th: Th, level: nat, u: Id) returns (found: Id)
      requires Valid() && IsSlot(State(), th, level) && u !in uv
      modifies `openupval, `next, `uv, `fwd, `bwd, `open, `ring
      ensures Valid()
      ensures State() == Upvalues.FindUpval(old(State()), th, level, u).0
      ensures found == Upvalues.FindUpval(old(State()), th, level, u).1
    {
      hide Upvalues.Valid, Ring, Chained, InRing, Scan, Upvalues.FindUpval, Found, OpenAt;
      SlotOpen(th, level);
      var prev, p;
      ghost var k;
      prev, p, k := Search(th, level);
      FindForm(th, level, u, k);
      AtStop(th, level, p, k);
      if p != NULL && uv[p].slot == level {
        found := p;
      } else {
        InsertOpen(th, level, u, prev, p, k);
        found := u;
      }
    }

    lemma SlotOpen(th: Th, level: nat)
      requires Valid() && IsSlot(State(), th, level)
      ensures th in open
    {
    }

    lemma FindForm(th: Th, level: nat, u: Id, k: nat)
      requires Valid() && IsSlot(State(), th, level) && u !in uv && k == Scan(uv, open[th], th, level)
      ensures var r := Upvalues.FindUpval(State(), th, level, u);
              && Upvalues.Valid(r.0) && k <= |open[th]|
              && r == if Found(uv, open[th], k, th, level) then (State(), open[th][k])
                      else (State().(open := open[th := open[th][..k] + [u] + open[th][k..]],
                                     uv := uv[u := Open(th, level)]), u)
    {
      FindExactly(State(), th, level, u);
    }

    lemma AtStop(th: Th, level: nat, p: Link, k: nat)
      requires Valid() && th in open && k == Scan(uv, open[th], th, level) && k <= |open[th]| &&
               p == First(open[th][k..])
      ensures p != NULL ==> k < |open[th]| && p == open[th][k] && OpenAt(uv, open[th][k], th)
      ensures (p != NULL && uv[p as Id].slot == level) <==> Found(uv, open[th], k, th, level)
    {
      OpenDistinct(th);
      if k < |open[th]| {
        assert open[th][k..][0] == open[th][k];
      }
    }

    /** Makes an open upvalue and links it. */
    method InsertOpen(th: Th, level: nat, u: Id, prev: Link, p: Link, ghost k: nat)
      requires Valid() && th in open && u !in uv && k <= |open[th]|
      requires prev == (if k == 0 then NULL else open[th][k - 1]) && p == First(open[th][k..])
      modifies `openupval, `next, `uv, `fwd, `bwd, `open, `ring
      ensures Chained(next, openupval, open) && Ring(fwd, bwd, ring) && InRing(uv, ring)
      ensures uv == old(uv)[u := Open(th, level)]
      ensures open == old(open)[th := old(open)[th][..k] + [u] + old(open)[th][k..]]
    {
      UnusedLinks(u);
      AllOpenAt();
      OneMoreInRing(uv, ring, u, Open(th, level));
      hide Upvalues.Valid, Ring, Chain, NoRepeats, InRing, OpenAt;
      LinkOpen(th, u, prev, p, k);
      LinkRing(u);
      uv := uv[u := Open(th, level)];
    }

    static lemma OneMoreInRing(uv: map<Id, UpVal>, ring: seq<Id>, u: Id, x: UpVal)
      requires InRing(uv, ring) && x.Open?
      ensures InRing(uv[u := x], [u] + ring)
    {
    }

    lemma AllOpenAt()
      requires Upvalues.Valid(State())
      ensures forall t :: t in open ==>
                NoRepeats(open[t]) && forall i :: 0 <= i < |open[t]| ==> OpenAt(uv, open[t][i], t)
    {
      forall t | t in open
        ensures NoRepeats(open[t]) && forall i :: 0 <= i < |open[t]| ==> OpenAt(uv, open[t][i], t)
      {
        OpenDistinct(t);
      }
    }

    /** Puts `u` into the ring, after its head. */
    method LinkRing(u: Id)
      requires Ring(fwd, bwd, ring) && u !in ring
      modifies `fwd, `bwd, `ring
      ensures Ring(fwd, bwd, ring) && ring == [u] + old(ring)
    {
      RingInsert(fwd, bwd, ring, u);
      var first := fwd[UVHEAD];
      fwd, bwd := fwd[u := first][UVHEAD := u], bwd[u := UVHEAD][first := u];
      ring := [u] + ring;
    }

    /** Puts `u` into the list of `th`, between `prev` and `p`. */
    method LinkOpen(th: Th, u: Id, prev: Link, p: Link, ghost k: nat)
      requires Chained(next, openupval, open) && th in open && k <= |open[th]| &&
               forall t :: t in open ==> u !in open[t]
      requires forall t :: t in open ==>
                 NoRepeats(open[t]) && forall i :: 0 <= i < |open[t]| ==> OpenAt(uv, open[t][i], t)
      requires prev == (if k == 0 then NULL else open[th][k - 1]) && p == First(open[th][k..])
      modifies `openupval, `next, `open
      ensures Chained(next, openupval, open) && open == old(open)[th := old(open)[th][..k] + [u] + old(open)[th][k..]]
    {
      hide InsertedNext, OpenAt;
      ghost var us: seq<Id> := open[th];
      ChainInsert(next, us, k, u);
      if prev == NULL {
        openupval := openupval[th := u];
      } else {
        next := next[prev := u];
      }
      next := next[u := p];
      open := open[th := us[..k] + [u] + us[k..]];
      OthersChained(old(next), old(openupval), old(open), uv, th, u, k);
    }

    lemma UnusedLinks(u: Id)
      requires Valid() && u !in uv
      ensures u !in ring && forall th :: th in open ==> u !in open[th]
    {
      forall th | th in open
        ensures u !in open[th]
      {
        OpenDistinct(th);
      }
    }

    /** The lists of the other threads are untouched: no upvalue is on two. */
    lemma OthersChained(next0: map<Link, Link>, heads0: map<Th, Link>, open0: map<Th, seq<Id>>, uv0: map<Id, UpVal>,
                        th: Th, u: Id, k: nat)
      requires heads0.Keys == open0.Keys && th in open0 && k <= |open0[th]|
      requires forall t :: t in open0 ==> Chain(next0, heads0[t], open0[t]) && u !in open0[t]
      requires forall t :: t in open0 ==> forall i :: 0 <= i < |open0[t]| ==> OpenAt(uv0, open0[t][i], t)
      requires openupval.Keys == open.Keys == open0.Keys
      requires forall t :: t in open0 && t != th ==> openupval[t] == heads0[t] && open[t] == open0[t]
      requires forall x :: x in next0 && x != u && !(k > 0 && x == open0[th][k - 1]) ==>
               x in next && next[x] == next0[x]
      requires Chain(next, openupval[th], open[th])
      ensures Chained(next, openupval, open)
    {
      forall t | t in open
        ensures Chain(next, openupval[t], open[t])
      {
        if t != th {
          forall x | x in open0[t] && x in next0
            ensures x in next && next[x] == next0[x]
          {
            var i :| 0 <= i < |open0[t]| && open0[t][i] == x;
            assert OpenAt(uv0, open0[t][i], t);
            assert k > 0 ==> OpenAt(uv0, open0[th][k - 1], th);
          }
          ChainOther(next0, next, heads0[t], open0[t]);
        }
      }
    }

    /** `unlinkupval`. */
    method UnlinkUpval(u: Id, ghost k: nat)
      requires Ring(fwd, bwd, ring) && k < |ring| && ring[k] == u
      modifies `fwd, `bwd, `ring
      ensures Ring(fwd, bwd, ring) && ring == Without(old(ring), k) && NoRepeats(old(ring))
    {
      RingRemove(fwd, bwd, ring, k);
      var p, n := bwd[u], fwd[u];
      bwd := bwd[n := p];
      fwd := fwd[p := n];
      ring := Without(ring, k);
    }

    /** One turn of `luaF_close`, for a live upvalue. */
    method CloseFirst(th: Th)
      requires Valid() && CanClose(State(), th, 0)
      modifies `openupval, `uv, `fwd, `bwd, `open, `ring
      ensures Valid() && State() == CloseOne(old(State()), th)
    {
      hide Upvalues.Valid, Ring, Chained, InRing, NoRepeats, CanClose, CloseOne;
      FirstFacts(th);
      var u := openupval[th];
      ghost var k := RingIndex(u);
      TakeFirst(th);
      MoveValue(u, th, k);
      assert State() == CloseOne(old(State()), th);
    }

    /** Takes the upvalue `u` out of the ring and gives it its value. */
    method MoveValue(u: Id, th: Th, ghost k: nat)
      requires Ring(fwd, bwd, ring) && InRing(uv, ring) && k < |ring| && ring[k] == u
      requires u in uv && uv[u].Open? && th in stacks && uv[u].slot < |stacks[th]|
      modifies `uv, `fwd, `bwd, `ring
      ensures Ring(fwd, bwd, ring) && InRing(uv, ring)
      ensures uv == old(uv)[u := Closed(stacks[th][old(uv)[u].slot])]
    {
      hide Ring;
      UnlinkUpval(u, k);
      uv := uv[u := Closed(stacks[th][uv[u].slot])];
      StillInRing(old(uv), uv, old(ring), k, u);
    }

    lemma FirstFacts(th: Th)
      requires Valid() && CanClose(State(), th, 0)
      ensures th in open && open[th] != [] && th in openupval && openupval[th] == open[th][0] && th in stacks
      ensures var u := open[th][0];
              && u in uv && uv[u].Open? && uv[u].slot < |stacks[th]|
              && CloseOne(State(), th) == State().(open := open[th := open[th][1..]],
                                                   uv := uv[u := Closed(stacks[th][uv[u].slot])])
              && Upvalues.Valid(CloseOne(State(), th))
    {
      CloseOneValid(State(), th);
    }

    lemma RingIndex(u: Id) returns (k: nat)
      requires InRing(uv, ring) && u in uv && uv[u].Open?
      ensures k < |ring| && ring[k] == u
    {
      assert u in ring;
      k :| 0 <= k < |ring| && ring[k] == u;
    }

    static lemma StillInRing(uv0: map<Id, UpVal>, uv: map<Id, UpVal>, ring: seq<Id>, k: nat, u: Id)
      requires InRing(uv0, ring) && k < |ring| && ring[k] == u && NoRepeats(ring)
      requires u in uv0 && u in uv && uv[u].Closed? && uv == uv0[u := uv[u]]
      ensures InRing(uv, Without(ring, k))
    {
      forall x
        ensures x in Without(ring, k) <==> x in uv && uv[x].Open?
      {
        WithoutMember(ring, k, x);
      }
    }

    /** `L->openupval = uv->next`. */
    method TakeFirst(th: Th)
      requires Chained(next, openupval, open) && th in open && open[th] != []
      modifies `openupval, `open
      ensures Chained(next, openupval, open) && open == old(open)[th := old(open)[th][1..]]
    {
      ghost var us: seq<Id> := open[th];
      ChainRest(next, us);
      openupval := openupval[th := next[openupval[th]]];
      open := open[th := us[1..]];
    }

    /** `luaF_close`. */
    method Close(th: Th, level: nat)
      requires Valid() && th in open
      modifies `openupval, `uv, `fwd, `bwd, `open, `ring
      ensures Valid() && State() == Upvalues.Close(old(State()), th, level)
      ensures ClosedFrom(old(State()), uv, th, level)
    {
      hide Upvalues.Valid, Ring, Chained, InRing, CanClose, ClosedFrom;
      CloseExactly(State(), th, level);
      HeadIsFirst(th);
      while openupval[th] != NULL && uv[openupval[th] as Id].slot >= level
        invariant Valid() && th in open && HeadIs(th)
        invariant Upvalues.Close(State(), th, level) == Upvalues.Close(old(State()), th, level)
        decreases |open[th]|
      {
        FirstIsHighest(State(), th);
        ghost var before := State();
        CloseFirst(th);
        Closes(before, th, level);
        HeadIsFirst(th);
      }
      Closes(State(), th, level);
    }

    /** The head of the list is its first member, an open upvalue. */
    ghost predicate HeadIs(th: Th)
      reads this
    {
      && th in openupval && th in open && (openupval[th] == NULL <==> open[th] == [])
      && (openupval[th] != NULL ==>
            openupval[th] >= 0 && openupval[th] == open[th][0] && openupval[th] in uv && uv[openupval[th] as Id].Open?)
    }

    lemma HeadIsFirst(th: Th)
      requires Valid() && th in open
      ensures HeadIs(th)
    {
      if open[th] != [] {
        FirstIsHighest(State(), th);
      }
    }

    /** OP_GETUPVAL. */
    method GetUpval(u: Id) returns (v: Value)
      requires Valid() && u in uv
      ensures v == ReadUpval(State(), u)
    {
      match uv[u]
      case Open(th, i) => v := stacks[th][i];
      case Closed(x) => v := x;
    }

    /** OP_SETUPVAL. */
    method SetUpval(u: Id, v: Value)
      requires Valid() && u in uv
      modifies `stacks, `uv
      ensures Valid() && State() == WriteUpval(old(State()), u, v)
    {
      if uv[u].Open? {
        SetSlot(u, v);
      } else {
        SetClosed(u, v);
      }
    }

    method SetSlot(u: Id, v: Value)
      requires Valid() && u in uv && uv[u].Open?
      modifies `stacks
      ensures Valid() && State() == WriteUpval(old(State()), u, v)
    {
      hide First;
      WriteUpvalValid(State(), u, v);
      OpenHasSlot(u);
      hide Upvalues.Valid, Ring, Chained, InRing;
      var th, i := uv[u].th, uv[u].slot;
      stacks := stacks[th := stacks[th][i := v]];
      assert State() == WriteUpval(old(State()), u, v);
    }

    lemma OpenHasSlot(u: Id)
      requires Valid() && u in uv && uv[u].Open?
      ensures IsSlot(State(), uv[u].th, uv[u].slot)
    {
    }

    method SetClosed(u: Id, v: Value)
      requires Valid() && u in uv && uv[u].Closed?
      modifies `uv
      ensures Valid() && State() == WriteUpval(old(State()), u, v)
    {
      WriteUpvalValid(State(), u, v);
      StaysInRing(u, v);
      hide Upvalues.Valid, Ring, Chained, InRing;
      uv := uv[u := Closed(v)];
      assert State() == WriteUpval(old(State()), u, v);
    }

    lemma StaysInRing(u: Id, v: Value)
      requires InRing(uv, ring) && u in uv && uv[u].Closed?
      ensures InRing(uv[u := Closed(v)], ring)
    {
    }
  }
}
