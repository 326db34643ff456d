/** References (lauxlib.cpp, luaL_ref and luaL_unref): a table that hands out integers for values
    and keeps the integers given back in a free list threaded through its own fields. */
module References {
  import opened Common
  import opened TableSizes
  import opened HashPart
  import opened TableContents
  import opened LuaTables

  const FREELIST_REF := 0
  const LUA_REFNIL := -1

  function FieldAt(m: map<Key, Value>, r: int): Value {
    if KInt(r) in m then m[KInt(r)] else Nil
  }

  /** The head of the free list; zero is none. */
  function HeadOf(m: map<Key, Value>): int {
    if FieldAt(m, FREELIST_REF) == Nil then 0 else FieldAt(m, FREELIST_REF).v
  }

  /** The field `v` leads to cell `i` of the free list, or ends it. */
  predicate Leads(v: Value, free: seq<int>, i: nat) {
    if i < |free| then v == Of(free[i]) else v == Nil || v == Of(0)
  }

  ghost predicate Linked(m: map<Key, Value>, free: seq<int>) {
    && Leads(FieldAt(m, FREELIST_REF), free, 0)
    && forall i :: 0 <= i < |free| ==> Leads(FieldAt(m, free[i]), free, i + 1)
  }

  ghost predicate Held(m: map<Key, Value>, live: map<int, Value>) {
    forall r :: r in live ==> live[r] != Nil && FieldAt(m, r) == live[r]
  }

  /** The table `m` holds the values `live` under their references, and the free references `free`,
      linked from field 0. */
  ghost predicate Refs(m: map<Key, Value>, live: map<int, Value>, free: seq<int>) {
    && NoRepeats(free) && Linked(m, free) && Held(m, live)
    && (forall r :: r in live ==> r > 0 && r !in free) && (forall r :: r in free ==> r > 0)
  }

  /** The table after the free reference `r`, the head of the list, has been taken for `v`. */
  function Taken(m: map<Key, Value>, r: int, v: Value): map<Key, Value> {
    Put(Put(m, KInt(FREELIST_REF), FieldAt(m, r)), KInt(r), v)
  }

  /** The table after `r` has been given back. */
  function Released(m: map<Key, Value>, r: int): map<Key, Value> {
    Put(Put(m, KInt(r), FieldAt(m, FREELIST_REF)), KInt(FREELIST_REF), Of(r))
  }

  class RefTable {
    const t: LuaTable
    ghost var live: map<int, Value>
    ghost var free: seq<int>

    ghost predicate Valid()
      reads this, t
    {
      t.Valid() && Refs(t.contents, live, free)
    }

    constructor (hash: Hash)
      ensures Valid() && live == map[] && free == [] && fresh(t)
    {
      t := new LuaTable(hash, 0, 0);
      live, free := map[], [];
    }

    /** `luaL_ref`: a reference to `v` that no live reference equals. Fails only when the table
        cannot grow. */
    method Ref(v: Value) returns (r: int, ok: bool)
      requires Valid()
      modifies this, t
      ensures v == Nil ==> ok && r == LUA_REFNIL && Valid() && live == old(live)
      ensures v != Nil && ok ==> Valid() && r > 0 && r !in old(live) && live == old(live)[r := v]
      ensures v != Nil && ok && old(HeadOf(t.contents)) != 0 ==>
                r == old(HeadOf(t.contents)) && t.contents == Taken(old(t.contents), r, v)
      ensures !ok ==> old(|t.contents|) >= MAXASIZE
    {
      ok := true;
      if v == Nil {
        return LUA_REFNIL, true;
      }
      var head := t.RawGetI(FREELIST_REF);
      r := if head == Nil then 0 else head.v;
      HeadIs(t.contents, live, free);
      if r != 0 {
        ok := TakeFree(r, v);
      } else {
        r, ok := TakeNew(v);
      }
    }

    method TakeFree(r: int, v: Value) returns (ok: bool)
      requires Valid() && free != [] && r == free[0] && v != Nil
      modifies this, t
      ensures ok ==> Valid() && r > 0 && r !in old(live) && live == old(live)[r := v]
      ensures ok ==> t.contents == Taken(old(t.contents), r, v)
      ensures !ok ==> old(|t.contents|) >= MAXASIZE
    {
      Popped(t.contents, live, free, v);
      HeadIs(t.contents, live, free);
      hide Refs, LuaTable.Valid, Put;
      var next := t.RawGetI(r);
      NoLarger(t.contents, KInt(FREELIST_REF), next);
      ok := t.RawSetI(FREELIST_REF, next);
      ok := t.RawSetI(r, v);
      free := free[1..];
      live := live[r := v];
    }

    method TakeNew(v: Value) returns (r: int, ok: bool)
      requires Valid() && free == [] && v != Nil
      modifies this, t
      ensures ok ==> Valid() && r > 0 && r !in old(live) && live == old(live)[r := v]
      ensures !ok ==> old(|t.contents|) >= MAXASIZE
    {
      hide LuaTable.Valid;
      r := t.GetN();
      Pushed(t.contents, live, r, v);
      r := r + 1;
      hide Refs, Put;
      ok := t.RawSetI(r, v);
      live := live[r := v];
    }

    /** `luaL_unref`; negative numbers are ignored. */
    method Unref(r: int) returns (ok: bool)
      requires Valid()
      modifies this, t
      ensures ok ==> t.Valid() && t.contents == if r >= 0 then Released(old(t.contents), r) else old(t.contents)
      ensures ok && (r < 0 || old(r !in free)) ==> Valid() && live == old(live) - {r}
      ensures !ok ==> old(|t.contents|) >= MAXASIZE
    {
      ok := true;
      RefsKept(t.contents, live, free, r);
      hide Refs, LuaTable.Valid, Put, FreeAfter;
      if r >= 0 {
        var head := t.RawGetI(FREELIST_REF);
        ReleasedSize(t.contents, r);
        ok := t.RawSetI(r, head);
        if !ok {
          return;
        }
        ok := t.RawSetI(FREELIST_REF, Of(r));
        free := FreeAfter(free, r);
        live := live - {r};
      }
    }
  }

  lemma HeadIs(m: map<Key, Value>, live: map<int, Value>, free: seq<int>)
    requires Refs(m, live, free)
    ensures HeadOf(m) == if free == [] then 0 else free[0]
    ensures free != [] ==> free[0] > 0 && free[0] !in live && KInt(FREELIST_REF) in m
  {
    if free != [] {
      assert free[0] in free;
    }
  }

  lemma NoLarger(m: map<Key, Value>, k: Key, v: Value)
    requires k in m
    ensures |Put(m, k, v)| <= |m|
  {
    assert m.Keys == (m - {k}).Keys + {k};
    assert v != Nil ==> m[k := v].Keys == m.Keys;
  }

  /** Takes the head of the free list for `v`. */
  lemma Popped(m: map<Key, Value>, live: map<int, Value>, free: seq<int>, v: Value)
    requires Refs(m, live, free) && free != [] && v != Nil
    ensures free[0] > 0 && free[0] !in live && Refs(Taken(m, free[0], v), live[free[0] := v], free[1..])
  {
    TakenFields(m, free[0], v);
    assert free[0] in free;
    PoppedLinks(m, live, free, v);
    hide Taken, FieldAt, Linked;
    assert forall x :: x in free[1..] ==> x in free;
  }

  lemma PoppedLinks(m: map<Key, Value>, live: map<int, Value>, free: seq<int>, v: Value)
    requires Refs(m, live, free) && free != [] && v != Nil
    ensures Linked(Taken(m, free[0], v), free[1..])
  {
    var rest, m' := free[1..], Taken(m, free[0], v);
    TakenFields(m, free[0], v);
    hide Taken, FieldAt;
    forall i | 0 <= i < |rest|
      ensures Leads(FieldAt(m', rest[i]), rest, i + 1)
    {
      assert rest[i] == free[i + 1] && free[i + 1] in free && Leads(FieldAt(m, free[i + 1]), free, i + 2);
    }
    assert free[0] in free && Leads(FieldAt(m, free[0]), free, 1);
  }

  lemma LivePresent(m: map<Key, Value>, live: map<int, Value>)
    requires Held(m, live)
    ensures forall r :: r in live ==> KInt(r) in m
  {
    assert forall r :: r in live ==> FieldAt(m, r) == live[r];
  }

  /** A border is not in use, so the number after it is new. */
  lemma Pushed(m: map<Key, Value>, live: map<int, Value>, b: int, v: Value)
    requires Refs(m, live, []) && v != Nil && 0 <= b && KInt(b + 1) !in m
    ensures b + 1 !in live && Refs(Put(m, KInt(b + 1), v), live[b + 1 := v], [])
  {
    var m' := Put(m, KInt(b + 1), v);
    LivePresent(m, live);
    assert forall x :: FieldAt(m', x) == if x == b + 1 then v else FieldAt(m, x);
  }

  /** The free list after `r` was given back; giving back zero loses it. */
  ghost function FreeAfter(free: seq<int>, r: int): seq<int> {
    if r == FREELIST_REF then [] else [r] + free
  }

  /** The table is in order after `r` was given back exactly if `r` was not free already. */
  lemma RefsKept(m: map<Key, Value>, live: map<int, Value>, free: seq<int>, r: int)
    requires Refs(m, live, free)
    ensures r < 0 ==> live - {r} == live
    ensures r >= 0 && r !in free ==> Refs(Released(m, r), live - {r}, FreeAfter(free, r))
    ensures r >= 0 && r in free ==> forall free' :: !Refs(Released(m, r), live - {r}, free')
  {
    if r >= 0 && r in free {
      forall free'
        ensures !Refs(Released(m, r), live - {r}, free')
      {
        FreedTwice(m, live, free, r, free');
      }
    } else if r >= 0 {
      Freed(m, live, free, r);
    }
  }

  lemma ReleasedFields(m: map<Key, Value>, r: int)
    ensures forall x :: FieldAt(Released(m, r), x) ==
                        if x == FREELIST_REF then Of(r) else if x == r then FieldAt(m, 0) else FieldAt(m, x)
  {
  }

  /** Puts `r` in front of the free list. */
  lemma Freed(m: map<Key, Value>, live: map<int, Value>, free: seq<int>, r: int)
    requires Refs(m, live, free) && r >= 0 && r !in free
    ensures Refs(Released(m, r), live - {r}, FreeAfter(free, r))
  {
    var m', free' := Released(m, r), FreeAfter(free, r);
    ReleasedFields(m, r);
    if r > 0 {
      forall i | 0 <= i < |free'|
        ensures Leads(FieldAt(m', free'[i]), free', i + 1)
      {
        if i > 0 {
          assert free'[i] == free[i - 1] && free[i - 1] in free && Leads(FieldAt(m, free[i - 1]), free, i);
        }
      }
    }
  }

  /** A free list that has `r` twice has no end. */
  lemma FreedTwice(m: map<Key, Value>, live: map<int, Value>, free: seq<int>, r: int, free': seq<int>)
    requires Refs(m, live, free) && r in free
    ensures !Refs(Released(m, r), live - {r}, free')
  {
    if Refs(Released(m, r), live - {r}, free') {
      var i :| 0 <= i < |free| && free[i] == r;
      ReleasedFields(m, r);
      FollowsOld(m, live, free, r, i, free', i);
    }
  }

  /** After `r`, the new list goes through the old one. */
  lemma {:induction false} FollowsOld(m: map<Key, Value>, live: map<int, Value>, free: seq<int>, r: int, i: nat,
                                      free': seq<int>, j: nat)
    requires Refs(m, live, free) && Refs(Released(m, r), live - {r}, free') && j <= i < |free| && free[i] == r
    ensures |free'| > j + 1 && free'[0] == r && free'[j + 1] == free[j]
  {
    ReleasedFields(m, r);
    assert free[0] in free && free[j] in free && free[i] in free;
    assert Leads(FieldAt(Released(m, r), FREELIST_REF), free', 0);
    if j == 0 {
      assert Leads(FieldAt(Released(m, r), free'[0]), free', 1);
    } else {
      FollowsOld(m, live, free, r, i, free', j - 1);
      assert Leads(FieldAt(m, free[j - 1]), free, j);
      assert Leads(FieldAt(Released(m, r), free'[j]), free', j + 1);
      assert free[j - 1] in free;
    }
  }

  /** The references that `luaL_ref` takes from the free list for the values `vs`. */
  function Given(m: map<Key, Value>, vs: seq<Value>): seq<int>
    decreases |vs|
  {
    if vs == [] then [] else [HeadOf(m)] + Given(Taken(m, HeadOf(m), vs[0]), vs[1..])
  }

  /** Cells linked one after the other are given in their order. */
  lemma {:induction false} GivenInOrder(m: map<Key, Value>, path: seq<int>, vs: seq<Value>)
    requires NoRepeats(path) && 0 < |vs| <= |path| && FieldAt(m, FREELIST_REF) == Of(path[0])
    requires forall j :: 0 <= j < |path| ==> path[j] > 0
    requires forall j :: 0 <= j < |path| - 1 ==> FieldAt(m, path[j]) == Of(path[j + 1])
    ensures Given(m, vs) == path[..|vs|]
    decreases |vs|
  {
    var m' := Taken(m, path[0], vs[0]);
    TakenFields(m, path[0], vs[0]);
    hide Taken;
    if |vs| > 1 {
      assert forall j :: 0 <= j < |path| - 1 ==> path[1..][j] == path[j + 1];
      GivenInOrder(m', path[1..], vs[1..]);
    } else {
      assert Given(m', vs[1..]) == [];
    }
  }

  /** When a free reference is given back again, it is handed out twice: for the first value, and for one
      that comes as many values later as it was behind in the list. */
  lemma ReleasedTwice(m: map<Key, Value>, live: map<int, Value>, free: seq<int>, i: nat, vs: seq<Value>)
    requires Refs(m, live, free) && i < |free| && |vs| == i + 2 && forall j :: 0 <= j < |vs| ==> vs[j] != Nil
    ensures var rs := Given(Released(m, free[i]), vs); |rs| == i + 2 && rs[0] == rs[i + 1] == free[i]
  {
    var r, path := free[i], free[..i + 1];
    var m1 := Released(m, r);
    OncePath(m, live, free, i, vs[0]);
    ReleasedFields(m, r);
    GivenInOrder(Taken(m1, r, vs[0]), path, vs[1..]);
    hide Refs, Taken, Released;
    assert HeadOf(m1) == r;
    assert Given(m1, vs) == [r] + path;
  }

  /** When the reference given back a second time has been handed out once, the list leads to it again. */
  lemma OncePath(m: map<Key, Value>, live: map<int, Value>, free: seq<int>, i: nat, v: Value)
    requires Refs(m, live, free) && i < |free| && v != Nil
    ensures var m2, path := Taken(Released(m, free[i]), free[i], v), free[..i + 1];
            && FieldAt(m2, FREELIST_REF) == Of(path[0]) && NoRepeats(path)
            && (forall j :: 0 <= j < |path| ==> path[j] > 0)
            && forall j :: 0 <= j < |path| - 1 ==> FieldAt(m2, path[j]) == Of(path[j + 1])
  {
    var r, path, m1 := free[i], free[..i + 1], Released(m, free[i]);
    var m2 := Taken(m1, r, v);
    ReleasedFields(m, r);
    TakenFields(m1, r, v);
    hide Taken, Released;
    forall j | 0 <= j <= i
      ensures path[j] > 0 && (j < i ==> FieldAt(m2, path[j]) == Of(path[j + 1]))
    {
      assert path[j] == free[j] && free[j] in free && Leads(FieldAt(m, free[j]), free, j + 1);
    }
    assert Leads(FieldAt(m, FREELIST_REF), free, 0);
  }

  lemma TakenFields(m: map<Key, Value>, r: int, v: Value)
    ensures forall x :: FieldAt(Taken(m, r, v), x) ==
                        if x == r then v else if x == FREELIST_REF then FieldAt(m, r) else FieldAt(m, x)
  {
  }

  lemma ReleasedSize(m: map<Key, Value>, r: int)
    ensures var m' := Put(m, KInt(r), FieldAt(m, FREELIST_REF)); KInt(FREELIST_REF) in m' || |m'| <= |m|
  {
    var v := FieldAt(m, FREELIST_REF);
    if KInt(r) in m {
      NoLarger(m, KInt(r), v);
    } else if v == Nil {
      assert Put(m, KInt(r), v) == m;
    }
  }
}
