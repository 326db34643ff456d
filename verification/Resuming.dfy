/** Where `luaH_next` resumes (ltable.cpp:109-131) when a collection or assignments to existing fields came
    before the call. */
module Resuming {
  import opened HashPart
  import opened TableContents
  import opened StaleKeys
  import opened LuaTables
  import opened NextCalls

  // ---------- Collections in between ----------

  /** The table after a collection that marks the keys of empty entries. */
  ghost function Collected(l: Layout): Layout {
    l.(nodes := PrunedAll(l.nodes))
  }

  /** The table is resumable, now and after the next collection. */
  ghost predicate StaysResumable(l: Layout)
    requires |l.at| == |l.nodes| > 0
  {
    Resumable(l) && Resumable(Collected(l))
  }

  lemma CollectedSound(l: Layout)
    requires Sound(l)
    ensures Sound(Collected(l))
  {
    var nodes' := PrunedAll(l.nodes);
    assert forall i :: Used(nodes', i) <==> Used(l.nodes, i);
    SameChains(l.hash, l.nodes, nodes', l.at);
    hide Chained;
    assert forall i :: Used(nodes', i) && Live(nodes'[i].key) ==> nodes'[i].key == l.nodes[i].key;
  }

  lemma {:induction false} CollectedFields(l: Layout, from: nat)
    ensures FieldsFrom(Collected(l), from) == FieldsFrom(l, from)
    decreases Size(l) - from
  {
    if from < Size(l) {
      CollectedFields(l, from + 1);
      assert Full(Collected(l), from) <==> Full(l, from);
    }
  }

  /** Which tables stay resumable: those whose fields all calls visit in order, both if the calls are made
      now and if a collection comes first. */
  lemma StaysExactly(l: Layout)
    requires Sound(l)
    ensures Sound(Collected(l))
    ensures StaysResumable(l) <==>
            EndsAfter(l, -1, FieldsFrom(l, 0)) && EndsAfter(Collected(l), -1, FieldsFrom(l, 0))
  {
    CollectedSound(l);
    hide Chained, Keyed, Resumable, FieldsFrom, EndsAfter;
    CollectedFields(l, 0);
    OrderExactly(l);
    OrderExactly(Collected(l));
  }

  /** A table stays resumable if every key comes before all gone keys with its address. */
  lemma LiveFirstStays(l: Layout)
    requires Sound(l) && Apart(ObjKeys(l.nodes)) && LiveFirst(l.hash, l.nodes, l.at, true)
    ensures StaysResumable(l)
  {
    CollectedSound(l);
    FirstIsResumable(l, l);
    FirstIsResumable(l, Collected(l));
  }

  lemma FirstIsResumable(l: Layout, c: Layout)
    requires Sound(l) && Apart(ObjKeys(l.nodes)) && LiveFirst(l.hash, l.nodes, l.at, true)
    requires Sound(c) && (c == l || c == Collected(l))
    ensures Resumable(c)
  {
    hide Chained, Keyed, LiveFirst, Apart, ObjKeys, PrunedAll, FirstMet;
    forall p, r | Full(c, p) && StopsAt(c, p, r)
      ensures Harmless(c, p, r)
    {
      if p >= |c.arr| {
        FirstIsField(l, c, p - |c.arr|, r - |c.arr|);
      }
    }
  }

  lemma FirstIsField(l: Layout, c: Layout, i: nat, n: int)
    requires Sound(l) && Apart(ObjKeys(l.nodes)) && LiveFirst(l.hash, l.nodes, l.at, true)
    requires Sound(c) && (c == l || c == Collected(l)) && i < |c.nodes| && c.nodes[i].val != Nil
    requires FirstMet(c, n, c.nodes[i].key)
    ensures n == i
  {
    FullKey(c, i);
    hide LinksAhead, NoGaps, AllHome, FreeNodesEmpty;
    var k := l.nodes[i].key;
    assert c.nodes[i] == l.nodes[i] && AtOrBefore(l.at, n, i) && Used(l.nodes, i) && Used(l.nodes, n);
    assert GoneBehind(l.hash, l.nodes, l.at, i, n, true);
    if l.nodes[n].key.KObj? && k.KObj? {
      OneWithAddress(l.arr, l.nodes, n, i);
    }
  }

  // ---------- A key in the node of a gone one ----------

  /** The table when the key `k` has got node `n`, with the value `v`. */
  function Taken(l: Layout, n: nat, k: Key, v: Value): Layout
    requires n < |l.nodes|
  {
    l.(nodes := Overtaken(l.nodes, n, k, v))
  }

  /** With a field for `k` in node `n`, the call with `k` skips no field and none skips this one. */
  ghost predicate SkipsNone(l: Layout, n: nat, k: Key)
    requires |l.at| == |l.nodes| > 0
  {
    && (forall j :: FirstMet(l, j, k) ==> Harmless(l, n + |l.arr|, j + |l.arr|))
    && (forall p, r :: Full(l, p) && StopsAt(l, p, r) ==> !(p < n + |l.arr| <= r))
  }

  /** Node `n` has a gone key that `findindex` takes for `k`; no other key has the address of `k`. */
  ghost predicate Takes(l: Layout, n: nat, k: Key, v: Value) {
    && n < |l.nodes| && Sound(l) && Sound(Taken(l, n, k, v)) && v != Nil && k.KObj? && OwnAddress(l.nodes, k)
    && Missing(l.nodes, k) && Gone(l.nodes[n].key) && Meets(l.nodes[n].key, k, true)
  }

  /** Every key of a field is met where it was before, and `k` where its node was. */
  lemma MetAsBefore(l: Layout, n: nat, k: Key, v: Value, x: Key, j: int)
    requires Takes(l, n, k, v) && (x == k || exists i :: Used(l.nodes, i) && Live(x) && l.nodes[i].key == x)
    ensures FirstMet(Taken(l, n, k, v), j, x) <==> FirstMet(l, j, x)
  {
    hide Chained, Keyed, Main;
    var l' := Taken(l, n, k, v);
    forall i | 0 <= i < |l.nodes|
      ensures Meets(l'.nodes[i].key, x, true) <==> Meets(l.nodes[i].key, x, true)
      ensures Used(l'.nodes, i) <==> Used(l.nodes, i)
    {
    }
  }

  /** A table whose node `n` a key gets stays resumable exactly if no field is skipped. */
  lemma TakenResumable(l: Layout, n: nat, k: Key, v: Value)
    requires Takes(l, n, k, v) && Resumable(l)
    ensures Resumable(Taken(l, n, k, v)) <==> SkipsNone(l, n, k)
  {
    hide Chained, Keyed, FirstMet, Main, Meets, OwnAddress, Missing;
    var l', q := Taken(l, n, k, v), n + |l.arr|;
    EmptyBefore(l, n, k, v);
    forall p, r | Full(l, p)
      ensures StopsAt(l', p, r) <==> StopsAt(l, p, r)
    {
      StopsAsBefore(l, n, k, v, p, r);
    }
    forall r
      ensures StopsAt(l', q, r) <==> FirstMet(l, r - |l.arr|, k)
    {
      MetAsBefore(l, n, k, v, k, r - |l.arr|);
    }
    HarmlessToo(l, l', q);
    if Resumable(l') {
      forall j | FirstMet(l, j, k)
        ensures Harmless(l, q, j + |l.arr|)
      {
        assert StopsAt(l', q, j + |l.arr|);
      }
    }
  }

  lemma EmptyBefore(l: Layout, n: nat, k: Key, v: Value)
    requires Takes(l, n, k, v)
    ensures Size(Taken(l, n, k, v)) == Size(l)
    ensures forall p :: Full(Taken(l, n, k, v), p) <==> Full(l, p) || p == n + |l.arr|
    ensures !Full(l, n + |l.arr|)
  {
    hide Chained;
    assert Used(l.nodes, n);
  }

  lemma StopsAsBefore(l: Layout, n: nat, k: Key, v: Value, p: int, r: int)
    requires Takes(l, n, k, v) && Full(l, p) && Full(Taken(l, n, k, v), p)
    ensures StopsAt(Taken(l, n, k, v), p, r) <==> StopsAt(l, p, r)
  {
    hide Chained, Keyed, FirstMet, Meets, OwnAddress, Missing;
    if p >= |l.arr| {
      FullKey(l, p - |l.arr|);
      GoneEmpty(l, n, p - |l.arr|);
      MetAsBefore(l, n, k, v, KeyIn(l, p), r - |l.arr|);
    }
  }

  lemma GoneEmpty(l: Layout, n: nat, i: nat)
    requires Sound(l) && n < |l.nodes| && Gone(l.nodes[n].key) && i < |l.nodes| && l.nodes[i].val != Nil
    ensures i != n
  {
    hide Chained;
    assert Used(l.nodes, n);
  }

  /** One more field, at `q`: what passes over it is no longer harmless. */
  lemma HarmlessToo(l: Layout, l': Layout, q: int)
    requires forall p :: Full(l', p) <==> Full(l, p) || p == q
    ensures forall p, r :: Harmless(l', p, r) <==> Harmless(l, p, r) && !(p < q <= r)
  {
    hide Full;
    forall p, r
      ensures Harmless(l', p, r) <==> Harmless(l, p, r) && !(p < q <= r)
    {
      if p < q <= r {
        assert Full(l', q);
      }
    }
  }

  lemma CollectedTaken(l: Layout, n: nat, k: Key, v: Value)
    requires Takes(l, n, k, v)
    ensures Takes(Collected(l), n, k, v) && Collected(Taken(l, n, k, v)) == Taken(Collected(l), n, k, v)
  {
    CollectedSound(l);
    CollectedSound(Taken(l, n, k, v));
    hide Sound;
    assert Collected(Taken(l, n, k, v)).nodes == Taken(Collected(l), n, k, v).nodes;
    assert forall i :: Used(PrunedAll(l.nodes), i) ==> Used(l.nodes, i);
  }

  /** A string or table that takes over the entry of a stale key keeps the table resumable exactly if no
      field is skipped, now and after a collection. */
  lemma AdoptedResumable(l: Layout, n: nat, k: Key, v: Value)
    requires Sound(l) && StaleHit(l.hash, l.nodes, l.at, n, k) && OwnAddress(l.nodes, k) && Missing(l.nodes, k)
    requires v != Nil && !Misfits(l.hash, l.nodes, n, k)
    ensures Sound(Taken(l, n, k, v))
    ensures Resumable(l) ==> (Resumable(Taken(l, n, k, v)) <==> SkipsNone(l, n, k))
    ensures StaysResumable(l) ==>
            (StaysResumable(Taken(l, n, k, v)) <==> SkipsNone(l, n, k) && SkipsNone(Collected(l), n, k))
  {
    AdoptedSound(l, n, k, v);
    hide Chained, Keyed, Resumable, SkipsNone, Misfits;
    CollectedTaken(l, n, k, v);
    if Resumable(l) {
      TakenResumable(l, n, k, v);
    }
    if StaysResumable(l) {
      TakenResumable(Collected(l), n, k, v);
    }
  }

  lemma AdoptedSound(l: Layout, n: nat, k: Key, v: Value)
    requires Sound(l) && StaleHit(l.hash, l.nodes, l.at, n, k) && OwnAddress(l.nodes, k) && Missing(l.nodes, k)
    requires v != Nil && !Misfits(l.hash, l.nodes, n, k)
    ensures Takes(l, n, k, v)
  {
    AdoptedChained(l.hash, l.nodes, l.at, n, k);
    hide Chained, Misfits;
    var nodes' := Taken(l, n, k, v).nodes;
    assert forall i :: Used(nodes', i) <==> Used(l.nodes, i);
    SameChains(l.hash, Adopted(l.nodes, n, k), nodes', l.at);
  }

  // ---------- Edits in between ----------

  ghost function Filled(l: Layout): set<int> {
    set p | 0 <= p < Size(l) && Full(l, p)
  }

  ghost predicate NoneSkipped(filled: set<int>, p: int, r: int) {
    p <= r && forall q :: p < q <= r ==> q !in filled
  }

  /** Wherever a call resumes for a field of `filled`, none of them is skipped. */
  ghost predicate Steady(l: Layout, filled: set<int>)
    requires |l.at| == |l.nodes| > 0
  {
    forall p, n :: p in filled && |l.arr| <= p < Size(l) && FirstMet(l, n, Undead(KeyIn(l, p))) ==>
      NoneSkipped(filled, p, n + |l.arr|)
  }

  lemma ResumableSteady(l: Layout)
    requires Sound(l) && Resumable(l)
    ensures Steady(l, Filled(l))
  {
    hide Chained, Keyed, FirstMet;
    forall p, n | p in Filled(l) && |l.arr| <= p < Size(l) && FirstMet(l, n, Undead(KeyIn(l, p)))
      ensures NoneSkipped(Filled(l), p, n + |l.arr|)
    {
      FullKey(l, p - |l.arr|);
      assert StopsAt(l, p, n + |l.arr|);
    }
  }

  /** The object of a key may go, its value too; nothing else happens to an entry. */
  ghost predicate MayGo(n: Node, n': Node) {
    && (n'.key == n.key || (n.key.KObj? && Gone(n'.key) && Undead(n'.key) == n.key))
    && (n.val == Nil ==> n'.val == Nil)
  }

  ghost predicate SameShape(l: Layout, l': Layout) {
    l'.hash == l.hash && |l'.arr| == |l.arr| && l'.at == l.at && |l'.nodes| == |l.nodes| == |l.at| > 0
  }

  lemma MeetsKept(n: Node, n': Node, k: Key)
    requires MayGo(n, n') && !Gone(k) && (n.key.KObj? && k.KObj? && n.key.o == k.o ==> n.key == k)
    ensures Meets(n'.key, k, true) <==> Meets(n.key, k, true)
  {
  }

  lemma FirstMetKept(l: Layout, l': Layout, n: int, k: Key)
    requires SameShape(l, l') && !Gone(k) && OwnAddress(l.nodes, k)
    requires forall i :: 0 <= i < |l.nodes| ==> MayGo(l.nodes[i], l'.nodes[i])
    ensures FirstMet(l', n, k) <==> FirstMet(l, n, k)
  {
    hide MayGo, Meets, Main;
    forall i | 0 <= i < |l.nodes|
      ensures Meets(l'.nodes[i].key, k, true) <==> Meets(l.nodes[i].key, k, true)
      ensures Used(l'.nodes, i) <==> Used(l.nodes, i)
    {
      MeetsKept(l.nodes[i], l'.nodes[i], k);
      StillAKey(l.nodes[i], l'.nodes[i]);
    }
  }

  lemma StillAKey(n: Node, n': Node)
    requires MayGo(n, n')
    ensures n'.key.KNil? <==> n.key.KNil?
    ensures Undead(n'.key) == Undead(n.key)
  {
  }

  /** While objects of keys go, resuming stays as harmless as it is. */
  lemma SteadyKept(l: Layout, l': Layout, filled: set<int>)
    requires SameShape(l, l') && Steady(l, filled)
    requires forall i :: 0 <= i < |l.nodes| ==> MayGo(l.nodes[i], l'.nodes[i])
    requires forall p :: p in filled && |l.arr| <= p < Size(l) ==> OwnAddress(l.nodes, Undead(KeyIn(l, p)))
    ensures Steady(l', filled)
  {
    hide MayGo, FirstMet, OwnAddress, NoneSkipped;
    forall p, n | p in filled && |l.arr| <= p < Size(l) && FirstMet(l', n, Undead(KeyIn(l', p)))
      ensures NoneSkipped(filled, p, n + |l.arr|)
    {
      StillAKey(l.nodes[p - |l.arr|], l'.nodes[p - |l.arr|]);
      FirstMetKept(l, l', n, Undead(KeyIn(l, p)));
    }
  }

  lemma CollectedMayGo(n: Node, n': Node)
    requires MayGo(n, n') && (Gone(n.key) ==> n.val == Nil)
    ensures MayGo(Pruned(n), Pruned(n'))
  {
  }

  /** The same for what the next collection will make of the table. */
  lemma CollectedKept(l: Layout, l': Layout, filled: set<int>)
    requires SameShape(l, l') && Steady(Collected(l), filled)
    requires forall i :: 0 <= i < |l.nodes| ==> MayGo(l.nodes[i], l'.nodes[i])
    requires forall i :: 0 <= i < |l.nodes| && Gone(l.nodes[i].key) ==> l.nodes[i].val == Nil
    requires forall p :: p in filled && |l.arr| <= p < Size(l) ==> OwnAddress(l.nodes, Undead(KeyIn(l, p)))
    ensures Steady(Collected(l'), filled)
  {
    hide MayGo, Steady;
    forall i | 0 <= i < |l.nodes|
      ensures MayGo(Collected(l).nodes[i], Collected(l').nodes[i])
    {
      CollectedMayGo(l.nodes[i], l'.nodes[i]);
    }
    SteadyKept(Collected(l), Collected(l'), filled);
  }

  /** A second collection finds nothing to do. */
  lemma CollectedTwice(l: Layout)
    ensures Collected(Collected(l)) == Collected(l)
  {
    assert Collected(Collected(l)).nodes == Collected(l).nodes;
  }
}
