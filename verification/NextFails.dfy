/** Tables in which repeated `luaH_next` (ltable.cpp:104-150) does not give the fields in order: one that a
    program and two collections can make, where the calls never end, and one where they do end. */
module NextFails {
  import opened HashPart
  import opened TableSizes
  import opened TableContents
  import opened StaleKeys
  import opened LuaTables
  import opened NextCalls
  import opened Resuming
  import opened Traversal

  // ---------- A table that cannot be traversed ----------

  /** In four nodes the string `B` has main position 3 and everything else main position 0. */
  function StuckHash(k: Key): nat {
    if k == B then 3 else 0
  }

  /** A table and then two strings at one address. */
  const A := KObj(7, 5, 1)
  const B := KObj(7, LUA_TSTRING, 2)
  const C := KObj(7, LUA_TSTRING, 3)

  /** The first collection clears the entry of `A` in the table, which is weak in keys and values; the second
      leaves the empty entry of `B` as it is. */
  function StuckActs(): seq<Act> {
    [Write(KInt(1), Of(10)), Write(KInt(2), Of(20)), Write(A, Of(1)), Write(KInt(2), Nil), Clear(A),
     Write(B, Of(1)), Write(B, Nil), Leave, Write(C, Of(30))]
  }

  function Stored(nodes: seq<Node>, n: nat, v: Value): seq<Node>
    requires n < |nodes|
  {
    nodes[n := nodes[n].(val := v)]
  }

  /** The nodes before the last of these acts. */
  function StuckBefore(): seq<Node> {
    var one := [Node(KInt(1), Of(10), END), EMPTY, EMPTY, EMPTY];
    var two := Stored(Inserted(one, KInt(2), 0, 3), 3, Of(20));
    var three := Stored(Inserted(two, A, 0, 2), 2, Of(1));
    var cleared := Stored(Stored(three, 3, Nil), 2, Nil);
    var dead := cleared[2 := cleared[2].(key := KDead(A.o, A.tag, A.id))];
    var four := Stored(dead[3 := dead[3].(key := B)], 3, Of(1));
    AbandonedAll(Stored(four, 3, Nil))
  }

  const STUCK_NODES := [Node(KInt(1), Of(10), 2), EMPTY, Node(KDead(7, 5, 1), Nil, 3), Node(C, Of(30), END)]
  const STUCK := Layout(StuckHash, [], STUCK_NODES, [Place(0, 0.0), Place(1, 0.0), Place(0, 1.0), Place(0, 2.0)])

  /** The main positions by which each key got its node, and the last act: `C` finds the stale key of `B`,
      behind the dead key of `A`, and takes over the node, which fits it. */
  lemma StuckMade()
    ensures Main(StuckHash, KInt(1), 4) == Main(StuckHash, KInt(2), 4) == Main(StuckHash, A, 4) == 0
    ensures Main(StuckHash, B, 4) == 3 && Main(StuckHash, C, 4) == 0
    ensures STUCK == Taken(STUCK.(nodes := StuckBefore()), 3, C, Of(30))
    ensures StaleHit(StuckHash, StuckBefore(), STUCK.at, 3, C) && !Misfits(StuckHash, StuckBefore(), 3, C)
  {
    assert StuckBefore() == STUCK.nodes[3 := Node(KStale(B.o, B.tag, B.id), Nil, END)];
    assert Main(StuckHash, C, 4) == 0 && Main(StuckHash, B, 4) == 3 && Main(StuckHash, KInt(1), 4) == 0;
  }

  lemma StuckHome()
    ensures AllHome(StuckHash, STUCK.nodes, STUCK.at)
  {
    assert Main(StuckHash, C, 4) == 0 && Main(StuckHash, KInt(1), 4) == 0 && Main(StuckHash, KDead(7, 5, 1), 4) == 0;
  }

  lemma StuckChained()
    ensures Chained(StuckHash, STUCK.nodes, STUCK.at)
  {
    hide AllHome, Main;
    StuckHome();
  }

  lemma StuckSound()
    ensures Sound(STUCK) && LiveFirst(StuckHash, STUCK.nodes, STUCK.at, false) && Apart(ObjKeys(STUCK.nodes))
    ensures Represents([], STUCK.nodes, After(StuckActs()))
  {
    StuckChained();
    StuckCanHappen();
    hide Main, Chained, After;
    assert Used(STUCK.nodes, 0) && Used(STUCK.nodes, 3);
  }

  /** What the table holds after `i` of the acts, and the keys it may have. */
  ghost predicate Stands(i: nat, m: map<Key, Value>, keys: set<Key>) {
    i <= |StuckActs()| && After(StuckActs()[..i]) == m && MayHave(StuckActs()[..i]) == keys
  }

  lemma Acts(i: nat, m: map<Key, Value>, keys: set<Key>, m': map<Key, Value>, keys': set<Key>)
    requires i < |StuckActs()| && Stands(i, m, keys) && m' == Next(m, StuckActs()[i]) && |m| < MAXASIZE
    requires match StuckActs()[i]
             case Write(k, _) => !Gone(k) && Apart(keys + {k}) && keys' == keys + {k}
             case Clear(k) => !Gone(k) && Apart(keys + {k}) && keys' == if k in m then keys - {k} else keys
             case _ => keys' == set k | k in keys && k in m'
    ensures Stands(i + 1, m', keys') && CanHappen(StuckActs(), i)
  {
    NextIs(StuckActs(), i);
    hide After, MayHave, Next, Apart;
  }

  const ONE := map[KInt(1) := Of(10)]
  const TWO := ONE[KInt(2) := Of(20)]

  lemma ActsListed()
    ensures Stands(0, map[], {}) && |StuckActs()| == 9
    ensures StuckActs()[0] == Write(KInt(1), Of(10)) && StuckActs()[1] == Write(KInt(2), Of(20))
    ensures StuckActs()[2] == Write(A, Of(1)) && StuckActs()[3] == Write(KInt(2), Nil) && StuckActs()[4] == Clear(A)
    ensures StuckActs()[5] == Write(B, Of(1)) && StuckActs()[6] == Write(B, Nil) && StuckActs()[7] == Leave
    ensures StuckActs()[8] == Write(C, Of(30))
  {
  }

  lemma StoreNumbers()
    requires Stands(0, map[], {})
    ensures Stands(2, TWO, {KInt(1), KInt(2)})
    ensures CanHappen(StuckActs(), 0) && CanHappen(StuckActs(), 1)
  {
    hide CanHappen, Stands, StuckActs;
    ActsListed();
    assert Stands(1, ONE, {KInt(1)}) && CanHappen(StuckActs(), 0) by {
      Acts(0, map[], {}, ONE, {KInt(1)});
    }
    assert Stands(2, TWO, {KInt(1), KInt(2)}) && CanHappen(StuckActs(), 1) by {
      Acts(1, ONE, {KInt(1)}, TWO, {KInt(1), KInt(2)});
    }
  }

  lemma StoreTable()
    requires Stands(2, TWO, {KInt(1), KInt(2)})
    ensures Stands(3, TWO[A := Of(1)], {KInt(1), KInt(2), A})
    ensures CanHappen(StuckActs(), 2)
  {
    hide CanHappen, Stands, StuckActs;
    ActsListed();
    Acts(2, TWO, {KInt(1), KInt(2)}, TWO[A := Of(1)], {KInt(1), KInt(2), A});
  }

  lemma EmptyNumber()
    requires Stands(3, TWO[A := Of(1)], {KInt(1), KInt(2), A})
    ensures Stands(4, ONE[A := Of(1)], {KInt(1), KInt(2), A})
    ensures CanHappen(StuckActs(), 3)
  {
    hide CanHappen, Stands, StuckActs;
    ActsListed();
    assert TWO[A := Of(1)] - {KInt(2)} == ONE[A := Of(1)];
    Acts(3, TWO[A := Of(1)], {KInt(1), KInt(2), A}, ONE[A := Of(1)], {KInt(1), KInt(2), A});
  }

  lemma ClearTable()
    requires Stands(4, ONE[A := Of(1)], {KInt(1), KInt(2), A})
    ensures Stands(5, ONE, {KInt(1), KInt(2)})
    ensures CanHappen(StuckActs(), 4)
  {
    hide CanHappen, Stands, StuckActs;
    ActsListed();
    assert ONE[A := Of(1)] - {A} == ONE;
    Acts(4, ONE[A := Of(1)], {KInt(1), KInt(2), A}, ONE, {KInt(1), KInt(2)});
  }

  lemma StoreString()
    requires Stands(5, ONE, {KInt(1), KInt(2)})
    ensures Stands(6, ONE[B := Of(1)], {KInt(1), KInt(2), B})
    ensures CanHappen(StuckActs(), 5)
  {
    hide CanHappen, Stands, StuckActs;
    ActsListed();
    Acts(5, ONE, {KInt(1), KInt(2)}, ONE[B := Of(1)], {KInt(1), KInt(2), B});
  }

  lemma EmptyString()
    requires Stands(6, ONE[B := Of(1)], {KInt(1), KInt(2), B})
    ensures Stands(7, ONE, {KInt(1), KInt(2), B})
    ensures CanHappen(StuckActs(), 6)
  {
    hide CanHappen, Stands, StuckActs;
    ActsListed();
    assert ONE[B := Of(1)] - {B} == ONE;
    Acts(6, ONE[B := Of(1)], {KInt(1), KInt(2), B}, ONE, {KInt(1), KInt(2), B});
  }

  lemma StoreOther()
    requires Stands(7, ONE, {KInt(1), KInt(2), B})
    ensures Stands(9, ONE[C := Of(30)], {KInt(1), C})
    ensures CanHappen(StuckActs(), 7) && CanHappen(StuckActs(), 8)
  {
    hide CanHappen, Stands, StuckActs;
    ActsListed();
    assert Stands(8, ONE, {KInt(1)}) && CanHappen(StuckActs(), 7) by {
      Acts(7, ONE, {KInt(1), KInt(2), B}, ONE, {KInt(1)});
    }
    assert Stands(9, ONE[C := Of(30)], {KInt(1), C}) && CanHappen(StuckActs(), 8) by {
      Acts(8, ONE, {KInt(1)}, ONE[C := Of(30)], {KInt(1), C});
    }
  }

  lemma StuckCanHappen()
    ensures AllCanHappen(StuckActs()) && After(StuckActs()) == ONE[C := Of(30)]
  {
    hide After, MayHave, CanHappen, StuckActs;
    ActsListed();
    StoreNumbers();
    StoreTable();
    EmptyNumber();
    ClearTable();
    StoreString();
    EmptyString();
    StoreOther();
    assert StuckActs()[..9] == StuckActs();
  }

  /** The call with `C` stops at the dead key of `A` and gives `C` again. */
  lemma StuckAtC()
    ensures Sound(STUCK) && Goes(STUCK, 3, 3) && Full(STUCK, 3)
  {
    hide Chained, Keyed;
    StuckSound();
    assert Main(StuckHash, C, 4) == 0;
    hide Main;
    assert FirstMet(STUCK, 2, C);
    assert StopsAt(STUCK, 3, 2);
    assert FirstFull(STUCK, 3, 3);
  }

  /** So calls from the start come to `C` and never to an end. */
  lemma StuckForever(ps: seq<int>)
    ensures Sound(STUCK) && !EndsAfter(STUCK, -1, ps)
  {
    hide Sound, Goes;
    StuckAtC();
    OnlyOne();
    NeverEnds(STUCK, 3, 3, -1, ps);
  }

  lemma OnlyOne()
    ensures |STUCK.at| == |STUCK.nodes| > 0
    ensures forall x, r :: Full(STUCK, x) && x < 3 && StopsAt(STUCK, x, r) ==> Harmless(STUCK, x, r)
  {
  }

  /** The same through the code. */
  method NextOfC(t: LuaTable) returns (more: bool, k: Key, v: Value)
    requires t.Valid() && LayoutOf(t) == STUCK
    ensures more && k == C && v == Of(30)
  {
    StuckAtC();
    hide LuaTable.Valid, Sound, Goes;
    var q;
    more, k, v, q := NextOf(t, C, 3);
    GoesOnce(STUCK, 3, 3, q);
  }

  // ---------- Fields in another order ----------

  /** Three tables are keys, of which each comes behind the dead key of one with its address. */
  const P := KObj(1, 5, 11)
  const Q := KObj(2, 5, 12)
  const R := KObj(3, 5, 13)

  const CROSSED_NODES := [Node(P, Of(1), 2), Node(KDead(3, 5, 3), Nil, 5), Node(Q, Of(2), 4),
                          Node(KDead(1, 5, 1), Nil, 1), Node(R, Of(3), END), Node(KDead(2, 5, 2), Nil, 0), EMPTY, EMPTY]
  const CROSSED_PLACES := [Place(0, 3.0), Place(0, 1.0), Place(0, 4.0), Place(0, 0.0), Place(0, 5.0), Place(0, 2.0),
                           Place(1, 0.0), Place(1, 0.0)]

  function Three(k: Key): nat {
    3
  }

  /** One chain, from node 3, which is the main position of all: 3, 1, 5, 0, 2, 4. */
  const CROSSED := Layout(Three, [], CROSSED_NODES, CROSSED_PLACES)

  lemma CrossedHome()
    ensures AllHome(Three, CROSSED_NODES, CROSSED_PLACES) && FreeNodesEmpty(CROSSED_NODES)
  {
    assert forall i :: Used(CROSSED_NODES, i) ==> Main(Three, CROSSED_NODES[i].key, 8) == 3;
    hide Main;
  }

  lemma CrossedLinks()
    ensures LinksAhead(CROSSED_NODES, CROSSED_PLACES) && PlacesDiffer(CROSSED_NODES, CROSSED_PLACES)
  {
  }

  lemma CrossedGaps()
    ensures NoGaps(CROSSED_NODES, CROSSED_PLACES)
  {
  }

  lemma CrossedSound()
    ensures Sound(CROSSED)
  {
    hide AllHome, LinksAhead, NoGaps, PlacesDiffer, FreeNodesEmpty;
    CrossedHome();
    CrossedLinks();
    CrossedGaps();
  }

  lemma CrossedMains()
    ensures Main(Three, P, 8) == Main(Three, Q, 8) == Main(Three, R, 8) == 3
  {
  }

  lemma StopsForP()
    ensures FirstMet(CROSSED, 3, P)
  {
    hide Main;
    CrossedMains();
  }

  lemma StopsForQ()
    ensures FirstMet(CROSSED, 5, Q)
  {
    hide Main;
    CrossedMains();
  }

  lemma StopsForR()
    ensures FirstMet(CROSSED, 1, R)
  {
    hide Main;
    CrossedMains();
  }

  lemma CrossedGoes()
    ensures Goes(CROSSED, -1, 0) && Goes(CROSSED, 0, 4) && Goes(CROSSED, 4, 2) && Goes(CROSSED, 2, 8)
    ensures !Resumable(CROSSED)
  {
    hide FirstMet;
    StopsForP();
    StopsForQ();
    StopsForR();
    assert StopsAt(CROSSED, -1, -1) && StopsAt(CROSSED, 0, 3) && StopsAt(CROSSED, 4, 1) && StopsAt(CROSSED, 2, 5);
    assert FirstFull(CROSSED, 0, 0) && FirstFull(CROSSED, 4, 4) && FirstFull(CROSSED, 2, 2) && FirstFull(CROSSED, 6, 8);
    assert !Harmless(CROSSED, 0, 3);
  }

  lemma CrossedFields()
    ensures FieldsFrom(CROSSED, 0) == [0, 2, 4]
  {
    assert FirstFull(CROSSED, 0, 0) && FirstFull(CROSSED, 1, 2) && FirstFull(CROSSED, 3, 4) && FirstFull(CROSSED, 5, 8);
    hide FirstFull, FieldsFrom;
    FieldsAfter(CROSSED, 0, 0);
    FieldsAfter(CROSSED, 1, 2);
    FieldsAfter(CROSSED, 3, 4);
    FieldsAfter(CROSSED, 5, 8);
    NoneLeft(CROSSED);
  }

  /** The calls give every field once and end, but in another order than that of the nodes. */
  lemma CrossedEnds()
    ensures Sound(CROSSED) && !Resumable(CROSSED)
    ensures FieldsFrom(CROSSED, 0) == [0, 2, 4] && EndsAfter(CROSSED, -1, [0, 4, 2])
  {
    hide Sound, Goes, FieldsFrom, Resumable;
    CrossedSound();
    CrossedGoes();
    CrossedFields();
    assert EndsAfter(CROSSED, 2, []);
    assert [0, 4, 2][1..] == [4, 2] && [4, 2][1..] == [2] && [2][1..] == [];
    assert EndsAfter(CROSSED, 4, [2]);
    assert EndsAfter(CROSSED, 0, [4, 2]);
  }
}
