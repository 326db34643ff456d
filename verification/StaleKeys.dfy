/** Keys whose objects are gone without the table being told. The collector leaves the empty entries
    of a table with weak keys and weak values alone (lgc.cpp:162-163, 320-342), so a new object at an
    old address finds such an entry (ltable.cpp:395-434) and takes it over. */
module StaleKeys {
  import opened HashPart
  import opened TableContents

  ghost predicate NoStale(nodes: seq<Node>) {
    forall i :: 0 <= i < |nodes| ==> !nodes[i].key.KStale?
  }

  /** No object that is there as a key has the address of another object `k`. */
  ghost predicate OwnAddress(nodes: seq<Node>, k: Key) {
    forall i :: 0 <= i < |nodes| && nodes[i].key.KObj? && k.KObj? && nodes[i].key.o == k.o ==> nodes[i].key == k
  }

  /** A lookup of `k` takes node `n`, with a stale key, for its own. */
  ghost predicate StaleHit(hash: Hash, nodes: seq<Node>, at: seq<Place>, n: int, k: Key) {
    && |at| == |nodes| && Used(nodes, n) && nodes[n].key.KStale? && k.KObj? && RawEqual(nodes[n].key, k)
    && Used(nodes, Main(hash, k, |nodes|)) && AtOrBefore(at, Main(hash, k, |nodes|), n)
    && forall j :: Used(nodes, j) && nodes[j].key.KStale? && RawEqual(nodes[j].key, k) ==>
         AtOrBefore(at, Main(hash, k, |nodes|), j) ==> AtOrBefore(at, n, j)
  }

  /** Node `n` is no place for `k`: it is not the main position of `k`, and either the key there is away
      from its own main position, or `n` is the main position of another key. */
  predicate Misfits(hash: Hash, nodes: seq<Node>, n: int, k: Key)
    requires |nodes| > 0
  {
    var mp := Main(hash, k, |nodes|);
    && n != mp
    && (Main(hash, nodes[mp].key, |nodes|) != mp ||
        exists i :: 0 <= i < |nodes| && IsMainOf(hash, nodes, n, i))
  }

  predicate IsMainOf(hash: Hash, nodes: seq<Node>, n: int, i: int)
    requires 0 <= i < |nodes|
  {
    i != n && !nodes[i].key.KNil? && Main(hash, nodes[i].key, |nodes|) == n
  }

  /** The node is the key's from now on. The code changes nothing: type and address are the same. */
  function Adopted(nodes: seq<Node>, n: int, k: Key): seq<Node>
    requires 0 <= n < |nodes|
  {
    nodes[n := nodes[n].(key := k)]
  }

  /** The chains are sound again when `k` has taken over node `n`, in whatever places the nodes are said
      to be, exactly if the node fits. */
  lemma AdoptedChained(hash: Hash, nodes: seq<Node>, at: seq<Place>, n: int, k: Key)
    requires Chained(hash, nodes, at) && StaleHit(hash, nodes, at, n, k)
    ensures !Misfits(hash, nodes, n, k) ==> Chained(hash, Adopted(nodes, n, k), at)
    ensures Misfits(hash, nodes, n, k) ==> forall at' :: !Chained(hash, Adopted(nodes, n, k), at')
  {
    hide Chained, Misfits;
    if Misfits(hash, nodes, n, k) {
      forall at'
        ensures !Chained(hash, Adopted(nodes, n, k), at')
      {
        NeverHome(hash, nodes, n, k, at');
      }
    } else {
      AdoptedFits(hash, nodes, at, n, k);
    }
  }

  lemma AdoptedFits(hash: Hash, nodes: seq<Node>, at: seq<Place>, n: int, k: Key)
    requires Chained(hash, nodes, at) && StaleHit(hash, nodes, at, n, k) && !Misfits(hash, nodes, n, k)
    ensures Chained(hash, Adopted(nodes, n, k), at)
  {
    AdoptedHome(hash, nodes, at, n, k);
    hide AllHome, Misfits, StaleHit, LinksAhead, NoGaps, PlacesDiffer;
    var nodes' := Adopted(nodes, n, k);
    assert forall i :: Used(nodes', i) <==> Used(nodes, i);
    SameLinks(nodes, nodes', at);
  }

  lemma NeverHome(hash: Hash, nodes: seq<Node>, n: int, k: Key, at': seq<Place>)
    requires Used(nodes, n) && Live(k) && Misfits(hash, nodes, n, k)
    ensures !Chained(hash, Adopted(nodes, n, k), at')
  {
    hide LinksAhead, NoGaps, PlacesDiffer, FreeNodesEmpty;
    var nodes', mp := Adopted(nodes, n, k), Main(hash, k, |nodes|);
    assert Used(nodes', n) && nodes'[mp] == nodes[mp];
    if Main(hash, nodes[mp].key, |nodes|) == mp {
      var i :| 0 <= i < |nodes| && IsMainOf(hash, nodes, n, i);
      assert Used(nodes', i) && nodes'[i] == nodes[i];
    }
  }

  lemma AdoptedHome(hash: Hash, nodes: seq<Node>, at: seq<Place>, n: int, k: Key)
    requires Chained(hash, nodes, at) && StaleHit(hash, nodes, at, n, k) && !Misfits(hash, nodes, n, k)
    ensures AllHome(hash, Adopted(nodes, n, k), at)
  {
    hide LinksAhead, NoGaps;
    var nodes' := Adopted(nodes, n, k);
    forall i | Used(nodes', i)
      ensures i == Main(hash, nodes'[i].key, |nodes'|) || AtHome(hash, nodes', at, i)
    {
      assert Used(nodes, i) && (IsMainOf(hash, nodes, n, i) || i == n || Main(hash, nodes[i].key, |nodes|) != n);
    }
  }

  /** What is found first comes before all other stale keys that pass for `k`, and before dead keys too
      unless one of them was met on the way. */
  lemma AdoptedOrder(hash: Hash, nodes: seq<Node>, at: seq<Place>, n: int, k: Key)
    requires Chained(hash, nodes, at) && StaleHit(hash, nodes, at, n, k) && OwnAddress(nodes, k) && Missing(nodes, k)
    ensures LiveFirst(hash, nodes, at, false) ==> LiveFirst(hash, Adopted(nodes, n, k), at, false)
    ensures LiveFirst(hash, nodes, at, true) ==>
            (LiveFirst(hash, Adopted(nodes, n, k), at, true) <==> NoneMet(hash, nodes, at, n, k))
  {
    var nodes' := Adopted(nodes, n, k);
    assert forall i :: Used(nodes', i) <==> Used(nodes, i);
    forall loose, i, j | LiveFirst(hash, nodes, at, loose) && Used(nodes', i) && Used(nodes', j) && i != n
      ensures GoneBehind(hash, nodes', at, i, j, loose)
    {
      assert Used(nodes, i) && Used(nodes, j) && GoneBehind(hash, nodes, at, i, j, loose);
    }
    forall j | Used(nodes', j)
      ensures GoneBehind(hash, nodes', at, n, j, false)
    {
      OneBefore(hash, nodes, at, n, j, k);
    }
    if NoneMet(hash, nodes, at, n, k) {
      forall j | Used(nodes', j)
        ensures GoneBehind(hash, nodes', at, n, j, true)
      {
      }
    }
    if LiveFirst(hash, nodes', at, true) {
      forall j | Used(nodes, j) && j != n && Passes(nodes[j].key, k, true) &&
                 AtOrBefore(at, Main(hash, k, |nodes|), j)
        ensures Before(at, n, j)
      {
        assert GoneBehind(hash, nodes', at, n, j, true);
      }
    }
  }

  /** No gone key with the address of `k` is met before node `n`. */
  ghost predicate NoneMet(hash: Hash, nodes: seq<Node>, at: seq<Place>, n: int, k: Key)
    requires |at| == |nodes| > 0 && 0 <= n < |nodes|
  {
    forall j :: Used(nodes, j) && j != n && Passes(nodes[j].key, k, true) ==>
      AtOrBefore(at, Main(hash, k, |nodes|), j) ==> Before(at, n, j)
  }

  lemma OneBefore(hash: Hash, nodes: seq<Node>, at: seq<Place>, n: int, j: int, k: Key)
    requires Chained(hash, nodes, at) && StaleHit(hash, nodes, at, n, k) && Used(nodes, j)
    ensures j != n && Passes(nodes[j].key, k, false) && AtOrBefore(at, Main(hash, k, |nodes|), j) ==> Before(at, n, j)
  {
    assert j != n ==> at[j] != at[n];
  }

  /** At most one node is hit. */
  lemma OneHit(hash: Hash, nodes: seq<Node>, at: seq<Place>, n: int, n': int, k: Key)
    requires Chained(hash, nodes, at) && StaleHit(hash, nodes, at, n, k) && StaleHit(hash, nodes, at, n', k)
    ensures n == n'
  {
    assert at[n] == at[n'];
  }

  /** Taking over a node changes no pair of the table. */
  lemma AdoptedPairs(arr: seq<Value>, nodes: seq<Node>, m: map<Key, Value>, n: nat, k: Key)
    requires Keyed(arr, nodes) && Represents(arr, nodes, m) && n < |nodes| && nodes[n].key.KStale?
    requires k.KObj? && Missing(nodes, k)
    ensures Keyed(arr, Adopted(nodes, n, k)) && Represents(arr, Adopted(nodes, n, k), m)
  {
    var nodes' := Adopted(nodes, n, k);
    assert Used(nodes, n) && nodes[n].val == Nil;
    assert forall j :: Used(nodes', j) <==> Used(nodes, j);
    forall x | x in m
      ensures Holds(arr, nodes', x, m[x])
    {
      assert Holds(arr, nodes, x, m[x]);
      if !InArray(x, |arr|) {
        var j :| Used(nodes, j) && nodes[j].key == x && nodes[j].val == m[x];
        assert Used(nodes', j) && nodes'[j] == nodes[j];
      }
    }
  }

  lemma AdoptedKeys(nodes: seq<Node>, n: nat, k: Key)
    requires Apart(ObjKeys(nodes)) && OwnAddress(nodes, k) && n < |nodes| && k.KObj?
    ensures Apart(ObjKeys(Adopted(nodes, n, k))) && ObjKeys(Adopted(nodes, n, k)) <= ObjKeys(nodes) + {k}
  {
    var nodes' := Adopted(nodes, n, k);
    forall x | x in ObjKeys(nodes')
      ensures x in ObjKeys(nodes) + {k}
    {
      var i :| 0 <= i < |nodes'| && nodes'[i].key.KObj? && nodes'[i].key == x;
      assert i != n ==> nodes[i].key == x;
    }
    OneMoreApart(nodes, k);
  }

  /** An object with an address of its own stays apart from the others. */
  lemma OneMoreApart(nodes: seq<Node>, k: Key)
    requires Apart(ObjKeys(nodes)) && OwnAddress(nodes, k)
    ensures Apart(ObjKeys(nodes) + {k})
  {
  }

  // ---------- Where it cannot go wrong, and where it does ----------

  /** Objects other than strings are hashed by their addresses. */
  ghost predicate ByAddress(hash: Hash) {
    forall a: Key, b: Key :: a.KObj? && b.KObj? && a.tag != LUA_TSTRING && b.tag != LUA_TSTRING && a.o == b.o ==>
      hash(a) == hash(b)
  }

  /** Only a string can take over a node that does not fit. */
  lemma OnlyStringsMisfit(hash: Hash, nodes: seq<Node>, at: seq<Place>, n: int, k: Key)
    requires Chained(hash, nodes, at) && StaleHit(hash, nodes, at, n, k) && ByAddress(hash) && k.tag != LUA_TSTRING
    ensures !Misfits(hash, nodes, n, k)
  {
    hide LinksAhead, NoGaps;
    var mp := Main(hash, k, |nodes|);
    assert Main(hash, nodes[n].key, |nodes|) == mp;
    assert n == mp || AtHome(hash, nodes, at, n);
    forall i | 0 <= i < |nodes| && IsMainOf(hash, nodes, n, i)
      ensures n == mp
    {
      assert Used(nodes, i) && AtHome(hash, nodes, at, i);
    }
  }

  /** Where the loop of `luaH_get` stops when it starts at node `i`, within `turns` turns. */
  function Walked(nodes: seq<Node>, i: int, k: Key, turns: nat): int
    decreases turns
  {
    if turns == 0 || !(0 <= i < |nodes|) then END
    else if RawEqual(nodes[i].key, k) then i
    else Walked(nodes, nodes[i].next, k, turns - 1)
  }

  /** The nodes when `k`, with the value `v`, has taken over node `n`. */
  function Overtaken(nodes: seq<Node>, n: int, k: Key, v: Value): seq<Node>
    requires 0 <= n < |nodes|
  {
    nodes[n := nodes[n].(key := k, val := v)]
  }

  /** The node `n` that `k` has taken over does not fit. Then a key `x` can be lost, `k` itself or one whose
      main position `n` is: if a new key `k2` is inserted in the main position `m` of `x`, and there is a
      value there, the code moves what is there away, and from `m` on `x` is never found. */
  lemma FieldLost(hash: Hash, nodes: seq<Node>, n: int, k: Key, v: Value, m: nat, x: Key, k2: Key, free: nat, prev: nat)
    requires 0 <= n < |nodes| && m < |nodes| && free < |nodes| && prev < |nodes| && n != Main(hash, k, |nodes|)
    requires if m == Main(hash, k, |nodes|) then Main(hash, nodes[m].key, |nodes|) != m && x == k
             else m == n && exists i :: 0 <= i < |nodes| && IsMainOf(hash, nodes, n, i) && nodes[i].key == x
    requires Live(k) && Live(x) && !RawEqual(k2, x) && free != m
    requires Main(hash, k2, |nodes|) == m && Overtaken(nodes, n, k, v)[m].val != Nil
    ensures var nodes' := Overtaken(nodes, n, k, v);
            && Main(hash, x, |nodes'|) == m != Main(hash, nodes'[m].key, |nodes'|)
            && forall turns :: Walked(Relocated(nodes', k2, m, free, prev), m, x, turns) == END
  {
    var r := Relocated(Overtaken(nodes, n, k, v), k2, m, free, prev);
    assert r[m] == Node(k2, Nil, END);
    forall turns: nat
      ensures Walked(r, m, x, turns) == END
    {
      assert turns > 0 ==> Walked(r, END, x, turns - 1) == END;
    }
  }

  /** If there is no value in node `m`, the code puts `k2` there as it is. In node `n` that makes the chains
      sound again. In the main position of `k` it does so exactly if `n` is the main position of no key
      elsewhere. */
  lemma NoFieldLost(hash: Hash, nodes: seq<Node>, at: seq<Place>, n: int, k: Key, v: Value, m: nat, k2: Key)
    requires Chained(hash, nodes, at) && StaleHit(hash, nodes, at, n, k) && m < |nodes| && n != Main(hash, k, |nodes|)
    requires m == n || (m == Main(hash, k, |nodes|) && Main(hash, nodes[m].key, |nodes|) != m)
    requires Live(k2) && Main(hash, k2, |nodes|) == m && Overtaken(nodes, n, k, v)[m].val == Nil
    ensures var nodes' := Overtaken(nodes, n, k, v);
            var r := nodes'[m := nodes'[m].(key := k2)];
            if m != n && exists i :: 0 <= i < |nodes| && i != m && IsMainOf(hash, nodes, n, i)
            then forall at' :: !Chained(hash, r, at') else Chained(hash, r, at)
  {
    hide Chained, StaleHit, IsMainOf, Main;
    StaleIsUsed(hash, nodes, at, n, k);
    var nodes' := Overtaken(nodes, n, k, v);
    var r := nodes'[m := nodes'[m].(key := k2)];
    if m == n {
      BackHome(hash, nodes, at, n, k2, r);
    } else if i :| 0 <= i < |nodes| && i != m && IsMainOf(hash, nodes, n, i) {
      forall at'
        ensures !Chained(hash, r, at')
      {
        MainOf(hash, nodes, n, i);
        NotAtHome(hash, r, at', i, n);
      }
    } else {
      BothHome(hash, nodes, at, n, k, m, k2, r);
    }
  }

  lemma MainOf(hash: Hash, nodes: seq<Node>, n: int, i: int)
    requires 0 <= i < |nodes| && IsMainOf(hash, nodes, n, i)
    ensures Used(nodes, i) && i != n && Main(hash, nodes[i].key, |nodes|) == n
  {
  }

  lemma BackHome(hash: Hash, nodes: seq<Node>, at: seq<Place>, n: int, k2: Key, r: seq<Node>)
    requires Chained(hash, nodes, at) && Used(nodes, n) && Live(k2) && Main(hash, k2, |nodes|) == n
    requires |r| == |nodes| && r[n].key == k2 && forall i :: 0 <= i < |nodes| ==>
               r[i].next == nodes[i].next && (i != n ==> r[i] == nodes[i])
    ensures Chained(hash, r, at)
  {
    TakesUsed(hash, nodes, at, k2, n);
    hide Chained;
    SameChains(hash, nodes[n := nodes[n].(key := k2)], r, at);
  }

  lemma StaleIsUsed(hash: Hash, nodes: seq<Node>, at: seq<Place>, n: int, k: Key)
    requires StaleHit(hash, nodes, at, n, k)
    ensures Used(nodes, n) && Used(nodes, Main(hash, k, |nodes|))
  {
  }

  /** Where a key of another main position is, no key is at home that belongs there. */
  lemma NotAtHome(hash: Hash, nodes: seq<Node>, at: seq<Place>, i: int, n: int)
    requires Used(nodes, i) && 0 <= n < |nodes| && i != n && Main(hash, nodes[i].key, |nodes|) == n
    requires Main(hash, nodes[n].key, |nodes|) != n
    ensures !Chained(hash, nodes, at)
  {
    hide LinksAhead, NoGaps, PlacesDiffer, FreeNodesEmpty;
  }

  lemma BothHome(hash: Hash, nodes: seq<Node>, at: seq<Place>, n: int, k: Key, m: nat, k2: Key, r: seq<Node>)
    requires Chained(hash, nodes, at) && StaleHit(hash, nodes, at, n, k) && m < |nodes| && n != m
    requires m == Main(hash, k, |nodes|) == Main(hash, k2, |nodes|) != Main(hash, nodes[m].key, |nodes|) && Live(k2)
    requires forall i :: 0 <= i < |nodes| && i != m ==> !IsMainOf(hash, nodes, n, i)
    requires |r| == |nodes| && r[n].key == k && r[m].key == k2 && forall i :: 0 <= i < |nodes| ==>
               r[i].next == nodes[i].next && (i != n && i != m ==> r[i] == nodes[i])
    ensures Chained(hash, r, at)
  {
    assert forall i :: Used(r, i) <==> Used(nodes, i);
    SameLinks(nodes, r, at);
    hide LinksAhead, NoGaps, PlacesDiffer;
    forall i | Used(r, i)
      ensures i == Main(hash, r[i].key, |r|) || AtHome(hash, r, at, i)
    {
      assert Used(nodes, i) && (i == Main(hash, nodes[i].key, |nodes|) || AtHome(hash, nodes, at, i));
      assert i != m ==> !IsMainOf(hash, nodes, n, i);
    }
  }

  // ---------- A table that loses a field ----------

  /** In four nodes, the strings with odd identity and the numbers up to 2 have main position 1, the
      others main position 0. */
  function ExampleHash(k: Key): nat {
    if k.KObj? then k.id % 2 else if k.KInt? && k.n <= 2 then 1 else 0
  }

  const OLD_STRING := KStale(7, LUA_TSTRING, 1)
  const NEW_STRING := KObj(7, LUA_TSTRING, 2)

  /** The numbers 1 and 2 and a string were put into one chain, the string was removed, and its object
      freed by a collection that found the table weak in keys and values. */
  const BEFORE := [Node(KInt(2), Of(20), 2), Node(KInt(1), Of(10), 0), Node(OLD_STRING, Nil, END), EMPTY]

  /** A new string at the old address gets the value 30... */
  const STORED := BEFORE[2 := Node(NEW_STRING, Of(30), END)]

  /** ... and then the number 3, whose main position is that of the new string, is inserted. */
  const AFTER := [Node(KInt(3), Nil, END), Node(KInt(1), Of(10), 3), Node(NEW_STRING, Of(30), END),
                  Node(KInt(2), Of(20), 2)]

  const EXAMPLE_PLACES := [Place(0, 1.0), Place(0, 0.0), Place(0, 2.0), Place(1, 0.0)]

  lemma ExampleHome()
    ensures AllHome(ExampleHash, BEFORE, EXAMPLE_PLACES)
  {
    assert Main(ExampleHash, KInt(1), 4) == 1 && Main(ExampleHash, KInt(2), 4) == 1;
    assert Main(ExampleHash, OLD_STRING, 4) == 1;
  }

  lemma ExampleChained()
    ensures Chained(ExampleHash, BEFORE, EXAMPLE_PLACES) && LiveFirst(ExampleHash, BEFORE, EXAMPLE_PLACES, true)
  {
    ExampleHome();
    hide AllHome, Main;
  }

  lemma LosesField(turns: nat)
    ensures Chained(ExampleHash, BEFORE, EXAMPLE_PLACES) && LiveFirst(ExampleHash, BEFORE, EXAMPLE_PLACES, true)
    ensures StaleHit(ExampleHash, BEFORE, EXAMPLE_PLACES, 2, NEW_STRING) && Misfits(ExampleHash, BEFORE, 2, NEW_STRING)
    ensures AFTER == Relocated(STORED, KInt(3), 0, 3, 1)
    ensures Main(ExampleHash, NEW_STRING, 4) == 0 && Walked(BEFORE, 0, NEW_STRING, 4) == 2
    ensures InNode(AFTER, NEW_STRING, Of(30)) && Walked(AFTER, 0, NEW_STRING, turns) == END
  {
    ExampleChained();
    hide Chained, LiveFirst;
    assert Used(AFTER, 2);
    assert turns > 0 ==> Walked(AFTER, END, NEW_STRING, turns - 1) == END;
  }
}
