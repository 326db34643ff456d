/** The hash part of a table (ltable.cpp): a chained scatter table with Brent's variation, its
    chains linked inside one vector of nodes. */
module HashPart {

  /** A key as the table tells keys apart. Numbers that are integers are `KInt`, whatever the
      arithmetic that made them. An object has a type `tag` and an address `o`, which another object
      may have had before it; `id` tells such objects apart, and no code can see it. `KDead` is the
      tag the collector gives a removed key. `KStale` is a key whose object is gone although the
      collector has not marked it, as it happens in tables with weak keys and weak values; the code
      cannot tell it from a key that is there. */
  datatype Key =
    | KNil | KNaN | KInt(n: int) | KNum(x: int) | KBool(b: bool) | KLight(p: nat)
    | KObj(o: nat, tag: nat, id: nat) | KDead(o: nat, tag: nat, id: nat) | KStale(o: nat, tag: nat, id: nat)

  const LUA_TSTRING := 4

  datatype Value = Nil | Of(v: int)

  /** `next` is the index of the next node of the chain, or `END`. */
  datatype Node = Node(key: Key, val: Value, next: int)

  const END := -1
  const EMPTY := Node(KNil, Nil, END)

  type Hash = Key -> nat

  predicate Gone(k: Key) {
    k.KDead? || k.KStale?
  }

  predicate Live(k: Key) {
    !k.KNil? && !Gone(k)
  }

  /** The key a node had before its object was gone. */
  function Undead(k: Key): Key {
    if Gone(k) then KObj(k.o, k.tag, k.id) else k
  }

  /** `luaO_rawequalObj`, for a key `a` of the table and a key `k` of the program: objects are
      compared by type and address. */
  predicate RawEqual(a: Key, k: Key) {
    a == k || ((a.KObj? || a.KStale?) && k.KObj? && a.o == k.o && a.tag == k.tag)
  }

  /** The gone key `a` passes for `k`: in a lookup if it has its type and address, in a traversal
      (`loose`), which knows dead keys too, if it has its address. */
  predicate Passes(a: Key, k: Key, loose: bool) {
    k.KObj? && Gone(a) && a.o == k.o && (loose || (a.KStale? && a.tag == k.tag))
  }

  /** `mainposition`: strings and booleans by a power of two, the others modulo an odd number. */
  function Main(hash: Hash, k: Key, size: nat): (m: nat)
    requires size > 0
    ensures m < size
  {
    var key := Undead(k);
    if key.KBool? || (key.KObj? && key.tag == LUA_TSTRING) then hash(key) % size
    else hash(key) % (if size == 1 then 1 else size - 1)
  }

  // ---------- The chains ----------

  /** Where a node stands: in which chain, and how far along it. */
  datatype Place = Place(chain: nat, rank: real)

  predicate Used(nodes: seq<Node>, i: int) {
    0 <= i < |nodes| && !nodes[i].key.KNil?
  }

  predicate Before(at: seq<Place>, i: int, j: int)
    requires 0 <= i < |at| && 0 <= j < |at|
  {
    at[i].chain == at[j].chain && at[i].rank < at[j].rank
  }

  predicate AtOrBefore(at: seq<Place>, i: int, j: int)
    requires 0 <= i < |at| && 0 <= j < |at|
  {
    at[i].chain == at[j].chain && at[i].rank <= at[j].rank
  }

  ghost predicate FreeNodesEmpty(nodes: seq<Node>) {
    forall i :: 0 <= i < |nodes| && nodes[i].key.KNil? ==> nodes[i] == EMPTY
  }

  /** A link leads to a node in use, further along the same chain. */
  ghost predicate LinksAhead(nodes: seq<Node>, at: seq<Place>)
    requires |at| == |nodes|
  {
    forall i :: Used(nodes, i) && nodes[i].next != END ==> Used(nodes, nodes[i].next) && Before(at, i, nodes[i].next)
  }

  /** No link jumps over a node. */
  ghost predicate NoGaps(nodes: seq<Node>, at: seq<Place>)
    requires |at| == |nodes|
  {
    forall i, j :: Used(nodes, i) && Used(nodes, j) && Before(at, i, j) ==>
      nodes[i].next != END && 0 <= nodes[i].next < |nodes| && AtOrBefore(at, nodes[i].next, j)
  }

  ghost predicate PlacesDiffer(nodes: seq<Node>, at: seq<Place>)
    requires |at| == |nodes|
  {
    forall i, j :: Used(nodes, i) && Used(nodes, j) && at[i] == at[j] ==> i == j
  }

  /** A key can be found from its main position; and if it is away from it, the node there holds
      a key that is in its own main position. */
  ghost predicate AtHome(hash: Hash, nodes: seq<Node>, at: seq<Place>, i: int)
    requires |at| == |nodes| && Used(nodes, i)
  {
    var m := Main(hash, nodes[i].key, |nodes|);
    Used(nodes, m) && AtOrBefore(at, m, i) && Main(hash, nodes[m].key, |nodes|) == m
  }

  ghost predicate AllHome(hash: Hash, nodes: seq<Node>, at: seq<Place>)
    requires |at| == |nodes|
  {
    forall i :: Used(nodes, i) ==> i == Main(hash, nodes[i].key, |nodes|) || AtHome(hash, nodes, at, i)
  }

  ghost predicate Chained(hash: Hash, nodes: seq<Node>, at: seq<Place>) {
    && |at| == |nodes| && FreeNodesEmpty(nodes) && LinksAhead(nodes, at) && NoGaps(nodes, at)
    && PlacesDiffer(nodes, at) && AllHome(hash, nodes, at)
  }

  /** On the way from the main position of an object, its node comes before any gone key that passes
      for it. */
  ghost predicate GoneBehind(hash: Hash, nodes: seq<Node>, at: seq<Place>, i: int, j: int, loose: bool)
    requires |at| == |nodes| && Used(nodes, i) && Used(nodes, j)
  {
    Passes(nodes[j].key, nodes[i].key, loose) ==>
      AtOrBefore(at, Main(hash, nodes[i].key, |nodes|), j) ==> Before(at, i, j)
  }

  ghost predicate LiveFirst(hash: Hash, nodes: seq<Node>, at: seq<Place>, loose: bool)
    requires |at| == |nodes|
  {
    forall i, j :: Used(nodes, i) && Used(nodes, j) ==> GoneBehind(hash, nodes, at, i, j, loose)
  }

  /** What one step does to the order of live and gone keys: nothing. */
  ghost predicate KeepsOrder(hash: Hash, nodes: seq<Node>, at: seq<Place>, nodes': seq<Node>, at': seq<Place>)
    requires |at| == |nodes| && |at'| == |nodes'|
  {
    forall loose :: LiveFirst(hash, nodes, at, loose) ==> LiveFirst(hash, nodes', at', loose)
  }

  /** At most one link leads to a node. */
  lemma OnePredecessor(hash: Hash, nodes: seq<Node>, at: seq<Place>, i: int, j: int)
    requires Chained(hash, nodes, at) && 0 <= i < |nodes| && 0 <= j < |nodes|
    requires nodes[i].next == nodes[j].next != END
    ensures i == j
  {
    assert Used(nodes, i) && Used(nodes, j);
    assert Before(at, i, j) || Before(at, j, i) || at[i] == at[j];
  }

  // ---------- Walking a chain ----------

  /** The nodes from `i` on. */
  ghost function Ahead(at: seq<Place>, i: int): set<int> {
    if 0 <= i < |at| then set j | 0 <= j < |at| && AtOrBefore(at, i, j) else {}
  }

  lemma Advances(hash: Hash, nodes: seq<Node>, at: seq<Place>, i: int)
    requires Chained(hash, nodes, at) && 0 <= i < |nodes|
    ensures END <= nodes[i].next < |nodes| && Ahead(at, nodes[i].next) < Ahead(at, i)
    ensures |Ahead(at, nodes[i].next)| < |Ahead(at, i)|
  {
    assert i in Ahead(at, i);
    if nodes[i].next != END {
      assert Used(nodes, i);
      assert i !in Ahead(at, nodes[i].next);
    }
    Smaller(Ahead(at, nodes[i].next), Ahead(at, i), i);
  }

  lemma Smaller<T>(a: set<T>, b: set<T>, x: T)
    requires a <= b && x in b && x !in a
    ensures |a| < |b|
  {
    assert b == a + (b - a) && x in b - a;
  }

  lemma SubsetCard<T>(a: set<T>, b: set<T>)
    requires a <= b
    ensures |a| <= |b|
  {
    assert b == a + (b - a);
  }

  /** What is further along the chain than `i` is reached through its link. */
  lemma Onward(hash: Hash, nodes: seq<Node>, at: seq<Place>, i: int, j: int)
    requires Chained(hash, nodes, at) && 0 <= i < |nodes| && Used(nodes, j) && i != j
    requires AtOrBefore(at, i, j) && Used(nodes, i)
    ensures nodes[i].next != END && AtOrBefore(at, nodes[i].next, j) && Used(nodes, nodes[i].next)
  {
    assert at[i] != at[j];
    assert Before(at, i, j);
  }

  lemma FreshChain(at: seq<Place>) returns (c: nat)
    ensures forall i :: 0 <= i < |at| ==> at[i].chain < c
  {
    c := 0;
    for k := 0 to |at|
      invariant forall i :: 0 <= i < k ==> at[i].chain < c
    {
      if at[k].chain >= c {
        c := at[k].chain + 1;
      }
    }
  }

  // ---------- The three ways a key gets its node ----------

  /** The main position holds no value: the key goes there, whatever chain the node is in. */
  lemma TakesMain(hash: Hash, nodes: seq<Node>, at: seq<Place>, k: Key, mp: nat) returns (at': seq<Place>)
    requires Chained(hash, nodes, at) && mp < |nodes| && Live(k) && Main(hash, k, |nodes|) == mp
    ensures Chained(hash, nodes[mp := nodes[mp].(key := k)], at')
    ensures KeepsOrder(hash, nodes, at, nodes[mp := nodes[mp].(key := k)], at')
  {
    if nodes[mp].key.KNil? {
      var c := FreshChain(at);
      at' := at[mp := Place(c, 0.0)];
      TakesFree(hash, nodes, at, k, mp, at');
    } else {
      at' := at;
      TakesUsed(hash, nodes, at, k, mp);
    }
    forall loose | LiveFirst(hash, nodes, at, loose)
      ensures LiveFirst(hash, nodes[mp := nodes[mp].(key := k)], at', loose)
    {
      MainLeads(hash, nodes, at, k, mp, at', loose);
    }
  }

  /** A new key in its own main position is the first of all that can be met from there. */
  lemma MainLeads(hash: Hash, nodes: seq<Node>, at: seq<Place>, k: Key, mp: nat, at': seq<Place>, loose: bool)
    requires Chained(hash, nodes, at) && LiveFirst(hash, nodes, at, loose) && mp < |nodes| && Live(k) &&
             Main(hash, k, |nodes|) == mp
    requires Chained(hash, nodes[mp := nodes[mp].(key := k)], at') &&
             forall i :: 0 <= i < |at| && i != mp ==> at'[i] == at[i]
    requires if Used(nodes, mp) then at' == at else forall i :: 0 <= i < |at| && i != mp ==>
             at'[i].chain != at'[mp].chain
    ensures LiveFirst(hash, nodes[mp := nodes[mp].(key := k)], at', loose)
  {
    var nodes' := nodes[mp := nodes[mp].(key := k)];
    hide LinksAhead, NoGaps;
    forall i, j | Used(nodes', i) && Used(nodes', j)
      ensures GoneBehind(hash, nodes', at', i, j, loose)
    {
      if j != mp && i != mp {
        assert Used(nodes, i) && Used(nodes, j) && GoneBehind(hash, nodes, at, i, j, loose);
        assert i == Main(hash, nodes[i].key, |nodes|) || AtHome(hash, nodes, at, i);
      } else if i == mp {
        assert j != mp ==> at'[i] != at'[j];
      }
    }
  }

  lemma TakesUsed(hash: Hash, nodes: seq<Node>, at: seq<Place>, k: Key, mp: nat)
    requires Chained(hash, nodes, at) && Used(nodes, mp) && Live(k) && Main(hash, k, |nodes|) == mp
    ensures Chained(hash, nodes[mp := nodes[mp].(key := k)], at)
  {
    var nodes' := nodes[mp := nodes[mp].(key := k)];
    forall i | Used(nodes', i)
      ensures i == Main(hash, nodes'[i].key, |nodes'|) || AtHome(hash, nodes', at, i)
    {
      assert Used(nodes, i);
    }
    assert forall i :: Used(nodes', i) ==> Used(nodes, i) && nodes'[i].next == nodes[i].next;
    forall i, j | Used(nodes', i) && Used(nodes', j) && Before(at, i, j)
      ensures nodes'[i].next != END && 0 <= nodes'[i].next < |nodes| && AtOrBefore(at, nodes'[i].next, j)
    {
      assert Used(nodes, i) && Used(nodes, j);
    }
  }

  lemma TakesFree(hash: Hash, nodes: seq<Node>, at: seq<Place>, k: Key, mp: nat, at': seq<Place>)
    requires Chained(hash, nodes, at) && mp < |nodes| && nodes[mp].key.KNil? && Live(k) && Main(hash, k, |nodes|) == mp
    requires |at'| == |at| && (forall i :: 0 <= i < |at| ==> at'[i].chain == at'[mp].chain ==> i == mp)
    requires forall i :: 0 <= i < |at| && i != mp ==> at'[i] == at[i]
    ensures Chained(hash, nodes[mp := nodes[mp].(key := k)], at')
  {
    var nodes' := nodes[mp := nodes[mp].(key := k)];
    assert forall i :: Used(nodes', i) && i != mp ==> Used(nodes, i) && nodes'[i] == nodes[i];
    assert nodes'[mp].next == END;
    TakesFreeGaps(nodes, at, nodes', mp, at');
    AloneHome(hash, nodes, at, nodes', at', mp);
  }

  lemma TakesFreeGaps(nodes: seq<Node>, at: seq<Place>, nodes': seq<Node>, mp: nat, at': seq<Place>)
    requires |nodes'| == |nodes| == |at| == |at'| && LinksAhead(nodes, at) && NoGaps(nodes, at) &&
             PlacesDiffer(nodes, at)
    requires mp < |nodes| && !Used(nodes, mp) && nodes'[mp].next == END
    requires forall i :: Used(nodes', i) && i != mp ==> Used(nodes, i) && nodes'[i] == nodes[i] && at'[i] == at[i]
    requires forall i :: Used(nodes, i) ==> Used(nodes', i)
    requires forall i :: 0 <= i < |at| ==> at'[i].chain == at'[mp].chain ==> i == mp
    ensures LinksAhead(nodes', at') && NoGaps(nodes', at') && PlacesDiffer(nodes', at')
  {
    forall i | Used(nodes', i) && nodes'[i].next != END
      ensures Used(nodes', nodes'[i].next) && Before(at', i, nodes'[i].next)
    {
      assert Used(nodes, i) && Used(nodes, nodes[i].next);
    }
    forall i, j | Used(nodes', i) && Used(nodes', j) && Before(at', i, j)
      ensures nodes'[i].next != END && 0 <= nodes'[i].next < |nodes| && AtOrBefore(at', nodes'[i].next, j)
    {
      assert Used(nodes, i) && Used(nodes, j) && Before(at, i, j);
      assert Used(nodes, nodes[i].next);
    }
  }

  /** A key alone in its chain, in its main position, disturbs no other. */
  lemma AloneHome(hash: Hash, nodes: seq<Node>, at: seq<Place>, nodes': seq<Node>, at': seq<Place>, mp: nat)
    requires |at| == |nodes| == |nodes'| == |at'| && AllHome(hash, nodes, at)
    requires Used(nodes', mp) && Main(hash, nodes'[mp].key, |nodes|) == mp
    requires !Used(nodes, mp) || Main(hash, nodes[mp].key, |nodes|) != mp
    requires forall i :: Used(nodes', i) && i != mp ==>
               exists j :: Used(nodes, j) && nodes'[i].key == nodes[j].key && at'[i] == at[j] && (i == j || j == mp)
    requires forall i :: Used(nodes, i) && i != mp ==>
             Used(nodes', i) && nodes'[i].key == nodes[i].key && at'[i] == at[i]
    ensures AllHome(hash, nodes', at')
  {
    forall i | Used(nodes', i)
      ensures i == Main(hash, nodes'[i].key, |nodes'|) || AtHome(hash, nodes', at', i)
    {
      if i != mp {
        var j :| Used(nodes, j) && nodes'[i].key == nodes[j].key && at'[i] == at[j] && (i == j || j == mp);
        assert j == Main(hash, nodes[j].key, |nodes|) || AtHome(hash, nodes, at, j);
      }
    }
  }

  /** The colliding key is in its own main position: the key goes to a free node after it. */
  function Inserted(nodes: seq<Node>, k: Key, mp: nat, n: nat): seq<Node>
    requires mp < |nodes| && n < |nodes|
  {
    nodes[n := Node(k, Nil, nodes[mp].next)][mp := nodes[mp].(next := n)]
  }

  lemma GoesAfter(hash: Hash, nodes: seq<Node>, at: seq<Place>, k: Key, mp: nat, n: nat) returns (at': seq<Place>)
    requires Chained(hash, nodes, at) && Used(nodes, mp) && n < |nodes| && nodes[n].key.KNil?
    requires Live(k) && Main(hash, k, |nodes|) == mp == Main(hash, nodes[mp].key, |nodes|)
    ensures Chained(hash, Inserted(nodes, k, mp, n), at')
    ensures !Gone(nodes[mp].key) ==> KeepsOrder(hash, nodes, at, Inserted(nodes, k, mp, n), at')
  {
    var x := nodes[mp].next;
    assert x != END ==> Used(nodes, x) && Before(at, mp, x);
    var r := if x == END then at[mp].rank + 1.0 else (at[mp].rank + at[x].rank) / 2.0;
    at' := at[n := Place(at[mp].chain, r)];
    InsertedLinks(hash, nodes, at, k, mp, n, at');
    InsertedGaps(hash, nodes, at, k, mp, n, at');
    InsertedHome(hash, nodes, at, k, mp, n, at');
    forall loose | LiveFirst(hash, nodes, at, loose) && !Gone(nodes[mp].key)
      ensures LiveFirst(hash, Inserted(nodes, k, mp, n), at', loose)
    {
      InsertedLeads(hash, nodes, at, k, mp, n, at', loose);
    }
  }

  /** A key right behind a live one in its main position comes before what was behind that. */
  lemma InsertedLeads(hash: Hash, nodes: seq<Node>, at: seq<Place>, k: Key, mp: nat, n: nat, at': seq<Place>,
                      loose: bool)
    requires Chained(hash, nodes, at) && Used(nodes, mp) && n < |nodes| && nodes[n].key.KNil?
    requires Live(k) && Main(hash, k, |nodes|) == mp && LiveFirst(hash, nodes, at, loose) && !Gone(nodes[mp].key)
    requires END <= nodes[mp].next < |nodes| && |at'| == |at| && JustAfter(nodes, at, at', mp, n)
    ensures LiveFirst(hash, Inserted(nodes, k, mp, n), at', loose)
  {
    var nodes' := Inserted(nodes, k, mp, n);
    forall i, j | Used(nodes', i) && Used(nodes', j)
      ensures GoneBehind(hash, nodes', at', i, j, loose)
    {
      if i != n && j != n {
        assert Used(nodes, i) && Used(nodes, j) && GoneBehind(hash, nodes, at, i, j, loose);
        assert i == Main(hash, nodes[i].key, |nodes|) || AtHome(hash, nodes, at, i);
      } else if i == n && j != n && j != mp && AtOrBefore(at', mp, j) {
        assert Used(nodes, j) && Before(at, mp, j);
      }
    }
  }

  /** Node `n` gets a place just after `mp`. */
  ghost predicate JustAfter(nodes: seq<Node>, at: seq<Place>, at': seq<Place>, mp: nat, n: nat)
    requires mp < |nodes| && n < |nodes| && |at| == |nodes| && -1 <= nodes[mp].next < |nodes|
  {
    && |at'| == |at| && at' == at[n := at'[n]] && n != mp && Before(at', mp, n)
    && (nodes[mp].next != END ==> nodes[mp].next != n && Before(at', n, nodes[mp].next))
  }

  lemma InsertedLinks(hash: Hash, nodes: seq<Node>, at: seq<Place>, k: Key, mp: nat, n: nat, at': seq<Place>)
    requires Chained(hash, nodes, at) && Used(nodes, mp) && n < |nodes| && nodes[n].key.KNil? && Live(k)
    requires END <= nodes[mp].next < |nodes| && |at'| == |at| && JustAfter(nodes, at, at', mp, n)
    ensures var nodes' := Inserted(nodes, k, mp, n); FreeNodesEmpty(nodes') && LinksAhead(nodes', at')
  {
    var nodes' := Inserted(nodes, k, mp, n);
    forall i | Used(nodes', i) && nodes'[i].next != END
      ensures Used(nodes', nodes'[i].next) && Before(at', i, nodes'[i].next)
    {
      if i != n && i != mp {
        assert Used(nodes, i) && Used(nodes, nodes[i].next) && Before(at, i, nodes[i].next);
      }
    }
  }

  lemma InsertedGaps(hash: Hash, nodes: seq<Node>, at: seq<Place>, k: Key, mp: nat, n: nat, at': seq<Place>)
    requires Chained(hash, nodes, at) && Used(nodes, mp) && n < |nodes| && nodes[n].key.KNil? && Live(k)
    requires END <= nodes[mp].next < |nodes| && |at'| == |at| && JustAfter(nodes, at, at', mp, n)
    ensures var nodes' := Inserted(nodes, k, mp, n); NoGaps(nodes', at') && PlacesDiffer(nodes', at')
  {
    var nodes' := Inserted(nodes, k, mp, n);
    forall j | Used(nodes, j)
      ensures AtOrBefore(at, j, mp) || (Before(at', n, j) && nodes[mp].next != END &&
                                        AtOrBefore(at, nodes[mp].next, j)) || at[j].chain != at[mp].chain
    {
      if at[j].chain == at[mp].chain && at[j].rank > at[mp].rank {
        assert Before(at, mp, j);
      }
    }
    forall i, j | Used(nodes', i) && Used(nodes', j) && Before(at', i, j)
      ensures nodes'[i].next != END && 0 <= nodes'[i].next < |nodes| && AtOrBefore(at', nodes'[i].next, j)
    {
      if i == n || i == mp {
        assert j != n ==> Used(nodes, j);
      } else if j == n {
        assert Used(nodes, i) && AtOrBefore(at, i, mp) && at[i] != at[mp];
        assert Before(at, i, mp);
      } else {
        assert Used(nodes, i) && Used(nodes, j) && Before(at, i, j);
      }
    }
    forall i, j | Used(nodes', i) && Used(nodes', j) && at'[i] == at'[j]
      ensures i == j
    {
      assert i != n ==> Used(nodes, i);
      assert j != n ==> Used(nodes, j);
    }
  }

  lemma InsertedHome(hash: Hash, nodes: seq<Node>, at: seq<Place>, k: Key, mp: nat, n: nat, at': seq<Place>)
    requires Chained(hash, nodes, at) && Used(nodes, mp) && n < |nodes| && nodes[n].key.KNil?
    requires Live(k) && Main(hash, k, |nodes|) == mp == Main(hash, nodes[mp].key, |nodes|)
    requires END <= nodes[mp].next < |nodes| && |at'| == |at| && JustAfter(nodes, at, at', mp, n)
    ensures AllHome(hash, Inserted(nodes, k, mp, n), at')
  {
    var nodes' := Inserted(nodes, k, mp, n);
    forall i | Used(nodes', i)
      ensures i == Main(hash, nodes'[i].key, |nodes'|) || AtHome(hash, nodes', at', i)
    {
      if i != n {
        assert Used(nodes, i);
        assert i == Main(hash, nodes[i].key, |nodes|) || AtHome(hash, nodes, at, i);
      }
    }
  }

  /** The colliding key is away from its main position: it moves to a free node, which takes its
      place in the chain after `prev`, and the new key gets the main position. */
  function Relocated(nodes: seq<Node>, k: Key, mp: nat, n: nat, prev: nat): seq<Node>
    requires mp < |nodes| && n < |nodes| && prev < |nodes|
  {
    nodes[prev := nodes[prev].(next := n)][n := nodes[mp]][mp := Node(k, Nil, END)]
  }

  lemma MovesOut(hash: Hash, nodes: seq<Node>, at: seq<Place>, k: Key, mp: nat, n: nat, prev: nat)
    returns (at': seq<Place>)
    requires Chained(hash, nodes, at) && Used(nodes, mp) && n < |nodes| && nodes[n].key.KNil?
    requires prev < |nodes| && nodes[prev].next == mp
    requires Live(k) && Main(hash, k, |nodes|) == mp != Main(hash, nodes[mp].key, |nodes|)
    ensures Chained(hash, Relocated(nodes, k, mp, n, prev), at')
    ensures KeepsOrder(hash, nodes, at, Relocated(nodes, k, mp, n, prev), at')
  {
    var c := FreshChain(at);
    at' := at[n := at[mp]][mp := Place(c, 0.0)];
    assert Used(nodes, prev) && Before(at, prev, mp);
    assert forall i :: 0 <= i < |at| && i != mp && i != n ==> at'[i].chain == at[i].chain < c;
    RelocatedLinks(hash, nodes, at, k, mp, n, prev, at');
    RelocatedGaps(hash, nodes, at, k, mp, n, prev, at');
    RelocatedHome(hash, nodes, at, k, mp, n, prev, at');
    forall loose | LiveFirst(hash, nodes, at, loose)
      ensures LiveFirst(hash, Relocated(nodes, k, mp, n, prev), at', loose)
    {
      RelocatedLeads(hash, nodes, at, k, mp, n, prev, at', loose);
    }
  }

  /** A chain keeps its order when a node of it moves, and the new key is alone. */
  lemma RelocatedLeads(hash: Hash, nodes: seq<Node>, at: seq<Place>, k: Key, mp: nat, n: nat, prev: nat,
                       at': seq<Place>, loose: bool)
    requires Chained(hash, nodes, at) && Used(nodes, mp) && n < |nodes| && nodes[n].key.KNil? &&
             LiveFirst(hash, nodes, at, loose)
    requires prev < |nodes| && nodes[prev].next == mp && Used(nodes, prev)
    requires Live(k) && Main(hash, k, |nodes|) == mp != Main(hash, nodes[mp].key, |nodes|)
    requires |at'| == |at| && TakesPlace(at, at', mp, n)
    ensures LiveFirst(hash, Relocated(nodes, k, mp, n, prev), at', loose)
  {
    hide Main;
    var nodes' := Relocated(nodes, k, mp, n, prev);
    forall i, j | Used(nodes', i) && Used(nodes', j)
      ensures GoneBehind(hash, nodes', at', i, j, loose)
    {
      if i != mp && j != mp {
        var i0, j0 := if i == n then mp else i, if j == n then mp else j;
        assert Used(nodes, i0) && Used(nodes, j0) && GoneBehind(hash, nodes, at, i0, j0, loose);
        assert i0 == Main(hash, nodes[i0].key, |nodes|) || AtHome(hash, nodes, at, i0);
      }
    }
  }

  /** Node `n` takes the place of `mp`, and `mp` gets a chain of its own. */
  ghost predicate TakesPlace(at: seq<Place>, at': seq<Place>, mp: nat, n: nat)
    requires mp < |at| && n < |at|
  {
    && n != mp && |at'| == |at| && at' == at[n := at[mp]][mp := at'[mp]]
    && forall i :: 0 <= i < |at'| && i != mp ==> at'[i].chain != at'[mp].chain
  }

  lemma RelocatedLinks(hash: Hash, nodes: seq<Node>, at: seq<Place>, k: Key, mp: nat, n: nat, prev: nat,
                       at': seq<Place>)
    requires Chained(hash, nodes, at) && Used(nodes, mp) && n < |nodes| && nodes[n].key.KNil? && Live(k)
    requires prev < |nodes| && nodes[prev].next == mp && Used(nodes, prev) && Before(at, prev, mp)
    requires |at'| == |at| && TakesPlace(at, at', mp, n)
    ensures var nodes' := Relocated(nodes, k, mp, n, prev); FreeNodesEmpty(nodes') && LinksAhead(nodes', at')
  {
    var nodes' := Relocated(nodes, k, mp, n, prev);
    forall i | Used(nodes', i) && nodes'[i].next != END
      ensures Used(nodes', nodes'[i].next) && Before(at', i, nodes'[i].next)
    {
      var j := if i == n then mp else i;
      assert Used(nodes, j) && Used(nodes, nodes[j].next) && Before(at, j, nodes[j].next);
      if j != prev && nodes[j].next == mp {
        OnePredecessor(hash, nodes, at, j, prev);
      }
    }
  }

  lemma RelocatedGaps(hash: Hash, nodes: seq<Node>, at: seq<Place>, k: Key, mp: nat, n: nat, prev: nat, at': seq<Place>)
    requires Chained(hash, nodes, at) && Used(nodes, mp) && n < |nodes| && nodes[n].key.KNil? && Live(k)
    requires prev < |nodes| && nodes[prev].next == mp && Used(nodes, prev) && Before(at, prev, mp)
    requires |at'| == |at| && TakesPlace(at, at', mp, n)
    ensures var nodes' := Relocated(nodes, k, mp, n, prev); NoGaps(nodes', at') && PlacesDiffer(nodes', at')
  {
    var nodes' := Relocated(nodes, k, mp, n, prev);
    forall i, j | Used(nodes', i) && Used(nodes', j) && Before(at', i, j)
      ensures nodes'[i].next != END && 0 <= nodes'[i].next < |nodes| && AtOrBefore(at', nodes'[i].next, j)
    {
      var i0, j0 := if i == n then mp else i, if j == n then mp else j;
      assert Used(nodes, i0) && Used(nodes, j0) && Before(at, i0, j0);
      assert AtOrBefore(at, nodes[i0].next, j0) && Used(nodes, nodes[i0].next);
      if i0 != prev && nodes[i0].next == mp {
        OnePredecessor(hash, nodes, at, i0, prev);
      }
    }
    forall i, j | Used(nodes', i) && Used(nodes', j) && at'[i] == at'[j]
      ensures i == j
    {
      var i0, j0 := if i == n then mp else i, if j == n then mp else j;
      assert Used(nodes, i0) && Used(nodes, j0);
    }
  }

  lemma RelocatedHome(hash: Hash, nodes: seq<Node>, at: seq<Place>, k: Key, mp: nat, n: nat, prev: nat, at': seq<Place>)
    requires Chained(hash, nodes, at) && Used(nodes, mp) && n < |nodes| && nodes[n].key.KNil?
    requires prev < |nodes| && nodes[prev].next == mp && Used(nodes, prev)
    requires Live(k) && Main(hash, k, |nodes|) == mp != Main(hash, nodes[mp].key, |nodes|)
    requires |at'| == |at| && TakesPlace(at, at', mp, n)
    ensures AllHome(hash, Relocated(nodes, k, mp, n, prev), at')
  {
    var nodes' := Relocated(nodes, k, mp, n, prev);
    forall i | Used(nodes', i) && i != mp
      ensures exists j :: Used(nodes, j) && nodes'[i].key == nodes[j].key && at'[i] == at[j] && (i == j || j == mp)
    {
      var j := if i == n then mp else i;
      assert Used(nodes, j) && nodes'[i].key == nodes[j].key && at'[i] == at[j];
    }
    AloneHome(hash, nodes, at, nodes', at', mp);
  }
}
