/** What a table means: the map that its array part and its hash part hold together. */
module TableContents {
  import opened Common
  import opened HashPart
  import opened TableSizes

  predicate InArray(k: Key, n: nat) {
    k.KInt? && 1 <= k.n <= n
  }

  /** No key has two places: none twice in the hash part, none in both parts. */
  ghost predicate Keyed(arr: seq<Value>, nodes: seq<Node>) {
    && (forall i :: Used(nodes, i) ==>
          !InArray(nodes[i].key, |arr|) && !nodes[i].key.KNaN? && (Gone(nodes[i].key) ==> nodes[i].val == Nil))
    && (forall i, j :: Used(nodes, i) && Used(nodes, j) && nodes[i].key == nodes[j].key && Live(nodes[i].key) ==>
        i == j)
  }

  ghost predicate InNode(nodes: seq<Node>, k: Key, v: Value) {
    exists i :: Used(nodes, i) && nodes[i].key == k && nodes[i].val == v
  }

  ghost predicate Holds(arr: seq<Value>, nodes: seq<Node>, k: Key, v: Value) {
    if InArray(k, |arr|) then arr[k.n - 1] == v else InNode(nodes, k, v)
  }

  /** The two parts hold exactly the pairs of `m`; a nil value is no pair. */
  ghost predicate Represents(arr: seq<Value>, nodes: seq<Node>, m: map<Key, Value>) {
    && (forall k :: k in m ==> m[k] != Nil && Live(k) && Holds(arr, nodes, k, m[k]))
    && (forall i :: 0 <= i < |arr| && arr[i] != Nil ==> KInt(i + 1) in m && m[KInt(i + 1)] == arr[i])
    && (forall i :: Used(nodes, i) && nodes[i].val != Nil ==> nodes[i].key in m && m[nodes[i].key] == nodes[i].val)
  }

  ghost predicate Missing(nodes: seq<Node>, k: Key) {
    forall i :: Used(nodes, i) ==> nodes[i].key != k
  }

  // ---------- A new key, still without a value ----------

  function Source(i: int, slot: int, to: int): int {
    if i == to then slot else i
  }

  /** `nodes'` is `nodes` with the key `k`, without a value, in node `slot`; what was there moved
      to node `to`, unless it had no value (then `to` is `END`). */
  ghost predicate Adds(nodes: seq<Node>, nodes': seq<Node>, k: Key, slot: int, to: int) {
    && |nodes'| == |nodes| && 0 <= slot < |nodes| && nodes'[slot].key == k && nodes'[slot].val == Nil
    && (if to == END then nodes[slot].val == Nil else 0 <= to < |nodes| && to != slot && nodes[to].key.KNil?)
    && forall i :: 0 <= i < |nodes| && i != slot ==>
         nodes'[i].key == nodes[Source(i, slot, to)].key && nodes'[i].val == nodes[Source(i, slot, to)].val
  }

  lemma AddsKeyed(arr: seq<Value>, nodes: seq<Node>, nodes': seq<Node>, k: Key, slot: int, to: int)
    requires Adds(nodes, nodes', k, slot, to) && Keyed(arr, nodes)
    requires Live(k) && !k.KNaN? && Missing(nodes, k) && !InArray(k, |arr|)
    ensures Keyed(arr, nodes')
  {
    forall i | Used(nodes', i) && i != slot
      ensures Used(nodes, Source(i, slot, to)) && nodes'[i].key != k
    {
    }
    forall i, j | Used(nodes', i) && Used(nodes', j) && nodes'[i].key == nodes'[j].key && Live(nodes'[i].key)
      ensures i == j
    {
      if i != slot && j != slot {
        assert Source(i, slot, to) == Source(j, slot, to);
      }
    }
  }

  lemma AddsPairs(arr: seq<Value>, nodes: seq<Node>, nodes': seq<Node>, k: Key, slot: int, to: int, m: map<Key, Value>)
    requires Adds(nodes, nodes', k, slot, to) && FreeNodesEmpty(nodes) && Represents(arr, nodes, m)
    ensures Represents(arr, nodes', m)
  {
    forall x | x in m
      ensures Holds(arr, nodes', x, m[x])
    {
      assert Holds(arr, nodes, x, m[x]);
      if !InArray(x, |arr|) {
        var i :| Used(nodes, i) && nodes[i].key == x && nodes[i].val == m[x];
        var i' := if i == slot then to else i;
        assert Source(i', slot, to) == i;
        assert Used(nodes', i') && nodes'[i'].key == x && nodes'[i'].val == m[x];
      }
    }
    forall i | Used(nodes', i) && nodes'[i].val != Nil
      ensures nodes'[i].key in m && m[nodes'[i].key] == nodes'[i].val
    {
      assert Used(nodes, Source(i, slot, to));
    }
  }

  /** The keys of the new nodes are the old ones and `k`. */
  lemma AddsKeys(nodes: seq<Node>, nodes': seq<Node>, k: Key, slot: int, to: int, keys: set<Key>)
    requires Adds(nodes, nodes', k, slot, to)
    requires forall i :: Used(nodes, i) ==> nodes[i].key in keys
    ensures forall i :: Used(nodes', i) ==> nodes'[i].key in keys + {k}
  {
    forall i | Used(nodes', i)
      ensures nodes'[i].key in keys + {k}
    {
      assert i != slot ==> Used(nodes, Source(i, slot, to));
    }
  }

  // ---------- Storing a value ----------

  function Put(m: map<Key, Value>, k: Key, v: Value): map<Key, Value> {
    if v == Nil then m - {k} else m[k := v]
  }

  lemma StoresInArray(arr: seq<Value>, nodes: seq<Node>, m: map<Key, Value>, i: int, v: Value)
    requires Keyed(arr, nodes) && Represents(arr, nodes, m) && 0 <= i < |arr|
    ensures Represents(arr[i := v], nodes, Put(m, KInt(i + 1), v))
  {
    var k := KInt(i + 1);
    var m' := Put(m, k, v);
    forall x | x in m'
      ensures Live(x) && m'[x] != Nil && Holds(arr[i := v], nodes, x, m'[x])
    {
      assert x != k ==> Holds(arr, nodes, x, m[x]);
    }
    assert forall j :: Used(nodes, j) ==> nodes[j].key != k;
  }

  lemma StoresInNode(arr: seq<Value>, nodes: seq<Node>, m: map<Key, Value>, i: int, v: Value)
    requires Keyed(arr, nodes) && Represents(arr, nodes, m) && Used(nodes, i) && Live(nodes[i].key)
    ensures Keyed(arr, nodes[i := nodes[i].(val := v)])
    ensures Represents(arr, nodes[i := nodes[i].(val := v)], Put(m, nodes[i].key, v))
  {
    var nodes' := nodes[i := nodes[i].(val := v)];
    assert forall j :: Used(nodes', j) <==> Used(nodes, j);
    StoresPairs(arr, nodes, m, i, v, nodes', Put(m, nodes[i].key, v));
  }

  lemma StoresPairs(arr: seq<Value>, nodes: seq<Node>, m: map<Key, Value>, i: int, v: Value, nodes': seq<Node>,
                    m': map<Key, Value>)
    requires Keyed(arr, nodes) && Represents(arr, nodes, m) && Used(nodes, i) && Live(nodes[i].key)
    requires nodes' == nodes[i := nodes[i].(val := v)] && m' == Put(m, nodes[i].key, v)
    ensures Represents(arr, nodes', m')
  {
    var k := nodes[i].key;
    forall x | x in m'
      ensures Live(x) && m'[x] != Nil && Holds(arr, nodes', x, m'[x])
    {
      if x == k {
        assert Used(nodes', i) && nodes'[i].key == k && nodes'[i].val == v;
      } else {
        assert Holds(arr, nodes, x, m[x]);
        if !InArray(x, |arr|) {
          var j :| Used(nodes, j) && nodes[j].key == x && nodes[j].val == m[x];
          assert Used(nodes', j) && nodes'[j].key == x && nodes'[j].val == m[x];
        }
      }
    }
    forall j | Used(nodes', j) && nodes'[j].val != Nil
      ensures nodes'[j].key in m' && m'[nodes'[j].key] == nodes'[j].val
    {
      assert Used(nodes, j);
    }
  }

  /** A chain depends on keys and links only. */
  lemma SameChains(hash: Hash, nodes: seq<Node>, nodes': seq<Node>, at: seq<Place>)
    requires Chained(hash, nodes, at) && |nodes'| == |nodes|
    requires forall i :: 0 <= i < |nodes| ==>
               nodes'[i].next == nodes[i].next && Undead(nodes'[i].key) == Undead(nodes[i].key)
    requires forall i :: 0 <= i < |nodes| && nodes'[i].key.KNil? ==> nodes'[i] == nodes[i]
    ensures Chained(hash, nodes', at)
  {
    assert forall i :: Used(nodes', i) <==> Used(nodes, i);
    SameLinks(nodes, nodes', at);
    forall i | Used(nodes', i)
      ensures i == Main(hash, nodes'[i].key, |nodes'|) || AtHome(hash, nodes', at, i)
    {
      assert Used(nodes, i);
      assert i == Main(hash, nodes[i].key, |nodes|) || AtHome(hash, nodes, at, i);
    }
  }

  lemma SameLeads(hash: Hash, nodes: seq<Node>, nodes': seq<Node>, at: seq<Place>)
    requires |at| == |nodes| == |nodes'|
    requires forall i :: 0 <= i < |nodes| ==> nodes'[i].key == nodes[i].key
    ensures KeepsOrder(hash, nodes, at, nodes', at)
  {
    forall loose, i, j | LiveFirst(hash, nodes, at, loose) && Used(nodes', i) && Used(nodes', j)
      ensures GoneBehind(hash, nodes', at, i, j, loose)
    {
      assert Used(nodes, i) && Used(nodes, j) && GoneBehind(hash, nodes, at, i, j, loose);
    }
  }

  // ---------- Addresses ----------

  /** The objects that are keys, dead ones left out. */
  ghost function ObjKeys(nodes: seq<Node>): set<Key> {
    set i | 0 <= i < |nodes| && nodes[i].key.KObj? :: nodes[i].key
  }

  /** Different objects that are there at one time have different addresses. */
  ghost predicate Apart(keys: set<Key>) {
    forall a, b :: a in keys && b in keys && a.KObj? && b.KObj? && a.o == b.o ==> a == b
  }

  lemma ApartLess(keys: set<Key>, keys': set<Key>)
    requires Apart(keys) && keys' <= keys
    ensures Apart(keys')
  {
  }

  lemma OneWithAddress(arr: seq<Value>, nodes: seq<Node>, i: int, j: int)
    requires Keyed(arr, nodes) && Apart(ObjKeys(nodes)) && Used(nodes, i) && Used(nodes, j)
    requires nodes[i].key.KObj? && nodes[j].key.KObj? && nodes[i].key.o == nodes[j].key.o
    ensures i == j
  {
    assert nodes[i].key in ObjKeys(nodes) && nodes[j].key in ObjKeys(nodes);
  }

  // ---------- What a collection does to empty entries ----------

  /** `removeentry`: the key of an entry without a value is marked dead if it is an object. */
  function Pruned(n: Node): Node {
    if n.val == Nil && (n.key.KObj? || n.key.KStale?) then n.(key := KDead(n.key.o, n.key.tag, n.key.id)) else n
  }

  function PrunedAll(nodes: seq<Node>): seq<Node> {
    seq(|nodes|, i requires 0 <= i < |nodes| => Pruned(nodes[i]))
  }

  /** In a table weak in keys and values the entry stays as it is while its object goes. */
  function Abandoned(n: Node): Node {
    if n.val == Nil && n.key.KObj? then n.(key := KStale(n.key.o, n.key.tag, n.key.id)) else n
  }

  function AbandonedAll(nodes: seq<Node>): seq<Node> {
    seq(|nodes|, i requires 0 <= i < |nodes| => Abandoned(nodes[i]))
  }

  /** A key whose object goes disturbs nothing if no other one that is there has its address. */
  lemma GoneLeads(hash: Hash, arr: seq<Value>, nodes: seq<Node>, nodes': seq<Node>, at: seq<Place>, n: nat, gone: Key)
    requires |at| == |nodes| && Keyed(arr, nodes) && Apart(ObjKeys(nodes))
    requires n < |nodes| && nodes' == nodes[n := nodes[n].(key := gone)]
    requires nodes[n].key.KObj? || (nodes[n].key.KStale? && gone.KDead?)
    requires Gone(gone) && Undead(gone) == Undead(nodes[n].key)
    ensures KeepsOrder(hash, nodes, at, nodes', at) && ObjKeys(nodes') <= ObjKeys(nodes)
  {
    hide Apart, ObjKeys;
    forall loose, i, j | LiveFirst(hash, nodes, at, loose) && Used(nodes', i) && Used(nodes', j)
      ensures GoneBehind(hash, nodes', at, i, j, loose)
    {
      assert Used(nodes, i) && Used(nodes, j) && GoneBehind(hash, nodes, at, i, j, loose);
      if i != n && j == n && nodes[j].key.KObj? && nodes[i].key.KObj? && nodes[i].key.o == gone.o {
        OneWithAddress(arr, nodes, i, j);
      }
    }
    FewerObjKeys(nodes, nodes', n);
  }

  lemma FewerObjKeys(nodes: seq<Node>, nodes': seq<Node>, n: nat)
    requires |nodes'| == |nodes| && n < |nodes| && !nodes'[n].key.KObj? &&
             forall i :: 0 <= i < |nodes| && i != n ==> nodes'[i] == nodes[i]
    ensures ObjKeys(nodes') <= ObjKeys(nodes)
  {
    forall k | k in ObjKeys(nodes')
      ensures k in ObjKeys(nodes)
    {
      var i :| 0 <= i < |nodes'| && nodes'[i].key.KObj? && nodes'[i].key == k;
      assert nodes[i].key == k;
    }
  }

  /** Whatever objects are keys now were keys before, or in the map, which they then were too. */
  lemma ObjKeysFrom(nodes: seq<Node>, nodes': seq<Node>, keys: set<Key>)
    requires forall i :: Used(nodes', i) ==> nodes'[i].key in keys
    requires forall k :: k in keys && k.KObj? ==> k in ObjKeys(nodes)
    ensures ObjKeys(nodes') <= ObjKeys(nodes)
  {
    forall k | k in ObjKeys(nodes')
      ensures k in ObjKeys(nodes)
    {
      var i :| 0 <= i < |nodes'| && nodes'[i].key.KObj? && nodes'[i].key == k;
      assert Used(nodes', i);
    }
  }

  lemma ObjKeysOfMap(arr: seq<Value>, nodes: seq<Node>, m: map<Key, Value>)
    requires Represents(arr, nodes, m)
    ensures forall k :: k in m && k.KObj? ==> k in ObjKeys(nodes)
  {
    forall k | k in m && k.KObj?
      ensures k in ObjKeys(nodes)
    {
      assert Holds(arr, nodes, k, m[k]);
    }
  }

  lemma SameLinks(nodes: seq<Node>, nodes': seq<Node>, at: seq<Place>)
    requires |nodes'| == |nodes| == |at| && LinksAhead(nodes, at) && NoGaps(nodes, at) && PlacesDiffer(nodes, at)
    requires forall i :: 0 <= i < |nodes| ==> nodes'[i].next == nodes[i].next
    requires forall i :: Used(nodes', i) <==> Used(nodes, i)
    ensures LinksAhead(nodes', at) && NoGaps(nodes', at) && PlacesDiffer(nodes', at)
  {
  }

  // ---------- An empty hash part ----------

  function ArrayMap(arr: seq<Value>): map<Key, Value> {
    map k | k in (set i | 0 <= i < |arr| && arr[i] != Nil :: KInt(i + 1)) :: arr[k.n - 1]
  }

  ghost predicate AllEmpty(nodes: seq<Node>) {
    forall i :: 0 <= i < |nodes| ==> nodes[i] == EMPTY
  }

  lemma EmptyRepresents(arr: seq<Value>, nodes: seq<Node>)
    requires AllEmpty(nodes)
    ensures Keyed(arr, nodes) && Represents(arr, nodes, ArrayMap(arr))
  {
  }

  // ---------- Counting ----------

  ghost function Outside(m: map<Key, Value>, n: nat): set<Key> {
    set k | k in m && !InArray(k, n)
  }

  /** Distinct keys fill at most as many nodes as there are keys. */
  lemma {:induction false} FullNodes(nodes: seq<Node>, n: nat, keys: set<Key>)
    requires n <= |nodes| && forall i :: 0 <= i < n ==> nodes[i].key in keys
    requires forall i, j :: 0 <= i < j < n ==> nodes[i].key != nodes[j].key
    ensures n <= |keys|
  {
    if n > 0 {
      FullNodes(nodes, n - 1, keys - {nodes[n - 1].key});
    }
  }

  /** The keys that are candidates for the array part, as numbers. */
  ghost function Ints(keys: set<Key>): set<int> {
    set k | k in keys && InArray(k, MAXASIZE) :: k.n
  }

  predicate ArrayHas(arr: seq<Value>, i: int) {
    1 <= i <= |arr| && arr[i - 1] != Nil
  }

  ghost function ArrayInts(arr: seq<Value>, n: nat): set<int>
    requires n <= |arr|
  {
    set i | 1 <= i <= n && ArrayHas(arr, i)
  }

  ghost predicate Counted(nums: seq<nat>, ints: set<int>) {
    |nums| == MAXBITS + 1 && forall i :: 0 <= i <= MAXBITS ==> nums[i] == |Slice(ints, i)|
  }

  /** One more key, in slice `i`. */
  lemma CountsOne(nums: seq<nat>, ints: set<int>, k: int, i: nat)
    requires Counted(nums, ints) && k !in ints && InSlice(k, i) && i <= MAXBITS
    ensures Counted(nums[i := nums[i] + 1], ints + {k})
  {
    assert Slice(ints + {k}, i) == Slice(ints, i) + {k};
    forall j: nat | j <= MAXBITS && j != i
      ensures Slice(ints + {k}, j) == Slice(ints, j)
    {
      if InSlice(k, j) {
        SliceUnique(k, i, j);
      }
    }
  }

  lemma {:induction false} KIntsCard(ints: set<int>, keys: set<Key>)
    requires keys == set i | i in ints :: KInt(i)
    ensures |keys| == |ints|
  {
    if |keys| == 0 {
      assert keys == {};
      assert forall i :: i in ints ==> KInt(i) in keys;
      assert forall i :: i !in ints;
    } else {
      var k :| k in keys;
      KIntsCard(ints - {k.n}, keys - {k});
    }
  }

  /** The keys split into those that go to an array part of size `n` and the rest. */
  lemma KeysSplit(keys: set<Key>, n: nat)
    requires n <= MAXASIZE
    ensures |set k | k in keys && !InArray(k, n)| == |keys| - |UpTo(Ints(keys), n)|
  {
    var ins := set k | k in keys && InArray(k, n);
    var outs := set k | k in keys && !InArray(k, n);
    assert keys == ins + outs && ins * outs == {};
    forall i | i in UpTo(Ints(keys), n)
      ensures KInt(i) in ins
    {
      var k :| k in keys && InArray(k, MAXASIZE) && k.n == i;
      assert k == KInt(i);
    }
    assert ins == set i | i in UpTo(Ints(keys), n) :: KInt(i) by {
      forall k | k in ins
        ensures k.n in UpTo(Ints(keys), n) && k == KInt(k.n)
      {
      }
    }
    KIntsCard(UpTo(Ints(keys), n), ins);
  }

  lemma BestFits(ints: set<int>, n: nat)
    requires ArrayKeys(ints) && Best(ints, n)
    ensures n <= MAXASIZE
  {
    if n > 0 {
      var i: nat :| n == Pow2(i);
      UpToCard(ints, n);
      IndexFits(ints, i);
      Pow2Max();
      if i < MAXBITS {
        Pow2Grows(i, MAXBITS);
      }
    }
  }
}
