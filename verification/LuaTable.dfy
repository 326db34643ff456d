/** Tables as they run (ltable.cpp): an array part and a hash part, updated in place. */
module LuaTables {
  import opened Common
  import opened HashPart
  import opened TableSizes
  import opened TableContents
  import opened StaleKeys

  /** Where a value is stored; `NoSlot` stands for `luaO_nilobject`. */
  datatype Slot = ArraySlot(i: nat) | NodeSlot(i: nat) | NoSlot

  /** `Misplaced`: the assignment was done, in a node that does not fit the key. The code does not notice. */
  datatype Outcome = Done | NilIndex | NaNIndex | Overflow | Misplaced

  /** Every node from `lastFree` on is in use. */
  ghost predicate UsedFrom(nodes: seq<Node>, lastFree: int) {
    lastFree <= |nodes| && forall i :: 0 <= i && lastFree <= i < |nodes| ==> Used(nodes, i)
  }

  /** How a key of the table is compared with a key of the program: `findindex` (`loose`) knows dead keys
      too, by their addresses. */
  predicate Meets(nodeKey: Key, k: Key, loose: bool) {
    RawEqual(nodeKey, k) || (loose && nodeKey.KDead? && k.KObj? && nodeKey.o == k.o)
  }

  ghost predicate HasFree(nodes: seq<Node>) {
    exists i :: 0 <= i < |nodes| && nodes[i].key.KNil?
  }

  ghost predicate KeysIn(nodes: seq<Node>, keys: set<Key>) {
    forall i :: Used(nodes, i) ==> nodes[i].key in keys
  }

  ghost function NodeKeys(nodes: seq<Node>): set<Key> {
    set i | 0 <= i < |nodes| :: nodes[i].key
  }

  class LuaTable {
    const hash: Hash
    var arr: seq<Value>
    var node: seq<Node>
    var dummy: bool            // `node` is the shared `dummynode`, which is never written
    var lastFree: int
    ghost var place: seq<Place>
    ghost var contents: map<Key, Value>

    ghost predicate Sized()
      reads this
    {
      && |arr| <= MAXASIZE && IsPow2(|node|) && |node| <= MAXASIZE && UsedFrom(node, if dummy then 1 else lastFree)
      && (dummy ==> node == [EMPTY] && lastFree <= 0)
    }

    ghost predicate Valid()
      reads this
    {
      && Sized() && Chained(hash, node, place) && LiveFirst(hash, node, place, false)
      && Keyed(arr, node) && Represents(arr, node, contents) && Apart(ObjKeys(node))
    }

    /** `s` is the place of the key `k`. */
    ghost predicate At(s: Slot, k: Key)
      reads this
    {
      match s
      case ArraySlot(i) => i < |arr| && k == KInt(i + 1)
      case NodeSlot(i) => i < |node| && node[i].key == k && !dummy && !InArray(k, |arr|)
      case NoSlot => !InArray(k, |arr|) && Missing(node, k)
    }

    function Read(s: Slot): Value
      reads this
    {
      match s
      case ArraySlot(i) => if i < |arr| then arr[i] else Nil
      case NodeSlot(i) => if i < |node| then node[i].val else Nil
      case NoSlot => Nil
    }

    ghost function Meaning(k: Key): Value
      reads this
    {
      if k in contents then contents[k] else Nil
    }

    lemma ReadMeaning(s: Slot, k: Key)
      requires Valid() && Live(k) && At(s, k)
      ensures Read(s) == Meaning(k)
    {
      hide Chained, LiveFirst, Apart, ObjKeys;
      if k in contents {
        assert Holds(arr, node, k, contents[k]);
      }
      match s
      case ArraySlot(i) => assert arr[i] != Nil ==> k in contents;
      case NodeSlot(i) => assert Used(node, i);
      case NoSlot =>
    }

    // ---------- Walking a chain ----------

    /** Node `n` is the first on the way from the main position of `k` that is taken for `k`. */
    ghost predicate FirstMatch(n: int, k: Key, loose: bool)
      requires |place| == |node|
      reads this
    {
      && Used(node, n) && Used(node, Main(hash, k, |node|)) && AtOrBefore(place, Main(hash, k, |node|), n)
      && forall j :: Used(node, j) && AtOrBefore(place, Main(hash, k, |node|), j) && Meets(node[j].key, k, loose) ==>
         AtOrBefore(place, n, j)
    }

    /** The key of a node is `k`, or was before it was marked dead. */
    predicate IsKey(j: int, k: Key, loose: bool)
      requires 0 <= j < |node|
      reads this
    {
      node[j].key == k || (loose && Undead(node[j].key) == k)
    }

    /** What a walk must not pass: the key, and what passes for it on the way. */
    ghost predicate Sought(j: int, k: Key, loose: bool)
      requires |place| == |node| > 0
      reads this
    {
      && Used(node, j)
      && (IsKey(j, k, loose) ||
          (Used(node, Main(hash, k, |node|)) && AtOrBefore(place, Main(hash, k, |node|), j) &&
           Meets(node[j].key, k, loose)))
    }

    /** The walk for `k` has come to node `n` without passing what it looks for. */
    ghost predicate OnWalk(n: int, k: Key, loose: bool)
      requires |place| == |node| > 0
      reads this
    {
      && END <= n < |node|
      && (n != END && n != Main(hash, k, |node|) ==>
            Used(node, n) && Used(node, Main(hash, k, |node|)) && AtOrBefore(place, Main(hash, k, |node|), n))
      && forall j :: Sought(j, k, loose) ==> n != END && AtOrBefore(place, n, j) && Used(node, n)
    }

    lemma WalkStarts(k: Key, loose: bool)
      requires Valid() && Live(k)
      ensures |place| == |node| > 0 && OnWalk(Main(hash, k, |node|), k, loose)
    {
      HomeReaches(k, loose);
    }

    lemma WalkFinds(n: int, k: Key, loose: bool)
      requires Valid() && Live(k) && 0 <= n < |node| && OnWalk(n, k, loose)
      ensures Meets(node[n].key, k, loose) ==> FirstMatch(n, k, loose)
    {
      hide LinksAhead, NoGaps, Keyed, Represents, LiveFirst, Main, Apart, ObjKeys, IsKey;
      NilMatches(k, loose);
      if Meets(node[n].key, k, loose) {
        assert Used(node, n);
        forall j | Used(node, j) && AtOrBefore(place, Main(hash, k, |node|), j) && Meets(node[j].key, k, loose)
          ensures AtOrBefore(place, n, j)
        {
          assert Sought(j, k, loose);
        }
      }
    }

    lemma WalkGoesOn(n: int, k: Key, loose: bool)
      requires Valid() && Live(k) && 0 <= n < |node| && OnWalk(n, k, loose) && !Meets(node[n].key, k, loose)
      ensures OnWalk(node[n].next, k, loose) && |Ahead(place, node[n].next)| < |Ahead(place, n)|
    {
      hide Keyed, Represents, LiveFirst, Main, Ahead, Apart, ObjKeys;
      Advances(hash, node, place, n);
      if IsKey(n, k, loose) {
        KeyMeets(n, k, loose);
      }
      hide Meets, IsKey;
      forall j | Sought(j, k, loose)
        ensures node[n].next != END && AtOrBefore(place, node[n].next, j) && Used(node, node[n].next)
      {
        Onward(hash, node, place, n, j);
      }
      assert node[n].next != END ==> Used(node, n) && Before(place, n, node[n].next);
    }

    lemma WalkEnds(k: Key, loose: bool)
      requires Valid() && OnWalk(END, k, loose)
      ensures forall j :: Used(node, j) ==> !IsKey(j, k, loose)
      ensures forall j :: !Sought(j, k, loose)
    {
      assert forall j :: Used(node, j) && IsKey(j, k, loose) ==> Sought(j, k, loose);
    }

    static lemma NilMatches(k: Key, loose: bool)
      requires Live(k)
      ensures !Meets(KNil, k, loose)
    {
    }

    lemma KeyMeets(n: int, k: Key, loose: bool)
      requires Live(k) && 0 <= n < |node| && IsKey(n, k, loose)
      ensures Meets(node[n].key, k, loose)
    {
    }

    /** A key is met on the way from its main position, and so is its dead key. */
    lemma HomeReaches(k: Key, loose: bool)
      requires Valid() && Live(k)
      ensures |node| > 0
      ensures forall j :: Sought(j, k, loose) ==>
                AtOrBefore(place, Main(hash, k, |node|), j) && Used(node, Main(hash, k, |node|))
    {
      hide Keyed, Represents, LiveFirst, LinksAhead, NoGaps, Meets, Apart, ObjKeys;
      forall j | Sought(j, k, loose)
        ensures AtOrBefore(place, Main(hash, k, |node|), j) && Used(node, Main(hash, k, |node|))
      {
        if IsKey(j, k, loose) {
          assert j == Main(hash, node[j].key, |node|) || AtHome(hash, node, place, j);
        }
      }
    }

    // ---------- Reading ----------

    /** What a lookup of `k` may come up with: the place of `k`, or a node with a stale key that passes for
        `k`, which is nowhere else. */
    ghost predicate Found(s: Slot, k: Key)
      reads this
    {
      || (At(s, k) && (s == NoSlot ==> forall n :: !StaleHit(hash, node, place, n, k)))
      || (s.NodeSlot? && !dummy && !InArray(k, |arr|) && Missing(node, k) && StaleHit(hash, node, place, s.i, k))
    }

    /** The loop of `luaH_get`: looks for `k` along the chain of its main position. */
    method Find(k: Key) returns (s: Slot)
      requires Valid() && Live(k) && !InArray(k, |arr|) && OwnAddress(node, k)
      ensures Found(s, k)
    {
      WalkStarts(k, false);
      hide Valid, OnWalk, FirstMatch, Meets, Sought, OwnAddress, Found;
      var n: int := Main(hash, k, |node|);
      while n != END
        invariant OnWalk(n, k, false) && END <= n < |node|
        decreases |Ahead(place, n)|
      {
        WalkFinds(n, k, false);
        if Meets(node[n].key, k, false) {
          TakenFor(n, k);
          return NodeSlot(n);
        }
        WalkGoesOn(n, k, false);
        n := node[n].next;
      }
      WalkEnds(k, false);
      NotFound(k);
      return NoSlot;
    }

    lemma TakenFor(n: int, k: Key)
      requires Valid() && Live(k) && !InArray(k, |arr|) && OwnAddress(node, k)
      requires FirstMatch(n, k, false) && Meets(node[n].key, k, false)
      ensures Found(NodeSlot(n), k)
    {
      hide LinksAhead, NoGaps, Represents, Apart, ObjKeys;
      assert !dummy;
      if node[n].key != k {
        forall j | Used(node, j)
          ensures node[j].key != k
        {
          assert GoneBehind(hash, node, place, j, n, false);
        }
      }
    }

    lemma NotFound(k: Key)
      requires Valid() && Live(k) && !InArray(k, |arr|) && forall j :: !Sought(j, k, false)
      ensures Found(NoSlot, k)
    {
      forall j | Used(node, j)
        ensures node[j].key != k
      {
        assert !Sought(j, k, false);
      }
      forall n
        ensures !StaleHit(hash, node, place, n, k)
      {
        assert !Sought(n, k, false);
      }
    }

    /** Nothing is read from a node with a stale key. */
    lemma FoundMeaning(s: Slot, k: Key)
      requires Valid() && Live(k) && Found(s, k)
      ensures Read(s) == Meaning(k)
      ensures !k.KObj? ==> At(s, k)
    {
      if At(s, k) {
        ReadMeaning(s, k);
      } else {
        hide Chained, LiveFirst, Apart, ObjKeys;
        assert k in contents ==> Holds(arr, node, k, contents[k]);
      }
    }

    /** `luaH_getnum`. */
    method GetNum(n: int) returns (s: Slot)
      requires Valid()
      ensures At(s, KInt(n)) && Read(s) == Meaning(KInt(n))
    {
      if 1 <= n <= |arr| {
        s := ArraySlot(n - 1);
      } else {
        s := Find(KInt(n));
        FoundMeaning(s, KInt(n));
      }
      ReadMeaning(s, KInt(n));
    }

    /** `luaH_get`. */
    method Get(k: Key) returns (s: Slot)
      requires Valid() && !Gone(k) && OwnAddress(node, k)
      ensures k.KNil? ==> s == NoSlot
      ensures !k.KNil? ==> Found(s, k)
      ensures Read(s) == Meaning(k)
    {
      if k.KNil? {
        return NoSlot;
      }
      if k.KInt? {
        s := GetNum(k.n);
      } else {
        s := Find(k);
      }
      FoundMeaning(s, k);
    }

    // ---------- A node for a new key ----------

    ghost predicate Roomy()
      reads this
    {
      !dummy && HasFree(node)
    }

    static lemma NoneFree(nodes: seq<Node>, lastFree: int)
      requires UsedFrom(nodes, lastFree) && lastFree <= 0
      ensures !HasFree(nodes)
    {
      forall i | 0 <= i < |nodes|
        ensures !nodes[i].key.KNil?
      {
        assert Used(nodes, i);
      }
    }

    /** `getfreepos`. */
    method GetFreePos() returns (n: int)
      requires Sized()
      modifies `lastFree
      ensures dummy ==> n == END && lastFree <= 0
      ensures n == END ==> !Roomy() && UsedFrom(node, if dummy then 1 else lastFree)
      ensures n != END ==> 0 <= n < |node| && node[n].key.KNil? && lastFree == n && UsedFrom(node, n + 1)
    {
      while lastFree > 0
        invariant dummy ==> lastFree <= 0
        invariant UsedFrom(node, if dummy then 1 else lastFree)
      {
        lastFree := lastFree - 1;
        if node[lastFree].key.KNil? {
          return lastFree;
        }
      }
      if !dummy {
        NoneFree(node, lastFree);
      }
      lastFree := lastFree - 1;
      return END;
    }

    /** What a method that found a node for the key `k` has done to the parts `a`, `nodes`, `m`:
        the table means what it meant, and only `k` is new among the keys. */
    ghost predicate Placed(s: Slot, k: Key, a: seq<Value>, nodes: seq<Node>, m: map<Key, Value>)
      reads this
    {
      && Valid() && contents == m && arr == a && !dummy && At(s, k) && s != NoSlot
      && |node| == |nodes| && KeysIn(node, NodeKeys(nodes) + {k})
    }

    ghost predicate CanPlace(k: Key, nodes: seq<Node>, at: seq<Place>)
      reads this
    {
      && |arr| <= MAXASIZE && IsPow2(|nodes|) && |nodes| <= MAXASIZE && !dummy && Chained(hash, nodes, at)
      && LiveFirst(hash, nodes, at, false) && Keyed(arr, nodes) && Represents(arr, nodes, contents)
      && Apart(ObjKeys(nodes)) && OwnAddress(nodes, k)
      && Live(k) && !k.KNaN? && Missing(nodes, k) && !InArray(k, |arr|)
    }

    lemma AddsPlaced(k: Key, slot: int, to: int, nodes: seq<Node>, at: seq<Place>)
      requires CanPlace(k, nodes, at) && Adds(nodes, node, k, slot, to)
      requires UsedFrom(node, lastFree) && Chained(hash, node, place) && KeepsOrder(hash, nodes, at, node, place)
      ensures slot >= 0 && Placed(NodeSlot(slot), k, arr, nodes, contents)
    {
      hide Apart, ObjKeys, OwnAddress;
      AddsKeyed(arr, nodes, node, k, slot, to);
      AddsPairs(arr, nodes, node, k, slot, to, contents);
      AddsKeys(nodes, node, k, slot, to, NodeKeys(nodes));
      StillApart(nodes, node, k);
    }

    static lemma StillApart(nodes: seq<Node>, nodes': seq<Node>, k: Key)
      requires Apart(ObjKeys(nodes)) && OwnAddress(nodes, k) && KeysIn(nodes', NodeKeys(nodes) + {k})
      ensures Apart(ObjKeys(nodes')) && ObjKeys(nodes') <= ObjKeys(nodes) + {k}
    {
      OneMoreObj(nodes, nodes', k);
      OneMoreApart(nodes, k);
      ApartLess(ObjKeys(nodes) + {k}, ObjKeys(nodes'));
    }

    static lemma StillUsed(nodes: seq<Node>, i: nat, k: Key, lastFree: int)
      requires UsedFrom(nodes, lastFree) && i < |nodes| && Live(k)
      ensures UsedFrom(nodes[i := nodes[i].(key := k)], lastFree)
    {
      var nodes' := nodes[i := nodes[i].(key := k)];
      assert forall j :: Used(nodes, j) ==> Used(nodes', j);
    }

    /** The key goes to its main position, which holds no value. */
    method PlaceInMain(k: Key, mp: nat) returns (s: Slot)
      requires CanPlace(k, node, place) && UsedFrom(node, lastFree)
      requires mp == Main(hash, k, |node|) && node[mp].val == Nil
      modifies `node, `place
      ensures Placed(s, k, old(arr), old(node), old(contents))
      ensures KeepsOrder(hash, old(node), old(place), node, place)
    {
      hide Chained, Keyed, Represents, LiveFirst, KeepsOrder, Apart, ObjKeys, OwnAddress, Missing, Valid, Placed,
           IsPow2;
      ghost var at := TakesMain(hash, node, place, k, mp);
      StillUsed(node, mp, k, lastFree);
      node := node[mp := node[mp].(key := k)];
      place := at;
      AddsPlaced(k, mp, END, old(node), old(place));
      s := NodeSlot(mp);
    }

    /** The colliding node is in its own main position: the key goes to the free node `n`. */
    method PlaceAfter(k: Key, mp: nat, n: nat) returns (s: Slot)
      requires CanPlace(k, node, place) && mp == Main(hash, k, |node|) && Used(node, mp) &&
               mp == Main(hash, node[mp].key, |node|)
      requires node[mp].val != Nil
      requires n < |node| && node[n].key.KNil? && lastFree == n && UsedFrom(node, n + 1)
      modifies `node, `place
      ensures Placed(s, k, old(arr), old(node), old(contents))
      ensures KeepsOrder(hash, old(node), old(place), node, place)
    {
      hide Chained, Keyed, Represents, LiveFirst, KeepsOrder, Apart, ObjKeys, OwnAddress, Missing, UsedFrom, Placed;
      ValuedNotGone(node, mp);
      FreeIsEmpty(hash, node, place, n);
      ghost var at := GoesAfter(hash, node, place, k, mp, n);
      node := node[n := node[n].(next := node[mp].next)][mp := node[mp].(next := n)];
      node := node[n := node[n].(key := k)];
      place := at;
      assert node == Inserted(old(node), k, mp, n);
      FilledUsed(old(node), node, k, mp, n);
      AddsPlaced(k, n, END, old(node), old(place));
      s := NodeSlot(n);
    }

    lemma ValuedNotGone(nodes: seq<Node>, i: nat)
      requires Keyed(arr, nodes) && Used(nodes, i) && nodes[i].val != Nil
      ensures !Gone(nodes[i].key)
    {
    }

    static lemma FreeIsEmpty(hash: Hash, nodes: seq<Node>, at: seq<Place>, i: nat)
      requires Chained(hash, nodes, at) && i < |nodes| && nodes[i].key.KNil?
      ensures nodes[i].val == Nil
    {
    }

    static lemma FilledUsed(nodes: seq<Node>, nodes': seq<Node>, k: Key, mp: nat, n: nat)
      requires n < |nodes| && mp < |nodes| && mp != n && Used(nodes, mp) && UsedFrom(nodes, n + 1) && Live(k)
      requires nodes' == Inserted(nodes, k, mp, n)
      ensures UsedFrom(nodes', n)
    {
      forall i | n <= i < |nodes|
        ensures Used(nodes', i)
      {
        assert i > n ==> Used(nodes, i);
      }
    }

    /** The colliding node moves to the free node `n`; the key goes to its main position. */
    method PlaceMoving(k: Key, mp: nat, n: nat) returns (s: Slot)
      requires CanPlace(k, node, place) && mp == Main(hash, k, |node|) && Used(node, mp) &&
               mp != Main(hash, node[mp].key, |node|)
      requires n < |node| && node[n].key.KNil? && lastFree == n && UsedFrom(node, n + 1)
      modifies `node, `place
      ensures Placed(s, k, old(arr), old(node), old(contents))
      ensures KeepsOrder(hash, old(node), old(place), node, place)
    {
      hide Chained, Keyed, Represents, LiveFirst, KeepsOrder, Apart, ObjKeys, OwnAddress, Missing, UsedFrom, Placed;
      var prev := Previous(mp);
      ghost var at := MovesOut(hash, node, place, k, mp, n, prev);
      node := node[prev := node[prev].(next := n)];
      node := node[n := node[mp]];
      node := node[mp := Node(k, Nil, END)];
      place := at;
      assert node == Relocated(old(node), k, mp, n, prev);
      MovedUsed(old(node), node, k, mp, n, prev);
      AddsPlaced(k, mp, n, old(node), old(place));
      s := NodeSlot(mp);
    }

    static lemma MovedUsed(nodes: seq<Node>, nodes': seq<Node>, k: Key, mp: nat, n: nat, prev: nat)
      requires n < |nodes| && mp < |nodes| && prev < |nodes| && n != mp && UsedFrom(nodes, n + 1) && Used(nodes, mp)
      requires Live(k) && nodes' == Relocated(nodes, k, mp, n, prev)
      ensures UsedFrom(nodes', n)
    {
      forall i | n <= i < |nodes|
        ensures Used(nodes', i)
      {
        assert i > n ==> Used(nodes, i);
      }
    }

    /** The node whose link leads to `mp`, found from the main position of the key there. */
    method Previous(mp: nat) returns (prev: nat)
      requires Chained(hash, node, place) && Used(node, mp) && mp != Main(hash, node[mp].key, |node|)
      ensures prev < |node| && prev != mp && node[prev].next == mp
    {
      prev := Main(hash, node[mp].key, |node|);
      while node[prev].next != mp
        invariant Used(node, prev) && AtOrBefore(place, prev, mp) && prev != mp
        decreases |Ahead(place, prev)|
      {
        Advances(hash, node, place, prev);
        Onward(hash, node, place, prev, mp);
        prev := node[prev].next;
      }
    }

    static lemma OneMoreObj(nodes: seq<Node>, nodes': seq<Node>, k: Key)
      requires KeysIn(nodes', NodeKeys(nodes) + {k})
      ensures ObjKeys(nodes') <= ObjKeys(nodes) + {k}
    {
      forall x | x in ObjKeys(nodes')
        ensures x in ObjKeys(nodes) + {k}
      {
        var i :| 0 <= i < |nodes'| && nodes'[i].key.KObj? && nodes'[i].key == x;
        assert Used(nodes', i);
      }
    }

    static lemma SameStale(nodes: seq<Node>, nodes': seq<Node>)
      requires |nodes'| == |nodes| && forall i :: 0 <= i < |nodes| ==> nodes'[i].key == nodes[i].key
      ensures NoStale(nodes') <==> NoStale(nodes)
    {
    }

    static lemma SameObjs(nodes: seq<Node>, nodes': seq<Node>)
      requires |nodes'| == |nodes| && forall i :: 0 <= i < |nodes| ==> nodes'[i].key == nodes[i].key
      ensures ObjKeys(nodes') == ObjKeys(nodes)
    {
    }

    // ---------- Inserting, and growing ----------

    /** Whether a key gets its place without the table being rebuilt. */
    ghost predicate Easy(k: Key)
      reads this
    {
      Roomy() || InArray(k, |arr|)
    }

    /** `newkey`. When no node is free the table is rebuilt, and the key inserted in the new one;
        by the measure, that never rebuilds it again. */
    method NewKey(k: Key) returns (s: Slot, ok: bool)
      requires Valid() && Live(k) && !k.KNaN? && Missing(node, k) && !InArray(k, |arr|) && OwnAddress(node, k)
      modifies this
      ensures ok ==> Valid() && contents == old(contents) && s != NoSlot && At(s, k)
      ensures old(Roomy()) ==> ok && Placed(s, k, old(arr), old(node), old(contents))
      ensures old(|contents|) < MAXASIZE ==> ok
      ensures ok ==> ObjKeys(node) <= old(ObjKeys(node)) + {k}
      ensures ok && old(Traversable()) ==> Traversable()
      ensures ok && old(NoStale(node)) ==> NoStale(node)
      decreases if Easy(k) then 0 else 1, 4
    {
      hide Chained, LiveFirst, Keyed, Represents, Apart, Placed, KeepsOrder, Missing, ObjKeys, OwnAddress, NoStale,
           HasFree, UsedFrom;
      NewKeyReady(k);
      s, ok := NoSlot, true;
      var mp := Main(hash, k, |node|);
      if node[mp].val != Nil || dummy {
        var n := GetFreePos();
        if n == END {
          s, ok := RebuildFor(k);
          return;
        }
        s := PlaceColliding(k, mp, n);
      } else {
        s := PlaceInMain(k, mp);
      }
      PlacedFacts(s, k, old(arr), old(node), old(place), old(contents));
    }

    lemma NewKeyReady(k: Key)
      requires Valid() && Live(k) && !k.KNaN? && Missing(node, k) && !InArray(k, |arr|) && OwnAddress(node, k)
      ensures Sized() && |node| == |place| && (!dummy ==> CanPlace(k, node, place) && UsedFrom(node, lastFree))
      ensures forall i :: 0 <= i < |node| && node[i].val != Nil ==> Used(node, i)
      ensures Roomy() ==> !dummy
    {
    }

    lemma PlacedFacts(s: Slot, k: Key, a: seq<Value>, nodes: seq<Node>, at: seq<Place>, m: map<Key, Value>)
      requires |at| == |nodes| && Placed(s, k, a, nodes, m) && KeepsOrder(hash, nodes, at, node, place)
      ensures Valid() && contents == m && s != NoSlot && At(s, k) && ObjKeys(node) <= ObjKeys(nodes) + {k}
      ensures LiveFirst(hash, nodes, at, true) ==> Traversable()
      ensures NoStale(nodes) && Live(k) ==> NoStale(node)
    {
      hide LiveFirst, Keyed, Represents, Apart, AllHome, LinksAhead, NoGaps, PlacesDiffer, FreeNodesEmpty;
      OneMoreObj(nodes, node, k);
    }

    /** When no node is free: rebuilds the table and inserts the key in the new one. */
    method RebuildFor(k: Key) returns (s: Slot, ok: bool)
      requires Valid() && Live(k) && !k.KNaN? && Missing(node, k) && !InArray(k, |arr|) && OwnAddress(node, k)
      requires !Easy(k)
      modifies this
      ensures ok ==> Valid() && contents == old(contents) && s != NoSlot && At(s, k)
      ensures old(|contents|) < MAXASIZE ==> ok
      ensures ok ==> ObjKeys(node) <= old(ObjKeys(node)) + {k} && Traversable() && NoStale(node)
      decreases 1, 3
    {
      hide Valid, Missing, OwnAddress, Traversable, NoStale, Misplaces, TakesBehind, Unsound, Placed;
      s := NoSlot;
      ok := Rehash(k);
      if ok {
        var e;
        NoneTaken(k);
        StillOwnAddress(old(node), node, k);
        s, e := Set(k);
        ok := e == Done;
      }
    }

    static lemma StillOwnAddress(nodes: seq<Node>, nodes': seq<Node>, k: Key)
      requires OwnAddress(nodes, k) && ObjKeys(nodes') <= ObjKeys(nodes)
      ensures OwnAddress(nodes', k)
    {
      forall i | 0 <= i < |nodes'| && nodes'[i].key.KObj?
        ensures nodes'[i].key in ObjKeys(nodes)
      {
        assert nodes'[i].key in ObjKeys(nodes');
      }
    }

    /** The main position is taken: the key goes to the free node `n`, or what is there does. */
    method PlaceColliding(k: Key, mp: nat, n: nat) returns (s: Slot)
      requires CanPlace(k, node, place) && mp == Main(hash, k, |node|) && Used(node, mp) && node[mp].val != Nil
      requires n < |node| && node[n].key.KNil? && lastFree == n && UsedFrom(node, n + 1)
      modifies `node, `place
      ensures Placed(s, k, old(arr), old(node), old(contents)) && KeepsOrder(hash, old(node), old(place), node, place)
    {
      hide Chained, LiveFirst, KeepsOrder, Placed;
      if Main(hash, node[mp].key, |node|) != mp {
        s := PlaceMoving(k, mp, n);
      } else {
        s := PlaceAfter(k, mp, n);
      }
    }

    /** The table can be traversed: a key comes before all gone keys with its address. */
    ghost predicate Traversable()
      reads this
    {
      |place| == |node| && LiveFirst(hash, node, place, true)
    }

    /** Storing in `k` would take over a node that does not fit. */
    ghost predicate Misplaces(k: Key)
      reads this
    {
      Missing(node, k) && exists n :: StaleHit(hash, node, place, n, k) && Misfits(hash, node, n, k)
    }

    /** Storing in `k` would take over a node behind another gone key with the address of `k`. */
    ghost predicate TakesBehind(k: Key)
      reads this
    {
      Missing(node, k) && exists n :: StaleHit(hash, node, place, n, k) && !NoneMet(hash, node, place, n, k)
    }

    lemma NoneTaken(k: Key)
      requires NoStale(node)
      ensures !Misplaces(k) && !TakesBehind(k)
    {
    }

    /** Numbers never take over a node. */
    lemma IntsFit(n: int)
      ensures !Misplaces(KInt(n)) && !TakesBehind(KInt(n)) && OwnAddress(node, KInt(n))
    {
    }

    /** `luaH_set`: the place of the key `k`, made if there is none. */
    method Set(k: Key) returns (s: Slot, e: Outcome)
      requires Valid() && !Gone(k) && OwnAddress(node, k)
      modifies this
      ensures e == Done ==> Valid() && contents == old(contents) && s != NoSlot && At(s, k) && Live(k)
      ensures e == NilIndex <==> k.KNil?
      ensures e == NaNIndex <==> k.KNaN?
      ensures e == Misplaced <==> old(Misplaces(k))
      ensures e == Misplaced ==>
                s.NodeSlot? && At(s, k) && Live(k) && contents == old(contents) && Unsound(arr, node, contents)
      ensures Live(k) && !k.KNaN? && (old(|contents|) < MAXASIZE || old(Easy(k))) && !old(Misplaces(k)) ==> e == Done
      ensures old(Roomy()) && e == Done ==> old(InArray(k, |arr|)) || Placed(s, k, old(arr), old(node), old(contents))
      ensures old(InArray(k, |arr|) || k in contents) ==>
              e == Done && arr == old(arr) && node == old(node) && dummy == old(dummy)
      ensures e == NilIndex || e == NaNIndex ==> Valid() && contents == old(contents)
      ensures e == NilIndex || e == NaNIndex ==> node == old(node) && place == old(place)
      ensures old(InArray(k, |arr|) || k in contents) ==> place == old(place)
      ensures e == Done ==> ObjKeys(node) <= old(ObjKeys(node)) + {k}
      ensures e == Done && old(Traversable()) ==> (Traversable() <==> !old(TakesBehind(k)))
      ensures e != Overflow && old(NoStale(node)) ==> NoStale(node)
      decreases if Easy(k) then 0 else 1, 5
    {
      hide Valid, Found, Missing, KeysIn, NodeKeys, ObjKeys, OwnAddress, Traversable, Misplaces, TakesBehind, Unsound;
      s := Get(k);
      e := Done;
      FoundFacts(s, k);
      if s == NoSlot {
        if k.KNil? {
          e := NilIndex;
        } else if k.KNaN? {
          e := NaNIndex;
        } else {
          var ok;
          s, ok := NewKey(k);
          e := if ok then Done else Overflow;
        }
      } else if s.NodeSlot? && node[s.i].key != k {
        e := TakeOver(s.i, k);
      }
    }

    lemma FoundFacts(s: Slot, k: Key)
      requires Valid() && !Gone(k) && (if k.KNil? then s == NoSlot else Found(s, k))
      ensures k.KNaN? ==> s == NoSlot
      ensures s.NodeSlot? ==> s.i < |node| && Used(node, s.i) && !InArray(k, |arr|)
      ensures s == NoSlot && Live(k) ==> Missing(node, k) && !InArray(k, |arr|)
      ensures InArray(k, |arr|) || k in contents ==> s != NoSlot && At(s, k)
      ensures s != NoSlot && !(s.NodeSlot? && node[s.i].key != k) ==> At(s, k)
      ensures !(s.NodeSlot? && node[s.i].key != k) ==> !Misplaces(k) && !TakesBehind(k)
      ensures s.NodeSlot? && node[s.i].key != k ==> !NoStale(node) && Missing(node, k)
      ensures KeysIn(node, NodeKeys(node) + {k})
    {
      hide Chained, LiveFirst, Apart, ObjKeys, Misfits, NoneMet;
      if k in contents {
        assert Holds(arr, node, k, contents[k]);
      }
      if s.NodeSlot? && node[s.i].key == k {
        assert Used(node, s.i);
      }
    }

    /** The parts hold the pairs of `m`, but in no places could the keys be found. */
    ghost predicate Unsound(a: seq<Value>, nodes: seq<Node>, m: map<Key, Value>)
      reads this
    {
      Keyed(a, nodes) && Represents(a, nodes, m) && forall at :: !Chained(hash, nodes, at)
    }

    lemma OnlyHit(i: nat, k: Key)
      requires Valid() && StaleHit(hash, node, place, i, k) && Missing(node, k)
      ensures Misplaces(k) <==> Misfits(hash, node, i, k)
      ensures TakesBehind(k) <==> !NoneMet(hash, node, place, i, k)
    {
      hide Misfits, NoneMet;
      forall n | StaleHit(hash, node, place, n, k)
        ensures n == i
      {
        OneHit(hash, node, place, n, i, k);
      }
    }

    /** What the table is when `k` has taken over node `i`. */
    lemma AdoptedTable(i: nat, k: Key)
      requires Valid() && OwnAddress(node, k) && Found(NodeSlot(i), k) && node[i].key != k
      ensures Sized() && !dummy && UsedFrom(Adopted(node, i, k), lastFree) && |place| == |node| && i < |node|
      ensures KeysIn(Adopted(node, i, k), NodeKeys(node) + {k}) && !InArray(k, |arr|)
      ensures Keyed(arr, Adopted(node, i, k)) && Represents(arr, Adopted(node, i, k), contents)
      ensures Apart(ObjKeys(Adopted(node, i, k))) && ObjKeys(Adopted(node, i, k)) <= ObjKeys(node) + {k}
      ensures Misplaces(k) <==> Misfits(hash, node, i, k)
    {
      OnlyHit(i, k);
      AdoptedPairs(arr, node, contents, i, k);
      AdoptedKeys(node, i, k);
      StillUsed(node, i, k, lastFree);
      hide Chained, LiveFirst, Keyed, Represents, Apart, ObjKeys, Misfits, OwnAddress, StaleHit, Misplaces, TakesBehind;
      assert forall j :: Used(Adopted(node, i, k), j) && j != i ==> node[j].key in NodeKeys(node);
    }

    lemma AdoptedChains(i: nat, k: Key)
      requires Valid() && OwnAddress(node, k) && Found(NodeSlot(i), k) && node[i].key != k
      ensures !Misplaces(k) ==> Chained(hash, Adopted(node, i, k), place)
      ensures !Misplaces(k) ==> LiveFirst(hash, Adopted(node, i, k), place, false)
      ensures Misplaces(k) ==> forall at :: !Chained(hash, Adopted(node, i, k), at)
      ensures Traversable() ==> (LiveFirst(hash, Adopted(node, i, k), place, true) <==> !TakesBehind(k))
    {
      OnlyHit(i, k);
      AdoptedChained(hash, node, place, i, k);
      AdoptedOrder(hash, node, place, i, k);
      hide Chained, LiveFirst, Keyed, Represents, Apart, ObjKeys, Misfits, NoneMet, OwnAddress, Misplaces, TakesBehind;
    }

    /** The node with the stale key becomes the key's, with the same type and address. */
    method TakeOver(i: nat, k: Key) returns (e: Outcome)
      requires Valid() && OwnAddress(node, k) && Found(NodeSlot(i), k) && node[i].key != k
      modifies `node
      ensures node == Adopted(old(node), i, k) && At(NodeSlot(i), k) && KeysIn(node, NodeKeys(old(node)) + {k})
      ensures e == if old(Misplaces(k)) then Misplaced else Done
      ensures e == Done ==> Valid() && ObjKeys(node) <= old(ObjKeys(node)) + {k}
      ensures e == Done && old(Traversable()) ==> (Traversable() <==> !old(TakesBehind(k)))
      ensures e == Misplaced ==> Unsound(arr, node, contents)
    {
      hide Found, Chained, LiveFirst, Keyed, Represents, Apart, ObjKeys, Misfits, OwnAddress, UsedFrom, Misplaces,
           TakesBehind, KeysIn, NodeKeys, Missing;
      AdoptedTable(i, k);
      AdoptedChains(i, k);
      e := if Misfits(hash, node, i, k) then Misplaced else Done;
      node := node[i := node[i].(key := k)];
    }

    /** Stores a value at the place of the key `k`. */
    method Store(s: Slot, ghost k: Key, v: Value)
      requires Valid() && At(s, k) && s != NoSlot && Live(k)
      modifies `arr, `node, `contents
      ensures Valid() && contents == Put(old(contents), k, v)
      ensures |arr| == old(|arr|) && |node| == old(|node|) && NodeKeys(node) == old(NodeKeys(node))
      ensures forall i :: 0 <= i < |node| ==> node[i].key == old(node)[i].key
    {
      match s
      case ArraySlot(i) => StoreInArray(i, v);
      case NodeSlot(i) => StoreInNode(i, v);
    }

    method StoreInArray(i: nat, v: Value)
      requires Valid() && i < |arr|
      modifies `arr, `contents
      ensures Valid() && contents == Put(old(contents), KInt(i + 1), v) && |arr| == old(|arr|)
    {
      StoresInArray(arr, node, contents, i, v);
      arr := arr[i := v];
      contents := Put(contents, KInt(i + 1), v);
    }

    method StoreInNode(i: nat, v: Value)
      requires Valid() && i < |node| && Live(node[i].key) && !dummy
      modifies `node, `contents
      ensures Valid() && contents == Put(old(contents), old(node[i].key), v)
      ensures |node| == old(|node|) && NodeKeys(node) == old(NodeKeys(node))
      ensures forall j :: 0 <= j < |node| ==> node[j].key == old(node)[j].key
    {
      assert Used(node, i);
      StoresInNode(arr, node, contents, i, v);
      SameChains(hash, node, node[i := node[i].(val := v)], place);
      SameLeads(hash, node, node[i := node[i].(val := v)], place);
      SameKeys(node, i, v);
      contents := Put(contents, node[i].key, v);
      node := node[i := node[i].(val := v)];
    }

    static lemma SameKeys(nodes: seq<Node>, i: nat, v: Value)
      requires i < |nodes|
      ensures NodeKeys(nodes[i := nodes[i].(val := v)]) == NodeKeys(nodes)
      ensures forall j :: Used(nodes[i := nodes[i].(val := v)], j) <==> Used(nodes, j)
    {
      var nodes' := nodes[i := nodes[i].(val := v)];
      assert forall j :: 0 <= j < |nodes| ==> nodes'[j].key == nodes[j].key;
      assert forall k :: k in NodeKeys(nodes) ==> k in NodeKeys(nodes') by {
        forall k | k in NodeKeys(nodes)
          ensures k in NodeKeys(nodes')
        {
          var j :| 0 <= j < |nodes| && nodes[j].key == k;
          assert nodes'[j].key == k;
        }
      }
    }

    /** Inserts a pair in the new parts that `resize` fills. */
    method Reinsert(k: Key, v: Value)
      requires Valid() && Live(k) && !k.KNaN? && v != Nil && k !in contents && KeysIn(node, contents.Keys)
      requires Apart(contents.Keys + {k})
      requires InArray(k, |arr|) || (!dummy && |Outside(contents, |arr|)| < |node|)
      modifies this
      ensures Valid() && contents == old(contents)[k := v] && KeysIn(node, contents.Keys)
      ensures |arr| == old(|arr|) && |node| == old(|node|) && dummy == old(dummy)
      decreases 0, 6
    {
      if !InArray(k, |arr|) {
        StillFree();
      }
      ghost var keys := contents.Keys;
      OnlyLive(k);
      NoneTaken(k);
      var s, e := Set(k);
      MoreKeys(old(node), node, keys, k);
      ghost var nodes := node;
      Store(s, k, v);
      MoreKeys(nodes, node, keys + {k}, k);
    }

    /** When all keys are in the map, none is stale. */
    lemma OnlyLive(k: Key)
      requires Valid() && KeysIn(node, contents.Keys)
      ensures NoStale(node) && Traversable()
      ensures Apart(contents.Keys + {k}) ==> OwnAddress(node, k)
    {
      hide LinksAhead, NoGaps, PlacesDiffer, AllHome, Keyed;
      assert forall i :: Used(node, i) ==> Live(node[i].key);
      forall i | 0 <= i < |node| && node[i].key.KObj?
        ensures node[i].key in contents.Keys
      {
        assert Used(node, i);
      }
    }

    static lemma MoreKeys(nodes: seq<Node>, nodes': seq<Node>, keys: set<Key>, k: Key)
      requires KeysIn(nodes, keys)
      ensures KeysIn(nodes', NodeKeys(nodes) + {k}) || NodeKeys(nodes') <= NodeKeys(nodes) ==>
              KeysIn(nodes', keys + {k})
    {
      if KeysIn(nodes', NodeKeys(nodes) + {k}) || NodeKeys(nodes') <= NodeKeys(nodes) {
        forall i | Used(nodes', i)
          ensures nodes'[i].key in keys + {k}
        {
          assert nodes'[i].key in NodeKeys(nodes');
          if nodes'[i].key != k {
            var j :| 0 <= j < |nodes| && nodes[j].key == nodes'[i].key;
            assert Used(nodes, j);
          }
        }
      }
    }

    lemma StillFree()
      requires Valid() && KeysIn(node, contents.Keys) && |Outside(contents, |arr|)| < |node|
      ensures HasFree(node)
    {
      if !HasFree(node) {
        assert forall i :: 0 <= i < |node| ==> Used(node, i) && node[i].key in Outside(contents, |arr|);
        FullNodes(node, |node|, Outside(contents, |arr|));
      }
    }

    /** `setarrayvector`. */
    method SetArrayVector(size: nat)
      requires size >= |arr|
      modifies `arr
      ensures |arr| == size && arr[..old(|arr|)] == old(arr)
      ensures forall i :: old(|arr|) <= i < size ==> arr[i] == Nil
    {
      while |arr| < size
        invariant old(|arr|) <= |arr| <= size && arr[..old(|arr|)] == old(arr)
        invariant forall i :: old(|arr|) <= i < |arr| ==> arr[i] == Nil
      {
        arr := arr + [Nil];
      }
    }

    /** `setnodevector`; fails with "table overflow" when the size is too large. */
    method SetNodeVector(size: nat) returns (ok: bool)
      modifies `node, `dummy, `lastFree, `place
      ensures ok <==> size <= MAXASIZE
      ensures ok ==> AllEmpty(node) && |node| >= size && IsPow2(|node|) && |node| <= MAXASIZE && (dummy <==> size == 0)
      ensures ok && size > 0 ==> |node| < 2 * size
      ensures ok ==>
                Chained(hash, node, place) && LiveFirst(hash, node, place, true)
                && UsedFrom(node, if dummy then 1 else lastFree)
      ensures ok && dummy ==> node == [EMPTY] && lastFree <= 0
    {
      hide Chained, LiveFirst, IsPow2, UsedFrom;
      Pow2Max();
      if size == 0 {
        Pow2IsPow2(0);
        node, dummy, lastFree := [EMPTY], true, 0;
      } else {
        var lsize := CeilLog2(size);
        if lsize > MAXBITS {
          Pow2Grows(MAXBITS, lsize);
          return false;
        }
        if lsize < MAXBITS {
          Pow2Grows(lsize, MAXBITS);
        }
        Pow2IsPow2(lsize);
        node, dummy := [], false;
        while |node| < Pow2(lsize)
          invariant |node| <= Pow2(lsize) && AllEmpty(node) && !dummy
        {
          node := node + [EMPTY];
        }
        lastFree := |node|;
      }
      place := seq(|node|, i => Place(0, 0.0));
      EmptyParts(node, place);
      ok := true;
    }

    lemma EmptyParts(nodes: seq<Node>, at: seq<Place>)
      requires AllEmpty(nodes) && |at| == |nodes| > 0
      ensures Chained(hash, nodes, at) && LiveFirst(hash, nodes, at, true) && UsedFrom(nodes, |nodes|)
    {
    }

    /** `resize`: rebuilds the table with an array part of size `nasize` and a hash part with room
        for `nhsize` keys. */
    method Resize(nasize: nat, nhsize: nat) returns (ok: bool)
      requires Valid() && nasize <= MAXASIZE && |Outside(contents, nasize)| <= nhsize
      modifies this
      ensures ok <==> nhsize <= MAXASIZE
      ensures ok ==> Valid() && contents == old(contents) && KeysIn(node, contents.Keys)
      ensures ok ==> |arr| == nasize && |node| >= nhsize && (dummy <==> nhsize == 0)
      ensures ok && nhsize > 0 ==> |node| < 2 * nhsize
      decreases 1, 1
    {
      ghost var m, a := contents, arr;
      var nold := node;
      var vanishing;
      ok, vanishing := NewParts(nasize, nhsize);
      if ok {
        FromArray(a, vanishing, nhsize, nold, m);
        FromHash(a, nold, nhsize, m);
      }
    }

    /** Of the map `m` of the old parts, what `resize` has inserted so far: the array up to `n`,
        and the nodes from `i` on. */
    static ghost predicate InParts(c: map<Key, Value>, a: seq<Value>, nold: seq<Node>, m: map<Key, Value>, n: nat,
                                   i: int)
    {
      && (forall k :: k in c ==> k in m && c[k] == m[k])
      && (forall k :: k in m && InArray(k, |a|) ==> (k in c <==> InArray(k, n)))
      && (forall j :: Used(nold, j) && nold[j].val != Nil ==> (nold[j].key in c <==> j >= i))
    }

    ghost predicate Rebuilding(nhsize: nat, m: map<Key, Value>)
      reads this
    {
      && Valid() && KeysIn(node, contents.Keys) && |node| >= nhsize >= |Outside(m, |arr|)|
      && (nhsize > 0 ==> |node| < 2 * nhsize)
      && (dummy <==> nhsize == 0) && Apart(m.Keys)
    }

    /** The new parts: the array part that stays, or grows with nils, and an empty hash part. */
    method NewParts(nasize: nat, nhsize: nat) returns (ok: bool, vanishing: seq<Value>)
      requires Valid() && nasize <= MAXASIZE && |Outside(contents, nasize)| <= nhsize
      modifies this
      ensures ok <==> nhsize <= MAXASIZE
      ensures ok ==> |arr| == nasize && Rebuilding(nhsize, old(contents))
      ensures ok ==> vanishing == if nasize <= |old(arr)| then old(arr)[nasize..] else []
      ensures ok ==> InParts(contents, old(arr), old(node), old(contents), nasize, |old(node)|)
    {
      var oldasize := |arr|;
      ApartKeys();
      if nasize > oldasize {
        SetArrayVector(nasize);
      }
      vanishing := [];
      ok := SetNodeVector(nhsize);
      if ok {
        if nasize < oldasize {
          vanishing := arr[nasize..];
          arr := arr[..nasize];
        }
        contents := ArrayMap(arr);
        EmptyRepresents(arr, node);
        NoObjKeys(node);
        StartsWithArray(old(arr), old(node), old(contents));
      }
    }

    /** The objects that are keys of the map have different addresses. */
    lemma ApartKeys()
      requires Valid()
      ensures Apart(contents.Keys)
    {
      hide Chained, LiveFirst, Keyed;
      ObjKeysOfMap(arr, node, contents);
    }

    static lemma NoObjKeys(nodes: seq<Node>)
      requires AllEmpty(nodes)
      ensures ObjKeys(nodes) == {} && Apart({})
    {
    }

    lemma StartsWithArray(a: seq<Value>, nold: seq<Node>, m: map<Key, Value>)
      requires Keyed(a, nold) && Represents(a, nold, m) && contents == ArrayMap(arr)
      requires forall i :: 0 <= i < |arr| ==> arr[i] == if i < |a| then a[i] else Nil
      ensures InParts(contents, a, nold, m, |arr|, |nold|)
    {
      forall k | k in contents
        ensures k in m && contents[k] == m[k]
      {
        assert k == KInt(k.n - 1 + 1) && arr[k.n - 1] != Nil;
      }
      forall k | k in m && InArray(k, |a|)
        ensures k in contents <==> InArray(k, |arr|)
      {
        assert Holds(a, nold, k, m[k]);
        assert k == KInt(k.n - 1 + 1);
      }
      forall j | Used(nold, j) && nold[j].val != Nil
        ensures nold[j].key !in contents
      {
        assert !InArray(nold[j].key, |a|);
      }
    }

    lemma Budget(nhsize: nat, m: map<Key, Value>, k: Key)
      requires Rebuilding(nhsize, m) && (forall x :: x in contents ==> x in m) && k in m && k !in contents &&
               !InArray(k, |arr|)
      ensures !dummy && |Outside(contents, |arr|)| < |node|
    {
      assert k in Outside(m, |arr|);
      Smaller(Outside(contents, |arr|), Outside(m, |arr|), k);
    }

    lemma PartApart(nhsize: nat, m: map<Key, Value>, k: Key)
      requires Rebuilding(nhsize, m) && (forall x :: x in contents ==> x in m) && k in m
      ensures Apart(contents.Keys + {k})
    {
      ApartLess(m.Keys, contents.Keys + {k});
    }

    /** Re-inserts one pair of the old table. */
    method ReinsertOld(k: Key, v: Value, ghost nhsize: nat, ghost m: map<Key, Value>)
      requires Rebuilding(nhsize, m) && (forall x :: x in contents ==> x in m) && k in m && k !in contents
      requires Live(k) && !k.KNaN? && v != Nil
      modifies this
      ensures Rebuilding(nhsize, m) && |arr| == old(|arr|) && contents == old(contents)[k := v]
      decreases 0, 7
    {
      hide Valid, Apart, Outside, KeysIn;
      if !InArray(k, |arr|) {
        Budget(nhsize, m, k);
      }
      PartApart(nhsize, m, k);
      Reinsert(k, v);
    }

    static lemma NextElement(c: map<Key, Value>, a: seq<Value>, nold: seq<Node>, m: map<Key, Value>, n: nat)
      requires Keyed(a, nold) && Represents(a, nold, m) && InParts(c, a, nold, m, n, |nold|) && n < |a|
      ensures var k := KInt(n + 1);
              && (forall x :: x in c ==> x in m)
              && if a[n] == Nil then InParts(c, a, nold, m, n + 1, |nold|)
                 else k in m && k !in c && InParts(c[k := a[n]], a, nold, m, n + 1, |nold|)
    {
      var k := KInt(n + 1);
      forall x | x in m && InArray(x, |a|) && !InArray(x, n) && InArray(x, n + 1)
        ensures x == k && a[n] != Nil
      {
        assert Holds(a, nold, x, m[x]);
      }
      forall j | Used(nold, j) && nold[j].val != Nil
        ensures nold[j].key != k
      {
        assert !InArray(nold[j].key, |a|);
      }
    }

    static lemma NextNode(c: map<Key, Value>, a: seq<Value>, nold: seq<Node>, m: map<Key, Value>, n: nat, i: nat)
      requires Keyed(a, nold) && FreeNodesEmpty(nold) && Represents(a, nold, m) && InParts(c, a, nold, m, n, i + 1)
      requires i < |nold|
      ensures var k := nold[i].key;
              && (forall x :: x in c ==> x in m)
              && if nold[i].val == Nil then InParts(c, a, nold, m, n, i)
                 else k in m && k !in c && Live(k) && !k.KNaN? && InParts(c[k := nold[i].val], a, nold, m, n, i)
    {
      if nold[i].val != Nil {
        assert Used(nold, i);
      }
    }

    /** Re-inserts the elements of the part that the array lost. */
    method FromArray(ghost a: seq<Value>, vanishing: seq<Value>, ghost nhsize: nat, ghost nold: seq<Node>,
                     ghost m: map<Key, Value>)
      requires Rebuilding(nhsize, m) && Keyed(a, nold) && Represents(a, nold, m)
      requires InParts(contents, a, nold, m, |arr|, |nold|)
      requires |arr| <= |a| ==> vanishing == a[|arr|..]
      requires |arr| > |a| ==> vanishing == []
      modifies this
      ensures Rebuilding(nhsize, m) && |arr| == old(|arr|)
      ensures InParts(contents, a, nold, m, if |arr| > |a| then |arr| else |a|, |nold|)
      decreases 1, 0
    {
      hide Rebuilding, Keyed, Represents, InParts;
      var nasize := |arr|;
      var i := 0;
      while i < |vanishing|
        invariant 0 <= i <= |vanishing| && |arr| == nasize && Rebuilding(nhsize, m)
        invariant InParts(contents, a, nold, m, nasize + i, |nold|)
      {
        NextElement(contents, a, nold, m, nasize + i);
        if vanishing[i] != Nil {
          ReinsertOld(KInt(nasize + i + 1), vanishing[i], nhsize, m);
        }
        i := i + 1;
      }
    }

    /** Re-inserts the elements of the old hash part. */
    method FromHash(ghost a: seq<Value>, nold: seq<Node>, ghost nhsize: nat, ghost m: map<Key, Value>)
      requires Rebuilding(nhsize, m) && Keyed(a, nold) && FreeNodesEmpty(nold) && Represents(a, nold, m)
      requires InParts(contents, a, nold, m, if |arr| > |a| then |arr| else |a|, |nold|)
      modifies this
      ensures Rebuilding(nhsize, m) && |arr| == old(|arr|) && contents == m
      decreases 1, 0
    {
      hide Rebuilding, Keyed, Represents, FreeNodesEmpty, InParts;
      ghost var n := if |arr| > |a| then |arr| else |a|;
      var i := |nold|;
      while i > 0
        invariant 0 <= i <= |nold| && |arr| == old(|arr|) && Rebuilding(nhsize, m)
        invariant InParts(contents, a, nold, m, n, i)
      {
        i := i - 1;
        NextNode(contents, a, nold, m, n, i);
        if nold[i].val != Nil {
          ReinsertOld(nold[i].key, nold[i].val, nhsize, m);
        }
      }
      Complete(a, nold, m, n);
    }

    lemma Complete(a: seq<Value>, nold: seq<Node>, m: map<Key, Value>, n: nat)
      requires Represents(a, nold, m) && InParts(contents, a, nold, m, n, 0) && n >= |a|
      ensures contents == m
    {
      forall k | k in m
        ensures k in contents
      {
        assert Holds(a, nold, k, m[k]);
      }
    }

    // ---------- Rehashing ----------

    /** `countint`: counts the key `k` if it is a candidate for the array part. */
    method CountInt(k: Key, nums: seq<nat>, ghost ints: set<int>) returns (nums': seq<nat>, c: nat)
      requires Counted(nums, ints) && (k.KInt? ==> k.n !in ints)
      ensures Counted(nums', ints + Ints({k})) && c == |Ints({k})|
    {
      if k.KInt? && 0 < k.n <= MAXASIZE {
        var i := CeilLog2(k.n);
        SliceBounded(k.n, i);
        CountsOne(nums, ints, k.n, i);
        nums' := nums[i := nums[i] + 1];
        c := 1;
        assert Ints({k}) == {k.n};
      } else {
        nums', c := nums, 0;
        assert Ints({k}) == {};
        assert ints + {} == ints;
      }
    }

    /** `numusearray`: counts the elements of the array part, slice by slice. */
    method NumUseArray(nums0: seq<nat>) returns (nums: seq<nat>, ause: nat)
      requires Valid() && Counted(nums0, {})
      ensures Counted(nums, ArrayInts(arr, |arr|)) && ause == |ArrayInts(arr, |arr|)|
    {
      hide Chained, LiveFirst, Keyed, Represents, Counted, ArrayInts;
      nums, ause := nums0, 0;
      var i, lg: nat, ttlg := 1, 0, 1;
      NoInts(arr);
      while lg <= MAXBITS
        invariant lg <= MAXBITS + 1 && ttlg == Pow2(lg) && 1 <= i <= |arr| + 1
        invariant i - 1 == if |arr| < ttlg / 2 then |arr| else ttlg / 2
        invariant Counted(nums, ArrayInts(arr, i - 1)) && ause == |ArrayInts(arr, i - 1)|
      {
        var lim := ttlg;
        if lim > |arr| {
          lim := |arr|;
          if i > lim {
            break;
          }
        }
        var lc;
        nums, lc := CountSlice(nums, lg, i, lim);
        ause := ause + lc;
        i := lim + 1;
        lg := lg + 1;
        ttlg := ttlg * 2;
      }
      Pow2Max();
      assert i == |arr| + 1;
    }

    /** The inner loop: the elements `first`..`lim`, all in slice `lg`. */
    method CountSlice(nums0: seq<nat>, lg: nat, first: nat, lim: nat) returns (nums: seq<nat>, lc: nat)
      requires 1 <= first <= lim + 1 <= |arr| + 1 && lg <= MAXBITS && Pow2(lg) / 2 < first && lim <= Pow2(lg)
      requires Counted(nums0, ArrayInts(arr, first - 1))
      ensures Counted(nums, ArrayInts(arr, lim)) && |ArrayInts(arr, lim)| == |ArrayInts(arr, first - 1)| + lc
    {
      hide Slice, ArrayInts;
      nums, lc := nums0, 0;
      var i := first;
      while i <= lim
        invariant first <= i <= lim + 1
        invariant Counted(nums0[lg := nums0[lg] + lc], ArrayInts(arr, i - 1))
        invariant |ArrayInts(arr, i - 1)| == |ArrayInts(arr, first - 1)| + lc
      {
        NextInt(arr, i);
        if arr[i - 1] != Nil {
          NextCounted(nums0[lg := nums0[lg] + lc], arr, i, lg);
          assert nums0[lg := nums0[lg] + lc][lg := nums0[lg] + lc + 1] == nums0[lg := nums0[lg] + (lc + 1)];
          lc := lc + 1;
        }
        i := i + 1;
      }
      nums := nums0[lg := nums0[lg] + lc];
    }

    static lemma NextInt(arr: seq<Value>, i: nat)
      requires 1 <= i <= |arr|
      ensures ArrayInts(arr, i) == ArrayInts(arr, i - 1) + (if arr[i - 1] != Nil then {i} else {})
      ensures i !in ArrayInts(arr, i - 1)
    {
    }

    static lemma NoInts(arr: seq<Value>)
      ensures ArrayInts(arr, 0) == {}
    {
    }

    static lemma NextCounted(nums: seq<nat>, arr: seq<Value>, i: nat, lg: nat)
      requires 1 <= i <= |arr| && arr[i - 1] != Nil && InSlice(i, lg) && lg <= MAXBITS
      requires Counted(nums, ArrayInts(arr, i - 1))
      ensures Counted(nums[lg := nums[lg] + 1], ArrayInts(arr, i)) && |ArrayInts(arr, i)| == |ArrayInts(arr, i - 1)| + 1
    {
      NextInt(arr, i);
      CountsOne(nums, ArrayInts(arr, i - 1), i, lg);
    }

    /** The keys that the nodes from `i` on hold with a value. */
    static ghost function ValuedKeys(nodes: seq<Node>, i: int): set<Key>
      requires 0 <= i
    {
      set j | i <= j < |nodes| && nodes[j].val != Nil :: nodes[j].key
    }

    /** `numusehash`: counts the elements of the hash part. */
    method NumUseHash(nums0: seq<nat>) returns (nums: seq<nat>, totaluse: nat, ause: nat)
      requires Valid() && Counted(nums0, ArrayInts(arr, |arr|))
      ensures totaluse == |ValuedKeys(node, 0)| && ause == |Ints(ValuedKeys(node, 0))|
      ensures Counted(nums, ArrayInts(arr, |arr|) + Ints(ValuedKeys(node, 0)))
    {
      hide *;
      nums, totaluse, ause := nums0, 0, 0;
      var i := |node|;
      NoneValued();
      while i > 0
        invariant 0 <= i <= |node|
        invariant totaluse == |ValuedKeys(node, i)| && ause == |Ints(ValuedKeys(node, i))|
        invariant Counted(nums, ArrayInts(arr, |arr|) + Ints(ValuedKeys(node, i)))
      {
        i := i - 1;
        if node[i].val != Nil {
          NextValued(i);
          var c;
          nums, c := CountInt(node[i].key, nums, ArrayInts(arr, |arr|) + Ints(ValuedKeys(node, i + 1)));
          ause := ause + c;
          totaluse := totaluse + 1;
        } else {
          SkipsNil(i);
        }
      }
    }

    lemma NoneValued()
      ensures ValuedKeys(node, |node|) == {} && Ints({}) == {}
      ensures ArrayInts(arr, |arr|) + Ints(ValuedKeys(node, |node|)) == ArrayInts(arr, |arr|)
    {
      assert ValuedKeys(node, |node|) == {};
    }

    lemma SkipsNil(i: nat)
      requires i < |node| && node[i].val == Nil
      ensures ValuedKeys(node, i) == ValuedKeys(node, i + 1)
    {
    }

    lemma NextValued(i: nat)
      requires Valid() && i < |node| && node[i].val != Nil
      ensures var k, rest, ints := node[i].key, ValuedKeys(node, i + 1), ArrayInts(arr, |arr|);
              && |ValuedKeys(node, i)| == |rest| + 1
              && |Ints(ValuedKeys(node, i))| == |Ints(rest)| + |Ints({k})|
              && (k.KInt? ==> k.n !in ints + Ints(rest))
              && ints + Ints(rest) + Ints({k}) == ints + Ints(ValuedKeys(node, i))
    {
      var k, rest := node[i].key, ValuedKeys(node, i + 1);
      assert Used(node, i);
      forall j | i + 1 <= j < |node| && node[j].val != Nil
        ensures node[j].key != k
      {
        assert Used(node, j);
      }
      ValuedGrows(node, i);
      IntsGrow(rest, k);
      assert k.KInt? ==> k.n !in ArrayInts(arr, |arr|);
      Sums(ArrayInts(arr, |arr|), Ints(rest), Ints({k}));
      hide Ints, ValuedKeys, ArrayInts;
    }

    static lemma ValuedGrows(nodes: seq<Node>, i: nat)
      requires i < |nodes| && nodes[i].val != Nil
      ensures ValuedKeys(nodes, i) == ValuedKeys(nodes, i + 1) + {nodes[i].key}
    {
    }

    static lemma Sums(a: set<int>, b: set<int>, c: set<int>)
      ensures a + b + c == a + (b + c)
      ensures b * c == {} ==> |b + c| == |b| + |c|
    {
    }

    lemma IntsBounded(keys: set<Key>)
      requires Valid()
      ensures ArrayKeys(Ints(keys)) && forall i :: i in ArrayInts(arr, |arr|) ==> 1 <= i <= MAXASIZE
    {
    }

    static lemma IntsGrow(keys: set<Key>, k: Key)
      requires k !in keys
      ensures Ints(keys + {k}) == Ints(keys) + Ints({k}) && Ints(keys) * Ints({k}) == {}
      ensures k.KInt? ==> k.n !in Ints(keys)
    {
      forall x: Key | x in keys && x.KInt? && k.KInt?
        ensures x.n != k.n
      {
        assert x == KInt(x.n) && k == KInt(k.n);
      }
    }

    /** The sizes that suit a set of keys: the largest array part of which more than half is used, and for the other
        keys as many nodes as there are, rounded up to a power of two. */
    ghost predicate Suits(keys: set<Key>)
      reads this
    {
      && Best(Ints(keys), |arr|)
      && var rest := set k | k in keys && !InArray(k, |arr|);
         if rest == {} then dummy else !dummy && |rest| <= |node| < 2 * |rest|
    }

    lemma SizesSuit(keys: set<Key>, nhsize: nat)
      requires Best(Ints(keys), |arr|) && |arr| <= MAXASIZE && nhsize == |keys| - |UpTo(Ints(keys), |arr|)|
      requires |node| >= nhsize && (dummy <==> nhsize == 0) && (nhsize > 0 ==> |node| < 2 * nhsize)
      ensures Suits(keys)
    {
      hide Best, UpTo, Ints;
      KeysSplit(keys, |arr|);
    }

    /** `rehash`: counts the keys, chooses the sizes and rebuilds the table, so that the key `k`
        can be inserted. */
    method Rehash(k: Key) returns (ok: bool)
      requires Valid() && Live(k) && !k.KNaN? && Missing(node, k) && !InArray(k, |arr|)
      modifies this
      ensures ok ==> Valid() && contents == old(contents) && Easy(k) && Suits(contents.Keys + {k})
      ensures ok ==> ObjKeys(node) <= old(ObjKeys(node)) && NoStale(node) && Traversable()
      ensures old(|contents|) < MAXASIZE ==> ok
      decreases 1, 2
    {
      hide Valid, Missing, Counted, ArrayKeys, Best, Ints, ValuedKeys, ArrayInts, KeysIn, NoStale, ObjKeys, HasFree,
           OwnAddress, LiveFirst, Outside, UpTo;
      var nums := seq(MAXBITS + 1, i => 0);
      NoneCounted(nums);
      NewHere(k);
      var nasize, hashuse, hashints, c;
      nums, nasize := NumUseArray(nums);
      nums, hashuse, hashints := NumUseHash(nums);
      CountedAll(k);
      nums, c := CountInt(k, nums, ArrayInts(arr, |arr|) + Ints(ValuedKeys(node, 0)));
      var totaluse := nasize + hashuse + 1;
      var na;
      nasize, na := ComputeSizes(nums, nasize + hashints + c, Ints(contents.Keys + {k}));
      BestFits(Ints(contents.Keys + {k}), nasize);
      Fits(k, nasize);
      ok := Resize(nasize, totaluse - na);
      if ok {
        KeysStay(old(node), node, contents);
        OnlyLive(k);
        SizesSuit(contents.Keys + {k}, totaluse - na);
      }
      if ok && !InArray(k, |arr|) {
        StillFree();
      }
    }

    static lemma NoneCounted(nums: seq<nat>)
      requires |nums| == MAXBITS + 1 && forall i :: 0 <= i < |nums| ==> nums[i] == 0
      ensures Counted(nums, {})
    {
      assert forall i: nat :: Slice({}, i) == {};
    }

    lemma NewHere(k: Key)
      requires Valid() && Missing(node, k) && !InArray(k, |arr|)
      ensures k !in contents && ObjectKeysOf(node, contents)
    {
      hide Chained, LiveFirst, Keyed, Apart;
      ObjKeysOfMap(arr, node, contents);
      assert k in contents ==> Holds(arr, node, k, contents[k]);
    }

    static ghost predicate ObjectKeysOf(nodes: seq<Node>, m: map<Key, Value>) {
      forall k :: k in m && k.KObj? ==> k in ObjKeys(nodes)
    }

    static lemma KeysStay(nodes: seq<Node>, nodes': seq<Node>, m: map<Key, Value>)
      requires ObjectKeysOf(nodes, m) && KeysIn(nodes', m.Keys)
      ensures ObjKeys(nodes') <= ObjKeys(nodes)
    {
      ObjKeysFrom(nodes, nodes', m.Keys);
    }

    /** The counts cover the keys of the table and the new key. */
    lemma CountedAll(k: Key)
      requires Valid() && k !in contents
      ensures var ints, valued, keys := ArrayInts(arr, |arr|), ValuedKeys(node, 0), contents.Keys + {k};
              && |keys| == |ints| + |valued| + 1 && ints + Ints(valued) + Ints({k}) == Ints(keys)
              && |Ints(keys)| == |ints| + |Ints(valued)| + |Ints({k})|
              && (k.KInt? ==> k.n !in ints + Ints(valued)) && ArrayKeys(Ints(keys))
    {
      hide Valid, ArrayInts, ValuedKeys, Ints;
      var ints, valued, keys := ArrayInts(arr, |arr|), ValuedKeys(node, 0), contents.Keys + {k};
      var inArray := set i | i in ints :: KInt(i);
      IntsBounded(keys);
      KeysOfParts();
      KIntsCard(ints, inArray);
      IntsOfParts(ints, valued, inArray, k);
      assert Ints(contents.Keys) == ints + Ints(valued) && ints * Ints(valued) == {};
      IntsGrow(contents.Keys, k);
    }

    static lemma IntsOfParts(ints: set<int>, valued: set<Key>, inArray: set<Key>, k: Key)
      requires inArray == set i | i in ints :: KInt(i)
      requires inArray * valued == {} && forall i :: i in ints ==> 1 <= i <= MAXASIZE
      ensures Ints(inArray + valued) == ints + Ints(valued) && ints * Ints(valued) == {}
    {
      forall i
        ensures i in Ints(inArray + valued) <==> i in ints + Ints(valued)
      {
        if i in ints {
          assert KInt(i) in inArray && InArray(KInt(i), MAXASIZE);
        }
      }
      forall i | i in ints
        ensures i !in Ints(valued)
      {
        assert KInt(i) in inArray;
        assert KInt(i) !in inArray * valued;
        AsInt(valued, i);
      }
    }

    static lemma AsInt(keys: set<Key>, i: int)
      ensures i in Ints(keys) ==> KInt(i) in keys
    {
      if i in Ints(keys) {
        var x :| x in keys && InArray(x, MAXASIZE) && x.n == i;
        assert x == KInt(i);
      }
    }

    lemma KeysOfParts()
      requires Valid()
      ensures var inArray, valued := set i | i in ArrayInts(arr, |arr|) :: KInt(i), ValuedKeys(node, 0);
              contents.Keys == inArray + valued && inArray * valued == {}
    {
      var inArray := set i | i in ArrayInts(arr, |arr|) :: KInt(i);
      var valued := ValuedKeys(node, 0);
      forall k | k in contents
        ensures k in inArray + valued
      {
        assert Holds(arr, node, k, contents[k]);
        if InArray(k, |arr|) {
          assert k.n in ArrayInts(arr, |arr|) && k == KInt(k.n);
        }
      }
      forall k | k in inArray
        ensures k in contents && k !in valued
      {
        assert contents[KInt(k.n - 1 + 1)] == arr[k.n - 1];
        assert forall j :: Used(node, j) ==> node[j].key != k;
      }
      forall k | k in valued
        ensures k in contents
      {
        var j :| 0 <= j < |node| && node[j].val != Nil && node[j].key == k;
        assert Used(node, j);
      }
    }

    /** There is exactly room for the keys that stay outside an array part of size `n`. */
    lemma Fits(k: Key, n: nat)
      requires k !in contents && n <= MAXASIZE
      ensures var keys := contents.Keys + {k};
              |keys| - |UpTo(Ints(keys), n)| == |Outside(contents, n)| + if InArray(k, n) then 0 else 1
    {
      var keys := contents.Keys + {k};
      KeysSplit(keys, n);
      var outs := set x | x in keys && !InArray(x, n);
      if InArray(k, n) {
        assert outs == Outside(contents, n);
      } else {
        assert outs == Outside(contents, n) + {k};
      }
    }

    // ---------- Making and filling a table ----------

    /** `luaH_new`. */
    constructor (hash: Hash, narray: nat, nhash: nat)
      requires narray <= MAXASIZE && nhash <= MAXASIZE
      ensures Valid() && contents == map[] && |arr| == narray && |node| >= nhash && AllEmpty(node) && this.hash == hash
    {
      this.hash := hash;
      arr, node, dummy, lastFree := [], [EMPTY], true, 0;
      place, contents := [Place(0, 0.0)], map[];
      new;
      SetArrayVector(narray);
      var ok := SetNodeVector(nhash);
      EmptyRepresents(arr, node);
      NoObjKeys(node);
      assert ArrayMap(arr) == map[];
    }

    /** `luaH_resizearray`, as OP_SETLIST uses it to make room. */
    method ResizeArray(nasize: nat)
      requires Valid() && |arr| <= nasize <= MAXASIZE
      modifies this
      ensures Valid() && contents == old(contents) && |arr| == nasize
    {
      var nsize := if dummy then 0 else |node|;
      FitsAsIs(nasize);
      var ok := Resize(nasize, nsize);
    }

    lemma FitsAsIs(n: nat)
      requires Valid() && n >= |arr|
      ensures |Outside(contents, n)| <= if dummy then 0 else |node|
    {
      forall k | k in Outside(contents, n)
        ensures k in ValuedKeys(node, 0)
      {
        assert Holds(arr, node, k, contents[k]);
      }
      SubsetCard(Outside(contents, n), ValuedKeys(node, 0));
      ValuedCard(node, 0);
      if dummy {
        assert ValuedKeys(node, 0) == {};
      }
    }

    static lemma {:induction false} ValuedCard(nodes: seq<Node>, i: nat)
      requires i <= |nodes|
      ensures |ValuedKeys(nodes, i)| <= |nodes| - i
      decreases |nodes| - i
    {
      if i == |nodes| {
        assert ValuedKeys(nodes, i) == {};
      } else {
        ValuedCard(nodes, i + 1);
        assert ValuedKeys(nodes, i) <= ValuedKeys(nodes, i + 1) + {nodes[i].key};
        SubsetCard(ValuedKeys(nodes, i), ValuedKeys(nodes, i + 1) + {nodes[i].key});
      }
    }

    /** `t[k] = v`: finds or makes the place of the key and stores the value. */
    method Assign(k: Key, v: Value) returns (e: Outcome)
      requires Valid() && !Gone(k) && OwnAddress(node, k)
      modifies this
      ensures e == Done ==> Valid() && contents == Put(old(contents), k, v)
      ensures e == NilIndex <==> k.KNil?
      ensures e == NaNIndex <==> k.KNaN?
      ensures e == NilIndex || e == NaNIndex ==> Valid() && contents == old(contents)
      ensures e == NilIndex || e == NaNIndex ==> node == old(node) && place == old(place)
      ensures e == Overflow ==> old(|contents|) >= MAXASIZE && old(k !in contents)
      ensures e == Misplaced <==> old(Misplaces(k))
      ensures e == Misplaced ==> contents == Put(old(contents), k, v) && Unsound(arr, node, contents)
      ensures old(k in contents) ==> e == Done && |arr| == old(|arr|) && |node| == old(|node|)
      ensures old(k in contents) ==>
                place == old(place) && forall i :: 0 <= i < |node| ==> node[i].key == old(node)[i].key
      ensures e == Done ==> ObjKeys(node) <= old(ObjKeys(node)) + {k}
      ensures e == Done && old(Traversable()) ==> (Traversable() <==> !old(TakesBehind(k)))
      ensures e != Overflow && old(NoStale(node)) ==> NoStale(node)
    {
      hide Valid, Misplaces, TakesBehind, LiveFirst, ObjKeys, OwnAddress, Unsound, NoStale, Missing;
      if NoStale(node) {
        NoneTaken(k);
      }
      var s;
      s, e := Set(k);
      if e == Done {
        ghost var nodes, at := node, place;
        Store(s, k, v);
        SameObjs(nodes, node);
        SameStale(nodes, node);
        SameOrder(nodes, at);
      } else if e == Misplaced {
        StoreAnyway(s.i, k, v);
      }
    }

    lemma SameOrder(nodes: seq<Node>, at: seq<Place>)
      requires Valid() && |nodes| == |node| && place == at
      requires forall i :: 0 <= i < |node| ==> node[i].key == nodes[i].key
      ensures |at| == |nodes| && (LiveFirst(hash, nodes, at, true) <==> Traversable())
    {
      SameLeads(hash, nodes, node, at);
      SameLeads(hash, node, nodes, at);
    }

    /** Stores a value in a node that does not fit its key. */
    method StoreAnyway(i: nat, k: Key, v: Value)
      requires Unsound(arr, node, contents) && At(NodeSlot(i), k) && Live(k)
      modifies `node, `contents
      ensures Unsound(arr, node, contents) && contents == Put(old(contents), k, v)
    {
      assert Used(node, i);
      StoresInNode(arr, node, contents, i, v);
      ghost var nodes := node;
      node := node[i := node[i].(val := v)];
      contents := Put(contents, k, v);
      forall at
        ensures !Chained(hash, node, at)
      {
        if Chained(hash, node, at) {
          SameChains(hash, node, nodes, at);
        }
      }
    }

    /** `t[k]`. */
    method Index(k: Key) returns (v: Value)
      requires Valid() && !Gone(k) && OwnAddress(node, k)
      ensures v == Meaning(k)
    {
      var s := Get(k);
      v := Read(s);
    }

    /** `lua_rawgeti`. */
    method RawGetI(n: int) returns (v: Value)
      requires Valid()
      ensures v == Meaning(KInt(n))
    {
      IntsFit(n);
      v := Index(KInt(n));
    }

    /** `lua_rawseti`; fails only when the table cannot grow. */
    method RawSetI(n: int, v: Value) returns (ok: bool)
      requires Valid()
      modifies this
      ensures ok ==> Valid() && contents == Put(old(contents), KInt(n), v)
      ensures !ok ==> old(|contents|) >= MAXASIZE && old(KInt(n) !in contents)
    {
      IntsFit(n);
      hide Valid, Put, Misplaces, TakesBehind, Traversable, ObjKeys, NoStale, OwnAddress, Unsound;
      var e := Assign(KInt(n), v);
      ok := e == Done;
    }

    // ---------- Borders ----------

    ghost predicate Border(n: int)
      reads this
    {
      0 <= n && (n == 0 || KInt(n) in contents) && KInt(n + 1) !in contents
    }

    lemma ArrayMeaning(i: int)
      requires Valid() && 1 <= i <= |arr|
      ensures KInt(i) in contents <==> arr[i - 1] != Nil
    {
      if KInt(i) in contents {
        assert Holds(arr, node, KInt(i), contents[KInt(i)]);
      }
      assert i == i - 1 + 1;
    }

    /** `luaH_getn`. */
    method GetN() returns (n: int)
      requires Valid()
      ensures Border(n)
    {
      var j := |arr|;
      if j > 0 {
        ArrayMeaning(j);
      }
      if j > 0 && arr[j - 1] == Nil {
        n := ArrayBorder();
      } else if dummy {
        assert KInt(j + 1) in contents ==> Holds(arr, node, KInt(j + 1), contents[KInt(j + 1)]);
        n := j;
      } else {
        n := UnboundSearch(j);
      }
    }

    /** The binary search in the array part, whose last element is nil. */
    method ArrayBorder() returns (i: int)
      requires Valid() && arr != [] && arr[|arr| - 1] == Nil
      ensures Border(i)
    {
      hide Chained, Keyed, Represents;
      var j := |arr|;
      i := 0;
      while j - i > 1
        invariant 0 <= i < j <= |arr| && arr[j - 1] == Nil && (i == 0 || arr[i - 1] != Nil)
      {
        var m := (i + j) / 2;
        if arr[m - 1] == Nil {
          j := m;
        } else {
          i := m;
        }
      }
      if i > 0 {
        ArrayMeaning(i);
      }
      ArrayMeaning(j);
    }

    /** `unbound_search`, from `first`, which is zero or a present index. */
    method UnboundSearch(first: nat) returns (n: int)
      requires Valid() && first <= MAXASIZE && (first == 0 || KInt(first) in contents)
      ensures Border(n)
    {
      hide Chained, Keyed, Represents;
      var i, j := first, first + 1;
      while true
        invariant 0 <= i < j <= MAX_INT && (i == 0 || KInt(i) in contents)
        decreases MAX_INT - j
      {
        var s := GetNum(j);
        if Read(s) == Nil {
          PresentNotNil();
          break;
        }
        i := j;
        j := j * 2;
        if j > MAX_INT {
          n := LinearSearch();
          return;
        }
      }
      assert KInt(j) !in contents;
      while j - i > 1
        invariant 0 <= i < j <= MAX_INT && (i == 0 || KInt(i) in contents) && KInt(j) !in contents
      {
        var m := (i + j) / 2;
        var s := GetNum(m);
        PresentNotNil();
        if Read(s) == Nil {
          j := m;
        } else {
          i := m;
        }
      }
      n := i;
    }

    lemma NilIsAbsent(k: Key)
      requires Valid()
      ensures Meaning(k) != Nil <==> k in contents
    {
      PresentNotNil();
    }

    /** What holds a value is the place of the key. */
    lemma FoundIsPlace(s: Slot, k: Key)
      requires Valid() && Found(s, k) && Read(s) != Nil
      ensures At(s, k) && Live(k)
    {
    }

    lemma PresentNotNil()
      requires Valid()
      ensures forall k :: k in contents ==> contents[k] != Nil
    {
    }

    /** The search that a table built to defeat the doubling falls back to; it cannot overflow. */
    method LinearSearch() returns (n: int)
      requires Valid()
      ensures Border(n)
    {
      PresentNotNil();
      hide Valid;
      var i := 1;
      while true
        invariant 1 <= i <= MAX_INT && forall k :: 1 <= k < i ==> KInt(k) in contents
        decreases MAX_INT - i
      {
        var s := GetNum(i);
        if Read(s) == Nil {
          return i - 1;
        }
        ManyInts(i);
        i := i + 1;
      }
    }

    /** A table has room for fewer keys than there are ints. */
    lemma ManyInts(n: nat)
      requires Valid() && forall k :: 1 <= k <= n ==> KInt(k) in contents
      ensures n < MAX_INT
    {
      var ks := set i | i in IntsTo(n) :: KInt(i);
      KIntsCard(IntsTo(n), ks);
      SubsetCard(ks, contents.Keys);
      KeysOfParts();
      ValuedCard(node, 0);
      var arrayInts := ArrayInts(arr, |arr|);
      RangeCard(arrayInts, |arr|);
      KIntsCard(arrayInts, set i | i in arrayInts :: KInt(i));
    }

    static ghost function IntsTo(n: nat): (r: set<int>)
      ensures |r| == n && forall i :: i in r <==> 1 <= i <= n
    {
      if n == 0 then {} else IntsTo(n - 1) + {n}
    }

    // ---------- Traversal ----------

    /** A position: the array part first, then the hash part. */
    function KeyAt(p: int): Key
      requires 0 <= p < |arr| + |node|
      reads this
    {
      if p < |arr| then KInt(p + 1) else node[p - |arr|].key
    }

    function ValueAt(p: int): Value
      requires 0 <= p < |arr| + |node|
      reads this
    {
      if p < |arr| then arr[p] else node[p - |arr|].val
    }

    /** `findindex`: the position of the key `k`, which may be dead by now, and -1 for nil. */
    method FindIndex(k: Key) returns (ok: bool, p: int)
      requires Valid() && !Gone(k)
      ensures k.KNil? ==> ok && p == -1
      ensures !k.KNil? && ok ==> 0 <= p < |arr| + |node| && Meets(KeyAt(p), k, true) && !KeyAt(p).KNil?
      ensures !k.KNil? ==> (!ok ==> forall q :: 0 <= q < |arr| + |node| ==> Undead(KeyAt(q)) != k)
      ensures !k.KNil? && ok && p >= |arr| ==> FirstMatch(p - |arr|, k, true)
      ensures ok && InArray(k, |arr|) ==> p == k.n - 1
    {
      hide Valid, Meets, FirstMatch, Undead;
      if k.KNil? {
        return true, -1;
      }
      if InArray(k, |arr|) {
        ArrayMeets(k);
        return true, k.n - 1;
      }
      var n := WalkFor(k);
      if n != END {
        MatchUsed(n, k);
        return true, n + |arr|;
      }
      NotAKey(k);
      return false, 0;
    }

    lemma ArrayMeets(k: Key)
      requires InArray(k, |arr|)
      ensures Meets(KeyAt(k.n - 1), k, true)
    {
    }

    lemma MatchUsed(n: nat, k: Key)
      requires Valid() && FirstMatch(n, k, true)
      ensures n < |node| && !KeyAt(|arr| + n).KNil? && KeyAt(|arr| + n) == node[n].key
    {
    }

    lemma NotAKey(k: Key)
      requires !k.KNil? && !InArray(k, |arr|) && forall j :: Used(node, j) ==> Undead(node[j].key) != k
      ensures forall q :: 0 <= q < |arr| + |node| ==> Undead(KeyAt(q)) != k
    {
      forall q | 0 <= q < |arr| + |node|
        ensures Undead(KeyAt(q)) != k
      {
        if q >= |arr| {
          assert KeyAt(q) == node[q - |arr|].key && (Used(node, q - |arr|) || node[q - |arr|].key.KNil?);
        }
      }
    }

    /** The loop of `findindex` over the chain of the main position of `k`. */
    method WalkFor(k: Key) returns (n: int)
      requires Valid() && Live(k)
      ensures END <= n < |node|
      ensures n == END ==> forall j :: Used(node, j) ==> Undead(node[j].key) != k
      ensures n != END ==> FirstMatch(n, k, true) && Meets(node[n].key, k, true)
    {
      WalkStarts(k, true);
      hide Valid, OnWalk, FirstMatch, Undead, Meets, IsKey, Sought;
      n := Main(hash, k, |node|);
      while n != END
        invariant OnWalk(n, k, true) && END <= n < |node|
        decreases |Ahead(place, n)|
      {
        WalkFinds(n, k, true);
        if Meets(node[n].key, k, true) {
          return;
        }
        WalkGoesOn(n, k, true);
        n := node[n].next;
      }
      WalkEnds(k, true);
      NeverKey(k);
    }

    lemma NeverKey(k: Key)
      requires forall j :: Used(node, j) ==> !IsKey(j, k, true)
      ensures forall j :: Used(node, j) ==> Undead(node[j].key) != k
    {
    }

    /** `p` is the first position from `from` on that holds a value, or the end. */
    ghost predicate FirstFrom(from: int, p: int)
      reads this
    {
      && 0 <= from <= p <= |arr| + |node|
      && (p < |arr| + |node| ==> ValueAt(p) != Nil)
      && forall q :: from <= q < p ==> ValueAt(q) == Nil
    }

    /** A node holds a pair of the table exactly when its value is not nil. */
    lemma NodeMeaning(i: nat)
      requires Valid() && i < |node|
      ensures node[i].val != Nil <==> node[i].key in contents
      ensures node[i].val != Nil ==> Live(node[i].key)
    {
      var k := node[i].key;
      if node[i].val != Nil {
        NodePresent(i);
      }
      if k in contents {
        KeyInUse(i);
      }
    }

    lemma KeyInUse(i: nat)
      requires Valid() && i < |node| && node[i].key in contents
      ensures node[i].val == contents[node[i].key] != Nil
    {
      hide Chained;
      var k := node[i].key;
      assert Holds(arr, node, k, contents[k]) && Live(k);
      assert Used(node, i);
    }

    lemma NodePresent(i: nat)
      requires Valid() && i < |node| && node[i].val != Nil
      ensures Used(node, i) && node[i].key in contents && contents[node[i].key] == node[i].val
    {
      assert Used(node, i);
    }

    lemma ArrayPresent(i: nat)
      requires Valid() && i < |arr| && arr[i] != Nil
      ensures KInt(i + 1) in contents && contents[KInt(i + 1)] == arr[i]
    {
      ArrayMeaning(i + 1);
      assert Holds(arr, node, KInt(i + 1), contents[KInt(i + 1)]);
    }

    /** `luaH_next`: the pair after the key `k`; `more` is false at the end. */
    method Next(k: Key) returns (ok: bool, more: bool, k': Key, v: Value, p: int, ghost from: int)
      requires Valid() && !Gone(k)
      ensures k.KNil? ==> ok && from == 0
      ensures !k.KNil? && ok ==> 0 < from <= |arr| + |node| && Meets(KeyAt(from - 1), k, true) && !KeyAt(from - 1).KNil?
      ensures !ok ==> !k.KNil? && forall q :: 0 <= q < |arr| + |node| ==> Undead(KeyAt(q)) != k
      ensures ok ==> FirstFrom(from, p) && (more <==> p < |arr| + |node|)
      ensures ok && more ==> k' == KeyAt(p) && v == ValueAt(p) && k' in contents && contents[k'] == v
      ensures ok && from > |arr| ==> FirstMatch(from - 1 - |arr|, k, true)
      ensures ok && InArray(k, |arr|) ==> from == k.n
    {
      hide Valid, Meets, Undead, FirstMatch;
      more, k', v := false, KNil, Nil;
      ok, p := FindIndex(k);
      from := p + 1;
      if !ok {
        return;
      }
      p := p + 1;
      while p < |arr|
        invariant from <= p <= |arr| + |node| && forall q :: from <= q < p ==> ValueAt(q) == Nil
      {
        if arr[p] != Nil {
          ArrayPresent(p);
          return true, true, KInt(p + 1), arr[p], p, from;
        }
        p := p + 1;
      }
      while p - |arr| < |node|
        invariant from <= p && |arr| <= p <= |arr| + |node| && forall q :: from <= q < p ==> ValueAt(q) == Nil
      {
        if node[p - |arr|].val != Nil {
          NodePresent(p - |arr|);
          return true, true, node[p - |arr|].key, node[p - |arr|].val, p, from;
        }
        p := p + 1;
      }
    }

    /** The collector's `removeentry` on the entries without a value. */
    method KillEmpty()
      requires Valid()
      modifies `node
      ensures Valid() && node == PrunedAll(old(node)) && OnlyGone(old(node), node) && NoStale(node)
      ensures forall i :: 0 <= i < |node| && node[i].val == Nil ==> !node[i].key.KObj?
      ensures old(Traversable()) ==> Traversable()
    {
      hide Valid, Traversable, NoStale, OnlyGone, Pruned;
      Whole(node);
      var i := |node|;
      while i > 0
        invariant 0 <= i <= |node| && Valid() && OnlyGone(old(node), node) && (old(Traversable()) ==> Traversable())
        invariant |node| == |old(node)| && forall j :: 0 <= j < |node| ==>
                    node[j] == if j < i then old(node)[j] else Pruned(old(node)[j])
      {
        i := i - 1;
        PruningChanges(node[i]);
        if node[i].val == Nil && (node[i].key.KObj? || node[i].key.KStale?) {
          ghost var nodes := node;
          Retire(i, KDead(node[i].key.o, node[i].key.tag, node[i].key.id));
          GoneAfterGone(old(node), nodes, node);
        }
      }
      assert node == PrunedAll(old(node));
      NoneStale();
    }

    static lemma PruningChanges(n: Node)
      ensures Pruned(n) == if n.val == Nil && (n.key.KObj? || n.key.KStale?)
                           then n.(key := KDead(n.key.o, n.key.tag, n.key.id)) else n
    {
    }

    lemma NoneStale()
      requires Valid() && exists nodes :: node == PrunedAll(nodes)
      ensures NoStale(node) && forall i :: 0 <= i < |node| && node[i].val == Nil ==> !node[i].key.KObj?
    {
      hide Chained, LiveFirst, Represents, Apart, ObjKeys;
      assert forall i :: 0 <= i < |node| ==> node[i].key.KNil? || Used(node, i);
    }

    /** The same collection in a table weak in keys and values: it leaves those entries as they are, and
        their objects go. */
    method LeaveEmpty()
      requires Valid()
      modifies `node
      ensures Valid() && node == AbandonedAll(old(node)) && OnlyGone(old(node), node)
      ensures forall i :: 0 <= i < |node| && node[i].val == Nil ==> !node[i].key.KObj?
      ensures old(Traversable()) ==> Traversable()
    {
      hide Valid, Traversable, NoStale, OnlyGone;
      Whole(node);
      var i := |node|;
      while i > 0
        invariant 0 <= i <= |node| && Valid() && OnlyGone(old(node), node) && (old(Traversable()) ==> Traversable())
        invariant |node| == |old(node)| && forall j :: 0 <= j < |node| ==>
                    node[j] == if j < i then old(node)[j] else Abandoned(old(node)[j])
      {
        i := i - 1;
        if node[i].val == Nil && node[i].key.KObj? {
          ghost var nodes := node;
          Retire(i, KStale(node[i].key.o, node[i].key.tag, node[i].key.id));
          GoneAfterGone(old(node), nodes, node);
        }
      }
      assert node == AbandonedAll(old(node));
    }

    /** Some keys of `nodes` are gone in `nodes'`; nothing else is different. */
    static ghost predicate OnlyGone(nodes: seq<Node>, nodes': seq<Node>) {
      && |nodes'| == |nodes| && ObjKeys(nodes') <= ObjKeys(nodes)
      && forall i :: 0 <= i < |nodes| ==> Undead(nodes'[i].key) == Undead(nodes[i].key) && nodes'[i].val == nodes[i].val
    }

    static lemma Whole(nodes: seq<Node>)
      ensures OnlyGone(nodes, nodes)
    {
    }

    static lemma GoneAfterGone(a: seq<Node>, b: seq<Node>, c: seq<Node>)
      requires OnlyGone(a, b) && OnlyGone(b, c)
      ensures OnlyGone(a, c) && |c| == |b|
    {
      hide ObjKeys;
    }

    /** The object of an empty entry goes. */
    method Retire(i: nat, gone: Key)
      requires Valid() && i < |node| && node[i].val == Nil
      requires node[i].key.KObj? || (node[i].key.KStale? && gone.KDead?)
      requires Gone(gone) && Undead(gone) == Undead(node[i].key)
      modifies `node
      ensures Valid() && OnlyGone(old(node), node) && (old(Traversable()) ==> Traversable())
      ensures node == old(node)[i := old(node)[i].(key := gone)] && old(node)[i].key !in ObjKeys(node)
      ensures gone.KDead? && old(NoStale(node)) ==> NoStale(node)
    {
      hide Chained, Keyed, Represents, LiveFirst, KeepsOrder, ObjKeys, Apart, IsPow2, UsedFrom, NoStale;
      ghost var nodes := node;
      node := node[i := node[i].(key := gone)];
      RetiredFacts(hash, nodes, place, i, gone, if dummy then 1 else lastFree);
      SameChains(hash, nodes, node, place);
      GoneLeads(hash, arr, nodes, node, place, i, gone);
      ApartLess(ObjKeys(nodes), ObjKeys(node));
      GoneMeaning(nodes, i, gone);
      GoneKey(nodes, i, gone);
      OrderKept(nodes);
    }

    static lemma RetiredFacts(hash: Hash, nodes: seq<Node>, at: seq<Place>, i: nat, gone: Key, lastFree: int)
      requires Chained(hash, nodes, at) && i < |nodes| && !nodes[i].key.KNil? && Gone(gone) && UsedFrom(nodes, lastFree)
      ensures |at| == |nodes| && UsedFrom(nodes[i := nodes[i].(key := gone)], lastFree)
      ensures gone.KDead? && NoStale(nodes) ==> NoStale(nodes[i := nodes[i].(key := gone)])
      ensures nodes != [EMPTY]
    {
      var nodes' := nodes[i := nodes[i].(key := gone)];
      forall j | 0 <= j && lastFree <= j < |nodes|
        ensures Used(nodes', j)
      {
        assert Used(nodes, j);
      }
    }

    lemma OrderKept(nodes: seq<Node>)
      requires |place| == |node| == |nodes| && KeepsOrder(hash, nodes, place, node, place)
      ensures LiveFirst(hash, nodes, place, false) ==> LiveFirst(hash, node, place, false)
      ensures LiveFirst(hash, nodes, place, true) ==> LiveFirst(hash, node, place, true)
    {
    }

    lemma GoneKey(nodes: seq<Node>, i: nat, gone: Key)
      requires Keyed(arr, nodes) && i < |nodes| && !nodes[i].key.KNil? && Gone(gone)
      ensures nodes[i].key !in ObjKeys(nodes[i := nodes[i].(key := gone)])
    {
      var nodes' := nodes[i := nodes[i].(key := gone)];
      forall j | 0 <= j < |nodes'| && nodes'[j].key.KObj?
        ensures nodes'[j].key != nodes[i].key
      {
        assert Used(nodes, j) && Used(nodes, i);
      }
    }

    /** What the collector does to one entry when it clears a weak table: the value goes, and with it the
        key if it is an object. */
    method Clear(k: Key)
      requires Valid() && !Gone(k) && OwnAddress(node, k)
      modifies `arr, `node, `contents
      ensures Valid() && contents == Put(old(contents), k, Nil) && |arr| == old(|arr|) && place == old(place)
      ensures |node| == old(|node|) && ObjKeys(node) <= old(ObjKeys(node))
      ensures forall i :: 0 <= i < |node| ==>
                node[i].key == old(node)[i].key ||
                (old(node)[i].key == k && k.KObj? && node[i].key == KDead(k.o, k.tag, k.id))
      ensures old(Traversable()) ==> Traversable()
      ensures old(k in contents && k.KObj?) ==> k !in ObjKeys(node)
      ensures old(NoStale(node)) ==> NoStale(node)
    {
      hide Valid, Found, Missing, ObjKeys, OwnAddress, NoStale, LiveFirst;
      var s := Get(k);
      NilIsAbsent(k);
      if Read(s) != Nil {
        FoundIsPlace(s, k);
        ghost var nodes, at := node, place;
        Store(s, k, Nil);
        SameObjs(nodes, node);
        SameStale(nodes, node);
        SameOrder(nodes, at);
        if s.NodeSlot? && k.KObj? {
          NodeMeaning(s.i);
          Retire(s.i, KDead(k.o, k.tag, k.id));
        }
      }
    }

    lemma GoneMeaning(nodes: seq<Node>, i: nat, gone: Key)
      requires Keyed(arr, nodes) && Represents(arr, nodes, contents) && i < |nodes| && nodes[i].val == Nil
      requires nodes[i].key.KObj? || nodes[i].key.KStale?
      requires Gone(gone) && node == nodes[i := nodes[i].(key := gone)]
      ensures Keyed(arr, node) && Represents(arr, node, contents)
    {
      assert forall j :: Used(node, j) <==> Used(nodes, j);
      forall k | k in contents
        ensures Holds(arr, node, k, contents[k])
      {
        assert Holds(arr, nodes, k, contents[k]);
        if !InArray(k, |arr|) {
          var j :| Used(nodes, j) && nodes[j].key == k && nodes[j].val == contents[k];
          assert Used(node, j) && node[j] == nodes[j];
        }
      }
    }
  }

  // ---------- Whole runs ----------

  /** A plain map after the same assignments; those with a nil or NaN index are errors. */
  function Written(ops: seq<(Key, Value)>): map<Key, Value>
    decreases |ops|
  {
    if ops == [] then map[]
    else
      var (k, v) := ops[|ops| - 1];
      var m := Written(ops[..|ops| - 1]);
      if k.KNil? || k.KNaN? then m else Put(m, k, v)
  }

  /** Every key is one the program can have, with an address of its own, and there is room for it: it has
      a field already, or there are fewer fields than the largest table holds. */
  ghost predicate Storable(ops: seq<(Key, Value)>) {
    && (forall i :: 0 <= i < |ops| ==> !Gone(ops[i].0))
    && Apart(KeysOfAll(ops))
    && (forall i :: 0 <= i < |ops| ==> HasRoom(Written(ops[..i]), ops[i].0))
  }

  ghost predicate HasRoom(m: map<Key, Value>, k: Key) {
    k.KNil? || k.KNaN? || k in m || |m| < MAXASIZE
  }

  ghost function KeysOfAll(ops: seq<(Key, Value)>): set<Key> {
    set i | 0 <= i < |ops| :: ops[i].0
  }

  /** After any sequence of assignments to a new table, it holds what a plain map would hold. */
  method Replay(hash: Hash, narray: nat, nhash: nat, ops: seq<(Key, Value)>) returns (t: LuaTable)
    requires narray <= MAXASIZE && nhash <= MAXASIZE && Storable(ops)
    ensures t.Valid() && t.contents == Written(ops)
  {
    hide LuaTable.Valid, Apart, ObjKeys, Put, OwnAddress, NoStale, LuaTable.Unsound, LuaTable.Misplaces,
         LuaTable.TakesBehind, LuaTable.Traversable, Storable, Written, KeysOfAll;
    NoneWritten(ops);
    t := new LuaTable(hash, narray, nhash);
    NoKeys(t.node);
    for i := 0 to |ops|
      invariant fresh(t) && t.Valid() && t.contents == Written(ops[..i])
      invariant ObjKeys(t.node) <= KeysOfAll(ops) && NoStale(t.node)
    {
      NextWritten(ops, i);
      OwnOf(t.node, KeysOfAll(ops), ops[i].0);
      t.NoneTaken(ops[i].0);
      var e := t.Assign(ops[i].0, ops[i].1);
    }
    assert ops[..|ops|] == ops;
  }

  lemma NoneWritten(ops: seq<(Key, Value)>)
    ensures Written(ops[..0]) == map[]
  {
  }

  lemma NextWritten(ops: seq<(Key, Value)>, i: nat)
    requires i < |ops| && Storable(ops)
    ensures var (k, v) := ops[i];
            && !Gone(k) && k in KeysOfAll(ops) && Apart(KeysOfAll(ops)) && HasRoom(Written(ops[..i]), k)
            && Written(ops[..i + 1]) == if k.KNil? || k.KNaN? then Written(ops[..i]) else Put(Written(ops[..i]), k, v)
  {
    assert ops[..i + 1][..i] == ops[..i];
  }

  lemma NoKeys(nodes: seq<Node>)
    requires AllEmpty(nodes)
    ensures ObjKeys(nodes) == {} && NoStale(nodes)
  {
  }

  lemma OwnOf(nodes: seq<Node>, keys: set<Key>, k: Key)
    requires Apart(keys) && ObjKeys(nodes) <= keys && k in keys
    ensures OwnAddress(nodes, k)
  {
    forall i | 0 <= i < |nodes| && nodes[i].key.KObj? && k.KObj? && nodes[i].key.o == k.o
      ensures nodes[i].key == k
    {
      assert nodes[i].key in ObjKeys(nodes);
    }
  }
}
