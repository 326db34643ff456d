/** Repeated `luaH_next` (ltable.cpp:109-150) on a table that nothing changes in between: where each call
    goes, and exactly when the calls visit every field in order. */
module NextCalls {
  import opened HashPart
  import opened TableContents
  import opened LuaTables

  /** The parts of a table. Positions count the array part first, then the nodes. */
  datatype Layout = Layout(hash: Hash, arr: seq<Value>, nodes: seq<Node>, at: seq<Place>)

  function Size(l: Layout): nat {
    |l.arr| + |l.nodes|
  }

  function ValueIn(l: Layout, p: int): Value
    requires 0 <= p < Size(l)
  {
    if p < |l.arr| then l.arr[p] else l.nodes[p - |l.arr|].val
  }

  function KeyIn(l: Layout, p: int): Key
    requires 0 <= p < Size(l)
  {
    if p < |l.arr| then KInt(p + 1) else l.nodes[p - |l.arr|].key
  }

  predicate Full(l: Layout, p: int) {
    0 <= p < Size(l) && ValueIn(l, p) != Nil
  }

  ghost predicate Sound(l: Layout) {
    |l.at| == |l.nodes| > 0 && Chained(l.hash, l.nodes, l.at) && Keyed(l.arr, l.nodes)
  }

  // ---------- One call ----------

  /** On the way from the main position of `k`, node `n` is the first that `findindex` takes for `k`. */
  ghost predicate FirstMet(l: Layout, n: int, k: Key)
    requires |l.at| == |l.nodes| > 0
  {
    var m := Main(l.hash, k, |l.nodes|);
    && Used(l.nodes, n) && Used(l.nodes, m) && AtOrBefore(l.at, m, n) && Meets(l.nodes[n].key, k, true)
    && forall j :: Used(l.nodes, j) && AtOrBefore(l.at, m, j) && Meets(l.nodes[j].key, k, true) ==>
         AtOrBefore(l.at, n, j)
  }

  /** `findindex` gives `r` for the key at position `p`; -1 stands for nil. */
  ghost predicate StopsAt(l: Layout, p: int, r: int)
    requires |l.at| == |l.nodes| > 0 && -1 <= p < Size(l)
  {
    if p < |l.arr| then r == p else FirstMet(l, r - |l.arr|, KeyIn(l, p))
  }

  /** No position from `from` on holds a value before `p`, and `p` does or is the end. */
  ghost predicate FirstFull(l: Layout, from: int, p: int) {
    && 0 <= from <= p <= Size(l) && (p < Size(l) ==> Full(l, p)) && forall q :: from <= q < p ==> !Full(l, q)
  }

  /** The call with the key at position `p` gives the pair at position `q`, or ends if `q` is the end. */
  ghost predicate Goes(l: Layout, p: int, q: int)
    requires |l.at| == |l.nodes| > 0 && -1 <= p < Size(l)
  {
    exists r :: StopsAt(l, p, r) && FirstFull(l, r + 1, q)
  }

  lemma StopsOnce(l: Layout, p: int, r: int, r': int)
    requires Sound(l) && -1 <= p < Size(l) && StopsAt(l, p, r) && StopsAt(l, p, r')
    ensures r == r'
  {
    hide LinksAhead, NoGaps, AllHome, Keyed;
  }

  lemma GoesOnce(l: Layout, p: int, q: int, q': int)
    requires Sound(l) && -1 <= p < Size(l) && Goes(l, p, q) && Goes(l, p, q')
    ensures q == q'
  {
    hide Chained, Keyed, StopsAt;
    var r :| StopsAt(l, p, r) && FirstFull(l, r + 1, q);
    var r' :| StopsAt(l, p, r') && FirstFull(l, r' + 1, q');
    StopsOnce(l, p, r, r');
  }

  /** A field is met by the walk for its own key, so something is. */
  lemma Stops(l: Layout, p: int) returns (r: int)
    requires Sound(l) && (p == -1 || Full(l, p))
    ensures StopsAt(l, p, r) && -1 <= r < Size(l)
  {
    if p < |l.arr| {
      r := p;
    } else {
      var i := p - |l.arr|;
      FullKey(l, i);
      hide Keyed, FreeNodesEmpty, NoGaps;
      var n := Earliest(l, KeyIn(l, p), i);
      r := n + |l.arr|;
    }
  }

  lemma FullKey(l: Layout, i: nat)
    requires Sound(l) && i < |l.nodes| && l.nodes[i].val != Nil
    ensures Used(l.nodes, i) && Live(l.nodes[i].key) && Meets(l.nodes[i].key, l.nodes[i].key, true)
    ensures var m := Main(l.hash, l.nodes[i].key, |l.nodes|); Used(l.nodes, m) && AtOrBefore(l.at, m, i)
    ensures !InArray(l.nodes[i].key, |l.arr|)
  {
    hide LinksAhead, NoGaps, PlacesDiffer;
    assert Used(l.nodes, i);
    assert i == Main(l.hash, l.nodes[i].key, |l.nodes|) || AtHome(l.hash, l.nodes, l.at, i);
  }

  ghost function Earlier(at: seq<Place>, i: int): set<int>
    requires 0 <= i < |at|
  {
    set j | 0 <= j < |at| && Before(at, j, i)
  }

  /** Of the nodes on the way that `findindex` takes for `k`, the first. */
  lemma {:induction false} Earliest(l: Layout, k: Key, i: int) returns (n: int)
    requires |l.at| == |l.nodes| > 0
    requires var m := Main(l.hash, k, |l.nodes|);
             Used(l.nodes, i) && Used(l.nodes, m) && AtOrBefore(l.at, m, i) && Meets(l.nodes[i].key, k, true)
    ensures FirstMet(l, n, k)
    decreases Earlier(l.at, i)
  {
    if FirstMet(l, i, k) {
      n := i;
    } else {
      var m := Main(l.hash, k, |l.nodes|);
      var j :| Used(l.nodes, j) && AtOrBefore(l.at, m, j) && Meets(l.nodes[j].key, k, true) && !AtOrBefore(l.at, i, j);
      assert j in Earlier(l.at, i) && j !in Earlier(l.at, j);
      n := Earliest(l, k, j);
    }
  }

  lemma FirstFullFrom(l: Layout, from: nat) returns (q: int)
    requires from <= Size(l)
    ensures FirstFull(l, from, q)
  {
    q := from;
    while q < Size(l) && !Full(l, q)
      invariant from <= q <= Size(l) && forall x :: from <= x < q ==> !Full(l, x)
    {
      q := q + 1;
    }
  }

  // ---------- All calls ----------

  /** After the key at position `p`, the calls visit `ps` and then end. */
  ghost predicate EndsAfter(l: Layout, p: int, ps: seq<int>)
    requires |l.at| == |l.nodes| > 0 && -1 <= p < Size(l)
    decreases |ps|
  {
    if ps == [] then Goes(l, p, Size(l)) else Goes(l, p, ps[0]) && 0 <= ps[0] < Size(l) && EndsAfter(l, ps[0], ps[1..])
  }

  /** The positions of the fields from `from` on, in order. */
  function FieldsFrom(l: Layout, from: nat): (ps: seq<int>)
    ensures forall p :: p in ps <==> from <= p && Full(l, p)
    ensures forall i, j :: 0 <= i < j < |ps| ==> ps[i] < ps[j]
    decreases Size(l) - from
  {
    if from >= Size(l) then []
    else
      var rest := FieldsFrom(l, from + 1);
      assert forall i :: 0 <= i < |rest| ==> rest[i] in rest;
      if Full(l, from) then [from] + rest else rest
  }

  /** Where a call may resume instead of at the field `p`: further on, with no field in between. */
  ghost predicate Harmless(l: Layout, p: int, r: int) {
    p <= r && forall q :: p < q <= r ==> !Full(l, q)
  }

  /** The call with the key of a field resumes at the field, or where that makes no difference. */
  ghost predicate Resumable(l: Layout)
    requires |l.at| == |l.nodes| > 0
  {
    forall p, r :: Full(l, p) && StopsAt(l, p, r) ==> Harmless(l, p, r)
  }

  lemma {:induction false} FieldsAfter(l: Layout, from: nat, q: nat)
    requires FirstFull(l, from, q)
    ensures FieldsFrom(l, from) == FieldsFrom(l, q)
    ensures q < Size(l) ==> FieldsFrom(l, q) == [q] + FieldsFrom(l, q + 1)
    decreases q - from
  {
    hide ValueIn;
    if from < q {
      FieldsAfter(l, from + 1, q);
    }
  }

  /** Repeated `luaH_next` visits the fields in the order of their positions, each once, and ends, exactly
      if the table is resumable. */
  lemma OrderExactly(l: Layout)
    requires Sound(l)
    ensures Resumable(l) <==> EndsAfter(l, -1, FieldsFrom(l, 0))
  {
    if Resumable(l) {
      OrderedFrom(l, -1);
    }
    if EndsAfter(l, -1, FieldsFrom(l, 0)) {
      forall p, r | Full(l, p) && StopsAt(l, p, r)
        ensures Harmless(l, p, r)
      {
        ReachesField(l, -1, p, r);
      }
    }
  }

  lemma {:induction false} OrderedFrom(l: Layout, p: int)
    requires Sound(l) && Resumable(l) && (p == -1 || Full(l, p))
    ensures EndsAfter(l, p, FieldsFrom(l, p + 1))
    decreases Size(l) - p
  {
    hide Chained, Keyed, StopsAt, Harmless, FirstFull, FieldsFrom;
    var r := Stops(l, p);
    var q := FirstFullFrom(l, p + 1);
    SameNext(l, p, r, q);
    FieldsAfter(l, p + 1, q);
    FullHere(l, p + 1, q);
    if q < Size(l) {
      OrderedFrom(l, q);
    } else {
      NoneLeft(l);
    }
  }

  lemma SameNext(l: Layout, p: int, r: int, q: int)
    requires |l.at| == |l.nodes| > 0 && -1 <= p < Size(l) && StopsAt(l, p, r) && FirstFull(l, p + 1, q) && -1 <= r
    requires p >= 0 ==> Harmless(l, p, r)
    requires r < Size(l)
    ensures Goes(l, p, q)
  {
    assert FirstFull(l, r + 1, q);
  }

  lemma FullHere(l: Layout, from: int, q: int)
    requires FirstFull(l, from, q)
    ensures from <= q <= Size(l) && (q < Size(l) ==> Full(l, q))
  {
  }

  lemma NoneLeft(l: Layout)
    ensures FieldsFrom(l, Size(l)) == []
  {
  }

  /** In an ordered traversal every field is followed by the next one. */
  lemma {:induction false} ReachesField(l: Layout, p0: int, p: int, r: int)
    requires Sound(l) && -1 <= p0 < p && Full(l, p) && StopsAt(l, p, r) && EndsAfter(l, p0, FieldsFrom(l, p0 + 1))
    ensures Harmless(l, p, r)
    decreases p - p0
  {
    hide Sound, StopsAt, FieldsFrom, FirstFull, Full, Harmless, Goes, EndsAfter;
    InRange(l, p);
    var q := FirstFullFrom(l, p0 + 1);
    FieldsAfter(l, p0 + 1, q);
    NotBefore(l, p0 + 1, q, p);
    EndsNext(l, p0, q, FieldsFrom(l, q + 1));
    if q < p {
      ReachesField(l, q, p, r);
    } else {
      var next := FirstFullFrom(l, p + 1);
      FieldsAfter(l, p + 1, next);
      FullHere(l, p + 1, next);
      if next < Size(l) {
        EndsNext(l, p, next, FieldsFrom(l, next + 1));
      } else {
        NoneLeft(l);
        EndsNow(l, p);
      }
      FollowedBy(l, p, r, next);
    }
  }

  lemma InRange(l: Layout, p: int)
    requires Sound(l) && Full(l, p)
    ensures |l.at| == |l.nodes| > 0 && 0 <= p < Size(l)
  {
  }

  lemma EndsNext(l: Layout, p: int, q: int, rest: seq<int>)
    requires |l.at| == |l.nodes| > 0 && -1 <= p < Size(l) && EndsAfter(l, p, [q] + rest)
    ensures Goes(l, p, q) && 0 <= q < Size(l) && EndsAfter(l, q, rest)
  {
    assert ([q] + rest)[1..] == rest;
  }

  lemma EndsNow(l: Layout, p: int)
    requires |l.at| == |l.nodes| > 0 && -1 <= p < Size(l) && EndsAfter(l, p, [])
    ensures Goes(l, p, Size(l))
  {
  }

  lemma NotBefore(l: Layout, from: int, q: int, p: int)
    requires FirstFull(l, from, q) && from <= p && Full(l, p)
    ensures q <= p < Size(l) && 0 <= q
  {
  }

  lemma FollowedBy(l: Layout, p: int, r: int, next: int)
    requires Sound(l) && Full(l, p) && StopsAt(l, p, r) && Goes(l, p, next) && FirstFull(l, p + 1, next)
    ensures Harmless(l, p, r)
  {
    hide Chained, Keyed, StopsAt;
    var r' :| StopsAt(l, p, r') && FirstFull(l, r' + 1, next);
    StopsOnce(l, p, r, r');
  }

  /** If some field is followed by itself or by one before it, and all before it by the next one, the calls
      never end. */
  lemma {:induction false} NeverEnds(l: Layout, p: int, q: int, p0: int, ps: seq<int>)
    requires Sound(l) && Full(l, p) && Goes(l, p, q) && q <= p && -1 <= p0 <= p && (p0 == -1 || Full(l, p0))
    requires forall x, r :: Full(l, x) && x < p && StopsAt(l, x, r) ==> Harmless(l, x, r)
    ensures !EndsAfter(l, p0, ps)
    decreases |ps|
  {
    hide Chained, Keyed, StopsAt, Harmless;
    if EndsAfter(l, p0, ps) {
      var next := if ps == [] then Size(l) else ps[0];
      if p0 == p {
        GoesOnce(l, p, q, next);
      } else {
        var r := Stops(l, p0);
        var q0 := FirstFullFrom(l, p0 + 1);
        SameNext(l, p0, r, q0);
        GoesOnce(l, p0, q0, next);
        assert q0 <= p;
      }
      FullNext(l, p0, next);
      NeverEnds(l, p, q, next, ps[1..]);
    }
  }

  lemma FullNext(l: Layout, p: int, q: int)
    requires |l.at| == |l.nodes| > 0 && -1 <= p < Size(l) && Goes(l, p, q)
    ensures 0 <= q <= Size(l) && (q < Size(l) ==> Full(l, q))
  {
    hide StopsAt;
  }

  // ---------- The same through the code ----------

  ghost function LayoutOf(t: LuaTable): Layout
    reads t
  {
    Layout(t.hash, t.arr, t.node, t.place)
  }

  /** After the key at position `p`, the first calls visit `ps`. */
  ghost predicate Visits(l: Layout, p: int, ps: seq<int>)
    requires |l.at| == |l.nodes| > 0 && -1 <= p < Size(l)
    decreases |ps|
  {
    ps == [] || (Goes(l, p, ps[0]) && 0 <= ps[0] < Size(l) && Visits(l, ps[0], ps[1..]))
  }

  function Last(p: int, ps: seq<int>): int {
    if ps == [] then p else ps[|ps| - 1]
  }

  lemma {:induction false} VisitsMore(l: Layout, p: int, ps: seq<int>, q: int)
    requires Sound(l) && -1 <= p < Size(l) && Visits(l, p, ps) && -1 <= Last(p, ps) < Size(l)
    requires Goes(l, Last(p, ps), q) && 0 <= q <= Size(l)
    ensures if q < Size(l) then Visits(l, p, ps + [q]) else EndsAfter(l, p, ps)
    decreases |ps|
  {
    hide Sound, Goes;
    if ps != [] {
      VisitsMore(l, ps[0], ps[1..], q);
      assert (ps + [q])[1..] == ps[1..] + [q];
    }
  }

  /** What has been visited so far begins whatever the calls visit in all. */
  lemma {:induction false} Begins(l: Layout, p: int, ps: seq<int>, qs: seq<int>)
    requires Sound(l) && -1 <= p < Size(l) && Visits(l, p, ps) && EndsAfter(l, p, qs)
    ensures ps <= qs
    decreases |ps|
  {
    hide Sound, Goes;
    if ps != [] {
      GoesOnce(l, p, ps[0], if qs == [] then Size(l) else qs[0]);
      Begins(l, ps[0], ps[1..], qs[1..]);
    }
  }

  lemma {:induction false} EndsVisits(l: Layout, p: int, ps: seq<int>)
    requires |l.at| == |l.nodes| > 0 && -1 <= p < Size(l) && EndsAfter(l, p, ps)
    ensures Visits(l, p, ps)
    decreases |ps|
  {
    hide Goes;
    if ps != [] {
      EndsVisits(l, ps[0], ps[1..]);
    }
  }

  /** Calls that came to the key `k`, or to the end, visiting `ps`. */
  ghost predicate Along(l: Layout, k: Key, visited: seq<(Key, Value)>, ps: seq<int>, ended: bool) {
    && Sound(l) && |visited| == |ps|
    && (forall i :: 0 <= i < |ps| ==> Full(l, ps[i]) && visited[i] == (KeyIn(l, ps[i]), ValueIn(l, ps[i])))
    && (if ended then EndsAfter(l, -1, ps) else Visits(l, -1, ps))
    && (if ps == [] then k == KNil else k == KeyIn(l, ps[|ps| - 1]))
  }

  /** The first `calls` calls of `luaH_next`, from nil, in a table that stays as it is. They never fail.
      That many visit every field in order and come to the end if and only if the table is resumable and
      there are fewer fields. */
  method RepeatNext(t: LuaTable, calls: nat) returns (visited: seq<(Key, Value)>, ended: bool, ghost ps: seq<int>)
    requires t.Valid()
    ensures Sound(LayoutOf(t)) && |visited| == |ps| <= calls && (ended <==> |ps| < calls)
    ensures forall i :: 0 <= i < |ps| ==>
              Full(LayoutOf(t), ps[i]) && visited[i] == (KeyIn(LayoutOf(t), ps[i]), ValueIn(LayoutOf(t), ps[i]))
    ensures if ended then EndsAfter(LayoutOf(t), -1, ps) else Visits(LayoutOf(t), -1, ps)
    ensures (ended && ps == FieldsFrom(LayoutOf(t), 0)) <==>
            (Resumable(LayoutOf(t)) && |FieldsFrom(LayoutOf(t), 0)| < calls)
  {
    ghost var l := LayoutOf(t);
    SoundLayout(t);
    hide LuaTable.Valid, Sound, Along, Goes;
    visited, ended, ps := [], false, [];
    var k := KNil;
    NoVisits(l);
    while |visited| < calls && !ended
      invariant |visited| <= calls && Along(l, k, visited, ps, ended) && |visited| == |ps|
      invariant ended ==> |visited| < calls
      decreases !ended, calls - |visited|
    {
      var more, x, v, q;
      LastKey(l, k, visited, ps);
      more, x, v, q := NextOf(t, k, Last(-1, ps));
      OneMoreVisit(l, k, visited, ps, q);
      if more {
        k, visited, ps := x, visited + [(x, v)], ps + [q];
      } else {
        ended := true;
      }
    }
    AllVisited(l, k, visited, ps, ended, calls);
  }

  lemma LastKey(l: Layout, k: Key, visited: seq<(Key, Value)>, ps: seq<int>)
    requires Along(l, k, visited, ps, false)
    ensures |l.at| == |l.nodes| > 0 && -1 <= Last(-1, ps) < Size(l)
    ensures if Last(-1, ps) == -1 then k == KNil else Full(l, Last(-1, ps)) && k == KeyIn(l, Last(-1, ps))
  {
    hide Chained, Keyed, Visits;
  }

  lemma OneMoreVisit(l: Layout, k: Key, visited: seq<(Key, Value)>, ps: seq<int>, q: int)
    requires Along(l, k, visited, ps, false) && Sound(l) && 0 <= q <= Size(l)
    requires -1 <= Last(-1, ps) < Size(l) && Goes(l, Last(-1, ps), q)
    ensures q < Size(l) && Full(l, q) ==>
              Along(l, KeyIn(l, q), visited + [(KeyIn(l, q), ValueIn(l, q))], ps + [q], false)
    ensures q == Size(l) ==> Along(l, k, visited, ps, true)
  {
    hide Chained, Keyed, Visits, EndsAfter, Goes;
    VisitsMore(l, -1, ps, q);
  }

  lemma NoVisits(l: Layout)
    requires Sound(l)
    ensures |l.at| == |l.nodes| > 0 && Along(l, KNil, [], [], false)
  {
  }

  lemma SoundLayout(t: LuaTable)
    requires t.Valid()
    ensures Sound(LayoutOf(t))
  {
  }

  lemma AllVisited(l: Layout, k: Key, visited: seq<(Key, Value)>, ps: seq<int>, ended: bool, calls: nat)
    requires Along(l, k, visited, ps, ended) && |ps| <= calls && (ended <==> |ps| < calls)
    ensures Sound(l)
    ensures forall i :: 0 <= i < |ps| ==> Full(l, ps[i]) && visited[i] == (KeyIn(l, ps[i]), ValueIn(l, ps[i]))
    ensures if ended then EndsAfter(l, -1, ps) else Visits(l, -1, ps)
    ensures (ended && ps == FieldsFrom(l, 0)) <==> (Resumable(l) && |FieldsFrom(l, 0)| < calls)
  {
    hide Chained, Keyed, Resumable, FieldsFrom, Visits, EndsAfter;
    OrderExactly(l);
    var all := FieldsFrom(l, 0);
    if Resumable(l) {
      if ended {
        EndsVisits(l, -1, all);
        Begins(l, -1, all, ps);
        EndsVisits(l, -1, ps);
      }
      Begins(l, -1, ps, all);
    }
  }

  /** One call, with the key at position `p`. */
  method NextOf(t: LuaTable, k: Key, ghost p: int) returns (more: bool, k': Key, v: Value, q: int)
    requires t.Valid() && Sound(LayoutOf(t)) && -1 <= p < Size(LayoutOf(t))
    requires if p == -1 then k == KNil else Full(LayoutOf(t), p) && k == KeyIn(LayoutOf(t), p)
    ensures Goes(LayoutOf(t), p, q) && 0 <= q <= Size(LayoutOf(t)) && (more <==> q < Size(LayoutOf(t)))
    ensures more ==> Full(LayoutOf(t), q) && k' == KeyIn(LayoutOf(t), q) && v == ValueIn(LayoutOf(t), q)
  {
    hide *;
    PositionKey(t, p);
    var ok;
    ghost var from;
    ok, more, k', v, q, from := t.Next(k);
    Called(t, k, p, ok, from, q);
  }

  lemma FirstFullAt(t: LuaTable, from: int, q: int)
    requires t.FirstFrom(from, q)
    ensures FirstFull(LayoutOf(t), from, q) && 0 <= q <= Size(LayoutOf(t))
    ensures q < Size(LayoutOf(t)) ==>
              Full(LayoutOf(t), q) && t.KeyAt(q) == KeyIn(LayoutOf(t), q) && t.ValueAt(q) == ValueIn(LayoutOf(t), q)
  {
    assert forall x :: 0 <= x < Size(LayoutOf(t)) ==> ValueIn(LayoutOf(t), x) == t.ValueAt(x);
  }

  /** The key of a field is live, and in the array part only where its position is. */
  lemma PositionKey(t: LuaTable, p: int)
    requires t.Valid() && Sound(LayoutOf(t)) && (p == -1 || Full(LayoutOf(t), p))
    ensures !Gone(KNil)
    ensures p >= 0 ==>
              var k := KeyIn(LayoutOf(t), p); Live(k) && !Gone(k) && k == t.KeyAt(p)
    ensures p >= |t.arr| ==> !InArray(KeyIn(LayoutOf(t), p), |t.arr|)
  {
    hide LuaTable.Valid, Chained, Keyed, Main;
    if p >= |t.arr| {
      FullKey(LayoutOf(t), p - |t.arr|);
    }
  }

  lemma StoppedAt(t: LuaTable, k: Key, p: int, ok: bool, from: int)
    requires t.Valid() && Sound(LayoutOf(t)) && -1 <= p < Size(LayoutOf(t))
    requires if p == -1 then k == KNil else k == t.KeyAt(p) && Live(k) && (p >= |t.arr| ==> !InArray(k, |t.arr|))
    requires k.KNil? ==> ok && from == 0
    requires !k.KNil? && ok ==> 0 < from <= |t.arr| + |t.node| && Meets(t.KeyAt(from - 1), k, true)
    requires !ok ==> !k.KNil? && forall q :: 0 <= q < |t.arr| + |t.node| ==> Undead(t.KeyAt(q)) != k
    requires ok && from > |t.arr| ==> t.FirstMatch(from - 1 - |t.arr|, k, true)
    requires ok && InArray(k, |t.arr|) ==> from == k.n
    ensures ok && StopsAt(LayoutOf(t), p, from - 1)
  {
    hide LuaTable.Valid, Chained, Keyed;
    assert p >= 0 ==> Undead(t.KeyAt(p)) == k;
  }

  lemma Called(t: LuaTable, k: Key, p: int, ok: bool, from: int, q: int)
    requires t.Valid() && Sound(LayoutOf(t)) && -1 <= p < Size(LayoutOf(t))
    requires if p == -1 then k == KNil else k == t.KeyAt(p) && Live(k) && (p >= |t.arr| ==> !InArray(k, |t.arr|))
    requires k.KNil? ==> ok && from == 0
    requires !k.KNil? && ok ==> 0 < from <= |t.arr| + |t.node| && Meets(t.KeyAt(from - 1), k, true)
    requires !ok ==> !k.KNil? && forall q :: 0 <= q < |t.arr| + |t.node| ==> Undead(t.KeyAt(q)) != k
    requires ok && from > |t.arr| ==> t.FirstMatch(from - 1 - |t.arr|, k, true)
    requires ok && InArray(k, |t.arr|) ==> from == k.n
    requires ok ==> t.FirstFrom(from, q)
    ensures ok && Goes(LayoutOf(t), p, q) && 0 <= q <= Size(LayoutOf(t))
    ensures Size(LayoutOf(t)) == |t.arr| + |t.node|
    ensures q < Size(LayoutOf(t)) ==>
              Full(LayoutOf(t), q) && t.KeyAt(q) == KeyIn(LayoutOf(t), q) && t.ValueAt(q) == ValueIn(LayoutOf(t), q)
  {
    hide LuaTable.Valid, LuaTable.FirstMatch, LuaTable.FirstFrom, Chained, Keyed, StopsAt, FirstFull, Meets;
    StoppedAt(t, k, p, ok, from);
    FirstFullAt(t, from, q);
  }
}
