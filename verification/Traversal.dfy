/** Traversing a table with repeated `luaH_next` (ltable.cpp:109-150) while the program changes existing
    fields and the collector marks keys dead, in tables where addresses have been used again. */
module Traversal {
  import opened HashPart
  import opened TableSizes
  import opened TableContents
  import opened StaleKeys
  import opened LuaTables
  import opened NextCalls
  import opened Resuming

  // ---------- Tables with a history of collections ----------

  /** An assignment; a collection, which marks the keys of empty entries dead (`Sweep`) or, if the table
      is weak in keys and values, leaves them as they are (`Leave`); or the clearing of one entry of a
      weak table. */
  datatype Act = Write(k: Key, v: Value) | Sweep | Leave | Clear(k: Key)

  /** A plain map after the same acts. */
  function Next(m: map<Key, Value>, a: Act): map<Key, Value> {
    match a
    case Write(k, v) => if k.KNil? || k.KNaN? then m else Put(m, k, v)
    case Clear(k) => Put(m, k, Nil)
    case _ => m
  }

  function After(acts: seq<Act>): map<Key, Value>
    decreases |acts|
  {
    if acts == [] then map[] else Next(After(acts[..|acts| - 1]), acts[|acts| - 1])
  }

  /** The keys whose objects the table may still have as keys: a collection lets those go that have no
      value, whether it marks them or not. */
  function MayHave(acts: seq<Act>): set<Key>
    decreases |acts|
  {
    if acts == [] then {}
    else
      var s := MayHave(acts[..|acts| - 1]);
      match acts[|acts| - 1]
      case Write(k, _) => s + {k}
      case Clear(k) => if k in After(acts[..|acts| - 1]) then s - {k} else s
      case _ => set k | k in s && k in After(acts)
  }

  /** What holds of every program: its keys are there, no object gets an address that another one has
      which is still there, and no table gets more fields than the largest can hold. */
  ghost predicate CanHappen(acts: seq<Act>, i: nat)
    requires i < |acts|
  {
    match acts[i]
    case Write(k, _) => !Gone(k) && Apart(MayHave(acts[..i]) + {k}) && HasRoom(After(acts[..i]), k)
    case Clear(k) => !Gone(k) && Apart(MayHave(acts[..i]) + {k})
    case _ => true
  }

  ghost predicate AllCanHappen(acts: seq<Act>) {
    forall i: nat :: i < |acts| ==> CanHappen(acts, i)
  }

  /** The table after `i` acts. */
  ghost predicate Lives(t: LuaTable, acts: seq<Act>, i: nat)
    requires i <= |acts|
    reads t
  {
    && t.Valid() && t.contents == After(acts[..i]) && ObjKeys(t.node) <= MayHave(acts[..i])
    && (Swept(acts[..i]) ==> NoStale(t.node)) && (NeverLeft(acts[..i]) ==> Swept(acts[..i]) && t.Traversable())
  }

  ghost predicate NeverLeft(acts: seq<Act>) {
    forall i :: 0 <= i < |acts| ==> !acts[i].Leave?
  }

  /** No collection has left keys since the last one that marked them. */
  predicate Swept(acts: seq<Act>)
    decreases |acts|
  {
    if acts == [] || acts[|acts| - 1].Sweep? then true
    else !acts[|acts| - 1].Leave? && Swept(acts[..|acts| - 1])
  }

  /** No string is ever written that is a key. */
  ghost predicate NoStrings(acts: seq<Act>) {
    forall i :: 0 <= i < |acts| && acts[i].Write? && acts[i].k.KObj? ==> acts[i].k.tag != LUA_TSTRING
  }

  /** After any acts a table holds what a plain map would hold, unless a string was put into a node that
      does not fit, taken over from a key that a collection left (the first time, as act `n`). That
      takes a collection of a table weak in keys and values, and no other one since; without one the table
      can be traversed. */
  method History(hash: Hash, narray: nat, nhash: nat, acts: seq<Act>) returns (t: LuaTable, n: nat)
    requires narray <= MAXASIZE && nhash <= MAXASIZE && AllCanHappen(acts)
    ensures n <= |acts| && fresh(t)
    ensures n == |acts| ==> t.Valid() && t.contents == After(acts)
    ensures n < |acts| ==> acts[n].Write? && t.contents == After(acts[..n + 1])
    ensures n < |acts| ==> t.Unsound(t.arr, t.node, t.contents) && !Swept(acts[..n])
    ensures NeverLeft(acts) ==> n == |acts| && t.Traversable() && StaysResumable(LayoutOf(t))
    ensures ByAddress(hash) && NoStrings(acts) ==> n == |acts|
  {
    t := new LuaTable(hash, narray, nhash);
    StartsEmpty(t, acts);
    hide Lives, NeverLeft, Swept, NoStrings, ByAddress, AllCanHappen, StaysResumable;
    n := 0;
    while n < |acts|
      invariant n <= |acts| && fresh(t) && t.hash == hash && Lives(t, acts, n)
    {
      var e := Perform(t, acts, n);
      if e == Misplaced {
        LeftBefore(acts, n);
        return;
      }
      n := n + 1;
    }
    assert acts[..|acts|] == acts;
    LivesFacts(t, acts);
  }

  lemma StartsEmpty(t: LuaTable, acts: seq<Act>)
    requires t.Valid() && AllEmpty(t.node) && t.contents == map[]
    ensures Lives(t, acts, 0)
  {
    hide AllHome, LinksAhead, NoGaps, PlacesDiffer, Keyed, Represents;
    assert acts[..0] == [];
  }

  lemma LivesFacts(t: LuaTable, acts: seq<Act>)
    requires Lives(t, acts, |acts|) && acts[..|acts|] == acts
    ensures t.Valid() && t.contents == After(acts)
    ensures NeverLeft(acts) ==> t.Traversable() && StaysResumable(LayoutOf(t))
  {
    SoundLayout(t);
    hide Sound, Chained, Keyed, Represents, StaysResumable, NeverLeft, Swept;
    if NeverLeft(acts) {
      LiveFirstStays(LayoutOf(t));
    }
  }

  lemma {:induction false} LeftBefore(acts: seq<Act>, n: nat)
    requires n <= |acts|
    ensures NeverLeft(acts) ==> Swept(acts[..n])
  {
    if n > 0 {
      LeftBefore(acts, n - 1);
      assert acts[..n][..n - 1] == acts[..n - 1];
    }
  }

  method Perform(t: LuaTable, acts: seq<Act>, i: nat) returns (e: Outcome)
    requires i < |acts| && CanHappen(acts, i) && Lives(t, acts, i)
    modifies t
    ensures t.contents == After(acts[..i + 1])
    ensures e != Misplaced ==> Lives(t, acts, i + 1)
    ensures e == Misplaced ==> acts[i].Write? && t.Unsound(t.arr, t.node, t.contents) && !Swept(acts[..i])
    ensures e == Misplaced && ByAddress(t.hash) ==> acts[i].k.KObj? && acts[i].k.tag == LUA_TSTRING
  {
    hide Lives, CanHappen, After, NeverLeft, Swept, ByAddress, LuaTable.Unsound;
    NextIs(acts, i);
    e := Done;
    match acts[i]
    case Write(k, v) => e := PerformWrite(t, acts, i);
    case Clear(k) => PerformClear(t, acts, i);
    case _ => PerformCollection(t, acts, i);
  }

  method PerformWrite(t: LuaTable, acts: seq<Act>, i: nat) returns (e: Outcome)
    requires i < |acts| && acts[i].Write? && CanHappen(acts, i) && Lives(t, acts, i)
    modifies t
    ensures t.contents == Next(After(acts[..i]), acts[i])
    ensures e != Misplaced ==> Lives(t, acts, i + 1)
    ensures e == Misplaced ==> t.Unsound(t.arr, t.node, t.contents) && !Swept(acts[..i])
    ensures e == Misplaced && ByAddress(t.hash) ==> acts[i].k.KObj? && acts[i].k.tag == LUA_TSTRING
  {
    var k, v := acts[i].k, acts[i].v;
    NextIs(acts, i);
    OwnOf(t.node, MayHave(acts[..i]) + {k}, k);
    if NoStale(t.node) {
      t.NoneTaken(k);
    }
    if ByAddress(t.hash) && t.Misplaces(k) {
      OnlyStrings(t, k);
    }
    hide LuaTable.Valid, Apart, ObjKeys, MayHave, After, Put, NeverLeft, Swept, OwnAddress, NoStale,
         LuaTable.Traversable, LuaTable.Misplaces, LuaTable.TakesBehind, LuaTable.Unsound, ByAddress;
    e := t.Assign(k, v);
  }

  method PerformClear(t: LuaTable, acts: seq<Act>, i: nat)
    requires i < |acts| && acts[i].Clear? && CanHappen(acts, i) && Lives(t, acts, i)
    modifies t
    ensures Lives(t, acts, i + 1) && t.contents == Next(After(acts[..i]), acts[i])
  {
    var k := acts[i].k;
    NextIs(acts, i);
    OwnOf(t.node, MayHave(acts[..i]) + {k}, k);
    Objects(t.node);
    hide LuaTable.Valid, Apart, ObjKeys, MayHave, After, Put, NeverLeft, Swept, OwnAddress, NoStale,
         LuaTable.Traversable;
    t.Clear(k);
    Objects(t.node);
  }

  lemma Objects(nodes: seq<Node>)
    ensures forall k :: k in ObjKeys(nodes) ==> k.KObj?
  {
  }

  method PerformCollection(t: LuaTable, acts: seq<Act>, i: nat)
    requires i < |acts| && (acts[i].Sweep? || acts[i].Leave?) && Lives(t, acts, i)
    modifies t
    ensures Lives(t, acts, i + 1) && t.contents == Next(After(acts[..i]), acts[i])
  {
    NextIs(acts, i);
    hide LuaTable.Valid, Apart, ObjKeys, MayHave, After, Put, NeverLeft, Swept, OwnAddress, NoStale,
         LuaTable.Traversable;
    if acts[i].Sweep? {
      t.KillEmpty();
    } else {
      t.LeaveEmpty();
    }
    KeysHaveValues(t);
  }

  lemma NextIs(acts: seq<Act>, i: nat)
    requires i < |acts|
    ensures After(acts[..i + 1]) == Next(After(acts[..i]), acts[i])
    ensures var s, s' := MayHave(acts[..i]), MayHave(acts[..i + 1]);
            match acts[i]
            case Write(k, _) => s' == s + {k}
            case Clear(k) => s' == if k in After(acts[..i]) then s - {k} else s
            case _ => s' == set k | k in s && k in After(acts[..i + 1])
    ensures NeverLeft(acts[..i + 1]) <==> NeverLeft(acts[..i]) && !acts[i].Leave?
    ensures Swept(acts[..i + 1]) <==> acts[i].Sweep? || (Swept(acts[..i]) && !acts[i].Leave?)
  {
    assert acts[..i + 1][..i] == acts[..i];
    assert acts[..i + 1] == acts[..i] + [acts[i]];
  }

  lemma OnlyStrings(t: LuaTable, k: Key)
    requires t.Valid() && ByAddress(t.hash) && t.Misplaces(k)
    ensures k.KObj? && k.tag == LUA_TSTRING
  {
    hide Chained, Misfits;
    var n :| StaleHit(t.hash, t.node, t.place, n, k) && Misfits(t.hash, t.node, n, k);
    if k.tag != LUA_TSTRING {
      OnlyStringsMisfit(t.hash, t.node, t.place, n, k);
    }
  }

  lemma KeysHaveValues(t: LuaTable)
    requires t.Valid() && forall i :: 0 <= i < |t.node| && t.node[i].val == Nil ==> !t.node[i].key.KObj?
    ensures ObjKeys(t.node) <= t.contents.Keys
  {
    forall k | k in ObjKeys(t.node)
      ensures k in t.contents
    {
      var i :| 0 <= i < |t.node| && t.node[i].key.KObj? && t.node[i].key == k;
      t.NodePresent(i);
    }
  }

  // ---------- Edits during a traversal ----------

  /** What may happen between two calls: storing in an existing field (nil clears it), a collection,
      which marks the keys of empty entries (`Collect`) or leaves them (`Pass`), or the clearing of an
      entry of a weak table. */
  datatype Edit = Update(k: Key, v: Value) | Collect | Pass | Drop(k: Key)

  function Edited(m: map<Key, Value>, e: Edit): map<Key, Value> {
    match e
    case Update(k, v) => if k in m then Put(m, k, v) else m
    case Drop(k) => Put(m, k, Nil)
    case _ => m
  }

  function EditedAll(m: map<Key, Value>, es: seq<Edit>): map<Key, Value>
    decreases |es|
  {
    if es == [] then m else Edited(EditedAll(m, es[..|es| - 1]), es[|es| - 1])
  }

  function EditsBefore(edits: seq<seq<Edit>>, call: nat): seq<Edit> {
    if call < |edits| then edits[call] else []
  }

  /** The fields of the table when call `n` is made, the edits before it included. */
  function FieldsAt(m: map<Key, Value>, edits: seq<seq<Edit>>, n: nat): map<Key, Value> {
    EditedAll(if n == 0 then m else FieldsAt(m, edits, n - 1), EditsBefore(edits, n))
  }

  /** The keys by position, gone ones as they were. */
  ghost function KeysOf(l: Layout): seq<Key> {
    seq(Size(l), p requires 0 <= p < Size(l) => Undead(KeyIn(l, p)))
  }

  /** The keys of the fields have addresses of their own. */
  ghost predicate OwnFields(nodes: seq<Node>, keys: seq<Key>, filled: set<int>) {
    forall p :: p in filled ==> 0 <= p < |keys| && OwnAddress(nodes, keys[p])
  }

  /** The fields are where they were, none is added, and a call that resumes at one of them, now or after
      a collection, skips none. */
  ghost predicate HaveFields(l: Layout, narr: nat, keys: seq<Key>, filled: set<int>) {
    && Sound(l) && |l.arr| == narr && KeysOf(l) == keys && Filled(l) <= filled
    && Steady(l, filled) && Steady(Collected(l), filled) && OwnFields(l.nodes, keys, filled)
  }

  ghost predicate SameFields(t: LuaTable, narr: nat, keys: seq<Key>, filled: set<int>)
    reads t
  {
    t.Valid() && HaveFields(LayoutOf(t), narr, keys, filled)
  }

  lemma FilledIsPresent(t: LuaTable, p: int)
    requires t.Valid() && 0 <= p < |t.arr| + |t.node|
    ensures t.ValueAt(p) != Nil ==> Live(t.KeyAt(p))
    ensures t.ValueAt(p) != Nil <==> t.KeyAt(p) in t.contents
  {
    hide Chained, LiveFirst, Keyed, Represents;
    if p < |t.arr| {
      t.ArrayMeaning(p + 1);
    } else {
      t.NodeMeaning(p - |t.arr|);
    }
  }

  /** The positions whose keys, as they are now, are in the map. */
  ghost function PresentIn(l: Layout, m: map<Key, Value>): set<int> {
    set p | 0 <= p < Size(l) && KeyIn(l, p) in m
  }

  lemma FilledArePresent(t: LuaTable)
    requires t.Valid()
    ensures Filled(LayoutOf(t)) == PresentIn(LayoutOf(t), t.contents)
  {
    hide LuaTable.Valid;
    forall p | 0 <= p < |t.arr| + |t.node|
      ensures p in Filled(LayoutOf(t)) <==> p in PresentIn(LayoutOf(t), t.contents)
    {
      FilledIsPresent(t, p);
    }
  }

  /** The program assigns to the fields that there were at the start only. */
  ghost predicate OnField(e: Edit, keys: seq<Key>, filled: set<int>) {
    e.Update? || e.Drop? ==> exists p :: p in filled && 0 <= p < |keys| && keys[p] == e.k && Live(e.k)
  }

  lemma FieldOwn(t: LuaTable, narr: nat, keys: seq<Key>, filled: set<int>, e: Edit)
    requires SameFields(t, narr, keys, filled) && OnField(e, keys, filled) && (e.Update? || e.Drop?)
    ensures OwnAddress(t.node, e.k) && !Gone(e.k)
  {
    hide LuaTable.Valid, Sound, Steady, OwnAddress;
  }

  lemma StillOwn(nodes: seq<Node>, nodes': seq<Node>, keys: seq<Key>, filled: set<int>)
    requires OwnFields(nodes, keys, filled) && ObjKeys(nodes') <= ObjKeys(nodes)
    ensures OwnFields(nodes', keys, filled)
  {
    forall p, i | p in filled && 0 <= i < |nodes'| && nodes'[i].key.KObj? && keys[p].KObj? &&
                  nodes'[i].key.o == keys[p].o
      ensures nodes'[i].key == keys[p]
    {
      assert nodes'[i].key in ObjKeys(nodes);
      assert OwnAddress(nodes, keys[p]);
    }
  }

  lemma FieldsOwned(l: Layout, narr: nat, keys: seq<Key>, filled: set<int>)
    requires HaveFields(l, narr, keys, filled)
    ensures forall p :: p in filled && |l.arr| <= p < Size(l) ==> OwnAddress(l.nodes, Undead(KeyIn(l, p)))
  {
    hide Sound, Steady, OwnAddress;
    assert forall p :: 0 <= p < Size(l) ==> keys[p] == Undead(KeyIn(l, p));
  }

  lemma SameKeysOf(l: Layout, l': Layout)
    requires |l'.arr| == |l.arr| && |l'.nodes| == |l.nodes|
    requires forall i :: 0 <= i < |l.nodes| ==> Undead(l'.nodes[i].key) == Undead(l.nodes[i].key)
    ensures KeysOf(l') == KeysOf(l)
  {
  }

  lemma ValueStays(l: Layout, l': Layout, i: nat)
    requires SameShape(l, l') && Filled(l') <= Filled(l) && i < |l.nodes|
    ensures l.nodes[i].val == Nil ==> l'.nodes[i].val == Nil
  {
    assert Full(l', |l.arr| + i) ==> |l.arr| + i in Filled(l');
  }

  /** The fields are still the same when objects of keys have gone, and values with them. */
  lemma StillFields(l: Layout, l': Layout, narr: nat, keys: seq<Key>, filled: set<int>)
    requires HaveFields(l, narr, keys, filled) && SameShape(l, l') && Sound(l')
    requires forall i :: 0 <= i < |l.nodes| ==> MayGo(l.nodes[i], l'.nodes[i])
    requires ObjKeys(l'.nodes) <= ObjKeys(l.nodes) && Filled(l') <= Filled(l)
    ensures HaveFields(l', narr, keys, filled)
  {
    FieldsOwned(l, narr, keys, filled);
    NoGoneValues(l);
    hide Sound, Steady, OwnFields, OwnAddress, ObjKeys, MayGo, Filled;
    forall i | 0 <= i < |l.nodes|
      ensures Undead(l'.nodes[i].key) == Undead(l.nodes[i].key)
    {
      StillAKey(l.nodes[i], l'.nodes[i]);
    }
    SameKeysOf(l, l');
    SteadyKept(l, l', filled);
    CollectedKept(l, l', filled);
    StillOwn(l.nodes, l'.nodes, keys, filled);
  }

  lemma NoGoneValues(l: Layout)
    requires Sound(l)
    ensures |l.at| == |l.nodes| > 0
    ensures forall i :: 0 <= i < |l.nodes| && Gone(l.nodes[i].key) ==> l.nodes[i].val == Nil
  {
    hide Chained;
    assert forall i :: 0 <= i < |l.nodes| && Gone(l.nodes[i].key) ==> Used(l.nodes, i);
  }

  /** No field comes when no key does. */
  lemma FewerPresent(t: LuaTable, l: Layout, m: map<Key, Value>)
    requires t.Valid() && SameShape(l, LayoutOf(t)) && forall k :: k in t.contents ==> k in m
    requires forall i :: 0 <= i < |l.nodes| ==> t.node[i].key == l.nodes[i].key || Gone(t.node[i].key)
    ensures PresentIn(LayoutOf(t), t.contents) <= PresentIn(l, m)
  {
    hide Chained, LiveFirst, Keyed, Apart, ObjKeys;
    forall p | p in PresentIn(LayoutOf(t), t.contents)
      ensures p in PresentIn(l, m)
    {
      assert p >= |l.arr| ==> t.node[p - |l.arr|].key == l.nodes[p - |l.arr|].key;
      assert KeyIn(l, p) == KeyIn(LayoutOf(t), p);
      assert KeyIn(l, p) in m;
    }
  }

  lemma Had(t: LuaTable, narr: nat, keys: seq<Key>, filled: set<int>)
    requires SameFields(t, narr, keys, filled)
    ensures t.Valid() && HaveFields(LayoutOf(t), narr, keys, filled)
    ensures Filled(LayoutOf(t)) == PresentIn(LayoutOf(t), t.contents)
  {
    FilledArePresent(t);
  }

  /** What a change of some fields does to the others: nothing. */
  lemma Changed(t: LuaTable, l: Layout, m: map<Key, Value>, narr: nat, keys: seq<Key>, filled: set<int>)
    requires t.Valid() && HaveFields(l, narr, keys, filled) && Filled(l) == PresentIn(l, m)
    requires SameShape(l, LayoutOf(t)) && ObjKeys(t.node) <= ObjKeys(l.nodes) && forall k :: k in t.contents ==> k in m
    requires forall i :: 0 <= i < |l.nodes| ==>
               t.node[i].key == l.nodes[i].key ||
               (l.nodes[i].key.KObj? && Gone(t.node[i].key) && Undead(t.node[i].key) == l.nodes[i].key)
    ensures SameFields(t, narr, keys, filled) && Filled(LayoutOf(t)) <= Filled(l)
  {
    SoundLayout(t);
    hide LuaTable.Valid, Sound, HaveFields, Filled, PresentIn, ObjKeys, Undead;
    FilledArePresent(t);
    FewerPresent(t, l, m);
    forall i | 0 <= i < |l.nodes|
      ensures MayGo(l.nodes[i], t.node[i])
    {
      ValueStays(l, LayoutOf(t), i);
    }
    StillFields(l, LayoutOf(t), narr, keys, filled);
  }

  method UpdateField(t: LuaTable, k: Key, v: Value, ghost narr: nat, ghost keys: seq<Key>, ghost filled: set<int>)
    requires SameFields(t, narr, keys, filled) && OnField(Update(k, v), keys, filled)
    modifies t
    ensures SameFields(t, narr, keys, filled) && t.contents == Edited(old(t.contents), Update(k, v))
    ensures Filled(LayoutOf(t)) <= old(Filled(LayoutOf(t)))
  {
    hide LuaTable.Valid, HaveFields, SameFields, OnField, ObjKeys, OwnAddress, Filled, PresentIn, LuaTable.Traversable,
         LuaTable.Misplaces, LuaTable.TakesBehind, LuaTable.Unsound, NoStale;
    FieldOwn(t, narr, keys, filled, Update(k, v));
    Had(t, narr, keys, filled);
    var now := t.Index(k);
    t.NilIsAbsent(k);
    if now != Nil {
      ghost var l, m := LayoutOf(t), t.contents;
      var done := t.Assign(k, v);
      LuaTable.SameObjs(l.nodes, t.node);
      Shape(t, l);
      Changed(t, l, m, narr, keys, filled);
    }
  }

  lemma Shape(t: LuaTable, l: Layout)
    requires t.Valid() && l.hash == t.hash && |l.arr| == |t.arr| && |l.nodes| == |t.node| && l.at == t.place
    ensures SameShape(l, LayoutOf(t))
  {
  }

  method DropField(t: LuaTable, k: Key, ghost narr: nat, ghost keys: seq<Key>, ghost filled: set<int>)
    requires SameFields(t, narr, keys, filled) && OnField(Drop(k), keys, filled)
    modifies t
    ensures SameFields(t, narr, keys, filled) && t.contents == Edited(old(t.contents), Drop(k))
    ensures Filled(LayoutOf(t)) <= old(Filled(LayoutOf(t)))
  {
    hide LuaTable.Valid, HaveFields, SameFields, OnField, ObjKeys, OwnAddress, Filled, PresentIn, LuaTable.Traversable,
         NoStale;
    FieldOwn(t, narr, keys, filled, Drop(k));
    Had(t, narr, keys, filled);
    ghost var l, m := LayoutOf(t), t.contents;
    t.Clear(k);
    Shape(t, l);
    Changed(t, l, m, narr, keys, filled);
  }

  method CollectKeys(t: LuaTable, marks: bool, ghost narr: nat, ghost keys: seq<Key>, ghost filled: set<int>)
    requires SameFields(t, narr, keys, filled)
    modifies t
    ensures SameFields(t, narr, keys, filled) && t.contents == old(t.contents)
    ensures Filled(LayoutOf(t)) <= old(Filled(LayoutOf(t)))
  {
    hide LuaTable.Valid, HaveFields, SameFields, ObjKeys, LuaTable.Traversable, NoStale, Filled, PrunedAll,
         AbandonedAll, LuaTable.OnlyGone;
    Had(t, narr, keys, filled);
    ghost var l := LayoutOf(t);
    if marks {
      t.KillEmpty();
      Marked(t, l, narr, keys, filled);
    } else {
      t.LeaveEmpty();
      Unmarked(t, l, narr, keys, filled);
    }
  }

  /** A collection that marks the keys of empty entries... */
  lemma Marked(t: LuaTable, l: Layout, narr: nat, keys: seq<Key>, filled: set<int>)
    requires t.Valid() && HaveFields(l, narr, keys, filled) && LayoutOf(t) == Collected(l)
    requires LuaTable.OnlyGone(l.nodes, t.node)
    ensures SameFields(t, narr, keys, filled) && Filled(LayoutOf(t)) <= Filled(l)
  {
    SoundLayout(t);
    hide LuaTable.Valid, Sound, Steady, OwnFields, ObjKeys;
    CollectedTwice(l);
    SameKeysOf(l, LayoutOf(t));
    StillOwn(l.nodes, t.node, keys, filled);
  }

  /** ... and one that leaves them. */
  lemma Unmarked(t: LuaTable, l: Layout, narr: nat, keys: seq<Key>, filled: set<int>)
    requires t.Valid() && HaveFields(l, narr, keys, filled) && LayoutOf(t) == l.(nodes := AbandonedAll(l.nodes))
    requires LuaTable.OnlyGone(l.nodes, t.node)
    ensures SameFields(t, narr, keys, filled) && Filled(LayoutOf(t)) <= Filled(l)
  {
    SoundLayout(t);
    NoGoneValues(l);
    hide LuaTable.Valid, Sound, HaveFields, ObjKeys;
    StillFields(l, LayoutOf(t), narr, keys, filled);
  }

  method ApplyAll(t: LuaTable, es: seq<Edit>, ghost narr: nat, ghost keys: seq<Key>, ghost filled: set<int>)
    requires SameFields(t, narr, keys, filled)
    requires forall j :: 0 <= j < |es| ==> OnField(es[j], keys, filled)
    modifies t
    ensures SameFields(t, narr, keys, filled) && t.contents == EditedAll(old(t.contents), es)
    ensures Filled(LayoutOf(t)) <= old(Filled(LayoutOf(t)))
  {
    hide LuaTable.Valid, SameFields, Edited, OnField, Filled;
    for j := 0 to |es|
      invariant Filled(LayoutOf(t)) <= old(Filled(LayoutOf(t)))
      invariant SameFields(t, narr, keys, filled) && t.contents == EditedAll(old(t.contents), es[..j])
    {
      assert es[..j + 1][..j] == es[..j];
      match es[j] {
        case Update(k, v) => UpdateField(t, k, v, narr, keys, filled);
        case Drop(k) => DropField(t, k, narr, keys, filled);
        case _ =>
          CollectKeys(t, es[j].Collect?, narr, keys, filled);
          NothingEdited(t.contents, es[j]);
      }
    }
    assert es[..|es|] == es;
  }

  lemma NothingEdited(m: map<Key, Value>, e: Edit)
    requires e.Collect? || e.Pass?
    ensures Edited(m, e) == m
  {
  }

  // ---------- The traversal ----------

  /** The positions visited so far, in order. */
  ghost predicate Ascending(ps: seq<int>, last: int) {
    && (forall i, j :: 0 <= i < j < |ps| ==> ps[i] < ps[j])
    && (forall i :: 0 <= i < |ps| ==> 0 <= ps[i] <= last)
  }

  ghost predicate Visited(keys: seq<Key>, visited: seq<(Key, Value)>, ps: seq<int>, filled: set<int>) {
    |visited| == |ps| && forall i :: 0 <= i < |ps| ==>
        ps[i] in filled && 0 <= ps[i] < |keys| && visited[i].0 == keys[ps[i]]
  }

  /** Each value is the one the field had when it was visited. */
  ghost predicate ValuesThen(visited: seq<(Key, Value)>, m: map<Key, Value>, edits: seq<seq<Edit>>) {
    forall i: nat :: i < |visited| ==>
      visited[i].0 in FieldsAt(m, edits, i) && visited[i].1 == FieldsAt(m, edits, i)[visited[i].0]
  }

  /** What has been passed without a visit is empty by now. */
  ghost predicate NothingSkipped(t: LuaTable, ps: seq<int>, last: int)
    reads t
  {
    forall q :: 0 <= q <= last && q !in ps && q < Size(LayoutOf(t)) ==> q !in Filled(LayoutOf(t))
  }

  /** The filled positions hold different keys, those of `m`. */
  ghost predicate FieldsOf(keys: seq<Key>, filled: set<int>, m: map<Key, Value>) {
    && (forall p :: p in filled ==> 0 <= p < |keys| && keys[p] in m && Live(keys[p]))
    && (forall p, q :: p in filled && q in filled && keys[p] == keys[q] ==> p == q)
    && (forall k :: k in m ==> exists p :: p in filled && keys[p] == k)
  }

  lemma FieldsAre(t: LuaTable)
    requires t.Valid()
    ensures FieldsOf(KeysOf(LayoutOf(t)), Filled(LayoutOf(t)), t.contents)
  {
    var l := LayoutOf(t);
    forall p | p in Filled(l)
      ensures KeysOf(l)[p] in t.contents && Live(KeysOf(l)[p]) && KeysOf(l)[p] == KeyIn(l, p)
    {
      hide LuaTable.Valid;
      FilledIsPresent(t, p);
    }
    forall p, q | p in Filled(l) && q in Filled(l) && KeysOf(l)[p] == KeysOf(l)[q]
      ensures p == q
    {
      hide Chained, LiveFirst, Apart, ObjKeys, Represents;
      assert p >= |t.arr| ==> Used(t.node, p - |t.arr|);
      assert q >= |t.arr| ==> Used(t.node, q - |t.arr|);
    }
    forall k | k in t.contents
      ensures exists p :: p in Filled(l) && KeysOf(l)[p] == k
    {
      hide LuaTable.Valid;
      var p := PositionOf(t, k);
    }
  }

  lemma PositionOf(t: LuaTable, k: Key) returns (p: int)
    requires t.Valid() && k in t.contents
    ensures p in Filled(LayoutOf(t)) && KeysOf(LayoutOf(t))[p] == k
  {
    hide Chained, LiveFirst, Keyed, Apart, ObjKeys;
    assert Holds(t.arr, t.node, k, t.contents[k]) && t.contents[k] != Nil;
    if InArray(k, |t.arr|) {
      p := k.n - 1;
    } else {
      var i :| Used(t.node, i) && t.node[i].key == k && t.node[i].val == t.contents[k];
      p := i + |t.arr|;
    }
    assert ValueIn(LayoutOf(t), p) == t.contents[k];
  }

  /** Where `luaH_next` resumes: at the position of the key it was given, or further on with no field in
      between. */
  lemma Resumes(t: LuaTable, keys: seq<Key>, filled: set<int>, k: Key, last: int, ok: bool, from: int, p: int)
    requires SameFields(t, |t.arr|, keys, filled) && -1 <= last < |keys|
    requires if k.KNil? then last == -1 else last >= 0 && last in filled && keys[last] == k && Live(k)
    requires k.KNil? ==> ok && from == 0
    requires !k.KNil? && ok ==> 0 < from <= |t.arr| + |t.node| && Meets(t.KeyAt(from - 1), k, true)
    requires !ok ==> !k.KNil? && forall q :: 0 <= q < |t.arr| + |t.node| ==> Undead(t.KeyAt(q)) != k
    requires ok && from > |t.arr| ==> t.FirstMatch(from - 1 - |t.arr|, k, true)
    requires ok && InArray(k, |t.arr|) ==> from == k.n
    requires ok ==> t.FirstFrom(from, p)
    ensures ok && t.FirstFrom(last + 1, p)
  {
    hide LuaTable.Valid, Sound, LuaTable.FirstMatch, OwnFields;
    if !k.KNil? {
      assert Undead(t.KeyAt(last)) == k;
      assert ok;
      if last >= |t.arr| {
        NotInArray(t, last - |t.arr|, k);
        MetFirst(t, from - 1 - |t.arr|, k);
        assert NoneSkipped(filled, last, from - 1);
        NoneFilled(t, filled, last, from);
      }
    }
  }

  lemma MetFirst(t: LuaTable, n: int, k: Key)
    requires t.Valid() && t.FirstMatch(n, k, true) && Meets(t.node[n].key, k, true)
    ensures FirstMet(LayoutOf(t), n, k)
  {
    hide LuaTable.Valid;
  }

  lemma NoneFilled(t: LuaTable, filled: set<int>, last: int, from: int)
    requires Filled(LayoutOf(t)) <= filled && NoneSkipped(filled, last, from - 1)
    requires 0 <= last < from <= |t.arr| + |t.node|
    ensures forall q :: last < q < from ==> t.ValueAt(q) == Nil
  {
    forall q | last < q < from
      ensures t.ValueAt(q) == Nil
    {
      assert Full(LayoutOf(t), q) ==> q in Filled(LayoutOf(t));
    }
  }

  lemma NotInArray(t: LuaTable, i: nat, k: Key)
    requires t.Valid() && i < |t.node| && Undead(t.node[i].key) == k && Live(k)
    ensures Used(t.node, i) && !InArray(k, |t.arr|)
    ensures forall p :: 0 <= p < |t.arr| ==> !Meets(t.KeyAt(p), k, true)
  {
    hide Chained, LiveFirst, Represents, Apart, ObjKeys;
    assert Used(t.node, i);
  }

  /** Repeated `luaH_next` from nil, with the edits `edits[i]` made before call `i`: it never
      fails, stops, visits no field twice, only fields that were there at the start, and every
      field that is still there at the end, each with the value it had at the visit, in the order of their
      positions. In a table that does not stay resumable the fields do not all come in that order, already
      without edits or with one collection before the first call (`StaysExactly`). */
  method Traverse(t: LuaTable, edits: seq<seq<Edit>>) returns (visited: seq<(Key, Value)>, ghost ps: seq<int>)
    requires t.Valid() && StaysResumable(LayoutOf(t))
    requires forall i, j :: 0 <= i < |edits| && 0 <= j < |edits[i]| ==> EditsField(edits[i][j], t.contents)
    modifies t
    ensures t.Valid() && t.contents == FieldsAt(old(t.contents), edits, |visited|)
    ensures forall i, j :: 0 <= i < j < |visited| ==> visited[i].0 != visited[j].0
    ensures forall i :: 0 <= i < |visited| ==> visited[i].0 in old(t.contents)
    ensures forall k :: k in t.contents ==> exists i :: 0 <= i < |visited| && visited[i].0 == k
    ensures ValuesThen(visited, old(t.contents), edits)
    ensures |ps| == |visited| && forall i, j :: 0 <= i < j < |ps| ==> ps[i] < ps[j]
    ensures forall i :: 0 <= i < |ps| ==>
              Full(old(LayoutOf(t)), ps[i]) && visited[i].0 == KeyIn(old(LayoutOf(t)), ps[i])
  {
    hide LuaTable.Valid, FieldsAt, SameFields, FieldsOf, KeysOf, Filled, Going, ValuesThen, EditedAll, OnField,
         Sound, StaysResumable, EditsField;
    ghost var l := LayoutOf(t);
    ghost var m, narr, keys, filled := t.contents, |t.arr|, KeysOf(l), Filled(l);
    FieldsAre(t);
    Sets(t);
    SoundLayout(t);
    FieldEdits(edits, m, keys, filled);
    var k, call := KNil, 0;
    ghost var last := -1;
    visited, ps := [], [];
    NoValues(m, edits);
    var more := true;
    while more
      invariant Going(t, narr, keys, filled, k, visited, last, ps, more) && ValuesThen(visited, m, edits) &&
                last <= |keys|
      invariant if more then call == |visited| && t.contents == FieldsStart(m, edits, call)
                else t.contents == FieldsAt(m, edits, |visited|)
      decreases more, |keys| - last
    {
      FieldsStep(m, edits, call);
      var es := EditsBefore(edits, call);
      ghost var before := visited;
      more, k, visited, last, ps := VisitNext(t, es, k, visited, narr, keys, filled, last, ps);
      if more {
        OneMoreValue(before, m, edits, k);
      }
      call := call + 1;
    }
    VisitedEach(t, narr, keys, filled, k, visited, last, ps, m);
    VisitedInOrder(t, l, k, visited, last, ps);
    VisitedAll(t, narr, keys, filled, k, visited, last, ps);
  }

  /** The state of a traversal between two calls: `last` is the position of the key `k`, `ps` are the
      positions visited; `more` is false after the last call. */
  ghost predicate Going(t: LuaTable, narr: nat, keys: seq<Key>, filled: set<int>, k: Key, visited: seq<(Key, Value)>,
                        last: int, ps: seq<int>, more: bool)
    reads t
  {
    && SameFields(t, narr, keys, filled) && -1 <= last < |keys|
    && (if k.KNil? then last == -1 else Live(k) && last >= 0 && keys[last] == k && last in filled)
    && Ascending(ps, last) && Visited(keys, visited, ps, filled)
    && NothingSkipped(t, ps, if more then last else |keys|)
  }

  /** An edit of a field that was there at the start. */
  predicate EditsField(e: Edit, m: map<Key, Value>) {
    e.Update? || e.Drop? ==> e.k in m
  }

  lemma FieldEdits(edits: seq<seq<Edit>>, m: map<Key, Value>, keys: seq<Key>, filled: set<int>)
    requires FieldsOf(keys, filled, m)
    requires forall i, j :: 0 <= i < |edits| && 0 <= j < |edits[i]| ==> EditsField(edits[i][j], m)
    ensures forall n: nat, j :: 0 <= j < |EditsBefore(edits, n)| ==> OnField(EditsBefore(edits, n)[j], keys, filled)
  {
    forall n: nat, j | 0 <= j < |EditsBefore(edits, n)|
      ensures OnField(EditsBefore(edits, n)[j], keys, filled)
    {
      assert EditsField(edits[n][j], m);
    }
  }

  lemma OwnAtFirst(t: LuaTable)
    requires t.Valid()
    ensures OwnFields(t.node, KeysOf(LayoutOf(t)), Filled(LayoutOf(t)))
  {
    hide LuaTable.Valid, OwnAddress;
    forall p | p in Filled(LayoutOf(t))
      ensures OwnAddress(t.node, KeysOf(LayoutOf(t))[p])
    {
      FilledOwn(t, p);
    }
  }

  lemma FilledOwn(t: LuaTable, p: int)
    requires t.Valid() && p in Filled(LayoutOf(t))
    ensures p < |KeysOf(LayoutOf(t))| && OwnAddress(t.node, KeysOf(LayoutOf(t))[p])
  {
    hide Chained, LiveFirst, Keyed, Represents, ObjKeys;
    FilledIsPresent(t, p);
    var k := KeysOf(LayoutOf(t))[p];
    assert k == t.KeyAt(p);
    forall i | 0 <= i < |t.node| && t.node[i].key.KObj? && k.KObj? && t.node[i].key.o == k.o
      ensures t.node[i].key == k
    {
      IsObjKey(t.node, i);
      IsObjKey(t.node, p - |t.arr|);
    }
  }

  lemma IsObjKey(nodes: seq<Node>, i: int)
    requires 0 <= i < |nodes| && nodes[i].key.KObj?
    ensures nodes[i].key in ObjKeys(nodes)
  {
  }

  lemma Sets(t: LuaTable)
    requires t.Valid() && StaysResumable(LayoutOf(t))
    ensures Going(t, |t.arr|, KeysOf(LayoutOf(t)), Filled(LayoutOf(t)), KNil, [], -1, [], true)
  {
    var l := LayoutOf(t);
    OwnAtFirst(t);
    SoundLayout(t);
    CollectedSound(l);
    hide LuaTable.Valid, Sound, OwnFields, Steady, Resumable;
    ResumableSteady(l);
    ResumableSteady(Collected(l));
    assert Filled(Collected(l)) == Filled(l) by {
      assert forall p :: 0 <= p < Size(l) ==> (Full(Collected(l), p) <==> Full(l, p));
    }
  }

  lemma NoValues(m: map<Key, Value>, edits: seq<seq<Edit>>)
    ensures ValuesThen([], m, edits) && FieldsStart(m, edits, 0) == m
  {
  }

  lemma OneMoreValue(visited: seq<(Key, Value)>, m: map<Key, Value>, edits: seq<seq<Edit>>, k: Key)
    requires ValuesThen(visited, m, edits) && k in FieldsAt(m, edits, |visited|)
    ensures ValuesThen(visited + [(k, FieldsAt(m, edits, |visited|)[k])], m, edits)
  {
    hide FieldsAt;
  }

  lemma VisitedEach(t: LuaTable, narr: nat, keys: seq<Key>, filled: set<int>, k: Key, visited: seq<(Key, Value)>,
                    last: int, ps: seq<int>, m: map<Key, Value>)
    requires Going(t, narr, keys, filled, k, visited, last, ps, false) && FieldsOf(keys, filled, m)
    ensures forall i, j :: 0 <= i < j < |visited| ==> visited[i].0 != visited[j].0
    ensures forall i :: 0 <= i < |visited| ==> visited[i].0 in m
  {
    hide SameFields, NothingSkipped;
  }

  lemma VisitedInOrder(t: LuaTable, l: Layout, k: Key, visited: seq<(Key, Value)>, last: int, ps: seq<int>)
    requires Sound(l) && Going(t, |l.arr|, KeysOf(l), Filled(l), k, visited, last, ps, false)
    ensures |ps| == |visited| && forall i, j :: 0 <= i < j < |ps| ==> ps[i] < ps[j]
    ensures forall i :: 0 <= i < |ps| ==> Full(l, ps[i]) && visited[i].0 == KeyIn(l, ps[i])
  {
    hide SameFields, NothingSkipped, Sound;
    NoGoneValues(l);
    forall i | 0 <= i < |ps|
      ensures Full(l, ps[i]) && visited[i].0 == KeyIn(l, ps[i])
    {
      assert ps[i] in Filled(l);
      assert ps[i] >= |l.arr| ==> !Gone(l.nodes[ps[i] - |l.arr|].key);
    }
  }

  lemma VisitedAll(t: LuaTable, narr: nat, keys: seq<Key>, filled: set<int>, k: Key, visited: seq<(Key, Value)>,
                   last: int, ps: seq<int>)
    requires Going(t, narr, keys, filled, k, visited, last, ps, false)
    ensures t.Valid() && forall x :: x in t.contents ==> exists i :: 0 <= i < |visited| && visited[i].0 == x
  {
    hide LuaTable.Valid;
    forall x | x in t.contents
      ensures exists i :: 0 <= i < |visited| && visited[i].0 == x
    {
      var p := PositionOf(t, x);
      assert p in ps;
    }
  }

  /** The fields before the edits of call `n`. */
  function FieldsStart(m: map<Key, Value>, edits: seq<seq<Edit>>, n: nat): map<Key, Value> {
    if n == 0 then m else FieldsAt(m, edits, n - 1)
  }

  lemma FieldsStep(m: map<Key, Value>, edits: seq<seq<Edit>>, n: nat)
    ensures FieldsAt(m, edits, n) == EditedAll(FieldsStart(m, edits, n), EditsBefore(edits, n))
  {
  }

  /** One call of `luaH_next`, after some edits. */
  method VisitNext(t: LuaTable, es: seq<Edit>, k: Key, visited: seq<(Key, Value)>,
                   ghost narr: nat, ghost keys: seq<Key>, ghost filled: set<int>, ghost last: int, ghost ps: seq<int>)
    returns (more: bool, k': Key, visited': seq<(Key, Value)>, ghost last': int, ghost ps': seq<int>)
    requires Going(t, narr, keys, filled, k, visited, last, ps, true)
    requires forall j :: 0 <= j < |es| ==> OnField(es[j], keys, filled)
    modifies t
    ensures Going(t, narr, keys, filled, k', visited', last', ps', more) && last <= last' <= |keys| &&
            (more ==> last < last')
    ensures t.contents == EditedAll(old(t.contents), es)
    ensures if more then k' in t.contents && visited' == visited + [(k', t.contents[k'])] else visited' == visited
  {
    hide LuaTable.Valid, HaveFields, OnField, LuaTable.FirstMatch, EditedAll, Meets, KeysOf, Filled;
    k', visited', last', ps' := k, visited, last, ps;
    SameSize(t, narr, keys, filled);
    ApplyAll(t, es, narr, keys, filled);
    SameSize(t, narr, keys, filled);
    assert NothingSkipped(t, ps, last);
    var ok, x, v, p;
    ghost var from;
    ok, more, x, v, p, from := t.Next(k);
    Resumes(t, keys, filled, k, last, ok, from, p);
    Passed(t, ps, last, p);
    if more {
      FilledIsPresent(t, p);
      IsField(t, narr, keys, filled, p);
      k', visited', last', ps' := x, visited + [(x, v)], p, ps + [p];
    }
  }

  lemma SameSize(t: LuaTable, narr: nat, keys: seq<Key>, filled: set<int>)
    requires SameFields(t, narr, keys, filled)
    ensures t.Valid() && |keys| == |t.arr| + |t.node| && |t.arr| == narr
  {
    hide LuaTable.Valid, Sound, Steady, OwnFields;
  }

  lemma IsField(t: LuaTable, narr: nat, keys: seq<Key>, filled: set<int>, p: int)
    requires SameFields(t, narr, keys, filled) && 0 <= p < |t.arr| + |t.node| && t.ValueAt(p) != Nil && Live(t.KeyAt(p))
    ensures p < |keys| && keys[p] == t.KeyAt(p) && p in filled
  {
    hide LuaTable.Valid, Sound, Steady, OwnFields;
    assert p in Filled(LayoutOf(t));
  }

  lemma Passed(t: LuaTable, ps: seq<int>, last: int, p: int)
    requires NothingSkipped(t, ps, last) && t.FirstFrom(last + 1, p)
    ensures p < |t.arr| + |t.node| ==> NothingSkipped(t, ps + [p], p)
    ensures p == |t.arr| + |t.node| ==> NothingSkipped(t, ps, p)
  {
    assert p in ps + [p];
    assert forall q :: q in Filled(LayoutOf(t)) ==> 0 <= q < |t.arr| + |t.node| && t.ValueAt(q) != Nil;
    assert forall q :: q in ps ==> q in ps + [p];
  }
}
