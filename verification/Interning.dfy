/** The string table (lstring.cpp:13-81; its sweep in lgc.cpp:376-408, 527-535). Strings are chained through
    their own `next` fields, one chain a bucket, so that equal contents mean the same address. */
module Interning {
  import opened Common

  type Text = seq<char>

  const MINSTRTABSIZE: nat := 32
  /** The longest string for which a block can be asked. */
  const LONGEST: nat := 0xFFFF_FFFF_FFFF_FFD0

  /** `lmod`, for a size that is a power of two. */
  function LMod(h: nat, size: nat): (b: nat)
    requires size > 0
    ensures b < size
  {
    h % size
  }

  /** A string: its contents and the hash that was computed when it was made. */
  datatype TString = TString(text: Text, hash: nat)

  /** As many empty buckets. */
  function NoHeads(n: nat): (r: seq<Option<nat>>)
    ensures |r| == n && forall b :: 0 <= b < n ==> r[b] == None
  {
    seq(n, _ => None)
  }

  ghost function NoChains(n: nat): (r: seq<seq<nat>>)
    ensures |r| == n && forall b :: 0 <= b < n ==> r[b] == []
  {
    seq(n, _ => [])
  }

  // ---------- Chains ----------

  /** The chain from `head` goes through these addresses. */
  ghost predicate Linked(next: map<nat, Option<nat>>, head: Option<nat>, chain: seq<nat>)
    decreases |chain|
  {
    if chain == [] then head == None
    else head == Some(chain[0]) && chain[0] in next && Linked(next, next[chain[0]], chain[1..])
  }

  /** Bucket `b` holds what its chain says, and only strings that hash to it. */
  ghost predicate Bucket(next: map<nat, Option<nat>>, str: map<nat, TString>, head: Option<nat>, chain: seq<nat>,
                         b: nat, size: nat) {
    && Linked(next, head, chain) && NoRepeats(chain) && size > 0
    && forall k :: 0 <= k < |chain| ==> chain[k] in str && LMod(str[chain[k]].hash, size) == b
  }

  /** Exactly the strings in `ids` are in the buckets, each in its own. */
  ghost predicate Holds(next: map<nat, Option<nat>>, str: map<nat, TString>, heads: seq<Option<nat>>,
                        chains: seq<seq<nat>>, ids: set<nat>) {
    && |heads| == |chains|
    && (forall b :: 0 <= b < |heads| ==> Bucket(next, str, heads[b], chains[b], b, |heads|))
    && (forall b, k :: 0 <= b < |heads| && 0 <= k < |chains[b]| ==> chains[b][k] in ids)
    && (forall a :: a in ids ==> a in str && |heads| > 0 && a in chains[LMod(str[a].hash, |heads|)])
  }

  lemma {:induction false} LinkedFrame(next: map<nat, Option<nat>>, head: Option<nat>, chain: seq<nat>, p: nat,
                                       x: Option<nat>)
    requires Linked(next, head, chain) && p !in chain
    ensures Linked(next[p := x], head, chain)
    decreases |chain|
  {
    if chain != [] {
      LinkedFrame(next, next[chain[0]], chain[1..], p, x);
    }
  }

  /** A string that no bucket holds may be linked anywhere. */
  lemma HoldsFrame(next: map<nat, Option<nat>>, str: map<nat, TString>, heads: seq<Option<nat>>, chains: seq<seq<nat>>,
                   ids: set<nat>, p: nat, x: Option<nat>)
    requires Holds(next, str, heads, chains, ids) && p !in ids
    ensures Holds(next[p := x], str, heads, chains, ids)
  {
    forall b | 0 <= b < |heads|
      ensures Bucket(next[p := x], str, heads[b], chains[b], b, |heads|)
    {
      assert Bucket(next, str, heads[b], chains[b], b, |heads|);
      LinkedFrame(next, heads[b], chains[b], p, x);
    }
  }

  /** One bucket changes, and with it the set of strings. */
  lemma OneBucket(next: map<nat, Option<nat>>, str: map<nat, TString>, heads: seq<Option<nat>>, chains: seq<seq<nat>>,
                  ids: set<nat>,
                  next': map<nat, Option<nat>>, b: nat, head: Option<nat>, chain: seq<nat>, ids': set<nat>)
    requires Holds(next, str, heads, chains, ids) && b < |heads| && Bucket(next', str, head, chain, b, |heads|)
    requires forall c :: 0 <= c < |heads| && c != b ==> Linked(next', heads[c], chains[c])
    requires forall a :: a in ids' <==> a in chain || (a in ids && LMod(str[a].hash, |heads|) != b)
    ensures Holds(next', str, heads[b := head], chains[b := chain], ids')
  {
    var heads', chains' := heads[b := head], chains[b := chain];
    forall c | 0 <= c < |heads'|
      ensures Bucket(next', str, heads'[c], chains'[c], c, |heads'|)
    {
      if c != b {
        assert Bucket(next, str, heads[c], chains[c], c, |heads|);
      }
    }
    forall c, k | 0 <= c < |heads'| && 0 <= k < |chains'[c]|
      ensures chains'[c][k] in ids'
    {
      if c != b {
        assert Bucket(next, str, heads[c], chains[c], c, |heads|);
        assert chains[c][k] in ids;
      }
    }
  }

  lemma OthersApart(next: map<nat, Option<nat>>, str: map<nat, TString>, heads: seq<Option<nat>>, chains: seq<seq<nat>>,
                    ids: set<nat>, p: nat, b: nat)
    requires Holds(next, str, heads, chains, ids) && p in str && |heads| > 0 && LMod(str[p].hash, |heads|) == b
    ensures forall c :: 0 <= c < |heads| && c != b ==> p !in chains[c]
  {
    forall c | 0 <= c < |heads| && c != b
      ensures p !in chains[c]
    {
      assert Bucket(next, str, heads[c], chains[c], c, |heads|);
    }
  }

  /** A new first string in its bucket. */
  lemma Pushed(next: map<nat, Option<nat>>, str: map<nat, TString>, heads: seq<Option<nat>>, chains: seq<seq<nat>>,
               ids: set<nat>, p: nat, b: nat)
    requires Holds(next, str, heads, chains, ids) && p !in ids && p in str && |heads| > 0 &&
             LMod(str[p].hash, |heads|) == b
    ensures Holds(next[p := heads[b]], str, heads[b := Some(p)], chains[b := [p] + chains[b]], ids + {p})
  {
    var next' := next[p := heads[b]];
    HoldsFrame(next, str, heads, chains, ids, p, heads[b]);
    assert Bucket(next', str, heads[b], chains[b], b, |heads|);
    var chain := [p] + chains[b];
    assert chain[1..] == chains[b];
    assert p !in chains[b];
    forall c | 0 <= c < |heads| && c != b
      ensures Linked(next', heads[c], chains[c])
    {
      assert Bucket(next', str, heads[c], chains[c], c, |heads|);
    }
    OneBucket(next', str, heads, chains, ids, next', b, Some(p), chain, ids + {p});
  }

  /** The first string of a bucket is taken out. */
  lemma Popped(next: map<nat, Option<nat>>, str: map<nat, TString>, heads: seq<Option<nat>>, chains: seq<seq<nat>>,
               ids: set<nat>, b: nat)
    requires Holds(next, str, heads, chains, ids) && b < |heads| && heads[b].Some?
    ensures
      var p := heads[b].value;
      p in ids && p in next && chains[b] != [] && chains[b][0] == p &&
          Holds(next, str, heads[b := next[p]], chains[b := chains[b][1..]], ids - {p})
  {
    assert Bucket(next, str, heads[b], chains[b], b, |heads|);
    var p, chain := heads[b].value, chains[b][1..];
    assert chains[b][0] in ids;
    assert forall k :: 0 <= k < |chain| ==> chain[k] == chains[b][k + 1];
    forall c | 0 <= c < |heads| && c != b
      ensures Linked(next, heads[c], chains[c])
    {
      assert Bucket(next, str, heads[c], chains[c], c, |heads|);
    }
    OneBucket(next, str, heads, chains, ids, next, b, next[p], chain, ids - {p});
  }

  /** The end of a part of a chain leads on to the rest. */
  lemma {:induction false} Unlinked(next: map<nat, Option<nat>>, head: Option<nat>, done: seq<nat>, x: nat,
                                    rest: seq<nat>)
    requires Linked(next, head, done + [x] + rest) && NoRepeats(done + [x] + rest)
    ensures x in next
    ensures done == [] ==> Linked(next, next[x], rest)
    ensures done != [] ==> Linked(next[done[|done| - 1] := next[x]], head, done + rest)
    decreases |done|
  {
    var all := done + [x] + rest;
    if done == [] {
      assert all == [x] + rest && all[1..] == rest;
    } else {
      var last := done[|done| - 1];
      assert all[1..] == done[1..] + [x] + rest;
      assert forall i :: 0 <= i < |all[1..]| ==> all[1..][i] == all[i + 1];
      Unlinked(next, next[all[0]], done[1..], x, rest);
      assert (done + rest)[1..] == done[1..] + rest;
      if |done| == 1 {
        assert done + rest == [last] + rest;
        assert forall k :: 0 <= k < |rest| ==> rest[k] == all[k + 2];
        LinkedFrame(next, next[x], rest, last, next[x]);
      } else {
        assert done[1..][|done[1..]| - 1] == last;
        assert all[0] != all[|done| - 1];
      }
    }
  }

  lemma {:induction false} LinkedAt(next: map<nat, Option<nat>>, head: Option<nat>, done: seq<nat>, rest: seq<nat>)
    requires Linked(next, head, done + rest)
    ensures done != [] ==> done[|done| - 1] in next
    ensures Linked(next, if done == [] then head else next[done[|done| - 1]], rest)
    decreases |done|
  {
    if done == [] {
      assert done + rest == rest;
    } else {
      assert (done + rest)[1..] == done[1..] + rest;
      LinkedAt(next, next[done[0]], done[1..], rest);
    }
  }

  // ---------- The table ----------

  /** No two strings of the table have the same contents. */
  ghost predicate Unique(str: map<nat, TString>, ids: set<nat>) {
    (forall a :: a in ids ==> a in str) && forall a, b :: a in ids && b in ids && str[a].text == str[b].text ==> a == b
  }

  ghost predicate Hashed(str: map<nat, TString>, ids: set<nat>, hashOf: Text -> nat) {
    forall a :: a in ids ==> a in str && str[a].hash == hashOf(str[a].text)
  }

  /** The buckets before `pos` have no dead string. */
  ghost predicate Swept(chains: seq<seq<nat>>, pos: nat, dead: set<nat>) {
    pos <= |chains| && forall b, k :: 0 <= b < pos && 0 <= k < |chains[b]| ==> chains[b][k] !in dead
  }

  /** Some string of the table has these contents. */
  ghost predicate Present(str: map<nat, TString>, ids: set<nat>, text: Text) {
    exists a :: a in ids && a in str && str[a].text == text
  }

  /** The fields of the table and the ghosts beside them agree. */
  ghost predicate Sound(hashOf: Text -> nat, heads: seq<Option<nat>>, next: map<nat, Option<nat>>, str: map<nat,
                        TString>, nuse: int,
                        dead: set<nat>, sweeping: bool, pos: nat, chains: seq<seq<nat>>, ids: set<nat>) {
    && Holds(next, str, heads, chains, ids) && |heads| > 0 && IsPow2(|heads|) && nuse == |ids|
    && Unique(str, ids) && Hashed(str, ids, hashOf)
    && (if sweeping then pos < |heads| && Swept(chains, pos, dead) else dead * ids == {})
  }

  class StringTable {
    const hashOf: Text -> nat
    var heads: seq<Option<nat>>
    var next: map<nat, Option<nat>>
    var str: map<nat, TString>
    var nuse: int
    /** The strings of the other white. */
    var dead: set<nat>
    /** The collector is in GCSsweepstring, and at which bucket. */
    var sweeping: bool
    var sweepstrgc: nat
    ghost var chains: seq<seq<nat>>
    ghost var ids: set<nat>

    ghost predicate Valid()
      reads this
    {
      Sound(hashOf, heads, next, str, nuse, dead, sweeping, sweepstrgc, chains, ids)
    }

    constructor (hashOf: Text -> nat)
      ensures Valid() && this.hashOf == hashOf && ids == {} && !sweeping && |heads| == MINSTRTABSIZE
    {
      this.hashOf := hashOf;
      heads := NoHeads(MINSTRTABSIZE);
      next, str, nuse, dead, sweeping, sweepstrgc := map[], map[], 0, {}, false, 0;
      chains := NoChains(MINSTRTABSIZE);
      ids := {};
    }

    /** In every state of the table, the same address means the same contents. */
    lemma SameAddressSameText(a: nat, b: nat)
      requires Valid() && a in ids && b in ids
      ensures a in str && b in str && (a == b <==> str[a].text == str[b].text)
    {
    }

    /** `luaS_resize`: no string comes or goes; nothing happens while the strings are being swept. */
    method Resize(newsize: nat)
      requires Valid() && IsPow2(newsize)
      modifies `heads, `next, `chains
      ensures Valid() && if sweeping then heads == old(heads) && chains == old(chains) && next == old(next)
              else |heads| == newsize
    {
      hide Moving, MovedUpTo, Sound, Holds, Unique, Hashed, Swept, Linked, NoRepeats, Bucket, IsPow2, LMod;
      if sweeping {
        return;
      }
      ghost var next0 := next;
      var newhash;
      ghost var m;
      newhash, m := Rehash(newsize);
      Rehashed(hashOf, heads, next0, str, nuse, dead, sweepstrgc, chains, ids, m);
      heads, chains := newhash, m.toChains;
    }

    /** The outer loop of the rehash. */
    method Rehash(newsize: nat) returns (newhash: seq<Option<nat>>, ghost m: Move)
      requires Valid() && !sweeping && IsPow2(newsize)
      modifies `next
      ensures Moving(m, str, ids) && MovedUpTo(m, heads, |heads|) && m.next == next && m.to == newhash &&
              |newhash| == newsize
    {
      hide Moving, MovedUpTo, Sound, Holds, Unique, Hashed, Swept, Linked, NoRepeats, Bucket, IsPow2, LMod, NoHeads,
           NoChains;
      AtFirst(hashOf, heads, next, str, nuse, dead, sweepstrgc, chains, ids, newsize);
      newhash, m := NoHeads(newsize), AllLeft(next, heads, chains, ids, newsize);
      for i := 0 to |heads|
        invariant Moving(m, str, ids) && MovedUpTo(m, heads, i) && m.next == next && m.to == newhash &&
                  |newhash| == newsize
      {
        newhash, m := MoveBucket(newhash, m, i);
      }
    }

    /** The inner loop of the rehash: each node of one bucket is chained in its new one. */
    method MoveBucket(newhash0: seq<Option<nat>>, ghost m0: Move, i: nat)
      returns (newhash: seq<Option<nat>>, ghost m: Move)
      requires Moving(m0, str, ids) && MovedUpTo(m0, heads, i) && m0.next == next && m0.to == newhash0 && |newhash0| > 0
      requires i < |heads|
      modifies `next
      ensures Moving(m, str, ids) && MovedUpTo(m, heads, i + 1) && m.next == next && m.to == newhash &&
              |newhash| == |newhash0|
    {
      hide Moving, Sound, Holds, Unique, Hashed, Swept, Linked, NoRepeats, Bucket, IsPow2, LMod;
      newhash, m := newhash0, m0;
      var p := heads[i];
      while p.Some?
        invariant Moving(m, str, ids) && m.next == next && m.to == newhash && |newhash| == |newhash0| &&
                  m.from == m0.from[i := p]
        decreases |m.left|
      {
        MovedOne(m, str, ids, i);
        var q := p.value;
        var after := next[q];
        var h1 := LMod(str[q].hash, |newhash|);
        next := next[q := newhash[h1]];
        newhash := newhash[h1 := Some(q)];
        m := MoveOne(m, str, i);
        p := after;
      }
    }

    /** The search of `luaS_newlstr`. */
    method Search(text: Text) returns (r: Option<nat>)
      requires Valid()
      ensures r.None? ==> !Present(str, ids, text)
      ensures r.Some? ==> r.value in ids && r.value in str && str[r.value].text == text
    {
      NotInBucket(next, str, heads, chains, ids, hashOf, text);
      var h := LMod(hashOf(text), |heads|);
      InBucket(next, str, heads, chains, ids, h);
      hide Sound, Holds, Present, NoRepeats;
      var o := heads[h];
      ghost var chain := chains[h];
      ghost var i := 0;
      assert chain[0..] == chain;
      while o.Some?
        invariant 0 <= i <= |chain| && Linked(next, o, chain[i..])
        invariant forall k :: 0 <= k < i ==> str[chain[k]].text != text
        decreases |chain| - i
      {
        assert chain[i..][0] == chain[i] && chain[i..][1..] == chain[i + 1..];
        if str[o.value].text == text {
          return o;
        }
        i := i + 1;
        o := next[o.value];
      }
      r := None;
    }

    /** A string that is asked for is no longer dead. */
    method Revive(a: nat)
      requires Valid()
      modifies `dead
      ensures Valid() && dead == old(dead) - {a}
    {
      dead := dead - {a};
    }

    /** `luaS_newlstr`: the one string with these contents, which is not dead, or a new one at the
        address `addr` that the allocator gives. Only a string that is too long fails. */
    method NewLStr(text: Text, addr: nat) returns (r: Option<nat>)
      requires Valid() && addr !in ids
      modifies this
      ensures Valid() && sweeping == old(sweeping)
      ensures r.None? <==> |text| > LONGEST && !old(Present(str, ids, text))
      ensures r.Some? ==> r.value in ids && r.value in str && str[r.value].text == text && r.value !in dead
      ensures ids == if r.None? || old(Present(str, ids, text)) then old(ids) else old(ids) + {addr}
      ensures forall a :: a in old(ids) ==> a in str && a in old(str) && str[a] == old(str[a])
    {
      hide Sound, Holds, Unique, Hashed, Swept, Linked, NoRepeats, Bucket, IsPow2, LMod;
      InStr();
      r := Search(text);
      if r.Some? {
        assert Present(str, ids, text);
        Revive(r.value);
        return;
      }
      if |text| > LONGEST {
        return;
      }
      r := Some(addr);
      Chain(text, addr);
      Grow();
    }

    lemma InStr()
      requires Valid()
      ensures forall a :: a in ids ==> a in str
    {
    }

    /** `newlstr` up to the resize: the string becomes the first of its bucket. */
    method Chain(text: Text, addr: nat)
      requires Valid() && addr !in ids && !Present(str, ids, text)
      modifies `str, `next, `heads, `chains, `ids, `nuse, `dead
      ensures Valid() && ids == old(ids) + {addr}
      ensures str == old(str)[addr := TString(text, hashOf(text))] && dead == old(dead) - {addr}
    {
      hide Sound, Holds, Unique, Hashed, Swept, Linked, NoRepeats, Bucket, IsPow2, LMod, Present;
      Chained(hashOf, heads, next, str, nuse, dead, sweeping, sweepstrgc, chains, ids, addr, text);
      str := str[addr := TString(text, hashOf(text))];
      dead := dead - {addr};
      var h := LMod(hashOf(text), |heads|);
      next := next[addr := heads[h]];
      heads := heads[h := Some(addr)];
      chains := chains[h := [addr] + chains[h]];
      ids := ids + {addr};
      nuse := nuse + 1;
    }

    /** The end of `newlstr`: a crowded table doubles. */
    method Grow()
      requires Valid()
      modifies `heads, `next, `chains
      ensures Valid() && if old(nuse > |heads| && |heads| <= MAX_INT / 2) &&
              !sweeping then |heads| == 2 * old(|heads|) else heads == old(heads)
    {
      if nuse > |heads| && |heads| <= MAX_INT / 2 {
        Twice(|heads|);
        hide Sound;
        Resize(|heads| * 2);
      }
    }

    /** `checkSizes`: a table that is nearly empty halves. */
    method CheckSizes()
      requires Valid()
      modifies `heads, `next, `chains
      ensures Valid() && if old(nuse < |heads| / 4 && |heads| > MINSTRTABSIZE * 2) &&
              !sweeping then 2 * |heads| == old(|heads|) else heads == old(heads)
    {
      if nuse < |heads| / 4 && |heads| > MINSTRTABSIZE * 2 {
        assert IsPow2(|heads| / 2) && |heads| % 2 == 0;
        hide Sound;
        Resize(|heads| / 2);
      }
    }

    /** The flip in `atomic`: what was not marked is dead, and the sweep of the strings begins. */
    method Flip(unmarked: set<nat>)
      requires Valid() && !sweeping && unmarked <= ids
      modifies `dead, `sweeping, `sweepstrgc
      ensures Valid() && sweeping && sweepstrgc == 0 && dead == unmarked
    {
      Flipped(hashOf, heads, next, str, nuse, dead, sweepstrgc, chains, ids, unmarked);
      hide Sound;
      dead, sweeping, sweepstrgc := unmarked, true, 0;
    }

    /** `sweeplist` on one bucket: the dead strings are unlinked and freed, whatever is between them. */
    method SweepBucket(b: nat)
      requires Valid() && sweeping && b == sweepstrgc
      modifies `heads, `next, `chains, `ids, `nuse
      ensures Valid() && b < |chains| == old(|chains|) == |heads| == old(|heads|)
      ensures ids == set a | a in old(ids) && !(a in old(chains[b]) && a in dead)
      ensures forall k :: 0 <= k < |chains[b]| ==> chains[b][k] !in dead
    {
      hide Sound, Holds, Unique, Hashed, Swept, NoRepeats, Bucket, IsPow2, LMod;
      AtBucket(hashOf, heads, next, str, nuse, dead, b, chains, ids);
      ghost var all, erased: set<nat>, i := chains[b], {}, 0;
      var prev: Option<nat>, curr := None, heads[b];
      assert all[0..] == all;
      while curr.Some?
        invariant Valid() && b < |chains| == old(|chains|) == |heads| == old(|heads|) && 0 <= i <= |chains[b]|
        invariant Linked(next, curr, chains[b][i..]) && prev == if i == 0 then None else Some(chains[b][i - 1])
        invariant forall k :: 0 <= k < i ==> chains[b][k] !in dead
        invariant ids == old(ids) - erased && forall a :: a in erased ==> a in all && a in dead
        invariant forall a :: a in all ==> a in chains[b] || a in erased
        invariant forall a :: a in chains[b] ==> a in all
        decreases |chains[b]| - i
      {
        ghost var chain := chains[b];
        var c := curr.value;
        assert chain[i..][0] == c == chain[i] && chain[i..][1..] == chain[i + 1..];
        curr := next[c];
        if c !in dead {
          prev := Some(c);
          i := i + 1;
        } else {
          Erase(b, prev, c, i);
          erased := erased + {c};
        }
      }
    }

    /** The link that leads to a dead string leads past it, and the string is freed. */
    method Erase(b: nat, prev: Option<nat>, c: nat, ghost i: nat)
      requires Valid() && sweeping && b == sweepstrgc && b < |heads| == |chains| && i < |chains[b]| &&
               chains[b][i] == c && c in dead
      requires prev == if i == 0 then None else Some(chains[b][i - 1])
      modifies `heads, `next, `chains, `ids, `nuse
      ensures Valid() && |heads| == old(|heads|) && |chains| == |heads|
      ensures chains == old(chains)[b := old(chains[b])[..i] + old(chains[b])[i + 1..]] && ids == old(ids) - {c}
      ensures c in old(next) && Linked(next, old(next)[c], chains[b][i..])
      ensures forall a :: a in old(chains[b]) <==> a in chains[b] || a == c
    {
      hide Sound, Holds, Unique, Hashed, Swept, Linked, NoRepeats, Bucket, IsPow2, LMod;
      Erased(hashOf, heads, next, str, nuse, dead, sweepstrgc, chains, ids, b, i);
      if prev == None {
        heads := heads[b := next[c]];
      } else {
        next := next[prev.value := next[c]];
      }
      WithoutOne(chains[b], i);
      chains := chains[b := chains[b][..i] + chains[b][i + 1..]];
      ids := ids - {c};
      nuse := nuse - 1;
    }

    /** One step of GCSsweepstring. When the last bucket has been swept, no string of the table is dead:
        none has slipped past, because the table cannot be resized meanwhile. */
    method SweepStep()
      requires Valid() && sweeping
      modifies this
      ensures Valid() && ids <= old(ids) && str == old(str) &&
              (forall a :: a in old(ids) && a !in old(dead) ==> a in ids)
      ensures if old(sweepstrgc) + 1 < |heads| then sweeping && sweepstrgc == old(sweepstrgc) + 1
              else !sweeping && dead * ids == {}
    {
      hide Sound, Holds, Unique, Hashed, Swept, Linked, NoRepeats, Bucket, IsPow2, LMod;
      SweepBucket(sweepstrgc);
      BucketDone(hashOf, heads, next, str, nuse, dead, sweepstrgc, chains, ids);
      sweepstrgc := sweepstrgc + 1;
      if sweepstrgc >= |heads| {
        sweeping := false;
      }
    }
  }

  // ---------- Why ----------

  /** A table from which the strings are moved, one by one, to another. */
  datatype Move = Move(next: map<nat, Option<nat>>, to: seq<Option<nat>>, toChains: seq<seq<nat>>, moved: set<nat>,
                       from: seq<Option<nat>>, fromChains: seq<seq<nat>>, left: set<nat>)

  /** Nothing has been moved yet. */
  ghost function AllLeft(next: map<nat, Option<nat>>, heads: seq<Option<nat>>, chains: seq<seq<nat>>, ids: set<nat>,
                         size: nat): Move {
    Move(next, NoHeads(size), NoChains(size), {}, heads, chains, ids)
  }

  ghost predicate Moving(m: Move, str: map<nat, TString>, ids: set<nat>) {
    && Holds(m.next, str, m.to, m.toChains, m.moved) && Holds(m.next, str, m.from, m.fromChains, m.left)
    && m.moved + m.left == ids && m.moved !! m.left
  }

  /** The buckets before `i` are empty by now. */
  ghost predicate MovedUpTo(m: Move, heads: seq<Option<nat>>, i: nat) {
    |m.from| == |heads| && i <= |heads| && forall b :: 0 <= b < |heads| ==> m.from[b] == if b < i then None
        else heads[b]
  }

  /** The first string of bucket `i` becomes the first of its new bucket. */
  ghost function MoveOne(m: Move, str: map<nat, TString>, i: nat): Move
    requires i < |m.from| && |m.fromChains| == |m.from| && m.from[i].Some? && m.from[i].value in m.next &&
             m.from[i].value in str
    requires m.fromChains[i] != [] && |m.to| == |m.toChains| > 0
  {
    var q := m.from[i].value;
    var h := LMod(str[q].hash, |m.to|);
    Move(m.next[q := m.to[h]], m.to[h := Some(q)], m.toChains[h := [q] + m.toChains[h]], m.moved + {q},
         m.from[i := m.next[q]], m.fromChains[i := m.fromChains[i][1..]], m.left - {q})
  }

  lemma AtFirst(hashOf: Text -> nat, heads: seq<Option<nat>>, next: map<nat, Option<nat>>, str: map<nat, TString>,
                nuse: int,
                dead: set<nat>, pos: nat, chains: seq<seq<nat>>, ids: set<nat>, newsize: nat)
    requires Sound(hashOf, heads, next, str, nuse, dead, false, pos, chains, ids) && IsPow2(newsize)
    ensures newsize > 0
    ensures Moving(AllLeft(next, heads, chains, ids, newsize), str, ids) &&
            MovedUpTo(AllLeft(next, heads, chains, ids, newsize), heads, 0)
  {
    hide Unique, Hashed, Swept;
    NothingHeld(next, str, newsize);
    hide Holds, IsPow2;
  }

  lemma NothingHeld(next: map<nat, Option<nat>>, str: map<nat, TString>, size: nat)
    requires size > 0
    ensures Holds(next, str, NoHeads(size), NoChains(size), {})
  {
  }

  lemma MovedOne(m: Move, str: map<nat, TString>, ids: set<nat>, i: nat)
    requires Moving(m, str, ids) && i < |m.from| && m.from[i].Some? && |m.to| > 0
    ensures |m.fromChains| == |m.from| && m.from[i].value in m.next && m.from[i].value in str &&
            m.from[i].value in m.left
    ensures m.fromChains[i] != [] && |m.to| == |m.toChains| && Moving(MoveOne(m, str, i), str, ids)
  {
    var q := m.from[i].value;
    Popped(m.next, str, m.from, m.fromChains, m.left, i);
    var h := LMod(str[q].hash, |m.to|);
    Pushed(m.next, str, m.to, m.toChains, m.moved, q, h);
    HoldsFrame(m.next, str, m.from[i := m.next[q]], m.fromChains[i := m.fromChains[i][1..]], m.left - {q}, q, m.to[h]);
  }

  lemma Rehashed(hashOf: Text -> nat, heads: seq<Option<nat>>, next: map<nat, Option<nat>>, str: map<nat, TString>,
                 nuse: int,
                 dead: set<nat>, pos: nat, chains: seq<seq<nat>>, ids: set<nat>, m: Move)
    requires Sound(hashOf, heads, next, str, nuse, dead, false, pos, chains, ids) && Moving(m, str, ids)
    requires MovedUpTo(m, heads, |heads|) && IsPow2(|m.to|)
    ensures Sound(hashOf, m.to, m.next, str, nuse, dead, false, pos, m.toChains, ids)
  {
    AllMoved(m.next, str, m.from, m.fromChains, m.left);
    assert m.moved == ids;
  }

  lemma InBucket(next: map<nat, Option<nat>>, str: map<nat, TString>, heads: seq<Option<nat>>, chains: seq<seq<nat>>,
                 ids: set<nat>, b: nat)
    requires Holds(next, str, heads, chains, ids) && b < |heads|
    ensures |chains| == |heads| && Linked(next, heads[b], chains[b]) && NoRepeats(chains[b])
    ensures forall k :: 0 <= k < |chains[b]| ==> chains[b][k] in ids && chains[b][k] in str
  {
    assert Bucket(next, str, heads[b], chains[b], b, |heads|);
  }

  lemma AtBucket(hashOf: Text -> nat, heads: seq<Option<nat>>, next: map<nat, Option<nat>>, str: map<nat, TString>,
                 nuse: int,
                 dead: set<nat>, pos: nat, chains: seq<seq<nat>>, ids: set<nat>)
    requires Sound(hashOf, heads, next, str, nuse, dead, true, pos, chains, ids)
    ensures pos < |heads| == |chains| && Linked(next, heads[pos], chains[pos])
  {
    InBucket(next, str, heads, chains, ids, pos);
  }

  /** A string that is not in its bucket is not in the table. */
  lemma NotInBucket(next: map<nat, Option<nat>>, str: map<nat, TString>, heads: seq<Option<nat>>, chains: seq<seq<nat>>,
                    ids: set<nat>,
                    hashOf: Text -> nat, text: Text)
    requires Holds(next, str, heads, chains, ids) && |heads| > 0 && Hashed(str, ids, hashOf)
    ensures
      var chain := chains[LMod(hashOf(text), |heads|)];
      Present(str, ids, text) ==> exists k :: 0 <= k < |chain| && chain[k] in str && str[chain[k]].text == text
  {
    if a :| a in ids && a in str && str[a].text == text {
      assert a in chains[LMod(str[a].hash, |heads|)];
    }
  }

  lemma Chained(hashOf: Text -> nat, heads: seq<Option<nat>>, next: map<nat, Option<nat>>, str: map<nat, TString>,
                nuse: int,
                dead: set<nat>, sweeping: bool, pos: nat, chains: seq<seq<nat>>, ids: set<nat>, addr: nat, text: Text)
    requires Sound(hashOf, heads, next, str, nuse, dead, sweeping, pos, chains, ids) && addr !in ids &&
             !Present(str, ids, text)
    ensures |heads| > 0 && |chains| == |heads|
    ensures
      var h := LMod(hashOf(text), |heads|);
      Sound(hashOf, heads[h := Some(addr)], next[addr := heads[h]], str[addr := TString(text, hashOf(text))], nuse + 1,
            dead - {addr}, sweeping, pos, chains[h := [addr] + chains[h]], ids + {addr})
  {
    var h, s := LMod(hashOf(text), |heads|), TString(text, hashOf(text));
    StillUnique(str, ids, hashOf, addr, s);
    StillSwept(chains, pos, dead, h, addr);
    Restring(next, str, heads, chains, ids, addr, s);
    Pushed(next, str[addr := s], heads, chains, ids, addr, h);
    hide Holds, Unique, Hashed, Swept, Present;
  }

  lemma StillUnique(str: map<nat, TString>, ids: set<nat>, hashOf: Text -> nat, p: nat, s: TString)
    requires Unique(str, ids) && Hashed(str, ids, hashOf) && !Present(str, ids, s.text) && s.hash == hashOf(s.text) &&
             p !in ids
    ensures Unique(str[p := s], ids + {p}) && Hashed(str[p := s], ids + {p}, hashOf)
  {
    assert forall a :: a in ids ==> str[a].text != s.text;
  }

  lemma StillSwept(chains: seq<seq<nat>>, pos: nat, dead: set<nat>, h: nat, p: nat)
    requires h < |chains|
    ensures Swept(chains, pos, dead) ==> Swept(chains[h := [p] + chains[h]], pos, dead - {p})
  {
  }

  lemma Erased(hashOf: Text -> nat, heads: seq<Option<nat>>, next: map<nat, Option<nat>>, str: map<nat, TString>,
               nuse: int,
               dead: set<nat>, pos: nat, chains: seq<seq<nat>>, ids: set<nat>, b: nat, i: nat)
    requires Sound(hashOf, heads, next, str, nuse, dead, true, pos, chains, ids) && b == pos && b < |chains| &&
             i < |chains[b]|
    ensures
      var c, chain := chains[b][i], chains[b][..i] + chains[b][i + 1..];
      c in ids && c in next && b < |heads| &&
      var heads' := if i == 0 then heads[b := next[c]] else heads;
      var next' := if i == 0 then next else next[chains[b][i - 1] := next[c]];
      Sound(hashOf, heads', next', str, nuse - 1, dead, true, pos, chains[b := chain], ids - {c}) &&
          Linked(next', next[c], chain[i..])
  {
    hide Bucket, Holds;
    var c, chain := chains[b][i], chains[b][..i] + chains[b][i + 1..];
    hide Holds, Linked, NoRepeats, Unique, Hashed, IsPow2;
    InBucket(next, str, heads, chains, ids, b);
    PastOne(next, heads[b], chains[b], i);
    var head' := if i == 0 then next[c] else heads[b];
    var next' := if i == 0 then next else next[chains[b][i - 1] := next[c]];
    UnlinkedHolds(next, str, heads, chains, ids, b, i, next', head', next[c]);
    assert heads[b := heads[b]] == heads;
    FewerStrings(str, ids, hashOf, c);
  }

  lemma FewerStrings(str: map<nat, TString>, ids: set<nat>, hashOf: Text -> nat, c: nat)
    requires Unique(str, ids) && Hashed(str, ids, hashOf)
    ensures Unique(str, ids - {c}) && Hashed(str, ids - {c}, hashOf)
  {
  }

  /** The link past the string at `i`. */
  lemma PastOne(next: map<nat, Option<nat>>, head: Option<nat>, chain: seq<nat>, i: nat)
    requires Linked(next, head, chain) && NoRepeats(chain) && i < |chain|
    ensures chain[i] in next
    ensures
      var x := next[chain[i]];
      var next' := if i == 0 then next else next[chain[i - 1] := x];
      Linked(next', if i == 0 then x else head, chain[..i] + chain[i + 1..]) &&
          Linked(next', x, (chain[..i] + chain[i + 1..])[i..])
  {
    var done, rest := chain[..i], chain[i + 1..];
    assert chain == done + [chain[i]] + rest;
    Unlinked(next, head, done, chain[i], rest);
    var x := next[chain[i]];
    var next' := if i == 0 then next else next[chain[i - 1] := x];
    assert i == 0 ==> done + rest == rest;
    assert (done + rest)[i..] == rest;
    LinkedAt(next', if i == 0 then x else head, done, rest);
  }

  lemma UnlinkedHolds(next: map<nat, Option<nat>>, str: map<nat, TString>, heads: seq<Option<nat>>,
                      chains: seq<seq<nat>>, ids: set<nat>, b: nat, i: nat,
                      next': map<nat, Option<nat>>, head': Option<nat>, x: Option<nat>)
    requires Holds(next, str, heads, chains, ids) && b < |chains| && i < |chains[b]|
    requires Linked(next', head', chains[b][..i] + chains[b][i + 1..])
    requires next' == if i == 0 then next else next[chains[b][i - 1] := x]
    ensures Holds(next', str, heads[b := head'], chains[b := chains[b][..i] + chains[b][i + 1..]], ids - {chains[b][i]})
  {
    var c, chain := chains[b][i], chains[b][..i] + chains[b][i + 1..];
    StillBucket(next, str, heads, chains, ids, b, i, next', head');
    WithoutOne(chains[b], i);
    OthersLinked(next, str, heads, chains, ids, b, i, next', x);
    InBucket(next, str, heads, chains, ids, b);
    hide Bucket, NoRepeats, Linked;
    forall a | a in ids && LMod(str[a].hash, |heads|) == b
      ensures a in chains[b]
    {
    }
    OnlyOnce(chains[b], i);
    SameBucket(next, str, heads, chains, ids, b);
    OneBucket(next, str, heads, chains, ids, next', b, head', chain, ids - {c});
  }

  lemma SameBucket(next: map<nat, Option<nat>>, str: map<nat, TString>, heads: seq<Option<nat>>, chains: seq<seq<nat>>,
                   ids: set<nat>, b: nat)
    requires Holds(next, str, heads, chains, ids) && b < |heads|
    ensures forall a :: a in chains[b] ==> a in ids && a in str && LMod(str[a].hash, |heads|) == b
  {
    assert Bucket(next, str, heads[b], chains[b], b, |heads|);
  }

  lemma OnlyOnce(chain: seq<nat>, i: nat)
    requires NoRepeats(chain) && i < |chain|
    ensures chain[i] !in chain[..i] + chain[i + 1..] && NoRepeats(chain[..i] + chain[i + 1..])
  {
    var rest := chain[..i] + chain[i + 1..];
    assert forall k :: 0 <= k < |rest| ==> rest[k] == chain[if k < i then k else k + 1];
  }

  lemma StillBucket(next: map<nat, Option<nat>>, str: map<nat, TString>, heads: seq<Option<nat>>, chains: seq<seq<nat>>,
                    ids: set<nat>, b: nat, i: nat,
                    next': map<nat, Option<nat>>, head': Option<nat>)
    requires Holds(next, str, heads, chains, ids) && b < |chains| && i < |chains[b]|
    requires Linked(next', head', chains[b][..i] + chains[b][i + 1..])
    ensures Bucket(next', str, head', chains[b][..i] + chains[b][i + 1..], b, |heads|)
  {
    assert Bucket(next, str, heads[b], chains[b], b, |heads|);
    OnlyOnce(chains[b], i);
  }

  lemma OthersLinked(next: map<nat, Option<nat>>, str: map<nat, TString>, heads: seq<Option<nat>>,
                     chains: seq<seq<nat>>, ids: set<nat>, b: nat, i: nat,
                     next': map<nat, Option<nat>>, x: Option<nat>)
    requires Holds(next, str, heads, chains, ids) && b < |chains| && i < |chains[b]|
    requires next' == if i == 0 then next else next[chains[b][i - 1] := x]
    ensures forall d :: 0 <= d < |heads| && d != b ==> Linked(next', heads[d], chains[d])
  {
    assert Bucket(next, str, heads[b], chains[b], b, |heads|);
    forall d | 0 <= d < |heads| && d != b
      ensures Linked(next', heads[d], chains[d])
    {
      assert Bucket(next, str, heads[d], chains[d], d, |heads|);
      if i > 0 {
        OthersApart(next, str, heads, chains, ids, chains[b][i - 1], b);
        LinkedFrame(next, heads[d], chains[d], chains[b][i - 1], x);
      }
    }
  }

  lemma WithoutOne(chain: seq<nat>, i: nat)
    requires i < |chain|
    ensures forall a :: a in chain <==> a in chain[..i] + chain[i + 1..] || a == chain[i]
  {
    assert chain == chain[..i] + [chain[i]] + chain[i + 1..];
  }

  lemma Flipped(hashOf: Text -> nat, heads: seq<Option<nat>>, next: map<nat, Option<nat>>, str: map<nat, TString>,
                nuse: int,
                dead: set<nat>, pos: nat, chains: seq<seq<nat>>, ids: set<nat>, unmarked: set<nat>)
    requires Sound(hashOf, heads, next, str, nuse, dead, false, pos, chains, ids)
    ensures Sound(hashOf, heads, next, str, nuse, unmarked, true, 0, chains, ids)
  {
    hide Holds, Unique, Hashed;
    assert Swept(chains, 0, unmarked);
  }

  /** After the last bucket nothing is dead. */
  lemma BucketDone(hashOf: Text -> nat, heads: seq<Option<nat>>, next: map<nat, Option<nat>>, str: map<nat, TString>,
                   nuse: int,
                   dead: set<nat>, pos: nat, chains: seq<seq<nat>>, ids: set<nat>)
    requires Sound(hashOf, heads, next, str, nuse, dead, true, pos, chains, ids) && pos < |chains|
    requires forall k :: 0 <= k < |chains[pos]| ==> chains[pos][k] !in dead
    ensures if pos + 1 < |heads| then Sound(hashOf, heads, next, str, nuse, dead, true, pos + 1, chains, ids)
            else Sound(hashOf, heads, next, str, nuse, dead, false, pos + 1, chains, ids) && dead * ids == {}
  {
    assert Swept(chains, pos + 1, dead);
    assert |heads| == |chains|;
    if pos + 1 == |heads| {
      forall a | a in ids
        ensures a !in dead
      {
        assert a in chains[LMod(str[a].hash, |heads|)];
      }
    }
  }

  lemma AllMoved(next: map<nat, Option<nat>>, str: map<nat, TString>, heads: seq<Option<nat>>, chains: seq<seq<nat>>,
                 left: set<nat>)
    requires Holds(next, str, heads, chains, left) && forall b :: 0 <= b < |heads| ==> heads[b] == None
    ensures left == {}
  {
    forall b | 0 <= b < |heads|
      ensures chains[b] == []
    {
      assert Bucket(next, str, heads[b], chains[b], b, |heads|);
    }
  }

  lemma Twice(n: nat)
    requires IsPow2(n)
    ensures IsPow2(n * 2)
  {
  }

  /** Making a string where none is disturbs nothing. */
  lemma Restring(next: map<nat, Option<nat>>, str: map<nat, TString>, heads: seq<Option<nat>>, chains: seq<seq<nat>>,
                 ids: set<nat>, p: nat, s: TString)
    requires Holds(next, str, heads, chains, ids) && p !in ids
    ensures Holds(next, str[p := s], heads, chains, ids)
  {
    forall b | 0 <= b < |heads|
      ensures Bucket(next, str[p := s], heads[b], chains[b], b, |heads|)
    {
      assert Bucket(next, str, heads[b], chains[b], b, |heads|);
      assert forall k :: 0 <= k < |chains[b]| ==> chains[b][k] in ids;
    }
  }
}
