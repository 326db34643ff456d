/** The loops around the matcher (lstrlib.cpp:453-474, 508-550, 638-676): plain search, leftmost match,
    and global substitution. */
module Substitution {
  import opened Patterns
  import opened Matchers

  // ---------- Plain search ----------

  predicate OccursAt(s1: string, s2: string, i: nat) {
    i + |s2| <= |s1| && s1[i..i + |s2|] == s2
  }

  method MemChr(s: string, c: char, from: nat, n: nat) returns (i: int)
    requires from + n <= |s|
    ensures i == -1 ==> forall k :: from <= k < from + n ==> s[k] != c
    ensures i != -1 ==> from <= i < from + n && s[i] == c && forall k :: from <= k < i ==> s[k] != c
  {
    i := from;
    while i < from + n
      invariant from <= i <= from + n && forall k :: from <= k < i ==> s[k] != c
    {
      if s[i] == c {
        return;
      }
      i := i + 1;
    }
    i := -1;
  }

  /** The first character decides whether the text can occur there at all. */
  lemma OccursFrom(s1: string, s2: string, i: nat)
    requires s2 != []
    ensures OccursAt(s1, s2, i) <==> i + |s2| <= |s1| && s1[i] == s2[0] && s1[i + 1..i + |s2|] == s2[1..]
  {
    if i + |s2| <= |s1| {
      assert s1[i..i + |s2|] == [s1[i]] + s1[i + 1..i + |s2|];
      assert s2 == [s2[0]] + s2[1..];
    }
  }

  /** `lmemfind`: the first place where `s2` occurs in `s1`, or -1. */
  method MemFind(s1: string, s2: string) returns (i: int)
    ensures i == -1 ==> forall k: nat :: !OccursAt(s1, s2, k)
    ensures i != -1 ==> i >= 0 && OccursAt(s1, s2, i) && forall k: nat :: k < i ==> !OccursAt(s1, s2, k)
  {
    if s2 == [] {
      return 0;
    }
    if |s2| > |s1| {
      return -1;
    }
    var l2 := |s2| - 1;
    var from, l1: nat := 0, |s1| - l2;
    while l1 > 0
      invariant from + l1 + l2 == |s1|
      invariant forall k: nat :: k < from ==> !OccursAt(s1, s2, k)
    {
      var init := MemChr(s1, s2[0], from, l1);
      forall k: nat | from <= k < if init == -1 then from + l1 else init
        ensures !OccursAt(s1, s2, k)
      {
        OccursFrom(s1, s2, k);
      }
      if init == -1 {
        return -1;
      }
      OccursFrom(s1, s2, init);
      if s1[init + 1..init + 1 + l2] == s2[1..] {
        return init;
      }
      l1 := l1 - (init + 1 - from);
      from := init + 1;
    }
    return -1;
  }

  // ---------- The leftmost match ----------

  datatype Found = Hit(start: nat, e: nat, caps: seq<Cap>) | Nowhere | Raised

  /** Where an anchored pattern goes on, behind its caret. */
  function Anchor(pat: string): (p: nat)
    ensures p == 1 <==> pat != "" && pat[0] == '^'
    ensures p <= 1
  {
    if At(pat, 0) == '^' then 1 else 0
  }

  /** No start from `from` up to `to`, but not at `to`, can match. */
  ghost predicate NoneBefore(j: Job, from: nat, to: nat) {
    forall k: nat :: from <= k < to ==> Search(j, k, Anchor(j.pat), []) == NoMatch && !Can(j, k, Anchor(j.pat), [])
  }

  /** `str_find_aux` with a pattern, and `str_match`: the leftmost start at which the pattern can match;
      an anchor leaves only the first. */
  method Find(j: Job, init: nat) returns (r: Found)
    requires init <= |j.src|
    ensures r.Hit? ==>
              init <= r.start <= |j.src| && NoneBefore(j, init, r.start) && (Anchor(j.pat) == 1 ==> r.start == init)
    ensures r.Hit? ==> Search(j, r.start, Anchor(j.pat), []) == Matched(r.e, r.caps)
    ensures r.Hit? ==> Derives(j, r.start, Anchor(j.pat), [], r.e, r.caps)
    ensures r.Nowhere? ==> NoneBefore(j, init, 1 + if Anchor(j.pat) == 1 then init else |j.src|)
    ensures r.Raised? ==>
              exists k: nat ::
                init <= k <= |j.src| && NoneBefore(j, init, k) && Search(j, k, Anchor(j.pat), []) == Malformed
  {
    hide InSome;
    var p, s1 := Anchor(j.pat), init;
    var ms := new MatchState(j);
    while true
      invariant init <= s1 <= |j.src| && NoneBefore(j, init, s1) && ms.j == j && (p == 1 ==> s1 == init)
      invariant ms.Valid() && fresh(ms) && fresh(ms.capture)
      decreases |j.src| - s1
    {
      ms.level := 0;
      assert ms.Caps() == [];
      var res := ms.Match(s1, p);
      SearchRight(j, s1, p, []);
      if res.To? {
        return Hit(s1, res.e, ms.capture[..ms.level]);
      }
      if res.Error? {
        return Raised;
      }
      if s1 < |j.src| && p == 0 {
        s1 := s1 + 1;
      } else {
        return Nowhere;
      }
    }
  }

  // ---------- Global substitution ----------

  /** What one turn of the loop puts into the buffer: a replacement for what was matched, or a character
      of the subject. */
  datatype Piece = Put(s: nat, e: nat, caps: seq<Cap>) | Kept(c: char)

  /** The part of the subject that the pieces come from. */
  function Text(src: string, pieces: seq<Piece>): string {
    if pieces == [] then []
    else
      var last := pieces[|pieces| - 1];
      Text(src, pieces[..|pieces| - 1]) + if last.Kept? then [last.c]
          else if last.s <= last.e <= |src| then src[last.s..last.e] else []
  }

  function Rendered(pieces: seq<Piece>, value: (nat, nat, seq<Cap>) -> string): string {
    if pieces == [] then []
    else
      var last := pieces[|pieces| - 1];
      Rendered(pieces[..|pieces| - 1], value) + if last.Kept? then [last.c] else value(last.s, last.e, last.caps)
  }

  function Puts(pieces: seq<Piece>): nat {
    if pieces == [] then 0 else Puts(pieces[..|pieces| - 1]) + if pieces[|pieces| - 1].Put? then 1 else 0
  }

  /** The pieces end with an empty match at `q`. */
  predicate EmptyAt(pieces: seq<Piece>, q: nat) {
    pieces != [] && var last := pieces[|pieces| - 1]; last.Put? && last.s == last.e == q
  }

  /** Where no match is put, there is none, or an empty one was put just before. */
  ghost predicate Passed(j: Job, before: seq<Piece>, q: nat) {
    EmptyAt(before, q) || Search(j, q, Anchor(j.pat), []) == NoMatch
  }

  /** Each piece starts where the ones before it end: a replacement for what the matcher finds there, but
      not twice for the same empty match; a character only where the matcher was given its chance. */
  ghost predicate Follows(j: Job, before: seq<Piece>, piece: Piece) {
    var q := |Text(j.src, before)|;
    match piece
    case Put(s, e, caps) => s == q && s <= e <= |j.src| && !EmptyAt(before, q) &&
        Search(j, s, Anchor(j.pat), []) == Matched(e, caps)
    case Kept(c) => q < |j.src| && j.src[q] == c && Passed(j, before, q)
  }

  ghost predicate Pieces(j: Job, pieces: seq<Piece>) {
    forall i :: 0 <= i < |pieces| ==> Follows(j, pieces[..i], pieces[i])
  }

  lemma PieceAdded(j: Job, pieces: seq<Piece>, piece: Piece)
    requires Pieces(j, pieces) && Follows(j, pieces, piece)
    ensures Pieces(j, pieces + [piece])
  {
    var all := pieces + [piece];
    forall i | 0 <= i < |all|
      ensures Follows(j, all[..i], all[i])
    {
      assert all[..i] == pieces[..i];
      assert i == |pieces| ==> pieces[..i] == pieces;
    }
  }

  lemma OneMorePiece(src: string, pieces: seq<Piece>, piece: Piece, value: (nat, nat, seq<Cap>) -> string)
    ensures Text(src, pieces + [piece]) == Text(src, pieces) +
            (if piece.Kept? then [piece.c] else if piece.s <= piece.e <= |src| then src[piece.s..piece.e] else [])
    ensures Rendered(pieces + [piece], value) == Rendered(pieces, value) + if piece.Kept? then [piece.c]
            else value(piece.s, piece.e, piece.caps)
    ensures Puts(pieces + [piece]) == Puts(pieces) + if piece.Put? then 1 else 0
  {
    assert (pieces + [piece])[..|pieces|] == pieces;
  }

  /** The subject is taken up to `s`, with `n` replacements, and the buffer holds what the pieces say. */
  ghost predicate Progress(j: Job, value: (nat, nat, seq<Cap>) -> string, pieces: seq<Piece>, s: nat, n: nat,
                           out: string) {
    && |Text(j.src, pieces)| == s <= |j.src| && Text(j.src, pieces) == j.src[..s]
    && Pieces(j, pieces) && n == Puts(pieces) && out == Rendered(pieces, value)
  }

  lemma PutAdded(j: Job, value: (nat, nat, seq<Cap>) -> string, pieces: seq<Piece>, s: nat, n: nat, out: string, e: nat,
                 caps: seq<Cap>)
    requires Progress(j, value, pieces, s, n, out) && !EmptyAt(pieces, s) &&
             Search(j, s, Anchor(j.pat), []) == Matched(e, caps)
    ensures s <= e <= |j.src| && Progress(j, value, pieces + [Put(s, e, caps)], e, n + 1, out + value(s, e, caps))
    ensures EmptyAt(pieces + [Put(s, e, caps)], e) <==> e == s
  {
    hide Search, Pieces;
    ForwardOnly(j, s, Anchor(j.pat), []);
    PieceAdded(j, pieces, Put(s, e, caps));
    OneMorePiece(j.src, pieces, Put(s, e, caps), value);
  }

  lemma KeptAdded(j: Job, value: (nat, nat, seq<Cap>) -> string, pieces: seq<Piece>, s: nat, n: nat, out: string)
    requires Progress(j, value, pieces, s, n, out) && s < |j.src| && Passed(j, pieces, s)
    ensures Progress(j, value, pieces + [Kept(j.src[s])], s + 1, n, out + [j.src[s]])
    ensures !EmptyAt(pieces + [Kept(j.src[s])], s + 1)
  {
    hide Search, Pieces;
    PieceAdded(j, pieces, Kept(j.src[s]));
    OneMorePiece(j.src, pieces, Kept(j.src[s]), value);
  }

  // ---------- The pieces are determined ----------

  /** The loop makes one more turn when the buffer holds `pieces`: the limit is not reached, and an anchored
      pattern has had no turn yet. */
  ghost predicate TurnAfter(j: Job, pieces: seq<Piece>, max: int) {
    Pieces(j, pieces) && Puts(pieces) < max && |Text(j.src, pieces)| <= |j.src| && (Anchor(j.pat) == 1 ==> pieces == [])
  }

  /** Some turn gives a pattern that raises an error to the matcher. */
  ghost predicate Raises(j: Job, max: int) {
    exists pieces :: TurnAfter(j, pieces, max) &&
      Search(j, |Text(j.src, pieces)|, Anchor(j.pat), []) == Malformed
  }

  lemma OneFollows(j: Job, before: seq<Piece>, a: Piece, b: Piece)
    requires Follows(j, before, a) && Follows(j, before, b)
    ensures a == b
  {
    hide Search, Text;
  }

  /** An empty match was found where it is. */
  lemma EmptyMatched(j: Job, pieces: seq<Piece>, q: nat)
    requires Pieces(j, pieces) && EmptyAt(pieces, q)
    ensures Search(j, q, Anchor(j.pat), []).Matched?
  {
    hide Search, Text;
    assert Follows(j, pieces[..|pieces| - 1], pieces[|pieces| - 1]);
  }

  lemma {:induction false} PutsGrow(pieces: seq<Piece>, n: nat)
    requires n <= |pieces|
    ensures Puts(pieces[..n]) <= Puts(pieces)
    decreases |pieces|
  {
    if n < |pieces| {
      PutsGrow(pieces[..|pieces| - 1], n);
      assert pieces[..|pieces| - 1][..n] == pieces[..n];
    } else {
      assert pieces[..n] == pieces;
    }
  }

  /** The pieces of one run begin those of any other. */
  lemma {:induction false} OneBegins(j: Job, a: seq<Piece>, b: seq<Piece>, n: nat)
    requires Pieces(j, a) && Pieces(j, b) && n <= |a| && n <= |b|
    ensures a[..n] == b[..n]
  {
    hide Follows;
    if n > 0 {
      OneBegins(j, a, b, n - 1);
      OneFollows(j, a[..n - 1], a[n - 1], b[n - 1]);
      assert a[..n] == a[..n - 1] + [a[n - 1]] && b[..n] == b[..n - 1] + [b[n - 1]];
    }
  }

  /** Where an error is raised, nothing follows. */
  lemma NoneAfterError(j: Job, a: seq<Piece>, b: seq<Piece>)
    requires Pieces(j, a) && Pieces(j, b) && |a| < |b|
    ensures Search(j, |Text(j.src, a)|, Anchor(j.pat), []) != Malformed
  {
    hide Search, Text;
    OneBegins(j, a, b, |a|);
    assert a[..|a|] == a && Follows(j, b[..|a|], b[|a|]);
    if EmptyAt(a, |Text(j.src, a)|) {
      EmptyMatched(j, a, |Text(j.src, a)|);
    }
  }

  /** A run that came to its end raises no error, anywhere. */
  lemma NothingRaised(j: Job, pieces: seq<Piece>, max: int)
    requires Pieces(j, pieces) && |Text(j.src, pieces)| <= |j.src|
    requires || Puts(pieces) >= max || (Anchor(j.pat) == 1 && pieces != [])
             || (|Text(j.src, pieces)| == |j.src| && Passed(j, pieces, |j.src|))
    ensures !Raises(j, max)
  {
    hide Search, Text, Follows;
    forall a | TurnAfter(j, a, max)
      ensures Search(j, |Text(j.src, a)|, Anchor(j.pat), []) != Malformed
    {
      if |a| < |pieces| {
        NoneAfterError(j, a, pieces);
      } else {
        OneBegins(j, a, pieces, |pieces|);
        assert pieces[..|pieces|] == pieces;
        PutsGrow(a, |pieces|);
        AtEnd(j, pieces, a);
      }
    }
  }

  /** Nothing comes after the end of the subject. */
  lemma NoneAtEnd(j: Job, before: seq<Piece>, piece: Piece)
    requires Pieces(j, before) && Follows(j, before, piece) && |Text(j.src, before)| == |j.src|
    ensures !Passed(j, before, |j.src|)
  {
    hide Search, Text;
  }

  lemma AtEnd(j: Job, pieces: seq<Piece>, a: seq<Piece>)
    requires Pieces(j, pieces) && Pieces(j, a) && |pieces| <= |a| && a[..|pieces|] == pieces
    requires |Text(j.src, pieces)| == |j.src| && Passed(j, pieces, |j.src|)
    ensures a == pieces && Search(j, |j.src|, Anchor(j.pat), []) != Malformed
  {
    if EmptyAt(pieces, |j.src|) {
      EmptyMatched(j, pieces, |j.src|);
    }
    hide Search, Text, Follows, EmptyAt;
    if |pieces| < |a| {
      hide Passed;
      NoneAtEnd(j, pieces, a[|pieces|]);
    }
    assert a[..|a|] == a;
  }

  // ---------- The loop ----------

  /** What an anchored pattern does with the subject: one match at its start, or none. */
  ghost predicate AnchoredRight(j: Job, value: (nat, nat, seq<Cap>) -> string, max: int, out: string, n: int) {
    var r := Search(j, 0, 1, []);
    if max > 0 && r.Matched? then r.e <= |j.src| && n == 1 && out == value(0, r.e, r.caps) + j.src[r.e..]
    else n == 0 && out == j.src
  }

  /** After the one turn: what was found is in the buffer, and a character if nothing or nothing long was. */
  lemma AnchoredTurn(j: Job, value: (nat, nat, seq<Cap>) -> string, max: int, s: nat, n: nat, out: string)
    requires max > 0 && s <= |j.src|
    requires var r := Search(j, 0, 1, []);
             && (r.Matched? ==> r.e <= |j.src|) && n == (if r.Matched? then 1 else 0)
             && var put := if r.Matched? then value(0, r.e, r.caps) else [];
                if (r.Matched? && r.e > 0) || j.src == [] then s == (if r.Matched? then r.e else 0) && out == put
                else s == 1 && out == put + [j.src[0]]
    ensures AnchoredRight(j, value, max, out + j.src[s..], n)
  {
    hide Search;
    var r := Search(j, 0, 1, []);
    if j.src != [] {
      assert [j.src[0]] + j.src[1..] == j.src == j.src[0..];
      if r.Matched? && r.e == 0 {
        assert value(0, 0, r.caps) + [j.src[0]] + j.src[1..] == value(0, 0, r.caps) + j.src[0..];
      }
    }
  }

  lemma NoTurn(j: Job, value: (nat, nat, seq<Cap>) -> string, max: int)
    requires max <= 0
    ensures AnchoredRight(j, value, max, [] + j.src[0..], 0)
  {
    hide Search;
  }

  /** `str_gsub`. The pieces tile the subject from its start; the rest is copied. Short of the limit, and
      without an anchor, no place where the pattern matches is passed over; with an anchor, the start is the
      only place. An error is raised exactly if some turn meets one. */
  method Gsub(j: Job, value: (nat, nat, seq<Cap>) -> string, max: int)
    returns (out: string, n: nat, raised: bool, ghost pieces: seq<Piece>)
    ensures Pieces(j, pieces) && n == Puts(pieces) && |Text(j.src, pieces)| <= |j.src|
    ensures Text(j.src, pieces) == j.src[..|Text(j.src, pieces)|]
    ensures !raised ==> out == Rendered(pieces, value) + j.src[|Text(j.src, pieces)|..]
    ensures n <= if max < 0 then 0 else max
    ensures !raised && n < max && Anchor(j.pat) == 0 ==> |Text(j.src, pieces)| == |j.src| && Passed(j, pieces, |j.src|)
    ensures !raised && Anchor(j.pat) == 1 ==> |pieces| <= 2 && AnchoredRight(j, value, max, out, n)
    ensures raised ==> Search(j, |Text(j.src, pieces)|, Anchor(j.pat), []) == Malformed
    ensures raised <==> Raises(j, max)
  {
    hide Search, Follows, Raises, AnchoredRight, Passed, TurnAfter;
    var s := 0;
    var ms := new MatchState(j);
    out, n, raised, pieces := [], 0, false, [];
    assert Progress(j, value, pieces, s, n, out);
    hide Pieces, Text, Rendered, Puts;
    var more := true;
    if max <= 0 {
      NoTurn(j, value, max);
    }
    while n < max && more
      invariant Progress(j, value, pieces, s, n, out) && n <= if max < 0 then 0 else max
      invariant s <= |j.src| && ms.Valid() && fresh(ms) && fresh(ms.capture) && ms.j == j && !raised
      invariant more ==> Going(j, pieces, s, n, out)
      invariant !more || max <= 0 ==> Stopped(j, value, max, pieces, s, n, out)
      decreases more, |j.src| - s
    {
      s, n, out, raised, more, pieces := Turn(ms, j, value, max, s, n, out, pieces);
      if raised {
        return;
      }
    }
    Ended(j, value, pieces, s, n, out, max);
    out := out + j.src[s..];
  }

  /** The loop may go on: an anchored pattern has had no turn yet. */
  ghost predicate Going(j: Job, pieces: seq<Piece>, s: nat, n: nat, out: string) {
    !EmptyAt(pieces, s) && (Anchor(j.pat) == 1 ==> pieces == [] && n == 0 && s == 0 && out == [])
  }

  /** The loop has been left by a `break`, or has made no turn. */
  ghost predicate Stopped(j: Job, value: (nat, nat, seq<Cap>) -> string, max: int, pieces: seq<Piece>, s: nat, n: nat,
                          out: string) {
    && s <= |j.src| && (max <= 0 || Anchor(j.pat) == 1 || (s == |j.src| && Passed(j, pieces, s)))
    && (max > 0 && Anchor(j.pat) == 1 ==> pieces != [] || (s == |j.src| && Passed(j, pieces, s)))
    && (Anchor(j.pat) == 1 ==> |pieces| <= 2 && AnchoredRight(j, value, max, out + j.src[s..], n))
  }

  /** One turn of the loop; `more` is false after a `break`. */
  method Turn(ms: MatchState, j: Job, value: (nat, nat, seq<Cap>) -> string, max: int, s0: nat, n0: nat, out0: string,
              ghost before: seq<Piece>)
    returns (s: nat, n: nat, out: string, raised: bool, more: bool, ghost pieces: seq<Piece>)
    requires Progress(j, value, before, s0, n0, out0) && n0 < max && Going(j, before, s0, n0, out0)
    requires s0 <= |j.src| && ms.Valid() && ms.j == j
    modifies ms, ms.capture
    ensures ms.Valid()
    ensures Progress(j, value, pieces, s, n, out) && n0 <= n <= n0 + 1 && s0 <= s <= |j.src|
    ensures raised ==> Search(j, s, Anchor(j.pat), []) == Malformed && Raises(j, max) && pieces == before
    ensures !raised && more ==> Going(j, pieces, s, n, out) && s0 < s
    ensures !raised && !more ==> Stopped(j, value, max, pieces, s, n, out)
  {
    hide Search, Follows, Raises, AnchoredRight, Pieces, Text, Rendered, Puts;
    var p := Anchor(j.pat);
    s, n, out, raised, more, pieces := s0, n0, out0, false, true, before;
    ms.level := 0;
    assert ms.Caps() == [];
    var e := ms.Match(s, p);
    if e == Error {
      raised := true;
      RaisedHere(j, value, pieces, s, n, out, max);
      return;
    }
    if e.To? {
      var caps := ms.capture[..ms.level];
      PutAdded(j, value, pieces, s, n, out, e.e, caps);
      n := n + 1;
      out := out + value(s, e.e, caps);
      pieces := pieces + [Put(s, e.e, caps)];
    }
    if e.To? && e.e > s {
      s := e.e;
    } else if s < |j.src| {
      KeptAdded(j, value, pieces, s, n, out);
      out := out + [j.src[s]];
      pieces := pieces + [Kept(j.src[s])];
      s := s + 1;
    } else {
      more := false;
    }
    if p == 1 {
      AnchoredTurn(j, value, max, s, n, out);
      more := false;
    }
  }

  lemma RaisedHere(j: Job, value: (nat, nat, seq<Cap>) -> string, pieces: seq<Piece>, s: nat, n: nat, out: string,
                   max: int)
    requires Progress(j, value, pieces, s, n, out) && n < max && (Anchor(j.pat) == 1 ==> pieces == [])
    requires Search(j, s, Anchor(j.pat), []) == Malformed
    ensures Raises(j, max)
  {
    hide Search, Pieces, Text, Puts, Rendered;
    assert TurnAfter(j, pieces, max);
  }

  lemma Ended(j: Job, value: (nat, nat, seq<Cap>) -> string, pieces: seq<Piece>, s: nat, n: nat, out: string, max: int)
    requires Progress(j, value, pieces, s, n, out)
    requires n >= max || (Anchor(j.pat) == 1 && pieces != []) || (s == |j.src| && Passed(j, pieces, s))
    ensures !Raises(j, max)
  {
    hide Search, Pieces, Text, Puts, Rendered, Raises;
    NothingRaised(j, pieces, max);
  }

  /** Replacing every match by itself gives the subject back. */
  lemma {:induction false} ReplacedByItself(j: Job, pieces: seq<Piece>, value: (nat, nat, seq<Cap>) -> string)
    requires Pieces(j, pieces)
    requires forall s: nat, e: nat, caps :: s <= e <= |j.src| ==> value(s, e, caps) == j.src[s..e]
    ensures Rendered(pieces, value) == Text(j.src, pieces)
  {
    if pieces != [] {
      var before := pieces[..|pieces| - 1];
      assert forall i :: 0 <= i < |before| ==> before[..i] == pieces[..i];
      ReplacedByItself(j, before, value);
    }
  }

  /** A match never ends before it starts, and stays inside the subject. */
  lemma {:induction false} ForwardOnly(j: Job, s: nat, p: nat, caps: seq<Cap>)
    requires s <= |j.src|
    ensures Search(j, s, p, caps).Matched? ==> s <= Search(j, s, p, caps).e <= |j.src|
    decreases |j.pat| - p, 1, 0
  {
    hide MatchClass, Items, InSome, InSet, Single, Derives, Repeats, SetEnd;
    var c, d := At(j.pat, p), At(j.pat, p + 1);
    if c == '\0' || (c == '$' && d == '\0') {
    } else if c == '(' && |caps| < LUA_MAXCAPTURES {
      ForwardOnly(j, s, p + 2, caps + [Cap(s, CAP_POSITION)]);
      ForwardOnly(j, s, p + 1, caps + [Cap(s, CAP_UNFINISHED)]);
    } else if c == ')' && ToClose(caps) >= 0 {
      ForwardOnly(j, s, p + 1, CloseCap(caps, s));
    } else if c == L_ESC && d == 'b' {
      var r := BalanceEnd(j.src, s + 1, At(j.pat, p + 2), At(j.pat, p + 3), 1);
      if r >= 0 && At(j.pat, p + 2) != '\0' && At(j.pat, p + 3) != '\0' {
        ForwardOnly(j, r, p + 4, caps);
      }
    } else if c == L_ESC && d == 'f' {
      if At(j.pat, p + 2) == '[' && ClassEnd(j.pat, p + 2) >= 0 {
        ForwardOnly(j, s, ClassEnd(j.pat, p + 2), caps);
      }
    } else if c == L_ESC && IsDigit(d) {
      var l := CaptureIndex(caps, d);
      if l >= 0 && BackEnd(j.src, s, caps[l]) >= 0 {
        ForwardOnly(j, BackEnd(j.src, s, caps[l]), p + 2, caps);
      }
    } else if c != '(' && c != ')' && ClassEnd(j.pat, p) >= 0 {
      ItemForward(j, s, p, ClassEnd(j.pat, p), caps);
    }
  }

  lemma {:induction false} ItemForward(j: Job, s: nat, p: nat, ep: nat, caps: seq<Cap>)
    requires s <= |j.src| && p < ep <= |j.pat|
    ensures SearchItem(j, s, p, ep, caps).Matched? ==> s <= SearchItem(j, s, p, ep, caps).e <= |j.src|
    decreases |j.pat| - p, 0, 0
  {
    if SingleAt(j, s, p, ep) {
      ForwardOnly(j, s + 1, ep + 1, caps);
      ForwardOnly(j, s + 1, ep, caps);
      MaxForward(j, s + 1, RunEnd(j, s + 1, p, ep), ep + 1, caps);
    }
    ForwardOnly(j, s, ep + 1, caps);
    MaxForward(j, s, RunEnd(j, s, p, ep), ep + 1, caps);
    MinForward(j, s, p, ep, caps);
  }

  lemma {:induction false} MaxForward(j: Job, s: nat, x: nat, p: nat, caps: seq<Cap>)
    requires s <= x <= |j.src|
    ensures MaxExpand(j, s, x, p, caps).Matched? ==> s <= MaxExpand(j, s, x, p, caps).e <= |j.src|
    decreases |j.pat| - p, 2, x
  {
    ForwardOnly(j, x, p, caps);
    if x > s {
      MaxForward(j, s, x - 1, p, caps);
    }
  }

  lemma {:induction false} MinForward(j: Job, s: nat, p: nat, ep: nat, caps: seq<Cap>)
    requires s <= |j.src| && ep <= |j.pat|
    ensures MinExpand(j, s, p, ep, caps).Matched? ==> s <= MinExpand(j, s, p, ep, caps).e <= |j.src|
    decreases |j.pat| - ep, 2, |j.src| - s
  {
    ForwardOnly(j, s, ep + 1, caps);
    if SingleAt(j, s, p, ep) {
      MinForward(j, s + 1, p, ep, caps);
    }
  }
}
