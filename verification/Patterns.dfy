/** Lua patterns (lstrlib.cpp; section 5.4.1 of the Lua 5.1 Reference Manual): what a pattern means,
    and the search that the matcher makes. Patterns are C strings: a zero ends them. */
module Patterns {

  const L_ESC := '%'
  const LUA_MAXCAPTURES: nat := 32
  const CAP_UNFINISHED := -1
  const CAP_POSITION := -2

  datatype Cap = Cap(init: nat, len: int)

  /** A subject, a pattern, and the character classes of the C locale. */
  datatype Job = Job(src: string, pat: string, isClass: (char, char) -> bool)

  function At(s: string, i: int): char {
    if 0 <= i < |s| then s[i] else '\0'
  }

  // ---------- One character ----------

  const CLASSES := "acdlpsuwxz"

  predicate IsUpper(c: char) {
    'A' <= c <= 'Z'
  }

  function ToLower(c: char): char {
    if IsUpper(c) then (c as int + 32) as char else c
  }

  /** `match_class`: a letter stands for a class, in upper case for its complement. */
  predicate MatchClass(j: Job, c: char, cl: char) {
    if ToLower(cl) in CLASSES then
      (if ToLower(cl) == 'z' then c == '\0' else j.isClass(ToLower(cl), c)) == !IsUpper(cl)
    else cl == c
  }

  /** What one element of a set in brackets stands for. */
  datatype Item = Class(cl: char) | Range(lo: char, hi: char)

  predicate InItem(j: Job, c: char, i: Item) {
    match i
    case Class(cl) => MatchClass(j, c, cl)
    case Range(lo, hi) => lo <= c <= hi
  }

  /** The elements of the set between `p` and its closing bracket at `ec`. */
  function Items(pat: string, p: nat, ec: nat): seq<Item>
    decreases if p < ec then ec - p else 0
  {
    if p >= ec then []
    else if At(pat, p) == L_ESC then [Class(At(pat, p + 1))] + Items(pat, p + 2, ec)
    else if At(pat, p + 1) == '-' && p + 2 < ec then [Range(At(pat, p), At(pat, p + 2))] + Items(pat, p + 3, ec)
    else [Range(At(pat, p), At(pat, p))] + Items(pat, p + 1, ec)
  }

  ghost predicate InSome(j: Job, c: char, items: seq<Item>) {
    exists k :: 0 <= k < |items| && InItem(j, c, items[k])
  }

  /** The set that starts with the bracket at `p` contains `c`. */
  ghost predicate InSet(j: Job, c: char, p: nat, ec: nat) {
    if At(j.pat, p + 1) == '^' then !InSome(j, c, Items(j.pat, p + 2, ec)) else InSome(j, c, Items(j.pat, p + 1, ec))
  }

  /** `singlematch`, for the item at `p` that ends before `ep`. */
  ghost predicate Single(j: Job, c: char, p: nat, ep: nat) {
    match At(j.pat, p)
    case '.' => true
    case '%' => MatchClass(j, c, At(j.pat, p + 1))
    case '[' => ep >= 1 && InSet(j, c, p, ep - 1)
    case x => x == c
  }

  ghost predicate SingleAt(j: Job, s: nat, p: nat, ep: nat) {
    s < |j.src| && Single(j, j.src[s], p, ep)
  }

  // ---------- Where an item ends ----------

  /** Where the set whose elements start at `p` ends: at the first closing bracket after the first
      element; -1 if there is none. */
  function SetEnd(pat: string, p: nat): (e: int)
    ensures e == -1 || p < e <= |pat|
    decreases |pat| - p
  {
    if At(pat, p) == '\0' then -1
    else
      var q := if At(pat, p) == L_ESC && At(pat, p + 1) != '\0' then p + 2 else p + 1;
      if At(pat, q) == ']' then q + 1 else SetEnd(pat, q)
  }

  /** `classend`: where the item at `p` ends; -1 if the pattern is malformed. */
  function ClassEnd(pat: string, p: nat): (e: int)
    requires At(pat, p) != '\0'
    ensures e == -1 || p < e <= |pat|
  {
    match At(pat, p)
    case '%' => if At(pat, p + 1) == '\0' then -1 else p + 2
    case '[' => SetEnd(pat, if At(pat, p + 1) == '^' then p + 2 else p + 1)
    case _ => p + 1
  }

  // ---------- Balance, frontier, back references ----------

  /** `matchbalance` after its first character: where the `open`s still count, the end of the string
      that starts at `s`; -1 if there is none. */
  function BalanceEnd(src: string, s: nat, b: char, e: char, open: nat): (r: int)
    ensures r == -1 || s < r <= |src|
    decreases |src| - s
  {
    if s >= |src| then -1
    else if src[s] == e then (if open == 1 then s + 1 else if open == 0 then -1
                              else BalanceEnd(src, s + 1, b, e, open - 1))
    else if src[s] == b then BalanceEnd(src, s + 1, b, e, open + 1)
    else BalanceEnd(src, s + 1, b, e, open)
  }

  ghost predicate AtFrontier(j: Job, s: nat, p: nat, ep: nat) {
    ep >= 1 && !InSet(j, if s == 0 then '\0' else At(j.src, s - 1), p, ep - 1) && InSet(j, At(j.src, s), p, ep - 1)
  }

  predicate IsDigit(c: char) {
    '0' <= c <= '9'
  }

  /** The capture a digit names, or -1 if it is not a finished one. */
  function CaptureIndex(caps: seq<Cap>, d: char): (l: int)
    ensures l == -1 || 0 <= l < |caps|
  {
    var l := d as int - '1' as int;
    if l < 0 || l >= |caps| || caps[l].len == CAP_UNFINISHED then -1 else l
  }

  /** Where a copy of the capture ends at `s`, or -1. A position capture has no text: its length
      counts as a huge unsigned number. */
  function BackEnd(src: string, s: nat, cap: Cap): (e: int)
    ensures e == -1 || s <= e <= |src|
  {
    if 0 <= cap.len && s + cap.len <= |src| && cap.init + cap.len <= |src| &&
       src[s..s + cap.len] == src[cap.init..cap.init + cap.len]
    then s + cap.len else -1
  }

  /** `capture_to_close`: the last unfinished capture, or -1. */
  function ToClose(caps: seq<Cap>): (l: int)
    ensures l == -1 || (0 <= l < |caps| && caps[l].len == CAP_UNFINISHED)
    decreases |caps|
  {
    if caps == [] then -1
    else if caps[|caps| - 1].len == CAP_UNFINISHED then |caps| - 1
    else ToClose(caps[..|caps| - 1])
  }

  function CloseCap(caps: seq<Cap>, s: nat): seq<Cap>
    requires ToClose(caps) >= 0
  {
    var l := ToClose(caps);
    caps[l := Cap(caps[l].init, s - caps[l].init)]
  }

  // ---------- What a pattern means ----------

  /** The characters from `s` up to `x` all match the item. */
  ghost predicate Repeats(j: Job, s: nat, x: nat, p: nat, ep: nat) {
    s <= x && forall k: nat :: s <= k < x ==> SingleAt(j, k, p, ep)
  }

  /** From `p` on, the pattern can match the subject from `s` up to `e`, with the captures `caps`
      becoming `caps'`. Nothing says which of several ways is taken. */
  ghost predicate Derives(j: Job, s: nat, p: nat, caps: seq<Cap>, e: nat, caps': seq<Cap>)
    decreases |j.pat| - p
  {
    var c, d := At(j.pat, p), At(j.pat, p + 1);
    if c == '\0' then e == s && caps' == caps
    else if c == '(' then
      |caps| < LUA_MAXCAPTURES &&
      (if d == ')' then Derives(j, s, p + 2, caps + [Cap(s, CAP_POSITION)], e, caps')
       else Derives(j, s, p + 1, caps + [Cap(s, CAP_UNFINISHED)], e, caps'))
    else if c == ')' then ToClose(caps) >= 0 && Derives(j, s, p + 1, CloseCap(caps, s), e, caps')
    else if c == L_ESC && d == 'b' then
      && At(j.pat, p + 2) != '\0' && At(j.pat, p + 3) != '\0' && At(j.src, s) == At(j.pat, p + 2)
      && var r := BalanceEnd(j.src, s + 1, At(j.pat, p + 2), At(j.pat, p + 3), 1);
           r >= 0 && Derives(j, r, p + 4, caps, e, caps')
    else if c == L_ESC && d == 'f' then
      && At(j.pat, p + 2) == '['
      && var ep := ClassEnd(j.pat, p + 2); ep >= 0 && AtFrontier(j, s, p + 2, ep) && Derives(j, s, ep, caps, e, caps')
    else if c == L_ESC && IsDigit(d) then
      var l := CaptureIndex(caps, d);
      l >= 0 && var r := BackEnd(j.src, s, caps[l]); r >= 0 && Derives(j, r, p + 2, caps, e, caps')
    else if c == '$' && d == '\0' then s == |j.src| && e == s && caps' == caps
    else
      var ep := ClassEnd(j.pat, p);
      ep >= 0 &&
      match At(j.pat, ep)
      case '?' => (SingleAt(j, s, p, ep) && Derives(j, s + 1, ep + 1, caps, e, caps')) ||
          Derives(j, s, ep + 1, caps, e, caps')
      case '*' => exists x: nat :: Repeats(j, s, x, p, ep) && Derives(j, x, ep + 1, caps, e, caps')
      case '+' => exists x: nat :: x > s && Repeats(j, s, x, p, ep) && Derives(j, x, ep + 1, caps, e, caps')
      case '-' => exists x: nat :: Repeats(j, s, x, p, ep) && Derives(j, x, ep + 1, caps, e, caps')
      case _ => SingleAt(j, s, p, ep) && Derives(j, s + 1, ep, caps, e, caps')
  }

  // ---------- The search ----------

  /** `Malformed` stands for the errors that `match` raises. */
  datatype Outcome = Matched(e: nat, caps: seq<Cap>) | NoMatch | Malformed

  /** Where the characters that match the item end. */
  ghost function RunEnd(j: Job, s: nat, p: nat, ep: nat): (x: nat)
    ensures s <= x && Repeats(j, s, x, p, ep) && !SingleAt(j, x, p, ep) && (s <= |j.src| ==> x <= |j.src|)
    decreases |j.src| - s
  {
    if SingleAt(j, s, p, ep) then RunEnd(j, s + 1, p, ep) else s
  }

  /** `match`. */
  ghost function Search(j: Job, s: nat, p: nat, caps: seq<Cap>): Outcome
    decreases |j.pat| - p, 1, 0
  {
    var c, d := At(j.pat, p), At(j.pat, p + 1);
    if c == '\0' then Matched(s, caps)
    else if c == '(' then
      if |caps| >= LUA_MAXCAPTURES then Malformed
      else if d == ')' then Search(j, s, p + 2, caps + [Cap(s, CAP_POSITION)])
      else Search(j, s, p + 1, caps + [Cap(s, CAP_UNFINISHED)])
    else if c == ')' then
      if ToClose(caps) < 0 then Malformed else Search(j, s, p + 1, CloseCap(caps, s))
    else if c == L_ESC && d == 'b' then
      if At(j.pat, p + 2) == '\0' || At(j.pat, p + 3) == '\0' then Malformed
      else if At(j.src, s) != At(j.pat, p + 2) then NoMatch
      else
        var r := BalanceEnd(j.src, s + 1, At(j.pat, p + 2), At(j.pat, p + 3), 1);
        if r < 0 then NoMatch else Search(j, r, p + 4, caps)
    else if c == L_ESC && d == 'f' then
      if At(j.pat, p + 2) != '[' then Malformed
      else
        var ep := ClassEnd(j.pat, p + 2);
        if ep < 0 then Malformed
        else if !AtFrontier(j, s, p + 2, ep) then NoMatch
        else Search(j, s, ep, caps)
    else if c == L_ESC && IsDigit(d) then
      var l := CaptureIndex(caps, d);
      if l < 0 then Malformed
      else
        var r := BackEnd(j.src, s, caps[l]);
        if r < 0 then NoMatch else Search(j, r, p + 2, caps)
    else if c == '$' && d == '\0' then
      if s == |j.src| then Matched(s, caps) else NoMatch
    else
      var ep := ClassEnd(j.pat, p);
      if ep < 0 then Malformed else SearchItem(j, s, p, ep, caps)
  }

  /** A single-character item with what follows it. */
  ghost function SearchItem(j: Job, s: nat, p: nat, ep: nat, caps: seq<Cap>): Outcome
    requires p < ep <= |j.pat|
    decreases |j.pat| - p, 0, 0
  {
    match At(j.pat, ep)
    case '?' =>
      var r := if SingleAt(j, s, p, ep) then Search(j, s + 1, ep + 1, caps) else NoMatch;
      if r != NoMatch then r else Search(j, s, ep + 1, caps)
    case '*' => MaxExpand(j, s, RunEnd(j, s, p, ep), ep + 1, caps)
    case '+' => if SingleAt(j, s, p, ep) then MaxExpand(j, s + 1, RunEnd(j, s + 1, p, ep), ep + 1, caps) else NoMatch
    case '-' => MinExpand(j, s, p, ep, caps)
    case _ => if SingleAt(j, s, p, ep) then Search(j, s + 1, ep, caps) else NoMatch
  }

  /** `max_expand`: the longest repetition first; it may end anywhere from `s` to `x`. */
  ghost function MaxExpand(j: Job, s: nat, x: nat, p: nat, caps: seq<Cap>): Outcome
    decreases |j.pat| - p, 2, x
  {
    var r := Search(j, x, p, caps);
    if r == NoMatch && x > s then MaxExpand(j, s, x - 1, p, caps) else r
  }

  /** `min_expand`: the shortest repetition first. */
  ghost function MinExpand(j: Job, s: nat, p: nat, ep: nat, caps: seq<Cap>): Outcome
    requires ep <= |j.pat|
    decreases |j.pat| - ep, 2, if s <= |j.src| then |j.src| - s else 0
  {
    var r := Search(j, s, ep + 1, caps);
    if r != NoMatch then r
    else if SingleAt(j, s, p, ep) then MinExpand(j, s + 1, p, ep, caps)
    else NoMatch
  }

  // ---------- Soundness and completeness ----------

  /** The outcome is right: a match is a derivation, and without a match there is none. */
  ghost predicate Right(j: Job, s: nat, p: nat, caps: seq<Cap>, r: Outcome) {
    match r
    case Matched(e, caps') => Derives(j, s, p, caps, e, caps')
    case NoMatch => forall e, caps' :: !Derives(j, s, p, caps, e, caps')
    case Malformed => true
  }

  lemma {:induction false} SearchRight(j: Job, s: nat, p: nat, caps: seq<Cap>)
    ensures Right(j, s, p, caps, Search(j, s, p, caps))
    decreases |j.pat| - p, 1, 0
  {
    var c, d := At(j.pat, p), At(j.pat, p + 1);
    if c == '\0' {
    } else if c == '(' {
      if |caps| < LUA_MAXCAPTURES {
        if d == ')' {
          SearchRight(j, s, p + 2, caps + [Cap(s, CAP_POSITION)]);
        } else {
          SearchRight(j, s, p + 1, caps + [Cap(s, CAP_UNFINISHED)]);
        }
      }
    } else if c == ')' {
      if ToClose(caps) >= 0 {
        SearchRight(j, s, p + 1, CloseCap(caps, s));
      }
    } else if c == L_ESC && (d == 'b' || d == 'f' || IsDigit(d)) {
      EscapeRight(j, s, p, caps);
    } else if c == '$' && d == '\0' {
    } else {
      var ep := ClassEnd(j.pat, p);
      if ep >= 0 {
        ItemRight(j, s, p, ep, caps);
      }
    }
  }

  lemma {:induction false} EscapeRight(j: Job, s: nat, p: nat, caps: seq<Cap>)
    requires At(j.pat, p) == L_ESC && (At(j.pat, p + 1) == 'b' || At(j.pat, p + 1) == 'f' || IsDigit(At(j.pat, p + 1)))
    ensures Right(j, s, p, caps, Search(j, s, p, caps))
    decreases |j.pat| - p, 0, 0
  {
    var d := At(j.pat, p + 1);
    if d == 'b' {
      var r := BalanceEnd(j.src, s + 1, At(j.pat, p + 2), At(j.pat, p + 3), 1);
      if r >= 0 {
        SearchRight(j, r, p + 4, caps);
      }
    } else if d == 'f' {
      if At(j.pat, p + 2) == '[' && ClassEnd(j.pat, p + 2) >= 0 {
        SearchRight(j, s, ClassEnd(j.pat, p + 2), caps);
      }
    } else {
      var l := CaptureIndex(caps, d);
      if l >= 0 && BackEnd(j.src, s, caps[l]) >= 0 {
        SearchRight(j, BackEnd(j.src, s, caps[l]), p + 2, caps);
      }
    }
  }

  /** The item at `p` is what `Derives` and `Search` look at. */
  ghost predicate IsItem(j: Job, p: nat, ep: nat) {
    var c, d := At(j.pat, p), At(j.pat, p + 1);
    && c != '\0' && c != '(' && c != ')' && !(c == L_ESC && (d == 'b' || d == 'f' || IsDigit(d))) &&
       !(c == '$' && d == '\0')
    && ep as int == ClassEnd(j.pat, p)
  }

  lemma {:induction false} ItemRight(j: Job, s: nat, p: nat, ep: nat, caps: seq<Cap>)
    requires IsItem(j, p, ep)
    ensures Right(j, s, p, caps, SearchItem(j, s, p, ep, caps))
    decreases |j.pat| - p, 0, 1
  {
    match At(j.pat, ep)
    case '?' =>
      if SingleAt(j, s, p, ep) {
        SearchRight(j, s + 1, ep + 1, caps);
      }
      SearchRight(j, s, ep + 1, caps);
    case '*' => RepeatRight(j, s, p, ep, caps);
    case '+' => RepeatRight(j, s, p, ep, caps);
    case '-' => RepeatRight(j, s, p, ep, caps);
    case _ =>
      if SingleAt(j, s, p, ep) {
        SearchRight(j, s + 1, ep, caps);
      }
  }

  lemma {:induction false} RepeatRight(j: Job, s: nat, p: nat, ep: nat, caps: seq<Cap>)
    requires IsItem(j, p, ep) && (At(j.pat, ep) == '*' || At(j.pat, ep) == '+' || At(j.pat, ep) == '-')
    ensures Right(j, s, p, caps, SearchItem(j, s, p, ep, caps))
    decreases |j.pat| - p, 0, 0
  {
    hide Right, Derives, Then;
    var x, r := RunEnd(j, s, p, ep), SearchItem(j, s, p, ep, caps);
    RunBound(j, s, p, ep);
    match At(j.pat, ep) {
    case '*' =>
      MaxRight(j, s, x, ep + 1, caps);
      LongestCases(j, s, s, x, p, ep, ep + 1, caps, r);
    case '+' =>
      if SingleAt(j, s, p, ep) {
        MaxRight(j, s + 1, x, ep + 1, caps);
        LongestCases(j, s, s + 1, x, p, ep, ep + 1, caps, r);
      } else {
        NoneThen(j, s, p, ep, ep + 1, caps);
      }
    case _ =>
      MinRight(j, s, p, ep, caps);
      ShortestCases(j, s, p, ep, ep + 1, caps, r);
    }
    ItemDerives(j, s, p, ep, caps, r);
  }

  lemma NoneThen(j: Job, s: nat, p: nat, ep: nat, q: nat, caps: seq<Cap>)
    requires !SingleAt(j, s, p, ep)
    ensures RightThen(j, s, s + 1, p, ep, q, caps, NoMatch)
  {
  }

  lemma RunBound(j: Job, s: nat, p: nat, ep: nat)
    ensures forall x: nat :: Repeats(j, s, x, p, ep) <==> s <= x <= RunEnd(j, s, p, ep)
    ensures !SingleAt(j, s, p, ep) ==> RunEnd(j, s, p, ep) == s
    ensures SingleAt(j, s, p, ep) ==> RunEnd(j, s, p, ep) == RunEnd(j, s + 1, p, ep)
  {
  }

  /** Some derivation exists from there. */
  ghost predicate Can(j: Job, s: nat, p: nat, caps: seq<Cap>) {
    exists e, caps' :: Derives(j, s, p, caps, e, caps')
  }

  /** Of the repetitions that end in `s`..`x`, the match takes the longest after which the rest can
      match. */
  ghost predicate Longest(j: Job, s: nat, x: nat, p: nat, caps: seq<Cap>, r: Outcome) {
    match r
    case Matched(e, caps') =>
      exists y: nat :: s <= y <= x && Derives(j, y, p, caps, e, caps') &&
          forall z: nat :: y < z <= x ==> !Can(j, z, p, caps)
    case NoMatch => forall y: nat :: s <= y <= x ==> !Can(j, y, p, caps)
    case Malformed => true
  }

  /** The match takes the shortest repetition after which the rest can match. */
  ghost predicate Shortest(j: Job, s: nat, p: nat, ep: nat, q: nat, caps: seq<Cap>, r: Outcome) {
    match r
    case Matched(e, caps') => exists y: nat :: ShortestAt(j, s, y, p, ep, q, caps) && Derives(j, y, q, caps, e, caps')
    case NoMatch => forall y: nat :: Repeats(j, s, y, p, ep) ==> !Can(j, y, q, caps)
    case Malformed => true
  }

  /** `y` is the first end of a repetition after which the pattern from `q` on can match. */
  ghost predicate ShortestAt(j: Job, s: nat, y: nat, p: nat, ep: nat, q: nat, caps: seq<Cap>) {
    Repeats(j, s, y, p, ep) && forall z: nat :: s <= z < y ==> !Can(j, z, q, caps)
  }

  /** Some repetition that ends at `lo` or later, and what follows it, derive the match. */
  ghost predicate Then(j: Job, s: nat, lo: nat, p: nat, ep: nat, q: nat, caps: seq<Cap>, e: nat, caps': seq<Cap>) {
    exists x: nat :: x >= lo && Repeats(j, s, x, p, ep) && Derives(j, x, q, caps, e, caps')
  }

  ghost predicate RightThen(j: Job, s: nat, lo: nat, p: nat, ep: nat, q: nat, caps: seq<Cap>, r: Outcome) {
    match r
    case Matched(e, caps') => Then(j, s, lo, p, ep, q, caps, e, caps')
    case NoMatch => forall e, caps' :: !Then(j, s, lo, p, ep, q, caps, e, caps')
    case Malformed => true
  }

  lemma ThenCan(j: Job, s: nat, lo: nat, p: nat, ep: nat, q: nat, caps: seq<Cap>, e: nat, caps': seq<Cap>)
    ensures Then(j, s, lo, p, ep, q, caps, e, caps') ==>
            exists x: nat :: x >= lo && Repeats(j, s, x, p, ep) && Can(j, x, q, caps)
  {
    if Then(j, s, lo, p, ep, q, caps, e, caps') {
      var x: nat :| x >= lo && Repeats(j, s, x, p, ep) && Derives(j, x, q, caps, e, caps');
      assert Can(j, x, q, caps);
    }
  }

  lemma ShortestCases(j: Job, s: nat, p: nat, ep: nat, q: nat, caps: seq<Cap>, r: Outcome)
    requires Shortest(j, s, p, ep, q, caps, r)
    ensures RightThen(j, s, s, p, ep, q, caps, r)
  {
    if r == NoMatch {
      forall e, caps'
        ensures !Then(j, s, s, p, ep, q, caps, e, caps')
      {
        ThenCan(j, s, s, p, ep, q, caps, e, caps');
      }
    }
  }

  lemma LongestCases(j: Job, s: nat, lo: nat, x: nat, p: nat, ep: nat, q: nat, caps: seq<Cap>, r: Outcome)
    requires Longest(j, lo, x, q, caps, r) && lo >= s && forall y: nat :: Repeats(j, s, y, p, ep) <==> s <= y <= x
    ensures RightThen(j, s, lo, p, ep, q, caps, r)
  {
    if r == NoMatch {
      forall e, caps'
        ensures !Then(j, s, lo, p, ep, q, caps, e, caps')
      {
        ThenCan(j, s, lo, p, ep, q, caps, e, caps');
      }
    }
  }

  /** What `Derives` says of a repeated item. */
  lemma ItemDerives(j: Job, s: nat, p: nat, ep: nat, caps: seq<Cap>, r: Outcome)
    requires IsItem(j, p, ep) && (At(j.pat, ep) == '*' || At(j.pat, ep) == '+' || At(j.pat, ep) == '-')
    requires RightThen(j, s, if At(j.pat, ep) == '+' then s + 1 else s, p, ep, ep + 1, caps, r)
    ensures Right(j, s, p, caps, r)
  {
    var lo := if At(j.pat, ep) == '+' then s + 1 else s;
    forall e, caps'
      ensures Derives(j, s, p, caps, e, caps') <==> Then(j, s, lo, p, ep, ep + 1, caps, e, caps')
    {
    }
  }

  /** `max_expand` takes the longest repetition after which the rest can match. */
  lemma {:induction false} MaxRight(j: Job, s: nat, x: nat, p: nat, caps: seq<Cap>)
    requires s <= x
    ensures Longest(j, s, x, p, caps, MaxExpand(j, s, x, p, caps))
    decreases |j.pat| - p, 2, x
  {
    SearchRight(j, x, p, caps);
    if Search(j, x, p, caps) == NoMatch && x > s {
      assert !Can(j, x, p, caps);
      MaxRight(j, s, x - 1, p, caps);
    }
  }

  /** `min_expand` takes the shortest repetition after which the rest can match. */
  lemma {:induction false} MinRight(j: Job, s: nat, p: nat, ep: nat, caps: seq<Cap>)
    requires ep <= |j.pat|
    ensures Shortest(j, s, p, ep, ep + 1, caps, MinExpand(j, s, p, ep, caps))
    decreases |j.pat| - ep, 2, if s <= |j.src| then |j.src| - s else 0
  {
    SearchRight(j, s, ep + 1, caps);
    var r := Search(j, s, ep + 1, caps);
    if r == NoMatch {
      assert !Can(j, s, ep + 1, caps);
      if SingleAt(j, s, p, ep) {
        MinRight(j, s + 1, p, ep, caps);
        OneMore(j, s, p, ep, ep + 1, caps, MinExpand(j, s + 1, p, ep, caps));
      } else {
        assert forall y: nat :: Repeats(j, s, y, p, ep) ==> y == s;
      }
    } else if r.Matched? {
      assert ShortestAt(j, s, s, p, ep, ep + 1, caps);
    }
  }

  lemma OneMore(j: Job, s: nat, p: nat, ep: nat, q: nat, caps: seq<Cap>, r: Outcome)
    requires Shortest(j, s + 1, p, ep, q, caps, r) && SingleAt(j, s, p, ep) && !Can(j, s, q, caps)
    ensures Shortest(j, s, p, ep, q, caps, r)
  {
    match r
    case Matched(e, caps') =>
      var y: nat :| ShortestAt(j, s + 1, y, p, ep, q, caps) && Derives(j, y, q, caps, e, caps');
      assert ShortestAt(j, s, y, p, ep, q, caps);
    case NoMatch =>
      forall y: nat | Repeats(j, s, y, p, ep)
        ensures !Can(j, y, q, caps)
      {
        assert y > s ==> Repeats(j, s + 1, y, p, ep);
      }
    case Malformed =>
  }
}
