/** What captures are (section 5.4.1 of the Lua 5.1 Reference Manual), told by the places of the subject at
    which a match passes the parentheses of the pattern, and that the matcher (lstrlib.cpp:166-402) stores
    just these places. */
module Captures {
  import opened Patterns
  import opened PatternErrors

  /** One capture: a group that was opened and is not closed yet, a group, or an empty pair of parentheses. */
  datatype Span = Opened(from: nat) | Closed(from: nat, to: nat) | Point(from: nat)

  /** The group that a closing parenthesis closes. */
  ghost predicate Innermost(spans: seq<Span>, l: int) {
    0 <= l < |spans| && spans[l].Opened? && forall m :: l < m < |spans| ==> !spans[m].Opened?
  }

  /** How many of the opening characters from `s` up to `x` are still open, the one at `s` included; a
      character that is both opening and closing closes. */
  function StillOpen(src: string, s: nat, x: nat, open: char, close: char): int
    requires x <= |src|
    decreases x
  {
    if x <= s + 1 then 1
    else
      StillOpen(src, s, x - 1, open, close) +
      if src[x - 1] == close then -1 else if src[x - 1] == open then 1 else 0
  }

  /** From `s` to `r` the subject is balanced, and nowhere before `r`, by the two characters behind the `%b` at `p`. */
  ghost predicate Balanced(j: Job, s: nat, r: nat, p: nat) {
    var open, close := At(j.pat, p + 2), At(j.pat, p + 3);
    && s < r <= |j.src| && j.src[s] == open && StillOpen(j.src, s, r, open, close) == 0
    && forall x: nat :: s < x < r ==> StillOpen(j.src, s, x, open, close) > 0
  }

  /** The subject has at `s` the text that it has from `from` to `to`. */
  predicate Again(src: string, s: nat, r: nat, from: nat, to: nat) {
    from <= to <= |src| && r == s + (to - from) <= |src| && src[s..r] == src[from..to]
  }

  ghost predicate Border(j: Job, s: nat, p: nat, ep: nat) {
    && ep >= 1 && InSet(j, if s < |j.src| then j.src[s] else '\0', p, ep - 1)
    && !InSet(j, if 0 < s <= |j.src| then j.src[s - 1] else '\0', p, ep - 1)
  }

  /** From `p` on, the pattern can match the subject from `s` up to `e`, and the parentheses that are passed
      turn the captures `spans` into `spans'`. */
  ghost predicate Traces(j: Job, s: nat, p: nat, spans: seq<Span>, e: nat, spans': seq<Span>)
    decreases |j.pat| - p
  {
    var c, d := At(j.pat, p), At(j.pat, p + 1);
    if c == '\0' then e == s && spans' == spans
    else if c == '(' && d == ')' then |spans| < 32 && Traces(j, s, p + 2, spans + [Point(s)], e, spans')
    else if c == '(' then |spans| < 32 && Traces(j, s, p + 1, spans + [Opened(s)], e, spans')
    else if c == ')' then
      exists l :: Innermost(spans, l) && Traces(j, s, p + 1, spans[l := Closed(spans[l].from, s)], e, spans')
    else if c == L_ESC && d == 'b' then
      && At(j.pat, p + 2) != '\0' && At(j.pat, p + 3) != '\0'
      && exists r: nat :: Balanced(j, s, r, p) && Traces(j, r, p + 4, spans, e, spans')
    else if c == L_ESC && d == 'f' then
      && At(j.pat, p + 2) == '['
      && var ep := ClassEnd(j.pat, p + 2); ep >= 0 && Border(j, s, p + 2, ep) && Traces(j, s, ep, spans, e, spans')
    else if c == L_ESC && IsDigit(d) then
      var l := d as int - '1' as int;
      && 0 <= l < |spans| && spans[l].Closed?
      && exists r: nat :: Again(j.src, s, r, spans[l].from, spans[l].to) && Traces(j, r, p + 2, spans, e, spans')
    else if c == '$' && d == '\0' then s == |j.src| && e == s && spans' == spans
    else
      var ep := ClassEnd(j.pat, p);
      ep >= 0 &&
      match At(j.pat, ep)
      case '?' => (SingleAt(j, s, p, ep) && Traces(j, s + 1, ep + 1, spans, e, spans')) ||
          Traces(j, s, ep + 1, spans, e, spans')
      case '*' => exists x: nat :: Repeats(j, s, x, p, ep) && Traces(j, x, ep + 1, spans, e, spans')
      case '+' => exists x: nat :: x > s && Repeats(j, s, x, p, ep) && Traces(j, x, ep + 1, spans, e, spans')
      case '-' => exists x: nat :: Repeats(j, s, x, p, ep) && Traces(j, x, ep + 1, spans, e, spans')
      case _ => SingleAt(j, s, p, ep) && Traces(j, s + 1, ep, spans, e, spans')
  }

  // ---------- How captures are stored ----------

  function CapOf(span: Span): Cap {
    match span
    case Opened(from) => Cap(from, CAP_UNFINISHED)
    case Closed(from, to) => Cap(from, to - from)
    case Point(at) => Cap(at, CAP_POSITION)
  }

  function CapsOf(spans: seq<Span>): (caps: seq<Cap>)
    ensures |caps| == |spans|
  {
    seq(|spans|, i requires 0 <= i < |spans| => CapOf(spans[i]))
  }

  /** No capture begins behind `s`, and groups do not end before they begin. */
  ghost predicate Begun(spans: seq<Span>, s: nat) {
    forall i :: 0 <= i < |spans| ==> spans[i].from <= s && (spans[i].Closed? ==> spans[i].from <= spans[i].to <= s)
  }

  lemma {:induction false} InnermostIsLast(spans: seq<Span>, s: nat)
    requires Begun(spans, s)
    ensures var l := ToClose(CapsOf(spans)); if l >= 0 then Innermost(spans, l) else forall m :: !Innermost(spans, m)
    decreases |spans|
  {
    if spans != [] {
      var init := spans[..|spans| - 1];
      assert CapsOf(spans)[..|spans| - 1] == CapsOf(init);
      InnermostIsLast(init, s);
      forall m | Innermost(spans, m) && m < |spans| - 1
        ensures Innermost(init, m)
      {
      }
    }
  }

  lemma OneInnermost(spans: seq<Span>, l: int, m: int)
    requires Innermost(spans, l) && Innermost(spans, m)
    ensures l == m
  {
  }

  lemma ClosesThere(spans: seq<Span>, l: int, s: nat)
    requires Begun(spans, s) && Innermost(spans, l) && ToClose(CapsOf(spans)) == l
    ensures CloseCap(CapsOf(spans), s) == CapsOf(spans[l := Closed(spans[l].from, s)])
    ensures Begun(spans[l := Closed(spans[l].from, s)], s)
  {
  }

  lemma OneMoreCap(spans: seq<Span>, span: Span)
    ensures CapsOf(spans + [span]) == CapsOf(spans) + [CapOf(span)]
  {
  }

  /** `matchbalance` counts the same. */
  lemma {:induction false} BalanceCounts(src: string, s: nat, i: nat, open: char, close: char)
    requires s < i <= |src| && StillOpen(src, s, i, open, close) > 0
    ensures var r := BalanceEnd(src, i, open, close, StillOpen(src, s, i, open, close));
            if r >= 0 then StillOpen(src, s, r, open, close) == 0 && r > i &&
              forall x: nat :: i <= x < r ==> StillOpen(src, s, x, open, close) > 0
            else forall x: nat :: i <= x <= |src| ==> StillOpen(src, s, x, open, close) > 0
    decreases |src| - i
  {
    if i < |src| && StillOpen(src, s, i + 1, open, close) > 0 {
      BalanceCounts(src, s, i + 1, open, close);
    }
  }

  lemma BalanceRight(j: Job, s: nat, p: nat)
    requires s < |j.src| && j.src[s] == At(j.pat, p + 2)
    ensures var r := BalanceEnd(j.src, s + 1, At(j.pat, p + 2), At(j.pat, p + 3), 1);
            forall x: nat :: Balanced(j, s, x, p) <==> x == r
  {
    var open, close := At(j.pat, p + 2), At(j.pat, p + 3);
    BalanceCounts(j.src, s, s + 1, open, close);
  }

  lemma BackRight(src: string, s: nat, span: Span)
    requires span.Closed? && span.from <= span.to
    ensures var r := BackEnd(src, s, CapOf(span));
            forall x: nat :: Again(src, s, x, span.from, span.to) <==> x == r
  {
  }

  lemma BorderRight(j: Job, s: nat, p: nat, ep: nat)
    ensures AtFrontier(j, s, p, ep) <==> Border(j, s, p, ep)
  {
    hide InSet;
  }

  // ---------- The matcher stores these places ----------

  /** A derivation with captures as they are stored is one that records where they begin and end. */
  ghost predicate Recorded(j: Job, s: nat, p: nat, spans: seq<Span>, e: nat, caps: seq<Cap>) {
    exists spans' :: Traces(j, s, p, spans, e, spans') && caps == CapsOf(spans')
  }

  lemma {:induction false} DerivesTraces(j: Job, s: nat, p: nat, spans: seq<Span>, e: nat, caps: seq<Cap>)
    requires Begun(spans, s)
    ensures Derives(j, s, p, CapsOf(spans), e, caps) <==> Recorded(j, s, p, spans, e, caps)
    decreases |j.pat| - p, 2
  {
    var c, d := At(j.pat, p), At(j.pat, p + 1);
    if c == '\0' || (c == '$' && d == '\0') {
      assert Derives(j, s, p, CapsOf(spans), e, caps) ==> Traces(j, s, p, spans, e, spans);
    } else if c == '(' || c == ')' {
      ParenthesisTraces(j, s, p, spans, e, caps);
    } else if c == L_ESC && (d == 'b' || d == 'f' || IsDigit(d)) {
      EscapeTraces(j, s, p, spans, e, caps);
    } else if ClassEnd(j.pat, p) >= 0 {
      ItemTraces(j, s, p, ClassEnd(j.pat, p), spans, e, caps);
    }
  }

  lemma {:induction false} ParenthesisTraces(j: Job, s: nat, p: nat, spans: seq<Span>, e: nat, caps: seq<Cap>)
    requires Begun(spans, s) && (At(j.pat, p) == '(' || At(j.pat, p) == ')')
    ensures Derives(j, s, p, CapsOf(spans), e, caps) <==> Recorded(j, s, p, spans, e, caps)
    decreases |j.pat| - p, 0
  {
    if At(j.pat, p) == ')' {
      InnermostIsLast(spans, s);
      var l := ToClose(CapsOf(spans));
      if l >= 0 {
        ClosesThere(spans, l, s);
        DerivesTraces(j, s, p + 1, spans[l := Closed(spans[l].from, s)], e, caps);
      }
    } else {
      var span := if At(j.pat, p + 1) == ')' then Point(s) else Opened(s);
      OneMoreCap(spans, span);
      DerivesTraces(j, s, if At(j.pat, p + 1) == ')' then p + 2 else p + 1, spans + [span], e, caps);
    }
  }

  lemma {:induction false} EscapeTraces(j: Job, s: nat, p: nat, spans: seq<Span>, e: nat, caps: seq<Cap>)
    requires Begun(spans, s) && At(j.pat, p) == L_ESC
    requires At(j.pat, p + 1) == 'b' || At(j.pat, p + 1) == 'f' || IsDigit(At(j.pat, p + 1))
    ensures Derives(j, s, p, CapsOf(spans), e, caps) <==> Recorded(j, s, p, spans, e, caps)
    decreases |j.pat| - p, 1
  {
    var d := At(j.pat, p + 1);
    if d == 'b' {
      BalanceTraces(j, s, p, spans, e, caps);
    } else if d == 'f' {
      if At(j.pat, p + 2) == '[' && ClassEnd(j.pat, p + 2) >= 0 {
        BorderRight(j, s, p + 2, ClassEnd(j.pat, p + 2));
        DerivesTraces(j, s, ClassEnd(j.pat, p + 2), spans, e, caps);
      }
    } else {
      BackTraces(j, s, p, spans, e, caps);
    }
  }

  lemma {:induction false} BalanceTraces(j: Job, s: nat, p: nat, spans: seq<Span>, e: nat, caps: seq<Cap>)
    requires Begun(spans, s) && At(j.pat, p) == L_ESC && At(j.pat, p + 1) == 'b'
    ensures Derives(j, s, p, CapsOf(spans), e, caps) <==> Recorded(j, s, p, spans, e, caps)
    decreases |j.pat| - p, 0
  {
    if At(j.pat, p + 2) != '\0' && At(j.pat, p + 3) != '\0' && s < |j.src| && j.src[s] == At(j.pat, p + 2) {
      var r := BalanceEnd(j.src, s + 1, At(j.pat, p + 2), At(j.pat, p + 3), 1);
      BalanceRight(j, s, p);
      forall spans'
        ensures Traces(j, s, p, spans, e, spans') <==> r >= 0 && Traces(j, r, p + 4, spans, e, spans')
      {
        if r >= 0 {
          assert Balanced(j, s, r, p);
        }
      }
      if r >= 0 {
        DerivesTraces(j, r, p + 4, spans, e, caps);
      }
    }
  }

  lemma {:induction false} BackTraces(j: Job, s: nat, p: nat, spans: seq<Span>, e: nat, caps: seq<Cap>)
    requires Begun(spans, s) && At(j.pat, p) == L_ESC && IsDigit(At(j.pat, p + 1))
    ensures Derives(j, s, p, CapsOf(spans), e, caps) <==> Recorded(j, s, p, spans, e, caps)
    decreases |j.pat| - p, 0
  {
    var l := At(j.pat, p + 1) as int - '1' as int;
    if 0 <= l < |spans| && spans[l].Closed? {
      var cap := CapsOf(spans)[l];
      assert cap == CapOf(spans[l]) && cap.len >= 0 && CaptureIndex(CapsOf(spans), At(j.pat, p + 1)) == l;
      BackRight(j.src, s, spans[l]);
      var r := BackEnd(j.src, s, cap);
      forall spans'
        ensures Traces(j, s, p, spans, e, spans') <==> r >= 0 && Traces(j, r, p + 2, spans, e, spans')
      {
        if r >= 0 {
          assert Again(j.src, s, r, spans[l].from, spans[l].to);
        }
      }
      if r >= 0 {
        DerivesTraces(j, r, p + 2, spans, e, caps);
      }
    } else if 0 <= l < |spans| {
      assert CapsOf(spans)[l] == CapOf(spans[l]);
    }
  }

  lemma {:induction false} ItemTraces(j: Job, s: nat, p: nat, ep: nat, spans: seq<Span>, e: nat, caps: seq<Cap>)
    requires Begun(spans, s) && IsItem(j, p, ep)
    ensures Derives(j, s, p, CapsOf(spans), e, caps) <==> Recorded(j, s, p, spans, e, caps)
    decreases |j.pat| - p, 0
  {
    var q := ep + 1;
    forall x: nat | x >= s
      ensures Derives(j, x, q, CapsOf(spans), e, caps) <==> Recorded(j, x, q, spans, e, caps)
    {
      DerivesTraces(j, x, q, spans, e, caps);
    }
    DerivesTraces(j, s + 1, ep, spans, e, caps);
  }

  /** The captures of a match are the places where its parentheses were passed; without a match there is no
      way through the pattern. */
  ghost predicate CapturesRight(j: Job, s: nat, p: nat, r: Outcome) {
    match r
    case Matched(e, caps) => Recorded(j, s, p, [], e, caps)
    case NoMatch => forall e, spans :: !Traces(j, s, p, [], e, spans)
    case Malformed => true
  }

  lemma SearchRecords(j: Job, s: nat, p: nat)
    ensures CapturesRight(j, s, p, Search(j, s, p, []))
  {
    hide Derives, Traces;
    assert CapsOf([]) == [];
    SearchRight(j, s, p, []);
    match Search(j, s, p, [])
    case Matched(e, caps) => DerivesTraces(j, s, p, [], e, caps);
    case NoMatch =>
      forall e, spans
        ensures !Traces(j, s, p, [], e, spans)
      {
        DerivesTraces(j, s, p, [], e, CapsOf(spans));
      }
    case Malformed =>
  }

  // ---------- Groups lie inside the match ----------

  lemma Onward(j: Job, s: nat, r: nat, p: nat, spans: seq<Span>, l: int)
    ensures Balanced(j, s, r, p) ==> s < r
    ensures 0 <= l < |spans| && spans[l].Closed? && Again(j.src, s, r, spans[l].from, spans[l].to) ==> s <= r
  {
  }

  lemma BegunOn(spans: seq<Span>, s: nat, span: Span)
    requires Begun(spans, s) && span.from <= s && (span.Closed? ==> span.from <= span.to <= s)
    ensures Begun(spans + [span], s)
    ensures forall r: nat :: s <= r ==> Begun(spans, r)
  {
  }

  lemma {:induction false} TracesForward(j: Job, s: nat, p: nat, spans: seq<Span>, e: nat, spans': seq<Span>)
    requires Begun(spans, s) && Traces(j, s, p, spans, e, spans')
    ensures s <= e && Begun(spans', e)
    decreases |j.pat| - p, 1
  {
    hide Balanced, Again, Border, Single, Repeats, Begun;
    var c, d := At(j.pat, p), At(j.pat, p + 1);
    BegunOn(spans, s, Point(s));
    BegunOn(spans, s, Opened(s));
    if c == '\0' || (c == '$' && d == '\0') {
    } else if c == '(' && d == ')' {
      TracesForward(j, s, p + 2, spans + [Point(s)], e, spans');
    } else if c == '(' {
      TracesForward(j, s, p + 1, spans + [Opened(s)], e, spans');
    } else if c == ')' {
      var l :| Innermost(spans, l) && Traces(j, s, p + 1, spans[l := Closed(spans[l].from, s)], e, spans');
      ClosesBegun(spans, l, s);
      TracesForward(j, s, p + 1, spans[l := Closed(spans[l].from, s)], e, spans');
    } else if c == L_ESC && d == 'b' {
      var r: nat :| Balanced(j, s, r, p) && Traces(j, r, p + 4, spans, e, spans');
      Onward(j, s, r, p, spans, -1);
      TracesForward(j, r, p + 4, spans, e, spans');
    } else if c == L_ESC && d == 'f' {
      TracesForward(j, s, ClassEnd(j.pat, p + 2), spans, e, spans');
    } else if c == L_ESC && IsDigit(d) {
      var l := d as int - '1' as int;
      var r: nat :| Again(j.src, s, r, spans[l].from, spans[l].to) && Traces(j, r, p + 2, spans, e, spans');
      Onward(j, s, r, p, spans, l);
      TracesForward(j, r, p + 2, spans, e, spans');
    } else {
      ItemForward(j, s, p, ClassEnd(j.pat, p), spans, e, spans');
    }
  }

  lemma ClosesBegun(spans: seq<Span>, l: int, s: nat)
    requires Begun(spans, s) && Innermost(spans, l)
    ensures Begun(spans[l := Closed(spans[l].from, s)], s)
  {
  }

  lemma {:induction false} ItemForward(j: Job, s: nat, p: nat, ep: nat, spans: seq<Span>, e: nat, spans': seq<Span>)
    requires Begun(spans, s) && Traces(j, s, p, spans, e, spans') && IsItem(j, p, ep)
    ensures s <= e && Begun(spans', e)
    decreases |j.pat| - p, 0
  {
    hide Single, Begun;
    BegunOn(spans, s, Point(s));
    match At(j.pat, ep)
    case '?' =>
      if Traces(j, s, ep + 1, spans, e, spans') {
        TracesForward(j, s, ep + 1, spans, e, spans');
      } else {
        TracesForward(j, s + 1, ep + 1, spans, e, spans');
      }
    case '*' =>
      var x: nat :| Repeats(j, s, x, p, ep) && Traces(j, x, ep + 1, spans, e, spans');
      TracesForward(j, x, ep + 1, spans, e, spans');
    case '+' =>
      var x: nat :| x > s && Repeats(j, s, x, p, ep) && Traces(j, x, ep + 1, spans, e, spans');
      TracesForward(j, x, ep + 1, spans, e, spans');
    case '-' =>
      var x: nat :| Repeats(j, s, x, p, ep) && Traces(j, x, ep + 1, spans, e, spans');
      TracesForward(j, x, ep + 1, spans, e, spans');
    case _ => TracesForward(j, s + 1, ep, spans, e, spans');
  }

  /** Every group is closed, and none reaches behind the end of the match. */
  predicate AllClosed(spans: seq<Span>, e: nat) {
    forall i :: 0 <= i < |spans| ==>
      !spans[i].Opened? && spans[i].from <= e && (spans[i].Closed? ==> spans[i].from <= spans[i].to <= e)
  }

  /** In a match of a well-formed pattern the captures are the groups that were passed, all of them closed:
      each has the place where it was opened and the distance from there to where it was closed. */
  lemma GroupsInside(j: Job, s: nat, p: nat)
    requires s <= |j.src| && WellFormed(j.pat, p, []) && Search(j, s, p, []).Matched?
    ensures var r := Search(j, s, p, []);
            exists spans :: Traces(j, s, p, [], r.e, spans) && r.caps == CapsOf(spans) && AllClosed(spans, r.e)
  {
    hide Derives, Traces, Search, WellFormed;
    var r := Search(j, s, p, []);
    SearchRecords(j, s, p);
    assert OpenOf([]) == [];
    NeverMalformed(j, s, p, []);
    var spans: seq<Span> :| Traces(j, s, p, [], r.e, spans) && r.caps == CapsOf(spans);
    TracesForward(j, s, p, [], r.e, spans);
    forall i | 0 <= i < |spans|
      ensures !spans[i].Opened?
    {
      assert !OpenOf(r.caps)[i];
    }
  }

  // ---------- A group around a whole pattern ----------

  ghost predicate Encloses(j: Job, q: string) {
    j.pat == "(" + q + ")" && q != [] && '\0' !in q
  }

  lemma Shifted(j: Job, q: string, p: nat)
    requires Encloses(j, q) && p <= |q|
    ensures At(j.pat, p + 1) == if p < |q| then At(q, p) else ')'
    ensures At(q, p) == '\0' <==> p == |q|
    ensures At(j.pat, |q| + 2) == '\0'
  {
    if p < |q| {
      assert j.pat[p + 1] == q[p];
    }
  }

  lemma {:induction false} ShiftedSet(j: Job, q: string, p: nat)
    requires Encloses(j, q) && SetEnd(q, p) >= 0
    ensures SetEnd(j.pat, p + 1) == SetEnd(q, p) + 1
    decreases |q| - p
  {
    assert p < |q|;
    Shifted(j, q, p);
    Shifted(j, q, p + 1);
    var next := if At(q, p) == L_ESC && At(q, p + 1) != '\0' then p + 2 else p + 1;
    if At(q, next) != ']' {
      ShiftedSet(j, q, next);
    }
    if next <= |q| {
      Shifted(j, q, next);
    }
  }

  lemma ShiftedItem(j: Job, q: string, p: nat)
    requires Encloses(j, q) && p < |q| && At(q, p) != '\0' && ClassEnd(q, p) >= 0
    ensures At(j.pat, p + 1) != '\0' && ClassEnd(j.pat, p + 1) == ClassEnd(q, p) + 1
  {
    Shifted(j, q, p);
    Shifted(j, q, p + 1);
    if At(q, p) == '[' {
      ShiftedSet(j, q, if At(q, p + 1) == '^' then p + 2 else p + 1);
    }
  }

  /** Behind its first capture, `spans` has what is open and closed as in `open`. */
  ghost predicate Inside(spans: seq<Span>, from: nat, open: seq<bool>) {
    && |spans| == |open| + 1 && spans[0] == Opened(from)
    && forall i :: 0 < i < |spans| ==> (spans[i].Opened? <==> open[i - 1])
  }

  lemma {:induction false} LastIsInnermost(spans: seq<Span>, from: nat, open: seq<bool>)
    requires Inside(spans, from, open)
    ensures Innermost(spans, LastOpen(open) + 1)
    decreases |open|
  {
    if open != [] && !open[|open| - 1] {
      LastIsInnermost(spans[..|spans| - 1], from, open[..|open| - 1]);
    }
  }

  /** The enclosing group is still open, and is closed at the end of the match. */
  lemma {:induction false} EnclosedTraces(j: Job, q: string, s0: nat, s: nat, p: nat, open: seq<bool>, spans: seq<Span>,
                                          e: nat, spans': seq<Span>)
    requires Encloses(j, q) && p <= |q| && WellFormed(q, p, open) && Inside(spans, s0, open)
    requires Traces(j, s, p + 1, spans, e, spans')
    ensures spans' != [] && spans'[0] == Closed(s0, e)
    decreases |q| - p, 1
  {
    hide Balanced, Again, Border, Single, Repeats, SetEnd;
    var c, d := At(q, p), At(q, p + 1);
    Shifted(j, q, p);
    if p < |q| {
      Shifted(j, q, p + 1);
    }
    if c == '\0' {
      var l :| Innermost(spans, l) && Traces(j, s, p + 2, spans[l := Closed(spans[l].from, s)], e, spans');
      OnlyOuter(spans, s0, open, l);
    } else if c == '(' || c == ')' {
      EnclosedParenthesis(j, q, s0, s, p, open, spans, e, spans');
    } else if c == L_ESC && (d == 'b' || d == 'f' || IsDigit(d)) {
      EnclosedEscape(j, q, s0, s, p, open, spans, e, spans');
    } else {
      EnclosedItem(j, q, s0, s, p, open, spans, e, spans');
    }
  }

  lemma {:induction false} EnclosedParenthesis(j: Job, q: string, s0: nat, s: nat, p: nat, open: seq<bool>,
                                               spans: seq<Span>, e: nat, spans': seq<Span>)
    requires Encloses(j, q) && p <= |q| && WellFormed(q, p, open) && Inside(spans, s0, open)
    requires Traces(j, s, p + 1, spans, e, spans') && (At(q, p) == '(' || At(q, p) == ')')
    ensures spans' != [] && spans'[0] == Closed(s0, e)
    decreases |q| - p, 0
  {
    hide Inside, SetEnd, ClassEnd, Again, Border, Balanced, Repeats, SingleAt;
    Shifted(j, q, p);
    if p < |q| {
      Shifted(j, q, p + 1);
    }
    if At(q, p) == ')' {
      LastIsInnermost(spans, s0, open);
      var l :| Innermost(spans, l) && Traces(j, s, p + 2, spans[l := Closed(spans[l].from, s)], e, spans');
      OneInnermost(spans, l, LastOpen(open) + 1);
      StillInside(spans, s0, open, l, s);
      EnclosedTraces(j, q, s0, s, p + 1, open[l - 1 := false], spans[l := Closed(spans[l].from, s)], e, spans');
    } else {
      MoreInside(spans, s0, open, s);
      if p + 1 < |q| && At(q, p + 1) == ')' {
        EnclosedTraces(j, q, s0, s, p + 2, open + [false], spans + [Point(s)], e, spans');
      } else if p + 1 < |q| {
        EnclosedTraces(j, q, s0, s, p + 1, open + [true], spans + [Opened(s)], e, spans');
      } else {
        OpenAtEnd(q, p, open);
      }
    }
  }

  lemma OnlyOuter(spans: seq<Span>, from: nat, open: seq<bool>, l: int)
    requires Inside(spans, from, open) && Innermost(spans, l) && true !in open
    ensures l == 0
  {
    assert forall i :: 0 <= i < |open| ==> open[i] in open;
  }

  lemma StillInside(spans: seq<Span>, from: nat, open: seq<bool>, l: int, s: nat)
    requires Inside(spans, from, open) && 0 < l <= |open|
    ensures Inside(spans[l := Closed(spans[l].from, s)], from, open[l - 1 := false])
  {
  }

  lemma MoreInside(spans: seq<Span>, from: nat, open: seq<bool>, s: nat)
    requires Inside(spans, from, open)
    ensures Inside(spans + [Point(s)], from, open + [false]) && Inside(spans + [Opened(s)], from, open + [true])
  {
  }

  /** A pattern that ends with an opening parenthesis is not well formed. */
  lemma OpenAtEnd(q: string, p: nat, open: seq<bool>)
    requires p + 1 == |q| && At(q, p) == '('
    ensures !WellFormed(q, p, open)
  {
    assert true in open + [true] by {
      assert (open + [true])[|open|];
    }
  }

  lemma {:induction false} EnclosedEscape(j: Job, q: string, s0: nat, s: nat, p: nat, open: seq<bool>,
                                          spans: seq<Span>, e: nat, spans': seq<Span>)
    requires Encloses(j, q) && p <= |q| && WellFormed(q, p, open) && Inside(spans, s0, open)
    requires Traces(j, s, p + 1, spans, e, spans')
    requires At(q, p) == L_ESC && (At(q, p + 1) == 'b' || At(q, p + 1) == 'f' || IsDigit(At(q, p + 1)))
    ensures spans' != [] && spans'[0] == Closed(s0, e)
    decreases |q| - p, 0
  {
    hide Balanced, Again, Border, SetEnd;
    var d := At(q, p + 1);
    Shifted(j, q, p);
    Shifted(j, q, p + 1);
    if d == 'b' {
      assert p + 4 <= |q|;
      Shifted(j, q, p + 2);
      Shifted(j, q, p + 3);
      var r: nat :| Balanced(j, s, r, p + 1) && Traces(j, r, p + 5, spans, e, spans');
      EnclosedTraces(j, q, s0, r, p + 4, open, spans, e, spans');
    } else if d == 'f' {
      assert p + 3 <= |q|;
      Shifted(j, q, p + 2);
      ShiftedItem(j, q, p + 2);
      EnclosedTraces(j, q, s0, s, ClassEnd(q, p + 2), open, spans, e, spans');
    } else {
      var l := d as int - '1' as int;
      var r: nat :| Again(j.src, s, r, spans[l].from, spans[l].to) && Traces(j, r, p + 3, spans, e, spans');
      EnclosedTraces(j, q, s0, r, p + 2, open, spans, e, spans');
    }
  }

  lemma {:induction false} EnclosedItem(j: Job, q: string, s0: nat, s: nat, p: nat, open: seq<bool>,
                                        spans: seq<Span>, e: nat, spans': seq<Span>)
    requires Encloses(j, q) && p < |q| && WellFormed(q, p, open) && Inside(spans, s0, open)
    requires Traces(j, s, p + 1, spans, e, spans')
    requires var c, d := At(q, p), At(q, p + 1);
             c != '(' && c != ')' && !(c == L_ESC && (d == 'b' || d == 'f' || IsDigit(d)))
    ensures spans' != [] && spans'[0] == Closed(s0, e)
    decreases |q| - p, 0
  {
    hide Single, SetEnd, Inside, LastOpen, Encloses;
    Shifted(j, q, p);
    Shifted(j, q, p + 1);
    if At(q, p) == '$' && p + 1 == |q| {
      EnclosedTraces(j, q, s0, s + 1, p + 1, open, spans, e, spans');
    } else {
      var ep := ClassEnd(q, p);
      ShiftedItem(j, q, p);
      Shifted(j, q, ep);
      if Repeated(q, ep) {
        var x: nat :| Traces(j, x, ep + 2, spans, e, spans');
        EnclosedTraces(j, q, s0, x, ep + 1, open, spans, e, spans');
      } else {
        EnclosedTraces(j, q, s0, s + 1, ep, open, spans, e, spans');
      }
    }
  }

  /** A group around a whole pattern captures the whole match. */
  lemma WholeCapture(j: Job, q: string, s: nat)
    requires Encloses(j, q) && WellFormed(q, 0, []) && Search(j, s, 0, []).Matched?
    ensures var r := Search(j, s, 0, []); r.caps != [] && r.caps[0] == Cap(s, r.e - s)
  {
    hide Derives, Search, WellFormed;
    var r := Search(j, s, 0, []);
    SearchRecords(j, s, 0);
    var spans: seq<Span> :| Traces(j, s, 0, [], r.e, spans) && r.caps == CapsOf(spans);
    Shifted(j, q, 0);
    NoEmptyGroup(j, q, s, r.e, spans);
    EnclosedTraces(j, q, s, s, 0, [], [Opened(s)], r.e, spans);
  }

  lemma NoEmptyGroup(j: Job, q: string, s: nat, e: nat, spans: seq<Span>)
    requires Encloses(j, q) && WellFormed(q, 0, []) && Traces(j, s, 0, [], e, spans)
    ensures Traces(j, s, 1, [Opened(s)], e, spans)
  {
    Shifted(j, q, 0);
    assert j.pat[0] == '(';
    assert LastOpen([]) == -1;
    assert [] + [Opened(s)] == [Opened(s)];
  }
}
