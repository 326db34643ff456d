/** Of the ways in which a pattern can match, the one that is taken (section 5.4.1 of the Lua 5.1 Reference Manual):
    `*`, `+` and `?` take as much as leaves the rest able to match, `-` as little. */
module Choices {
  import opened Patterns

  /** What stands at `p`: the end of the pattern, something that goes on in one way, cannot match or is an error, or
      an item of single characters that ends before `ep`. */
  datatype Step = End | Goes(s: nat, p: nat, caps: seq<Cap>) | Fails | Errs | Item(ep: nat)

  ghost function StepAt(j: Job, s: nat, p: nat, caps: seq<Cap>): (r: Step)
    ensures r.Goes? ==> p < |j.pat| && p < r.p
    ensures r.Item? ==> IsItem(j, p, r.ep) && p < r.ep <= |j.pat|
  {
    var c, d := At(j.pat, p), At(j.pat, p + 1);
    if c == '\0' then End
    else if c == '(' then
      if |caps| >= 32 then Errs
      else if d == ')' then Goes(s, p + 2, caps + [Cap(s, CAP_POSITION)])
      else Goes(s, p + 1, caps + [Cap(s, CAP_UNFINISHED)])
    else if c == ')' then if ToClose(caps) < 0 then Errs else Goes(s, p + 1, CloseCap(caps, s))
    else if c == L_ESC && d == 'b' then
      if At(j.pat, p + 2) == '\0' || At(j.pat, p + 3) == '\0' then Errs
      else if At(j.src, s) != At(j.pat, p + 2) then Fails
      else
        var r := BalanceEnd(j.src, s + 1, At(j.pat, p + 2), At(j.pat, p + 3), 1);
        if r < 0 then Fails else Goes(r, p + 4, caps)
    else if c == L_ESC && d == 'f' then
      if At(j.pat, p + 2) != '[' || ClassEnd(j.pat, p + 2) < 0 then Errs
      else
        var ep := ClassEnd(j.pat, p + 2);
        if !AtFrontier(j, s, p + 2, ep) then Fails else Goes(s, ep, caps)
    else if c == L_ESC && IsDigit(d) then
      var l := CaptureIndex(caps, d);
      if l < 0 then Errs
      else
        var r := BackEnd(j.src, s, caps[l]);
        if r < 0 then Fails else Goes(r, p + 2, caps)
    else if c == '$' && d == '\0' then if s == |j.src| then End else Fails
    else if ClassEnd(j.pat, p) < 0 then Errs
    else Item(ClassEnd(j.pat, p))
  }

  /** `x` is the end of a repetition, and after no longer one can the rest of the pattern, from `q` on, match. */
  ghost predicate LongestAt(j: Job, s: nat, x: nat, p: nat, ep: nat, q: nat, caps: seq<Cap>) {
    Repeats(j, s, x, p, ep) && forall z: nat :: z > x && Repeats(j, s, z, p, ep) ==> !Can(j, z, q, caps)
  }

  /** A derivation in which every item takes what its suffix asks for. */
  ghost predicate Chosen(j: Job, s: nat, p: nat, caps: seq<Cap>, e: nat, caps': seq<Cap>)
    decreases |j.pat| - p, 1
  {
    var step := StepAt(j, s, p, caps);
    if step.End? then e == s && caps' == caps
    else if step.Goes? then Chosen(j, step.s, step.p, step.caps, e, caps')
    else step.Item? && ChosenItem(j, s, p, step.ep, step.ep + 1, caps, e, caps')
  }

  ghost predicate ChosenItem(j: Job, s: nat, p: nat, ep: nat, q: nat, caps: seq<Cap>, e: nat, caps': seq<Cap>)
    requires p < ep <= |j.pat| && q == ep + 1
    decreases |j.pat| - p, 0
  {
    match At(j.pat, ep)
    case '?' =>
      if SingleAt(j, s, p, ep) && Can(j, s + 1, q, caps) then Chosen(j, s + 1, q, caps, e, caps')
      else Chosen(j, s, q, caps, e, caps')
    case '*' => exists x: nat :: LongestAt(j, s, x, p, ep, q, caps) && Chosen(j, x, q, caps, e, caps')
    case '+' => exists x: nat :: x > s && LongestAt(j, s, x, p, ep, q, caps) && Chosen(j, x, q, caps, e, caps')
    case '-' => exists x: nat :: ShortestAt(j, s, x, p, ep, q, caps) && Chosen(j, x, q, caps, e, caps')
    case _ => SingleAt(j, s, p, ep) && Chosen(j, s + 1, ep, caps, e, caps')
  }

  // ---------- One step of each telling ----------

  lemma StepDerives(j: Job, s: nat, p: nat, caps: seq<Cap>, e: nat, caps': seq<Cap>)
    ensures var step := StepAt(j, s, p, caps);
            && (step.End? ==> (Derives(j, s, p, caps, e, caps') <==> e == s && caps' == caps))
            && (step.Goes? ==>
                  (Derives(j, s, p, caps, e, caps') <==> Derives(j, step.s, step.p, step.caps, e, caps')))
            && (step.Fails? || step.Errs? ==> !Derives(j, s, p, caps, e, caps'))
  {
    hide AtFrontier, SingleAt, CloseCap, BalanceEnd, BackEnd;
  }

  lemma StepSearch(j: Job, s: nat, p: nat, caps: seq<Cap>)
    ensures var step := StepAt(j, s, p, caps);
            && (step.End? ==> Search(j, s, p, caps) == Matched(s, caps))
            && (step.Goes? ==> Search(j, s, p, caps) == Search(j, step.s, step.p, step.caps))
            && (step.Item? ==> Search(j, s, p, caps) == SearchItem(j, s, p, step.ep, caps))
            && (step.Fails? ==> Search(j, s, p, caps) == NoMatch)
            && (step.Errs? ==> Search(j, s, p, caps) == Malformed)
  {
    hide AtFrontier, SingleAt, CloseCap, BalanceEnd, BackEnd, SearchItem;
  }

  // ---------- The choice is a derivation, and there is one only ----------

  lemma {:induction false} ChosenDerives(j: Job, s: nat, p: nat, caps: seq<Cap>, e: nat, caps': seq<Cap>)
    requires Chosen(j, s, p, caps, e, caps')
    ensures Derives(j, s, p, caps, e, caps')
    decreases |j.pat| - p
  {
    hide StepAt, SingleAt;
    var step := StepAt(j, s, p, caps);
    StepDerives(j, s, p, caps, e, caps');
    if step.Goes? {
      ChosenDerives(j, step.s, step.p, step.caps, e, caps');
    } else if step.Item? {
      forall x: nat, q | step.ep <= q <= step.ep + 1 && Chosen(j, x, q, caps, e, caps')
        ensures Derives(j, x, q, caps, e, caps')
      {
        ChosenDerives(j, x, q, caps, e, caps');
      }
    }
  }

  lemma {:induction false} ChosenOnce(j: Job, s: nat, p: nat, caps: seq<Cap>, e: nat, c: seq<Cap>, e1: nat,
                                      c1: seq<Cap>)
    requires Chosen(j, s, p, caps, e, c) && Chosen(j, s, p, caps, e1, c1)
    ensures e == e1 && c == c1
    decreases |j.pat| - p, 1
  {
    hide StepAt, ChosenItem;
    var step := StepAt(j, s, p, caps);
    if step.Goes? {
      ChosenOnce(j, step.s, step.p, step.caps, e, c, e1, c1);
    } else if step.Item? {
      ItemOnce(j, s, p, step.ep, step.ep + 1, caps, e, c, e1, c1);
    }
  }

  lemma {:induction false} ItemOnce(j: Job, s: nat, p: nat, ep: nat, q: nat, caps: seq<Cap>, e: nat, c: seq<Cap>,
                                    e1: nat, c1: seq<Cap>)
    requires p < ep <= |j.pat| && q == ep + 1
    requires ChosenItem(j, s, p, ep, q, caps, e, c) && ChosenItem(j, s, p, ep, q, caps, e1, c1)
    ensures e == e1 && c == c1
    decreases |j.pat| - p, 0
  {
    hide Chosen, SingleAt, Can;
    var d := At(j.pat, ep);
    if d == '*' || d == '+' || d == '-' {
      var x: nat :| Ends(j, s, x, p, ep, q, caps, d) && Chosen(j, x, q, caps, e, c);
      var y: nat :| Ends(j, s, y, p, ep, q, caps, d) && Chosen(j, y, q, caps, e1, c1);
      ChosenCan(j, x, q, caps, e, c);
      ChosenCan(j, y, q, caps, e1, c1);
      EndsOnce(j, s, x, y, p, ep, q, caps, d);
      ChosenOnce(j, x, q, caps, e, c, e1, c1);
    } else if d == '?' {
      var s1 := if SingleAt(j, s, p, ep) && Can(j, s + 1, q, caps) then s + 1 else s;
      ChosenOnce(j, s1, q, caps, e, c, e1, c1);
    } else {
      ChosenOnce(j, s + 1, ep, caps, e, c, e1, c1);
    }
  }

  /** Where a repeated item ends. */
  ghost predicate Ends(j: Job, s: nat, x: nat, p: nat, ep: nat, q: nat, caps: seq<Cap>, suffix: char) {
    if suffix == '-' then ShortestAt(j, s, x, p, ep, q, caps)
    else LongestAt(j, s, x, p, ep, q, caps) && (suffix == '+' ==> x > s)
  }

  lemma EndsOnce(j: Job, s: nat, x: nat, y: nat, p: nat, ep: nat, q: nat, caps: seq<Cap>, suffix: char)
    requires Ends(j, s, x, p, ep, q, caps, suffix) && Can(j, x, q, caps)
    requires Ends(j, s, y, p, ep, q, caps, suffix) && Can(j, y, q, caps)
    ensures x == y
  {
    hide Can, SingleAt;
    assert Repeats(j, s, x, p, ep) && Repeats(j, s, y, p, ep);
  }

  lemma ChosenCan(j: Job, s: nat, p: nat, caps: seq<Cap>, e: nat, c: seq<Cap>)
    requires Chosen(j, s, p, caps, e, c)
    ensures Can(j, s, p, caps)
  {
    ChosenDerives(j, s, p, caps, e, c);
  }

  // ---------- The search makes the choice ----------

  lemma {:induction false} SearchChooses(j: Job, s: nat, p: nat, caps: seq<Cap>)
    requires Search(j, s, p, caps).Matched?
    ensures var r := Search(j, s, p, caps); Chosen(j, s, p, caps, r.e, r.caps)
    decreases |j.pat| - p, 1
  {
    hide StepAt, Search;
    var step := StepAt(j, s, p, caps);
    StepSearch(j, s, p, caps);
    if step.Goes? {
      SearchChooses(j, step.s, step.p, step.caps);
    } else if step.Item? {
      ItemChooses(j, s, p, step.ep, caps);
    }
  }

  lemma {:induction false} ItemChooses(j: Job, s: nat, p: nat, ep: nat, caps: seq<Cap>)
    requires IsItem(j, p, ep) && p < ep <= |j.pat| && SearchItem(j, s, p, ep, caps).Matched?
    ensures var r := SearchItem(j, s, p, ep, caps); ChosenItem(j, s, p, ep, ep + 1, caps, r.e, r.caps)
    decreases |j.pat| - p, 0
  {
    hide Search, Chosen, Can;
    var q, x := ep + 1, RunEnd(j, s, p, ep);
    RunBound(j, s, p, ep);
    match At(j.pat, ep)
    case '?' =>
      OneMoreOrNot(j, s, p, ep, q, caps);
    case '*' => LongestChosen(j, s, x, q, caps);
    case '+' =>
      if SingleAt(j, s, p, ep) {
        LongestChosen(j, s + 1, x, q, caps);
      }
    case '-' => ShortestChosen(j, s, p, ep, q, caps);
    case _ =>
      SearchChooses(j, s + 1, ep, caps);
  }

  lemma {:induction false} OneMoreOrNot(j: Job, s: nat, p: nat, ep: nat, q: nat, caps: seq<Cap>)
    requires IsItem(j, p, ep) && p < ep < |j.pat| && q == ep + 1 && At(j.pat, ep) == '?'
    requires SearchItem(j, s, p, ep, caps).Matched?
    ensures var r := SearchItem(j, s, p, ep, caps); ChosenItem(j, s, p, ep, q, caps, r.e, r.caps)
    decreases |j.pat| - q, 2
  {
    hide Search, Chosen;
    SearchRight(j, s + 1, q, caps);
    if SingleAt(j, s, p, ep) && Search(j, s + 1, q, caps).Matched? {
      SearchChooses(j, s + 1, q, caps);
    } else {
      SearchChooses(j, s, q, caps);
    }
  }

  /** `max_expand` stops where `LongestAt` says. */
  lemma {:induction false} LongestChosen(j: Job, s: nat, x: nat, q: nat, caps: seq<Cap>)
    requires s <= x && q <= |j.pat| + 1 && MaxExpand(j, s, x, q, caps).Matched?
    ensures var r := MaxExpand(j, s, x, q, caps);
            exists y: nat :: s <= y <= x && Chosen(j, y, q, caps, r.e, r.caps) &&
                             forall z: nat :: y < z <= x ==> !Can(j, z, q, caps)
    decreases |j.pat| - q, 2, x
  {
    hide Search, Chosen;
    SearchRight(j, x, q, caps);
    if Search(j, x, q, caps).Matched? {
      SearchChooses(j, x, q, caps);
    } else {
      LongestChosen(j, s, x - 1, q, caps);
    }
  }

  lemma {:induction false} ShortestChosen(j: Job, s: nat, p: nat, ep: nat, q: nat, caps: seq<Cap>)
    requires ep <= |j.pat| && q == ep + 1 && MinExpand(j, s, p, ep, caps).Matched?
    ensures var r := MinExpand(j, s, p, ep, caps);
            exists y: nat :: ShortestAt(j, s, y, p, ep, q, caps) && Chosen(j, y, q, caps, r.e, r.caps)
    decreases |j.pat| - q, 2, if s <= |j.src| then |j.src| - s else 0
  {
    hide Search, Chosen, Can;
    SearchRight(j, s, q, caps);
    if Search(j, s, q, caps).Matched? {
      SearchChooses(j, s, q, caps);
      assert ShortestAt(j, s, s, p, ep, q, caps);
    } else {
      NotThere(j, s, q, caps);
      ShortestChosen(j, s + 1, p, ep, q, caps);
      var r := MinExpand(j, s, p, ep, caps);
      var y: nat :| ShortestAt(j, s + 1, y, p, ep, q, caps) && Chosen(j, y, q, caps, r.e, r.caps);
      assert ShortestAt(j, s, y, p, ep, q, caps);
    }
  }

  lemma NotThere(j: Job, s: nat, q: nat, caps: seq<Cap>)
    requires Search(j, s, q, caps) == NoMatch
    ensures !Can(j, s, q, caps)
  {
    SearchRight(j, s, q, caps);
  }

  // ---------- Errors ----------

  /** Trying to match raises an error: trying goes on, in the order that the suffixes ask for, until there is an error
      or the rest can match. */
  ghost predicate Raises(j: Job, s: nat, p: nat, caps: seq<Cap>)
    decreases |j.pat| - p, 1
  {
    var step := StepAt(j, s, p, caps);
    if step.Goes? then Raises(j, step.s, step.p, step.caps)
    else step.Errs? || (step.Item? && RaisesItem(j, s, p, step.ep, step.ep + 1, caps))
  }

  /** Trying comes to nothing. */
  ghost predicate Quiet(j: Job, s: nat, p: nat, caps: seq<Cap>)
    decreases |j.pat| - p, 2
  {
    !Raises(j, s, p, caps) && !Can(j, s, p, caps)
  }

  ghost predicate RaisesItem(j: Job, s: nat, p: nat, ep: nat, q: nat, caps: seq<Cap>)
    requires p < ep <= |j.pat| && q == ep + 1
    decreases |j.pat| - p, 0
  {
    match At(j.pat, ep)
    case '?' =>
      Raises(j, if SingleAt(j, s, p, ep) && !Quiet(j, s + 1, q, caps) then s + 1 else s, q, caps)
    case '*' =>
      exists x: nat :: && Repeats(j, s, x, p, ep) && Raises(j, x, q, caps)
                       && forall z: nat :: z > x && Repeats(j, s, z, p, ep) ==> Quiet(j, z, q, caps)
    case '+' =>
      exists x: nat :: && x > s && Repeats(j, s, x, p, ep) && Raises(j, x, q, caps)
                       && forall z: nat :: z > x && Repeats(j, s, z, p, ep) ==> Quiet(j, z, q, caps)
    case '-' =>
      exists x: nat :: && Repeats(j, s, x, p, ep) && Raises(j, x, q, caps)
                       && forall z: nat :: s <= z < x ==> Quiet(j, z, q, caps)
    case _ => SingleAt(j, s, p, ep) && Raises(j, s + 1, ep, caps)
  }

  lemma {:induction false} RaisesExactly(j: Job, s: nat, p: nat, caps: seq<Cap>)
    ensures Search(j, s, p, caps) == Malformed <==> Raises(j, s, p, caps)
    decreases |j.pat| - p, 3
  {
    hide StepAt, Search, RaisesItem;
    var step := StepAt(j, s, p, caps);
    StepSearch(j, s, p, caps);
    if step.Goes? {
      RaisesExactly(j, step.s, step.p, step.caps);
    } else if step.Item? {
      ItemRaises(j, s, p, step.ep, step.ep + 1, caps);
    }
  }

  /** What trying from there comes to. */
  lemma TriedFrom(j: Job, s: nat, p: nat, caps: seq<Cap>)
    ensures var r := Search(j, s, p, caps);
            && (r == Malformed <==> Raises(j, s, p, caps))
            && (r == NoMatch <==> Quiet(j, s, p, caps))
    decreases |j.pat| - p, 4
  {
    hide Search, Raises, Derives;
    RaisesExactly(j, s, p, caps);
    SearchRight(j, s, p, caps);
    var r := Search(j, s, p, caps);
    if r.Matched? {
      assert Derives(j, s, p, caps, r.e, r.caps);
    }
  }

  lemma {:induction false} ItemRaises(j: Job, s: nat, p: nat, ep: nat, q: nat, caps: seq<Cap>)
    requires IsItem(j, p, ep) && p < ep <= |j.pat| && q == ep + 1
    ensures SearchItem(j, s, p, ep, caps) == Malformed <==> RaisesItem(j, s, p, ep, q, caps)
    decreases |j.pat| - p, 2
  {
    hide Search, Raises, Quiet;
    var d := At(j.pat, ep);
    if d == '*' || d == '+' || d == '-' {
      RepeatRaises(j, s, p, ep, q, caps, d);
    } else if d == '?' {
      TriedFrom(j, s + 1, q, caps);
      TriedFrom(j, s, q, caps);
    } else {
      RaisesExactly(j, s + 1, ep, caps);
    }
  }

  /** The error is met after the repetition that ends at `x`, and nothing after a longer one. */
  ghost predicate RaisesDown(j: Job, s: nat, x: nat, p: nat, ep: nat, q: nat, caps: seq<Cap>) {
    && Repeats(j, s, x, p, ep) && Raises(j, x, q, caps)
    && forall z: nat :: z > x && Repeats(j, s, z, p, ep) ==> Quiet(j, z, q, caps)
  }

  /** And nothing after a shorter one. */
  ghost predicate RaisesUp(j: Job, s: nat, x: nat, p: nat, ep: nat, q: nat, caps: seq<Cap>) {
    Repeats(j, s, x, p, ep) && Raises(j, x, q, caps) && forall z: nat :: s <= z < x ==> Quiet(j, z, q, caps)
  }

  ghost predicate RaisesAfter(j: Job, s: nat, x: nat, p: nat, ep: nat, q: nat, caps: seq<Cap>, suffix: char) {
    if suffix == '-' then RaisesUp(j, s, x, p, ep, q, caps)
    else RaisesDown(j, s, x, p, ep, q, caps) && (suffix == '+' ==> x > s)
  }

  lemma RepeatForm(j: Job, s: nat, p: nat, ep: nat, q: nat, caps: seq<Cap>, d: char)
    requires p < ep < |j.pat| && q == ep + 1 && d == At(j.pat, ep) && (d == '*' || d == '+' || d == '-')
    ensures RaisesItem(j, s, p, ep, q, caps) <==> exists x: nat :: RaisesAfter(j, s, x, p, ep, q, caps, d)
  {
    hide Raises, Quiet, Repeats;
    if RaisesItem(j, s, p, ep, q, caps) {
      var x: nat :| && Repeats(j, s, x, p, ep) && Raises(j, x, q, caps) && (d == '+' ==> x > s)
                    && if d == '-' then forall z: nat :: s <= z < x ==> Quiet(j, z, q, caps)
                       else forall z: nat :: z > x && Repeats(j, s, z, p, ep) ==> Quiet(j, z, q, caps);
      assert RaisesAfter(j, s, x, p, ep, q, caps, d);
    }
  }

  lemma {:induction false} RepeatRaises(j: Job, s: nat, p: nat, ep: nat, q: nat, caps: seq<Cap>, d: char)
    requires IsItem(j, p, ep) && p < ep < |j.pat| && q == ep + 1
    requires d == At(j.pat, ep) && (d == '*' || d == '+' || d == '-')
    ensures SearchItem(j, s, p, ep, caps) == Malformed <==> RaisesItem(j, s, p, ep, q, caps)
    decreases |j.pat| - p, 1
  {
    hide Search, Raises, Quiet, RaisesDown, RaisesUp, RaisesItem, MaxExpand, MinExpand;
    RepeatForm(j, s, p, ep, q, caps, d);
    RunBound(j, s, p, ep);
    var lo, end := if d == '+' then s + 1 else s, RunEnd(j, s, p, ep);
    if SearchItem(j, s, p, ep, caps) == Malformed {
      var x;
      if d == '-' {
        x := UpWhere(j, s, p, ep, q, caps);
      } else {
        x := DownWhere(j, s, lo, p, ep, q, caps);
      }
      assert RaisesAfter(j, s, x, p, ep, q, caps, d);
    }
    forall x: nat | RaisesAfter(j, s, x, p, ep, q, caps, d)
      ensures SearchItem(j, s, p, ep, caps) == Malformed
    {
      if d == '-' {
        UpThere(j, s, p, ep, q, caps, x);
      } else {
        DownThere(j, s, lo, p, ep, q, caps, x);
      }
    }
  }

  /** Repetitions are tried from the longest down to the one that ends at `lo`. */
  lemma {:induction false} DownWhere(j: Job, s: nat, lo: nat, p: nat, ep: nat, q: nat, caps: seq<Cap>) returns (x: nat)
    requires ep <= |j.pat| && q == ep + 1 && s <= lo <= RunEnd(j, s, p, ep)
    requires MaxExpand(j, lo, RunEnd(j, s, p, ep), q, caps) == Malformed
    ensures x >= lo && RaisesDown(j, s, x, p, ep, q, caps)
    decreases |j.pat| - q, 6
  {
    hide Search, Raises, Quiet, MaxExpand;
    RunBound(j, s, p, ep);
    hide RunEnd, Repeats;
    x := WhereRaised(j, lo, RunEnd(j, s, p, ep), q, caps);
  }

  lemma {:induction false} DownThere(j: Job, s: nat, lo: nat, p: nat, ep: nat, q: nat, caps: seq<Cap>, x: nat)
    requires ep <= |j.pat| && q == ep + 1 && s <= lo && (lo == s || lo <= x) && RaisesDown(j, s, x, p, ep, q, caps)
    ensures x <= RunEnd(j, s, p, ep) && MaxExpand(j, lo, RunEnd(j, s, p, ep), q, caps) == Malformed
    decreases |j.pat| - q, 6
  {
    hide Search, Raises, Quiet, MaxExpand;
    RunBound(j, s, p, ep);
    assert Repeats(j, s, x, p, ep);
    hide RunEnd, Repeats;
    RaisedThere(j, lo, RunEnd(j, s, p, ep), q, caps, x);
  }

  lemma {:induction false} WhereRaised(j: Job, s: nat, x: nat, q: nat, caps: seq<Cap>) returns (y: nat)
    requires s <= x && q <= |j.pat| + 1 && MaxExpand(j, s, x, q, caps) == Malformed
    ensures s <= y <= x && Raises(j, y, q, caps) && forall z: nat :: y < z <= x ==> Quiet(j, z, q, caps)
    decreases |j.pat| - q, 5, x
  {
    hide Search, Raises, Quiet;
    TriedFrom(j, x, q, caps);
    y := x;
    if Search(j, x, q, caps) == NoMatch {
      y := WhereRaised(j, s, x - 1, q, caps);
    }
  }

  lemma {:induction false} RaisedThere(j: Job, s: nat, x: nat, q: nat, caps: seq<Cap>, y: nat)
    requires s <= y <= x && q <= |j.pat| + 1 && Raises(j, y, q, caps)
    requires forall z: nat :: y < z <= x ==> Quiet(j, z, q, caps)
    ensures MaxExpand(j, s, x, q, caps) == Malformed
    decreases |j.pat| - q, 5, x
  {
    hide Search, Raises, Quiet;
    TriedFrom(j, x, q, caps);
    if y < x {
      RaisedThere(j, s, x - 1, q, caps, y);
    }
  }

  lemma {:induction false} UpWhere(j: Job, s: nat, p: nat, ep: nat, q: nat, caps: seq<Cap>) returns (x: nat)
    requires ep <= |j.pat| && q == ep + 1 && MinExpand(j, s, p, ep, caps) == Malformed
    ensures RaisesUp(j, s, x, p, ep, q, caps)
    decreases |j.pat| - q, 5, if s <= |j.src| then |j.src| - s else 0
  {
    hide Search, Raises, Quiet;
    TriedFrom(j, s, q, caps);
    x := s;
    if Search(j, s, q, caps) == NoMatch {
      x := UpWhere(j, s + 1, p, ep, q, caps);
    }
  }

  lemma {:induction false} UpThere(j: Job, s: nat, p: nat, ep: nat, q: nat, caps: seq<Cap>, x: nat)
    requires ep <= |j.pat| && q == ep + 1 && RaisesUp(j, s, x, p, ep, q, caps)
    ensures MinExpand(j, s, p, ep, caps) == Malformed
    decreases |j.pat| - q, 5, if s <= x then x - s else 0
  {
    hide Search, Raises, Quiet;
    TriedFrom(j, s, q, caps);
    assert Repeats(j, s, x, p, ep);
    if s < x {
      assert Quiet(j, s, q, caps) && SingleAt(j, s, p, ep);
      assert RaisesUp(j, s + 1, x, p, ep, q, caps);
      UpThere(j, s + 1, p, ep, q, caps, x);
    }
  }

  /** The whole of it: an error where trying raises one, else the choice, else no match. */
  lemma SearchExactly(j: Job, s: nat, p: nat, caps: seq<Cap>)
    ensures match Search(j, s, p, caps)
            case Malformed => Raises(j, s, p, caps)
            case Matched(e, caps') =>
              && !Raises(j, s, p, caps)
              && forall e1, c1 :: Chosen(j, s, p, caps, e1, c1) <==> e1 == e && c1 == caps'
            case NoMatch => !Raises(j, s, p, caps) && forall e1, c1 :: !Chosen(j, s, p, caps, e1, c1)
  {
    hide Search, Chosen, Derives, Raises;
    var r := Search(j, s, p, caps);
    RaisesExactly(j, s, p, caps);
    SearchRight(j, s, p, caps);
    if r.Matched? {
      SearchChooses(j, s, p, caps);
    }
    forall e1, c1 | Chosen(j, s, p, caps, e1, c1)
      ensures Derives(j, s, p, caps, e1, c1) && (r.Matched? ==> e1 == r.e && c1 == r.caps)
    {
      ChosenDerives(j, s, p, caps, e1, c1);
      if r.Matched? {
        ChosenOnce(j, s, p, caps, e1, c1, r.e, r.caps);
      }
    }
  }
}
