/** When a pattern raises no error (lstrlib.cpp:166-201, 361-451): reading it once from left to right is
    enough to tell, for every subject; and the captures of a match lie inside the subject. */
module PatternErrors {
  import opened Patterns

  /** Which captures are still open, in the order in which they began. */
  function OpenOf(caps: seq<Cap>): (open: seq<bool>)
    ensures |open| == |caps|
  {
    seq(|caps|, k requires 0 <= k < |caps| => caps[k].len == CAP_UNFINISHED)
  }

  function LastOpen(open: seq<bool>): (l: int)
    ensures l == -1 || (0 <= l < |open| && open[l])
    decreases |open|
  {
    if open == [] then -1 else if open[|open| - 1] then |open| - 1 else LastOpen(open[..|open| - 1])
  }

  /** The pattern from `p` on has complete items, closes what it opens, and refers back only to captures
      that are finished by then. */
  predicate WellFormed(pat: string, p: nat, open: seq<bool>)
    decreases |pat| - p
  {
    var c, d := At(pat, p), At(pat, p + 1);
    if c == '\0' || (c == '$' && d == '\0') then true !in open
    else if c == '(' then
      |open| < LUA_MAXCAPTURES &&
      if d == ')' then WellFormed(pat, p + 2, open + [false]) else WellFormed(pat, p + 1, open + [true])
    else if c == ')' then LastOpen(open) >= 0 && WellFormed(pat, p + 1, open[LastOpen(open) := false])
    else if c == L_ESC && d == 'b' then At(pat, p + 2) != '\0' && At(pat, p + 3) != '\0' && WellFormed(pat, p + 4, open)
    else if c == L_ESC && d == 'f' then
      At(pat, p + 2) == '[' && ClassEnd(pat, p + 2) >= 0 && WellFormed(pat, ClassEnd(pat, p + 2), open)
    else if c == L_ESC && IsDigit(d) then
      var l := d as int - '1' as int;
      0 <= l < |open| && !open[l] && WellFormed(pat, p + 2, open)
    else
      var ep := ClassEnd(pat, p);
      ep >= 0 && if Repeated(pat, ep) then WellFormed(pat, ep + 1, open) else WellFormed(pat, ep, open)
  }

  predicate Repeated(pat: string, ep: nat) {
    At(pat, ep) == '?' || At(pat, ep) == '*' || At(pat, ep) == '+' || At(pat, ep) == '-'
  }

  /** A capture begins at or before `s`, and ends there too if it is finished. */
  predicate Within(cap: Cap, s: nat) {
    cap.init <= s && (cap.len == CAP_UNFINISHED || cap.len == CAP_POSITION || (cap.len >= 0 && cap.init + cap.len <= s))
  }

  ghost predicate AllWithin(caps: seq<Cap>, s: nat) {
    forall k :: 0 <= k < |caps| ==> Within(caps[k], s)
  }

  /** What a match of a well-formed pattern leaves behind. */
  ghost predicate Finished(j: Job, s: nat, caps: seq<Cap>, r: Outcome) {
    match r
    case Matched(e, caps') => s <= e <= |j.src| && |caps| <= |caps'| && AllWithin(caps', e) && true !in OpenOf(caps')
    case NoMatch => true
    case Malformed => false
  }

  ghost predicate Ready(j: Job, s: nat, p: nat, caps: seq<Cap>) {
    s <= |j.src| && AllWithin(caps, s) && WellFormed(j.pat, p, OpenOf(caps))
  }

  lemma {:induction false} LastToClose(caps: seq<Cap>)
    ensures LastOpen(OpenOf(caps)) == ToClose(caps)
    decreases |caps|
  {
    if caps != [] {
      assert OpenOf(caps)[..|caps| - 1] == OpenOf(caps[..|caps| - 1]);
      LastToClose(caps[..|caps| - 1]);
    }
  }

  /** A well-formed pattern never raises an error, whatever the subject and wherever the match starts. */
  lemma {:induction false} NeverMalformed(j: Job, s: nat, p: nat, caps: seq<Cap>)
    requires Ready(j, s, p, caps)
    ensures Finished(j, s, caps, Search(j, s, p, caps))
    decreases |j.pat| - p, 1, 0
  {
    hide MatchClass, Items, InSome, InSet, Single, Derives, Repeats, SetEnd;
    var c, d := At(j.pat, p), At(j.pat, p + 1);
    if c == '\0' || (c == '$' && d == '\0') {
    } else if c == '(' || c == ')' {
      CaptureFinished(j, s, p, caps);
    } else if c == L_ESC && (d == 'b' || d == 'f' || IsDigit(d)) {
      EscapeFinished(j, s, p, caps);
    } else {
      ItemFinished(j, s, p, ClassEnd(j.pat, p), caps);
    }
  }

  lemma {:induction false} CaptureFinished(j: Job, s: nat, p: nat, caps: seq<Cap>)
    requires Ready(j, s, p, caps) && (At(j.pat, p) == '(' || At(j.pat, p) == ')')
    ensures Finished(j, s, caps, Search(j, s, p, caps))
    decreases |j.pat| - p, 0, 0
  {
    hide MatchClass, Items, InSome, InSet, Single, Derives, Repeats, SetEnd, ClassEnd;
    if At(j.pat, p) == ')' {
      LastToClose(caps);
      assert OpenOf(CloseCap(caps, s)) == OpenOf(caps)[ToClose(caps) := false];
      NeverMalformed(j, s, p + 1, CloseCap(caps, s));
    } else if At(j.pat, p + 1) == ')' {
      assert OpenOf(caps + [Cap(s, CAP_POSITION)]) == OpenOf(caps) + [false];
      NeverMalformed(j, s, p + 2, caps + [Cap(s, CAP_POSITION)]);
    } else {
      assert OpenOf(caps + [Cap(s, CAP_UNFINISHED)]) == OpenOf(caps) + [true];
      NeverMalformed(j, s, p + 1, caps + [Cap(s, CAP_UNFINISHED)]);
    }
  }

  lemma {:induction false} EscapeFinished(j: Job, s: nat, p: nat, caps: seq<Cap>)
    requires Ready(j, s, p, caps)
    requires At(j.pat, p) == L_ESC && (At(j.pat, p + 1) == 'b' || At(j.pat, p + 1) == 'f' || IsDigit(At(j.pat, p + 1)))
    ensures Finished(j, s, caps, Search(j, s, p, caps))
    decreases |j.pat| - p, 0, 0
  {
    hide MatchClass, Items, InSome, InSet, Single, Derives, Repeats, SetEnd, ClassEnd;
    var d := At(j.pat, p + 1);
    if d == 'b' {
      var r := BalanceEnd(j.src, s + 1, At(j.pat, p + 2), At(j.pat, p + 3), 1);
      if r >= 0 {
        NeverMalformed(j, r, p + 4, caps);
      }
    } else if d == 'f' {
      NeverMalformed(j, s, ClassEnd(j.pat, p + 2), caps);
    } else {
      var l := CaptureIndex(caps, d);
      assert l >= 0;
      if BackEnd(j.src, s, caps[l]) >= 0 {
        NeverMalformed(j, BackEnd(j.src, s, caps[l]), p + 2, caps);
      }
    }
  }

  lemma {:induction false} ItemFinished(j: Job, s: nat, p: nat, ep: nat, caps: seq<Cap>)
    requires s <= |j.src| && AllWithin(caps, s) && p < ep <= |j.pat|
    requires if Repeated(j.pat, ep) then WellFormed(j.pat, ep + 1, OpenOf(caps))
             else WellFormed(j.pat, ep, OpenOf(caps))
    ensures Finished(j, s, caps, SearchItem(j, s, p, ep, caps))
    decreases |j.pat| - p, 0, 0
  {
    hide MatchClass, Items, InSome, InSet, Single, Derives, Repeats, SetEnd, ClassEnd, WellFormed;
    match At(j.pat, ep)
    case '?' =>
      if SingleAt(j, s, p, ep) {
        NeverMalformed(j, s + 1, ep + 1, caps);
      }
      NeverMalformed(j, s, ep + 1, caps);
    case '*' => MaxFinished(j, s, RunEnd(j, s, p, ep), ep + 1, caps);
    case '+' =>
      if SingleAt(j, s, p, ep) {
        MaxFinished(j, s + 1, RunEnd(j, s + 1, p, ep), ep + 1, caps);
      }
    case '-' => MinFinished(j, s, p, ep, caps);
    case _ =>
      if SingleAt(j, s, p, ep) {
        NeverMalformed(j, s + 1, ep, caps);
      }
  }

  lemma {:induction false} MaxFinished(j: Job, s: nat, x: nat, p: nat, caps: seq<Cap>)
    requires s <= x <= |j.src| && AllWithin(caps, s) && WellFormed(j.pat, p, OpenOf(caps))
    ensures Finished(j, s, caps, MaxExpand(j, s, x, p, caps))
    decreases |j.pat| - p, 2, x
  {
    NeverMalformed(j, x, p, caps);
    if Search(j, x, p, caps) == NoMatch && x > s {
      MaxFinished(j, s, x - 1, p, caps);
    }
  }

  lemma {:induction false} MinFinished(j: Job, s: nat, p: nat, ep: nat, caps: seq<Cap>)
    requires s <= |j.src| && ep <= |j.pat| && AllWithin(caps, s) && WellFormed(j.pat, ep + 1, OpenOf(caps))
    ensures Finished(j, s, caps, MinExpand(j, s, p, ep, caps))
    decreases |j.pat| - ep, 2, |j.src| - s
  {
    NeverMalformed(j, s, ep + 1, caps);
    if Search(j, s, ep + 1, caps) == NoMatch && SingleAt(j, s, p, ep) {
      MinFinished(j, s + 1, p, ep, caps);
    }
  }

  /** On a well-formed pattern the matcher finds an end exactly when the pattern derives one. */
  lemma MatchesIffDerives(j: Job, s: nat)
    requires s <= |j.src| && WellFormed(j.pat, 0, [])
    ensures Search(j, s, 0, []).Matched? <==> exists e, caps :: Derives(j, s, 0, [], e, caps)
  {
    assert OpenOf([]) == [];
    NeverMalformed(j, s, 0, []);
    SearchRight(j, s, 0, []);
    var r := Search(j, s, 0, []);
    assert r.Matched? ==> Derives(j, s, 0, [], r.e, r.caps);
  }
}
