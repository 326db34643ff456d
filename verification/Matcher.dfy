/** The matcher itself (lstrlib.cpp:149-451): it walks the pattern with loops where it can, calls itself
    where it must be able to go back, and keeps the captures in an array that it undoes on failure. */
module Matchers {
  import opened Patterns

  /** A position in the subject, the null pointer, or an error. */
  datatype Ptr = To(e: nat) | Null | Error

  /** The pointer and the captures left behind say what the search says; a failure leaves the captures
      as they were. */
  ghost predicate Says(r: Ptr, after: seq<Cap>, before: seq<Cap>, o: Outcome) {
    match r
    case To(e) => o == Matched(e, after)
    case Null => o == NoMatch && after == before
    case Error => o == Malformed
  }

  lemma InCons(j: Job, c: char, x: Item, rest: seq<Item>)
    ensures InSome(j, c, [x] + rest) <==> InItem(j, c, x) || InSome(j, c, rest)
  {
    var all := [x] + rest;
    if InItem(j, c, x) {
      assert InItem(j, c, all[0]);
    }
    if k :| 0 <= k < |rest| && InItem(j, c, rest[k]) {
      assert all[k + 1] == rest[k];
    }
  }

  class MatchState {
    const j: Job
    var level: nat
    const capture: array<Cap>

    ghost predicate Valid() reads this {
      capture.Length == LUA_MAXCAPTURES && level <= LUA_MAXCAPTURES
    }

    ghost function Caps(): seq<Cap>
      requires Valid()
      reads this, capture
    {
      capture[..level]
    }

    constructor (j: Job)
      ensures Valid() && fresh(capture) && this.j == j && Caps() == []
    {
      this.j := j;
      level := 0;
      capture := new Cap[LUA_MAXCAPTURES](_ => Cap(0, 0));
    }

    method CheckCapture(d: char) returns (l: int)
      requires Valid()
      ensures l == CaptureIndex(Caps(), d)
    {
      l := d as int - '1' as int;
      if l < 0 || l >= level || capture[l].len == CAP_UNFINISHED {
        l := -1;
      }
    }

    method CaptureToClose() returns (l: int)
      requires Valid()
      ensures l == ToClose(Caps())
    {
      l := level - 1;
      assert Caps()[..l + 1] == Caps();
      while l >= 0
        invariant -1 <= l < level
        invariant ToClose(Caps()) == ToClose(Caps()[..l + 1])
      {
        assert Caps()[..l + 1][..l] == Caps()[..l];
        if capture[l].len == CAP_UNFINISHED {
          return;
        }
        l := l - 1;
      }
    }

    method ClassEnd(p: nat) returns (e: int)
      requires At(j.pat, p) != '\0'
      ensures e == Patterns.ClassEnd(j.pat, p)
    {
      if At(j.pat, p) == L_ESC {
        e := if At(j.pat, p + 1) == '\0' then -1 else p + 2;
      } else if At(j.pat, p) == '[' {
        var q := if At(j.pat, p + 1) == '^' then p + 2 else p + 1;
        while true
          invariant SetEnd(j.pat, q) == Patterns.ClassEnd(j.pat, p)
          decreases |j.pat| - q
        {
          if At(j.pat, q) == '\0' {
            return -1;
          }
          q := if At(j.pat, q) == L_ESC && At(j.pat, q + 1) != '\0' then q + 2 else q + 1;
          if At(j.pat, q) == ']' {
            return q + 1;
          }
        }
      } else {
        e := p + 1;
      }
    }

    method MatchBracketClass(c: char, p: nat, ec: nat) returns (r: bool)
      ensures r <==> InSet(j, c, p, ec)
    {
      var sig := At(j.pat, p + 1) != '^';
      var q := if sig then p + 1 else p + 2;
      while q < ec
        invariant InSet(j, c, p, ec) <==> InSome(j, c, Items(j.pat, q, ec)) == sig
        decreases ec - q
      {
        if At(j.pat, q) == L_ESC {
          InCons(j, c, Class(At(j.pat, q + 1)), Items(j.pat, q + 2, ec));
          if MatchClass(j, c, At(j.pat, q + 1)) {
            return sig;
          }
          q := q + 2;
        } else if At(j.pat, q + 1) == '-' && q + 2 < ec {
          InCons(j, c, Range(At(j.pat, q), At(j.pat, q + 2)), Items(j.pat, q + 3, ec));
          if At(j.pat, q) <= c <= At(j.pat, q + 2) {
            return sig;
          }
          q := q + 3;
        } else {
          InCons(j, c, Range(At(j.pat, q), At(j.pat, q)), Items(j.pat, q + 1, ec));
          if At(j.pat, q) == c {
            return sig;
          }
          q := q + 1;
        }
      }
      return !sig;
    }

    method SingleMatch(c: char, p: nat, ep: nat) returns (r: bool)
      requires p < ep
      ensures r <==> Single(j, c, p, ep)
    {
      match At(j.pat, p)
      case '.' => r := true;
      case '%' => r := MatchClass(j, c, At(j.pat, p + 1));
      case '[' => r := MatchBracketClass(c, p, ep - 1);
      case x => r := x == c;
    }

    method SingleHere(s: nat, p: nat, ep: nat) returns (r: bool)
      requires p < ep
      ensures r <==> SingleAt(j, s, p, ep)
    {
      r := s < |j.src|;
      if r {
        r := SingleMatch(j.src[s], p, ep);
      }
    }

    method MatchBalance(s: nat, p: nat) returns (r: Ptr)
      ensures At(j.pat, p) == '\0' || At(j.pat, p + 1) == '\0' ==> r == Error
      ensures At(j.pat, p) != '\0' && At(j.pat, p + 1) != '\0' ==>
        r == if At(j.src, s) != At(j.pat, p)
                || BalanceEnd(j.src, s + 1, At(j.pat, p), At(j.pat, p + 1), 1) < 0 then Null
             else To(BalanceEnd(j.src, s + 1, At(j.pat, p), At(j.pat, p + 1), 1))
    {
      if At(j.pat, p) == '\0' || At(j.pat, p + 1) == '\0' {
        return Error;
      }
      if At(j.src, s) != At(j.pat, p) {
        return Null;
      }
      var b, e, cont, q := At(j.pat, p), At(j.pat, p + 1), 1, s + 1;
      while q < |j.src|
        invariant cont >= 1 && BalanceEnd(j.src, q, b, e, cont) == BalanceEnd(j.src, s + 1, b, e, 1)
      {
        if j.src[q] == e {
          cont := cont - 1;
          if cont == 0 {
            return To(q + 1);
          }
        } else if j.src[q] == b {
          cont := cont + 1;
        }
        q := q + 1;
      }
      return Null;
    }

    method MatchCapture(s: nat, d: char) returns (r: Ptr)
      requires Valid()
      ensures
        var l := CaptureIndex(Caps(), d);
        r == if l < 0 then Error else if BackEnd(j.src, s, Caps()[l]) < 0 then Null
            else To(BackEnd(j.src, s, Caps()[l]))
    {
      var l := CheckCapture(d);
      if l < 0 {
        return Error;
      }
      var e := BackEnd(j.src, s, capture[l]);
      r := if e < 0 then Null else To(e);
    }

    method MaxExpand(s: nat, p: nat, ep: nat) returns (r: Ptr)
      requires Valid() && p < ep <= |j.pat|
      modifies `level, capture
      ensures Valid() && Says(r, Caps(), old(Caps()),
                              Patterns.MaxExpand(j, s, RunEnd(j, s, p, ep), ep + 1, old(Caps())))
      decreases |j.pat| - ep, 2
    {
      hide InSome;
      ghost var caps := Caps();
      var i := 0;
      var more := SingleHere(s, p, ep);
      while more
        invariant Valid() && Caps() == caps
        invariant more <==> SingleAt(j, s + i, p, ep)
        invariant RunEnd(j, s + i, p, ep) == RunEnd(j, s, p, ep)
        decreases |j.src| - s - i
      {
        i := i + 1;
        more := SingleHere(s + i, p, ep);
      }
      while i >= 0
        invariant -1 <= i && Valid() && Caps() == caps
        invariant i >= 0 ==>
                    Patterns.MaxExpand(j, s, s + i, ep + 1, caps) ==
                    Patterns.MaxExpand(j, s, RunEnd(j, s, p, ep), ep + 1, caps)
        invariant i < 0 ==> NoMatch == Patterns.MaxExpand(j, s, RunEnd(j, s, p, ep), ep + 1, caps)
      {
        r := Match(s + i, ep + 1);
        if r != Null {
          return;
        }
        i := i - 1;
      }
      r := Null;
    }

    method MinExpand(s0: nat, p: nat, ep: nat) returns (r: Ptr)
      requires Valid() && p < ep <= |j.pat|
      modifies `level, capture
      ensures Valid() && Says(r, Caps(), old(Caps()), Patterns.MinExpand(j, s0, p, ep, old(Caps())))
      decreases |j.pat| - ep, 2
    {
      var s := s0;
      ghost var caps := Caps();
      while true
        invariant Valid() && Caps() == caps
        invariant Patterns.MinExpand(j, s, p, ep, caps) == Patterns.MinExpand(j, s0, p, ep, caps)
        decreases |j.src| - s
      {
        r := Match(s, ep + 1);
        if r != Null {
          return;
        }
        var more := SingleHere(s, p, ep);
        if !more {
          return;
        }
        s := s + 1;
      }
    }

    method StartCapture(s: nat, p: nat, what: int) returns (r: Ptr)
      requires Valid()
      modifies `level, capture
      ensures Valid() && (old(level) == LUA_MAXCAPTURES ==> r == Error)
      ensures old(level) < LUA_MAXCAPTURES ==> Says(r, Caps(), old(Caps()),
                                                    Search(j, s, p, old(Caps()) + [Cap(s, what)]))
      decreases |j.pat| - p, 2
    {
      if level >= LUA_MAXCAPTURES {
        return Error;
      }
      ghost var caps := Caps();
      capture[level] := Cap(s, what);
      level := level + 1;
      assert Caps() == caps + [Cap(s, what)];
      r := Match(s, p);
      if r == Null {
        level := level - 1;
        assert Caps() == (caps + [Cap(s, what)])[..level];
      }
    }

    method EndCapture(s: nat, p: nat) returns (r: Ptr)
      requires Valid()
      modifies `level, capture
      ensures Valid() && (ToClose(old(Caps())) < 0 ==> r == Error)
      ensures ToClose(old(Caps())) >= 0 ==> Says(r, Caps(), old(Caps()), Search(j, s, p, CloseCap(old(Caps()), s)))
      decreases |j.pat| - p, 2
    {
      var l := CaptureToClose();
      if l < 0 {
        return Error;
      }
      ghost var caps := Caps();
      capture[l] := Cap(capture[l].init, s - capture[l].init);
      assert Caps() == CloseCap(caps, s);
      r := Match(s, p);
      if r == Null {
        capture[l] := Cap(capture[l].init, CAP_UNFINISHED);
        assert Caps() == CloseCap(caps, s)[l := caps[l]] == caps;
      }
    }

    /** The escapes that are no items: a balanced string, a frontier, a back reference. Where the match
        goes on is a position in the subject and one in the pattern. */
    method MatchEscape(s: nat, p: nat) returns (r: Ptr, q: nat)
      requires Valid() && At(j.pat, p) == L_ESC
      requires At(j.pat, p + 1) == 'b' || At(j.pat, p + 1) == 'f' || IsDigit(At(j.pat, p + 1))
      ensures r.To? ==> p < q && Search(j, s, p, Caps()) == Search(j, r.e, q, Caps())
      ensures !r.To? ==> Says(r, Caps(), Caps(), Search(j, s, p, Caps()))
    {
      hide MatchClass, Items, InSome, InSet, Single, SingleAt, Patterns.ClassEnd, SetEnd, BalanceEnd, BackEnd,
           CaptureIndex;
      hide ToClose, CloseCap, RunEnd, Patterns.MaxExpand, Patterns.MinExpand, SearchItem, Derives, Repeats;
      var d := At(j.pat, p + 1);
      if d == 'b' {
        r := MatchBalance(s, p + 2);
        q := p + 4;
      } else if d == 'f' {
        q := p + 2;
        if At(j.pat, p + 2) != '[' {
          return Error, q;
        }
        var ep := ClassEnd(p + 2);
        if ep < 0 {
          return Error, q;
        }
        var previous := if s == 0 then '\0' else At(j.src, s - 1);
        var before := MatchBracketClass(previous, p + 2, ep - 1);
        var here := MatchBracketClass(At(j.src, s), p + 2, ep - 1);
        if before || !here {
          return Null, q;
        }
        r, q := To(s), ep;
      } else {
        r := MatchCapture(s, d);
        q := p + 2;
      }
    }

    method Match(s0: nat, p0: nat) returns (r: Ptr)
      requires Valid()
      modifies `level, capture
      ensures Valid() && Says(r, Caps(), old(Caps()), Search(j, s0, p0, old(Caps())))
      decreases |j.pat| - p0, 1
    {
      hide MatchClass, Items, InSome, InSet, Single, SingleAt, Patterns.ClassEnd, SetEnd, BalanceEnd, BackEnd,
           CaptureIndex;
      hide ToClose, CloseCap, RunEnd, AtFrontier, Patterns.MaxExpand, Patterns.MinExpand, Derives, Repeats;
      var s, p := s0, p0;
      ghost var caps := Caps();
      while true
        invariant Valid() && Caps() == caps && p >= p0 && Search(j, s, p, caps) == Search(j, s0, p0, caps)
        decreases |j.pat| - p
      {
        var c, d := At(j.pat, p), At(j.pat, p + 1);
        if c == '\0' {
          return To(s);
        } else if c == '(' {
          if d == ')' {
            r := StartCapture(s, p + 2, CAP_POSITION);
          } else {
            r := StartCapture(s, p + 1, CAP_UNFINISHED);
          }
          return;
        } else if c == ')' {
          r := EndCapture(s, p + 1);
          return;
        } else if c == L_ESC && (d == 'b' || d == 'f' || IsDigit(d)) {
          var q;
          r, q := MatchEscape(s, p);
          if !r.To? {
            return;
          }
          s, p := r.e, q;
        } else if c == '$' && d == '\0' {
          return if s == |j.src| then To(s) else Null;
        } else {
          var ep := ClassEnd(p);
          if ep < 0 {
            return Error;
          }
          var m := SingleHere(s, p, ep);
          if At(j.pat, ep) == '?' {
            if m {
              r := Match(s + 1, ep + 1);
              if r != Null {
                return;
              }
            }
            p := ep + 1;
          } else if At(j.pat, ep) == '*' {
            r := MaxExpand(s, p, ep);
            return;
          } else if At(j.pat, ep) == '+' {
            if !m {
              return Null;
            }
            r := MaxExpand(s + 1, p, ep);
            return;
          } else if At(j.pat, ep) == '-' {
            r := MinExpand(s, p, ep);
            return;
          } else {
            if !m {
              return Null;
            }
            s, p := s + 1, ep;
          }
        }
      }
    }
  }
}
