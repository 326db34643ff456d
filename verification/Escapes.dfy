/** What the escape sequences of a quoted string stand for (llex.cpp:234-279; section 2.1 of the Lua 5.1
    Reference Manual), each with its value. `t` is the text that follows. */
module Escapes {
  import opened Quoting

  /** `\a`, `\b`, `\f`, `\n`, `\r`, `\t` and `\v`. */
  lemma Letters(t: seq<Byte>, del: Byte, line: nat)
    requires del != 92
    ensures ReadTurn([92, 97] + t, del, line) == More(7, t, line)
    ensures ReadTurn([92, 98] + t, del, line) == More(8, t, line)
    ensures ReadTurn([92, 102] + t, del, line) == More(12, t, line)
    ensures ReadTurn([92, 110] + t, del, line) == More(10, t, line)
    ensures ReadTurn([92, 114] + t, del, line) == More(13, t, line)
    ensures ReadTurn([92, 116] + t, del, line) == More(9, t, line)
    ensures ReadTurn([92, 118] + t, del, line) == More(11, t, line)
  {
    Behind(97, t, del, line);
    Behind(98, t, del, line);
    Behind(102, t, del, line);
    Behind(110, t, del, line);
    Behind(114, t, del, line);
    Behind(116, t, del, line);
    Behind(118, t, del, line);
  }

  /** The byte after a backslash and what is left. */
  lemma Behind(c: Byte, t: seq<Byte>, del: Byte, line: nat)
    requires del != 92
    ensures ReadTurn([92, c] + t, del, line) == EscapeTurn([c] + t, line) && ([c] + t)[1..] == t
  {
    assert ([92, c] + t)[1..] == [c] + t;
  }

  /** A byte that is none of these letters, no digit and no line end stands for itself, the delimiter too. */
  lemma Itself(c: Byte, t: seq<Byte>, del: Byte, line: nat)
    requires del != 92 && !(48 <= c <= 57) && c != 10 && c != 13
    requires c != 97 && c != 98 && c != 102 && c != 110 && c != 114 && c != 116 && c != 118
    ensures ReadTurn([92, c] + t, del, line) == More(c, t, line)
  {
    Behind(c, t, del, line);
  }

  /** An escaped line end is a newline; a pair of different ones is one line end. */
  lemma LineEnd(c: Byte, t: seq<Byte>, del: Byte, line: nat)
    requires del != 92 && (c == 10 || c == 13)
    ensures ReadTurn([92, c] + t, del, line) ==
            if line + 1 >= 2_147_483_645 then Stop(TooManyLines)
            else if t != [] && (t[0] == 10 || t[0] == 13) && t[0] != c then More(10, t[1..], line + 1)
            else More(10, t, line + 1)
  {
    Behind(c, t, del, line);
  }

  lemma Split(ds: seq<Byte>, t: seq<Byte>)
    requires ds != []
    ensures [92] + ds + t == [92, ds[0]] + (ds[1..] + t) && [ds[0]] + (ds[1..] + t) == ds + t
    ensures (ds + t)[..|ds|] == ds && (ds + t)[|ds|..] == t
  {
    assert ds == [ds[0]] + ds[1..];
  }

  /** The first `n` bytes of `s`, digits and not more than three, are a number. */
  lemma Number(s: seq<Byte>, n: nat, line: nat)
    requires 0 < n <= 3 && n <= |s| && forall i :: 0 <= i < n ==> 48 <= s[i] <= 57
    requires n == 3 || n == |s| || !(48 <= s[n] <= 57)
    ensures forall i :: 0 <= i < n ==> IsDigit(s[..n][i])
    ensures EscapeTurn(s, line) ==
            var v := DecimalValue(s[..n]); if v > 255 then Stop(EscapeTooLarge) else More(v, s[n..], line)
  {
    hide DecimalValue, DigitCount;
    DigitCountExact(s, 3, n);
  }

  lemma NumberRead(ds: seq<Byte>, t: seq<Byte>, del: Byte, line: nat)
    requires del != 92 && 0 < |ds| <= 3 && forall i :: 0 <= i < |ds| ==> 48 <= ds[i] <= 57
    requires |ds| == 3 || t == [] || !(48 <= t[0] <= 57)
    ensures forall i :: 0 <= i < |ds| ==> IsDigit(ds[i])
    ensures ReadTurn([92] + ds + t, del, line) ==
            var v := DecimalValue(ds); if v > 255 then Stop(EscapeTooLarge) else More(v, t, line)
  {
    hide DecimalValue, ReadTurn, EscapeTurn;
    Split(ds, t);
    Behind(ds[0], ds[1..] + t, del, line);
    Number(ds + t, |ds|, line);
  }

  lemma Values(d: Byte, e: Byte, f: Byte)
    requires 48 <= d <= 57 && 48 <= e <= 57 && 48 <= f <= 57
    ensures DecimalValue([d]) == d - 48 && DecimalValue([d, e]) == 10 * (d - 48) + (e - 48)
    ensures DecimalValue([d, e, f]) == 100 * (d - 48) + 10 * (e - 48) + (f - 48)
  {
    assert [d][..0] == [] && [d, e][..1] == [d] && [d, e, f][..2] == [d, e];
    assert DecimalValue([d]) == d - 48;
    assert DecimalValue([d, e]) == 10 * (d - 48) + (e - 48);
  }

  /** It is decimal: one digit, with none behind it... */
  lemma OneDigit(d: Byte, t: seq<Byte>, del: Byte, line: nat)
    requires del != 92 && 48 <= d <= 57 && (t == [] || !(48 <= t[0] <= 57))
    ensures ReadTurn([92, d] + t, del, line) == More(d - 48, t, line)
  {
    hide ReadTurn, DecimalValue;
    NumberRead([d], t, del, line);
    Values(d, d, d);
    assert [92] + [d] + t == [92, d] + t;
  }

  /** ... two of them... */
  lemma TwoDigits(d: Byte, e: Byte, t: seq<Byte>, del: Byte, line: nat)
    requires del != 92 && 48 <= d <= 57 && 48 <= e <= 57 && (t == [] || !(48 <= t[0] <= 57))
    ensures ReadTurn([92, d, e] + t, del, line) == More(10 * (d - 48) + (e - 48), t, line)
  {
    hide ReadTurn, DecimalValue;
    NumberRead([d, e], t, del, line);
    Values(d, e, e);
    assert [92] + [d, e] + t == [92, d, e] + t;
  }

  /** ... or three, whatever follows. A number above 255 is an error. */
  lemma ThreeDigits(d: Byte, e: Byte, f: Byte, t: seq<Byte>, del: Byte, line: nat)
    requires del != 92 && 48 <= d <= 57 && 48 <= e <= 57 && 48 <= f <= 57
    ensures ReadTurn([92, d, e, f] + t, del, line) ==
            var v := 100 * (d - 48) + 10 * (e - 48) + (f - 48);
            if v > 255 then Stop(EscapeTooLarge) else More(v, t, line)
  {
    hide ReadTurn, DecimalValue;
    NumberRead([d, e, f], t, del, line);
    Values(d, e, f);
    assert [92] + [d, e, f] + t == [92, d, e, f] + t;
  }

  /** The writer uses no others: a backslash before quotes, backslashes and newlines, three digits for a zero. */
  lemma WrittenBytes(c: Byte)
    ensures QuotedByte(c) == if c == 34 || c == 92 || c == 10 then [92, c] else if c == 0 then [92, 48, 48, 48] else [c]
  {
  }
}
