/** The quoting round trip: `string.format("%q")` (lstrlib.cpp, addquoted) writes a string
    that the lexer (llex.cpp, read_string) is meant to read back unchanged. */
module Quoting {
  import opened Common

  type Byte = b: int | 0 <= b < 256 witness 0

  const EOZ: int := -1
  const QUOTE: Byte := 34
  const BACKSLASH: Byte := 92
  const NEWLINE: Byte := 10
  const RETURN: Byte := 13
  const ZERO_DIGIT: Byte := 48

  predicate IsDigit(c: int) {
    ZERO_DIGIT <= c <= ZERO_DIGIT + 9
  }

  predicate IsNewline(c: int) {
    c == NEWLINE || c == RETURN
  }

  // ---------- The writer ----------

  /** What one byte of the string becomes between the quotes. */
  function QuotedByte(c: Byte): seq<Byte> {
    if c == QUOTE || c == BACKSLASH || c == NEWLINE then [BACKSLASH, c]
    else if c == 0 then [BACKSLASH, ZERO_DIGIT, ZERO_DIGIT, ZERO_DIGIT]
    else [c]
  }

  function QuotedBody(s: seq<Byte>): seq<Byte> {
    if s == [] then [] else QuotedByte(s[0]) + QuotedBody(s[1..])
  }

  lemma QuotedBodyEmpty()
    ensures QuotedBody([]) == []
  {
  }

  lemma {:induction false} QuotedBodyAppend(s: seq<Byte>, c: Byte)
    ensures QuotedBody(s + [c]) == QuotedBody(s) + QuotedByte(c)
  {
    if s == [] {
      assert [c][1..] == [];
    } else {
      assert (s + [c])[1..] == s[1..] + [c];
      QuotedBodyAppend(s[1..], c);
    }
  }

  class Buffer {
    var bytes: seq<Byte>

    constructor ()
      ensures bytes == []
    {
      bytes := [];
    }

    method AddChar(c: Byte)
      modifies this
      ensures bytes == old(bytes) + [c]
    {
      bytes := bytes + [c];
    }

    method AddQuoted(s: seq<Byte>)
      modifies this
      ensures bytes == old(bytes) + [QUOTE] + QuotedBody(s) + [QUOTE]
    {
      AddChar(QUOTE);
      QuotedBodyEmpty();
      hide QuotedBody;
      var i := 0;
      while i < |s|
        invariant 0 <= i <= |s|
        invariant bytes == old(bytes) + [QUOTE] + QuotedBody(s[..i])
      {
        var c := s[i];
        ghost var before := bytes;
        QuotedBodyAppend(s[..i], c);
        assert s[..i + 1] == s[..i] + [c];
        if c == QUOTE || c == BACKSLASH || c == NEWLINE {
          AddChar(BACKSLASH);
          AddChar(c);
        } else if c == 0 {
          bytes := bytes + [BACKSLASH, ZERO_DIGIT, ZERO_DIGIT, ZERO_DIGIT];
        } else {
          AddChar(c);
        }
        assert bytes == before + QuotedByte(c);
        i := i + 1;
      }
      assert s[..i] == s;
      AddChar(QUOTE);
    }
  }

  // ---------- The reader ----------

  datatype Outcome =
    | Token(text: seq<Byte>, rest: seq<Byte>, line: nat)
    | Unfinished
    | EscapeTooLarge
    | TooManyLines

  function Prefixed(c: Byte, r: Outcome): Outcome {
    if r.Token? then r.(text := [c] + r.text) else r
  }

  /** The text left after `inclinenumber` at a newline: one newline, or a pair of different ones. */
  function AfterNewline(t: seq<Byte>): (r: seq<Byte>)
    requires t != [] && IsNewline(t[0])
    ensures |r| < |t|
  {
    if |t| > 1 && IsNewline(t[1]) && t[1] != t[0] then t[2..] else t[1..]
  }

  /** The control character a letter escape stands for, or -1. */
  function LetterEscape(c: int): (r: int)
    ensures r == -1 || 0 <= r < 256
  {
    if c == 97 then 7 else if c == 98 then 8 else if c == 102 then 12 else if c == 110 then 10
    else if c == 114 then 13 else if c == 116 then 9 else if c == 118 then 11 else -1
  }

  /** The number of digits, at most `limit`, at the start of `t`. */
  function DigitCount(t: seq<Byte>, limit: nat): (n: nat)
    ensures n <= limit && n <= |t|
    ensures forall i :: 0 <= i < n ==> IsDigit(t[i])
    ensures n == limit || n == |t| || !IsDigit(t[n])
  {
    if limit == 0 || t == [] || !IsDigit(t[0]) then 0 else 1 + DigitCount(t[1..], limit - 1)
  }

  /** The decimal value of `digits`, most significant first. */
  function DecimalValue(digits: seq<Byte>): (v: nat)
    requires forall i :: 0 <= i < |digits| ==> IsDigit(digits[i])
  {
    if digits == [] then 0
    else
      var last := digits[|digits| - 1];
      assert IsDigit(last);
      10 * DecimalValue(digits[..|digits| - 1]) + (last - ZERO_DIGIT)
  }

  /** One turn of the reading loop: it ends, or yields one byte and leaves the rest. */
  datatype Turn = Stop(outcome: Outcome) | More(c: Byte, rest: seq<Byte>, line: nat)

  function ReadTurn(t: seq<Byte>, del: Byte, line: nat): (r: Turn)
    ensures r.More? ==> |r.rest| < |t|
  {
    if t == [] then Stop(Unfinished)
    else if t[0] == del then Stop(Token([], t[1..], line))
    else if IsNewline(t[0]) then Stop(Unfinished)
    else if t[0] != BACKSLASH then More(t[0], t[1..], line)
    else EscapeTurn(t[1..], line)
  }

  /** The turn for the text `t` after a backslash. */
  function EscapeTurn(t: seq<Byte>, line: nat): (r: Turn)
    ensures r.More? ==> |r.rest| < |t|
  {
    if t == [] then Stop(Unfinished)
    else if LetterEscape(t[0]) != -1 then More(LetterEscape(t[0]), t[1..], line)
    else if IsNewline(t[0]) then
      if line + 1 >= MAX_INT then Stop(TooManyLines) else More(NEWLINE, AfterNewline(t), line + 1)
    else if !IsDigit(t[0]) then More(t[0], t[1..], line)
    else
      var n := DigitCount(t, 3);
      var v := DecimalValue(t[..n]);
      if v > 255 then Stop(EscapeTooLarge) else More(v, t[n..], line)
  }

  /** What the lexer reads from `t`, the text after the opening delimiter, at line `line`. */
  function ReadBody(t: seq<Byte>, del: Byte, line: nat): Outcome
    decreases |t|
  {
    match ReadTurn(t, del, line)
    case Stop(outcome) => outcome
    case More(c, rest, line') => Prefixed(c, ReadBody(rest, del, line'))
  }

  /** The lexer's view of its input: the current character and what is still unread. */
  class Lexer {
    var current: int
    var input: seq<Byte>
    var buffer: seq<Byte>
    var lineNumber: nat

    predicate Valid()
      reads this
    {
      (current == EOZ ==> input == []) && (current != EOZ ==> 0 <= current < 256)
    }

    function Text(): (t: seq<Byte>)
      reads this
      requires Valid()
    {
      if current == EOZ then [] else [current as Byte] + input
    }

    constructor (t: seq<Byte>, line: nat)
      ensures Valid() && Text() == t && buffer == [] && lineNumber == line
    {
      current := if t == [] then EOZ else t[0];
      input := if t == [] then [] else t[1..];
      buffer := [];
      lineNumber := line;
    }

    method Next()
      requires Valid()
      modifies this
      ensures Valid() && buffer == old(buffer) && lineNumber == old(lineNumber)
      ensures Text() == if old(Text()) == [] then [] else old(Text())[1..]
    {
      if input == [] {
        current := EOZ;
      } else {
        current, input := input[0], input[1..];
      }
    }

    method Save(c: Byte)
      requires Valid()
      modifies this
      ensures Valid() && Text() == old(Text()) && lineNumber == old(lineNumber)
      ensures buffer == old(buffer) + [c]
    {
      buffer := buffer + [c];
    }

    method SaveAndNext()
      requires Valid() && current != EOZ
      modifies this
      ensures Valid() && Text() == old(Text())[1..] && lineNumber == old(lineNumber)
      ensures buffer == old(buffer) + [old(Text())[0]]
    {
      Save(current);
      Next();
    }

    method IncLineNumber() returns (ok: bool)
      requires Valid() && IsNewline(current)
      modifies this
      ensures Valid() && buffer == old(buffer) && lineNumber == old(lineNumber) + 1
      ensures Text() == AfterNewline(old(Text())) && ok == (lineNumber < MAX_INT)
    {
      var was := current;
      Next();
      if IsNewline(current) && current != was {
        Next();
      }
      lineNumber := lineNumber + 1;
      ok := lineNumber < MAX_INT;
    }

    /** Reads the up to three digits of a numeric escape. */
    method ReadDigits() returns (c: nat)
      requires Valid() && IsDigit(current)
      modifies this
      ensures Valid() && buffer == old(buffer) && lineNumber == old(lineNumber)
      ensures var n := DigitCount(old(Text()), 3);
              c == DecimalValue(old(Text())[..n]) && Text() == old(Text())[n..]
    {
      ghost var t := Text();
      var i := 0;
      c := 0;
      while i == 0 || (i < 3 && IsDigit(current))
        invariant 0 <= i <= 3 && i <= |t| && Valid() && Text() == t[i..]
        invariant forall j :: 0 <= j < i ==> IsDigit(t[j])
        invariant i == 0 ==> IsDigit(current)
        invariant c == DecimalValue(t[..i])
        invariant buffer == old(buffer) && lineNumber == old(lineNumber)
        decreases 3 - i
      {
        assert t[i] == current;
        assert t[..i + 1][..i] == t[..i];
        c := 10 * c + (current - ZERO_DIGIT);
        Next();
        i := i + 1;
      }
      DigitCountExact(t, 3, i);
    }

    /** Reads a string whose delimiter is the current character. */
    method ReadString(del: Byte) returns (r: Outcome)
      requires Valid() && current == del && buffer == []
      modifies this
      ensures Valid()
      ensures r == ReadBody(old(Text())[1..], del, old(lineNumber))
      ensures r.Token? ==> Text() == r.rest && lineNumber == r.line
    {
      SaveAndNext();
      ghost var goal := ReadBody(Text(), del, lineNumber);
      while current != del
        invariant Valid() && |buffer| >= 1
        invariant goal == Extend(buffer[1..], ReadBody(Text(), del, lineNumber))
        decreases |Text()|
      {
        ghost var saved, t, line := buffer[1..], Text(), lineNumber;
        var c, stop := ReadOne(del);
        if stop.Some? {
          return stop.value;
        }
        assert buffer[1..] == saved + [c];
        ExtendPrefixed(saved, c, ReadBody(Text(), del, lineNumber));
      }
      assert goal == Token(buffer[1..], Text()[1..], lineNumber) by {
        assert Text()[0] == del;
      }
      SaveAndNext();
      r := Token(buffer[1..|buffer| - 1], Text(), lineNumber);
    }

    /** The body of the reading loop. */
    method ReadOne(del: Byte) returns (c: Byte, stop: Option<Outcome>)
      requires Valid() && current != del
      modifies this
      ensures Valid()
      ensures match ReadTurn(old(Text()), del, old(lineNumber))
              case Stop(outcome) => stop == Some(outcome)
              case More(c', rest, line') =>
                stop == None && c == c' && Text() == rest && lineNumber == line' && buffer == old(buffer) + [c]
    {
      c, stop := 0, None;
      if current == EOZ || IsNewline(current) {
        stop := Some(Unfinished);
      } else if current != BACKSLASH {
        c := current;
        SaveAndNext();
      } else {
        Next();
        c, stop := ReadEscape();
      }
    }

    /** The body of the reading loop after a backslash. */
    method ReadEscape() returns (c: Byte, stop: Option<Outcome>)
      requires Valid()
      modifies this
      ensures Valid()
      ensures match EscapeTurn(old(Text()), old(lineNumber))
              case Stop(outcome) => stop == Some(outcome)
              case More(c', rest, line') =>
                stop == None && c == c' && Text() == rest && lineNumber == line' && buffer == old(buffer) + [c]
    {
      c, stop := 0, None;
      if current == EOZ {
        return 0, Some(Unfinished);
      }
      var letter := LetterEscape(current);
      if letter != -1 {
        c := letter;
        Save(c);
        Next();
      } else if IsNewline(current) {
        c := NEWLINE;
        Save(c);
        var ok := IncLineNumber();
        if !ok {
          stop := Some(TooManyLines);
        }
      } else if !IsDigit(current) {
        c := current;
        SaveAndNext();
      } else {
        var v := ReadDigits();
        if v > 255 {
          return 0, Some(EscapeTooLarge);
        }
        c := v;
        Save(c);
      }
    }
  }

  ghost function Extend(saved: seq<Byte>, r: Outcome): Outcome {
    if r.Token? then r.(text := saved + r.text) else r
  }

  lemma ExtendPrefixed(saved: seq<Byte>, c: Byte, r: Outcome)
    ensures Extend(saved, Prefixed(c, r)) == Extend(saved + [c], r)
  {
    if r.Token? {
      assert saved + ([c] + r.text) == saved + [c] + r.text;
    }
  }

  lemma {:induction false} DigitCountExact(t: seq<Byte>, limit: nat, n: nat)
    requires n <= limit && n <= |t|
    requires forall i :: 0 <= i < n ==> IsDigit(t[i])
    requires n == limit || n == |t| || !IsDigit(t[n])
    ensures DigitCount(t, limit) == n
  {
    if n > 0 {
      DigitCountExact(t[1..], limit - 1, n - 1);
    }
  }

  // ---------- The round trip ----------

  function Newlines(s: seq<Byte>): nat {
    if s == [] then 0 else (if s[0] == NEWLINE then 1 else 0) + Newlines(s[1..])
  }

  /** What the lexer makes of the quoted form of `s`, read at line `line` before `rest`. */
  ghost function Reread(s: seq<Byte>, rest: seq<Byte>, line: nat): Outcome {
    ReadBody(QuotedBody(s) + [QUOTE] + rest, QUOTE, line)
  }

  /** One byte of a quoted string without carriage returns is read back as that byte. */
  lemma RereadByte(c: Byte, t: seq<Byte>, line: nat)
    requires c != RETURN
    requires c == NEWLINE ==> t == [] || t[0] != RETURN
    ensures ReadTurn(QuotedByte(c) + t, QUOTE, line) ==
            if c == NEWLINE && line + 1 >= MAX_INT then Stop(TooManyLines)
            else More(c, t, if c == NEWLINE then line + 1 else line)
  {
    var q := QuotedByte(c) + t;
    if c == QUOTE || c == BACKSLASH {
      assert q[1..][1..] == t;
    } else if c == NEWLINE {
      assert q[1..] == [NEWLINE] + t;
      assert AfterNewline(q[1..]) == t;
    } else if c == 0 {
      RereadZero(t, line);
    } else {
      assert q[1..] == t;
    }
  }

  lemma RereadZero(t: seq<Byte>, line: nat)
    ensures EscapeTurn([ZERO_DIGIT, ZERO_DIGIT, ZERO_DIGIT] + t, line) == More(0, t, line)
    ensures (QuotedByte(0) + t)[1..] == [ZERO_DIGIT, ZERO_DIGIT, ZERO_DIGIT] + t
  {
    var d := [ZERO_DIGIT, ZERO_DIGIT, ZERO_DIGIT];
    var q := d + t;
    DigitCountExact(q, 3, 3);
    assert q[..3] == d && q[3..] == t;
    assert d[..2] == [ZERO_DIGIT, ZERO_DIGIT] && d[..2][..1] == [ZERO_DIGIT];
    assert DecimalValue(d[..2][..1]) == 0;
    assert DecimalValue(d[..2]) == 0;
  }

  lemma QuotedHead(s: seq<Byte>, rest: seq<Byte>)
    requires s != []
    ensures QuotedBody(s) + [QUOTE] + rest == QuotedByte(s[0]) + (QuotedBody(s[1..]) + [QUOTE] + rest)
  {
  }

  /** A string without carriage returns is read back exactly, and the line counter advances by
      its newlines, unless that counter overflows. */
  lemma {:induction false} ReadsBack(s: seq<Byte>, rest: seq<Byte>, line: nat)
    requires RETURN !in s
    ensures Reread(s, rest, line) ==
            if Newlines(s) > 0 && line + Newlines(s) >= MAX_INT then TooManyLines
            else Token(s, rest, line + Newlines(s))
  {
    if s == [] {
      assert QuotedBody(s) + [QUOTE] + rest == [QUOTE] + rest;
    } else {
      var t := QuotedBody(s[1..]) + [QUOTE] + rest;
      QuotedHead(s, rest);
      if |s| > 1 {
        assert s[1] in s;
        assert t[0] == QuotedByte(s[1])[0];
      }
      RereadByte(s[0], t, line);
      var line' := if s[0] == NEWLINE then line + 1 else line;
      ReadsBack(s[1..], rest, line');
      assert [s[0]] + s[1..] == s;
    }
  }

  ghost predicate NotLonger(s: seq<Byte>, r: Outcome) {
    r.Token? ==> |r.text| <= |s| && (RETURN in s ==> |r.text| < |s|)
  }

  /** A string with a carriage return is never read back: the reader either fails, or loses
      the carriage return after an escaped newline. */
  lemma {:induction false} NeverLonger(s: seq<Byte>, rest: seq<Byte>, line: nat)
    ensures NotLonger(s, Reread(s, rest, line))
  {
    hide QuotedBody, ReadTurn;
    if s == [] {
      RereadEnd(rest, line);
    } else {
      var t := QuotedBody(s[1..]) + [QUOTE] + rest;
      QuotedHead(s, rest);
      if s[0] == RETURN {
        RereadReturn(t, line);
      } else if s[0] == NEWLINE && t[0] == RETURN {
        LosesReturn(s, rest, line);
        NeverLonger(s[2..], rest, line + 1);
      } else {
        RereadByte(s[0], t, line);
        NeverLonger(s[1..], rest, if s[0] == NEWLINE then line + 1 else line);
      }
    }
  }

  lemma RereadEnd(rest: seq<Byte>, line: nat)
    ensures Reread([], rest, line) == Token([], rest, line)
  {
    assert QuotedBody([]) + [QUOTE] + rest == [QUOTE] + rest;
  }

  lemma RereadReturn(t: seq<Byte>, line: nat)
    ensures ReadTurn([RETURN] + t, QUOTE, line) == Stop(Unfinished)
  {
  }

  /** An escaped newline swallows the carriage return that follows it. */
  lemma LosesReturn(s: seq<Byte>, rest: seq<Byte>, line: nat)
    requires s != [] && s[0] == NEWLINE
    requires (QuotedBody(s[1..]) + [QUOTE] + rest)[0] == RETURN
    ensures |s| > 1 && s[1] == RETURN
    ensures Reread(s, rest, line) ==
            if line + 1 >= MAX_INT then TooManyLines else Prefixed(NEWLINE, Reread(s[2..], rest, line + 1))
  {
    hide QuotedBody, ReadBody;
    var t := QuotedBody(s[1..]) + [QUOTE] + rest;
    ReturnFollows(s, rest);
    var t' := QuotedBody(s[2..]) + [QUOTE] + rest;
    QuotedHead(s, rest);
    EscapedPair(t', line);
    assert QuotedByte(NEWLINE) + t == [BACKSLASH, NEWLINE, RETURN] + t';
  }

  lemma ReturnFollows(s: seq<Byte>, rest: seq<Byte>)
    requires s != [] && (QuotedBody(s[1..]) + [QUOTE] + rest)[0] == RETURN
    ensures |s| > 1 && s[1] == RETURN && QuotedBody(s[1..]) + [QUOTE] + rest == [RETURN] +
            (QuotedBody(s[2..]) + [QUOTE] + rest)
  {
    var t := QuotedBody(s[1..]) + [QUOTE] + rest;
    assert |s| > 1;
    QuotedHead(s[1..], rest);
    assert t[0] == QuotedByte(s[1])[0];
    assert s[1..][1..] == s[2..];
  }

  /** An escaped pair of line ends is read as one newline. */
  lemma EscapedPair(t: seq<Byte>, line: nat)
    ensures ReadBody([BACKSLASH, NEWLINE, RETURN] + t, QUOTE, line) ==
            if line + 1 >= MAX_INT then TooManyLines else Prefixed(NEWLINE, ReadBody(t, QUOTE, line + 1))
  {
    var q := [BACKSLASH, NEWLINE, RETURN] + t;
    assert q[1..] == [NEWLINE, RETURN] + t && AfterNewline(q[1..]) == t;
  }

  /** For example, of a newline and a carriage return only the newline comes back... */
  lemma ReturnSwallowed(rest: seq<Byte>, line: nat)
    requires line + 1 < MAX_INT
    ensures Reread([NEWLINE, RETURN], rest, line) == Token([NEWLINE], rest, line + 1)
  {
    var s: seq<Byte> := [NEWLINE, RETURN];
    assert QuotedBody(s[1..]) == [RETURN] by {
      assert s[1..] == [RETURN] && s[1..][1..] == [];
    }
    LosesReturn(s, rest, line);
    ReadsBack([], rest, line + 1);
    assert s[2..] == [];
  }

  /** ... and a carriage return by itself cannot be read back at all. */
  lemma ReturnUnreadable(rest: seq<Byte>, line: nat)
    ensures Reread([RETURN], rest, line) == Unfinished
  {
    QuotedHead([RETURN], rest);
  }

  /** The round trip holds exactly for the strings without a carriage return (as long as the
      newlines of the string do not overflow the lexer's line counter). */
  lemma QuotingRoundTrip(s: seq<Byte>, rest: seq<Byte>, line: nat)
    ensures (exists line' :: Reread(s, rest, line) == Token(s, rest, line')) <==>
            RETURN !in s && (Newlines(s) > 0 ==> line + Newlines(s) < MAX_INT)
  {
    if RETURN in s {
      NeverLonger(s, rest, line);
    } else {
      ReadsBack(s, rest, line);
    }
  }
}
