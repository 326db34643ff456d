/** What single characters and sets in brackets stand for (section 5.4.1 of the Lua 5.1 Reference Manual), told by
    how a set is written rather than by how it is read. */
module CharSets {
  import opened Patterns

  // ---------- Classes ----------

  /** A letter for a class of the locale, for a zero, or for the complement of one of these; any other character
      stands for itself. */
  predicate InClass(j: Job, cl: char, c: char) {
    match cl
    case 'a' => j.isClass('a', c)
    case 'c' => j.isClass('c', c)
    case 'd' => j.isClass('d', c)
    case 'l' => j.isClass('l', c)
    case 'p' => j.isClass('p', c)
    case 's' => j.isClass('s', c)
    case 'u' => j.isClass('u', c)
    case 'w' => j.isClass('w', c)
    case 'x' => j.isClass('x', c)
    case 'z' => c == '\0'
    case 'A' => !j.isClass('a', c)
    case 'C' => !j.isClass('c', c)
    case 'D' => !j.isClass('d', c)
    case 'L' => !j.isClass('l', c)
    case 'P' => !j.isClass('p', c)
    case 'S' => !j.isClass('s', c)
    case 'U' => !j.isClass('u', c)
    case 'W' => !j.isClass('w', c)
    case 'X' => !j.isClass('x', c)
    case 'Z' => c != '\0'
    case _ => c == cl
  }

  lemma ClassMeans(j: Job, cl: char, c: char)
    ensures MatchClass(j, c, cl) <==> InClass(j, cl, c)
  {
    assert forall x :: x in "acdlpsuwxz" <==>
        || x == 'a' || x == 'c' || x == 'd' || x == 'l' || x == 'p'
        || x == 's' || x == 'u' || x == 'w' || x == 'x' || x == 'z';
  }

  /** Outside brackets: a dot, an escaped character and any other. */
  lemma SingleMeans(j: Job, c: char, p: nat)
    requires p < |j.pat| && j.pat[p] != '[' && j.pat[p] != '\0'
    ensures j.pat[p] == '.' ==> ClassEnd(j.pat, p) == p + 1 && forall ep :: Single(j, c, p, ep)
    ensures j.pat[p] == '%' ==>
              if p + 1 < |j.pat| && j.pat[p + 1] != '\0' then
                ClassEnd(j.pat, p) == p + 2 && Single(j, c, p, p + 2) == InClass(j, j.pat[p + 1], c)
              else ClassEnd(j.pat, p) == -1
    ensures j.pat[p] != '.' && j.pat[p] != '%' ==>
              ClassEnd(j.pat, p) == p + 1 && forall ep :: Single(j, c, p, ep) <==> c == j.pat[p]
  {
    ClassMeans(j, At(j.pat, p + 1), c);
  }

  // ---------- Sets ----------

  datatype Element = Plain(c: char) | Letter(cl: char) | Span(lo: char, hi: char)

  /** Which characters can stand where; the others are written as letters, `%` first. */
  predicate Writable(e: Element) {
    match e
    case Plain(c) => c !in "%]^-\0"
    case Letter(cl) => cl != '\0'
    case Span(lo, hi) => lo !in "%]^-\0" && hi !in "%]\0"
  }

  function Written(e: Element): string {
    match e
    case Plain(c) => [c]
    case Letter(cl) => ['%', cl]
    case Span(lo, hi) => [lo, '-', hi]
  }

  function WrittenAll(es: seq<Element>): string {
    if es == [] then "" else Written(es[0]) + WrittenAll(es[1..])
  }

  predicate Has(j: Job, e: Element, c: char) {
    match e
    case Plain(x) => c == x
    case Letter(cl) => InClass(j, cl, c)
    case Span(lo, hi) => lo <= c <= hi
  }

  ghost predicate HasSome(j: Job, es: seq<Element>, c: char) {
    exists k :: 0 <= k < |es| && Has(j, es[k], c)
  }

  /** The pattern has this text at `p`. */
  ghost predicate TextAt(pat: string, p: nat, text: string) {
    p + |text| <= |pat| && forall i :: 0 <= i < |text| ==> pat[p + i] == text[i]
  }

  lemma TextParts(pat: string, p: nat, a: string, b: string)
    requires TextAt(pat, p, a + b)
    ensures TextAt(pat, p, a) && TextAt(pat, p + |a|, b)
  {
    assert forall i :: 0 <= i < |a| ==> (a + b)[i] == a[i];
    forall i | 0 <= i < |b|
      ensures pat[p + |a| + i] == b[i]
    {
      assert (a + b)[|a| + i] == b[i];
    }
  }

  lemma SetEndStep(pat: string, p: nat, e: Element)
    requires Writable(e) && TextAt(pat, p, Written(e))
    ensures var q := p + |Written(e)|; SetEnd(pat, p) == if At(pat, q) == ']' then q + 1 else SetEnd(pat, q)
  {
    match e
    case Plain(c) => assert pat[p] == [c][0];
    case Letter(cl) => assert pat[p] == ['%', cl][0] && pat[p + 1] == ['%', cl][1];
    case Span(lo, hi) =>
      assert pat[p] == [lo, '-', hi][0] && pat[p + 1] == [lo, '-', hi][1] && pat[p + 2] == [lo, '-', hi][2];
      assert SetEnd(pat, p) == SetEnd(pat, p + 1) == SetEnd(pat, p + 2);
  }

  /** The elements that the text of a set is read as. */
  function Read(e: Element): Item {
    match e
    case Plain(c) => Range(c, c)
    case Letter(cl) => Class(cl)
    case Span(lo, hi) => Range(lo, hi)
  }

  lemma ItemsStep(pat: string, p: nat, ec: nat, e: Element)
    requires Writable(e) && TextAt(pat, p, Written(e)) && p + |Written(e)| <= ec && At(pat, p + |Written(e)|) != '-'
    ensures Items(pat, p, ec) == [Read(e)] + Items(pat, p + |Written(e)|, ec)
  {
    match e
    case Plain(c) => assert pat[p] == [c][0];
    case Letter(cl) => assert pat[p] == ['%', cl][0] && pat[p + 1] == ['%', cl][1];
    case Span(lo, hi) =>
      assert pat[p] == [lo, '-', hi][0] && pat[p + 1] == [lo, '-', hi][1] && pat[p + 2] == [lo, '-', hi][2];
  }

  /** What comes after an element is the start of another, or the bracket. */
  lemma NextElement(pat: string, p: nat, es: seq<Element>)
    requires (forall e :: e in es ==> Writable(e)) && TextAt(pat, p, WrittenAll(es) + "]")
    ensures At(pat, p) != '-' && At(pat, p) != '^' && (At(pat, p) == ']' <==> es == [])
  {
    var text := WrittenAll(es) + "]";
    assert pat[p] == text[0];
    if es != [] {
      assert es[0] in es;
      assert text[0] == Written(es[0])[0];
    }
  }

  /** Reading the text of a set gives its elements and its end. */
  lemma {:induction false} SetRead(pat: string, p: nat, es: seq<Element>)
    requires (forall e :: e in es ==> Writable(e)) && TextAt(pat, p, WrittenAll(es) + "]")
    ensures es != [] ==> SetEnd(pat, p) == p + |WrittenAll(es)| + 1
    ensures var items := Items(pat, p, p + |WrittenAll(es)|);
            |items| == |es| && forall k :: 0 <= k < |es| ==> items[k] == Read(es[k])
    decreases |es|
  {
    hide Items, SetEnd, Read, TextAt, Writable, Written;
    if es == [] {
      NoItems(pat, p);
    } else {
      var e := es[0];
      assert e in es;
      TakeElement(pat, p, es);
      var q := p + |Written(e)|;
      NextElement(pat, q, es[1..]);
      SetEndStep(pat, p, e);
      ItemsStep(pat, p, p + |WrittenAll(es)|, e);
      SetRead(pat, q, es[1..]);
      assert q + |WrittenAll(es[1..])| == p + |WrittenAll(es)|;
    }
  }

  lemma TakeElement(pat: string, p: nat, es: seq<Element>)
    requires es != [] && TextAt(pat, p, WrittenAll(es) + "]")
    ensures TextAt(pat, p, Written(es[0])) && TextAt(pat, p + |Written(es[0])|, WrittenAll(es[1..]) + "]")
  {
    var rest := WrittenAll(es[1..]) + "]";
    assert WrittenAll(es) + "]" == Written(es[0]) + rest;
    TextParts(pat, p, Written(es[0]), rest);
  }

  lemma NoItems(pat: string, p: nat)
    ensures Items(pat, p, p) == []
  {
  }

  lemma ReadHas(j: Job, e: Element, c: char)
    ensures InItem(j, c, Read(e)) <==> Has(j, e, c)
  {
    hide MatchClass, InClass;
    if e.Letter? {
      ClassMeans(j, e.cl, c);
    }
  }

  lemma SomeHas(j: Job, items: seq<Item>, es: seq<Element>, c: char)
    requires |items| == |es| && forall k :: 0 <= k < |es| ==> items[k] == Read(es[k])
    ensures InSome(j, c, items) <==> HasSome(j, es, c)
  {
    hide InItem, Has, Read;
    forall k | 0 <= k < |es|
      ensures InItem(j, c, items[k]) <==> Has(j, es[k], c)
    {
      ReadHas(j, es[k], c);
    }
  }

  /** A set as it is written is read to its closing bracket, and a character matches it if one of its elements has
      the character, or, with a caret in front, if none has. */
  lemma SetMeans(j: Job, p: nat, complement: bool, es: seq<Element>, c: char)
    requires es != [] && forall e :: e in es ==> Writable(e)
    requires TextAt(j.pat, p, (if complement then "[^" else "[") + (WrittenAll(es) + "]"))
    ensures At(j.pat, p) == '['
    ensures var ep := p + (if complement then 2 else 1) + |WrittenAll(es)| + 1;
            ClassEnd(j.pat, p) == ep && (Single(j, c, p, ep) <==> HasSome(j, es, c) == !complement)
  {
    hide SetEnd, Items, InSome, HasSome, WrittenAll;
    var open := if complement then "[^" else "[";
    var q := p + |open|;
    TextParts(j.pat, p, open, WrittenAll(es) + "]");
    assert j.pat[p] == open[0] && (complement ==> j.pat[p + 1] == open[1]);
    SetRead(j.pat, q, es);
    NextElement(j.pat, q, es);
    SomeHas(j, Items(j.pat, q, q + |WrittenAll(es)|), es, c);
  }
}
