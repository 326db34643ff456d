/** Operator expressions (lparser.cpp:606-626, 718-811; section 2.5.6 of the Lua 5.1 Reference Manual): the
    parser that climbs the priority table, and the expressions it accepts. An atom stands for a simple
    expression, and a closing parenthesis carries the indices and calls that follow it. */
module Precedence {
  import opened Common

  const LUAI_MAXCCALLS: nat := 200
  const UNARY_PRIORITY: nat := 8

  datatype UnOp = Not | Minus | Len
  datatype BinOp = Add | Sub | Mul | Div | Mod | Pow | Concat | Ne | Eq | Lt | Le | Gt | Ge | And | Or

  datatype Token =
    | TkPlus | TkMinus | TkStar | TkSlash | TkPercent | TkCaret | TkConcat
    | TkNe | TkEq | TkLt | TkLe | TkGt | TkGe | TkAnd | TkOr | TkNot | TkHash
    | Atom(n: nat) | Open | Close(suffix: nat) | Other(n: nat) | Eos

  /** `getunopr`. */
  function GetUnOpr(t: Token): Option<UnOp> {
    match t
    case TkNot => Some(Not)
    case TkMinus => Some(Minus)
    case TkHash => Some(Len)
    case _ => None
  }

  /** `getbinopr`. */
  function GetBinOpr(t: Token): Option<BinOp> {
    match t
    case TkPlus => Some(Add)
    case TkMinus => Some(Sub)
    case TkStar => Some(Mul)
    case TkSlash => Some(Div)
    case TkPercent => Some(Mod)
    case TkCaret => Some(Pow)
    case TkConcat => Some(Concat)
    case TkNe => Some(Ne)
    case TkEq => Some(Eq)
    case TkLt => Some(Lt)
    case TkLe => Some(Le)
    case TkGt => Some(Gt)
    case TkGe => Some(Ge)
    case TkAnd => Some(And)
    case TkOr => Some(Or)
    case _ => None
  }

  function UnToken(op: UnOp): (t: Token)
    ensures GetUnOpr(t) == Some(op)
  {
    match op
    case Not => TkNot
    case Minus => TkMinus
    case Len => TkHash
  }

  function BinToken(op: BinOp): (t: Token)
    ensures GetBinOpr(t) == Some(op)
  {
    match op
    case Add => TkPlus
    case Sub => TkMinus
    case Mul => TkStar
    case Div => TkSlash
    case Mod => TkPercent
    case Pow => TkCaret
    case Concat => TkConcat
    case Ne => TkNe
    case Eq => TkEq
    case Lt => TkLt
    case Le => TkLe
    case Gt => TkGt
    case Ge => TkGe
    case And => TkAnd
    case Or => TkOr
  }

  /** The left priorities, and 0 where no operator follows. */
  predicate IsLeft(n: nat) {
    n == 0 || n == 1 || n == 2 || n == 3 || n == 5 || n == 6 || n == 7 || n == 10
  }

  /** The priority table. */
  function Left(op: BinOp): (n: nat)
    ensures IsLeft(n) && n > 0
  {
    match op
    case Add => 6
    case Sub => 6
    case Mul => 7
    case Div => 7
    case Mod => 7
    case Pow => 10
    case Concat => 5
    case And => 2
    case Or => 1
    case _ => 3
  }

  function Right(op: BinOp): (n: nat)
    ensures Left(op) - 1 <= n <= Left(op) && n <= 9
  {
    match op
    case Pow => 9
    case Concat => 4
    case _ => Left(op)
  }

  // ---------- Expressions ----------

  /** `Paren(e, 0)` only groups; with a suffix the parentheses mean something. */
  datatype Expr = Leaf(n: nat) | Paren(e: Expr, suffix: nat) | Un(op: UnOp, e: Expr) | Bin(bop: BinOp, l: Expr, r: Expr)

  function Tokens(e: Expr): (s: seq<Token>)
    ensures |s| > 0
  {
    match e
    case Leaf(n) => [Atom(n)]
    case Paren(e1, k) => [Open] + Tokens(e1) + [Close(k)]
    case Un(op, e1) => [UnToken(op)] + Tokens(e1)
    case Bin(op, l, r) => Tokens(l) + [BinToken(op)] + Tokens(r)
  }

  /** The operator tree: the parentheses that only group are gone. */
  function Tree(e: Expr): Expr {
    match e
    case Leaf(n) => e
    case Paren(e1, k) => if k == 0 then Tree(e1) else Paren(Tree(e1), k)
    case Un(op, e1) => Un(op, Tree(e1))
    case Bin(op, l, r) => Bin(op, Tree(l), Tree(r))
  }

  /** How many nested calls of `subexpr` it takes. */
  function Levels(e: Expr): (n: nat)
    ensures n >= 1
  {
    match e
    case Leaf(_) => 1
    case Paren(e1, _) => 1 + Levels(e1)
    case Un(_, e1) => 1 + Levels(e1)
    case Bin(_, l, r) => if Levels(l) > 1 + Levels(r) then Levels(l) else 1 + Levels(r)
  }

  /** The expression binds as it is written, where an operator must bind more tightly than `limit` and an
      operator with left priority `next` follows (0 if none does). This is the grammar. */
  predicate Fits(e: Expr, limit: nat, next: nat) {
    match e
    case Leaf(_) => true
    case Paren(e1, _) => Fits(e1, 0, 0)
    case Un(_, e1) => next <= UNARY_PRIORITY && Fits(e1, UNARY_PRIORITY, next)
    case Bin(op, l, r) => Left(op) > limit && next <= Right(op) && Fits(l, limit, Left(op)) && Fits(r, Right(op), next)
  }

  function Head(s: seq<Token>): Token {
    if s == [] then Eos else s[0]
  }

  /** The left priority of the operator that comes next. */
  function Next(s: seq<Token>): nat {
    match GetBinOpr(Head(s))
    case Some(op) => Left(op)
    case None => 0
  }

  // ---------- The parser ----------

  datatype Parsed = Ok(e: Expr, rest: seq<Token>) | TooDeep | Unexpected

  /** `subexpr`, which `level` calls enclose. */
  function Parse(s: seq<Token>, limit: nat, level: nat): (r: Parsed)
    ensures r.Ok? ==> |r.rest| < |s|
    decreases |s|, 1
  {
    if level + 1 > LUAI_MAXCCALLS then TooDeep
    else
      match Operand(s, level)
      case Ok(v, rest) => Loop(v, rest, limit, level)
      case bad => bad
  }

  /** The part before the loop: a unary operator with its operand, or a simple expression. */
  function Operand(s: seq<Token>, level: nat): (r: Parsed)
    ensures r.Ok? ==> |r.rest| < |s|
    decreases |s|, 0
  {
    match GetUnOpr(Head(s))
    case Some(op) =>
      (match Parse(s[1..], UNARY_PRIORITY, level + 1)
       case Ok(e, rest) => Ok(Un(op, e), rest)
       case bad => bad)
    case None =>
      match Head(s)
      case Atom(n) => Ok(Leaf(n), s[1..])
      case Open =>
        (match Parse(s[1..], 0, level + 1)
         case Ok(e, rest) => if Head(rest).Close? then Ok(Paren(e, Head(rest).suffix), rest[1..]) else Unexpected
         case bad => bad)
      case _ => Unexpected
  }

  /** The loop: while the next operator has a left priority above the limit. */
  function Loop(v: Expr, s: seq<Token>, limit: nat, level: nat): (r: Parsed)
    ensures r.Ok? ==> |r.rest| <= |s|
    decreases |s|, 2
  {
    match GetBinOpr(Head(s))
    case None => Ok(v, s)
    case Some(op) =>
      if Left(op) <= limit then Ok(v, s)
      else
        match Parse(s[1..], Right(op), level + 1)
        case Ok(v2, rest) => Loop(Bin(op, v, v2), rest, limit, level)
        case bad => bad
  }

  // ---------- What the parser accepts ----------

  /** The parser reads what it is given: the tokens of a fitting expression, and stops before an operator
      that the limit excludes. */
  lemma {:induction false} ParsedFits(s: seq<Token>, limit: nat, level: nat)
    requires Parse(s, limit, level).Ok?
    ensures
      var r := Parse(s, limit, level);
      s == Tokens(r.e) + r.rest && Fits(r.e, limit, Next(r.rest)) && Next(r.rest) <= limit &&
          level + Levels(r.e) <= LUAI_MAXCCALLS
    decreases |s|, 1
  {
    var o := Operand(s, level);
    OperandFits(s, limit, level);
    LoopFits(o.e, o.rest, limit, level);
    assert s == Tokens(o.e) + o.rest;
  }

  lemma {:induction false} OperandFits(s: seq<Token>, limit: nat, level: nat)
    requires level + 1 <= LUAI_MAXCCALLS && Operand(s, level).Ok?
    ensures
      var r := Operand(s, level);
      s == Tokens(r.e) + r.rest && Fits(r.e, limit, Next(r.rest)) && level + Levels(r.e) <= LUAI_MAXCCALLS
    decreases |s|, 0
  {
    NotUnary();
    hide GetBinOpr, GetUnOpr, Loop, UnToken, BinToken, Left, Right, Parse;
    if GetUnOpr(Head(s)).Some? {
      ParsedFits(s[1..], UNARY_PRIORITY, level + 1);
      var r := Parse(s[1..], UNARY_PRIORITY, level + 1);
      OneUnary(s[0], GetUnOpr(s[0]).value);
      UnaryTokens(s, GetUnOpr(s[0]).value, r.e, r.rest);
    } else if Head(s).Open? {
      ParsedFits(s[1..], 0, level + 1);
      var r := Parse(s[1..], 0, level + 1);
      NoNext(r.rest);
      ParenTokens(s, r.e, Head(r.rest).suffix, r.rest);
    } else {
      assert s == [s[0]] + s[1..];
    }
  }

  lemma OneUnary(t: Token, op: UnOp)
    requires GetUnOpr(t) == Some(op)
    ensures t == UnToken(op)
  {
  }

  lemma UnaryTokens(s: seq<Token>, op: UnOp, e: Expr, rest: seq<Token>)
    requires s != [] && s[0] == UnToken(op) && s[1..] == Tokens(e) + rest
    ensures s == Tokens(Un(op, e)) + rest
  {
    assert s == [s[0]] + s[1..];
  }

  lemma ParenTokens(s: seq<Token>, e: Expr, k: nat, rest: seq<Token>)
    requires s != [] && s[0] == Open && rest != [] && rest[0] == Close(k) && s[1..] == Tokens(e) + rest
    ensures s == Tokens(Paren(e, k)) + rest[1..]
  {
    assert s == [s[0]] + s[1..];
    assert rest == [rest[0]] + rest[1..];
  }

  lemma BinTokens(v: Expr, s: seq<Token>, op: BinOp, e: Expr, rest: seq<Token>)
    requires s != [] && s[0] == BinToken(op) && s[1..] == Tokens(e) + rest
    ensures Tokens(v) + s == Tokens(Bin(op, v, e)) + rest
  {
    assert s == [s[0]] + s[1..];
  }

  lemma NotUnary()
    ensures GetUnOpr(Open) == None && GetUnOpr(Eos) == None && GetBinOpr(Eos) == None &&
            forall n :: GetUnOpr(Atom(n)) == None
  {
  }

  lemma NoNext(s: seq<Token>)
    requires Head(s).Close?
    ensures Next(s) == 0
  {
  }

  lemma {:induction false} LoopFits(v: Expr, s: seq<Token>, limit: nat, level: nat)
    requires Fits(v, limit, Next(s)) && level + Levels(v) <= LUAI_MAXCCALLS && Loop(v, s, limit, level).Ok?
    ensures
      var r := Loop(v, s, limit, level);
      && Tokens(v) + s == Tokens(r.e) + r.rest && Fits(r.e, limit, Next(r.rest)) && Next(r.rest) <= limit
      && level + Levels(r.e) <= LUAI_MAXCCALLS
    decreases |s|, 2
  {
    NotUnary();
    hide GetBinOpr, GetUnOpr, UnToken, BinToken, Parse, Left, Right;
    if GetBinOpr(Head(s)).Some? && Next(s) > limit {
      var op := GetBinOpr(Head(s)).value;
      ParsedFits(s[1..], Right(op), level + 1);
      var p := Parse(s[1..], Right(op), level + 1);
      OneToken(s[0], op);
      BinTokens(v, s, op, p.e, p.rest);
      LoopFits(Bin(op, v, p.e), p.rest, limit, level);
    }
  }

  lemma OneToken(t: Token, op: BinOp)
    requires GetBinOpr(t) == Some(op)
    ensures t == BinToken(op)
  {
  }

  /** Reading a fitting expression brings the parser to its loop, with the expression built. */
  lemma {:induction false} FittingReachesLoop(e: Expr, rest: seq<Token>, limit: nat, level: nat)
    requires Fits(e, limit, Next(rest))
    ensures Parse(Tokens(e) + rest, limit, level) ==
            if level + Levels(e) <= LUAI_MAXCCALLS then Loop(e, rest, limit, level) else TooDeep
    decreases e, 1
  {
    hide Parse, Loop, Operand, GetBinOpr, GetUnOpr, UnToken, BinToken, Left, Right;
    ParseIs(Tokens(e) + rest, limit, level);
    match e
    case Leaf(n) => LeafOperand(n, rest, level);
    case Paren(e1, k) =>
      var rest1 := [Close(k)] + rest;
      assert Tokens(e) + rest == [Open] + (Tokens(e1) + rest1);
      assert rest1[1..] == rest;
      NoNext(rest1);
      FittingReachesLoop(e1, rest1, 0, level + 1);
      LoopStops(e1, rest1, 0, level + 1);
      ParenOperand(Tokens(e1) + rest1, level);
    case Un(op, e1) =>
      assert Tokens(e) + rest == [UnToken(op)] + (Tokens(e1) + rest);
      FittingReachesLoop(e1, rest, UNARY_PRIORITY, level + 1);
      LoopStops(e1, rest, UNARY_PRIORITY, level + 1);
      UnOperand(op, Tokens(e1) + rest, level);
    case Bin(op, l, r) =>
      BinReachesLoop(e, rest, limit, level);
  }

  lemma LeafOperand(n: nat, s: seq<Token>, level: nat)
    ensures Operand(Tokens(Leaf(n)) + s, level) == Ok(Leaf(n), s)
  {
    assert ([Atom(n)] + s)[1..] == s;
    NotUnary();
  }

  lemma UnOperand(op: UnOp, s: seq<Token>, level: nat)
    ensures
      var p := Parse(s, UNARY_PRIORITY, level + 1);
      Operand([UnToken(op)] + s, level) == if p.Ok? then Ok(Un(op, p.e), p.rest) else p
  {
    assert ([UnToken(op)] + s)[1..] == s;
  }

  lemma ParenOperand(s: seq<Token>, level: nat)
    ensures
      var p := Parse(s, 0, level + 1);
      Operand([Open] + s, level) ==
          if !p.Ok? then p
          else if Head(p.rest).Close? then Ok(Paren(p.e, Head(p.rest).suffix), p.rest[1..])
          else Unexpected
  {
    assert ([Open] + s)[1..] == s;
    NotUnary();
  }

  lemma {:induction false} BinReachesLoop(e: Expr, rest: seq<Token>, limit: nat, level: nat)
    requires e.Bin? && Fits(e, limit, Next(rest))
    ensures Parse(Tokens(e) + rest, limit, level) ==
            if level + Levels(e) <= LUAI_MAXCCALLS then Loop(e, rest, limit, level) else TooDeep
    decreases e, 0
  {
    var op, l, r := e.bop, e.l, e.r;
    var rest1 := [BinToken(op)] + (Tokens(r) + rest);
    assert Tokens(e) + rest == Tokens(l) + rest1;
    NextIs(op, Tokens(r) + rest);
    LoopTakes(l, Tokens(r) + rest, op, limit, level);
    LoopStops(r, rest, Right(op), level + 1);
    hide Parse, Loop, Next, Tokens, Left, Right;
    FittingReachesLoop(l, rest1, limit, level);
    FittingReachesLoop(r, rest, Right(op), level + 1);
  }

  lemma NextIs(op: BinOp, s: seq<Token>)
    ensures Next([BinToken(op)] + s) == Left(op)
  {
  }

  lemma LoopTakes(v: Expr, s: seq<Token>, op: BinOp, limit: nat, level: nat)
    requires Left(op) > limit
    ensures
      var p := Parse(s, Right(op), level + 1);
      Loop(v, [BinToken(op)] + s, limit, level) == if p.Ok? then Loop(Bin(op, v, p.e), p.rest, limit, level) else p
  {
    assert ([BinToken(op)] + s)[1..] == s;
  }

  lemma ParseIs(s: seq<Token>, limit: nat, level: nat)
    ensures
      var o := Operand(s, level);
      Parse(s, limit, level) == if level + 1 > LUAI_MAXCCALLS then TooDeep
          else if o.Ok? then Loop(o.e, o.rest, limit, level) else o
  {
  }

  lemma LoopGoesOn(v: Expr, s: seq<Token>, op: BinOp, limit: nat, level: nat)
    requires s != [] && GetBinOpr(s[0]) == Some(op) && Left(op) > limit
    ensures
      var p := Parse(s[1..], Right(op), level + 1);
      Loop(v, s, limit, level) == if p.Ok? then Loop(Bin(op, v, p.e), p.rest, limit, level) else p
  {
  }

  lemma LoopEnds(v: Expr, s: seq<Token>, limit: nat, level: nat)
    requires var op := GetBinOpr(Head(s)); op.None? || Left(op.value) <= limit
    ensures Loop(v, s, limit, level) == Ok(v, s)
  {
  }

  lemma LoopStops(v: Expr, s: seq<Token>, limit: nat, level: nat)
    requires Next(s) <= limit
    ensures Loop(v, s, limit, level) == Ok(v, s)
  {
  }

  /** A fitting expression is read back as it is written, unless it nests too deep; the operator after it
      is left untreated. */
  lemma FittingIsParsed(e: Expr, rest: seq<Token>, limit: nat, level: nat)
    requires Fits(e, limit, Next(rest)) && Next(rest) <= limit
    ensures Parse(Tokens(e) + rest, limit, level) ==
            if level + Levels(e) <= LUAI_MAXCCALLS then Ok(e, rest) else TooDeep
  {
    FittingReachesLoop(e, rest, limit, level);
  }

  /** The parser accepts exactly what the grammar allows: there is one way to read a sequence of tokens. */
  lemma ParsesExactly(s: seq<Token>, limit: nat, level: nat, e: Expr, rest: seq<Token>)
    ensures Parse(s, limit, level) == Ok(e, rest) <==>
      s == Tokens(e) + rest && Fits(e, limit, Next(rest)) && Next(rest) <= limit && level + Levels(e) <= LUAI_MAXCCALLS
  {
    if Parse(s, limit, level) == Ok(e, rest) {
      ParsedFits(s, limit, level);
    }
    if s == Tokens(e) + rest && Fits(e, limit, Next(rest)) && Next(rest) <= limit {
      FittingIsParsed(e, rest, limit, level);
    }
  }

  // ---------- Printing with as few parentheses as the table allows ----------

  /** No parentheses that only group. */
  predicate IsTree(t: Expr) {
    match t
    case Leaf(_) => true
    case Paren(e, k) => k > 0 && IsTree(e)
    case Un(_, e) => IsTree(e)
    case Bin(_, l, r) => IsTree(l) && IsTree(r)
  }

  /** Where the tree cannot stand as it is. */
  predicate NeedsParens(t: Expr, limit: nat, next: nat) {
    match t
    case Un(_, _) => next > UNARY_PRIORITY
    case Bin(op, _, _) => Left(op) <= limit || next > Right(op)
    case _ => false
  }

  function Minimal(t: Expr, limit: nat, next: nat): Expr
    decreases t, 1
  {
    if NeedsParens(t, limit, next) then Paren(Inner(t, 0, 0), 0) else Inner(t, limit, next)
  }

  function Inner(t: Expr, limit: nat, next: nat): Expr
    decreases t, 0
  {
    match t
    case Leaf(n) => t
    case Paren(e, k) => Paren(Minimal(e, 0, 0), k)
    case Un(op, e) => Un(op, Minimal(e, UNARY_PRIORITY, next))
    case Bin(op, l, r) => Bin(op, Minimal(l, limit, Left(op)), Minimal(r, Right(op), next))
  }

  lemma {:induction false} MinimalFits(t: Expr, limit: nat, next: nat)
    requires IsTree(t)
    ensures Fits(Minimal(t, limit, next), limit, next) && Tree(Minimal(t, limit, next)) == t
    decreases t, 1
  {
    if NeedsParens(t, limit, next) {
      InnerFits(t, 0, 0);
    } else {
      InnerFits(t, limit, next);
    }
  }

  lemma {:induction false} InnerFits(t: Expr, limit: nat, next: nat)
    requires IsTree(t) && !NeedsParens(t, limit, next)
    ensures Fits(Inner(t, limit, next), limit, next) && Tree(Inner(t, limit, next)) == t
    decreases t, 0
  {
    match t
    case Leaf(n) =>
    case Paren(e, k) => MinimalFits(e, 0, 0);
    case Un(op, e) => MinimalFits(e, UNARY_PRIORITY, next);
    case Bin(op, l, r) =>
      MinimalFits(l, limit, Left(op));
      MinimalFits(r, Right(op), next);
  }

  /** Printing a tree and parsing what is printed gives the tree back. */
  lemma RoundTrip(t: Expr, rest: seq<Token>)
    requires IsTree(t) && Next(rest) == 0 && Levels(Minimal(t, 0, 0)) <= LUAI_MAXCCALLS
    ensures
      var r := Parse(Tokens(Minimal(t, 0, 0)) + rest, 0, 0);
      r.Ok? && Tree(r.e) == t && r.rest == rest
  {
    MinimalFits(t, 0, 0);
    FittingIsParsed(Minimal(t, 0, 0), rest, 0, 0);
  }

  /** `a` has its parentheses where `b` has some too. */
  predicate AtMost(a: Expr, b: Expr)
    decreases b
  {
    match b
    case Leaf(_) => a == b
    case Paren(e, k) => (a.Paren? && a.suffix == k && AtMost(a.e, e)) || (k == 0 && AtMost(a, e))
    case Un(op, e) => a.Un? && a.op == op && AtMost(a.e, e)
    case Bin(op, l, r) => a.Bin? && a.bop == op && AtMost(a.l, l) && AtMost(a.r, r)
  }

  /** A tree that can stand somewhere as it is has the same parentheses there as it has alone. */
  lemma {:induction false} Loosened(t: Expr, limit: nat, next: nat)
    requires !NeedsParens(t, limit, next) && IsLeft(next)
    ensures Inner(t, limit, next) == Inner(t, 0, 0)
    decreases t
  {
    match t
    case Leaf(n) =>
    case Paren(e, k) =>
    case Un(op, e) =>
      RightSpine(e, UNARY_PRIORITY, next);
    case Bin(op, l, r) =>
      LeftSpine(l, limit, Left(op));
      RightSpine(r, Right(op), next);
  }

  /** What follows does not matter behind an operator that may stand before it. */
  lemma {:induction false} RightSpine(t: Expr, limit: nat, next: nat)
    requires next <= limit <= 9 && IsLeft(next)
    ensures Minimal(t, limit, next) == Minimal(t, limit, 0)
    decreases t
  {
    match t
    case Leaf(n) =>
    case Paren(e, k) =>
    case Un(op, e) =>
      RightSpine(e, UNARY_PRIORITY, next);
    case Bin(op, l, r) =>
      if Left(op) > limit {
        RightSpine(r, Right(op), next);
      }
  }

  /** The limit does not matter to the left of an operator that exceeds it. */
  lemma {:induction false} LeftSpine(t: Expr, limit: nat, next: nat)
    requires next > limit
    ensures Minimal(t, limit, next) == Minimal(t, 0, next)
    decreases t
  {
    match t
    case Bin(op, l, r) =>
      if Left(op) > limit {
        LeftSpine(l, limit, Left(op));
      }
    case _ =>
  }

  /** Every way to write the tree that the parser reads back has parentheses wherever `Minimal` has. */
  lemma {:induction false} MinimalIsLeast(e: Expr, limit: nat, next: nat)
    requires Fits(e, limit, next) && IsLeft(next)
    ensures AtMost(Minimal(Tree(e), limit, next), e)
    decreases e
  {
    match e
    case Leaf(n) =>
    case Paren(e1, k) =>
      MinimalIsLeast(e1, 0, 0);
      if k == 0 && !NeedsParens(Tree(e1), limit, next) {
        Loosened(Tree(e1), limit, next);
      }
    case Un(op, e1) =>
      MinimalIsLeast(e1, UNARY_PRIORITY, next);
    case Bin(op, l, r) =>
      MinimalIsLeast(l, limit, Left(op));
      MinimalIsLeast(r, Right(op), next);
  }

  // ---------- The parser at work ----------

  datatype Status = Fine | Deep | Syntax

  class LexState {
    const toks: seq<Token>
    var pos: nat
    var nCcalls: nat

    constructor (toks: seq<Token>)
      ensures this.toks == toks && pos == 0 && nCcalls == 0
    {
      this.toks := toks;
      pos, nCcalls := 0, 0;
    }

    ghost function Ahead(): seq<Token>
      reads this
    {
      if pos <= |toks| then toks[pos..] else []
    }

    function Token(): Token
      reads this
    {
      if pos < |toks| then toks[pos] else Eos
    }

    /** What a call read agrees with what the specification reads from where it started. */
    ghost predicate Agrees(status: Status, v: Expr, op: Option<BinOp>, r: Parsed)
      reads this
    {
      match status
      case Fine => r == Ok(v, Ahead()) && op == GetBinOpr(Token())
      case Deep => r == TooDeep
      case Syntax => r == Unexpected
    }

    method Next()
      requires pos < |toks|
      modifies `pos
      ensures pos == old(pos) + 1 && Ahead() == old(Ahead())[1..]
    {
      pos := pos + 1;
    }

    /** `prefixexp` and the other simple expressions. */
    method SimpleExp() returns (status: Status, v: Expr)
      requires GetUnOpr(Token()).None? && 1 <= nCcalls <= LUAI_MAXCCALLS
      modifies this
      ensures Agrees(status, v, GetBinOpr(Token()), Operand(old(Ahead()), old(nCcalls) - 1))
      ensures status.Fine? ==> nCcalls == old(nCcalls) && pos > old(pos)
      decreases |toks| - pos, 0
    {
      v := Leaf(0);
      match Token()
      case Atom(n) =>
        Next();
        return Fine, Leaf(n);
      case Open =>
        Next();
        var op;
        status, v, op := SubExpr(0);
        if status != Fine {
          return;
        }
        if !Token().Close? {
          return Syntax, v;
        }
        v := Paren(v, Token().suffix);
        Next();
      case _ =>
        return Syntax, v;
    }

    /** A unary operator with its operand, or a simple expression. */
    method ReadOperand() returns (status: Status, v: Expr)
      requires 1 <= nCcalls <= LUAI_MAXCCALLS
      modifies this
      ensures Agrees(status, v, GetBinOpr(Token()), Operand(old(Ahead()), old(nCcalls) - 1))
      ensures status.Fine? ==> nCcalls == old(nCcalls) && pos > old(pos)
      decreases |toks| - pos, 1
    {
      NotUnary();
      hide GetBinOpr, GetUnOpr, Parse, Loop;
      var uop := GetUnOpr(Token());
      if uop.Some? {
        var op;
        Next();
        status, v, op := SubExpr(UNARY_PRIORITY);
        v := Un(uop.value, v);
      } else {
        status, v := SimpleExp();
      }
    }

    /** The loop of `subexpr`: expands `v0` while operators have priorities higher than `limit`. */
    method Expand(v0: Expr, limit: nat) returns (status: Status, v: Expr, op: Option<BinOp>)
      requires 1 <= nCcalls <= LUAI_MAXCCALLS
      modifies this
      ensures Agrees(status, v, op, Loop(v0, old(Ahead()), limit, old(nCcalls) - 1))
      ensures status.Fine? ==> nCcalls == old(nCcalls) && pos >= old(pos)
      decreases |toks| - pos, 1
    {
      NotUnary();
      hide GetBinOpr, GetUnOpr, Left, Right, Operand, Loop, Parse;
      ghost var level := nCcalls - 1;
      ghost var whole := Loop(v0, Ahead(), limit, level);
      status, v, op := Fine, v0, GetBinOpr(Token());
      while op.Some? && Left(op.value) > limit
        invariant nCcalls == level + 1 && pos >= old(pos) && op == GetBinOpr(Token()) && status == Fine
        invariant whole == Loop(v, Ahead(), limit, level)
        decreases |toks| - pos
      {
        LoopGoesOn(v, Ahead(), op.value, limit, level);
        Next();
        var v2, nextop;
        status, v2, nextop := SubExpr(Right(op.value));
        if status != Fine {
          return;
        }
        v := Bin(op.value, v, v2);
        op := nextop;
      }
      LoopEnds(v, Ahead(), limit, level);
    }

    /** `subexpr`: returns the first untreated operator. */
    method SubExpr(limit: nat) returns (status: Status, v: Expr, op: Option<BinOp>)
      requires nCcalls <= LUAI_MAXCCALLS
      modifies this
      ensures Agrees(status, v, op, Parse(old(Ahead()), limit, old(nCcalls)))
      ensures status.Fine? ==> nCcalls == old(nCcalls) && pos > old(pos)
      decreases |toks| - pos, 2
    {
      ParseIs(Ahead(), limit, nCcalls);
      hide GetBinOpr, GetUnOpr, Left, Right, Operand, Loop, Parse;
      v, op := Leaf(0), None;
      nCcalls := nCcalls + 1;
      if nCcalls > LUAI_MAXCCALLS {
        return Deep, v, op;
      }
      status, v := ReadOperand();
      if status == Fine {
        status, v, op := Expand(v, limit);
      }
      if status == Fine {
        nCcalls := nCcalls - 1;
      }
    }
  }
}
