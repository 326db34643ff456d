/** How tightly operators bind, as section 2.5.6 of the Lua 5.1 Reference Manual lists them, and that the
    parser (lparser.cpp:766-811) groups by this list and by nothing else. */
module OperatorOrder {
  import opened Common
  import opened Precedence

  /** The list, from lower to higher priority; the unary operators come between ranks 6 and 8. */
  function Rank(op: BinOp): nat {
    match op
    case Or => 1
    case And => 2
    case Lt => 3
    case Gt => 3
    case Le => 3
    case Ge => 3
    case Ne => 3
    case Eq => 3
    case Concat => 4
    case Add => 5
    case Sub => 5
    case Mul => 6
    case Div => 6
    case Mod => 6
    case Pow => 8
  }

  const UNARY_RANK := 7

  /** Concatenation and exponentiation are right associative; all others are left associative. */
  predicate RightAssociative(op: BinOp) {
    op == Concat || op == Pow
  }

  /** What an operand stands behind. */
  datatype Before = Nothing | Unary | Binary(op: BinOp)

  /** Between `before` and `op`, the operand belongs to `op`. */
  predicate Takes(op: BinOp, before: Before) {
    match before
    case Nothing => true
    case Unary => Rank(op) > UNARY_RANK
    case Binary(first) => Rank(op) > Rank(first) || (Rank(op) == Rank(first) && RightAssociative(op))
  }

  /** No operator follows, or one that leaves the operand to what stands before it. */
  predicate Leaves(after: Option<BinOp>, before: Before) {
    after.None? || !Takes(after.value, before)
  }

  /** Every operator of the expression has the operands that the list gives it, where the expression stands
      behind `before` and in front of `after`. */
  predicate Grouped(e: Expr, before: Before, after: Option<BinOp>) {
    match e
    case Leaf(_) => true
    case Paren(e1, _) => Grouped(e1, Nothing, None)
    case Un(_, e1) => Leaves(after, Unary) && Grouped(e1, Unary, after)
    case Bin(op, l, r) =>
      Takes(op, before) && Leaves(after, Binary(op)) && Grouped(l, before, Some(op)) && Grouped(r, Binary(op), after)
  }

  function LimitOf(before: Before): nat {
    match before
    case Nothing => 0
    case Unary => UNARY_PRIORITY
    case Binary(op) => Right(op)
  }

  function NextOf(after: Option<BinOp>): nat {
    if after.Some? then Left(after.value) else 0
  }

  /** The priority table orders the operators as the list does. */
  lemma TableIsList(op: BinOp, before: Before)
    ensures Left(op) > LimitOf(before) <==> Takes(op, before)
  {
  }

  lemma {:induction false} FitsIfGrouped(e: Expr, before: Before, after: Option<BinOp>)
    ensures Fits(e, LimitOf(before), NextOf(after)) <==> Grouped(e, before, after)
    decreases e
  {
    hide Left, Right, Takes;
    match e
    case Leaf(_) =>
    case Paren(e1, _) => FitsIfGrouped(e1, Nothing, None);
    case Un(_, e1) =>
      if after.Some? {
        TableIsList(after.value, Unary);
      }
      FitsIfGrouped(e1, Unary, after);
    case Bin(op, l, r) =>
      TableIsList(op, before);
      if after.Some? {
        TableIsList(after.value, Binary(op));
      }
      FitsIfGrouped(l, before, Some(op));
      FitsIfGrouped(r, Binary(op), after);
  }

  /** The parser reads `e` exactly where the tokens spell it, the list groups it so, nothing but another
      kind of token follows, and it takes no more than 200 nested calls. */
  lemma ParsesByList(s: seq<Token>, e: Expr, rest: seq<Token>)
    ensures Parse(s, 0, 0) == Ok(e, rest) <==>
      s == Tokens(e) + rest && Grouped(e, Nothing, None) && GetBinOpr(Head(rest)) == None && Levels(e) <= 200
  {
    ParsesExactly(s, 0, 0, e, rest);
    FitsIfGrouped(e, Nothing, None);
  }

  // ---------- Two operators ----------

  /** `e` is written as `s`, and the list groups it where it stands. */
  predicate Reads(e: Expr, s: seq<Token>, before: Before, after: Option<BinOp>) {
    Tokens(e) == s && Grouped(e, before, after) && Levels(e) <= 1 + |s|
  }

  lemma ReadsAtom(n: nat, before: Before, after: Option<BinOp>)
    ensures Reads(Leaf(n), [Atom(n)], before, after)
  {
  }

  lemma ReadsUnary(u: UnOp, e: Expr, s: seq<Token>, before: Before, after: Option<BinOp>)
    requires Reads(e, s, Unary, after) && Leaves(after, Unary)
    ensures Reads(Un(u, e), [UnToken(u)] + s, before, after)
  {
  }

  lemma ReadsBinary(op: BinOp, l: Expr, r: Expr, sl: seq<Token>, sr: seq<Token>, before: Before, after: Option<BinOp>)
    requires Reads(l, sl, before, Some(op)) && Reads(r, sr, Binary(op), after)
    requires Takes(op, before) && Leaves(after, Binary(op))
    ensures Reads(Bin(op, l, r), sl + [BinToken(op)] + sr, before, after)
  {
  }

  /** What the list groups so is what the parser makes of it. */
  lemma ReadsWhole(e: Expr, s: seq<Token>)
    requires Reads(e, s, Nothing, None) && |s| <= 10
    ensures Parse(s, 0, 0) == Ok(e, [])
  {
    hide Parse, Tokens, Grouped, Levels;
    assert s == Tokens(e) + [];
    ParsesByList(s, e, []);
  }

  /** `a op1 b op2 c`. */
  lemma TwoBinary(op1: BinOp, op2: BinOp, a: nat, b: nat, c: nat)
    ensures Parse([Atom(a), BinToken(op1), Atom(b), BinToken(op2), Atom(c)], 0, 0) ==
            Ok(if Rank(op2) > Rank(op1) || op1 == op2 == Concat || op1 == op2 == Pow
               then Bin(op1, Leaf(a), Bin(op2, Leaf(b), Leaf(c)))
               else Bin(op2, Bin(op1, Leaf(a), Leaf(b)), Leaf(c)), [])
  {
    hide Parse, BinToken, Reads;
    var s := [Atom(a), BinToken(op1), Atom(b), BinToken(op2), Atom(c)];
    if Takes(op2, Binary(op1)) {
      var r := Bin(op2, Leaf(b), Leaf(c));
      ReadsPair(op2, b, c, Binary(op1), None);
      ReadsAtom(a, Nothing, Some(op1));
      ReadsBinary(op1, Leaf(a), r, [Atom(a)], [Atom(b), BinToken(op2), Atom(c)], Nothing, None);
      assert [Atom(a)] + [BinToken(op1)] + [Atom(b), BinToken(op2), Atom(c)] == s;
      ReadsWhole(Bin(op1, Leaf(a), r), s);
    } else {
      var l := Bin(op1, Leaf(a), Leaf(b));
      ReadsPair(op1, a, b, Nothing, Some(op2));
      ReadsAtom(c, Binary(op2), None);
      ReadsBinary(op2, l, Leaf(c), [Atom(a), BinToken(op1), Atom(b)], [Atom(c)], Nothing, None);
      assert [Atom(a), BinToken(op1), Atom(b)] + [BinToken(op2)] + [Atom(c)] == s;
      ReadsWhole(Bin(op2, l, Leaf(c)), s);
    }
  }

  lemma ReadsPair(op: BinOp, a: nat, b: nat, before: Before, after: Option<BinOp>)
    requires Takes(op, before) && Leaves(after, Binary(op))
    ensures Reads(Bin(op, Leaf(a), Leaf(b)), [Atom(a), BinToken(op), Atom(b)], before, after)
  {
    hide Reads, BinToken;
    ReadsAtom(a, before, Some(op));
    ReadsAtom(b, Binary(op), after);
    ReadsBinary(op, Leaf(a), Leaf(b), [Atom(a)], [Atom(b)], before, after);
    assert [Atom(a)] + [BinToken(op)] + [Atom(b)] == [Atom(a), BinToken(op), Atom(b)];
  }

  lemma ReadsSign(u: UnOp, a: nat, before: Before, after: Option<BinOp>)
    requires Leaves(after, Unary)
    ensures Reads(Un(u, Leaf(a)), [UnToken(u), Atom(a)], before, after)
  {
    hide Reads, UnToken;
    ReadsAtom(a, Unary, after);
    ReadsUnary(u, Leaf(a), [Atom(a)], before, after);
    assert [UnToken(u)] + [Atom(a)] == [UnToken(u), Atom(a)];
  }

  /** `u a op b` behind `before`, the unary operator applied to the power or to `a` alone. */
  lemma ReadsSigned(u: UnOp, op: BinOp, a: nat, b: nat, before: Before)
    requires op == Pow || Takes(op, before)
    ensures Reads(if op == Pow then Un(u, Bin(op, Leaf(a), Leaf(b))) else Bin(op, Un(u, Leaf(a)), Leaf(b)),
                  [UnToken(u), Atom(a), BinToken(op), Atom(b)], before, None)
  {
    hide Reads, UnToken, BinToken;
    var s := [UnToken(u), Atom(a), BinToken(op), Atom(b)];
    if op == Pow {
      ReadsPair(op, a, b, Unary, None);
      ReadsUnary(u, Bin(op, Leaf(a), Leaf(b)), [Atom(a), BinToken(op), Atom(b)], before, None);
      assert [UnToken(u)] + [Atom(a), BinToken(op), Atom(b)] == s;
    } else {
      ReadsSign(u, a, before, Some(op));
      ReadsAtom(b, Binary(op), None);
      ReadsBinary(op, Un(u, Leaf(a)), Leaf(b), [UnToken(u), Atom(a)], [Atom(b)], before, None);
      assert [UnToken(u), Atom(a)] + [BinToken(op)] + [Atom(b)] == s;
    }
  }

  /** `u a op b`: `-a ^ b` is `-(a ^ b)`, `not a == b` is `(not a) == b`. */
  lemma UnaryFirst(u: UnOp, op: BinOp, a: nat, b: nat)
    ensures Parse([UnToken(u), Atom(a), BinToken(op), Atom(b)], 0, 0) ==
            Ok(if op == Pow then Un(u, Bin(op, Leaf(a), Leaf(b))) else Bin(op, Un(u, Leaf(a)), Leaf(b)), [])
  {
    hide Parse, Reads;
    ReadsSigned(u, op, a, b, Nothing);
    ReadsWhole(if op == Pow then Un(u, Bin(op, Leaf(a), Leaf(b))) else Bin(op, Un(u, Leaf(a)), Leaf(b)),
               [UnToken(u), Atom(a), BinToken(op), Atom(b)]);
  }

  /** `a op u b`: `a ^ -b` is `a ^ (-b)`. */
  lemma UnarySecond(op: BinOp, u: UnOp, a: nat, b: nat)
    ensures Parse([Atom(a), BinToken(op), UnToken(u), Atom(b)], 0, 0) == Ok(Bin(op, Leaf(a), Un(u, Leaf(b))), [])
  {
    hide Parse, Reads, UnToken, BinToken;
    ReadsAtom(a, Nothing, Some(op));
    ReadsSign(u, b, Binary(op), None);
    ReadsBinary(op, Leaf(a), Un(u, Leaf(b)), [Atom(a)], [UnToken(u), Atom(b)], Nothing, None);
    var s := [Atom(a), BinToken(op), UnToken(u), Atom(b)];
    assert [Atom(a)] + [BinToken(op)] + [UnToken(u), Atom(b)] == s;
    ReadsWhole(Bin(op, Leaf(a), Un(u, Leaf(b))), s);
  }

  /** `a op1 u b op2 c`: the unary operator takes `b ^ c`, and else `b` alone. */
  lemma UnaryBetween(op1: BinOp, u: UnOp, op2: BinOp, a: nat, b: nat, c: nat)
    ensures Parse([Atom(a), BinToken(op1), UnToken(u), Atom(b), BinToken(op2), Atom(c)], 0, 0) ==
            Ok(if op2 == Pow then Bin(op1, Leaf(a), Un(u, Bin(op2, Leaf(b), Leaf(c))))
               else if Rank(op2) > Rank(op1) || op1 == op2 == Concat
               then Bin(op1, Leaf(a), Bin(op2, Un(u, Leaf(b)), Leaf(c)))
               else Bin(op2, Bin(op1, Leaf(a), Un(u, Leaf(b))), Leaf(c)), [])
  {
    hide Parse, Reads, UnToken, BinToken;
    var s := [Atom(a), BinToken(op1), UnToken(u), Atom(b), BinToken(op2), Atom(c)];
    ReadsAtom(a, Nothing, Some(op1));
    if op2 == Pow || Takes(op2, Binary(op1)) {
      var r := if op2 == Pow then Un(u, Bin(op2, Leaf(b), Leaf(c))) else Bin(op2, Un(u, Leaf(b)), Leaf(c));
      ReadsSigned(u, op2, b, c, Binary(op1));
      ReadsBinary(op1, Leaf(a), r, [Atom(a)], [UnToken(u), Atom(b), BinToken(op2), Atom(c)], Nothing, None);
      assert [Atom(a)] + [BinToken(op1)] + [UnToken(u), Atom(b), BinToken(op2), Atom(c)] == s;
      ReadsWhole(Bin(op1, Leaf(a), r), s);
    } else {
      var l := Bin(op1, Leaf(a), Un(u, Leaf(b)));
      ReadsSign(u, b, Binary(op1), Some(op2));
      ReadsBinary(op1, Leaf(a), Un(u, Leaf(b)), [Atom(a)], [UnToken(u), Atom(b)], Nothing, Some(op2));
      ReadsAtom(c, Binary(op2), None);
      ReadsBinary(op2, l, Leaf(c), [Atom(a)] + [BinToken(op1)] + [UnToken(u), Atom(b)], [Atom(c)], Nothing, None);
      assert [Atom(a)] + [BinToken(op1)] + [UnToken(u), Atom(b)] + [BinToken(op2)] + [Atom(c)] == s;
      ReadsWhole(Bin(op2, l, Leaf(c)), s);
    }
  }

  /** The symbols of the arithmetic operators and of concatenation, the relational and logical ones, and the
      unary ones. */
  lemma Arithmetic()
    ensures BinToken(Add) == TkPlus && BinToken(Sub) == TkMinus && BinToken(Mul) == TkStar && BinToken(Div) == TkSlash
    ensures BinToken(Mod) == TkPercent && BinToken(Pow) == TkCaret && BinToken(Concat) == TkConcat
  {
  }

  lemma Relational()
    ensures BinToken(Ne) == TkNe && BinToken(Eq) == TkEq && BinToken(Lt) == TkLt && BinToken(Le) == TkLe
    ensures BinToken(Gt) == TkGt && BinToken(Ge) == TkGe
  {
  }

  lemma Logical()
    ensures BinToken(And) == TkAnd && BinToken(Or) == TkOr
  {
  }

  lemma UnarySymbols()
    ensures UnToken(Not) == TkNot && UnToken(Minus) == TkMinus && UnToken(Len) == TkHash
  {
  }
}
