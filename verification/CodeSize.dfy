/** Which expressions the code generator accepts: errors come from too many registers (luaK_checkstack) and from
    jumps that are too long (fixjump), and neither is near while the expression is not large. */
module CodeSize {
  import opened Bytecode
  import opened CodeSpec
  import opened CodeMeaning
  import opened ShortCircuit

  /** Registers beyond those in use that compiling an expression and storing its value can take: the first operand
      of a comparison is kept while the second is evaluated. */
  function Registers(x: Expr): (r: nat)
    ensures r >= 1
  {
    match x
    case Local(_) => 1
    case Global(_) => 1
    case Paren(a) => Registers(a)
    case Not(a) => Registers(a)
    case And(a, b) => Larger(Registers(a), Registers(b))
    case Or(a, b) => Larger(Registers(a), Registers(b))
    case Cmp(_, _, a, b) => Larger(Registers(a), Registers(b) + 1)
  }

  function Larger(a: nat, b: nat): nat {
    if a < b then b else a
  }

  /** Instructions that compiling an expression and storing its value can emit; storing takes five at most. */
  function Size(x: Expr): (r: nat)
    ensures r >= 5
  {
    match x
    case Local(_) => 5
    case Global(_) => 5
    case Paren(a) => Size(a) + 1
    case Not(a) => Size(a) + 2
    case And(a, b) => Size(a) + Size(b)
    case Or(a, b) => Size(a) + Size(b)
    case Cmp(_, _, a, b) => Size(a) + Size(b) + 7
  }

  /** A step of the generator that emits at most `n` instructions and reserves at most `k` registers. */
  ghost predicate Costs(g: Gen, g': Gen, n: nat, k: nat) {
    && |g'.code| <= |g.code| + n
    && g'.freereg <= g.freereg + k
    && (!g.failed && g.freereg + k < 250 ==> !g'.failed)
  }

  /** The only error of the generator on values: there are 250 registers, and one is never used. */
  lemma ReserveFails(g: Gen, n: nat)
    ensures Reserve(g, n).failed <==> g.failed || g.freereg + n >= 250
  {
  }

  lemma VarsCost(g: Gen, e: Exp)
    ensures Costs(g, DischargeVars(g, e).0, 1, 0)
    ensures var (g1, e1) := DischargeVars(g, e); DischargeVars(g1, e1) == (g1, e1)
  {
  }

  lemma RegCost(g: Gen, e: Exp, reg: nat)
    requires DischargeVars(g, e) == (g, e)
    ensures Costs(g, Exp2Reg(g, e, reg).0, 4, 0)
  {
  }

  lemma SameVars(g: Gen, e: Exp, g': Gen)
    requires DischargeVars(g, e) == (g, e)
    ensures DischargeVars(g', e) == (g', e)
  {
  }

  lemma NextRegCost(g: Gen, e: Exp)
    requires DischargeVars(g, e) == (g, e)
    ensures Costs(g, Exp2NextReg(g, e).0, 4, 1)
  {
    hide DischargeVars, Exp2Reg;
    var g1 := FreeExp(g, e);
    var g2 := Reserve(g1, 1);
    SameVars(g, e, g2);
    RegCost(g2, e, g1.freereg);
  }

  lemma NextRegVars(g: Gen, e: Exp)
    ensures Exp2NextReg(g, e) == Exp2NextReg(DischargeVars(g, e).0, DischargeVars(g, e).1)
    ensures Costs(g, Exp2NextReg(g, e).0, 5, 1)
  {
    hide DischargeVars, Exp2Reg;
    VarsCost(g, e);
    var (g1, e1) := DischargeVars(g, e);
    assert Exp2NextReg(g, e) == Exp2NextReg(g1, e1);
    NextRegCost(g1, e1);
  }

  /** A value that has no exits and is not in a register goes to the next one. */
  lemma AnyRegCost(g: Gen, e: Exp)
    requires DischargeVars(g, e) == (g, e)
    ensures Costs(g, Exp2AnyReg(g, e).0, 4, 1)
    ensures HasJumps(e) ==> Exp2AnyReg(g, e).1.k == VNONRELOC && !HasJumps(Exp2AnyReg(g, e).1)
    ensures e.k == VNONRELOC && !HasJumps(e) ==> Exp2AnyReg(g, e) == (g, e)
  {
    hide DischargeVars, Exp2NextReg, PatchExits, SkipLabels, EmitLabels;
    RegCost(g, e, e.info);
    NextRegCost(g, e);
    RegGives(g, e);
  }

  lemma RegGives(g: Gen, e: Exp)
    ensures Exp2NextReg(g, e).1.k == VNONRELOC && !HasJumps(Exp2NextReg(g, e).1)
    ensures forall reg: nat {:trigger Exp2Reg(g, e, reg)} ::
              Exp2Reg(g, e, reg).1.k == VNONRELOC && !HasJumps(Exp2Reg(g, e, reg).1)
  {
    hide PatchExits, SkipLabels, EmitLabels, Discharge2Reg, DischargeVars;
  }

  lemma AnyRegVars(g: Gen, e: Exp)
    ensures Exp2AnyReg(g, e) == Exp2AnyReg(DischargeVars(g, e).0, DischargeVars(g, e).1)
  {
    hide DischargeVars, Exp2NextReg, Exp2Reg;
    VarsCost(g, e);
  }

  lemma RKCost(g: Gen, e: Exp)
    ensures Costs(g, Exp2RK(g, e).0, 5, 1)
  {
    hide DischargeVars, Exp2AnyReg;
    VarsCost(g, e);
    var (g1, e1) := DischargeVars(g, e);
    AnyRegVars(g, e);
    AnyRegCost(g1, e1);
    VarsLists(g, e);
    if HasJumps(e) {
      var (g2, e2) := Exp2AnyReg(g, e);
      SettledVars(g2, e2);
      AnyRegCost(g2, e2);
    }
  }

  lemma SettledVars(g: Gen, e: Exp)
    requires e.k == VNONRELOC
    ensures DischargeVars(g, e) == (g, e)
  {
  }

  lemma VarsLists(g: Gen, e: Exp)
    ensures HasJumps(DischargeVars(g, e).1) == HasJumps(e)
  {
  }

  lemma JumpCost(g: Gen, e: Exp, cond: bool)
    requires DischargeVars(g, e) == (g, e)
    ensures Costs(g, JumpOnCond(g, e, cond).0, 2, 1)
  {
  }

  lemma GoCost(g: Gen, e: Exp)
    ensures Costs(g, GoIfTrue(g, e).0, 3, 1) && Costs(g, GoIfFalse(g, e).0, 3, 1)
  {
    hide DischargeVars, JumpOnCond;
    VarsCost(g, e);
    var (g1, e1) := DischargeVars(g, e);
    JumpCost(g1, e1, false);
    JumpCost(g1, e1, true);
  }

  lemma NotCost(g: Gen, e: Exp)
    ensures Costs(g, CodeNot(g, e).0, 2, 1)
  {
    hide DischargeVars, RemoveValues, Discharge2AnyReg;
    VarsCost(g, e);
    var (g1, e1) := DischargeVars(g, e);
    AnyCost(g1, e1);
  }

  lemma AnyCost(g: Gen, e: Exp)
    requires DischargeVars(g, e) == (g, e)
    ensures Costs(g, Discharge2AnyReg(g, e).0, 0, 1)
  {
  }

  lemma CompCost(g: Gen, op: Comparison, negated: bool, a: Exp, b: Exp)
    requires a.k == VNONRELOC && !HasJumps(a)
    ensures Costs(g, CodeComp(g, op, negated, a, b).0, 7, 1)
  {
    hide Exp2AnyReg, DischargeVars;
    SettledVars(g, a);
    AnyRegCost(g, a);
    RKCost(g, b);
  }

  // ---------- Whole expressions ----------

  /** An expression that its register and code bounds allow raises no error, and stays within them. */
  lemma {:induction false} CompileFits(g: Gen, x: Expr)
    requires Start(g) && InScope(x, g.nactvar) && !g.failed && g.freereg + Registers(x) < 250
    ensures var g' := Compile(g, x).0; !g'.failed && |g'.code| + 5 <= |g.code| + Size(x) && g'.freereg == g.freereg
    decreases x, 1
  {
    hide CodeNot, GoIfTrue, GoIfFalse, Exp2RK, CodeComp, DischargeVars;
    CompileShape(g, x);
    SameRegisters(g, x);
    match x
    case Local(_) =>
    case Global(_) =>
    case Paren(a) =>
      CompileFits(g, a);
      VarsCost(Compile(g, a).0, Compile(g, a).1);
    case Not(a) =>
      CompileFits(g, a);
      NotCost(Compile(g, a).0, Compile(g, a).1);
    case And(a, b) => JunctionFits(g, a, b, true);
    case Or(a, b) => JunctionFits(g, a, b, false);
    case Cmp(op, negated, a, b) => CmpFits(g, op, negated, a, b);
  }

  lemma SameRegisters(g: Gen, x: Expr)
    requires Start(g) && InScope(x, g.nactvar)
    ensures Compile(g, x).0.freereg == g.freereg
  {
    CompileShape(g, x);
  }

  lemma {:induction false} JunctionFits(g: Gen, a: Expr, b: Expr, when: bool)
    requires Start(g) && InScope(a, g.nactvar) && InScope(b, g.nactvar) && !g.failed
    requires g.freereg + Larger(Registers(a), Registers(b)) < 250
    ensures var g' := Compile(g, Junction(a, b, when)).0; !g'.failed && |g'.code| + 5 <= |g.code| + Size(a) + Size(b)
    decreases Junction(a, b, when), 0
  {
    hide Compile, GoIfTrue, GoIfFalse, DischargeVars, Start, Shape, Grows, Guard, InScope, Registers, Size;
    CompileShape(g, a);
    CompileFits(g, a);
    FirstShape(g, a, when);
    GoCost(Compile(g, a).0, Compile(g, a).1);
    var g2 := First(g, a, when).0;
    CompileFits(g2, b);
    VarsCost(Compile(g2, b).0, Compile(g2, b).1);
    JunctionForm(g, a, b, when);
  }

  lemma {:induction false} CmpFits(g: Gen, op: Comparison, negated: bool, a: Expr, b: Expr)
    requires Start(g) && InScope(a, g.nactvar) && InScope(b, g.nactvar) && !g.failed
    requires g.freereg + Larger(Registers(a), Registers(b) + 1) < 250
    ensures var g' := Compile(g, Cmp(op, negated, a, b)).0; !g'.failed && |g'.code| <= |g.code| + Size(a) + Size(b) + 2
    decreases Cmp(op, negated, a, b), 0
  {
    hide Exp2RK, CodeComp, Start, Shape, Grows, Operand;
    CompileShape(g, a);
    CompileFits(g, a);
    var (g1, v) := Compile(g, a);
    var (g2, v1) := Exp2RK(g1, v);
    RKCost(g1, v);
    SecondStart(g, g1, v, g2, v1);
    OperandThere(g, g2, v1);
    CompileFits(g2, b);
    CompCost(Compile(g2, b).0, op, negated, v1, Compile(g2, b).1);
  }

  lemma OperandThere(g: Gen, g2: Gen, v: Exp)
    requires Operand(g, g2, v, |g.code|, g.freereg)
    ensures v.k == VNONRELOC && !HasJumps(v)
  {
  }

  /** Storing the value in the next register. */
  lemma NextRegFits(g: Gen, x: Expr)
    requires Start(g) && InScope(x, g.nactvar) && !g.failed && g.freereg + Registers(x) < 250
    ensures var (g1, v) := Compile(g, x);
            var g2 := Exp2NextReg(g1, v).0;
            !g2.failed && |g2.code| <= |g.code| + Size(x)
  {
    hide Compile, Exp2NextReg;
    CompileFits(g, x);
    NextRegVars(Compile(g, x).0, Compile(g, x).1);
  }

  /** Branching on it. */
  lemma ConditionFits(g: Gen, x: Expr)
    requires Start(g) && InScope(x, g.nactvar) && !g.failed && g.freereg + Registers(x) < 250
    ensures var (g1, v) := Compile(g, x);
            var g2 := GoIfTrue(g1, v).0;
            !g2.failed && |g2.code| <= |g.code| + Size(x)
  {
    hide Compile, GoIfTrue;
    CompileFits(g, x);
    GoCost(Compile(g, x).0, Compile(g, x).1);
  }
}
