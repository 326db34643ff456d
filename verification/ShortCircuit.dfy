/** Short-circuit evaluation is compiled correctly (section 2.5.3 of the Lua 5.1 Reference Manual):
    the emitted code gives the value of the expression, in a register or as a branch, and asks for
    exactly the globals and comparisons that the expression asks for, in the same order. */
module ShortCircuit {
  import opened Bytecode
  import opened CodeSpec
  import opened CodeMeaning

  // ---------- Errors are final ----------

  lemma Exp2RKFailed(g: Gen, e: Exp)
    ensures g.failed ==> Exp2RK(g, e).0.failed
  {
    hide Exp2AnyReg, DischargeVars;
    DischargeFails(g, e);
    AnyRegFails(g, e);
    AnyRegFails(Exp2Val(g, e).0, Exp2Val(g, e).1);
  }

  lemma DischargeFails(g: Gen, e: Exp)
    ensures g.failed ==> DischargeVars(g, e).0.failed
  {
  }

  lemma AnyRegFails(g: Gen, e: Exp)
    ensures g.failed ==> Exp2AnyReg(g, e).0.failed
  {
    hide PatchList;
  }

  lemma {:induction false} CompileFailed(g: Gen, e: Expr)
    ensures g.failed ==> Compile(g, e).0.failed
    decreases e
  {
    match e
    case Paren(a) => CompileFailed(g, a);
    case Not(a) => CompileFailed(g, a);
    case And(a, b) =>
      CompileFailed(g, a);
      CompileFailed(GoIfTrue(Compile(g, a).0, Compile(g, a).1).0, b);
    case Or(a, b) =>
      CompileFailed(g, a);
      CompileFailed(GoIfFalse(Compile(g, a).0, Compile(g, a).1).0, b);
    case Cmp(op, negated, a, b) =>
      CompileFailed(g, a);
      var (g1, v) := Compile(g, a);
      var (g2, v1) := Exp2RK(g1, v);
      Exp2RKFailed(g1, v);
      CompileFailed(g2, b);
      CodeCompFailed(Compile(g2, b).0, op, negated, v1, Compile(g2, b).1);
    case _ =>
  }

  lemma CodeCompFailed(g: Gen, op: Comparison, negated: bool, a: Exp, b: Exp)
    ensures g.failed ==> CodeComp(g, op, negated, a, b).0.failed
  {
    Exp2RKFailed(g, a);
    Exp2RKFailed(Exp2RK(g, a).0, b);
  }

  // ---------- What an expression depends on ----------

  /** Only active local variables matter. */
  lemma {:induction false} EvalAgrees(oracle: Oracle, m: Machine, m1: Machine, trace: seq<Event>, n: nat, e: Expr)
    requires Agree(m, m1, n, NO_REG) && InScope(e, n)
    ensures Eval(oracle, m1.regs, trace, e) == Eval(oracle, m.regs, trace, e)
    decreases e
  {
    match e
    case Local(r) =>
    case Global(_) =>
    case Paren(a) => EvalAgrees(oracle, m, m1, trace, n, a);
    case Not(a) => EvalAgrees(oracle, m, m1, trace, n, a);
    case And(a, b) =>
      EvalAgrees(oracle, m, m1, trace, n, a);
      EvalAgrees(oracle, m, m1, Eval(oracle, m.regs, trace, a).trace, n, b);
    case Or(a, b) =>
      EvalAgrees(oracle, m, m1, trace, n, a);
      EvalAgrees(oracle, m, m1, Eval(oracle, m.regs, trace, a).trace, n, b);
    case Cmp(_, _, a, b) =>
      EvalAgrees(oracle, m, m1, trace, n, a);
      EvalAgrees(oracle, m, m1, Eval(oracle, m.regs, trace, a).trace, n, b);
  }

  // ---------- The generator keeps its lists in shape ----------

  /** A state from which an expression can be compiled. */
  ghost predicate Start(g: Gen) {
    ToEnd(g.code, g.jpc) && g.nactvar <= g.freereg
  }

  lemma {:induction false} CompileShape(g: Gen, e: Expr)
    requires Start(g) && InScope(e, g.nactvar)
    ensures var (g', v) := Compile(g, e); Shape(g', v, |g.code|, g.freereg) && Grows(g, g', |g.code|)
    decreases e, 1
  {
    hide Shape, Grows, CodeNot, GoIfTrue, GoIfFalse, Exp2RK, CodeComp;
    var base, n := |g.code|, g.freereg;
    match e
    case Local(_) => LeafShape(g, e);
    case Global(_) => LeafShape(g, e);
    case Paren(a) =>
      CompileShape(g, a);
      var (g1, v) := Compile(g, a);
      DischargeVarsShape(g1, v, base, n);
      GrowsOn(g, g1, DischargeVars(g1, v).0, base);
    case Not(a) =>
      var (g1, v) := Compile(g, a);
      CompileShape(g, a);
      CodeNotShape(g1, v, base, n);
      GrowsOn(g, g1, CodeNot(g1, v).0, base);
    case And(a, b) => JunctionShape(g, a, b, true);
    case Or(a, b) => JunctionShape(g, a, b, false);
    case Cmp(op, negated, a, b) => CmpShape(g, op, negated, a, b);
  }

  lemma NotFails(g: Gen, v: Exp)
    ensures g.failed ==> CodeNot(g, v).0.failed
  {
  }

  lemma LeafShape(g: Gen, e: Expr)
    requires Start(g) && InScope(e, g.nactvar) && (e.Local? || e.Global?)
    ensures var (g', v) := Compile(g, e); Shape(g', v, |g.code|, g.freereg) && Grows(g, g', |g.code|)
  {
    EmptyLists(g.code, |g.code|);
  }

  function Junction(a: Expr, b: Expr, when: bool): Expr {
    if when then And(a, b) else Or(a, b)
  }

  /** The first operand of `and` (`when` is true) or `or`, with its jump. */
  function First(g: Gen, a: Expr, when: bool): (Gen, Exp) {
    var (g1, v) := Compile(g, a);
    if when then GoIfTrue(g1, v) else GoIfFalse(g1, v)
  }

  function FirstList(g: Gen, a: Expr, when: bool): seq<nat> {
    if when then First(g, a, when).1.f else First(g, a, when).1.t
  }

  lemma JunctionForm(g: Gen, a: Expr, b: Expr, when: bool)
    ensures var g2 := First(g, a, when).0;
            var (g3, w) := Compile(g2, b);
            var (g4, w1) := DischargeVars(g3, w);
            Compile(g, Junction(a, b, when)) == (g4, Joined(FirstList(g, a, when), w1, when))
  {
  }

  lemma FirstShape(g: Gen, a: Expr, when: bool)
    requires Start(g) && Shape(Compile(g, a).0, Compile(g, a).1, |g.code|, g.freereg) &&
             Grows(g, Compile(g, a).0, |g.code|)
    ensures var g2 := First(g, a, when).0;
            && Guard(g, g2, FirstList(g, a, when), |g.code|, g.freereg) && Start(g2) && g2.freereg == g.freereg &&
               g2.nactvar == g.nactvar
  {
    var (g1, v) := Compile(g, a);
    if when {
      GoIfTrueShape(g1, v, |g.code|, g.freereg);
    } else {
      GoIfFalseShape(g1, v, |g.code|, g.freereg);
    }
    GuardOn(g, g1, First(g, a, when).0, FirstList(g, a, when), |g.code|, g.freereg);
  }

  lemma GuardOn(g: Gen, g1: Gen, g2: Gen, list: seq<nat>, base: nat, n: nat)
    requires Grows(g, g1, base) && Guard(g1, g2, list, base, n)
    ensures Guard(g, g2, list, base, n)
  {
    GrowsOn(g, g1, g2, base);
  }

  lemma JunctionFails(g: Gen, a: Expr, b: Expr, when: bool)
    requires !Compile(g, Junction(a, b, when)).0.failed
    ensures !Compile(g, a).0.failed && !Compile(First(g, a, when).0, b).0.failed
  {
    hide Compile, GoIfTrue, GoIfFalse, DischargeVars;
    var (g1, v) := Compile(g, a);
    var g2 := First(g, a, when).0;
    JunctionForm(g, a, b, when);
    GoFails(g1, v);
    CompileFailed(g2, b);
    DischargeFails(Compile(g2, b).0, Compile(g2, b).1);
  }

  lemma GoFails(g: Gen, v: Exp)
    ensures g.failed ==> GoIfTrue(g, v).0.failed && GoIfFalse(g, v).0.failed
  {
  }

  lemma {:induction false} JunctionShape(g: Gen, a: Expr, b: Expr, when: bool)
    requires Start(g) && InScope(a, g.nactvar) && InScope(b, g.nactvar)
    ensures var (g', v) := Compile(g, Junction(a, b, when)); Shape(g', v, |g.code|, g.freereg) && Grows(g, g', |g.code|)
    decreases Junction(a, b, when), 0
  {
    hide Shape, Grows, Guard, Compile;
    JunctionForm(g, a, b, when);
    CompileShape(g, a);
    FirstShape(g, a, when);
    var g2 := First(g, a, when).0;
    CompileShape(g2, b);
    var (g3, w) := Compile(g2, b);
    var (g4, w1) := DischargeVars(g3, w);
    DischargeVarsShape(g3, w, |g2.code|, g.freereg);
    GrowsOn(g2, g3, g4, |g2.code|);
    JoinShape(g, g2, FirstList(g, a, when), when, g4, w1, |g.code|, g.freereg);
  }

  lemma {:induction false} CmpShape(g: Gen, op: Comparison, negated: bool, a: Expr, b: Expr)
    requires Start(g) && InScope(a, g.nactvar) && InScope(b, g.nactvar)
    ensures var (g', v) := Compile(g, Cmp(op, negated, a, b));
              Shape(g', v, |g.code|, g.freereg) && Grows(g, g', |g.code|)
    decreases Cmp(op, negated, a, b), 0
  {
    var (g1, v) := Compile(g, a);
    var (g2, v1) := Exp2RK(g1, v);
    var (g3, w) := Compile(g2, b);
    hide Shape, Grows, Exp2RK, CodeComp, Operand;
    CompileShape(g, a);
    SecondStart(g, g1, v, g2, v1);
    CompileShape(g2, b);
    CodeCompShape(g, g2, v1, op, negated, g3, w, |g.code|, g.freereg);
  }

  lemma CmpFails(g: Gen, op: Comparison, negated: bool, a: Expr, b: Expr)
    requires !Compile(g, Cmp(op, negated, a, b)).0.failed
    ensures var (g1, v) := Compile(g, a);
            var (g2, v1) := Exp2RK(g1, v);
            !g1.failed && !g2.failed && !Compile(g2, b).0.failed
  {
    var (g1, v) := Compile(g, a);
    var (g2, v1) := Exp2RK(g1, v);
    Exp2RKFailed(g1, v);
    CompileFailed(g2, b);
    CodeCompFailed(Compile(g2, b).0, op, negated, v1, Compile(g2, b).1);
  }

  /** The second operand is compiled with the first in its register. */
  lemma SecondStart(g: Gen, g1: Gen, v: Exp, g2: Gen, v1: Exp)
    requires Start(g) && Shape(g1, v, |g.code|, g.freereg) && Grows(g, g1, |g.code|) && (g2, v1) == Exp2RK(g1, v)
    ensures Operand(g, g2, v1, |g.code|, g.freereg) && Start(g2) && g2.nactvar == g.nactvar && g.freereg <= g2.freereg
    ensures g.freereg < MAXSTACK && !g2.failed ==> g2.freereg < MAXSTACK
  {
    hide Exp2RK;
    Exp2RKOperand(g1, v, |g.code|, g.freereg);
    GrowsOn(g, g1, g2, |g.code|);
  }

  // ---------- The code means what the expression means ----------

  /** Registers for every number an instruction can name; those in use fit the stack. */
  ghost predicate Full(m: Machine, g: Gen) {
    |m.regs| == NO_REG + 1 && g.freereg < MAXSTACK
  }

  lemma {:induction false} CompileDelivers(oracle: Oracle, g: Gen, e: Expr, m: Machine)
    requires Start(g) && InScope(e, g.nactvar) && !Compile(g, e).0.failed && Full(m, g)
    ensures var (g', v) := Compile(g, e);
            Delivers(oracle, g'.code, v, |g.code|, g.freereg, m, Eval(oracle, m.regs, m.trace, e))
    decreases e, 1
  {
    hide Shape, Grows, Delivers, CodeNot, GoIfTrue, GoIfFalse, Exp2RK, CodeComp;
    var base, n := |g.code|, g.freereg;
    match e
    case Local(_) => LeafDelivers(oracle, g, e, m);
    case Global(_) => LeafDelivers(oracle, g, e, m);
    case Paren(a) =>
      var (g1, v) := Compile(g, a);
      CompileShape(g, a);
      CompileDelivers(oracle, g, a, m);
      DischargeVarsDelivers(oracle, g1, v, base, n, m, Eval(oracle, m.regs, m.trace, a));
    case Not(a) =>
      var (g1, v) := Compile(g, a);
      NotFails(g1, v);
      CompileShape(g, a);
      CompileDelivers(oracle, g, a, m);
      CodeNotDelivers(oracle, g1, v, base, n, m, Eval(oracle, m.regs, m.trace, a));
    case And(a, b) => JunctionDelivers(oracle, g, a, b, true, m);
    case Or(a, b) => JunctionDelivers(oracle, g, a, b, false, m);
    case Cmp(op, negated, a, b) => CmpDelivers(oracle, g, op, negated, a, b, m);
  }

  lemma LeafDelivers(oracle: Oracle, g: Gen, e: Expr, m: Machine)
    requires Start(g) && (e.Local? || e.Global?) && Full(m, g)
    ensures var (g', v) := Compile(g, e);
            Delivers(oracle, g'.code, v, |g.code|, g.freereg, m, Eval(oracle, m.regs, m.trace, e))
  {
  }

  lemma FirstDecides(oracle: Oracle, g: Gen, a: Expr, when: bool, m: Machine, r: Result)
    requires var (g1, v) := Compile(g, a);
             Shape(g1, v, |g.code|, g.freereg) && Delivers(oracle, g1.code, v, |g.code|, g.freereg, m, r)
    ensures var list := FirstList(g, a, when);
            Branches(oracle, First(g, a, when).0.code, if when then [] else list, if when then list else [], when,
                     |g.code|, g.freereg, m, r)
  {
    var (g1, v) := Compile(g, a);
    if when {
      GoIfTrueDecides(oracle, g1, v, |g.code|, g.freereg, m, r);
    } else {
      GoIfFalseDecides(oracle, g1, v, |g.code|, g.freereg, m, r);
    }
  }

  lemma EvalJunction(oracle: Oracle, regs: seq<Value>, trace: seq<Event>, a: Expr, b: Expr, when: bool)
    ensures var x := Eval(oracle, regs, trace, a);
            Eval(oracle, regs, trace, Junction(a, b, when)) == if IsFalse(x.v) == when then x
                else Eval(oracle, regs, x.trace, b)
  {
    if when {
      assert Junction(a, b, when) == And(a, b);
    } else {
      assert Junction(a, b, when) == Or(a, b);
    }
  }

  lemma {:induction false} JunctionDelivers(oracle: Oracle, g: Gen, a: Expr, b: Expr, when: bool, m: Machine)
    requires Start(g) && InScope(a, g.nactvar) && InScope(b, g.nactvar) && Full(m, g)
    requires !Compile(g, Junction(a, b, when)).0.failed
    ensures var (g', v) := Compile(g, Junction(a, b, when));
            Delivers(oracle, g'.code, v, |g.code|, g.freereg, m, Eval(oracle, m.regs, m.trace, Junction(a, b, when)))
    decreases Junction(a, b, when), 0
  {
    hide Shape, Grows, Guard, Compile, Delivers, Eval;
    var n := g.freereg;
    var r1, r := Eval(oracle, m.regs, m.trace, a), Eval(oracle, m.regs, m.trace, Junction(a, b, when));
    EvalJunction(oracle, m.regs, m.trace, a, b, when);
    JunctionForm(g, a, b, when);
    JunctionFails(g, a, b, when);
    CompileShape(g, a);
    CompileDelivers(oracle, g, a, m);
    FirstShape(g, a, when);
    FirstDecides(oracle, g, a, when, m, r1);
    var g2, list := First(g, a, when).0, FirstList(g, a, when);
    var (g3, w) := Compile(g2, b);
    var (g4, w1) := DischargeVars(g3, w);
    CompileShape(g2, b);
    DischargeVarsShape(g3, w, |g2.code|, n);
    GrowsOn(g2, g3, g4, |g2.code|);
    forall m1 | Run(oracle, g2.code, |g.code|, m) == Fall(m1)
      ensures Delivers(oracle, g4.code, w1, |g2.code|, n, m1, r)
    {
      EvalAgrees(oracle, m, m1, r1.trace, g.nactvar, b);
      CompileDelivers(oracle, g2, b, m1);
      DischargeVarsDelivers(oracle, g3, w, |g2.code|, n, m1, r);
    }
    JunctionEnds(g, g2, list, g4, when);
    JoinDelivers(oracle, g2, list, when, g4, w1, |g.code|, n, m, r1, r);
  }

  lemma JunctionEnds(g: Gen, g2: Gen, list: seq<nat>, g4: Gen, when: bool)
    requires Guard(g, g2, list, |g.code|, g.freereg) && Grows(g2, g4, |g2.code|)
    ensures |g.code| <= |g2.code| <= |g4.code| && g4.code[..|g2.code|] == g2.code && JumpList(g2.code, list, |g.code|)
  {
  }

  lemma {:induction false} CmpDelivers(oracle: Oracle, g: Gen, op: Comparison, negated: bool, a: Expr, b: Expr,
                                       m: Machine)
    requires Start(g) && InScope(a, g.nactvar) && InScope(b, g.nactvar) && Full(m, g)
    requires !Compile(g, Cmp(op, negated, a, b)).0.failed
    ensures var (g', v) := Compile(g, Cmp(op, negated, a, b));
            Delivers(oracle, g'.code, v, |g.code|, g.freereg, m, Eval(oracle, m.regs, m.trace, Cmp(op, negated, a, b)))
    decreases Cmp(op, negated, a, b), 0
  {
    var (g1, v) := Compile(g, a);
    var (g2, v1) := Exp2RK(g1, v);
    var (g3, w) := Compile(g2, b);
    var ra := Eval(oracle, m.regs, m.trace, a);
    var rb := Eval(oracle, m.regs, ra.trace, b);
    hide Shape, Grows, Exp2RK, CodeComp, Operand, Delivers;
    CmpFails(g, op, negated, a, b);
    CompileShape(g, a);
    CompileDelivers(oracle, g, a, m);
    SecondStart(g, g1, v, g2, v1);
    Exp2RKLoads(oracle, g1, v, |g.code|, g.freereg, m, ra);
    CompileShape(g2, b);
    forall m1 | Run(oracle, g2.code, |g.code|, m) == Fall(m1)
      ensures Delivers(oracle, g3.code, w, |g2.code|, g2.freereg, m1, rb)
    {
      EvalAgrees(oracle, m, m1, ra.trace, g.nactvar, b);
      CompileDelivers(oracle, g2, b, m1);
    }
    CodeCompDelivers(oracle, g, g2, v1, op, negated, g3, w, |g.code|, g.freereg, m, ra, rb);
  }

  // ---------- The theorems ----------

  /** The value goes to the next free register: the code ends with it there and all registers in
      use unchanged, having asked for what the expression asks for. */
  lemma NextRegTheorem(oracle: Oracle, g: Gen, e: Expr, m: Machine)
    requires Start(g) && InScope(e, g.nactvar) && Full(m, g)
    requires var (g1, v) := Compile(g, e); !Exp2NextReg(g1, v).0.failed
    ensures var (g1, v) := Compile(g, e);
            var code := Exp2NextReg(g1, v).0.code;
            var r := Eval(oracle, m.regs, m.trace, e);
            && |g.code| <= |code| && code[..|g.code|] == g.code
            && var x := Run(oracle, code, |g.code|, m);
               && x.Fall? && Reg(x.m.regs, g.freereg) == r.v && x.m.trace == r.trace
               && forall q: nat :: q < g.freereg ==> Reg(x.m.regs, q) == Reg(m.regs, q)
  {
    var (g1, v) := Compile(g, e);
    var n, r := g.freereg, Eval(oracle, m.regs, m.trace, e);
    hide Shape, Grows, Delivers, Exp2Reg;
    NextRegFailed(g1, v);
    CompileShape(g, e);
    NextRegForm(g1, v, |g.code|, n);
    CompileDelivers(oracle, g, e, m);
    var (g2, w) := DischargeVars(g1, v);
    DischargeVarsShape(g1, v, |g.code|, n);
    DischargeVarsDelivers(oracle, g1, v, |g.code|, n, m, r);
    Exp2RegLoads(oracle, g2, w, |g.code|, n, n, m, r);
    Exp2RegShape(g2, w, |g.code|, n, n);
    GrowsOn(g, g1, g2, |g.code|);
    GrowsOn(g, g2, Exp2Reg(g2, w, n).0, |g.code|);
    KeepsPrefix(g, Exp2Reg(g2, w, n).0);
  }

  lemma KeepsPrefix(g: Gen, g': Gen)
    requires Grows(g, g', |g.code|)
    ensures |g.code| <= |g'.code| && g'.code[..|g.code|] == g.code
  {
  }

  lemma NextRegFailed(g: Gen, e: Exp)
    ensures g.failed ==> Exp2NextReg(g, e).0.failed
  {
  }

  lemma NextRegForm(g: Gen, e: Exp, base: nat, n: nat)
    requires Shape(g, e, base, n)
    ensures var (g2, w) := DischargeVars(g, e);
            Exp2NextReg(g, e).0.code == Exp2Reg(g2, w, n).0.code && Discharged(w)
  {
    hide Exp2Reg, Exp2NextReg, JumpList, ToEnd, Apart;
    DischargeVarsShape(g, e, base, n);
    var (g2, w) := DischargeVars(g, e);
    NextRegCall(g, e, base, n);
    hide Shape;
    Exp2RegFrame(g2, w, n, n + 1, g2.failed || n + 1 >= MAXSTACK);
  }

  lemma NextRegCall(g: Gen, e: Exp, base: nat, n: nat)
    requires Shape(g, e, base, n)
    ensures var (g2, w) := DischargeVars(g, e);
            Exp2NextReg(g, e) == Exp2Reg(g2.(freereg := n + 1, failed := g2.failed || n + 1 >= MAXSTACK), w, n)
  {
    hide Exp2Reg;
    DischargeVarsShape(g, e, base, n);
  }

  /** `x = e` for a local variable in register `reg`: only that register changes. */
  lemma AssignLocalTheorem(oracle: Oracle, g: Gen, e: Expr, reg: nat, m: Machine)
    requires Start(g) && InScope(e, g.nactvar) && Full(m, g) && reg < g.nactvar && !Compile(g, e).0.failed
    ensures var (g1, v) := Compile(g, e);
            var code := Exp2Reg(g1, v, reg).0.code;
            var r := Eval(oracle, m.regs, m.trace, e);
            && |g.code| <= |code| && code[..|g.code|] == g.code
            && var x := Run(oracle, code, |g.code|, m);
               && x.Fall? && Reg(x.m.regs, reg) == r.v && x.m.trace == r.trace
               && forall q: nat :: q < g.freereg && q != reg ==> Reg(x.m.regs, q) == Reg(m.regs, q)
  {
    var (g1, v) := Compile(g, e);
    var n, r := g.freereg, Eval(oracle, m.regs, m.trace, e);
    DischargedFirst(g1, v, reg);
    hide Shape, Grows, Delivers, Exp2Reg;
    CompileShape(g, e);
    CompileDelivers(oracle, g, e, m);
    var (g2, w) := DischargeVars(g1, v);
    DischargeVarsShape(g1, v, |g.code|, n);
    DischargeVarsDelivers(oracle, g1, v, |g.code|, n, m, r);
    Exp2RegLoads(oracle, g2, w, |g.code|, n, reg, m, r);
    Exp2RegShape(g2, w, |g.code|, n, reg);
    GrowsOn(g, g1, g2, |g.code|);
    GrowsOn(g, g2, Exp2Reg(g2, w, reg).0, |g.code|);
    KeepsPrefix(g, Exp2Reg(g2, w, reg).0);
  }

  /** In condition position (`if e then body`): control reaches the code after the condition when the
      expression is true, and the end of the body, where its jumps are patched to, when it is not. */
  lemma ConditionTheorem(oracle: Oracle, g: Gen, e: Expr, body: seq<Instr>, m: Machine)
    requires Start(g) && InScope(e, g.nactvar) && Full(m, g) && !Compile(g, e).0.failed
    ensures var (g1, v) := Compile(g, e);
            var (g2, w) := GoIfTrue(g1, v);
            var all := g2.code + body;
            var code := PatchList(all, w.f, |all|, NO_REG, |all|);
            var r := Eval(oracle, m.regs, m.trace, e);
            |g.code| <= |g2.code| &&
            exists m1 :: && Agree(m, m1, g.freereg, NO_REG) && m1.trace == r.trace
                         && Run(oracle, code, |g.code|, m) == Run(oracle, code,
                                                                  if IsFalse(r.v) then |code| else |g2.code|, m1)
  {
    var (g1, v) := Compile(g, e);
    var (g2, w) := GoIfTrue(g1, v);
    var n, r := g.freereg, Eval(oracle, m.regs, m.trace, e);
    hide Shape, Grows, Delivers, GoIfTrue;
    CompileShape(g, e);
    CompileDelivers(oracle, g, e, m);
    GoIfTrueShape(g1, v, |g.code|, n);
    GoIfTrueDecides(oracle, g1, v, |g.code|, n, m, r);
    BodyFollows(oracle, g2.code, w.f, body, |g.code|, n, m, r);
  }

  lemma BodyFollows(oracle: Oracle, code: seq<Instr>, f: seq<nat>, body: seq<Instr>, base: nat, n: nat, m: Machine,
                    r: Result)
    requires Branches(oracle, code, [], f, true, base, n, m, r) && JumpList(code, f, base)
    ensures var all := code + body;
            var code' := PatchList(all, f, |all|, NO_REG, |all|);
            exists m1 :: && Agree(m, m1, n, NO_REG) && m1.trace == r.trace
                         && Run(oracle, code', base, m) == Run(oracle, code', if IsFalse(r.v) then |code'| else |code|,
                                                               m1)
  {
    hide Run, JumpList, Directed, PatchList, Agree;
    var all := code + body;
    var code' := PatchList(all, f, |all|, NO_REG, |all|);
    var x := Run(oracle, code, base, m);
    JumpListLonger(code, all, f, base);
    PatchDirects(all, f, base);
    if x.Fall? {
      DirectedTo(oracle, code, all, code', AllTo(f, |all|), base, m);
      assert Run(oracle, code', base, m) == Run(oracle, code', |code|, x.m);
    } else {
      BodySkipped(oracle, code, f, body, base, m);
      assert Run(oracle, code', base, m) == Run(oracle, code', |all|, x.m);
    }
  }

  lemma BodySkipped(oracle: Oracle, code: seq<Instr>, f: seq<nat>, body: seq<Instr>, base: nat, m: Machine)
    requires var x := Run(oracle, code, base, m); x.Via? && x.j in f && JumpList(code, f, base) && base <= |code|
    requires var all := code + body;
             Directed(all, PatchList(all, f, |all|, NO_REG, |all|), AllTo(f, |all|))
    ensures var all := code + body;
            var code' := PatchList(all, f, |all|, NO_REG, |all|);
            Run(oracle, code', base, m) == Run(oracle, code', |all|, Run(oracle, code, base, m).m)
  {
    hide Run, Directed;
    var all := code + body;
    var code' := PatchList(all, f, |all|, NO_REG, |all|);
    var x := Run(oracle, code, base, m);
    RunOn(oracle, code, body, base, m);
    RunDirected(oracle, all, code', AllTo(f, |all|), base, m);
    assert code'[x.j - 1] == PatchAt(all, f, |all|, NO_REG, |all|, x.j - 1);
    assert Jumped(code'[x.j - 1], x.m) == x.m;
  }

  /** A run that falls through unfinished code does so too when the jumps have their targets. */
  lemma {:induction false} DirectedTo(oracle: Oracle, code: seq<Instr>, all: seq<Instr>, code': seq<Instr>, to: Targets,
                                      pc: nat, m: Machine)
    requires Directed(all, code', to) && |code| <= |all| && all[..|code|] == code && pc <= |code|
    requires Run(oracle, code, pc, m).Fall?
    ensures Run(oracle, code', pc, m) == Run(oracle, code', |code|, Run(oracle, code, pc, m).m)
    decreases |code| - pc
  {
    hide Taken, Tested, Jumped, Did, Kept;
    if pc < |code| {
      var i, i' := code[pc], code'[pc];
      assert all[pc] == i;
      assert pc in to ==> Open(all, pc);
      if pc !in to {
        KeptTest(oracle, i, i', pc + 1 in to, m);
      }
      if i.JMP? {
        assert i.sBx != NO_JUMP;
        DirectedTo(oracle, code, all, code', to, pc + 1 + i.sBx, m);
      } else if TMode(i) {
        assert IsJump(code, pc + 1) && all[pc + 1] == code[pc + 1];
        if pc + 1 !in to {
          KeptTest(oracle, all[pc + 1], code'[pc + 1], pc + 2 in to, m);
        }
        assert pc + 1 in to ==> Open(all, pc + 1);
        if !Taken(oracle, i, m) {
          DirectedTo(oracle, code, all, code', to, pc + 2, Tested(i, m));
        } else {
          assert pc + 1 !in to && i' == i;
          DirectedTo(oracle, code, all, code', to, pc + 2 + code[pc + 1].sBx, Jumped(i, Tested(i, m)));
        }
      } else {
        DirectedTo(oracle, code, all, code', to, pc + 1 + (if i.LOADBOOL? && i.skip then 1 else 0), Did(oracle, i, m));
      }
    }
  }
}
