/** The code generator for short-circuit expressions (lcode.cpp), on values: jump lists are
    sequences, and a jump whose target is not known has the offset `NO_JUMP`. */
module CodeSpec {
  import opened Bytecode

  const MAXSTACK: nat := 250

  /** The part of `FuncState` that expressions change. The jumps in `jpc` go to the next
      instruction; here they do so already. `failed` says that an error has been raised. */
  datatype Gen = Gen(code: seq<Instr>, jpc: seq<nat>, freereg: nat, nactvar: nat, failed: bool)

  datatype Kind = VLOCAL | VGLOBAL | VJMP | VRELOCABLE | VNONRELOC

  /** `expdesc`: `info` is a register, a global or a position in the code; `t` and `f` are the jumps
      that leave the expression when it is true or false. */
  datatype Exp = Exp(k: Kind, info: nat, t: seq<nat>, f: seq<nat>)

  // ---------- Instructions ----------

  function Emit(g: Gen, i: Instr): Gen {
    g.(code := g.code + [i], jpc := [])
  }

  /** A test and the jump it controls; the jump is at the position returned. */
  function CondJump(g: Gen, i: Instr): (Gen, nat) {
    (g.(code := g.code + [i, JMP(NO_JUMP)], jpc := []), |g.code| + 1)
  }

  function SetA(i: Instr, reg: nat): Instr {
    match i
    case MOVE(_, b) => MOVE(reg, b)
    case GETGLOBAL(_, x) => GETGLOBAL(reg, x)
    case NOT(_, b) => NOT(reg, b)
    case _ => i
  }

  // ---------- Jump lists ----------

  /** The jump at `j` follows a TESTSET, so it carries a value. */
  predicate HasValue(code: seq<Instr>, j: int) {
    1 <= j <= |code| && code[j - 1].TESTSET?
  }

  /** `patchtestreg` on a TESTSET. */
  function Retest(i: Instr, reg: nat): Instr
    requires i.TESTSET?
  {
    if reg != NO_REG && reg != i.B then TESTSET(reg, i.B, i.unless) else TEST(i.B, i.unless)
  }

  function PatchAt(code: seq<Instr>, l: seq<nat>, vtarget: nat, reg: nat, dtarget: nat, i: nat): Instr
    requires i < |code|
  {
    if i in l then JMP((if HasValue(code, i) then vtarget else dtarget) - (i + 1))
    else if code[i].TESTSET? && i + 1 in l then Retest(code[i], reg)
    else code[i]
  }

  /** `patchlistaux`: the jumps of `l` that carry a value go to `vtarget` and put it into `reg`, the
      others go to `dtarget`. */
  function PatchList(code: seq<Instr>, l: seq<nat>, vtarget: nat, reg: nat, dtarget: nat): (r: seq<Instr>)
    ensures |r| == |code|
  {
    seq(|code|, i requires 0 <= i < |code| => PatchAt(code, l, vtarget, reg, dtarget, i))
  }

  /** `luaK_patchtohere`. */
  function PatchToHere(g: Gen, l: seq<nat>): Gen {
    g.(code := PatchList(g.code, l, |g.code|, NO_REG, |g.code|), jpc := g.jpc + l)
  }

  /** `removevalues`. */
  function RemoveValues(code: seq<Instr>, l: seq<nat>): (r: seq<Instr>)
    ensures |r| == |code|
  {
    seq(|code|, i requires 0 <= i < |code| => if code[i].TESTSET? && i + 1 in l then Retest(code[i], NO_REG)
        else code[i])
  }

  /** `need_value`. */
  predicate NeedValue(code: seq<Instr>, l: seq<nat>) {
    l != [] && (!HasValue(code, l[0]) || NeedValue(code, l[1..]))
  }

  /** `invertjump`, for a jump after a comparison. */
  function InvertJump(code: seq<Instr>, j: nat): (r: seq<Instr>)
    ensures |r| == |code|
  {
    if 1 <= j <= |code| && code[j - 1].COMP? then code[j - 1 := code[j - 1].(cond := !code[j - 1].cond)] else code
  }

  // ---------- Registers ----------

  function Reserve(g: Gen, n: nat): Gen {
    g.(freereg := g.freereg + n, failed := g.failed || g.freereg + n >= MAXSTACK)
  }

  function FreeExp(g: Gen, e: Exp): Gen {
    if e.k == VNONRELOC && e.info >= g.nactvar && g.freereg > 0 then g.(freereg := g.freereg - 1) else g
  }

  // ---------- Getting values ----------

  function DischargeVars(g: Gen, e: Exp): (Gen, Exp) {
    match e.k
    case VLOCAL => (g, e.(k := VNONRELOC))
    case VGLOBAL => (Emit(g, GETGLOBAL(0, e.info)), e.(k := VRELOCABLE, info := |g.code|))
    case _ => (g, e)
  }

  function Discharge2Reg(g0: Gen, e0: Exp, reg: nat): (Gen, Exp) {
    var (g, e) := DischargeVars(g0, e0);
    match e.k
    case VRELOCABLE =>
      (if e.info < |g.code| then g.(code := g.code[e.info := SetA(g.code[e.info], reg)]) else g,
       e.(k := VNONRELOC, info := reg))
    case VNONRELOC => (if reg != e.info then Emit(g, MOVE(reg, e.info)) else g, e.(info := reg))
    case _ => (g, e)
  }

  function Discharge2AnyReg(g: Gen, e: Exp): (Gen, Exp) {
    if e.k == VNONRELOC then (g, e) else Discharge2Reg(Reserve(g, 1), e, g.freereg)
  }

  predicate HasJumps(e: Exp) {
    e.t != [] || e.f != []
  }

  function Redirect(code: seq<Instr>, l: seq<nat>, d: nat): (r: seq<Instr>)
    ensures |r| == |code|
  {
    seq(|code|, i requires 0 <= i < |code| => if i in l then JMP(d - (i + 1)) else code[i])
  }

  function Labels(reg: nat): seq<Instr> {
    [LOADBOOL(reg, false, true), LOADBOOL(reg, true, false)]
  }

  /** The two instructions that load false and true, after an expression that ends with a jump... */
  function EmitLabels(g: Gen, reg: nat): Gen {
    g.(code := g.code + Labels(reg), jpc := [])
  }

  /** ... or after one that does not: a jump skips them, and the jumps to here with it. */
  function SkipLabels(g: Gen, reg: nat): Gen {
    var p := |g.code|;
    g.(code := Redirect(g.code, g.jpc, p + 3) + ([JMP(2)] + Labels(reg)), jpc := [p] + g.jpc)
  }

  function Exp2Reg(g0: Gen, e0: Exp, reg: nat): (Gen, Exp) {
    var (g, e) := Discharge2Reg(g0, e0, reg);
    var t := if e.k == VJMP then e.t + [e.info] else e.t;
    (if t == [] && e.f == [] then g
     else if NeedValue(g.code, t) || NeedValue(g.code, e.f) then
       var g1 := if e.k == VJMP then EmitLabels(g, reg) else SkipLabels(g, reg);
       PatchExits(g1, t, e.f, reg, |g1.code| - 2)
     else PatchExits(g, t, e.f, reg, 0),
     Exp(VNONRELOC, reg, [], []))
  }

  /** All jumps out of the expression go to its end, or to the instructions that load false (at
      `labels`) and true. */
  function PatchExits(g: Gen, t: seq<nat>, f: seq<nat>, reg: nat, labels: nat): Gen {
    var end := |g.code|;
    g.(code := PatchList(PatchList(g.code, f, end, reg, labels), t, end, reg, labels + 1))
  }

  function Exp2NextReg(g0: Gen, e0: Exp): (Gen, Exp) {
    var (g, e) := DischargeVars(g0, e0);
    var g1 := FreeExp(g, e);
    Exp2Reg(Reserve(g1, 1), e, g1.freereg)
  }

  function Exp2AnyReg(g0: Gen, e0: Exp): (Gen, Exp) {
    var (g, e) := DischargeVars(g0, e0);
    if e.k == VNONRELOC && !HasJumps(e) then (g, e)
    else if e.k == VNONRELOC && e.info >= g.nactvar then Exp2Reg(g, e, e.info)
    else Exp2NextReg(g, e)
  }

  function Exp2Val(g: Gen, e: Exp): (Gen, Exp) {
    if HasJumps(e) then Exp2AnyReg(g, e) else DischargeVars(g, e)
  }

  /** Without constants, `luaK_exp2RK` always gives a register. */
  function Exp2RK(g0: Gen, e0: Exp): (Gen, Exp) {
    var (g, e) := Exp2Val(g0, e0);
    Exp2AnyReg(g, e)
  }

  // ---------- Conditions ----------

  predicate EndsInNot(g: Gen, e: Exp) {
    e.k == VRELOCABLE && e.info < |g.code| && g.code[e.info].NOT?
  }

  /** `jumponcond`: a jump that is taken when the value of `e` is `cond`. */
  function JumpOnCond(g0: Gen, e0: Exp, cond: bool): (Gen, nat) {
    if EndsInNot(g0, e0) then
      CondJump(g0.(code := g0.code[..|g0.code| - 1]), TEST(g0.code[e0.info].B, !cond))
    else
      var (g, e) := Discharge2AnyReg(g0, e0);
      CondJump(FreeExp(g, e), TESTSET(NO_REG, e.info, cond))
  }

  function GoIfTrue(g0: Gen, e0: Exp): (Gen, Exp) {
    var (g, e) := DischargeVars(g0, e0);
    var (g1, pc) := if e.k == VJMP then (g.(code := InvertJump(g.code, e.info)), e.info) else JumpOnCond(g, e, false);
    (PatchToHere(g1, e.t), Exp(e.k, e.info, [], e.f + [pc]))
  }

  function GoIfFalse(g0: Gen, e0: Exp): (Gen, Exp) {
    var (g, e) := DischargeVars(g0, e0);
    var (g1, pc) := if e.k == VJMP then (g, e.info) else JumpOnCond(g, e, true);
    (PatchToHere(g1, e.f), Exp(e.k, e.info, e.t + [pc], []))
  }

  function CodeNot(g0: Gen, e0: Exp): (Gen, Exp) {
    var (g, e) := DischargeVars(g0, e0);
    var (g1, e1) :=
      if e.k == VJMP then (g.(code := InvertJump(g.code, e.info)), e)
      else
        var (g2, e2) := Discharge2AnyReg(g, e);
        var g3 := FreeExp(g2, e2);
        (Emit(g3, NOT(0, e2.info)), e2.(k := VRELOCABLE, info := |g3.code|));
    (g1.(code := RemoveValues(RemoveValues(g1.code, e1.t), e1.f)), e1.(t := e1.f, f := e1.t))
  }

  function CodeComp(g0: Gen, op: Comparison, negated: bool, a0: Exp, b0: Exp): (Gen, Exp) {
    var (g1, a) := Exp2RK(g0, a0);
    var (g2, b) := Exp2RK(g1, b0);
    var g3 := FreeExp(FreeExp(g2, b), a);
    var (g4, j) := CondJump(g3, if negated && op != EQ then COMP(op, true, b.info, a.info)
                            else COMP(op, !negated, a.info, b.info));
    (g4, Exp(VJMP, j, a.t, a.f))
  }

  // ---------- Expressions, as `subexpr` compiles them ----------

  function Compile(g: Gen, e: Expr): (Gen, Exp)
    decreases e
  {
    match e
    case Local(r) => (g, Exp(VLOCAL, r, [], []))
    case Global(x) => (g, Exp(VGLOBAL, x, [], []))
    case Paren(a) =>
      var (g1, v) := Compile(g, a);
      DischargeVars(g1, v)
    case Not(a) =>
      var (g1, v) := Compile(g, a);
      CodeNot(g1, v)
    case And(a, b) =>
      var (g1, v) := Compile(g, a);
      var (g2, v1) := GoIfTrue(g1, v);
      var (g3, w) := Compile(g2, b);
      var (g4, w1) := DischargeVars(g3, w);
      (g4, w1.(f := v1.f + w1.f))
    case Or(a, b) =>
      var (g1, v) := Compile(g, a);
      var (g2, v1) := GoIfFalse(g1, v);
      var (g3, w) := Compile(g2, b);
      var (g4, w1) := DischargeVars(g3, w);
      (g4, w1.(t := v1.t + w1.t))
    case Cmp(op, negated, a, b) =>
      var (g1, v) := Compile(g, a);
      var (g2, v1) := Exp2RK(g1, v);
      var (g3, w) := Compile(g2, b);
      CodeComp(g3, op, negated, v1, w)
  }

  /** Every local variable the expression names is active. */
  predicate InScope(e: Expr, nactvar: nat) {
    match e
    case Local(r) => r < nactvar
    case Global(_) => true
    case Not(a) => InScope(a, nactvar)
    case Paren(a) => InScope(a, nactvar)
    case And(a, b) => InScope(a, nactvar) && InScope(b, nactvar)
    case Or(a, b) => InScope(a, nactvar) && InScope(b, nactvar)
    case Cmp(_, _, a, b) => InScope(a, nactvar) && InScope(b, nactvar)
  }
}
