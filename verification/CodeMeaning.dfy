/** What generated code does on the way, and that each step of the generator keeps it. */
module CodeMeaning {
  import opened Common
  import opened Bytecode
  import opened CodeSpec

  /** The first `n` registers but `ex` are as they were; no more registers than a stack can have. */
  ghost predicate Agree(m: Machine, m1: Machine, n: nat, ex: nat) {
    n < MAXSTACK && |m1.regs| == |m.regs| == NO_REG + 1 &&
        forall q: nat :: q < n && q != ex ==> Reg(m1.regs, q) == Reg(m.regs, q)
  }

  /** What is known of the value at a jump out of an expression. */
  predicate Carries(code: seq<Instr>, j: nat, m1: Machine, v: Value) {
    1 <= j < |code| && if code[j - 1].TESTSET? then Reg(m1.regs, code[j - 1].B) == v else v.VBool?
  }

  /** The code without the instruction or the comparison that is still part of the expression. */
  function Core(code: seq<Instr>, e: Exp): seq<Instr> {
    if e.k == VRELOCABLE && |code| >= 1 then code[..|code| - 1]
    else if e.k == VJMP && |code| >= 2 then code[..|code| - 2]
    else code
  }

  /** The result of an instruction that waits for its register. */
  function Produced(oracle: Oracle, i: Instr, m: Machine): Result {
    match i
    case GETGLOBAL(_, x) => Result(oracle(m.trace, GetGlobal(x)), m.trace + [GetGlobal(x)])
    case NOT(_, b) => Result(VBool(IsFalse(Reg(m.regs, b))), m.trace)
    case _ => Result(VNil, m.trace)
  }

  predicate Relocates(i: Instr) {
    i.GETGLOBAL? || i.NOT?
  }

  /** At the end of the core, the rest of the expression gives `r`. */
  ghost predicate Settles(oracle: Oracle, code: seq<Instr>, e: Exp, m1: Machine, r: Result) {
    match e.k
    case VLOCAL => Result(Reg(m1.regs, e.info), m1.trace) == r
    case VNONRELOC => Result(Reg(m1.regs, e.info), m1.trace) == r
    case VGLOBAL => Produced(oracle, GETGLOBAL(0, e.info), m1) == r
    case VRELOCABLE => |code| >= 1 && Relocates(code[|code| - 1]) && Produced(oracle, code[|code| - 1], m1) == r
    case VJMP =>
      && |code| >= 2 && code[|code| - 2].COMP?
      && r == Result(VBool(Taken(oracle, code[|code| - 2], m1)), Tested(code[|code| - 2], m1).trace)
  }

  /** Leaving through the jump `j` is right: the value `r` is true or false as the lists say. */
  ghost predicate Leaves(code: seq<Instr>, t: seq<nat>, f: seq<nat>, j: nat, m1: Machine, r: Result) {
    && m1.trace == r.trace && Carries(code, j, m1, r.v) && (j in t || j in f)
    && (j in t ==> !IsFalse(r.v)) && (j in f ==> IsFalse(r.v))
  }

  /** Running the code of `e` from `base` in the state `m` leads to the result `r`. */
  ghost predicate Delivers(oracle: Oracle, code: seq<Instr>, e: Exp, base: nat, n: nat, m: Machine, r: Result) {
    base <= |Core(code, e)| &&
    match Run(oracle, Core(code, e), base, m)
    case Stuck => false
    case Fall(m1) => Agree(m, m1, n, NO_REG) && Settles(oracle, code, e, m1, r)
    case Via(j, m1) => Agree(m, m1, n, NO_REG) && Leaves(code, e.t, e.f, j, m1, r)
  }

  /** Running the code from `base` falls through when the value of `r` is `when`; it leaves through
      `t` or `f`. */
  ghost predicate Branches(oracle: Oracle, code: seq<Instr>, t: seq<nat>, f: seq<nat>, when: bool, base: nat, n: nat,
                           m: Machine, r: Result) {
    base <= |code| &&
    match Run(oracle, code, base, m)
    case Stuck => false
    case Fall(m1) => Agree(m, m1, n, NO_REG) && m1.trace == r.trace && IsFalse(r.v) == !when
    case Via(j, m1) => Agree(m, m1, n, NO_REG) && Leaves(code, t, f, j, m1, r)
  }

  /** Running the code from `base` ends with the value of `r` in `reg`. */
  ghost predicate Loads(oracle: Oracle, code: seq<Instr>, reg: nat, base: nat, n: nat, m: Machine, r: Result) {
    base <= |code| &&
    match Run(oracle, code, base, m)
    case Fall(m1) => Agree(m, m1, n, reg) && Result(Reg(m1.regs, reg), m1.trace) == r
    case _ => false
  }

  // ---------- The shape of what is pending ----------

  ghost predicate Apart(a: seq<nat>, b: seq<nat>) {
    forall j :: j in a ==> j !in b
  }

  /** A jump list: open jumps of the code from `base` on, each after its test. */
  ghost predicate JumpList(code: seq<Instr>, l: seq<nat>, base: nat) {
    NoRepeats(l) && forall j :: j in l ==> base < j < |code| && Open(code, j) && TMode(code[j - 1])
  }

  /** The jumps in `jpc` go to the end of the code. */
  ghost predicate ToEnd(code: seq<Instr>, l: seq<nat>) {
    NoRepeats(l) && forall j :: j in l ==> IsJump(code, j) && j + 1 + code[j].sBx == |code|
  }

  ghost predicate KindFits(g: Gen, e: Exp, base: nat) {
    match e.k
    case VLOCAL => e.info < g.nactvar && e.t == e.f == [] && |g.code| == base
    case VGLOBAL => e.t == e.f == [] && |g.code| == base
    case VNONRELOC => e.info < g.nactvar
    case VRELOCABLE => base <= e.info == |g.code| - 1 && Relocates(g.code[e.info]) && g.jpc == []
    case VJMP =>
      && base < e.info == |g.code| - 1 && Open(g.code, e.info) && g.code[e.info - 1].COMP? && g.jpc == []
  }

  /** The state after compiling an expression at `base` with `n` registers in use. */
  ghost predicate Shape(g: Gen, e: Exp, base: nat, n: nat) {
    && base <= |Core(g.code, e)| && KindFits(g, e, base) && g.freereg == n && g.nactvar <= n
    && JumpList(Core(g.code, e), e.t, base) && JumpList(Core(g.code, e), e.f, base) && Apart(e.t, e.f)
    && ToEnd(g.code, g.jpc) && (HasJumps(e) ==> forall j :: j in g.jpc ==> j >= base)
  }

  /** What a step leaves alone: the code before `base`; the old pending jumps too unless it emits
      code, which settles them. */
  ghost predicate Grows(g: Gen, g': Gen, base: nat) {
    && base <= |g.code| && base <= |g'.code| && g'.code[..base] == g.code[..base] && g'.nactvar == g.nactvar
    && (g.failed ==> g'.failed)
    && (g' == g.(freereg := g'.freereg, failed := g'.failed) || forall j :: j in g'.jpc ==> j >= base)
  }

  // ---------- Running the tail ----------

  /** One instruction more. */
  lemma RunOne(oracle: Oracle, core: seq<Instr>, i: Instr, base: nat, m: Machine)
    requires base <= |core| && !Run(oracle, core, base, m).Stuck? && !i.JMP? && !TMode(i) && !(i.LOADBOOL? && i.skip)
    ensures var x := Run(oracle, core, base, m);
            Run(oracle, core + [i], base, m) == if x.Fall? then Fall(Did(oracle, i, x.m)) else x
  {
    RunOn(oracle, core, [i], base, m);
  }

  /** A test with an open jump more. */
  lemma RunTest(oracle: Oracle, core: seq<Instr>, i: Instr, base: nat, m: Machine)
    requires base <= |core| && !Run(oracle, core, base, m).Stuck? && TMode(i)
    ensures var x := Run(oracle, core, base, m);
            Run(oracle, core + [i, JMP(NO_JUMP)], base, m) ==
            if !x.Fall? then x
            else if Taken(oracle, i, x.m) then Via(|core| + 1, Tested(i, x.m)) else Fall(Tested(i, x.m))
  {
    RunOn(oracle, core, [i, JMP(NO_JUMP)], base, m);
    var code := core + [i, JMP(NO_JUMP)];
    assert code[|core|] == i && code[|core| + 1] == JMP(NO_JUMP);
  }

  /** Turning TESTSETs of open jumps into TESTs changes no unfinished run. */
  lemma {:induction false} RunRelaxed(oracle: Oracle, code: seq<Instr>, l: seq<nat>, pc: nat, m: Machine)
    requires pc <= |code| && forall j :: j in l ==> Open(code, j)
    ensures Run(oracle, RemoveValues(code, l), pc, m) == Run(oracle, code, pc, m)
    decreases |code| - pc
  {
    var code' := RemoveValues(code, l);
    if pc < |code| {
      var i, i' := code[pc], code'[pc];
      if i.JMP? {
        if pc < pc + 1 + i.sBx <= |code| {
          RunRelaxed(oracle, code, l, pc + 1 + i.sBx, m);
        }
      } else if TMode(i) {
        if IsJump(code, pc + 1) {
          assert code'[pc + 1] == code[pc + 1];
          if !Taken(oracle, i, m) {
            RunRelaxed(oracle, code, l, pc + 2, Tested(i, m));
          } else if code[pc + 1].sBx != NO_JUMP && pc + 1 < pc + 2 + code[pc + 1].sBx <= |code| {
            assert pc + 1 in l ==> Open(code, pc + 1);
            RunRelaxed(oracle, code, l, pc + 2 + code[pc + 1].sBx, Jumped(i, Tested(i, m)));
          }
        }
      } else {
        var step := pc + 1 + (if i.LOADBOOL? && i.skip then 1 else 0);
        if step <= |code| {
          RunRelaxed(oracle, code, l, step, Did(oracle, i, m));
        }
      }
    }
  }

  // ---------- Variables ----------

  lemma DischargeVarsShape(g: Gen, e: Exp, base: nat, n: nat)
    requires Shape(g, e, base, n)
    ensures var (g1, e1) := DischargeVars(g, e);
            && Shape(g1, e1, base, n) && Grows(g, g1, base) && g1.failed == g.failed && (e1.t, e1.f) == (e.t, e.f)
            && (e1.k == VNONRELOC || e1.k == VRELOCABLE || e1.k == VJMP)
            && (e1.k == VNONRELOC ==> g1 == g)
  {
    if e.k == VGLOBAL {
      var (g1, e1) := DischargeVars(g, e);
      AppendCore(g.code, GETGLOBAL(0, e.info), e1);
      assert g1.code[..base] == g.code[..base];
      EmptyLists(g.code, base);
    }
  }

  lemma AppendCore(code: seq<Instr>, i: Instr, e: Exp)
    requires e.k == VRELOCABLE
    ensures Core(code + [i], e) == code && (code + [i])[|code|] == i
  {
  }

  lemma EmptyLists(code: seq<Instr>, base: nat)
    ensures JumpList(code, [], base) && Apart([], []) && ToEnd(code, [])
  {
  }

  lemma DischargeVarsDelivers(oracle: Oracle, g: Gen, e: Exp, base: nat, n: nat, m: Machine, r: Result)
    requires Shape(g, e, base, n) && Delivers(oracle, g.code, e, base, n, m, r)
    ensures var (g1, e1) := DischargeVars(g, e); Delivers(oracle, g1.code, e1, base, n, m, r)
  {
    hide JumpList, Apart, ToEnd, Agree, Leaves, NoRepeats;
    if e.k == VGLOBAL {
      var (g1, e1) := DischargeVars(g, e);
      AppendCore(g.code, GETGLOBAL(0, e.info), e1);
      assert Run(oracle, g.code, base, m) == Fall(m);
    }
  }

  // ---------- Branching on a value ----------

  /** The end of a comparison. */
  lemma ComparesAtEnd(oracle: Oracle, g: Gen, e: Exp, base: nat, n: nat, m: Machine, r: Result)
    requires Shape(g, e, base, n) && e.k == VJMP && Delivers(oracle, g.code, e, base, n, m, r)
    ensures Branches(oracle, g.code, e.t + [e.info], e.f, false, base, n, m, r)
    ensures Run(oracle, g.code, base, m).Fall? ==> r.v == VBool(false)
    ensures Branches(oracle, InvertJump(g.code, e.info), e.t, e.f + [e.info], true, base, n, m, r)
  {
    var core := Core(g.code, e);
    var i := g.code[e.info - 1];
    var i' := i.(cond := !i.cond);
    assert g.code == core + [i, JMP(NO_JUMP)];
    assert InvertJump(g.code, e.info) == core + [i', JMP(NO_JUMP)];
    RunTest(oracle, core, i, base, m);
    RunTest(oracle, core, i', base, m);
  }

  /** The test `i` after `core` finds out whether the value is `cond`. */
  ghost predicate Finds(oracle: Oracle, core: seq<Instr>, i: Instr, cond: bool, t: seq<nat>, f: seq<nat>, base: nat,
                        n: nat, m: Machine, r: Result) {
    base <= |core| && (i.TEST? || i.TESTSET?) &&
    match Run(oracle, core, base, m)
    case Stuck => false
    case Fall(m1) =>
      && Agree(m, m1, n, NO_REG) && m1.trace == r.trace && Taken(oracle, i, m1) == (IsFalse(r.v) == !cond)
      && (if i.TESTSET? then Reg(m1.regs, i.B) == r.v else r.v.VBool?)
    case Via(j, m1) => Agree(m, m1, n, NO_REG) && j < |core| && Leaves(core, t, f, j, m1, r)
  }

  /** A test after the core. */
  lemma TestsAtEnd(oracle: Oracle, core: seq<Instr>, i: Instr, cond: bool, t: seq<nat>, f: seq<nat>,
                   base: nat, n: nat, m: Machine, r: Result)
    requires Finds(oracle, core, i, cond, t, f, base, n, m, r) && forall j :: j in t || j in f ==> j < |core|
    ensures var code := core + [i, JMP(NO_JUMP)];
            Branches(oracle, code, if cond then t + [|core| + 1] else t, if cond then f else f + [|core| + 1], !cond,
                     base, n, m, r)
  {
    RunTest(oracle, core, i, base, m);
  }

  // ---------- Getting a value into a register ----------

  /** Running the code from `base` ends with the value of `r` in `reg`, or leaves through the lists. */
  ghost predicate InReg(oracle: Oracle, code: seq<Instr>, t: seq<nat>, f: seq<nat>, reg: nat, ex: nat,
                        base: nat, n: nat, m: Machine, r: Result)
  {
    base <= |code| &&
    match Run(oracle, code, base, m)
    case Stuck => false
    case Fall(m1) => Agree(m, m1, n, ex) && Result(Reg(m1.regs, reg), m1.trace) == r
    case Via(j, m1) => Agree(m, m1, n, NO_REG) && Leaves(code, t, f, j, m1, r)
  }

  /** An expression whose value is in a register or about to be put into one. */
  ghost predicate Ready(e: Exp) {
    e.k == VNONRELOC || e.k == VRELOCABLE
  }

  /** What `Discharge2Reg` leaves pending. */
  ghost predicate Pending(g: Gen, t: seq<nat>, f: seq<nat>, base: nat) {
    && base <= |g.code| && JumpList(g.code, t, base) && JumpList(g.code, f, base) && Apart(t, f) && ToEnd(g.code, g.jpc)
    && (forall j :: j in g.jpc ==> j !in t && j !in f)
  }

  lemma JumpListLonger(code: seq<Instr>, code': seq<Instr>, l: seq<nat>, base: nat)
    requires JumpList(code, l, base) && |code| <= |code'| && code'[..|code|] == code
    ensures JumpList(code', l, base)
  {
    forall j | j in l
      ensures base < j < |code'| && Open(code', j) && TMode(code'[j - 1])
    {
      assert code'[j] == code'[..|code|][j] && code'[j - 1] == code'[..|code|][j - 1];
    }
  }

  lemma Discharge2RegShape(g: Gen, e: Exp, base: nat, n: nat, reg: nat)
    requires Shape(g, e, base, n) && Ready(e)
    ensures var (g1, e1) := Discharge2Reg(g, e, reg);
            && e1 == Exp(VNONRELOC, reg, e.t, e.f) && Pending(g1, e.t, e.f, base) && Grows(g, g1, base)
            && g1 == g.(code := g1.code, jpc := g1.jpc)
  {
    var (g1, e1) := Discharge2Reg(g, e, reg);
    var core := Core(g.code, e);
    if e.k == VRELOCABLE {
      assert g1.code == core + [SetA(g.code[e.info], reg)];
    } else if reg != e.info {
      assert g1.code == core + [MOVE(reg, e.info)];
    }
    assert g1.code[..|core|] == core;
    JumpListLonger(core, g1.code, e.t, base);
    JumpListLonger(core, g1.code, e.f, base);
    assert g1.code[..base] == core[..base] == g.code[..base];
    EmptyLists(g1.code, base);
    if g1 == g {
      OpenApart(g.code, g.jpc, e.t, base);
      OpenApart(g.code, g.jpc, e.f, base);
    }
  }

  /** A jump with a target is on no list of open jumps. */
  lemma OpenApart(code: seq<Instr>, jpc: seq<nat>, l: seq<nat>, base: nat)
    requires ToEnd(code, jpc) && JumpList(code, l, base)
    ensures forall j :: j in jpc ==> j !in l
  {
  }

  lemma Discharge2RegLoads(oracle: Oracle, g: Gen, e: Exp, base: nat, n: nat, reg: nat, m: Machine, r: Result)
    requires Shape(g, e, base, n) && Ready(e) && reg < NO_REG && Delivers(oracle, g.code, e, base, n, m, r)
    ensures InReg(oracle, Discharge2Reg(g, e, reg).0.code, e.t, e.f, reg, reg, base, n, m, r)
  {
    hide ToEnd, Apart, NoRepeats;
    var (g1, e1) := Discharge2Reg(g, e, reg);
    var core := Core(g.code, e);
    if e.k == VRELOCABLE {
      var i := SetA(g.code[e.info], reg);
      assert g1.code == core + [i];
      RunOne(oracle, core, i, base, m);
    } else if reg != e.info {
      RunOne(oracle, core, MOVE(reg, e.info), base, m);
    }
  }

  // ---------- Conditions ----------

  /** The core that a test follows, and the test. */
  function TestedCore(g: Gen, e: Exp): seq<Instr> {
    if EndsInNot(g, e) then Core(g.code, e) else Discharge2AnyReg(g, e).0.code
  }

  function TestOf(g: Gen, e: Exp, cond: bool): Instr {
    if EndsInNot(g, e) then TEST(g.code[e.info].B, !cond) else TESTSET(NO_REG, Discharge2AnyReg(g, e).1.info, cond)
  }

  lemma JumpOnCondForm(g: Gen, e: Exp, base: nat, n: nat, cond: bool)
    requires Shape(g, e, base, n) && Ready(e)
    ensures var (g1, pc) := JumpOnCond(g, e, cond);
            var core := TestedCore(g, e);
            && g1.code == core + [TestOf(g, e, cond), JMP(NO_JUMP)] && pc == |core| + 1 && g1.jpc == []
            && g1.freereg == n && g1.nactvar == g.nactvar && (g.failed ==> g1.failed)
            && base <= |core| && core[..base] == g.code[..base]
            && JumpList(core, e.t, base) && JumpList(core, e.f, base)
  {
    if !EndsInNot(g, e) && e.k != VNONRELOC {
      var g0 := Reserve(g, 1);
      assert Core(g0.code, e) == Core(g.code, e);
      var (g1, e1) := Discharge2Reg(g0, e, n);
      assert g1.code == Core(g.code, e) + [SetA(g.code[e.info], n)];
      JumpListLonger(Core(g.code, e), g1.code, e.t, base);
      JumpListLonger(Core(g.code, e), g1.code, e.f, base);
    }
  }

  lemma JumpOnCondBranches(oracle: Oracle, g: Gen, e: Exp, base: nat, n: nat, cond: bool, m: Machine, r: Result)
    requires Shape(g, e, base, n) && Ready(e) && Delivers(oracle, g.code, e, base, n, m, r)
    ensures var (g1, pc) := JumpOnCond(g, e, cond);
            Branches(oracle, g1.code, if cond then e.t + [pc] else e.t, if cond then e.f else e.f + [pc], !cond, base,
                     n, m, r)
  {
    hide Shape, Delivers, Finds, Branches, JumpOnCond, TestedCore, TestOf;
    JumpOnCondForm(g, e, base, n, cond);
    TestedFinds(oracle, g, e, base, n, cond, m, r);
    TestsAtEnd(oracle, TestedCore(g, e), TestOf(g, e, cond), cond, e.t, e.f, base, n, m, r);
  }

  lemma TestedFinds(oracle: Oracle, g: Gen, e: Exp, base: nat, n: nat, cond: bool, m: Machine, r: Result)
    requires Shape(g, e, base, n) && Ready(e) && Delivers(oracle, g.code, e, base, n, m, r)
    ensures Finds(oracle, TestedCore(g, e), TestOf(g, e, cond), cond, e.t, e.f, base, n, m, r)
  {
    if !EndsInNot(g, e) && e.k != VNONRELOC {
      ReservedShape(g, e, base, n);
      Discharge2RegValue(oracle, g, e, base, n, m, r);
    }
  }

  lemma ReservedShape(g: Gen, e: Exp, base: nat, n: nat)
    requires Shape(g, e, base, n)
    ensures Discharge2Reg(Reserve(g, 1), e, n).0.code == Discharge2Reg(g, e, n).0.code
  {
  }

  /** The value in the next free register. */
  lemma Discharge2RegValue(oracle: Oracle, g: Gen, e: Exp, base: nat, n: nat, m: Machine, r: Result)
    requires Shape(g, e, base, n) && Ready(e) && Delivers(oracle, g.code, e, base, n, m, r)
    ensures InReg(oracle, Discharge2Reg(g, e, n).0.code, e.t, e.f, n, NO_REG, base, n, m, r)
  {
    Discharge2RegLoads(oracle, g, e, base, n, n, m, r);
  }

  /** Directing a whole list of open jumps to the end of the code. */
  function AllTo(l: seq<nat>, d: nat): Targets {
    map j | j in l :: d
  }

  lemma PatchDirects(code: seq<Instr>, l: seq<nat>, base: nat)
    requires JumpList(code, l, base)
    ensures Directed(code, PatchList(code, l, |code|, NO_REG, |code|), AllTo(l, |code|))
  {
  }

  lemma PatchToHereBranches(oracle: Oracle, code: seq<Instr>, t: seq<nat>, f: seq<nat>, l: seq<nat>, when: bool,
                            base: nat, n: nat, m: Machine, r: Result)
    requires Branches(oracle, code, t, f, when, base, n, m, r) && Apart(t, f) && JumpList(code, l, base)
    requires l == if when then t else f
    ensures Branches(oracle, PatchList(code, l, |code|, NO_REG, |code|), if when then [] else t, if when then f else [],
                     when, base, n, m, r)
  {
    hide NoRepeats, Agree, Directed, Apart, Reg, Answer;
    var code' := PatchList(code, l, |code|, NO_REG, |code|);
    PatchDirects(code, l, base);
    RunDirected(oracle, code, code', AllTo(l, |code|), base, m);
  }

  lemma PatchToHereLists(code: seq<Instr>, l: seq<nat>, other: seq<nat>, base: nat)
    requires JumpList(code, l, base) && JumpList(code, other, base) && Apart(l, other)
    ensures JumpList(PatchList(code, l, |code|, NO_REG, |code|), other, base)
  {
    forall j | j in other
      ensures Open(PatchList(code, l, |code|, NO_REG, |code|), j) &&
              TMode(PatchList(code, l, |code|, NO_REG, |code|)[j - 1])
    {
      assert j !in l && j - 1 !in l;
    }
  }

  lemma DistinctAppend(a: seq<nat>, b: seq<nat>)
    requires NoRepeats(a) && NoRepeats(b) && Apart(a, b)
    ensures NoRepeats(a + b)
  {
    forall i, j | 0 <= i < j < |a + b|
      ensures (a + b)[i] != (a + b)[j]
    {
      assert i < |a| ==> (a + b)[i] in a;
      assert j >= |a| ==> (a + b)[j] in b;
    }
  }

  lemma PatchToHereEnds(code: seq<Instr>, jpc: seq<nat>, l: seq<nat>, base: nat)
    requires JumpList(code, l, base) && ToEnd(code, jpc)
    ensures ToEnd(PatchList(code, l, |code|, NO_REG, |code|), jpc + l)
  {
    var code' := PatchList(code, l, |code|, NO_REG, |code|);
    OpenApart(code, jpc, l, base);
    DistinctAppend(jpc, l);
    forall j | j in jpc + l
      ensures IsJump(code', j) && j + 1 + code'[j].sBx == |code'|
    {
      assert j in jpc ==> IsJump(code, j);
    }
  }

  /** After `luaK_goiftrue` or `luaK_goiffalse`: the code decides, and `list` is what leaves it. */
  ghost predicate Guard(g: Gen, g1: Gen, list: seq<nat>, base: nat, n: nat) {
    && base <= |g1.code| && JumpList(g1.code, list, base) && ToEnd(g1.code, g1.jpc) && Grows(g, g1, base)
    && g1.freereg == n && g1.nactvar <= n && |g1.code| > base && (forall j :: j in g1.jpc ==> j >= base)
  }

  /** The code with all its jumps still open, before one of the two lists is patched to here. */
  ghost predicate Undecided(g: Gen, g1: Gen, t: seq<nat>, f: seq<nat>, base: nat, n: nat) {
    && base <= |g.code| && base < |g1.code| && g1.code[..base] == g.code[..base] && g1.jpc == [] && Apart(t, f)
    && JumpList(g1.code, t, base) && JumpList(g1.code, f, base)
    && g1.freereg == n && g1.nactvar == g.nactvar <= n && (g.failed ==> g1.failed)
  }

  lemma AppendJump(core: seq<Instr>, i: Instr, l: seq<nat>, other: seq<nat>, base: nat)
    requires base <= |core| && JumpList(core, l, base) && JumpList(core, other, base) && Apart(l, other) && TMode(i)
    ensures var code := core + [i, JMP(NO_JUMP)];
            && JumpList(code, l + [|core| + 1], base) && JumpList(code, other, base)
            && Apart(l + [|core| + 1], other) && Apart(other, l + [|core| + 1])
  {
    var code := core + [i, JMP(NO_JUMP)];
    JumpListLonger(core, code, l, base);
    JumpListLonger(core, code, other, base);
    DistinctAppend(l, [|core| + 1]);
    assert code[|core| + 1] == JMP(NO_JUMP) && code[|core|] == i;
  }

  lemma PatchedGuard(g: Gen, g1: Gen, t: seq<nat>, f: seq<nat>, when: bool, base: nat, n: nat)
    requires Undecided(g, g1, t, f, base, n) && base <= |g.code|
    ensures Guard(g, PatchToHere(g1, if when then t else f), if when then f else t, base, n)
  {
    var l, other := if when then t else f, if when then f else t;
    PatchToHereLists(g1.code, l, other, base);
    PatchToHereEnds(g1.code, [], l, base);
    assert [] + l == l;
    assert forall j :: j in l ==> j > base;
    PatchBelow(g1.code, l, base);
  }

  lemma PatchBelow(code: seq<Instr>, l: seq<nat>, base: nat)
    requires base <= |code| && forall j :: j in l ==> j > base
    ensures PatchList(code, l, |code|, NO_REG, |code|)[..base] == code[..base]
  {
  }

  lemma JumpOnCondUndecided(g: Gen, e: Exp, base: nat, n: nat, cond: bool)
    requires Shape(g, e, base, n) && Ready(e)
    ensures var (g1, pc) := JumpOnCond(g, e, cond);
            Undecided(g, g1, if cond then e.t + [pc] else e.t, if cond then e.f else e.f + [pc], base, n)
  {
    JumpOnCondForm(g, e, base, n, cond);
    var core, i := TestedCore(g, e), TestOf(g, e, cond);
    if cond {
      AppendJump(core, i, e.t, e.f, base);
    } else {
      AppendJump(core, i, e.f, e.t, base);
    }
    var (g1, pc) := JumpOnCond(g, e, cond);
    assert g1.code[..base] == core[..base];
  }

  lemma ComparisonUndecided(g: Gen, e: Exp, base: nat, n: nat, invert: bool)
    requires Shape(g, e, base, n) && e.k == VJMP
    ensures var g1 := if invert then g.(code := InvertJump(g.code, e.info)) else g;
            Undecided(g, g1, if invert then e.t else e.t + [e.info], if invert then e.f + [e.info] else e.f, base, n)
  {
    var core := Core(g.code, e);
    var i := g.code[e.info - 1];
    var i' := if invert then i.(cond := !i.cond) else i;
    var g1 := if invert then g.(code := InvertJump(g.code, e.info)) else g;
    assert g1.code == core + [i', JMP(NO_JUMP)];
    if invert {
      AppendJump(core, i', e.f, e.t, base);
    } else {
      AppendJump(core, i', e.t, e.f, base);
    }
    assert g1.code[..base] == core[..base] == g.code[..base];
  }

  /** `luaK_goiftrue`. */
  lemma GoIfTrueShape(g0: Gen, e0: Exp, base: nat, n: nat)
    requires Shape(g0, e0, base, n)
    ensures var (g1, e1) := GoIfTrue(g0, e0); Guard(g0, g1, e1.f, base, n) && e1.t == []
  {
    var (g, e) := DischargeVars(g0, e0);
    DischargeVarsShape(g0, e0, base, n);
    var (g1, pc) := if e.k == VJMP then (g.(code := InvertJump(g.code, e.info)), e.info) else JumpOnCond(g, e, false);
    if e.k == VJMP {
      ComparisonUndecided(g, e, base, n, true);
    } else {
      JumpOnCondUndecided(g, e, base, n, false);
    }
    PatchedGuard(g, g1, e.t, e.f + [pc], true, base, n);
  }

  lemma GoIfFalseShape(g0: Gen, e0: Exp, base: nat, n: nat)
    requires Shape(g0, e0, base, n)
    ensures var (g1, e1) := GoIfFalse(g0, e0); Guard(g0, g1, e1.t, base, n) && e1.f == []
  {
    var (g, e) := DischargeVars(g0, e0);
    DischargeVarsShape(g0, e0, base, n);
    var (g1, pc) := if e.k == VJMP then (g, e.info) else JumpOnCond(g, e, true);
    if e.k == VJMP {
      ComparisonUndecided(g, e, base, n, false);
    } else {
      JumpOnCondUndecided(g, e, base, n, true);
    }
    PatchedGuard(g, g1, e.t + [pc], e.f, false, base, n);
  }

  /** Code that `luaK_goiftrue` ends falls through exactly when the value is true. */
  lemma GoIfTrueDecides(oracle: Oracle, g0: Gen, e0: Exp, base: nat, n: nat, m: Machine, r: Result)
    requires Shape(g0, e0, base, n) && Delivers(oracle, g0.code, e0, base, n, m, r)
    ensures var (g1, e1) := GoIfTrue(g0, e0); Branches(oracle, g1.code, [], e1.f, true, base, n, m, r)
  {
    hide Delivers, Branches;
    var (g, e) := DischargeVars(g0, e0);
    DischargeVarsShape(g0, e0, base, n);
    DischargeVarsDelivers(oracle, g0, e0, base, n, m, r);
    var (g1, pc) := if e.k == VJMP then (g.(code := InvertJump(g.code, e.info)), e.info) else JumpOnCond(g, e, false);
    if e.k == VJMP {
      ComparisonUndecided(g, e, base, n, true);
      ComparesAtEnd(oracle, g, e, base, n, m, r);
    } else {
      JumpOnCondUndecided(g, e, base, n, false);
      JumpOnCondBranches(oracle, g, e, base, n, false, m, r);
    }
    PatchToHereBranches(oracle, g1.code, e.t, e.f + [pc], e.t, true, base, n, m, r);
  }

  /** Code that `luaK_goiffalse` ends falls through exactly when the value is false. */
  lemma GoIfFalseDecides(oracle: Oracle, g0: Gen, e0: Exp, base: nat, n: nat, m: Machine, r: Result)
    requires Shape(g0, e0, base, n) && Delivers(oracle, g0.code, e0, base, n, m, r)
    ensures var (g1, e1) := GoIfFalse(g0, e0); Branches(oracle, g1.code, e1.t, [], false, base, n, m, r)
  {
    hide Delivers, Branches;
    var (g, e) := DischargeVars(g0, e0);
    DischargeVarsShape(g0, e0, base, n);
    DischargeVarsDelivers(oracle, g0, e0, base, n, m, r);
    var (g1, pc) := if e.k == VJMP then (g, e.info) else JumpOnCond(g, e, true);
    if e.k == VJMP {
      ComparisonUndecided(g, e, base, n, false);
      ComparesAtEnd(oracle, g, e, base, n, m, r);
    } else {
      JumpOnCondUndecided(g, e, base, n, true);
      JumpOnCondBranches(oracle, g, e, base, n, true, m, r);
    }
    PatchToHereBranches(oracle, g1.code, e.t + [pc], e.f, e.f, false, base, n, m, r);
  }

  // ---------- and, or ----------

  /** The jumps out of the first operand join those of the second. */
  function Joined(first: seq<nat>, e: Exp, when: bool): Exp {
    if when then e.(f := first + e.f) else e.(t := first + e.t)
  }

  lemma JoinedLists(core: seq<Instr>, first: seq<nat>, l: seq<nat>, other: seq<nat>, base: nat, base2: nat)
    requires base <= base2 <= |core| && JumpList(core[..base2], first, base) && JumpList(core, l, base2) &&
             JumpList(core, other, base2)
    requires Apart(l, other)
    ensures JumpList(core, first + l, base) && JumpList(core, other, base)
    ensures Apart(first + l, other) && Apart(other, first + l)
  {
    JumpListLonger(core[..base2], core, first, base);
    assert forall j :: j in first ==> j < base2;
    DistinctAppend(first, l);
  }

  /** `g` is where the first operand ends, with its `list` pending; `g2`, `e` what the second gives. */
  lemma JoinShape(g0: Gen, g: Gen, list: seq<nat>, when: bool, g2: Gen, e: Exp, base: nat, n: nat)
    requires base <= |g0.code| && Guard(g0, g, list, base, n) && Shape(g2, e, |g.code|, n) && Grows(g, g2, |g.code|)
    requires Ready(e) || e.k == VJMP
    ensures Shape(g2, Joined(list, e, when), base, n) && Grows(g0, g2, base)
  {
    var core := Core(g2.code, e);
    assert Core(g2.code, Joined(list, e, when)) == core;
    assert core[..|g.code|] == g2.code[..|g.code|] == g.code;
    JoinedLists(core, list, if when then e.f else e.t, if when then e.t else e.f, base, |g.code|);
    assert g2.code[..base] == g2.code[..|g.code|][..base] == g0.code[..base];
  }

  /** Two pieces of code one after the other. */
  lemma JoinDelivers(oracle: Oracle, g: Gen, list: seq<nat>, when: bool, g2: Gen, e: Exp, base: nat, n: nat, m: Machine,
                     r1: Result, r: Result)
    requires base <= |g.code| && Shape(g2, e, |g.code|, n) && (Ready(e) || e.k == VJMP) && JumpList(g.code, list, base)
    requires |g.code| <= |g2.code| && g2.code[..|g.code|] == g.code
    requires Branches(oracle, g.code, if when then [] else list, if when then list else [], when, base, n, m, r1)
    requires IsFalse(r1.v) == when ==> r == r1
    requires forall m1 :: Run(oracle, g.code, base, m) == Fall(m1) ==> Delivers(oracle, g2.code, e, |g.code|, n, m1, r)
    ensures Delivers(oracle, g2.code, Joined(list, e, when), base, n, m, r)
  {
    hide Shape, Delivers, Agree;
    CoreFacts(g2, e, |g.code|, n);
    var core := Core(g2.code, e);
    var x := Run(oracle, g.code, base, m);
    assert core[..|g.code|] == g2.code[..|g.code|] == g.code;
    assert core == g.code + core[|g.code|..];
    RunOn(oracle, g.code, core[|g.code|..], base, m);
    assert forall j :: j in list ==> j < |g.code|;
    if x.Fall? {
      JoinSecond(oracle, g2.code, list, when, e, base, |g.code|, n, m, x.m, r);
    } else {
      assert g2.code[x.j - 1] == g.code[x.j - 1];
      JoinFirst(oracle, g2.code, list, when, e, base, |g.code|, n, m, x, r);
    }
  }

  lemma CoreFacts(g: Gen, e: Exp, base: nat, n: nat)
    requires Shape(g, e, base, n)
    ensures base <= |Core(g.code, e)| <= |g.code| && Core(g.code, e) == g.code[..|Core(g.code, e)|]
    ensures forall j :: j in e.t || j in e.f ==> j > base
  {
  }

  /** The first operand decides: its exit is an exit of the whole. */
  lemma JoinFirst(oracle: Oracle, code: seq<Instr>, list: seq<nat>, when: bool, e: Exp, base: nat, base2: nat, n: nat,
                  m: Machine, x: Exit, r: Result)
    requires base <= base2 <= |Core(code, e)| && x.Via? && Agree(m, x.m, n, NO_REG) && (Ready(e) || e.k == VJMP)
    requires Leaves(code, if when then [] else list, if when then list else [], x.j, x.m, r)
    requires (forall j :: j in list ==> j < base2) && (forall j :: j in e.t || j in e.f ==> j > base2)
    requires Run(oracle, Core(code, e), base, m) == x
    ensures Delivers(oracle, code, Joined(list, e, when), base, n, m, r)
  {
    assert Core(code, Joined(list, e, when)) == Core(code, e);
  }

  /** The second operand is evaluated: its exits are exits of the whole. */
  lemma JoinSecond(oracle: Oracle, code: seq<Instr>, list: seq<nat>, when: bool, e: Exp, base: nat, base2: nat, n: nat,
                   m: Machine, m1: Machine, r: Result)
    requires base <= base2 && Delivers(oracle, code, e, base2, n, m1, r) && Agree(m, m1, n, NO_REG) &&
             (Ready(e) || e.k == VJMP)
    requires forall j :: j in list ==> j < base2
    requires forall j :: j in e.t || j in e.f ==> j > base2
    requires Run(oracle, Core(code, e), base, m) == Run(oracle, Core(code, e), base2, m1)
    ensures Delivers(oracle, code, Joined(list, e, when), base, n, m, r)
  {
    var e' := Joined(list, e, when);
    assert Core(code, e') == Core(code, e);
    match Run(oracle, Core(code, e), base2, m1)
    case Fall(m2) =>
    case Via(j, m2) => assert j !in list;
  }

  // ---------- not ----------

  function Negated(r: Result): Result {
    Result(VBool(IsFalse(r.v)), r.trace)
  }

  /** The code before `removevalues`, in two parts. */
  function NotCore(g: Gen, e: Exp): seq<Instr> {
    if e.k == VJMP then Core(g.code, e) else Discharge2AnyReg(g, e).0.code
  }

  function NotTail(g: Gen, e: Exp): seq<Instr>
    requires e.k == VJMP ==> |g.code| >= 2 && g.code[|g.code| - 2].COMP?
  {
    if e.k == VJMP then
      var i := g.code[|g.code| - 2];
      [i.(cond := !i.cond), JMP(NO_JUMP)]
    else [NOT(0, Discharge2AnyReg(g, e).1.info)]
  }

  function NotKind(e: Exp): Kind {
    if e.k == VJMP then VJMP else VRELOCABLE
  }

  function Bare(core: seq<Instr>, t: seq<nat>, f: seq<nat>): seq<Instr> {
    RemoveValues(RemoveValues(core, t), f)
  }

  lemma RemovedTail(core: seq<Instr>, tail: seq<Instr>, l: seq<nat>)
    requires (forall j :: j in l ==> j < |core|) && forall i :: 0 <= i < |tail| ==> !tail[i].TESTSET?
    ensures RemoveValues(core + tail, l) == RemoveValues(core, l) + tail
  {
  }

  /** An expression that is no variable any more. */
  ghost predicate Discharged(e: Exp) {
    Ready(e) || e.k == VJMP
  }

  lemma CodeNotDischarged(g0: Gen, e0: Exp)
    ensures CodeNot(g0, e0) == CodeNot(DischargeVars(g0, e0).0, DischargeVars(g0, e0).1)
    ensures Discharged(DischargeVars(g0, e0).1)
  {
  }

  ghost predicate NotShaped(g: Gen, e: Exp, g1: Gen, e1: Exp, core: seq<Instr>, base: nat, n: nat) {
    && |g1.code| >= 1 && e1 == Exp(NotKind(e), |g1.code| - 1, e.f, e.t) && g1.jpc == []
    && g1.freereg == n && g1.nactvar == g.nactvar && (g.failed ==> g1.failed)
    && base <= |core| && base <= |g.code| && core[..base] == g.code[..base]
    && JumpList(core, e.t, base) && JumpList(core, e.f, base)
  }

  lemma CodeNotForm(g: Gen, e: Exp, base: nat, n: nat)
    requires Shape(g, e, base, n) && Discharged(e)
    ensures var (g1, e1) := CodeNot(g, e);
            && (e.k == VJMP ==> |g.code| >= 2 && g.code[|g.code| - 2].COMP?)
            && g1.code == Bare(NotCore(g, e), e.t, e.f) + NotTail(g, e)
            && NotShaped(g, e, g1, e1, NotCore(g, e), base, n)
  {
    hide CodeNot, RemoveValues, InvertJump;
    if e.k == VJMP {
      InvertForm(g, e, base, n);
    } else {
      NotOfValue(g, e, base, n);
    }
    CodeNotIs(g, e);
    var core, tail := NotCore(g, e), NotTail(g, e);
    RemovedTail(core, tail, e.t);
    RemovedTail(RemoveValues(core, e.t), tail, e.f);
  }

  lemma CodeNotIs(g: Gen, e: Exp)
    requires Discharged(e) && (e.k == VJMP ==> |g.code| >= 2 && g.code[|g.code| - 2].COMP?)
    requires e.k == VJMP ==> InvertJump(g.code, e.info) == Core(g.code, e) + NotTail(g, e)
    ensures var (g2, e2) := Discharge2AnyReg(g, e);
            var g3 := if e.k == VJMP then g else Emit(FreeExp(g2, e2), NOT(0, e2.info));
            var e3 := if e.k == VJMP then e else e2.(k := VRELOCABLE, info := |FreeExp(g2, e2).code|);
            CodeNot(g, e) == (g3.(code := Bare(NotCore(g, e) + NotTail(g, e), e3.t, e3.f)), e3.(t := e3.f, f := e3.t))
  {
    hide RemoveValues;
  }

  lemma InvertForm(g: Gen, e: Exp, base: nat, n: nat)
    requires Shape(g, e, base, n) && e.k == VJMP
    ensures |g.code| >= 2 && g.code[|g.code| - 2].COMP? && InvertJump(g.code, e.info) == Core(g.code, e) + NotTail(g, e)
    ensures base <= |Core(g.code, e)| && Core(g.code, e)[..base] == g.code[..base]
  {
  }

  lemma NotOfValue(g: Gen, e: Exp, base: nat, n: nat)
    requires Shape(g, e, base, n) && Ready(e)
    ensures var core := NotCore(g, e);
            var (g2, e2) := Discharge2AnyReg(g, e);
            && base <= |core| && core[..base] == g.code[..base] && JumpList(core, e.t, base) &&
               JumpList(core, e.f, base)
            && g2.code == core && FreeExp(g2, e2).freereg == n && g2.nactvar == g.nactvar && (g.failed ==> g2.failed)
            && (e2.t, e2.f) == (e.t, e.f)
  {
    if e.k != VNONRELOC {
      var g0 := Reserve(g, 1);
      assert Core(g0.code, e) == Core(g.code, e);
      assert NotCore(g, e) == Core(g.code, e) + [SetA(g.code[e.info], n)];
      JumpListLonger(Core(g.code, e), NotCore(g, e), e.t, base);
      JumpListLonger(Core(g.code, e), NotCore(g, e), e.f, base);
    }
  }

  lemma CodeNotShape(g0: Gen, e0: Exp, base: nat, n: nat)
    requires Shape(g0, e0, base, n)
    ensures var (g1, e1) := CodeNot(g0, e0); Shape(g1, e1, base, n) && Grows(g0, g1, base)
  {
    var (g, e) := DischargeVars(g0, e0);
    DischargeVarsShape(g0, e0, base, n);
    CodeNotDischarged(g0, e0);
    CodeNotForm(g, e, base, n);
    BareShape(g, e, CodeNot(g, e).0, CodeNot(g, e).1, NotCore(g, e), NotTail(g, e), base, n);
  }

  lemma BareShape(g: Gen, e: Exp, g1: Gen, e1: Exp, core: seq<Instr>, tail: seq<Instr>, base: nat, n: nat)
    requires NotShaped(g, e, g1, e1, core, base, n) && g1.code == Bare(core, e.t, e.f) + tail && Apart(e.t, e.f)
    requires g.nactvar <= n
    requires if e1.k == VJMP then |tail| == 2 && tail[0].COMP? && tail[1] == JMP(NO_JUMP)
             else |tail| == 1 && tail[0].NOT?
    ensures Shape(g1, e1, base, n) && Grows(g, g1, base)
  {
    var bare := Bare(core, e.t, e.f);
    assert Core(g1.code, e1) == bare;
    BareLists(core, e.t, e.f, base);
    assert bare[..base] == core[..base] by {
      assert forall j :: j in e.t || j in e.f ==> j > base;
    }
    assert g1.code[..base] == bare[..base];
    EmptyLists(g1.code, base);
    assert Apart(e.f, e.t);
  }

  lemma BareLists(core: seq<Instr>, t: seq<nat>, f: seq<nat>, base: nat)
    requires JumpList(core, t, base) && JumpList(core, f, base)
    ensures JumpList(Bare(core, t, f), t, base) && JumpList(Bare(core, t, f), f, base)
  {
  }

  /** `codenot` negates the value, also of what leaves the expression early. */
  lemma CodeNotDelivers(oracle: Oracle, g0: Gen, e0: Exp, base: nat, n: nat, m: Machine, r: Result)
    requires Shape(g0, e0, base, n) && Delivers(oracle, g0.code, e0, base, n, m, r)
    ensures var (g1, e1) := CodeNot(g0, e0); Delivers(oracle, g1.code, e1, base, n, m, Negated(r))
  {
    hide Delivers, Shape, Bare, NotTail, NotCore;
    var (g, e) := DischargeVars(g0, e0);
    DischargeVarsShape(g0, e0, base, n);
    DischargeVarsDelivers(oracle, g0, e0, base, n, m, r);
    CodeNotDischarged(g0, e0);
    CodeNotForm(g, e, base, n);
    NegatesRest(oracle, g, e, base, n, m, r);
    RunBare(oracle, NotCore(g, e), e.t, e.f, base, m);
    CodeNotCore(g, e, base, n);
    NegatesExits(oracle, NotCore(g, e), NotTail(g, e), e, base, n, m, r, CodeNot(g, e).0.code, CodeNot(g, e).1);
  }

  lemma CodeNotCore(g: Gen, e: Exp, base: nat, n: nat)
    requires Shape(g, e, base, n) && Discharged(e)
    ensures Core(CodeNot(g, e).0.code, CodeNot(g, e).1) == Bare(NotCore(g, e), e.t, e.f)
    ensures |g.code| < 2 ==> e.k != VJMP
    ensures e.k == VJMP ==> g.code[|g.code| - 2].COMP?
    ensures |NotTail(g, e)| == if e.k == VJMP then 2 else 1
  {
    CodeNotForm(g, e, base, n);
  }

  lemma RunBare(oracle: Oracle, core: seq<Instr>, t: seq<nat>, f: seq<nat>, base: nat, m: Machine)
    requires base <= |core| && JumpList(core, t, base) && JumpList(core, f, base)
    ensures Run(oracle, Bare(core, t, f), base, m) == Run(oracle, core, base, m)
  {
    RunRelaxed(oracle, core, t, base, m);
    assert forall j :: j in f ==> Open(RemoveValues(core, t), j);
    RunRelaxed(oracle, RemoveValues(core, t), f, base, m);
  }

  lemma NegatesRest(oracle: Oracle, g: Gen, e: Exp, base: nat, n: nat, m: Machine, r: Result)
    requires Shape(g, e, base, n) && Discharged(e) && Delivers(oracle, g.code, e, base, n, m, r)
    ensures e.k == VJMP ==> |g.code| >= 2 && g.code[|g.code| - 2].COMP?
    ensures Negates(oracle, NotCore(g, e), NotTail(g, e), NotKind(e), e, base, n, m, r)
  {
    if e.k == VJMP {
      NegatesComparison(oracle, g, e, base, n, m, r);
    } else {
      NegatesValue(oracle, g, e, base, n, m, r);
    }
  }

  /** Before `removevalues`: the core leads to a tail that gives the negated value. */
  ghost predicate Negates(oracle: Oracle, core: seq<Instr>, tail: seq<Instr>, k: Kind, e: Exp, base: nat, n: nat,
                          m: Machine, r: Result) {
    base <= |core| && tail != [] &&
    match Run(oracle, core, base, m)
    case Stuck => false
    case Fall(m1) => Agree(m, m1, n, NO_REG) && Settles(oracle, core + tail, Exp(k, 0, [], []), m1, Negated(r))
    case Via(j, m1) => Agree(m, m1, n, NO_REG) && j < |core| && Leaves(core, e.t, e.f, j, m1, r)
  }

  lemma NegatesComparison(oracle: Oracle, g: Gen, e: Exp, base: nat, n: nat, m: Machine, r: Result)
    requires Shape(g, e, base, n) && e.k == VJMP && Delivers(oracle, g.code, e, base, n, m, r)
    ensures Negates(oracle, Core(g.code, e), NotTail(g, e), VJMP, e, base, n, m, r)
  {
  }

  lemma NegatesValue(oracle: Oracle, g: Gen, e: Exp, base: nat, n: nat, m: Machine, r: Result)
    requires Shape(g, e, base, n) && Ready(e) && Delivers(oracle, g.code, e, base, n, m, r)
    ensures Negates(oracle, NotCore(g, e), NotTail(g, e), VRELOCABLE, e, base, n, m, r)
  {
    NotOfValue(g, e, base, n);
    if e.k != VNONRELOC {
      ReservedShape(g, e, base, n);
      Discharge2RegValue(oracle, g, e, base, n, m, r);
    }
  }

  lemma NegatesExits(oracle: Oracle, core: seq<Instr>, tail: seq<Instr>, e: Exp, base: nat, n: nat, m: Machine,
                     r: Result,
                     code: seq<Instr>, e1: Exp)
    requires Negates(oracle, core, tail, e1.k, e, base, n, m, r) && code == Bare(core, e.t, e.f) + tail
    requires Core(code, e1) == Bare(core, e.t, e.f) && (e1.t, e1.f) == (e.f, e.t) &&
             (e1.k == VJMP || e1.k == VRELOCABLE)
    requires JumpList(core, e.t, base) && JumpList(core, e.f, base)
    requires |tail| == if e1.k == VJMP then 2 else 1
    requires Run(oracle, Bare(core, e.t, e.f), base, m) == Run(oracle, core, base, m)
    ensures Delivers(oracle, code, e1, base, n, m, Negated(r))
  {
    match Run(oracle, core, base, m)
    case Fall(m1) =>
      assert code[|code| - 1] == (core + tail)[|code| - 1];
      assert e1.k == VJMP ==> code[|code| - 2] == (core + tail)[|code| - 2];
    case Via(j, m1) =>
      assert !Bare(core, e.t, e.f)[j - 1].TESTSET?;
      assert code[j - 1] == Bare(core, e.t, e.f)[j - 1];
  }

  // ---------- A whole value into a register ----------

  /** The jump `j` out of an expression goes to the end of the code if it carries a value, and else
      to the instruction that loads false (at `labels`) or true. */
  function ExitTarget(code: seq<Instr>, t: seq<nat>, labels: nat, j: nat): nat {
    if HasValue(code, j) then |code| else if j in t then labels + 1 else labels
  }

  function Exits(code: seq<Instr>, t: seq<nat>, f: seq<nat>, labels: nat): Targets {
    map j | j in t + f :: ExitTarget(code, t, labels, j)
  }

  function ExitCode(code: seq<Instr>, t: seq<nat>, f: seq<nat>, reg: nat, labels: nat): (r: seq<Instr>)
    ensures |r| == |code|
  {
    PatchList(PatchList(code, f, |code|, reg, labels), t, |code|, reg, labels + 1)
  }

  /** The labels are past all jumps, or no jump needs them. */
  ghost predicate LabelsFit(code: seq<Instr>, t: seq<nat>, f: seq<nat>, labels: nat) {
    forall j :: (j in t || j in f) && !HasValue(code, j) ==> j < labels && labels + 2 <= |code|
  }

  lemma ExitsAt(code: seq<Instr>, t: seq<nat>, f: seq<nat>, reg: nat, labels: nat, base: nat, i: nat)
    requires JumpList(code, t, base) && JumpList(code, f, base) && Apart(t, f) && i < |code|
    ensures var i' := ExitCode(code, t, f, reg, labels)[i];
            if i in t || i in f then i' == JMP(ExitTarget(code, t, labels, i) - (i + 1))
            else if code[i].TESTSET? && (i + 1 in t || i + 1 in f) then i' == Retest(code[i], reg)
            else i' == code[i]
  {
    var one := PatchList(code, f, |code|, reg, labels);
    assert ExitCode(code, t, f, reg, labels)[i] == PatchAt(one, t, |code|, reg, labels + 1, i);
    assert one[i] == PatchAt(code, f, |code|, reg, labels, i);
    if i in t {
      assert i - 1 !in f && i !in f;
      assert one[i - 1] == PatchAt(code, f, |code|, reg, labels, i - 1) == code[i - 1];
    }
  }

  lemma ExitsDirect(code: seq<Instr>, t: seq<nat>, f: seq<nat>, reg: nat, labels: nat, base: nat)
    requires JumpList(code, t, base) && JumpList(code, f, base) && Apart(t, f) && LabelsFit(code, t, f, labels)
    ensures Directed(code, ExitCode(code, t, f, reg, labels), Exits(code, t, f, labels))
  {
    var code', to := ExitCode(code, t, f, reg, labels), Exits(code, t, f, labels);
    forall j | j in to
      ensures Open(code, j) && j < to[j] <= |code| && code'[j] == JMP(to[j] - (j + 1))
    {
      ExitsAt(code, t, f, reg, labels, base, j);
    }
    forall i: nat | i < |code| && i !in to
      ensures Kept(code[i], code'[i], i + 1 in to)
    {
      ExitsAt(code, t, f, reg, labels, base, i);
    }
  }

  /** All ways out of the expression load its value. */
  lemma ExitsLoad(oracle: Oracle, code: seq<Instr>, t: seq<nat>, f: seq<nat>, reg: nat, labels: nat,
                  base: nat, n: nat, m: Machine, r: Result)
    requires InReg(oracle, code, t, f, reg, reg, base, n, m, r) && reg < NO_REG
    requires JumpList(code, t, base) && JumpList(code, f, base) && Apart(t, f) && LabelsFit(code, t, f, labels)
    requires labels + 2 <= |code| ==> labels + 2 == |code| && code[labels..] == Labels(reg)
    ensures Loads(oracle, ExitCode(code, t, f, reg, labels), reg, base, n, m, r)
  {
    hide Agree, LabelsFit;
    var code', to := ExitCode(code, t, f, reg, labels), Exits(code, t, f, labels);
    ExitsDirect(code, t, f, reg, labels, base);
    RunDirected(oracle, code, code', to, base, m);
    var x := Run(oracle, code, base, m);
    if x.Via? {
      ExitOnward(oracle, code, t, f, reg, labels, x.j, base, n, m, x.m, r);
    }
  }

  lemma ExitOnward(oracle: Oracle, code: seq<Instr>, t: seq<nat>, f: seq<nat>, reg: nat, labels: nat,
                   j: nat, base: nat, n: nat, m: Machine, m1: Machine, r: Result)
    requires Agree(m, m1, n, NO_REG) && Leaves(code, t, f, j, m1, r) && reg < NO_REG
    requires JumpList(code, t, base) && JumpList(code, f, base) && Apart(t, f) && LabelsFit(code, t, f, labels)
    requires labels + 2 <= |code| ==> labels + 2 == |code| && code[labels..] == Labels(reg)
    ensures var code' := ExitCode(code, t, f, reg, labels);
            && 1 <= j < |code| && (j in t || j in f)
            && var x := Run(oracle, code', ExitTarget(code, t, labels, j), Jumped(code'[j - 1], m1));
            x.Fall? && Agree(m, x.m, n, reg) && Result(Reg(x.m.regs, reg), x.m.trace) == r
  {
    var code' := ExitCode(code, t, f, reg, labels);
    ExitsAt(code, t, f, reg, labels, base, j - 1);
    assert j - 1 !in t && j - 1 !in f;
    if HasValue(code, j) {
      ValueExit(oracle, code, code', t, f, reg, j, n, m, m1, r);
    } else {
      BoolExit(oracle, code, code', t, f, reg, labels, j, base, n, m, m1, r);
    }
  }

  lemma ValueExit(oracle: Oracle, code: seq<Instr>, code': seq<Instr>, t: seq<nat>, f: seq<nat>, reg: nat,
                  j: nat, n: nat, m: Machine, m1: Machine, r: Result)
    requires Agree(m, m1, n, NO_REG) && Leaves(code, t, f, j, m1, r) && HasValue(code, j) && reg < NO_REG
    requires |code'| == |code| && code'[j - 1] == Retest(code[j - 1], reg)
    ensures var m2 := Jumped(code'[j - 1], m1);
            && Run(oracle, code', |code|, m2) == Fall(m2)
            && Agree(m, m2, n, reg) && Result(Reg(m2.regs, reg), m2.trace) == r
  {
  }

  lemma BoolExit(oracle: Oracle, code: seq<Instr>, code': seq<Instr>, t: seq<nat>, f: seq<nat>, reg: nat, labels: nat,
                 j: nat, base: nat, n: nat, m: Machine, m1: Machine, r: Result)
    requires Agree(m, m1, n, NO_REG) && Leaves(code, t, f, j, m1, r) && !HasValue(code, j) && reg < NO_REG
    requires code' == ExitCode(code, t, f, reg, labels)
    requires JumpList(code, t, base) && JumpList(code, f, base) && Apart(t, f) && LabelsFit(code, t, f, labels)
    requires labels + 2 <= |code| ==> labels + 2 == |code| && code[labels..] == Labels(reg)
    requires code'[j - 1] == code[j - 1]
    ensures var x := Run(oracle, code', ExitTarget(code, t, labels, j), Jumped(code'[j - 1], m1));
            x.Fall? && Agree(m, x.m, n, reg) && Result(Reg(x.m.regs, reg), x.m.trace) == r
  {
    ExitsAt(code, t, f, reg, labels, base, labels);
    ExitsAt(code, t, f, reg, labels, base, labels + 1);
    assert code[labels] == code[labels..][0] && code[labels + 1] == code[labels..][1];
    assert Jumped(code'[j - 1], m1) == m1;
  }

  /** The instructions that load false and true, skipped when the value is there already. */
  lemma SkipLabelsRun(oracle: Oracle, g: Gen, t: seq<nat>, f: seq<nat>, reg: nat, base: nat, n: nat, m: Machine,
                      r: Result)
    requires Pending(g, t, f, base) && InReg(oracle, g.code, t, f, reg, reg, base, n, m, r)
    ensures InReg(oracle, SkipLabels(g, reg).code, t, f, reg, reg, base, n, m, r)
  {
    var p := |g.code|;
    var code' := SkipLabels(g, reg).code;
    var js := set j | j in g.jpc;
    assert Redirected(g.code, code', js, p + 3);
    RunRedirected(oracle, g.code, code', js, p + 3, base, m);
    var x := Run(oracle, g.code, base, m);
    assert code'[p] == JMP(2);
    if x.Fall? {
      assert Run(oracle, code', p + 3, x.m) == Fall(x.m);
      assert Run(oracle, code', p, x.m) == Fall(x.m);
    } else {
      assert code'[x.j - 1] == g.code[x.j - 1];
    }
  }

  lemma SkipLabelsShape(g: Gen, t: seq<nat>, f: seq<nat>, reg: nat, base: nat)
    requires Pending(g, t, f, base) && (forall j :: j in g.jpc ==> j >= base)
    ensures var g1 := SkipLabels(g, reg);
            && Pending(g1, t, f, base) && g1.code[|g1.code| - 2..] == Labels(reg) && g1.code[..base] == g.code[..base]
            && LabelsFit(g1.code, t, f, |g1.code| - 2) && (forall j :: j in g1.jpc ==> j >= base)
  {
    var g1 := SkipLabels(g, reg);
    var p := |g.code|;
    RedirectKeeps(g.code, g.jpc, p + 3, t, base);
    RedirectKeeps(g.code, g.jpc, p + 3, f, base);
    JumpListLonger(Redirect(g.code, g.jpc, p + 3), g1.code, t, base);
    JumpListLonger(Redirect(g.code, g.jpc, p + 3), g1.code, f, base);
    assert g1.code[..|g.code|] == Redirect(g.code, g.jpc, p + 3);
    SkippedEnds(g, reg);
    assert g1.code[..base] == Redirect(g.code, g.jpc, p + 3)[..base] == g.code[..base];
  }

  lemma RedirectKeeps(code: seq<Instr>, js: seq<nat>, d: nat, l: seq<nat>, base: nat)
    requires JumpList(code, l, base) && (forall j :: j in js ==> j !in l && IsJump(code, j))
    ensures JumpList(Redirect(code, js, d), l, base)
  {
    forall j | j in l
      ensures Open(Redirect(code, js, d), j) && TMode(Redirect(code, js, d)[j - 1])
    {
      assert j - 1 in js ==> IsJump(code, j - 1);
    }
  }

  lemma SkippedEnds(g: Gen, reg: nat)
    requires ToEnd(g.code, g.jpc)
    ensures ToEnd(SkipLabels(g, reg).code, SkipLabels(g, reg).jpc)
  {
    var g1 := SkipLabels(g, reg);
    var p := |g.code|;
    assert forall j :: j in g.jpc ==> j < p;
    DistinctAppend([p], g.jpc);
    forall j | j in g1.jpc
      ensures IsJump(g1.code, j) && j + 1 + g1.code[j].sBx == |g1.code|
    {
      assert j != p ==> j in g.jpc && g1.code[j] == Redirect(g.code, g.jpc, p + 3)[j];
    }
  }

  /** The instructions that load false and true after a comparison. */
  lemma EmitLabelsRun(oracle: Oracle, g: Gen, e: Exp, reg: nat, base: nat, n: nat, m: Machine, r: Result)
    requires Shape(g, e, base, n) && e.k == VJMP && Delivers(oracle, g.code, e, base, n, m, r) && reg < NO_REG
    ensures InReg(oracle, EmitLabels(g, reg).code, e.t + [e.info], e.f, reg, reg, base, n, m, r)
  {
    ComparesAtEnd(oracle, g, e, base, n, m, r);
    RunOn(oracle, g.code, Labels(reg), base, m);
    var code' := EmitLabels(g, reg).code;
    var x := Run(oracle, g.code, base, m);
    if x.Fall? {
      assert code'[|g.code|] == LOADBOOL(reg, false, true);
    } else {
      assert code'[x.j - 1] == g.code[x.j - 1];
    }
  }

  lemma EmitLabelsShape(g: Gen, e: Exp, reg: nat, base: nat, n: nat)
    requires Shape(g, e, base, n) && e.k == VJMP
    ensures var g1 := EmitLabels(g, reg);
            && Pending(g1, e.t + [e.info], e.f, base) && g1.code[|g1.code| - 2..] == Labels(reg) &&
               g1.code[..base] == g.code[..base]
            && LabelsFit(g1.code, e.t + [e.info], e.f, |g1.code| - 2)
  {
    var g1 := EmitLabels(g, reg);
    ComparisonUndecided(g, e, base, n, false);
    JumpListLonger(g.code, g1.code, e.t + [e.info], base);
    JumpListLonger(g.code, g1.code, e.f, base);
    assert g1.code[..|g.code|] == g.code;
    EmptyLists(g1.code, base);
  }

  // ---------- exp2reg ----------

  lemma {:induction false} NeedsNone(code: seq<Instr>, l: seq<nat>)
    ensures !NeedValue(code, l) <==> forall j :: j in l ==> HasValue(code, j)
  {
    if l != [] {
      NeedsNone(code, l[1..]);
      assert forall j :: j in l <==> j == l[0] || j in l[1..];
    }
  }

  /** The state before the exits are patched. */
  function Exiting(g0: Gen, e0: Exp, reg: nat): Gen {
    var (g, e) := Discharge2Reg(g0, e0, reg);
    if e.k == VJMP then EmitLabels(g, reg)
    else if NeedValue(g.code, e.t) || NeedValue(g.code, e.f) then SkipLabels(g, reg)
    else g
  }

  function ExitLists(e: Exp): seq<nat> {
    if e.k == VJMP then e.t + [e.info] else e.t
  }

  function LabelsAt(g0: Gen, e0: Exp, reg: nat): nat {
    var (g, e) := Discharge2Reg(g0, e0, reg);
    if e.k == VJMP || NeedValue(g.code, e.t) || NeedValue(g.code, e.f) then |Exiting(g0, e0, reg).code| - 2
       else |g.code|
  }

  lemma DischargedFirst(g: Gen, e: Exp, reg: nat)
    ensures Exp2Reg(g, e, reg) == Exp2Reg(DischargeVars(g, e).0, DischargeVars(g, e).1, reg)
  {
  }

  lemma Exp2RegForm(g0: Gen, e0: Exp, base: nat, n: nat, reg: nat)
    requires Shape(g0, e0, base, n) && Discharged(e0)
    ensures var g1 := Exiting(g0, e0, reg);
            var labels := LabelsAt(g0, e0, reg);
            && Exp2Reg(g0, e0, reg) == (g1.(code := ExitCode(g1.code, ExitLists(e0), e0.f, reg, labels)),
                                        Exp(VNONRELOC, reg, [], []))
            && Pending(g1, ExitLists(e0), e0.f, base) && LabelsFit(g1.code, ExitLists(e0), e0.f, labels)
            && (labels + 2 <= |g1.code| ==> labels + 2 == |g1.code| && g1.code[labels..] == Labels(reg))
            && Grows(g0, g1, base) && g1 == g0.(code := g1.code, jpc := g1.jpc)
  {
    if e0.k == VJMP {
      FormAfterComparison(g0, e0, base, n, reg);
    } else {
      FormAfterValue(g0, e0, base, n, reg);
    }
  }

  lemma FormAfterComparison(g: Gen, e: Exp, base: nat, n: nat, reg: nat)
    requires Shape(g, e, base, n) && e.k == VJMP
    ensures var g1 := EmitLabels(g, reg);
            var t, labels := e.t + [e.info], |g1.code| - 2;
            && Exp2Reg(g, e, reg) == (g1.(code := ExitCode(g1.code, t, e.f, reg, labels)), Exp(VNONRELOC, reg, [], []))
            && Pending(g1, t, e.f, base) && LabelsFit(g1.code, t, e.f, labels) && g1.code[labels..] == Labels(reg)
            && Grows(g, g1, base) && g1 == g.(code := g1.code, jpc := g1.jpc)
            && Exiting(g, e, reg) == g1 && LabelsAt(g, e, reg) == labels && ExitLists(e) == t
  {
    EmitLabelsShape(g, e, reg, base, n);
    ControlNeeds(g, e, base, n);
  }

  lemma FormAfterValue(g0: Gen, e0: Exp, base: nat, n: nat, reg: nat)
    requires Shape(g0, e0, base, n) && Ready(e0)
    ensures var g1 := Exiting(g0, e0, reg);
            var labels := LabelsAt(g0, e0, reg);
            && Exp2Reg(g0, e0, reg) == (g1.(code := ExitCode(g1.code, e0.t, e0.f, reg, labels)),
                                        Exp(VNONRELOC, reg, [], []))
            && Pending(g1, e0.t, e0.f, base) && LabelsFit(g1.code, e0.t, e0.f, labels)
            && (labels + 2 <= |g1.code| ==> labels + 2 == |g1.code| && g1.code[labels..] == Labels(reg))
            && Grows(g0, g1, base) && g1 == g0.(code := g1.code, jpc := g1.jpc) && ExitLists(e0) == e0.t
  {
    hide Apart, JumpList, ToEnd, Shape;
    var (g, e) := Discharge2Reg(g0, e0, reg);
    Discharge2RegShape(g0, e0, base, n, reg);
    if NeedValue(g.code, e.t) || NeedValue(g.code, e.f) {
      PendingAfter(g0, e0, base, n, reg);
      SkipLabelsShape(g, e.t, e.f, reg, base);
    } else {
      NoLabels(g.code, e.t, e.f, reg, base);
    }
  }

  lemma PendingAfter(g0: Gen, e0: Exp, base: nat, n: nat, reg: nat)
    requires Shape(g0, e0, base, n) && Ready(e0) && HasJumps(e0)
    ensures forall j :: j in Discharge2Reg(g0, e0, reg).0.jpc ==> j >= base
  {
  }

  /** A comparison always needs the instructions that load false and true. */
  lemma ControlNeeds(g: Gen, e: Exp, base: nat, n: nat)
    requires Shape(g, e, base, n) && e.k == VJMP
    ensures NeedValue(g.code, e.t + [e.info])
  {
    NeedsNone(g.code, e.t + [e.info]);
    assert e.info in e.t + [e.info];
  }

  /** When all jumps carry values, it does not matter where the labels would be. */
  lemma NoLabels(code: seq<Instr>, t: seq<nat>, f: seq<nat>, reg: nat, base: nat)
    requires JumpList(code, t, base) && JumpList(code, f, base) && Apart(t, f)
    requires !NeedValue(code, t) && !NeedValue(code, f)
    ensures LabelsFit(code, t, f, |code|) && ExitCode(code, t, f, reg, |code|) == ExitCode(code, t, f, reg, 0)
    ensures t == [] && f == [] ==> ExitCode(code, t, f, reg, |code|) == code
  {
    NeedsNone(code, t);
    NeedsNone(code, f);
    forall i | 0 <= i < |code|
      ensures ExitCode(code, t, f, reg, |code|)[i] == ExitCode(code, t, f, reg, 0)[i]
      ensures t == [] && f == [] ==> ExitCode(code, t, f, reg, |code|)[i] == code[i]
    {
      ExitsAt(code, t, f, reg, |code|, base, i);
      ExitsAt(code, t, f, reg, 0, base, i);
    }
  }

  lemma Exp2RegLoads(oracle: Oracle, g0: Gen, e0: Exp, base: nat, n: nat, reg: nat, m: Machine, r: Result)
    requires Shape(g0, e0, base, n) && Discharged(e0) && reg < NO_REG && Delivers(oracle, g0.code, e0, base, n, m, r)
    ensures Loads(oracle, Exp2Reg(g0, e0, reg).0.code, reg, base, n, m, r)
  {
    hide Settles;
    var (g, e) := Discharge2Reg(g0, e0, reg);
    Exp2RegForm(g0, e0, base, n, reg);
    if e.k == VJMP {
      EmitLabelsRun(oracle, g, e, reg, base, n, m, r);
    } else {
      Discharge2RegShape(g0, e0, base, n, reg);
      Discharge2RegLoads(oracle, g0, e0, base, n, reg, m, r);
      if NeedValue(g.code, e.t) || NeedValue(g.code, e.f) {
        SkipLabelsRun(oracle, g, e.t, e.f, reg, base, n, m, r);
      }
    }
    ExitsLoad(oracle, Exiting(g0, e0, reg).code, ExitLists(e0), e0.f, reg, LabelsAt(g0, e0, reg), base, n, m, r);
  }

  // ---------- Operands ----------

  /** An operand in a register: a local variable, or the next free register. */
  ghost predicate Operand(g: Gen, g1: Gen, e1: Exp, base: nat, n: nat) {
    && e1 == Exp(VNONRELOC, e1.info, [], []) && Grows(g, g1, base) && ToEnd(g1.code, g1.jpc)
    && (if e1.info < g.nactvar then g1.freereg == n else e1.info == n && g1.freereg == n + 1)
    && (!g1.failed && g1.freereg == n + 1 ==> n + 1 < MAXSTACK)
  }

  lemma Discharge2RegFrame(g: Gen, e: Exp, reg: nat, n: nat, failed: bool)
    ensures Discharge2Reg(g.(freereg := n, failed := failed), e, reg) ==
            (Discharge2Reg(g, e, reg).0.(freereg := n, failed := failed), Discharge2Reg(g, e, reg).1)
  {
    hide PatchList;
  }

  /** `luaK_exp2reg` neither reads nor changes what registers are in use. */
  lemma Exp2RegFrame(g: Gen, e: Exp, reg: nat, n: nat, failed: bool)
    ensures Exp2Reg(g.(freereg := n, failed := failed), e, reg) ==
            (Exp2Reg(g, e, reg).0.(freereg := n, failed := failed), Exp2Reg(g, e, reg).1)
  {
    hide NeedValue, PatchList;
    Discharge2RegFrame(g, e, reg, n, failed);
    hide Discharge2Reg;
  }

  lemma ExitCodeKeeps(code: seq<Instr>, t: seq<nat>, f: seq<nat>, reg: nat, labels: nat, base: nat, jpc: seq<nat>)
    requires JumpList(code, t, base) && JumpList(code, f, base) && Apart(t, f) && ToEnd(code, jpc) && base <= |code|
    requires forall j :: j in jpc ==> j !in t && j !in f
    ensures ToEnd(ExitCode(code, t, f, reg, labels), jpc) && ExitCode(code, t, f, reg, labels)[..base] == code[..base]
  {
    var code' := ExitCode(code, t, f, reg, labels);
    forall j | j in jpc
      ensures IsJump(code', j) && j + 1 + code'[j].sBx == |code'|
    {
      ExitsAt(code, t, f, reg, labels, base, j);
    }
    forall i | 0 <= i < base
      ensures code'[i] == code[i]
    {
      ExitsAt(code, t, f, reg, labels, base, i);
    }
  }

  lemma Exp2RegShape(g0: Gen, e0: Exp, base: nat, n: nat, reg: nat)
    requires Shape(g0, e0, base, n) && Discharged(e0)
    ensures var (g1, e1) := Exp2Reg(g0, e0, reg);
            && e1 == Exp(VNONRELOC, reg, [], []) && Grows(g0, g1, base) && ToEnd(g1.code, g1.jpc)
            && g1 == g0.(code := g1.code, jpc := g1.jpc)
  {
    Exp2RegForm(g0, e0, base, n, reg);
    var g := Exiting(g0, e0, reg);
    ExitCodeKeeps(g.code, ExitLists(e0), e0.f, reg, LabelsAt(g0, e0, reg), base, g.jpc);
    UntouchedCode(g0, e0, base, n, reg);
  }

  /** If nothing is emitted, no exit is patched either. */
  lemma UntouchedCode(g0: Gen, e0: Exp, base: nat, n: nat, reg: nat)
    requires Shape(g0, e0, base, n) && Discharged(e0)
    ensures (forall j :: j in Exp2Reg(g0, e0, reg).0.jpc ==> j >= base) || Exp2Reg(g0, e0, reg).0 == g0
  {
    Exp2RegForm(g0, e0, base, n, reg);
    var g := Exiting(g0, e0, reg);
    if g == g0 && !HasJumps(e0) && e0.k != VJMP {
      NoExits(g.code, reg, LabelsAt(g0, e0, reg));
    }
  }

  lemma NoExits(code: seq<Instr>, reg: nat, labels: nat)
    ensures ExitCode(code, [], [], reg, labels) == code
  {
  }

  lemma Exp2RKForm(g0: Gen, e0: Exp, base: nat, n: nat)
    requires Shape(g0, e0, base, n)
    ensures var (g, e) := DischargeVars(g0, e0);
            Exp2RK(g0, e0) == if e.k == VNONRELOC && !HasJumps(e) then (g, e) else Exp2Reg(Reserve(g, 1), e, n)
  {
    var (g, e) := DischargeVars(g0, e0);
    DischargeVarsShape(g0, e0, base, n);
  }

  /** A value that is not in a register yet goes to the next free one. */
  lemma Exp2RKValue(g0: Gen, e0: Exp, base: nat, n: nat)
    requires Shape(g0, e0, base, n)
    ensures var (g, e) := DischargeVars(g0, e0);
            if e.k == VNONRELOC && !HasJumps(e) then Exp2RK(g0, e0) == (g, e)
            else Exp2RK(g0, e0) == (Exp2Reg(g, e, n).0.(freereg := n + 1, failed := g.failed || n + 1 >= MAXSTACK),
                                    Exp(VNONRELOC, n, [], []))
  {
    var (g, e) := DischargeVars(g0, e0);
    DischargeVarsShape(g0, e0, base, n);
    Exp2RKForm(g0, e0, base, n);
    if !(e.k == VNONRELOC && !HasJumps(e)) {
      Exp2RegShape(g, e, base, n, n);
      hide Shape;
      Exp2RegFrame(g, e, n, n + 1, g.failed || n + 1 >= MAXSTACK);
    }
  }

  lemma Exp2RKOperand(g0: Gen, e0: Exp, base: nat, n: nat)
    requires Shape(g0, e0, base, n)
    ensures var (g1, e1) := Exp2RK(g0, e0); Operand(g0, g1, e1, base, n)
  {
    hide Exp2RK, Exp2Reg, JumpList, Apart, ToEnd, Core;
    var (g, e) := DischargeVars(g0, e0);
    DischargeVarsShape(g0, e0, base, n);
    Exp2RKValue(g0, e0, base, n);
    if !(e.k == VNONRELOC && !HasJumps(e)) {
      Exp2RegShape(g, e, base, n, n);
      GrowsOn(g0, g, Exp2RK(g0, e0).0, base);
    }
  }

  lemma GrowsOn(g: Gen, g1: Gen, g2: Gen, base: nat)
    requires Grows(g, g1, base) && Grows(g1, g2, base)
    ensures Grows(g, g2, base)
  {
  }

  lemma Exp2RKLoads(oracle: Oracle, g0: Gen, e0: Exp, base: nat, n: nat, m: Machine, r: Result)
    requires Shape(g0, e0, base, n) && Delivers(oracle, g0.code, e0, base, n, m, r)
    ensures var (g1, e1) := Exp2RK(g0, e0); InReg(oracle, g1.code, [], [], e1.info, NO_REG, base, n, m, r)
  {
    hide Exp2RK, Exp2Reg, JumpList, Apart, ToEnd, Core;
    var (g, e) := DischargeVars(g0, e0);
    DischargeVarsShape(g0, e0, base, n);
    DischargeVarsDelivers(oracle, g0, e0, base, n, m, r);
    Exp2RKValue(g0, e0, base, n);
    if e.k == VNONRELOC && !HasJumps(e) {
      PlainLoads(oracle, g.code, e, base, n, m, r);
    } else {
      Exp2RegLoads(oracle, g, e, base, n, n, m, r);
    }
  }

  lemma PlainLoads(oracle: Oracle, code: seq<Instr>, e: Exp, base: nat, n: nat, m: Machine, r: Result)
    requires e.k == VNONRELOC && !HasJumps(e) && Delivers(oracle, code, e, base, n, m, r)
    ensures InReg(oracle, code, [], [], e.info, NO_REG, base, n, m, r)
  {
  }

  // ---------- Comparisons ----------

  /** `g` is where the first operand `a` ends, `g2` where the code of the second ends. */
  lemma CodeCompForm(g0: Gen, g: Gen, a: Exp, op: Comparison, negated: bool, g1: Gen, b0: Exp, base: nat, n: nat)
    requires Operand(g0, g, a, base, n) && Shape(g1, b0, |g.code|, g.freereg) && Grows(g, g1, |g.code|)
    ensures var (g2, b) := Exp2RK(g1, b0);
            var i := if negated && op != EQ then COMP(op, true, b.info, a.info) else COMP(op, !negated, a.info, b.info);
            var (g3, e) := CodeComp(g1, op, negated, a, b0);
            && g3 == g2.(code := g2.code + [i, JMP(NO_JUMP)], jpc := [], freereg := n) &&
               e == Exp(VJMP, |g2.code| + 1, [], [])
            && Operand(g1, g2, b, |g.code|, g.freereg)
  {
    hide Apart, JumpList, ToEnd, Shape;
    Exp2RKOperand(g1, b0, |g.code|, g.freereg);
    assert Exp2RK(g1, a) == (g1, a);
  }

  lemma CodeCompShape(g0: Gen, g: Gen, a: Exp, op: Comparison, negated: bool, g1: Gen, b0: Exp, base: nat, n: nat)
    requires Operand(g0, g, a, base, n) && Shape(g1, b0, |g.code|, g.freereg) && Grows(g, g1, |g.code|)
    requires base <= |g0.code| && g0.nactvar <= n
    ensures var (g3, e) := CodeComp(g1, op, negated, a, b0); Shape(g3, e, base, n) && Grows(g0, g3, base)
  {
    hide Apart, JumpList, CodeComp, Exp2RK;
    CodeCompForm(g0, g, a, op, negated, g1, b0, base, n);
    var (g2, b) := Exp2RK(g1, b0);
    var (g3, e) := CodeComp(g1, op, negated, a, b0);
    assert Core(g3.code, e) == g2.code;
    EmptyLists(g2.code, base);
    EmptyLists(g3.code, base);
    assert g3.code[..base] == g2.code[..|g.code|][..base] == g1.code[..|g.code|][..base] == g.code[..base];
  }

  /** A comparison asks its question after both operands are there. */
  lemma CodeCompDelivers(oracle: Oracle, g0: Gen, g: Gen, a: Exp, op: Comparison, negated: bool, g1: Gen, b0: Exp,
                         base: nat, n: nat, m: Machine, ra: Result, rb: Result)
    requires Operand(g0, g, a, base, n) && Shape(g1, b0, |g.code|, g.freereg) && Grows(g, g1, |g.code|)
    requires g0.nactvar <= n
    requires InReg(oracle, g.code, [], [], a.info, NO_REG, base, n, m, ra)
    requires forall m1 :: Run(oracle, g.code, base, m) == Fall(m1) ==>
             Delivers(oracle, g1.code, b0, |g.code|, g.freereg, m1, rb)
    ensures var (g3, e) := CodeComp(g1, op, negated, a, b0);
            var q := Asked(op, negated, ra.v, rb.v);
            Delivers(oracle, g3.code, e, base, n, m,
                     Result(VBool(Answer(oracle, rb.trace, q) == !(negated && op == EQ)), rb.trace + [q]))
  {
    CodeCompForm(g0, g, a, op, negated, g1, b0, base, n);
    var (g2, b) := Exp2RK(g1, b0);
    var (g3, e) := CodeComp(g1, op, negated, a, b0);
    var x := Run(oracle, g.code, base, m);
    Exp2RKLoads(oracle, g1, b0, |g.code|, g.freereg, x.m, rb);
    assert g2.code[..|g.code|] == g1.code[..|g.code|] == g.code;
    SecondRuns(oracle, g, g2, base, m);
    assert Core(g3.code, e) == g2.code;
    OperandsThere(oracle, g.code, g2.code, a.info, b.info, g.freereg, base, n, m, x.m, ra, rb);
  }

  /** What runs through the code of the first operand goes on with that of the second. */
  lemma SecondRuns(oracle: Oracle, g: Gen, g2: Gen, base: nat, m: Machine)
    requires base <= |g.code| <= |g2.code| && g2.code[..|g.code|] == g.code && Run(oracle, g.code, base, m).Fall?
    ensures Run(oracle, g2.code, base, m) == Run(oracle, g2.code, |g.code|, Run(oracle, g.code, base, m).m)
  {
    assert g2.code == g.code + g2.code[|g.code|..];
    RunOn(oracle, g.code, g2.code[|g.code|..], base, m);
  }

  lemma OperandsThere(oracle: Oracle, code: seq<Instr>, code2: seq<Instr>, a: nat, b: nat, n2: nat,
                      base: nat, n: nat, m: Machine, m1: Machine, ra: Result, rb: Result)
    requires Agree(m, m1, n, NO_REG) && Result(Reg(m1.regs, a), m1.trace) == ra && a < n2 && n <= n2 < NO_REG
    requires InReg(oracle, code2, [], [], b, NO_REG, |code|, n2, m1, rb)
    ensures var x := Run(oracle, code2, |code|, m1);
            && x.Fall? && Agree(m, x.m, n, NO_REG) && Reg(x.m.regs, a) == ra.v && Reg(x.m.regs, b) == rb.v &&
               x.m.trace == rb.trace
  {
  }
}
