/** The instructions that short-circuit expressions compile to, and what they do (lvm.cpp,
    luaV_execute), with the expressions themselves and what they mean (section 2.5.3 of the Lua
    5.1 Reference Manual). */
module Bytecode {

  datatype Value = VNil | VBool(b: bool) | VOther(x: int)

  predicate IsFalse(v: Value) {
    v == VNil || v == VBool(false)
  }

  datatype Comparison = EQ | LT | LE

  /** What evaluation asks of the rest of the program, in order: it may run any code. */
  datatype Event = GetGlobal(g: nat) | Compare(op: Comparison, x: Value, y: Value)

  /** The answers may depend on everything asked before. */
  type Oracle = (seq<Event>, Event) -> Value

  // ---------- Source ----------

  datatype Expr =
    | Local(r: nat)
    | Global(g: nat)
    | Not(e: Expr)
    | And(a: Expr, b: Expr)
    | Or(a: Expr, b: Expr)
    | Cmp(op: Comparison, negated: bool, a: Expr, b: Expr)
    | Paren(e: Expr)

  datatype Result = Result(v: Value, trace: seq<Event>)

  function Reg(regs: seq<Value>, r: nat): Value {
    if r < |regs| then regs[r] else VNil
  }

  /** The comparison that `op` asks for. `a > b` and `a >= b` are `b < a` and `b <= a`; `a ~= b` is
      `not (a == b)`. */
  function Asked(op: Comparison, negated: bool, x: Value, y: Value): Event {
    if negated && op != EQ then Compare(op, y, x) else Compare(op, x, y)
  }

  function Answer(oracle: Oracle, trace: seq<Event>, e: Event): bool {
    !IsFalse(oracle(trace, e))
  }

  /** The value of an expression and the trace after evaluating it. */
  function Eval(oracle: Oracle, regs: seq<Value>, trace: seq<Event>, e: Expr): Result
    decreases e
  {
    match e
    case Local(r) => Result(Reg(regs, r), trace)
    case Global(g) => Result(oracle(trace, GetGlobal(g)), trace + [GetGlobal(g)])
    case Not(a) => var x := Eval(oracle, regs, trace, a); Result(VBool(IsFalse(x.v)), x.trace)
    case And(a, b) =>
      var x := Eval(oracle, regs, trace, a);
      if IsFalse(x.v) then x else Eval(oracle, regs, x.trace, b)
    case Or(a, b) =>
      var x := Eval(oracle, regs, trace, a);
      if !IsFalse(x.v) then x else Eval(oracle, regs, x.trace, b)
    case Cmp(op, negated, a, b) =>
      var x := Eval(oracle, regs, trace, a);
      var y := Eval(oracle, regs, x.trace, b);
      var q := Asked(op, negated, x.v, y.v);
      Result(VBool(Answer(oracle, y.trace, q) == !(negated && op == EQ)), y.trace + [q])
    case Paren(a) => Eval(oracle, regs, trace, a)
  }

  // ---------- Target ----------

  const NO_JUMP := -1
  const NO_REG: nat := 255

  /** `cond` is the field `A` of a comparison, `unless` the field `C` of a test. A jump with offset
      `NO_JUMP` is one whose target is not known yet. */
  datatype Instr =
    | JMP(sBx: int)
    | MOVE(A: nat, B: nat)
    | LOADBOOL(A: nat, v: bool, skip: bool)
    | GETGLOBAL(A: nat, g: nat)
    | NOT(A: nat, B: nat)
    | COMP(op: Comparison, cond: bool, B: nat, C: nat)
    | TEST(A: nat, unless: bool)
    | TESTSET(A: nat, B: nat, unless: bool)

  /** `testTMode`: the instruction decides whether the jump after it is taken. */
  predicate TMode(i: Instr) {
    i.COMP? || i.TEST? || i.TESTSET?
  }

  datatype Machine = Machine(regs: seq<Value>, trace: seq<Event>)

  function SetReg(m: Machine, r: nat, v: Value): Machine {
    if r < |m.regs| then m.(regs := m.regs[r := v]) else m
  }

  /** How an execution of unfinished code ends: past its last instruction, or at a jump after a test
      whose target is not known. */
  datatype Exit = Fall(m: Machine) | Via(j: nat, m: Machine) | Stuck

  predicate IsJump(code: seq<Instr>, j: int) {
    0 <= j < |code| && code[j].JMP?
  }

  predicate Open(code: seq<Instr>, j: int) {
    IsJump(code, j) && code[j].sBx == NO_JUMP
  }

  /** Whether the instruction `i` makes the machine take the jump that follows. */
  function Taken(oracle: Oracle, i: Instr, m: Machine): bool
    requires TMode(i)
  {
    match i
    case COMP(op, cond, b, c) => Answer(oracle, m.trace, Compare(op, Reg(m.regs, b), Reg(m.regs, c))) == cond
    case TEST(a, c) => IsFalse(Reg(m.regs, a)) != c
    case TESTSET(a, b, c) => IsFalse(Reg(m.regs, b)) != c
  }

  /** The machine after the test `i`, apart from what TESTSET does when it jumps. */
  function Tested(i: Instr, m: Machine): Machine
    requires TMode(i)
  {
    if i.COMP? then m.(trace := m.trace + [Compare(i.op, Reg(m.regs, i.B), Reg(m.regs, i.C))]) else m
  }

  /** What TESTSET does when it jumps. */
  function Jumped(i: Instr, m: Machine): Machine {
    if i.TESTSET? then SetReg(m, i.A, Reg(m.regs, i.B)) else m
  }

  /** The effect of an instruction that does not jump. */
  function Did(oracle: Oracle, i: Instr, m: Machine): Machine {
    match i
    case MOVE(a, b) => SetReg(m, a, Reg(m.regs, b))
    case LOADBOOL(a, v, _) => SetReg(m, a, VBool(v))
    case GETGLOBAL(a, g) => SetReg(m, a, oracle(m.trace, GetGlobal(g))).(trace := m.trace + [GetGlobal(g)])
    case NOT(a, b) => SetReg(m, a, VBool(IsFalse(Reg(m.regs, b))))
    case _ => m
  }

  /** Runs `code` from `pc`. All jumps of an expression go forward. A jump without a target ends the
      run before its test has set any register. */
  function Run(oracle: Oracle, code: seq<Instr>, pc: nat, m: Machine): Exit
    decreases |code| - pc
  {
    if pc == |code| then Fall(m)
    else if pc > |code| then Stuck
    else
      var i := code[pc];
      if i.JMP? then GoOn(oracle, code, pc, pc + 1 + i.sBx, m)
      else if TMode(i) then
        if !IsJump(code, pc + 1) then Stuck
        else if !Taken(oracle, i, m) then Run(oracle, code, pc + 2, Tested(i, m))
        else if code[pc + 1].sBx == NO_JUMP then Via(pc + 1, Tested(i, m))
        else GoOn(oracle, code, pc + 1, pc + 2 + code[pc + 1].sBx, Jumped(i, Tested(i, m)))
      else Run(oracle, code, pc + 1 + (if i.LOADBOOL? && i.skip then 1 else 0), Did(oracle, i, m))
  }

  /** Goes on at `d`, which the instruction at `j` jumps to. */
  function GoOn(oracle: Oracle, code: seq<Instr>, j: nat, d: int, m: Machine): Exit
    requires j < |code|
    decreases |code| - j, 0
  {
    if j < d <= |code| then Run(oracle, code, d, m) else Stuck
  }

  // ---------- Running code in pieces ----------

  /** More code changes nothing but what happens at the end. */
  lemma {:induction false} RunOn(oracle: Oracle, code: seq<Instr>, more: seq<Instr>, pc: nat, m: Machine)
    requires pc <= |code| && !Run(oracle, code, pc, m).Stuck?
    ensures var x := Run(oracle, code, pc, m);
            Run(oracle, code + more, pc, m) == if x.Fall? then Run(oracle, code + more, |code|, x.m) else x
    decreases |code| - pc
  {
    var all := code + more;
    if pc < |code| {
      var i := code[pc];
      assert all[pc] == i;
      if i.JMP? {
        RunOn(oracle, code, more, pc + 1 + i.sBx, m);
      } else if TMode(i) {
        assert IsJump(code, pc + 1) && all[pc + 1] == code[pc + 1];
        if !Taken(oracle, i, m) {
          RunOn(oracle, code, more, pc + 2, Tested(i, m));
        } else if code[pc + 1].sBx != NO_JUMP {
          RunOn(oracle, code, more, pc + 2 + code[pc + 1].sBx, Jumped(i, Tested(i, m)));
        }
      } else {
        RunOn(oracle, code, more, pc + 1 + (if i.LOADBOOL? && i.skip then 1 else 0), Did(oracle, i, m));
      }
    }
  }

  // ---------- Filling in targets ----------

  /** The target of each jump of unfinished code that gets one. */
  type Targets = map<nat, nat>

  /** `code'` is `code` with the jumps in `to` directed forward, past the end of the old code or to
      it; TESTSETs of these jumps may have become TESTs or got another register. */
  ghost predicate Directed(code: seq<Instr>, code': seq<Instr>, to: Targets) {
    && |code'| == |code|
    && (forall j :: j in to ==> Open(code, j) && j < to[j] <= |code| && code'[j] == JMP(to[j] - (j + 1)))
    && (forall i: nat :: i < |code| && i !in to ==> Kept(code[i], code'[i], i + 1 in to))
  }

  predicate Kept(i: Instr, i': Instr, directed: bool) {
    i' == i || (i.TESTSET? && directed && Retested(i, i'))
  }

  predicate Retested(i: Instr, i': Instr)
    requires i.TESTSET?
  {
    i' == TEST(i.B, i.unless) || (i'.TESTSET? && i'.B == i.B && i'.unless == i.unless)
  }

  /** Where a run that left the old code through a jump goes on. */
  ghost function Onward(oracle: Oracle, code': seq<Instr>, to: Targets, x: Exit): Exit
    requires x.Via? && x.j in to
  {
    if 1 <= x.j <= |code'| then Run(oracle, code', to[x.j], Jumped(code'[x.j - 1], x.m)) else Stuck
  }

  /** A test that has become another one still decides the same. */
  lemma KeptTest(oracle: Oracle, i: Instr, i': Instr, directed: bool, m: Machine)
    requires Kept(i, i', directed)
    ensures TMode(i) ==> TMode(i') && Taken(oracle, i', m) == Taken(oracle, i, m) && Tested(i', m) == Tested(i, m)
    ensures !directed || !TMode(i) ==> i' == i
    ensures i'.JMP? == i.JMP? && TMode(i') == TMode(i)
  {
  }

  lemma {:induction false} RunDirected(oracle: Oracle, code: seq<Instr>, code': seq<Instr>, to: Targets, pc: nat,
                                       m: Machine)
    requires Directed(code, code', to) && pc <= |code| && !Run(oracle, code, pc, m).Stuck?
    ensures var x := Run(oracle, code, pc, m);
            Run(oracle, code', pc, m) == if x.Via? && x.j in to then Onward(oracle, code', to, x) else x
    decreases |code| - pc, 1
  {
    hide Taken, Tested, Jumped, Did, Kept;
    if pc < |code| {
      var i := code[pc];
      if pc !in to {
        KeptTest(oracle, i, code'[pc], pc + 1 in to, m);
      }
      if i.JMP? {
        assert pc in to ==> Open(code, pc);
        assert Run(oracle, code, pc, m) == GoOn(oracle, code, pc, pc + 1 + i.sBx, m);
        RunDirected(oracle, code, code', to, pc + 1 + i.sBx, m);
      } else if TMode(i) {
        TestDirected(oracle, code, code', to, pc, m);
      } else {
        RunDirected(oracle, code, code', to, pc + 1 + (if i.LOADBOOL? && i.skip then 1 else 0), Did(oracle, i, m));
      }
    }
  }

  lemma {:induction false} TestDirected(oracle: Oracle, code: seq<Instr>, code': seq<Instr>, to: Targets, pc: nat,
                                        m: Machine)
    requires Directed(code, code', to) && pc < |code| && !Run(oracle, code, pc, m).Stuck? && TMode(code[pc])
    ensures var x := Run(oracle, code, pc, m);
            Run(oracle, code', pc, m) == if x.Via? && x.j in to then Onward(oracle, code', to, x) else x
    decreases |code| - pc, 0
  {
    hide Taken, Tested, Jumped, Did, Kept;
    var i, j := code[pc], code[pc + 1];
    assert pc !in to && IsJump(code, pc + 1);
    KeptTest(oracle, i, code'[pc], pc + 1 in to, m);
    if pc + 1 !in to {
      KeptTest(oracle, j, code'[pc + 1], pc + 2 in to, m);
    }
    if !Taken(oracle, i, m) {
      RunDirected(oracle, code, code', to, pc + 2, Tested(i, m));
    } else if j.sBx != NO_JUMP {
      assert pc + 1 !in to;
      RunDirected(oracle, code, code', to, pc + 2 + j.sBx, Jumped(i, Tested(i, m)));
    }
  }

  /** `code'` is `code` with jumps to its end directed elsewhere beyond it. */
  ghost predicate Redirected(code: seq<Instr>, code': seq<Instr>, js: set<nat>, d: nat) {
    && |code'| >= |code| && d >= |code|
    && (forall j :: j in js ==> IsJump(code, j) && j + 1 + code[j].sBx == |code| && code'[j] == JMP(d - (j + 1)))
    && (forall i :: 0 <= i < |code| && i !in js ==> code'[i] == code[i])
  }

  lemma {:induction false} RunRedirected(oracle: Oracle, code: seq<Instr>, code': seq<Instr>, js: set<nat>, d: nat,
                                         pc: nat, m: Machine)
    requires Redirected(code, code', js, d) && d <= |code'| && pc <= |code| && !Run(oracle, code, pc, m).Stuck?
    ensures var x := Run(oracle, code, pc, m);
            if x.Fall? then
              Run(oracle, code', pc, m) == Run(oracle, code', |code|, x.m) ||
                  Run(oracle, code', pc, m) == Run(oracle, code', d, x.m)
            else Run(oracle, code', pc, m) == x
    decreases |code| - pc
  {
    hide Taken, Tested, Jumped, Did;
    if pc < |code| {
      var i, i' := code[pc], code'[pc];
      if i.JMP? {
        if pc in js {
          assert i' == JMP(d - (pc + 1));
          assert Run(oracle, code, |code|, m) == Fall(m);
        } else {
          assert i' == i;
          RunRedirected(oracle, code, code', js, d, pc + 1 + i.sBx, m);
        }
      } else if TMode(i) {
        assert IsJump(code, pc + 1) && pc !in js;
        var j := code'[pc + 1];
        assert i' == i && j == if pc + 1 in js then JMP(d - (pc + 2)) else code[pc + 1];
        if !Taken(oracle, i, m) {
          RunRedirected(oracle, code, code', js, d, pc + 2, Tested(i, m));
        } else if pc + 1 in js {
          assert Run(oracle, code, |code|, Jumped(i, Tested(i, m))) == Fall(Jumped(i, Tested(i, m)));
        } else if code[pc + 1].sBx != NO_JUMP {
          RunRedirected(oracle, code, code', js, d, pc + 2 + code[pc + 1].sBx, Jumped(i, Tested(i, m)));
        }
      } else {
        assert i' == i;
        RunRedirected(oracle, code, code', js, d, pc + 1 + (if i.LOADBOOL? && i.skip then 1 else 0), Did(oracle, i, m));
      }
    }
  }
}
