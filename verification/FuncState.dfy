/** The code generator as it runs (lcode.cpp): a `FuncState` whose code is written and patched in
    place. A method takes the abstract state that the stored one stands for as a ghost parameter,
    and leaves one that stands for what the generator on values gives. */
module FuncStates {
  import opened Bytecode
  import opened CodeSpec
  import opened CodeMeaning
  import opened JumpLists
  import opened ShortCircuit
  import opened CodeSize

  const MAXARG_sBx: int := 131071

  /** `expdesc`, with its lists as the positions of their first jumps. */
  datatype ExpDesc = ExpDesc(k: Kind, info: nat, t: int, f: int)

  class FuncState {
    var code: seq<Instr>     // the instructions before `pc`
    var jpc: int
    var freereg: nat
    var nactvar: nat
    var failed: bool         // an error has been raised; what is done afterwards does not matter

    constructor (nactvar: nat)
      ensures code == [] && jpc == NO_JUMP && freereg == nactvar == this.nactvar && !failed
    {
      code, jpc, freereg, failed := [], NO_JUMP, nactvar, false;
      this.nactvar := nactvar;
    }

    ghost predicate Represents(g: Gen)
      reads this
    {
      && StandsFor(code, g) && Threaded(code, jpc, g.jpc) && freereg == g.freereg && nactvar == g.nactvar
      && (g.failed ==> failed) && (failed ==> g.failed || TooLong())
    }

    /** A jump over all of the code may not fit its offset. */
    predicate TooLong()
      reads `code
    {
      |code| > 131071
    }

    ghost predicate Describes(e: ExpDesc, v: Exp)
      reads this
    {
      && e.k == v.k && e.info == v.info && Threaded(code, e.t, v.t) && Threaded(code, e.f, v.f)
      && (e.k == VJMP ==> Threaded(code, e.info, [v.info]))
    }

    // ---------- Jump lists ----------

    method FixJump(pc: nat, dest: int)
      requires IsJump(code, pc)
      modifies `code, `failed
      ensures code == old(code)[pc := JMP(dest - (pc + 1))]
      ensures failed <==> old(failed) || dest - (pc + 1) > 131071 || dest - (pc + 1) < -131071
    {
      var offset := dest - (pc + 1);
      if offset > MAXARG_sBx || -offset > MAXARG_sBx {
        failed := true;
      }
      code := code[pc := JMP(offset)];
    }

    method GetJump(pc: nat) returns (next: int)
      requires IsJump(code, pc)
      ensures next == NextJump(code, pc)
    {
      var offset := code[pc].sBx;
      next := if offset == NO_JUMP then NO_JUMP else pc + 1 + offset;
    }

    method GetJumpControl(pc: nat) returns (i: nat)
      requires IsJump(code, pc)
      ensures i == if pc >= 1 && TMode(code[pc - 1]) then pc - 1 else pc
    {
      i := if pc >= 1 && TMode(code[pc - 1]) then pc - 1 else pc;
    }

    /** `need_value`. */
    method ListNeedsValue(head: int, ghost l: seq<nat>) returns (b: bool)
      requires Threaded(code, head, l)
      ensures b == NeedValue(code, l)
    {
      var list := head;
      ghost var rest := l;
      while list != NO_JUMP
        invariant Threaded(code, list, rest) && NeedValue(code, l) == NeedValue(code, rest)
        decreases |rest|
      {
        ThreadedRest(code, list, rest);
        var i := GetJumpControl(list);
        if !code[i].TESTSET? {
          return true;
        }
        rest := rest[1..];
        list := GetJump(list);
      }
      return false;
    }

    method PatchTestReg(node: nat, reg: nat) returns (patched: bool)
      requires IsJump(code, node)
      modifies `code
      ensures patched == HasValue(old(code), node)
      ensures code == if patched then old(code)[node - 1 := Retest(old(code)[node - 1], reg)] else old(code)
    {
      var i := GetJumpControl(node);
      if !code[i].TESTSET? {
        return false;
      }
      if reg != NO_REG && reg != code[i].B {
        code := code[i := TESTSET(reg, code[i].B, code[i].unless)];
      } else {
        code := code[i := TEST(code[i].B, code[i].unless)];
      }
      return true;
    }

    /** One turn of `patchlistaux`. */
    method PatchJump(j: nat, vtarget: nat, reg: nat, dtarget: nat)
      requires IsJump(code, j)
      modifies `code, `failed
      ensures code == PatchList(old(code), [j], vtarget, reg, dtarget) && (old(failed) ==> failed)
      ensures vtarget <= |code| && dtarget <= |code| && failed ==> old(failed) || TooLong()
    {
      var patched := PatchTestReg(j, reg);
      if patched {
        FixJump(j, vtarget);
      } else {
        FixJump(j, dtarget);
      }
    }

    method PatchListAux(head: int, ghost l: seq<nat>, vtarget: nat, reg: nat, dtarget: nat)
      requires Threaded(code, head, l)
      modifies `code, `failed
      ensures code == PatchList(old(code), l, vtarget, reg, dtarget) && (old(failed) ==> failed)
      ensures vtarget <= |code| && dtarget <= |code| && failed ==> old(failed) || TooLong()
    {
      var list := head;
      ghost var done, rest := [], l;
      PatchNone(code, vtarget, reg, dtarget);
      while list != NO_JUMP
        invariant l == done + rest && Threaded(code, list, rest)
        invariant code == PatchList(old(code), done, vtarget, reg, dtarget) && (old(failed) ==> failed)
        invariant vtarget <= |code| && dtarget <= |code| && failed ==> old(failed) || TooLong()
        decreases |rest|
      {
        ThreadedRest(code, list, rest);
        var next := GetJump(list);
        ListSplits(old(code), head, l, done, rest);
        PatchKeepsRest(code, list, rest[1..], vtarget, reg, dtarget);
        PatchSnoc(old(code), done, list, vtarget, reg, dtarget);
        ghost var was := code;
        PatchJump(list, vtarget, reg, dtarget);
        ThreadedKept(was, code, next, rest[1..]);
        done, rest := done + [rest[0]], rest[1..];
        list := next;
      }
      assert done == l;
    }

    static lemma ListSplits(code: seq<Instr>, head: int, l: seq<nat>, done: seq<nat>, rest: seq<nat>)
      requires Threaded(code, head, l) && l == done + rest && rest != []
      ensures (forall x :: x in done ==> IsJump(code, x)) && IsJump(code, rest[0]) && rest[0] !in done
      ensures l == done + [rest[0]] + rest[1..]
    {
      assert forall i :: 0 <= i < |done| ==> done[i] == l[i];
      assert rest[0] == l[|done|];
    }

    static lemma EndsEmpty(code: seq<Instr>, head: int, l: seq<nat>)
      requires Threaded(code, head, l)
      ensures head == NO_JUMP <==> l == []
    {
    }

    static lemma FirstOf(code: seq<Instr>, head: int, l: seq<nat>)
      requires Threaded(code, head, l) && l != []
      ensures head == l[0]
    {
    }

    static lemma OneRemoved(was: seq<Instr>, code: seq<Instr>, j: nat, l: seq<nat>)
      requires Threaded(was, j, l) && l != [] && IsJump(was, j)
      requires code == if HasValue(was, j) then was[j - 1 := Retest(was[j - 1], NO_REG)] else was
      ensures code == RemoveValues(was, [j]) && IsJump(code, j) && Threaded(code, NextJump(code, j), l[1..])
    {
      ThreadedRest(was, j, l);
      assert j == l[0];
      ThreadedKept(was, code, NextJump(was, j), l[1..]);
    }

    /** `removevalues`. */
    method RemoveListValues(head: int, ghost l: seq<nat>)
      requires Threaded(code, head, l)
      modifies `code
      ensures code == RemoveValues(old(code), l)
    {
      var list := head;
      ghost var done, rest := [], l;
      PatchNone(code, 0, 0, 0);
      EndsEmpty(code, list, l);
      hide RemoveValues, Threaded, NextJump, HasValue;
      while list != NO_JUMP
        invariant l == done + rest && Threaded(code, list, rest) && code == RemoveValues(old(code), done)
        decreases |rest|
      {
        ThreadedRest(code, list, rest);
        FirstOf(code, list, rest);
        ListSplits(old(code), head, l, done, rest);
        RemoveSnoc(old(code), done, list);
        ghost var was := code;
        var patched := PatchTestReg(list, NO_REG);
        OneRemoved(was, code, list, rest);
        done, rest := done + [rest[0]], rest[1..];
        list := GetJump(list);
        EndsEmpty(code, list, rest);
      }
      assert done == l;
    }

    /** `luaK_concat`; returns the head of the joined list. */
    method Concat(l1: int, l2: int, ghost a: seq<nat>, ghost b: seq<nat>) returns (head: int)
      requires Threaded(code, l1, a) && Threaded(code, l2, b) && Apart(a, b)
      modifies `code, `failed
      ensures Threaded(code, head, a + b) && |code| == |old(code)| && (old(failed) ==> failed)
      ensures failed ==> old(failed) || TooLong()
      ensures forall i :: 0 <= i < |code| ==> code[i] == old(code)[i] || (i in a && code[i].JMP?)
    {
      if l2 == NO_JUMP {
        assert a + b == a;
        return l1;
      } else if l1 == NO_JUMP {
        assert a + b == b;
        return l2;
      }
      var list := l1;
      ghost var k := 0;
      var next := GetJump(list);
      while next != NO_JUMP
        invariant code == old(code) && failed == old(failed)
        invariant 0 <= k < |a| && list == a[k] && next == NextJump(code, a[k]) == Head(a[k + 1..])
        decreases |a| - k
      {
        k := k + 1;
        list := next;
        next := GetJump(list);
      }
      assert a[k + 1..] == [];
      ThreadedJoin(code, a, b);
      FixJump(list, l2);
      return l1;
    }

    // ---------- Emitting ----------

    method DischargeJpc(ghost g: Gen)
      requires Represents(g)
      modifies `code, `jpc, `failed
      ensures Represents(g.(jpc := [])) && jpc == NO_JUMP && |code| == |old(code)|
      ensures forall j: nat :: Open(g.code, j) ==> j < |code| && code[j] == old(code)[j]
    {
      DischargedStands(code, g);
      PatchListAux(jpc, g.jpc, |code|, NO_REG, |code|);
      jpc := NO_JUMP;
    }

    /** `luaK_code`. */
    method Code(i: Instr, ghost g: Gen)
      requires Represents(g) && !TMode(i) && !i.JMP?
      modifies `code, `jpc, `failed
      ensures Represents(Emit(g, i))
      ensures forall j: nat :: Open(g.code, j) ==> j < |code| && j < |old(code)| && code[j] == old(code)[j]
    {
      DischargeJpc(g);
      AppendStands(code, g.(jpc := []), i);
      code := code + [i];
    }

    /** `condjump`: a test and `luaK_jump`, with no jumps to here left to keep on hold. */
    method CodeTest(i: Instr, ghost g: Gen) returns (j: nat)
      requires Represents(g) && TMode(i)
      modifies `code, `jpc, `failed
      ensures Represents(CondJump(g, i).0) && j == CondJump(g, i).1
      ensures Threaded(code, j, [j])
      ensures forall j: nat :: Open(g.code, j) ==> j < |code| && j < |old(code)| && code[j] == old(code)[j]
    {
      DischargeJpc(g);
      AppendTestStands(code, g.(jpc := []), i);
      j := |code| + 1;
      code := code + [i, JMP(NO_JUMP)];
      assert [j][1..] == [];
    }

    /** `luaK_patchtohere`. */
    method PatchListToHere(list: int, ghost l: seq<nat>, ghost g: Gen, ghost base: nat)
      requires Represents(g) && Threaded(code, list, l) && JumpList(g.code, l, base)
      modifies `code, `jpc, `failed
      ensures Represents(PatchToHere(g, l))
      ensures forall j: nat :: Open(g.code, j) ==> j < |code| && j < |old(code)| && code[j] == old(code)[j]
    {
      OpenApart(g.code, g.jpc, l, base);
      ghost var was := code;
      jpc := Concat(jpc, list, g.jpc, l);
      HoldStands(was, code, g, l, base);
      assert forall j: nat :: Open(g.code, j) ==> j !in g.jpc;
    }

    // ---------- Registers and variables ----------

    /** `luaK_reserveregs`, with `luaK_checkstack`. */
    method ReserveRegs(n: nat, ghost g: Gen)
      requires Represents(g)
      modifies `freereg, `failed
      ensures Represents(Reserve(g, n)) && freereg == old(freereg) + n
    {
      if freereg + n >= MAXSTACK {
        failed := true;
      }
      freereg := freereg + n;
      SameCode(g, Reserve(g, n));
    }

    method FreeExpReg(e: ExpDesc, ghost v: Exp, ghost g: Gen)
      requires Represents(g) && e.k == v.k && e.info == v.info
      modifies `freereg
      ensures Represents(FreeExp(g, v))
    {
      if e.k == VNONRELOC && e.info >= nactvar && freereg > 0 {
        freereg := freereg - 1;
      }
      SameCode(g, FreeExp(g, v));
    }

    /** What registers are in use does not matter to the code. */
    lemma SameCode(g: Gen, g': Gen)
      requires StandsFor(code, g) && g' == g.(freereg := g'.freereg, failed := g'.failed)
      ensures StandsFor(code, g')
    {
      forall i: nat | i < |code|
        ensures Stands(code, g', i)
      {
        assert Stands(code, g, i);
      }
    }

    /** The lists of an expression stay as they are while its open jumps do. */
    lemma StillDescribes(was: seq<Instr>, e: ExpDesc, v: Exp, g: Gen)
      requires e.k == v.k && e.info == v.info && Threaded(was, e.t, v.t) && Threaded(was, e.f, v.f)
      requires e.k == VJMP ==> Threaded(was, e.info, [v.info]) && Open(g.code, v.info)
      requires forall j: nat :: Open(g.code, j) ==> j < |code| && j < |was| && code[j] == was[j]
      requires forall j :: j in v.t || j in v.f ==> Open(g.code, j)
      ensures Describes(e, v)
    {
      ThreadedKept(was, code, e.t, v.t);
      ThreadedKept(was, code, e.f, v.f);
      if e.k == VJMP {
        ThreadedKept(was, code, e.info, [v.info]);
      }
    }

    /** The shape of a state, however many registers are in use by now. */
    static ghost predicate Shaped(g: Gen, v: Exp, base: nat, n: nat) {
      Shape(g.(freereg := n), v, base, n)
    }

    static lemma ShapedVars(g: Gen, v: Exp, base: nat, n: nat)
      requires Shaped(g, v, base, n)
      ensures var (g1, v1) := DischargeVars(g, v);
              && Shaped(g1, v1, base, n) && Discharged(v1) && base <= |g.code| && base <= |g1.code| &&
                 g1.code[..base] == g.code[..base]
              && (v1.t, v1.f) == (v.t, v.f)
    {
      DischargeVarsShape(g.(freereg := n), v, base, n);
    }

    method DischargeVariable(e: ExpDesc, ghost g: Gen, ghost v: Exp, ghost base: nat, ghost n: nat)
      returns (e': ExpDesc)
      requires Represents(g) && Describes(e, v) && Shaped(g, v, base, n)
      modifies `code, `jpc, `failed
      ensures Represents(DischargeVars(g, v).0) && Describes(e', DischargeVars(g, v).1)
      ensures KeepsLinks(g, old(code), code, base)
    {
      match e.k
      case VLOCAL => e' := e.(k := VNONRELOC);
      case VGLOBAL =>
        e' := e.(k := VRELOCABLE, info := |code|);
        Code(GETGLOBAL(0, e.info), g);
        StillDescribes(old(code), e', DischargeVars(g, v).1, g);
      case _ => e' := e;
    }

    // ---------- Values into registers ----------

    /** `discharge2reg`. */
    method DischargeToReg(e0: ExpDesc, reg: nat, ghost g0: Gen, ghost v0: Exp, ghost base: nat, ghost n: nat)
      returns (e: ExpDesc)
      requires Represents(g0) && Describes(e0, v0) && Shaped(g0, v0, base, n)
      modifies `code, `jpc, `failed
      ensures Represents(Discharge2Reg(g0, v0, reg).0) && Describes(e, Discharge2Reg(g0, v0, reg).1)
      ensures KeepsLinks(g0, old(code), code, base)
    {
      hide StandsFor, Threaded, Shaped, KeepsLinks, DischargeVars, SetA;
      ghost var (g, v) := DischargeVars(g0, v0);
      ShapedVars(g0, v0, base, n);
      e := DischargeVariable(e0, g0, v0, base, n);
      ghost var was := code;
      match e.k
      case VRELOCABLE =>
        RelocateTo(e, reg, g, v, base, n);
        e := e.(k := VNONRELOC, info := reg);
        KeptBelow(g0, g, old(code), was, code, base);
      case VNONRELOC =>
        MoveTo(e, reg, g, v, base, n);
        e := e.(info := reg);
        KeptBelow(g0, g, old(code), was, code, base);
      case _ =>
    }

    /** The register of the instruction that waits for it. */
    method RelocateTo(e: ExpDesc, reg: nat, ghost g: Gen, ghost v: Exp, ghost base: nat, ghost n: nat)
      requires Represents(g) && Describes(e, v) && Shaped(g, v, base, n) && e.k == VRELOCABLE
      modifies `code
      ensures e.info < |g.code| && Represents(g.(code := g.code[e.info := SetA(g.code[e.info], reg)]))
      ensures Describes(e, v) && KeepsLinks(g, old(code), code, base)
    {
      ReplaceStands(code, g, e.info, SetA(g.code[e.info], reg));
      StoredAt(code, g, e.info);
      code := code[e.info := SetA(code[e.info], reg)];
      StillDescribes(old(code), e, v, g);
      ThreadedKept(old(code), code, jpc, g.jpc);
    }

    method MoveTo(e: ExpDesc, reg: nat, ghost g: Gen, ghost v: Exp, ghost base: nat, ghost n: nat)
      requires Represents(g) && Describes(e, v) && Shaped(g, v, base, n) && e.k == VNONRELOC
      modifies `code, `jpc, `failed
      ensures Represents(if reg != e.info then Emit(g, MOVE(reg, e.info)) else g)
      ensures Describes(e, v) && KeepsLinks(g, old(code), code, base)
    {
      if reg != e.info {
        Code(MOVE(reg, e.info), g);
        StillDescribes(old(code), e, v, g);
      }
    }

    /** Links before `base` stay through one step after another. */
    static lemma KeptBelow(g: Gen, g1: Gen, c: seq<Instr>, c1: seq<Instr>, c2: seq<Instr>, base: nat)
      requires KeepsLinks(g, c, c1, base) && KeepsLinks(g1, c1, c2, base)
      requires base <= |g.code| && base <= |g1.code| && g1.code[..base] == g.code[..base]
      ensures KeepsLinks(g, c, c2, base)
    {
      forall j: nat | j < base && Open(g.code, j)
        ensures j < |c| && j < |c2| && c2[j] == c[j]
      {
        assert g1.code[j] == g1.code[..base][j] == g.code[j];
        assert Open(g1.code, j);
      }
    }

    /** `discharge2anyreg`. */
    method DischargeToAnyReg(e0: ExpDesc, ghost g: Gen, ghost v: Exp, ghost base: nat, ghost n: nat)
      returns (e: ExpDesc)
      requires Represents(g) && Describes(e0, v) && Shaped(g, v, base, n)
      modifies `code, `jpc, `failed, `freereg
      ensures Represents(Discharge2AnyReg(g, v).0) && Describes(e, Discharge2AnyReg(g, v).1)
      ensures KeepsLinks(g, old(code), code, base)
    {
      e := e0;
      if e.k != VNONRELOC {
        ReserveRegs(1, g);
        e := DischargeToReg(e, freereg - 1, Reserve(g, 1), v, base, n);
      }
    }

    /** The jumps of a finished expression get their targets. */
    method PatchOut(t: int, f: int, reg: nat, labels: nat, ghost g: Gen, ghost l: seq<nat>, ghost lf: seq<nat>,
                    ghost base: nat)
      requires Represents(g) && Threaded(code, t, l) && Threaded(code, f, lf)
      requires JumpList(g.code, l, base) && JumpList(g.code, lf, base) && Apart(l, lf) && Apart(lf, l)
      requires base <= |g.code| && labels < |code| &&
               forall j :: j in l || j in lf ==> HasValue(g.code, j) || j < labels
      modifies `code, `failed
      ensures Represents(g.(code := ExitCode(g.code, l, lf, reg, labels)))
      ensures KeepsLinks(g, old(code), code, base)
    {
      StandsLength(code, g);
      AfterFirst(code, g, t, l, lf, |code|, reg, labels, base);
      var end := |code|;
      ghost var g1 := PatchOne(f, reg, end, labels, g, lf, base);
      PatchSecond(t, reg, end, labels, g, g1, old(code), l, lf, base);
    }

    method PatchSecond(t: int, reg: nat, end: nat, labels: nat, ghost g: Gen, ghost g1: Gen, ghost was: seq<Instr>,
                       ghost l: seq<nat>, ghost lf: seq<nat>, ghost base: nat)
      requires Represents(g1) && Threaded(code, t, l) && JumpList(g1.code, l, base) && end == |code| == |g.code|
      requires g1 == g.(code := PatchList(g.code, lf, end, reg, labels))
      requires labels < |code| && forall j :: j in l ==> HasValue(g1.code, j) || j < labels + 1
      requires KeepsLinks(g, was, code, base) && base <= |g.code| && g1.code[..base] == g.code[..base]
      modifies `code, `failed
      ensures Represents(g.(code := ExitCode(g.code, l, lf, reg, labels))) && KeepsLinks(g, was, code, base)
    {
      hide StandsFor, Threaded, JumpList, KeepsLinks, PatchList;
      ghost var c := code;
      ghost var g2 := PatchOne(t, reg, end, labels + 1, g1, l, base);
      KeptBelow(g, g1, was, c, code, base);
    }

    /** Patching the first list leaves the second to be patched. */
    static lemma AfterFirst(code: seq<Instr>, g: Gen, t: int, l: seq<nat>, lf: seq<nat>, end: nat, reg: nat,
                            labels: nat, base: nat)
      requires StandsFor(code, g) && Threaded(code, t, l) && end == |code|
      requires JumpList(g.code, l, base) && JumpList(g.code, lf, base) && Apart(l, lf) && Apart(lf, l)
      requires base <= |g.code| && forall j :: j in l || j in lf ==> HasValue(g.code, j) || j < labels
      ensures var c, gc := PatchList(code, lf, end, reg, labels), PatchList(g.code, lf, end, reg, labels);
              && Threaded(c, t, l) && JumpList(gc, l, base) &&
                 (forall j :: j in l ==> HasValue(gc, j) || j < labels + 1)
              && gc[..base] == g.code[..base] && |c| == end
    {
      PatchKeepsList(g.code, lf, end, reg, labels, l, base);
      ListJumps(code, g, l, base);
      PatchKeepsOthers(code, lf, end, reg, labels, l);
      ThreadedKept(code, PatchList(code, lf, end, reg, labels), t, l);
      PatchedBelow(g.code, lf, end, reg, labels, base);
    }

    static lemma StandsLength(code: seq<Instr>, g: Gen)
      requires StandsFor(code, g)
      ensures |code| == |g.code| && forall j :: j in g.jpc ==> j < |code|
      ensures forall j: nat :: Open(g.code, j) ==> j < |code|
    {
      forall j | j in g.jpc
        ensures j < |code|
      {
        assert IsJump(g.code, j);
      }
    }

    static lemma PatchedBelow(code: seq<Instr>, l: seq<nat>, vt: nat, reg: nat, dt: nat, base: nat)
      requires JumpList(code, l, base)
      ensures base <= |code| ==> PatchList(code, l, vt, reg, dt)[..base] == code[..base]
    {
    }

    static lemma ListJumps(code: seq<Instr>, g: Gen, l: seq<nat>, base: nat)
      requires StandsFor(code, g) && JumpList(g.code, l, base)
      ensures forall j :: j in l ==> IsJump(code, j)
    {
      forall j | j in l
        ensures IsJump(code, j)
      {
        assert Stands(code, g, j);
      }
    }

    method PatchOne(list: int, reg: nat, vtarget: nat, dtarget: nat, ghost g: Gen, ghost l: seq<nat>,
                    ghost base: nat) returns (ghost g1: Gen)
      requires Represents(g) && Threaded(code, list, l) && JumpList(g.code, l, base) && vtarget == |code|
      requires dtarget <= |code| && forall j :: j in l ==> HasValue(g.code, j) || j < dtarget
      modifies `code, `failed
      ensures g1 == g.(code := PatchList(g.code, l, vtarget, reg, dtarget)) && Represents(g1)
      ensures KeepsLinks(g, old(code), code, base) && code == PatchList(old(code), l, vtarget, reg, dtarget)
    {
      g1 := g.(code := PatchList(g.code, l, vtarget, reg, dtarget));
      PatchStands(code, g, l, vtarget, reg, dtarget, base);
      PatchKeepsBelow(code, g, l, vtarget, reg, dtarget, base);
      OpenApart(g.code, g.jpc, l, base);
      PatchKeepsOthers(code, l, vtarget, reg, dtarget, g.jpc);
      PatchListAux(list, l, vtarget, reg, dtarget);
      ThreadedKept(old(code), code, jpc, g.jpc);
    }

    /** The instructions that load false and true (`code_label`), after a comparison. */
    method CodeLabels(reg: nat, ghost g: Gen)
      requires Represents(g)
      modifies `code, `jpc, `failed
      ensures Represents(EmitLabels(g, reg))
      ensures forall j: nat :: Open(g.code, j) ==> j < |code| && j < |old(code)| && code[j] == old(code)[j]
    {
      ghost var g1 := Emit(g, LOADBOOL(reg, false, true));
      Code(LOADBOOL(reg, false, true), g);
      assert forall j: nat :: Open(g.code, j) ==> Open(g1.code, j);
      Code(LOADBOOL(reg, true, false), g1);
      assert Emit(g1, LOADBOOL(reg, true, false)) == EmitLabels(g, reg);
    }

    /** `luaK_jump`: the jumps to here join its list. */
    method Jump(ghost here: seq<nat>) returns (j: int)
      requires Threaded(code, jpc, here) && forall x :: x in here ==> x < |code|
      modifies `code, `jpc, `failed
      ensures Threaded(code, j, [|old(code)|] + here) && jpc == NO_JUMP
      ensures |code| == |old(code)| + 1 && code[|code| - 1].JMP? && code[..|old(code)|] == old(code)
      ensures (old(failed) ==> failed) && (failed ==> old(failed) || TooLong())
    {
      var hold := jpc;
      jpc := NO_JUMP;
      var p := |code|;
      code := code + [JMP(NO_JUMP)];
      AloneThreaded(code, p);
      ThreadedKept(old(code), code, hold, here);
      j := Concat(p, hold, [p], here);
    }

    /** The same after a value: a jump skips them, and takes the jumps to here along. */
    method CodeSkippedLabels(reg: nat, ghost g: Gen)
      requires Represents(g)
      modifies `code, `jpc, `failed
      ensures Represents(SkipLabels(g, reg))
      ensures forall j: nat :: Open(g.code, j) ==> j < |code| && j < |old(code)| && code[j] == old(code)[j]
    {
      hide StandsFor, Threaded, Open;
      StandsLength(code, g);
      var p := |code|;
      var fj := Jump(g.jpc);
      ghost var was := code;
      code := code + [LOADBOOL(reg, false, true), LOADBOOL(reg, true, false)];
      ThreadedKept(was, code, fj, [p] + g.jpc);
      SkippedCode(old(code), code, g, reg);
      ghost var all := code;
      EmptyThreaded(code);
      jpc := Concat(jpc, fj, [], [p] + g.jpc);
      assert code == all;
      assert [] + ([p] + g.jpc) == [p] + g.jpc;
    }

    static lemma NoneThreaded(code: seq<Instr>, head: int)
      requires Threaded(code, head, [])
      ensures head == NO_JUMP
    {
    }

    static lemma EmptyThreaded(code: seq<Instr>)
      ensures Threaded(code, NO_JUMP, [])
    {
    }

    static lemma SkippedCode(c0: seq<Instr>, c: seq<Instr>, g: Gen, reg: nat)
      requires StandsFor(c0, g) && |c| == |c0| + 3 && c[..|c0|] == c0 && c[|c0|].JMP?
      requires c[|c0| + 1] == LOADBOOL(reg, false, true) && c[|c0| + 2] == LOADBOOL(reg, true, false)
      ensures StandsFor(c, SkipLabels(g, reg)) && forall j :: 0 <= j < |c0| ==> c[j] == c0[j]
    {
      assert forall j :: 0 <= j < |c0| ==> c[j] == c[..|c0|][j];
      SkipStands(c0, c, g, reg);
    }

    /** What is pending once the value of an expression has been put into a register. */
    static ghost predicate ExitsPending(g0: Gen, g: Gen, v: Exp, base: nat) {
      && base <= |g.code| && base <= |g0.code| && Pending(g, ExitLists(v), v.f, base) &&
         g.code[..base] == g0.code[..base]
      && (v.k == VJMP ==>
            Open(g.code, v.info) && JumpList(g.code, v.t, base) && v.info !in v.t && v.info !in v.f && g.jpc == [])
      && (HasJumps(v) && v.k != VJMP ==> forall j :: j in g.jpc ==> j >= base)
    }

    static lemma ExitFacts(g0: Gen, v0: Exp, base: nat, n: nat, reg: nat)
      requires Shaped(g0, v0, base, n)
      ensures base <= |g0.code| && ExitsPending(g0, Discharge2Reg(g0, v0, reg).0, Discharge2Reg(g0, v0, reg).1, base)
    {
      ShapedVars(g0, v0, base, n);
      var (g1, v1) := DischargeVars(g0, v0);
      DischargedFirst2(g0, v0, reg);
      if v1.k == VJMP {
        ComparisonExits(g1.(freereg := n), v1, base, n);
      } else {
        ValueExits(g1.(freereg := n), v1, base, n, reg);
        FreeregApart(g1, v1, reg, n);
      }
    }

    static lemma ComparisonExits(g: Gen, v: Exp, base: nat, n: nat)
      requires Shape(g, v, base, n) && v.k == VJMP
      ensures ExitsPending(g, g, v, base)
    {
      ComparisonUndecided(g, v, base, n, false);
      JumpListLonger(Core(g.code, v), g.code, v.t, base);
    }

    static lemma ValueExits(g0: Gen, v0: Exp, base: nat, n: nat, reg: nat)
      requires Shape(g0, v0, base, n) && Ready(v0)
      ensures ExitsPending(g0, Discharge2Reg(g0, v0, reg).0, Discharge2Reg(g0, v0, reg).1, base)
    {
      Discharge2RegShape(g0, v0, base, n, reg);
      if HasJumps(v0) {
        PendingAfter(g0, v0, base, n, reg);
      }
    }

    static lemma Exp2RegLoaded(g0: Gen, v0: Exp, reg: nat)
      ensures var (g, v) := Discharge2Reg(g0, v0, reg); Exp2Reg(g0, v0, reg) == (Loaded(g, v, reg),
          Exp(VNONRELOC, reg, [], []))
    {
    }

    static lemma DischargedFirst2(g: Gen, v: Exp, reg: nat)
      ensures Discharge2Reg(g, v, reg) == Discharge2Reg(DischargeVars(g, v).0, DischargeVars(g, v).1, reg)
    {
    }

    static lemma FreeregApart(g: Gen, v: Exp, reg: nat, n: nat)
      ensures Discharge2Reg(g.(freereg := n), v, reg) == (Discharge2Reg(g, v, reg).0.(freereg := n),
                                                          Discharge2Reg(g, v, reg).1)
      ensures DischargeVars(g.(freereg := n), v) == (DischargeVars(g, v).0.(freereg := n), DischargeVars(g, v).1)
    {
    }

    /** A comparison's own jump goes to the end of its list of true exits. */
    method JoinComparison(e: ExpDesc, ghost g: Gen, ghost v: Exp, ghost base: nat) returns (t: int)
      requires Represents(g) && Describes(e, v) && e.k == VJMP && JumpList(g.code, v.t, base) && v.info !in v.t &&
               v.info !in v.f
      requires Apart(v.t + [v.info], v.f) && Open(g.code, v.info)
      modifies `code, `failed
      ensures Represents(g) && Threaded(code, t, v.t + [v.info]) && Threaded(code, e.f, v.f) && |code| == |old(code)|
      ensures KeepsLinks(g, old(code), code, base)
    {
      t := Concat(e.t, e.info, v.t, [v.info]);
      RelinkStands(old(code), code, g, v.t, base);
      StandsLength(old(code), g);
      ThreadedKept(old(code), code, jpc, g.jpc);
      ThreadedApart(old(code), code, e.f, v.f, v.t);
    }

    static lemma ThreadedApart(was: seq<Instr>, code: seq<Instr>, head: int, l: seq<nat>, changed: seq<nat>)
      requires Threaded(was, head, l) && |code| == |was| && (forall j :: j in l ==> j !in changed)
      requires forall i :: 0 <= i < |code| ==> code[i] == was[i] || (i in changed && code[i].JMP?)
      ensures Threaded(code, head, l)
    {
      forall j | j in l
        ensures j < |was| && code[j] == was[j]
      {
        var i :| 0 <= i < |l| && l[i] == j;
        assert IsJump(was, l[i]);
      }
      ThreadedKept(was, code, head, l);
    }

    /** The state before the exits are patched, and after. */
    static ghost function Labelled(g: Gen, v: Exp, reg: nat): Gen {
      if v.k == VJMP then EmitLabels(g, reg) else SkipLabels(g, reg)
    }

    static ghost function Loaded(g: Gen, v: Exp, reg: nat): Gen {
      var t := ExitLists(v);
      if t == [] && v.f == [] then g
      else if NeedValue(g.code, t) || NeedValue(g.code, v.f) then
        var g1 := Labelled(g, v, reg);
        g1.(code := ExitCode(g1.code, t, v.f, reg, |g1.code| - 2))
      else g.(code := ExitCode(g.code, t, v.f, reg, 0))
    }

    static lemma LabelledLists(g: Gen, v: Exp, reg: nat, l: seq<nat>, base: nat)
      requires JumpList(g.code, l, base) && ToEnd(g.code, g.jpc)
      ensures var g1 := Labelled(g, v, reg);
              && |g1.code| >= |g.code| + 2 && JumpList(g1.code, l, base) && forall j :: j in l ==> j < |g1.code| - 2
      ensures base <= |g.code| && (forall j :: j in g.jpc ==> j >= base) ==>
              Labelled(g, v, reg).code[..base] == g.code[..base]
    {
      var g1 := Labelled(g, v, reg);
      if v.k == VJMP {
        JumpListLonger(g.code, g1.code, l, base);
      } else {
        OpenApart(g.code, g.jpc, l, base);
        RedirectKeeps(g.code, g.jpc, |g.code| + 3, l, base);
        assert g1.code[..|g.code|] == Redirect(g.code, g.jpc, |g.code| + 3);
        JumpListLonger(Redirect(g.code, g.jpc, |g.code| + 3), g1.code, l, base);
      }
    }

    static lemma NoneNeeded(code: seq<Instr>, t: seq<nat>, f: seq<nat>)
      requires !NeedValue(code, t) && !NeedValue(code, f)
      ensures forall j :: j in t || j in f ==> HasValue(code, j)
    {
      NeedsNone(code, t);
      NeedsNone(code, f);
    }

    /** The second half of `exp2reg`: the exits of the expression load its value too. */
    method LoadExits(t: int, f: int, reg: nat, ghost g: Gen, k: Kind, ghost v: Exp, ghost base: nat)
      requires Represents(g) && Threaded(code, t, ExitLists(v)) && Threaded(code, f, v.f) && k == v.k &&
               base <= |g.code|
      requires Pending(g, ExitLists(v), v.f, base) &&
               (HasJumps(v) && k != VJMP ==> forall j :: j in g.jpc ==> j >= base)
      requires k == VJMP ==> g.jpc == []
      modifies `code, `jpc, `failed
      ensures Represents(Loaded(g, v, reg)) && KeepsLinks(g, old(code), code, base)
    {
      hide StandsFor, Threaded;
      StandsLength(code, g);
      ghost var l := ExitLists(v);
      HeadsDiffer(code, t, f, l, v.f);
      assert Apart(v.f, l);
      if t != f {
        var needs := NeedsEither(t, f, g, l, v.f, base);
        if needs {
          LoadLabelled(t, f, reg, g, k, v, l, base);
        } else {
          NoneNeeded(g.code, l, v.f);
          PatchOut(t, f, reg, 0, g, l, v.f, base);
        }
      }
    }

    method LoadLabelled(t: int, f: int, reg: nat, ghost g: Gen, k: Kind, ghost v: Exp, ghost l: seq<nat>,
                        ghost base: nat)
      requires Represents(g) && Threaded(code, t, l) && Threaded(code, f, v.f) && k == v.k && base <= |g.code|
      requires JumpList(g.code, l, base) && JumpList(g.code, v.f, base) && Apart(l, v.f) && Apart(v.f, l) &&
               ToEnd(g.code, g.jpc)
      requires forall j :: j in g.jpc ==> j >= base
      modifies `code, `jpc, `failed
      ensures var g1 := Labelled(g, v, reg); Represents(g1.(code := ExitCode(g1.code, l, v.f, reg, |g1.code| - 2)))
      ensures KeepsLinks(g, old(code), code, base)
    {
      hide StandsFor, Threaded, JumpList, KeepsLinks, Apart, ToEnd, ExitCode;
      ghost var g1 := Labelled(g, v, reg);
      LabelledLists(g, v, reg, l, base);
      LabelledLists(g, v, reg, v.f, base);
      EmitEither(t, f, reg, g, k, v, l, base);
      ghost var was := code;
      StandsLength(code, g1);
      PatchOut(t, f, reg, |code| - 2, g1, l, v.f, base);
      KeptBelow(g, g1, old(code), was, code, base);
    }

    method EmitEither(t: int, f: int, reg: nat, ghost g: Gen, k: Kind, ghost v: Exp, ghost l: seq<nat>, ghost base: nat)
      requires Represents(g) && Threaded(code, t, l) && Threaded(code, f, v.f) && k == v.k
      requires JumpList(g.code, l, base) && JumpList(g.code, v.f, base)
      modifies `code, `jpc, `failed
      ensures Represents(Labelled(g, v, reg)) && Threaded(code, t, l) && Threaded(code, f, v.f)
      ensures KeepsLinks(g, old(code), code, base)
    {
      if k == VJMP {
        CodeLabels(reg, g);
      } else {
        CodeSkippedLabels(reg, g);
      }
      ThreadedKept(old(code), code, t, l);
      ThreadedKept(old(code), code, f, v.f);
    }

    method NeedsEither(t: int, f: int, ghost g: Gen, ghost l: seq<nat>, ghost lf: seq<nat>, ghost base: nat)
      returns (needs: bool)
      requires Represents(g) && Threaded(code, t, l) && Threaded(code, f, lf)
      requires JumpList(g.code, l, base) && JumpList(g.code, lf, base)
      ensures needs == (NeedValue(g.code, l) || NeedValue(g.code, lf))
    {
      StoredTests(code, g, l, base);
      StoredTests(code, g, lf, base);
      SameNeed(g.code, code, l);
      SameNeed(g.code, code, lf);
      needs := ListNeedsValue(t, l);
      if !needs {
        needs := ListNeedsValue(f, lf);
      }
    }

    /** `exp2reg`. */
    method ExpToReg(e0: ExpDesc, reg: nat, ghost g0: Gen, ghost v0: Exp, ghost base: nat, ghost n: nat)
      returns (e: ExpDesc)
      requires Represents(g0) && Describes(e0, v0) && Shaped(g0, v0, base, n)
      modifies `code, `jpc, `failed
      ensures Represents(Exp2Reg(g0, v0, reg).0) && Describes(e, Exp2Reg(g0, v0, reg).1)
      ensures KeepsLinks(g0, old(code), code, base)
    {
      hide StandsFor, Shaped, Loaded, Discharge2Reg, TooLong, HasValue;
      ghost var (g, v) := Discharge2Reg(g0, v0, reg);
      ExitFacts(g0, v0, base, n, reg);
      Exp2RegLoaded(g0, v0, reg);
      e := DischargeToReg(e0, reg, g0, v0, base, n);
      ghost var was := code;
      var t := e.t;
      if e.k == VJMP {
        t := JoinComparison(e, g, v, base);
      }
      LoadExits(t, e.f, reg, g, e.k, v, base);
      KeptBelow(g0, g, old(code), was, code, base);
      e := ExpDesc(VNONRELOC, reg, NO_JUMP, NO_JUMP);
    }

    static lemma ShapedSame(g: Gen, g': Gen, v: Exp, base: nat, n: nat)
      requires Shaped(g, v, base, n) && g' == g.(freereg := g'.freereg, failed := g'.failed)
      ensures Shaped(g', v, base, n)
    {
    }

    static lemma ShapedNext(g0: Gen, v0: Exp, base: nat, n: nat)
      requires Shaped(g0, v0, base, n)
      ensures var (g, v) := DischargeVars(g0, v0);
              var g1 := Reserve(FreeExp(g, v), 1);
              && Shaped(g1, v, base, n) && g1.freereg > 0 && base <= |g0.code| && base <= |g1.code| &&
                 g1.code[..base] == g0.code[..base]
    {
      hide Shaped, DischargeVars;
      ShapedVars(g0, v0, base, n);
      var (g, v) := DischargeVars(g0, v0);
      ShapedSame(g, Reserve(FreeExp(g, v), 1), v, base, n);
    }

    /** `luaK_exp2nextreg`. */
    method ExpToNextReg(e0: ExpDesc, ghost g0: Gen, ghost v0: Exp, ghost base: nat, ghost n: nat) returns (e: ExpDesc)
      requires Represents(g0) && Describes(e0, v0) && Shaped(g0, v0, base, n)
      modifies `code, `jpc, `failed, `freereg
      ensures Represents(Exp2NextReg(g0, v0).0) && Describes(e, Exp2NextReg(g0, v0).1)
      ensures KeepsLinks(g0, old(code), code, base)
    {
      hide StandsFor, Threaded, Shaped, KeepsLinks, DischargeVars, FreeExp, Reserve;
      ghost var (g, v) := DischargeVars(g0, v0);
      ghost var g1 := FreeExp(g, v);
      ShapedNext(g0, v0, base, n);
      e := DischargeVariable(e0, g0, v0, base, n);
      ghost var was := code;
      FreeExpReg(e, v, g);
      ReserveRegs(1, g1);
      e := ExpToReg(e, freereg - 1, Reserve(g1, 1), v, base, n);
      KeptBelow(g0, Reserve(g1, 1), old(code), was, code, base);
    }

    static ghost predicate InPlace(v: Exp) {
      v.k == VNONRELOC && !HasJumps(v)
    }

    /** `luaK_exp2anyreg`. */
    method ExpToAnyReg(e0: ExpDesc, ghost g0: Gen, ghost v0: Exp, ghost base: nat, ghost n: nat) returns (e: ExpDesc)
      requires Represents(g0) && Describes(e0, v0) && (InPlace(v0) || Shaped(g0, v0, base, n))
      modifies `code, `jpc, `failed, `freereg
      ensures Represents(Exp2AnyReg(g0, v0).0) && Describes(e, Exp2AnyReg(g0, v0).1)
      ensures InPlace(v0) ==>
                code == old(code) && jpc == old(jpc) && freereg == old(freereg) && failed == old(failed) && e == e0
      ensures KeepsLinks(g0, old(code), code, base)
    {
      if e0.k == VNONRELOC && e0.t == NO_JUMP && e0.f == NO_JUMP {
        return e0;
      }
      ghost var (g, v) := DischargeVars(g0, v0);
      ShapedVars(g0, v0, base, n);
      e := DischargeVariable(e0, g0, v0, base, n);
      ListsApart(g, v, base, n);
      HeadsDiffer(code, e.t, e.f, v.t, v.f);
      if e.k == VNONRELOC {
        if e.t == e.f {
          return;
        }
        if e.info >= nactvar {
          assert false;
        }
      }
      ghost var was := code;
      AnyIsNext(g0, v0, base, n);
      e := ExpToNextReg(e, g, v, base, n);
      KeptBelow(g0, g, old(code), was, code, base);
    }

    static lemma ListsApart(g: Gen, v: Exp, base: nat, n: nat)
      requires Shaped(g, v, base, n)
      ensures Apart(v.t, v.f) && (v.k == VNONRELOC ==> v.info < g.nactvar) && base <= |g.code|
    {
    }

    static lemma AnyIsNext(g0: Gen, v0: Exp, base: nat, n: nat)
      requires Shaped(g0, v0, base, n)
      ensures var (g, v) := DischargeVars(g0, v0);
              !InPlace(v) ==> Exp2AnyReg(g0, v0) == Exp2NextReg(g, v)
    {
    }

    /** `luaK_exp2val`, then `luaK_exp2RK`, which has no constants to look for. */
    method ExpToRK(e0: ExpDesc, ghost g0: Gen, ghost v0: Exp, ghost base: nat, ghost n: nat) returns (e: ExpDesc)
      requires Represents(g0) && Describes(e0, v0) && (InPlace(v0) || Shaped(g0, v0, base, n))
      modifies `code, `jpc, `failed, `freereg
      ensures Represents(Exp2RK(g0, v0).0) && Describes(e, Exp2RK(g0, v0).1)
      ensures InPlace(v0) ==>
                code == old(code) && jpc == old(jpc) && freereg == old(freereg) && failed == old(failed) && e == e0
      ensures KeepsLinks(g0, old(code), code, base)
    {
      ghost var (g, v) := Exp2Val(g0, v0);
      e := ExpToVal(e0, g0, v0, base, n);
      ghost var was := code;
      ValFacts(g0, v0, base, n);
      e := ExpToAnyReg(e, g, v, base, n);
      if Shaped(g0, v0, base, n) {
        KeptBelow(g0, g, old(code), was, code, base);
      }
    }

    method ExpToVal(e0: ExpDesc, ghost g0: Gen, ghost v0: Exp, ghost base: nat, ghost n: nat) returns (e: ExpDesc)
      requires Represents(g0) && Describes(e0, v0) && (InPlace(v0) || Shaped(g0, v0, base, n))
      modifies `code, `jpc, `failed, `freereg
      ensures Represents(Exp2Val(g0, v0).0) && Describes(e, Exp2Val(g0, v0).1)
      ensures InPlace(v0) ==>
                code == old(code) && jpc == old(jpc) && freereg == old(freereg) && failed == old(failed) && e == e0
      ensures KeepsLinks(g0, old(code), code, base)
    {
      if Shaped(g0, v0, base, n) {
        ListsApart(g0, v0, base, n);
      }
      HeadsDiffer(code, e0.t, e0.f, v0.t, v0.f);
      if e0.t != e0.f {
        e := ExpToAnyReg(e0, g0, v0, base, n);
      } else if e0.k == VNONRELOC {
        e := e0;
      } else {
        e := DischargeVariable(e0, g0, v0, base, n);
      }
    }

    static lemma ValFacts(g0: Gen, v0: Exp, base: nat, n: nat)
      requires InPlace(v0) || Shaped(g0, v0, base, n)
      ensures var (g, v) := Exp2Val(g0, v0); InPlace(v) || Shaped(g, v, base, n)
      ensures InPlace(v0) ==> Exp2RK(g0, v0) == (g0, v0)
      ensures Shaped(g0, v0, base, n) ==>
                var (g, v) := Exp2Val(g0, v0);
                    base <= |g0.code| && base <= |g.code| && g.code[..base] == g0.code[..base]
    {
      if Shaped(g0, v0, base, n) {
        ShapedVars(g0, v0, base, n);
        if HasJumps(v0) {
          ValueThere(g0, v0, base, n);
        }
      }
    }

    static lemma ValueThere(g0: Gen, v0: Exp, base: nat, n: nat)
      requires Shaped(g0, v0, base, n) && HasJumps(v0)
      ensures var (g, v) := Exp2Val(g0, v0);
                InPlace(v) && base <= |g0.code| && base <= |g.code| && g.code[..base] == g0.code[..base]
    {
      var (g, v) := DischargeVars(g0, v0);
      var g1 := Reserve(FreeExp(g, v), 1);
      ShapedVars(g0, v0, base, n);
      AnyIsNext(g0, v0, base, n);
      Exp2RegShape(g.(freereg := n), v, base, n, FreeExp(g, v).freereg);
      hide Exp2Reg, Shape, Shaped;
      Exp2RegFrame(g.(freereg := n), v, FreeExp(g, v).freereg, g1.freereg, g1.failed);
    }

    // ---------- Conditions ----------

    /** `invertjump`, for the jump of a comparison. */
    method InvertTest(e: ExpDesc, ghost g: Gen, ghost v: Exp, ghost base: nat, ghost n: nat)
      requires Represents(g) && Describes(e, v) && Shaped(g, v, base, n) && e.k == VJMP
      modifies `code
      ensures Represents(g.(code := InvertJump(g.code, v.info))) && Describes(e, v)
      ensures KeepsLinks(g, old(code), code, base) && |code| == |old(code)|
    {
      InvertStands(code, g, e.info);
      StoredAt(code, g, e.info - 1);
      var pc := GetJumpControl(e.info);
      code := code[pc := code[pc].(cond := !code[pc].cond)];
      ThreadedKept(old(code), code, jpc, g.jpc);
      TestsAreNoJumps(old(code), code, g, v, base, n);
      StillDescribes(old(code), e, v, g);
    }

    static lemma TestsAreNoJumps(was: seq<Instr>, code: seq<Instr>, g: Gen, v: Exp, base: nat, n: nat)
      requires StandsFor(was, g) && Shaped(g, v, base, n) && v.k == VJMP && |code| == |was|
      requires forall i :: 0 <= i < |was| && i != v.info - 1 ==> code[i] == was[i]
      ensures forall j: nat :: Open(g.code, j) ==> j < |code| && j < |was| && code[j] == was[j]
      ensures forall j :: j in v.t || j in v.f ==> Open(g.code, j)
      ensures Open(g.code, v.info)
    {
      ListsOpen(g, v, base, n);
    }

    static lemma ListsOpen(g: Gen, v: Exp, base: nat, n: nat)
      requires Shaped(g, v, base, n)
      ensures forall j :: j in v.t || j in v.f ==> Open(g.code, j) && base < j && j < |Core(g.code, v)|
      ensures v.k == VJMP ==> Open(g.code, v.info)
    {
    }

    /** `jumponcond`. */
    method CodeCondition(e0: ExpDesc, cond: bool, ghost g: Gen, ghost v: Exp, ghost base: nat, ghost n: nat)
      returns (pc: nat)
      requires Represents(g) && Describes(e0, v) && Shaped(g, v, base, n) && Ready(v)
      modifies `code, `jpc, `failed, `freereg
      ensures Represents(JumpOnCond(g, v, cond).0) && pc == JumpOnCond(g, v, cond).1
      ensures Threaded(code, e0.t, v.t) && Threaded(code, e0.f, v.f) && Threaded(code, pc, [pc])
      ensures KeepsLinks(g, old(code), code, base)
    {
      ListsOpen(g, v, base, n);
      if e0.k == VRELOCABLE {
        StoredAt(code, g, e0.info);
        var ie := code[e0.info];
        if ie.NOT? {
          pc := TakeBackNot(e0, cond, g, v, base, n);
          return;
        }
      }
      pc := CodeTestSet(e0, cond, g, v, base, n);
    }

    method TakeBackNot(e0: ExpDesc, cond: bool, ghost g: Gen, ghost v: Exp, ghost base: nat, ghost n: nat)
      returns (pc: nat)
      requires Represents(g) && Describes(e0, v) && Shaped(g, v, base, n) && EndsInNot(g, v) &&
               code[v.info] == g.code[v.info]
      modifies `code, `jpc, `failed, `freereg
      ensures Represents(JumpOnCond(g, v, cond).0) && pc == JumpOnCond(g, v, cond).1
      ensures Threaded(code, e0.t, v.t) && Threaded(code, e0.f, v.f) && Threaded(code, pc, [pc])
      ensures KeepsLinks(g, old(code), code, base)
    {
      var ie := code[e0.info];
      ghost var g1 := DropNot(e0, g, v, base, n);
      ghost var was := code;
      ListsOpen(g, v, base, n);
      hide StandsFor, Threaded, Shaped;
      StandsLength(was, g1);
      pc := CodeTest(TEST(ie.B, !cond), g1);
      SameCode(CondJump(g1, TEST(ie.B, !cond)).0, JumpOnCond(g, v, cond).0);
      StandsLength(code, JumpOnCond(g, v, cond).0);
      ThreadedKept(was, code, e0.t, v.t);
      ThreadedKept(was, code, e0.f, v.f);
    }

    /** `fs->pc--`. */
    method DropNot(e0: ExpDesc, ghost g: Gen, ghost v: Exp, ghost base: nat, ghost n: nat) returns (ghost g1: Gen)
      requires Represents(g) && Describes(e0, v) && Shaped(g, v, base, n) && EndsInNot(g, v)
      modifies `code
      ensures g1 == g.(code := g.code[..|g.code| - 1], failed := failed) && Represents(g1)
      ensures Threaded(code, e0.t, v.t) && Threaded(code, e0.f, v.f)
      ensures forall j: nat :: Open(g.code, j) ==>
                j < |code| && j < |old(code)| && code[j] == old(code)[j] && Open(g1.code, j)
    {
      ListsOpen(g, v, base, n);
      hide StandsFor, Shaped, Threaded;
      g1 := g.(code := g.code[..|g.code| - 1], failed := failed);
      DropStands(code, g);
      code := code[..|code| - 1];
      SameCode(g1.(failed := g.failed), g1);
      assert forall j: nat :: Open(g.code, j) ==> j < |code|;
      ThreadedKept(old(code), code, e0.t, v.t);
      ThreadedKept(old(code), code, e0.f, v.f);
      ThreadedKept(old(code), code, jpc, g.jpc);
    }

    method CodeTestSet(e0: ExpDesc, cond: bool, ghost g: Gen, ghost v: Exp, ghost base: nat, ghost n: nat)
      returns (pc: nat)
      requires Represents(g) && Describes(e0, v) && Shaped(g, v, base, n) && Ready(v) && !EndsInNot(g, v)
      modifies `code, `jpc, `failed, `freereg
      ensures Represents(JumpOnCond(g, v, cond).0) && pc == JumpOnCond(g, v, cond).1
      ensures Threaded(code, e0.t, v.t) && Threaded(code, e0.f, v.f) && Threaded(code, pc, [pc])
      ensures KeepsLinks(g, old(code), code, base)
    {
      ghost var (g1, v1) := Discharge2AnyReg(g, v);
      AnyRegLists(g, v, base, n);
      hide StandsFor, Threaded, Shaped;
      var e := DischargeToAnyReg(e0, g, v, base, n);
      ghost var was := code;
      FreeExpReg(e, v1, g1);
      pc := CodeTest(TESTSET(NO_REG, e.info, cond), FreeExp(g1, v1));
      ThreadedKept(was, code, e.t, v.t);
      ThreadedKept(was, code, e.f, v.f);
      SameHeads(was, code, e0, e, v);
      KeptOpen(g, g1, old(code), was, code, base);
    }

    static lemma SameHeads(was: seq<Instr>, code: seq<Instr>, e0: ExpDesc, e: ExpDesc, v: Exp)
      requires Threaded(code, e.t, v.t) && Threaded(code, e.f, v.f) && e0.t == Head(v.t) && e0.f == Head(v.f)
      ensures Threaded(code, e0.t, v.t) && Threaded(code, e0.f, v.f)
    {
    }

    static lemma KeptOpen(g: Gen, g1: Gen, c: seq<Instr>, c1: seq<Instr>, c2: seq<Instr>, base: nat)
      requires KeepsLinks(g, c, c1, base) && base <= |g.code| && base <= |g1.code| && g1.code[..base] == g.code[..base]
      requires forall j: nat :: Open(g1.code, j) ==> j < |c2| && j < |c1| && c2[j] == c1[j]
      ensures KeepsLinks(g, c, c2, base)
    {
      KeptBelow(g, g1, c, c1, c2, base);
    }

    static lemma AnyRegLists(g: Gen, v: Exp, base: nat, n: nat)
      requires Shaped(g, v, base, n) && Ready(v)
      ensures var (g1, v1) := Discharge2AnyReg(g, v);
              && (v1.t, v1.f) == (v.t, v.f) && base <= |g.code| && base <= |g1.code| &&
                 g1.code[..base] == g.code[..base]
              && JumpList(g1.code, v.t, base) && JumpList(g1.code, v.f, base)
              && (forall j :: j in v.t || j in v.f ==> Open(g1.code, j))
    {
      if v.k != VNONRELOC {
        Discharge2RegShape(g.(freereg := n), v, base, n, g.freereg);
        FreeregApart(g, v, g.freereg, n);
        ReservedApart(g, v, g.freereg);
      }
    }

    static lemma ReservedApart(g: Gen, v: Exp, reg: nat)
      ensures Discharge2Reg(Reserve(g, 1), v, reg).0.code == Discharge2Reg(g, v, reg).0.code
      ensures Discharge2Reg(Reserve(g, 1), v, reg).1 == Discharge2Reg(g, v, reg).1
    {
    }

    /** The jump of `luaK_goiftrue` (`cond` is false) or `luaK_goiffalse`. */
    method Decide(e: ExpDesc, cond: bool, ghost g: Gen, ghost v: Exp, ghost base: nat, ghost n: nat) returns (pc: nat)
      requires Represents(g) && Describes(e, v) && Shape(g, v, base, n) && Discharged(v)
      modifies `code, `jpc, `failed, `freereg
      ensures Represents(Decided(g, v, cond).0) && pc == Decided(g, v, cond).1
      ensures Threaded(code, e.t, v.t) && Threaded(code, e.f, v.f) && Threaded(code, pc, [pc])
      ensures KeepsLinks(g, old(code), code, base)
    {
      assert g.(freereg := n) == g;
      if e.k == VJMP {
        pc := e.info;
        if !cond {
          InvertTest(e, g, v, base, n);
        }
      } else {
        pc := CodeCondition(e, cond, g, v, base, n);
      }
    }

    static ghost function Decided(g: Gen, v: Exp, cond: bool): (Gen, nat) {
      if v.k == VJMP then (if cond then g else g.(code := InvertJump(g.code, v.info)), v.info)
         else JumpOnCond(g, v, cond)
    }

    /** What is on the lists when the jump has been coded. */
    static ghost predicate TwoLists(g: Gen, g1: Gen, t: seq<nat>, f: seq<nat>, pc: nat, base: nat) {
      && base <= |g.code| && base <= |g1.code| && g1.code[..base] == g.code[..base]
      && JumpList(g1.code, t, base) && JumpList(g1.code, f, base) && Apart(t, f) && Apart(f, t)
      && pc !in t && pc !in f && Open(g1.code, pc) && g1.jpc == []
    }

    static lemma DecidedLists(g: Gen, v: Exp, cond: bool, base: nat, n: nat)
      requires Shape(g, v, base, n) && Discharged(v)
      ensures TwoLists(g, Decided(g, v, cond).0, v.t, v.f, Decided(g, v, cond).1, base)
      ensures Undecided(g, Decided(g, v, cond).0, if cond then v.t + [Decided(g, v, cond).1] else v.t,
                        if cond then v.f else v.f + [Decided(g, v, cond).1], base, n)
    {
      if v.k == VJMP {
        ComparisonUndecided(g, v, base, n, !cond);
      } else {
        JumpOnCondUndecided(g, v, base, n, cond);
      }
      if cond {
        ListPart(Decided(g, v, cond).0.code, v.t, v.f, Decided(g, v, cond).1, base);
      } else {
        ListPart(Decided(g, v, cond).0.code, v.f, v.t, Decided(g, v, cond).1, base);
      }
    }

    static lemma ListPart(code: seq<Instr>, l: seq<nat>, other: seq<nat>, pc: nat, base: nat)
      requires JumpList(code, l + [pc], base) && (Apart(l + [pc], other) || Apart(other, l + [pc]))
      ensures JumpList(code, l, base) && Apart(l, other) && Apart(other, l) && pc !in l && pc !in other &&
              Open(code, pc)
    {
      assert pc in l + [pc];
      assert forall i :: 0 <= i < |l| ==> (l + [pc])[i] == l[i];
      assert (l + [pc])[|l|] == pc;
      assert forall j :: j in l ==> j in l + [pc];
    }

    /** `luaK_goiftrue` and `luaK_goiffalse`: the new jump joins the list of its kind, the other list
        goes to here. */
    method GoIf(e0: ExpDesc, cond: bool, ghost g0: Gen, ghost v0: Exp, ghost base: nat, ghost n: nat)
      returns (list: int)
      requires Represents(g0) && Describes(e0, v0) && Shape(g0, v0, base, n)
      modifies `code, `jpc, `failed, `freereg
      ensures Represents((if cond then GoIfFalse(g0, v0) else GoIfTrue(g0, v0)).0)
      ensures Threaded(code, list, if cond then GoIfFalse(g0, v0).1.t else GoIfTrue(g0, v0).1.f)
      ensures KeepsLinks(g0, old(code), code, base)
    {
      ghost var (g, v) := DischargeVars(g0, v0);
      DischargeVarsShape(g0, v0, base, n);
      assert g0.(freereg := n) == g0;
      GoIfForm(g0, v0, cond, base, n);
      DecidedLists(g, v, cond, base, n);
      CoreBelow(g0, v0, base, n);
      hide StandsFor, Shape;
      var e := DischargeVariable(e0, g0, v0, base, n);
      ghost var was := code;
      var pc := Decide(e, cond, g, v, base, n);
      KeptBelow(g0, g, old(code), was, code, base);
      list := FinishGoIf(e, cond, pc, g0, g, v, old(code), base);
    }

    static lemma CoreBelow(g: Gen, v: Exp, base: nat, n: nat)
      requires Shape(g, v, base, n)
      ensures base <= |g.code| && DischargeVars(g, v).0.code[..base] == g.code[..base]
    {
    }

    static lemma GoIfForm(g0: Gen, v0: Exp, cond: bool, base: nat, n: nat)
      requires Shape(g0, v0, base, n)
      ensures var (g, v) := DischargeVars(g0, v0);
              var (g1, pc) := Decided(g, v, cond);
              && (if cond then GoIfFalse(g0, v0) else GoIfTrue(g0, v0)).0 == PatchToHere(g1, if cond then v.f else v.t)
              && (cond ==> GoIfFalse(g0, v0).1.t == v.t + [pc]) && (!cond ==> GoIfTrue(g0, v0).1.f == v.f + [pc])
    {
    }

    method FinishGoIf(e: ExpDesc, cond: bool, pc: nat, ghost g0: Gen, ghost g: Gen, ghost v: Exp, ghost was: seq<Instr>,
                      ghost base: nat)
      returns (list: int)
      requires var (g1, pc1) := Decided(g, v, cond);
               && pc == pc1 && Represents(g1) && TwoLists(g, g1, v.t, v.f, pc, base)
      requires Threaded(code, e.t, v.t) && Threaded(code, e.f, v.f) && Threaded(code, pc, [pc])
      requires KeepsLinks(g0, was, code, base) && base <= |g0.code| && base <= |g.code| &&
               g.code[..base] == g0.code[..base]
      modifies `code, `jpc, `failed
      ensures Represents(PatchToHere(Decided(g, v, cond).0, if cond then v.f else v.t))
      ensures Threaded(code, list, (if cond then v.t else v.f) + [pc])
      ensures KeepsLinks(g0, was, code, base)
    {
      ghost var g1 := Decided(g, v, cond).0;
      ghost var l, other := if cond then v.t else v.f, if cond then v.f else v.t;
      ghost var c := code;
      list := Concat(if cond then e.t else e.f, pc, l, [pc]);
      RelinkStands(c, code, g1, l, base);
      ThreadedKept(c, code, jpc, g1.jpc);
      ThreadedApart(c, code, if cond then e.f else e.t, other, l);
      KeptBelow(g0, g1, was, c, code, base);
      ghost var c2 := code;
      PatchListToHere(if cond then e.f else e.t, other, g1, base);
      ThreadedKept(c2, code, list, l + [pc]);
      KeptOpen(g0, g1, was, c2, code, base);
    }

    // ---------- not ----------

    /** The state of `codenot` before `removevalues`. */
    static ghost function Inverted(g: Gen, v: Exp): (Gen, Exp) {
      if v.k == VJMP then (g.(code := InvertJump(g.code, v.info)), v)
      else
        var (g2, v2) := Discharge2AnyReg(g, v);
        var g3 := FreeExp(g2, v2);
        (Emit(g3, NOT(0, v2.info)), v2.(k := VRELOCABLE, info := |g3.code|))
    }

    /** `codenot` up to the interchange of the lists. */
    method Invert(e0: ExpDesc, ghost g: Gen, ghost v: Exp, ghost base: nat, ghost n: nat) returns (e: ExpDesc)
      requires Represents(g) && Describes(e0, v) && Shape(g, v, base, n) && Discharged(v)
      modifies `code, `jpc, `failed, `freereg
      ensures Represents(Inverted(g, v).0) && Describes(e, Inverted(g, v).1)
      ensures KeepsLinks(g, old(code), code, base)
    {
      assert g.(freereg := n) == g;
      if e0.k == VJMP {
        InvertTest(e0, g, v, base, n);
        e := e0;
      } else {
        e := InvertValue(e0, g, v, base, n);
      }
    }

    method InvertValue(e0: ExpDesc, ghost g: Gen, ghost v: Exp, ghost base: nat, ghost n: nat) returns (e: ExpDesc)
      requires Represents(g) && Describes(e0, v) && Shaped(g, v, base, n) && Ready(v)
      modifies `code, `jpc, `failed, `freereg
      ensures Represents(Inverted(g, v).0) && Describes(e, Inverted(g, v).1)
      ensures KeepsLinks(g, old(code), code, base)
    {
      ghost var (g2, v2) := Discharge2AnyReg(g, v);
      AnyRegLists(g, v, base, n);
      hide StandsFor, Shaped;
      e := DischargeToAnyReg(e0, g, v, base, n);
      ghost var was := code;
      FreeExpReg(e, v2, g2);
      StandsLength(code, FreeExp(g2, v2));
      var reg := e.info;
      e := e.(k := VRELOCABLE, info := |code|);
      Code(NOT(0, reg), FreeExp(g2, v2));
      StillDescribes(was, e, Inverted(g, v).1, g2);
      KeptOpen(g, g2, old(code), was, code, base);
    }

    static lemma InvertedLists(g: Gen, v: Exp, base: nat, n: nat)
      requires Shape(g, v, base, n) && Discharged(v)
      ensures var (g1, v1) := Inverted(g, v);
              && (v1.t, v1.f) == (v.t, v.f) && base <= |g.code| && base <= |g1.code| &&
                 g1.code[..base] == g.code[..base]
              && JumpList(g1.code, v.t, base) && JumpList(g1.code, v.f, base) && g1.jpc == []
              && (v1.k == VJMP ==> Open(g1.code, v1.info))
    {
      if v.k == VJMP {
        DecidedLists(g, v, false, base, n);
      } else {
        assert g.(freereg := n) == g;
        AnyRegLists(g, v, base, n);
        var (g2, v2) := Discharge2AnyReg(g, v);
        JumpListLonger(g2.code, Inverted(g, v).0.code, v.t, base);
        JumpListLonger(g2.code, Inverted(g, v).0.code, v.f, base);
      }
    }

    static lemma NotForm(g0: Gen, v0: Exp)
      ensures var (g, v) := DischargeVars(g0, v0);
              var (g1, v1) := Inverted(g, v);
              CodeNot(g0, v0) == (g1.(code := RemoveValues(RemoveValues(g1.code, v1.t), v1.f)),
                                  v1.(t := v1.f, f := v1.t))
    {
    }

    /** `codenot`. */
    method CodeNegation(e0: ExpDesc, ghost g0: Gen, ghost v0: Exp, ghost base: nat, ghost n: nat) returns (e: ExpDesc)
      requires Represents(g0) && Describes(e0, v0) && Shape(g0, v0, base, n)
      modifies `code, `jpc, `failed, `freereg
      ensures Represents(CodeNot(g0, v0).0) && Describes(e, CodeNot(g0, v0).1)
      ensures KeepsLinks(g0, old(code), code, base)
    {
      ghost var (g, v) := DischargeVars(g0, v0);
      ghost var (g1, v1) := Inverted(g, v);
      DischargeVarsShape(g0, v0, base, n);
      assert g0.(freereg := n) == g0;
      NotForm(g0, v0);
      CoreBelow(g0, v0, base, n);
      InvertedLists(g, v, base, n);
      hide StandsFor, Shape, Inverted, CodeNot;
      e := DischargeVariable(e0, g0, v0, base, n);
      ghost var was := code;
      e := Invert(e, g, v, base, n);
      KeptBelow(g0, g, old(code), was, code, base);
      ghost var c := code;
      RemoveBoth(e, g1, v1, base);
      KeptOpen(g0, g1, old(code), c, code, base);
      e := e.(t := e.f, f := e.t);
    }

    /** `removevalues` on both lists. */
    method RemoveBoth(e: ExpDesc, ghost g: Gen, ghost v: Exp, ghost base: nat)
      requires Represents(g) && Describes(e, v) && JumpList(g.code, v.t, base) && JumpList(g.code, v.f, base) &&
               g.jpc == []
      requires v.k == VJMP ==> Open(g.code, v.info)
      modifies `code
      ensures Represents(g.(code := RemoveValues(RemoveValues(g.code, v.t), v.f))) && Describes(e, v)
      ensures forall j: nat :: Open(g.code, j) ==> j < |code| && j < |old(code)| && code[j] == old(code)[j]
    {
      hide StandsFor, RemoveValues, Threaded;
      StandsLength(code, g);
      NoneThreaded(code, jpc);
      RemoveStands(code, g, v.t, base);
      ghost var g1 := g.(code := RemoveValues(g.code, v.t));
      RemoveListValues(e.t, v.t);
      StillDescribes(old(code), e, v, g);
      ghost var was := code;
      RemovedList(g.code, v.t, v.f, base);
      RemoveStands(code, g1, v.f, base);
      RemoveListValues(e.f, v.f);
      StillDescribes(was, e, v, g1);
      EmptyThreaded(code);
    }

    static lemma RemovedList(code: seq<Instr>, l: seq<nat>, other: seq<nat>, base: nat)
      requires JumpList(code, l, base) && JumpList(code, other, base)
      ensures JumpList(RemoveValues(code, l), other, base)
    {
    }

    // ---------- Comparisons ----------

    /** `codecomp`. */
    method CodeComparison(op: Comparison, negated: bool, a0: ExpDesc, b0: ExpDesc, ghost g: Gen, ghost v: Exp,
                          ghost w: Exp,
                          ghost base: nat, ghost n: nat) returns (e: ExpDesc)
      requires Represents(g) && Describes(a0, v) && InPlace(v) && Describes(b0, w) && Shape(g, w, base, n)
      modifies `code, `jpc, `failed, `freereg
      ensures Represents(CodeComp(g, op, negated, v, w).0) && Describes(e, CodeComp(g, op, negated, v, w).1)
      ensures KeepsLinks(g, old(code), code, base)
    {
      CompForm(g, op, negated, v, w, base, n);
      ghost var (g2, b1) := Exp2RK(g, w);
      hide StandsFor, Shape, Shaped, Exp2RK, Threaded, KeepsLinks, CodeComp;
      var a := ExpToRK(a0, g, v, |g.code|, n);
      ghost var c0 := code;
      var b := ExpToRK(b0, g, w, base, n);
      ghost var was := code;
      assert c0 == old(code);
      e := EmitComparison(op, negated, a, b, g2, v, b1);
      KeptOpen(g, g2, old(code), was, code, base);
    }

    static lemma CompForm(g: Gen, op: Comparison, negated: bool, v: Exp, w: Exp, base: nat, n: nat)
      requires InPlace(v) && Shape(g, w, base, n)
      ensures Shaped(g, w, base, n) && Exp2RK(g, v) == (g, v)
      ensures var (g2, b) := Exp2RK(g, w);
              var i := if negated && op != EQ then COMP(op, true, b.info, v.info)
                  else COMP(op, !negated, v.info, b.info);
              var (g3, j) := CondJump(FreeExp(FreeExp(g2, b), v), i);
              && CodeComp(g, op, negated, v, w) == (g3, Exp(VJMP, j, v.t, v.f))
              && base <= |g.code| && base <= |g2.code| && g2.code[..base] == g.code[..base]
    {
      assert g.(freereg := n) == g;
      Exp2RKOperand(g, w, base, n);
    }

    method EmitComparison(op: Comparison, negated: bool, a: ExpDesc, b: ExpDesc, ghost g: Gen, ghost v: Exp,
                          ghost w: Exp)
      returns (e: ExpDesc)
      requires Represents(g) && Describes(a, v) && Describes(b, w) && v.t == v.f == []
      modifies `code, `jpc, `failed, `freereg
      ensures var i := if negated && op != EQ then COMP(op, true, w.info, v.info)
              else COMP(op, !negated, v.info, w.info);
              var (g1, j) := CondJump(FreeExp(FreeExp(g, w), v), i);
              Represents(g1) && Describes(e, Exp(VJMP, j, v.t, v.f))
      ensures forall j: nat :: Open(g.code, j) ==> j < |code| && j < |old(code)| && code[j] == old(code)[j]
    {
      FreeExpReg(b, w, g);
      FreeExpReg(a, v, FreeExp(g, w));
      var i := if negated && op != EQ then COMP(op, true, b.info, a.info) else COMP(op, !negated, a.info, b.info);
      var j := CodeTest(i, FreeExp(FreeExp(g, w), v));
      e := ExpDesc(VJMP, j, NO_JUMP, NO_JUMP);
    }

    // ---------- Expressions ----------

    /** Nothing was wrong before, and neither the registers nor the code come near their limits. */
    predicate Roomy(x: Expr, more: nat)
      reads this
    {
      !failed && freereg + Registers(x) < 250 && |code| + Size(x) + more <= 131071
    }

    /** What the bounds are for: the generator on values has not failed, and its code is short enough. */
    static ghost predicate Fine(g: Gen) {
      !g.failed && |g.code| <= 131071
    }

    lemma NoError(g: Gen)
      requires Represents(g) && Fine(g)
      ensures !failed
    {
    }

    lemma RoomFor(x: Expr, more: nat, g: Gen)
      requires Represents(g) && Start(g) && InScope(x, g.nactvar) && Roomy(x, more)
      ensures Fine(Compile(g, x).0) && Fine(Exp2NextReg(Compile(g, x).0, Compile(g, x).1).0)
      ensures var g2 := GoIfTrue(Compile(g, x).0, Compile(g, x).1).0; Fine(g2) && |g2.code| + more <= 131071
    {
      StandsLength(code, g);
      hide Compile, Exp2NextReg, GoIfTrue, StandsFor, Start;
      CompileFits(g, x);
      NextRegFits(g, x);
      ConditionFits(g, x);
    }

    /** Compiles an expression as `subexpr` does. */
    method Expression(x: Expr, ghost g: Gen) returns (e: ExpDesc)
      requires Represents(g) && Start(g) && InScope(x, g.nactvar)
      modifies `code, `jpc, `failed, `freereg
      ensures Represents(Compile(g, x).0) && Describes(e, Compile(g, x).1)
      ensures KeepsLinks(g, old(code), code, |g.code|)
      ensures old(Roomy(x, 0)) ==> !failed
      decreases x, 2
    {
      hide Compile, StandsFor, Threaded, KeepsLinks, Start, InScope, Registers, Size;
      ghost var roomy := Roomy(x, 0);
      if roomy {
        RoomFor(x, 0, g);
      }
      e := Cases(x, g);
      if roomy {
        NoError(Compile(g, x).0);
      }
    }

    method Cases(x: Expr, ghost g: Gen) returns (e: ExpDesc)
      requires Represents(g) && Start(g) && InScope(x, g.nactvar)
      modifies `code, `jpc, `failed, `freereg
      ensures Represents(Compile(g, x).0) && Describes(e, Compile(g, x).1)
      ensures KeepsLinks(g, old(code), code, |g.code|)
      decreases x, 1
    {
      match x
      case Local(r) => e := ExpDesc(VLOCAL, r, NO_JUMP, NO_JUMP);
      case Global(r) => e := ExpDesc(VGLOBAL, r, NO_JUMP, NO_JUMP);
      case Paren(a) =>
        ghost var (g1, v) := Compile(g, a);
        CompileShape(g, a);
        OwnShape(g, g1, v);
        e := Expression(a, g);
        ghost var was := code;
        e := DischargeVariable(e, g1, v, |g.code|, g.freereg);
        KeptBelow(g, g1, old(code), was, code, |g.code|);
      case Not(a) =>
        ghost var (g1, v) := Compile(g, a);
        CompileShape(g, a);
        OwnShape(g, g1, v);
        e := Expression(a, g);
        ghost var was := code;
        e := CodeNegation(e, g1, v, |g.code|, g.freereg);
        KeptBelow(g, g1, old(code), was, code, |g.code|);
      case And(a, b) => e := JunctionExp(a, b, true, g);
      case Or(a, b) => e := JunctionExp(a, b, false, g);
      case Cmp(op, negated, a, b) => e := ComparisonExp(op, negated, a, b, g);
    }

    static lemma OwnShape(g: Gen, g1: Gen, v: Exp)
      requires Shape(g1, v, |g.code|, g.freereg) && Grows(g, g1, |g.code|)
      ensures Shaped(g1, v, |g.code|, g.freereg) && |g.code| <= |g1.code| && g1.code[..|g.code|] == g.code
    {
      assert g1.(freereg := g.freereg) == g1;
    }

    /** `and` (`when` is true) and `or`. */
    method JunctionExp(a: Expr, b: Expr, when: bool, ghost g: Gen) returns (e: ExpDesc)
      requires Represents(g) && Start(g) && InScope(a, g.nactvar) && InScope(b, g.nactvar)
      modifies `code, `jpc, `failed, `freereg
      ensures var x := Junction(a, b, when); Represents(Compile(g, x).0) && Describes(e, Compile(g, x).1)
      ensures KeepsLinks(g, old(code), code, |g.code|)
      decreases Junction(a, b, when), 0
    {
      ghost var (g1, v) := Compile(g, a);
      ghost var g2, l := First(g, a, when).0, FirstList(g, a, when);
      ghost var (g3, w) := Compile(g2, b);
      CompileShape(g, a);
      OwnShape(g, g1, v);
      FirstShape(g, a, when);
      FirstGrows(g, g2, l);
      CompileShape(g2, b);
      OwnShape(g2, g3, w);
      JunctionForm(g, a, b, when);
      hide StandsFor, Shape, Shaped, Grows, Guard, Compile, Threaded, JumpList;
      e := Expression(a, g);
      ghost var c1 := code;
      var list := GoIf(e, !when, g1, v, |g.code|, g.freereg);
      KeptBelow(g, g1, old(code), c1, code, |g.code|);
      e := SecondOperand(b, when, list, old(code), g, g2, l, g3, w);
    }

    static lemma FirstGrows(g: Gen, g2: Gen, l: seq<nat>)
      requires Guard(g, g2, l, |g.code|, g.freereg)
      ensures |g.code| <= |g2.code| && g2.code[..|g.code|] == g.code && JumpList(g2.code, l, |g.code|)
    {
    }

    method SecondOperand(b: Expr, when: bool, list: int, ghost was: seq<Instr>, ghost g: Gen, ghost g2: Gen,
                         ghost l: seq<nat>,
                         ghost g3: Gen, ghost w: Exp) returns (e: ExpDesc)
      requires Represents(g2) && Start(g2) && InScope(b, g2.nactvar) && (g3, w) == Compile(g2, b)
      requires Threaded(code, list, l) && JumpList(g2.code, l, |g.code|)
      requires Shaped(g3, w, |g2.code|, g2.freereg) && |g2.code| <= |g3.code| && g3.code[..|g2.code|] == g2.code
      requires KeepsLinks(g, was, code, |g.code|) && |g.code| <= |g2.code| && g2.code[..|g.code|] == g.code
      modifies `code, `jpc, `failed, `freereg
      ensures Represents(DischargeVars(g3, w).0) && Describes(e, Joined(l, DischargeVars(g3, w).1, when))
      ensures KeepsLinks(g, was, code, |g.code|)
      decreases b, 3
    {
      hide StandsFor, Compile, JumpList, Threaded, KeepsLinks, Joined;
      ghost var (g4, w1) := DischargeVars(g3, w);
      ghost var c1 := code;
      ShapedVars(g3, w, |g2.code|, g2.freereg);
      hide Shaped;
      e := Expression(b, g2);
      ghost var c2 := code;
      e := DischargeVariable(e, g3, w, |g2.code|, g2.freereg);
      KeptBelow(g2, g3, c1, c2, code, |g2.code|);
      ghost var c3 := code;
      JoinFacts(g, g2, l, g4, w1, c1, c3, list);
      JoinKept(g, g2, g4, was, c1, c3);
      hide JumpList, KeepsLinks, Threaded;
      e := JoinLists(e, when, list, g4, w1, l, |g.code|);
      KeptBelow(g, g4, was, c3, code, |g.code|);
    }

    static lemma JoinFacts(g: Gen, g2: Gen, l: seq<nat>, g4: Gen, w: Exp, c1: seq<Instr>, c3: seq<Instr>, list: int)
      requires Threaded(c1, list, l) && JumpList(g2.code, l, |g.code|) && KeepsLinks(g2, c1, c3, |g2.code|)
      requires Shaped(g4, w, |g2.code|, g2.freereg) && |g2.code| <= |g4.code| && g4.code[..|g2.code|] == g2.code
      ensures Threaded(c3, list, l) && JumpList(g4.code, l, |g.code|)
      ensures forall j :: j in l ==> j !in w.t && j !in w.f && (w.k == VJMP ==> j != w.info)
      ensures Discharged(w) || w.k == VLOCAL || w.k == VGLOBAL
    {
      assert forall j :: j in l ==> j < |g2.code| && Open(g2.code, j);
      ThreadedKept(c1, c3, list, l);
      JumpListLonger(g2.code, g4.code, l, |g.code|);
      ListsOpen(g4, w, |g2.code|, g2.freereg);
    }

    static lemma JoinKept(g: Gen, g2: Gen, g4: Gen, was: seq<Instr>, c1: seq<Instr>, c3: seq<Instr>)
      requires KeepsLinks(g, was, c1, |g.code|) && KeepsLinks(g2, c1, c3, |g2.code|)
      requires |g.code| <= |g2.code| <= |g4.code| && g2.code[..|g.code|] == g.code && g4.code[..|g2.code|] == g2.code
      ensures KeepsLinks(g, was, c3, |g.code|) && g4.code[..|g.code|] == g.code
    {
      assert KeepsLinks(g2, c1, c3, |g.code|);
      KeptBelow(g, g2, was, c1, c3, |g.code|);
      assert g4.code[..|g.code|] == g4.code[..|g2.code|][..|g.code|];
    }

    /** The exits of the first operand join those of the second (`luaK_posfix`). */
    method JoinLists(e0: ExpDesc, when: bool, list: int, ghost g: Gen, ghost w: Exp, ghost l: seq<nat>,
                     ghost base: nat) returns (e: ExpDesc)
      requires Represents(g) && Describes(e0, w) && Threaded(code, list, l) && JumpList(g.code, l, base)
      requires forall j :: j in l ==> j !in w.t && j !in w.f && (w.k == VJMP ==> j != w.info)
      modifies `code, `failed
      ensures Represents(g) && Describes(e, Joined(l, w, when)) && KeepsLinks(g, old(code), code, base)
    {
      if when {
        var f := Concat(list, e0.f, l, w.f);
        e := e0.(f := f);
      } else {
        var t := Concat(list, e0.t, l, w.t);
        e := e0.(t := t);
      }
      RelinkStands(old(code), code, g, l, base);
      ThreadedKept(old(code), code, jpc, g.jpc);
      ThreadedApart(old(code), code, e0.t, w.t, l);
      ThreadedApart(old(code), code, e0.f, w.f, l);
      if e0.k == VJMP {
        ThreadedApart(old(code), code, e0.info, [w.info], l);
      }
    }

    method ComparisonExp(op: Comparison, negated: bool, a: Expr, b: Expr, ghost g: Gen) returns (e: ExpDesc)
      requires Represents(g) && Start(g) && InScope(a, g.nactvar) && InScope(b, g.nactvar)
      modifies `code, `jpc, `failed, `freereg
      ensures var x := Cmp(op, negated, a, b); Represents(Compile(g, x).0) && Describes(e, Compile(g, x).1)
      ensures KeepsLinks(g, old(code), code, |g.code|)
      decreases Cmp(op, negated, a, b), 0
    {
      hide StandsFor, Shape, Shaped, Exp2RK, CodeComp, KeepsLinks, Compile, Threaded, ToEnd;
      ghost var (g1, v) := Compile(g, a);
      ghost var (g2, v1) := Exp2RK(g1, v);
      CmpFacts(g, a, b);
      CmpForm(g, op, negated, a, b);
      var x := Expression(a, g);
      ghost var c1 := code;
      x := ExpToRK(x, g1, v, |g.code|, g.freereg);
      KeptBelow(g, g1, old(code), c1, code, |g.code|);
      e := SecondAndCompare(op, negated, x, b, g, g2, v1, old(code));
    }

    static lemma CmpForm(g: Gen, op: Comparison, negated: bool, a: Expr, b: Expr)
      ensures var (g1, v) := Compile(g, a);
              var (g2, v1) := Exp2RK(g1, v);
              Compile(g, Cmp(op, negated, a, b)) == CodeComp(Compile(g2, b).0, op, negated, v1, Compile(g2, b).1)
    {
    }

    static lemma CmpFacts(g: Gen, a: Expr, b: Expr)
      requires Start(g) && InScope(a, g.nactvar) && InScope(b, g.nactvar)
      ensures var (g1, v) := Compile(g, a);
              var (g2, v1) := Exp2RK(g1, v);
              && Shaped(g1, v, |g.code|, g.freereg) && |g.code| <= |g1.code| && g1.code[..|g.code|] == g.code
              && InPlace(v1) && |g.code| <= |g2.code| && g2.code[..|g.code|] == g.code && Start(g2) &&
                 InScope(b, g2.nactvar)
    {
      var (g1, v) := Compile(g, a);
      var (g2, v1) := Exp2RK(g1, v);
      CompileShape(g, a);
      OwnShape(g, g1, v);
      hide Exp2RK, Compile;
      SecondStart(g, g1, v, g2, v1);
      OperandFacts(g, g2, v1);
    }

    method SecondAndCompare(op: Comparison, negated: bool, x: ExpDesc, b: Expr, ghost g: Gen, ghost g2: Gen,
                            ghost v: Exp, ghost was: seq<Instr>)
      returns (e: ExpDesc)
      requires Represents(g2) && Start(g2) && InScope(b, g2.nactvar) && Describes(x, v) && InPlace(v)
      requires |g.code| <= |g2.code| && g2.code[..|g.code|] == g.code && KeepsLinks(g, was, code, |g.code|)
      modifies `code, `jpc, `failed, `freereg
      ensures var (g3, w) := Compile(g2, b);
              Represents(CodeComp(g3, op, negated, v, w).0) && Describes(e, CodeComp(g3, op, negated, v, w).1)
      ensures KeepsLinks(g, was, code, |g.code|)
      decreases b, 3
    {
      hide StandsFor, Threaded, Shape, CodeComp, KeepsLinks, Compile, Start, InScope;
      ghost var (g3, w) := Compile(g2, b);
      SecondShape(g2, b);
      ghost var c2 := code;
      var y := Expression(b, g2);
      ghost var c3 := code;
      StaysInPlace(c2, x, v);
      JoinKept(g, g2, g3, was, c2, c3);
      e := CodeComparison(op, negated, x, y, g3, v, w, |g2.code|, g2.freereg);
      KeptDeep(g, g3, was, c3, code, |g.code|, |g2.code|);
    }

    static lemma SecondShape(g: Gen, b: Expr)
      requires Start(g) && InScope(b, g.nactvar)
      ensures var (g1, w) := Compile(g, b);
              Shape(g1, w, |g.code|, g.freereg) && |g.code| <= |g1.code| && g1.code[..|g.code|] == g.code
    {
      hide Shape, Compile;
      CompileShape(g, b);
    }

    /** Without jump lists, the description does not depend on the code. */
    lemma StaysInPlace(was: seq<Instr>, x: ExpDesc, v: Exp)
      requires x.k == v.k && x.info == v.info && Threaded(was, x.t, v.t) && Threaded(was, x.f, v.f) && InPlace(v)
      ensures Describes(x, v)
    {
    }

    static lemma OperandFacts(g: Gen, g2: Gen, v: Exp)
      requires Operand(g, g2, v, |g.code|, g.freereg)
      ensures InPlace(v) && |g.code| <= |g2.code| && g2.code[..|g.code|] == g.code
    {
    }

    static lemma KeptDeep(g: Gen, g1: Gen, c: seq<Instr>, c1: seq<Instr>, c2: seq<Instr>, base: nat, base1: nat)
      requires KeepsLinks(g, c, c1, base) && KeepsLinks(g1, c1, c2, base1) && base <= base1
      requires base <= |g.code| && base <= |g1.code| && g1.code[..base] == g.code[..base]
      ensures KeepsLinks(g, c, c2, base)
    {
      assert KeepsLinks(g1, c1, c2, base);
      KeptBelow(g, g1, c, c1, c2, base);
    }

    // ---------- Whole expressions ----------

    /** Compiles an expression into the next free register. Unless an error was raised, running what
        is stored from where it begins puts the value of the expression there, whatever the registers
        hold and whatever the rest of the program answers. */
    method ValueToNextReg(x: Expr, ghost g: Gen)
      requires Represents(g) && Start(g) && InScope(x, g.nactvar)
      modifies `code, `jpc, `failed, `freereg
      ensures !failed ==> forall oracle: Oracle, m: Machine :: Full(m, g) ==>
                Loads(oracle, code, g.freereg, |g.code|, g.freereg, m, Eval(oracle, m.regs, m.trace, x))
      ensures old(Roomy(x, 0)) ==> !failed
    {
      ghost var (g1, v) := Compile(g, x);
      ghost var g2 := Exp2NextReg(g1, v).0;
      ghost var roomy := Roomy(x, 0);
      if roomy {
        RoomFor(x, 0, g);
      }
      CompileShape(g, x);
      OwnShape(g, g1, v);
      hide StandsFor, Shape, Shaped, Grows, Exp2NextReg, Compile;
      var e := Expression(x, g);
      e := ExpToNextReg(e, g1, v, |g.code|, g.freereg);
      DischargeJpc(g2);
      if roomy {
        NoError(g2.(jpc := []));
      }
      if !failed {
        forall oracle: Oracle, m: Machine | Full(m, g)
          ensures Loads(oracle, code, g.freereg, |g.code|, g.freereg, m, Eval(oracle, m.regs, m.trace, x))
        {
          StoredValue(oracle, code, g, x, m);
        }
      }
    }

    static lemma StoredValue(oracle: Oracle, code: seq<Instr>, g: Gen, x: Expr, m: Machine)
      requires Start(g) && InScope(x, g.nactvar) && Full(m, g)
      requires var g2 := Exp2NextReg(Compile(g, x).0, Compile(g, x).1).0; !g2.failed && StandsFor(code, g2.(jpc := []))
      ensures Loads(oracle, code, g.freereg, |g.code|, g.freereg, m, Eval(oracle, m.regs, m.trace, x))
    {
      var (g1, v) := Compile(g, x);
      var g2 := Exp2NextReg(g1, v).0;
      hide Exp2NextReg, Compile;
      NextRegTheorem(oracle, g, x, m);
      RunKeepsFile(oracle, g2.code, |g.code|, m);
      RunStored(oracle, code, g2.(jpc := []), |g.code|, m);
    }

    /** No instruction changes how many registers there are. */
    static lemma {:induction false} RunKeepsFile(oracle: Oracle, code: seq<Instr>, pc: nat, m: Machine)
      ensures var y := Run(oracle, code, pc, m); y.Fall? ==> |y.m.regs| == |m.regs|
      decreases |code| - pc
    {
      if pc < |code| {
        var i := code[pc];
        if i.JMP? {
          if pc < pc + 1 + i.sBx <= |code| {
            RunKeepsFile(oracle, code, pc + 1 + i.sBx, m);
          }
        } else if TMode(i) {
          if IsJump(code, pc + 1) {
            if !Taken(oracle, i, m) {
              RunKeepsFile(oracle, code, pc + 2, Tested(i, m));
            } else if pc + 1 < pc + 2 + code[pc + 1].sBx <= |code| {
              RunKeepsFile(oracle, code, pc + 2 + code[pc + 1].sBx, Jumped(i, Tested(i, m)));
            }
          }
        } else {
          RunKeepsFile(oracle, code, pc + 1 + (if i.LOADBOOL? && i.skip then 1 else 0), Did(oracle, i, m));
        }
      }
    }

    /** Compiles a condition (`cond` of lparser.cpp); returns the list of jumps taken when it is false. */
    method Condition(x: Expr, ghost g: Gen) returns (list: int)
      requires Represents(g) && Start(g) && InScope(x, g.nactvar)
      modifies `code, `jpc, `failed, `freereg
      ensures var (g1, v) := Compile(g, x);
              Represents(GoIfTrue(g1, v).0) && Threaded(code, list, GoIfTrue(g1, v).1.f)
    {
      ghost var (g1, v) := Compile(g, x);
      CompileShape(g, x);
      hide StandsFor, Shape, Grows;
      var e := Expression(x, g);
      list := GoIf(e, false, g1, v, |g.code|, g.freereg);
    }

    /** An instruction that goes on with the next one. */
    static predicate Straight(i: Instr) {
      !TMode(i) && !i.JMP? && !(i.LOADBOOL? && i.skip)
    }

    /** `if x then body end` (`test_then_block` of lparser.cpp): in the stored code, with every list
        patched, control reaches the body exactly when the condition is true, and else what follows it. */
    method IfThen(x: Expr, body: seq<Instr>, ghost g: Gen) returns (ghost start: nat)
      requires Represents(g) && Start(g) && InScope(x, g.nactvar) && forall i :: 0 <= i < |body| ==> Straight(body[i])
      modifies `code, `jpc, `failed, `freereg
      ensures |g.code| <= start && |code| == start + |body| && code[start..] == body && jpc == NO_JUMP
      ensures !failed ==> forall oracle: Oracle, m: Machine :: Full(m, g) ==>
                GoesWhere(oracle, code, |g.code|, start, g.freereg, m, Eval(oracle, m.regs, m.trace, x))
      ensures old(Roomy(x, |body|)) ==> !failed
    {
      ghost var (g1, v) := Compile(g, x);
      ghost var (g2, w) := GoIfTrue(g1, v);
      ghost var roomy := Roomy(x, |body|);
      if roomy {
        RoomFor(x, |body|, g);
      }
      ConditionLists(g, x);
      hide StandsFor, GoIfTrue, Compile, Threaded, JumpList, PatchToHere, Open, Guard, Start, InScope;
      start := |g2.code|;
      var list := Condition(x, g);
      CodeBody(body, list, g2, w.f, |g.code|);
      ghost var g3 := AfterBody(g2, body, |body|);
      JumpListLonger(g2.code, g3.code, w.f, |g.code|);
      PatchListToHere(list, w.f, g3, |g.code|);
      ghost var g4 := PatchToHere(g3, w.f);
      DischargeJpc(g4);
      BodyStored(code, g2, w.f, body, |g.code|);
      if roomy {
        PatchedFine(g3, w.f);
        NoError(g4.(jpc := []));
      }
      if !failed {
        forall oracle: Oracle, m: Machine | Full(m, g)
          ensures GoesWhere(oracle, code, |g.code|, start, g.freereg, m, Eval(oracle, m.regs, m.trace, x))
        {
          StoredBranch(oracle, code, g, x, body, m);
        }
      }
    }

    static lemma PatchedFine(g: Gen, l: seq<nat>)
      requires Fine(g)
      ensures Fine(PatchToHere(g, l).(jpc := []))
    {
    }

    /** From `base` the code asks for what `r` asks for and then goes on at `start` if `r` is true, and at
        the end if it is not; registers below `n` are as they were. */
    static ghost predicate GoesWhere(oracle: Oracle, code: seq<Instr>, base: nat, start: nat, n: nat, m: Machine,
                                     r: Result) {
      exists m1 :: && Agree(m, m1, n, NO_REG) && m1.trace == r.trace
                   && Run(oracle, code, base, m) == Run(oracle, code, if IsFalse(r.v) then |code| else start, m1)
    }

    /** After the first `i` instructions of the body. */
    static ghost function AfterBody(g: Gen, body: seq<Instr>, i: nat): (r: Gen)
      requires i <= |body|
      ensures |g.code| <= |r.code| && r.code[..|g.code|] == g.code
    {
      g.(code := g.code + body[..i], jpc := if i == 0 then g.jpc else [])
    }

    method CodeBody(body: seq<Instr>, list: int, ghost g: Gen, ghost l: seq<nat>, ghost base: nat)
      requires Represents(g) && Threaded(code, list, l) && JumpList(g.code, l, base) &&
               forall i :: 0 <= i < |body| ==> Straight(body[i])
      modifies `code, `jpc, `failed
      ensures Represents(AfterBody(g, body, |body|)) && Threaded(code, list, l)
    {
      hide StandsFor, Threaded, JumpList, Open;
      assert g.code + body[..0] == g.code;
      assert AfterBody(g, body, 0) == g;
      for i := 0 to |body|
        invariant Represents(AfterBody(g, body, i)) && Threaded(code, list, l)
      {
        ghost var was, gi := code, AfterBody(g, body, i);
        JumpListLonger(g.code, gi.code, l, base);
        assert body[..i + 1] == body[..i] + [body[i]];
        assert gi.code + [body[i]] == g.code + body[..i + 1];
        Code(body[i], gi);
        ListKept(was, code, list, l, gi.code, base);
      }
    }

    static lemma ListKept(was: seq<Instr>, code: seq<Instr>, list: int, l: seq<nat>, open: seq<Instr>, base: nat)
      requires Threaded(was, list, l) && JumpList(open, l, base)
      requires forall j: nat :: Open(open, j) ==> j < |code| && j < |was| && code[j] == was[j]
      ensures Threaded(code, list, l)
    {
      ThreadedKept(was, code, list, l);
    }

    static lemma ConditionLists(g: Gen, x: Expr)
      requires Start(g) && InScope(x, g.nactvar)
      ensures var (g2, w) := GoIfTrue(Compile(g, x).0, Compile(g, x).1);
              |g.code| <= |g2.code| && JumpList(g2.code, w.f, |g.code|)
      ensures Compile(g, x).0.failed ==> GoIfTrue(Compile(g, x).0, Compile(g, x).1).0.failed
    {
      var (g1, v) := Compile(g, x);
      CompileShape(g, x);
      GoIfTrueShape(g1, v, |g.code|, g.freereg);
    }

    /** No list goes into the body, so it is stored as it is. */
    static lemma BodyStored(code: seq<Instr>, g: Gen, l: seq<nat>, body: seq<Instr>, base: nat)
      requires JumpList(g.code, l, base) && forall i :: 0 <= i < |body| ==> Straight(body[i])
      requires StandsFor(code, PatchToHere(AfterBody(g, body, |body|), l).(jpc := []))
      ensures |code| == |g.code| + |body| && code[|g.code|..] == body
    {
      var g3 := AfterBody(g, body, |body|);
      var g4 := PatchToHere(g3, l);
      assert body[..|body|] == body;
      forall i: nat | |g.code| <= i < |code|
        ensures code[i] == body[i - |g.code|]
      {
        assert g4.code[i] == PatchAt(g3.code, l, |g3.code|, NO_REG, |g3.code|, i) == g3.code[i] == body[i - |g.code|];
        StoredAt(code, g4.(jpc := []), i);
      }
    }

    static lemma {:induction false} StraightFalls(oracle: Oracle, code: seq<Instr>, pc: nat, m: Machine)
      requires pc <= |code| && forall i :: pc <= i < |code| ==> Straight(code[i])
      ensures Run(oracle, code, pc, m).Fall?
      decreases |code| - pc
    {
      if pc < |code| {
        StraightFalls(oracle, code, pc + 1, Did(oracle, code[pc], m));
      }
    }

    static lemma StoredBranch(oracle: Oracle, code: seq<Instr>, g: Gen, x: Expr, body: seq<Instr>, m: Machine)
      requires Start(g) && InScope(x, g.nactvar) && Full(m, g) && forall i :: 0 <= i < |body| ==> Straight(body[i])
      requires var (g2, w) := GoIfTrue(Compile(g, x).0, Compile(g, x).1);
               !g2.failed && StandsFor(code, PatchToHere(AfterBody(g2, body, |body|), w.f).(jpc := []))
      ensures GoesWhere(oracle, code, |g.code|, |GoIfTrue(Compile(g, x).0, Compile(g, x).1).0.code|, g.freereg, m,
                      Eval(oracle, m.regs, m.trace, x))
    {
      var (g1, v) := Compile(g, x);
      var (g2, w) := GoIfTrue(g1, v);
      var g4 := PatchToHere(AfterBody(g2, body, |body|), w.f).(jpc := []);
      var r := Eval(oracle, m.regs, m.trace, x);
      ConditionLists(g, x);
      hide GoIfTrue, Compile, StandsFor, Start, InScope, Eval;
      ConditionTheorem(oracle, g, x, body, m);
      assert g2.code + body == AfterBody(g2, body, |body|).code by {
        assert body[..|body|] == body;
      }
      var m1 :| && Agree(m, m1, g.freereg, NO_REG) && m1.trace == r.trace
                && Run(oracle, g4.code, |g.code|, m) == Run(oracle, g4.code,
                                                            if IsFalse(r.v) then |g4.code| else |g2.code|, m1);
      BranchStored(oracle, code, g2, w.f, body, |g.code|, if IsFalse(r.v) then |g4.code| else |g2.code|, m, m1);
    }

    static lemma BranchStored(oracle: Oracle, code: seq<Instr>, g: Gen, l: seq<nat>, body: seq<Instr>, base: nat,
                              d: nat, m: Machine, m1: Machine)
      requires base <= |g.code| && JumpList(g.code, l, base) && forall i :: 0 <= i < |body| ==> Straight(body[i])
      requires StandsFor(code, PatchToHere(AfterBody(g, body, |body|), l).(jpc := []))
      requires var c := PatchToHere(AfterBody(g, body, |body|), l).code;
               (d == |c| || d == |g.code|) && Run(oracle, c, base, m) == Run(oracle, c, d, m1)
      ensures |code| == |g.code| + |body| && Run(oracle, code, base, m) == Run(oracle, code, d, m1)
    {
      var g4 := PatchToHere(AfterBody(g, body, |body|), l).(jpc := []);
      BodyStored(code, g, l, body, base);
      forall i | |g.code| <= i < |g4.code|
        ensures Straight(g4.code[i])
      {
        assert code[i] == code[|g.code|..][i - |g.code|];
        StoredIs(code, g4, i);
      }
      StraightFalls(oracle, g4.code, d, m1);
      RunStored(oracle, code, g4, d, m1);
      RunStored(oracle, code, g4, base, m);
    }

    /** What is stored straight stands for itself. */
    static lemma StoredIs(code: seq<Instr>, g: Gen, i: nat)
      requires StandsFor(code, g) && g.jpc == [] && i < |code| && Straight(code[i])
      ensures g.code[i] == code[i]
    {
      assert Stands(code, g, i);
    }
  }
}
