/** Jump lists as they are stored (lcode.cpp): threaded through the offset fields of the jumps
    themselves, each offset leading to the next jump of the list. */
module JumpLists {
  import opened Common
  import opened Bytecode
  import opened CodeSpec
  import opened CodeMeaning

  /** `getjump`: the jump after `j` on its list. */
  function NextJump(code: seq<Instr>, j: int): int
    requires IsJump(code, j)
  {
    if code[j].sBx == NO_JUMP then NO_JUMP else j + 1 + code[j].sBx
  }

  function Head(l: seq<nat>): int {
    if l == [] then NO_JUMP else l[0]
  }

  /** The list that starts at `head` is `l`. */
  ghost predicate Threaded(code: seq<Instr>, head: int, l: seq<nat>) {
    && head == Head(l) && NoRepeats(l)
    && forall i :: 0 <= i < |l| ==> IsJump(code, l[i]) && NextJump(code, l[i]) == Head(l[i + 1..])
  }

  lemma ThreadedKept(code: seq<Instr>, code': seq<Instr>, head: int, l: seq<nat>)
    requires Threaded(code, head, l) && forall j :: j in l ==> j < |code'| && j < |code| && code'[j] == code[j]
    ensures Threaded(code', head, l)
  {
  }

  /** Taking the first jump off a list. */
  lemma ThreadedRest(code: seq<Instr>, head: int, l: seq<nat>)
    requires Threaded(code, head, l) && l != []
    ensures IsJump(code, head) && Threaded(code, NextJump(code, head), l[1..]) && head !in l[1..]
  {
    forall i | 0 <= i < |l[1..]|
      ensures IsJump(code, l[1..][i]) && NextJump(code, l[1..][i]) == Head(l[1..][i + 1..])
    {
      assert l[1..][i] == l[i + 1] && l[1..][i + 1..] == l[i + 2..];
    }
  }

  /** Linking the last jump of `a` to the first of `b`. */
  lemma ThreadedJoin(code: seq<Instr>, a: seq<nat>, b: seq<nat>)
    requires Threaded(code, Head(a), a) && Threaded(code, Head(b), b) && a != [] && b != [] && Apart(a, b)
    ensures var last := a[|a| - 1];
            IsJump(code, last) && Threaded(code[last := JMP(b[0] as int - (last + 1))], a[0], a + b)
  {
    var last := a[|a| - 1];
    DistinctAppend(a, b);
    assert last in a && b[0] in b && b[0] != last;
    forall i | 0 <= i < |a + b|
      ensures IsJump(LinkedUp(code, a, b), (a + b)[i]) &&
              NextJump(LinkedUp(code, a, b), (a + b)[i]) == Head((a + b)[i + 1..])
    {
      if i < |a| {
        LinkBefore(code, a, b, i);
      } else {
        LinkBehind(code, a, b, i - |a|);
      }
    }
  }

  function LinkedUp(code: seq<Instr>, a: seq<nat>, b: seq<nat>): seq<Instr>
    requires a != [] && b != [] && a[|a| - 1] < |code|
  {
    code[a[|a| - 1] := JMP(b[0] as int - (a[|a| - 1] + 1))]
  }

  lemma LinkBefore(code: seq<Instr>, a: seq<nat>, b: seq<nat>, i: nat)
    requires Threaded(code, Head(a), a) && i < |a| && b != [] && a[|a| - 1] < |code| && b[0] != a[|a| - 1]
    ensures IsJump(LinkedUp(code, a, b), (a + b)[i]) &&
            NextJump(LinkedUp(code, a, b), (a + b)[i]) == Head((a + b)[i + 1..])
  {
    assert IsJump(code, a[i]) && NextJump(code, a[i]) == Head(a[i + 1..]);
    if i < |a| - 1 {
      assert a[i] != a[|a| - 1] && (a + b)[i + 1..][0] == a[i + 1];
    } else {
      assert (a + b)[i + 1..] == b;
    }
  }

  lemma LinkBehind(code: seq<Instr>, a: seq<nat>, b: seq<nat>, i: nat)
    requires Threaded(code, Head(b), b) && i < |b| && a != [] && a[|a| - 1] < |code| && a[|a| - 1] !in b
    ensures IsJump(LinkedUp(code, a, b), (a + b)[|a| + i]) &&
            NextJump(LinkedUp(code, a, b), (a + b)[|a| + i]) == Head((a + b)[|a| + i + 1..])
  {
    assert (a + b)[|a| + i] == b[i] && b[i] in b && (a + b)[|a| + i + 1..] == b[i + 1..];
  }

  // ---------- Patching one jump after another ----------

  lemma PatchSnoc(code: seq<Instr>, l: seq<nat>, j: nat, vt: nat, reg: nat, dt: nat)
    requires (forall x :: x in l ==> IsJump(code, x)) && IsJump(code, j) && j !in l
    ensures PatchList(PatchList(code, l, vt, reg, dt), [j], vt, reg, dt) == PatchList(code, l + [j], vt, reg, dt)
  {
    var one := PatchList(code, l, vt, reg, dt);
    forall i | 0 <= i < |code|
      ensures PatchAt(one, [j], vt, reg, dt, i) == PatchAt(code, l + [j], vt, reg, dt, i)
    {
      assert one[i] == PatchAt(code, l, vt, reg, dt, i);
      if i == j && i >= 1 {
        assert one[i - 1] == PatchAt(code, l, vt, reg, dt, i - 1);
      }
    }
  }

  lemma RemoveSnoc(code: seq<Instr>, l: seq<nat>, j: nat)
    requires j !in l
    ensures RemoveValues(RemoveValues(code, l), [j]) == RemoveValues(code, l + [j])
  {
  }

  /** Patching part of a list leaves the links of the rest. */
  lemma PatchKeepsRest(code: seq<Instr>, j: nat, rest: seq<nat>, vt: nat, reg: nat, dt: nat)
    requires IsJump(code, j) && j !in rest && forall x :: x in rest ==> IsJump(code, x)
    ensures forall x :: x in rest ==> x < |code| && PatchList(code, [j], vt, reg, dt)[x] == code[x]
  {
  }

  lemma PatchNone(code: seq<Instr>, vt: nat, reg: nat, dt: nat)
    ensures PatchList(code, [], vt, reg, dt) == code
    ensures RemoveValues(code, []) == code
  {
  }

  // ---------- Stored code and the code it stands for ----------

  /** A test is followed by its jump. */
  ghost predicate Paired(code: seq<Instr>) {
    forall i :: 0 <= i < |code| && TMode(code[i]) ==> IsJump(code, i + 1)
  }

  /** The stored instruction `i` and what it stands for: the offset of a jump on a list is a link,
      and the tests of the jumps to here may still be TESTSETs. */
  ghost predicate Stands(code: seq<Instr>, g: Gen, i: nat)
    requires i < |code| == |g.code|
  {
    if i in g.jpc || Open(g.code, i) then IsJump(code, i)
    else code[i] == g.code[i] || (i + 1 in g.jpc && code[i].TESTSET? && g.code[i] == TEST(code[i].B, code[i].unless))
  }

  ghost predicate StandsFor(code: seq<Instr>, g: Gen) {
    && |code| == |g.code| && Paired(code) && ToEnd(g.code, g.jpc)
    && (forall i: nat :: i < |code| ==> Stands(code, g, i))
    && (forall j :: j in g.jpc ==> !HasValue(g.code, j))
  }

  /** The links of the open jumps before `base` are as they were. */
  ghost predicate KeepsLinks(g: Gen, was: seq<Instr>, code: seq<Instr>, base: nat) {
    forall j: nat :: j < base && Open(g.code, j) ==> j < |was| && j < |code| && code[j] == was[j]
  }

  lemma DischargedStands(code: seq<Instr>, g: Gen)
    requires StandsFor(code, g)
    ensures var code' := PatchList(code, g.jpc, |code|, NO_REG, |code|);
            && StandsFor(code', g.(jpc := [])) && KeepsLinks(g, code, code', |code|)
            && (forall j: nat :: Open(g.code, j) ==> code'[j] == code[j])
  {
    var code' := PatchList(code, g.jpc, |code|, NO_REG, |code|);
    forall j | j in g.jpc
      ensures IsJump(code, j)
    {
      assert IsJump(g.code, j) && Stands(code, g, j);
    }
    forall j: nat | Open(g.code, j)
      ensures code'[j] == code[j]
    {
      assert Stands(code, g, j);
      assert code'[j] == PatchAt(code, g.jpc, |code|, NO_REG, |code|, j);
    }
    forall i: nat | i < |code'|
      ensures Stands(code', g.(jpc := []), i)
    {
      assert Stands(code, g, i);
      assert code'[i] == PatchAt(code, g.jpc, |code|, NO_REG, |code|, i);
      if i + 1 in g.jpc {
        assert !HasValue(g.code, i + 1);
      }
    }
    PatchedPairs(code, g.jpc, |code|, NO_REG, |code|);
  }

  lemma PatchedPairs(code: seq<Instr>, l: seq<nat>, vt: nat, reg: nat, dt: nat)
    requires Paired(code) && forall j :: j in l ==> IsJump(code, j)
    ensures Paired(PatchList(code, l, vt, reg, dt)) && Paired(RemoveValues(code, l))
  {
    var code' := PatchList(code, l, vt, reg, dt);
    forall i | 0 <= i < |code'|
      ensures TMode(code'[i]) ==> IsJump(code', i + 1)
      ensures TMode(RemoveValues(code, l)[i]) ==> IsJump(RemoveValues(code, l), i + 1)
    {
      assert code'[i] == PatchAt(code, l, vt, reg, dt, i);
      if TMode(code[i]) {
        assert IsJump(code, i + 1);
        assert code'[i + 1] == PatchAt(code, l, vt, reg, dt, i + 1);
      }
    }
  }

  lemma AppendStands(code: seq<Instr>, g: Gen, i: Instr)
    requires StandsFor(code, g) && g.jpc == [] && !TMode(i) && !i.JMP?
    ensures StandsFor(code + [i], g.(code := g.code + [i]))
  {
    var code', g' := code + [i], g.(code := g.code + [i]);
    forall x: nat | x < |code'|
      ensures Stands(code', g', x)
    {
      assert x < |code| ==> Stands(code, g, x) && (Open(g'.code, x) <==> Open(g.code, x));
    }
    forall x | 0 <= x < |code'| && TMode(code'[x])
      ensures IsJump(code', x + 1)
    {
      assert IsJump(code, x + 1);
    }
  }

  lemma AppendTestStands(code: seq<Instr>, g: Gen, i: Instr)
    requires StandsFor(code, g) && g.jpc == [] && TMode(i)
    ensures StandsFor(code + [i, JMP(NO_JUMP)], g.(code := g.code + [i, JMP(NO_JUMP)]))
  {
    var code', g' := code + [i, JMP(NO_JUMP)], g.(code := g.code + [i, JMP(NO_JUMP)]);
    forall x: nat | x < |code'|
      ensures Stands(code', g', x)
    {
      assert x < |code| ==> Stands(code, g, x) && (Open(g'.code, x) <==> Open(g.code, x));
    }
    forall x | 0 <= x < |code'| && TMode(code'[x])
      ensures IsJump(code', x + 1)
    {
      assert x < |code| ==> IsJump(code, x + 1);
    }
  }

  /** Putting a list on hold for the next instruction changes nothing stored but a link. */
  lemma HoldStands(code: seq<Instr>, code': seq<Instr>, g: Gen, l: seq<nat>, base: nat)
    requires StandsFor(code, g) && JumpList(g.code, l, base) && |code'| == |code|
    requires forall i :: 0 <= i < |code| ==> code'[i] == code[i] || (i in g.jpc && code'[i].JMP?)
    ensures StandsFor(code', PatchToHere(g, l))
  {
    var g' := PatchToHere(g, l);
    forall i: nat | i < |code'|
      ensures Stands(code', g', i)
    {
      assert Stands(code, g, i);
      assert g'.code[i] == PatchAt(g.code, l, |g.code|, NO_REG, |g.code|, i);
    }
    PatchToHereEnds(g.code, g.jpc, l, base);
    forall j | j in g'.jpc
      ensures !HasValue(g'.code, j)
    {
      if j >= 1 {
        assert g'.code[j - 1] == PatchAt(g.code, l, |g.code|, NO_REG, |g.code|, j - 1);
        assert j in g.jpc ==> !HasValue(g.code, j);
      }
    }
    forall i | 0 <= i < |code'| && TMode(code'[i])
      ensures IsJump(code', i + 1)
    {
      assert IsJump(code, i + 1);
    }
  }

  /** Away from the pending jumps and their tests, stored code is what it stands for. */
  lemma StoredAt(code: seq<Instr>, g: Gen, i: nat)
    requires StandsFor(code, g) && i < |code| && !g.code[i].JMP? && i + 1 !in g.jpc
    ensures code[i] == g.code[i]
  {
    assert Stands(code, g, i);
    assert i in g.jpc ==> IsJump(g.code, i);
  }

  lemma StoredTests(code: seq<Instr>, g: Gen, l: seq<nat>, base: nat)
    requires StandsFor(code, g) && JumpList(g.code, l, base)
    ensures forall j :: j in l ==> j < |code| && code[j - 1] == g.code[j - 1]
  {
    OpenApart(g.code, g.jpc, l, base);
    forall j | j in l
      ensures j < |code| && code[j - 1] == g.code[j - 1]
    {
      StoredAt(code, g, j - 1);
    }
  }

  lemma {:induction false} SameNeed(code: seq<Instr>, code': seq<Instr>, l: seq<nat>)
    requires forall j :: j in l ==> 1 <= j < |code| && j < |code'| && code'[j - 1] == code[j - 1]
    ensures NeedValue(code', l) == NeedValue(code, l)
  {
    if l != [] {
      assert l[0] in l && forall j :: j in l[1..] ==> j in l;
      SameNeed(code, code', l[1..]);
    }
  }

  /** An instruction that is no jump and no test is replaced by another. */
  lemma ReplaceStands(code: seq<Instr>, g: Gen, i: nat, x: Instr)
    requires StandsFor(code, g) && i < |code| && !g.code[i].JMP? && !TMode(g.code[i]) && !x.JMP? && !TMode(x) &&
             i + 1 !in g.jpc
    ensures StandsFor(code[i := x], g.(code := g.code[i := x]))
  {
    var code', g' := code[i := x], g.(code := g.code[i := x]);
    StoredAt(code, g, i);
    forall y: nat | y < |code'|
      ensures Stands(code', g', y)
    {
      assert Stands(code, g, y);
    }
    forall y | 0 <= y < |code'| && TMode(code'[y])
      ensures IsJump(code', y + 1)
    {
      assert IsJump(code, y + 1);
    }
    ReplaceJpc(g, g', i);
  }

  lemma ReplaceJpc(g: Gen, g': Gen, i: nat)
    requires ToEnd(g.code, g.jpc) && g'.jpc == g.jpc && |g'.code| == |g.code| && i < |g.code|
    requires (forall y :: 0 <= y < |g.code| && y != i ==> g'.code[y] == g.code[y]) && !g.code[i].JMP? &&
             !g'.code[i].TESTSET?
    requires forall j :: j in g.jpc ==> !HasValue(g.code, j)
    ensures ToEnd(g'.code, g'.jpc) && forall j :: j in g'.jpc ==> !HasValue(g'.code, j)
  {
    forall j | j in g.jpc
      ensures IsJump(g'.code, j) && j + 1 + g'.code[j].sBx == |g'.code| && !HasValue(g'.code, j)
    {
      assert IsJump(g.code, j) && j != i;
    }
  }

  /** The comparison before an open jump is inverted. */
  lemma InvertStands(code: seq<Instr>, g: Gen, j: nat)
    requires StandsFor(code, g) && 1 <= j && Open(g.code, j) && g.code[j - 1].COMP? && g.jpc == []
    ensures InvertJump(code, j) == code[j - 1 := g.code[j - 1].(cond := !g.code[j - 1].cond)]
    ensures StandsFor(InvertJump(code, j), g.(code := InvertJump(g.code, j)))
  {
    StoredAt(code, g, j - 1);
    var code', g' := InvertJump(code, j), g.(code := InvertJump(g.code, j));
    forall y: nat | y < |code'|
      ensures Stands(code', g', y)
    {
      assert Stands(code, g, y);
    }
    forall y | 0 <= y < |code'| && TMode(code'[y])
      ensures IsJump(code', y + 1)
    {
      assert TMode(code[y]) && IsJump(code, y + 1);
    }
  }

  /** Jumps of a list get their targets. */
  lemma PatchStands(code: seq<Instr>, g: Gen, l: seq<nat>, vt: nat, reg: nat, dt: nat, base: nat)
    requires StandsFor(code, g) && JumpList(g.code, l, base)
    requires forall j :: j in l ==> j < vt && (HasValue(g.code, j) || j < dt)
    ensures StandsFor(PatchList(code, l, vt, reg, dt), g.(code := PatchList(g.code, l, vt, reg, dt)))
  {
    var code', g' := PatchList(code, l, vt, reg, dt), g.(code := PatchList(g.code, l, vt, reg, dt));
    StoredTests(code, g, l, base);
    OpenApart(g.code, g.jpc, l, base);
    forall i: nat | i < |code'|
      ensures Stands(code', g', i)
    {
      assert Stands(code, g, i);
      assert code'[i] == PatchAt(code, l, vt, reg, dt, i) && g'.code[i] == PatchAt(g.code, l, vt, reg, dt, i);
    }
    PatchedPairs(code, l, vt, reg, dt) by {
      assert forall j :: j in l ==> Stands(code, g, j);
    }
    PatchedJpc(g, l, vt, reg, dt);
  }

  lemma PatchedJpc(g: Gen, l: seq<nat>, vt: nat, reg: nat, dt: nat)
    requires ToEnd(g.code, g.jpc) && (forall j :: j in g.jpc ==> !HasValue(g.code, j)) &&
             (forall j :: j in g.jpc ==> j !in l)
    ensures ToEnd(PatchList(g.code, l, vt, reg, dt), g.jpc)
    ensures forall j :: j in g.jpc ==> !HasValue(PatchList(g.code, l, vt, reg, dt), j)
  {
    var c := PatchList(g.code, l, vt, reg, dt);
    forall j | j in g.jpc
      ensures IsJump(c, j) && j + 1 + c[j].sBx == |c| && !HasValue(c, j)
    {
      assert IsJump(g.code, j);
      assert c[j] == PatchAt(g.code, l, vt, reg, dt, j);
      if j >= 1 {
        assert c[j - 1] == PatchAt(g.code, l, vt, reg, dt, j - 1);
      }
    }
  }

  /** Tests of open jumps lose their registers. */
  lemma RemoveStands(code: seq<Instr>, g: Gen, l: seq<nat>, base: nat)
    requires StandsFor(code, g) && JumpList(g.code, l, base) && g.jpc == []
    ensures StandsFor(RemoveValues(code, l), g.(code := RemoveValues(g.code, l)))
    ensures forall j: nat :: Open(g.code, j) ==> RemoveValues(code, l)[j] == code[j] && Open(RemoveValues(g.code, l), j)
  {
    var code', g' := RemoveValues(code, l), g.(code := RemoveValues(g.code, l));
    StoredTests(code, g, l, base);
    forall i: nat | i < |code'|
      ensures Stands(code', g', i)
    {
      assert Stands(code, g, i);
    }
    forall j: nat | Open(g.code, j)
      ensures code'[j] == code[j]
    {
      assert Stands(code, g, j);
    }
    forall y | 0 <= y < |code'| && TMode(code'[y])
      ensures IsJump(code', y + 1)
    {
      assert TMode(code[y]) && IsJump(code, y + 1);
    }
  }

  /** The last instruction, which no pending jump leads past, is taken back. */
  lemma DropStands(code: seq<Instr>, g: Gen)
    requires StandsFor(code, g) && |code| >= 1 && g.jpc == [] && !g.code[|code| - 1].JMP? && !TMode(g.code[|code| - 1])
    ensures StandsFor(code[..|code| - 1], g.(code := g.code[..|code| - 1]))
  {
    var code', g' := code[..|code| - 1], g.(code := g.code[..|code| - 1]);
    StoredAt(code, g, |code| - 1);
    forall i: nat | i < |code'|
      ensures Stands(code', g', i)
    {
      assert Stands(code, g, i);
    }
    forall y | 0 <= y < |code'| && TMode(code'[y])
      ensures IsJump(code', y + 1)
    {
      assert TMode(code[y]) && IsJump(code, y + 1);
    }
  }

  /** Two lists without a common jump start at the same place only if both are empty. */
  lemma HeadsDiffer(code: seq<Instr>, a: int, b: int, t: seq<nat>, f: seq<nat>)
    requires Threaded(code, a, t) && Threaded(code, b, f) && Apart(t, f)
    ensures a == b <==> t == [] && f == []
  {
    if t != [] && f != [] {
      assert t[0] in t && f[0] in f;
    }
  }

  /** `luaK_jump` over the instructions that load false and true: the jumps to here go with it. */
  lemma SkipStands(code: seq<Instr>, code': seq<Instr>, g: Gen, reg: nat)
    requires StandsFor(code, g)
    requires |code'| == |code| + 3 && code'[|code|].JMP? && code'[|code| + 1..] == Labels(reg)
    requires forall i :: 0 <= i < |code| ==> code'[i] == code[i] || (i in g.jpc && code'[i].JMP?)
    ensures StandsFor(code', SkipLabels(g, reg))
  {
    var g' := SkipLabels(g, reg);
    var p := |code|;
    SkippedEnds(g, reg);
    assert code'[p + 1] == code'[p + 1..][0] && code'[p + 2] == code'[p + 1..][1];
    forall i: nat | i < |code'|
      ensures Stands(code', g', i)
    {
      if i < p {
        assert Stands(code, g, i);
        assert g'.code[i] == Redirect(g.code, g.jpc, p + 3)[i];
      }
    }
    forall i | 0 <= i < |code'| && TMode(code'[i])
      ensures IsJump(code', i + 1)
    {
      assert i < p && IsJump(code, i + 1);
    }
    LastNoTest(code, g);
    forall j | j in g'.jpc
      ensures !HasValue(g'.code, j)
    {
      if j < p && j >= 1 {
        assert g'.code[j - 1] == Redirect(g.code, g.jpc, p + 3)[j - 1];
      }
    }
  }

  lemma LastNoTest(code: seq<Instr>, g: Gen)
    requires StandsFor(code, g)
    ensures !HasValue(g.code, |code|)
  {
    if |code| >= 1 && g.code[|code| - 1].TESTSET? {
      assert Stands(code, g, |code| - 1);
      assert |code| - 1 in g.jpc ==> IsJump(g.code, |code| - 1);
    }
  }

  lemma AloneThreaded(code: seq<Instr>, j: nat)
    requires IsJump(code, j) && code[j].sBx == NO_JUMP
    ensures Threaded(code, j, [j])
  {
    assert [j][1..] == [];
  }

  /** New links in open jumps change nothing that the code stands for. */
  lemma RelinkStands(was: seq<Instr>, code: seq<Instr>, g: Gen, l: seq<nat>, base: nat)
    requires StandsFor(was, g) && JumpList(g.code, l, base) && |code| == |was|
    requires forall i :: 0 <= i < |code| ==> code[i] == was[i] || (i in l && code[i].JMP?)
    ensures StandsFor(code, g) && KeepsLinks(g, was, code, base)
    ensures forall j :: j in g.jpc ==> j < |code| && code[j] == was[j]
  {
    OpenApart(g.code, g.jpc, l, base);
    forall i: nat | i < |code|
      ensures Stands(code, g, i)
    {
      assert Stands(was, g, i);
    }
    forall i | 0 <= i < |code| && TMode(code[i])
      ensures IsJump(code, i + 1)
    {
      assert IsJump(was, i + 1);
    }
  }

  lemma PatchKeepsOthers(code: seq<Instr>, l: seq<nat>, vt: nat, reg: nat, dt: nat, others: seq<nat>)
    requires forall j :: j in others ==> IsJump(code, j) && j !in l
    ensures forall j :: j in others ==> j < |code| && PatchList(code, l, vt, reg, dt)[j] == code[j]
  {
  }

  lemma PatchKeepsList(code: seq<Instr>, l: seq<nat>, vt: nat, reg: nat, dt: nat, other: seq<nat>, base: nat)
    requires JumpList(code, l, base) && JumpList(code, other, base) && Apart(l, other)
    ensures var c := PatchList(code, l, vt, reg, dt);
            JumpList(c, other, base) && forall j :: j in other ==> HasValue(c, j) == HasValue(code, j)
  {
    var c := PatchList(code, l, vt, reg, dt);
    forall j | j in other
      ensures Open(c, j) && TMode(c[j - 1]) && HasValue(c, j) == HasValue(code, j)
    {
      assert j !in l && j - 1 !in l;
      assert c[j] == PatchAt(code, l, vt, reg, dt, j) && c[j - 1] == PatchAt(code, l, vt, reg, dt, j - 1);
    }
  }

  lemma PatchKeepsBelow(code: seq<Instr>, g: Gen, l: seq<nat>, vt: nat, reg: nat, dt: nat, base: nat)
    requires StandsFor(code, g) && JumpList(g.code, l, base)
    ensures KeepsLinks(g, code, PatchList(code, l, vt, reg, dt), base)
  {
    forall j: nat | j < base && Open(g.code, j)
      ensures j < |code| && PatchList(code, l, vt, reg, dt)[j] == code[j]
    {
      assert Stands(code, g, j);
      assert PatchList(code, l, vt, reg, dt)[j] == PatchAt(code, l, vt, reg, dt, j);
    }
  }

  /** A run that ends uses no jump without a target, so the stored code runs in the same way. */
  lemma {:induction false} RunStored(oracle: Oracle, code: seq<Instr>, g: Gen, pc: nat, m: Machine)
    requires StandsFor(code, g) && g.jpc == [] && pc <= |code| && Run(oracle, g.code, pc, m).Fall?
    ensures Run(oracle, code, pc, m) == Run(oracle, g.code, pc, m)
    decreases |code| - pc
  {
    if pc < |code| {
      var i := g.code[pc];
      assert Stands(code, g, pc);
      if i.JMP? {
        assert !Open(g.code, pc);
        RunStored(oracle, code, g, pc + 1 + i.sBx, m);
      } else if TMode(i) {
        assert IsJump(g.code, pc + 1) && Stands(code, g, pc + 1);
        if !Taken(oracle, i, m) {
          RunStored(oracle, code, g, pc + 2, Tested(i, m));
        } else {
          assert !Open(g.code, pc + 1);
          RunStored(oracle, code, g, pc + 2 + g.code[pc + 1].sBx, Jumped(i, Tested(i, m)));
        }
      } else {
        RunStored(oracle, code, g, pc + 1 + (if i.LOADBOOL? && i.skip then 1 else 0), Did(oracle, i, m));
      }
    }
  }
}
