/** Upvalues (lfunc.cpp; lvm.cpp, OP_GETUPVAL, OP_SETUPVAL, OP_CLOSURE and OP_CLOSE): while a local
    variable is active, the closures that captured it reach it in the stack; when it ends, its
    value moves to the upvalue. The program cannot tell this from variables that are cells. */
module Upvalues {

  type Value = int
  type Id = nat
  type Th = nat

  datatype UpVal = Open(th: Th, slot: nat) | Closed(v: Value)

  /** `open` holds each thread's open upvalues, `names` the upvalues that closures hold. */
  datatype State = State(stacks: map<Th, seq<Value>>, open: map<Th, seq<Id>>, uv: map<Id, UpVal>, names: map<nat, Id>)

  predicate IsSlot(s: State, th: Th, i: nat) {
    th in s.stacks && i < |s.stacks[th]|
  }

  // ---------- The open list ----------

  predicate OpenAt(uv: map<Id, UpVal>, u: Id, th: Th) {
    u in uv && uv[u].Open? && uv[u].th == th
  }

  /** All of the thread `th`, and in descending order of stack slots. */
  ghost predicate Descending(uv: map<Id, UpVal>, us: seq<Id>, th: Th) {
    && (forall i :: 0 <= i < |us| ==> OpenAt(uv, us[i], th))
    && (forall i, j :: 0 <= i < j < |us| ==> uv[us[i]].slot > uv[us[j]].slot)
  }

  ghost predicate Valid(s: State) {
    && s.open.Keys == s.stacks.Keys
    && (forall th :: th in s.open ==> Descending(s.uv, s.open[th], th))
    && (forall u :: u in s.uv && s.uv[u].Open? ==>
          s.uv[u].th in s.open && u in s.open[s.uv[u].th] && IsSlot(s, s.uv[u].th, s.uv[u].slot))
    && (forall n :: n in s.names ==> s.names[n] in s.uv)
  }

  /** Where `luaF_findupval` stops. */
  function Scan(uv: map<Id, UpVal>, us: seq<Id>, th: Th, slot: nat): (i: nat)
    ensures i <= |us|
    ensures forall k :: 0 <= k < i ==> OpenAt(uv, us[k], th) && uv[us[k]].slot > slot
    ensures i < |us| && OpenAt(uv, us[i], th) ==> uv[us[i]].slot <= slot
  {
    if us != [] && OpenAt(uv, us[0], th) && uv[us[0]].slot > slot then 1 + Scan(uv, us[1..], th, slot) else 0
  }

  predicate Found(uv: map<Id, UpVal>, us: seq<Id>, i: nat, th: Th, slot: nat) {
    i < |us| && us[i] in uv && uv[us[i]] == Open(th, slot)
  }

  /** `luaF_findupval`, with the identifier `u` for a new upvalue. */
  function FindUpval(s: State, th: Th, slot: nat, u: Id): (State, Id)
    requires th in s.open
  {
    var us := s.open[th];
    var i := Scan(s.uv, us, th, slot);
    if Found(s.uv, us, i, th, slot) then (s, us[i])
    else (s.(open := s.open[th := us[..i] + [u] + us[i..]], uv := s.uv[u := Open(th, slot)]), u)
  }

  predicate CanClose(s: State, th: Th, level: nat) {
    && IsOpenList(s, th) && s.open[th] != []
    && OpenAt(s.uv, s.open[th][0], th) && s.uv[s.open[th][0]].slot >= level && IsSlot(s, th, s.uv[s.open[th][0]].slot)
  }

  predicate IsOpenList(s: State, th: Th) {
    th in s.open
  }

  /** One turn of `luaF_close`: the first upvalue takes its value along. */
  function CloseOne(s: State, th: Th): State
    requires CanClose(s, th, 0)
  {
    var u := s.open[th][0];
    s.(open := s.open[th := s.open[th][1..]], uv := s.uv[u := Closed(s.stacks[th][s.uv[u].slot])])
  }

  function Close(s: State, th: Th, level: nat): State
    decreases if th in s.open then |s.open[th]| else 0
  {
    if CanClose(s, th, level) then Close(CloseOne(s, th), th, level) else s
  }

  // ---------- The program ----------

  /** Closures hold upvalues under names: `Capture` and `Share` are the two cases of OP_CLOSURE.
      `Close` ends the variables of the slots from `level` on; later ones there are new. */
  datatype Op =
    | GetLocal(th: Th, i: nat)
    | SetLocal(th: Th, i: nat, v: Value)
    | Capture(th: Th, i: nat, name: nat, u: Id)
    | Share(name: nat, from: nat)
    | GetUpval(name: nat)
    | SetUpval(name: nat, v: Value)
    | CloseFrom(th: Th, level: nat)

  predicate Enabled(s: State, op: Op) {
    match op
    case GetLocal(th, i) => IsSlot(s, th, i)
    case SetLocal(th, i, _) => IsSlot(s, th, i)
    case Capture(th, i, _, u) => IsSlot(s, th, i) && th in s.open && u !in s.uv
    case Share(_, from) => from in s.names
    case GetUpval(n) => n in s.names
    case SetUpval(n, _) => n in s.names
    case CloseFrom(th, _) => th in s.stacks
  }

  /** What an upvalue refers to (`uv->v`). */
  function ReadUpval(s: State, u: Id): Value {
    if u !in s.uv then 0
    else match s.uv[u]
      case Open(th, i) => if IsSlot(s, th, i) then s.stacks[th][i] else 0
      case Closed(v) => v
  }

  function WriteUpval(s: State, u: Id, v: Value): State {
    if u !in s.uv then s
    else match s.uv[u]
      case Open(th, i) => if IsSlot(s, th, i) then s.(stacks := s.stacks[th := s.stacks[th][i := v]]) else s
      case Closed(_) => s.(uv := s.uv[u := Closed(v)])
  }

  /** The next state, and what the program sees. */
  function Step(s: State, op: Op): (State, Value)
    requires Enabled(s, op)
  {
    match op
    case GetLocal(th, i) => (s, s.stacks[th][i])
    case SetLocal(th, i, v) => (s.(stacks := s.stacks[th := s.stacks[th][i := v]]), 0)
    case Capture(th, i, name, u) =>
      var (s1, found) := FindUpval(s, th, i, u);
      (s1.(names := s1.names[name := found]), 0)
    case Share(name, from) => (s.(names := s.names[name := s.names[from]]), 0)
    case GetUpval(n) => (s, ReadUpval(s, s.names[n]))
    case SetUpval(n, v) => (WriteUpval(s, s.names[n], v), 0)
    case CloseFrom(th, level) => (Close(s, th, level), 0)
  }

  // ---------- The same program with cells ----------

  type Cell = nat

  /** Every active variable is a cell of its own, and closures hold cells. */
  datatype Cells = Cells(env: map<Th, seq<Cell>>, val: map<Cell, Value>, names: map<nat, Cell>, next: Cell)

  /** New variables for the slots from `level` on, starting with what is there. */
  function Renew(c: Cells, th: Th, level: nat): Cells
    requires th in c.env && forall x :: x in c.env[th] ==> x in c.val
    decreases if level < |c.env[th]| then |c.env[th]| - level else 0
  {
    var env: seq<Cell> := c.env[th];
    if level >= |env| then c
    else
      var env': seq<Cell> := env[level := c.next];
      Renew(c.(env := c.env[th := env'], val := c.val[c.next := c.val[env[level]]], next := c.next + 1), th, level + 1)
  }

  ghost predicate CellsValid(c: Cells) {
    && (forall th :: th in c.env ==> forall x :: x in c.env[th] ==> x in c.val)
    && (forall n :: n in c.names ==> c.names[n] in c.val)
    && (forall x :: x in c.val ==> x < c.next)
    && (forall th, i, th', j, x :: VarAt(c.env, th, i, x) && VarAt(c.env, th', j, x) ==> th == th' && i == j)
  }

  /** The active variable in slot `i` of `th` is the cell `x`. */
  ghost predicate VarAt(env: map<Th, seq<Cell>>, th: Th, i: int, x: Cell) {
    th in env && 0 <= i < |env[th]| && env[th][i] == x
  }

  predicate CellEnabled(c: Cells, op: Op) {
    match op
    case GetLocal(th, i) => th in c.env && i < |c.env[th]|
    case SetLocal(th, i, _) => th in c.env && i < |c.env[th]|
    case Capture(th, i, _, _) => th in c.env && i < |c.env[th]|
    case Share(_, from) => from in c.names
    case GetUpval(n) => n in c.names
    case SetUpval(n, _) => n in c.names
    case CloseFrom(th, _) => th in c.env
  }

  function CellStep(c: Cells, op: Op): (Cells, Value)
    requires CellsValid(c) && CellEnabled(c, op)
  {
    match op
    case GetLocal(th, i) => (c, c.val[c.env[th][i]])
    case SetLocal(th, i, v) => (c.(val := c.val[c.env[th][i] := v]), 0)
    case Capture(th, i, name, _) => (c.(names := c.names[name := c.env[th][i]]), 0)
    case Share(name, from) => (c.(names := c.names[name := c.names[from]]), 0)
    case GetUpval(n) => (c, c.val[c.names[n]])
    case SetUpval(n, v) => (c.(val := c.val[c.names[n] := v]), 0)
    case CloseFrom(th, level) => (Renew(c, th, level), 0)
  }

  // ---------- What closing does ----------

  /** `uv'` has closed exactly the upvalues of `th` in the slots from `level` on. */
  ghost predicate ClosedFrom(s: State, uv': map<Id, UpVal>, th: Th, level: nat) {
    && uv'.Keys == s.uv.Keys
    && forall u :: u in s.uv ==>
         uv'[u] == if s.uv[u].Open? && s.uv[u].th == th && s.uv[u].slot >= level then Closed(ReadUpval(s, u))
             else s.uv[u]
  }

  lemma FirstIsHighest(s: State, th: Th)
    requires Valid(s) && th in s.open && s.open[th] != []
    ensures CanClose(s, th, 0) && CanClose(s, th, s.uv[s.open[th][0]].slot)
    ensures forall u :: u in s.uv && s.uv[u].Open? && s.uv[u].th == th ==> s.uv[u].slot <= s.uv[s.open[th][0]].slot
  {
    assert OpenAt(s.uv, s.open[th][0], th);
  }

  /** The list is closed from its head on, down to the level. */
  lemma Closes(s: State, th: Th, level: nat)
    requires Valid(s) && th in s.open
    ensures
      if s.open[th] != [] && s.uv[s.open[th][0]].slot >= level then
        Close(s, th, level) == Close(CloseOne(s, th), th, level)
      else Close(s, th, level) == s
  {
    if s.open[th] != [] {
      FirstIsHighest(s, th);
    }
  }

  lemma CloseOneValid(s: State, th: Th)
    requires Valid(s) && CanClose(s, th, 0)
    ensures Valid(CloseOne(s, th)) && |CloseOne(s, th).open[th]| < |s.open[th]|
  {
    var u, us := s.open[th][0], s.open[th];
    var s' := CloseOne(s, th);
    assert forall i :: 0 < i < |us| ==> us[i] != u;
    forall t | t in s'.open
      ensures Descending(s'.uv, s'.open[t], t)
    {
      StillDescending(s, th, t);
    }
    forall x | x in s'.uv && s'.uv[x].Open?
      ensures s'.uv[x].th in s'.open && x in s'.open[s'.uv[x].th] && IsSlot(s', s'.uv[x].th, s'.uv[x].slot)
    {
      StillOpen(s, th, x);
    }
  }

  lemma StillDescending(s: State, th: Th, t: Th)
    requires Valid(s) && CanClose(s, th, 0) && t in s.open
    ensures var s' := CloseOne(s, th); Descending(s'.uv, s'.open[t], t)
  {
    var u := s.open[th][0];
    var s' := CloseOne(s, th);
    assert Descending(s.uv, s.open[t], t) && Descending(s.uv, s.open[th], th);
    forall i | 0 <= i < |s'.open[t]|
      ensures OpenAt(s'.uv, s'.open[t][i], t) && s'.open[t][i] == s.open[t][if t == th then i + 1 else i] != u
    {
      var x := s.open[t][if t == th then i + 1 else i];
      assert OpenAt(s.uv, x, t) && s'.open[t][i] == x;
    }
  }

  lemma StillOpen(s: State, th: Th, x: Id)
    requires Valid(s) && CanClose(s, th, 0) && x in CloseOne(s, th).uv && CloseOne(s, th).uv[x].Open?
    ensures var s' := CloseOne(s, th);
              s'.uv[x].th in s'.open && x in s'.open[s'.uv[x].th] && IsSlot(s', s'.uv[x].th, s'.uv[x].slot)
  {
    var u, us := s.open[th][0], s.open[th];
    assert x != u && x in s.open[s.uv[x].th];
    assert us == [u] + us[1..];
  }

  /** `luaF_close` closes exactly the upvalues at or above its level. */
  lemma {:induction false} CloseExactly(s: State, th: Th, level: nat)
    requires Valid(s) && th in s.open
    ensures var s' := Close(s, th, level);
            && Valid(s') && ClosedFrom(s, s'.uv, th, level) && s' == s.(open := s'.open, uv := s'.uv)
    decreases |s.open[th]|
  {
    if CanClose(s, th, level) {
      CloseOneValid(s, th);
      hide Valid;
      CloseExactly(CloseOne(s, th), th, level);
      ClosesFirst(s, Close(s, th, level).uv, th, level);
    } else {
      NoneToClose(s, th, level);
    }
  }

  lemma NoneToClose(s: State, th: Th, level: nat)
    requires Valid(s) && th in s.open && !CanClose(s, th, level)
    ensures ClosedFrom(s, s.uv, th, level)
  {
    if s.open[th] != [] {
      FirstIsHighest(s, th);
    }
  }

  lemma ClosesFirst(s: State, uv': map<Id, UpVal>, th: Th, level: nat)
    requires CanClose(s, th, level) && ClosedFrom(CloseOne(s, th), uv', th, level)
    ensures ClosedFrom(s, uv', th, level)
  {
    var s1, u := CloseOne(s, th), s.open[th][0];
    forall x | x in s.uv
      ensures uv'[x] == if s.uv[x].Open? && s.uv[x].th == th && s.uv[x].slot >= level then Closed(ReadUpval(s, x))
              else s.uv[x]
    {
      assert x != u ==> s1.uv[x] == s.uv[x];
    }
  }

  // ---------- What capturing does ----------

  lemma FindExactly(s: State, th: Th, slot: nat, u: Id)
    requires Valid(s) && IsSlot(s, th, slot) && u !in s.uv
    ensures var (s', x) := FindUpval(s, th, slot, u);
            && Valid(s') && x in s'.uv && s'.uv[x] == Open(th, slot)
            && s' == s.(open := s'.open, uv := s'.uv)
            && (if exists y :: y in s.uv && s.uv[y] == Open(th, slot) then s' == s
                else x == u && s'.uv == s.uv[u := Open(th, slot)])
  {
    var us := s.open[th];
    var i := Scan(s.uv, us, th, slot);
    assert Descending(s.uv, us, th);
    if Found(s.uv, us, i, th, slot) {
    } else {
      NotFound(s, th, slot, i);
      InsertValid(s, th, slot, u, i);
    }
  }

  lemma NotFound(s: State, th: Th, slot: nat, i: nat)
    requires Valid(s) && th in s.open && i == Scan(s.uv, s.open[th], th, slot) && !Found(s.uv, s.open[th], i, th, slot)
    ensures !exists y :: y in s.uv && s.uv[y] == Open(th, slot)
    ensures forall k :: i <= k < |s.open[th]| ==> s.uv[s.open[th][k]].slot < slot
  {
    var us := s.open[th];
    assert Descending(s.uv, us, th);
    forall k | i <= k < |us|
      ensures s.uv[us[k]].slot < slot
    {
      assert OpenAt(s.uv, us[i], th) && OpenAt(s.uv, us[k], th);
    }
    forall y | y in s.uv
      ensures s.uv[y] != Open(th, slot)
    {
      if s.uv[y].Open? && s.uv[y].th == th {
        var k :| 0 <= k < |us| && us[k] == y;
      }
    }
  }

  lemma InsertValid(s: State, th: Th, slot: nat, u: Id, i: nat)
    requires Valid(s) && IsSlot(s, th, slot) && u !in s.uv && i <= |s.open[th]|
    requires forall k :: 0 <= k < i ==> s.uv[s.open[th][k]].slot > slot
    requires forall k :: i <= k < |s.open[th]| ==> s.uv[s.open[th][k]].slot < slot
    ensures Valid(s.(open := s.open[th := s.open[th][..i] + [u] + s.open[th][i..]], uv := s.uv[u := Open(th, slot)]))
  {
    var us := s.open[th];
    var us' := us[..i] + [u] + us[i..];
    var uv' := s.uv[u := Open(th, slot)];
    InsertDescends(s.uv, us, th, slot, u, i);
    hide Descending;
    forall t | t in s.open && t != th
      ensures Descending(uv', s.open[t], t)
    {
      assert forall k :: 0 <= k < |s.open[t]| ==> OpenAt(s.uv, s.open[t][k], t);
    }
    forall x | x in uv' && uv'[x].Open?
      ensures x in s.open[th := us'][uv'[x].th]
    {
      InsertedMember(us, u, i, x);
    }
  }

  lemma InsertedMember(us: seq<Id>, u: Id, i: nat, x: Id)
    requires i <= |us|
    ensures x in us[..i] + [u] + us[i..] <==> x in us || x == u
  {
    assert us == us[..i] + us[i..];
  }

  lemma InsertDescends(uv: map<Id, UpVal>, us: seq<Id>, th: Th, slot: nat, u: Id, i: nat)
    requires Descending(uv, us, th) && u !in uv && i <= |us|
    requires forall k :: 0 <= k < i ==> us[k] in uv && uv[us[k]].Open? && uv[us[k]].slot > slot
    requires forall k :: i <= k < |us| ==> us[k] in uv && uv[us[k]].Open? && uv[us[k]].slot < slot
    ensures Descending(uv[u := Open(th, slot)], us[..i] + [u] + us[i..], th)
  {
    var us' := us[..i] + [u] + us[i..];
    var uv' := uv[u := Open(th, slot)];
    forall k | 0 <= k < |us'|
      ensures us'[k] == if k < i then us[k] else if k == i then u else us[k - 1]
      ensures OpenAt(uv', us'[k], th)
    {
      assert k < i ==> OpenAt(uv, us[k], th);
      assert k > i ==> OpenAt(uv, us[k - 1], th);
    }
  }

  // ---------- Stack and upvalues stand for cells ----------

  /** `rep` gives the cell that each upvalue stands for. */
  ghost predicate Refines(s: State, c: Cells, rep: map<Id, Cell>) {
    && SlotsAre(s.stacks, c.env, c.val) && rep.Keys == s.uv.Keys && OneToOne(rep)
    && (forall u :: u in s.uv ==> UpvalIs(s.uv[u], c.env, c.val, rep[u]))
    && c.names.Keys == s.names.Keys && (forall n :: n in s.names ==> s.names[n] in rep && c.names[n] == rep[s.names[n]])
  }

  ghost predicate SlotsAre(stacks: map<Th, seq<Value>>, env: map<Th, seq<Cell>>, val: map<Cell, Value>) {
    && env.Keys == stacks.Keys
    && (forall th :: th in stacks ==> |env[th]| == |stacks[th]|)
    && (forall th, i, x :: VarAt(env, th, i, x) ==> x in val && val[x] == stacks[th][i])
  }

  ghost predicate OneToOne(rep: map<Id, Cell>) {
    forall u, u' :: u in rep && u' in rep && rep[u] == rep[u'] ==> u == u'
  }

  /** An open upvalue is the cell of its variable; a closed one is a cell of no active variable. */
  ghost predicate UpvalIs(u: UpVal, env: map<Th, seq<Cell>>, val: map<Cell, Value>, x: Cell) {
    x in val &&
    match u
    case Open(th, i) => VarAt(env, th, i, x)
    case Closed(v) => val[x] == v && forall th, i :: !VarAt(env, th, i, x)
  }

  lemma {:induction false} RenewEffect(c: Cells, th: Th, level: nat)
    requires CellsValid(c) && th in c.env
    ensures var c' := Renew(c, th, level);
            && CellsValid(c') && c'.names == c.names && c'.env.Keys == c.env.Keys && c'.next >= c.next
            && |c'.env[th]| == |c.env[th]| && (forall t :: t in c.env && t != th ==> c'.env[t] == c.env[t])
            && (forall x :: x in c.val ==> x in c'.val && c'.val[x] == c.val[x])
            && (forall i :: 0 <= i < |c.env[th]| ==> if i < level then c'.env[th][i] == c.env[th][i]
                  else
                    c'.env[th][i] >= c.next && c'.env[th][i] in c'.val && c.env[th][i] in c.val
                    && c'.val[c'.env[th][i]] == c.val[c.env[th][i]])
    decreases if level < |c.env[th]| then |c.env[th]| - level else 0
  {
    var env: seq<Cell> := c.env[th];
    if level < |env| {
      var env': seq<Cell> := env[level := c.next];
      var c1 := c.(env := c.env[th := env'], val := c.val[c.next := c.val[env[level]]], next := c.next + 1);
      RenewOne(c, c1, th, level, env');
      RenewEffect(c1, th, level + 1);
      var c' := Renew(c1, th, level + 1);
      forall i | 0 <= i < |env|
        ensures if i < level then c'.env[th][i] == env[i]
                else
                  c'.env[th][i] >= c.next && c'.env[th][i] in c'.val && env[i] in c.val
                  && c'.val[c'.env[th][i]] == c.val[env[i]]
      {
        assert i != level ==> env'[i] == env[i];
        assert env[i] in env;
      }
    }
  }

  lemma RenewOne(c: Cells, c1: Cells, th: Th, level: nat, env': seq<Cell>)
    requires CellsValid(c) && th in c.env && level < |c.env[th]| && env' == c.env[th][level := c.next]
    requires c.next in c1.val && c1 == c.(env := c.env[th := env'], val := c.val[c.next := c1.val[c.next]],
                                          next := c.next + 1)
    ensures CellsValid(c1)
  {
    assert c.next !in c.val;
    forall t | t in c1.env
      ensures forall x :: x in c1.env[t] ==> x in c1.val
    {
      forall x | x in c1.env[t]
        ensures x in c1.val
      {
        if t == th {
          var i :| 0 <= i < |env'| && env'[i] == x;
          assert i != level ==> c.env[th][i] in c.env[th];
        }
      }
    }
    forall t, i, t', j, x | VarAt(c1.env, t, i, x) && VarAt(c1.env, t', j, x)
      ensures t == t' && i == j
    {
      assert !(t == th && i == level) ==> VarAt(c.env, t, i, x) && x in c.env[t];
      assert !(t' == th && j == level) ==> VarAt(c.env, t', j, x) && x in c.env[t'];
    }
  }

  lemma VarHasValue(c: Cells, th: Th, i: int, x: Cell)
    requires CellsValid(c) && VarAt(c.env, th, i, x)
    ensures x in c.val && x < c.next
  {
    assert x in c.env[th];
  }

  // ---------- One step ----------

  ghost predicate Agree(s: State, c: Cells, rep: map<Id, Cell>) {
    Valid(s) && CellsValid(c) && Refines(s, c, rep)
  }

  lemma CellChanged(c: Cells, x: Cell, v: Value)
    requires CellsValid(c) && x in c.val
    ensures CellsValid(c.(val := c.val[x := v]))
  {
  }

  lemma CellNamed(c: Cells, name: nat, x: Cell)
    requires CellsValid(c) && x in c.val
    ensures CellsValid(c.(names := c.names[name := x]))
  {
  }

  /** Writing one cell, through a slot or through an upvalue. */
  lemma WriteCell(s: State, c: Cells, rep: map<Id, Cell>, th: Th, i: nat, x: Cell, v: Value)
    requires Agree(s, c, rep) && IsSlot(s, th, i) && VarAt(c.env, th, i, x)
    ensures Agree(s.(stacks := s.stacks[th := s.stacks[th][i := v]]), c.(val := c.val[x := v]), rep)
  {
    hide Valid, CellsValid, OneToOne;
    var s', c' := s.(stacks := s.stacks[th := s.stacks[th][i := v]]), c.(val := c.val[x := v]);
    VarHasValue(c, th, i, x);
    CellChanged(c, x, v);
    SameOpen(s, s');
    OneSlot(s, c, th, i, x, v);
    forall u | u in s'.uv
      ensures UpvalIs(s'.uv[u], c'.env, c'.val, rep[u])
    {
      assert UpvalIs(s.uv[u], c.env, c.val, rep[u]);
    }
  }

  lemma OneSlot(s: State, c: Cells, th: Th, i: nat, x: Cell, v: Value)
    requires SlotsAre(s.stacks, c.env, c.val) && CellsValid(c) && IsSlot(s, th, i) && VarAt(c.env, th, i, x)
    ensures SlotsAre(s.stacks[th := s.stacks[th][i := v]], c.env, c.val[x := v])
  {
    forall t, j, y | VarAt(c.env, t, j, y)
      ensures y in c.val[x := v] && c.val[x := v][y] == s.stacks[th := s.stacks[th][i := v]][t][j]
    {
      assert VarAt(c.env, th, i, x);
    }
  }

  /** The open lists do not depend on the stack's contents. */
  lemma SameOpen(s: State, s': State)
    requires Valid(s) && s' == s.(stacks := s'.stacks) && s'.stacks.Keys == s.stacks.Keys
    requires forall th :: th in s.stacks ==> |s'.stacks[th]| == |s.stacks[th]|
    ensures Valid(s')
  {
  }

  lemma WriteClosed(s: State, c: Cells, rep: map<Id, Cell>, u: Id, v: Value)
    requires Agree(s, c, rep) && u in s.uv && s.uv[u].Closed?
    ensures Agree(s.(uv := s.uv[u := Closed(v)]), c.(val := c.val[rep[u] := v]), rep)
  {
    hide Valid, CellsValid;
    var x := rep[u];
    var s', c' := s.(uv := s.uv[u := Closed(v)]), c.(val := c.val[x := v]);
    assert UpvalIs(s.uv[u], c.env, c.val, x);
    CellChanged(c, x, v);
    forall w | w in s'.uv
      ensures UpvalIs(s'.uv[w], c'.env, c'.val, rep[w])
    {
      assert UpvalIs(s.uv[w], c.env, c.val, rep[w]);
    }
    ClosedStays(s, s', u);
  }

  lemma ClosedStays(s: State, s': State, u: Id)
    requires Valid(s) && u in s.uv && s.uv[u].Closed? && s'.uv.Keys == s.uv.Keys && s'.uv[u].Closed?
    requires s' == s.(uv := s'.uv) && forall w :: w in s.uv && w != u ==> s'.uv[w] == s.uv[w]
    ensures Valid(s')
  {
    forall th | th in s'.open
      ensures Descending(s'.uv, s'.open[th], th)
    {
      assert Descending(s.uv, s.open[th], th);
      assert forall i :: 0 <= i < |s.open[th]| ==> OpenAt(s.uv, s.open[th][i], th);
    }
  }

  lemma WriteUpvalValid(s: State, u: Id, v: Value)
    requires Valid(s)
    ensures Valid(WriteUpval(s, u, v))
  {
    if u in s.uv && s.uv[u].Closed? {
      ClosedStays(s, WriteUpval(s, u, v), u);
    } else {
      SameOpen(s, WriteUpval(s, u, v));
    }
  }

  lemma ReadCell(s: State, c: Cells, rep: map<Id, Cell>, u: Id)
    requires Agree(s, c, rep) && u in s.uv
    ensures rep[u] in c.val && ReadUpval(s, u) == c.val[rep[u]]
  {
    assert UpvalIs(s.uv[u], c.env, c.val, rep[u]);
  }

  lemma ThreadHas(s: State, c: Cells, rep: map<Id, Cell>, th: Th, i: nat)
    requires Agree(s, c, rep) && IsSlot(s, th, i)
    ensures th in s.open && th in c.env && i < |c.env[th]| && c.env[th][i] in c.val
  {
    assert VarAt(c.env, th, i, c.env[th][i]);
  }

  /** A cell is the variable of one slot at most. */
  lemma OneVar(c: Cells, th: Th, i: nat, w: UpVal, x: Cell)
    requires CellsValid(c) && VarAt(c.env, th, i, x)
    ensures w.Open? && VarAt(c.env, w.th, w.slot, x) ==> w == Open(th, i)
  {
  }

  lemma CaptureCell(s: State, c: Cells, rep: map<Id, Cell>, th: Th, i: nat, u: Id) returns (rep': map<Id, Cell>)
    requires Agree(s, c, rep) && IsSlot(s, th, i) && u !in s.uv
    ensures var (s', x) := FindUpval(s, th, i, u);
            && Agree(s', c, rep') && x in rep' && VarAt(c.env, th, i, rep'[x])
  {
    hide Valid, FindUpval, SlotsAre, CellsValid;
    ThreadHas(s, c, rep, th, i);
    var (s', x) := FindUpval(s, th, i, u);
    FindExactly(s, th, i, u);
    var y := c.env[th][i];
    assert VarAt(c.env, th, i, y);
    VarHasValue(c, th, i, y);
    if s' == s {
      rep' := rep;
      assert UpvalIs(s.uv[x], c.env, c.val, rep[x]);
    } else {
      rep' := rep[u := y];
      forall w | w in s'.uv
        ensures UpvalIs(s'.uv[w], c.env, c.val, rep'[w]) && (w != u ==> rep[w] != y)
      {
        if w != u {
          assert UpvalIs(s.uv[w], c.env, c.val, rep[w]);
          OneVar(c, th, i, s.uv[w], y);
        }
      }
    }
  }

  lemma CloseCells(s: State, c: Cells, rep: map<Id, Cell>, th: Th, level: nat)
    requires Agree(s, c, rep) && th in s.stacks
    ensures Agree(Close(s, th, level), Renew(c, th, level), rep)
  {
    CloseExactly(s, th, level);
    RenewEffect(c, th, level);
    var s', c' := Close(s, th, level), Renew(c, th, level);
    RenewedVars(s, c, th, level, c');
    assert SlotsAre(s'.stacks, c'.env, c'.val);
    forall u | u in s'.uv
      ensures UpvalIs(s'.uv[u], c'.env, c'.val, rep[u])
    {
      CloseCell(s, c, rep, th, level, u, s', c');
    }
  }

  /** What the variable `x` in a slot was before those of `th` from `level` on were renewed. */
  ghost predicate WasVar(c: Cells, th: Th, level: nat, t: Th, i: int, x: Cell) {
    t in c.env && 0 <= i < |c.env[t]| && if t == th && i >= level then x >= c.next else x == c.env[t][i]
  }

  /** The variables after closing, in the terms of those before. */
  lemma RenewedVars(s: State, c: Cells, th: Th, level: nat, c': Cells)
    requires CellsValid(c) && SlotsAre(s.stacks, c.env, c.val) && th in c.env && c' == Renew(c, th, level)
    ensures forall t: Th, i: int, x: Cell :: VarAt(c'.env, t, i, x) ==>
              WasVar(c, th, level, t, i, x)
    ensures SlotsAre(s.stacks, c'.env, c'.val)
  {
    RenewEffect(c, th, level);
    forall t: Th, i: int, x: Cell | VarAt(c'.env, t, i, x)
      ensures x in c'.val && c'.val[x] == s.stacks[t][i]
      ensures WasVar(c, th, level, t, i, x)
    {
      assert VarAt(c.env, t, i, c.env[t][i]);
      VarHasValue(c, t, i, c.env[t][i]);
    }
  }

  lemma CloseCell(s: State, c: Cells, rep: map<Id, Cell>, th: Th, level: nat, u: Id, s': State, c': Cells)
    requires Agree(s, c, rep) && ClosedFrom(s, s'.uv, th, level) && u in s.uv
    requires c'.env.Keys == c.env.Keys && forall x :: x in c.val ==> x in c'.val && c'.val[x] == c.val[x]
    requires forall t :: t in c.env ==> |c'.env[t]| == |c.env[t]|
    requires forall t: Th, i: int, x: Cell :: VarAt(c'.env, t, i, x) ==> WasVar(c, th, level, t, i, x)
    ensures UpvalIs(s'.uv[u], c'.env, c'.val, rep[u])
  {
    var x := rep[u];
    assert UpvalIs(s.uv[u], c.env, c.val, x);
    forall t: Th, i: int | VarAt(c'.env, t, i, x)
      ensures VarAt(c.env, t, i, x)
    {
      assert WasVar(c, th, level, t, i, x);
    }
    match s.uv[u]
    case Open(t, i) =>
      assert VarAt(c'.env, t, i, c'.env[t][i]);
      assert WasVar(c, th, level, t, i, c'.env[t][i]);
    case Closed(v) =>
  }

  /** One step of the program: it sees the same, and the states stay related. */
  lemma StepRefines(s: State, c: Cells, rep: map<Id, Cell>, op: Op) returns (rep': map<Id, Cell>)
    requires Agree(s, c, rep) && Enabled(s, op)
    ensures CellEnabled(c, op)
    ensures var (s', seen) := Step(s, op);
            var (c', seen') := CellStep(c, op);
            seen == seen' && Agree(s', c', rep')
  {
    hide Valid, CellsValid, OneToOne, FindUpval;
    rep' := rep;
    match op
    case GetLocal(th, i) => assert VarAt(c.env, th, i, c.env[th][i]);
    case SetLocal(th, i, v) =>
      assert VarAt(c.env, th, i, c.env[th][i]);
      WriteCell(s, c, rep, th, i, c.env[th][i], v);
    case Capture(th, i, name, u) =>
      rep' := CaptureCell(s, c, rep, th, i, u);
      NameCell(FindUpval(s, th, i, u).0, c, rep', name, FindUpval(s, th, i, u).1);
    case Share(name, from) => NameCell(s, c, rep, name, s.names[from]);
    case GetUpval(n) => ReadCell(s, c, rep, s.names[n]);
    case SetUpval(n, v) =>
      var u := s.names[n];
      assert UpvalIs(s.uv[u], c.env, c.val, rep[u]);
      if s.uv[u].Open? {
        WriteCell(s, c, rep, s.uv[u].th, s.uv[u].slot, rep[u], v);
      } else {
        WriteClosed(s, c, rep, u, v);
      }
    case CloseFrom(th, level) => CloseCells(s, c, rep, th, level);
  }

  lemma NameCell(s: State, c: Cells, rep: map<Id, Cell>, name: nat, u: Id)
    requires Agree(s, c, rep) && u in s.uv
    ensures Agree(s.(names := s.names[name := u]), c.(names := c.names[name := rep[u]]), rep)
  {
    assert UpvalIs(s.uv[u], c.env, c.val, rep[u]);
    hide CellsValid, UpvalIs, SlotsAre, OneToOne, Descending;
    CellNamed(c, name, rep[u]);
  }

  // ---------- Whole runs ----------

  ghost predicate Runs(s: State, ops: seq<Op>)
    decreases |ops|
  {
    ops == [] || (Enabled(s, ops[0]) && Runs(Step(s, ops[0]).0, ops[1..]))
  }

  /** What the program sees in the course of a run. */
  ghost function Seen(s: State, ops: seq<Op>): seq<Value>
    requires Runs(s, ops)
    decreases |ops|
  {
    if ops == [] then [] else [Step(s, ops[0]).1] + Seen(Step(s, ops[0]).0, ops[1..])
  }

  ghost predicate SeenWithCells(c: Cells, ops: seq<Op>, seen: seq<Value>)
    decreases |ops|
  {
    if ops == [] then seen == []
    else
      && CellsValid(c) && CellEnabled(c, ops[0]) && seen != [] && seen[0] == CellStep(c, ops[0]).1
      && SeenWithCells(CellStep(c, ops[0]).0, ops[1..], seen[1..])
  }

  /** Upvalues refine shared cells: no run of a program can tell them apart. */
  lemma {:induction false} UpvaluesAreCells(s: State, c: Cells, rep: map<Id, Cell>, ops: seq<Op>)
    requires Agree(s, c, rep) && Runs(s, ops)
    ensures SeenWithCells(c, ops, Seen(s, ops))
    decreases |ops|
  {
    if ops != [] {
      var rep' := StepRefines(s, c, rep, ops[0]);
      UpvaluesAreCells(Step(s, ops[0]).0, CellStep(c, ops[0]).0, rep', ops[1..]);
    }
  }

  /** A run starts with every slot a variable of its own and nothing captured. */
  lemma StartAgrees(s: State, c: Cells)
    requires s.uv == map[] && s.names == map[] == c.names && s.open.Keys == s.stacks.Keys
    requires forall th :: th in s.open ==> s.open[th] == []
    requires CellsValid(c) && SlotsAre(s.stacks, c.env, c.val)
    ensures Agree(s, c, map[])
  {
    assert c.names.Keys == s.names.Keys;
  }
}
