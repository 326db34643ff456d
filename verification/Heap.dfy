/** The heap that the collector (lgc.cpp) works on: objects, the values they hold, and the
    collector's own lists. Pointers are identifiers; an identifier may be used again once the
    object it named has been freed. */
module Heap {

  type Id = nat

  /** A value as the collector sees it. `DeadKey` is the tag a removed table key gets. */
  datatype Value = Nil | Plain(n: int) | Ref(o: Id) | DeadKey(o: Id)

  datatype Node = Node(key: Value, val: Value)

  /** Which parts of a table are weak. */
  datatype Mode = Mode(keys: bool, values: bool)

  const STRONG := Mode(false, false)

  datatype Object =
    | Str
    | Udata(meta: Value, env: Value)
    | OpenUpval(thread: Id, slot: nat)
    | ClosedUpval(value: Value)
    | Closure(slots: seq<Value>)
    | Proto(slots: seq<Value>)
    | Table(meta: Value, arr: seq<Value>, nodes: seq<Node>,
            mode: Mode,       // what the `__mode` field of this table says when it is a metatable
            weakBits: Mode)   // the weakness bits of the `marked` byte
    | Thread(globals: Value, stack: seq<Value>, openUpvals: seq<Id>)

  type Objects = map<Id, Object>

  datatype Color = White(bit: bool) | Gray | Black

  type Colors = map<Id, Color>

  // ---------- The values an object holds ----------

  /** The array part in the order of the traversal, last slot first. */
  function ArrayValues(arr: seq<Value>, n: nat): seq<Value>
    requires n <= |arr|
  {
    if n == 0 then [] else [arr[n - 1]] + ArrayValues(arr, n - 1)
  }

  function NodeValues(n: Node, mode: Mode): seq<Value> {
    if n.val == Nil then []
    else (if mode.keys then [] else [n.key]) + (if mode.values then [] else [n.val])
  }

  /** The hash part in the order of the traversal; empty entries hold nothing. */
  function HashValues(nodes: seq<Node>, n: nat, mode: Mode): seq<Value>
    requires n <= |nodes|
  {
    if n == 0 then [] else NodeValues(nodes[n - 1], mode) + HashValues(nodes, n - 1, mode)
  }

  /** The current value of an upvalue that lives in a thread's stack. */
  function StackValue(h: Objects, thread: Id, slot: nat): Value {
    if thread in h && h[thread].Thread? && slot < |h[thread].stack| then h[thread].stack[slot] else Nil
  }

  /** The values `o` holds, leaving out the weak ones if it is a table traversed with `mode`. */
  function Values(h: Objects, o: Object, mode: Mode): seq<Value> {
    match o
    case Str => []
    case Udata(meta, env) => [meta, env]
    case OpenUpval(thread, slot) => [StackValue(h, thread, slot)]
    case ClosedUpval(value) => [value]
    case Closure(slots) => slots
    case Proto(slots) => slots
    case Table(meta, arr, nodes, _, _) =>
      [meta] + (if mode.values then [] else ArrayValues(arr, |arr|)) + HashValues(nodes, |nodes|, mode)
    case Thread(globals, stack, _) => [globals] + stack
  }

  /** The weakness a table has now: what its metatable says. */
  function TableMode(h: Objects, o: Object): Mode {
    if o.Table? && o.meta.Ref? && o.meta.o in h && h[o.meta.o].Table? then h[o.meta.o].mode else STRONG
  }

  predicate IsWeak(mode: Mode) {
    mode.keys || mode.values
  }

  ghost function Targets(vs: seq<Value>): set<Id> {
    set v | v in vs && v.Ref? :: v.o
  }

  /** Everything `o` refers to, weakly or not. */
  ghost function AllRefs(h: Objects, o: Id): set<Id>
    requires o in h
  {
    Targets(Values(h, h[o], STRONG))
  }

  /** What `o` refers to strongly, given the weakness its metatable asks for now. */
  ghost function StrongRefs(h: Objects, o: Id): set<Id>
    requires o in h
  {
    Targets(Values(h, h[o], TableMode(h, h[o])))
  }

  // ---------- Small facts about the value lists ----------

  lemma {:induction false} InArrayValues(arr: seq<Value>, n: nat, v: Value)
    requires n <= |arr|
    ensures v in ArrayValues(arr, n) <==> exists i :: 0 <= i < n && arr[i] == v
  {
    if n > 0 {
      InArrayValues(arr, n - 1, v);
    }
  }

  lemma {:induction false} InHashValues(nodes: seq<Node>, n: nat, mode: Mode, v: Value)
    requires n <= |nodes|
    ensures v in HashValues(nodes, n, mode) <==> exists i :: 0 <= i < n && v in NodeValues(nodes[i], mode)
  {
    if n > 0 {
      InHashValues(nodes, n - 1, mode, v);
    }
  }

  /** Leaving out weak values leaves values out, nothing else. */
  lemma ModeSubset(h: Objects, o: Object, mode: Mode)
    ensures Targets(Values(h, o, mode)) <= Targets(Values(h, o, STRONG))
  {
    forall v | v in Values(h, o, mode)
      ensures v in Values(h, o, STRONG)
    {
      if o.Table? && v != o.meta && v !in ArrayValues(o.arr, |o.arr|) {
        InHashValues(o.nodes, |o.nodes|, mode, v);
        InHashValues(o.nodes, |o.nodes|, STRONG, v);
      }
    }
  }
}
