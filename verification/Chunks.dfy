/** Precompiled chunks (ldump.cpp, lundump.cpp): the bytes a function is written as, what reading them
    gives, and that the one undoes the other. The format is that of a little-endian machine with 4-byte
    int and Instruction, 8-byte size_t and lua_Number. */
module Chunks {
  import opened Common

  type Byte = b: int | 0 <= b < 256
  type Bytes = seq<Byte>
  type Word = w: int | 0 <= w < 0x1_0000_0000
  type Raw8 = b: Bytes | |b| == 8 witness [0, 0, 0, 0, 0, 0, 0, 0]

  /** A string pointer: null or the interned contents, so that pointers are equal when contents are. */
  type Str = Option<Bytes>

  datatype Const = KNil | KBool(b: Byte) | KNum(raw: Raw8) | KStr(s: Str)
  datatype LocVar = LocVar(name: Str, startPc: int, endPc: int)

  /** The fields of a prototype that come before its code. */
  datatype Frame = Frame(source: Str, lineDefined: int, lastLineDefined: int, nups: Byte, numParams: Byte,
                         isVararg: Byte, maxStack: Byte)
  datatype Debug = Debug(lineInfo: seq<Word>, locVars: seq<LocVar>, upvalues: seq<Str>)
  datatype Proto = Proto(frame: Frame, code: seq<Word>, k: seq<Const>, p: seq<Proto>, debug: Debug)

  const INT_MAX: int := 0x7FFF_FFFF
  const LUA_TNIL: Byte := 0
  const LUA_TBOOLEAN: Byte := 1
  const LUA_TNUMBER: Byte := 3
  const LUA_TSTRING: Byte := 4

  /** `luaU_header`. */
  const HEADER: Bytes := [27, 76, 117, 97, 0x51, 0, 1, 4, 8, 4, 8, 0]

  /** The source name of a chunk that has none: "=?". */
  const UNKNOWN: Str := Some([61, 63])

  // ---------- Numbers as bytes ----------

  function Pow256(k: nat): (r: nat)
    ensures r > 0
  {
    if k == 0 then 1 else 256 * Pow256(k - 1)
  }

  function LE(w: nat, k: nat): (b: Bytes)
    ensures |b| == k
  {
    if k == 0 then [] else [w % 256] + LE(w / 256, k - 1)
  }

  function UnLE(b: Bytes): nat {
    if b == [] then 0 else b[0] + 256 * UnLE(b[1..])
  }

  lemma {:induction false} UnLEUndoesLE(w: nat, k: nat)
    requires w < Pow256(k)
    ensures UnLE(LE(w, k)) == w
  {
    if k > 0 {
      UnLEUndoesLE(w / 256, k - 1);
      assert LE(w, k)[1..] == LE(w / 256, k - 1);
    }
  }

  lemma {:induction false} UnLEBound(b: Bytes)
    ensures UnLE(b) < Pow256(|b|)
  {
    if b != [] {
      UnLEBound(b[1..]);
    }
  }

  lemma Pow256Values()
    ensures Pow256(4) == 0x1_0000_0000 && Pow256(8) == 0x1_0000_0000_0000_0000
  {
    assert Pow256(1) == 256 && Pow256(2) == 0x1_0000 && Pow256(3) == 0x100_0000;
    assert Pow256(5) == 0x100_0000_0000 && Pow256(6) == 0x1_0000_0000_0000 && Pow256(7) == 0x100_0000_0000_0000;
  }

  // ---------- Writing ----------

  function EncodeInt(x: nat): (b: Bytes)
    ensures |b| == 4
  {
    LE(x, 4)
  }

  function EncodeString(s: Str): Bytes {
    match s
    case None => LE(0, 8)
    case Some(v) => LE(|v| + 1, 8) + (v + [0])
  }

  /** The memory image of a vector of 4-byte elements. */
  function Image(ws: seq<Word>): (b: Bytes)
    ensures |b| == 4 * |ws|
  {
    if ws == [] then [] else LE(ws[0], 4) + Image(ws[1..])
  }

  function EncodeVector(ws: seq<Word>): Bytes {
    EncodeInt(|ws|) + Image(ws)
  }

  function EncodeConst(c: Const): Bytes {
    match c
    case KNil => [LUA_TNIL]
    case KBool(b) => [LUA_TBOOLEAN] + [b]
    case KNum(raw) => [LUA_TNUMBER] + raw
    case KStr(s) => [LUA_TSTRING] + EncodeString(s)
  }

  function EncodeConsts(ks: seq<Const>): Bytes {
    if ks == [] then [] else EncodeConst(ks[0]) + EncodeConsts(ks[1..])
  }

  function EncodeLocVar(v: LocVar): Bytes
    requires LocVarFits(v)
  {
    EncodeString(v.name) + (EncodeInt(v.startPc) + EncodeInt(v.endPc))
  }

  function EncodeLocVars(vs: seq<LocVar>): Bytes
    requires forall i :: 0 <= i < |vs| ==> LocVarFits(vs[i])
  {
    if vs == [] then [] else EncodeLocVar(vs[0]) + EncodeLocVars(vs[1..])
  }

  function EncodeNames(ns: seq<Str>): Bytes {
    if ns == [] then [] else EncodeString(ns[0]) + EncodeNames(ns[1..])
  }

  function EncodeFrame(f: Frame): Bytes
    requires FrameFits(f)
  {
    EncodeString(f.source) + (EncodeInt(f.lineDefined) +
                              (EncodeInt(f.lastLineDefined) + [f.nups, f.numParams, f.isVararg, f.maxStack]))
  }

  function EncodeDebug(d: Debug): Bytes
    requires DebugFits(d)
  {
    EncodeVector(d.lineInfo) + ((EncodeInt(|d.locVars|) + EncodeLocVars(d.locVars)) +
                                (EncodeInt(|d.upvalues|) + EncodeNames(d.upvalues)))
  }

  const NO_DEBUG := Debug([], [], [])

  /** `DumpFunction`: the source is left out where it is the enclosing function's. */
  function EncodeProto(f: Proto, p: Str, strip: bool): Bytes
    requires Fits(f)
    decreases f
  {
    EncodeFrame(f.frame.(source := if f.frame.source == p || strip then None else f.frame.source)) +
    (EncodeVector(f.code) +
     ((EncodeInt(|f.k|) + EncodeConsts(f.k)) +
      ((EncodeInt(|f.p|) + EncodeProtos(f.p, f.frame.source, strip)) +
       EncodeDebug(if strip then NO_DEBUG else f.debug))))
  }

  function EncodeProtos(fs: seq<Proto>, p: Str, strip: bool): Bytes
    requires AllFit(fs)
    decreases fs
  {
    if fs == [] then [] else EncodeProto(fs[0], p, strip) + EncodeProtos(fs[1..], p, strip)
  }

  /** `luaU_dump`. */
  function EncodeChunk(f: Proto, strip: bool): Bytes
    requires Fits(f)
  {
    HEADER + EncodeProto(f, None, strip)
  }

  // ---------- What fits the format ----------

  predicate StrFits(s: Str) {
    s.Some? ==> |s.value| + 1 < 0x1_0000_0000_0000_0000
  }

  predicate ConstFits(c: Const) {
    c.KStr? ==> StrFits(c.s)
  }

  predicate LocVarFits(v: LocVar) {
    StrFits(v.name) && 0 <= v.startPc <= INT_MAX && 0 <= v.endPc <= INT_MAX
  }

  predicate FrameFits(f: Frame) {
    StrFits(f.source) && 0 <= f.lineDefined <= INT_MAX && 0 <= f.lastLineDefined <= INT_MAX
  }

  predicate DebugFits(d: Debug) {
    && |d.lineInfo| <= INT_MAX && |d.locVars| <= INT_MAX && |d.upvalues| <= INT_MAX
    && (forall i :: 0 <= i < |d.locVars| ==> LocVarFits(d.locVars[i]))
    && (forall i :: 0 <= i < |d.upvalues| ==> StrFits(d.upvalues[i]))
  }

  /** Sizes are ints, and no int is negative. */
  predicate Fits(f: Proto)
    decreases f
  {
    && FrameFits(f.frame) && |f.code| <= INT_MAX && |f.k| <= INT_MAX && |f.p| <= INT_MAX && DebugFits(f.debug)
    && (forall i :: 0 <= i < |f.k| ==> ConstFits(f.k[i]))
    && AllFit(f.p)
  }

  predicate AllFit(fs: seq<Proto>)
    decreases fs
  {
    forall i :: 0 <= i < |fs| ==> Fits(fs[i])
  }

  // ---------- Reading ----------

  datatype LoadError = UnexpectedEnd | BadInteger | BadConstant | BadCode | BadHeader
  datatype Res<T> = Got(v: T, rest: Bytes) | Err(e: LoadError)

  function Take(s: Bytes, n: nat): Res<Bytes> {
    if n <= |s| then Got(s[..n], s[n..]) else Err(UnexpectedEnd)
  }

  function DecodeByte(s: Bytes): Res<Byte> {
    if s == [] then Err(UnexpectedEnd) else Got(s[0], s[1..])
  }

  /** `LoadInt`: an int with its sign bit set is refused. */
  function DecodeInt(s: Bytes): (r: Res<int>)
    ensures r.Got? ==> 0 <= r.v <= INT_MAX && |r.rest| < |s|
  {
    match Take(s, 4)
    case Err(e) => Err(e)
    case Got(b, rest) => if UnLE(b) > INT_MAX then Err(BadInteger) else Got(UnLE(b), rest)
  }

  function DecodeString(s: Bytes): (r: Res<Str>)
    ensures r.Got? ==> |r.rest| < |s|
  {
    match Take(s, 8)
    case Err(e) => Err(e)
    case Got(b, rest) =>
      if UnLE(b) == 0 then Got(None, rest)
      else
        match Take(rest, UnLE(b))
        case Err(e) => Err(e)
        case Got(v, rest1) => Got(Some(v[..|v| - 1]), rest1)
  }

  function Words(b: Bytes): (ws: seq<Word>)
    requires |b| % 4 == 0
  {
    if b == [] then []
    else
      UnLEBound(b[..4]);
      Pow256Values();
      [UnLE(b[..4])] + Words(b[4..])
  }

  function DecodeVector(s: Bytes): (r: Res<seq<Word>>)
    ensures r.Got? ==> |r.rest| < |s|
  {
    match DecodeInt(s)
    case Err(e) => Err(e)
    case Got(n, rest) =>
      match Take(rest, 4 * n)
      case Err(e) => Err(e)
      case Got(b, rest1) => Got(Words(b), rest1)
  }

  function DecodeConst(s: Bytes): (r: Res<Const>)
    ensures r.Got? ==> |r.rest| < |s|
  {
    match DecodeByte(s)
    case Err(e) => Err(e)
    case Got(t, rest) =>
      if t == LUA_TNIL then Got(KNil, rest)
      else if t == LUA_TBOOLEAN then
        match DecodeByte(rest)
        case Err(e) => Err(e)
        case Got(b, rest1) => Got(KBool(b), rest1)
      else if t == LUA_TNUMBER then
        match Take(rest, 8)
        case Err(e) => Err(e)
        case Got(b, rest1) => Got(KNum(b), rest1)
      else if t == LUA_TSTRING then
        match DecodeString(rest)
        case Err(e) => Err(e)
        case Got(v, rest1) => Got(KStr(v), rest1)
      else Err(BadConstant)
  }

  /** `n` more constants behind those in `got`. */
  function DecodeConsts(n: nat, s: Bytes, got: seq<Const>): (r: Res<seq<Const>>)
    ensures r.Got? ==> |r.rest| <= |s|
    decreases n
  {
    if n == 0 then Got(got, s)
    else
      match DecodeConst(s)
      case Err(e) => Err(e)
      case Got(c, rest) => DecodeConsts(n - 1, rest, got + [c])
  }

  function DecodeLocVar(s: Bytes): (r: Res<LocVar>)
    ensures r.Got? ==> |r.rest| < |s|
  {
    match DecodeString(s)
    case Err(e) => Err(e)
    case Got(name, rest) =>
      match DecodeInt(rest)
      case Err(e) => Err(e)
      case Got(a, rest1) =>
        match DecodeInt(rest1)
        case Err(e) => Err(e)
        case Got(b, rest2) => Got(LocVar(name, a, b), rest2)
  }

  function DecodeLocVars(n: nat, s: Bytes, got: seq<LocVar>): (r: Res<seq<LocVar>>)
    ensures r.Got? ==> |r.rest| <= |s|
    decreases n
  {
    if n == 0 then Got(got, s)
    else
      match DecodeLocVar(s)
      case Err(e) => Err(e)
      case Got(v, rest) => DecodeLocVars(n - 1, rest, got + [v])
  }

  function DecodeNames(n: nat, s: Bytes, got: seq<Str>): (r: Res<seq<Str>>)
    ensures r.Got? ==> |r.rest| <= |s|
    decreases n
  {
    if n == 0 then Got(got, s)
    else
      match DecodeString(s)
      case Err(e) => Err(e)
      case Got(v, rest) => DecodeNames(n - 1, rest, got + [v])
  }

  /** The frame, where a missing source is the enclosing function's. */
  function DecodeFrame(s: Bytes, p: Str): (r: Res<Frame>)
    ensures r.Got? ==> |r.rest| < |s|
  {
    match DecodeString(s)
    case Err(e) => Err(e)
    case Got(source, rest) =>
      match DecodeInt(rest)
      case Err(e) => Err(e)
      case Got(a, rest1) =>
        match DecodeInt(rest1)
        case Err(e) => Err(e)
        case Got(b, rest2) =>
          match Take(rest2, 4)
          case Err(e) => Err(e)
          case Got(x, rest3) => Got(Frame(if source == None then p else source, a, b, x[0], x[1], x[2], x[3]), rest3)
  }

  function DecodeDebug(s: Bytes): (r: Res<Debug>)
    ensures r.Got? ==> |r.rest| < |s|
  {
    match DecodeVector(s)
    case Err(e) => Err(e)
    case Got(lines, rest) =>
      match DecodeInt(rest)
      case Err(e) => Err(e)
      case Got(n, rest1) =>
        match DecodeLocVars(n, rest1, [])
        case Err(e) => Err(e)
        case Got(vs, rest2) =>
          match DecodeInt(rest2)
          case Err(e) => Err(e)
          case Got(m, rest3) =>
            match DecodeNames(m, rest3, [])
            case Err(e) => Err(e)
            case Got(ns, rest4) => Got(Debug(lines, vs, ns), rest4)
  }

  /** `LoadFunction`; `check` stands for luaG_checkcode. */
  function DecodeProto(s: Bytes, p: Str, check: Proto -> bool): (r: Res<Proto>)
    ensures r.Got? ==> |r.rest| < |s|
    decreases |s|, 0
  {
    match DecodeFrame(s, p)
    case Err(e) => Err(e)
    case Got(frame, rest) =>
      match DecodeVector(rest)
      case Err(e) => Err(e)
      case Got(code, rest1) =>
        match DecodeInt(rest1)
        case Err(e) => Err(e)
        case Got(n, rest2) =>
          match DecodeConsts(n, rest2, [])
          case Err(e) => Err(e)
          case Got(ks, rest3) =>
            match DecodeInt(rest3)
            case Err(e) => Err(e)
            case Got(m, rest4) =>
              match DecodeProtos(m, rest4, frame.source, check, [])
              case Err(e) => Err(e)
              case Got(ps, rest5) =>
                match DecodeDebug(rest5)
                case Err(e) => Err(e)
                case Got(debug, rest6) =>
                  var f := Proto(frame, code, ks, ps, debug);
                  if check(f) then Got(f, rest6) else Err(BadCode)
  }

  function DecodeProtos(n: nat, s: Bytes, p: Str, check: Proto -> bool, got: seq<Proto>): (r: Res<seq<Proto>>)
    ensures r.Got? ==> |r.rest| <= |s|
    decreases |s|, 1, n
  {
    if n == 0 then Got(got, s)
    else
      match DecodeProto(s, p, check)
      case Err(e) => Err(e)
      case Got(f, rest) => DecodeProtos(n - 1, rest, p, check, got + [f])
  }

  /** `luaU_undump`. */
  function DecodeChunk(s: Bytes, check: Proto -> bool): Res<Proto> {
    match Take(s, |HEADER|)
    case Err(e) => Err(e)
    case Got(h, rest) => if h != HEADER then Err(BadHeader) else DecodeProto(rest, UNKNOWN, check)
  }
}
