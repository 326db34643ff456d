/** The dumper (ldump.cpp), the buffered stream (lzio.cpp) and the loader (lundump.cpp) at work. The
    writer's answers and the way the reader cuts its input into pieces are arbitrary. */
module ChunkIO {
  import opened Common
  import opened Chunks
  import opened ChunkRoundTrip

  // ---------- The stream ----------

  const EOZ := -1

  /** What the reader still has to say: an empty piece ends the stream. */
  function Flat(chunks: seq<Bytes>): Bytes {
    if chunks == [] || chunks[0] == [] then [] else chunks[0] + Flat(chunks[1..])
  }

  class ZIO {
    var chunks: seq<Bytes>
    var buff: Bytes
    var p: nat

    ghost predicate Valid()
      reads this
    {
      p <= |buff|
    }

    /** The bytes not yet read. */
    ghost function Stream(): Bytes
      requires Valid()
      reads this
    {
      buff[p..] + Flat(chunks)
    }

    constructor (chunks: seq<Bytes>)
      ensures Valid() && Stream() == Flat(chunks)
    {
      this.chunks := chunks;
      buff, p := [], 0;
    }

    /** `luaZ_fill`. */
    method Fill() returns (c: int)
      requires Valid() && p == |buff|
      modifies this
      ensures Valid() && (c == EOZ <==> old(Stream()) == [])
      ensures c != EOZ ==> p == 1 && old(Stream()) == buff + Flat(chunks) && c == buff[0]
    {
      if chunks == [] {
        return EOZ;
      }
      var piece := chunks[0];
      chunks := chunks[1..];
      if piece == [] {
        return EOZ;
      }
      buff, p := piece, 1;
      c := buff[0];
    }

    /** `luaZ_lookahead`. */
    method Lookahead() returns (c: int)
      requires Valid()
      modifies this
      ensures Valid() && (c == EOZ <==> old(Stream()) == [])
      ensures c != EOZ ==> p < |buff| && Stream() == old(Stream()) && c == Stream()[0]
    {
      if p == |buff| {
        c := Fill();
        if c == EOZ {
          return;
        }
        p := p - 1;
      }
      c := buff[p];
    }

    /** One copy out of the buffer. */
    method TakeFrom(b: Bytes, m: nat) returns (b': Bytes)
      requires Valid() && p + m <= |buff|
      modifies `p
      ensures Valid() && b + old(Stream()) == b' + Stream() && |b'| == |b| + m
    {
      b' := b + buff[p..p + m];
      assert buff[p..] == buff[p..p + m] + buff[p + m..];
      p := p + m;
    }

    /** `luaZ_read`: the bytes read, and how many are missing. */
    method Read(n0: nat) returns (b: Bytes, missing: nat)
      requires Valid()
      modifies this
      ensures Valid() && missing == if n0 <= |old(Stream())| then 0 else n0 - |old(Stream())|
      ensures b == old(Stream())[..n0 - missing] && (missing == 0 ==> Stream() == old(Stream())[n0..])
    {
      ghost var s := Stream();
      var n := n0;
      b := [];
      while n > 0
        invariant Valid() && 0 <= n <= n0 && s == b + Stream() && |b| == n0 - n
      {
        var c := Lookahead();
        if c == EOZ {
          missing := n;
          assert b + [] == b && b[..n0 - n] == b;
          return;
        }
        var m := if n <= |buff| - p then n else |buff| - p;
        b := TakeFrom(b, m);
        n := n - m;
      }
      missing := 0;
      assert (b + Stream())[..n0] == b && (b + Stream())[n0..] == Stream();
    }
  }

  // ---------- The loader ----------

  /** A value, or the error that was thrown. */
  datatype Out<T> = Done(v: T) | Thrown(e: LoadError)

  ghost predicate Reads<T>(o: Out<T>, r: Res<T>, after: Bytes) {
    match o
    case Done(v) => r == Got(v, after)
    case Thrown(e) => r == Err(e)
  }

  class LoadState {
    const Z: ZIO
    const check: Proto -> bool

    constructor (Z: ZIO, check: Proto -> bool)
      ensures this.Z == Z && this.check == check
    {
      this.Z := Z;
      this.check := check;
    }

    method LoadBlock(n: nat) returns (o: Out<Bytes>)
      requires Z.Valid()
      modifies Z
      ensures Z.Valid() && Reads(o, Take(old(Z.Stream()), n), Z.Stream())
    {
      var b, missing := Z.Read(n);
      o := if missing != 0 then Thrown(UnexpectedEnd) else Done(b);
    }

    method LoadByte() returns (o: Out<Byte>)
      requires Z.Valid()
      modifies Z
      ensures Z.Valid() && Reads(o, DecodeByte(old(Z.Stream())), Z.Stream())
    {
      var b := LoadBlock(1);
      o := if b.Thrown? then Thrown(b.e) else Done(b.v[0]);
    }

    method LoadInt() returns (o: Out<int>)
      requires Z.Valid()
      modifies Z
      ensures Z.Valid() && Reads(o, DecodeInt(old(Z.Stream())), Z.Stream())
      ensures o.Done? ==> o.v >= 0
    {
      var b := LoadBlock(4);
      o := if b.Thrown? then Thrown(b.e) else if UnLE(b.v) > INT_MAX then Thrown(BadInteger) else Done(UnLE(b.v));
    }

    method LoadString() returns (o: Out<Str>)
      requires Z.Valid()
      modifies Z
      ensures Z.Valid() && Reads(o, DecodeString(old(Z.Stream())), Z.Stream())
    {
      var b := LoadBlock(8);
      if b.Thrown? {
        return Thrown(b.e);
      }
      var size := UnLE(b.v);
      if size == 0 {
        return Done(None);
      }
      b := LoadBlock(size);
      o := if b.Thrown? then Thrown(b.e) else Done(Some(b.v[..size - 1]));
    }

    method LoadVector() returns (o: Out<seq<Word>>)
      requires Z.Valid()
      modifies Z
      ensures Z.Valid() && Reads(o, DecodeVector(old(Z.Stream())), Z.Stream())
    {
      var n := LoadInt();
      if n.Thrown? {
        return Thrown(n.e);
      }
      var b := LoadBlock(4 * n.v);
      o := if b.Thrown? then Thrown(b.e) else Done(Words(b.v));
    }

    method LoadConst() returns (o: Out<Const>)
      requires Z.Valid()
      modifies Z
      ensures Z.Valid() && Reads(o, DecodeConst(old(Z.Stream())), Z.Stream())
    {
      var t := LoadByte();
      if t.Thrown? {
        return Thrown(t.e);
      }
      if t.v == LUA_TNIL {
        o := Done(KNil);
      } else if t.v == LUA_TBOOLEAN {
        var b := LoadByte();
        o := if b.Thrown? then Thrown(b.e) else Done(KBool(b.v));
      } else if t.v == LUA_TNUMBER {
        var b := LoadBlock(8);
        o := if b.Thrown? then Thrown(b.e) else Done(KNum(b.v));
      } else if t.v == LUA_TSTRING {
        var s := LoadString();
        o := if s.Thrown? then Thrown(s.e) else Done(KStr(s.v));
      } else {
        o := Thrown(BadConstant);
      }
    }

    /** The first loop of `LoadConstants`. */
    method LoadConsts(n: nat) returns (o: Out<seq<Const>>)
      requires Z.Valid()
      modifies Z
      ensures Z.Valid() && Reads(o, DecodeConsts(n, old(Z.Stream()), []), Z.Stream())
    {
      ghost var s := Z.Stream();
      hide DecodeConst;
      var k: seq<Const> := [];
      for i := 0 to n
        invariant Z.Valid() && DecodeConsts(n - i, Z.Stream(), k) == DecodeConsts(n, s, [])
      {
        var c := LoadConst();
        if c.Thrown? {
          return Thrown(c.e);
        }
        k := k + [c.v];
      }
      o := Done(k);
    }

    method LoadLocVar() returns (o: Out<LocVar>)
      requires Z.Valid()
      modifies Z
      ensures Z.Valid() && Reads(o, DecodeLocVar(old(Z.Stream())), Z.Stream())
    {
      hide DecodeString, DecodeInt;
      var name := LoadString();
      if name.Thrown? {
        return Thrown(name.e);
      }
      var a := LoadInt();
      if a.Thrown? {
        return Thrown(a.e);
      }
      var b := LoadInt();
      o := if b.Thrown? then Thrown(b.e) else Done(LocVar(name.v, a.v, b.v));
    }

    method LoadLocVars(n: nat) returns (o: Out<seq<LocVar>>)
      requires Z.Valid()
      modifies Z
      ensures Z.Valid() && Reads(o, DecodeLocVars(n, old(Z.Stream()), []), Z.Stream())
    {
      ghost var s := Z.Stream();
      hide DecodeLocVar;
      var vs: seq<LocVar> := [];
      for i := 0 to n
        invariant Z.Valid() && DecodeLocVars(n - i, Z.Stream(), vs) == DecodeLocVars(n, s, [])
      {
        var v := LoadLocVar();
        if v.Thrown? {
          return Thrown(v.e);
        }
        vs := vs + [v.v];
      }
      o := Done(vs);
    }

    method LoadNames(n: nat) returns (o: Out<seq<Str>>)
      requires Z.Valid()
      modifies Z
      ensures Z.Valid() && Reads(o, DecodeNames(n, old(Z.Stream()), []), Z.Stream())
    {
      ghost var s := Z.Stream();
      hide DecodeString;
      var ns: seq<Str> := [];
      for i := 0 to n
        invariant Z.Valid() && DecodeNames(n - i, Z.Stream(), ns) == DecodeNames(n, s, [])
      {
        var v := LoadString();
        if v.Thrown? {
          return Thrown(v.e);
        }
        ns := ns + [v.v];
      }
      o := Done(ns);
    }

    method LoadDebug() returns (o: Out<Debug>)
      requires Z.Valid()
      modifies Z
      ensures Z.Valid() && Reads(o, DecodeDebug(old(Z.Stream())), Z.Stream())
    {
      hide DecodeVector, DecodeInt, DecodeLocVars, DecodeNames;
      var lines := LoadVector();
      if lines.Thrown? {
        return Thrown(lines.e);
      }
      var n := LoadInt();
      if n.Thrown? {
        return Thrown(n.e);
      }
      var vs := LoadLocVars(n.v);
      if vs.Thrown? {
        return Thrown(vs.e);
      }
      n := LoadInt();
      if n.Thrown? {
        return Thrown(n.e);
      }
      var ns := LoadNames(n.v);
      o := if ns.Thrown? then Thrown(ns.e) else Done(Debug(lines.v, vs.v, ns.v));
    }

    /** The fields of `LoadFunction` that come before the code. */
    method LoadFrame(p: Str) returns (o: Out<Frame>)
      requires Z.Valid()
      modifies Z
      ensures Z.Valid() && Reads(o, DecodeFrame(old(Z.Stream()), p), Z.Stream())
    {
      hide DecodeString, DecodeInt;
      var source := LoadString();
      if source.Thrown? {
        return Thrown(source.e);
      }
      var a := LoadInt();
      if a.Thrown? {
        return Thrown(a.e);
      }
      var b := LoadInt();
      if b.Thrown? {
        return Thrown(b.e);
      }
      var x := LoadBlock(4);
      o := if x.Thrown? then Thrown(x.e)
           else Done(Frame(if source.v == None then p else source.v, a.v, b.v, x.v[0], x.v[1], x.v[2], x.v[3]));
    }

    /** The second loop of `LoadConstants`: the nested functions. */
    method LoadProtos(n: nat, p: Str) returns (o: Out<seq<Proto>>)
      requires Z.Valid()
      modifies Z
      ensures Z.Valid() && Reads(o, DecodeProtos(n, old(Z.Stream()), p, check, []), Z.Stream())
      decreases |Z.Stream()|, 1
    {
      hide DecodeProto, DecodeProtos, Flat;
      ghost var s := Z.Stream();
      ghost var all := DecodeProtos(n, s, p, check, []);
      var ps: seq<Proto> := [];
      for i := 0 to n
        invariant Z.Valid() && |Z.Stream()| <= |s| && DecodeProtos(n - i, Z.Stream(), p, check, ps) == all
      {
        DecodeNext(n - i, Z.Stream(), p, check, ps);
        var f := LoadFunction(p);
        if f.Thrown? {
          return Thrown(f.e);
        }
        ps := ps + [f.v];
      }
      DecodeNone(Z.Stream(), p, check, ps);
      o := Done(ps);
    }

    method LoadFunction(p: Str) returns (o: Out<Proto>)
      requires Z.Valid()
      modifies Z
      ensures Z.Valid() && Reads(o, DecodeProto(old(Z.Stream()), p, check), Z.Stream())
      decreases |Z.Stream()|, 0
    {
      hide DecodeFrame, DecodeVector, DecodeInt, DecodeConsts, DecodeProtos, DecodeDebug;
      var frame := LoadFrame(p);
      if frame.Thrown? {
        return Thrown(frame.e);
      }
      var code := LoadVector();
      if code.Thrown? {
        return Thrown(code.e);
      }
      var n := LoadInt();
      if n.Thrown? {
        return Thrown(n.e);
      }
      var ks := LoadConsts(n.v);
      if ks.Thrown? {
        return Thrown(ks.e);
      }
      n := LoadInt();
      if n.Thrown? {
        return Thrown(n.e);
      }
      var ps := LoadProtos(n.v, frame.v.source);
      if ps.Thrown? {
        return Thrown(ps.e);
      }
      var debug := LoadDebug();
      if debug.Thrown? {
        return Thrown(debug.e);
      }
      var f := Proto(frame.v, code.v, ks.v, ps.v, debug.v);
      o := if !check(f) then Thrown(BadCode) else Done(f);
    }
  }

  /** `luaU_undump`: the loader reads what the bytes mean, however the reader cuts them up. */
  method Undump(Z: ZIO, check: Proto -> bool) returns (o: Out<Proto>)
    requires Z.Valid()
    modifies Z
    ensures Z.Valid() && Reads(o, DecodeChunk(old(Z.Stream()), check), Z.Stream())
  {
    hide DecodeProto;
    var S := new LoadState(Z, check);
    var h := S.LoadBlock(|HEADER|);
    if h.Thrown? {
      return Thrown(h.e);
    }
    if h.v != HEADER {
      return Thrown(BadHeader);
    }
    o := S.LoadFunction(UNKNOWN);
  }

  // ---------- The dumper ----------

  /** From a state with output `out0`, the bytes `e` are being written; `left` of them are still to come,
      unless the writer has refused some. Once it has, nothing more is handed to it. */
  ghost predicate Writing(status0: int, out0: Bytes, e: Bytes, status: int, out: Bytes, left: Bytes) {
    if status0 != 0 then status == status0 && out == out0
    else if status == 0 then out + left == out0 + e
    else out <= out0 + e
  }

  lemma Advance(status0: int, out0: Bytes, e: Bytes, status1: int, out1: Bytes, part: Bytes, status: int, out: Bytes,
                left: Bytes)
    requires Writing(status0, out0, e, status1, out1, part + left) && Writing(status1, out1, part, status, out, [])
    ensures Writing(status0, out0, e, status, out, left)
  {
    if status0 == 0 && status1 == 0 {
      assert out1 + (part + left) == (out1 + part) + left;
      if status == 0 {
        assert out == out1 + part;
      } else {
        assert out <= out1 + part <= out0 + e;
      }
    }
  }

  lemma Begin(status: int, out: Bytes, e: Bytes)
    ensures Writing(status, out, e, status, out, e)
  {
  }

  lemma Finish(status0: int, out0: Bytes, e: Bytes, status1: int, out1: Bytes, part: Bytes, status: int, out: Bytes)
    requires Writing(status0, out0, e, status1, out1, part) && Writing(status1, out1, part, status, out, [])
    ensures Writing(status0, out0, e, status, out, [])
  {
    assert part + [] == part;
    Advance(status0, out0, e, status1, out1, part, status, out, []);
  }

  lemma ProtosFrom(fs: seq<Proto>, i: nat, p: Str, strip: bool)
    requires i < |fs| && AllFit(fs)
    ensures AllFit(fs[i..]) && AllFit(fs[i + 1..]) && Fits(fs[i])
    ensures EncodeProtos(fs[i..], p, strip) == EncodeProto(fs[i], p, strip) + EncodeProtos(fs[i + 1..], p, strip)
  {
    hide Fits, EncodeProto;
    assert fs[i..][1..] == fs[i + 1..];
  }

  lemma Written(e: Bytes, status: int, out: Bytes)
    requires Writing(0, [], e, status, out, [])
    ensures if status == 0 then out == e else out <= e
  {
    assert out + [] == out && [] + e == e;
  }

  class DumpState {
    /** What the writer answers when it is called for the k-th time. */
    const writer: nat -> int
    const strip: bool
    var calls: nat
    var out: Bytes
    var status: int

    constructor (writer: nat -> int, strip: bool)
      ensures this.writer == writer && this.strip == strip && out == [] && status == 0 && Answered()
    {
      this.writer, this.strip := writer, strip;
      calls, out, status := 0, [], 0;
    }

    /** A status that is not zero is an answer the writer gave. */
    ghost predicate Answered()
      reads this
    {
      status != 0 ==> exists k: nat :: k < calls && writer(k) == status
    }

    /** `DumpBlock`: `out` is all that was handed to the writer. */
    method DumpBlock(b: Bytes)
      requires Answered()
      modifies this
      ensures Answered()
      ensures Writing(old(status), old(out), b, status, out, [])
    {
      if status == 0 {
        out := out + b;
        status := writer(calls);
        calls := calls + 1;
      }
    }

    method DumpInt(x: nat)
      requires Answered()
      modifies this
      ensures Answered()
      ensures Writing(old(status), old(out), EncodeInt(x), status, out, [])
    {
      DumpBlock(EncodeInt(x));
    }

    method DumpString(s: Str)
      requires Answered()
      modifies this
      ensures Answered()
      ensures Writing(old(status), old(out), EncodeString(s), status, out, [])
    {
      if s == None {
        DumpBlock(LE(0, 8));
      } else {
        ghost var status0, out0, e := status, out, EncodeString(s);
        var size: Bytes, text: Bytes := LE(|s.value| + 1, 8), s.value + [0];
        DumpBlock(size);
        Advance(status0, out0, e, status0, out0, size, status, out, text);
        ghost var status1, out1 := status, out;
        DumpBlock(text);
        Finish(status0, out0, e, status1, out1, text, status, out);
      }
    }

    /** A size and the memory image of the elements. */
    method DumpVector(ws: seq<Word>)
      requires Answered()
      modifies this
      ensures Answered()
      ensures Writing(old(status), old(out), EncodeVector(ws), status, out, [])
    {
      ghost var status0, out0, e := status, out, EncodeVector(ws);
      DumpInt(|ws|);
      Advance(status0, out0, e, status0, out0, EncodeInt(|ws|), status, out, Image(ws));
      ghost var status1, out1 := status, out;
      DumpBlock(Image(ws));
      Finish(status0, out0, e, status1, out1, Image(ws), status, out);
    }

    method DumpConst(c: Const)
      requires Answered()
      modifies this
      ensures Answered()
      ensures Writing(old(status), old(out), EncodeConst(c), status, out, [])
    {
      ghost var status0, out0, e := status, out, EncodeConst(c);
      match c
      case KNil =>
        DumpBlock([LUA_TNIL]);
      case KBool(b) =>
        DumpBlock([LUA_TBOOLEAN]);
        Advance(status0, out0, e, status0, out0, [LUA_TBOOLEAN], status, out, [b]);
        ghost var status1, out1 := status, out;
        DumpBlock([b]);
        Finish(status0, out0, e, status1, out1, [b], status, out);
      case KNum(raw) =>
        DumpBlock([LUA_TNUMBER]);
        Advance(status0, out0, e, status0, out0, [LUA_TNUMBER], status, out, raw);
        ghost var status1, out1 := status, out;
        DumpBlock(raw);
        Finish(status0, out0, e, status1, out1, raw, status, out);
      case KStr(s) =>
        DumpBlock([LUA_TSTRING]);
        Advance(status0, out0, e, status0, out0, [LUA_TSTRING], status, out, EncodeString(s));
        ghost var status1, out1 := status, out;
        DumpString(s);
        Finish(status0, out0, e, status1, out1, EncodeString(s), status, out);
    }

    /** The first loop of `DumpConstants`. */
    method DumpConsts(k: seq<Const>)
      requires Answered()
      modifies this
      ensures Answered()
      ensures Writing(old(status), old(out), EncodeConsts(k), status, out, [])
    {
      ghost var status0, out0, e := status, out, EncodeConsts(k);
      for i := 0 to |k|
        invariant Answered() && Writing(status0, out0, e, status, out, EncodeConsts(k[i..]))
      {
        ghost var status1, out1 := status, out;
        DumpConst(k[i]);
        assert k[i..][1..] == k[i + 1..];
        Advance(status0, out0, e, status1, out1, EncodeConst(k[i]), status, out, EncodeConsts(k[i + 1..]));
      }
    }

    method DumpLocVar(v: LocVar)
      requires LocVarFits(v)
      requires Answered()
      modifies this
      ensures Answered()
      ensures Writing(old(status), old(out), EncodeLocVar(v), status, out, [])
    {
      ghost var status0, out0, e := status, out, EncodeLocVar(v);
      DumpString(v.name);
      Advance(status0, out0, e, status0, out0, EncodeString(v.name), status, out,
              EncodeInt(v.startPc) + EncodeInt(v.endPc));
      ghost var status1, out1 := status, out;
      DumpInt(v.startPc);
      Advance(status0, out0, e, status1, out1, EncodeInt(v.startPc), status, out, EncodeInt(v.endPc));
      status1, out1 := status, out;
      DumpInt(v.endPc);
      Finish(status0, out0, e, status1, out1, EncodeInt(v.endPc), status, out);
    }

    method DumpLocVars(vs: seq<LocVar>)
      requires forall i :: 0 <= i < |vs| ==> LocVarFits(vs[i])
      requires Answered()
      modifies this
      ensures Answered()
      ensures Writing(old(status), old(out), EncodeLocVars(vs), status, out, [])
    {
      ghost var status0, out0, e := status, out, EncodeLocVars(vs);
      Begin(status0, out0, e);
      assert vs[0..] == vs;
      hide Writing, EncodeLocVar, LocVarFits;
      for i := 0 to |vs|
        invariant Answered() && Writing(status0, out0, e, status, out, EncodeLocVars(vs[i..]))
      {
        ghost var status1, out1 := status, out;
        DumpLocVar(vs[i]);
        assert vs[i..][1..] == vs[i + 1..];
        Advance(status0, out0, e, status1, out1, EncodeLocVar(vs[i]), status, out, EncodeLocVars(vs[i + 1..]));
      }
    }

    method DumpNames(ns: seq<Str>)
      requires Answered()
      modifies this
      ensures Answered()
      ensures Writing(old(status), old(out), EncodeNames(ns), status, out, [])
    {
      ghost var status0, out0, e := status, out, EncodeNames(ns);
      for i := 0 to |ns|
        invariant Answered() && Writing(status0, out0, e, status, out, EncodeNames(ns[i..]))
      {
        ghost var status1, out1 := status, out;
        DumpString(ns[i]);
        assert ns[i..][1..] == ns[i + 1..];
        Advance(status0, out0, e, status1, out1, EncodeString(ns[i]), status, out, EncodeNames(ns[i + 1..]));
      }
    }

    method DumpDebug(d: Debug)
      requires DebugFits(d)
      requires Answered()
      modifies this
      ensures Answered()
      ensures Writing(old(status), old(out), EncodeDebug(d), status, out, [])
    {
      hide EncodeInt, EncodeVector, EncodeLocVars, EncodeNames, Writing;
      ghost var status0, out0, e := status, out, EncodeDebug(d);
      ghost var n, vs, m, ns := EncodeInt(|d.locVars|), EncodeLocVars(d.locVars), EncodeInt(|d.upvalues|),
          EncodeNames(d.upvalues);
      assert e == EncodeVector(d.lineInfo) + (n + (vs + (m + ns)));
      Begin(status0, out0, e);
      DumpVector(d.lineInfo);
      Advance(status0, out0, e, status0, out0, EncodeVector(d.lineInfo), status, out, n + (vs + (m + ns)));
      ghost var status1, out1 := status, out;
      DumpInt(|d.locVars|);
      Advance(status0, out0, e, status1, out1, n, status, out, vs + (m + ns));
      status1, out1 := status, out;
      DumpLocVars(d.locVars);
      Advance(status0, out0, e, status1, out1, vs, status, out, m + ns);
      status1, out1 := status, out;
      DumpInt(|d.upvalues|);
      Advance(status0, out0, e, status1, out1, m, status, out, ns);
      status1, out1 := status, out;
      DumpNames(d.upvalues);
      Finish(status0, out0, e, status1, out1, ns, status, out);
    }

    method DumpFrame(f: Frame)
      requires FrameFits(f)
      requires Answered()
      modifies this
      ensures Answered()
      ensures Writing(old(status), old(out), EncodeFrame(f), status, out, [])
    {
      hide EncodeInt, EncodeString, Writing;
      ghost var status0, out0, e := status, out, EncodeFrame(f);
      var small: Bytes := [f.nups, f.numParams, f.isVararg, f.maxStack];
      ghost var a, b := EncodeInt(f.lineDefined), EncodeInt(f.lastLineDefined);
      Begin(status0, out0, e);
      DumpString(f.source);
      Advance(status0, out0, e, status0, out0, EncodeString(f.source), status, out, a + (b + small));
      ghost var status1, out1 := status, out;
      DumpInt(f.lineDefined);
      Advance(status0, out0, e, status1, out1, a, status, out, b + small);
      status1, out1 := status, out;
      DumpInt(f.lastLineDefined);
      Advance(status0, out0, e, status1, out1, b, status, out, small);
      for i := 0 to 4
        invariant Answered() && Writing(status0, out0, e, status, out, small[i..])
      {
        status1, out1 := status, out;
        DumpBlock([small[i]]);
        assert small[i..] == [small[i]] + small[i + 1..];
        Advance(status0, out0, e, status1, out1, [small[i]], status, out, small[i + 1..]);
      }
      assert small[4..] == [];
    }

    /** The second loop of `DumpConstants`. */
    method DumpProtos(fs: seq<Proto>, p: Str)
      requires AllFit(fs)
      requires Answered()
      modifies this
      ensures Answered()
      ensures Writing(old(status), old(out), EncodeProtos(fs, p, strip), status, out, [])
      decreases fs, 1
    {
      ghost var status0, out0, e := status, out, EncodeProtos(fs, p, strip);
      Begin(status0, out0, e);
      assert fs[0..] == fs;
      assert EncodeProtos([], p, strip) == [];
      hide Writing, Fits, AllFit, EncodeProto, EncodeProtos;
      ghost var rest := fs;
      for i := 0 to |fs|
        invariant Answered() && rest == fs[i..] && AllFit(rest)
        invariant Writing(status0, out0, e, status, out, EncodeProtos(rest, p, strip))
      {
        ghost var status1, out1 := status, out;
        ProtosFrom(fs, i, p, strip);
        DumpFunction(fs[i], p);
        rest := fs[i + 1..];
        Advance(status0, out0, e, status1, out1, EncodeProto(fs[i], p, strip), status, out,
                EncodeProtos(rest, p, strip));
      }
    }

    method DumpFunction(f: Proto, p: Str)
      requires Fits(f)
      requires Answered()
      modifies this
      ensures Answered()
      ensures Writing(old(status), old(out), EncodeProto(f, p, strip), status, out, [])
      decreases f, 0
    {
      ghost var status0, out0, e := status, out, EncodeProto(f, p, strip);
      var frame := f.frame.(source := if f.frame.source == p || strip then None else f.frame.source);
      var d := if strip then NO_DEBUG else f.debug;
      assert FrameFits(frame) && DebugFits(d);
      ghost var code, n, k, m, ps, debug := EncodeVector(f.code), EncodeInt(|f.k|), EncodeConsts(f.k), EncodeInt(|f.p|),
          EncodeProtos(f.p, f.frame.source, strip), EncodeDebug(d);
      PartsOf(f, p, strip);
      Begin(status0, out0, e);
      hide EncodeFrame, EncodeVector, EncodeInt, EncodeConsts, EncodeProtos, EncodeDebug, EncodeProto, Writing,
           FrameFits, DebugFits;
      DumpFrame(frame);
      Advance(status0, out0, e, status0, out0, EncodeFrame(frame), status, out, code + (n + (k + (m + (ps + debug)))));
      ghost var status1, out1 := status, out;
      DumpVector(f.code);
      Advance(status0, out0, e, status1, out1, code, status, out, n + (k + (m + (ps + debug))));
      status1, out1 := status, out;
      DumpInt(|f.k|);
      Advance(status0, out0, e, status1, out1, n, status, out, k + (m + (ps + debug)));
      status1, out1 := status, out;
      DumpConsts(f.k);
      Advance(status0, out0, e, status1, out1, k, status, out, m + (ps + debug));
      status1, out1 := status, out;
      DumpInt(|f.p|);
      Advance(status0, out0, e, status1, out1, m, status, out, ps + debug);
      status1, out1 := status, out;
      DumpProtos(f.p, f.frame.source);
      Advance(status0, out0, e, status1, out1, ps, status, out, debug);
      status1, out1 := status, out;
      DumpDebug(d);
      Finish(status0, out0, e, status1, out1, debug, status, out);
    }
  }

  lemma PartsOf(f: Proto, p: Str, strip: bool)
    requires Fits(f)
    ensures
      var d := if strip then NO_DEBUG else f.debug;
      DebugFits(d) &&
      EncodeProto(f, p, strip) ==
        EncodeFrame(f.frame.(source := if f.frame.source == p || strip then None else f.frame.source)) +
        (EncodeVector(f.code) + (EncodeInt(|f.k|) + (EncodeConsts(f.k) +
                                                     (EncodeInt(|f.p|) + (EncodeProtos(f.p, f.frame.source, strip) +
                                                         EncodeDebug(d))))))
  {
    hide EncodeDebug, EncodeProtos, EncodeInt, EncodeConsts, EncodeVector, EncodeFrame;
    ProtoParts(f, p, strip, []);
    var d := if strip then NO_DEBUG else f.debug;
    assert EncodeDebug(d) + [] == EncodeDebug(d);
    assert EncodeProto(f, p, strip) + [] == EncodeProto(f, p, strip);
  }

  /** `luaU_dump`: with a willing writer the output is the chunk; the writer's first refusal is returned,
      and it has then been given no more than a part of the chunk. */
  method Dump(f: Proto, writer: nat -> int, strip: bool) returns (status: int, out: Bytes)
    requires Fits(f)
    ensures status == 0 ==> out == EncodeChunk(f, strip)
    ensures status != 0 ==> out <= EncodeChunk(f, strip) && exists k :: writer(k) == status
  {
    var D := new DumpState(writer, strip);
    ghost var e := EncodeChunk(f, strip);
    Begin(0, [], e);
    hide EncodeProto, Writing;
    D.DumpBlock(HEADER);
    Advance(0, [], e, 0, [], HEADER, D.status, D.out, EncodeProto(f, None, strip));
    ghost var status1, out1 := D.status, D.out;
    D.DumpFunction(f, None);
    Finish(0, [], e, status1, out1, EncodeProto(f, None, strip), D.status, D.out);
    status, out := D.status, D.out;
    Written(e, status, out);
  }

  /** What a willing writer was given, read back in whatever pieces, is the function that was dumped. */
  method DumpThenUndump(f: Proto, writer: nat -> int, chunks: seq<Bytes>, check: Proto -> bool) returns (o: Out<Proto>)
    requires Fits(f) && AllSources(f) && Checked(f, check) && Flat(chunks) == EncodeChunk(f, false)
    ensures o == Done(f)
  {
    var Z := new ZIO(chunks);
    o := Undump(Z, check);
    ChunkBack(f, false, check, []);
    SameIffSources(f, UNKNOWN);
    assert EncodeChunk(f, false) + [] == EncodeChunk(f, false);
  }
}
