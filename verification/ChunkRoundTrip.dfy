/** Loading a dumped function gives it back, with the sources that the dump leaves out filled in; a
    stripped dump gives the function without its debug information. */
module ChunkRoundTrip {
  import opened Common
  import opened Chunks

  // ---------- The parts ----------

  lemma TakeBack(b: Bytes, rest: Bytes)
    ensures Take(b + rest, |b|) == Got(b, rest)
  {
  }

  lemma IntBack(x: nat, rest: Bytes)
    requires x <= INT_MAX
    ensures DecodeInt(EncodeInt(x) + rest) == Got(x, rest)
  {
    Pow256Values();
    UnLEUndoesLE(x, 4);
    TakeBack(EncodeInt(x), rest);
  }

  lemma StringBack(s: Str, rest: Bytes)
    requires StrFits(s)
    ensures DecodeString(EncodeString(s) + rest) == Got(s, rest)
  {
    Pow256Values();
    match s
    case None =>
      UnLEUndoesLE(0, 8);
      TakeBack(LE(0, 8), rest);
    case Some(v) =>
      UnLEUndoesLE(|v| + 1, 8);
      var size := LE(|v| + 1, 8);
      var text: Bytes := v + [0];
      assert EncodeString(s) + rest == size + (text + rest);
      TakeBack(size, text + rest);
      TakeBack(text, rest);
      assert text[..|v|] == v;
  }

  lemma {:induction false} WordsBack(ws: seq<Word>)
    ensures Words(Image(ws)) == ws
  {
    if ws != [] {
      Pow256Values();
      UnLEUndoesLE(ws[0], 4);
      TakeBack(LE(ws[0], 4), Image(ws[1..]));
      WordsBack(ws[1..]);
      assert Image(ws)[..4] == LE(ws[0], 4) && Image(ws)[4..] == Image(ws[1..]);
    }
  }

  lemma VectorBack(ws: seq<Word>, rest: Bytes)
    requires |ws| <= INT_MAX
    ensures DecodeVector(EncodeVector(ws) + rest) == Got(ws, rest)
  {
    assert EncodeVector(ws) + rest == EncodeInt(|ws|) + (Image(ws) + rest);
    IntBack(|ws|, Image(ws) + rest);
    TakeBack(Image(ws), rest);
    WordsBack(ws);
  }

  lemma ConstBack(c: Const, rest: Bytes)
    requires ConstFits(c)
    ensures DecodeConst(EncodeConst(c) + rest) == Got(c, rest)
  {
    match c
    case KNil =>
    case KBool(b) =>
      assert EncodeConst(c) + rest == [LUA_TBOOLEAN] + ([b] + rest);
    case KNum(raw) =>
      var b: Bytes := raw;
      assert EncodeConst(c) + rest == [LUA_TNUMBER] + (b + rest);
      TakeBack(b, rest);
    case KStr(s) =>
      assert EncodeConst(c) + rest == [LUA_TSTRING] + (EncodeString(s) + rest);
      StringBack(s, rest);
  }

  lemma {:induction false} ConstsBack(ks: seq<Const>, rest: Bytes, got: seq<Const>)
    requires forall i :: 0 <= i < |ks| ==> ConstFits(ks[i])
    ensures DecodeConsts(|ks|, EncodeConsts(ks) + rest, got) == Got(got + ks, rest)
    decreases |ks|
  {
    hide DecodeConst, EncodeConst;
    if ks != [] {
      var more := EncodeConsts(ks[1..]) + rest;
      assert EncodeConsts(ks) + rest == EncodeConst(ks[0]) + more;
      ConstBack(ks[0], more);
      ConstsBack(ks[1..], rest, got + [ks[0]]);
      assert got + [ks[0]] + ks[1..] == got + ks;
    } else {
      assert EncodeConsts(ks) + rest == rest && got + ks == got;
    }
  }

  lemma LocVarBack(v: LocVar, rest: Bytes)
    requires LocVarFits(v)
    ensures DecodeLocVar(EncodeLocVar(v) + rest) == Got(v, rest)
  {
    var more := EncodeInt(v.endPc) + rest;
    assert EncodeLocVar(v) + rest == EncodeString(v.name) + (EncodeInt(v.startPc) + more);
    StringBack(v.name, EncodeInt(v.startPc) + more);
    IntBack(v.startPc, more);
    IntBack(v.endPc, rest);
  }

  lemma {:induction false} LocVarsBack(vs: seq<LocVar>, rest: Bytes, got: seq<LocVar>)
    requires forall i :: 0 <= i < |vs| ==> LocVarFits(vs[i])
    ensures DecodeLocVars(|vs|, EncodeLocVars(vs) + rest, got) == Got(got + vs, rest)
    decreases |vs|
  {
    hide DecodeLocVar, EncodeLocVar;
    if vs != [] {
      var more := EncodeLocVars(vs[1..]) + rest;
      assert EncodeLocVars(vs) + rest == EncodeLocVar(vs[0]) + more;
      LocVarBack(vs[0], more);
      LocVarsBack(vs[1..], rest, got + [vs[0]]);
      assert got + [vs[0]] + vs[1..] == got + vs;
    } else {
      assert EncodeLocVars(vs) + rest == rest && got + vs == got;
    }
  }

  lemma {:induction false} NamesBack(ns: seq<Str>, rest: Bytes, got: seq<Str>)
    requires forall i :: 0 <= i < |ns| ==> StrFits(ns[i])
    ensures DecodeNames(|ns|, EncodeNames(ns) + rest, got) == Got(got + ns, rest)
    decreases |ns|
  {
    hide DecodeString, EncodeString;
    if ns != [] {
      var more := EncodeNames(ns[1..]) + rest;
      assert EncodeNames(ns) + rest == EncodeString(ns[0]) + more;
      StringBack(ns[0], more);
      NamesBack(ns[1..], rest, got + [ns[0]]);
      assert got + [ns[0]] + ns[1..] == got + ns;
    } else {
      assert EncodeNames(ns) + rest == rest && got + ns == got;
    }
  }

  lemma FrameBack(f: Frame, p: Str, rest: Bytes)
    requires FrameFits(f)
    ensures DecodeFrame(EncodeFrame(f) + rest, p) == Got(f.(source := if f.source == None then p else f.source), rest)
  {
    hide DecodeInt, DecodeString, EncodeInt, EncodeString;
    var small: Bytes := [f.nups, f.numParams, f.isVararg, f.maxStack];
    var s2 := small + rest;
    var s1 := EncodeInt(f.lastLineDefined) + s2;
    var s0 := EncodeInt(f.lineDefined) + s1;
    assert EncodeFrame(f) + rest == EncodeString(f.source) + s0;
    StringBack(f.source, s0);
    IntBack(f.lineDefined, s1);
    IntBack(f.lastLineDefined, s2);
    TakeBack(small, rest);
  }

  lemma DebugBack(d: Debug, rest: Bytes)
    requires DebugFits(d)
    ensures DecodeDebug(EncodeDebug(d) + rest) == Got(d, rest)
  {
    hide DecodeInt, DecodeVector, EncodeInt, EncodeVector, EncodeNames, EncodeLocVars, DecodeNames, DecodeLocVars;
    var s3 := EncodeNames(d.upvalues) + rest;
    var s2 := EncodeInt(|d.upvalues|) + s3;
    var s1 := EncodeLocVars(d.locVars) + s2;
    var s0 := EncodeInt(|d.locVars|) + s1;
    assert EncodeDebug(d) + rest == EncodeVector(d.lineInfo) + s0;
    VectorBack(d.lineInfo, s0);
    IntBack(|d.locVars|, s1);
    LocVarsBack(d.locVars, s2, []);
    IntBack(|d.upvalues|, s3);
    NamesBack(d.upvalues, rest, []);
    assert [] + d.locVars == d.locVars && [] + d.upvalues == d.upvalues;
  }

  // ---------- Functions ----------

  /** What loading the dump of `f` gives inside a function with source `q`. */
  function Loaded(f: Proto, q: Str, strip: bool): Proto
    decreases f
  {
    var source := if strip || f.frame.source == None then q else f.frame.source;
    Proto(f.frame.(source := source), f.code, f.k, LoadedAll(f.p, source, strip), if strip then NO_DEBUG else f.debug)
  }

  function LoadedAll(fs: seq<Proto>, q: Str, strip: bool): (r: seq<Proto>)
    ensures |r| == |fs| && forall i :: 0 <= i < |fs| ==> r[i] == Loaded(fs[i], q, strip)
    decreases fs
  {
    if fs == [] then [] else [Loaded(fs[0], q, strip)] + LoadedAll(fs[1..], q, strip)
  }

  /** The bytecode checker accepts every function of the tree. */
  predicate Checked(f: Proto, check: Proto -> bool)
    decreases f
  {
    check(f) && AllChecked(f.p, check)
  }

  predicate AllChecked(fs: seq<Proto>, check: Proto -> bool)
    decreases fs
  {
    forall i :: 0 <= i < |fs| ==> Checked(fs[i], check)
  }

  lemma NoneChecked(check: Proto -> bool)
    ensures AllChecked([], check)
  {
  }

  lemma FirstChecked(f: Proto, fs: seq<Proto>, check: Proto -> bool)
    ensures AllChecked([f] + fs, check) <==> Checked(f, check) && AllChecked(fs, check)
  {
    var all := [f] + fs;
    assert all[0] == f && forall i :: 0 <= i < |fs| ==> all[i + 1] == fs[i];
    if AllChecked(all, check) {
      forall i | 0 <= i < |fs|
        ensures Checked(fs[i], check)
      {
        assert Checked(all[i + 1], check);
      }
    }
  }

  /** The source that a function is dumped inside of, and the one it is loaded inside of. */
  predicate SameSource(p: Str, q: Str, strip: bool) {
    strip || p == None || p == q
  }

  lemma {:induction false} ProtoBack(f: Proto, p: Str, q: Str, strip: bool, check: Proto -> bool, rest: Bytes)
    requires Fits(f) && SameSource(p, q, strip)
    ensures DecodeProto(EncodeProto(f, p, strip) + rest, q, check) ==
      if Checked(Loaded(f, q, strip), check) then Got(Loaded(f, q, strip), rest) else Err(BadCode)
    decreases f, 0
  {
    var source := if f.frame.source == p || strip then None else f.frame.source;
    var debug := if strip then NO_DEBUG else f.debug;
    var g := Loaded(f, q, strip);
    hide DecodeFrame, DecodeVector, DecodeInt, DecodeConsts, DecodeProtos, DecodeDebug;
    hide EncodeFrame, EncodeVector, EncodeInt, EncodeConsts, EncodeProtos, EncodeDebug, EncodeProto;
    assert DebugFits(debug);
    var s5 := EncodeDebug(debug) + rest;
    var s4 := EncodeProtos(f.p, f.frame.source, strip) + s5;
    var s3 := EncodeInt(|f.p|) + s4;
    var s2 := EncodeConsts(f.k) + s3;
    var s1 := EncodeInt(|f.k|) + s2;
    var s0 := EncodeVector(f.code) + s1;
    ProtoParts(f, p, strip, rest);
    FrameBack(f.frame.(source := source), q, s0);
    VectorBack(f.code, s1);
    IntBack(|f.k|, s2);
    ConstsBack(f.k, s3, []);
    assert [] + f.k == f.k;
    IntBack(|f.p|, s4);
    ProtosBack(f.p, f.frame.source, g.frame.source, strip, check, s5, []);
    assert [] + g.p == g.p;
    DebugBack(debug, rest);
  }

  /** The parts of a dumped function, one behind the other. */
  lemma ProtoParts(f: Proto, p: Str, strip: bool, rest: Bytes)
    requires Fits(f)
    ensures
      var debug := if strip then NO_DEBUG else f.debug;
      DebugFits(debug) &&
      var s5 := EncodeDebug(debug) + rest;
      var s4 := EncodeProtos(f.p, f.frame.source, strip) + s5;
      var s3 := EncodeInt(|f.p|) + s4;
      var s2 := EncodeConsts(f.k) + s3;
      var s1 := EncodeInt(|f.k|) + s2;
      EncodeProto(f, p, strip) + rest ==
        EncodeFrame(f.frame.(source := if f.frame.source == p || strip then None else f.frame.source)) +
            (EncodeVector(f.code) + s1)
  {
    hide EncodeDebug, EncodeProtos, EncodeInt, EncodeConsts, EncodeVector, EncodeFrame;
  }

  lemma {:induction false} ProtosBack(fs: seq<Proto>, p: Str, q: Str, strip: bool, check: Proto -> bool, rest: Bytes,
                                      got: seq<Proto>)
    requires AllFit(fs) && SameSource(p, q, strip)
    ensures DecodeProtos(|fs|, EncodeProtos(fs, p, strip) + rest, q, check, got) ==
      if AllChecked(LoadedAll(fs, q, strip), check) then Got(got + LoadedAll(fs, q, strip), rest) else Err(BadCode)
    decreases fs, 1
  {
    hide DecodeProto, EncodeProto, Loaded, Checked, AllChecked, Fits;
    if fs == [] {
      NoneChecked(check);
      assert EncodeProtos(fs, p, strip) + rest == rest;
      assert got + LoadedAll(fs, q, strip) == got;
    } else {
      var more := EncodeProtos(fs[1..], p, strip) + rest;
      assert EncodeProtos(fs, p, strip) + rest == EncodeProto(fs[0], p, strip) + more;
      var g, gs := Loaded(fs[0], q, strip), LoadedAll(fs[1..], q, strip);
      DecodeNext(|fs|, EncodeProtos(fs, p, strip) + rest, q, check, got);
      assert LoadedAll(fs, q, strip) == [g] + gs;
      hide EncodeProtos, DecodeProtos, LoadedAll;
      ProtoBack(fs[0], p, q, strip, check, more);
      FirstChecked(g, gs, check);
      ProtosBack(fs[1..], p, q, strip, check, rest, got + [g]);
      assert got + [g] + gs == got + ([g] + gs);
    }
  }

  lemma DecodeNone(s: Bytes, p: Str, check: Proto -> bool, got: seq<Proto>)
    ensures DecodeProtos(0, s, p, check, got) == Got(got, s)
  {
  }

  lemma DecodeNext(n: nat, s: Bytes, p: Str, check: Proto -> bool, got: seq<Proto>)
    requires n > 0
    ensures
      var r := DecodeProto(s, p, check);
      && (r.Got? ==> |r.rest| < |s|)
      && DecodeProtos(n, s, p, check, got) == if r.Got? then DecodeProtos(n - 1, r.rest, p, check, got + [r.v])
         else Err(r.e)
  {
    hide DecodeProto;
  }

  // ---------- Chunks ----------

  /** Loading undoes dumping, up to the sources that were null and what stripping drops; it fails exactly
      when the checker refuses a function of the result. */
  lemma ChunkBack(f: Proto, strip: bool, check: Proto -> bool, rest: Bytes)
    requires Fits(f)
    ensures DecodeChunk(EncodeChunk(f, strip) + rest, check) ==
      if Checked(Loaded(f, UNKNOWN, strip), check) then Got(Loaded(f, UNKNOWN, strip), rest) else Err(BadCode)
  {
    var body := EncodeProto(f, None, strip) + rest;
    assert EncodeChunk(f, strip) + rest == HEADER + body;
    TakeBack(HEADER, body);
    ProtoBack(f, None, UNKNOWN, strip, check, rest);
  }

  predicate AllSources(f: Proto)
    decreases f
  {
    f.frame.source.Some? && forall i :: 0 <= i < |f.p| ==> AllSources(f.p[i])
  }

  /** An unstripped chunk gives back the very same function exactly when no source in it is null. */
  lemma {:induction false} SameIffSources(f: Proto, q: Str)
    requires q.Some?
    ensures Loaded(f, q, false) == f <==> AllSources(f)
    decreases f
  {
    var g := Loaded(f, q, false);
    forall i | 0 <= i < |f.p|
      ensures g.p[i] == f.p[i] <==> AllSources(f.p[i])
    {
      SameIffSources(f.p[i], g.frame.source);
    }
    if AllSources(f) {
      assert g.p == f.p;
    }
  }

  /** For example, a function without a source comes back with the source "=?". */
  lemma NullSourceChanged(f: Proto, check: Proto -> bool, rest: Bytes)
    requires f == Proto(Frame(None, 0, 0, 0, 0, 0, 2), [], [], [], NO_DEBUG)
    requires check(f.(frame := f.frame.(source := Some([61, 63]))))
    ensures Fits(f)
    ensures DecodeChunk(EncodeChunk(f, false) + rest, check) ==
            Got(f.(frame := f.frame.(source := Some([61, 63]))), rest) != Got(f, rest)
  {
    var g := f.(frame := f.frame.(source := UNKNOWN));
    assert Loaded(f, UNKNOWN, false) == g;
    ChunkBack(f, false, check, rest);
  }

  /** What is left of a stripped function: its code, with every source unknown and no debug information. */
  lemma {:induction false} StrippedLoad(f: Proto, q: Str)
    ensures
      var g := Loaded(f, q, true);
      && g.code == f.code && g.k == f.k && g.debug == NO_DEBUG && g.frame == f.frame.(source := q)
      && |g.p| == |f.p| && (forall i :: 0 <= i < |f.p| ==> g.p[i] == Loaded(f.p[i], q, true))
      && Loaded(g, q, true) == g
    decreases f
  {
    var g := Loaded(f, q, true);
    forall i | 0 <= i < |f.p|
      ensures Loaded(g.p[i], q, true) == g.p[i]
    {
      StrippedLoad(f.p[i], q);
    }
    assert LoadedAll(g.p, q, true) == g.p;
  }
}
