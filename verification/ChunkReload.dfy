/** What the loader (lundump.cpp:62-190) builds from any bytes it accepts can be dumped, and is then
    loaded again as it was. */
module ChunkReload {
  import opened Chunks
  import opened ChunkRoundTrip

  lemma IntRead(s: Bytes)
    ensures DecodeInt(s).Got? ==> 0 <= DecodeInt(s).v <= INT_MAX
  {
  }

  lemma StringRead(s: Bytes)
    ensures DecodeString(s).Got? ==> StrFits(DecodeString(s).v)
  {
    if |s| >= 8 {
      UnLEBound(s[..8]);
      Pow256Values();
    }
  }

  lemma {:induction false} WordsLength(b: Bytes)
    requires |b| % 4 == 0
    ensures 4 * |Words(b)| == |b|
  {
    if b != [] {
      WordsLength(b[4..]);
    }
  }

  lemma VectorRead(s: Bytes)
    ensures DecodeVector(s).Got? ==> |DecodeVector(s).v| <= INT_MAX
  {
    if DecodeVector(s).Got? {
      var n := DecodeInt(s);
      WordsLength(Take(n.rest, 4 * n.v).v);
    }
  }

  ghost predicate ConstsFit(ks: seq<Const>) {
    forall i :: 0 <= i < |ks| ==> ConstFits(ks[i])
  }

  lemma {:induction false} ConstsRead(n: nat, s: Bytes, got: seq<Const>)
    requires ConstsFit(got)
    ensures var r := DecodeConsts(n, s, got); r.Got? ==> |r.v| == |got| + n && ConstsFit(r.v)
    decreases n
  {
    if n > 0 && DecodeConst(s).Got? {
      StringRead(s[1..]);
      var c := DecodeConst(s);
      assert ConstFits(c.v);
      ConstsRead(n - 1, c.rest, got + [c.v]);
    }
  }

  ghost predicate LocVarsFit(vs: seq<LocVar>) {
    forall i :: 0 <= i < |vs| ==> LocVarFits(vs[i])
  }

  lemma LocVarRead(s: Bytes)
    ensures DecodeLocVar(s).Got? ==> LocVarFits(DecodeLocVar(s).v)
  {
    StringRead(s);
    hide DecodeString, DecodeInt;
  }

  lemma {:induction false} LocVarsRead(n: nat, s: Bytes, got: seq<LocVar>)
    requires LocVarsFit(got)
    ensures var r := DecodeLocVars(n, s, got); r.Got? ==> |r.v| == |got| + n && LocVarsFit(r.v)
    decreases n
  {
    hide DecodeLocVar, LocVarFits;
    if n > 0 && DecodeLocVar(s).Got? {
      LocVarRead(s);
      LocVarsRead(n - 1, DecodeLocVar(s).rest, got + [DecodeLocVar(s).v]);
    }
  }

  ghost predicate NamesFit(ns: seq<Str>) {
    forall i :: 0 <= i < |ns| ==> StrFits(ns[i])
  }

  lemma {:induction false} NamesRead(n: nat, s: Bytes, got: seq<Str>)
    requires NamesFit(got)
    ensures var r := DecodeNames(n, s, got); r.Got? ==> |r.v| == |got| + n && NamesFit(r.v)
    decreases n
  {
    hide DecodeString, StrFits;
    if n > 0 && DecodeString(s).Got? {
      StringRead(s);
      NamesRead(n - 1, DecodeString(s).rest, got + [DecodeString(s).v]);
    }
  }

  lemma FrameRead(s: Bytes, p: Str)
    requires p.Some? && StrFits(p)
    ensures var r := DecodeFrame(s, p); r.Got? ==> FrameFits(r.v) && r.v.source.Some? && StrFits(r.v.source)
  {
    StringRead(s);
    hide DecodeString, DecodeInt;
  }

  lemma DebugRead(s: Bytes)
    ensures DecodeDebug(s).Got? ==> DebugFits(DecodeDebug(s).v)
  {
    hide DecodeVector, DecodeInt, DecodeLocVars, DecodeNames, LocVarFits, StrFits;
    if DecodeDebug(s).Got? {
      VectorRead(s);
      var rest := DecodeVector(s).rest;
      IntRead(rest);
      var n := DecodeInt(rest);
      LocVarsRead(n.v, n.rest, []);
      var rest2 := DecodeLocVars(n.v, n.rest, []).rest;
      IntRead(rest2);
      var m := DecodeInt(rest2);
      NamesRead(m.v, m.rest, []);
    }
  }

  /** A function that the format can hold, with sources, whose parts the checker accepts. */
  ghost predicate Sound(f: Proto, check: Proto -> bool) {
    Fits(f) && AllSources(f) && Checked(f, check)
  }

  ghost predicate AllSound(fs: seq<Proto>, check: Proto -> bool) {
    forall i :: 0 <= i < |fs| ==> Sound(fs[i], check)
  }

  lemma SoundOf(f: Proto, check: Proto -> bool)
    requires FrameFits(f.frame) && f.frame.source.Some? && |f.code| <= INT_MAX && |f.k| <= INT_MAX && |f.p| <= INT_MAX
    requires DebugFits(f.debug) && ConstsFit(f.k) && AllSound(f.p, check) && check(f)
    ensures Sound(f, check)
  {
    hide FrameFits, DebugFits, ConstFits;
    assert AllFit(f.p) by {
      assert forall i :: 0 <= i < |f.p| ==> Sound(f.p[i], check);
    }
    assert AllChecked(f.p, check) by {
      assert forall i :: 0 <= i < |f.p| ==> Sound(f.p[i], check);
    }
    assert AllSources(f) by {
      assert forall i :: 0 <= i < |f.p| ==> Sound(f.p[i], check);
    }
  }

  lemma {:induction false} ProtoRead(s: Bytes, p: Str, check: Proto -> bool)
    requires p.Some? && StrFits(p)
    ensures DecodeProto(s, p, check).Got? ==> Sound(DecodeProto(s, p, check).v, check)
    decreases |s|, 0
  {
    hide DecodeFrame, DecodeVector, DecodeInt, DecodeConsts, DecodeProtos, DecodeDebug, StrFits, FrameFits, DebugFits,
         Sound, AllSound, ConstsFit;
    if DecodeProto(s, p, check).Got? {
      FrameRead(s, p);
      var frame := DecodeFrame(s, p);
      VectorRead(frame.rest);
      var code := DecodeVector(frame.rest);
      IntRead(code.rest);
      var n := DecodeInt(code.rest);
      NoConsts();
      ConstsRead(n.v, n.rest, []);
      var ks := DecodeConsts(n.v, n.rest, []);
      IntRead(ks.rest);
      var m := DecodeInt(ks.rest);
      NoProtos(check);
      ProtosRead(m.v, m.rest, frame.v.source, check, []);
      var ps := DecodeProtos(m.v, m.rest, frame.v.source, check, []);
      DebugRead(ps.rest);
      SoundOf(DecodeProto(s, p, check).v, check);
    }
  }

  lemma NoConsts()
    ensures ConstsFit([])
  {
  }

  lemma NoProtos(check: Proto -> bool)
    ensures AllSound([], check)
  {
  }

  lemma {:induction false} ProtosRead(n: nat, s: Bytes, p: Str, check: Proto -> bool, got: seq<Proto>)
    requires p.Some? && StrFits(p) && AllSound(got, check)
    ensures var r := DecodeProtos(n, s, p, check, got); r.Got? ==> |r.v| == |got| + n && AllSound(r.v, check)
    decreases |s|, 1, n
  {
    hide DecodeProto, Sound, StrFits;
    if n == 0 {
      DecodeNone(s, p, check, got);
    } else {
      DecodeNext(n, s, p, check, got);
      var r := DecodeProto(s, p, check);
      if r.Got? {
        ProtoRead(s, p, check);
        ProtosRead(n - 1, r.rest, p, check, got + [r.v]);
      }
    }
  }

  /** Whatever bytes a function was loaded from, dumping it and loading it again gives it back. */
  lemma Reloaded(s: Bytes, check: Proto -> bool, rest: Bytes)
    requires DecodeChunk(s, check).Got?
    ensures var f := DecodeChunk(s, check).v;
            && Fits(f) && AllSources(f) && Checked(f, check)
            && DecodeChunk(EncodeChunk(f, false) + rest, check) == Got(f, rest)
  {
    ProtoRead(s[|HEADER|..], UNKNOWN, check);
    hide DecodeProto, EncodeChunk, Loaded, Fits, AllSources, Checked;
    var f := DecodeChunk(s, check).v;
    ChunkBack(f, false, check, rest);
    SameIffSources(f, UNKNOWN);
  }
}
