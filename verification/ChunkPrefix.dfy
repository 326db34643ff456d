/** A chunk that breaks off is refused (lundump.cpp:36-42): the loader reads no further than a function reaches, and
    takes no less. */
module ChunkPrefix {
  import opened Chunks
  import opened ChunkRoundTrip

  /** What was read from `s` is read from `s + t` too, and `t` is left. */
  ghost predicate GoesOn<T(!new)>(a: Res<T>, b: Res<T>, t: Bytes) {
    a.Got? ==> b == Got(a.v, a.rest + t)
  }

  lemma TakeOn(s: Bytes, n: nat, t: Bytes)
    ensures GoesOn(Take(s, n), Take(s + t, n), t)
  {
    if n <= |s| {
      assert (s + t)[..n] == s[..n] && (s + t)[n..] == s[n..] + t;
    }
  }

  lemma ByteOn(s: Bytes, t: Bytes)
    ensures GoesOn(DecodeByte(s), DecodeByte(s + t), t)
  {
  }

  lemma IntOn(s: Bytes, t: Bytes)
    ensures GoesOn(DecodeInt(s), DecodeInt(s + t), t)
  {
    hide UnLE;
    TakeOn(s, 4, t);
  }

  lemma StringOn(s: Bytes, t: Bytes)
    ensures GoesOn(DecodeString(s), DecodeString(s + t), t)
  {
    hide UnLE, Take;
    TakeOn(s, 8, t);
    if Take(s, 8).Got? {
      TakeOn(Take(s, 8).rest, UnLE(Take(s, 8).v), t);
    }
  }

  lemma VectorOn(s: Bytes, t: Bytes)
    ensures GoesOn(DecodeVector(s), DecodeVector(s + t), t)
  {
    hide DecodeInt, Take, Words;
    IntOn(s, t);
    if DecodeInt(s).Got? {
      TakeOn(DecodeInt(s).rest, 4 * DecodeInt(s).v, t);
    }
  }

  lemma ConstOn(s: Bytes, t: Bytes)
    ensures GoesOn(DecodeConst(s), DecodeConst(s + t), t)
  {
    hide DecodeByte, DecodeString, Take;
    ByteOn(s, t);
    if DecodeByte(s).Got? {
      var rest := DecodeByte(s).rest;
      ByteOn(rest, t);
      TakeOn(rest, 8, t);
      StringOn(rest, t);
    }
  }

  lemma {:induction false} ConstsOn(n: nat, s: Bytes, got: seq<Const>, t: Bytes)
    ensures GoesOn(DecodeConsts(n, s, got), DecodeConsts(n, s + t, got), t)
    decreases n
  {
    hide DecodeConst;
    ConstOn(s, t);
    if n > 0 && DecodeConst(s).Got? {
      ConstsOn(n - 1, DecodeConst(s).rest, got + [DecodeConst(s).v], t);
    }
  }

  lemma LocVarOn(s: Bytes, t: Bytes)
    ensures GoesOn(DecodeLocVar(s), DecodeLocVar(s + t), t)
  {
    hide DecodeString, DecodeInt;
    StringOn(s, t);
    if DecodeString(s).Got? {
      var rest := DecodeString(s).rest;
      IntOn(rest, t);
      if DecodeInt(rest).Got? {
        IntOn(DecodeInt(rest).rest, t);
      }
    }
  }

  lemma {:induction false} LocVarsOn(n: nat, s: Bytes, got: seq<LocVar>, t: Bytes)
    ensures GoesOn(DecodeLocVars(n, s, got), DecodeLocVars(n, s + t, got), t)
    decreases n
  {
    hide DecodeLocVar;
    LocVarOn(s, t);
    if n > 0 && DecodeLocVar(s).Got? {
      LocVarsOn(n - 1, DecodeLocVar(s).rest, got + [DecodeLocVar(s).v], t);
    }
  }

  lemma {:induction false} NamesOn(n: nat, s: Bytes, got: seq<Str>, t: Bytes)
    ensures GoesOn(DecodeNames(n, s, got), DecodeNames(n, s + t, got), t)
    decreases n
  {
    hide DecodeString;
    StringOn(s, t);
    if n > 0 && DecodeString(s).Got? {
      NamesOn(n - 1, DecodeString(s).rest, got + [DecodeString(s).v], t);
    }
  }

  lemma FrameOn(s: Bytes, p: Str, t: Bytes)
    ensures GoesOn(DecodeFrame(s, p), DecodeFrame(s + t, p), t)
  {
    hide DecodeString, DecodeInt;
    StringOn(s, t);
    if DecodeString(s).Got? {
      var rest := DecodeString(s).rest;
      IntOn(rest, t);
      if DecodeInt(rest).Got? {
        var rest1 := DecodeInt(rest).rest;
        IntOn(rest1, t);
        if DecodeInt(rest1).Got? {
          TakeOn(DecodeInt(rest1).rest, 4, t);
        }
      }
    }
  }

  lemma DebugOn(s: Bytes, t: Bytes)
    ensures GoesOn(DecodeDebug(s), DecodeDebug(s + t), t)
  {
    hide DecodeVector, DecodeInt, DecodeLocVars, DecodeNames;
    VectorOn(s, t);
    if DecodeVector(s).Got? {
      var rest := DecodeVector(s).rest;
      IntOn(rest, t);
      if DecodeInt(rest).Got? {
        LocVarsOn(DecodeInt(rest).v, DecodeInt(rest).rest, [], t);
        var vs := DecodeLocVars(DecodeInt(rest).v, DecodeInt(rest).rest, []);
        if vs.Got? {
          IntOn(vs.rest, t);
          if DecodeInt(vs.rest).Got? {
            NamesOn(DecodeInt(vs.rest).v, DecodeInt(vs.rest).rest, [], t);
          }
        }
      }
    }
  }

  lemma {:induction false} ProtoOn(s: Bytes, p: Str, check: Proto -> bool, t: Bytes)
    ensures GoesOn(DecodeProto(s, p, check), DecodeProto(s + t, p, check), t)
    decreases |s|, 0
  {
    hide DecodeFrame, DecodeVector, DecodeInt, DecodeConsts, DecodeProtos, DecodeDebug;
    FrameOn(s, p, t);
    if DecodeFrame(s, p).Got? {
      var r := DecodeFrame(s, p);
      VectorOn(r.rest, t);
      if DecodeVector(r.rest).Got? {
        var r1 := DecodeVector(r.rest).rest;
        IntOn(r1, t);
        if DecodeInt(r1).Got? {
          var ks := DecodeConsts(DecodeInt(r1).v, DecodeInt(r1).rest, []);
          ConstsOn(DecodeInt(r1).v, DecodeInt(r1).rest, [], t);
          if ks.Got? {
            IntOn(ks.rest, t);
            if DecodeInt(ks.rest).Got? {
              var m := DecodeInt(ks.rest);
              ProtosOn(m.v, m.rest, r.v.source, check, [], t);
              var ps := DecodeProtos(m.v, m.rest, r.v.source, check, []);
              if ps.Got? {
                DebugOn(ps.rest, t);
              }
            }
          }
        }
      }
    }
  }

  lemma {:induction false} ProtosOn(n: nat, s: Bytes, p: Str, check: Proto -> bool, got: seq<Proto>, t: Bytes)
    ensures GoesOn(DecodeProtos(n, s, p, check, got), DecodeProtos(n, s + t, p, check, got), t)
    decreases |s|, 1, n
  {
    hide DecodeProtos, DecodeProto;
    if n == 0 {
      DecodeNone(s, p, check, got);
      DecodeNone(s + t, p, check, got);
    } else {
      DecodeNext(n, s, p, check, got);
      DecodeNext(n, s + t, p, check, got);
      var r := DecodeProto(s, p, check);
      ProtoOn(s, p, check, t);
      if r.Got? {
        ProtosOn(n - 1, r.rest, p, check, got + [r.v], t);
      }
    }
  }

  /** What stands behind a chunk does not change what is loaded. */
  lemma ChunkGoesOn(s: Bytes, check: Proto -> bool, t: Bytes)
    requires DecodeChunk(s, check).Got?
    ensures var r := DecodeChunk(s, check); DecodeChunk(s + t, check) == Got(r.v, r.rest + t)
  {
    hide DecodeProto;
    TakeOn(s, |HEADER|, t);
    ProtoOn(s[|HEADER|..], UNKNOWN, check, t);
  }

  /** No part of a chunk that is cut off at its end is a chunk. */
  lemma TruncatedRefused(f: Proto, strip: bool, check: Proto -> bool, n: nat)
    requires Fits(f) && n < |EncodeChunk(f, strip)|
    ensures DecodeChunk(EncodeChunk(f, strip)[..n], check).Err?
  {
    hide EncodeChunk, DecodeChunk, Fits, Loaded, Checked;
    var b := EncodeChunk(f, strip);
    var s, t := b[..n], b[n..];
    assert b == s + t && b + [] == b;
    ChunkBack(f, strip, check, []);
    if DecodeChunk(s, check).Got? {
      ChunkGoesOn(s, check, t);
    }
  }
}
