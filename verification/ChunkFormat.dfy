/** The bytes of a precompiled chunk, written out (ldump.cpp, lundump.cpp:160-200): what the writer and the
    reader agree on is this format and no other. */
module ChunkFormat {
  import opened Common
  import opened Chunks

  // ---------- The header ----------

  /** Escape and "Lua", version 5.1, format 0, little endian, the sizes of int, size_t, Instruction and
      lua_Number, and no integral numbers. */
  lemma StartsWithHeader(f: Proto, strip: bool)
    requires Fits(f)
    ensures |EncodeChunk(f, strip)| >= 12
    ensures EncodeChunk(f, strip)[..12] == [27, 76, 117, 97, 81, 0, 1, 4, 8, 4, 8, 0]
  {
    hide EncodeProto;
  }

  /** A chunk that starts in any other way is refused. */
  lemma OtherHeaderRefused(s: Bytes, check: Proto -> bool)
    ensures |s| < 12 ==> DecodeChunk(s, check) == Err(UnexpectedEnd)
    ensures |s| >= 12 && s[..12] != [27, 76, 117, 97, 81, 0, 1, 4, 8, 4, 8, 0] ==>
              DecodeChunk(s, check) == Err(BadHeader)
  {
    hide DecodeProto;
  }

  // ---------- Numbers and strings ----------

  lemma Unrolled(w: nat)
    ensures LE(w, 4) == [w % 256, w / 256 % 256, w / 256 / 256 % 256, w / 256 / 256 / 256 % 256]
    ensures LE(w, 8) == LE(w, 4) + LE(w / 256 / 256 / 256 / 256, 4)
  {
    hide LE;
    var w1, w2, w3, w4 := w / 256, w / 256 / 256, w / 256 / 256 / 256, w / 256 / 256 / 256 / 256;
    NoBytes(w4);
    Longer(w3, w4, 1);
    Longer(w2, w3, 2);
    Longer(w1, w2, 3);
    Longer(w, w1, 4);
  }

  lemma NoBytes(w: nat)
    ensures LE(w, 0) == []
  {
  }

  lemma Longer(w: nat, w1: nat, k: nat)
    requires k > 0 && w1 == w / 256
    ensures LE(w, k) == [w % 256] + LE(w1, k - 1)
    ensures LE(w, k + 4) == [w % 256] + LE(w1, k + 3)
  {
  }

  /** Ints have four bytes, the lowest first. */
  lemma IntBytes(x: nat)
    ensures EncodeInt(x) == [x % 256, x / 256 % 256, x / 256 / 256 % 256, x / 256 / 256 / 256 % 256]
    ensures x < 256 ==> EncodeInt(x) == [x, 0, 0, 0]
  {
    Unrolled(x);
    if x < 256 {
      assert x / 256 == 0;
    }
  }

  lemma SizeBytes(n: nat)
    requires n < 256
    ensures LE(n, 8) == [n, 0, 0, 0, 0, 0, 0, 0]
  {
    hide LE;
    Unrolled(n);
    Unrolled(0);
    assert n / 256 == 0;
    assert LE(n, 4) == [n, 0, 0, 0] && LE(0, 4) == [0, 0, 0, 0];
  }

  /** A string is its size, the final zero included, and its bytes with that zero; a null is the size zero. */
  lemma StringBytes(v: Bytes)
    requires |v| < 255
    ensures EncodeString(None) == [0, 0, 0, 0, 0, 0, 0, 0]
    ensures EncodeString(Some(v)) == [|v| + 1, 0, 0, 0, 0, 0, 0, 0] + v + [0]
  {
    hide LE;
    SizeBytes(0);
    SizeBytes(|v| + 1);
    assert LE(|v| + 1, 8) + (v + [0]) == LE(|v| + 1, 8) + v + [0];
  }

  /** Each constant starts with its type. */
  lemma ConstantBytes(b: Byte, raw: Raw8, s: Str)
    ensures EncodeConst(KNil) == [0] && EncodeConst(KBool(b)) == [1, b] && EncodeConst(KNum(raw)) == [3] + raw
    ensures EncodeConst(KStr(s)) == [4] + EncodeString(s)
  {
  }

  lemma OtherTypeRefused(s: Bytes)
    requires s != [] && s[0] != 0 && s[0] != 1 && s[0] != 3 && s[0] != 4
    ensures DecodeConst(s) == Err(BadConstant)
  {
  }

  /** An int with its sign bit set is refused. */
  lemma NegativeRefused(a: Byte, b: Byte, c: Byte, d: Byte, rest: Bytes)
    ensures DecodeInt([a, b, c, d] + rest) ==
            if d >= 128 then Err(BadInteger) else Got(a + 256 * b + 0x1_0000 * c + 0x100_0000 * d, rest)
  {
    var s: Bytes := [a, b, c, d];
    assert s[1..] == [b, c, d] && s[1..][1..] == [c, d] && s[1..][1..][1..] == [d] && s[1..][1..][1..][1..] == [];
    assert UnLE(s[1..][1..][1..]) == d;
    assert UnLE(s[1..][1..]) == c + 256 * d;
    assert UnLE(s[1..]) == b + 256 * (c + 256 * d);
    assert (s + rest)[..4] == s && (s + rest)[4..] == rest;
  }

  // ---------- A whole chunk ----------

  const INNER := Proto(Frame(Some([64, 97]), 8, 9, 0, 0, 0, 2), [30], [], [], Debug([], [], []))

  /** A function with every kind of constant, one function in it, and debug information. */
  const OUTER := Proto(Frame(Some([64, 97]), 1, 2, 3, 4, 5, 6), [0x0D0C_0B0A, 7],
                       [KNil, KBool(1), KNum([21, 22, 23, 24, 25, 26, 27, 28]), KStr(Some([104, 105]))], [INNER],
                       Debug([10, 11], [LocVar(Some([120]), 0, 1)], [Some([121])]))

  const SOURCE_BYTES: Bytes := [3, 0, 0, 0, 0, 0, 0, 0] + [64, 97] + [0]
  const FRAME_BYTES: Bytes := SOURCE_BYTES + ([1, 0, 0, 0] + ([2, 0, 0, 0] + [3, 4, 5, 6]))
  const CODE_BYTES: Bytes := [2, 0, 0, 0] + ([10, 11, 12, 13] + [7, 0, 0, 0])
  const STRING_BYTES: Bytes := [4] + ([3, 0, 0, 0, 0, 0, 0, 0] + [104, 105] + [0])
  const CONSTANT_BYTES: Bytes :=
    [4, 0, 0, 0] + ([0] + ([1, 1] + ([3] + [21, 22, 23, 24, 25, 26, 27, 28] + STRING_BYTES)))

  /** The source is left out, as it is that of the function around. */
  const INNER_BYTES: Bytes :=
    ([0, 0, 0, 0, 0, 0, 0, 0] + ([8, 0, 0, 0] + ([9, 0, 0, 0] + [0, 0, 0, 2]))) +
    (([1, 0, 0, 0] + [30, 0, 0, 0]) +
     ([0, 0, 0, 0] + ([0, 0, 0, 0] + ([0, 0, 0, 0] + ([0, 0, 0, 0] + [0, 0, 0, 0])))))
  const DEBUG_BYTES: Bytes :=
    ([2, 0, 0, 0] + ([10, 0, 0, 0] + [11, 0, 0, 0])) +
    (([1, 0, 0, 0] + (([2, 0, 0, 0, 0, 0, 0, 0] + [120] + [0]) + ([0, 0, 0, 0] + [1, 0, 0, 0]))) +
     ([1, 0, 0, 0] + ([2, 0, 0, 0, 0, 0, 0, 0] + [121] + [0])))

  lemma FrameWritten()
    ensures FrameFits(OUTER.frame) && EncodeFrame(OUTER.frame) == FRAME_BYTES
  {
    hide LE, EncodeInt, EncodeString;
    StringBytes([64, 97]);
    IntBytes(1);
    IntBytes(2);
  }

  /** Vectors of one and of two words, lists of one name, one variable and four constants. */
  lemma ShortImages(a: Word, b: Word)
    ensures Image([a]) == LE(a, 4) && Image([a, b]) == LE(a, 4) + LE(b, 4)
  {
    hide LE;
    assert [a][1..] == [] && [a, b][1..] == [b];
    assert LE(a, 4) + [] == LE(a, 4) && LE(b, 4) + [] == LE(b, 4);
    assert Image([b]) == LE(b, 4) + Image([b][1..]);
  }

  lemma ShortLists(name: Str, v: LocVar)
    requires LocVarFits(v)
    ensures EncodeNames([name]) == EncodeString(name) && EncodeLocVars([v]) == EncodeLocVar(v)
  {
    hide EncodeString, EncodeLocVar;
    assert [name][1..] == [] && [v][1..] == [];
  }

  lemma FourConstants(a: Const, b: Const, c: Const, d: Const)
    ensures EncodeConsts([a, b, c, d]) == EncodeConst(a) + (EncodeConst(b) + (EncodeConst(c) + EncodeConst(d)))
  {
    hide EncodeConst;
    assert [a, b, c, d][1..] == [b, c, d] && [b, c, d][1..] == [c, d] && [c, d][1..] == [d] && [d][1..] == [];
    assert EncodeConsts([d]) == EncodeConst(d) + [];
    assert EncodeConsts([c, d]) == EncodeConst(c) + EncodeConsts([d]);
    assert EncodeConsts([b, c, d]) == EncodeConst(b) + EncodeConsts([c, d]);
  }

  lemma CodeWritten()
    ensures EncodeVector(OUTER.code) == CODE_BYTES
  {
    IntBytes(2);
    IntBytes(7);
    IntBytes(0x0D0C_0B0A);
    hide LE, Image;
    ShortImages(0x0D0C_0B0A, 7);
  }

  lemma ConstantsWritten()
    ensures EncodeInt(|OUTER.k|) + EncodeConsts(OUTER.k) == CONSTANT_BYTES
  {
    hide EncodeConst, EncodeConsts, EncodeInt, EncodeString;
    var raw: Raw8 := [21, 22, 23, 24, 25, 26, 27, 28];
    IntBytes(4);
    StringBytes([104, 105]);
    ConstantBytes(1, raw, Some([104, 105]));
    FourConstants(KNil, KBool(1), KNum(raw), KStr(Some([104, 105])));
  }

  lemma DebugWritten()
    ensures DebugFits(OUTER.debug) && EncodeDebug(OUTER.debug) == DEBUG_BYTES
  {
    IntBytes(0);
    IntBytes(1);
    IntBytes(2);
    IntBytes(10);
    IntBytes(11);
    StringBytes([120]);
    StringBytes([121]);
    ShortImages(10, 11);
    ShortLists(Some([121]), LocVar(Some([120]), 0, 1));
    hide LE, Image, EncodeString, EncodeNames, EncodeLocVars;
  }

  lemma InnerWritten()
    ensures Fits(INNER) && EncodeProto(INNER, Some([64, 97]), false) == INNER_BYTES
  {
    StringBytes([]);
    IntBytes(0);
    IntBytes(1);
    IntBytes(8);
    IntBytes(9);
    IntBytes(30);
    ShortImages(30, 30);
    NothingWritten();
    hide LE, EncodeInt, EncodeString, EncodeConsts, EncodeProtos, EncodeNames, EncodeLocVars, Image;
  }

  lemma NothingWritten()
    ensures EncodeConsts([]) == [] && EncodeProtos([], Some([64, 97]), false) == [] && EncodeNames([]) == []
    ensures EncodeLocVars([]) == [] && Image([]) == [] && forall b: Bytes :: b + [] == b
  {
  }

  /** All of it: header, frame, code, constants, functions, debug information. */
  lemma ChunkWritten()
    ensures Fits(OUTER)
    ensures EncodeChunk(OUTER, false) ==
            [27, 76, 117, 97, 81, 0, 1, 4, 8, 4, 8, 0] +
            (FRAME_BYTES + (CODE_BYTES + (CONSTANT_BYTES + (([1, 0, 0, 0] + INNER_BYTES) + DEBUG_BYTES))))
  {
    FrameWritten();
    CodeWritten();
    ConstantsWritten();
    DebugWritten();
    InnerWritten();
    IntBytes(1);
    OneInside();
    hide LE, EncodeInt, EncodeFrame, EncodeVector, EncodeConsts, EncodeDebug, EncodeProtos;
  }

  lemma OneInside()
    requires Fits(INNER) && FrameFits(OUTER.frame) && DebugFits(OUTER.debug)
    ensures Fits(OUTER)
    ensures EncodeProtos(OUTER.p, Some([64, 97]), false) == EncodeProto(INNER, Some([64, 97]), false)
  {
    hide EncodeProto, FrameFits, DebugFits;
    assert OUTER.p[1..] == [];
    assert AllFit(OUTER.p);
  }
}
