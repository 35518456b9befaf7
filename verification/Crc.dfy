/** The CRC-32/MPEG-2 checksum of program tables. */
module Crc {
  import opened Bytes

  const POLY: bv32 := 0x04C1_1DB7

  function Xor(a: bv32, b: bv32): bv32 {
    a ^ b
  }

  function Twice(a: bv32): bv32 {
    a << 1
  }

  predicate TopSet(a: bv32) {
    a & 0x8000_0000 != 0
  }

  /** One bit of the register: shift left, and fold the polynomial in when a one falls out. */
  function Bit(c: bv32): bv32 {
    if TopSet(c) then Xor(Twice(c), POLY) else Twice(c)
  }

  function Bits(c: bv32, n: nat): bv32
    decreases n
  {
    if n == 0 then c else Bits(Bit(c), n - 1)
  }

  /** A byte as the low eight bits of a word. */
  function Low(b: byte): bv32 {
    Widen(b as bv8)
  }

  function LowByte(w: bv32): byte {
    Narrow(w) as int
  }

  function Widen(b: bv8): bv32 {
    b as bv32
  }

  function Narrow(w: bv32): bv8 {
    (w & 0xFF) as bv8
  }

  /** A byte as the top eight bits of the register. */
  function Top(b: byte): bv32 {
    Low(b) << 24
  }

  /** A word written in big-endian order, and read back. */
  function WordBytes(w: bv32): (s: seq<byte>)
    ensures |s| == 4
  {
    [LowByte(Down(w, 3)), LowByte(Down(w, 2)), LowByte(Down(w, 1)), LowByte(w)]
  }

  /** The word without its lowest `k` bytes. */
  function Down(w: bv32, k: nat): bv32
    requires k < 4
  {
    if k == 0 then w else if k == 1 then w >> 8 else if k == 2 then w >> 16 else w >> 24
  }

  function LowBits(w: bv32): bv32 {
    w & 0xFF
  }

  function WordAt(s: seq<byte>, at: nat): bv32
    requires at + 4 <= |s|
  {
    Joined(Low(s[at]), Low(s[at + 1]), Low(s[at + 2]), Low(s[at + 3]))
  }

  function Joined(a0: bv32, a1: bv32, a2: bv32, a3: bv32): bv32 {
    (a0 << 24) | (a1 << 16) | (a2 << 8) | a3
  }

  function Step(c: bv32, b: byte): bv32 {
    Bits(Xor(c, Top(b)), 8)
  }

  /** The register after `data`, starting from `c`. */
  function Register(c: bv32, data: seq<byte>): bv32
    decreases |data|
  {
    if data == [] then c else Register(Step(c, data[0]), data[1..])
  }

  const START: bv32 := 0xFFFF_FFFF

  function Crc32(data: seq<byte>): bv32 {
    Register(START, data)
  }

  method Crc32Mpeg2(data: seq<byte>) returns (crc: bv32)
    ensures crc == Crc32(data)
  {
    hide Bit;
    var c := START;
    for i := 0 to |data|
      invariant Register(c, data[i..]) == Register(START, data)
    {
      assert data[i..][1..] == data[i + 1..];
      ghost var target := Step(c, data[i]);
      c := Xor(c, Top(data[i]));
      for k := 0 to 8
        invariant Bits(c, 8 - k) == target
      {
        c := NextBit(c);
      }
    }
    return c;
  }

  method NextBit(c: bv32) returns (r: bv32)
    ensures r == Bit(c)
  {
    if c & 0x8000_0000 != 0 {
      r := (c << 1) ^ POLY;
    } else {
      r := c << 1;
    }
  }

  // ---------- Nothing is lost in the register ----------

  /** The register before the last bit: the polynomial is odd, so the lowest bit tells whether it was folded in. */
  function BitBack(d: bv32): bv32 {
    if d & 1 != 0 then Half(Xor(d, POLY)) | 0x8000_0000 else Half(d)
  }

  function Half(d: bv32): bv32 {
    d >> 1
  }

  lemma BitIsInvertible(c: bv32)
    ensures BitBack(Bit(c)) == c
  {
    hide Xor, Twice, Half, TopSet;
    ShiftComesBack(c);
    FoldedIsOdd(c);
    XorTwice(Twice(c), POLY);
  }

  lemma ShiftComesBack(c: bv32)
    ensures TopSet(c) ==> Half(Twice(c)) | 0x8000_0000 == c
    ensures !TopSet(c) ==> Half(Twice(c)) == c
  {
  }

  lemma FoldedIsOdd(c: bv32)
    ensures Twice(c) & 1 == 0 && Xor(Twice(c), POLY) & 1 != 0
  {
  }

  lemma XorTwice(a: bv32, b: bv32)
    ensures Xor(Xor(a, b), b) == a
  {
  }

  lemma {:induction false} BitsAreInjective(a: bv32, b: bv32, n: nat)
    requires Bits(a, n) == Bits(b, n)
    ensures a == b
    decreases n
  {
    hide Bit, BitBack;
    if n > 0 {
      BitsAreInjective(Bit(a), Bit(b), n - 1);
      BitIsInvertible(a);
      BitIsInvertible(b);
    }
  }

  lemma XorCancels(a: bv32, b: bv32, t: bv32)
    requires Xor(a, t) == Xor(b, t)
    ensures a == b
  {
    hide Xor;
    XorTwice(a, t);
    XorTwice(b, t);
  }

  lemma StepIsInjective(a: bv32, b: bv32, x: byte)
    requires Step(a, x) == Step(b, x)
    ensures a == b
  {
    hide Bits, Top, Xor;
    BitsAreInjective(Xor(a, Top(x)), Xor(b, Top(x)), 8);
    XorCancels(a, b, Top(x));
  }

  lemma {:induction false} RegisterIsInjective(a: bv32, b: bv32, data: seq<byte>)
    requires Register(a, data) == Register(b, data)
    ensures a == b
    decreases |data|
  {
    hide Bits, Top;
    hide Step;
    if data != [] {
      RegisterIsInjective(Step(a, data[0]), Step(b, data[0]), data[1..]);
      StepIsInjective(a, b, data[0]);
    }
  }

  lemma {:induction false} RegisterConcat(c: bv32, x: seq<byte>, y: seq<byte>)
    ensures Register(c, x + y) == Register(Register(c, x), y)
    decreases |x|
  {
    hide Step;
    if x == [] {
      assert x + y == y;
    } else {
      assert (x + y)[0] == x[0] && (x + y)[1..] == x[1..] + y;
      RegisterConcat(Step(c, x[0]), x[1..], y);
    }
  }

  // ---------- The register is linear ----------

  lemma BitIsLinear(a: bv32, b: bv32)
    ensures Bit(Xor(a, b)) == Xor(Bit(a), Bit(b))
  {
    hide Xor, Twice, TopSet;
    ShiftIsLinear(a, b);
    TopIsLinear(a, b);
    XorMoves(Twice(a), Twice(b), POLY);
  }

  lemma ShiftIsLinear(a: bv32, b: bv32)
    ensures Twice(Xor(a, b)) == Xor(Twice(a), Twice(b))
  {
  }

  lemma TopIsLinear(a: bv32, b: bv32)
    ensures TopSet(Xor(a, b)) == (TopSet(a) != TopSet(b))
  {
  }

  lemma XorSwaps(a: bv32, b: bv32, p: bv32)
    ensures Xor(Xor(a, p), b) == Xor(Xor(a, b), p)
  {
    hide Xor;
    XorGroups(a, p, b);
    XorGroups(a, b, p);
    XorCommutes(b, p);
  }

  lemma XorCommutes(a: bv32, b: bv32)
    ensures Xor(a, b) == Xor(b, a)
  {
  }

  lemma XorGroups(a: bv32, b: bv32, p: bv32)
    ensures Xor(a, Xor(b, p)) == Xor(Xor(a, b), p)
  {
  }

  lemma XorMoves(a: bv32, b: bv32, p: bv32)
    ensures Xor(Xor(a, p), Xor(b, p)) == Xor(a, b)
    ensures Xor(Xor(a, p), b) == Xor(Xor(a, b), p) == Xor(a, Xor(b, p))
  {
    hide Xor;
    XorSwaps(a, b, p);
    XorGroups(a, b, p);
    XorGroups(Xor(a, p), b, p);
    XorTwice(Xor(a, b), p);
  }

  lemma {:induction false} BitsAreLinear(a: bv32, b: bv32, n: nat)
    ensures Bits(Xor(a, b), n) == Xor(Bits(a, n), Bits(b, n))
    decreases n
  {
    hide Bit, Xor;
    if n > 0 {
      BitIsLinear(a, b);
      BitsAreLinear(Bit(a), Bit(b), n - 1);
    }
  }

  // ---------- Four bytes at a time ----------

  lemma {:induction false} BitsAdd(c: bv32, m: nat, n: nat)
    ensures Bits(Bits(c, m), n) == Bits(c, m + n)
    decreases m
  {
    hide Bit;
    if m > 0 {
      BitsAdd(Bit(c), m - 1, n);
    }
  }

  /** A byte that reaches the top of the register after `k` more bytes. */
  function Shifted(b: byte, k: nat): bv32
    requires k < 4
  {
    if k == 0 then Low(b) << 24 else if k == 1 then Low(b) << 16 else if k == 2 then Low(b) << 8 else Low(b)
  }

  /** A register whose top byte is clear is only shifted by eight rounds. */
  lemma LowBitsMoveUp(v: bv32)
    requires v & 0xFF00_0000 == 0
    ensures Bits(v, 8) == v << 8
  {
    EightTimesTwo(v);
    var v1 := Twice(v);
    var v2 := Twice(v1);
    var v3 := Twice(v2);
    var v4 := Twice(v3);
    var v5 := Twice(v4);
    var v6 := Twice(v5);
    var v7 := Twice(v6);
    hide Twice, TopSet;
    assert Bits(v, 8) == Bits(v1, 7) == Bits(v2, 6);
    assert Bits(v2, 6) == Bits(v3, 5) == Bits(v4, 4);
    assert Bits(v4, 4) == Bits(v5, 3) == Bits(v6, 2);
    assert Bits(v6, 2) == Bits(v7, 1) == Bits(Twice(v7), 0);
  }

  lemma EightTimesTwo(v: bv32)
    requires v & 0xFF00_0000 == 0
    ensures !TopSet(v) && !TopSet(Twice(v)) && !TopSet(Twice(Twice(v))) && !TopSet(Twice(Twice(Twice(v))))
    ensures var w := Twice(Twice(Twice(Twice(v))));
            !TopSet(w) && !TopSet(Twice(w)) && !TopSet(Twice(Twice(w))) && !TopSet(Twice(Twice(Twice(w))))
            && Twice(Twice(Twice(Twice(w)))) == v << 8
  {
  }

  lemma ByteMovesUp(b: byte, k: nat)
    requires 1 <= k < 4
    ensures Bits(Shifted(b, k), 8) == Shifted(b, k - 1)
  {
    hide Bits, Shifted;
    ShiftedUp(b, k);
    LowBitsMoveUp(Shifted(b, k));
  }

  lemma ShiftedUp(b: byte, k: nat)
    requires 1 <= k < 4
    ensures Shifted(b, k) & 0xFF00_0000 == 0 && Shifted(b, k) << 8 == Shifted(b, k - 1)
  {
    LowIsSmall(b);
    hide Low;
  }

  lemma LowIsSmall(b: byte)
    ensures Low(b) & 0xFFFF_FF00 == 0
  {
  }

  lemma {:induction false} ByteReachesTop(b: byte, k: nat)
    requires k < 4
    ensures Bits(Shifted(b, k), 8 * k) == Top(b)
  {
    hide Bit, Low;
    if k > 0 {
      ByteMovesUp(b, k);
      ByteReachesTop(b, k - 1);
      BitsAdd(Shifted(b, k), 8, 8 * (k - 1));
    }
  }

  /** Taking in a byte after `k` others is taking it in before them, that much lower. */
  lemma StepMovesForward(x: bv32, b: byte, k: nat)
    requires k < 4
    ensures Step(Bits(x, 8 * k), b) == Bits(Xor(x, Shifted(b, k)), 8 * (k + 1))
  {
    hide Bits, Xor, Shifted, Top;
    ByteReachesTop(b, k);
    BitsAreLinear(x, Shifted(b, k), 8 * k);
    BitsAdd(Xor(x, Shifted(b, k)), 8 * k, 8);
  }

  function Mixed(c: bv32, w: seq<byte>): bv32
    requires |w| == 4
  {
    Xor(Xor(Xor(Xor(c, Shifted(w[0], 0)), Shifted(w[1], 1)), Shifted(w[2], 2)), Shifted(w[3], 3))
  }

  lemma FourBytes(c: bv32, w: seq<byte>)
    requires |w| == 4
    ensures Register(c, w) == Bits(Mixed(c, w), 32)
  {
    hide Bits, Xor, Shifted, Step;
    RegisterOfFour(c, w);
    var x0 := c;
    var x1 := Xor(x0, Shifted(w[0], 0));
    var x2 := Xor(x1, Shifted(w[1], 1));
    var x3 := Xor(x2, Shifted(w[2], 2));
    assert Bits(c, 0) == c by { NoBits(c); }
    StepMovesForward(x0, w[0], 0);
    StepMovesForward(x1, w[1], 1);
    StepMovesForward(x2, w[2], 2);
    StepMovesForward(x3, w[3], 3);
  }

  lemma RegisterOfFour(c: bv32, w: seq<byte>)
    requires |w| == 4
    ensures Register(c, w) == Step(Step(Step(Step(c, w[0]), w[1]), w[2]), w[3])
  {
    hide Step;
    var w1, w2, w3 := [w[1], w[2], w[3]], [w[2], w[3]], [w[3]];
    assert w[1..] == w1 && w1[1..] == w2 && w2[1..] == w3 && w3[1..] == [];
    var c1 := Step(c, w[0]);
    var c2 := Step(c1, w[1]);
    var c3 := Step(c2, w[2]);
    var c4 := Step(c3, w[3]);
    assert Register(c3, w3) == Register(c4, []) == c4;
    assert Register(c1, w1) == Register(c2, w2) == Register(c3, w3);
  }

  lemma NoBits(c: bv32)
    ensures Bits(c, 0) == c
  {
  }

  lemma MixedIsInjective(c: bv32, v: seq<byte>, w: seq<byte>)
    requires |v| == |w| == 4 && Mixed(c, v) == Mixed(c, w)
    ensures v == w
  {
    var a0, a1, a2, a3 := Low(v[0]), Low(v[1]), Low(v[2]), Low(v[3]);
    var b0, b1, b2, b3 := Low(w[0]), Low(w[1]), Low(w[2]), Low(w[3]);
    MixedOfLow(c, v);
    MixedOfLow(c, w);
    hide Low, Mixed, MixLow;
    ByteApart(v[0], w[0]);
    ByteApart(v[1], w[1]);
    ByteApart(v[2], w[2]);
    ByteApart(v[3], w[3]);
    MixApart(c, a0, a1, a2, a3, b0, b1, b2, b3);
  }

  function MixLow(c: bv32, a0: bv32, a1: bv32, a2: bv32, a3: bv32): bv32 {
    c ^ (a0 << 24) ^ (a1 << 16) ^ (a2 << 8) ^ a3
  }

  lemma MixedOfLow(c: bv32, w: seq<byte>)
    requires |w| == 4
    ensures Mixed(c, w) == MixLow(c, Low(w[0]), Low(w[1]), Low(w[2]), Low(w[3]))
  {
    hide Low;
  }

  lemma ByteComesBack(b: byte)
    ensures LowByte(Low(b)) == b
  {
    hide Widen, Narrow;
    NarrowAfterWiden(b as bv8);
    BitsOfByte(b);
  }

  lemma BitsOfByte(b: byte)
    ensures (b as bv8) as int == b
  {
    BitsOfNumber(EightBits(b));
  }

  /** The eight bits of a number, by counting up to it. */
  function EightBits(n: nat): (r: bv8)
    requires n < 0x100
    ensures r as int == n
  {
    if n == 0 then 0
    else
      OneMore(EightBits(n - 1));
      EightBits(n - 1) + 1
  }

  lemma OneMore(r: bv8)
    requires r as int < 0xFF
    ensures (r + 1) as int == r as int + 1
  {
  }

  lemma BitsOfNumber(x: bv8)
    ensures (x as int) as bv8 == x
  {
  }

  lemma NarrowAfterWiden(b: bv8)
    ensures Narrow(Widen(b)) == b && Widen(b) < 0x100
  {
  }

  lemma ByteApart(a: byte, b: byte)
    ensures Low(a) < 0x100 && Low(b) < 0x100
    ensures Low(a) == Low(b) ==> a == b
  {
    hide Widen, Narrow, LowByte;
    NarrowAfterWiden(a as bv8);
    NarrowAfterWiden(b as bv8);
    ByteComesBack(a);
    ByteComesBack(b);
  }

  lemma MixApart(c: bv32, a0: bv32, a1: bv32, a2: bv32, a3: bv32, b0: bv32, b1: bv32, b2: bv32, b3: bv32)
    requires a0 < 0x100 && a1 < 0x100 && a2 < 0x100 && a3 < 0x100
    requires b0 < 0x100 && b1 < 0x100 && b2 < 0x100 && b3 < 0x100
    requires MixLow(c, a0, a1, a2, a3) == MixLow(c, b0, b1, b2, b3)
    ensures a0 == b0 && a1 == b1 && a2 == b2 && a3 == b3
  {
  }

  // ---------- What the checksum detects ----------

  lemma FourBytesApart(c: bv32, v: seq<byte>, w: seq<byte>)
    requires |v| == |w| == 4 && Register(c, v) == Register(c, w)
    ensures v == w
  {
    hide Bits, Mixed, Register;
    FourBytes(c, v);
    FourBytes(c, w);
    BitsAreInjective(Mixed(c, v), Mixed(c, w), 32);
    MixedIsInjective(c, v, w);
  }

  /** Two strings that agree except within a window of at most four bytes have different checksums. */
  lemma BurstIsDetected(before: seq<byte>, v: seq<byte>, w: seq<byte>, after: seq<byte>)
    requires |v| == |w| <= 4 && v != w
    ensures Crc32(before + v + after) != Crc32(before + w + after)
  {
    hide Register;
    var c := Register(START, before);
    RegisterConcat(START, before + v, after);
    RegisterConcat(START, before + w, after);
    RegisterConcat(START, before, v);
    RegisterConcat(START, before, w);
    if Crc32(before + v + after) == Crc32(before + w + after) {
      RegisterIsInjective(Register(c, v), Register(c, w), after);
      var pad := Fill(4 - |v|, 0);
      RegisterConcat(c, v, pad);
      RegisterConcat(c, w, pad);
      FourBytesApart(c, v + pad, w + pad);
      WindowsDiffer(v, w, pad);
    }
  }

  lemma WindowsDiffer(v: seq<byte>, w: seq<byte>, pad: seq<byte>)
    requires |v| == |w| && v != w
    ensures v + pad != w + pad
  {
    assert (v + pad)[..|v|] == v && (w + pad)[..|v|] == w;
  }

  lemma SingleByteIsDetected(s: seq<byte>, t: seq<byte>, i: nat)
    requires |s| == |t| && i < |s| && s[i] != t[i] && forall j :: 0 <= j < |s| && j != i ==> s[j] == t[j]
    ensures Crc32(s) != Crc32(t)
  {
    assert s == s[..i] + [s[i]] + s[i + 1..] && t == s[..i] + [t[i]] + s[i + 1..];
    assert [s[i]][0] != [t[i]][0];
    BurstIsDetected(s[..i], [s[i]], [t[i]], s[i + 1..]);
  }

  /** A string followed by its own checksum has checksum zero, and only its own checksum does that. */
  lemma OwnChecksumGivesZero(s: seq<byte>, w: seq<byte>)
    requires |w| == 4
    ensures Crc32(s + w) == 0 <==> w == WordBytes(Crc32(s))
  {
    hide Register, Bits, Mixed;
    var c := Register(START, s);
    RegisterConcat(START, s, w);
    RegisterConcat(START, s, WordBytes(c));
    FourBytes(c, WordBytes(c));
    MixedWithItself(c);
    ZeroStays(32);
    if Crc32(s + w) == 0 {
      FourBytesApart(c, w, WordBytes(c));
    }
  }

  lemma {:induction false} ZeroStays(n: nat)
    ensures Bits(0, n) == 0
    decreases n
  {
    if n > 0 {
      ZeroStays(n - 1);
    }
  }

  lemma LowOfLowByte(w: bv32)
    ensures Low(LowByte(w)) == LowBits(w)
  {
    hide Widen, Narrow, LowBits;
    var b := Narrow(w);
    assert (b as int) as bv8 == b;
    WidenAfterNarrow(w);
  }

  lemma WidenAfterNarrow(w: bv32)
    ensures Widen(Narrow(w)) == LowBits(w)
  {
  }

  lemma MixedWithItself(c: bv32)
    ensures Mixed(c, WordBytes(c)) == 0
  {
    MixedOfLow(c, WordBytes(c));
    hide Low, LowByte, Mixed, MixLow, Down, LowBits;
    LowOfLowByte(Down(c, 3));
    LowOfLowByte(Down(c, 2));
    LowOfLowByte(Down(c, 1));
    LowOfLowByte(c);
    CancelsOut(c);
  }

  lemma CancelsOut(c: bv32)
    ensures MixLow(c, LowBits(Down(c, 3)), LowBits(Down(c, 2)), LowBits(Down(c, 1)), LowBits(c)) == 0
  {
  }

  /** Four bytes read back as the word they were written from, and only as that one. */
  lemma WordComesBack(s: seq<byte>, at: nat, w: bv32)
    requires at + 4 <= |s|
    ensures WordAt(s, at) == w <==> s[at..at + 4] == WordBytes(w)
  {
    var t := s[at..at + 4];
    assert t[0] == s[at] && t[1] == s[at + 1] && t[2] == s[at + 2] && t[3] == s[at + 3];
    WritesBack(t[0], t[1], t[2], t[3]);
    assert t == [t[0], t[1], t[2], t[3]];
    ReadsBack(w);
    hide Low, LowByte, Joined, Down, LowBits;
    if t == WordBytes(w) {
    } else {
      hide WordBytes;
    }
  }

  lemma WritesBack(b0: byte, b1: byte, b2: byte, b3: byte)
    ensures WordBytes(Joined(Low(b0), Low(b1), Low(b2), Low(b3))) == [b0, b1, b2, b3]
  {
    hide Low, LowByte, Joined, Down, LowBits;
    var v := Joined(Low(b0), Low(b1), Low(b2), Low(b3));
    ByteApart(b0, b1);
    ByteApart(b2, b3);
    JoinedApart(Low(b0), Low(b1), Low(b2), Low(b3));
    LowByteIs(Down(v, 3), b0);
    LowByteIs(Down(v, 2), b1);
    LowByteIs(Down(v, 1), b2);
    LowByteIs(v, b3);
  }

  lemma ReadsBack(w: bv32)
    ensures Joined(Low(LowByte(Down(w, 3))), Low(LowByte(Down(w, 2))), Low(LowByte(Down(w, 1))), Low(LowByte(w))) == w
  {
    hide Low, LowByte, Joined, Down, LowBits;
    LowOfLowByte(Down(w, 3));
    LowOfLowByte(Down(w, 2));
    LowOfLowByte(Down(w, 1));
    LowOfLowByte(w);
    JoinedOfParts(w);
  }

  lemma JoinedOfParts(w: bv32)
    ensures Joined(LowBits(Down(w, 3)), LowBits(Down(w, 2)), LowBits(Down(w, 1)), LowBits(w)) == w
  {
  }

  lemma JoinedApart(a0: bv32, a1: bv32, a2: bv32, a3: bv32)
    requires a0 < 0x100 && a1 < 0x100 && a2 < 0x100 && a3 < 0x100
    ensures var w := Joined(a0, a1, a2, a3);
            LowBits(Down(w, 3)) == a0 && LowBits(Down(w, 2)) == a1 && LowBits(Down(w, 1)) == a2 && LowBits(w) == a3
  {
  }

  lemma LowByteIs(x: bv32, b: byte)
    requires LowBits(x) == Low(b)
    ensures LowByte(x) == b
  {
    hide Low, LowByte, LowBits;
    LowOfLowByte(x);
    ByteApart(LowByte(x), b);
  }

  // ---------- The check value ----------

  lemma CheckSteps()
    ensures Register(START, [0x31, 0x32, 0x33, 0x34, 0x35]) == 0xBD9A_B747
  {
    assert Step(0xFFFF_FFFF, 0x31) == 0x9EFB_CF93;
    assert Step(0x9EFB_CF93, 0x32) == 0x3FEC_5E6A;
    assert Step(0x3FEC_5E6A, 0x33) == 0xD952_F164;
    assert Step(0xD952_F164, 0x34) == 0xA695_C4AA;
    assert Step(0xA695_C4AA, 0x35) == 0xBD9A_B747;
  }

  lemma MoreCheckSteps()
    ensures Register(0xBD9A_B747, [0x36, 0x37, 0x38, 0x39]) == 0x0376_E6E7
  {
    assert Step(0xBD9A_B747, 0x36) == 0xD8F0_6C8F;
    assert Step(0xD8F0_6C8F, 0x37) == 0x0D8A_14C4;
    assert Step(0x0D8A_14C4, 0x38) == 0x49E3_C2FB;
    assert Step(0x49E3_C2FB, 0x39) == 0x0376_E6E7;
  }

  /** The polynomial, the start value and the order of bits are those of CRC-32/MPEG-2: the digits from 1 to 9 have
      its check value. */
  lemma CheckValue()
    ensures Crc32([0x31, 0x32, 0x33, 0x34, 0x35, 0x36, 0x37, 0x38, 0x39]) == 0x0376_E6E7
  {
    hide Register;
    CheckSteps();
    MoreCheckSteps();
    var first, second := [0x31, 0x32, 0x33, 0x34, 0x35], [0x36, 0x37, 0x38, 0x39];
    RegisterConcat(START, first, second);
    assert first + second == [0x31, 0x32, 0x33, 0x34, 0x35, 0x36, 0x37, 0x38, 0x39];
  }
}
