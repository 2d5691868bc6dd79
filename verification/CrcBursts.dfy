/** The checksum notices every error burst of at most 32 bits. */
module CrcBursts {
  import opened Crc32

  // ----- messages as bits, the lowest bit of a byte first

  function ByteBits(d: bv8): (r: seq<bool>)
    ensures |r| == 8
  {
    [d & 1 == 1, (d >> 1) & 1 == 1, (d >> 2) & 1 == 1, (d >> 3) & 1 == 1,
     (d >> 4) & 1 == 1, (d >> 5) & 1 == 1, (d >> 6) & 1 == 1, (d >> 7) & 1 == 1]
  }

  function Bits(data: seq<bv8>): (r: seq<bool>)
    ensures |r| == 8 * |data|
  {
    if data == [] then [] else ByteBits(data[0]) + Bits(data[1..])
  }

  function Weight(b: bool): bv32 { if b then 1 else 0 }

  function DivideBits(crc: bv32, bits: seq<bool>): bv32
    decreases |bits|
  {
    if bits == [] then crc else DivideBits(BitStep(crc, Weight(bits[0])), bits[1..])
  }

  lemma {:induction false} BitsAppend(crc: bv32, a: seq<bool>, b: seq<bool>)
    ensures DivideBits(crc, a + b) == DivideBits(DivideBits(crc, a), b)
    decreases |a|
  {
    hide BitStep;
    if a == [] {
      assert a + b == b;
    } else {
      assert (a + b)[1..] == a[1..] + b;
      BitsAppend(BitStep(crc, Weight(a[0])), a[1..], b);
    }
  }

  lemma WeightsOf(d: bv8)
    ensures var r, x := ByteBits(d), d as bv32;
      && Weight(r[0]) == Bit(x, 0) && Weight(r[1]) == Bit(x, 1) && Weight(r[2]) == Bit(x, 2)
      && Weight(r[3]) == Bit(x, 3) && Weight(r[4]) == Bit(x, 4) && Weight(r[5]) == Bit(x, 5)
      && Weight(r[6]) == Bit(x, 6) && Weight(r[7]) == Bit(x, 7)
  {
  }

  lemma FourBits(c: bv32, r: seq<bool>)
    requires |r| == 4
    ensures DivideBits(c, r) ==
      BitStep(BitStep(BitStep(BitStep(c, Weight(r[0])), Weight(r[1])), Weight(r[2])), Weight(r[3]))
  {
    hide BitStep, Weight;
    TwoBits(c, r[..2]);
    assert r == r[..2] + r[2..];
    BitsAppend(c, r[..2], r[2..]);
    TwoBits(DivideBits(c, r[..2]), r[2..]);
  }

  lemma TwoBits(c: bv32, r: seq<bool>)
    requires |r| == 2
    ensures DivideBits(c, r) == BitStep(BitStep(c, Weight(r[0])), Weight(r[1]))
  {
    hide BitStep, Weight;
    assert r[1..][0] == r[1] && r[1..][1..] == [];
    var c1 := BitStep(c, Weight(r[0]));
    assert DivideBits(c1, r[1..]) == DivideBits(BitStep(c1, Weight(r[1])), []);
  }

  lemma EightBits(c: bv32, r: seq<bool>)
    requires |r| == 8
    ensures DivideBits(c, r) ==
      BitStep(BitStep(BitStep(BitStep(BitStep(BitStep(BitStep(BitStep(c, Weight(r[0])), Weight(r[1])), Weight(r[2])),
      Weight(r[3])), Weight(r[4])), Weight(r[5])), Weight(r[6])), Weight(r[7]))
  {
    hide BitStep, Weight;
    FourBits(c, r[..4]);
    assert r == r[..4] + r[4..];
    BitsAppend(c, r[..4], r[4..]);
    FourBits(DivideBits(c, r[..4]), r[4..]);
  }

  /** The bytewise division takes the bits one after the other. */
  lemma {:induction false} DivideIs(crc: bv32, data: seq<bv8>)
    ensures Divide(crc, data) == DivideBits(crc, Bits(data))
    decreases |data|
  {
    hide BitStep, Bit, Weight, ByteBits;
    if data != [] {
      WeightsOf(data[0]);
      EightBits(crc, ByteBits(data[0]));
      BitsAppend(crc, ByteBits(data[0]), Bits(data[1..]));
      DivideIs(ByteStep(crc, data[0] as bv32), data[1..]);
    }
  }

  // ----- a window of bits is a word

  function HalfN(x: bv32, n: nat): bv32
    decreases n
  {
    if n == 0 then x else HalfN(Half(x), n - 1)
  }

  function StepN(x: bv32, n: nat): bv32
    decreases n
  {
    if n == 0 then x else StepN(Step(x), n - 1)
  }

  function Word(u: seq<bool>): bv32 {
    if u == [] then 0 else Shifted(u[0], Word(u[1..]))
  }

  function Shifted(b: bool, w: bv32): bv32 { Weight(b) | (w << 1) }

  lemma {:induction false} ZeroStays(n: nat)
    ensures HalfN(0, n) == 0
  {
    if n > 0 {
      assert Half(0) == 0;
      ZeroStays(n - 1);
    }
  }

  lemma {:induction false} HalfSum(x: bv32, m: nat, n: nat)
    ensures HalfN(x, m + n) == HalfN(HalfN(x, m), n)
    decreases m
  {
    hide Half;
    if m > 0 { HalfSum(Half(x), m - 1, n); }
  }

  lemma Half7(x: bv32)
    ensures HalfN(x, 7) == Half(Half(Half(Half(Half(Half(Half(x)))))))
  {
    hide Half;
    var x4 := Half(Half(Half(Half(x))));
    assert HalfN(x, 7) == HalfN(Half(Half(x)), 5) == HalfN(x4, 3);
    assert HalfN(x4, 3) == HalfN(Half(x4), 2) == HalfN(Half(Half(x4)), 1);
  }

  lemma Half31(x: bv32)
    ensures HalfN(x, 31) == High(High(High(x))) >> 7
  {
    hide Half, High, Half8;
    Half8N(x);
    Half8N(High(x));
    Half8N(High(High(x)));
    HalfSum(x, 8, 23);
    HalfSum(High(x), 8, 15);
    HalfSum(High(High(x)), 8, 7);
    Half7(High(High(High(x))));
    Shift7(High(High(High(x))));
  }

  lemma Half8N(x: bv32)
    ensures HalfN(x, 8) == High(x)
  {
    Half7(x);
    HalfSum(x, 7, 1);
    Half8Is(x);
    hide Half, High;
  }

  lemma Shift7(x: bv32)
    ensures Half(Half(Half(Half(Half(Half(Half(x))))))) == x >> 7
  {
  }

  lemma TopBitClear(x: bv32)
    requires High(High(High(x))) >> 7 == 0
    ensures x & 0x8000_0000 == 0
  {
  }

  lemma ShiftedWord(b: bool, w: bv32)
    requires w & 0x8000_0000 == 0
    ensures Half(Shifted(b, w)) == w && Bit(Shifted(b, w), 0) == Weight(b)
  {
  }

  /** The word of at most 32 bits has no others. */
  lemma {:induction false} WordFits(u: seq<bool>)
    requires |u| <= 32
    ensures HalfN(Word(u), |u|) == 0
    ensures u != [] ==> Half(Word(u)) == Word(u[1..]) && Bit(Word(u), 0) == Weight(u[0])
    decreases |u|
  {
    hide Half, Weight, Bit, Shifted;
    if u != [] {
      var w, n := Word(u[1..]), |u| - 1;
      WordFits(u[1..]);
      OneMoreBit(u[0], w, n);
      assert HalfN(Word(u), |u|) == HalfN(Half(Word(u)), n);
    }
  }

  /** A word of at most 31 bits can be shifted to make room for one more. */
  lemma OneMoreBit(b: bool, w: bv32, n: nat)
    requires n < 32 && HalfN(w, n) == 0
    ensures Half(Shifted(b, w)) == w && Bit(Shifted(b, w), 0) == Weight(b)
  {
    ZeroStays(31 - n);
    HalfSum(w, n, 31 - n);
    Half31(w);
    hide HalfN;
    TopBitClear(w);
    ShiftedWord(b, w);
    hide *;
  }

  /** Dividing the bits of a window is adding its word to the register and stepping on. */
  lemma {:induction false} WindowIs(c: bv32, u: seq<bool>)
    requires |u| <= 32
    ensures StepN(Xor(c, Word(u)), |u|) == DivideBits(c, u)
    decreases |u|
  {
    hide Step, BitStep, Weight, Bit, Half, Xor, Shifted;
    WordFits(u);
    if u == [] {
      XorZero(c);
    } else {
      AddFirst(c, Word(u));
      WindowIs(BitStep(c, Weight(u[0])), u[1..]);
    }
  }

  lemma {:induction false} StepNInjective(c: bv32, d: bv32, n: nat)
    requires StepN(c, n) == StepN(d, n)
    ensures c == d
    decreases n
  {
    hide Step;
    if n > 0 {
      StepNInjective(Step(c), Step(d), n - 1);
      StepInjective(c, d);
    }
  }

  lemma SameWeight(a: bool, b: bool)
    ensures Weight(a) == Weight(b) ==> a == b
  {
  }

  lemma {:induction false} WordInjective(u: seq<bool>, v: seq<bool>)
    requires |u| == |v| <= 32 && Word(u) == Word(v)
    ensures u == v
    decreases |u|
  {
    hide Half, Bit, Weight, Shifted;
    WordFits(u);
    WordFits(v);
    if u != [] {
      SameWeight(u[0], v[0]);
      WordInjective(u[1..], v[1..]);
      assert u == [u[0]] + u[1..] && v == [v[0]] + v[1..];
    }
  }

  lemma XorSame(c: bv32, x: bv32, y: bv32)
    requires Xor(c, x) == Xor(c, y)
    ensures x == y
  {
  }

  lemma WindowInjective(c: bv32, u: seq<bool>, v: seq<bool>)
    requires |u| == |v| <= 32 && DivideBits(c, u) == DivideBits(c, v)
    ensures u == v
  {
    hide DivideBits, StepN, Xor, Word;
    WindowIs(c, u);
    WindowIs(c, v);
    StepNInjective(Xor(c, Word(u)), Xor(c, Word(v)), |u|);
    XorSame(c, Word(u), Word(v));
    WordInjective(u, v);
  }

  lemma BitStepInjective(c: bv32, d: bv32, b: bool)
    requires BitStep(c, Weight(b)) == BitStep(d, Weight(b))
    ensures c == d
  {
  }

  lemma {:induction false} BitsInjective(c: bv32, d: bv32, bits: seq<bool>)
    requires DivideBits(c, bits) == DivideBits(d, bits)
    ensures c == d
    decreases |bits|
  {
    hide BitStep, Weight;
    if bits != [] {
      BitsInjective(BitStep(c, Weight(bits[0])), BitStep(d, Weight(bits[0])), bits[1..]);
      BitStepInjective(c, d, bits[0]);
    }
  }

  // ----- the theorem

  /** All bits in which two messages differ are among the 32 from `p` on. */
  predicate Burst(a: seq<bv8>, b: seq<bv8>, p: nat) {
    |a| == |b| && forall i :: 0 <= i < |Bits(a)| && Bits(a)[i] != Bits(b)[i] ==> p <= i < p + 32
  }

  lemma InThree<T>(u: seq<T>, i: nat, j: nat)
    requires i <= j <= |u|
    ensures u == u[..i] + (u[i..j] + u[j..])
  {
  }

  lemma Cut(c: bv32, u: seq<bool>, i: nat, j: nat)
    requires i <= j <= |u|
    ensures DivideBits(c, u) == DivideBits(DivideBits(DivideBits(c, u[..i]), u[i..j]), u[j..])
  {
    hide DivideBits;
    InThree(u, i, j);
    BitsAppend(c, u[..i], u[i..j] + u[j..]);
    BitsAppend(DivideBits(c, u[..i]), u[i..j], u[j..]);
  }

  lemma BitsNoticed(c: bv32, u: seq<bool>, v: seq<bool>, p: nat)
    requires |u| == |v| && forall i :: 0 <= i < |u| && u[i] != v[i] ==> p <= i < p + 32
    requires DivideBits(c, u) == DivideBits(c, v)
    ensures u == v
  {
    hide DivideBits;
    var i := if p < |u| then p else |u|;
    var j := if p + 32 < |u| then p + 32 else |u|;
    assert u[..i] == v[..i] && u[j..] == v[j..];
    InThree(u, i, j);
    InThree(v, i, j);
    Cut(c, u, i, j);
    Cut(c, v, i, j);
    var d := DivideBits(c, u[..i]);
    BitsInjective(DivideBits(d, u[i..j]), DivideBits(d, v[i..j]), u[j..]);
    WindowInjective(d, u[i..j], v[i..j]);
  }

  lemma SameByte(d: bv8, e: bv8)
    requires ByteBits(d) == ByteBits(e)
    ensures d == e
  {
    var r, s := ByteBits(d), ByteBits(e);
    assert forall k :: 0 <= k < 8 ==> r[k] == s[k];
    assert r[0] == s[0] && r[1] == s[1] && r[2] == s[2] && r[3] == s[3];
    assert r[4] == s[4] && r[5] == s[5] && r[6] == s[6] && r[7] == s[7];
  }

  lemma {:induction false} SameBits(a: seq<bv8>, b: seq<bv8>)
    requires |a| == |b| && Bits(a) == Bits(b)
    ensures a == b
    decreases |a|
  {
    hide ByteBits;
    if a != [] {
      assert Bits(a)[..8] == ByteBits(a[0]) && Bits(b)[..8] == ByteBits(b[0]);
      assert Bits(a)[8..] == Bits(a[1..]) && Bits(b)[8..] == Bits(b[1..]);
      SameByte(a[0], b[0]);
      SameBits(a[1..], b[1..]);
      assert a == [a[0]] + a[1..] && b == [b[0]] + b[1..];
    }
  }

  lemma SameFinish(c: bv32, d: bv32)
    requires Finish(c) == Finish(d)
    ensures c == d
  {
  }

  /** Messages of the same length that differ only within 32 consecutive bits have different checksums. */
  lemma BurstNoticed(a: seq<bv8>, b: seq<bv8>, p: nat)
    requires Burst(a, b, p) && Crc(a) == Crc(b)
    ensures a == b
  {
    hide Divide, DivideBits, Finish, Bits;
    SameFinish(Divide(0xFFFFFFFF, a), Divide(0xFFFFFFFF, b));
    DivideIs(0xFFFFFFFF, a);
    DivideIs(0xFFFFFFFF, b);
    BitsNoticed(0xFFFFFFFF, Bits(a), Bits(b), p);
    SameBits(a, b);
  }

  lemma LastZeros()
    ensures Divide(0xFFFFFFFF, [0, 0, 0, 0, 0]) == 0x39DD08E2
  {
    assert ByteStep(0xFFFFFFFF, 0x00) == 0x2DFD1072;
    assert ByteStep(0x2DFD1072, 0x00) == 0xBE26ED00;
    assert ByteStep(0xBE26ED00, 0x00) == 0x00BE26ED;
    assert ByteStep(0x00BE26ED, 0x00) == 0xDEBB20E3;
    assert ByteStep(0xDEBB20E3, 0x00) == 0x39DD08E2;
    FiveBytes(0, 0, 0, 0, 0);
    hide ByteStep;
  }

  lemma LastPolynomial()
    ensures Divide(0xFFFFFFFF, [0x41, 0x06, 0x71, 0xDB, 0x01]) == 0x39DD08E2
  {
    assert ByteStep(0xFFFFFFFF, 0x41) == 0x2C266174;
    assert ByteStep(0x2C266174, 0x06) == 0xBE273671;
    assert ByteStep(0xBE273671, 0x71) == 0x00BE2736;
    assert ByteStep(0x00BE2736, 0xDB) == 0xDEBB20E2;
    assert ByteStep(0xDEBB20E2, 0x01) == 0x39DD08E2;
    FiveBytes(0x41, 0x06, 0x71, 0xDB, 0x01);
    hide ByteStep;
  }

  lemma FiveBytes(a: bv8, b: bv8, c: bv8, d: bv8, e: bv8)
    ensures Divide(0xFFFFFFFF, [a, b, c, d, e]) ==
      ByteStep(ByteStep(ByteStep(ByteStep(ByteStep(0xFFFFFFFF, a as bv32), b as bv32), c as bv32), d as bv32),
        e as bv32)
  {
    hide ByteStep;
    var c1 := ByteStep(0xFFFFFFFF, a as bv32);
    var c2 := ByteStep(c1, b as bv32);
    var c3 := ByteStep(c2, c as bv32);
    var c4 := ByteStep(c3, d as bv32);
    OneByte(0xFFFFFFFF, a, [b, c, d, e]);
    OneByte(c1, b, [c, d, e]);
    OneByte(c2, c, [d, e]);
    OneByte(c3, d, [e]);
    OneByte(c4, e, []);
    assert [a] + [b, c, d, e] == [a, b, c, d, e] && [b] + [c, d, e] == [b, c, d, e];
    assert [c] + [d, e] == [c, d, e] && [d] + [e] == [d, e] && [e] + [] == [e];
    hide Divide;
  }

  lemma OneByte(c: bv32, d: bv8, more: seq<bv8>)
    ensures Divide(c, [d] + more) == Divide(ByteStep(c, d as bv32), more)
    ensures Divide(c, []) == c
  {
    hide ByteStep;
    assert ([d] + more)[1..] == more;
  }

  /** Among 33 consecutive bits there is an error that no message shows: the polynomial itself. */
  lemma LongerMissed()
    ensures Crc([0, 0, 0, 0, 0]) == Crc([0x41, 0x06, 0x71, 0xDB, 0x01])
  {
    LastZeros();
    LastPolynomial();
    hide Divide;
  }
}
