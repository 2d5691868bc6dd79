/** The table-driven CRC-32 (section 8 of RFC 1952), with the `unsigned long` of a 64-bit machine. */
module Crc32 {
  // ----- division by the reflected polynomial, bit by bit

  const POLYNOMIAL: bv32 := 0xEDB88320

  /** One bit of the message is divided into the register. */
  function BitStep(crc: bv32, bit: bv32): bv32 {
    if crc & 1 != bit then (crc >> 1) ^ POLYNOMIAL else crc >> 1
  }

  function Bit(d: bv32, k: bv32): bv32
    requires k < 8
  {
    (d >> k) & 1
  }

  /** The eight bits of a byte, the lowest one first. */
  function ByteStep(crc: bv32, d: bv32): bv32 {
    var c1 := BitStep(crc, Bit(d, 0));
    var c2 := BitStep(c1, Bit(d, 1));
    var c3 := BitStep(c2, Bit(d, 2));
    var c4 := BitStep(c3, Bit(d, 3));
    var c5 := BitStep(c4, Bit(d, 4));
    var c6 := BitStep(c5, Bit(d, 5));
    var c7 := BitStep(c6, Bit(d, 6));
    BitStep(c7, Bit(d, 7))
  }

  function Divide(crc: bv32, data: seq<bv8>): bv32
    decreases |data|
  {
    if data == [] then crc else Divide(ByteStep(crc, data[0] as bv32), data[1..])
  }

  // ----- the table, in rows of sixteen

  const ROW_0: seq<bv32> := [
    0x00000000, 0x77073096, 0xEE0E612C, 0x990951BA, 0x076DC419, 0x706AF48F, 0xE963A535, 0x9E6495A3,
    0x0EDB8832, 0x79DCB8A4, 0xE0D5E91E, 0x97D2D988, 0x09B64C2B, 0x7EB17CBD, 0xE7B82D07, 0x90BF1D91
  ]
  const ROW_1: seq<bv32> := [
    0x1DB71064, 0x6AB020F2, 0xF3B97148, 0x84BE41DE, 0x1ADAD47D, 0x6DDDE4EB, 0xF4D4B551, 0x83D385C7,
    0x136C9856, 0x646BA8C0, 0xFD62F97A, 0x8A65C9EC, 0x14015C4F, 0x63066CD9, 0xFA0F3D63, 0x8D080DF5
  ]
  const ROW_2: seq<bv32> := [
    0x3B6E20C8, 0x4C69105E, 0xD56041E4, 0xA2677172, 0x3C03E4D1, 0x4B04D447, 0xD20D85FD, 0xA50AB56B,
    0x35B5A8FA, 0x42B2986C, 0xDBBBC9D6, 0xACBCF940, 0x32D86CE3, 0x45DF5C75, 0xDCD60DCF, 0xABD13D59
  ]
  const ROW_3: seq<bv32> := [
    0x26D930AC, 0x51DE003A, 0xC8D75180, 0xBFD06116, 0x21B4F4B5, 0x56B3C423, 0xCFBA9599, 0xB8BDA50F,
    0x2802B89E, 0x5F058808, 0xC60CD9B2, 0xB10BE924, 0x2F6F7C87, 0x58684C11, 0xC1611DAB, 0xB6662D3D
  ]
  const ROW_4: seq<bv32> := [
    0x76DC4190, 0x01DB7106, 0x98D220BC, 0xEFD5102A, 0x71B18589, 0x06B6B51F, 0x9FBFE4A5, 0xE8B8D433,
    0x7807C9A2, 0x0F00F934, 0x9609A88E, 0xE10E9818, 0x7F6A0DBB, 0x086D3D2D, 0x91646C97, 0xE6635C01
  ]
  const ROW_5: seq<bv32> := [
    0x6B6B51F4, 0x1C6C6162, 0x856530D8, 0xF262004E, 0x6C0695ED, 0x1B01A57B, 0x8208F4C1, 0xF50FC457,
    0x65B0D9C6, 0x12B7E950, 0x8BBEB8EA, 0xFCB9887C, 0x62DD1DDF, 0x15DA2D49, 0x8CD37CF3, 0xFBD44C65
  ]
  const ROW_6: seq<bv32> := [
    0x4DB26158, 0x3AB551CE, 0xA3BC0074, 0xD4BB30E2, 0x4ADFA541, 0x3DD895D7, 0xA4D1C46D, 0xD3D6F4FB,
    0x4369E96A, 0x346ED9FC, 0xAD678846, 0xDA60B8D0, 0x44042D73, 0x33031DE5, 0xAA0A4C5F, 0xDD0D7CC9
  ]
  const ROW_7: seq<bv32> := [
    0x5005713C, 0x270241AA, 0xBE0B1010, 0xC90C2086, 0x5768B525, 0x206F85B3, 0xB966D409, 0xCE61E49F,
    0x5EDEF90E, 0x29D9C998, 0xB0D09822, 0xC7D7A8B4, 0x59B33D17, 0x2EB40D81, 0xB7BD5C3B, 0xC0BA6CAD
  ]
  const ROW_8: seq<bv32> := [
    0xEDB88320, 0x9ABFB3B6, 0x03B6E20C, 0x74B1D29A, 0xEAD54739, 0x9DD277AF, 0x04DB2615, 0x73DC1683,
    0xE3630B12, 0x94643B84, 0x0D6D6A3E, 0x7A6A5AA8, 0xE40ECF0B, 0x9309FF9D, 0x0A00AE27, 0x7D079EB1
  ]
  const ROW_9: seq<bv32> := [
    0xF00F9344, 0x8708A3D2, 0x1E01F268, 0x6906C2FE, 0xF762575D, 0x806567CB, 0x196C3671, 0x6E6B06E7,
    0xFED41B76, 0x89D32BE0, 0x10DA7A5A, 0x67DD4ACC, 0xF9B9DF6F, 0x8EBEEFF9, 0x17B7BE43, 0x60B08ED5
  ]
  const ROW_A: seq<bv32> := [
    0xD6D6A3E8, 0xA1D1937E, 0x38D8C2C4, 0x4FDFF252, 0xD1BB67F1, 0xA6BC5767, 0x3FB506DD, 0x48B2364B,
    0xD80D2BDA, 0xAF0A1B4C, 0x36034AF6, 0x41047A60, 0xDF60EFC3, 0xA867DF55, 0x316E8EEF, 0x4669BE79
  ]
  const ROW_B: seq<bv32> := [
    0xCB61B38C, 0xBC66831A, 0x256FD2A0, 0x5268E236, 0xCC0C7795, 0xBB0B4703, 0x220216B9, 0x5505262F,
    0xC5BA3BBE, 0xB2BD0B28, 0x2BB45A92, 0x5CB36A04, 0xC2D7FFA7, 0xB5D0CF31, 0x2CD99E8B, 0x5BDEAE1D
  ]
  const ROW_C: seq<bv32> := [
    0x9B64C2B0, 0xEC63F226, 0x756AA39C, 0x026D930A, 0x9C0906A9, 0xEB0E363F, 0x72076785, 0x05005713,
    0x95BF4A82, 0xE2B87A14, 0x7BB12BAE, 0x0CB61B38, 0x92D28E9B, 0xE5D5BE0D, 0x7CDCEFB7, 0x0BDBDF21
  ]
  const ROW_D: seq<bv32> := [
    0x86D3D2D4, 0xF1D4E242, 0x68DDB3F8, 0x1FDA836E, 0x81BE16CD, 0xF6B9265B, 0x6FB077E1, 0x18B74777,
    0x88085AE6, 0xFF0F6A70, 0x66063BCA, 0x11010B5C, 0x8F659EFF, 0xF862AE69, 0x616BFFD3, 0x166CCF45
  ]
  const ROW_E: seq<bv32> := [
    0xA00AE278, 0xD70DD2EE, 0x4E048354, 0x3903B3C2, 0xA7672661, 0xD06016F7, 0x4969474D, 0x3E6E77DB,
    0xAED16A4A, 0xD9D65ADC, 0x40DF0B66, 0x37D83BF0, 0xA9BCAE53, 0xDEBB9EC5, 0x47B2CF7F, 0x30B5FFE9
  ]
  const ROW_F: seq<bv32> := [
    0xBDBDF21C, 0xCABAC28A, 0x53B39330, 0x24B4A3A6, 0xBAD03605, 0xCDD70693, 0x54DE5729, 0x23D967BF,
    0xB3667A2E, 0xC4614AB8, 0x5D681B02, 0x2A6F2B94, 0xB40BBE37, 0xC30C8EA1, 0x5A05DF1B, 0x2D02EF8D
  ]

  function Row(r: bv32): (row: seq<bv32>)
    requires r < 16
    ensures |row| == 16
  {
    if r == 0 then ROW_0
    else if r == 1 then ROW_1
    else if r == 2 then ROW_2
    else if r == 3 then ROW_3
    else if r == 4 then ROW_4
    else if r == 5 then ROW_5
    else if r == 6 then ROW_6
    else if r == 7 then ROW_7
    else if r == 8 then ROW_8
    else if r == 9 then ROW_9
    else if r == 10 then ROW_A
    else if r == 11 then ROW_B
    else if r == 12 then ROW_C
    else if r == 13 then ROW_D
    else if r == 14 then ROW_E
    else ROW_F
  }

  /** `crc32tab[i]`. */
  function Table(i: bv32): bv32
    requires i < 256
  {
    Row(i >> 4)[(i & 15) as int]
  }

  // ----- what the entries are

  /** A zero bit. */
  function Step(c: bv32): bv32 {
    BitStep(c, 0)
  }

  function Step8(c: bv32): bv32 {
    Step(Step(Step(Step(Step(Step(Step(Step(c))))))))
  }

  function Plus(b: bv32, k: bv32): bv32 { b + k }

  function RowOf(b: bv32): seq<bv32> {
    [Step8(Plus(b, 0)), Step8(Plus(b, 1)), Step8(Plus(b, 2)), Step8(Plus(b, 3)),
     Step8(Plus(b, 4)), Step8(Plus(b, 5)), Step8(Plus(b, 6)), Step8(Plus(b, 7)),
     Step8(Plus(b, 8)), Step8(Plus(b, 9)), Step8(Plus(b, 10)), Step8(Plus(b, 11)),
     Step8(Plus(b, 12)), Step8(Plus(b, 13)), Step8(Plus(b, 14)), Step8(Plus(b, 15))]
  }

  lemma RowIs0()
    ensures ROW_0 == RowOf(0x00)
  {
  }

  lemma RowIs1()
    ensures ROW_1 == RowOf(0x10)
  {
  }

  lemma RowIs2()
    ensures ROW_2 == RowOf(0x20)
  {
  }

  lemma RowIs3()
    ensures ROW_3 == RowOf(0x30)
  {
  }

  lemma RowIs4()
    ensures ROW_4 == RowOf(0x40)
  {
  }

  lemma RowIs5()
    ensures ROW_5 == RowOf(0x50)
  {
  }

  lemma RowIs6()
    ensures ROW_6 == RowOf(0x60)
  {
  }

  lemma RowIs7()
    ensures ROW_7 == RowOf(0x70)
  {
  }

  lemma RowIs8()
    ensures ROW_8 == RowOf(0x80)
  {
  }

  lemma RowIs9()
    ensures ROW_9 == RowOf(0x90)
  {
  }

  lemma RowIsA()
    ensures ROW_A == RowOf(0xA0)
  {
  }

  lemma RowIsB()
    ensures ROW_B == RowOf(0xB0)
  {
  }

  lemma RowIsC()
    ensures ROW_C == RowOf(0xC0)
  {
  }

  lemma RowIsD()
    ensures ROW_D == RowOf(0xD0)
  {
  }

  lemma RowIsE()
    ensures ROW_E == RowOf(0xE0)
  {
  }

  lemma RowIsF()
    ensures ROW_F == RowOf(0xF0)
  {
  }

  lemma RowIs(r: bv32)
    requires r < 16
    ensures Row(r) == RowOf(r << 4)
  {
    hide RowOf;
    if r == 0 { RowIs0(); }
    else if r == 1 { RowIs1(); }
    else if r == 2 { RowIs2(); }
    else if r == 3 { RowIs3(); }
    else if r == 4 { RowIs4(); }
    else if r == 5 { RowIs5(); }
    else if r == 6 { RowIs6(); }
    else if r == 7 { RowIs7(); }
    else if r == 8 { RowIs8(); }
    else if r == 9 { RowIs9(); }
    else if r == 10 { RowIsA(); }
    else if r == 11 { RowIsB(); }
    else if r == 12 { RowIsC(); }
    else if r == 13 { RowIsD(); }
    else if r == 14 { RowIsE(); }
    else { RowIsF(); }
  }

  lemma RowOfAt(b: bv32, k: bv32)
    requires k < 16
    ensures RowOf(b)[k as int] == Step8(Plus(b, k))
  {
    hide RowOf, Step8, Plus;
    if k < 4 { Quarter0At(b, k); }
    else if k < 8 { Quarter1At(b, k); }
    else if k < 12 { Quarter2At(b, k); }
    else { Quarter3At(b, k); }
  }

  lemma Quarter0At(b: bv32, k: bv32)
    requires 0 <= k < 4
    ensures RowOf(b)[k as int] == Step8(Plus(b, k))
  {
    hide Step8, Plus;
    if k == 0 { assert RowOf(b)[0] == Step8(Plus(b, 0)); }
    else if k == 1 { assert RowOf(b)[1] == Step8(Plus(b, 1)); }
    else if k == 2 { assert RowOf(b)[2] == Step8(Plus(b, 2)); }
    else { assert k == 3 && RowOf(b)[3] == Step8(Plus(b, 3)); }
  }

  lemma Quarter1At(b: bv32, k: bv32)
    requires 4 <= k < 8
    ensures RowOf(b)[k as int] == Step8(Plus(b, k))
  {
    hide Step8, Plus;
    if k == 4 { assert RowOf(b)[4] == Step8(Plus(b, 4)); }
    else if k == 5 { assert RowOf(b)[5] == Step8(Plus(b, 5)); }
    else if k == 6 { assert RowOf(b)[6] == Step8(Plus(b, 6)); }
    else { assert k == 7 && RowOf(b)[7] == Step8(Plus(b, 7)); }
  }

  lemma Quarter2At(b: bv32, k: bv32)
    requires 8 <= k < 12
    ensures RowOf(b)[k as int] == Step8(Plus(b, k))
  {
    hide Step8, Plus;
    if k == 8 { assert RowOf(b)[8] == Step8(Plus(b, 8)); }
    else if k == 9 { assert RowOf(b)[9] == Step8(Plus(b, 9)); }
    else if k == 10 { assert RowOf(b)[10] == Step8(Plus(b, 10)); }
    else { assert k == 11 && RowOf(b)[11] == Step8(Plus(b, 11)); }
  }

  lemma Quarter3At(b: bv32, k: bv32)
    requires 12 <= k < 16
    ensures RowOf(b)[k as int] == Step8(Plus(b, k))
  {
    hide Step8, Plus;
    if k == 12 { assert RowOf(b)[12] == Step8(Plus(b, 12)); }
    else if k == 13 { assert RowOf(b)[13] == Step8(Plus(b, 13)); }
    else if k == 14 { assert RowOf(b)[14] == Step8(Plus(b, 14)); }
    else { assert k == 15 && RowOf(b)[15] == Step8(Plus(b, 15)); }
  }

  /** Every entry of the table is its index, divided for eight zero bits. */
  lemma TableIs(i: bv32)
    requires i < 256
    ensures Table(i) == Step8(i)
  {
    hide Row, RowOf, Step8;
    RowIs(i >> 4);
    RowOfAt((i >> 4) << 4, i & 15);
    assert ((i >> 4) << 4) + (i & 15) == i;
  }

  // ----- the register splits into its low byte and the rest

  function Xor(a: bv32, b: bv32): bv32 { a ^ b }

  function Half(a: bv32): bv32 { a >> 1 }

  predicate Even(a: bv32) { a & 1 == 0 }

  function Half8(a: bv32): bv32 {
    Half(Half(Half(Half(Half(Half(Half(Half(a))))))))
  }

  lemma StepIs(c: bv32)
    ensures Step(c) == if Even(c) then Half(c) else Xor(Half(c), POLYNOMIAL)
  {
  }

  lemma EvenXor(high: bv32, low: bv32)
    requires Even(high)
    ensures Even(Xor(high, low)) <==> Even(low)
  {
  }

  lemma HalfXor(a: bv32, b: bv32)
    ensures Half(Xor(a, b)) == Xor(Half(a), Half(b))
  {
  }

  lemma XorAssoc(a: bv32, b: bv32, c: bv32)
    ensures Xor(Xor(a, b), c) == Xor(a, Xor(b, c))
  {
  }

  lemma XorSwap(a: bv32, b: bv32)
    ensures Xor(a, b) == Xor(b, a)
  {
  }

  /** An even part of the register is halved by a step, and nothing else. */
  lemma StepSplit(high: bv32, low: bv32)
    requires Even(high)
    ensures Step(Xor(high, low)) == Xor(Half(high), Step(low))
  {
    hide Step, Xor, Half, Even;
    StepIs(Xor(high, low));
    StepIs(low);
    EvenXor(high, low);
    HalfXor(high, low);
    XorAssoc(Half(high), Half(low), POLYNOMIAL);
  }

  /** The bits under a mask are zero: one halving later, those under the halved mask. */
  lemma HalfMask(h: bv32, m: bv32)
    requires Clear(h, (m << 1) | 1)
    ensures Even(h) && Clear(Half(h), m)
  {
  }

  predicate Clear(h: bv32, mask: bv32) { h & mask == 0 }

  lemma HighBits(h: bv32)
    requires Clear(h, 0xFF)
    ensures var h1 := Half(h); var h2 := Half(h1); var h3 := Half(h2); var h4 := Half(h3);
      var h5 := Half(h4); var h6 := Half(h5); var h7 := Half(h6);
      Even(h) && Even(h1) && Even(h2) && Even(h3) && Even(h4) && Even(h5) && Even(h6) && Even(h7)
  {
    hide Half, Even, Clear;
    HalfMask(h, 0x7F);
    HalfMask(Half(h), 0x3F);
    HalfMask(Half(Half(h)), 0x1F);
    HalfMask(Half(Half(Half(h))), 0x0F);
    HalfMask(Half(Half(Half(Half(h)))), 0x07);
    HalfMask(Half(Half(Half(Half(Half(h))))), 0x03);
    HalfMask(Half(Half(Half(Half(Half(Half(h)))))), 0x01);
    HalfMask(Half(Half(Half(Half(Half(Half(Half(h))))))), 0x00);
  }

  /** Eight steps leave the part above the low byte alone, but for the shift. */
  lemma Step8High(h: bv32, low: bv32)
    requires Clear(h, 0xFF)
    ensures Step8(Xor(h, low)) == Xor(Half8(h), Step8(low))
  {
    hide Step, Xor, Half, Even, Clear;
    HighBits(h);
    var h1 := Half(h);
    var h2 := Half(h1);
    var h3 := Half(h2);
    var h4 := Half(h3);
    var h5 := Half(h4);
    var h6 := Half(h5);
    var h7 := Half(h6);
    var l1 := Step(low);
    var l2 := Step(l1);
    var l3 := Step(l2);
    var l4 := Step(l3);
    var l5 := Step(l4);
    var l6 := Step(l5);
    var l7 := Step(l6);
    StepSplit(h, low);
    StepSplit(h1, l1);
    StepSplit(h2, l2);
    StepSplit(h3, l3);
    StepSplit(h4, l4);
    StepSplit(h5, l5);
    StepSplit(h6, l6);
    StepSplit(h7, l7);
  }

  function High(c: bv32): bv32 { c >> 8 }

  function Low(c: bv32): bv32 { c & 0xFF }

  function Top(c: bv32): bv32 { c & !0xFF }

  lemma TopClear(c: bv32)
    ensures Clear(Top(c), 0xFF)
  {
  }

  lemma TwoParts(c: bv32)
    ensures Xor(Top(c), Low(c)) == c
  {
  }

  lemma HighOfTop(c: bv32)
    ensures High(Top(c)) == High(c)
  {
  }

  lemma Half8Is(h: bv32)
    ensures Half8(h) == High(h)
  {
  }

  lemma Step8Split(c: bv32)
    ensures Step8(c) == Xor(High(c), Step8(Low(c)))
  {
    hide Step8, Half8, Top, Low, High, Xor, Clear;
    TopClear(c);
    TwoParts(c);
    HighOfTop(c);
    Half8Is(Top(c));
    Step8High(Top(c), Low(c));
  }

  // ----- a message byte may be added to the register first

  lemma BitStepIs(c: bv32, bit: bv32)
    ensures BitStep(c, bit) == if c & 1 != bit then Xor(Half(c), POLYNOMIAL) else Half(c)
  {
  }

  lemma OddXor(c: bv32, d: bv32)
    ensures c & 1 != Bit(d, 0) <==> !Even(Xor(c, d))
  {
  }

  lemma AddFirst(c: bv32, d: bv32)
    ensures Step(Xor(c, d)) == Xor(BitStep(c, Bit(d, 0)), Half(d))
  {
    hide Bit, Step, BitStep, Xor, Half, Even;
    BitStepIs(c, Bit(d, 0));
    OddXor(c, d);
    StepIs(Xor(c, d));
    HalfXor(c, d);
    XorAssoc(Half(c), Half(d), POLYNOMIAL);
    XorAssoc(Half(c), POLYNOMIAL, Half(d));
    XorSwap(Half(d), POLYNOMIAL);
  }

  lemma XorIs(a: bv32, b: bv32)
    ensures Xor(a, b) == a ^ b
  {
  }

  lemma LowBits(d: bv32)
    requires d < 256
    ensures var d1, d2, d3, d4, d5, d6, d7 := d >> 1, d >> 2, d >> 3, d >> 4, d >> 5, d >> 6, d >> 7;
      && d1 == Half(d) && d2 == Half(d1) && d3 == Half(d2) && d4 == Half(d3)
      && d5 == Half(d4) && d6 == Half(d5) && d7 == Half(d6) && Half(d7) == 0
      && Bit(d1, 0) == Bit(d, 1) && Bit(d2, 0) == Bit(d, 2) && Bit(d3, 0) == Bit(d, 3) && Bit(d4, 0) == Bit(d, 4)
      && Bit(d5, 0) == Bit(d, 5) && Bit(d6, 0) == Bit(d, 6) && Bit(d7, 0) == Bit(d, 7)
  {
  }

  lemma XorZero(c: bv32)
    ensures Xor(c, 0) == c
  {
  }

  lemma ByteStepIs(c: bv32, d: bv32)
    requires d < 256
    ensures ByteStep(c, d) == Step8(Xor(c, d))
  {
    LowBits(d);
    hide Step, BitStep, Bit, Xor, Half;
    var d1 := Half(d);
    var d2 := Half(d1);
    var d3 := Half(d2);
    var d4 := Half(d3);
    var d5 := Half(d4);
    var d6 := Half(d5);
    var d7 := Half(d6);
    var c1 := BitStep(c, Bit(d, 0));
    var c2 := BitStep(c1, Bit(d, 1));
    var c3 := BitStep(c2, Bit(d, 2));
    var c4 := BitStep(c3, Bit(d, 3));
    var c5 := BitStep(c4, Bit(d, 4));
    var c6 := BitStep(c5, Bit(d, 5));
    var c7 := BitStep(c6, Bit(d, 6));
    AddFirst(c, d);
    AddFirst(c1, d1);
    AddFirst(c2, d2);
    AddFirst(c3, d3);
    AddFirst(c4, d4);
    AddFirst(c5, d5);
    AddFirst(c6, d6);
    AddFirst(c7, d7);
    XorZero(BitStep(c7, Bit(d, 7)));
  }

  // ----- the table-driven update

  /** The index into the table. */
  function Index(crc: bv32, d: bv32): (i: bv32)
    requires d < 256
    ensures i < 256
  {
    d ^ (crc & 0xFF)
  }

  function TableStep(crc: bv32, d: bv32): bv32
    requires d < 256
  {
    Xor(High(crc), Table(Index(crc, d)))
  }

  lemma ByteParts(crc: bv32, d: bv32)
    requires d < 256
    ensures High(Xor(crc, d)) == High(crc) && Low(Xor(crc, d)) == Index(crc, d)
  {
  }

  lemma TableStepIs(crc: bv32, d: bv32)
    requires d < 256
    ensures TableStep(crc, d) == ByteStep(crc, d)
  {
    hide Table, ByteStep, Step8, Xor, High, Low, Index;
    ByteParts(crc, d);
    ByteStepIs(crc, d);
    Step8Split(Xor(crc, d));
    TableIs(Index(crc, d));
  }

  /** `crc32Update`: the register after `size` bytes is what the division bit by bit leaves. */
  method Crc32Update(crc: bv32, data: array<bv8>, size: nat) returns (r: bv32)
    requires size <= data.Length
    ensures r == Divide(crc, data[..size])
  {
    hide TableStep, ByteStep;
    r := crc;
    assert data[..0] == [];
    for i := 0 to size
      invariant r == Divide(crc, data[..i])
    {
      TableStepIs(r, data[i] as bv32);
      assert data[..i + 1] == data[..i] + [data[i]];
      Append(crc, data[..i], [data[i]]);
      r := TableStep(r, data[i] as bv32);
    }
  }

  /** Updating with `a` and then with `b` is updating with `a + b`. */
  lemma {:induction false} Append(crc: bv32, a: seq<bv8>, b: seq<bv8>)
    ensures Divide(crc, a + b) == Divide(Divide(crc, a), b)
    decreases |a|
  {
    hide ByteStep;
    if a == [] {
      assert a + b == b;
    } else {
      assert (a + b)[1..] == a[1..] + b;
      Append(ByteStep(crc, a[0] as bv32), a[1..], b);
    }
  }

  /** `crc32Finish`. */
  function Finish(crc: bv32): bv32 { !crc }

  /** `crc32Init`, one update, `crc32Finish`, where `unsigned long` has 32 bits. */
  method Checksum(data: array<bv8>) returns (crc: bv32)
    ensures crc == Crc(data[..])
  {
    crc := 0xFFFFFFFF;
    crc := Crc32Update(crc, data, data.Length);
    assert data[..data.Length] == data[..];
    crc := Finish(crc);
  }

  function Crc(data: seq<bv8>): bv32 {
    Finish(Divide(0xFFFFFFFF, data))
  }

  // ----- what fixes the first and the last step

  lemma ZeroStepMoves()
    ensures ByteStep(0xFFFFFFFF, 0) != 0xFFFFFFFF
  {
  }

  /** A zero byte put in front of a message is noticed. */
  lemma ZeroInFrontNoticed(m: seq<bv8>)
    ensures Crc([0] + m) != Crc(m)
  {
    ZeroStepMoves();
    assert ([0] + m)[0] as bv32 == 0 && ([0] + m)[1..] == m;
    assert Divide(0xFFFFFFFF, [0] + m) == Divide(ByteStep(0xFFFFFFFF, 0), m);
    hide ByteStep;
    if Crc([0] + m) == Crc(m) {
      FinishBack(Divide(0xFFFFFFFF, [0] + m));
      FinishBack(Divide(0xFFFFFFFF, m));
      hide Finish;
      DivideInjective(ByteStep(0xFFFFFFFF, 0), 0xFFFFFFFF, m);
    }
  }

  lemma FinishBack(c: bv32)
    ensures Finish(Finish(c)) == c
  {
  }

  /** A checksum can be carried on from where a first part ended. */
  lemma CarriedOn(a: seq<bv8>, b: seq<bv8>)
    ensures Crc(a + b) == Finish(Divide(Finish(Crc(a)), b))
  {
    hide Divide, Finish;
    Append(0xFFFFFFFF, a, b);
    FinishBack(Divide(0xFFFFFFFF, a));
  }

  lemma OneMore(c: bv32, data: seq<bv8>, d: bv32)
    requires data != [] && ByteStep(c, data[0] as bv32) == d
    ensures Divide(c, data) == Divide(d, data[1..])
  {
    hide ByteStep;
  }

  lemma CheckSteps()
    ensures ByteStep(0xFFFFFFFF, 0x31) == 0x7C231048
    ensures ByteStep(0x7C231048, 0x32) == 0xB0ACBB32
    ensures ByteStep(0xB0ACBB32, 0x33) == 0x77B79C2D
    ensures ByteStep(0x77B79C2D, 0x34) == 0x641C1F5C
    ensures ByteStep(0x641C1F5C, 0x35) == 0x340AC5E3
    ensures ByteStep(0x340AC5E3, 0x36) == 0xF68D2C9E
    ensures ByteStep(0xF68D2C9E, 0x37) == 0xAFFC9660
    ensures ByteStep(0xAFFC9660, 0x38) == 0x651F2550
    ensures ByteStep(0x651F2550, 0x39) == 0x340BC6D9
  {
  }

  /** The checksum of no bytes is zero, and that of the nine digits from 1 to 9 in ASCII is the published check
      value. */
  lemma CheckValue()
    ensures Crc([]) == 0
    ensures Crc([0x31, 0x32, 0x33, 0x34, 0x35, 0x36, 0x37, 0x38, 0x39]) == 0xCBF43926
  {
    var data: seq<bv8> := [0x31, 0x32, 0x33, 0x34, 0x35, 0x36, 0x37, 0x38, 0x39];
    CheckSteps();
    hide ByteStep;
    OneMore(0xFFFFFFFF, data[0..], 0x7C231048);
    OneMore(0x7C231048, data[1..], 0xB0ACBB32);
    OneMore(0xB0ACBB32, data[2..], 0x77B79C2D);
    OneMore(0x77B79C2D, data[3..], 0x641C1F5C);
    OneMore(0x641C1F5C, data[4..], 0x340AC5E3);
    OneMore(0x340AC5E3, data[5..], 0xF68D2C9E);
    OneMore(0xF68D2C9E, data[6..], 0xAFFC9660);
    OneMore(0xAFFC9660, data[7..], 0x651F2550);
    OneMore(0x651F2550, data[8..], 0x340BC6D9);
    assert data[9..] == [];
  }

  // ----- where `unsigned long` has 64 bits

  function Wide(x: bv32): bv64 { x as bv64 }

  function WideIndex(crc: bv64, d: bv64): (i: bv32)
    requires d < 256
    ensures i < 256
  {
    (d ^ (crc & 0xFF)) as bv32
  }

  function WideStep(crc: bv64, d: bv64): bv64
    requires d < 256
  {
    (crc >> 8) ^ Wide(Table(WideIndex(crc, d)))
  }

  lemma WideIndexIs(crc: bv32, d: bv8)
    ensures WideIndex(Wide(crc), d as bv64) == Index(crc, d as bv32)
  {
  }

  lemma WideXor(crc: bv32, entry: bv32)
    ensures (Wide(crc) >> 8) ^ Wide(entry) == Wide(Xor(High(crc), entry))
  {
  }

  lemma WideStepIs(crc: bv32, d: bv8)
    ensures WideStep(Wide(crc), d as bv64) == Wide(TableStep(crc, d as bv32))
  {
    hide Table, Index, WideIndex, Wide, Xor, High;
    WideIndexIs(crc, d);
    WideXor(crc, Table(Index(crc, d as bv32)));
  }

  function WideFinish(r: bv64): bv64 { !r }

  /** The value of a 64-bit register that ends with a checksum. */
  function HighOnes(crc: bv32): bv64 { (crc as bv64) | 0xFFFF_FFFF_0000_0000 }

  lemma WideComplement(crc: bv32, r: bv64)
    requires r == crc as bv64
    ensures !r == ((!crc) as bv64) | 0xFFFF_FFFF_0000_0000
  {
    hide *;
  }

  lemma WideFinishOf(crc: bv32, done: bv32)
    requires done == !crc
    ensures WideFinish(Wide(crc)) == HighOnes(done)
  {
    WideComplement(crc, Wide(crc));
  }

  lemma WideFinishIs(crc: bv32)
    ensures WideFinish(Wide(crc)) == HighOnes(Finish(crc))
  {
    hide WideFinish, Wide, HighOnes;
    WideFinishOf(crc, Finish(crc));
  }

  /** The update on a 64-bit register never leaves its low 32 bits. */
  method WideUpdate(crc: bv32, data: array<bv8>) returns (r: bv64)
    ensures r == Wide(Divide(crc, data[..]))
  {
    hide TableStep, ByteStep, WideStep, Wide;
    r := Wide(crc);
    ghost var narrow := crc;
    for i := 0 to data.Length
      invariant r == Wide(narrow) && narrow == Divide(crc, data[..i])
    {
      WideStepIs(narrow, data[i]);
      TableStepIs(narrow, data[i] as bv32);
      assert data[..i + 1] == data[..i] + [data[i]];
      Append(crc, data[..i], [data[i]]);
      r := WideStep(r, data[i] as bv64);
      narrow := TableStep(narrow, data[i] as bv32);
    }
    assert data[..data.Length] == data[..];
  }

  /** The same with 64 bits: all the bits above the checksum are set. */
  method WideChecksum(data: array<bv8>) returns (crc: bv64)
    ensures crc == HighOnes(Crc(data[..]))
  {
    hide Divide, Finish, Wide, WideFinish, HighOnes;
    crc := WideUpdate(0xFFFFFFFF, data);
    WideFinishIs(Divide(0xFFFFFFFF, data[..]));
    crc := WideFinish(crc);
  }

  // ----- errors that are always noticed

  lemma StepInjective(c: bv32, d: bv32)
    requires Step(c) == Step(d)
    ensures c == d
  {
  }

  lemma Step8Injective(c: bv32, d: bv32)
    requires Step8(c) == Step8(d)
    ensures c == d
  {
    hide Step;
    StepInjective(Step(Step(Step(Step(Step(Step(Step(c))))))), Step(Step(Step(Step(Step(Step(Step(d))))))));
    StepInjective(Step(Step(Step(Step(Step(Step(c)))))), Step(Step(Step(Step(Step(Step(d)))))));
    StepInjective(Step(Step(Step(Step(Step(c))))), Step(Step(Step(Step(Step(d))))));
    StepInjective(Step(Step(Step(Step(c)))), Step(Step(Step(Step(d)))));
    StepInjective(Step(Step(Step(c))), Step(Step(Step(d))));
    StepInjective(Step(Step(c)), Step(Step(d)));
    StepInjective(Step(c), Step(d));
    StepInjective(c, d);
  }

  lemma XorInjective(c: bv32, d: bv32, x: bv32, y: bv32)
    ensures c ^ x == d ^ x ==> c == d
    ensures c ^ x == c ^ y ==> x == y
  {
  }

  lemma {:induction false} DivideInjective(c: bv32, d: bv32, data: seq<bv8>)
    requires Divide(c, data) == Divide(d, data)
    ensures c == d
    decreases |data|
  {
    hide ByteStep, Step8, Xor;
    if data != [] {
      var x := data[0] as bv32;
      DivideInjective(ByteStep(c, x), ByteStep(d, x), data[1..]);
      ByteStepIs(c, x);
      ByteStepIs(d, x);
      XorIs(c, x);
      XorIs(d, x);
      Step8Injective(c ^ x, d ^ x);
      XorInjective(c, d, x, x);
    }
  }

  /** Messages that differ in one byte have different checksums. */
  lemma OneByteNoticed(a: seq<bv8>, x: bv8, y: bv8, b: seq<bv8>)
    requires Crc(a + [x] + b) == Crc(a + [y] + b)
    ensures x == y
  {
    NotInjective(Divide(0xFFFFFFFF, a + [x] + b), Divide(0xFFFFFFFF, a + [y] + b));
    assert Divide(0xFFFFFFFF, a + [x] + b) == Divide(0xFFFFFFFF, a + [y] + b);
    hide ByteStep, Step8, Xor, Crc;
    var c := Divide(0xFFFFFFFF, a);
    var u, v := x as bv32, y as bv32;
    OneByteMore(a, x, b);
    OneByteMore(a, y, b);
    DivideInjective(ByteStep(c, u), ByteStep(c, v), b);
    ByteStepIs(c, u);
    ByteStepIs(c, v);
    XorIs(c, u);
    XorIs(c, v);
    Step8Injective(c ^ u, c ^ v);
    XorInjective(c, c, u, v);
  }

  lemma OneByteMore(a: seq<bv8>, x: bv8, b: seq<bv8>)
    ensures Divide(0xFFFFFFFF, a + [x] + b) == Divide(ByteStep(Divide(0xFFFFFFFF, a), x as bv32), b)
  {
    hide ByteStep;
    Append(0xFFFFFFFF, a + [x], b);
    Append(0xFFFFFFFF, a, [x]);
    assert [x][1..] == [];
  }

  lemma NotInjective(c: bv32, d: bv32)
    ensures !c == !d ==> c == d
  {
  }
}
