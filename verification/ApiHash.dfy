/** The four name hashes that API-hash resolution tries, and their algebra over all names. */
module ApiHash {

  type Name = seq<bv8>

  // ------------------------------------------------------- operations on the register

  function Xor(a: bv32, b: bv32): bv32 { a ^ b }
  function Plus(a: bv32, b: bv32): bv32 { a + b }
  function Times33(a: bv32): bv32 { a * 33 }
  function TimesPrime(a: bv32): bv32 { a * 0x0100_0193 }
  function Rotate13(h: bv32): bv32 { (h >> 13) | (h << 19) }
  function Half(c: bv32): bv32 { c >> 1 }
  function Odd(c: bv32): bool { c & 1 == 1 }
  function Wide(b: bv8): bv32 { b as bv32 }

  // -------------------------------------------------------------------- the hashes

  function Ror13Step(h: bv32, b: bv8): bv32 { Plus(Rotate13(h), Wide(b)) }

  function Djb2Step(h: bv32, b: bv8): bv32 { Plus(Times33(h), Wide(b)) }

  function Fnv1aStep(h: bv32, b: bv8): bv32 { TimesPrime(Xor(h, Wide(b))) }

  function Fold(step: (bv32, bv8) -> bv32, start: bv32, name: Name): bv32 {
    if name == [] then start else step(Fold(step, start, name[..|name| - 1]), name[|name| - 1])
  }

  function Ror13(name: Name): bv32 { Fold(Ror13Step, 0, name) }

  function Djb2(name: Name): bv32 { Fold(Djb2Step, 5381, name) }

  function Fnv1a(name: Name): bv32 { Fold(Fnv1aStep, 0x811C_9DC5, name) }

  const POLY: bv32 := 0xEDB8_8320
  const ONES: bv32 := 0xFFFF_FFFF

  /** One bit of the CRC: shift right, and fold the polynomial in when a one fell out. */
  function Shift(c: bv32): bv32 {
    if Odd(c) then Xor(Half(c), POLY) else Half(c)
  }

  function Shifts(c: bv32, n: nat): bv32 {
    if n == 0 then c else Shift(Shifts(c, n - 1))
  }

  function CrcStep(c: bv32, b: bv8): bv32 { Shifts(Xor(c, Wide(b)), 8) }

  function CrcRegister(name: Name): bv32 { Fold(CrcStep, ONES, name) }

  function Crc32(name: Name): bv32 { Xor(CrcRegister(name), ONES) }

  function LowBit(c: bv32): bv32 { c & 1 }

  /** The polynomial where the mask made of one bit lets it through. */
  function MaskedPoly(bit: bv32): bv32 { 0xEDB8_8320 & (0 - bit) }

  lemma {:induction false} Masks()
    ensures MaskedPoly(1) == POLY && MaskedPoly(0) == 0
  {
  }

  lemma {:induction false} LowBitIs(c: bv32)
    ensures LowBit(c) == if Odd(c) then 1 else 0
  {
  }

  lemma {:induction false} XorNothing(c: bv32)
    ensures Xor(c, 0) == c
  {
  }

  /** The branch-free form of one bit. */
  lemma {:induction false} MaskedShift(c: bv32)
    ensures Xor(Half(c), MaskedPoly(LowBit(c))) == Shift(c)
  {
    hide Xor, Half, Odd, MaskedPoly, LowBit;
    Masks();
    LowBitIs(c);
    XorNothing(Half(c));
  }

  lemma {:induction false} FoldNext(step: (bv32, bv8) -> bv32, start: bv32, name: Name, i: nat)
    requires i < |name|
    ensures Fold(step, start, name[..i + 1]) == step(Fold(step, start, name[..i]), name[i])
  {
    assert name[..i + 1][..i] == name[..i];
  }

  lemma {:induction false} Inverted(c: bv32)
    ensures !c == Xor(c, ONES)
  {
  }

  /** The loop as written: bit by bit, without a branch. */
  method Crc32HashName(name: Name) returns (r: bv32)
    ensures r == Crc32(name)
  {
    hide Shift, Xor;
    var crc: bv32 := 0xFFFF_FFFF;
    var i := 0;
    while i < |name|
      invariant i <= |name|
      invariant crc == CrcRegister(name[..i])
    {
      FoldNext(CrcStep, ONES, name, i);
      crc := CrcByte(crc, name[i]);
      i := i + 1;
    }
    assert name[..i] == name;
    Inverted(crc);
    r := !crc;
  }

  method ShiftByMask(crc: bv32) returns (r: bv32)
    ensures r == Xor(Half(crc), MaskedPoly(LowBit(crc)))
  {
    var mask: bv32 := 0 - (crc & 1);
    r := (crc >> 1) ^ (0xEDB8_8320 & mask);
  }

  method CrcByte(start: bv32, b: bv8) returns (crc: bv32)
    ensures crc == CrcStep(start, b)
  {
    hide Shift;
    crc := start ^ (b as bv32);
    assert crc == Xor(start, Wide(b));
    ghost var entry := crc;
    var bit := 0;
    while bit < 8
      invariant bit <= 8
      invariant crc == Shifts(entry, bit)
    {
      MaskedShift(crc);
      crc := ShiftByMask(crc);
      bit := bit + 1;
    }
  }

  // --------------------------------------------------------- undoing a single byte

  /** A one in the top bit can only be the polynomial's. */
  function Unshift(r: bv32): bv32 {
    if r & 0x8000_0000 != 0 then ((r ^ 0xEDB8_8320) << 1) | 1 else r << 1
  }

  lemma {:induction false} UnshiftShift(c: bv32)
    ensures Unshift(Shift(c)) == c
  {
  }

  lemma {:induction false} ShiftsInjective(a: bv32, b: bv32, n: nat)
    requires Shifts(a, n) == Shifts(b, n)
    ensures a == b
  {
    hide Shift, Unshift;
    if n > 0 {
      UnshiftShift(Shifts(a, n - 1));
      UnshiftShift(Shifts(b, n - 1));
      ShiftsInjective(a, b, n - 1);
    }
  }

  lemma {:induction false} XorCancels(a: bv32, x: bv32)
    ensures Xor(Xor(a, x), x) == a
  {
  }

  function Minus(a: bv32, b: bv32): bv32 { a - b }

  lemma {:induction false} PlusUndone(a: bv32, x: bv32)
    ensures Minus(Plus(a, x), x) == a
  {
    assert Minus(a + x, x) == a;
  }

  function Unrotate13(r: bv32): bv32 { (r << 13) | (r >> 19) }

  lemma {:induction false} RotationUndone(h: bv32)
    ensures Unrotate13(Rotate13(h)) == h
  {
  }

  /** 33 and the FNV prime are odd, so they have inverses modulo 2^32. */
  function Over33(t: bv32): bv32 { t * 0x3E0F_83E1 }
  function OverPrime(t: bv32): bv32 { t * 0x359C_449B }

  lemma {:induction false} ProductsUndone(h: bv32)
    ensures Over33(Times33(h)) == h && OverPrime(TimesPrime(h)) == h
  {
    assert Over33(h * 33) == h;
    assert OverPrime(h * 0x0100_0193) == h;
  }

  // ---------------------------------------------------------- suffix cancellation

  ghost predicate Injective(step: (bv32, bv8) -> bv32) {
    forall a, b, x :: step(a, x) == step(b, x) ==> a == b
  }

  lemma {:induction false} FoldConcat(step: (bv32, bv8) -> bv32, start: bv32, p: Name, s: Name)
    ensures Fold(step, start, p + s) == Fold(step, Fold(step, start, p), s)
  {
    if s == [] {
      assert p + s == p;
    } else {
      FoldConcat(step, start, p, s[..|s| - 1]);
      assert (p + s)[..|p + s| - 1] == p + s[..|s| - 1];
    }
  }

  lemma {:induction false} FoldInjective(step: (bv32, bv8) -> bv32, a: bv32, b: bv32, s: Name)
    requires Injective(step) && Fold(step, a, s) == Fold(step, b, s)
    ensures a == b
  {
    if s != [] {
      var u, v, x := Fold(step, a, s[..|s| - 1]), Fold(step, b, s[..|s| - 1]), s[|s| - 1];
      assert step(u, x) == step(v, x);
      FoldInjective(step, a, b, s[..|s| - 1]);
    }
  }

  lemma {:induction false} FoldCancels(step: (bv32, bv8) -> bv32, start: bv32, p: Name, q: Name, s: Name)
    requires Injective(step)
    ensures Fold(step, start, p + s) == Fold(step, start, q + s) <==> Fold(step, start, p) == Fold(step, start, q)
  {
    FoldConcat(step, start, p, s);
    FoldConcat(step, start, q, s);
    if Fold(step, start, p + s) == Fold(step, start, q + s) {
      FoldInjective(step, Fold(step, start, p), Fold(step, start, q), s);
    }
  }

  lemma {:induction false} Ror13Injective()
    ensures Injective(Ror13Step)
  {
    hide Plus, Minus, Rotate13, Unrotate13, Wide;
    forall a, b, x | Ror13Step(a, x) == Ror13Step(b, x) ensures a == b {
      PlusUndone(Rotate13(a), Wide(x));
      PlusUndone(Rotate13(b), Wide(x));
      RotationUndone(a);
      RotationUndone(b);
    }
  }

  lemma {:induction false} Djb2Injective()
    ensures Injective(Djb2Step)
  {
    hide Plus, Minus, Times33, Over33, TimesPrime, OverPrime, Wide;
    forall a, b, x | Djb2Step(a, x) == Djb2Step(b, x) ensures a == b {
      PlusUndone(Times33(a), Wide(x));
      PlusUndone(Times33(b), Wide(x));
      ProductsUndone(a);
      ProductsUndone(b);
    }
  }

  lemma {:induction false} Fnv1aInjective()
    ensures Injective(Fnv1aStep)
  {
    hide Times33, Over33, TimesPrime, OverPrime, Xor, Wide;
    forall a, b, x | Fnv1aStep(a, x) == Fnv1aStep(b, x) ensures a == b {
      ProductsUndone(Xor(a, Wide(x)));
      ProductsUndone(Xor(b, Wide(x)));
      XorCancels(a, Wide(x));
      XorCancels(b, Wide(x));
    }
  }

  lemma {:induction false} CrcInjective()
    ensures Injective(CrcStep)
  {
    hide Shifts, Xor, Wide;
    forall a, b, x | CrcStep(a, x) == CrcStep(b, x) ensures a == b {
      ShiftsInjective(Xor(a, Wide(x)), Xor(b, Wide(x)), 8);
      XorCancels(a, Wide(x));
      XorCancels(b, Wide(x));
    }
  }

  lemma {:induction false} ComplementCancels(p: Name, q: Name)
    ensures Crc32(p) == Crc32(q) <==> CrcRegister(p) == CrcRegister(q)
  {
    hide CrcRegister, Xor;
    XorCancels(CrcRegister(p), ONES);
    XorCancels(CrcRegister(q), ONES);
  }

  /** For each hash, two names collide exactly when they collide with any common suffix. */
  lemma {:induction false} SuffixesCancel(p: Name, q: Name, s: Name)
    ensures Ror13(p + s) == Ror13(q + s) <==> Ror13(p) == Ror13(q)
    ensures Djb2(p + s) == Djb2(q + s) <==> Djb2(p) == Djb2(q)
    ensures Fnv1a(p + s) == Fnv1a(q + s) <==> Fnv1a(p) == Fnv1a(q)
    ensures Crc32(p + s) == Crc32(q + s) <==> Crc32(p) == Crc32(q)
  {
    hide Ror13Step, Djb2Step, Fnv1aStep, CrcStep, Fold, Injective, Crc32;
    Ror13Injective();
    Djb2Injective();
    Fnv1aInjective();
    CrcInjective();
    FoldCancels(Ror13Step, 0, p, q, s);
    FoldCancels(Djb2Step, 5381, p, q, s);
    FoldCancels(Fnv1aStep, 0x811C_9DC5, p, q, s);
    FoldCancels(CrcStep, ONES, p, q, s);
    ComplementCancels(p + s, q + s);
    ComplementCancels(p, q);
  }

  // --------------------------------------------------------------- CRC is affine

  lemma {:induction false} OddXor(a: bv32, b: bv32)
    ensures Odd(Xor(a, b)) == (Odd(a) != Odd(b))
  {
  }

  lemma {:induction false} HalfXor(a: bv32, b: bv32)
    ensures Half(Xor(a, b)) == Xor(Half(a), Half(b))
  {
  }

  lemma {:induction false} XorMoves(a: bv32, b: bv32, m: bv32)
    ensures Xor(Xor(a, m), b) == Xor(Xor(a, b), m)
  {
    assert Xor(a ^ m, b) == Xor(a ^ b, m);
  }

  lemma {:induction false} XorGroups(a: bv32, b: bv32, m: bv32)
    ensures Xor(a, Xor(b, m)) == Xor(Xor(a, b), m)
  {
    assert Xor(a, b ^ m) == Xor(a ^ b, m);
  }

  lemma {:induction false} XorTwice(a: bv32, b: bv32, m: bv32)
    ensures Xor(Xor(a, m), Xor(b, m)) == Xor(a, b)
  {
    assert Xor(a ^ m, b ^ m) == Xor(a, b);
  }

  lemma {:induction false} ShiftLinear(a: bv32, b: bv32)
    ensures Shift(Xor(a, b)) == Xor(Shift(a), Shift(b))
  {
    hide Xor, Half, Odd;
    OddXor(a, b);
    HalfXor(a, b);
    XorMoves(Half(a), Half(b), POLY);
    XorGroups(Half(a), Half(b), POLY);
    XorTwice(Half(a), Half(b), POLY);
  }

  lemma {:induction false} ShiftsLinear(a: bv32, b: bv32, n: nat)
    ensures Shifts(Xor(a, b), n) == Xor(Shifts(a, n), Shifts(b, n))
  {
    hide Shift, Xor;
    if n > 0 {
      ShiftsLinear(a, b, n - 1);
      ShiftLinear(Shifts(a, n - 1), Shifts(b, n - 1));
    }
  }

  function Xor3(a: bv32, b: bv32, c: bv32): bv32 { a ^ b ^ c }

  function XorByte3(x: bv8, y: bv8, z: bv8): bv8 { x ^ y ^ z }

  /** Byte-wise exclusive or of three names of one length. */
  function XorNames(x: Name, y: Name, z: Name): Name
    requires |x| == |y| == |z|
  {
    seq(|x|, i requires 0 <= i < |x| => XorByte3(x[i], y[i], z[i]))
  }

  lemma {:induction false} Xor3IsXor(a: bv32, b: bv32, c: bv32)
    ensures Xor3(a, b, c) == Xor(Xor(a, b), c)
  {
    assert Xor(a ^ b, c) == Xor3(a, b, c);
  }

  lemma {:induction false} WideXor(x: bv8, y: bv8, z: bv8)
    ensures Wide(XorByte3(x, y, z)) == Xor3(Wide(x), Wide(y), Wide(z))
  {
    assert Wide(x ^ y ^ z) == Xor3(x as bv32, y as bv32, z as bv32);
  }

  lemma {:induction false} XorPairs(a: bv32, b: bv32, c: bv32, x: bv32, y: bv32, z: bv32)
    ensures Xor(Xor3(a, b, c), Xor3(x, y, z)) == Xor3(Xor(a, x), Xor(b, y), Xor(c, z))
  {
    assert Xor(a ^ b ^ c, x ^ y ^ z) == Xor3(a ^ x, b ^ y, c ^ z);
  }

  lemma {:induction false} StepLinear(a: bv32, b: bv32, c: bv32, x: bv8, y: bv8, z: bv8)
    ensures CrcStep(Xor3(a, b, c), XorByte3(x, y, z)) == Xor3(CrcStep(a, x), CrcStep(b, y), CrcStep(c, z))
  {
    hide Shifts, Xor, Xor3, Wide, XorByte3;
    var p, q, r := Xor(a, Wide(x)), Xor(b, Wide(y)), Xor(c, Wide(z));
    WideXor(x, y, z);
    XorPairs(a, b, c, Wide(x), Wide(y), Wide(z));
    Xor3IsXor(p, q, r);
    ShiftsLinear(Xor(p, q), r, 8);
    ShiftsLinear(p, q, 8);
    Xor3IsXor(Shifts(p, 8), Shifts(q, 8), Shifts(r, 8));
  }

  lemma {:induction false} Xor3Same(m: bv32)
    ensures Xor3(m, m, m) == m
  {
  }

  lemma {:induction false} RegisterLinear(x: Name, y: Name, z: Name)
    requires |x| == |y| == |z|
    ensures CrcRegister(XorNames(x, y, z)) == Xor3(CrcRegister(x), CrcRegister(y), CrcRegister(z))
  {
    hide CrcStep, Xor3, XorByte3;
    if x == [] {
      Xor3Same(ONES);
    } else {
      var n := |x| - 1;
      RegisterLinear(x[..n], y[..n], z[..n]);
      assert XorNames(x, y, z)[..n] == XorNames(x[..n], y[..n], z[..n]);
      StepLinear(CrcRegister(x[..n]), CrcRegister(y[..n]), CrcRegister(z[..n]), x[n], y[n], z[n]);
    }
  }

  lemma {:induction false} Complements(a: bv32, b: bv32, c: bv32, m: bv32)
    ensures Xor3(Xor(a, m), Xor(b, m), Xor(c, m)) == Xor(Xor3(a, b, c), m)
  {
    assert Xor3(a ^ m, b ^ m, c ^ m) == Xor(a ^ b ^ c, m);
  }

  /** The checksum is affine over exclusive or. */
  lemma {:induction false} CrcAffine(x: Name, y: Name, z: Name)
    requires |x| == |y| == |z|
    ensures Xor3(Crc32(x), Crc32(y), Crc32(z)) == Crc32(XorNames(x, y, z))
  {
    hide CrcRegister, Xor, Xor3;
    RegisterLinear(x, y, z);
    Complements(CrcRegister(x), CrcRegister(y), CrcRegister(z), ONES);
  }

  // ------------------------------------------- the table-driven form of RFC 1952

  function LowByte(c: bv32): bv32 { c & 0xFF }
  function HighBytes(c: bv32): bv32 { c & 0xFFFF_FF00 }
  function ByteDown(c: bv32): bv32 { c >> 8 }

  /** Entry `n` of the table in section 8 of RFC 1952. */
  function Table(n: bv32): bv32 { Shifts(n, 8) }

  /** One byte as that section's update function takes it: a table look-up and a byte-wide shift. */
  function TableStep(c: bv32, b: bv8): bv32 {
    Xor(Table(LowByte(Xor(c, Wide(b)))), ByteDown(c))
  }

  lemma {:induction false} Halved(h: bv32, n: nat)
    requires !Odd(Shifts(h, n))
    ensures Shifts(h, n + 1) == Half(Shifts(h, n))
  {
    hide Odd, Half;
  }

  /** A register whose low byte is clear only moves down. */
  lemma {:induction false} HighMovesDown(c: bv32)
    ensures Shifts(HighBytes(c), 8) == ByteDown(c)
  {
    hide Shifts;
    var h := HighBytes(c);
    assert Shifts(h, 0) == h by { ShiftsNone(h); }
    assert h == c & 0xFFFF_FF00;
    assert !Odd(h);
    Halved(h, 0);
    EvenBits(c);
    Halved(h, 1);
    Halved(h, 2);
    Halved(h, 3);
    Halved(h, 4);
    Halved(h, 5);
    Halved(h, 6);
    Halved(h, 7);
  }

  lemma {:induction false} ShiftsNone(h: bv32)
    ensures Shifts(h, 0) == h
  {
  }

  /** The bits that fall out of a register whose low byte is clear. */
  lemma {:induction false} EvenBits(c: bv32)
    ensures var h0 := HighBytes(c);
      var h1 := Half(h0); var h2 := Half(h1); var h3 := Half(h2);
      var h4 := Half(h3); var h5 := Half(h4); var h6 := Half(h5); var h7 := Half(h6);
      && !Odd(h0) && !Odd(h1) && !Odd(h2) && !Odd(h3) && !Odd(h4) && !Odd(h5) && !Odd(h6) && !Odd(h7)
      && Half(h7) == ByteDown(c)
  {
  }

  lemma {:induction false} SplitRegister(c: bv32)
    ensures Xor(LowByte(c), HighBytes(c)) == c
  {
  }

  lemma {:induction false} ByteStaysLow(c: bv32, b: bv8)
    ensures ByteDown(Xor(c, Wide(b))) == ByteDown(c)
  {
  }

  lemma {:induction false} TableStepAgrees(c: bv32, b: bv8)
    ensures TableStep(c, b) == CrcStep(c, b)
  {
    hide Shifts, Xor, Wide, LowByte, HighBytes, ByteDown;
    var v := Xor(c, Wide(b));
    SplitRegister(v);
    ShiftsLinear(LowByte(v), HighBytes(v), 8);
    HighMovesDown(v);
    ByteStaysLow(c, b);
  }

  /** The bit-by-bit hash is the table-driven checksum of the standard. */
  lemma {:induction false} TableDriven(name: Name)
    ensures Crc32(name) == Xor(Fold(TableStep, ONES, name), ONES)
  {
    hide Xor;
    TableFold(name);
  }

  lemma {:induction false} TableFold(name: Name)
    ensures Fold(TableStep, ONES, name) == CrcRegister(name)
  {
    hide TableStep, CrcStep;
    if name != [] {
      TableFold(name[..|name| - 1]);
      TableStepAgrees(CrcRegister(name[..|name| - 1]), name[|name| - 1]);
    }
  }

  // ------------------------------------------------------------------ closed forms

  lemma {:induction false} FoldNone(step: (bv32, bv8) -> bv32, start: bv32)
    ensures Fold(step, start, []) == start
  {
  }

  lemma {:induction false} FoldSnoc(step: (bv32, bv8) -> bv32, start: bv32, name: Name, b: bv8)
    ensures Fold(step, start, name + [b]) == step(Fold(step, start, name), b)
  {
    assert (name + [b])[..|name|] == name;
  }

  lemma {:induction false} LetterShifts()
    ensures Shifts(0xFFFF_FF9E, 8) == 0x1748_41BC
  {
    assert Shifts(0xFFFF_FF9E, 1) == 0x7FFF_FFCF;
    assert Shifts(0xFFFF_FF9E, 2) == 0xD247_7CC7;
    assert Shifts(0xFFFF_FF9E, 3) == 0x849B_3D43;
    assert Shifts(0xFFFF_FF9E, 4) == 0xAFF5_1D81;
    assert Shifts(0xFFFF_FF9E, 5) == 0xBA42_0DE0;
    assert Shifts(0xFFFF_FF9E, 6) == 0x5D21_06F0;
    assert Shifts(0xFFFF_FF9E, 7) == 0x2E90_8378;
    assert Shifts(0xFFFF_FF9E, 8) == 0x1748_41BC;
  }

  /** Published check values of the one-letter name `a`, and of the empty name. */
  lemma {:induction false} CheckValues()
    ensures Ror13([]) == 0 && Djb2([]) == 5381 && Fnv1a([]) == 0x811C_9DC5 && Crc32([]) == 0
    ensures Ror13([0x61]) == 0x61 && Djb2([0x61]) == 177670 && Fnv1a([0x61]) == 0xE40C_292C
    ensures Crc32([0x61]) == 0xE8B7_BE43 && Ror13([0x61, 0x62]) == 0x0308_0062
  {
    FoldNone(Ror13Step, 0);
    FoldNone(Djb2Step, 5381);
    FoldNone(Fnv1aStep, 0x811C_9DC5);
    FoldNone(CrcStep, ONES);
    FoldSnoc(Ror13Step, 0, [], 0x61);
    FoldSnoc(Djb2Step, 5381, [], 0x61);
    FoldSnoc(Fnv1aStep, 0x811C_9DC5, [], 0x61);
    FoldSnoc(Ror13Step, 0, [0x61], 0x62);
    FoldSnoc(CrcStep, ONES, [], 0x61);
    LetterShifts();
    assert Xor(ONES, Wide(0x61)) == 0xFFFF_FF9E;
    assert [] + [0x61 as bv8] == [0x61] && [0x61 as bv8] + [0x62] == [0x61, 0x62];
  }

  function Bit(h: bv32, i: bv5): bool { (h >> i) & 1 == 1 }

  /** The rotation moves every bit thirteen places down, and the lowest thirteen to the top. */
  lemma {:induction false} RotationMovesBits(h: bv32, i: bv5)
    ensures Bit(Rotate13(h), i) == Bit(h, i + 13)
  {
  }

  /** `x * 33^n`. */
  function Power33(x: bv32, n: nat): bv32 {
    if n == 0 then x else Times33(Power33(x, n - 1))
  }

  /** Each byte from `i` on, times 33 to the number of bytes behind it. */
  function Weighted(name: Name, i: nat): bv32
    requires i <= |name|
    decreases |name| - i
  {
    if i == |name| then 0 else Plus(Power33(Wide(name[i]), |name| - 1 - i), Weighted(name, i + 1))
  }

  lemma {:induction false} Times33Plus(a: bv32, b: bv32)
    ensures Times33(Plus(a, b)) == Plus(Times33(a), Times33(b))
  {
    assert Times33(a + b) == Plus(a * 33, b * 33);
  }

  lemma {:induction false} PlusAssociates(a: bv32, b: bv32, c: bv32)
    ensures Plus(Plus(a, b), c) == Plus(a, Plus(b, c))
  {
    assert Plus(a + b, c) == Plus(a, b + c);
  }

  lemma {:induction false} Nothing33()
    ensures Times33(0) == 0 && forall a: bv32 :: Plus(0, a) == a && Plus(a, 0) == a
  {
  }

  lemma {:induction false} WeightedSnoc(name: Name, b: bv8, i: nat)
    requires i <= |name|
    ensures Weighted(name + [b], i) == Plus(Times33(Weighted(name, i)), Wide(b))
    decreases |name| - i
  {
    hide Plus, Times33;
    Nothing33();
    var more := name + [b];
    if i == |name| {
      assert Weighted(more, i + 1) == 0;
    } else {
      WeightedSnoc(name, b, i + 1);
      var here := Power33(Wide(name[i]), |name| - 1 - i);
      assert Power33(Wide(more[i]), |more| - 1 - i) == Times33(here);
      Times33Plus(here, Weighted(name, i + 1));
      PlusAssociates(Times33(here), Times33(Weighted(name, i + 1)), Wide(b));
    }
  }

  /** In arithmetic modulo 2^32: 5381 * 33^n, and every byte times 33 to the number of bytes behind it. */
  lemma {:induction false} Djb2Polynomial(name: Name)
    ensures Djb2(name) == Plus(Power33(5381, |name|), Weighted(name, 0))
  {
    hide Plus, Times33;
    Nothing33();
    if name != [] {
      var init, b := name[..|name| - 1], name[|name| - 1];
      assert name == init + [b];
      Djb2Polynomial(init);
      FoldSnoc(Djb2Step, 5381, init, b);
      WeightedSnoc(init, b, 0);
      Times33Plus(Power33(5381, |init|), Weighted(init, 0));
      PlusAssociates(Times33(Power33(5381, |init|)), Times33(Weighted(init, 0)), Wide(b));
    }
  }
}
