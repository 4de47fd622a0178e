/** What the emulator's instructions compute: arithmetic modulo 2^64 and bit by bit, and moves. */
module NativeArithmetic {
  import opened Common
  import opened Records
  import opened Words
  import opened WordBits
  import opened NativeEmulator
  import opened ConditionCodes
  import opened NativeSemantics
  import Text

  // ------------------------------------------------------ shifts and rotations

  lemma {:induction false} ShiftLeftBit(x: Word, k: nat, i: nat)
    requires i < 64
    ensures Bit(ShiftLeft(x, k), i) <==> i >= k && Bit(x, i - k)
  {
    hide Pow2, Bit, Low, Down;
    Pow64();
    var y: nat := x * Pow2(k);
    DownAndLow(y, 64);
    LowBit(y, 64, i);
    UpBit(x, k, i);
  }

  lemma {:induction false} SmallerDown(x: nat, k: nat)
    ensures Down(x, k) <= x
  {
    if k > 0 { SmallerDown(x / 2, k - 1); }
  }

  lemma {:induction false} Fits(x: Word)
    ensures x % MODULUS == x
  {
  }

  lemma {:induction false} ShiftRightIsDown(x: Word, k: nat)
    ensures ShiftRight(x, k) == Down(x, k)
  {
    hide Pow2, Down;
    DownAndLow(x, k);
    SmallerDown(x, k);
    Fits(Down(x, k));
  }

  lemma {:induction false} ShiftRightBit(x: Word, k: nat, i: nat)
    ensures Bit(ShiftRight(x, k), i) <==> i + k < 64 && Bit(x, i + k)
  {
    hide Pow2, Bit, Down, ShiftRight;
    ShiftRightIsDown(x, k);
    DownBit(x, k, i);
    Pow64();
    if i + k >= 64 { HighBit(x, 64, i + k); }
  }

  function ArithmeticShift(x: Word, k: nat): Word { (Signed(x) / Pow2(k)) % MODULUS }

  lemma {:induction false} SplitPower(k: nat)
    requires k <= 64
    ensures Pow2(64 - k) * Pow2(k) == MODULUS && Pow2(k) * Pow2(64 - k) == MODULUS
  {
    hide Pow2;
    Pow64();
    Pow2Add(64 - k, k);
  }

  /** Dividing a negative number rounds down; the sign fills the places from above. */
  lemma {:induction false} NegativeShift(x: Word, k: nat)
    requires k < 64 && Negative(x)
    ensures ArithmeticShift(x, k) == Down(x, k) + (Pow2(k) - 1) * Pow2(64 - k)
    ensures Down(x, k) < Pow2(64 - k)
  {
    hide Pow2, Down, Low;
    var p, q := Pow2(k), Pow2(64 - k);
    DownAndLow(x, k);
    SplitPower(k);
    var d, l := Down(x, k), Low(x, k);
    Below(d, q, p, l);
    var quotient: int := d as int - q as int;
    assert Signed(x) == quotient * p + l;
    DivideDown(Signed(x), p, quotient, l);
    assert (p - 1) * q == MODULUS - q;
    Wraps(quotient);
  }

  lemma {:induction false} Below(d: nat, q: nat, p: nat, l: nat)
    requires d * p + l < q * p
    ensures d < q
  {
    if d >= q { MoreTimes(d, q, p); }
  }

  lemma {:induction false} MoreTimes(d: nat, q: nat, p: nat)
    requires d >= q
    ensures d * p >= q * p
  {
    assert d * p == q * p + (d - q) * p;
  }

  lemma {:induction false} DivideDown(x: int, p: nat, q: int, r: nat)
    requires p > 0 && r < p && x == q * p + r
    ensures x / p == q
  {
    var a, b := x / p, x % p;
    assert x == a * p + b;
    if a > q { assert a * p == q * p + (a - q) * p; AtLeastOnce(a - q, p); }
    if a < q { assert q * p == a * p + (q - a) * p; AtLeastOnce(q - a, p); }
  }

  lemma {:induction false} Wraps(x: int)
    requires -MODULUS <= x < 0
    ensures x % MODULUS == x + MODULUS
  {
  }

  lemma {:induction false} ArithmeticShiftBit(x: Word, k: nat, i: nat)
    requires k < 64 && i < 64
    ensures Bit(ArithmeticShift(x, k), i) <==> Bit(x, if i + k < 64 then i + k else 63)
  {
    hide Pow2, Bit, Down, ArithmeticShift, ShiftRight;
    SignBitIs(x);
    if Negative(x) {
      NegativeShift(x, k);
      JoinedBit(Down(x, k), Pow2(k) - 1, 64 - k, i);
      DownBit(x, k, i);
      if i + k >= 64 {
        FlippedBit(0, k, i + k - 64);
        ZeroBit(i + k - 64);
      }
    } else {
      PositiveShift(x, k);
      ShiftRightBit(x, k, i);
    }
  }

  lemma {:induction false} PositiveShift(x: Word, k: nat)
    requires !Negative(x)
    ensures ArithmeticShift(x, k) == ShiftRight(x, k)
  {
    hide Pow2;
  }

  lemma {:induction false} LeftPart(x: Word, k: nat)
    requires k <= 64
    ensures ShiftLeft(x, k) == Low(x, 64 - k) * Pow2(k)
  {
    hide Pow2, Down, Low;
    var p, q := Pow2(k), Pow2(64 - k);
    DownAndLow(x, 64 - k);
    SplitPower(k);
    var d, l := Down(x, 64 - k), Low(x, 64 - k);
    assert x * p == d * (q * p) + l * p;
    Scaled(l, q, p);
    DivideUnique(x * p, MODULUS, d, l * p);
  }

  lemma {:induction false} Scaled(l: nat, q: nat, p: nat)
    requires l < q && p > 0
    ensures l * p + p <= q * p
  {
    assert q * p == l * p + (q - l) * p;
    AtLeastOnce(q - l, p);
  }

  lemma {:induction false} RotateParts(x: Word, k: nat)
    requires 0 < k < 64
    ensures RotateLeft(x, k) == Down(x, 64 - k) + Low(x, 64 - k) * Pow2(k)
    ensures Down(x, 64 - k) < Pow2(k)
  {
    hide Pow2, Down, Low, ShiftLeft, ShiftRight;
    var p, q := Pow2(k), Pow2(64 - k);
    LeftPart(x, k);
    ShiftRightIsDown(x, 64 - k);
    DownAndLow(x, 64 - k);
    SplitPower(k);
    var d, l := Down(x, 64 - k), Low(x, 64 - k);
    Below(d, p, q, l);
    Scaled(l, q, p);
  }

  lemma {:induction false} RotateLeftBit(x: Word, k: nat, i: nat)
    requires k < 64 && i < 64
    ensures Bit(RotateLeft(x, k), i) <==> Bit(x, (i + 64 - k) % 64)
  {
    hide Pow2, Bit, Down, Low;
    if k == 0 {
      RotateNone(x);
    } else {
      RotateParts(x, k);
      JoinedBit(Down(x, 64 - k), Low(x, 64 - k), k, i);
      if i < k { DownBit(x, 64 - k, i); } else { LowBit(x, 64 - k, i - k); }
    }
  }

  lemma {:induction false} RotateNone(x: Word)
    ensures RotateLeft(x, 0) == x
  {
    assert Pow2(0) == 1;
  }

  /** Where the byte swap of `n` bytes takes the bit at `i` from. */
  function Swapped(n: nat, i: nat): nat
    requires i < 8 * n
  {
    8 * (n - 1 - i / 8) + i % 8
  }

  lemma {:induction false} SwappedPlaces(m: nat, i: nat)
    requires i < 8 * (m + 1)
    ensures i < 8 * m ==> Swapped(m + 1, i) == Swapped(m, i) + 8
    ensures i >= 8 * m ==> Swapped(m + 1, i) == i - 8 * m
  {
  }

  lemma {:induction false} SwappedBit(x: nat, n: nat, i: nat)
    requires i < 8 * n
    ensures Bit(SwapBytes(x, n), i) <==> Bit(x, Swapped(n, i))
  {
    hide Pow2, Bit, Swapped, Down, Low;
    var m := n - 1;
    SwapBound(x / 256, m);
    JoinedBit(SwapBytes(x / 256, m), x % 256, 8 * m, i);
    SwappedPlaces(m, i);
    DownAndLow(x, 8);
    Pow256();
    if i < 8 * m {
      SwappedBit(x / 256, m, i);
      DownBit(x, 8, Swapped(m, i));
    } else {
      LowBit(x, 8, i - 8 * m);
    }
  }

  lemma {:induction false} Pow256()
    ensures Pow2(8) == 256
  {
    hide Pow2;
    Pow2Base();
    Pow2Add(1, 1);
    Pow2Add(2, 2);
    Pow2Add(4, 4);
  }

  lemma {:induction false} SwapBound(x: nat, n: nat)
    ensures SwapBytes(x, n) < Pow2(8 * n)
  {
    if n == 0 {
      assert Pow2(0) == 1;
    } else {
      hide Pow2;
      var p := Pow2(8 * (n - 1));
      SwapBound(x / 256, n - 1);
      Pow256();
      Pow2Add(8, 8 * (n - 1));
      Scaled(x % 256, 256, p);
    }
  }

  // --------------------------------------------------------------- the meanings

  /** The bit at `i` of `l op r`; shift and rotation counts are taken modulo 64. */
  ghost predicate BinaryBit(m: string, l: Word, r: Word, v: Word, i: nat) {
    var k := r % 64;
    && (m == "and" ==> (Bit(v, i) <==> Bit(l, i) && Bit(r, i)))
    && (m == "or" ==> (Bit(v, i) <==> Bit(l, i) || Bit(r, i)))
    && (m == "xor" ==> (Bit(v, i) <==> (Bit(l, i) != Bit(r, i))))
    && (m == "shl" || m == "sal" ==> (Bit(v, i) <==> i >= k && Bit(l, i - k)))
    && (m == "shr" ==> (Bit(v, i) <==> i + k < 64 && Bit(l, i + k)))
    && (m == "sar" ==> (Bit(v, i) <==> Bit(l, if i + k < 64 then i + k else 63)))
    && (m == "rol" ==> (Bit(v, i) <==> Bit(l, (i + 64 - k) % 64)))
    && (m == "ror" ==> (Bit(v, i) <==> Bit(l, (i + k) % 64)))
  }

  ghost predicate BinaryMeans(m: string, l: Word, r: Word, v: Word) {
    && (m == "add" ==> v == (l + r) % MODULUS)
    && (m == "sub" ==> v == (l - r) % MODULUS)
    && forall i: nat :: i < 64 ==> BinaryBit(m, l, r, v, i)
  }

  ghost predicate UnaryBit(m: string, x: Word, v: Word, i: nat)
    requires i < 64
  {
    && (m == "not" ==> (Bit(v, i) <==> !Bit(x, i)))
    && (m == "bswap" ==> (Bit(v, i) <==> Bit(x, 8 * (7 - i / 8) + i % 8)))
  }

  ghost predicate UnaryMeans(m: string, x: Word, v: Word) {
    && (m == "inc" ==> v == (x + 1) % MODULUS)
    && (m == "dec" ==> v == (x - 1) % MODULUS)
    && (m == "neg" ==> v == (0 - x) % MODULUS)
    && forall i: nat :: i < 64 ==> UnaryBit(m, x, v, i)
  }

  lemma {:induction false} WrapIsModular(a: Word, b: Word)
    ensures WrapAdd(a, b) == (a + b) % MODULUS && WrapSub(a, b) == (a - b) % MODULUS
  {
  }

  lemma {:induction false} RotateRightPlace(k: nat, i: nat)
    requires k < 64 && i < 64
    ensures (i + 64 - (64 - k) % 64) % 64 == (i + k) % 64
  {
  }

  ghost predicate ShiftName(m: string) { m in {"shl", "sal", "shr", "sar", "rol", "ror"} }

  lemma {:induction false} ShiftBits(m: string, same: bool, l: Word, r: Word, i: nat)
    requires i < 64 && ShiftName(m)
    ensures BinaryBit(m, l, r, BinaryValue(m, same, l, r), i)
  {
    hide Pow2, Bit, ShiftLeft, ShiftRight, RotateLeft, And, Or, Xor;
    var k := r % 64;
    ShiftLeftBit(l, k, i);
    ShiftRightBit(l, k, i);
    ArithmeticShiftBit(l, k, i);
    RotateLeftBit(l, k, i);
    RotateLeftBit(l, (64 - k) % 64, i);
    RotateRightPlace(k, i);
  }

  lemma {:induction false} LogicBits(m: string, same: bool, l: Word, r: Word, i: nat)
    requires !ShiftName(m) && (same ==> l == r)
    ensures BinaryBit(m, l, r, BinaryValue(m, same, l, r), i)
  {
    hide Pow2, Bit, ShiftLeft, ShiftRight, RotateLeft, BitAnd, BitOr, BitXor;
    AndBit(l, r, i);
    OrBit(l, r, i);
    XorBit(l, r, i);
    ZeroBit(i);
  }

  /** What `op` leaves in its destination; `xor` of an operand with itself counts as zero. */
  lemma {:induction false} BinaryMeaning(m: string, same: bool, l: Word, r: Word)
    requires same ==> l == r
    ensures BinaryMeans(m, l, r, BinaryValue(m, same, l, r))
  {
    hide Bit, Pow2;
    WrapIsModular(l, r);
    forall i: nat | i < 64 ensures BinaryBit(m, l, r, BinaryValue(m, same, l, r), i) {
      if ShiftName(m) { ShiftBits(m, same, l, r, i); } else { LogicBits(m, same, l, r, i); }
    }
    hide BinaryBit;
  }

  lemma {:induction false} UnaryMeaning(m: string, x: Word)
    ensures UnaryMeans(m, x, UnaryValue(m, x))
  {
    hide Bit, Pow2, SwapBytes;
    WrapIsModular(x, 1);
    WrapIsModular(MODULUS - 1 - x, 1);
    Pow64();
    SwapBound(x, 8);
    forall i: nat | i < 64 ensures UnaryBit(m, x, UnaryValue(m, x), i) {
      FlippedBit(x, 64, i);
      SwappedBit(x, 8, i);
    }
  }

  // ------------------------------------------------------------- the instructions

  /** The register holds the value, the zero and sign flags describe it, and nothing else has changed. */
  ghost predicate HoldsAfter(before: State, after: State, r: string, v: Word) {
    && after.registers == before.registers[r := v]
    && after.flags == before.flags.(zf := v == 0, sf := v >= SIGN_BIT)
    && after.stack == before.stack && after.lastCompare == before.lastCompare && after.oobWrites == before.oobWrites
  }

  const BINARY: seq<string> := ["xor", "add", "sub", "and", "or", "shl", "shr", "sar", "sal", "rol", "ror"]
  const UNARY: seq<string> := ["inc", "dec", "neg", "not", "bswap"]

  lemma {:induction false} BinaryIsBinary(m: string)
    requires m in BINARY
    ensures Classify(m) == Binary
  {
    assert m[0] != 'j';
  }

  lemma {:induction false} UnaryIsUnary(m: string)
    requires m in UNARY
    ensures Classify(m) == Unary
  {
    assert m[0] != 'j';
  }

  /** A binary instruction on a register; unknown operands count as zero. */
  lemma {:induction false} BinaryExecuted(row: Instruction, ops: seq<Operand>, api: Option<Word>, st: State)
    requires Text.Lower(row.mnemonic) in BINARY
    ensures
      var (after, outcome) := EmulateInstruction(row, ops, api, st);
      if |ops| < 2 || !ops[0].Reg? then after == st && outcome == Unsupported
      else
        var l, r := OrZero(OperandValue(ops[0], st)), OrZero(OperandValue(ops[1], st));
        outcome == Supported && exists v: Word ::
          BinaryMeans(Text.Lower(row.mnemonic), l, r, v) && HoldsAfter(st, after, ops[0].name, v)
  {
    hide Text.Lower, Classify, BinaryValue, BinaryMeans;
    var m := Text.Lower(row.mnemonic);
    BinaryIsBinary(m);
    if |ops| >= 2 && ops[0].Reg? {
      var l, r := OrZero(OperandValue(ops[0], st)), OrZero(OperandValue(ops[1], st));
      BinaryMeaning(m, ops[0] == ops[1], l, r);
      assert HoldsAfter(st, EmulateInstruction(row, ops, api, st).0, ops[0].name, BinaryValue(m, ops[0] == ops[1], l, r));
    }
  }

  lemma {:induction false} UnaryExecuted(row: Instruction, ops: seq<Operand>, api: Option<Word>, st: State)
    requires Text.Lower(row.mnemonic) in UNARY
    ensures
      var (after, outcome) := EmulateInstruction(row, ops, api, st);
      if |ops| < 1 || !ops[0].Reg? then after == st && outcome == Unsupported
      else
        outcome == Supported && exists v: Word ::
          && UnaryMeans(Text.Lower(row.mnemonic), OrZero(OperandValue(ops[0], st)), v)
          && HoldsAfter(st, after, ops[0].name, v)
  {
    hide Text.Lower, Classify, UnaryValue, UnaryMeans;
    var m := Text.Lower(row.mnemonic);
    UnaryIsUnary(m);
    if |ops| >= 1 && ops[0].Reg? {
      var x := OrZero(OperandValue(ops[0], st));
      UnaryMeaning(m, x);
      assert HoldsAfter(st, EmulateInstruction(row, ops, api, st).0, ops[0].name, UnaryValue(m, x));
    }
  }

  // -------------------------------------------------- moves, conditions and calls

  /** The destination reads as the value; every other operand reads as before. */
  ghost predicate Stores(before: State, after: State, to: Operand, v: Word) {
    && OperandValue(to, after) == Some(v)
    && (forall op :: op != to ==> OperandValue(op, after) == OperandValue(op, before))
    && after.flags == before.flags && after.lastCompare == before.lastCompare && after.oobWrites == before.oobWrites
  }

  /** A move to a register or stack slot, of a value that may be unknown. */
  ghost predicate Copies(before: State, after: State, to: Operand, from: Operand) {
    match OperandValue(from, before)
    case Some(v) => Stores(before, after, to, v)
    case None => after == before
  }

  ghost predicate IsPlace(op: Operand) { op.Reg? || op.Slot? }

  const MOVES: seq<string> := ["mov", "movzx", "movsx", "movsxd"]

  lemma {:induction false} MovesAreMoves(m: string)
    requires m in MOVES
    ensures Classify(m) == Move
  {
    assert m[0] != 'j';
  }

  lemma {:induction false} MoveToMoves(address: nat, ops: seq<Operand>, st: State)
    requires |ops| >= 2 && IsPlace(ops[0])
    ensures
      var (after, outcome) := MoveTo(address, ops, st);
      outcome == Supported && Copies(st, after, ops[0], ops[1])
  {
  }

  /** Any other memory keeps the state, and a write that is neither stack nor image is recorded. */
  lemma {:induction false} MoveToMemory(address: nat, ops: seq<Operand>, st: State)
    requires |ops| >= 2 && ops[0].Memory?
    ensures
      var (after, outcome) := MoveTo(address, ops, st);
      && outcome == Supported
      && after == if ops[0].stackOrImage then st else st.(oobWrites := st.oobWrites + [address])
  {
  }

  lemma {:induction false} MoveExecuted(row: Instruction, ops: seq<Operand>, api: Option<Word>, st: State)
    requires Text.Lower(row.mnemonic) in MOVES && |ops| >= 2 && IsPlace(ops[0])
    ensures
      var (after, outcome) := EmulateInstruction(row, ops, api, st);
      outcome == Supported && Copies(st, after, ops[0], ops[1])
  {
    hide Text.Lower, Classify, MoveTo, Copies;
    MovesAreMoves(Text.Lower(row.mnemonic));
    MoveToMoves(row.address, ops, st);
  }

  const CONDITIONAL_MOVES: seq<string> :=
    ["cmovz", "cmove", "cmovnz", "cmovne", "cmovg", "cmovl", "cmovge", "cmovle", "cmova", "cmovae", "cmovb", "cmovbe",
     "cmovs", "cmovns"]

  lemma {:induction false} ConditionalShape(m: string)
    requires m in CONDITIONAL_MOVES
    ensures |m| >= 5 && m[0] == 'c' && m[1] == 'm' && m[2] == 'o'
  {
  }

  /** A mnemonic of that shape is none of the shorter ones. */
  lemma {:induction false} NotEarlier(m: string)
    requires |m| >= 5 && m[0] == 'c' && m[1] == 'm' && m[2] == 'o'
    ensures Classify(m) == if m in CONDITIONAL_MOVES then CondMove(m[4..]) else Unknown
  {
  }

  lemma {:induction false} ConditionalName(m: string)
    requires m in CONDITIONAL_MOVES
    ensures |m| >= 4 && Classify(m) == CondMove(m[4..])
  {
    hide Classify;
    ConditionalShape(m);
    NotEarlier(m);
  }

  /** A conditional move moves exactly when the flags satisfy its condition. */
  lemma {:induction false} ConditionalMoveExecuted(row: Instruction, ops: seq<Operand>, api: Option<Word>, st: State)
    requires Text.Lower(row.mnemonic) in CONDITIONAL_MOVES && |ops| >= 2 && IsPlace(ops[0])
    ensures
      var (after, outcome) := EmulateInstruction(row, ops, api, st);
      && outcome == Supported && |Text.Lower(row.mnemonic)| >= 4
      && if ConditionalHolds(Text.Lower(row.mnemonic)[4..], st.flags) then Copies(st, after, ops[0], ops[1])
         else after == st
  {
    hide Text.Lower, Classify, MoveTo, Copies, ConditionalHolds;
    ConditionalName(Text.Lower(row.mnemonic));
    MoveToMoves(row.address, ops, st);
  }

  /** `set<cc>` leaves one or zero, as the flags satisfy its condition or not. */
  lemma {:induction false} SetExecuted(row: Instruction, ops: seq<Operand>, api: Option<Word>, st: State)
    requires "set" <= Text.Lower(row.mnemonic) && |ops| == 1 && ops[0].Reg?
    ensures
      var (after, outcome) := EmulateInstruction(row, ops, api, st);
      && outcome == Supported
      && Stores(st, after, ops[0], if ConditionalHolds(Text.Lower(row.mnemonic)[3..], st.flags) then 1 else 0)
  {
    hide Text.Lower, ConditionalHolds;
    var m := Text.Lower(row.mnemonic);
    SetName(m);
    hide Classify;
  }

  lemma {:induction false} SetName(m: string)
    requires "set" <= m
    ensures Classify(m) == SetCc(m[3..])
  {
    assert m[0] == 's' && m[1] == 'e' && m[2] == 't';
  }
}
