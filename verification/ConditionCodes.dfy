/**
 * The flags set by `cmp` and `test`, the condition codes that read them, and the
 * C conditions that the decompiler prints for the same codes.
 */
module ConditionCodes {
  import opened Words

  datatype Flags = Flags(zf: bool, sf: bool, cf: bool, of: bool)

  function CompareFlags(l: Word, r: Word): Flags {
    var diff := WrapSub(l, r);
    Flags(diff == 0, Negative(diff), l < r, Negative(And(Xor(l, r), Xor(l, diff))))
  }

  function TestFlags(l: Word, r: Word): Flags {
    var diff := And(l, r);
    Flags(diff == 0, Negative(diff), false, false)
  }

  /** The distinct tests behind the suffix spellings. */
  datatype Code = E | NE | S | NS | B | AE | BE | A | L | GE | LE | G | O | NO | Other

  /** The emulator's table of suffixes. */
  function EmulatorCode(suffix: string): Code {
    if suffix == "z" || suffix == "e" then E
    else if suffix == "nz" || suffix == "ne" then NE
    else if suffix == "s" then S
    else if suffix == "ns" then NS
    else if suffix == "c" || suffix == "b" || suffix == "nae" then B
    else if suffix == "nc" || suffix == "ae" || suffix == "nb" then AE
    else if suffix == "be" || suffix == "na" then BE
    else if suffix == "a" || suffix == "nbe" then A
    else if suffix == "l" || suffix == "nge" then L
    else if suffix == "ge" || suffix == "nl" then GE
    else if suffix == "le" || suffix == "ng" then LE
    else if suffix == "g" || suffix == "nle" then G
    else if suffix == "o" then O
    else if suffix == "no" then NO
    else Other
  }

  predicate CodeHolds(code: Code, f: Flags) {
    match code
    case E => f.zf
    case NE => !f.zf
    case S => f.sf
    case NS => !f.sf
    case B => f.cf
    case AE => !f.cf
    case BE => f.cf || f.zf
    case A => !f.cf && !f.zf
    case L => f.sf != f.of
    case GE => f.sf == f.of
    case LE => f.zf || f.sf != f.of
    case G => !f.zf && f.sf == f.of
    case O => f.of
    case NO => !f.of
    case Other => false
  }

  predicate ConditionalHolds(suffix: string, f: Flags) {
    CodeHolds(EmulatorCode(suffix), f)
  }

  // -------------------------------------------------- the printed conditions

  datatype Relation = Eq | Ne | Lt | Le | Gt | Ge

  /** The operand texts a printed condition can mention. */
  datatype Atom = LeftOperand | RightOperand | Zero

  datatype Condition =
    | Compare(signed: bool, left: Atom, rel: Relation, right: Atom)
    | Literal(value: bool)

  /** The decompiler's own table of suffixes; the parity codes and unknown ones print a constant 0. */
  function PrintedCode(suffix: string): Code {
    if suffix == "e" || suffix == "z" then E
    else if suffix == "ne" || suffix == "nz" then NE
    else if suffix == "g" || suffix == "nle" then G
    else if suffix == "ge" || suffix == "nl" then GE
    else if suffix == "l" || suffix == "nge" then L
    else if suffix == "le" || suffix == "ng" then LE
    else if suffix == "a" || suffix == "nbe" then A
    else if suffix == "ae" || suffix == "nb" || suffix == "nc" then AE
    else if suffix == "b" || suffix == "nae" || suffix == "c" then B
    else if suffix == "be" || suffix == "na" then BE
    else if suffix == "s" then S
    else if suffix == "ns" then NS
    else if suffix == "o" then O
    else if suffix == "no" then NO
    else Other
  }

  function PrintCode(code: Code, l: Atom, r: Atom): Condition {
    match code
    case E => Compare(false, l, Eq, r)
    case NE => Compare(false, l, Ne, r)
    case G => Compare(true, l, Gt, r)
    case GE => Compare(true, l, Ge, r)
    case L => Compare(true, l, Lt, r)
    case LE => Compare(true, l, Le, r)
    case A => Compare(false, l, Gt, r)
    case AE => Compare(false, l, Ge, r)
    case B => Compare(false, l, Lt, r)
    case BE => Compare(false, l, Le, r)
    case S => Compare(true, l, Lt, Zero)
    case NS => Compare(true, l, Ge, Zero)
    case O => Literal(false)
    case NO => Literal(true)
    case Other => Literal(false)
  }

  function ConditionFromCc(suffix: string, operands: (Atom, Atom)): Condition {
    PrintCode(PrintedCode(suffix), operands.0, operands.1)
  }

  /** The operands remembered for the next condition: `test x, x` is remembered as a comparison with 0. */
  function RememberedOperands(mnemonic: string, sameOperand: bool): (Atom, Atom) {
    if mnemonic == "test" && sameOperand then (LeftOperand, Zero) else (LeftOperand, RightOperand)
  }

  function ValueOf(x: Atom, a: Word, b: Word): Word {
    match x
    case LeftOperand => a
    case RightOperand => b
    case Zero => 0
  }

  predicate Related(rel: Relation, x: int, y: int) {
    match rel
    case Eq => x == y
    case Ne => x != y
    case Lt => x < y
    case Le => x <= y
    case Gt => x > y
    case Ge => x >= y
  }

  /** The C truth value of a printed condition when the operands hold `a` and `b`. */
  predicate Holds(c: Condition, a: Word, b: Word) {
    match c
    case Literal(v) => v
    case Compare(signed, l, rel, r) =>
      if signed then Related(rel, Signed(ValueOf(l, a, b)), Signed(ValueOf(r, a, b)))
      else Related(rel, ValueOf(l, a, b), ValueOf(r, a, b))
  }

  // ------------------------------------------------------------- correctness

  /** The signed difference does not fit in 64 bits. */
  predicate Overflows(a: Word, b: Word) {
    !(-SIGN_BIT <= Signed(a) - Signed(b) < SIGN_BIT)
  }

  /** What the four flags say after `cmp a, b`. */
  lemma {:induction false} CompareFlagsMeaning(a: Word, b: Word)
    ensures CompareFlags(a, b).zf <==> a == b
    ensures CompareFlags(a, b).cf <==> a < b
    ensures CompareFlags(a, b).of <==> Overflows(a, b)
    ensures CompareFlags(a, b).sf != CompareFlags(a, b).of <==> Signed(a) < Signed(b)
  {
  }

  /** Every relational condition code is the comparison it names. */
  lemma {:induction false} RelationalCodes(a: Word, b: Word)
    ensures CodeHolds(E, CompareFlags(a, b)) <==> a == b
    ensures CodeHolds(NE, CompareFlags(a, b)) <==> a != b
    ensures CodeHolds(B, CompareFlags(a, b)) <==> a < b
    ensures CodeHolds(AE, CompareFlags(a, b)) <==> a >= b
    ensures CodeHolds(BE, CompareFlags(a, b)) <==> a <= b
    ensures CodeHolds(A, CompareFlags(a, b)) <==> a > b
    ensures CodeHolds(L, CompareFlags(a, b)) <==> Signed(a) < Signed(b)
    ensures CodeHolds(GE, CompareFlags(a, b)) <==> Signed(a) >= Signed(b)
    ensures CodeHolds(LE, CompareFlags(a, b)) <==> Signed(a) <= Signed(b)
    ensures CodeHolds(G, CompareFlags(a, b)) <==> Signed(a) > Signed(b)
  {
    CompareFlagsMeaning(a, b);
  }

  /** The two suffix tables group the same spellings. */
  lemma {:induction false} TablesAgree(suffix: string)
    ensures EmulatorCode(suffix) == PrintedCode(suffix)
  {
  }

  /**
   * When the condition printed after `cmp a, b` is right: always for the relational codes; for the sign
   * codes, which print the left operand's sign, when the difference fits and the left operand is negative
   * exactly if it is the smaller one; for the overflow codes, printed as constants, when the difference fits.
   */
  predicate CompareAgreement(code: Code, a: Word, b: Word) {
    match code
    case S | NS => !Overflows(a, b) && (Negative(a) <==> Signed(a) < Signed(b))
    case O | NO => !Overflows(a, b)
    case _ => true
  }

  /** After `cmp a, b` the printed condition and the emulated one agree exactly then. */
  lemma {:induction false} PrintedCompareAgrees(suffix: string, same: bool, a: Word, b: Word)
    ensures (Holds(ConditionFromCc(suffix, RememberedOperands("cmp", same)), a, b)
        == ConditionalHolds(suffix, CompareFlags(a, b)))
      <==> CompareAgreement(PrintedCode(suffix), a, b)
  {
    hide Holds, CodeHolds, PrintCode, CompareFlags, CompareAgreement;
    TablesAgree(suffix);
    CodeAgrees(PrintedCode(suffix), a, b);
  }

  lemma {:induction false} CodeAgrees(code: Code, a: Word, b: Word)
    ensures (Holds(PrintCode(code, LeftOperand, RightOperand), a, b) == CodeHolds(code, CompareFlags(a, b)))
      <==> CompareAgreement(code, a, b)
  {
    hide CompareFlags;
    RelationalCodes(a, b);
    CompareFlagsMeaning(a, b);
    OverflowSigns(a, b);
  }

  /** A difference that does not fit has operands of different signs. */
  lemma {:induction false} OverflowSigns(a: Word, b: Word)
    ensures Overflows(a, b) ==> Negative(a) != Negative(b) && (Negative(a) <==> Signed(a) < Signed(b))
  {
  }

  /** Two comparisons that print wrongly: 1 with 2 for the sign, the least number with 1 for overflow. */
  lemma {:induction false} CompareExamples()
    ensures !Holds(ConditionFromCc("s", RememberedOperands("cmp", false)), 1, 2)
        && ConditionalHolds("s", CompareFlags(1, 2))
    ensures !Holds(ConditionFromCc("o", RememberedOperands("cmp", false)), SIGN_BIT, 1)
    ensures ConditionalHolds("o", CompareFlags(SIGN_BIT, 1))
  {
    hide EmulatorCode, PrintedCode, CompareFlags;
    SuffixCodes();
    CompareFlagsMeaning(1, 2);
    CompareFlagsMeaning(SIGN_BIT, 1);
  }

  lemma {:induction false} SuffixCodes()
    ensures EmulatorCode("s") == PrintedCode("s") == S && EmulatorCode("o") == PrintedCode("o") == O
    ensures EmulatorCode("e") == PrintedCode("e") == E
  {
  }

  /**
   * When the condition printed after `test a, b` with different operands is right: it compares the
   * operands, while the flags are those of their conjunction.
   */
  predicate TestAgreement(code: Code, a: Word, b: Word) {
    match code
    case E | NE => (a == 0 && b == 0) || (a != b && And(a, b) != 0)
    case B | AE => b <= a
    case BE | A => if a <= b then And(a, b) == 0 else And(a, b) != 0
    case L | GE => if Negative(a) && Negative(b) then a < b else Signed(b) <= Signed(a)
    case LE | G =>
      if And(a, b) == 0 || (Negative(a) && Negative(b)) then Signed(a) <= Signed(b) else Signed(b) < Signed(a)
    case S | NS => Negative(a) ==> Negative(b)
    case _ => true
  }

  lemma {:induction false} PrintedTestOfTwoAgrees(suffix: string, a: Word, b: Word)
    ensures (Holds(ConditionFromCc(suffix, RememberedOperands("test", false)), a, b)
        == ConditionalHolds(suffix, TestFlags(a, b)))
      <==> TestAgreement(PrintedCode(suffix), a, b)
  {
    hide Holds, CodeHolds, PrintCode, TestFlags, TestAgreement;
    TablesAgree(suffix);
    TestCodeAgrees(PrintedCode(suffix), a, b);
  }

  lemma {:induction false} TestCodeAgrees(code: Code, a: Word, b: Word)
    ensures (Holds(PrintCode(code, LeftOperand, RightOperand), a, b) == CodeHolds(code, TestFlags(a, b)))
      <==> TestAgreement(code, a, b)
  {
    AndIsSelf(a);
    hide And;
    var f := TestFlags(a, b);
    assert f.zf == (And(a, b) == 0) && f.sf == (Negative(a) && Negative(b)) && !f.cf && !f.of;
  }

  lemma {:induction false} AndIsSelf(a: Word)
    ensures And(a, a) == a
  {
    AndSelf(a);
  }

  /** `test 1, 2` sets the zero flag, but the operands are not equal. */
  lemma {:induction false} TestExample()
    ensures !Holds(ConditionFromCc("e", RememberedOperands("test", false)), 1, 2)
        && ConditionalHolds("e", TestFlags(1, 2))
  {
    hide EmulatorCode, PrintedCode;
    SuffixCodes();
    assert BitAnd(1, 2) == 2 * BitAnd(0, 1) == 0;
  }

  /** After `test a, a` the two agree on every suffix. */
  lemma {:induction false} PrintedTestAgrees(suffix: string, a: Word)
    ensures Holds(ConditionFromCc(suffix, RememberedOperands("test", true)), a, a)
        == ConditionalHolds(suffix, TestFlags(a, a))
  {
    TablesAgree(suffix);
    AndSelf(a);
    assert TestFlags(a, a) == Flags(a == 0, Negative(a), false, false);
    var code := PrintedCode(suffix);
    assert Holds(PrintCode(code, LeftOperand, Zero), a, a) == CodeHolds(code, TestFlags(a, a));
  }
}
