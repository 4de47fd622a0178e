/** The emulator's instruction semantics over parsed operands, and its agreement with the decompiler. */
module NativeSemantics {
  import opened Common
  import opened Records
  import opened Words
  import opened ConditionCodes
  import opened NativeEmulator
  import Text

  /** Operand texts after normalisation: bracketed ones are stack slots or other memory. */
  datatype Operand =
    | Reg(name: string)
    | Imm(value: Word)
    | Slot(offset: int)
    | Memory(effective: Option<Word>, stackOrImage: bool)
    | OtherText

  datatype State = State(
    registers: map<string, Word>,
    stack: map<int, Word>,
    lastCompare: Option<(Operand, Operand, Option<Word>, Option<Word>)>,
    flags: Flags,
    oobWrites: seq<nat>)

  function Lookup<K, V>(m: map<K, V>, k: K): Option<V> {
    if k in m then Some(m[k]) else None
  }

  function OperandValue(op: Operand, st: State): Option<Word> {
    match op
    case Imm(v) => Some(v)
    case Reg(r) => Lookup(st.registers, r)
    case Slot(i) => Lookup(st.stack, i)
    case _ => None
  }

  function OrZero(v: Option<Word>): Word {
    match v case Some(w) => w case None => 0
  }

  datatype Class =
    | Move | Lea | Binary | Unary | Comparison | Call | NoEffect
    | CondMove(moveSuffix: string) | SetCc(setSuffix: string) | JumpLike | Unknown

  function Classify(m: string): Class {
    if "j" <= m then JumpLike
    else if m == "cmp" || m == "test" then Comparison
    else if m in ["mov", "movzx", "movsx", "movsxd"] then Move
    else if m == "lea" then Lea
    else if m in ["xor", "add", "sub", "and", "or", "shl", "shr", "sar", "sal", "rol", "ror"] then Binary
    else if m in ["inc", "dec", "neg", "not", "bswap"] then Unary
    else if m == "call" then Call
    else if m in ["ret", "nop", "push", "pop", "leave", "endbr64", "endbr32", "cdq", "cqo"] then NoEffect
    else if m in ["cmovz", "cmove", "cmovnz", "cmovne", "cmovg", "cmovl", "cmovge", "cmovle",
                  "cmova", "cmovae", "cmovb", "cmovbe", "cmovs", "cmovns"]
         then CondMove(if |m| >= 4 then m[4..] else "")
    else if "set" <= m then SetCc(m[3..])
    else Unknown
  }

  function ShiftLeft(x: Word, k: nat): Word { (x * Pow2(k)) % MODULUS }

  function ShiftRight(x: Word, k: nat): Word { (x / Pow2(k)) % MODULUS }

  function RotateLeft(x: Word, k: nat): Word
    requires k < 64
  {
    WrapAdd(ShiftLeft(x, k), if k == 0 then 0 else ShiftRight(x, 64 - k))
  }

  function SwapBytes(x: nat, n: nat): nat {
    if n == 0 then 0 else (x % 256) * Pow2(8 * (n - 1)) + SwapBytes(x / 256, n - 1)
  }

  function BinaryValue(m: string, same: bool, l: Word, r: Word): Word {
    if m == "xor" then (if same then 0 else Xor(l, r))
    else if m == "and" then And(l, r)
    else if m == "or" then Or(l, r)
    else if m == "add" then WrapAdd(l, r)
    else if m == "sub" then WrapSub(l, r)
    else if m == "shl" || m == "sal" then ShiftLeft(l, r % 64)
    else if m == "shr" then ShiftRight(l, r % 64)
    else if m == "sar" then (Signed(l) / Pow2(r % 64)) % MODULUS
    else if m == "rol" then RotateLeft(l, r % 64)
    else if m == "ror" then RotateLeft(l, (64 - r % 64) % 64)
    else l
  }

  function UnaryValue(m: string, x: Word): Word {
    if m == "inc" then WrapAdd(x, 1)
    else if m == "dec" then WrapSub(x, 1)
    else if m == "neg" then WrapAdd(MODULUS - 1 - x, 1)
    else if m == "not" then MODULUS - 1 - x
    else if m == "bswap" then SwapBytes(x, 8) % MODULUS
    else x
  }

  function MoveTo(address: nat, ops: seq<Operand>, st: State): (State, Outcome) {
    if |ops| < 2 then (st, Unsupported)
    else
      var value := OperandValue(ops[1], st);
      match ops[0]
      case Slot(i) => (if value.Some? then st.(stack := st.stack[i := value.value]) else st, Supported)
      case Memory(_, known) => (if known then st else st.(oobWrites := st.oobWrites + [address]), Supported)
      case Reg(r) => (if value.Some? then st.(registers := st.registers[r := value.value]) else st, Supported)
      case _ => (st, Unsupported)
  }

  function LoadAddress(ops: seq<Operand>, st: State): (State, Outcome) {
    if |ops| < 2 || !ops[0].Reg? then (st, Unsupported)
    else if ops[1].Memory? && ops[1].effective.Some? then
      (st.(registers := st.registers[ops[0].name := ops[1].effective.value]), Supported)
    else (st, Supported)
  }

  function WriteResult(st: State, r: string, v: Word): (State, Outcome) {
    (st.(registers := st.registers[r := v], flags := st.flags.(zf := v == 0, sf := Negative(v))), Supported)
  }

  function CompareOperands(m: string, ops: seq<Operand>, st: State): (State, Outcome) {
    if |ops| < 2 then (st, Unsupported)
    else
      var l, r := OperandValue(ops[0], st), OperandValue(ops[1], st);
      var st' := st.(lastCompare := Some((ops[0], ops[1], l, r)));
      if l.None? || r.None? then (st', Supported)
      else (st'.(flags := if m == "cmp" then CompareFlags(l.value, r.value) else TestFlags(l.value, r.value)),
          Supported)
  }

  /**
   * Without a recorded comparison the operands of the predicate are the text "unknown", which has
   * no value, so only `jmp` is taken.
   */
  predicate BranchTaken(m: string, st: State)
    requires "j" <= m
  {
    m == "jmp" || (st.lastCompare.Some? && ConditionalHolds(m[1..], st.flags))
  }

  /** `api` is the modelled return value of a call, absent when the call text is empty. */
  function EmulateInstruction(row: Instruction, ops: seq<Operand>, api: Option<Word>, st: State): (State, Outcome) {
    var m := Text.Lower(row.mnemonic);
    match Classify(m)
    case Move => MoveTo(row.address, ops, st)
    case Lea => LoadAddress(ops, st)
    case Binary =>
      if |ops| < 2 || !ops[0].Reg? then (st, Unsupported)
      else
        var l, r := OrZero(Lookup(st.registers, ops[0].name)), OrZero(OperandValue(ops[1], st));
        WriteResult(st, ops[0].name, BinaryValue(m, ops[0] == ops[1], l, r))
    case Unary =>
      if |ops| < 1 || !ops[0].Reg? then (st, Unsupported)
      else WriteResult(st, ops[0].name, UnaryValue(m, OrZero(Lookup(st.registers, ops[0].name))))
    case Comparison => CompareOperands(m, ops, st)
    case Call =>
      (match api
       case Some(v) => st.(registers := st.registers["rax" := v]["eax" := v % 0x1_0000_0000])
       case None => st,
       ApiStub)
    case NoEffect => (st, Supported)
    case CondMove(cc) => if ConditionalHolds(cc, st.flags) then MoveTo(row.address, ops, st) else (st, Supported)
    case SetCc(cc) =>
      if |ops| != 1 then (st, Unsupported)
      else if ops[0].Reg? then
        (st.(registers := st.registers[ops[0].name := if ConditionalHolds(cc, st.flags) then 1 else 0]), Supported)
      else (st, Supported)
    case JumpLike => if row.branchTarget.Some? then (st, Jump(BranchTaken(m, st))) else (st, Unsupported)
    case Unknown => (st, Unsupported)
  }

  /** The semantics as the control loop consumes it, for any operand parser and any model of calls. */
  function Semantics(parse: Instruction -> seq<Operand>, api: Instruction -> Option<Word>):
      (Instruction, State) -> (State, Outcome)
  {
    (row, st) => EmulateInstruction(row, parse(row), api(row), st)
  }

  lemma {:induction false} SemanticsJumpsAreDirect(p: Program, parse: Instruction -> seq<Operand>,
                                                   api: Instruction -> Option<Word>)
    ensures JumpsAreDirect(p, Semantics(parse, api))
  {
    hide ConditionalHolds;
  }

  /** The emulator as shipped halts within N * (2B + 1) steps whatever its budget. */
  lemma {:induction false} EmulatorHalts(p: Program, parse: Instruction -> seq<Operand>,
                                         api: Instruction -> Option<Word>, st: State, budget: nat)
    requires p.rows != [] && p.Valid()
    ensures |Run(p, Semantics(parse, api), st, budget).path| <= StepBound(p)
    ensures budget >= StepBound(p) ==> !Running(p, Run(p, Semantics(parse, api), st, budget))
  {
    SemanticsJumpsAreDirect(p, parse, api);
    RunBounded(p, Semantics(parse, api), st, budget);
    if budget >= StepBound(p) {
      HaltsWithoutBudget(p, Semantics(parse, api), st, budget);
    }
  }

  ghost predicate IsCompare(row: Instruction, m: string, ops: seq<Operand>, st: State, a: Word, b: Word) {
    && Text.Lower(row.mnemonic) == m && |ops| >= 2
    && OperandValue(ops[0], st) == Some(a) && OperandValue(ops[1], st) == Some(b)
  }

  /** A conditional jump after a comparison of known values is decided by the flags. */
  lemma {:induction false} JumpIsDecided(jcc: Instruction, jops: seq<Operand>, st: State)
    requires "j" <= Text.Lower(jcc.mnemonic) && Text.Lower(jcc.mnemonic) != "jmp" && jcc.branchTarget.Some?
    requires st.lastCompare.Some?
    ensures EmulateInstruction(jcc, jops, None, st).1 == Jump(ConditionalHolds(Text.Lower(jcc.mnemonic)[1..], st.flags))
  {
    hide ConditionalHolds, Text.Lower;
    assert Classify(Text.Lower(jcc.mnemonic)) == JumpLike;
  }

  lemma {:induction false} CompareSetsFlags(row: Instruction, m: string, ops: seq<Operand>, st: State, a: Word, b: Word)
    requires IsCompare(row, m, ops, st, a, b) && (m == "cmp" || m == "test")
    ensures
      var after := EmulateInstruction(row, ops, None, st).0;
      after.lastCompare.Some? && after.flags == if m == "cmp" then CompareFlags(a, b) else TestFlags(a, b)
  {
    hide CompareFlags, TestFlags, Text.Lower, OperandValue;
    assert Classify(m) == Comparison by { ComparisonNames(); }
  }

  lemma {:induction false} ComparisonNames()
    ensures Classify("cmp") == Comparison && Classify("test") == Comparison
  {
    assert "cmp"[0] == 'c' && "test"[0] == 't';
  }

  /**
   * Two implementations, one decision: after `cmp a, b` the emulator takes a conditional jump as the
   * condition printed by the decompiler for that jump says, exactly when the two agree on the operands.
   */
  lemma {:induction false} JumpMatchesPrintedCompare(
    cmp: Instruction, ops: seq<Operand>, jcc: Instruction, jops: seq<Operand>, st: State, a: Word, b: Word, same: bool)
    requires IsCompare(cmp, "cmp", ops, st, a, b)
    requires "j" <= Text.Lower(jcc.mnemonic) && Text.Lower(jcc.mnemonic) != "jmp" && jcc.branchTarget.Some?
    ensures
      var suffix := Text.Lower(jcc.mnemonic)[1..];
      EmulateInstruction(jcc, jops, None, EmulateInstruction(cmp, ops, None, st).0).1
      == Jump(Holds(ConditionFromCc(suffix, RememberedOperands("cmp", same)), a, b))
      <==> CompareAgreement(PrintedCode(suffix), a, b)
  {
    hide ConditionalHolds, Holds, ConditionFromCc, CompareFlags, EmulateInstruction, CompareAgreement, IsCompare,
        Text.Lower;
    var suffix, after := Text.Lower(jcc.mnemonic)[1..], EmulateInstruction(cmp, ops, None, st).0;
    CompareSetsFlags(cmp, "cmp", ops, st, a, b);
    JumpIsDecided(jcc, jops, after);
    PrintedCompareAgrees(suffix, same, a, b);
  }

  /** The same for `test a, a`, where they always agree. */
  lemma {:induction false} JumpMatchesPrintedTest(
    test: Instruction, ops: seq<Operand>, jcc: Instruction, jops: seq<Operand>, st: State, a: Word)
    requires IsCompare(test, "test", ops, st, a, a)
    requires "j" <= Text.Lower(jcc.mnemonic) && Text.Lower(jcc.mnemonic) != "jmp" && jcc.branchTarget.Some?
    ensures EmulateInstruction(jcc, jops, None, EmulateInstruction(test, ops, None, st).0).1
      == Jump(Holds(ConditionFromCc(Text.Lower(jcc.mnemonic)[1..], RememberedOperands("test", true)), a, a))
  {
    hide ConditionalHolds, Holds, ConditionFromCc, TestFlags, EmulateInstruction, IsCompare, Text.Lower;
    var after := EmulateInstruction(test, ops, None, st).0;
    CompareSetsFlags(test, "test", ops, st, a, a);
    JumpIsDecided(jcc, jops, after);
    PrintedTestAgrees(Text.Lower(jcc.mnemonic)[1..], a);
  }

  /** And for `test a, b` with different operands, exactly when the two agree on them. */
  lemma {:induction false} JumpMatchesPrintedTestOfTwo(
    test: Instruction, ops: seq<Operand>, jcc: Instruction, jops: seq<Operand>, st: State, a: Word, b: Word)
    requires IsCompare(test, "test", ops, st, a, b)
    requires "j" <= Text.Lower(jcc.mnemonic) && Text.Lower(jcc.mnemonic) != "jmp" && jcc.branchTarget.Some?
    ensures
      var suffix := Text.Lower(jcc.mnemonic)[1..];
      EmulateInstruction(jcc, jops, None, EmulateInstruction(test, ops, None, st).0).1
      == Jump(Holds(ConditionFromCc(suffix, RememberedOperands("test", false)), a, b))
      <==> TestAgreement(PrintedCode(suffix), a, b)
  {
    hide ConditionalHolds, Holds, ConditionFromCc, TestFlags, EmulateInstruction, TestAgreement, IsCompare, Text.Lower;
    var suffix, after := Text.Lower(jcc.mnemonic)[1..], EmulateInstruction(test, ops, None, st).0;
    CompareSetsFlags(test, "test", ops, st, a, b);
    JumpIsDecided(jcc, jops, after);
    PrintedTestOfTwoAgrees(suffix, a, b);
  }
}
