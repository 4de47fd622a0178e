/** SSA value construction for one function slice, under a cap on the number of values. */
module Ssa {
  import opened Common
  import opened Records
  import Text

  // ------------------------------------------------------------------ records

  datatype IrInstruction = IrInstruction(
    address: nat,
    mnemonic: string,
    writeReg: Option<string>,
    readRegs: seq<string>,
    stackSlot: Option<string>,    // the printed slot name, such as stack[+8]
    memoryRead: bool,
    memoryWrite: bool,
    constant: Option<nat>)

  datatype Origin = Phi | Op(mnemonic: string)

  /** The fields printed into an identifier; the index is the value's position in the output. */
  datatype Id = Id(function_: nat, storage: string, version: nat, index: nat)

  datatype Def = Def(id: Id, siteVa: nat, storage: string)

  datatype Value = Value(
    id: Id, block: Option<nat>, siteVa: nat, storage: string, version: nat,
    origin: Origin, constant: Option<nat>, evidence: set<nat>)

  datatype FlowKind = PhiFlow | MemoryStore | UseDef

  datatype Flow = Flow(ordinal: nat, from: Id, to: Id, fromVa: nat, toVa: nat, fromStorage: string, toStorage: string,
                       kind: FlowKind)

  /** The loop's mutable variables. */
  datatype Builder = Builder(
    values: seq<Value>,
    edges: seq<Flow>,
    versions: map<string, nat>,
    current: map<string, Def>,
    outDefs: map<nat, map<string, Def>>,
    joined: set<nat>)

  const EMPTY: Builder := Builder([], [], map[], map[], map[], {})

  // ------------------------------------------------------- reads, writes, joins

  const MEM: string := "mem"
  const FLAGS: seq<string> := ["zf", "sf", "of", "cf"]

  function ReadStorages(ins: IrInstruction): seq<string> {
    Text.Ordered((set r | r in ins.readRegs)
                 + (if ins.memoryRead && ins.stackSlot.Some? then {ins.stackSlot.value} else {}))
  }

  function WriteStorages(ins: IrInstruction): seq<(string, Origin)> {
    (if ins.writeReg.Some? then [(ins.writeReg.value, Op(ins.mnemonic))] else [])
    + (if ins.memoryWrite && ins.stackSlot.Some? then [(ins.stackSlot.value, Op(ins.mnemonic))] else [])
    + (if ins.memoryWrite then [(MEM, Op("store"))] else [])
    + (if ins.mnemonic in ["cmp", "test", "sub", "add", "and", "or", "xor"]
       then seq(4, i requires 0 <= i < 4 => (FLAGS[i], Op(ins.mnemonic)))
       else [])
  }

  /** The live definitions an instruction reads, in storage order, memory last. */
  function Inputs(current: map<string, Def>, storages: seq<string>): seq<Def> {
    if storages == [] then []
    else (if storages[0] in current then [current[storages[0]]] else []) + Inputs(current, storages[1..])
  }

  function InputDefs(b: Builder, ins: IrInstruction): seq<Def> {
    Inputs(b.current, ReadStorages(ins)) + (if ins.memoryRead then Inputs(b.current, [MEM]) else [])
  }

  function BlockOf(cfg: Option<Cfg>, address: nat): Option<nat> {
    match cfg case None => None case Some(c) => FindBlock(c.blocks, address)
  }

  function SourceBlocks(blocks: seq<Block>, edges: seq<Edge>, to: nat): set<nat> {
    if edges == [] then {}
    else
      var e := edges[|edges| - 1];
      var rest := SourceBlocks(blocks, edges[..|edges| - 1], to);
      if e.to == to && FindBlock(blocks, e.from).Some? then rest + {FindBlock(blocks, e.from).value} else rest
  }

  /** Join points: edge targets entered from at least two blocks, with those blocks in order. */
  function Predecessors(cfg: Option<Cfg>, block: nat): Option<seq<nat>> {
    match cfg
    case None => None
    case Some(c) =>
      var sources := SourceBlocks(c.blocks, c.edges, block);
      if |sources| > 1 then Some(Sorted(sources)) else None
  }

  // ----------------------------------------------------------- one emitted value

  function Version(b: Builder, storage: string): nat {
    if storage in b.versions then b.versions[storage] else 0
  }

  function NewFlows(inputs: seq<Def>, v: Value, kind: FlowKind, base: nat): seq<Flow> {
    seq(|inputs|, i requires 0 <= i < |inputs| =>
      Flow(base + i, inputs[i].id, v.id, inputs[i].siteVa, v.siteVa, inputs[i].storage, v.storage, kind))
  }

  /** Bump the version, record the value and its incoming edges, and make it the live definition. */
  function Emit(b: Builder, f: nat, block: Option<nat>, site: nat, storage: string, origin: Origin,
                constant: Option<nat>, inputs: seq<Def>): Builder {
    var version := Version(b, storage) + 1;
    var id := Id(f, storage, version, |b.values|);
    var v := Value(id, block, site, storage, version, origin, constant,
        (set i | 0 <= i < |inputs| :: inputs[i].siteVa) + {site});
    var kind := if origin.Phi? then PhiFlow else if storage == MEM then MemoryStore else UseDef;
    b.(values := b.values + [v],
       edges := b.edges + NewFlows(inputs, v, kind, |b.edges|),
       versions := b.versions[storage := version],
       current := b.current[storage := Def(id, site, storage)])
  }

  // ------------------------------------------------------------------ join phis

  function Incoming(outDefs: map<nat, map<string, Def>>, preds: seq<nat>, storage: string): seq<Def> {
    if preds == [] then []
    else
      (if preds[0] in outDefs && storage in outDefs[preds[0]] then [outDefs[preds[0]][storage]] else [])
      + Incoming(outDefs, preds[1..], storage)
  }

  predicate NeedsPhi(incoming: seq<Def>) {
    |incoming| >= 2 && |set i | 0 <= i < |incoming| :: incoming[i].id| >= 2
  }

  function PhiFor(b: Builder, f: nat, block: nat, preds: seq<nat>, storage: string): Builder {
    var incoming := Incoming(b.outDefs, preds, storage);
    if NeedsPhi(incoming) then Emit(b, f, Some(block), block, storage, Phi, None, incoming) else b
  }

  function JoinStorages(b: Builder, preds: seq<nat>): set<string> {
    set p, s | p in preds && p in b.outDefs && s in b.outDefs[p] :: s
  }

  function Phis(b: Builder, f: nat, block: nat, preds: seq<nat>, storages: seq<string>, cap: nat): Builder
    decreases |storages|
  {
    if storages == [] || |b.values| >= cap then b
    else Phis(PhiFor(b, f, block, preds, storages[0]), f, block, preds, storages[1..], cap)
  }

  // --------------------------------------------------------------- instructions

  function Writes(b: Builder, f: nat, block: Option<nat>, ins: IrInstruction, inputs: seq<Def>,
                  writes: seq<(string, Origin)>, cap: nat): Builder
    decreases |writes|
  {
    if writes == [] || |b.values| >= cap then b
    else Writes(Emit(b, f, block, ins.address, writes[0].0, writes[0].1, ins.constant, inputs), f, block, ins, inputs,
        writes[1..], cap)
  }

  /** A paused or finished run: `stopped` once the loop has broken, `hit` once the cap was reported. */
  datatype Progress = Progress(b: Builder, hit: bool, stopped: bool)

  predicate OpensJoin(b: Builder, cfg: Option<Cfg>, ins: IrInstruction) {
    var block := BlockOf(cfg, ins.address);
    block.Some? && block.value !in b.joined && Predecessors(cfg, block.value).Some?
  }

  /** Entering a block for the first time marks it and, at a join, emits its phis. */
  function EnterBlock(b: Builder, f: nat, cfg: Option<Cfg>, ins: IrInstruction, cap: nat): Builder {
    var block := BlockOf(cfg, ins.address);
    if block.None? || block.value in b.joined then b
    else
      var b1 := b.(joined := b.joined + {block.value});
      match Predecessors(cfg, block.value)
      case None => b1
      case Some(preds) => Phis(b1, f, block.value, preds, Text.Ordered(JoinStorages(b1, preds)), cap)
  }

  function LeaveBlock(b: Builder, block: Option<nat>): Builder {
    if block.None? then b else b.(outDefs := b.outDefs[block.value := b.current])
  }

  function Instr(b: Builder, f: nat, cfg: Option<Cfg>, ins: IrInstruction, cap: nat): Progress {
    if |b.values| >= cap then Progress(b, true, true)
    else
      var b1 := EnterBlock(b, f, cfg, ins, cap);
      if OpensJoin(b, cfg, ins) && |b1.values| >= cap then Progress(b1, true, true)
      else
        var block := BlockOf(cfg, ins.address);
        var writes := WriteStorages(ins);
        var b2 := Writes(b1, f, block, ins, InputDefs(b1, ins), writes, cap);
        Progress(LeaveBlock(b2, block), |b2.values| < |b1.values| + |writes|, false)
  }

  /** The state after the first `n` instructions. */
  function Build(f: nat, cfg: Option<Cfg>, ir: seq<IrInstruction>, n: nat, cap: nat): Progress
    requires n <= |ir|
  {
    if n == 0 then Progress(EMPTY, false, false)
    else
      var before := Build(f, cfg, ir, n - 1, cap);
      if before.stopped then before
      else
        var after := Instr(before.b, f, cfg, ir[n - 1], cap);
        after.(hit := before.hit || after.hit)
  }

  lemma {:induction false} FullStays(b: Builder, f: nat, cfg: Option<Cfg>, ins: IrInstruction, cap: nat)
    requires |b.values| >= cap
    ensures Instr(b, f, cfg, ins, cap) == Progress(b, true, true)
  {
  }

  lemma {:induction false} StopIsHit(b: Builder, f: nat, cfg: Option<Cfg>, ins: IrInstruction, cap: nat)
    ensures Instr(b, f, cfg, ins, cap).stopped ==> Instr(b, f, cfg, ins, cap).hit
  {
  }

  lemma {:induction false} StoppedStays(f: nat, cfg: Option<Cfg>, ir: seq<IrInstruction>, m: nat, n: nat, cap: nat)
    requires m <= n <= |ir| && Build(f, cfg, ir, m, cap).stopped
    ensures Build(f, cfg, ir, n, cap) == Build(f, cfg, ir, m, cap)
  {
    hide Instr;
    if m < n { StoppedStays(f, cfg, ir, m, n - 1, cap); }
  }
}
