/**
 * What an SSA build consists of, stated over its values and edges alone: which values each instruction and each join
 * adds, in which order, and from which earlier values each of them has an edge.
 */
module SsaTrace {
  import opened Common
  import opened Records
  import opened Ssa
  import opened SsaInvariants
  import Text

  /** The values of one instruction: the phis of the block it opens lie below `write`, its own writes above. */
  datatype Mark = Mark(enter: nat, write: nat, leave: nat)

  // ------------------------------------------------------------------ statement

  /** An edge from the value at `j` to the value at `k`. */
  ghost predicate Linked(edges: seq<Flow>, j: nat, k: nat) {
    exists i :: 0 <= i < |edges| && edges[i].from.index == j && edges[i].to.index == k
  }

  /** `j` is the last of the first `n` values that defines the storage. */
  ghost predicate LastBefore(values: seq<Value>, n: nat, storage: string, j: nat) {
    && j < n <= |values| && values[j].storage == storage
    && forall i :: j < i < n ==> values[i].storage != storage
  }

  ghost predicate Reads(ins: IrInstruction, storage: string) {
    || storage in ins.readRegs
    || (ins.memoryRead && ins.stackSlot == Some(storage))
    || (ins.memoryRead && storage == "mem")
  }

  ghost predicate SuppliesVa(edges: seq<Flow>, k: nat, a: nat) {
    exists i :: 0 <= i < |edges| && edges[i].to.index == k && edges[i].fromVa == a
  }

  /** The edges into a value carry the kind that its origin calls for, and their sources are its evidence. */
  ghost predicate Described(values: seq<Value>, edges: seq<Flow>, k: nat)
    requires k < |values|
  {
    var v := values[k];
    var kind := if v.origin == Phi then PhiFlow else if v.storage == "mem" then MemoryStore else UseDef;
    && (forall i :: 0 <= i < |edges| && edges[i].to.index == k ==> edges[i].kind == kind)
    && (forall a: nat :: a in v.evidence <==> a == v.siteVa || SuppliesVa(edges, k, a))
  }

  ghost predicate AllDescribed(values: seq<Value>, edges: seq<Flow>) {
    forall k :: 0 <= k < |values| ==> Described(values, edges, k)
  }

  ghost predicate SetsFlags(ins: IrInstruction) {
    ins.mnemonic in {"cmp", "test", "sub", "add", "and", "or", "xor"}
  }

  ghost function One(present: bool): nat { if present then 1 else 0 }

  /** An instruction writes its register, its stack slot, memory and the four flags, in this order. */
  ghost predicate Row(ins: IrInstruction, i: nat, storage: string, origin: Origin) {
    var reg := One(ins.writeReg.Some?);
    var slot := reg + One(ins.memoryWrite && ins.stackSlot.Some?);
    var mem := slot + One(ins.memoryWrite);
    if i < reg then Some(storage) == ins.writeReg && origin == Op(ins.mnemonic)
    else if i < slot then Some(storage) == ins.stackSlot && origin == Op(ins.mnemonic)
    else if i < mem then storage == "mem" && origin == Op("store")
    else
      && SetsFlags(ins) && origin == Op(ins.mnemonic)
      && (|| (i == mem && storage == "zf") || (i == mem + 1 && storage == "sf")
          || (i == mem + 2 && storage == "of") || (i == mem + 3 && storage == "cf"))
  }

  ghost function RowCount(ins: IrInstruction): nat {
    One(ins.writeReg.Some?) + One(ins.memoryWrite && ins.stackSlot.Some?) + One(ins.memoryWrite)
    + if SetsFlags(ins) then 4 else 0
  }

  /** The value at `k` is the row at `k - write`, and its edges come from the last values of what `ins` reads. */
  ghost predicate WrittenBy(cfg: Option<Cfg>, ins: IrInstruction, values: seq<Value>, edges: seq<Flow>, write: nat,
                            k: nat)
    requires write <= k < |values|
  {
    var v := values[k];
    && Row(ins, k - write, v.storage, v.origin)
    && v.block == BlockOf(cfg, ins.address) && v.siteVa == ins.address && v.constant == ins.constant
    && forall j: nat :: j < k ==>
         (Linked(edges, j, k) <==> Reads(ins, values[j].storage) && LastBefore(values, write, values[j].storage, j))
  }

  /** All rows, as far as the cap allows. */
  ghost predicate WritesOf(cfg: Option<Cfg>, ins: IrInstruction, values: seq<Value>, edges: seq<Flow>, m: Mark,
                           cap: nat)
  {
    && m.write <= m.leave <= |values| && m.leave <= cap
    && m.leave == (if m.write + RowCount(ins) <= cap then m.write + RowCount(ins) else cap)
    && forall k :: m.write <= k < m.leave ==> WrittenBy(cfg, ins, values, edges, m.write, k)
  }

  ghost predicate Visits(cfg: Option<Cfg>, ir: seq<IrInstruction>, n: nat, block: nat) {
    n < |ir| && BlockOf(cfg, ir[n].address) == Some(block)
  }

  ghost predicate Visited(cfg: Option<Cfg>, ir: seq<IrInstruction>, n: nat, block: nat) {
    exists m: nat :: m < n && Visits(cfg, ir, m, block)
  }

  ghost predicate LastVisit(cfg: Option<Cfg>, ir: seq<IrInstruction>, n: nat, block: nat, l: nat) {
    l < n && Visits(cfg, ir, l, block) && forall m: nat :: l < m < n ==> !Visits(cfg, ir, m, block)
  }

  /** Some edge of the graph leads from the block `p` to the address `block`. */
  ghost predicate Feeds(cfg: Option<Cfg>, p: nat, block: nat) {
    cfg.Some? && exists i ::
      && 0 <= i < |cfg.value.edges| && cfg.value.edges[i].to == block
      && FindBlock(cfg.value.blocks, cfg.value.edges[i].from) == Some(p)
  }

  /** The value at `j` is the storage's definition when the block was last left before instruction `n`. */
  ghost predicate OutOf(cfg: Option<Cfg>, ir: seq<IrInstruction>, values: seq<Value>, marks: seq<Mark>, n: nat,
                        p: nat, storage: string, j: nat)
  {
    exists l: nat :: LastVisit(cfg, ir, n, p, l) && l < |marks| && LastBefore(values, marks[l].leave, storage, j)
  }

  /** That definition comes to `block` over an edge. */
  ghost predicate Arrives(cfg: Option<Cfg>, ir: seq<IrInstruction>, values: seq<Value>, marks: seq<Mark>, n: nat,
                          block: nat, storage: string, j: nat)
  {
    exists p: nat :: Feeds(cfg, p, block) && OutOf(cfg, ir, values, marks, n, p, storage, j)
  }

  /** Two different definitions come to `block`. */
  ghost predicate Meets(cfg: Option<Cfg>, ir: seq<IrInstruction>, values: seq<Value>, marks: seq<Mark>, n: nat,
                        block: nat, storage: string)
  {
    exists i: nat, j: nat ::
      && i != j && Arrives(cfg, ir, values, marks, n, block, storage, i)
      && Arrives(cfg, ir, values, marks, n, block, storage, j)
  }

  ghost predicate PhiAt(cfg: Option<Cfg>, ir: seq<IrInstruction>, values: seq<Value>, edges: seq<Flow>,
                        marks: seq<Mark>, n: nat, block: nat, k: nat)
    requires k < |values|
  {
    var v := values[k];
    && v.origin == Phi && v.block == Some(block) && v.siteVa == block && v.constant == None
    && Meets(cfg, ir, values, marks, n, block, v.storage)
    && forall j: nat :: j < k ==>
         (Linked(edges, j, k) <==> Arrives(cfg, ir, values, marks, n, block, v.storage, j))
  }

  ghost predicate Below(a: string, b: string) { a != b && Text.LexLe(a, b) }

  ghost predicate HasPhi(values: seq<Value>, m: Mark, storage: string) {
    exists k :: m.enter <= k < m.write && k < |values| && values[k].storage == storage
  }

  ghost predicate CutOff(values: seq<Value>, m: Mark, cap: nat, storage: string) {
    m.write >= cap && forall k :: m.enter <= k < m.write && k < |values| ==> Below(values[k].storage, storage)
  }

  /** On entering a block for the first time: one phi per storage with two definitions, in order, under the cap. */
  ghost predicate PhisOf(cfg: Option<Cfg>, ir: seq<IrInstruction>, values: seq<Value>, edges: seq<Flow>,
                         marks: seq<Mark>, n: nat, m: Mark, cap: nat)
    requires n < |ir|
  {
    var block := BlockOf(cfg, ir[n].address);
    && m.enter <= m.write <= |values|
    && if block.None? || Visited(cfg, ir, n, block.value) then m.write == m.enter
       else
         && (forall k :: m.enter <= k < m.write ==> PhiAt(cfg, ir, values, edges, marks, n, block.value, k))
         && (forall k, l :: m.enter <= k < l < m.write ==> Below(values[k].storage, values[l].storage))
         && forall s ::
             Meets(cfg, ir, values, marks, n, block.value, s) ==> HasPhi(values, m, s) || CutOff(values, m, cap, s)
  }

  /** The block is entered for the first time and from at least two blocks. */
  ghost predicate Joins(cfg: Option<Cfg>, ir: seq<IrInstruction>, n: nat)
    requires n < |ir|
  {
    var block := BlockOf(cfg, ir[n].address);
    && block.Some? && !Visited(cfg, ir, n, block.value)
    && exists p: nat, q: nat :: p != q && Feeds(cfg, p, block.value) && Feeds(cfg, q, block.value)
  }

  /** The cap made itself felt at instruction `n`. */
  ghost predicate CappedAt(cfg: Option<Cfg>, ir: seq<IrInstruction>, marks: seq<Mark>, n: nat, cap: nat)
    requires n < |ir| && n < |marks|
  {
    || marks[n].enter >= cap
    || (Joins(cfg, ir, n) && marks[n].write >= cap)
    || marks[n].leave < marks[n].write + RowCount(ir[n])
  }

  ghost predicate TraceAt(cfg: Option<Cfg>, ir: seq<IrInstruction>, values: seq<Value>, edges: seq<Flow>,
                          marks: seq<Mark>, n: nat, cap: nat)
    requires n < |ir| && n < |marks|
  {
    && PhisOf(cfg, ir, values, edges, marks, n, marks[n], cap)
    && WritesOf(cfg, ir[n], values, edges, marks[n], cap)
  }

  ghost predicate Contiguous(marks: seq<Mark>, size: nat) {
    && (forall n, m :: 0 <= n < m < |marks| && m == n + 1 ==> marks[n].leave == marks[m].enter)
    && (if marks == [] then size == 0 else marks[0].enter == 0 && marks[|marks| - 1].leave == size)
  }

  /** The first `|marks|` instructions account for all values and edges. */
  ghost predicate IsTrace(cfg: Option<Cfg>, ir: seq<IrInstruction>, values: seq<Value>, edges: seq<Flow>,
                          marks: seq<Mark>, cap: nat)
  {
    && |marks| <= |ir| && Contiguous(marks, |values|)
    && forall n :: 0 <= n < |marks| ==> TraceAt(cfg, ir, values, edges, marks, n, cap)
  }

  // ------------------------------------------------------------------- growing

  /** More values, and edges only into them. */
  ghost predicate Grown(b: Builder, r: Builder) {
    && |b.values| <= |r.values| && r.values[..|b.values|] == b.values
    && |b.edges| <= |r.edges| && r.edges[..|b.edges|] == b.edges
    && forall i :: |b.edges| <= i < |r.edges| ==> r.edges[i].to.index >= |b.values|
  }

  lemma {:induction false} GrownTrans(a: Builder, b: Builder, c: Builder)
    requires Grown(a, b) && Grown(b, c)
    ensures Grown(a, c)
  {
    assert c.values[..|a.values|] == c.values[..|b.values|][..|a.values|];
    assert c.edges[..|a.edges|] == c.edges[..|b.edges|][..|a.edges|];
    forall i | |a.edges| <= i < |c.edges| ensures c.edges[i].to.index >= |a.values| {
      if i < |b.edges| { assert c.edges[i] == c.edges[..|b.edges|][i] == b.edges[i]; }
    }
  }

  lemma {:induction false} LinkedStays(b: Builder, r: Builder, j: nat, k: nat)
    requires Grown(b, r) && k < |b.values|
    ensures Linked(r.edges, j, k) <==> Linked(b.edges, j, k)
  {
    assert forall i :: 0 <= i < |b.edges| ==> r.edges[i] == r.edges[..|b.edges|][i] == b.edges[i];
  }

  lemma {:induction false} DescribedStays(b: Builder, r: Builder, k: nat)
    requires Grown(b, r) && k < |b.values| && Described(b.values, b.edges, k)
    ensures Described(r.values, r.edges, k)
  {
    assert r.values[k] == r.values[..|b.values|][k] == b.values[k];
    assert forall i :: 0 <= i < |b.edges| ==> r.edges[i] == r.edges[..|b.edges|][i] == b.edges[i];
    forall a: nat ensures SuppliesVa(r.edges, k, a) <==> SuppliesVa(b.edges, k, a) {
      if SuppliesVa(b.edges, k, a) {
        var i :| 0 <= i < |b.edges| && b.edges[i].to.index == k && b.edges[i].fromVa == a;
        assert r.edges[i] == b.edges[i];
      }
    }
  }

  // -------------------------------------------------------------- one emission

  ghost predicate HasIndex(defs: seq<Def>, j: nat) {
    exists i :: 0 <= i < |defs| && defs[i].id.index == j
  }

  ghost predicate EmittedAs(v: Value, block: Option<nat>, site: nat, storage: string, origin: Origin,
                            constant: Option<nat>)
  {
    v.block == block && v.siteVa == site && v.storage == storage && v.origin == origin && v.constant == constant
  }

  /** `more` is `edges` and one edge of the kind from each of the inputs into the value at `n`. */
  ghost predicate OneEach(edges: seq<Flow>, inputs: seq<Def>, more: seq<Flow>, n: nat, kind: FlowKind) {
    && |more| == |edges| + |inputs| && more[..|edges|] == edges
    && (forall i :: 0 <= i < |edges| ==> more[i].to.index < n)
    && forall i :: |edges| <= i < |more| ==>
         && more[i].from == inputs[i - |edges|].id && more[i].fromVa == inputs[i - |edges|].siteVa
         && more[i].to.index == n && more[i].kind == kind
  }

  lemma {:induction false} FlowsAppend(edges: seq<Flow>, inputs: seq<Def>, v: Value, kind: FlowKind, n: nat)
    requires v.id.index == n && forall i :: 0 <= i < |edges| ==> edges[i].to.index < n
    ensures OneEach(edges, inputs, edges + NewFlows(inputs, v, kind, |edges|), n, kind)
  {
    var added := NewFlows(inputs, v, kind, |edges|);
    assert (edges + added)[..|edges|] == edges;
  }

  lemma {:induction false} FlowsBelow(b: Builder)
    requires FlowsOk(b)
    ensures forall i :: 0 <= i < |b.edges| ==> b.edges[i].to.index < |b.values|
  {
    forall i | 0 <= i < |b.edges| ensures b.edges[i].to.index < |b.values| {
      assert FlowOk(b.values, b.edges[i]);
    }
  }

  ghost function KindOf(origin: Origin, storage: string): FlowKind {
    if origin.Phi? then PhiFlow else if storage == MEM then MemoryStore else UseDef
  }

  lemma {:induction false} EmitAppends(b: Builder, f: nat, block: Option<nat>, site: nat, storage: string,
                                       origin: Origin, constant: Option<nat>, inputs: seq<Def>)
    requires FlowsOk(b)
    ensures
      var r := Emit(b, f, block, site, storage, origin, constant, inputs);
      OneEach(b.edges, inputs, r.edges, |b.values|, KindOf(origin, storage)) && Grown(b, r)
  {
    hide FlowsOk, NewFlows;
    FlowsBelow(b);
    var r, n := Emit(b, f, block, site, storage, origin, constant, inputs), |b.values|;
    FlowsAppend(b.edges, inputs, r.values[n], KindOf(origin, storage), n);
  }

  lemma {:induction false} LinksAppended(edges: seq<Flow>, inputs: seq<Def>, more: seq<Flow>, n: nat, kind: FlowKind)
    requires OneEach(edges, inputs, more, n, kind)
    ensures forall j: nat :: Linked(more, j, n) <==> HasIndex(inputs, j)
  {
    forall j: nat ensures Linked(more, j, n) <==> HasIndex(inputs, j) {
      if HasIndex(inputs, j) {
        var i :| 0 <= i < |inputs| && inputs[i].id.index == j;
        assert more[|edges| + i].from.index == j && more[|edges| + i].to.index == n;
      }
      if Linked(more, j, n) {
        var i :| 0 <= i < |more| && more[i].from.index == j && more[i].to.index == n;
        assert inputs[i - |edges|].id.index == j;
      }
    }
  }

  lemma {:induction false} SitesAppended(edges: seq<Flow>, inputs: seq<Def>, more: seq<Flow>, n: nat, kind: FlowKind,
                                         a: nat)
    requires OneEach(edges, inputs, more, n, kind)
    ensures SuppliesVa(more, n, a) <==> a in set i | 0 <= i < |inputs| :: inputs[i].siteVa
  {
    if SuppliesVa(more, n, a) {
      var i :| 0 <= i < |more| && more[i].to.index == n && more[i].fromVa == a;
      assert inputs[i - |edges|].siteVa == a;
    }
    if i :| 0 <= i < |inputs| && inputs[i].siteVa == a {
      assert more[|edges| + i].to.index == n && more[|edges| + i].fromVa == a;
    }
  }

  lemma {:induction false} EmitDescribes(b: Builder, f: nat, block: Option<nat>, site: nat, storage: string,
                                         origin: Origin, constant: Option<nat>, inputs: seq<Def>)
    requires FlowsOk(b)
    ensures
      var r := Emit(b, f, block, site, storage, origin, constant, inputs);
      |r.values| == |b.values| + 1 && Described(r.values, r.edges, |b.values|)
  {
    hide FlowsOk;
    EmitAppends(b, f, block, site, storage, origin, constant, inputs);
    var r, n := Emit(b, f, block, site, storage, origin, constant, inputs), |b.values|;
    var kind := KindOf(origin, storage);
    forall a: nat ensures a in r.values[n].evidence <==> a == site || SuppliesVa(r.edges, n, a) {
      SitesAppended(b.edges, inputs, r.edges, n, kind, a);
    }
    hide NewFlows;
  }

  lemma {:induction false} EmitTrace(b: Builder, f: nat, block: Option<nat>, site: nat, storage: string,
                                     origin: Origin, constant: Option<nat>, inputs: seq<Def>)
    requires FlowsOk(b)
    ensures
      var r, n := Emit(b, f, block, site, storage, origin, constant, inputs), |b.values|;
      && Grown(b, r) && |r.values| == n + 1 && r.outDefs == b.outDefs && r.joined == b.joined
      && EmittedAs(r.values[n], block, site, storage, origin, constant)
      && (forall j: nat :: Linked(r.edges, j, n) <==> HasIndex(inputs, j))
      && Described(r.values, r.edges, n)
  {
    hide FlowsOk, Grown, Described, OneEach, Linked, HasIndex, NewFlows;
    EmitAppends(b, f, block, site, storage, origin, constant, inputs);
    EmitDescribes(b, f, block, site, storage, origin, constant, inputs);
    var r := Emit(b, f, block, site, storage, origin, constant, inputs);
    LinksAppended(b.edges, inputs, r.edges, |b.values|, KindOf(origin, storage));
  }

  // ---------------------------------------------------------------- the writes

  ghost predicate WroteAt(r: Builder, block: Option<nat>, ins: IrInstruction, inputs: seq<Def>,
                          writes: seq<(string, Origin)>, base: nat, k: nat)
  {
    && base <= k < |r.values| && k - base < |writes|
    && EmittedAs(r.values[k], block, ins.address, writes[k - base].0, writes[k - base].1, ins.constant)
    && (forall j: nat :: Linked(r.edges, j, k) <==> HasIndex(inputs, j))
    && Described(r.values, r.edges, k)
  }

  lemma {:induction false} WroteFirst(e: Builder, r: Builder, block: Option<nat>, ins: IrInstruction,
                                      inputs: seq<Def>, writes: seq<(string, Origin)>, base: nat)
    requires Grown(e, r) && |e.values| == base + 1 && WroteAt(e, block, ins, inputs, writes, base, base)
    ensures WroteAt(r, block, ins, inputs, writes, base, base)
  {
    hide Described, Linked, HasIndex;
    assert r.values[base] == r.values[..|e.values|][base] == e.values[base];
    DescribedStays(e, r, base);
    forall j: nat ensures Linked(r.edges, j, base) <==> HasIndex(inputs, j) { LinkedStays(e, r, j, base); }
  }

  lemma {:induction false} WritesTrace(b: Builder, f: nat, block: Option<nat>, ins: IrInstruction, inputs: seq<Def>,
                                       writes: seq<(string, Origin)>, cap: nat)
    requires Valid(f, b) && InputsKnown(b.values, inputs) && |b.values| <= cap
    requires forall i :: 0 <= i < |writes| ==> writes[i].1 != Phi
    ensures
      var r := Writes(b, f, block, ins, inputs, writes, cap);
      && Grown(b, r) && r.outDefs == b.outDefs && r.joined == b.joined
      && |r.values| == (if |b.values| + |writes| <= cap then |b.values| + |writes| else cap)
      && forall k :: |b.values| <= k < |r.values| ==> WroteAt(r, block, ins, inputs, writes, |b.values|, k)
    decreases |writes|
  {
    hide Emit, Valid, InputsKnown, Described, Linked, HasIndex, EmittedAs;
    if writes != [] && |b.values| < cap {
      var base, rest := |b.values|, writes[1..];
      var e := Emit(b, f, block, ins.address, writes[0].0, writes[0].1, ins.constant, inputs);
      EmitKeeps(b, f, block, ins.address, writes[0].0, writes[0].1, ins.constant, inputs);
      EmitKeepsInputs(b, f, block, ins.address, writes[0].0, writes[0].1, ins.constant, inputs);
      EmitTrace(b, f, block, ins.address, writes[0].0, writes[0].1, ins.constant, inputs) by { ValidFlows(f, b); }
      WritesTrace(e, f, block, ins, inputs, rest, cap);
      var r := Writes(b, f, block, ins, inputs, writes, cap);
      GrownTrans(b, e, r);
      WroteFirst(e, r, block, ins, inputs, writes, base);
      forall k | base < k < |r.values| ensures WroteAt(r, block, ins, inputs, writes, base, k) {
        assert WroteAt(r, block, ins, inputs, rest, base + 1, k);
        assert rest[k - base - 1] == writes[k - base];
      }
    }
  }

  lemma {:induction false} ValidFlows(f: nat, b: Builder)
    requires Valid(f, b)
    ensures FlowsOk(b)
  {
  }

  // ------------------------------------------------------------------ the phis

  ghost predicate Increasing(storages: seq<string>) {
    forall i, j :: 0 <= i < j < |storages| ==> Below(storages[i], storages[j])
  }

  ghost predicate PhiOn(r: Builder, outDefs: map<nat, map<string, Def>>, preds: seq<nat>, block: nat, k: nat)
    requires k < |r.values|
  {
    var incoming := Incoming(outDefs, preds, r.values[k].storage);
    && NeedsPhi(incoming) && EmittedAs(r.values[k], Some(block), block, r.values[k].storage, Phi, None)
    && (forall j: nat :: Linked(r.edges, j, k) <==> HasIndex(incoming, j))
    && Described(r.values, r.edges, k)
  }

  ghost predicate PhisFrom(base: nat, r: Builder, outDefs: map<nat, map<string, Def>>, preds: seq<nat>, block: nat,
                           storages: seq<string>)
  {
    && (forall k :: base <= k < |r.values| ==> r.values[k].storage in storages && PhiOn(r, outDefs, preds, block, k))
    && forall k, l :: base <= k < l < |r.values| ==> Below(r.values[k].storage, r.values[l].storage)
  }

  ghost predicate Served(base: nat, r: Builder, cap: nat, storage: string) {
    || (exists k :: base <= k < |r.values| && r.values[k].storage == storage)
    || (|r.values| >= cap && forall k :: base <= k < |r.values| ==> Below(r.values[k].storage, storage))
  }

  ghost predicate PhisComplete(base: nat, r: Builder, outDefs: map<nat, map<string, Def>>, preds: seq<nat>,
                               storages: seq<string>, cap: nat)
  {
    forall i :: 0 <= i < |storages| && NeedsPhi(Incoming(outDefs, preds, storages[i])) ==>
      Served(base, r, cap, storages[i])
  }

  lemma {:induction false} PhiStays(e: Builder, r: Builder, outDefs: map<nat, map<string, Def>>, preds: seq<nat>,
                                    block: nat, k: nat)
    requires Grown(e, r) && k < |e.values| && PhiOn(e, outDefs, preds, block, k)
    ensures k < |r.values| && PhiOn(r, outDefs, preds, block, k) && r.values[k] == e.values[k]
  {
    hide Described, Linked, HasIndex, Incoming, NeedsPhi;
    assert r.values[k] == r.values[..|e.values|][k] == e.values[k];
    DescribedStays(e, r, k);
    forall j: nat ensures Linked(r.edges, j, k) <==> Linked(e.edges, j, k) { LinkedStays(e, r, j, k); }
  }

  lemma {:induction false} PhisTrace(b: Builder, f: nat, block: nat, preds: seq<nat>, storages: seq<string>, cap: nat)
    requires Valid(f, b) && |b.values| <= cap && Increasing(storages)
    ensures
      var r := Phis(b, f, block, preds, storages, cap);
      && Grown(b, r) && r.outDefs == b.outDefs && r.joined == b.joined && |r.values| <= cap
      && PhisFrom(|b.values|, r, b.outDefs, preds, block, storages)
      && PhisComplete(|b.values|, r, b.outDefs, preds, storages, cap)
    decreases |storages|, 1
  {
    hide Emit, Valid, NeedsPhi, Incoming, PhiOn, Grown;
    var r := Phis(b, f, block, preds, storages, cap);
    if storages == [] || |b.values| >= cap {
      GrownSelf(b);
    } else {
      var s, rest := storages[0], storages[1..];
      assert Increasing(rest) by { IncreasingTail(storages); }
      if NeedsPhi(Incoming(b.outDefs, preds, s)) {
        PhiFirst(b, f, block, preds, s, storages, cap);
      } else {
        PhisTrace(b, f, block, preds, rest, cap);
        CompleteTail(|b.values|, r, b.outDefs, preds, storages, cap);
        TailMembers(storages);
      }
    }
  }

  lemma {:induction false} GrownSelf(b: Builder)
    ensures Grown(b, b)
  {
  }

  lemma {:induction false} IncreasingTail(storages: seq<string>)
    requires Increasing(storages) && storages != []
    ensures Increasing(storages[1..])
    ensures forall s :: s in storages[1..] ==> Below(storages[0], s)
  {
    hide Below;
    var rest := storages[1..];
    assert forall i :: 0 <= i < |rest| ==> rest[i] == storages[i + 1];
  }

  lemma {:induction false} TailMembers(storages: seq<string>)
    requires storages != []
    ensures forall s :: s in storages <==> s == storages[0] || s in storages[1..]
  {
    assert storages == [storages[0]] + storages[1..];
  }

  lemma {:induction false} CompleteTail(base: nat, r: Builder, outDefs: map<nat, map<string, Def>>, preds: seq<nat>,
                                        storages: seq<string>, cap: nat)
    requires storages != [] && PhisComplete(base, r, outDefs, preds, storages[1..], cap)
    requires NeedsPhi(Incoming(outDefs, preds, storages[0])) ==> Served(base, r, cap, storages[0])
    ensures PhisComplete(base, r, outDefs, preds, storages, cap)
  {
    hide Served, NeedsPhi, Incoming;
    var rest := storages[1..];
    forall i | 0 <= i < |storages| && NeedsPhi(Incoming(outDefs, preds, storages[i]))
      ensures Served(base, r, cap, storages[i])
    {
      if i > 0 { assert rest[i - 1] == storages[i]; }
    }
  }

  /** The first storage gets a phi, and the rest follow above it. */
  lemma {:induction false} PhiFirst(b: Builder, f: nat, block: nat, preds: seq<nat>, s: string, storages: seq<string>,
                                    cap: nat)
    requires Valid(f, b) && |b.values| < cap && Increasing(storages) && storages != [] && s == storages[0]
    requires NeedsPhi(Incoming(b.outDefs, preds, s))
    ensures
      var r := Phis(b, f, block, preds, storages, cap);
      && Grown(b, r) && r.outDefs == b.outDefs && r.joined == b.joined && |r.values| <= cap
      && PhisFrom(|b.values|, r, b.outDefs, preds, block, storages)
      && PhisComplete(|b.values|, r, b.outDefs, preds, storages, cap)
    decreases |storages|, 0
  {
    hide Emit, Valid, NeedsPhi, Incoming, Grown, Below, EmittedAs, Described, Linked, HasIndex, InputsKnown;
    var incoming, base, rest := Incoming(b.outDefs, preds, s), |b.values|, storages[1..];
    var e := Emit(b, f, Some(block), block, s, Phi, None, incoming);
    EmitTrace(b, f, Some(block), block, s, Phi, None, incoming) by { ValidFlows(f, b); }
    PhiEmitKeeps(b, f, block, preds, s);
    IncreasingTail(storages);
    TailMembers(storages);
    PhisTrace(e, f, block, preds, rest, cap);
    var r := Phis(b, f, block, preds, storages, cap);
    assert r == Phis(e, f, block, preds, rest, cap);
    GrownTrans(b, e, r);
    EmittedStorage(e.values[base], Some(block), block, s, Phi, None);
    assert PhiOn(e, b.outDefs, preds, block, base);
    PhiStays(e, r, b.outDefs, preds, block, base);
    hide PhiOn, PhisComplete, Increasing;
    assert PhisFrom(base, r, b.outDefs, preds, block, storages);
    ServedBelow(base, r, b.outDefs, preds, storages, cap);
    assert Served(base, r, cap, s);
    CompleteTail(base, r, b.outDefs, preds, storages, cap);
  }

  lemma {:induction false} EmittedStorage(v: Value, block: Option<nat>, site: nat, storage: string, origin: Origin,
                                          constant: Option<nat>)
    requires EmittedAs(v, block, site, storage, origin, constant)
    ensures v.storage == storage
  {
  }

  lemma {:induction false} PhiEmitKeeps(b: Builder, f: nat, block: nat, preds: seq<nat>, s: string)
    requires Valid(f, b) && NeedsPhi(Incoming(b.outDefs, preds, s))
    ensures Valid(f, Emit(b, f, Some(block), block, s, Phi, None, Incoming(b.outDefs, preds, s)))
  {
    hide Emit, NeedsPhi, Numbered, VersionsAgree, CurrentIsLast, FlowsOk, PhisJoin, InputsKnown, Incoming;
    IncomingKnown(b, preds, s);
    EmitKeeps(b, f, Some(block), block, s, Phi, None, Incoming(b.outDefs, preds, s));
  }

  lemma {:induction false} ServedBelow(base: nat, r: Builder, outDefs: map<nat, map<string, Def>>, preds: seq<nat>,
                                       storages: seq<string>, cap: nat)
    requires storages != [] && base < |r.values| && r.values[base].storage == storages[0]
    requires forall s :: s in storages[1..] ==> Below(storages[0], s)
    requires PhisComplete(base + 1, r, outDefs, preds, storages[1..], cap)
    ensures PhisComplete(base, r, outDefs, preds, storages[1..], cap)
  {
    hide Below, NeedsPhi, Incoming;
    var rest := storages[1..];
    forall i | 0 <= i < |rest| && NeedsPhi(Incoming(outDefs, preds, rest[i])) ensures Served(base, r, cap, rest[i]) {
      assert Served(base + 1, r, cap, rest[i]);
      assert Below(storages[0], rest[i]);
    }
  }

  // ------------------------------------------------- definitions as positions

  /** The last definition of a storage is that of the last value which defines it. */
  lemma {:induction false} LastDefAt(values: seq<Value>, s: string)
    ensures
      match LastDef(values, s)
      case None => forall j: nat :: !LastBefore(values, |values|, s, j)
      case Some(d) => exists j: nat :: LastBefore(values, |values|, s, j) && d == DefOf(values[j])
  {
    if values != [] {
      var n := |values| - 1;
      var init := values[..n];
      LastDefAt(init, s);
      assert forall i :: 0 <= i < n ==> init[i] == values[i];
      if values[n].storage == s {
        assert LastBefore(values, n + 1, s, n);
      } else if LastDef(init, s).Some? {
        var j: nat :| LastBefore(init, n, s, j) && LastDef(init, s).value == DefOf(init[j]);
        assert LastBefore(values, n + 1, s, j);
      } else {
        forall j: nat ensures !LastBefore(values, |values|, s, j) {
          if LastBefore(values, |values|, s, j) { assert LastBefore(init, n, s, j); }
        }
      }
    }
  }

  lemma {:induction false} LastIsUnique(values: seq<Value>, n: nat, s: string, i: nat, j: nat)
    requires LastBefore(values, n, s, i) && LastBefore(values, n, s, j)
    ensures i == j
  {
  }

  lemma {:induction false} CurrentAt(f: nat, b: Builder, s: string, j: nat)
    requires Valid(f, b)
    ensures s in b.current && b.current[s].id.index == j <==> LastBefore(b.values, |b.values|, s, j)
    ensures s in b.current && b.current[s].id.index == j ==> b.current[s] == DefOf(b.values[j])
  {
    hide FlowsOk, PhisJoin, OutDefsKnown, VersionsAgree, LastDef;
    LastDefAt(b.values, s);
    assert LastDef(b.values, s) == if s in b.current then Some(b.current[s]) else None;
    if LastDef(b.values, s).Some? {
      var i: nat :| LastBefore(b.values, |b.values|, s, i) && b.current[s] == DefOf(b.values[i]);
      IndexIsPosition(f, b.values, s, i);
      if LastBefore(b.values, |b.values|, s, j) { LastIsUnique(b.values, |b.values|, s, i, j); }
    }
  }

  lemma {:induction false} IndexIsPosition(f: nat, values: seq<Value>, s: string, i: nat)
    requires Numbered(f, values) && LastBefore(values, |values|, s, i)
    ensures i < |values| && values[i].id.index == i
  {
    assert NumberedAt(f, values, i);
  }

  lemma {:induction false} InputMembers(current: map<string, Def>, storages: seq<string>, j: nat)
    ensures HasIndex(Inputs(current, storages), j)
        <==> exists i :: 0 <= i < |storages| && storages[i] in current && current[storages[i]].id.index == j
  {
    if storages != [] {
      var rest := storages[1..];
      InputMembers(current, rest, j);
      var first := if storages[0] in current then [current[storages[0]]] else [];
      HasEither(first, Inputs(current, rest), j);
      assert forall i :: 0 <= i < |rest| ==> rest[i] == storages[i + 1];
      if i :| 0 <= i < |rest| && rest[i] in current && current[rest[i]].id.index == j {
        assert storages[i + 1] in current && current[storages[i + 1]].id.index == j;
      }
      if first != [] && first[0].id.index == j {
        assert storages[0] in current && current[storages[0]].id.index == j;
      }
    }
  }

  lemma {:induction false} HasEither(a: seq<Def>, b: seq<Def>, j: nat)
    ensures HasIndex(a + b, j) <==> HasIndex(a, j) || HasIndex(b, j)
  {
    if HasIndex(a, j) {
      var i :| 0 <= i < |a| && a[i].id.index == j;
      assert (a + b)[i].id.index == j;
    }
    if HasIndex(b, j) {
      var i :| 0 <= i < |b| && b[i].id.index == j;
      assert (a + b)[|a| + i].id.index == j;
    }
  }

  ghost predicate LiveAt(current: map<string, Def>, s: string, j: nat) {
    s in current && current[s].id.index == j
  }

  /** The inputs of an instruction are the live definitions of what it reads. */
  lemma {:induction false} InputIndexes(b: Builder, ins: IrInstruction, j: nat)
    ensures HasIndex(InputDefs(b, ins), j) <==> exists s :: Reads(ins, s) && LiveAt(b.current, s, j)
  {
    hide HasIndex, Inputs;
    var slots := (set r | r in ins.readRegs)
        + (if ins.memoryRead && ins.stackSlot.Some? then {ins.stackSlot.value} else {});
    var storages := ReadStorages(ins);
    forall s ensures s in storages <==> s in slots { Text.OrderedMembers(slots, s); }
    InputMembers(b.current, storages, j);
    InputMembers(b.current, [MEM], j);
    HasEither(Inputs(b.current, storages), Inputs(b.current, [MEM]), j);
    assert Inputs(b.current, storages) + [] == Inputs(b.current, storages);
    hide ReadStorages;
    if HasIndex(Inputs(b.current, storages), j) {
      var i :| 0 <= i < |storages| && storages[i] in b.current && b.current[storages[i]].id.index == j;
      assert storages[i] in slots;
      assert Reads(ins, storages[i]) && LiveAt(b.current, storages[i], j);
    }
    if ins.memoryRead && HasIndex(Inputs(b.current, [MEM]), j) {
      assert Reads(ins, MEM) && LiveAt(b.current, MEM, j);
    }
    if s :| Reads(ins, s) && LiveAt(b.current, s, j) {
      if s in slots {
        assert s in storages;
        var i :| 0 <= i < |storages| && storages[i] == s;
        assert HasIndex(Inputs(b.current, storages), j);
      } else {
        assert [MEM][0] in b.current && b.current[[MEM][0]].id.index == j;
      }
    }
  }

  lemma {:induction false} InputsMeaning(f: nat, b: Builder, ins: IrInstruction, j: nat)
    requires Valid(f, b) && j < |b.values|
    ensures
      var s := b.values[j].storage;
      HasIndex(InputDefs(b, ins), j) <==> Reads(ins, s) && LastBefore(b.values, |b.values|, s, j)
  {
    hide InputDefs, Valid, Reads, HasIndex;
    InputIndexes(b, ins, j);
    forall s ensures LiveAt(b.current, s, j) <==> LastBefore(b.values, |b.values|, s, j) { CurrentAt(f, b, s, j); }
  }

  lemma {:induction false} RowsAre(ins: IrInstruction)
    ensures |WriteStorages(ins)| == RowCount(ins)
    ensures forall i :: 0 <= i < |WriteStorages(ins)| ==> Row(ins, i, WriteStorages(ins)[i].0, WriteStorages(ins)[i].1)
  {
  }

  /** What an instruction writes, over the values and edges after it. */
  lemma {:induction false} InstructionWrites(b: Builder, f: nat, cfg: Option<Cfg>, ins: IrInstruction, enter: nat,
                                             cap: nat)
    requires Valid(f, b) && |b.values| <= cap
    ensures
      var r := Writes(b, f, BlockOf(cfg, ins.address), ins, InputDefs(b, ins), WriteStorages(ins), cap);
      && Grown(b, r) && r.outDefs == b.outDefs && r.joined == b.joined && Valid(f, r)
      && WritesOf(cfg, ins, r.values, r.edges, Mark(enter, |b.values|, |r.values|), cap)
      && forall k :: |b.values| <= k < |r.values| ==> Described(r.values, r.edges, k)
  {
    hide Valid, BlockOf, InputDefs, WriteStorages, Writes, Described, Linked, HasIndex, InputsKnown, WrittenBy;
    var block, inputs, writes := BlockOf(cfg, ins.address), InputDefs(b, ins), WriteStorages(ins);
    InputDefsKnown(f, b, ins);
    WritesAreOps(ins);
    RowsAre(ins);
    WritesTrace(b, f, block, ins, inputs, writes, cap);
    WritesKeep(b, f, block, ins, inputs, writes, cap);
    var r, w := Writes(b, f, block, ins, inputs, writes, cap), |b.values|;
    forall k | w <= k < |r.values|
      ensures WrittenBy(cfg, ins, r.values, r.edges, w, k) && Described(r.values, r.edges, k)
    {
      assert WroteAt(r, block, ins, inputs, writes, w, k);
      RowWritten(b, r, f, cfg, ins, writes, k);
    }
  }

  lemma {:induction false} RowWritten(b: Builder, r: Builder, f: nat, cfg: Option<Cfg>, ins: IrInstruction,
                                      writes: seq<(string, Origin)>, k: nat)
    requires Valid(f, b) && Grown(b, r) && |b.values| <= k < |r.values|
    requires forall i :: 0 <= i < |writes| ==> Row(ins, i, writes[i].0, writes[i].1)
    requires WroteAt(r, BlockOf(cfg, ins.address), ins, InputDefs(b, ins), writes, |b.values|, k)
    ensures WrittenBy(cfg, ins, r.values, r.edges, |b.values|, k)
  {
    hide Valid, BlockOf, InputDefs, Described, Linked, HasIndex, InputsKnown, Reads, LastBefore, Row;
    var w, values := |b.values|, r.values;
    forall j: nat | j < k
      ensures Linked(r.edges, j, k) <==> Reads(ins, values[j].storage) && LastBefore(values, w, values[j].storage, j)
    {
      if j < w {
        assert values[j] == values[..w][j] == b.values[j];
        InputsMeaning(f, b, ins, j);
        LastStays(b, r, w, values[j].storage, j);
      } else {
        InputsAreBelow(f, b, ins, j);
        NotLast(values, w, values[j].storage, j);
      }
    }
  }

  lemma {:induction false} LastStays(b: Builder, r: Builder, n: nat, s: string, j: nat)
    requires Grown(b, r) && n <= |b.values|
    ensures LastBefore(b.values, n, s, j) <==> LastBefore(r.values, n, s, j)
  {
    assert forall i :: 0 <= i < |b.values| ==> r.values[i] == r.values[..|b.values|][i] == b.values[i];
  }

  lemma {:induction false} NotLast(values: seq<Value>, n: nat, s: string, j: nat)
    requires j >= n
    ensures !LastBefore(values, n, s, j)
  {
  }

  lemma {:induction false} InputsAreBelow(f: nat, b: Builder, ins: IrInstruction, j: nat)
    requires Valid(f, b) && j >= |b.values|
    ensures !HasIndex(InputDefs(b, ins), j)
  {
    hide Valid, InputDefs;
    InputDefsKnown(f, b, ins);
  }
}
