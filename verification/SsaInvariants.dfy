/** What every SSA build keeps, at every point of the pass and for every cap. */
module SsaInvariants {
  import opened Common
  import opened Records
  import opened Ssa
  import Text

  function DefOf(v: Value): Def { Def(v.id, v.siteVa, v.storage) }

  /** How many of the values define a storage. */
  function Count(values: seq<Value>, storage: string): nat {
    if values == [] then 0
    else Count(values[..|values| - 1], storage) + if values[|values| - 1].storage == storage then 1 else 0
  }

  /** The definition a later reader of the storage must see: the last emitted one. */
  function LastDef(values: seq<Value>, storage: string): Option<Def> {
    if values == [] then None
    else if values[|values| - 1].storage == storage then Some(DefOf(values[|values| - 1]))
    else LastDef(values[..|values| - 1], storage)
  }

  /** `d` names an emitted value of the storage. */
  ghost predicate IsDef(values: seq<Value>, d: Def, storage: string) {
    d.id.index < |values| && d == DefOf(values[d.id.index]) && d.storage == storage
  }

  /** Identifiers carry the position, and versions of a storage run 1, 2, 3, ... in emission order. */
  ghost predicate Numbered(f: nat, values: seq<Value>) {
    forall i :: 0 <= i < |values| ==> NumberedAt(f, values, i)
  }

  ghost predicate NumberedAt(f: nat, values: seq<Value>, i: nat)
    requires i < |values|
  {
    && values[i].id == Id(f, values[i].storage, values[i].version, i)
    && values[i].version == Count(values[..i + 1], values[i].storage)
  }

  ghost predicate VersionsAgree(b: Builder) {
    forall s :: Version(b, s) == Count(b.values, s)
  }

  ghost predicate CurrentIsLast(b: Builder) {
    forall s :: LastDef(b.values, s) == if s in b.current then Some(b.current[s]) else None
  }

  ghost predicate DefsKnown(values: seq<Value>, defs: map<string, Def>) {
    forall s :: s in defs ==> IsDef(values, defs[s], s)
  }

  ghost predicate OutDefsKnown(b: Builder) {
    forall p :: p in b.outDefs ==> DefsKnown(b.values, b.outDefs[p])
  }

  /** Edges go from an earlier value to a later one and describe both ends truthfully. */
  ghost predicate FlowOk(values: seq<Value>, e: Flow) {
    && e.from.index < e.to.index < |values|
    && e.from == values[e.from.index].id && e.fromVa == values[e.from.index].siteVa
        && e.fromStorage == values[e.from.index].storage
    && e.to == values[e.to.index].id && e.toVa == values[e.to.index].siteVa && e.toStorage == values[e.to.index].storage
    && (e.kind == PhiFlow <==> values[e.to.index].origin == Phi)
    && (e.kind == PhiFlow ==> e.fromStorage == e.toStorage)
  }

  ghost predicate FlowsOk(b: Builder) {
    forall k :: 0 <= k < |b.edges| ==> FlowOk(b.values, b.edges[k]) && b.edges[k].ordinal == k
  }

  ghost predicate JoinsTwo(edges: seq<Flow>, v: Value) {
    exists j, k ::
      0 <= j < |edges| && 0 <= k < |edges| && edges[j].to == v.id == edges[k].to && edges[j].from != edges[k].from
  }

  /** Every phi has incoming edges from at least two distinct values. */
  ghost predicate PhisJoin(b: Builder) {
    forall i :: 0 <= i < |b.values| && b.values[i].origin == Phi ==> JoinsTwo(b.edges, b.values[i])
  }

  ghost predicate Valid(f: nat, b: Builder) {
    Numbered(f, b.values) && VersionsAgree(b) && CurrentIsLast(b) && OutDefsKnown(b) && FlowsOk(b) && PhisJoin(b)
  }

  // ------------------------------------------------------ consequences for a reader

  /** Identifiers are unique. */
  lemma {:induction false} UniqueIds(f: nat, b: Builder, i: nat, j: nat)
    requires Valid(f, b) && i < j < |b.values|
    ensures b.values[i].id != b.values[j].id
    ensures b.values[i].storage == b.values[j].storage ==> b.values[i].version < b.values[j].version
  {
    assert NumberedAt(f, b.values, i) && NumberedAt(f, b.values, j);
    if b.values[i].storage == b.values[j].storage {
      CountGrows(b.values, b.values[i].storage, i + 1, j);
      assert b.values[..j + 1][..j] == b.values[..j];
    }
  }

  lemma {:induction false} CountGrows(values: seq<Value>, s: string, i: nat, j: nat)
    requires i <= j <= |values|
    ensures Count(values[..i], s) <= Count(values[..j], s)
  {
    if i < j {
      CountGrows(values, s, i, j - 1);
      assert values[..j][..j - 1] == values[..j - 1];
    }
  }

  // -------------------------------------------------------------- one emission

  ghost predicate InputsKnown(values: seq<Value>, inputs: seq<Def>) {
    forall i :: 0 <= i < |inputs| ==> IsDef(values, inputs[i], inputs[i].storage)
  }

  ghost predicate PhiInputs(storage: string, inputs: seq<Def>) {
    NeedsPhi(inputs) && forall i :: 0 <= i < |inputs| ==> inputs[i].storage == storage
  }

  lemma {:induction false} NumberedSnoc(f: nat, values: seq<Value>, v: Value)
    requires Numbered(f, values)
    requires v.id == Id(f, v.storage, v.version, |values|) && v.version == Count(values, v.storage) + 1
    ensures Numbered(f, values + [v])
  {
    var all := values + [v];
    assert all[..|values|] == values;
    forall i | 0 <= i < |all|
      ensures NumberedAt(f, all, i)
    {
      if i < |values| {
        assert NumberedAt(f, values, i);
        assert all[..i + 1] == values[..i + 1];
      } else {
        assert all[..i + 1] == all;
      }
    }
  }

  lemma {:induction false} SnocLookups(values: seq<Value>, v: Value, s: string)
    ensures Count(values + [v], s) == Count(values, s) + if v.storage == s then 1 else 0
    ensures LastDef(values + [v], s) == if v.storage == s then Some(DefOf(v)) else LastDef(values, s)
  {
    assert (values + [v])[..|values|] == values;
  }

  lemma {:induction false} EmitFlows(f: nat, b: Builder, inputs: seq<Def>, v: Value, kind: FlowKind)
    requires Numbered(f, b.values) && FlowsOk(b) && InputsKnown(b.values, inputs)
    requires v.id == Id(f, v.storage, v.version, |b.values|)
    requires kind == PhiFlow <==> v.origin == Phi
    requires v.origin == Phi ==> PhiInputs(v.storage, inputs)
    ensures FlowsOk(b.(values := b.values + [v], edges := b.edges + NewFlows(inputs, v, kind, |b.edges|)))
  {
    hide NeedsPhi;
    var values, added := b.values + [v], NewFlows(inputs, v, kind, |b.edges|);
    forall k | 0 <= k < |b.edges| + |added|
      ensures FlowOk(values, (b.edges + added)[k]) && (b.edges + added)[k].ordinal == k
    {
      if k < |b.edges| {
        assert FlowOk(b.values, b.edges[k]);
      } else {
        assert IsDef(b.values, inputs[k - |b.edges|], inputs[k - |b.edges|].storage);
      }
    }
  }

  lemma {:induction false} TwoIds(inputs: seq<Def>) returns (j: nat, k: nat)
    requires NeedsPhi(inputs)
    ensures j < |inputs| && k < |inputs| && inputs[j].id != inputs[k].id
  {
    var ids := set i | 0 <= i < |inputs| :: inputs[i].id;
    var others := ids - {inputs[0].id};
    assert |others| >= |ids| - 1;
    var x :| x in others;
    j := 0;
    k :| 0 <= k < |inputs| && inputs[k].id == x;
  }

  lemma {:induction false} EmitPhisJoin(b: Builder, inputs: seq<Def>, v: Value, kind: FlowKind)
    requires PhisJoin(b) && (v.origin == Phi ==> NeedsPhi(inputs))
    ensures PhisJoin(b.(values := b.values + [v], edges := b.edges + NewFlows(inputs, v, kind, |b.edges|)))
  {
    var all := b.edges + NewFlows(inputs, v, kind, |b.edges|);
    forall i | 0 <= i < |b.values| + 1 && (b.values + [v])[i].origin == Phi
      ensures JoinsTwo(all, (b.values + [v])[i])
    {
      if i < |b.values| {
        var j, k :| 0 <= j < |b.edges| && 0 <= k < |b.edges| && b.edges[j].to == b.values[i].id == b.edges[k].to
            && b.edges[j].from != b.edges[k].from;
        assert all[j] == b.edges[j] && all[k] == b.edges[k];
      } else {
        var j, k := TwoIds(inputs);
        var base := |b.edges|;
        assert all[base + j].to == v.id == all[base + k].to && all[base + j].from != all[base + k].from;
      }
    }
  }

  lemma {:induction false} EmitKeeps(b: Builder, f: nat, block: Option<nat>, site: nat, storage: string,
                                     origin: Origin, constant: Option<nat>, inputs: seq<Def>)
    requires Valid(f, b) && InputsKnown(b.values, inputs)
    requires origin == Phi ==> PhiInputs(storage, inputs)
    ensures Valid(f, Emit(b, f, block, site, storage, origin, constant, inputs))
  {
    hide NeedsPhi, NewFlows, Numbered, FlowsOk, PhisJoin, LastDef, Count;
    var r := Emit(b, f, block, site, storage, origin, constant, inputs);
    var v := r.values[|b.values|];
    var kind := if origin.Phi? then PhiFlow else if storage == MEM then MemoryStore else UseDef;
    assert r.values == b.values + [v] && r.edges == b.edges + NewFlows(inputs, v, kind, |b.edges|);
    NumberedSnoc(f, b.values, v);
    EmitFlows(f, b, inputs, v, kind);
    EmitPhisJoin(b, inputs, v, kind);
    FlowsFrame(b.(values := r.values, edges := r.edges), r);
    forall s ensures Version(r, s) == Count(r.values, s) { SnocLookups(b.values, v, s); }
    forall s ensures LastDef(r.values, s) == if s in r.current then Some(r.current[s]) else None {
      SnocLookups(b.values, v, s);
    }
    forall p | p in r.outDefs ensures DefsKnown(r.values, r.outDefs[p]) { assert DefsKnown(b.values, b.outDefs[p]); }
  }

  lemma {:induction false} FlowsFrame(b: Builder, r: Builder)
    requires b.values == r.values && b.edges == r.edges
    ensures FlowsOk(b) ==> FlowsOk(r)
    ensures PhisJoin(b) ==> PhisJoin(r)
  {
  }

  // ------------------------------------------------------------------ the pass

  lemma {:induction false} LastDefKnown(f: nat, values: seq<Value>, s: string)
    requires Numbered(f, values) && LastDef(values, s).Some?
    ensures IsDef(values, LastDef(values, s).value, s)
  {
    var n := |values|;
    assert NumberedAt(f, values, n - 1);
    if values[n - 1].storage != s {
      var init := values[..n - 1];
      forall i | 0 <= i < |init| ensures NumberedAt(f, init, i) {
        assert NumberedAt(f, values, i);
        assert init[..i + 1] == values[..i + 1];
      }
      LastDefKnown(f, init, s);
    }
  }

  lemma {:induction false} CurrentKnown(f: nat, b: Builder)
    requires Valid(f, b)
    ensures DefsKnown(b.values, b.current)
  {
    forall s | s in b.current ensures IsDef(b.values, b.current[s], s) { LastDefKnown(f, b.values, s); }
  }

  lemma {:induction false} InputsAreKnown(values: seq<Value>, current: map<string, Def>, storages: seq<string>)
    requires DefsKnown(values, current)
    ensures InputsKnown(values, Inputs(current, storages))
  {
    if storages != [] { InputsAreKnown(values, current, storages[1..]); }
  }

  lemma {:induction false} IncomingKnown(b: Builder, preds: seq<nat>, storage: string)
    requires OutDefsKnown(b)
    ensures InputsKnown(b.values, Incoming(b.outDefs, preds, storage))
    ensures forall i ::
        0 <= i < |Incoming(b.outDefs, preds, storage)| ==> Incoming(b.outDefs, preds, storage)[i].storage == storage
  {
    if preds != [] { IncomingKnown(b, preds[1..], storage); }
  }

  lemma {:induction false} PhisKeep(b: Builder, f: nat, block: nat, preds: seq<nat>, storages: seq<string>, cap: nat)
    requires Valid(f, b)
    ensures Valid(f, Phis(b, f, block, preds, storages, cap))
    decreases |storages|
  {
    hide Emit, NeedsPhi, Numbered, VersionsAgree, CurrentIsLast, FlowsOk, PhisJoin, InputsKnown;
    if storages != [] && |b.values| < cap {
      IncomingKnown(b, preds, storages[0]);
      var incoming := Incoming(b.outDefs, preds, storages[0]);
      if NeedsPhi(incoming) { EmitKeeps(b, f, Some(block), block, storages[0], Phi, None, incoming); }
      PhisKeep(PhiFor(b, f, block, preds, storages[0]), f, block, preds, storages[1..], cap);
    }
  }

  lemma {:induction false} EmitKeepsInputs(b: Builder, f: nat, block: Option<nat>, site: nat, storage: string,
                                           origin: Origin, constant: Option<nat>, inputs: seq<Def>)
    requires InputsKnown(b.values, inputs)
    ensures InputsKnown(Emit(b, f, block, site, storage, origin, constant, inputs).values, inputs)
  {
  }

  lemma {:induction false} WritesAreOps(ins: IrInstruction)
    ensures forall i :: 0 <= i < |WriteStorages(ins)| ==> WriteStorages(ins)[i].1 != Phi
  {
  }

  lemma {:induction false} WritesKeep(b: Builder, f: nat, block: Option<nat>, ins: IrInstruction, inputs: seq<Def>,
                                      writes: seq<(string, Origin)>, cap: nat)
    requires Valid(f, b) && InputsKnown(b.values, inputs)
    requires forall i :: 0 <= i < |writes| ==> writes[i].1 != Phi
    ensures Valid(f, Writes(b, f, block, ins, inputs, writes, cap))
    decreases |writes|
  {
    hide Emit, Valid, InputsKnown;
    if writes != [] && |b.values| < cap {
      EmitKeeps(b, f, block, ins.address, writes[0].0, writes[0].1, ins.constant, inputs);
      EmitKeepsInputs(b, f, block, ins.address, writes[0].0, writes[0].1, ins.constant, inputs);
      WritesKeep(Emit(b, f, block, ins.address, writes[0].0, writes[0].1, ins.constant, inputs), f, block, ins,
                 inputs, writes[1..], cap);
    }
  }

  lemma {:induction false} JoinedFrame(f: nat, b: Builder, joined: set<nat>)
    requires Valid(f, b)
    ensures Valid(f, b.(joined := joined))
  {
    hide Numbered;
  }

  lemma {:induction false} LeaveKeeps(f: nat, b: Builder, block: Option<nat>)
    requires Valid(f, b)
    ensures Valid(f, LeaveBlock(b, block))
  {
    CurrentKnown(f, b);
    hide Numbered, DefsKnown;
  }

  lemma {:induction false} EnterKeeps(b: Builder, f: nat, cfg: Option<Cfg>, ins: IrInstruction, cap: nat)
    requires Valid(f, b)
    ensures Valid(f, EnterBlock(b, f, cfg, ins, cap))
  {
    hide Valid, Phis, Predecessors, JoinStorages;
    var block := BlockOf(cfg, ins.address);
    if block.Some? && block.value !in b.joined {
      JoinedFrame(f, b, b.joined + {block.value});
      var b1 := b.(joined := b.joined + {block.value});
      if Predecessors(cfg, block.value).Some? {
        var preds := Predecessors(cfg, block.value).value;
        PhisKeep(b1, f, block.value, preds, Text.Ordered(JoinStorages(b1, preds)), cap);
      }
    }
  }

  lemma {:induction false} InputDefsKnown(f: nat, b: Builder, ins: IrInstruction)
    requires Valid(f, b)
    ensures InputsKnown(b.values, InputDefs(b, ins))
  {
    CurrentKnown(f, b);
    InputsAreKnown(b.values, b.current, ReadStorages(ins));
    InputsAreKnown(b.values, b.current, [MEM]);
    hide ReadStorages, Inputs, Valid, DefsKnown;
  }

  lemma {:induction false} InstrKeeps(b: Builder, f: nat, cfg: Option<Cfg>, ins: IrInstruction, cap: nat)
    requires Valid(f, b)
    ensures Valid(f, Instr(b, f, cfg, ins, cap).b)
  {
    hide Valid, EnterBlock, Writes, InputDefs, WriteStorages, OpensJoin, BlockOf, LeaveBlock, InputsKnown;
    EnterKeeps(b, f, cfg, ins, cap);
    var b1 := EnterBlock(b, f, cfg, ins, cap);
    InputDefsKnown(f, b1, ins);
    WritesAreOps(ins);
    var block := BlockOf(cfg, ins.address);
    WritesKeep(b1, f, block, ins, InputDefs(b1, ins), WriteStorages(ins), cap);
    LeaveKeeps(f, Writes(b1, f, block, ins, InputDefs(b1, ins), WriteStorages(ins), cap), block);
  }

  lemma {:induction false} EmptyIsValid(f: nat)
    ensures Valid(f, EMPTY)
  {
  }

  /** The invariant holds after every instruction, for every slice, graph and cap. */
  lemma {:induction false} BuildKeeps(f: nat, cfg: Option<Cfg>, ir: seq<IrInstruction>, n: nat, cap: nat)
    requires n <= |ir|
    ensures Valid(f, Build(f, cfg, ir, n, cap).b)
  {
    hide Valid, Instr;
    if n == 0 {
      EmptyIsValid(f);
    } else {
      BuildKeeps(f, cfg, ir, n - 1, cap);
      var before := Build(f, cfg, ir, n - 1, cap);
      if !before.stopped { InstrKeeps(before.b, f, cfg, ir[n - 1], cap); }
    }
  }
}
