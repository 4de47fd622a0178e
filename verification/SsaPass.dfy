/** The procedures of the SSA pass. */
module SsaPass {
  import opened Common
  import opened Records
  import opened Ssa
  import opened SsaInvariants
  import opened SsaTrace
  import opened SsaBuildTrace
  import Text

  method SourcesByTarget(c: Cfg) returns (incoming: map<nat, set<nat>>)
    ensures forall to: nat :: SourceBlocks(c.blocks, c.edges, to) == if to in incoming then incoming[to] else {}
  {
    incoming := map[];
    for i := 0 to |c.edges|
      invariant forall to: nat ::
          SourceBlocks(c.blocks, c.edges[..i], to) == if to in incoming then incoming[to] else {}
    {
      var e := c.edges[i];
      assert c.edges[..i + 1][..i] == c.edges[..i];
      var source := FindBlock(c.blocks, e.from);
      if source.Some? {
        incoming := incoming[e.to := (if e.to in incoming then incoming[e.to] else {}) + {source.value}];
      }
    }
    assert c.edges[..|c.edges|] == c.edges;
  }

  method PredecessorBlocksByJoin(cfg: Option<Cfg>) returns (joins: map<nat, seq<nat>>)
    ensures forall block: nat :: Predecessors(cfg, block) == if block in joins then Some(joins[block]) else None
  {
    if cfg.None? { return map[]; }
    var incoming := SourcesByTarget(cfg.value);
    joins := map to | to in incoming && |incoming[to]| > 1 :: Sorted(incoming[to]);
  }

  method EmitJoinPhis(b: Builder, f: nat, block: nat, preds: seq<nat>, remaining: nat)
    returns (r: Builder, emitted: nat)
    ensures r == Phis(b, f, block, preds, Text.Ordered(JoinStorages(b, preds)), |b.values| + remaining)
    ensures |r.values| == |b.values| + emitted
  {
    r, emitted := b, 0;
    if remaining == 0 { return; }
    var storages := Text.Ordered(JoinStorages(b, preds));
    ghost var goal := Phis(b, f, block, preds, storages, |b.values| + remaining);
    var i := 0;
    while i < |storages| && emitted < remaining
      invariant i <= |storages| && |r.values| == |b.values| + emitted && emitted <= remaining
      invariant goal == Phis(r, f, block, preds, storages[i..], |b.values| + remaining)
    {
      assert storages[i..][0] == storages[i] && storages[i..][1..] == storages[i + 1..];
      var incoming := Incoming(r.outDefs, preds, storages[i]);
      if NeedsPhi(incoming) {
        r := Emit(r, f, Some(block), block, storages[i], Phi, None, incoming);
        emitted := emitted + 1;
      }
      i := i + 1;
    }
  }

  method EmitWrites(b: Builder, f: nat, block: Option<nat>, ins: IrInstruction, cap: nat)
    returns (r: Builder, capped: bool)
    ensures r == Writes(b, f, block, ins, InputDefs(b, ins), WriteStorages(ins), cap)
    ensures capped <==> |r.values| < |b.values| + |WriteStorages(ins)|
  {
    var inputs, writes := InputDefs(b, ins), WriteStorages(ins);
    r, capped := b, false;
    ghost var goal := Writes(b, f, block, ins, inputs, writes, cap);
    var i := 0;
    while i < |writes|
      invariant i <= |writes| && |r.values| == |b.values| + i
      invariant goal == Writes(r, f, block, ins, inputs, writes[i..], cap)
    {
      if |r.values| >= cap { capped := true; break; }
      assert writes[i..][0] == writes[i] && writes[i..][1..] == writes[i + 1..];
      r := Emit(r, f, block, ins.address, writes[i].0, writes[i].1, ins.constant, inputs);
      i := i + 1;
    }
  }

  /** The loop body for one instruction; it stops when the phis of a join exhaust the cap. */
  method ProcessInstruction(b: Builder, f: nat, cfg: Option<Cfg>, joins: map<nat, seq<nat>>, ins: IrInstruction,
                            cap: nat)
    returns (p: Progress)
    requires forall block: nat :: Predecessors(cfg, block) == if block in joins then Some(joins[block]) else None
    requires |b.values| < cap
    ensures p == Instr(b, f, cfg, ins, cap)
  {
    hide Emit, Phis, Writes, WriteStorages, InputDefs, Predecessors, BlockOf;
    var block := BlockOf(cfg, ins.address);
    var b1 := b;
    if block.Some? && block.value !in b.joined {
      b1 := b.(joined := b.joined + {block.value});
      if block.value in joins {
        var more;
        b1, more := EmitJoinPhis(b1, f, block.value, joins[block.value], cap - |b.values|);
        if |b.values| + more >= cap { return Progress(b1, true, true); }
      }
    }
    assert b1 == EnterBlock(b, f, cfg, ins, cap);
    var b2, capped := EmitWrites(b1, f, block, ins, cap);
    if block.Some? { b2 := b2.(outDefs := b2.outDefs[block.value := b2.current]); }
    p := Progress(b2, capped, false);
  }

  /**
   * One pass over the slice. The marks account for every value and every edge: which instruction or join added it,
   * in which order, and from which earlier values its edges come.
   */
  method ProcessFunctionSlice(f: nat, ir: seq<IrInstruction>, cfg: Option<Cfg>, cap: nat)
    returns (values: seq<Value>, edges: seq<Flow>, capsHit: bool, ghost marks: seq<Mark>)
    ensures |marks| == |ir| && IsTrace(cfg, ir, values, edges, marks, cap)
    ensures Numbered(f, values) && AllDescribed(values, edges)
    ensures forall k :: 0 <= k < |edges| ==> FlowOk(values, edges[k]) && edges[k].ordinal == k
    ensures capsHit <==> Capped(cfg, ir, marks, cap)
    ensures (values, edges, capsHit)
        == (var p := Build(f, cfg, ir, |ir|, cap); (p.b.values, p.b.edges, p.hit))
  {
    values, edges, capsHit := BuildSlice(f, ir, cfg, cap);
    marks := Marks(f, cfg, ir, |ir|, cap);
    BuildTraced(f, cfg, ir, |ir|, cap);
    hide Build, IsTrace, FlowOk, Numbered, AllDescribed, Capped;
  }

  /** The loop over the instructions. */
  method BuildSlice(f: nat, ir: seq<IrInstruction>, cfg: Option<Cfg>, cap: nat)
    returns (values: seq<Value>, edges: seq<Flow>, capsHit: bool)
    ensures values == Build(f, cfg, ir, |ir|, cap).b.values
    ensures edges == Build(f, cfg, ir, |ir|, cap).b.edges
    ensures capsHit == Build(f, cfg, ir, |ir|, cap).hit
  {
    hide Instr, Predecessors;
    var joins := PredecessorBlocksByJoin(cfg);
    var b := EMPTY;
    capsHit := false;
    for n := 0 to |ir|
      invariant Build(f, cfg, ir, n, cap) == Progress(b, capsHit, false)
    {
      StopIsHit(b, f, cfg, ir[n], cap);
      if |b.values| >= cap {
        FullStays(b, f, cfg, ir[n], cap);
        StoppedStays(f, cfg, ir, n + 1, |ir|, cap);
        return b.values, b.edges, true;
      }
      var p := ProcessInstruction(b, f, cfg, joins, ir[n], cap);
      if p.stopped {
        StoppedStays(f, cfg, ir, n + 1, |ir|, cap);
        return p.b.values, p.b.edges, true;
      }
      b, capsHit := p.b, capsHit || p.hit;
    }
    values, edges := b.values, b.edges;
  }
}
