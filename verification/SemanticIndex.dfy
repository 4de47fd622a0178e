/** Per-function slices of the sorted instruction, IR and cross-reference tables. */
module SemanticIndex {
  import opened Common
  import opened Records
  import opened Search
  import FunctionDiscovery

  datatype Slice = Slice(
    functionIndex: nat,
    instructionLo: nat, instructionHi: nat,
    irLo: nat, irHi: nat,
    xrefLo: nat, xrefHi: nat,
    cfgIndex: Option<nat>,
    hasReturn: bool,
    overlapsKnownFunction: bool)

  function Addresses(rows: seq<Instruction>): seq<nat> {
    seq(|rows|, i requires 0 <= i < |rows| => rows[i].address)
  }

  /** The index range [lo, hi) holds exactly the rows whose address lies in the function. */
  ghost predicate IsFilter(addresses: seq<nat>, f: FunctionRecord, lo: nat, hi: nat) {
    && Separates(addresses, f.start, lo) && Separates(addresses, f.end, hi)
    && forall i :: 0 <= i < |addresses| ==> (lo <= i < hi <==> f.start <= addresses[i] < f.end)
  }

  method FindRange(addresses: seq<nat>, f: FunctionRecord) returns (lo: nat, hi: nat)
    requires NonDecreasing(addresses)
    ensures IsFilter(addresses, f, lo, hi)
  {
    lo := PartitionPoint(addresses, f.start);
    hi := PartitionPoint(addresses, f.end);
  }

  /** The last row of the control-flow table for a function start. */
  ghost predicate IsCfgIndex(cfgs: seq<Cfg>, start: nat, r: Option<nat>) {
    match r
    case Some(k) =>
      k < |cfgs| && cfgs[k].function_ == start && forall j :: k < j < |cfgs| ==> cfgs[j].function_ != start
    case None => forall j :: 0 <= j < |cfgs| ==> cfgs[j].function_ != start
  }

  method CfgIndices(cfgs: seq<Cfg>) returns (byFunction: map<nat, nat>)
    ensures forall start: nat :: IsCfgIndex(cfgs, start, if start in byFunction then Some(byFunction[start]) else None)
  {
    byFunction := map[];
    for n := 0 to |cfgs|
      invariant forall start: nat ::
          IsCfgIndex(cfgs[..n], start, if start in byFunction then Some(byFunction[start]) else None)
    {
      byFunction := byFunction[cfgs[n].function_ := n];
    }
    assert cfgs[..|cfgs|] == cfgs;
  }

  /** What a slice says about function `k`. */
  ghost predicate SliceOf(fs: seq<FunctionRecord>, instructions: seq<Instruction>, ir: seq<nat>, xrefs: seq<nat>,
                          cfgs: seq<Cfg>, k: nat, s: Slice)
    requires k < |fs|
  {
    && s.functionIndex == k
    && IsFilter(Addresses(instructions), fs[k], s.instructionLo, s.instructionHi)
    && IsFilter(ir, fs[k], s.irLo, s.irHi)
    && IsFilter(xrefs, fs[k], s.xrefLo, s.xrefHi)
    && IsCfgIndex(cfgs, fs[k].start, s.cfgIndex)
    && (s.hasReturn
        <==> exists i ::
            0 <= i < |instructions| && fs[k].start <= instructions[i].address < fs[k].end && instructions[i].isRet)
    && (s.overlapsKnownFunction <==>
        || (k > 0 && fs[k - 1].end > fs[k].start)
        || (k + 1 < |fs| && fs[k + 1].start < fs[k].end))
  }

  method BuildSlice(fs: seq<FunctionRecord>, instructions: seq<Instruction>, ir: seq<nat>, xrefs: seq<nat>,
                    cfgs: seq<Cfg>, byFunction: map<nat, nat>, k: nat)
    returns (s: Slice)
    requires k < |fs| && Sliceable(Addresses(instructions), fs[k].start, fs[k].end)
    requires NonDecreasing(Addresses(instructions)) && NonDecreasing(ir) && NonDecreasing(xrefs)
    requires forall start: nat :: IsCfgIndex(cfgs, start, if start in byFunction then Some(byFunction[start]) else None)
    ensures SliceOf(fs, instructions, ir, xrefs, cfgs, k, s)
  {
    var f := fs[k];
    var insLo, insHi := FindRange(Addresses(instructions), f);
    var irLo, irHi := FindRange(ir, f);
    var xLo, xHi := FindRange(xrefs, f);
    CutsInOrder(Addresses(instructions), f.start, insLo, f.end, insHi);
    var rows := instructions[insLo..insHi];
    var hasReturn := exists i :: 0 <= i < |rows| && rows[i].isRet;
    ReturnInRange(instructions, f, insLo, insHi);
    var overlapsPrevious := k >= 1 && fs[k - 1].end > f.start;
    var overlapsNext := k + 1 < |fs| && fs[k + 1].start < f.end;
    s := Slice(k, insLo, insHi, irLo, irHi, xLo, xHi,
               if f.start in byFunction then Some(byFunction[f.start]) else None,
               hasReturn, overlapsPrevious || overlapsNext);
  }

  lemma {:induction false} ReturnInRange(instructions: seq<Instruction>, f: FunctionRecord, lo: nat, hi: nat)
    requires IsFilter(Addresses(instructions), f, lo, hi) && lo <= hi
    ensures (exists i :: 0 <= i < hi - lo && instructions[lo..hi][i].isRet)
      <==> exists i :: 0 <= i < |instructions| && f.start <= instructions[i].address < f.end && instructions[i].isRet
  {
    if i :| 0 <= i < hi - lo && instructions[lo..hi][i].isRet {
      assert instructions[lo..hi][i] == instructions[lo + i];
      assert f.start <= Addresses(instructions)[lo + i] < f.end;
    }
    if i :| 0 <= i < |instructions| && f.start <= instructions[i].address < f.end && instructions[i].isRet {
      assert f.start <= Addresses(instructions)[i] < f.end;
      assert instructions[lo..hi][i - lo].isRet;
    }
  }

  /** Over sorted tables every slice is the address filter of its function. */
  method Build(fs: seq<FunctionRecord>, instructions: seq<Instruction>, ir: seq<nat>, xrefs: seq<nat>, cfgs: seq<Cfg>)
    returns (slices: seq<Slice>)
    requires NonDecreasing(Addresses(instructions)) && NonDecreasing(ir) && NonDecreasing(xrefs)
    requires forall k :: 0 <= k < |fs| ==> Sliceable(Addresses(instructions), fs[k].start, fs[k].end)
    ensures |slices| == |fs|
    ensures forall k :: 0 <= k < |fs| ==> SliceOf(fs, instructions, ir, xrefs, cfgs, k, slices[k])
  {
    var byFunction := CfgIndices(cfgs);
    slices := [];
    for k := 0 to |fs|
      invariant |slices| == k
      invariant forall j :: 0 <= j < k ==> SliceOf(fs, instructions, ir, xrefs, cfgs, j, slices[j])
    {
      var s := BuildSlice(fs, instructions, ir, xrefs, cfgs, byFunction, k);
      slices := slices + [s];
    }
  }

  /** For discovered functions the slices are pairwise disjoint in each table and nothing overlaps. */
  lemma {:induction false} DisjointSlices(fs: seq<FunctionRecord>, instructions: seq<Instruction>, ir: seq<nat>,
                                          xrefs: seq<nat>, cfgs: seq<Cfg>,
                       i: nat, si: Slice, j: nat, sj: Slice)
    requires FunctionDiscovery.Disjoint(fs) && i < j < |fs|
    requires SliceOf(fs, instructions, ir, xrefs, cfgs, i, si) && SliceOf(fs, instructions, ir, xrefs, cfgs, j, sj)
    ensures !si.overlapsKnownFunction && !sj.overlapsKnownFunction
    ensures si.instructionHi <= sj.instructionLo && si.irHi <= sj.irLo && si.xrefHi <= sj.xrefLo
  {
    SeparatesGrows(Addresses(instructions), fs[i].end, si.instructionHi, fs[j].start, sj.instructionLo);
    SeparatesGrows(ir, fs[i].end, si.irHi, fs[j].start, sj.irLo);
    SeparatesGrows(xrefs, fs[i].end, si.xrefHi, fs[j].start, sj.xrefLo);
  }
}
