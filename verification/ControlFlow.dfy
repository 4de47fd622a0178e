/** Splitting each function's instructions into basic blocks and recording edges. */
module ControlFlow {
  import opened Common
  import opened Records
  import Search
  import Text

  ghost predicate Rising(insns: seq<Instruction>) {
    forall i, j :: 0 <= i < j < |insns| ==> insns[i].address < insns[j].address
  }

  /** The instruction view of one function: ascending addresses inside the function's range. */
  ghost predicate FunctionView(f: FunctionRecord, insns: seq<Instruction>) {
    && Rising(insns)
    && (forall i :: 0 <= i < |insns| ==> f.start <= insns[i].address < f.end)
  }

  function AddressSet(insns: seq<Instruction>): set<nat> {
    set i | 0 <= i < |insns| :: insns[i].address
  }

  function Next(ins: Instruction): nat { ins.address + ins.size }

  predicate LeavesLinear(ins: Instruction) { ins.isJump || ins.isCall }

  predicate FallsThrough(ins: Instruction) {
    ins.isCall || (ins.isJump && !Text.EqIgnoreCase(ins.mnemonic, "jmp"))
  }

  predicate TargetInside(f: FunctionRecord, ins: Instruction) {
    ins.branchTarget.Some? && f.start <= ins.branchTarget.value < f.end
  }

  /** The leaders one instruction contributes. */
  function LeadersOf(f: FunctionRecord, known: set<nat>, ins: Instruction): set<nat> {
    (if TargetInside(f, ins) then {ins.branchTarget.value} else {})
    + (if LeavesLinear(ins) && Next(ins) in known then {Next(ins)} else {})
  }

  function EdgesOf(f: FunctionRecord, known: set<nat>, ins: Instruction): seq<Edge> {
    (if TargetInside(f, ins) then [Edge(ins.address, ins.branchTarget.value, Branch)] else [])
    + (if FallsThrough(ins) && Next(ins) in known then [Edge(ins.address, Next(ins), Fallthrough)] else [])
  }

  ghost predicate IsLeader(f: FunctionRecord, insns: seq<Instruction>, x: nat) {
    x == f.start || exists i :: 0 <= i < |insns| && x in LeadersOf(f, AddressSet(insns), insns[i])
  }

  /** All edges, in instruction order; a branch edge precedes the fallthrough edge of the same instruction. */
  function EdgeList(f: FunctionRecord, known: set<nat>, insns: seq<Instruction>): seq<Edge> {
    if insns == [] then []
    else EdgeList(f, known, insns[..|insns| - 1]) + EdgesOf(f, known, insns[|insns| - 1])
  }

  // ------------------------------------------------------ which edges and leaders

  ghost predicate DecodedAt(insns: seq<Instruction>, a: nat) {
    exists j :: 0 <= j < |insns| && insns[j].address == a
  }

  /** A branch edge to a target inside the function; a fallthrough edge behind a call or a jump other than `jmp`. */
  ghost predicate EdgeFrom(f: FunctionRecord, insns: seq<Instruction>, ins: Instruction, e: Edge) {
    && e.from == ins.address
    && match e.kind
       case Branch => ins.branchTarget == Some(e.to) && f.start <= e.to < f.end
       case Fallthrough =>
         && (ins.isCall || (ins.isJump && Text.Lower(ins.mnemonic) != "jmp"))
         && e.to == ins.address + ins.size && DecodedAt(insns, e.to)
  }

  ghost predicate EdgeBefore(d: Edge, e: Edge) {
    d.from < e.from || (d.from == e.from && d.kind == Branch && e.kind == Fallthrough)
  }

  ghost predicate SomeEdge(f: FunctionRecord, insns: seq<Instruction>, n: nat, e: Edge) {
    exists i :: 0 <= i < n && i < |insns| && EdgeFrom(f, insns, insns[i], e)
  }

  ghost predicate EdgeOrder(edges: seq<Edge>) {
    forall i, j :: 0 <= i < j < |edges| ==> EdgeBefore(edges[i], edges[j])
  }

  /** Each due edge is there once, in address order, and no other is. */
  ghost predicate EdgesExact(f: FunctionRecord, insns: seq<Instruction>, edges: seq<Edge>) {
    (forall e :: e in edges <==> SomeEdge(f, insns, |insns|, e)) && EdgeOrder(edges)
  }

  lemma {:induction false} LowerJmp()
    ensures Text.Lower("jmp") == "jmp"
  {
  }

  lemma {:induction false} EdgesOfExact(f: FunctionRecord, insns: seq<Instruction>, ins: Instruction, e: Edge)
    ensures e in EdgesOf(f, AddressSet(insns), ins) <==> EdgeFrom(f, insns, ins, e)
  {
    hide Text.Lower;
    LowerJmp();
    assert Next(ins) in AddressSet(insns) <==> DecodedAt(insns, Next(ins));
  }

  lemma {:induction false} EdgesOfOrder(f: FunctionRecord, known: set<nat>, ins: Instruction)
    ensures EdgeOrder(EdgesOf(f, known, ins))
  {
    hide FallsThrough, TargetInside;
  }

  lemma {:induction false} EdgesBelow(f: FunctionRecord, insns: seq<Instruction>, n: nat)
    requires n <= |insns| && Rising(insns)
    ensures forall e :: e in EdgeList(f, AddressSet(insns), insns[..n]) <==> SomeEdge(f, insns, n, e)
    ensures EdgeOrder(EdgeList(f, AddressSet(insns), insns[..n]))
  {
    hide EdgesOf, AddressSet;
    if n > 0 {
      EdgesBelow(f, insns, n - 1);
      var ins := insns[n - 1];
      assert insns[..n][..n - 1] == insns[..n - 1] && insns[..n][n - 1] == ins;
      var before := EdgeList(f, AddressSet(insns), insns[..n - 1]);
      var more := EdgesOf(f, AddressSet(insns), ins);
      forall e ensures e in before + more <==> SomeEdge(f, insns, n, e) {
        EdgesOfExact(f, insns, ins, e);
        SomeEdgeStep(f, insns, n - 1, e);
      }
      EdgesOfOrder(f, AddressSet(insns), ins);
      forall i, j | 0 <= i < j < |before + more| ensures EdgeBefore((before + more)[i], (before + more)[j]) {
        if i < |before| <= j { EarlierEdge(f, insns, n - 1, before[i], more[j - |before|]); }
      }
    }
  }

  lemma {:induction false} SomeEdgeStep(f: FunctionRecord, insns: seq<Instruction>, n: nat, e: Edge)
    requires n < |insns|
    ensures SomeEdge(f, insns, n + 1, e) <==> SomeEdge(f, insns, n, e) || EdgeFrom(f, insns, insns[n], e)
  {
    hide EdgeFrom;
  }

  lemma {:induction false} EarlierEdge(f: FunctionRecord, insns: seq<Instruction>, n: nat, d: Edge, e: Edge)
    requires n < |insns| && Rising(insns) && SomeEdge(f, insns, n, d) && e in EdgesOf(f, AddressSet(insns), insns[n])
    ensures d.from < e.from
  {
    EdgesOfExact(f, insns, insns[n], e);
    hide AddressSet, EdgesOf;
  }

  /** Which edges a function has. */
  lemma {:induction false} EdgesExactly(f: FunctionRecord, insns: seq<Instruction>)
    requires Rising(insns)
    ensures EdgesExact(f, insns, EdgeList(f, AddressSet(insns), insns))
  {
    EdgesBelow(f, insns, |insns|);
    assert insns[..|insns|] == insns;
    hide EdgeList, AddressSet, Rising;
  }

  /** The address after a jump or call, or a target inside the function. */
  ghost predicate LeaderFrom(f: FunctionRecord, insns: seq<Instruction>, ins: Instruction, x: nat) {
    || (ins.branchTarget == Some(x) && f.start <= x < f.end)
    || ((ins.isJump || ins.isCall) && x == ins.address + ins.size && DecodedAt(insns, x))
  }

  /** Which addresses start a block. */
  lemma {:induction false} LeadersExactly(f: FunctionRecord, insns: seq<Instruction>, x: nat)
    ensures IsLeader(f, insns, x)
        <==> x == f.start || exists i :: 0 <= i < |insns| && LeaderFrom(f, insns, insns[i], x)
  {
    forall i | 0 <= i < |insns|
      ensures x in LeadersOf(f, AddressSet(insns), insns[i]) <==> LeaderFrom(f, insns, insns[i], x)
    {
      assert Next(insns[i]) in AddressSet(insns) <==> DecodedAt(insns, Next(insns[i]));
    }
  }

  /** The instructions with addresses in [lo, hi). */
  function InRange(insns: seq<Instruction>, lo: nat, hi: nat): seq<Instruction> {
    if insns == [] then []
    else (if lo <= insns[0].address < hi then [insns[0]] else []) + InRange(insns[1..], lo, hi)
  }

  /** `c` splits the view at address `x`. */
  ghost predicate SplitAt(insns: seq<Instruction>, c: nat, x: nat) {
    && c <= |insns|
    && (forall i :: 0 <= i < c ==> insns[i].address < x)
    && (forall i :: c <= i < |insns| ==> x <= insns[i].address)
  }

  lemma {:induction false} SplitBehind(insns: seq<Instruction>, c: nat, x: nat)
    requires insns != [] && (insns[0].address < x || SplitAt(insns, c + 1, x))
    ensures SplitAt(insns, c + 1, x) <==> SplitAt(insns[1..], c, x)
  {
    assert forall i :: 0 < i < |insns| ==> insns[i] == insns[1..][i - 1];
  }

  lemma {:induction false} NoneInRange(insns: seq<Instruction>, lo: nat, hi: nat)
    requires SplitAt(insns, 0, hi)
    ensures InRange(insns, lo, hi) == []
  {
    if insns != [] {
      assert forall i :: 0 <= i < |insns| - 1 ==> insns[1..][i] == insns[i + 1];
      NoneInRange(insns[1..], lo, hi);
    }
  }

  lemma {:induction false} TailView(insns: seq<Instruction>, lo: nat, hi: nat)
    requires insns != [] && Rising(insns)
    ensures Rising(insns[1..])
    ensures SplitAt(insns, 0, lo) ==> SplitAt(insns[1..], 0, lo)
    ensures insns[0].address >= hi ==> SplitAt(insns, 0, hi)
  {
  }

  lemma {:induction false} RangeIsSlice(insns: seq<Instruction>, lo: nat, hi: nat, c: nat) returns (d: nat)
    requires lo <= hi && SplitAt(insns, c, lo) && Rising(insns)
    ensures c <= d <= |insns| && SplitAt(insns, d, hi) && InRange(insns, lo, hi) == insns[c..d]
    decreases |insns|
  {
    hide Rising;
    if insns == [] {
      d := 0;
    } else {
      TailView(insns, lo, hi);
      if c == 0 && insns[0].address >= hi {
        d := 0;
        NoneInRange(insns, lo, hi);
      } else {
        d := SliceBehind(insns, lo, hi, c);
      }
    }
  }

  lemma {:induction false} FirstInRange(insns: seq<Instruction>, lo: nat, hi: nat, c: nat)
    requires lo <= hi && insns != [] && SplitAt(insns, c, lo) && (c > 0 || insns[0].address < hi)
    ensures insns[0].address < hi
    ensures InRange(insns, lo, hi) == (if c == 0 then [insns[0]] else []) + InRange(insns[1..], lo, hi)
  {
  }

  lemma {:induction false} SliceTail(insns: seq<Instruction>, c: nat, k: nat)
    requires insns != [] && c <= k + 1 <= |insns|
    ensures insns[c..k + 1] == (if c == 0 then [insns[0]] else []) + insns[1..][if c > 0 then c - 1 else 0..k]
  {
  }

  lemma {:induction false} SliceBehind(insns: seq<Instruction>, lo: nat, hi: nat, c: nat) returns (d: nat)
    requires lo <= hi && insns != [] && SplitAt(insns, c, lo) && Rising(insns) && (c > 0 || insns[0].address < hi)
    ensures c <= d <= |insns| && SplitAt(insns, d, hi) && InRange(insns, lo, hi) == insns[c..d]
    decreases |insns|, 0
  {
    hide Rising, SplitAt, InRange;
    FirstInRange(insns, lo, hi, c);
    TailView(insns, lo, hi);
    if c > 0 { SplitBehind(insns, c - 1, lo); }
    var k := RangeIsSlice(insns[1..], lo, hi, if c > 0 then c - 1 else 0);
    SplitBehind(insns, k, hi);
    SliceTail(insns, c, k);
    d := k + 1;
  }

  /** Number of instructions in the first `k` blocks. */
  ghost function Offset(blocks: seq<Block>, k: nat): nat
    requires k <= |blocks|
  {
    if k == 0 then 0 else Offset(blocks, k - 1) + blocks[k - 1].instructionCount
  }

  lemma {:induction false} OffsetPrefix(a: seq<Block>, b: seq<Block>, k: nat)
    requires k <= |a|
    ensures Offset(a + b, k) == Offset(a, k)
  {
    if k > 0 { OffsetPrefix(a, b, k - 1); }
  }

  /** No leader lies after `start` and at or before `last`. */
  ghost predicate Unsplit(f: FunctionRecord, insns: seq<Instruction>, start: nat, last: nat) {
    forall x: nat :: IsLeader(f, insns, x) ==> x <= start || last < x
  }

  /** A block holds exactly the non-empty run insns[lo..hi], and no leader splits that run. */
  ghost predicate BlockCovers(f: FunctionRecord, insns: seq<Instruction>, b: Block, lo: nat, hi: nat) {
    && lo < hi <= |insns|
    && IsLeader(f, insns, b.start)
    && b.start <= insns[lo].address
    && b.end == Next(insns[hi - 1])
    && Unsplit(f, insns, b.start, insns[hi - 1].address)
  }

  ghost predicate CoversAt(f: FunctionRecord, insns: seq<Instruction>, blocks: seq<Block>, k: nat)
    requires k < |blocks|
  {
    BlockCovers(f, insns, blocks[k], Offset(blocks, k), Offset(blocks, k + 1))
  }

  /** The blocks cut the first `Offset(blocks, |blocks|)` instructions into consecutive runs. */
  ghost predicate Partition(f: FunctionRecord, insns: seq<Instruction>, blocks: seq<Block>) {
    && (forall k :: 0 <= k < |blocks| ==> CoversAt(f, insns, blocks, k))
    && (forall k, l :: 0 <= k < l < |blocks| ==> blocks[k].start < blocks[l].start)
  }

  /** The blocks of a whole function view. */
  ghost predicate Built(f: FunctionRecord, insns: seq<Instruction>, blocks: seq<Block>) {
    && FunctionView(f, insns) && insns != []
    && Partition(f, insns, blocks) && Offset(blocks, |blocks|) == |insns|
  }

  lemma {:induction false} CoversAtPrefix(f: FunctionRecord, insns: seq<Instruction>, blocks: seq<Block>, b: Block,
                                          k: nat)
    requires k < |blocks| && CoversAt(f, insns, blocks, k)
    ensures CoversAt(f, insns, blocks + [b], k)
  {
    OffsetPrefix(blocks, [b], k);
    OffsetPrefix(blocks, [b], k + 1);
  }

  lemma {:induction false} PartitionSnoc(f: FunctionRecord, insns: seq<Instruction>, blocks: seq<Block>, b: Block)
    requires Partition(f, insns, blocks)
    requires forall k :: 0 <= k < |blocks| ==> blocks[k].start < b.start
    requires BlockCovers(f, insns, b, Offset(blocks, |blocks|), Offset(blocks, |blocks|) + b.instructionCount)
    ensures Partition(f, insns, blocks + [b])
    ensures Offset(blocks + [b], |blocks| + 1) == Offset(blocks, |blocks|) + b.instructionCount
  {
    OffsetPrefix(blocks, [b], |blocks|);
    forall k | 0 <= k < |blocks|
      ensures CoversAt(f, insns, blocks + [b], k)
    {
      CoversAtPrefix(f, insns, blocks, b, k);
    }
  }

  method CollectLeaders(f: FunctionRecord, insns: seq<Instruction>) returns (starts: set<nat>, edges: seq<Edge>)
    ensures forall x :: x in starts <==> IsLeader(f, insns, x)
    ensures edges == EdgeList(f, AddressSet(insns), insns)
  {
    var known := AddressSet(insns);
    starts, edges := {f.start}, [];
    for n := 0 to |insns|
      invariant forall x ::
          x in starts <==> x == f.start || exists i :: 0 <= i < n && x in LeadersOf(f, known, insns[i])
      invariant edges == EdgeList(f, known, insns[..n])
    {
      assert insns[..n + 1][..n] == insns[..n];
      starts := starts + LeadersOf(f, known, insns[n]);
      edges := edges + EdgesOf(f, known, insns[n]);
    }
    assert insns[..|insns|] == insns;
  }

  lemma {:induction false} LeaderBounds(f: FunctionRecord, insns: seq<Instruction>, x: nat)
    requires FunctionView(f, insns) && insns != [] && IsLeader(f, insns, x)
    ensures f.start <= x < f.end
    ensures x != f.start
        ==> x in AddressSet(insns) || exists i ::
            0 <= i < |insns| && TargetInside(f, insns[i]) && insns[i].branchTarget.value == x
  {
    assert f.start <= insns[0].address < f.end;
  }

  /** Leader order, and where the interval opened by the i-th leader closes. */
  ghost predicate LeaderOrder(f: FunctionRecord, insns: seq<Instruction>, order: seq<nat>) {
    Ascending(order) && forall x :: x in order <==> IsLeader(f, insns, x)
  }

  function Following(f: FunctionRecord, order: seq<nat>, i: nat): nat {
    if i < |order| then order[i] else f.end
  }

  lemma {:induction false} FollowingGrows(f: FunctionRecord, insns: seq<Instruction>, order: seq<nat>, i: nat)
    requires FunctionView(f, insns) && insns != [] && LeaderOrder(f, insns, order) && i < |order|
    ensures order[i] < Following(f, order, i + 1)
    ensures forall x :: IsLeader(f, insns, x) ==> x <= order[i] || Following(f, order, i + 1) <= x
  {
    LeaderBounds(f, insns, order[i]);
  }

  /** One step of the block loop: the run opened by the i-th leader. */
  method CutBlock(f: FunctionRecord, insns: seq<Instruction>, order: seq<nat>, i: nat, ghost blocks: seq<Block>)
    returns (more: seq<Block>)
    requires FunctionView(f, insns) && insns != [] && LeaderOrder(f, insns, order) && i < |order|
    requires Partition(f, insns, blocks) && SplitAt(insns, Offset(blocks, |blocks|), order[i])
    requires forall k :: 0 <= k < |blocks| ==> blocks[k].start < order[i]
    ensures Partition(f, insns, blocks + more)
    ensures SplitAt(insns, Offset(blocks + more, |blocks + more|), Following(f, order, i + 1))
    ensures more == [] || (|more| == 1 && more[0].start == order[i])
  {
    FollowingGrows(f, insns, order, i);
    var run := InRange(insns, order[i], Following(f, order, i + 1));
    ghost var c := Offset(blocks, |blocks|);
    ghost var d := RangeIsSlice(insns, order[i], Following(f, order, i + 1), c);
    if run == [] {
      more := [];
      assert blocks + more == blocks;
    } else {
      var b := Block(order[i], Next(run[|run| - 1]), |run|);
      more := [b];
      assert run[|run| - 1] == insns[d - 1];
      assert order[i] in order;
      PartitionSnoc(f, insns, blocks, b);
    }
  }

  method SplitBlocks(f: FunctionRecord, insns: seq<Instruction>, order: seq<nat>) returns (blocks: seq<Block>)
    requires FunctionView(f, insns) && insns != [] && LeaderOrder(f, insns, order)
    ensures Built(f, insns, blocks)
  {
    blocks := [];
    FirstLeader(f, insns, order);
    for i := 0 to |order|
      invariant Partition(f, insns, blocks) && SplitAt(insns, Offset(blocks, |blocks|), Following(f, order, i))
      invariant i < |order| ==> forall k :: 0 <= k < |blocks| ==> blocks[k].start < order[i]
    {
      var more := CutBlock(f, insns, order, i, blocks);
      blocks := blocks + more;
    }
    assert insns[|insns| - 1].address < f.end;
  }

  lemma {:induction false} FirstLeader(f: FunctionRecord, insns: seq<Instruction>, order: seq<nat>)
    requires FunctionView(f, insns) && insns != [] && LeaderOrder(f, insns, order)
    ensures order != [] && order[0] == f.start
  {
    assert IsLeader(f, insns, f.start);
    LeaderBounds(f, insns, order[0]);
  }

  ghost predicate RecordOf(f: FunctionRecord, insns: seq<Instruction>, cfg: Cfg) {
    cfg.function_ == f.start && Built(f, insns, cfg.blocks) && cfg.edges == EdgeList(f, AddressSet(insns), insns)
  }

  /** The blocks partition the instructions: consecutive non-empty runs that cover all of them. */
  method BuildRecord(f: FunctionRecord, insns: seq<Instruction>) returns (cfg: Cfg)
    requires FunctionView(f, insns) && insns != []
    ensures RecordOf(f, insns, cfg) && EdgesExact(f, insns, cfg.edges)
  {
    var starts, edges := CollectLeaders(f, insns);
    EdgesExactly(f, insns);
    var order := Sorted(starts);
    SortedOrder(starts);
    forall x ensures x in order <==> x in starts { SortedMembers(starts, x); }
    var blocks := SplitBlocks(f, insns, order);
    cfg := Cfg(f.start, blocks, edges);
  }

  // ------------------------------------------------------- all functions

  /** `insns` is exactly the decoded instructions inside the function. */
  ghost predicate IsView(byVa: map<nat, Instruction>, f: FunctionRecord, insns: seq<Instruction>) {
    && FunctionView(f, insns)
    && (forall i :: 0 <= i < |insns| ==> insns[i].address in byVa && byVa[insns[i].address] == insns[i])
    && forall a: nat :: a in byVa && f.start <= a < f.end ==> a in AddressSet(insns)
  }

  ghost predicate RowFor(byVa: map<nat, Instruction>, f: FunctionRecord, insns: seq<Instruction>, row: Cfg) {
    IsView(byVa, f, insns) && RecordOf(f, insns, row)
  }

  ghost predicate HasRow(byVa: map<nat, Instruction>, f: FunctionRecord, row: Cfg) {
    exists insns :: RowFor(byVa, f, insns, row)
  }

  predicate HasCode(byVa: map<nat, Instruction>, f: FunctionRecord) {
    exists a :: a in byVa && f.start <= a < f.end
  }

  /** The functions that hold at least one decoded instruction, in order. */
  function Populated(byVa: map<nat, Instruction>, fs: seq<FunctionRecord>): seq<FunctionRecord> {
    if fs == [] then []
    else Populated(byVa, fs[..|fs| - 1]) + (if HasCode(byVa, fs[|fs| - 1]) then [fs[|fs| - 1]] else [])
  }

  /** The bounds are in order, or no decoded address lies between them; otherwise slicing panics. */
  ghost predicate SliceableIn(byVa: map<nat, Instruction>, f: FunctionRecord) {
    forall a :: a in byVa ==> !(f.end <= a < f.start)
  }

  /** The sorted decoded addresses. */
  ghost predicate Decoded(byVa: map<nat, Instruction>, addresses: seq<nat>) {
    && Ascending(addresses)
    && (forall a :: a in addresses <==> a in byVa)
    && (forall a :: a in byVa ==> byVa[a].address == a)
  }

  method SliceFunction(byVa: map<nat, Instruction>, addresses: seq<nat>, f: FunctionRecord)
    returns (insns: seq<Instruction>)
    requires Decoded(byVa, addresses) && SliceableIn(byVa, f)
    ensures IsView(byVa, f, insns)
  {
    hide IsView, SliceableIn;
    var lo := Search.PartitionPoint(addresses, f.start);
    var hi := Search.PartitionPoint(addresses, f.end);
    CutsFit(byVa, addresses, f, lo, hi);
    insns := seq(hi - lo, i requires 0 <= i < hi - lo =>
      assert addresses[lo + i] in addresses; byVa[addresses[lo + i]]);
    SliceIsView(byVa, addresses, f, lo, hi, insns);
  }

  lemma {:induction false} CutsFit(byVa: map<nat, Instruction>, addresses: seq<nat>, f: FunctionRecord, lo: nat,
                                   hi: nat)
    requires Decoded(byVa, addresses) && SliceableIn(byVa, f)
    requires Search.Separates(addresses, f.start, lo) && Search.Separates(addresses, f.end, hi)
    ensures lo <= hi
  {
    hide Search.Separates;
    forall i | 0 <= i < |addresses| ensures !(f.end <= addresses[i] < f.start) { assert addresses[i] in addresses; }
    Search.CutsInOrder(addresses, f.start, lo, f.end, hi);
  }

  lemma {:induction false} SliceIsView(byVa: map<nat, Instruction>, addresses: seq<nat>, f: FunctionRecord,
                                       lo: nat, hi: nat, insns: seq<Instruction>)
    requires Decoded(byVa, addresses) && lo <= hi
    requires Search.Separates(addresses, f.start, lo) && Search.Separates(addresses, f.end, hi)
    requires |insns| == hi - lo
    requires forall i :: 0 <= i < hi - lo ==> addresses[lo + i] in byVa && insns[i] == byVa[addresses[lo + i]]
    ensures IsView(byVa, f, insns)
  {
    assert forall i :: 0 <= i < |insns| ==> insns[i].address == addresses[lo + i];
    hide Decoded;
    assert Ascending(addresses) && (forall a :: a in byVa ==> a in addresses) by { DecodedParts(byVa, addresses); }
    forall a: nat | a in byVa && f.start <= a < f.end ensures a in AddressSet(insns) {
      var k :| 0 <= k < |addresses| && addresses[k] == a;
      assert insns[k - lo].address == a;
    }
  }

  lemma {:induction false} DecodedParts(byVa: map<nat, Instruction>, addresses: seq<nat>)
    requires Decoded(byVa, addresses)
    ensures Ascending(addresses) && forall a :: a in byVa ==> a in addresses
  {
  }

  method BuildOne(byVa: map<nat, Instruction>, addresses: seq<nat>, f: FunctionRecord) returns (row: Option<Cfg>)
    requires Decoded(byVa, addresses) && SliceableIn(byVa, f)
    ensures row.Some? <==> HasCode(byVa, f)
    ensures row.Some? ==> HasRow(byVa, f, row.value)
  {
    hide Partition, Offset, EdgeList;
    var insns := SliceFunction(byVa, addresses, f);
    if insns == [] {
      return None;
    }
    assert insns[0].address in byVa;
    var built := BuildRecord(f, insns);
    assert RowFor(byVa, f, insns, built);
    row := Some(built);
  }

  /** One row per function with decoded instructions, in function order. */
  method BuildCfg(fs: seq<FunctionRecord>, byVa: map<nat, Instruction>) returns (rows: seq<Cfg>)
    requires forall a :: a in byVa ==> byVa[a].address == a
    requires forall k :: 0 <= k < |fs| ==> SliceableIn(byVa, fs[k])
    ensures |rows| == |Populated(byVa, fs)|
    ensures forall k :: 0 <= k < |rows| ==> HasRow(byVa, Populated(byVa, fs)[k], rows[k])
  {
    hide HasRow, HasCode, SliceableIn;
    var addresses := Sorted(byVa.Keys);
    SortedOrder(byVa.Keys);
    forall a ensures a in addresses <==> a in byVa { SortedMembers(byVa.Keys, a); }
    rows := [];
    for n := 0 to |fs|
      invariant |rows| == |Populated(byVa, fs[..n])|
      invariant forall k :: 0 <= k < |rows| ==> HasRow(byVa, Populated(byVa, fs[..n])[k], rows[k])
    {
      assert fs[..n + 1][..n] == fs[..n];
      var row := BuildOne(byVa, addresses, fs[n]);
      if row.Some? {
        rows := rows + [row.value];
      }
    }
    assert fs[..|fs|] == fs;
  }

  // ------------------------------------------------- contiguous decoding

  /** Straight decoding: every instruction ends where the next one starts. */
  ghost predicate Contiguous(insns: seq<Instruction>) {
    && (forall i :: 0 <= i < |insns| ==> insns[i].size > 0)
    && (forall i :: 0 <= i < |insns| - 1 ==> Next(insns[i]) == insns[i + 1].address)
  }

  /** Branch targets inside the function fall on instruction starts. */
  ghost predicate AlignedTargets(f: FunctionRecord, insns: seq<Instruction>) {
    forall i :: 0 <= i < |insns| && TargetInside(f, insns[i]) ==> insns[i].branchTarget.value in AddressSet(insns)
  }

  /** Every instruction lies in some block. */
  lemma {:induction false} HomeBlock(blocks: seq<Block>, n: nat, i: nat) returns (k: nat)
    requires n <= |blocks| && i < Offset(blocks, n)
    ensures k < n && Offset(blocks, k) <= i < Offset(blocks, k + 1)
  {
    if i < Offset(blocks, n - 1) {
      k := HomeBlock(blocks, n - 1, i);
    } else {
      k := n - 1;
    }
  }

  lemma {:induction false} OffsetGrows(blocks: seq<Block>, k: nat, l: nat)
    requires k <= l <= |blocks|
    ensures Offset(blocks, k) <= Offset(blocks, l)
  {
    if k < l { OffsetGrows(blocks, k, l - 1); }
  }

  /** A leader that is an instruction address opens the block that holds that instruction. */
  lemma {:induction false} LeaderOpensBlock(f: FunctionRecord, insns: seq<Instruction>, blocks: seq<Block>, i: nat)
    returns (k: nat)
    requires Built(f, insns, blocks) && i < |insns| && IsLeader(f, insns, insns[i].address)
    ensures k < |blocks| && blocks[k].start == insns[i].address && Offset(blocks, k) == i
  {
    k := HomeBlock(blocks, |blocks|, i);
    assert CoversAt(f, insns, blocks, k);
    var lo, hi := Offset(blocks, k), Offset(blocks, k + 1);
    assert insns[i].address <= insns[hi - 1].address;
    assert insns[i].address <= blocks[k].start;
  }

  lemma {:induction false} EdgeTargets(f: FunctionRecord, insns: seq<Instruction>, n: nat, e: Edge)
    requires AlignedTargets(f, insns) && n <= |insns|
    requires e in EdgeList(f, AddressSet(insns), insns[..n])
    ensures IsLeader(f, insns, e.to) && e.to in AddressSet(insns)
  {
    assert insns[..n][..n - 1] == insns[..n - 1];
    if e in EdgesOf(f, AddressSet(insns), insns[n - 1]) {
      assert e.to in LeadersOf(f, AddressSet(insns), insns[n - 1]);
    } else {
      EdgeTargets(f, insns, n - 1, e);
    }
  }

  /** Blocks abut: each block ends exactly where the next one starts. */
  lemma {:induction false} BlocksAbut(f: FunctionRecord, insns: seq<Instruction>, blocks: seq<Block>, k: nat)
    requires Built(f, insns, blocks) && Contiguous(insns) && AlignedTargets(f, insns)
    requires k + 1 < |blocks|
    ensures blocks[k].start < blocks[k].end == blocks[k + 1].start
  {
    assert CoversAt(f, insns, blocks, k) && CoversAt(f, insns, blocks, k + 1);
    LeaderBounds(f, insns, blocks[k].start);
    LeaderBounds(f, insns, blocks[k + 1].start);
    assert blocks[k + 1].start in AddressSet(insns);
    var i :| 0 <= i < |insns| && insns[i].address == blocks[k + 1].start;
    var l := LeaderOpensBlock(f, insns, blocks, i);
    assert l == k + 1;
  }

  /** A jump or a call is the last instruction of its block. */
  lemma {:induction false} TransferEndsBlock(f: FunctionRecord, insns: seq<Instruction>, blocks: seq<Block>, i: nat)
    returns (k: nat)
    requires Built(f, insns, blocks) && Contiguous(insns)
    requires i < |insns| && LeavesLinear(insns[i])
    ensures k < |blocks| && Offset(blocks, k + 1) == i + 1 && blocks[k].end == Next(insns[i])
  {
    hide Unsplit;
    if i + 1 < |insns| {
      assert insns[i + 1].address in AddressSet(insns);
      assert Next(insns[i]) in LeadersOf(f, AddressSet(insns), insns[i]);
      var l := LeaderOpensBlock(f, insns, blocks, i + 1);
      k := l - 1;
    } else {
      k := |blocks| - 1;
    }
    assert CoversAt(f, insns, blocks, k);
  }

  /** Every recorded edge enters a block at its start. */
  lemma {:induction false} EdgeEntersBlock(f: FunctionRecord, insns: seq<Instruction>, blocks: seq<Block>, e: Edge)
    returns (k: nat)
    requires Built(f, insns, blocks) && AlignedTargets(f, insns)
    requires e in EdgeList(f, AddressSet(insns), insns)
    ensures k < |blocks| && blocks[k].start == e.to
  {
    assert insns[..|insns|] == insns;
    EdgeTargets(f, insns, |insns|, e);
    var i :| 0 <= i < |insns| && insns[i].address == e.to;
    k := LeaderOpensBlock(f, insns, blocks, i);
  }
}
