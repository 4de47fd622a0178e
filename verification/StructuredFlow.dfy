/**
 * Dominators and natural loops over a recorded control-flow graph.
 *
 * The graph is the one the pass itself sees: its nodes are block starts, its
 * arcs are the recorded edges lifted to blocks. The reference notion is path
 * dominance; the iterative set algorithm is proved to compute exactly that.
 */
module StructuredFlow {
  import opened Common
  import opened Records

  // ---------------------------------------------------------------- the graph

  function Starts(blocks: seq<Block>): (s: set<nat>)
  {
    set i | 0 <= i < |blocks| :: blocks[i].start
  }

  lemma {:induction false} FindBlockIsStart(blocks: seq<Block>, address: nat)
    ensures FindBlock(blocks, address).Some? ==> FindBlock(blocks, address).value in Starts(blocks)
  {
    if blocks != [] && !(blocks[0].start <= address < blocks[0].end) {
      FindBlockIsStart(blocks[1..], address);
      assert forall i :: 0 <= i < |blocks| - 1 ==> blocks[1..][i] == blocks[i + 1];
    }
  }

  /** The block holding an address, or the address itself when it starts a block. */
  function BlockForAddress(cfg: Cfg, address: nat): (r: Option<nat>)
    ensures r.Some? ==> r.value in Starts(cfg.blocks)
  {
    FindBlockIsStart(cfg.blocks, address);
    match FindBlock(cfg.blocks, address)
    case Some(b) => Some(b)
    case None => if address in Starts(cfg.blocks) then Some(address) else None
  }

  predicate InBlock(b: Block, address: nat) { b.start <= address < b.end }

  /** Block `k` is the first one that holds the address. */
  ghost predicate FirstHolder(blocks: seq<Block>, k: nat, address: nat) {
    k < |blocks| && InBlock(blocks[k], address) && forall j :: 0 <= j < k ==> !InBlock(blocks[j], address)
  }

  ghost predicate NoHolder(blocks: seq<Block>, address: nat) {
    forall j :: 0 <= j < |blocks| ==> !InBlock(blocks[j], address)
  }

  lemma {:induction false} FindsFirstHolder(blocks: seq<Block>, address: nat)
    ensures
      match FindBlock(blocks, address)
      case Some(b) => exists k: nat :: FirstHolder(blocks, k, address) && blocks[k].start == b
      case None => NoHolder(blocks, address)
  {
    if blocks != [] {
      if InBlock(blocks[0], address) {
        assert FirstHolder(blocks, 0, address);
      } else {
        var rest := blocks[1..];
        FindsFirstHolder(rest, address);
        assert forall j :: 0 < j < |blocks| ==> blocks[j] == rest[j - 1];
        if FindBlock(rest, address).Some? {
          var k: nat :| FirstHolder(rest, k, address) && rest[k].start == FindBlock(rest, address).value;
          assert blocks[k + 1] == rest[k];
          assert FirstHolder(blocks, k + 1, address);
        }
      }
    }
  }

  /** The answer is the first block that holds the address, else the address if a block starts there. */
  lemma {:induction false} BlockHoldsAddress(cfg: Cfg, address: nat)
    ensures
      match BlockForAddress(cfg, address)
      case Some(b) =>
        || (exists k: nat :: FirstHolder(cfg.blocks, k, address) && cfg.blocks[k].start == b)
        || (NoHolder(cfg.blocks, address) && b == address && address in Starts(cfg.blocks))
      case None => NoHolder(cfg.blocks, address) && address !in Starts(cfg.blocks)
  {
    hide FirstHolder, NoHolder;
    FindsFirstHolder(cfg.blocks, address);
  }

  function TargetBlock(cfg: Cfg, e: Edge): nat {
    match BlockForAddress(cfg, e.to)
    case Some(b) => b
    case None => e.to
  }

  /** Source blocks of the edges into `b`, in edge order and with repetitions. */
  function IncomingBlocks(cfg: Cfg, edges: seq<Edge>, b: nat): (r: seq<nat>)
    ensures forall p :: p in r ==> p in Starts(cfg.blocks)
  {
    if edges == [] then []
    else
      var rest := IncomingBlocks(cfg, edges[..|edges| - 1], b);
      var e := edges[|edges| - 1];
      match BlockForAddress(cfg, e.from)
      case Some(p) => if TargetBlock(cfg, e) == b then rest + [p] else rest
      case None => rest
  }

  method PredecessorsByBlock(cfg: Cfg) returns (preds: map<nat, seq<nat>>)
    ensures forall b :: b in preds ==> preds[b] == IncomingBlocks(cfg, cfg.edges, b) != []
    ensures forall b :: b !in preds ==> IncomingBlocks(cfg, cfg.edges, b) == []
  {
    preds := map[];
    for i := 0 to |cfg.edges|
      invariant forall b :: b in preds ==> preds[b] == IncomingBlocks(cfg, cfg.edges[..i], b) != []
      invariant forall b :: b !in preds ==> IncomingBlocks(cfg, cfg.edges[..i], b) == []
    {
      var e := cfg.edges[i];
      assert cfg.edges[..i + 1][..i] == cfg.edges[..i];
      var source := BlockForAddress(cfg, e.from);
      if source.Some? {
        var target := TargetBlock(cfg, e);
        var row := if target in preds then preds[target] else [];
        preds := preds[target := row + [source.value]];
      }
    }
    assert cfg.edges[..|cfg.edges|] == cfg.edges;
  }

  ghost predicate Flows(cfg: Cfg, p: nat, b: nat) {
    p in IncomingBlocks(cfg, cfg.edges, b)
  }

  /** `Flows` without the traversal: some recorded edge leaves block `p` and enters block `b`. */
  lemma {:induction false} FlowsIsAnEdge(cfg: Cfg, edges: seq<Edge>, p: nat, b: nat)
    ensures p in IncomingBlocks(cfg, edges, b)
      <==> exists i ::
          0 <= i < |edges| && BlockForAddress(cfg, edges[i].from) == Some(p) && TargetBlock(cfg, edges[i]) == b
  {
    if edges != [] {
      var init := edges[..|edges| - 1];
      FlowsIsAnEdge(cfg, init, p, b);
      if exists i ::
          0 <= i < |init| && BlockForAddress(cfg, init[i].from) == Some(p) && TargetBlock(cfg, init[i]) == b {
        var i :| 0 <= i < |init| && BlockForAddress(cfg, init[i].from) == Some(p) && TargetBlock(cfg, init[i]) == b;
        assert edges[i] == init[i];
      }
      assert forall i :: 0 <= i < |edges| ==> i == |edges| - 1 || edges[i] == init[i];
    }
  }

  // ----------------------------------------------------------- path dominance

  ghost predicate IsRoot(cfg: Cfg, b: nat) {
    && b in Starts(cfg.blocks)
    && (b == cfg.blocks[0].start || IncomingBlocks(cfg, cfg.edges, b) == [])
  }

  /** A walk along recorded edges. */
  ghost predicate IsWalk(cfg: Cfg, p: seq<nat>) {
    forall i :: 0 < i < |p| ==> Flows(cfg, p[i - 1], p[i])
  }

  ghost predicate RootPath(cfg: Cfg, p: seq<nat>, b: nat) {
    p != [] && IsRoot(cfg, p[0]) && p[|p| - 1] == b && IsWalk(cfg, p)
  }

  ghost predicate Dominates(cfg: Cfg, d: nat, b: nat) {
    && d in Starts(cfg.blocks)
    && forall p :: RootPath(cfg, p, b) ==> d in p
  }

  // ------------------------------------------------------ the iterative sets

  type DomSets = map<nat, set<nat>>

  /** filter_map then reduce: the intersection of the rows that exist. */
  function Meet(doms: DomSets, preds: seq<nat>): (r: Option<set<nat>>)
  {
    if preds == [] then None
    else
      var rest := Meet(doms, preds[..|preds| - 1]);
      var p := preds[|preds| - 1];
      if p !in doms then rest
      else if rest.None? then Some(doms[p])
      else Some(rest.value * doms[p])
  }

  function NextRow(doms: DomSets, incoming: seq<nat>, b: nat): (next: set<nat>)
  {
    (match Meet(doms, incoming)
     case Some(s) => s
     case None => {}) + {b}
  }

  ghost predicate InAll(doms: DomSets, preds: seq<nat>, x: nat)
    requires forall p :: p in preds ==> p in doms
  {
    forall p :: p in preds ==> x in doms[p]
  }

  lemma {:induction false} MeetMembers(doms: DomSets, preds: seq<nat>, x: nat)
    requires forall p :: p in preds ==> p in doms
    ensures Meet(doms, preds).Some? <==> preds != []
    ensures preds != [] ==> (x in Meet(doms, preds).value <==> InAll(doms, preds, x))
  {
    if preds != [] {
      var init := preds[..|preds| - 1];
      var last := preds[|preds| - 1];
      assert last in preds && forall p :: p in preds <==> p == last || p in init;
      MeetMembers(doms, init, x);
      assert InAll(doms, preds, x) <==> InAll(doms, init, x) && x in doms[last];
    }
  }

  lemma {:induction false} NextRowMembers(doms: DomSets, preds: seq<nat>, b: nat, x: nat)
    requires forall p :: p in preds ==> p in doms
    ensures x in NextRow(doms, preds, b)
      <==> x == b || (preds != [] && InAll(doms, preds, x))
  {
    MeetMembers(doms, preds, x);
  }

  lemma {:induction false} NextRowMonotone(small: DomSets, big: DomSets, preds: seq<nat>, b: nat)
    requires forall p :: p in preds ==> p in small && p in big && small[p] <= big[p]
    ensures NextRow(small, preds, b) <= NextRow(big, preds, b)
  {
    forall x | x in NextRow(small, preds, b)
      ensures x in NextRow(big, preds, b)
    {
      NextRowMembers(small, preds, b, x);
      NextRowMembers(big, preds, b, x);
    }
  }

  /** Loop invariant of the fixpoint iteration. */
  ghost predicate Invariant(cfg: Cfg, doms: DomSets)
    requires cfg.blocks != []
  {
    && doms.Keys == Starts(cfg.blocks)
    && doms[cfg.blocks[0].start] == {cfg.blocks[0].start}
    // every true dominator is still there
    && (forall b, d :: b in doms && Dominates(cfg, d, b) ==> d in doms[b])
    // a further round can only shrink a row
    && (forall b ::
        b in doms && b != cfg.blocks[0].start ==> NextRow(doms, IncomingBlocks(cfg, cfg.edges, b), b) <= doms[b])
    && (forall b :: b in doms ==> doms[b] <= Starts(cfg.blocks))
  }

  lemma {:induction false} DominatesPredecessor(cfg: Cfg, d: nat, q: nat, b: nat)
    requires Dominates(cfg, d, b) && d != b && Flows(cfg, q, b)
    ensures Dominates(cfg, d, q)
  {
    forall p | RootPath(cfg, p, q)
      ensures d in p
    {
      assert RootPath(cfg, p + [b], b);
    }
  }

  /** A true dominator survives the recomputation of a row. */
  lemma {:induction false} DominatorInNextRow(cfg: Cfg, doms: DomSets, d: nat, b: nat)
    requires cfg.blocks != [] && Invariant(cfg, doms)
    requires b in doms && b != cfg.blocks[0].start && Dominates(cfg, d, b)
    ensures d in NextRow(doms, IncomingBlocks(cfg, cfg.edges, b), b)
  {
    var preds := IncomingBlocks(cfg, cfg.edges, b);
    NextRowMembers(doms, preds, b, d);
    if d != b {
      if preds == [] {
        assert RootPath(cfg, [b], b);
      }
      forall p | p in preds
        ensures d in doms[p]
      {
        DominatesPredecessor(cfg, d, p, b);
      }
    }
  }

  lemma {:induction false} UpdateKeepsInvariant(cfg: Cfg, doms: DomSets, b: nat)
    requires cfg.blocks != [] && Invariant(cfg, doms)
    requires b in doms && b != cfg.blocks[0].start
    ensures Invariant(cfg, doms[b := NextRow(doms, IncomingBlocks(cfg, cfg.edges, b), b)])
  {
    var next := NextRow(doms, IncomingBlocks(cfg, cfg.edges, b), b);
    var doms' := doms[b := next];
    forall c, d | c in doms' && Dominates(cfg, d, c)
      ensures d in doms'[c]
    {
      if c == b { DominatorInNextRow(cfg, doms, d, b); }
    }
    forall c | c in doms' && c != cfg.blocks[0].start
      ensures NextRow(doms', IncomingBlocks(cfg, cfg.edges, c), c) <= doms'[c]
    {
      NextRowMonotone(doms', doms, IncomingBlocks(cfg, cfg.edges, c), c);
    }
  }

  /** The measure: total size of the rows, along the block list. */
  ghost function TotalSize(doms: DomSets, blocks: seq<Block>): nat
    requires Starts(blocks) <= doms.Keys
  {
    if blocks == [] then 0
    else
      assert Starts(blocks[1..]) <= Starts(blocks) by {
        assert forall i :: 0 <= i < |blocks| - 1 ==> blocks[1..][i] == blocks[i + 1];
      }
      assert blocks[0].start in Starts(blocks);
      |doms[blocks[0].start]| + TotalSize(doms, blocks[1..])
  }

  lemma {:induction false} ShrinkingRow(doms: DomSets, blocks: seq<Block>, b: nat, row: set<nat>)
    requires Starts(blocks) <= doms.Keys && b in doms && row < doms[b]
    ensures TotalSize(doms[b := row], blocks) <= TotalSize(doms, blocks)
    ensures b in Starts(blocks) ==> TotalSize(doms[b := row], blocks) < TotalSize(doms, blocks)
  {
    if blocks != [] {
      assert forall i :: 0 <= i < |blocks| - 1 ==> blocks[1..][i] == blocks[i + 1];
      assert blocks[0].start in Starts(blocks);
      assert Starts(blocks) == {blocks[0].start} + Starts(blocks[1..]);
      ShrinkingRow(doms, blocks[1..], b, row);
      SubsetSize(row, doms[b]);
    }
  }

  lemma {:induction false} SubsetSize(a: set<nat>, b: set<nat>)
    requires a < b
    ensures |a| < |b|
  {
    assert b == a + (b - a);
    assert |b| == |a| + |b - a|;
    var x :| x in b - a;
  }

  /** The row of `b` already equals its recomputation. */
  ghost predicate Settled(cfg: Cfg, doms: DomSets, b: nat)
    requires cfg.blocks != [] && b in doms
  {
    b == cfg.blocks[0].start || doms[b] == NextRow(doms, IncomingBlocks(cfg, cfg.edges, b), b)
  }

  /** A fixpoint of the row equations has no row member that a root path avoids. */
  lemma {:induction false} FixpointOnPaths(cfg: Cfg, doms: DomSets, p: seq<nat>, b: nat, d: nat)
    requires cfg.blocks != [] && Invariant(cfg, doms) && b in doms
    requires forall c :: c in doms ==> Settled(cfg, doms, c)
    requires RootPath(cfg, p, b) && d in doms[b]
    ensures d in p
    decreases |p|
  {
    hide IncomingBlocks, NextRow, Dominates;
    assert Settled(cfg, doms, b);
    if b != cfg.blocks[0].start && d != b {
      var preds := IncomingBlocks(cfg, cfg.edges, b);
      NextRowMembers(doms, preds, b, d);
      var q := LastStep(cfg, p, b);
      assert q in preds && preds != [];
      FixpointOnPaths(cfg, doms, p[..|p| - 1], q, d);
    }
  }

  /** A root path to a block that is no root ends with an arc into it. */
  lemma {:induction false} LastStep(cfg: Cfg, p: seq<nat>, b: nat) returns (q: nat)
    requires RootPath(cfg, p, b) && cfg.blocks != [] && b != cfg.blocks[0].start
    requires IncomingBlocks(cfg, cfg.edges, b) != []
    ensures Flows(cfg, q, b) && |p| > 1 && RootPath(cfg, p[..|p| - 1], q)
  {
    hide IncomingBlocks;
    var init := p[..|p| - 1];
    assert |p| > 1;
    q := init[|init| - 1];
  }

  lemma {:induction false} FixpointIsDominance(cfg: Cfg, doms: DomSets)
    requires cfg.blocks != [] && Invariant(cfg, doms)
    requires forall c :: c in doms ==> Settled(cfg, doms, c)
    ensures forall b, d :: b in doms ==> (d in doms[b] <==> Dominates(cfg, d, b))
  {
    forall b, d | b in doms && d in doms[b]
      ensures Dominates(cfg, d, b)
    {
      forall p | RootPath(cfg, p, b)
        ensures d in p
      {
        FixpointOnPaths(cfg, doms, p, b, d);
      }
    }
  }

  lemma {:induction false} InitialRows(cfg: Cfg, doms: DomSets)
    requires cfg.blocks != []
    requires doms == map b | b in Starts(cfg.blocks) ::
        if b == cfg.blocks[0].start then {cfg.blocks[0].start} else Starts(cfg.blocks)
    ensures Invariant(cfg, doms)
  {
    var entry := cfg.blocks[0].start;
    assert entry in Starts(cfg.blocks);
    assert RootPath(cfg, [entry], entry);
    forall b | b in doms && b != entry
      ensures NextRow(doms, IncomingBlocks(cfg, cfg.edges, b), b) <= doms[b]
    {
      var preds := IncomingBlocks(cfg, cfg.edges, b);
      forall x | x in NextRow(doms, preds, b)
        ensures x in doms[b]
      {
        NextRowMembers(doms, preds, b, x);
        if x != b { assert preds[0] in preds; }
      }
    }
  }

  /** Recompute one row; report whether it moved. */
  method UpdateRow(cfg: Cfg, preds: map<nat, seq<nat>>, doms: DomSets, b: nat) returns (doms': DomSets, moved: bool)
    requires cfg.blocks != [] && Invariant(cfg, doms) && b in Starts(cfg.blocks)
    requires forall c :: c in preds ==> preds[c] == IncomingBlocks(cfg, cfg.edges, c)
    requires forall c :: c !in preds ==> IncomingBlocks(cfg, cfg.edges, c) == []
    ensures Invariant(cfg, doms')
    ensures moved ==> TotalSize(doms', cfg.blocks) < TotalSize(doms, cfg.blocks)
    ensures !moved ==> doms' == doms && Settled(cfg, doms, b)
  {
    doms', moved := doms, false;
    if b != cfg.blocks[0].start {
      var incoming := if b in preds then preds[b] else [];
      var next := NextRow(doms, incoming, b);
      if doms[b] != next {
        ShrinkingRow(doms, cfg.blocks, b, next);
        UpdateKeepsInvariant(cfg, doms, b);
        doms', moved := doms[b := next], true;
      }
    }
  }

  /** One sweep over the blocks, in block order. */
  method Sweep(cfg: Cfg, preds: map<nat, seq<nat>>, before: DomSets) returns (doms: DomSets, changed: bool)
    requires cfg.blocks != [] && Invariant(cfg, before)
    requires forall c :: c in preds ==> preds[c] == IncomingBlocks(cfg, cfg.edges, c)
    requires forall c :: c !in preds ==> IncomingBlocks(cfg, cfg.edges, c) == []
    ensures Invariant(cfg, doms)
    ensures changed ==> TotalSize(doms, cfg.blocks) < TotalSize(before, cfg.blocks)
    ensures !changed ==> doms == before && forall c :: c in doms ==> Settled(cfg, doms, c)
  {
    hide NextRow, IncomingBlocks, TotalSize, Dominates;
    doms, changed := before, false;
    for i := 0 to |cfg.blocks|
      invariant Invariant(cfg, doms)
      invariant changed ==> TotalSize(doms, cfg.blocks) < TotalSize(before, cfg.blocks)
      invariant !changed ==> doms == before
      invariant !changed ==> forall j :: 0 <= j < i ==> Settled(cfg, before, cfg.blocks[j].start)
    {
      var moved;
      doms, moved := UpdateRow(cfg, preds, doms, cfg.blocks[i].start);
      changed := changed || moved;
    }
  }

  /**
   * The iterative computation halts on every graph, and its answer is exactly
   * path dominance from the entry block and from the blocks with no incoming edge.
   */
  method DominatorSets(cfg: Cfg) returns (doms: DomSets)
    ensures doms.Keys == Starts(cfg.blocks)
    ensures forall b, d :: b in doms ==> (d in doms[b] <==> Dominates(cfg, d, b))
  {
    if cfg.blocks == [] {
      return map[];
    }
    var entry := cfg.blocks[0].start;
    var all := Starts(cfg.blocks);
    var preds := PredecessorsByBlock(cfg);
    doms := map b | b in all :: if b == entry then {entry} else all;
    InitialRows(cfg, doms);
    var changed := true;
    while changed
      invariant Invariant(cfg, doms)
      invariant !changed ==> forall c :: c in doms ==> Settled(cfg, doms, c)
      decreases TotalSize(doms, cfg.blocks), changed
    {
      doms, changed := Sweep(cfg, preds, doms);
    }
    FixpointIsDominance(cfg, doms);
  }

  // ------------------------------------------------------------ natural loops

  const MAX_BLOCKS: nat := 768
  const MAX_EDGES: nat := 4096

  /** Edges that do not go forward in address order. */
  function FallbackBackedges(edges: seq<Edge>): seq<Edge> {
    if edges == [] then []
    else
      var rest := FallbackBackedges(edges[..|edges| - 1]);
      var e := edges[|edges| - 1];
      if e.to <= e.from then rest + [e] else rest
  }

  /** The declarative reading: a backward edge into a block that dominates its source block. */
  ghost predicate IsNaturalBackedge(cfg: Cfg, e: Edge) {
    && e.to <= e.from
    && BlockForAddress(cfg, e.from).Some?
    && Dominates(cfg, TargetBlock(cfg, e), BlockForAddress(cfg, e.from).value)
  }

  ghost function NaturalEdges(cfg: Cfg, edges: seq<Edge>): seq<Edge> {
    if edges == [] then []
    else
      var rest := NaturalEdges(cfg, edges[..|edges| - 1]);
      var e := edges[|edges| - 1];
      if IsNaturalBackedge(cfg, e) then rest + [e] else rest
  }

  predicate WithinCaps(cfg: Cfg) {
    cfg.blocks != [] && |cfg.blocks| <= MAX_BLOCKS && |cfg.edges| <= MAX_EDGES
  }

  /** Within the caps the answer is the natural backedges, in order; beyond them, the fallback. */
  method NaturalBackedges(cfg: Cfg) returns (r: seq<Edge>)
    ensures WithinCaps(cfg) ==> r == NaturalEdges(cfg, cfg.edges)
    ensures !WithinCaps(cfg) ==> r == FallbackBackedges(cfg.edges)
  {
    if cfg.blocks == [] || |cfg.blocks| > MAX_BLOCKS || |cfg.edges| > MAX_EDGES {
      return FallbackBackedges(cfg.edges);
    }
    var doms := DominatorSets(cfg);
    r := [];
    for i := 0 to |cfg.edges|
      invariant r == NaturalEdges(cfg, cfg.edges[..i])
    {
      var e := cfg.edges[i];
      assert cfg.edges[..i + 1][..i] == cfg.edges[..i];
      if e.to <= e.from {
        var source := BlockForAddress(cfg, e.from);
        if source.Some? {
          var target := TargetBlock(cfg, e);
          if source.value in doms && target in doms[source.value] {
            r := r + [e];
          }
        }
      }
    }
    assert cfg.edges[..|cfg.edges|] == cfg.edges;
  }

  /** Refining the fallback answer loses nothing: natural edges are a selection from it, order kept. */
  lemma {:induction false} NaturalRefinesFallback(cfg: Cfg, edges: seq<Edge>)
    ensures NaturalEdges(cfg, FallbackBackedges(edges)) == NaturalEdges(cfg, edges)
    ensures multiset(NaturalEdges(cfg, edges)) <= multiset(FallbackBackedges(edges))
  {
    if edges != [] {
      var init := edges[..|edges| - 1];
      var e := edges[|edges| - 1];
      NaturalRefinesFallback(cfg, init);
      if e.to <= e.from {
        assert FallbackBackedges(edges)[..|FallbackBackedges(edges)| - 1] == FallbackBackedges(init);
      }
    }
  }

  /** A walk that ends in `s` and never meets `h`. */
  ghost predicate AvoidingWalk(cfg: Cfg, w: seq<nat>, h: nat, s: nat) {
    w != [] && IsWalk(cfg, w) && w[|w| - 1] == s && h !in w
  }

  /** Membership in the natural loop of header `h` and source `s`. */
  ghost predicate InLoop(cfg: Cfg, h: nat, s: nat, x: nat) {
    x == h || exists w :: AvoidingWalk(cfg, w, h, s) && w[0] == x
  }

  lemma {:induction false} HeaderDominatesWalk(cfg: Cfg, h: nat, s: nat, w: seq<nat>)
    requires Dominates(cfg, h, s) && AvoidingWalk(cfg, w, h, s)
    ensures Dominates(cfg, h, w[0])
  {
    forall p | RootPath(cfg, p, w[0])
      ensures h in p
    {
      var whole := p + w[1..];
      forall i | 0 < i < |whole|
        ensures Flows(cfg, whole[i - 1], whole[i])
      {
        if i >= |p| { assert whole[i] == w[i - |p| + 1] && whole[i - 1] == w[i - |p|]; }
      }
      assert RootPath(cfg, whole, s);
      assert h in whole;
      assert forall x :: x in w[1..] ==> x in w;
    }
  }

  /**
   * Every reported loop has one entry: its header dominates each member, and an
   * arc from outside the loop can only enter at the header.
   */
  lemma {:induction false} NaturalLoopSingleEntry(cfg: Cfg, e: Edge, x: nat)
    requires IsNaturalBackedge(cfg, e)
    requires InLoop(cfg, TargetBlock(cfg, e), BlockForAddress(cfg, e.from).value, x)
    ensures Dominates(cfg, TargetBlock(cfg, e), x)
    ensures forall u ::
        Flows(cfg, u, x) && x != TargetBlock(cfg, e) ==>
          InLoop(cfg, TargetBlock(cfg, e), BlockForAddress(cfg, e.from).value, u)
  {
    var h := TargetBlock(cfg, e);
    var s := BlockForAddress(cfg, e.from).value;
    if x != h {
      var w :| AvoidingWalk(cfg, w, h, s) && w[0] == x;
      HeaderDominatesWalk(cfg, h, s, w);
      forall u | Flows(cfg, u, x) && u != h
        ensures InLoop(cfg, h, s, u)
      {
        assert AvoidingWalk(cfg, [u] + w, h, s);
      }
    }
  }
}
