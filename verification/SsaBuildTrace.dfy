/** Every build is accounted for by its marks: the phis at joins, the steps of the pass, and the cap report. */
module SsaBuildTrace {
  import opened Common
  import opened Records
  import opened Ssa
  import opened SsaInvariants
  import opened SsaTrace
  import Text

  // ------------------------------------------------------------ joins, declaratively

  ghost predicate OutDefAt(outDefs: map<nat, map<string, Def>>, p: nat, s: string, j: nat) {
    p in outDefs && s in outDefs[p] && outDefs[p][s].id.index == j
  }

  lemma {:induction false} IncomingMembers(outDefs: map<nat, map<string, Def>>, preds: seq<nat>, s: string, j: nat)
    ensures HasIndex(Incoming(outDefs, preds, s), j)
        <==> exists i :: 0 <= i < |preds| && OutDefAt(outDefs, preds[i], s, j)
  {
    if preds != [] {
      var rest := preds[1..];
      IncomingMembers(outDefs, rest, s, j);
      var first := if preds[0] in outDefs && s in outDefs[preds[0]] then [outDefs[preds[0]][s]] else [];
      HasEither(first, Incoming(outDefs, rest, s), j);
      assert forall i :: 0 <= i < |rest| ==> rest[i] == preds[i + 1];
      if i :| 0 <= i < |rest| && OutDefAt(outDefs, rest[i], s, j) {
        assert OutDefAt(outDefs, preds[i + 1], s, j);
      }
      if first != [] && first[0].id.index == j {
        assert OutDefAt(outDefs, preds[0], s, j);
      }
    }
  }

  lemma {:induction false} SourcesFeed(blocks: seq<Block>, edges: seq<Edge>, block: nat, p: nat)
    ensures p in SourceBlocks(blocks, edges, block)
        <==> exists i :: 0 <= i < |edges| && edges[i].to == block && FindBlock(blocks, edges[i].from) == Some(p)
  {
    hide FindBlock;
    if edges != [] {
      var n := |edges| - 1;
      var init := edges[..n];
      SourcesFeed(blocks, init, block, p);
      assert forall i :: 0 <= i < n ==> init[i] == edges[i];
      if i :| 0 <= i < n && init[i].to == block && FindBlock(blocks, init[i].from) == Some(p) {
        assert edges[i].to == block;
      }
    }
  }

  ghost function Sources(cfg: Option<Cfg>, block: nat): set<nat> {
    match cfg case None => {} case Some(c) => SourceBlocks(c.blocks, c.edges, block)
  }

  lemma {:induction false} SourcesAreFeeders(cfg: Option<Cfg>, block: nat, p: nat)
    ensures p in Sources(cfg, block) <==> Feeds(cfg, p, block)
  {
    hide FindBlock, SourceBlocks;
    if cfg.Some? { SourcesFeed(cfg.value.blocks, cfg.value.edges, block, p); }
  }

  /** The predecessors of a join are its feeders, of which there are two. */
  lemma {:induction false} PredecessorsFeed(cfg: Option<Cfg>, block: nat)
    ensures Predecessors(cfg, block).Some?
        <==> exists p: nat, q: nat :: p != q && Feeds(cfg, p, block) && Feeds(cfg, q, block)
    ensures Predecessors(cfg, block).Some? ==> forall p: nat ::
        p in Predecessors(cfg, block).value <==> Feeds(cfg, p, block)
  {
    hide Feeds, SourceBlocks, FindBlock;
    var sources := Sources(cfg, block);
    forall p: nat ensures p in sources <==> Feeds(cfg, p, block) { SourcesAreFeeders(cfg, block, p); }
    if Predecessors(cfg, block).Some? {
      forall p: nat ensures p in Sorted(sources) <==> p in sources { SortedMembers(sources, p); }
      var p := Min(sources);
      var q :| q in sources - {p} by { assert |sources - {p}| >= 1; }
    }
    if p: nat, q: nat :| p != q && Feeds(cfg, p, block) && Feeds(cfg, q, block) {
      SetSize({p, q}, sources);
    }
  }

  lemma {:induction false} TwoMakePhi(b: Builder, preds: seq<nat>, s: string)
    requires OutDefsKnown(b)
    ensures
      var incoming := Incoming(b.outDefs, preds, s);
      NeedsPhi(incoming) <==> exists i: nat, j: nat :: i != j && HasIndex(incoming, i) && HasIndex(incoming, j)
  {
    hide Incoming, DefsKnown;
    IncomingKnown(b, preds, s);
    var incoming := Incoming(b.outDefs, preds, s);
    if NeedsPhi(incoming) {
      var j, k := TwoIds(incoming);
      assert IsDef(b.values, incoming[j], incoming[j].storage) && IsDef(b.values, incoming[k], incoming[k].storage);
      assert HasIndex(incoming, incoming[j].id.index) && HasIndex(incoming, incoming[k].id.index);
    }
    if i: nat, j: nat :| i != j && HasIndex(incoming, i) && HasIndex(incoming, j) {
      var k :| 0 <= k < |incoming| && incoming[k].id.index == i;
      var l :| 0 <= l < |incoming| && incoming[l].id.index == j;
      SetSize({incoming[k].id, incoming[l].id}, set x | 0 <= x < |incoming| :: incoming[x].id);
    }
  }

  // ------------------------------------------------------------- entering a block

  /** The builder's table of what left each block agrees with the values and marks so far. */
  ghost predicate OutsAre(cfg: Option<Cfg>, ir: seq<IrInstruction>, b: Builder, marks: seq<Mark>) {
    forall p: nat, s, j: nat ::
      OutDefAt(b.outDefs, p, s, j) <==> OutOf(cfg, ir, b.values, marks, |marks|, p, s, j)
  }

  lemma {:induction false} IncomingArrives(cfg: Option<Cfg>, ir: seq<IrInstruction>, b: Builder, marks: seq<Mark>,
                                           block: nat, preds: seq<nat>, s: string, j: nat)
    requires OutsAre(cfg, ir, b, marks) && forall p: nat :: p in preds <==> Feeds(cfg, p, block)
    ensures HasIndex(Incoming(b.outDefs, preds, s), j) <==> Arrives(cfg, ir, b.values, marks, |marks|, block, s, j)
  {
    hide HasIndex, Incoming, OutDefAt, OutOf, Feeds, Visited;
    IncomingMembers(b.outDefs, preds, s, j);
    if Arrives(cfg, ir, b.values, marks, |marks|, block, s, j) {
      var p: nat :| Feeds(cfg, p, block) && OutOf(cfg, ir, b.values, marks, |marks|, p, s, j);
      assert p in preds && OutDefAt(b.outDefs, p, s, j);
    }
    if i :| 0 <= i < |preds| && OutDefAt(b.outDefs, preds[i], s, j) {
      assert preds[i] in preds && OutOf(cfg, ir, b.values, marks, |marks|, preds[i], s, j);
    }
  }

  lemma {:induction false} PhiWhereMeets(cfg: Option<Cfg>, ir: seq<IrInstruction>, b: Builder, marks: seq<Mark>,
                                         block: nat, preds: seq<nat>, s: string)
    requires OutsAre(cfg, ir, b, marks) && (forall p: nat :: p in preds <==> Feeds(cfg, p, block)) && OutDefsKnown(b)
    ensures NeedsPhi(Incoming(b.outDefs, preds, s)) <==> Meets(cfg, ir, b.values, marks, |marks|, block, s)
    ensures NeedsPhi(Incoming(b.outDefs, preds, s)) ==> s in JoinStorages(b, preds)
  {
    hide HasIndex, Incoming, OutDefAt, OutOf, Feeds, Visited, NeedsPhi, Arrives, OutDefsKnown, OutsAre;
    TwoMakePhi(b, preds, s);
    forall j: nat
      ensures HasIndex(Incoming(b.outDefs, preds, s), j) <==> Arrives(cfg, ir, b.values, marks, |marks|, block, s, j)
    {
      IncomingArrives(cfg, ir, b, marks, block, preds, s, j);
    }
    if NeedsPhi(Incoming(b.outDefs, preds, s)) {
      var i: nat, j: nat :| i != j && HasIndex(Incoming(b.outDefs, preds, s), i)
          && HasIndex(Incoming(b.outDefs, preds, s), j);
      InJoinStorages(b, preds, s, i);
    }
  }

  lemma {:induction false} InJoinStorages(b: Builder, preds: seq<nat>, s: string, j: nat)
    requires HasIndex(Incoming(b.outDefs, preds, s), j)
    ensures s in JoinStorages(b, preds)
  {
    hide HasIndex, Incoming;
    IncomingMembers(b.outDefs, preds, s, j);
  }

  /** Without two feeders no storage has two definitions to join. */
  lemma {:induction false} NothingMeets(cfg: Option<Cfg>, ir: seq<IrInstruction>, values: seq<Value>,
                                        marks: seq<Mark>, n: nat, block: nat, s: string)
    requires Predecessors(cfg, block).None?
    ensures !Meets(cfg, ir, values, marks, n, block, s)
  {
    hide Feeds, Predecessors, LastBefore, Visits;
    PredecessorsFeed(cfg, block);
    if Meets(cfg, ir, values, marks, n, block, s) {
      var i: nat, j: nat :| i != j && Arrives(cfg, ir, values, marks, n, block, s, i)
          && Arrives(cfg, ir, values, marks, n, block, s, j);
      var p: nat :| Feeds(cfg, p, block) && OutOf(cfg, ir, values, marks, n, p, s, i);
      var q: nat :| Feeds(cfg, q, block) && OutOf(cfg, ir, values, marks, n, q, s, j);
      assert p == q;
      OutIsUnique(cfg, ir, values, marks, n, p, s, i, j);
    }
  }

  lemma {:induction false} OutIsUnique(cfg: Option<Cfg>, ir: seq<IrInstruction>, values: seq<Value>,
                                       marks: seq<Mark>, n: nat, p: nat, s: string, i: nat, j: nat)
    requires OutOf(cfg, ir, values, marks, n, p, s, i) && OutOf(cfg, ir, values, marks, n, p, s, j)
    ensures i == j
  {
    hide Visits, LastBefore;
    var k: nat :| LastVisit(cfg, ir, n, p, k) && k < |marks| && LastBefore(values, marks[k].leave, s, i);
    var l: nat :| LastVisit(cfg, ir, n, p, l) && l < |marks| && LastBefore(values, marks[l].leave, s, j);
    assert k == l;
    LastIsUnique(values, marks[k].leave, s, i, j);
  }

  lemma {:induction false} OrderedIncreases(storages: set<string>)
    ensures Increasing(Text.Ordered(storages))
  {
    Text.OrderedLex(storages);
    Text.OrderedDistinct(storages);
  }

  // ------------------------------------------ later values leave the account as it is

  ghost predicate Fits(marks: seq<Mark>, size: nat) {
    forall l :: 0 <= l < |marks| ==> marks[l].leave <= size
  }

  lemma {:induction false} OutStays(cfg: Option<Cfg>, ir: seq<IrInstruction>, b: Builder, r: Builder,
                                    marks: seq<Mark>, more: seq<Mark>, n: nat, p: nat, s: string, j: nat)
    requires Grown(b, r) && Fits(marks, |b.values|) && marks <= more && n <= |marks|
    ensures OutOf(cfg, ir, b.values, marks, n, p, s, j) <==> OutOf(cfg, ir, r.values, more, n, p, s, j)
  {
    hide LastBefore, Visits;
    if OutOf(cfg, ir, b.values, marks, n, p, s, j) {
      var l: nat :| LastVisit(cfg, ir, n, p, l) && l < |marks| && LastBefore(b.values, marks[l].leave, s, j);
      LastStays(b, r, marks[l].leave, s, j);
    }
    if OutOf(cfg, ir, r.values, more, n, p, s, j) {
      var l: nat :| LastVisit(cfg, ir, n, p, l) && l < |more| && LastBefore(r.values, more[l].leave, s, j);
      LastStays(b, r, marks[l].leave, s, j);
    }
  }

  lemma {:induction false} ArrivesStays(cfg: Option<Cfg>, ir: seq<IrInstruction>, b: Builder, r: Builder,
                                        marks: seq<Mark>, more: seq<Mark>, n: nat, block: nat, s: string)
    requires Grown(b, r) && Fits(marks, |b.values|) && marks <= more && n <= |marks|
    ensures forall j: nat ::
        Arrives(cfg, ir, b.values, marks, n, block, s, j) <==> Arrives(cfg, ir, r.values, more, n, block, s, j)
    ensures Meets(cfg, ir, b.values, marks, n, block, s) <==> Meets(cfg, ir, r.values, more, n, block, s)
  {
    hide OutOf, Feeds, Grown, Fits;
    forall j: nat
      ensures Arrives(cfg, ir, b.values, marks, n, block, s, j) <==> Arrives(cfg, ir, r.values, more, n, block, s, j)
    {
      forall p: nat
        ensures OutOf(cfg, ir, b.values, marks, n, p, s, j) <==> OutOf(cfg, ir, r.values, more, n, p, s, j)
      {
        OutStays(cfg, ir, b, r, marks, more, n, p, s, j);
      }
    }
    hide Arrives;
  }

  lemma {:induction false} PhiAtStays(cfg: Option<Cfg>, ir: seq<IrInstruction>, b: Builder, r: Builder,
                                      marks: seq<Mark>, more: seq<Mark>, n: nat, block: nat, k: nat)
    requires Grown(b, r) && Fits(marks, |b.values|) && marks <= more && n <= |marks| && k < |b.values|
    requires PhiAt(cfg, ir, b.values, b.edges, marks, n, block, k)
    ensures PhiAt(cfg, ir, r.values, r.edges, more, n, block, k)
  {
    hide Linked, Arrives, Meets;
    assert r.values[k] == r.values[..|b.values|][k] == b.values[k];
    ArrivesStays(cfg, ir, b, r, marks, more, n, block, b.values[k].storage);
    forall j: nat ensures Linked(r.edges, j, k) <==> Linked(b.edges, j, k) { LinkedStays(b, r, j, k); }
  }

  lemma {:induction false} PhisOfStays(cfg: Option<Cfg>, ir: seq<IrInstruction>, b: Builder, r: Builder,
                                       marks: seq<Mark>, more: seq<Mark>, n: nat, m: Mark, cap: nat)
    requires Grown(b, r) && Fits(marks, |b.values|) && marks <= more && n <= |marks| && n < |ir|
    requires PhisOf(cfg, ir, b.values, b.edges, marks, n, m, cap)
    ensures PhisOf(cfg, ir, r.values, r.edges, more, n, m, cap)
  {
    hide PhiAt, Meets, Below, Visited, BlockOf;
    var block := BlockOf(cfg, ir[n].address);
    assert forall k :: 0 <= k < |b.values| ==> r.values[k] == r.values[..|b.values|][k] == b.values[k];
    if block.Some? && !Visited(cfg, ir, n, block.value) {
      forall k | m.enter <= k < m.write ensures PhiAt(cfg, ir, r.values, r.edges, more, n, block.value, k) {
        PhiAtStays(cfg, ir, b, r, marks, more, n, block.value, k);
      }
      forall s | Meets(cfg, ir, r.values, more, n, block.value, s)
        ensures HasPhi(r.values, m, s) || CutOff(r.values, m, cap, s) {
        ArrivesStays(cfg, ir, b, r, marks, more, n, block.value, s);
        if HasPhi(b.values, m, s) {
          var k :| m.enter <= k < m.write && k < |b.values| && b.values[k].storage == s;
          assert r.values[k].storage == s;
        }
      }
    }
  }

  lemma {:induction false} WritesOfStays(cfg: Option<Cfg>, ins: IrInstruction, b: Builder, r: Builder, m: Mark,
                                         cap: nat)
    requires Grown(b, r) && WritesOf(cfg, ins, b.values, b.edges, m, cap)
    ensures WritesOf(cfg, ins, r.values, r.edges, m, cap)
  {
    hide WrittenBy, RowCount;
    forall k | m.write <= k < m.leave ensures WrittenBy(cfg, ins, r.values, r.edges, m.write, k) {
      WrittenStays(cfg, ins, b, r, m.write, k);
    }
  }

  lemma {:induction false} WrittenStays(cfg: Option<Cfg>, ins: IrInstruction, b: Builder, r: Builder, w: nat, k: nat)
    requires Grown(b, r) && w <= k < |b.values| && WrittenBy(cfg, ins, b.values, b.edges, w, k)
    ensures WrittenBy(cfg, ins, r.values, r.edges, w, k)
  {
    hide Linked, Reads, LastBefore, Row, BlockOf;
    assert forall i :: 0 <= i < |b.values| ==> r.values[i] == r.values[..|b.values|][i] == b.values[i];
    forall j: nat | j < k
      ensures Linked(r.edges, j, k)
          <==> Reads(ins, r.values[j].storage) && LastBefore(r.values, w, r.values[j].storage, j)
    {
      LinkedStays(b, r, j, k);
      LastStays(b, r, w, b.values[j].storage, j);
    }
  }

  lemma {:induction false} TraceStays(cfg: Option<Cfg>, ir: seq<IrInstruction>, b: Builder, r: Builder,
                                      marks: seq<Mark>, more: seq<Mark>, n: nat, cap: nat)
    requires Grown(b, r) && Fits(marks, |b.values|) && marks <= more && n < |marks| && n < |ir|
    requires TraceAt(cfg, ir, b.values, b.edges, marks, n, cap)
    ensures TraceAt(cfg, ir, r.values, r.edges, more, n, cap)
  {
    hide PhisOf, WritesOf, Fits, Grown;
    PhisOfStays(cfg, ir, b, r, marks, more, n, marks[n], cap);
    WritesOfStays(cfg, ir[n], b, r, marks[n], cap);
  }

  // ---------------------------------------------------------------- the entry step

  lemma {:induction false} PhiOnIsPhiAt(cfg: Option<Cfg>, ir: seq<IrInstruction>, b: Builder, r: Builder,
                                        marks: seq<Mark>, block: nat, preds: seq<nat>, k: nat)
    requires OutsAre(cfg, ir, b, marks) && (forall p: nat :: p in preds <==> Feeds(cfg, p, block)) && OutDefsKnown(b)
    requires Grown(b, r) && Fits(marks, |b.values|) && k < |r.values| && PhiOn(r, b.outDefs, preds, block, k)
    ensures PhiAt(cfg, ir, r.values, r.edges, marks, |marks|, block, k)
  {
    hide OutsAre, Feeds, OutDefsKnown, Grown, Fits, Linked, HasIndex, Incoming, NeedsPhi, Arrives, Meets, Described;
    var s := r.values[k].storage;
    PhiWhereMeets(cfg, ir, b, marks, block, preds, s);
    ArrivesStays(cfg, ir, b, r, marks, marks, |marks|, block, s);
    forall j: nat
      ensures HasIndex(Incoming(b.outDefs, preds, s), j) <==> Arrives(cfg, ir, b.values, marks, |marks|, block, s, j)
    {
      IncomingArrives(cfg, ir, b, marks, block, preds, s, j);
    }
  }

  lemma {:induction false} MeetsIsServed(cfg: Option<Cfg>, ir: seq<IrInstruction>, b: Builder, r: Builder,
                                         marks: seq<Mark>, block: nat, preds: seq<nat>, cap: nat, m: Mark, s: string)
    requires OutsAre(cfg, ir, b, marks) && (forall p: nat :: p in preds <==> Feeds(cfg, p, block)) && OutDefsKnown(b)
    requires Grown(b, r) && Fits(marks, |b.values|) && m.enter == |b.values| && m.write == |r.values|
    requires PhisComplete(|b.values|, r, b.outDefs, preds, Text.Ordered(JoinStorages(b, preds)), cap)
    requires Meets(cfg, ir, r.values, marks, |marks|, block, s)
    ensures HasPhi(r.values, m, s) || CutOff(r.values, m, cap, s)
  {
    hide OutsAre, Feeds, OutDefsKnown, Grown, Fits, Incoming, NeedsPhi, Meets, Below, JoinStorages, Text.Ordered;
    PhiWhereMeets(cfg, ir, b, marks, block, preds, s);
    ArrivesStays(cfg, ir, b, r, marks, marks, |marks|, block, s);
    var storages := Text.Ordered(JoinStorages(b, preds));
    Text.OrderedMembers(JoinStorages(b, preds), s);
    var i :| 0 <= i < |storages| && storages[i] == s;
    assert Served(|b.values|, r, cap, s);
  }

  /** Entering a block adds the phis that its predecessors call for. */
  lemma {:induction false} JoinTrace(b: Builder, f: nat, cfg: Option<Cfg>, ir: seq<IrInstruction>, marks: seq<Mark>,
                                     block: nat, preds: seq<nat>, cap: nat, leave: nat)
    requires Valid(f, b) && |b.values| <= cap && |marks| < |ir| && Fits(marks, |b.values|)
    requires OutsAre(cfg, ir, b, marks) && (forall p: nat :: p in preds <==> Feeds(cfg, p, block))
    requires BlockOf(cfg, ir[|marks|].address) == Some(block) && !Visited(cfg, ir, |marks|, block)
    ensures
      var r := Phis(b, f, block, preds, Text.Ordered(JoinStorages(b, preds)), cap);
      && Grown(b, r) && r.outDefs == b.outDefs && r.joined == b.joined && |r.values| <= cap
      && PhisOf(cfg, ir, r.values, r.edges, marks, |marks|, Mark(|b.values|, |r.values|, leave), cap)
      && forall k :: |b.values| <= k < |r.values| ==> Described(r.values, r.edges, k)
  {
    hide Valid, OutsAre, Feeds, Fits, Visited, Phis, Text.Ordered, JoinStorages, PhisComplete, Described, PhiAt,
        Meets, Below, BlockOf;
    hide HasIndex, Linked, Incoming, NeedsPhi, EmittedAs, HasPhi, CutOff, Increasing;
    var storages := Text.Ordered(JoinStorages(b, preds));
    OrderedIncreases(JoinStorages(b, preds));
    PhisTrace(b, f, block, preds, storages, cap);
    var r := Phis(b, f, block, preds, storages, cap);
    var m := Mark(|b.values|, |r.values|, leave);
    ValidOuts(f, b);
    forall k | m.enter <= k < m.write
      ensures PhiAt(cfg, ir, r.values, r.edges, marks, |marks|, block, k) && Described(r.values, r.edges, k)
    {
      PhiOnIsPhiAt(cfg, ir, b, r, marks, block, preds, k);
    }
    forall s | Meets(cfg, ir, r.values, marks, |marks|, block, s)
      ensures HasPhi(r.values, m, s) || CutOff(r.values, m, cap, s) {
      MeetsIsServed(cfg, ir, b, r, marks, block, preds, cap, m, s);
    }
  }

  lemma {:induction false} ValidOuts(f: nat, b: Builder)
    requires Valid(f, b)
    ensures OutDefsKnown(b)
  {
  }

  ghost predicate JoinedAre(cfg: Option<Cfg>, ir: seq<IrInstruction>, b: Builder, n: nat) {
    forall p: nat :: p in b.joined <==> Visited(cfg, ir, n, p)
  }

  ghost predicate MarkBlock(b: Builder, block: Option<nat>, r: Builder) {
    r.joined == b.joined + (match block case None => {} case Some(p) => {p})
  }

  /** Entering an instruction's block, over the values and edges after it. */
  lemma {:induction false} EnterTrace(b: Builder, f: nat, cfg: Option<Cfg>, ir: seq<IrInstruction>, marks: seq<Mark>,
                                      cap: nat, leave: nat)
    requires Valid(f, b) && |b.values| <= cap && |marks| < |ir| && Fits(marks, |b.values|)
    requires OutsAre(cfg, ir, b, marks) && JoinedAre(cfg, ir, b, |marks|)
    ensures
      var r := EnterBlock(b, f, cfg, ir[|marks|], cap);
      && Grown(b, r) && r.outDefs == b.outDefs && MarkBlock(b, BlockOf(cfg, ir[|marks|].address), r)
          && |r.values| <= cap
      && PhisOf(cfg, ir, r.values, r.edges, marks, |marks|, Mark(|b.values|, |r.values|, leave), cap)
      && forall k :: |b.values| <= k < |r.values| ==> Described(r.values, r.edges, k)
  {
    hide Valid, OutsAre, Fits, Visited, Phis, Text.Ordered, Described, PhiAt, Meets, BlockOf, Predecessors,
        JoinStorages;
    var block := BlockOf(cfg, ir[|marks|].address);
    if block.None? || block.value in b.joined {
      GrownSelf(b);
    } else {
      var b1, n := b.(joined := b.joined + {block.value}), |marks|;
      JoinedFrame(f, b, b1.joined);
      OutsFrame(cfg, ir, b, b1, marks);
      PredecessorsFeed(cfg, block.value);
      if Predecessors(cfg, block.value).Some? {
        hide PhisOf;
        JoinTrace(b1, f, cfg, ir, marks, block.value, Predecessors(cfg, block.value).value, cap, leave);
        GrownFrame(b, b1, EnterBlock(b, f, cfg, ir[n], cap));
      } else {
        forall s ensures !Meets(cfg, ir, b.values, marks, n, block.value, s) {
          NothingMeets(cfg, ir, b.values, marks, n, block.value, s);
        }
      }
    }
  }

  lemma {:induction false} OutsFrame(cfg: Option<Cfg>, ir: seq<IrInstruction>, b: Builder, r: Builder, marks: seq<Mark>)
    requires OutsAre(cfg, ir, b, marks) && r.outDefs == b.outDefs && r.values == b.values
    ensures OutsAre(cfg, ir, r, marks)
  {
    hide OutDefAt, OutOf;
  }

  lemma {:induction false} GrownFrame(b: Builder, c: Builder, r: Builder)
    requires b.values == c.values && b.edges == c.edges && Grown(c, r)
    ensures Grown(b, r)
  {
  }

  // --------------------------------------------------------------- one instruction

  lemma {:induction false} TraceFits(cfg: Option<Cfg>, ir: seq<IrInstruction>, b: Builder, marks: seq<Mark>, cap: nat)
    requires IsTrace(cfg, ir, b.values, b.edges, marks, cap)
    ensures Fits(marks, |b.values|)
  {
    hide PhisOf, WrittenBy, RowCount, Contiguous;
    forall l | 0 <= l < |marks| ensures marks[l].leave <= |b.values| {
      assert TraceAt(cfg, ir, b.values, b.edges, marks, l, cap);
    }
  }

  lemma {:induction false} TraceGrows(cfg: Option<Cfg>, ir: seq<IrInstruction>, b: Builder, r: Builder,
                                      marks: seq<Mark>, m: Mark, cap: nat)
    requires IsTrace(cfg, ir, b.values, b.edges, marks, cap) && Grown(b, r) && |marks| < |ir|
    requires m.enter == |b.values| && m.leave == |r.values|
    requires PhisOf(cfg, ir, r.values, r.edges, marks, |marks|, m, cap)
    requires WritesOf(cfg, ir[|marks|], r.values, r.edges, m, cap)
    ensures IsTrace(cfg, ir, r.values, r.edges, marks + [m], cap)
  {
    hide PhisOf, WritesOf, Fits, TraceAt;
    var more := marks + [m];
    TraceFits(cfg, ir, b, marks, cap);
    forall n | 0 <= n < |more| ensures TraceAt(cfg, ir, r.values, r.edges, more, n, cap) {
      if n < |marks| {
        assert TraceAt(cfg, ir, b.values, b.edges, marks, n, cap);
        TraceStays(cfg, ir, b, r, marks, more, n, cap);
      } else {
        LastTrace(cfg, ir, b, r, marks, m, cap);
      }
    }
  }

  lemma {:induction false} LastTrace(cfg: Option<Cfg>, ir: seq<IrInstruction>, b: Builder, r: Builder,
                                     marks: seq<Mark>, m: Mark, cap: nat)
    requires Fits(marks, |b.values|) && Grown(b, r) && |marks| < |ir|
    requires PhisOf(cfg, ir, r.values, r.edges, marks, |marks|, m, cap)
    requires WritesOf(cfg, ir[|marks|], r.values, r.edges, m, cap)
    ensures TraceAt(cfg, ir, r.values, r.edges, marks + [m], |marks|, cap)
  {
    hide PhisOf, WritesOf;
    GrownSelf(r);
    PhisOfStays(cfg, ir, r, r, marks, marks + [m], |marks|, m, cap);
  }

  lemma {:induction false} DescribedGrows(b: Builder, r: Builder)
    requires AllDescribed(b.values, b.edges) && Grown(b, r)
    requires forall k :: |b.values| <= k < |r.values| ==> Described(r.values, r.edges, k)
    ensures AllDescribed(r.values, r.edges)
  {
    hide Described, Grown;
    forall k | 0 <= k < |r.values| ensures Described(r.values, r.edges, k) {
      if k < |b.values| { DescribedStays(b, r, k); }
    }
  }

  /** Everything that is known of a build at the cap `cap` after `|marks|` instructions. */
  ghost predicate Traced(f: nat, cfg: Option<Cfg>, ir: seq<IrInstruction>, b: Builder, marks: seq<Mark>, cap: nat) {
    && Valid(f, b) && |b.values| <= cap && AllDescribed(b.values, b.edges)
    && IsTrace(cfg, ir, b.values, b.edges, marks, cap)
  }

  /** A full build is traced by empty marks from then on. */
  lemma {:induction false} FullTrace(f: nat, cfg: Option<Cfg>, ir: seq<IrInstruction>, b: Builder, marks: seq<Mark>,
                                     cap: nat)
    requires Traced(f, cfg, ir, b, marks, cap) && |b.values| == cap && |marks| < |ir|
    ensures Traced(f, cfg, ir, b, marks + [Mark(cap, cap, cap)], cap)
    ensures CappedAt(cfg, ir, marks + [Mark(cap, cap, cap)], |marks|, cap)
  {
    hide Valid, AllDescribed, IsTrace, Meets, BlockOf, Visited;
    GrownSelf(b);
    TraceGrows(cfg, ir, b, b, marks, Mark(cap, cap, cap), cap);
  }

  ghost function MarkOf(b: Builder, f: nat, cfg: Option<Cfg>, ins: IrInstruction, cap: nat): Mark {
    if |b.values| >= cap then Mark(cap, cap, cap)
    else Mark(|b.values|, |EnterBlock(b, f, cfg, ins, cap).values|, |Instr(b, f, cfg, ins, cap).b.values|)
  }

  lemma {:induction false} NoRows(cfg: Option<Cfg>, ins: IrInstruction, values: seq<Value>, edges: seq<Flow>, m: Mark,
                                  cap: nat)
    requires m.write == m.leave == |values| == cap
    ensures WritesOf(cfg, ins, values, edges, m, cap)
  {
  }

  lemma {:induction false} OpensJoins(b: Builder, cfg: Option<Cfg>, ir: seq<IrInstruction>, n: nat)
    requires n < |ir| && JoinedAre(cfg, ir, b, n)
    ensures OpensJoin(b, cfg, ir[n]) <==> Joins(cfg, ir, n)
  {
    hide BlockOf, Predecessors, Visited, Feeds;
    var block := BlockOf(cfg, ir[n].address);
    if block.Some? { PredecessorsFeed(cfg, block.value); }
  }

  /** One instruction extends the account by its mark, and reports the cap exactly when it made itself felt. */
  lemma {:induction false} InstrTrace(b: Builder, f: nat, cfg: Option<Cfg>, ir: seq<IrInstruction>, marks: seq<Mark>,
                                      cap: nat)
    requires Traced(f, cfg, ir, b, marks, cap) && |b.values| < cap && |marks| < |ir|
    requires OutsAre(cfg, ir, b, marks) && JoinedAre(cfg, ir, b, |marks|)
    ensures
      var p, m := Instr(b, f, cfg, ir[|marks|], cap), MarkOf(b, f, cfg, ir[|marks|], cap);
      && Traced(f, cfg, ir, p.b, marks + [m], cap)
      && (p.stopped ==> |p.b.values| == cap)
      && (!p.stopped ==> OutsAre(cfg, ir, p.b, marks + [m]) && JoinedAre(cfg, ir, p.b, |marks| + 1))
      && (p.hit <==> CappedAt(cfg, ir, marks + [m], |marks|, cap))
  {
    hide Valid, AllDescribed, IsTrace, OutsAre, JoinedAre, BlockOf, EnterBlock, InputDefs, WriteStorages, Writes,
        OpensJoin;
    hide PhisOf, Grown, Described, Joins, WrittenBy, Fits, RowCount, MarkBlock;
    var n, ins := |marks|, ir[|marks|];
    var p, m := Instr(b, f, cfg, ins, cap), MarkOf(b, f, cfg, ins, cap);
    var b1 := EnterBlock(b, f, cfg, ins, cap);
    TraceFits(cfg, ir, b, marks, cap);
    EnterTrace(b, f, cfg, ir, marks, cap, m.leave);
    EnterKeeps(b, f, cfg, ins, cap);
    DescribedGrows(b, b1);
    OpensJoins(b, cfg, ir, n);
    RowsAre(ins);
    if OpensJoin(b, cfg, ins) && |b1.values| >= cap {
      NoRows(cfg, ins, b1.values, b1.edges, m, cap);
      TraceGrows(cfg, ir, b, b1, marks, m, cap);
    } else {
      WriteTrace(b, b1, f, cfg, ir, marks, m, cap);
    }
  }

  /** The writes of an instruction and leaving its block. */
  lemma {:induction false} WriteTrace(b: Builder, b1: Builder, f: nat, cfg: Option<Cfg>, ir: seq<IrInstruction>,
                                      marks: seq<Mark>, m: Mark, cap: nat)
    requires Traced(f, cfg, ir, b, marks, cap) && |marks| < |ir| && Valid(f, b1) && |b1.values| <= cap
    requires AllDescribed(b1.values, b1.edges) && Grown(b, b1) && b1.outDefs == b.outDefs
    requires OutsAre(cfg, ir, b, marks) && JoinedAre(cfg, ir, b, |marks|)
    requires MarkBlock(b, BlockOf(cfg, ir[|marks|].address), b1)
    requires PhisOf(cfg, ir, b1.values, b1.edges, marks, |marks|, m, cap)
    requires
      var ins := ir[|marks|];
      var b2 := Writes(b1, f, BlockOf(cfg, ins.address), ins, InputDefs(b1, ins), WriteStorages(ins), cap);
      m == Mark(|b.values|, |b1.values|, |b2.values|)
    ensures
      var ins := ir[|marks|];
      var block := BlockOf(cfg, ins.address);
      var b2 := Writes(b1, f, block, ins, InputDefs(b1, ins), WriteStorages(ins), cap);
      var r := LeaveBlock(b2, block);
      && Traced(f, cfg, ir, r, marks + [m], cap)
      && OutsAre(cfg, ir, r, marks + [m]) && JoinedAre(cfg, ir, r, |marks| + 1)
      && |r.values| == |b2.values| && |r.values| == if |b1.values| + RowCount(ins) <= cap
          then |b1.values| + RowCount(ins) else cap
  {
    hide Valid, AllDescribed, IsTrace, OutsAre, JoinedAre, BlockOf, InputDefs, WriteStorages, Writes, LeaveBlock;
    hide PhisOf, Grown, Described, WrittenBy, Fits, RowCount, MarkBlock;
    var n, ins := |marks|, ir[|marks|];
    var block := BlockOf(cfg, ins.address);
    InstructionWrites(b1, f, cfg, ins, |b.values|, cap);
    var b2 := Writes(b1, f, block, ins, InputDefs(b1, ins), WriteStorages(ins), cap);
    GrownTrans(b, b1, b2);
    DescribedGrows(b1, b2);
    TraceFits(cfg, ir, b, marks, cap);
    FitsMore(marks, b, b1);
    PhisOfStays(cfg, ir, b1, b2, marks, marks, n, m, cap);
    TraceGrows(cfg, ir, b, b2, marks, m, cap);
    var r := LeaveBlock(b2, block);
    LeaveKeeps(f, b2, block);
    LeaveFrame(b2, block);
    OutsLeave(f, cfg, ir, b, b2, marks, m);
    JoinedLeave(cfg, ir, b, b1, r, n);
  }

  lemma {:induction false} FitsMore(marks: seq<Mark>, b: Builder, r: Builder)
    requires Fits(marks, |b.values|) && Grown(b, r)
    ensures Fits(marks, |r.values|)
  {
  }

  lemma {:induction false} LeaveFrame(b: Builder, block: Option<nat>)
    ensures
      var r := LeaveBlock(b, block);
      r.values == b.values && r.edges == b.edges && r.joined == b.joined
  {
  }

  lemma {:induction false} JoinedLeave(cfg: Option<Cfg>, ir: seq<IrInstruction>, b: Builder, b1: Builder, r: Builder,
                                       n: nat)
    requires n < |ir| && JoinedAre(cfg, ir, b, n) && MarkBlock(b, BlockOf(cfg, ir[n].address), b1)
    requires r.joined == b1.joined
    ensures JoinedAre(cfg, ir, r, n + 1)
  {
    hide BlockOf;
    forall p: nat ensures p in r.joined <==> Visited(cfg, ir, n + 1, p) {
      assert Visits(cfg, ir, n, p) <==> BlockOf(cfg, ir[n].address) == Some(p);
      assert Visited(cfg, ir, n + 1, p) <==> Visited(cfg, ir, n, p) || Visits(cfg, ir, n, p);
    }
  }

  /** Leaving a block records the last definitions there; what left the other blocks stays as it was. */
  lemma {:induction false} OutsLeave(f: nat, cfg: Option<Cfg>, ir: seq<IrInstruction>, b: Builder, b2: Builder,
                                     marks: seq<Mark>, m: Mark)
    requires |marks| < |ir| && Valid(f, b2) && Grown(b, b2) && b2.outDefs == b.outDefs && Fits(marks, |b.values|)
    requires OutsAre(cfg, ir, b, marks) && m.leave == |b2.values|
    ensures OutsAre(cfg, ir, LeaveBlock(b2, BlockOf(cfg, ir[|marks|].address)), marks + [m])
  {
    hide Valid, Grown, Fits, OutOf, BlockOf;
    var n := |marks|;
    var block := BlockOf(cfg, ir[n].address);
    var r, more := LeaveBlock(b2, block), marks + [m];
    forall p: nat, s, j: nat ensures OutDefAt(r.outDefs, p, s, j) <==> OutOf(cfg, ir, r.values, more, n + 1, p, s, j) {
      if Some(p) == block {
        OutHere(cfg, ir, r.values, more, n, p, s, j);
        CurrentAt(f, b2, s, j);
      } else {
        OutElsewhere(cfg, ir, r.values, more, n, p, s, j);
        OutStays(cfg, ir, b, b2, marks, more, n, p, s, j);
        assert OutDefAt(b.outDefs, p, s, j) <==> OutOf(cfg, ir, b.values, marks, n, p, s, j);
      }
    }
  }

  lemma {:induction false} OutHere(cfg: Option<Cfg>, ir: seq<IrInstruction>, values: seq<Value>, marks: seq<Mark>,
                                   n: nat, p: nat, s: string, j: nat)
    requires Visits(cfg, ir, n, p) && n < |marks|
    ensures OutOf(cfg, ir, values, marks, n + 1, p, s, j) <==> LastBefore(values, marks[n].leave, s, j)
  {
    hide Visits, LastBefore;
    var after := n + 1;
    assert LastVisit(cfg, ir, after, p, n);
    assert forall l: nat :: LastVisit(cfg, ir, after, p, l) ==> l == n;
  }

  lemma {:induction false} OutElsewhere(cfg: Option<Cfg>, ir: seq<IrInstruction>, values: seq<Value>, marks: seq<Mark>,
                                        n: nat, p: nat, s: string, j: nat)
    requires !Visits(cfg, ir, n, p) && n < |marks|
    ensures OutOf(cfg, ir, values, marks, n + 1, p, s, j) <==> OutOf(cfg, ir, values, marks, n, p, s, j)
  {
    hide Visits, LastBefore;
    var after := n + 1;
    assert forall l: nat :: LastVisit(cfg, ir, after, p, l) <==> LastVisit(cfg, ir, n, p, l);
  }

  // --------------------------------------------------------------------- the pass

  /** Where the values of each instruction lie. */
  ghost function Marks(f: nat, cfg: Option<Cfg>, ir: seq<IrInstruction>, n: nat, cap: nat): (r: seq<Mark>)
    requires n <= |ir|
    ensures |r| == n
  {
    if n == 0 then []
    else
      var before := Build(f, cfg, ir, n - 1, cap);
      Marks(f, cfg, ir, n - 1, cap)
      + [if before.stopped then Mark(cap, cap, cap) else MarkOf(before.b, f, cfg, ir[n - 1], cap)]
  }

  ghost predicate Capped(cfg: Option<Cfg>, ir: seq<IrInstruction>, marks: seq<Mark>, cap: nat)
    requires |marks| <= |ir|
  {
    exists n :: 0 <= n < |marks| && CappedAt(cfg, ir, marks, n, cap)
  }

  lemma {:induction false} CappedSnoc(cfg: Option<Cfg>, ir: seq<IrInstruction>, marks: seq<Mark>, m: Mark, cap: nat)
    requires |marks| < |ir|
    ensures Capped(cfg, ir, marks + [m], cap)
        <==> Capped(cfg, ir, marks, cap) || CappedAt(cfg, ir, marks + [m], |marks|, cap)
  {
    hide Joins, RowCount;
    var more := marks + [m];
    assert forall n :: 0 <= n < |marks| ==> more[n] == marks[n];
    if Capped(cfg, ir, marks, cap) {
      var n :| 0 <= n < |marks| && CappedAt(cfg, ir, marks, n, cap);
      assert CappedAt(cfg, ir, more, n, cap);
    }
    if Capped(cfg, ir, more, cap) && !CappedAt(cfg, ir, more, |marks|, cap) {
      var n :| 0 <= n < |more| && CappedAt(cfg, ir, more, n, cap);
      assert CappedAt(cfg, ir, marks, n, cap);
    }
  }

  ghost predicate BuildIs(f: nat, cfg: Option<Cfg>, ir: seq<IrInstruction>, p: Progress, marks: seq<Mark>, cap: nat)
    requires |marks| <= |ir|
  {
    && Traced(f, cfg, ir, p.b, marks, cap)
    && (p.hit <==> Capped(cfg, ir, marks, cap))
    && (p.stopped ==> |p.b.values| == cap && p.hit)
    && (!p.stopped ==> OutsAre(cfg, ir, p.b, marks) && JoinedAre(cfg, ir, p.b, |marks|))
  }

  lemma {:induction false} NothingBuilt(f: nat, cfg: Option<Cfg>, ir: seq<IrInstruction>, cap: nat)
    ensures BuildIs(f, cfg, ir, Progress(EMPTY, false, false), [], cap)
  {
    EmptyIsValid(f);
  }

  lemma {:induction false} BuildStep(f: nat, cfg: Option<Cfg>, ir: seq<IrInstruction>, p: Progress, marks: seq<Mark>,
                                     cap: nat)
    requires |marks| < |ir| && BuildIs(f, cfg, ir, p, marks, cap)
    ensures
      var ins := ir[|marks|];
      var m := if p.stopped then Mark(cap, cap, cap) else MarkOf(p.b, f, cfg, ins, cap);
      var after := Instr(p.b, f, cfg, ins, cap);
      var next := if p.stopped then p else after.(hit := p.hit || after.hit);
      BuildIs(f, cfg, ir, next, marks + [m], cap)
  {
    hide Traced, Capped, OutsAre, JoinedAre, CappedAt;
    var ins := ir[|marks|];
    CappedSnoc(cfg, ir, marks, if p.stopped then Mark(cap, cap, cap) else MarkOf(p.b, f, cfg, ins, cap), cap);
    TracedSize(f, cfg, ir, p.b, marks, cap);
    if |p.b.values| == cap {
      FullTrace(f, cfg, ir, p.b, marks, cap);
      FullStays(p.b, f, cfg, ins, cap);
    } else {
      hide MarkOf, Instr;
      InstrTrace(p.b, f, cfg, ir, marks, cap);
      StopIsHit(p.b, f, cfg, ins, cap);
    }
  }

  lemma {:induction false} TracedSize(f: nat, cfg: Option<Cfg>, ir: seq<IrInstruction>, b: Builder, marks: seq<Mark>,
                                      cap: nat)
    requires Traced(f, cfg, ir, b, marks, cap)
    ensures |b.values| <= cap
  {
  }

  lemma {:induction false} BuildTraced(f: nat, cfg: Option<Cfg>, ir: seq<IrInstruction>, n: nat, cap: nat)
    requires n <= |ir|
    ensures BuildIs(f, cfg, ir, Build(f, cfg, ir, n, cap), Marks(f, cfg, ir, n, cap), cap)
  {
    hide BuildIs, Instr, MarkOf;
    if n == 0 {
      NothingBuilt(f, cfg, ir, cap);
    } else {
      BuildTraced(f, cfg, ir, n - 1, cap);
      BuildStep(f, cfg, ir, Build(f, cfg, ir, n - 1, cap), Marks(f, cfg, ir, n - 1, cap), cap);
    }
  }
}
