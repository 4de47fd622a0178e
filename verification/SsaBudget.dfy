/** The cap on SSA values only truncates: a two-run argument. */
module SsaBudget {
  import opened Common
  import opened Records
  import opened Ssa
  import Text

  // ------------------------------------------------------------ runs only append

  /** The edges whose target value survives a cap of `c`. */
  function EdgesInto(edges: seq<Flow>, c: nat): seq<Flow> {
    if edges == [] then []
    else
      var rest := EdgesInto(edges[..|edges| - 1], c);
      if edges[|edges| - 1].to.index < c then rest + [edges[|edges| - 1]] else rest
  }

  ghost predicate TargetsWithin(edges: seq<Flow>, lo: nat, hi: nat) {
    forall i :: 0 <= i < |edges| ==> lo <= edges[i].to.index < hi
  }

  /** `big` continues `small`: same beginning, and every added edge enters an added value. */
  ghost predicate Extends(small: Builder, big: Builder) {
    && small.values <= big.values
    && small.edges <= big.edges
    && TargetsWithin(big.edges[|small.edges|..], |small.values|, |big.values|)
  }

  lemma {:induction false} ExtendsTransitive(a: Builder, b: Builder, c: Builder)
    requires Extends(a, b) && Extends(b, c)
    ensures Extends(a, c)
  {
    forall i | 0 <= i < |c.edges| - |a.edges|
      ensures |a.values| <= c.edges[|a.edges|..][i].to.index < |c.values|
    {
      var k := |a.edges| + i;
      assert c.edges[|a.edges|..][i] == c.edges[k];
      if k < |b.edges| {
        assert c.edges[k] == b.edges[k] == b.edges[|a.edges|..][i];
      } else {
        assert c.edges[k] == c.edges[|b.edges|..][k - |b.edges|];
      }
    }
  }

  lemma {:induction false} EmitExtends(b: Builder, f: nat, block: Option<nat>, site: nat, storage: string,
                                       origin: Origin, constant: Option<nat>, inputs: seq<Def>)
    ensures Extends(b, Emit(b, f, block, site, storage, origin, constant, inputs))
    ensures |Emit(b, f, block, site, storage, origin, constant, inputs).values| == |b.values| + 1
  {
  }

  lemma {:induction false} PhiExtends(b: Builder, f: nat, block: nat, preds: seq<nat>, storage: string)
    ensures Extends(b, PhiFor(b, f, block, preds, storage))
    ensures |PhiFor(b, f, block, preds, storage).values| <= |b.values| + 1
  {
    EmitExtends(b, f, Some(block), block, storage, Phi, None, Incoming(b.outDefs, preds, storage));
  }

  lemma {:induction false} PhisExtends(b: Builder, f: nat, block: nat, preds: seq<nat>, storages: seq<string>, cap: nat)
    ensures Extends(b, Phis(b, f, block, preds, storages, cap))
    ensures |b.values| <= cap ==> |Phis(b, f, block, preds, storages, cap).values| <= cap
    decreases |storages|
  {
    hide PhiFor, Extends;
    if storages == [] || |b.values| >= cap {
      SelfExtends(b);
    } else {
      var b1 := PhiFor(b, f, block, preds, storages[0]);
      PhiExtends(b, f, block, preds, storages[0]);
      PhisExtends(b1, f, block, preds, storages[1..], cap);
      ExtendsTransitive(b, b1, Phis(b1, f, block, preds, storages[1..], cap));
    }
  }

  lemma {:induction false} SelfExtends(b: Builder)
    ensures Extends(b, b)
  {
  }

  lemma {:induction false} WritesExtends(b: Builder, f: nat, block: Option<nat>, ins: IrInstruction, inputs: seq<Def>,
                                         writes: seq<(string, Origin)>, cap: nat)
    ensures Extends(b, Writes(b, f, block, ins, inputs, writes, cap))
    ensures |b.values| <= cap ==> |Writes(b, f, block, ins, inputs, writes, cap).values| <= cap
    decreases |writes|
  {
    hide Emit, Extends;
    if writes == [] || |b.values| >= cap {
      SelfExtends(b);
    } else {
      var b1 := Emit(b, f, block, ins.address, writes[0].0, writes[0].1, ins.constant, inputs);
      EmitExtends(b, f, block, ins.address, writes[0].0, writes[0].1, ins.constant, inputs);
      WritesExtends(b1, f, block, ins, inputs, writes[1..], cap);
      ExtendsTransitive(b, b1, Writes(b1, f, block, ins, inputs, writes[1..], cap));
    }
  }

  lemma {:induction false} EnterExtends(b: Builder, f: nat, cfg: Option<Cfg>, ins: IrInstruction, cap: nat)
    ensures Extends(b, EnterBlock(b, f, cfg, ins, cap))
    ensures |b.values| <= cap ==> |EnterBlock(b, f, cfg, ins, cap).values| <= cap
  {
    hide Phis, Predecessors, JoinStorages;
    var block := BlockOf(cfg, ins.address);
    if block.Some? && block.value !in b.joined && Predecessors(cfg, block.value).Some? {
      var b1 := b.(joined := b.joined + {block.value});
      var preds := Predecessors(cfg, block.value).value;
      PhisExtends(b1, f, block.value, preds, Text.Ordered(JoinStorages(b1, preds)), cap);
    }
  }

  lemma {:induction false} InstrExtends(b: Builder, f: nat, cfg: Option<Cfg>, ins: IrInstruction, cap: nat)
    ensures Extends(b, Instr(b, f, cfg, ins, cap).b)
    ensures |b.values| <= cap ==> |Instr(b, f, cfg, ins, cap).b.values| <= cap
  {
    hide EnterBlock, Writes, OpensJoin, InputDefs, WriteStorages;
    EnterExtends(b, f, cfg, ins, cap);
    var b1 := EnterBlock(b, f, cfg, ins, cap);
    var block := BlockOf(cfg, ins.address);
    WritesExtends(b1, f, block, ins, InputDefs(b1, ins), WriteStorages(ins), cap);
    var b2 := Writes(b1, f, block, ins, InputDefs(b1, ins), WriteStorages(ins), cap);
    ExtendsTransitive(b, b1, b2);
    if |b.values| >= cap { SelfExtends(b); }
    assert Extends(b, LeaveBlock(b2, block));
  }

  lemma {:induction false} BuildExtends(f: nat, cfg: Option<Cfg>, ir: seq<IrInstruction>, n: nat, cap: nat)
    requires n <= |ir|
    ensures Extends(EMPTY, Build(f, cfg, ir, n, cap).b)
    ensures |Build(f, cfg, ir, n, cap).b.values| <= cap
  {
    hide Instr;
    if n > 0 {
      BuildExtends(f, cfg, ir, n - 1, cap);
      var before := Build(f, cfg, ir, n - 1, cap);
      if !before.stopped {
        InstrExtends(before.b, f, cfg, ir[n - 1], cap);
        ExtendsTransitive(EMPTY, before.b, Build(f, cfg, ir, n, cap).b);
      }
    }
  }

  // -------------------------------------------------------------- the two runs

  /** `small` is what a cap of `c` leaves of `big`. */
  ghost predicate Cut(c: nat, small: Builder, big: Builder) {
    if |big.values| < c then small == big
    else |small.values| == c && small.values == big.values[..c] && small.edges == EdgesInto(big.edges, c)
  }

  lemma {:induction false} EdgesIntoAll(edges: seq<Flow>, c: nat)
    requires TargetsWithin(edges, 0, c)
    ensures EdgesInto(edges, c) == edges
  {
    if edges != [] { EdgesIntoAll(edges[..|edges| - 1], c); }
  }

  lemma {:induction false} EdgesIntoAppend(a: seq<Flow>, b: seq<Flow>, c: nat, hi: nat)
    requires TargetsWithin(b, c, hi)
    ensures EdgesInto(a + b, c) == EdgesInto(a, c)
  {
    if b == [] {
      assert a + b == a;
    } else {
      var init := b[..|b| - 1];
      assert (a + b)[..|a + b| - 1] == a + init;
      EdgesIntoAppend(a, init, c, hi);
    }
  }

  lemma {:induction false} CutSelf(c: nat, b: Builder)
    requires Extends(EMPTY, b) && |b.values| <= c
    ensures Cut(c, b, b)
  {
    assert b.edges[0..] == b.edges;
    EdgesIntoAll(b.edges, c);
  }

  /** Once the cap is reached, what the larger run adds is cut away. */
  lemma {:induction false} CutFrozen(c: nat, small: Builder, small': Builder, big: Builder, big': Builder)
    requires Cut(c, small, big) && |big.values| >= c && Extends(big, big')
    requires small'.values == small.values && small'.edges == small.edges
    ensures Cut(c, small', big')
  {
    var added := big'.edges[|big.edges|..];
    assert big'.edges == big.edges + added;
    assert TargetsWithin(added, c, |big'.values|);
    EdgesIntoAppend(big.edges, added, c, |big'.values|);
  }

  lemma {:induction false} PhisCut(b: Builder, f: nat, block: nat, preds: seq<nat>, storages: seq<string>, c: nat,
                                   d: nat)
    requires Extends(EMPTY, b) && |b.values| < c <= d
    ensures Cut(c, Phis(b, f, block, preds, storages, c), Phis(b, f, block, preds, storages, d))
    decreases |storages|
  {
    hide PhiFor, Extends, Cut;
    if storages == [] {
      CutSelf(c, b);
    } else {
      var b1 := PhiFor(b, f, block, preds, storages[0]);
      PhiExtends(b, f, block, preds, storages[0]);
      ExtendsTransitive(EMPTY, b, b1);
      if |b1.values| < c {
        PhisCut(b1, f, block, preds, storages[1..], c, d);
      } else {
        CutSelf(c, b1);
        PhisExtends(b1, f, block, preds, storages[1..], d);
        CutFrozen(c, b1, b1, b1, Phis(b1, f, block, preds, storages[1..], d));
      }
    }
  }

  lemma {:induction false} WritesCut(b: Builder, f: nat, block: Option<nat>, ins: IrInstruction, inputs: seq<Def>,
                                     writes: seq<(string, Origin)>, c: nat, d: nat)
    requires Extends(EMPTY, b) && |b.values| < c <= d
    ensures Cut(c, Writes(b, f, block, ins, inputs, writes, c), Writes(b, f, block, ins, inputs, writes, d))
    decreases |writes|
  {
    hide Emit, Extends, Cut;
    if writes == [] {
      CutSelf(c, b);
    } else {
      var b1 := Emit(b, f, block, ins.address, writes[0].0, writes[0].1, ins.constant, inputs);
      EmitExtends(b, f, block, ins.address, writes[0].0, writes[0].1, ins.constant, inputs);
      ExtendsTransitive(EMPTY, b, b1);
      if |b1.values| < c {
        WritesCut(b1, f, block, ins, inputs, writes[1..], c, d);
      } else {
        CutSelf(c, b1);
        WritesExtends(b1, f, block, ins, inputs, writes[1..], d);
        CutFrozen(c, b1, b1, b1, Writes(b1, f, block, ins, inputs, writes[1..], d));
      }
    }
  }

  lemma {:induction false} EnterCut(b: Builder, f: nat, cfg: Option<Cfg>, ins: IrInstruction, c: nat, d: nat)
    requires Extends(EMPTY, b) && |b.values| < c <= d
    ensures Cut(c, EnterBlock(b, f, cfg, ins, c), EnterBlock(b, f, cfg, ins, d))
    ensures !OpensJoin(b, cfg, ins)
        ==> EnterBlock(b, f, cfg, ins, c) == EnterBlock(b, f, cfg, ins, d) && |EnterBlock(b, f, cfg, ins, c).values| < c
  {
    hide Phis, Predecessors, JoinStorages, Extends, Cut;
    var block := BlockOf(cfg, ins.address);
    if block.None? || block.value in b.joined {
      CutSelf(c, b);
    } else {
      var b1 := b.(joined := b.joined + {block.value});
      assert Extends(EMPTY, b1) by { JoinedIrrelevant(b, b1); }
      if Predecessors(cfg, block.value).Some? {
        var preds := Predecessors(cfg, block.value).value;
        PhisCut(b1, f, block.value, preds, Text.Ordered(JoinStorages(b1, preds)), c, d);
      } else {
        CutSelf(c, b1);
      }
    }
  }

  lemma {:induction false} JoinedIrrelevant(b: Builder, b': Builder)
    requires Extends(EMPTY, b) && b'.values == b.values && b'.edges == b.edges
    ensures Extends(EMPTY, b')
  {
  }

  lemma {:induction false} InstrCut(b: Builder, f: nat, cfg: Option<Cfg>, ins: IrInstruction, c: nat, d: nat)
    requires Extends(EMPTY, b) && |b.values| < c <= d
    ensures Cut(c, Instr(b, f, cfg, ins, c).b, Instr(b, f, cfg, ins, d).b)
  {
    hide EnterBlock, OpensJoin, InputDefs, WriteStorages, BlockOf, Extends, Writes;
    EnterCut(b, f, cfg, ins, c, d);
    var block := BlockOf(cfg, ins.address);
    var ec, ed := EnterBlock(b, f, cfg, ins, c), EnterBlock(b, f, cfg, ins, d);
    EnterExtends(b, f, cfg, ins, d);
    ExtendsTransitive(EMPTY, b, ed);
    var wd := Writes(ed, f, block, ins, InputDefs(ed, ins), WriteStorages(ins), d);
    WritesExtends(ed, f, block, ins, InputDefs(ed, ins), WriteStorages(ins), d);
    if |ed.values| < c {
      WritesCut(ed, f, block, ins, InputDefs(ed, ins), WriteStorages(ins), c, d);
    } else {
      WritesFull(ec, f, block, ins, InputDefs(ec, ins), WriteStorages(ins), c);
      SelfExtends(ed);
      CutFrozen(c, ec, ec, ed, ed);
      CutFrozen(c, ec, ec, ed, wd);
    }
  }

  lemma {:induction false} WritesFull(b: Builder, f: nat, block: Option<nat>, ins: IrInstruction, inputs: seq<Def>,
                                      writes: seq<(string, Origin)>, cap: nat)
    requires |b.values| >= cap
    ensures Writes(b, f, block, ins, inputs, writes, cap) == b
  {
  }

  lemma {:induction false} StoppedIsFull(f: nat, cfg: Option<Cfg>, ir: seq<IrInstruction>, n: nat, cap: nat)
    requires n <= |ir|
    ensures Build(f, cfg, ir, n, cap).stopped
        ==> Build(f, cfg, ir, n, cap).hit && |Build(f, cfg, ir, n, cap).b.values| >= cap
  {
    hide EnterBlock, Writes, OpensJoin, InputDefs, WriteStorages, BlockOf;
    if n > 0 { StoppedIsFull(f, cfg, ir, n - 1, cap); }
  }

  lemma {:induction false} BuildCut(f: nat, cfg: Option<Cfg>, ir: seq<IrInstruction>, n: nat, c: nat, d: nat)
    requires n <= |ir| && c <= d
    ensures Cut(c, Build(f, cfg, ir, n, c).b, Build(f, cfg, ir, n, d).b)
  {
    hide Instr, Extends, EdgesInto;
    if n == 0 {
      CutSelf(c, EMPTY);
    } else {
      BuildCut(f, cfg, ir, n - 1, c, d);
      StoppedIsFull(f, cfg, ir, n - 1, c);
      StoppedIsFull(f, cfg, ir, n - 1, d);
      BuildExtends(f, cfg, ir, n - 1, d);
      var sc, sd := Build(f, cfg, ir, n - 1, c), Build(f, cfg, ir, n - 1, d);
      if |sd.b.values| < c {
        InstrCut(sd.b, f, cfg, ir[n - 1], c, d);
      } else {
        FullStays(sc.b, f, cfg, ir[n - 1], c);
        InstrExtends(sd.b, f, cfg, ir[n - 1], d);
        SelfExtends(sd.b);
        CutFrozen(c, sc.b, sc.b, sd.b, Build(f, cfg, ir, n, d).b);
      }
    }
  }

  /**
   * Building with a smaller cap gives exactly the first values of the larger build and
   * exactly the edges into those values, wherever the cap falls.
   */
  lemma {:induction false} CapOnlyTruncates(f: nat, cfg: Option<Cfg>, ir: seq<IrInstruction>, c: nat, d: nat)
    requires c <= d
    ensures
      var small, big := Build(f, cfg, ir, |ir|, c).b, Build(f, cfg, ir, |ir|, d).b;
      && small.values == big.values[..if c <= |big.values| then c else |big.values|]
      && small.edges == EdgesInto(big.edges, c)
  {
    BuildCut(f, cfg, ir, |ir|, c, d);
    BuildExtends(f, cfg, ir, |ir|, d);
    var big := Build(f, cfg, ir, |ir|, d).b;
    hide Build;
    if |big.values| < c {
      CutSelf(c, big);
      assert big.edges[0..] == big.edges;
      EdgesIntoAll(big.edges, c);
    }
  }

  // -------------------------------------------------- the cap is reported honestly

  lemma {:induction false} WritesComplete(b: Builder, f: nat, block: Option<nat>, ins: IrInstruction,
                                          inputs: seq<Def>, writes: seq<(string, Origin)>, c: nat, d: nat)
    requires c <= d && |Writes(b, f, block, ins, inputs, writes, c).values| >= |b.values| + |writes|
    ensures Writes(b, f, block, ins, inputs, writes, c) == Writes(b, f, block, ins, inputs, writes, d)
    ensures |Writes(b, f, block, ins, inputs, writes, c).values| == |b.values| + |writes|
    decreases |writes|
  {
    hide Emit;
    if writes != [] && |b.values| < c {
      EmitExtends(b, f, block, ins.address, writes[0].0, writes[0].1, ins.constant, inputs);
      WritesComplete(Emit(b, f, block, ins.address, writes[0].0, writes[0].1, ins.constant, inputs), f, block, ins,
                     inputs, writes[1..], c, d);
    }
  }

  lemma {:induction false} InstrUnhit(b: Builder, f: nat, cfg: Option<Cfg>, ins: IrInstruction, c: nat, d: nat)
    requires Extends(EMPTY, b) && c <= d && !Instr(b, f, cfg, ins, c).hit
    ensures Instr(b, f, cfg, ins, d) == Instr(b, f, cfg, ins, c) && !Instr(b, f, cfg, ins, c).stopped
  {
    hide EnterBlock, OpensJoin, InputDefs, WriteStorages, BlockOf, Extends, Writes;
    EnterCut(b, f, cfg, ins, c, d);
    var e := EnterBlock(b, f, cfg, ins, c);
    assert EnterBlock(b, f, cfg, ins, d) == e;
    WritesComplete(e, f, BlockOf(cfg, ins.address), ins, InputDefs(e, ins), WriteStorages(ins), c, d);
  }

  /** Truncation is never silent: a run that does not report the cap is the run with any larger cap. */
  lemma {:induction false} UnreportedIsComplete(f: nat, cfg: Option<Cfg>, ir: seq<IrInstruction>, n: nat, c: nat,
                                                d: nat)
    requires n <= |ir| && c <= d && !Build(f, cfg, ir, n, c).hit
    ensures Build(f, cfg, ir, n, d) == Build(f, cfg, ir, n, c) && !Build(f, cfg, ir, n, c).stopped
  {
    hide Instr;
    if n > 0 {
      StoppedIsFull(f, cfg, ir, n - 1, c);
      UnreportedIsComplete(f, cfg, ir, n - 1, c, d);
      var before := Build(f, cfg, ir, n - 1, c);
      BuildExtends(f, cfg, ir, n - 1, c);
      InstrUnhit(before.b, f, cfg, ir[n - 1], c, d);
    }
  }

  lemma {:induction false} WritesShort(b: Builder, f: nat, block: Option<nat>, ins: IrInstruction, inputs: seq<Def>,
                                       writes: seq<(string, Origin)>, cap: nat)
    requires |Writes(b, f, block, ins, inputs, writes, cap).values| < |b.values| + |writes|
    ensures |Writes(b, f, block, ins, inputs, writes, cap).values| >= cap
    decreases |writes|
  {
    hide Emit;
    if |b.values| < cap {
      EmitExtends(b, f, block, ins.address, writes[0].0, writes[0].1, ins.constant, inputs);
      WritesShort(Emit(b, f, block, ins.address, writes[0].0, writes[0].1, ins.constant, inputs), f, block, ins,
                  inputs, writes[1..], cap);
    }
  }

  /** A reported cap means the output holds exactly that many values. */
  lemma {:induction false} HitIsFull(f: nat, cfg: Option<Cfg>, ir: seq<IrInstruction>, n: nat, cap: nat)
    requires n <= |ir| && Build(f, cfg, ir, n, cap).hit
    ensures |Build(f, cfg, ir, n, cap).b.values| == cap
  {
    hide Instr;
    BuildExtends(f, cfg, ir, n, cap);
    if n > 0 {
      var before := Build(f, cfg, ir, n - 1, cap);
      if before.hit {
        HitIsFull(f, cfg, ir, n - 1, cap);
        FullStays(before.b, f, cfg, ir[n - 1], cap);
      } else {
        InstrHit(before.b, f, cfg, ir[n - 1], cap);
      }
    }
  }

  lemma {:induction false} InstrHit(b: Builder, f: nat, cfg: Option<Cfg>, ins: IrInstruction, cap: nat)
    ensures Instr(b, f, cfg, ins, cap).hit ==> |Instr(b, f, cfg, ins, cap).b.values| >= cap
  {
    hide EnterBlock, OpensJoin, InputDefs, WriteStorages, BlockOf, Writes;
    var b1 := EnterBlock(b, f, cfg, ins, cap);
    var writes := WriteStorages(ins);
    var block := BlockOf(cfg, ins.address);
    if |Writes(b1, f, block, ins, InputDefs(b1, ins), writes, cap).values| < |b1.values| + |writes| {
      WritesShort(b1, f, block, ins, InputDefs(b1, ins), writes, cap);
    }
  }
}
