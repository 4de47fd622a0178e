/** Which producer lines the composition pass removes, where every write is harmless and no copy of itself. */
module CompositionRemoval {
  import opened Common
  import opened Substitution
  import opened StatementText
  import opened Expressions
  import opened StraightLine
  import opened CompositionMeaning
  import Text

  // ---------------------------------------------------------- in program terms

  predicate Writes(prog: seq<Stmt>, m: nat, r: string) {
    m < |prog| && prog[m].Assign? && prog[m].reg == r
  }

  /** The register written at `p` is not written again before `i`. */
  ghost predicate Kept(prog: seq<Stmt>, p: nat, i: nat)
    requires p < |prog| && prog[p].Assign?
  {
    forall m :: p < m < i ==> !Writes(prog, m, prog[p].reg)
  }

  /** Statement `q`, a comment perhaps, names the value that `p` wrote. */
  ghost predicate Consumes(prog: seq<Stmt>, p: nat, q: nat)
    requires p < |prog| && prog[p].Assign?
  {
    p < q < |prog| && Kept(prog, p, q) && Mentions(prog[q], prog[p].reg)
  }

  ghost predicate ConsumedBefore(prog: seq<Stmt>, p: nat, i: nat)
    requires p < |prog| && prog[p].Assign?
  {
    exists q: nat :: q < i && Consumes(prog, p, q)
  }

  /** A dead line: its value was inlined somewhere, or it is the last write of a register no caller can observe. */
  ghost predicate Dead(prog: seq<Stmt>, p: nat) {
    && p < |prog| && prog[p].Assign?
    && (ConsumedBefore(prog, p, |prog|) || (Kept(prog, p, |prog|) && prog[p].reg in CALLER_SAVED))
  }

  // ------------------------------------------------------------ reads and slots

  /** Every write is harmless, and none copies a register to itself. */
  ghost predicate Strict(prog: seq<Stmt>, n: nat)
    requires n <= |prog|
  {
    && AllHarmless(prog, n)
    && forall i ::
        0 <= i < n && prog[i].Assign? ==> !SelfCopy(RewriteExpr(prog[i].rhs, LiveBefore(prog, i)), prog[i].reg)
  }

  lemma {:induction false} StrictPrefix(prog: seq<Stmt>, m: nat, n: nat)
    requires m <= n <= |prog| && Strict(prog, n)
    ensures Strict(prog, m)
  {
    hide Harmless, SelfCopy, RewriteExpr, LiveBefore;
  }

  /** No live expression mentions a live register. */
  ghost predicate Closed(live: LiveExprs) {
    forall k, r :: k in live && r in Regs(live[k]) ==> r !in live
  }

  lemma {:induction false} NoSelfCopies(prog: seq<Stmt>, i: nat)
    requires i <= |prog| && Strict(prog, i)
    ensures forall k :: k in LiveBefore(prog, i) ==> !SelfCopy(LiveBefore(prog, i)[k], k)
  {
    hide SelfCopy, Harmless, RewriteExpr;
    if i > 0 { NoSelfCopies(prog, i - 1); }
  }

  lemma {:induction false} StrictIsClosed(prog: seq<Stmt>, i: nat)
    requires i <= |prog| && Strict(prog, i)
    ensures Closed(LiveBefore(prog, i))
  {
    hide SelfCopy, Harmless, RewriteExpr, LiveBefore, Regs;
    NoSelfCopies(prog, i);
    HarmlessIsSettled(prog, i);
    var live := LiveBefore(prog, i);
    forall k, r | k in live && r in Regs(live[k]) ensures r !in live {
      assert Untouched(live, r);
    }
  }

  /** Putting an expression for one register does not change whether another is named. */
  lemma {:induction false} MentionsAfterPut(s: Stmt, k: string, x: Expr, q: string)
    requires Full(k) && Full(q) && k != q && Fragment(x) && q !in Regs(x)
    ensures Mentions(PutIn(s, k, x), q) <==> Mentions(s, q)
  {
    hide Full, Fragment, Regs, Occurs, ReplaceIn, RegisterAliases, Aliases, Render;
    match s
    case Assign(_, e) => PutRegs(e, k, x);
    case Return(e) => PutRegs(e, k, x);
    case Comment(t) => OccursAfterReplace(t, k, x, q);
  }

  lemma {:induction false} ReadKeysClosed(s: Stmt, live: LiveExprs, keys: seq<string>, q: string)
    requires Closed(live) && LiveOk(live) && (forall k :: k in keys ==> k in live)
    requires forall i, j :: 0 <= i < j < |keys| ==> keys[i] != keys[j]
    ensures q in ReadKeys(s, live, keys) <==> q in keys && Mentions(s, q)
    decreases |keys|
  {
    hide PutIn, Mentions, Full, Fragment;
    if keys != [] {
      var k, rest := keys[0], keys[1..];
      assert keys == [k] + rest;
      assert forall j :: j in rest ==> j in keys;
      ReadKeysClosed(PutIn(s, k, live[k]), live, rest, q);
      if q in rest {
        assert q != k;
        MentionsAfterPut(s, k, live[k], q);
      }
    }
  }

  /** The pass counts exactly the live registers that the original statement names. */
  lemma {:induction false} ReadsAreMentions(prog: seq<Stmt>, j: nat, q: string)
    requires Straight(prog) && j < |prog| && Strict(prog, j)
    ensures q in ReadsOf(prog, j) <==> q in LiveBefore(prog, j) && Mentions(prog[j], q)
  {
    hide Mentions, ReadKeys, LiveBefore, Closed, Strict, LiveOk, StmtOk;
    StrictIsClosed(prog, j);
    LiveBeforeOk(prog, j);
    var live := LiveBefore(prog, j);
    forall k ensures k in Text.Ordered(live.Keys) <==> k in live { Text.OrderedMembers(live.Keys, k); }
    Text.OrderedDistinct(live.Keys);
    ReadKeysClosed(prog[j], live, Text.Ordered(live.Keys), q);
  }

  lemma {:induction false} SlotKeys(prog: seq<Stmt>, i: nat)
    requires i <= |prog|
    ensures SlotsBefore(prog, i).Keys == LiveBefore(prog, i).Keys
  {
    hide RewriteExpr, ReadsOf;
    if i > 0 {
      SlotKeys(prog, i - 1);
    }
  }

  /** The slot of `k` names the last statement before `i` that wrote `k`. */
  ghost predicate Produced(prog: seq<Stmt>, i: nat, k: string, p: nat) {
    p < i && Writes(prog, p, k) && Kept(prog, p, i)
  }

  ghost predicate SlotsNamed(prog: seq<Stmt>, i: nat, slots: Slots) {
    forall k :: k in slots ==> Produced(prog, i, k, slots[k].producer)
  }

  lemma {:induction false} ProducersNamed(prog: seq<Stmt>, i: nat)
    requires i <= |prog|
    ensures SlotsNamed(prog, i, SlotsBefore(prog, i))
  {
    hide ReadsOf;
    if i > 0 {
      ProducersNamed(prog, i - 1);
    }
  }

  lemma {:induction false} OneProducer(prog: seq<Stmt>, i: nat, k: string, p: nat, q: nat)
    requires Produced(prog, i, k, p) && Produced(prog, i, k, q)
    ensures p == q
  {
    assert Writes(prog, p, k) && Writes(prog, q, k);
  }

  lemma {:induction false} WrittenIsLive(prog: seq<Stmt>, i: nat, p: nat)
    requires p < i <= |prog| && prog[p].Assign?
    ensures prog[p].reg in LiveBefore(prog, i)
  {
    hide RewriteExpr;
    if p < i - 1 { WrittenIsLive(prog, i - 1, p); }
  }

  /** A victim among named slots is the current value of some register. */
  lemma {:induction false} VictimIs(prog: seq<Stmt>, i: nat, slots: Slots, canons: set<string>, forced: set<string>,
                                    p: nat)
    requires SlotsNamed(prog, i, slots) && p < i <= |prog| && prog[p].Assign?
    ensures p in Victims(slots, canons, forced) ==> Kept(prog, p, i) && prog[p].reg in canons
    ensures var r := prog[p].reg;
      r in slots && Kept(prog, p, i) ==>
        (p in Victims(slots, canons, forced) <==> r in canons && (r in forced || slots[r].used))
  {
    hide Kept;
    var r := prog[p].reg;
    if p in Victims(slots, canons, forced) {
      var k :| k in slots && k in canons && (k in forced || slots[k].used) && slots[k].producer == p;
      assert Produced(prog, i, k, p);
    }
    if r in slots && Kept(prog, p, i) {
      OneProducer(prog, i, r, p, slots[r].producer);
    }
  }

  // ---------------------------------------------------------------- the invariant

  /** What slots and removals say about producer `p` when the pass reaches statement `i`. */
  ghost predicate Status(prog: seq<Stmt>, i: nat, p: nat)
    requires i <= |prog| && p < i && prog[p].Assign?
  {
    if Kept(prog, p, i) then
      && prog[p].reg in SlotsBefore(prog, i)
      && SlotsBefore(prog, i)[prog[p].reg] == Slot(p, ConsumedBefore(prog, p, i))
      && p !in Gone(prog, i)
    else
      p in Gone(prog, i) <==> ConsumedBefore(prog, p, i)
  }

  lemma {:induction false} GoneBelow(prog: seq<Stmt>, i: nat)
    requires i <= |prog|
    ensures forall p :: p in Gone(prog, i) ==> p < i && prog[p].Assign?
  {
    hide SlotsBefore, ReadsOf;
    if i > 0 {
      GoneBelow(prog, i - 1);
      ProducersNamed(prog, i - 1);
    }
  }

  /** Reading statement `i` settles whether `p` is consumed before `i + 1`. */
  lemma {:induction false} ReadMarks(prog: seq<Stmt>, i: nat, p: nat)
    requires Straight(prog) && p < i < |prog| && Strict(prog, i) && prog[p].Assign? && Status(prog, i, p)
    ensures !Kept(prog, p, i) ==> (ConsumedBefore(prog, p, i + 1) <==> ConsumedBefore(prog, p, i))
    ensures Kept(prog, p, i) ==> prog[p].reg in SlotsRead(prog, i)
    ensures Kept(prog, p, i) ==> SlotsRead(prog, i)[prog[p].reg] == Slot(p, ConsumedBefore(prog, p, i + 1))
  {
    hide SlotsBefore, ReadsOf, Mentions, Kept, Gone, LiveBefore, Strict, Straight;
    ReadsAreMentions(prog, i, prog[p].reg);
    SlotKeys(prog, i);
    if Consumes(prog, p, i) {
      assert ConsumedBefore(prog, p, i + 1);
    }
    if ConsumedBefore(prog, p, i) {
      var q: nat :| q < i && Consumes(prog, p, q);
      assert ConsumedBefore(prog, p, i + 1);
    }
  }

  lemma {:induction false} NamedRead(prog: seq<Stmt>, i: nat)
    requires i < |prog|
    ensures SlotsNamed(prog, i, SlotsRead(prog, i))
  {
    hide SlotsBefore, ReadsOf, Produced;
    ProducersNamed(prog, i);
  }

  lemma {:induction false} StatusStep(prog: seq<Stmt>, i: nat, p: nat)
    requires Straight(prog) && p < i < |prog| && Strict(prog, i) && prog[p].Assign? && !prog[i].Return?
    requires Status(prog, i, p)
    ensures Status(prog, i + 1, p)
  {
    hide ReadsOf, ConsumedBefore, SlotsNamed, MarkUsed, Victims, Strict, Straight;
    ReadMarks(prog, i, p);
    NamedRead(prog, i);
    if prog[i].Assign? {
      VictimIs(prog, i, SlotsRead(prog, i), {prog[i].reg}, {}, p);
    }
    assert Kept(prog, p, i + 1) <==> Kept(prog, p, i) && !Writes(prog, i, prog[p].reg);
  }

  lemma {:induction false} StatusNew(prog: seq<Stmt>, p: nat)
    requires p < |prog| && prog[p].Assign?
    ensures Status(prog, p + 1, p)
  {
    hide ReadsOf, MarkUsed;
    GoneBelow(prog, p);
    NamedRead(prog, p);
    assert p !in NewlyGone(prog[p], SlotsRead(prog, p));
  }

  lemma {:induction false} BodyAssigns(prog: seq<Stmt>, k: nat)
    requires Straight(prog)
    ensures prog != [] && prog[|prog| - 1].Return?
    ensures k < |prog| - 1 ==> !prog[k].Return?
  {
    hide StmtOk;
  }

  lemma {:induction false} StatusHolds(prog: seq<Stmt>, i: nat, p: nat)
    requires Straight(prog) && p < i < |prog| && Strict(prog, i) && prog[p].Assign?
    ensures Status(prog, i, p)
  {
    hide Status, Strict, Straight;
    StrictPrefix(prog, i - 1, i);
    BodyAssigns(prog, p);
    BodyAssigns(prog, i - 1);
    if i == p + 1 {
      StatusNew(prog, p);
    } else {
      StatusHolds(prog, i - 1, p);
      StatusStep(prog, i - 1, p);
    }
  }

  /** The pass removes exactly the dead lines, and never the return. */
  lemma {:induction false} RemovedIsDead(prog: seq<Stmt>, p: nat)
    requires Straight(prog) && Strict(prog, |prog|)
    ensures p in Gone(prog, |prog|) <==> Dead(prog, p)
  {
    hide Straight, Strict, Status, Gone, ConsumedBefore, Kept;
    BodyAssigns(prog, p);
    var n := |prog| - 1;
    StrictPrefix(prog, n, |prog|);
    GoneBelow(prog, |prog|);
    if p < n && prog[p].Assign? {
      StatusHolds(prog, n, p);
      RemovedAtReturn(prog, p);
    }
  }

  lemma {:induction false} RemovedAtReturn(prog: seq<Stmt>, p: nat)
    requires Straight(prog) && Strict(prog, |prog| - 1) && prog[|prog| - 1].Return? && p < |prog| - 1
    requires prog[p].Assign? && Status(prog, |prog| - 1, p)
    ensures p in Gone(prog, |prog|) <==> Dead(prog, p)
  {
    hide ReadsOf, ConsumedBefore, SlotsNamed, MarkUsed, Victims, Strict, Straight, SlotsBefore;
    var n := |prog| - 1;
    ReadMarks(prog, n, p);
    NamedRead(prog, n);
    var slots := SlotsRead(prog, n);
    VictimIs(prog, n, slots, slots.Keys, Members(CALLER_SAVED), p);
    assert prog[p].reg in Members(CALLER_SAVED) <==> prog[p].reg in CALLER_SAVED;
    assert Kept(prog, p, n + 1) <==> Kept(prog, p, n) by {
      assert !Writes(prog, n, prog[p].reg);
    }
  }
}
