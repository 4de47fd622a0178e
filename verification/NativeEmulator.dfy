/**
 * The bounded interpreter's control loop, for an arbitrary instruction semantics:
 * `exec` takes an instruction and a machine state to the next state and an outcome.
 */
module NativeEmulator {
  import opened Common
  import opened Records
  import Text

  datatype Outcome = Supported | ApiStub | Jump(taken: bool) | Unsupported

  datatype Exit = FunctionEnd | Return | BranchExit | LoopGuard

  /** A function body: its rows in table order, all inside [start, end). */
  datatype Program = Program(start: nat, end: nat, rows: seq<Instruction>) {
    ghost predicate Valid() {
      forall i :: 0 <= i < |rows| ==> start <= rows[i].address < end
    }
  }

  function ByVa(rows: seq<Instruction>): (m: map<nat, Instruction>)
    ensures forall a :: a in m ==> m[a].address == a && m[a] in rows
  {
    if rows == [] then map[]
    else ByVa(rows[..|rows| - 1])[rows[|rows| - 1].address := rows[|rows| - 1]]
  }

  /** The first listed address above `current`. */
  function NextAddress(rows: seq<Instruction>, current: nat): (r: Option<nat>)
    ensures r.Some? ==> r.value > current
  {
    if rows == [] then None
    else if rows[0].address > current then Some(rows[0].address)
    else NextAddress(rows[1..], current)
  }

  /** It is the first row above `current`, and there is none exactly when no row lies above. */
  lemma {:induction false} NextAddressIsFirst(rows: seq<Instruction>, current: nat)
    ensures
      match NextAddress(rows, current)
      case Some(a) => exists k: nat :: FirstAbove(rows, k, current) && rows[k].address == a
      case None => forall j :: 0 <= j < |rows| ==> rows[j].address <= current
  {
    if rows != [] {
      if rows[0].address > current {
        assert FirstAbove(rows, 0, current);
      } else {
        var rest := rows[1..];
        NextAddressIsFirst(rest, current);
        assert forall j :: 0 < j < |rows| ==> rows[j] == rest[j - 1];
        if NextAddress(rest, current).Some? {
          var k: nat :| FirstAbove(rest, k, current) && rest[k].address == NextAddress(rest, current).value;
          assert rows[k + 1] == rest[k];
          assert FirstAbove(rows, k + 1, current);
        }
      }
    }
  }

  ghost predicate FirstAbove(rows: seq<Instruction>, k: nat, current: nat) {
    k < |rows| && rows[k].address > current && forall j :: 0 <= j < k ==> rows[j].address <= current
  }

  /** The loop's variables. `exit` is set when the loop breaks. */
  datatype Config<S> = Config(
    pc: nat,
    state: S,
    visitedEdges: set<(nat, nat)>,
    path: seq<nat>,
    supportedSteps: nat,
    exit: Option<Exit>)

  predicate Running<S>(p: Program, c: Config<S>) {
    c.exit.None? && c.pc in ByVa(p.rows)
  }

  function Goto<S>(p: Program, c: Config<S>, pc: nat): Config<S> {
    if pc >= p.end then c.(pc := pc, exit := Some(FunctionEnd)) else c.(pc := pc)
  }

  function FallThrough<S>(p: Program, c: Config<S>): Config<S> {
    match NextAddress(p.rows, c.pc)
    case Some(a) => Goto(p, c, a)
    case None => Goto(p, c, p.end)
  }

  function TakeJump<S>(p: Program, c: Config<S>, row: Instruction, taken: bool): Config<S> {
    var target := match row.branchTarget case Some(t) => t case None => 0;
    var chosen := if taken then Some(target) else NextAddress(p.rows, c.pc);
    match chosen
    case None => c.(exit := Some(BranchExit))
    case Some(a) =>
      if (c.pc, a) in c.visitedEdges then c.(exit := Some(LoopGuard))
      else Goto(p, c.(visitedEdges := c.visitedEdges + {(c.pc, a)}), a)
  }

  /** One iteration of the loop, after the budget test. */
  function Step<S>(p: Program, exec: (Instruction, S) -> (S, Outcome), c: Config<S>): Config<S>
    requires Running(p, c)
  {
    var row := ByVa(p.rows)[c.pc];
    var (state, outcome) := exec(row, c.state);
    var d := c.(state := state, path := c.path + [c.pc],
                supportedSteps := c.supportedSteps + if outcome == Unsupported then 0 else 1);
    match outcome
    case Supported =>
      if row.isRet || Text.EqIgnoreCase(row.mnemonic, "ret") then d.(exit := Some(Return)) else FallThrough(p, d)
    case Jump(taken) => TakeJump(p, d, row, taken)
    case _ => FallThrough(p, d)
  }

  function Initial<S>(p: Program, state: S): Config<S>
    requires p.rows != []
  {
    Config(if p.start in ByVa(p.rows) then p.start else p.rows[0].address, state, {}, [], 0, None)
  }

  /** The configuration after at most `k` iterations. */
  function Run<S>(p: Program, exec: (Instruction, S) -> (S, Outcome), state: S, k: nat): Config<S>
    requires p.rows != []
  {
    if k == 0 then Initial(p, state)
    else
      var c := Run(p, exec, state, k - 1);
      if Running(p, c) then Step(p, exec, c) else c
  }

  datatype Result<S> = Result(final: Config<S>, stepCount: nat, capHit: bool, reason: string)

  /** A loop that ends at an address without an instruction keeps the initial reason. */
  function ReasonOf(exit: Option<Exit>): string {
    match exit
    case None => "function_end"
    case Some(FunctionEnd) => "function_end"
    case Some(Return) => "return"
    case Some(BranchExit) => "branch_exit"
    case Some(LoopGuard) => "loop_guard"
  }

  /**
   * The emulation loop: it performs `Run` for the budget, its answer is explained by the visited path, and it reports
   * a cap hit exactly when work remained.
   */
  method EmulateFunction<S(!new)>(p: Program, exec: (Instruction, S) -> (S, Outcome), state: S, cap: nat)
    returns (r: Option<Result<S>>)
    ensures p.rows == [] ==> r == None
    ensures p.rows != [] ==>
              var c := Run(p, exec, state, cap);
              if c.supportedSteps == 0 then r == None
              else r == Some(Result(c, |c.path|, Running(p, c),
                                    if Running(p, c) then "budget_cap" else ReasonOf(c.exit)))
    ensures r.Some? ==> r.value.stepCount <= cap && Explained(p, exec, state, r.value.final)
  {
    if p.rows == [] { return None; }
    var c := Initial(p, state);
    var steps := 0;
    var capHit := false;
    while Running(p, c)
      invariant steps <= cap && c == Run(p, exec, state, steps)
      invariant steps > 0 ==> Running(p, Run(p, exec, state, steps - 1))
      invariant !capHit
      decreases cap - steps
    {
      if steps >= cap { capHit := true; break; }
      steps := steps + 1;
      c := Step(p, exec, c);
    }
    PathLength(p, exec, state, steps);
    if !capHit { RunStays(p, exec, state, steps, cap); }
    if c.supportedSteps == 0 { return None; }
    RunExplained(p, exec, state, cap);
    r := Some(Result(c, steps, capHit, if capHit then "budget_cap" else ReasonOf(c.exit)));
  }

  lemma {:induction false} RunStays<S>(p: Program, exec: (Instruction, S) -> (S, Outcome), state: S, k: nat, l: nat)
    requires p.rows != [] && k <= l && !Running(p, Run(p, exec, state, k))
    ensures Run(p, exec, state, l) == Run(p, exec, state, k)
  {
    hide Step;
    if k < l { RunStays(p, exec, state, k, l - 1); }
  }

  lemma {:induction false} StepPath<S>(p: Program, exec: (Instruction, S) -> (S, Outcome), c: Config<S>)
    requires Running(p, c)
    ensures Step(p, exec, c).path == c.path + [c.pc]
  {
  }

  lemma {:induction false} PathLength<S>(p: Program, exec: (Instruction, S) -> (S, Outcome), state: S, k: nat)
    requires p.rows != []
    requires k > 0 ==> Running(p, Run(p, exec, state, k - 1))
    ensures |Run(p, exec, state, k).path| == k
  {
    hide Step;
    if k > 0 {
      PathLength(p, exec, state, k - 1);
      StepPath(p, exec, Run(p, exec, state, k - 1));
    }
  }

  // ------------------------------------------------------- budgets only truncate

  lemma {:induction false} RunGrows<S>(p: Program, exec: (Instruction, S) -> (S, Outcome), state: S, k: nat)
    requires p.rows != []
    ensures Run(p, exec, state, k).path <= Run(p, exec, state, k + 1).path
    ensures |Run(p, exec, state, k + 1).path| == if Running(p, Run(p, exec, state, k)) then k + 1
        else |Run(p, exec, state, k).path|
    ensures Running(p, Run(p, exec, state, k)) ==> |Run(p, exec, state, k).path| == k
  {
    hide Step;
    var c := Run(p, exec, state, k);
    if Running(p, c) {
      PathLength(p, exec, state, k + 1);
      StepPath(p, exec, c);
    }
  }

  lemma {:induction false} PathAtMost<S>(p: Program, exec: (Instruction, S) -> (S, Outcome), state: S, k: nat)
    requires p.rows != []
    ensures |Run(p, exec, state, k).path| <= k
  {
    hide Step;
    if k > 0 {
      PathAtMost(p, exec, state, k - 1);
      RunGrows(p, exec, state, k - 1);
    }
  }

  /** A larger budget extends the visited path and changes nothing in the part already walked. */
  lemma {:induction false} BudgetPrefix<S>(p: Program, exec: (Instruction, S) -> (S, Outcome), state: S, k: nat, l: nat)
    requires p.rows != [] && k <= l
    ensures Run(p, exec, state, k).path <= Run(p, exec, state, l).path
    ensures |Run(p, exec, state, k).path| == if k <= |Run(p, exec, state, l).path| then k
        else |Run(p, exec, state, l).path|
  {
    hide Step;
    PathAtMost(p, exec, state, k);
    if k < l {
      BudgetPrefix(p, exec, state, k, l - 1);
      RunGrows(p, exec, state, l - 1);
    }
  }

  // ---------------------------------------------------------- the path is a walk

  /** One move of the program counter: to the next listed address or to the branch target. */
  predicate Moves(p: Program, a: nat, b: nat) {
    && a in ByVa(p.rows)
    && (NextAddress(p.rows, a) == Some(b) || (ByVa(p.rows)[a].branchTarget == Some(b)))
  }

  ghost predicate IsWalk(p: Program, path: seq<nat>) {
    && (forall i :: 0 <= i < |path| ==> path[i] in ByVa(p.rows))
    && (forall i, j :: 0 <= i < j < |path| && j == i + 1 ==> Moves(p, path[i], path[j]))
  }

  /** Jumps are reported only for instructions that carry a direct target. */
  ghost predicate JumpsAreDirect<S(!new)>(p: Program, exec: (Instruction, S) -> (S, Outcome)) {
    forall a, s :: a in ByVa(p.rows) && exec(ByVa(p.rows)[a], s).1.Jump? ==> ByVa(p.rows)[a].branchTarget.Some?
  }

  ghost predicate Positioned<S>(p: Program, start: nat, c: Config<S>) {
    && IsWalk(p, c.path)
    && (c.path == [] ==> c.pc == start)
    && (c.path != [] ==> c.path[0] == start)
    && (c.path != [] && Running(p, c) ==> Moves(p, c.path[|c.path| - 1], c.pc))
  }

  lemma {:induction false} StepMoves<S(!new)>(p: Program, exec: (Instruction, S) -> (S, Outcome), c: Config<S>)
    requires p.Valid() && JumpsAreDirect(p, exec) && Running(p, c)
    ensures Running(p, Step(p, exec, c)) ==> Moves(p, c.pc, Step(p, exec, c).pc)
  {
    var (s, o) := exec(ByVa(p.rows)[c.pc], c.state);
  }

  /** Every visited path is a walk of the program from the function's first executed address. */
  lemma {:induction false} VisitedPathIsWalk<S(!new)>(p: Program, exec: (Instruction, S) -> (S, Outcome), state: S,
                                                      k: nat)
    requires p.rows != [] && p.Valid() && JumpsAreDirect(p, exec)
    ensures Positioned(p, Initial(p, state).pc, Run(p, exec, state, k))
  {
    hide Step, Moves, JumpsAreDirect, Running, IsWalk;
    if k > 0 {
      VisitedPathIsWalk(p, exec, state, k - 1);
      var c := Run(p, exec, state, k - 1);
      if Running(p, c) {
        StepPath(p, exec, c);
        StepMoves(p, exec, c);
        WalkGrows(p, c.path, c.pc) by { RunningIsListed(p, c); }
      }
    } else {
      assert IsWalk(p, []) by { EmptyWalk(p); }
    }
  }

  lemma {:induction false} EmptyWalk(p: Program)
    ensures IsWalk(p, [])
  {
  }

  lemma {:induction false} RunningIsListed<S>(p: Program, c: Config<S>)
    requires Running(p, c)
    ensures c.pc in ByVa(p.rows)
  {
  }

  lemma {:induction false} WalkGrows(p: Program, path: seq<nat>, pc: nat)
    requires IsWalk(p, path) && pc in ByVa(p.rows) && (path != [] ==> Moves(p, path[|path| - 1], pc))
    ensures IsWalk(p, path + [pc])
  {
    hide Moves;
  }

  // --------------------------------------------------- halting without a budget

  function Branches(p: Program): set<nat> {
    set a | a in ByVa(p.rows) && ByVa(p.rows)[a].branchTarget.Some?
  }

  function TargetOf(p: Program, a: nat): nat {
    if a in ByVa(p.rows) && ByVa(p.rows)[a].branchTarget.Some? then ByVa(p.rows)[a].branchTarget.value else 0
  }

  function SuccessorOf(p: Program, a: nat): nat {
    match NextAddress(p.rows, a) case Some(b) => b case None => 0
  }

  function TakenEdges(p: Program): set<(nat, nat)> {
    set a | a in Branches(p) :: (a, TargetOf(p, a))
  }

  function FallenEdges(p: Program): set<(nat, nat)> {
    set a | a in Branches(p) :: (a, SuccessorOf(p, a))
  }

  /** Every edge the loop guard can ever record. */
  function EdgeUniverse(p: Program): set<(nat, nat)> {
    TakenEdges(p) + FallenEdges(p)
  }

  /** A set of pairs that is a function on its first components is no larger than its domain. */
  lemma {:induction false} GraphSize(edges: set<(nat, nat)>, keys: set<nat>)
    requires forall e :: e in edges ==> e.0 in keys
    requires forall e, f :: e in edges && f in edges && e.0 == f.0 ==> e == f
    ensures |edges| <= |keys|
    decreases |edges|
  {
    if edges != {} {
      var e :| e in edges;
      GraphSize(edges - {e}, keys - {e.0});
    }
  }

  lemma {:induction false} UniverseSize(p: Program)
    ensures |EdgeUniverse(p)| <= 2 * |Branches(p)|
  {
    GraphSize(TakenEdges(p), Branches(p));
    GraphSize(FallenEdges(p), Branches(p));
    hide TakenEdges, FallenEdges;
    assert EdgeUniverse(p) == TakenEdges(p) + (FallenEdges(p) - TakenEdges(p));
    SetSize(FallenEdges(p) - TakenEdges(p), FallenEdges(p));
  }

  /** Addresses at or above the program counter: the straight-line work left. */
  function Ahead(p: Program, pc: nat): set<nat> {
    set a | a in ByVa(p.rows) && a >= pc
  }

  function CodeSize(p: Program): nat { |ByVa(p.rows).Keys| }

  /** The bound on iterations: N instructions, B direct branches, N * (2B + 1) steps. */
  function StepBound(p: Program): nat { CodeSize(p) * (2 * |Branches(p)| + 1) }

  function Credit(p: Program, used: nat): int { (2 * |Branches(p)| - used) * CodeSize(p) }

  ghost predicate Bounded<S>(p: Program, c: Config<S>) {
    && c.visitedEdges <= EdgeUniverse(p)
    && |c.path| <= StepBound(p)
    && (c.exit.None? ==> |c.path| + Credit(p, |c.visitedEdges|) + |Ahead(p, c.pc)| <= StepBound(p))
  }

  lemma {:induction false} OneLess(left: nat, n: nat)
    ensures left * n == (left - 1) * n + n && left * n >= 0
  {
  }

  lemma {:induction false} CreditLeft<S>(p: Program, c: Config<S>)
    requires c.visitedEdges <= EdgeUniverse(p)
    ensures |c.visitedEdges| <= 2 * |Branches(p)| && Credit(p, |c.visitedEdges|) >= 0
    ensures Credit(p, |c.visitedEdges|) == Credit(p, |c.visitedEdges| + 1) + CodeSize(p)
  {
    hide EdgeUniverse, Branches, CodeSize;
    UniverseSize(p);
    SetSize(c.visitedEdges, EdgeUniverse(p));
    OneLess(2 * |Branches(p)| - |c.visitedEdges|, CodeSize(p));
  }

  lemma {:induction false} AheadShrinks(p: Program, pc: nat, next: nat)
    requires pc in ByVa(p.rows)
    ensures 1 <= |Ahead(p, pc)| && |Ahead(p, next)| <= CodeSize(p)
    ensures pc < next ==> |Ahead(p, next)| < |Ahead(p, pc)|
  {
    SetSize({pc}, Ahead(p, pc));
    SetSize(Ahead(p, next), ByVa(p.rows).Keys);
    if pc < next {
      SetSize(Ahead(p, next) + {pc}, Ahead(p, pc));
    }
  }

  lemma {:induction false} ExitBounded<S>(p: Program, c: Config<S>, d: Config<S>)
    requires Running(p, c) && Bounded(p, c)
    requires d.visitedEdges == c.visitedEdges && d.exit.Some? && |d.path| == |c.path| + 1
    ensures Bounded(p, d)
  {
    CreditLeft(p, c);
    AheadShrinks(p, c.pc, c.pc);
  }

  lemma {:induction false} FallThroughBounded<S>(p: Program, c: Config<S>, d: Config<S>)
    requires p.Valid() && Running(p, c) && Bounded(p, c)
    requires d.pc == c.pc && d.visitedEdges == c.visitedEdges && d.exit.None? && |d.path| == |c.path| + 1
    ensures Bounded(p, FallThrough(p, d))
  {
    CreditLeft(p, c);
    var next := match NextAddress(p.rows, d.pc) case Some(a) => a case None => p.end;
    AheadShrinks(p, c.pc, next);
  }

  lemma {:induction false} EdgeIsKnown(p: Program, a: nat)
    requires a in ByVa(p.rows) && ByVa(p.rows)[a].branchTarget.Some?
    ensures (a, TargetOf(p, a)) in EdgeUniverse(p) && (a, SuccessorOf(p, a)) in EdgeUniverse(p)
  {
    assert a in Branches(p);
  }

  lemma {:induction false} TakeJumpBounded<S>(p: Program, c: Config<S>, d: Config<S>, taken: bool)
    requires p.Valid() && Running(p, c) && Bounded(p, c)
    requires d.pc == c.pc && d.visitedEdges == c.visitedEdges && d.exit.None? && |d.path| == |c.path| + 1
    requires ByVa(p.rows)[c.pc].branchTarget.Some?
    ensures Bounded(p, TakeJump(p, d, ByVa(p.rows)[c.pc], taken))
  {
    hide EdgeUniverse, Branches, Ahead, Credit, StepBound, CodeSize;
    CreditLeft(p, c);
    EdgeIsKnown(p, c.pc);
    var chosen := if taken then Some(TargetOf(p, c.pc)) else NextAddress(p.rows, c.pc);
    AheadShrinks(p, c.pc, 0);
    if chosen.Some? {
      AheadShrinks(p, c.pc, chosen.value);
      if (c.pc, chosen.value) !in c.visitedEdges {
        assert |d.visitedEdges + {(c.pc, chosen.value)}| == |c.visitedEdges| + 1;
      }
    }
  }

  lemma {:induction false} StepBounded<S(!new)>(p: Program, exec: (Instruction, S) -> (S, Outcome), c: Config<S>)
    requires p.Valid() && JumpsAreDirect(p, exec) && Running(p, c) && Bounded(p, c)
    ensures Bounded(p, Step(p, exec, c))
  {
    hide Bounded, FallThrough, TakeJump;
    var row := ByVa(p.rows)[c.pc];
    var (state, outcome) := exec(row, c.state);
    var d := c.(state := state, path := c.path + [c.pc],
                supportedSteps := c.supportedSteps + if outcome == Unsupported then 0 else 1);
    if outcome.Jump? {
      TakeJumpBounded(p, c, d, outcome.taken);
    } else {
      FallThroughBounded(p, c, d);
      ExitBounded(p, c, d.(exit := Some(Return)));
    }
  }

  lemma {:induction false} WholeCredit(n: nat, b: nat)
    ensures n * (2 * b + 1) == (2 * b - 0) * n + n
  {
  }

  lemma {:induction false} StartBounded<S>(p: Program, state: S)
    requires p.rows != [] && p.Valid()
    ensures Bounded(p, Initial(p, state))
  {
    hide Branches, EdgeUniverse;
    SetSize(Ahead(p, Initial(p, state).pc), ByVa(p.rows).Keys);
    WholeCredit(CodeSize(p), |Branches(p)|);
  }

  lemma {:induction false} RunBounded<S(!new)>(p: Program, exec: (Instruction, S) -> (S, Outcome), state: S, k: nat)
    requires p.rows != [] && p.Valid() && JumpsAreDirect(p, exec)
    ensures Bounded(p, Run(p, exec, state, k))
  {
    hide Step, Bounded;
    if k == 0 {
      StartBounded(p, state);
    } else {
      RunBounded(p, exec, state, k - 1);
      var c := Run(p, exec, state, k - 1);
      if Running(p, c) { StepBounded(p, exec, c); }
    }
  }

  /**
   * The loop guard alone makes the emulator halt: a budget of N * (2B + 1) is never hit,
   * and every budget from there on gives the same run.
   */
  lemma {:induction false} HaltsWithoutBudget<S(!new)>(p: Program, exec: (Instruction, S) -> (S, Outcome), state: S,
                                                       k: nat)
    requires p.rows != [] && p.Valid() && JumpsAreDirect(p, exec) && k >= StepBound(p)
    ensures !Running(p, Run(p, exec, state, StepBound(p)))
    ensures Run(p, exec, state, k) == Run(p, exec, state, StepBound(p))
    ensures |Run(p, exec, state, k).path| <= StepBound(p)
  {
    hide Step, EdgeUniverse, Credit, Ahead;
    var n := StepBound(p);
    RunBounded(p, exec, state, n + 1);
    if Running(p, Run(p, exec, state, n)) {
      PathLength(p, exec, state, n + 1);
      assert false;
    }
    RunStays(p, exec, state, n, k);
    PathAtMost(p, exec, state, n);
  }

  // -------------------------------------------- what the visited path is, outcome by outcome

  ghost predicate LastAt(rows: seq<Instruction>, k: nat, a: nat) {
    k < |rows| && rows[k].address == a && forall j :: k < j < |rows| ==> rows[j].address != a
  }

  /** The row executed at an address is the last one listed for it. */
  lemma {:induction false} RowIsLast(rows: seq<Instruction>, a: nat)
    ensures a in ByVa(rows) <==> exists j :: 0 <= j < |rows| && rows[j].address == a
    ensures a in ByVa(rows) ==> exists k: nat :: LastAt(rows, k, a) && ByVa(rows)[a] == rows[k]
  {
    if rows != [] {
      var init, last := rows[..|rows| - 1], |rows| - 1;
      RowIsLast(init, a);
      assert forall j :: 0 <= j < |init| ==> init[j] == rows[j];
      if rows[last].address == a {
        assert LastAt(rows, last, a);
      } else if a in ByVa(init) {
        var k: nat :| LastAt(init, k, a) && ByVa(init)[a] == init[k];
        assert LastAt(rows, k, a) && rows[k] == init[k];
      }
    }
  }

  ghost predicate Listed(p: Program, path: seq<nat>) {
    forall i :: 0 <= i < |path| ==> path[i] in ByVa(p.rows)
  }

  /** The machine state after executing the rows at the addresses of `path`, one after the other. */
  ghost function StateAfter<S>(p: Program, exec: (Instruction, S) -> (S, Outcome), state: S, path: seq<nat>): S
    requires Listed(p, path)
  {
    if path == [] then state
    else
      var before := path[..|path| - 1];
      exec(ByVa(p.rows)[path[|path| - 1]], StateAfter(p, exec, state, before)).0
  }

  /** What executing the entry at `i` reports, in the state the entries before it have left. */
  ghost function OutcomeAt<S>(p: Program, exec: (Instruction, S) -> (S, Outcome), state: S, path: seq<nat>, i: nat):
      Outcome
    requires Listed(p, path) && i < |path|
  {
    exec(ByVa(p.rows)[path[i]], StateAfter(p, exec, state, path[..i])).1
  }

  /** How many entries the interpreter supported. */
  ghost function SupportedIn<S>(p: Program, exec: (Instruction, S) -> (S, Outcome), state: S, path: seq<nat>): nat
    requires Listed(p, path)
  {
    if path == [] then 0
    else
      var last := |path| - 1;
      SupportedIn(p, exec, state, path[..last])
      + if OutcomeAt(p, exec, state, path, last) == Unsupported then 0 else 1
  }

  ghost predicate NothingAbove(p: Program, a: nat) {
    forall j :: 0 <= j < |p.rows| ==> p.rows[j].address <= a
  }

  ghost predicate FirstListedAbove(p: Program, a: nat, b: nat) {
    exists k: nat :: FirstAbove(p.rows, k, a) && p.rows[k].address == b
  }

  /** A taken branch leads to the row's target; everything else leads to the first listed address above. */
  ghost predicate Leads(p: Program, a: nat, outcome: Outcome, b: nat)
    requires a in ByVa(p.rows)
  {
    if outcome == Jump(true) then
      var target := ByVa(p.rows)[a].branchTarget;
      target == Some(b) || (target == None && b == 0)
    else FirstListedAbove(p, a, b)
  }

  /** The entry at `i` was a branch, taken or not, that led to `b`. */
  ghost predicate Branched<S>(p: Program, exec: (Instruction, S) -> (S, Outcome), state: S, path: seq<nat>, i: nat,
                              b: nat)
    requires Listed(p, path)
  {
    i < |path| && OutcomeAt(p, exec, state, path, i).Jump? && Leads(p, path[i], OutcomeAt(p, exec, state, path, i), b)
  }

  /** Each entry is where the entry before it leads. */
  ghost predicate FollowsOutcomes<S>(p: Program, exec: (Instruction, S) -> (S, Outcome), state: S, path: seq<nat>)
    requires Listed(p, path)
  {
    forall i, j :: 0 <= i < j < |path| && j == i + 1 ==> Leads(p, path[i], OutcomeAt(p, exec, state, path, i), path[j])
  }

  /** Some branch at the same address has led to `b` before the last entry. */
  ghost predicate Repeated<S>(p: Program, exec: (Instruction, S) -> (S, Outcome), state: S, path: seq<nat>, b: nat)
    requires Listed(p, path) && path != []
  {
    exists i :: 0 <= i < |path| - 1 && path[i] == path[|path| - 1] && Branched(p, exec, state, path, i, b)
  }

  ghost predicate Returns(row: Instruction, outcome: Outcome) {
    outcome == Supported && (row.isRet || Text.EqIgnoreCase(row.mnemonic, "ret"))
  }

  /** The last entry is a branch that would take an edge a second time. */
  ghost predicate Loops<S>(p: Program, exec: (Instruction, S) -> (S, Outcome), state: S, path: seq<nat>)
    requires Listed(p, path) && path != []
  {
    exists b: nat :: Branched(p, exec, state, path, |path| - 1, b) && Repeated(p, exec, state, path, b)
  }

  /** The last entry leads out of the function. */
  ghost predicate Leaves<S>(p: Program, exec: (Instruction, S) -> (S, Outcome), state: S, path: seq<nat>)
    requires Listed(p, path) && path != []
  {
    var a, outcome := path[|path| - 1], OutcomeAt(p, exec, state, path, |path| - 1);
    || (!outcome.Jump? && NothingAbove(p, a))
    || (exists b: nat :: b >= p.end && Leads(p, a, outcome, b))
  }

  /** Each way the loop breaks has exactly one cause, which the last entry and the entries before it decide. */
  ghost predicate ExitCaused<S>(p: Program, exec: (Instruction, S) -> (S, Outcome), state: S, path: seq<nat>,
                                pc: nat, exit: Option<Exit>)
    requires Listed(p, path) && path != []
  {
    var a, outcome := path[|path| - 1], OutcomeAt(p, exec, state, path, |path| - 1);
    var returning := Returns(ByVa(p.rows)[a], outcome);
    var stuck := outcome == Jump(false) && NothingAbove(p, a);
    var loops := Loops(p, exec, state, path);
    var leaves := Leaves(p, exec, state, path);
    && (exit == Some(Return) <==> returning)
    && (exit == Some(BranchExit) <==> stuck)
    && (exit == Some(LoopGuard) <==> loops)
    && (exit == Some(FunctionEnd) <==> !returning && !loops && leaves)
    && (exit == None ==> pc < p.end && Leads(p, a, outcome, pc))
  }

  /** The recorded edges are those of the branches on the path. */
  ghost predicate EdgesOnPath<S(!new)>(p: Program, exec: (Instruction, S) -> (S, Outcome), state: S, c: Config<S>)
    requires Listed(p, c.path)
  {
    && (forall e :: e in c.visitedEdges ==> EdgeOnPath(p, exec, state, c.path, e))
    && (forall i: nat, b: nat :: Branched(p, exec, state, c.path, i, b) ==> (c.path[i], b) in c.visitedEdges)
  }

  ghost predicate EdgeOnPath<S>(p: Program, exec: (Instruction, S) -> (S, Outcome), state: S, path: seq<nat>,
                                e: (nat, nat))
    requires Listed(p, path)
  {
    exists i: nat :: Branched(p, exec, state, path, i, e.1) && path[i] == e.0
  }

  /** A configuration is explained by its path alone. */
  ghost predicate Explained<S(!new)>(p: Program, exec: (Instruction, S) -> (S, Outcome), state: S, c: Config<S>)
    requires p.rows != []
  {
    && Listed(p, c.path)
    && FollowsOutcomes(p, exec, state, c.path)
    && c.state == StateAfter(p, exec, state, c.path)
    && c.supportedSteps == SupportedIn(p, exec, state, c.path)
    && EdgesOnPath(p, exec, state, c)
    && (var entry := if p.start in ByVa(p.rows) then p.start else p.rows[0].address;
        if c.path == [] then c.pc == entry && c.exit == None
        else c.path[0] == entry && ExitCaused(p, exec, state, c.path, c.pc, c.exit))
  }

  lemma {:induction false} NextIsFirst(p: Program, a: nat, b: nat)
    ensures NextAddress(p.rows, a) == Some(b) <==> FirstListedAbove(p, a, b)
    ensures NextAddress(p.rows, a) == None <==> NothingAbove(p, a)
  {
    NextAddressIsFirst(p.rows, a);
    if FirstListedAbove(p, a, b) {
      var k: nat :| FirstAbove(p.rows, k, a) && p.rows[k].address == b;
      var c := NextAddress(p.rows, a).value;
      var l: nat :| FirstAbove(p.rows, l, a) && p.rows[l].address == c;
      assert k == l;
    }
  }

  /** The address the loop chooses next, or none where nothing lies above. */
  ghost function Chosen(p: Program, a: nat, outcome: Outcome): (r: Option<nat>)
    requires a in ByVa(p.rows)
  {
    if outcome == Jump(true) then Some(match ByVa(p.rows)[a].branchTarget case Some(t) => t case None => 0)
    else NextAddress(p.rows, a)
  }

  lemma {:induction false} ChosenLeads(p: Program, a: nat, outcome: Outcome, b: nat)
    requires a in ByVa(p.rows)
    ensures Leads(p, a, outcome, b) <==> Chosen(p, a, outcome) == Some(b)
    ensures Chosen(p, a, outcome) == None <==> outcome != Jump(true) && NothingAbove(p, a)
  {
    hide FirstListedAbove, NothingAbove;
    NextIsFirst(p, a, b);
  }

  lemma {:induction false} ChosenAtMostOne(p: Program, a: nat, outcome: Outcome)
    requires a in ByVa(p.rows)
    ensures forall b: nat :: Leads(p, a, outcome, b) <==> Chosen(p, a, outcome) == Some(b)
  {
    hide Leads, Chosen;
    forall b: nat ensures Leads(p, a, outcome, b) <==> Chosen(p, a, outcome) == Some(b) {
      ChosenLeads(p, a, outcome, b);
    }
  }

  /** An entry more leaves the outcomes of the earlier entries as they are. */
  lemma {:induction false} OutcomesStay<S>(p: Program, exec: (Instruction, S) -> (S, Outcome), state: S,
                                           path: seq<nat>, pc: nat)
    requires Listed(p, path) && pc in ByVa(p.rows)
    ensures Listed(p, path + [pc])
    ensures forall i :: 0 <= i < |path| ==>
        OutcomeAt(p, exec, state, path + [pc], i) == OutcomeAt(p, exec, state, path, i)
    ensures StateAfter(p, exec, state, path + [pc]) == exec(ByVa(p.rows)[pc], StateAfter(p, exec, state, path)).0
    ensures OutcomeAt(p, exec, state, path + [pc], |path|) == exec(ByVa(p.rows)[pc], StateAfter(p, exec, state, path)).1
    ensures SupportedIn(p, exec, state, path + [pc])
         == SupportedIn(p, exec, state, path)
            + if OutcomeAt(p, exec, state, path + [pc], |path|) == Unsupported then 0 else 1
  {
    assert (path + [pc])[..|path|] == path;
    forall i | 0 <= i < |path|
      ensures OutcomeAt(p, exec, state, path + [pc], i) == OutcomeAt(p, exec, state, path, i)
    {
      assert (path + [pc])[..i] == path[..i];
    }
  }

  lemma {:induction false} BranchesStay<S>(p: Program, exec: (Instruction, S) -> (S, Outcome), state: S,
                                           path: seq<nat>, pc: nat, i: nat, b: nat)
    requires Listed(p, path) && Listed(p, path + [pc]) && pc in ByVa(p.rows) && i < |path|
    ensures Branched(p, exec, state, path + [pc], i, b) <==> Branched(p, exec, state, path, i, b)
  {
    hide Leads, OutcomeAt;
    OutcomesStay(p, exec, state, path, pc);
  }

  lemma {:induction false} FollowsGrows<S>(p: Program, exec: (Instruction, S) -> (S, Outcome), state: S,
                                           path: seq<nat>, pc: nat)
    requires Listed(p, path) && Listed(p, path + [pc]) && FollowsOutcomes(p, exec, state, path)
    requires path != [] ==> Leads(p, path[|path| - 1], OutcomeAt(p, exec, state, path, |path| - 1), pc)
    ensures FollowsOutcomes(p, exec, state, path + [pc])
  {
    hide Leads, OutcomeAt;
    assert pc == (path + [pc])[|path|];
    OutcomesStay(p, exec, state, path, pc);
  }

  /** What an iteration does, by the address chosen. */
  lemma {:induction false} StepChooses<S>(p: Program, exec: (Instruction, S) -> (S, Outcome), c: Config<S>)
    requires Running(p, c)
    ensures
      var row := ByVa(p.rows)[c.pc];
      var outcome, d := exec(row, c.state).1, Step(p, exec, c);
      var chosen := Chosen(p, c.pc, outcome);
      var repeated := outcome.Jump? && chosen.Some? && (c.pc, chosen.value) in c.visitedEdges;
      var leaves := (chosen.Some? || !outcome.Jump?) && (chosen.Some? ==> chosen.value >= p.end);
      && d.state == exec(row, c.state).0
      && d.supportedSteps == c.supportedSteps + (if outcome == Unsupported then 0 else 1)
      && d.visitedEdges == c.visitedEdges + (if outcome.Jump? && chosen.Some? then {(c.pc, chosen.value)} else {})
      && (d.exit == Some(Return) <==> Returns(row, outcome))
      && (d.exit == Some(BranchExit) <==> outcome.Jump? && chosen.None?)
      && (d.exit == Some(LoopGuard) <==> repeated)
      && (d.exit == Some(FunctionEnd) <==> !Returns(row, outcome) && !repeated && leaves)
      && (d.exit == None ==> chosen == Some(d.pc) && d.pc < p.end)
  {
    hide NextAddress, Text.EqIgnoreCase, ByVa;
    var (s, o) := exec(ByVa(p.rows)[c.pc], c.state);
  }

  lemma {:induction false} EdgesGrow<S(!new)>(p: Program, exec: (Instruction, S) -> (S, Outcome), state: S,
                                              c: Config<S>)
    requires Running(p, c) && Listed(p, c.path) && EdgesOnPath(p, exec, state, c)
    requires c.state == StateAfter(p, exec, state, c.path)
    ensures Listed(p, Step(p, exec, c).path) && EdgesOnPath(p, exec, state, Step(p, exec, c))
  {
    hide Step, Leads, OutcomeAt, Chosen, StateAfter, Returns, Running;
    RunningIsListed(p, c);
    var d, n := Step(p, exec, c), |c.path|;
    StepPath(p, exec, c);
    StepChooses(p, exec, c);
    OutcomesStay(p, exec, state, c.path, c.pc);
    var outcome := OutcomeAt(p, exec, state, d.path, n);
    ChosenAtMostOne(p, c.pc, outcome);
    forall e | e in d.visitedEdges ensures EdgeOnPath(p, exec, state, d.path, e) {
      if e in c.visitedEdges {
        var i: nat :| Branched(p, exec, state, c.path, i, e.1) && c.path[i] == e.0;
        BranchesStay(p, exec, state, c.path, c.pc, i, e.1);
        assert d.path[i] == e.0;
      } else {
        assert Branched(p, exec, state, d.path, n, e.1) && d.path[n] == e.0;
      }
    }
    forall i: nat, b: nat | Branched(p, exec, state, d.path, i, b) ensures (d.path[i], b) in d.visitedEdges {
      if i < n {
        BranchesStay(p, exec, state, c.path, c.pc, i, b);
        assert d.path[i] == c.path[i];
      }
    }
  }

  /** On recorded edges the guard's test is the repetition on the path. */
  lemma {:induction false} GuardIsRepetition<S(!new)>(p: Program, exec: (Instruction, S) -> (S, Outcome), state: S,
                                                      c: Config<S>, b: nat)
    requires c.pc in ByVa(p.rows) && Listed(p, c.path) && Listed(p, c.path + [c.pc]) && EdgesOnPath(p, exec, state, c)
    ensures (c.pc, b) in c.visitedEdges <==> Repeated(p, exec, state, c.path + [c.pc], b)
  {
    hide Leads, OutcomeAt;
    var path := c.path + [c.pc];
    if (c.pc, b) in c.visitedEdges {
      assert EdgeOnPath(p, exec, state, c.path, (c.pc, b));
      var i: nat :| Branched(p, exec, state, c.path, i, b) && c.path[i] == c.pc;
      BranchesStay(p, exec, state, c.path, c.pc, i, b);
      assert path[i] == path[|path| - 1];
    }
    if Repeated(p, exec, state, path, b) {
      var i :| 0 <= i < |path| - 1 && path[i] == path[|path| - 1] && Branched(p, exec, state, path, i, b);
      BranchesStay(p, exec, state, c.path, c.pc, i, b);
      assert c.path[i] == c.pc;
    }
  }

  lemma {:induction false} StepCaused<S(!new)>(p: Program, exec: (Instruction, S) -> (S, Outcome), state: S,
                                               c: Config<S>)
    requires Running(p, c) && Listed(p, c.path) && EdgesOnPath(p, exec, state, c)
    requires c.state == StateAfter(p, exec, state, c.path)
    ensures
      var d := Step(p, exec, c);
      d.path != [] && Listed(p, d.path) && ExitCaused(p, exec, state, d.path, d.pc, d.exit)
  {
    hide Step, Leads, OutcomeAt, Chosen, StateAfter, Returns, Running, EdgesOnPath, Repeated, NothingAbove;
    RunningIsListed(p, c);
    var d, n := Step(p, exec, c), |c.path|;
    StepPath(p, exec, c);
    StepChooses(p, exec, c);
    OutcomesStay(p, exec, state, c.path, c.pc);
    var outcome := OutcomeAt(p, exec, state, d.path, n);
    ChosenAtMostOne(p, c.pc, outcome);
    ChosenLeads(p, c.pc, outcome, 0);
    forall b: nat ensures (c.pc, b) in c.visitedEdges <==> Repeated(p, exec, state, d.path, b) {
      GuardIsRepetition(p, exec, state, c, b);
    }
    assert d.path[n] == c.pc;
    assert forall b: nat :: Branched(p, exec, state, d.path, n, b) <==> outcome.Jump? && Leads(p, c.pc, outcome, b);
    assert Loops(p, exec, state, d.path) <==>
        outcome.Jump? && exists b: nat :: Leads(p, c.pc, outcome, b) && (c.pc, b) in c.visitedEdges;
  }

  /**
   * Every configuration of a run is explained by the path it has visited: the state is that of executing the path,
   * each entry is where the outcome of the entry before it leads, and a loop that has stopped has its stated cause.
   */
  lemma {:induction false} RunExplained<S(!new)>(p: Program, exec: (Instruction, S) -> (S, Outcome), state: S, k: nat)
    requires p.rows != []
    ensures Explained(p, exec, state, Run(p, exec, state, k))
  {
    hide Step, Running, EdgesOnPath, ExitCaused, FollowsOutcomes;
    if k == 0 {
      NoEdges(p, exec, state);
    } else {
      RunExplained(p, exec, state, k - 1);
      var c := Run(p, exec, state, k - 1);
      if Running(p, c) { StepExplained(p, exec, state, c); }
    }
  }

  lemma {:induction false} NoEdges<S(!new)>(p: Program, exec: (Instruction, S) -> (S, Outcome), state: S)
    requires p.rows != []
    ensures Listed(p, []) && EdgesOnPath(p, exec, state, Initial(p, state)) && FollowsOutcomes(p, exec, state, [])
  {
  }

  lemma {:induction false} StepExplained<S(!new)>(p: Program, exec: (Instruction, S) -> (S, Outcome), state: S,
                                                  c: Config<S>)
    requires p.rows != [] && Running(p, c) && Explained(p, exec, state, c)
    ensures Explained(p, exec, state, Step(p, exec, c))
  {
    hide Step, Leads, OutcomeAt, Loops, Leaves, Returns, EdgesOnPath, NothingAbove, FollowsOutcomes;
    StepPath(p, exec, c);
    EdgesGrow(p, exec, state, c);
    StepCaused(p, exec, state, c);
    StepChooses(p, exec, c);
    OutcomesStay(p, exec, state, c.path, c.pc);
    FollowsGrows(p, exec, state, c.path, c.pc);
    hide ExitCaused;
  }
}
