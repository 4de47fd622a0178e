/** Printing natural loops: the do-while plan and the emit loop with its depth counter. */
module LoopEmission {
  import opened Common
  import opened StatementText

  datatype Stmt = Stmt(va: nat, text: string, mnemonic: string, isLabelTarget: bool, branchTarget: Option<nat>,
                       removed: bool)

  /** Loop header -> sources of its backedges. */
  type Headers = map<nat, seq<nat>>

  // --------------------------------------------------------------- loop tables

  datatype Backedge = Backedge(from: nat, to: nat)

  function SourcesOf(edges: seq<Backedge>, header: nat): seq<nat> {
    if edges == [] then []
    else
      var e := edges[|edges| - 1];
      SourcesOf(edges[..|edges| - 1], header) + if e.to == header then [e.from] else []
  }

  function AllSources(edges: seq<Backedge>): set<nat> {
    if edges == [] then {} else AllSources(edges[..|edges| - 1]) + {edges[|edges| - 1].from}
  }

  method LoopTables(edges: seq<Backedge>) returns (headers: Headers, sources: set<nat>)
    ensures forall h: nat :: SourcesOf(edges, h) == if h in headers then headers[h] else []
    ensures forall h :: h in headers ==> headers[h] != []
    ensures sources == AllSources(edges)
  {
    headers, sources := map[], {};
    for i := 0 to |edges|
      invariant forall h: nat :: SourcesOf(edges[..i], h) == if h in headers then headers[h] else []
      invariant forall h :: h in headers ==> headers[h] != []
      invariant sources == AllSources(edges[..i])
    {
      var e := edges[i];
      assert edges[..i + 1][..i] == edges[..i];
      headers := headers[e.to := (if e.to in headers then headers[e.to] else []) + [e.from]];
      sources := sources + {e.from};
    }
    assert edges[..|edges|] == edges;
  }

  // ------------------------------------------------------------- do-while plans

  /** `if (<cond>) goto L_X;` yields its condition. */
  function ParseIfGoto(text: string): Option<string> {
    var t := Trim(text);
    if "if (" <= t && FirstIndex(t, ") goto ", |"if ("|).Some?
    then Some(t[|"if ("|..FirstIndex(t, ") goto ", |"if ("|).value])
    else None
  }

  function FindStmt(stmts: seq<Stmt>, va: nat): Option<Stmt> {
    if stmts == [] then None else if stmts[0].va == va then Some(stmts[0]) else FindStmt(stmts[1..], va)
  }

  /** The condition of the loop at `h`, when it has one backedge and that is a conditional jump to `h`. */
  function DoWhileCondition(stmts: seq<Stmt>, headers: Headers, h: nat): Option<string> {
    if h !in headers || |headers[h]| != 1 then None
    else
      match FindStmt(stmts, headers[h][0])
      case None => None
      case Some(b) => if b.branchTarget != Some(h) || b.mnemonic == "jmp" then None else ParseIfGoto(b.text)
  }

  ghost predicate FirstAt(stmts: seq<Stmt>, k: nat, va: nat) {
    k < |stmts| && stmts[k].va == va && forall j :: 0 <= j < k ==> stmts[j].va != va
  }

  /** `t` reads `if (`, the condition, and the first `) goto ` after it. */
  ghost predicate ReadsIfGoto(t: string, condition: string) {
    var open, mark := "if (", ") goto ";
    && HasAt(t, open, 0) && HasAt(t, condition, |open|) && HasAt(t, mark, |open| + |condition|)
    && forall j: nat :: |open| <= j < |open| + |condition| ==> !HasAt(t, mark, j)
  }

  /** The loop at `h` has one backedge, and the first statement there is a conditional jump back to `h`. */
  ghost predicate ClosesWith(stmts: seq<Stmt>, headers: Headers, h: nat, condition: string) {
    && h in headers && |headers[h]| == 1
    && exists k: nat ::
         && FirstAt(stmts, k, headers[h][0])
         && stmts[k].branchTarget == Some(h) && stmts[k].mnemonic != "jmp"
             && ReadsIfGoto(Trim(stmts[k].text), condition)
  }

  lemma {:induction false} IfGotoExactly(text: string, condition: string)
    ensures ParseIfGoto(text) == Some(condition) <==> ReadsIfGoto(Trim(text), condition)
  {
    hide FirstIndex, Trim;
    var t, open, mark := Trim(text), "if (", ") goto ";
    FirstIndexIsFirst(t, mark, |open|, |open| + |condition|);
    assert open <= t <==> HasAt(t, open, 0);
    if ParseIfGoto(text) == Some(condition) {
      assert |open| + |condition| == FirstIndex(t, mark, |open|).value;
    }
  }

  lemma {:induction false} FindsFirst(stmts: seq<Stmt>, va: nat)
    ensures
      match FindStmt(stmts, va)
      case Some(s) => exists k: nat :: FirstAt(stmts, k, va) && stmts[k] == s
      case None => forall k: nat :: !FirstAt(stmts, k, va)
  {
    if stmts != [] && stmts[0].va != va {
      var rest := stmts[1..];
      FindsFirst(rest, va);
      assert forall j :: 0 < j < |stmts| ==> stmts[j] == rest[j - 1];
      if FindStmt(rest, va).Some? {
        var k: nat :| FirstAt(rest, k, va) && rest[k] == FindStmt(rest, va).value;
        assert FirstAt(stmts, k + 1, va) && stmts[k + 1] == rest[k];
      } else {
        forall k: nat ensures !FirstAt(stmts, k, va) {
          if FirstAt(stmts, k, va) { assert FirstAt(rest, k - 1, va); }
        }
      }
    } else if stmts != [] {
      assert FirstAt(stmts, 0, va);
    }
  }

  /** Which loops qualify for a do-while, and with which condition. */
  lemma {:induction false} DoWhileExactly(stmts: seq<Stmt>, headers: Headers, h: nat, condition: string)
    ensures DoWhileCondition(stmts, headers, h) == Some(condition) <==> ClosesWith(stmts, headers, h, condition)
  {
    hide FindStmt, ParseIfGoto, ReadsIfGoto, Trim;
    if h in headers && |headers[h]| == 1 {
      var va := headers[h][0];
      FindsFirst(stmts, va);
      if FindStmt(stmts, va).Some? {
        var k: nat :| FirstAt(stmts, k, va) && stmts[k] == FindStmt(stmts, va).value;
        IfGotoExactly(stmts[k].text, condition);
        assert forall l: nat :: FirstAt(stmts, l, va) ==> l == k;
      }
    }
  }

  datatype Plan = Plan(headers: map<nat, nat>, conditions: map<nat, string>)

  /** What the plan says, declaratively. */
  ghost predicate IsPlan(stmts: seq<Stmt>, headers: Headers, plan: Plan) {
    && (forall h :: h in plan.headers <==> h in headers && DoWhileCondition(stmts, headers, h).Some?)
    && (forall h :: h in plan.headers ==> plan.headers[h] == headers[h][0] && plan.headers[h] in plan.conditions)
    && (forall s ::
        s in plan.conditions ==>
          exists h ::
            h in plan.headers && plan.headers[h] == s
              && Some(plan.conditions[s]) == DoWhileCondition(stmts, headers, h))
  }

  method BuildPlan(stmts: seq<Stmt>, headers: Headers) returns (plan: Plan)
    ensures IsPlan(stmts, headers, plan)
  {
    hide DoWhileCondition;
    plan := Plan(map[], map[]);
    var todo := headers.Keys;
    while todo != {}
      invariant todo <= headers.Keys
      invariant forall h ::
          h in plan.headers <==> h in headers && h !in todo && DoWhileCondition(stmts, headers, h).Some?
      invariant forall h ::
          h in plan.headers ==>
            |headers[h]| == 1 && plan.headers[h] == headers[h][0] && plan.headers[h] in plan.conditions
      invariant forall s ::
          s in plan.conditions ==>
            exists h ::
              h in plan.headers && plan.headers[h] == s
                && Some(plan.conditions[s]) == DoWhileCondition(stmts, headers, h)
      decreases |todo|
    {
      var h := Min(todo);
      todo := todo - {h};
      var condition := DoWhileCondition(stmts, headers, h);
      if condition.Some? {
        SingleSource(stmts, headers, h);
        var source := headers[h][0];
        plan := Plan(plan.headers[h := source], plan.conditions[source := condition.value]);
        assert plan.headers[h] == source && Some(plan.conditions[source]) == DoWhileCondition(stmts, headers, h);
      }
    }
  }

  lemma {:induction false} SingleSource(stmts: seq<Stmt>, headers: Headers, h: nat)
    requires DoWhileCondition(stmts, headers, h).Some?
    ensures h in headers && |headers[h]| == 1
  {
  }

  // ------------------------------------------------------------------ emission

  /** Printed lines; openers and closers carry the address of the statement that printed them. */
  datatype Line =
    | Label(va: nat)
    | OpenDo(header: nat)
    | OpenWhile(header: nat, sources: seq<nat>)
    | Body(stmt: nat, text: string, indented: bool)
    | CloseDo(source: nat, condition: string)
    | CloseWhile(source: nat, target: nat)
    | CloseDangling

  predicate Opens(l: Line) { l.OpenDo? || l.OpenWhile? }

  function HeaderOf(l: Line): nat { if Opens(l) then l.header else 0 }

  predicate Closes(l: Line) { l.CloseDo? || l.CloseWhile? || l.CloseDangling? }

  predicate HasForward(sources: seq<nat>, va: nat) { exists i :: 0 <= i < |sources| && sources[i] > va }

  function OpenLines(s: Stmt, headers: Headers, plan: Plan): seq<Line> {
    (if s.isLabelTarget && s.va !in plan.headers then [Label(s.va)] else [])
    + (if s.va in plan.headers then [OpenDo(s.va)]
       else if s.va in headers && HasForward(headers[s.va], s.va) then [OpenWhile(s.va, headers[s.va])]
       else [])
  }

  predicate OpensLoop(s: Stmt, headers: Headers, plan: Plan) {
    s.va in plan.headers || (s.va in headers && HasForward(headers[s.va], s.va))
  }

  function BodyLines(s: Stmt, plan: Plan, depth: nat): seq<Line> {
    if !s.removed && s.va !in plan.conditions then [Body(s.va, s.text, depth > 0)] else []
  }

  function CloseLines(s: Stmt, sources: set<nat>, plan: Plan, depth: nat): seq<Line> {
    if depth == 0 || s.va !in sources then []
    else if s.va in plan.conditions then [CloseDo(s.va, plan.conditions[s.va])]
    else [CloseWhile(s.va, match s.branchTarget case Some(t) => t case None => 0)]
  }

  function InnerDepth(s: Stmt, headers: Headers, plan: Plan, depth: nat): nat {
    if OpensLoop(s, headers, plan) then depth + 1 else depth
  }

  /** Everything printed for one statement that is reached at a given depth. */
  function StmtLines(s: Stmt, headers: Headers, sources: set<nat>, plan: Plan, depth: nat): seq<Line> {
    var inner := InnerDepth(s, headers, plan, depth);
    OpenLines(s, headers, plan) + BodyLines(s, plan, inner) + CloseLines(s, sources, plan, inner)
  }

  function DepthAfter(s: Stmt, headers: Headers, sources: set<nat>, plan: Plan, depth: nat): nat {
    var inner := InnerDepth(s, headers, plan, depth);
    if inner > 0 && s.va in sources then inner - 1 else inner
  }

  /** Lines and depth after the first `n` statements. */
  function Lines(stmts: seq<Stmt>, headers: Headers, sources: set<nat>, plan: Plan, n: nat): seq<Line>
    requires n <= |stmts|
  {
    if n == 0 then []
    else
      Lines(stmts, headers, sources, plan, n - 1)
        + StmtLines(stmts[n - 1], headers, sources, plan, Depth(stmts, headers, sources, plan, n - 1))
  }

  function Depth(stmts: seq<Stmt>, headers: Headers, sources: set<nat>, plan: Plan, n: nat): nat
    requires n <= |stmts|
  {
    if n == 0 then 0 else DepthAfter(stmts[n - 1], headers, sources, plan, Depth(stmts, headers, sources, plan, n - 1))
  }

  function Dangling(n: nat): seq<Line> { seq(n, _ => CloseDangling) }

  /** The loop body for one statement. */
  method EmitStmt(before: seq<Line>, s: Stmt, headers: Headers, sources: set<nat>, plan: Plan, open: nat)
    returns (lines: seq<Line>, depth: nat)
    ensures lines == before + StmtLines(s, headers, sources, plan, open)
    ensures depth == DepthAfter(s, headers, sources, plan, open)
  {
    depth := open;
    var printed := if s.isLabelTarget && s.va !in plan.headers then [Label(s.va)] else [];
    if s.va in plan.headers {
      printed := printed + [OpenDo(s.va)];
      depth := depth + 1;
    } else if s.va in headers && HasForward(headers[s.va], s.va) {
      printed := printed + [OpenWhile(s.va, headers[s.va])];
      depth := depth + 1;
    }
    assert printed == OpenLines(s, headers, plan) && depth == InnerDepth(s, headers, plan, open);
    hide OpenLines, InnerDepth;
    var body := if !s.removed && s.va !in plan.conditions then [Body(s.va, s.text, depth > 0)] else [];
    var closers: seq<Line> := [];
    if depth > 0 && s.va in sources {
      closers := [if s.va in plan.conditions then CloseDo(s.va, plan.conditions[s.va])
                  else CloseWhile(s.va, match s.branchTarget case Some(t) => t case None => 0)];
    }
    assert closers == CloseLines(s, sources, plan, depth) && body == BodyLines(s, plan, depth);
    assert closers != [] <==> depth > 0 && s.va in sources;
    lines := before + (printed + body + closers);
    if closers != [] { depth := depth - 1; }
  }

  /** The emit loop; `cuts` marks where the lines of each statement begin. */
  method EmitBody(stmts: seq<Stmt>, headers: Headers, sources: set<nat>, plan: Plan)
    returns (lines: seq<Line>, ghost cuts: seq<nat>)
    ensures lines
        == Lines(stmts, headers, sources, plan, |stmts|) + Dangling(Depth(stmts, headers, sources, plan, |stmts|))
    ensures IsLayout(lines, cuts, stmts, headers, sources, plan)
    ensures IsPlan(stmts, headers, plan) ==>
        Bodies(lines) == Kept(stmts, plan) && Labels(lines) == Labelled(stmts, plan)
  {
    hide StmtLines, DepthAfter, IsLayout, IsPlan;
    lines := [];
    var depth: nat := 0;
    for n := 0 to |stmts|
      invariant lines == Lines(stmts, headers, sources, plan, n) && depth == Depth(stmts, headers, sources, plan, n)
    {
      lines, depth := EmitStmt(lines, stmts[n], headers, sources, plan, depth);
    }
    ghost var base, left := lines, depth;
    while depth > 0
      invariant depth <= left && lines == base + Dangling(left - depth)
    {
      lines := lines + [CloseDangling];
      depth := depth - 1;
    }
    cuts := Cuts(stmts, headers, sources, plan, |stmts|);
    EmittedLayout(stmts, headers, sources, plan);
    if IsPlan(stmts, headers, plan) { LayoutPrintsKept(lines, cuts, stmts, headers, sources, plan); }
  }

  // ------------------------------------------------------------------- balance

  /** The stack of open loops after some lines; a closer pops the innermost. */
  function Stack(lines: seq<Line>): seq<Line> {
    if lines == [] then []
    else
      var rest, l := Stack(lines[..|lines| - 1]), lines[|lines| - 1];
      if Opens(l) then rest + [l]
      else if Closes(l) && rest != [] then rest[..|rest| - 1]
      else rest
  }

  /** No closer is printed without an open loop. */
  ghost predicate NeverNegative(lines: seq<Line>) {
    forall k :: 0 <= k < |lines| && Closes(lines[k]) ==> Stack(lines[..k]) != []
  }

  lemma {:induction false} SnocBalance(lines: seq<Line>, l: Line)
    requires NeverNegative(lines) && (Closes(l) ==> Stack(lines) != [])
    ensures NeverNegative(lines + [l])
    ensures var stack := Stack(lines);
      Stack(lines + [l]) == if Opens(l) then stack + [l] else if Closes(l) then stack[..|stack| - 1] else stack
  {
    var all := lines + [l];
    assert all[..|lines|] == lines;
    forall k | 0 <= k < |all| && Closes(all[k]) ensures Stack(all[..k]) != [] {
      if k < |lines| { assert all[..k] == lines[..k] && all[k] == lines[k]; }
    }
  }

  lemma {:induction false} PlainLines(lines: seq<Line>, more: seq<Line>)
    requires NeverNegative(lines) && |more| <= 1 && forall i :: 0 <= i < |more| ==> !Opens(more[i]) && !Closes(more[i])
    ensures NeverNegative(lines + more) && Stack(lines + more) == Stack(lines)
  {
    if more == [] { assert lines + more == lines; } else { SnocBalance(lines, more[0]); assert more == [more[0]]; }
  }

  /** The line printed when a statement opens a loop. */
  function Opener(s: Stmt, headers: Headers, plan: Plan): Line
    requires OpensLoop(s, headers, plan)
  {
    if s.va in plan.headers then OpenDo(s.va) else OpenWhile(s.va, headers[s.va])
  }

  lemma {:induction false} OpenBalance(lines: seq<Line>, s: Stmt, headers: Headers, plan: Plan)
    requires NeverNegative(lines)
    ensures NeverNegative(lines + OpenLines(s, headers, plan))
    ensures Stack(lines + OpenLines(s, headers, plan))
      == if OpensLoop(s, headers, plan) then Stack(lines) + [Opener(s, headers, plan)] else Stack(lines)
  {
    var labels := if s.isLabelTarget && s.va !in plan.headers then [Label(s.va)] else [];
    PlainLines(lines, labels);
    if OpensLoop(s, headers, plan) {
      var l := Opener(s, headers, plan);
      SnocBalance(lines + labels, l);
      assert lines + OpenLines(s, headers, plan) == (lines + labels) + [l];
    } else {
      assert lines + OpenLines(s, headers, plan) == lines + labels;
    }
  }

  /** The stack once the statement has opened its loop, if any. */
  function InnerStack(stack: seq<Line>, s: Stmt, headers: Headers, plan: Plan): seq<Line> {
    if OpensLoop(s, headers, plan) then stack + [Opener(s, headers, plan)] else stack
  }

  /** What one statement does to the balance: open, then at most one close. */
  lemma {:induction false} StmtBalance(lines: seq<Line>, s: Stmt, headers: Headers, sources: set<nat>, plan: Plan)
    requires NeverNegative(lines)
    ensures
      var inner := InnerStack(Stack(lines), s, headers, plan);
      && |inner| == InnerDepth(s, headers, plan, |Stack(lines)|)
      && NeverNegative(lines + StmtLines(s, headers, sources, plan, |Stack(lines)|))
      && Stack(lines + StmtLines(s, headers, sources, plan, |Stack(lines)|))
          == (if inner != [] && s.va in sources then inner[..|inner| - 1] else inner)
      && |Stack(lines + StmtLines(s, headers, sources, plan, |Stack(lines)|))|
          == DepthAfter(s, headers, sources, plan, |Stack(lines)|)
  {
    hide Opener, OpensLoop, OpenLines, NeverNegative, Stack;
    OpenBalance(lines, s, headers, plan);
    var depth := InnerDepth(s, headers, plan, |Stack(lines)|);
    var l1 := lines + OpenLines(s, headers, plan);
    var body, closes := BodyLines(s, plan, depth), CloseLines(s, sources, plan, depth);
    PlainLines(l1, body);
    var all := lines + StmtLines(s, headers, sources, plan, |Stack(lines)|);
    assert all == (l1 + body) + closes;
    if depth == 0 || s.va !in sources {
      assert all == l1 + body;
    } else {
      SnocBalance(l1 + body, closes[0]);
    }
  }

  lemma {:induction false} EmptyLines()
    ensures NeverNegative([]) && Stack([]) == []
  {
  }

  /** The depth counter is the height of the stack, and no prefix closes more than it opened. */
  lemma {:induction false} EmittedBalance(stmts: seq<Stmt>, headers: Headers, sources: set<nat>, plan: Plan, n: nat)
    requires n <= |stmts|
    ensures NeverNegative(Lines(stmts, headers, sources, plan, n))
    ensures |Stack(Lines(stmts, headers, sources, plan, n))| == Depth(stmts, headers, sources, plan, n)
  {
    hide StmtLines, DepthAfter, NeverNegative, Stack, InnerStack, InnerDepth;
    EmptyLines();
    if n > 0 {
      EmittedBalance(stmts, headers, sources, plan, n - 1);
      StmtBalance(Lines(stmts, headers, sources, plan, n - 1), stmts[n - 1], headers, sources, plan);
    }
  }

  lemma {:induction false} SliceTwice(stack: seq<Line>, k: nat)
    requires k < |stack|
    ensures stack[..k + 1][..k] == stack[..k]
  {
  }

  lemma {:induction false} DanglingBalance(lines: seq<Line>, n: nat)
    requires NeverNegative(lines) && n <= |Stack(lines)|
    ensures NeverNegative(lines + Dangling(n))
    ensures Stack(lines + Dangling(n)) == Stack(lines)[..|Stack(lines)| - n]
  {
    hide Stack, NeverNegative;
    if n == 0 {
      assert lines + Dangling(n) == lines;
    } else {
      DanglingBalance(lines, n - 1);
      SnocBalance(lines + Dangling(n - 1), CloseDangling);
      SliceTwice(Stack(lines), |Stack(lines)| - n);
      assert lines + Dangling(n) == (lines + Dangling(n - 1)) + [CloseDangling];
    }
  }

  /** Whatever the statements and the loop tables, the printed loops are balanced. */
  lemma {:induction false} EmissionBalanced(stmts: seq<Stmt>, headers: Headers, sources: set<nat>, plan: Plan)
    ensures
      var all := Lines(stmts, headers, sources, plan, |stmts|)
          + Dangling(Depth(stmts, headers, sources, plan, |stmts|));
      NeverNegative(all) && Stack(all) == []
  {
    hide Lines, Depth, Stack, NeverNegative, Dangling;
    EmittedBalance(stmts, headers, sources, plan, |stmts|);
    DanglingBalance(Lines(stmts, headers, sources, plan, |stmts|), Depth(stmts, headers, sources, plan, |stmts|));
  }

  // ------------------------------------------------------------------- pairing

  ghost predicate Seen(stmts: seq<Stmt>, n: nat, va: nat)
    requires n <= |stmts|
  {
    exists i :: 0 <= i < n && stmts[i].va == va
  }

  ghost predicate AddressOrder(stmts: seq<Stmt>) {
    forall i, j :: 0 <= i < j < |stmts| ==> stmts[i].va < stmts[j].va
  }

  function Source(headers: Headers, h: nat): nat {
    if h in headers && headers[h] != [] then headers[h][0] else 0
  }

  /** One source, after the header, and both are statements. */
  ghost predicate Span(stmts: seq<Stmt>, headers: Headers, h: nat)
    requires h in headers
  {
    headers[h] == [Source(headers, h)] && h < Source(headers, h) && Seen(stmts, |stmts|, h)
        && Seen(stmts, |stmts|, Source(headers, h))
  }

  /** Distinct end points; of two loops, one ends before the other starts or lies inside it. */
  ghost predicate Nested(headers: Headers, g: nat, h: nat) {
    Source(headers, g) != h && (Source(headers, g) < h || Source(headers, h) < Source(headers, g))
  }

  ghost predicate WellNested(stmts: seq<Stmt>, headers: Headers, sources: set<nat>) {
    && AddressOrder(stmts)
    && (forall h :: h in headers ==> Span(stmts, headers, h))
    && (forall g, h :: g in headers && h in headers && g < h ==> Nested(headers, g, h))
    && (forall s :: s in sources <==> exists h :: h in headers && Source(headers, h) == s)
  }

  /** The opener of a loop, as the plan decides it. */
  function LoopLine(headers: Headers, plan: Plan, h: nat): Line
    requires h in headers
  {
    if h in plan.headers then OpenDo(h) else OpenWhile(h, headers[h])
  }

  ghost predicate InStack(stack: seq<Line>, headers: Headers, plan: Plan, h: nat)
    requires h in headers
  {
    LoopLine(headers, plan, h) in stack
  }

  /** The stack holds exactly the loops entered and not yet left, outermost first. */
  ghost predicate StackIs(stmts: seq<Stmt>, headers: Headers, plan: Plan, n: nat, stack: seq<Line>)
    requires n <= |stmts|
  {
    && (forall i ::
        0 <= i < |stack| ==>
          Opens(stack[i]) && HeaderOf(stack[i]) in headers && stack[i] == LoopLine(headers, plan, HeaderOf(stack[i])))
    && (forall i, j :: 0 <= i < j < |stack| ==> HeaderOf(stack[i]) < HeaderOf(stack[j]))
    && (forall h ::
        h in headers ==>
          (InStack(stack, headers, plan, h) <==> Seen(stmts, n, h) && !Seen(stmts, n, Source(headers, h))))
  }

  lemma {:induction false} SeenStep(stmts: seq<Stmt>, n: nat, va: nat)
    requires n < |stmts| && AddressOrder(stmts)
    ensures Seen(stmts, n + 1, va) <==> Seen(stmts, n, va) || va == stmts[n].va
    ensures Seen(stmts, n, va) ==> va < stmts[n].va
    ensures Seen(stmts, |stmts|, va) && !Seen(stmts, n, va) ==> va >= stmts[n].va
  {
    if Seen(stmts, |stmts|, va) && !Seen(stmts, n, va) {
      var i :| 0 <= i < |stmts| && stmts[i].va == va;
      assert i >= n;
    }
  }

  /** At a source, the innermost open loop is the one that ends there. */
  lemma {:induction false} TopIsOwner(stmts: seq<Stmt>, headers: Headers, sources: set<nat>, plan: Plan, n: nat,
                                      stack: seq<Line>, h: nat)
    requires WellNested(stmts, headers, sources) && n < |stmts|
    requires StackIs(stmts, headers, plan, n, stack)
    requires h in headers && Source(headers, h) == stmts[n].va
    ensures stack != [] && stack[|stack| - 1] == LoopLine(headers, plan, h)
  {
    var x := stmts[n].va;
    SeenStep(stmts, n, h);
    SeenStep(stmts, n, x);
    assert InStack(stack, headers, plan, h);
    var i :| 0 <= i < |stack| && stack[i] == LoopLine(headers, plan, h);
    var g := HeaderOf(stack[|stack| - 1]);
    assert InStack(stack, headers, plan, g);
    SeenStep(stmts, n, g);
    SeenStep(stmts, n, Source(headers, g));
    assert Span(stmts, headers, g);
    assert h < g ==> Nested(headers, h, g);
  }

  lemma {:induction false} NotHeaderAndSource(stmts: seq<Stmt>, headers: Headers, sources: set<nat>, g: nat, h: nat)
    requires WellNested(stmts, headers, sources) && g in headers && h in headers
    ensures Source(headers, g) != h
    ensures Source(headers, g) == Source(headers, h) ==> g == h
  {
    assert Span(stmts, headers, g) && Span(stmts, headers, h);
    if g < h { assert Nested(headers, g, h); }
    if h < g { assert Nested(headers, h, g); }
  }

  lemma {:induction false} EndPointsDistinct(stmts: seq<Stmt>, headers: Headers, sources: set<nat>)
    requires WellNested(stmts, headers, sources)
    ensures headers.Keys !! sources
  {
    forall g, h | g in headers && h in headers
      ensures Source(headers, g) != h { NotHeaderAndSource(stmts, headers, sources, g, h); }
  }

  /** Entering a header pushes it; leaving a source pops its owner; other statements change nothing. */
  lemma {:induction false} StackStep(stmts: seq<Stmt>, headers: Headers, sources: set<nat>, plan: Plan, n: nat,
                                     stack: seq<Line>, next: seq<Line>)
    requires WellNested(stmts, headers, sources) && n < |stmts| && StackIs(stmts, headers, plan, n, stack)
    requires next == if stmts[n].va in headers then stack + [LoopLine(headers, plan, stmts[n].va)]
                     else if stmts[n].va in sources && stack != [] then stack[..|stack| - 1] else stack
    ensures StackIs(stmts, headers, plan, n + 1, next)
  {
    hide Seen, Nested, StackIs;
    var x := stmts[n].va;
    if x in headers {
      PushStep(stmts, headers, sources, plan, n, stack);
    } else if x in sources {
      var h :| h in headers && Source(headers, h) == x;
      TopIsOwner(stmts, headers, sources, plan, n, stack, h);
      PopStep(stmts, headers, sources, plan, n, stack, h);
    } else {
      IdleStep(stmts, headers, sources, plan, n, stack);
    }
  }

  lemma {:induction false} IdleStep(stmts: seq<Stmt>, headers: Headers, sources: set<nat>, plan: Plan, n: nat,
                                    stack: seq<Line>)
    requires WellNested(stmts, headers, sources) && n < |stmts| && StackIs(stmts, headers, plan, n, stack)
    requires stmts[n].va !in headers && stmts[n].va !in sources
    ensures StackIs(stmts, headers, plan, n + 1, stack)
  {
    forall h | h in headers
      ensures InStack(stack, headers, plan, h) <==> Seen(stmts, n + 1, h) && !Seen(stmts, n + 1, Source(headers, h))
    {
      SeenStep(stmts, n, h);
      SeenStep(stmts, n, Source(headers, h));
      assert Source(headers, h) in sources;
    }
  }

  lemma {:induction false} PushStep(stmts: seq<Stmt>, headers: Headers, sources: set<nat>, plan: Plan, n: nat,
                                    stack: seq<Line>)
    requires WellNested(stmts, headers, sources) && n < |stmts| && StackIs(stmts, headers, plan, n, stack)
    requires stmts[n].va in headers
    ensures StackIs(stmts, headers, plan, n + 1, stack + [LoopLine(headers, plan, stmts[n].va)])
  {
    hide Seen, Nested, WellNested;
    var x := stmts[n].va;
    forall i | 0 <= i < |stack| ensures HeaderOf(stack[i]) < x {
      PushedAbove(stmts, headers, sources, plan, n, stack, i);
    }
    forall h | h in headers
      ensures InStack(stack + [LoopLine(headers, plan, x)], headers, plan, h)
          <==> Seen(stmts, n + 1, h) && !Seen(stmts, n + 1, Source(headers, h))
    {
      PushMember(stmts, headers, sources, plan, n, stack, h);
    }
  }

  lemma {:induction false} PushedAbove(stmts: seq<Stmt>, headers: Headers, sources: set<nat>, plan: Plan, n: nat,
                                       stack: seq<Line>, i: nat)
    requires WellNested(stmts, headers, sources) && n < |stmts| && StackIs(stmts, headers, plan, n, stack)
        && i < |stack|
    ensures HeaderOf(stack[i]) < stmts[n].va
  {
    hide Nested;
    assert InStack(stack, headers, plan, HeaderOf(stack[i]));
    SeenStep(stmts, n, HeaderOf(stack[i]));
  }

  lemma {:induction false} PushMember(stmts: seq<Stmt>, headers: Headers, sources: set<nat>, plan: Plan, n: nat,
                                      stack: seq<Line>, h: nat)
    requires WellNested(stmts, headers, sources) && n < |stmts| && StackIs(stmts, headers, plan, n, stack)
    requires stmts[n].va in headers && h in headers
    ensures InStack(stack + [LoopLine(headers, plan, stmts[n].va)], headers, plan, h)
        <==> Seen(stmts, n + 1, h) && !Seen(stmts, n + 1, Source(headers, h))
  {
    var x := stmts[n].va;
    SeenStep(stmts, n, h);
    SeenStep(stmts, n, Source(headers, h));
    NotHeaderAndSource(stmts, headers, sources, h, x);
    assert Span(stmts, headers, h);
    hide Seen, Nested;
    assert InStack(stack + [LoopLine(headers, plan, x)], headers, plan, h)
        <==> InStack(stack, headers, plan, h) || h == x;
  }

  lemma {:induction false} PopStep(stmts: seq<Stmt>, headers: Headers, sources: set<nat>, plan: Plan, n: nat,
                                   stack: seq<Line>, owner: nat)
    requires WellNested(stmts, headers, sources) && n < |stmts| && StackIs(stmts, headers, plan, n, stack)
    requires owner in headers && Source(headers, owner) == stmts[n].va && stmts[n].va !in headers
    requires stack != [] && stack[|stack| - 1] == LoopLine(headers, plan, owner)
    ensures StackIs(stmts, headers, plan, n + 1, stack[..|stack| - 1])
  {
    hide Seen, Nested, WellNested;
    var next := stack[..|stack| - 1];
    forall h | h in headers
      ensures InStack(next, headers, plan, h) <==> Seen(stmts, n + 1, h) && !Seen(stmts, n + 1, Source(headers, h))
    {
      PopMember(stmts, headers, sources, plan, n, stack, owner, h);
    }
  }

  lemma {:induction false} PopMember(stmts: seq<Stmt>, headers: Headers, sources: set<nat>, plan: Plan, n: nat,
                                     stack: seq<Line>, owner: nat, h: nat)
    requires WellNested(stmts, headers, sources) && n < |stmts| && StackIs(stmts, headers, plan, n, stack)
    requires owner in headers && Source(headers, owner) == stmts[n].va && stmts[n].va !in headers
    requires stack != [] && stack[|stack| - 1] == LoopLine(headers, plan, owner) && h in headers
    ensures InStack(stack[..|stack| - 1], headers, plan, h)
        <==> Seen(stmts, n + 1, h) && !Seen(stmts, n + 1, Source(headers, h))
  {
    SeenStep(stmts, n, h);
    SeenStep(stmts, n, Source(headers, h));
    NotHeaderAndSource(stmts, headers, sources, h, owner);
    hide Seen, Nested, WellNested;
    PoppedMembers(headers, plan, stack, h);
  }

  lemma {:induction false} PoppedMembers(headers: Headers, plan: Plan, stack: seq<Line>, h: nat)
    requires stack != [] && h in headers
    requires forall i :: 0 <= i < |stack| ==> Opens(stack[i])
    requires forall i, j :: 0 <= i < j < |stack| ==> HeaderOf(stack[i]) < HeaderOf(stack[j])
    ensures InStack(stack[..|stack| - 1], headers, plan, h)
        <==> InStack(stack, headers, plan, h) && HeaderOf(stack[|stack| - 1]) != h
  {
    var line := LoopLine(headers, plan, h);
    if line in stack && HeaderOf(stack[|stack| - 1]) != h {
      var i :| 0 <= i < |stack| && stack[i] == line;
      assert stack[..|stack| - 1][i] == line;
    }
    if line in stack[..|stack| - 1] {
      var i :| 0 <= i < |stack| - 1 && stack[..|stack| - 1][i] == line;
      assert stack[i] == line;
    }
  }

  lemma {:induction false} InnerIsPush(stack: seq<Line>, s: Stmt, stmts: seq<Stmt>, headers: Headers,
                                       sources: set<nat>, plan: Plan)
    requires WellNested(stmts, headers, sources) && IsPlan(stmts, headers, plan)
    ensures InnerStack(stack, s, headers, plan) == if s.va in headers then stack + [LoopLine(headers, plan, s.va)]
        else stack
  {
    hide DoWhileCondition;
    if s.va in headers {
      assert Span(stmts, headers, s.va);
      assert headers[s.va][0] > s.va;
    }
  }

  /** The emitter's stack is the set of entered, not yet left loops at every statement. */
  lemma {:induction false} EmitterStack(stmts: seq<Stmt>, headers: Headers, sources: set<nat>, plan: Plan, n: nat)
    requires WellNested(stmts, headers, sources) && IsPlan(stmts, headers, plan) && n <= |stmts|
    ensures StackIs(stmts, headers, plan, n, Stack(Lines(stmts, headers, sources, plan, n)))
  {
    hide *;
    if n == 0 {
      EmptyStack(stmts, headers, sources, plan);
    } else {
      EmitterStack(stmts, headers, sources, plan, n - 1);
      StackAfter(stmts, headers, sources, plan, n - 1);
      StackStep(stmts, headers, sources, plan, n - 1, Stack(Lines(stmts, headers, sources, plan, n - 1)),
                Stack(Lines(stmts, headers, sources, plan, n)));
    }
  }

  lemma {:induction false} StackAfter(stmts: seq<Stmt>, headers: Headers, sources: set<nat>, plan: Plan, n: nat)
    requires WellNested(stmts, headers, sources) && IsPlan(stmts, headers, plan) && n < |stmts|
    ensures
      var stack, x := Stack(Lines(stmts, headers, sources, plan, n)), stmts[n].va;
      Stack(Lines(stmts, headers, sources, plan, n + 1)) ==
      if x in headers then stack + [LoopLine(headers, plan, x)]
      else if x in sources && stack != [] then stack[..|stack| - 1]
      else stack
  {
    hide NeverNegative, Stack, StmtLines, InnerStack, IsPlan, WellNested, LoopLine, DepthAfter, InnerDepth;
    EmittedBalance(stmts, headers, sources, plan, n);
    var lines, s := Lines(stmts, headers, sources, plan, n), stmts[n];
    StmtBalance(lines, s, headers, sources, plan);
    InnerIsPush(Stack(lines), s, stmts, headers, sources, plan);
    EndPointsDistinct(stmts, headers, sources);
  }

  lemma {:induction false} EmptyStack(stmts: seq<Stmt>, headers: Headers, sources: set<nat>, plan: Plan)
    ensures StackIs(stmts, headers, plan, 0, Stack(Lines(stmts, headers, sources, plan, 0)))
  {
  }

  /**
   * When loops are single-source, span forward and are strictly nested with distinct end points,
   * the closer printed at a source pops that loop's own opener, is a `while (cond)` exactly when the
   * opener is a `do`, and then carries that loop's own condition.
   */
  lemma {:induction false} CloserPairsWithHeader(stmts: seq<Stmt>, headers: Headers, sources: set<nat>, plan: Plan,
                                                 n: nat, h: nat)
    requires WellNested(stmts, headers, sources) && IsPlan(stmts, headers, plan) && n < |stmts|
    requires h in headers && Source(headers, h) == stmts[n].va
    ensures
      var stack := InnerStack(Stack(Lines(stmts, headers, sources, plan, n)), stmts[n], headers, plan);
      && stack != [] && stack[|stack| - 1] == LoopLine(headers, plan, h)
      && |CloseLines(stmts[n], sources, plan, |stack|)| == 1
      && match DoWhileCondition(stmts, headers, h)
         case Some(c) =>
           stack[|stack| - 1] == OpenDo(h) && CloseLines(stmts[n], sources, plan, |stack|) == [CloseDo(stmts[n].va, c)]
         case None =>
           stack[|stack| - 1] == OpenWhile(h, headers[h]) && CloseLines(stmts[n], sources, plan, |stack|)[0].CloseWhile?
  {
    hide Lines, Stack, InnerStack, DoWhileCondition, WellNested, StackIs, IsPlan;
    var stack := Stack(Lines(stmts, headers, sources, plan, n));
    EmitterStack(stmts, headers, sources, plan, n);
    TopIsOwner(stmts, headers, sources, plan, n, stack, h);
    InnerIsPush(stack, stmts[n], stmts, headers, sources, plan);
    EndPointsDistinct(stmts, headers, sources);
    PlanAtSource(stmts, headers, sources, plan, h);
  }

  lemma {:induction false} PlanAtSource(stmts: seq<Stmt>, headers: Headers, sources: set<nat>, plan: Plan, h: nat)
    requires WellNested(stmts, headers, sources) && IsPlan(stmts, headers, plan) && h in headers
    ensures Source(headers, h) in sources
    ensures DoWhileCondition(stmts, headers, h) == if Source(headers, h) in plan.conditions
        then Some(plan.conditions[Source(headers, h)]) else None
    ensures h in plan.headers <==> DoWhileCondition(stmts, headers, h).Some?
  {
    hide DoWhileCondition;
    var s := Source(headers, h);
    if s in plan.conditions {
      var g :| g in plan.headers && plan.headers[g] == s
          && Some(plan.conditions[s]) == DoWhileCondition(stmts, headers, g);
      NotHeaderAndSource(stmts, headers, sources, g, h);
    }
  }

  lemma {:induction false} BottomLoop(stmts: seq<Stmt>, headers: Headers, plan: Plan, n: nat, stack: seq<Line>)
    returns (h: nat)
    requires n <= |stmts| && StackIs(stmts, headers, plan, n, stack) && stack != []
    ensures h in headers && InStack(stack, headers, plan, h)
  {
    h := HeaderOf(stack[0]);
  }

  lemma {:induction false} LeftAtEnd(stmts: seq<Stmt>, headers: Headers, sources: set<nat>, plan: Plan,
                                     stack: seq<Line>, h: nat)
    requires WellNested(stmts, headers, sources) && StackIs(stmts, headers, plan, |stmts|, stack) && h in headers
    ensures !InStack(stack, headers, plan, h)
  {
    assert Span(stmts, headers, h);
  }

  /** And then no loop is left dangling. */
  lemma {:induction false} NothingDangles(stmts: seq<Stmt>, headers: Headers, sources: set<nat>, plan: Plan)
    requires WellNested(stmts, headers, sources) && IsPlan(stmts, headers, plan)
    ensures Depth(stmts, headers, sources, plan, |stmts|) == 0
  {
    hide Lines, Stack, IsPlan, NeverNegative, Depth, WellNested, StackIs, InStack;
    EmitterStack(stmts, headers, sources, plan, |stmts|);
    EmittedBalance(stmts, headers, sources, plan, |stmts|);
    var stack := Stack(Lines(stmts, headers, sources, plan, |stmts|));
    if stack != [] {
      var h := BottomLoop(stmts, headers, plan, |stmts|, stack);
      LeftAtEnd(stmts, headers, sources, plan, stack, h);
      assert false;
    }
  }

  // -------------------------------------------------------------------- layout

  function Rank(l: Line): nat {
    match l
    case Label(_) => 0
    case OpenDo(_) => 1
    case OpenWhile(_, _) => 1
    case Body(_, _, _) => 2
    case CloseDo(_, _) => 3
    case CloseWhile(_, _) => 3
    case CloseDangling => 4
  }

  /** Why a line may stand in the block of `s`, below lines that leave `stack` open. */
  ghost predicate Due(l: Line, s: Stmt, headers: Headers, sources: set<nat>, plan: Plan, stack: seq<Line>) {
    match l
    case Label(va) => va == s.va && s.isLabelTarget && s.va !in plan.headers
    case OpenDo(h) => h == s.va && s.va in plan.headers
    case OpenWhile(h, from) =>
      && h == s.va && s.va !in plan.headers && s.va in headers && from == headers[s.va]
      && exists i :: 0 <= i < |from| && from[i] > s.va
    case Body(va, text, indented) =>
      va == s.va && text == s.text && !s.removed && s.va !in plan.conditions && (indented <==> stack != [])
    case CloseDo(va, condition) =>
      va == s.va && s.va in sources && s.va in plan.conditions && condition == plan.conditions[s.va] && stack != []
    case CloseWhile(va, target) =>
      && va == s.va && s.va in sources && s.va !in plan.conditions && stack != []
      && target == (match s.branchTarget case Some(t) => t case None => 0)
    case CloseDangling => false
  }

  ghost predicate HasRank(block: seq<Line>, rank: nat) {
    exists k :: 0 <= k < |block| && Rank(block[k]) == rank
  }

  ghost predicate Ordered(block: seq<Line>) {
    forall i, j :: 0 <= i < j < |block| ==> Rank(block[i]) < Rank(block[j])
  }

  ghost predicate AllDue(before: seq<Line>, block: seq<Line>, s: Stmt, headers: Headers, sources: set<nat>,
                         plan: Plan) {
    forall k :: 0 <= k < |block| ==> Due(block[k], s, headers, sources, plan, Stack(before + block[..k]))
  }

  /** Everything a statement owes is in its block. */
  ghost predicate NothingMissing(before: seq<Line>, block: seq<Line>, s: Stmt, headers: Headers, sources: set<nat>,
                                 plan: Plan)
  {
    && (s.isLabelTarget && s.va !in plan.headers ==> HasRank(block, 0))
    && (s.va in plan.headers ==> HasRank(block, 1))
    && (s.va in headers && (exists i :: 0 <= i < |headers[s.va]| && headers[s.va][i] > s.va) ==> HasRank(block, 1))
    && (!s.removed && s.va !in plan.conditions ==> HasRank(block, 2))
    && (s.va in sources && !HasRank(block, 3) ==> Stack(before + block) == [])
  }

  /**
   * The lines of one statement: in the order label, opener, body, closer, each at most once, each where the
   * statement calls for it and exactly then.
   */
  ghost predicate IsBlock(before: seq<Line>, block: seq<Line>, s: Stmt, headers: Headers, sources: set<nat>, plan: Plan)
  {
    && Ordered(block)
    && AllDue(before, block, s, headers, sources, plan)
    && NothingMissing(before, block, s, headers, sources, plan)
  }

  ghost predicate BlockAt(lines: seq<Line>, cuts: seq<nat>, n: nat, s: Stmt, headers: Headers, sources: set<nat>,
                          plan: Plan)
  {
    && n + 1 < |cuts| && cuts[n] <= cuts[n + 1] <= |lines|
    && IsBlock(lines[..cuts[n]], lines[cuts[n]..cuts[n + 1]], s, headers, sources, plan)
  }

  /** The output is one block for each statement, in order, and then only the closers of the loops left open. */
  ghost predicate IsLayout(lines: seq<Line>, cuts: seq<nat>, stmts: seq<Stmt>, headers: Headers, sources: set<nat>,
                           plan: Plan)
  {
    && |cuts| == |stmts| + 1 && cuts[0] == 0 && cuts[|stmts|] <= |lines|
    && (forall n :: 0 <= n < |stmts| ==> BlockAt(lines, cuts, n, stmts[n], headers, sources, plan))
    && (forall k :: cuts[|stmts|] <= k < |lines| ==> lines[k] == CloseDangling)
    && NeverNegative(lines) && Stack(lines) == []
  }

  lemma {:induction false} OpenRanks(s: Stmt, headers: Headers, sources: set<nat>, plan: Plan)
    ensures
      var open := OpenLines(s, headers, plan);
      && |open| <= 2 && Ordered(open) && (forall k :: 0 <= k < |open| ==> Rank(open[k]) < 2)
      && (HasRank(open, 0) <==> s.isLabelTarget && s.va !in plan.headers)
      && (HasRank(open, 1) <==> OpensLoop(s, headers, plan))
      && forall k, stack :: 0 <= k < |open| ==> Due(open[k], s, headers, sources, plan, stack)
  {
    var open := OpenLines(s, headers, plan);
    if s.isLabelTarget && s.va !in plan.headers { assert Rank(open[0]) == 0; }
    if OpensLoop(s, headers, plan) { assert Rank(open[|open| - 1]) == 1; }
  }

  lemma {:induction false} RanksAppend(a: seq<Line>, b: seq<Line>, rank: nat)
    requires Ordered(a) && (forall k :: 0 <= k < |a| ==> Rank(a[k]) < rank)
    requires |b| <= 1 && (forall k :: 0 <= k < |b| ==> Rank(b[k]) == rank)
    ensures Ordered(a + b) && (forall k :: 0 <= k < |a + b| ==> Rank((a + b)[k]) <= rank)
    ensures HasRank(a + b, rank) <==> b != []
    ensures forall r: nat :: r < rank ==> (HasRank(a + b, r) <==> HasRank(a, r))
  {
    if b != [] { assert Rank((a + b)[|a|]) == rank; }
    forall r: nat | r < rank ensures HasRank(a + b, r) <==> HasRank(a, r) {
      if HasRank(a, r) {
        var k :| 0 <= k < |a| && Rank(a[k]) == r;
        assert Rank((a + b)[k]) == r;
      }
      if HasRank(a + b, r) {
        var k :| 0 <= k < |a + b| && Rank((a + b)[k]) == r;
        assert Rank(a[k]) == r;
      }
    }
  }

  lemma {:induction false} DueAppend(before: seq<Line>, a: seq<Line>, b: seq<Line>, s: Stmt, headers: Headers,
                                     sources: set<nat>, plan: Plan)
    requires AllDue(before, a, s, headers, sources, plan) && |b| <= 1
    requires b != [] ==> Due(b[0], s, headers, sources, plan, Stack(before + a))
    ensures AllDue(before, a + b, s, headers, sources, plan)
  {
    hide Due, Stack;
    forall k | 0 <= k < |a + b| ensures Due((a + b)[k], s, headers, sources, plan, Stack(before + (a + b)[..k])) {
      if k < |a| {
        assert (a + b)[k] == a[k] && (a + b)[..k] == a[..k];
      } else {
        assert (a + b)[..k] == a;
      }
    }
  }

  lemma {:induction false} OpensAreDue(before: seq<Line>, s: Stmt, headers: Headers, sources: set<nat>, plan: Plan)
    ensures AllDue(before, OpenLines(s, headers, plan), s, headers, sources, plan)
  {
    hide Stack, Due, OpenLines, Ordered, HasRank;
    OpenRanks(s, headers, sources, plan);
  }

  /** What is printed for a statement is its block. */
  lemma {:induction false} StmtBlock(before: seq<Line>, s: Stmt, headers: Headers, sources: set<nat>, plan: Plan)
    requires NeverNegative(before)
    ensures IsBlock(before, StmtLines(s, headers, sources, plan, |Stack(before)|), s, headers, sources, plan)
  {
    hide Stack, NeverNegative, Ordered, HasRank, AllDue, OpenLines, Opener;
    OpenBalance(before, s, headers, plan);
    OpenRanks(s, headers, sources, plan);
    OpensAreDue(before, s, headers, sources, plan);
    var depth := InnerDepth(s, headers, plan, |Stack(before)|);
    var open, body := OpenLines(s, headers, plan), BodyLines(s, plan, depth);
    var close := CloseLines(s, sources, plan, depth);
    RanksAppend(open, body, 2);
    DueAppend(before, open, body, s, headers, sources, plan);
    PlainLines(before + open, body);
    assert before + open + body == before + (open + body);
    RanksAppend(open + body, close, 3);
    DueAppend(before, open + body, close, s, headers, sources, plan);
    assert StmtLines(s, headers, sources, plan, |Stack(before)|) == open + body + close;
    assert close == [] ==> open + body + close == open + body;
  }

  ghost predicate Partial(lines: seq<Line>, cuts: seq<nat>, stmts: seq<Stmt>, n: nat, headers: Headers,
                          sources: set<nat>, plan: Plan)
    requires n <= |stmts|
  {
    && |cuts| == n + 1 && cuts[0] == 0 && cuts[n] <= |lines|
    && forall i :: 0 <= i < n ==> BlockAt(lines, cuts, i, stmts[i], headers, sources, plan)
  }

  lemma {:induction false} BlockStays(lines: seq<Line>, more: seq<Line>, cuts: seq<nat>, cut: nat, i: nat, s: Stmt,
                                      headers: Headers, sources: set<nat>, plan: Plan)
    requires BlockAt(lines, cuts, i, s, headers, sources, plan)
    ensures BlockAt(lines + more, cuts, i, s, headers, sources, plan)
    ensures BlockAt(lines, cuts + [cut], i, s, headers, sources, plan)
  {
    hide IsBlock;
    assert (lines + more)[..cuts[i]] == lines[..cuts[i]];
    assert (lines + more)[cuts[i]..cuts[i + 1]] == lines[cuts[i]..cuts[i + 1]];
  }

  lemma {:induction false} PartialStays(lines: seq<Line>, more: seq<Line>, cuts: seq<nat>, stmts: seq<Stmt>, n: nat,
                                        headers: Headers, sources: set<nat>, plan: Plan)
    requires n <= |stmts| && Partial(lines, cuts, stmts, n, headers, sources, plan)
    ensures Partial(lines + more, cuts, stmts, n, headers, sources, plan)
  {
    hide BlockAt;
    forall i | 0 <= i < n ensures BlockAt(lines + more, cuts, i, stmts[i], headers, sources, plan) {
      BlockStays(lines, more, cuts, 0, i, stmts[i], headers, sources, plan);
    }
  }

  lemma {:induction false} PartialGrows(lines: seq<Line>, block: seq<Line>, cuts: seq<nat>, stmts: seq<Stmt>, n: nat,
                                        headers: Headers, sources: set<nat>, plan: Plan)
    requires n < |stmts| && Partial(lines, cuts, stmts, n, headers, sources, plan) && cuts[n] == |lines|
    requires IsBlock(lines, block, stmts[n], headers, sources, plan)
    ensures Partial(lines + block, cuts + [|lines + block|], stmts, n + 1, headers, sources, plan)
  {
    hide IsBlock;
    var all, cuts' := lines + block, cuts + [|lines + block|];
    PartialStays(lines, block, cuts, stmts, n, headers, sources, plan);
    assert all[..cuts'[n]] == lines && all[cuts'[n]..cuts'[n + 1]] == block;
    forall i | 0 <= i < n + 1 ensures BlockAt(all, cuts', i, stmts[i], headers, sources, plan) {
      if i < n { BlockStays(all, [], cuts, |all|, i, stmts[i], headers, sources, plan); }
    }
  }

  /** Where the blocks of the emitted lines begin. */
  ghost function Cuts(stmts: seq<Stmt>, headers: Headers, sources: set<nat>, plan: Plan, n: nat): (r: seq<nat>)
    requires n <= |stmts|
    ensures |r| == n + 1 && r[n] == |Lines(stmts, headers, sources, plan, n)|
  {
    if n == 0 then [0]
    else Cuts(stmts, headers, sources, plan, n - 1) + [|Lines(stmts, headers, sources, plan, n)|]
  }

  lemma {:induction false} LinesPartial(stmts: seq<Stmt>, headers: Headers, sources: set<nat>, plan: Plan, n: nat)
    requires n <= |stmts|
    ensures Partial(Lines(stmts, headers, sources, plan, n), Cuts(stmts, headers, sources, plan, n), stmts, n, headers,
                    sources, plan)
  {
    hide StmtLines, DepthAfter, NeverNegative, Stack, IsBlock, BlockAt;
    if n > 0 {
      LinesPartial(stmts, headers, sources, plan, n - 1);
      EmittedBalance(stmts, headers, sources, plan, n - 1);
      var before := Lines(stmts, headers, sources, plan, n - 1);
      StmtBlock(before, stmts[n - 1], headers, sources, plan);
      PartialGrows(before, StmtLines(stmts[n - 1], headers, sources, plan, |Stack(before)|),
                   Cuts(stmts, headers, sources, plan, n - 1), stmts, n - 1, headers, sources, plan);
    }
  }

  /** The printed lines are laid out statement by statement. */
  lemma {:induction false} EmittedLayout(stmts: seq<Stmt>, headers: Headers, sources: set<nat>, plan: Plan)
    ensures IsLayout(Lines(stmts, headers, sources, plan, |stmts|)
                       + Dangling(Depth(stmts, headers, sources, plan, |stmts|)),
                     Cuts(stmts, headers, sources, plan, |stmts|), stmts, headers, sources, plan)
  {
    hide Lines, Depth, Stack, NeverNegative, BlockAt;
    var lines := Lines(stmts, headers, sources, plan, |stmts|);
    var rest := Dangling(Depth(stmts, headers, sources, plan, |stmts|));
    EmissionBalanced(stmts, headers, sources, plan);
    LinesPartial(stmts, headers, sources, plan, |stmts|);
    PartialStays(lines, rest, Cuts(stmts, headers, sources, plan, |stmts|), stmts, |stmts|, headers, sources, plan);
  }

  // -------------------------------------------- what the layout says of all lines

  ghost function BodyOf(l: Line): seq<(nat, string)> { if l.Body? then [(l.stmt, l.text)] else [] }

  ghost function LabelOf(l: Line): seq<nat> { if l.Label? then [l.va] else [] }

  /** The body lines, in order. */
  ghost function Bodies(lines: seq<Line>): seq<(nat, string)> {
    if lines == [] then [] else Bodies(lines[..|lines| - 1]) + BodyOf(lines[|lines| - 1])
  }

  ghost function Labels(lines: seq<Line>): seq<nat> {
    if lines == [] then [] else Labels(lines[..|lines| - 1]) + LabelOf(lines[|lines| - 1])
  }

  /** The statements that are printed: neither removed nor the backedge of a planned do-while. */
  ghost function Kept(stmts: seq<Stmt>, plan: Plan): seq<(nat, string)> {
    if stmts == [] then []
    else
      var s := stmts[|stmts| - 1];
      Kept(stmts[..|stmts| - 1], plan)
      + if !s.removed && (forall h :: h in plan.headers ==> plan.headers[h] != s.va) then [(s.va, s.text)] else []
  }

  ghost function Labelled(stmts: seq<Stmt>, plan: Plan): seq<nat> {
    if stmts == [] then []
    else
      var s := stmts[|stmts| - 1];
      Labelled(stmts[..|stmts| - 1], plan) + if s.isLabelTarget && s.va !in plan.headers then [s.va] else []
  }

  lemma {:induction false} AppendProjects(a: seq<Line>, b: seq<Line>)
    ensures Bodies(a + b) == Bodies(a) + Bodies(b) && Labels(a + b) == Labels(a) + Labels(b)
  {
    hide BodyOf, LabelOf;
    if b == [] {
      assert a + b == a;
    } else {
      var init, last := b[..|b| - 1], b[|b| - 1];
      AppendProjects(a, init);
      assert (a + b)[..|a + b| - 1] == a + init && (a + b)[|a + b| - 1] == last;
      assert Bodies(a) + Bodies(init) + BodyOf(last) == Bodies(a) + (Bodies(init) + BodyOf(last));
      assert Labels(a) + Labels(init) + LabelOf(last) == Labels(a) + (Labels(init) + LabelOf(last));
    }
  }

  lemma {:induction false} NoneOfRank(lines: seq<Line>)
    ensures !HasRank(lines, 2) ==> Bodies(lines) == []
    ensures !HasRank(lines, 0) ==> Labels(lines) == []
  {
    if lines != [] {
      var init := lines[..|lines| - 1];
      assert forall k :: 0 <= k < |init| ==> init[k] == lines[k];
      NoneOfRank(init);
    }
  }

  lemma {:induction false} SingleProjects(l: Line)
    ensures Bodies([l]) == BodyOf(l) && Labels([l]) == LabelOf(l)
  {
    assert [l][..0] == [];
  }

  lemma {:induction false} RankOnce(block: seq<Line>, k: nat)
    requires Ordered(block) && k < |block|
    ensures !HasRank(block[..k], Rank(block[k])) && !HasRank(block[k + 1..], Rank(block[k]))
  {
    hide Rank;
    var b := block[k + 1..];
    assert forall j :: 0 <= j < |b| ==> b[j] == block[k + 1 + j];
  }

  lemma {:induction false} OneOfRank(block: seq<Line>, k: nat)
    requires Ordered(block) && k < |block|
    ensures block[k].Body? ==> Bodies(block) == [(block[k].stmt, block[k].text)]
    ensures block[k].Label? ==> Labels(block) == [block[k].va]
  {
    hide Bodies, Labels, Ordered, HasRank;
    var a, b := block[..k], block[k + 1..];
    assert block == a + [block[k]] + b;
    AppendProjects(a + [block[k]], b);
    AppendProjects(a, [block[k]]);
    RankOnce(block, k);
    NoneOfRank(a);
    NoneOfRank(b);
    SingleProjects(block[k]);
  }

  /** A block holds the body and the label of its statement, or none. */
  lemma {:induction false} BlockProjects(before: seq<Line>, block: seq<Line>, s: Stmt, headers: Headers,
                                         sources: set<nat>, plan: Plan)
    requires IsBlock(before, block, s, headers, sources, plan)
    ensures Bodies(block) == if !s.removed && s.va !in plan.conditions then [(s.va, s.text)] else []
    ensures Labels(block) == if s.isLabelTarget && s.va !in plan.headers then [s.va] else []
  {
    hide Bodies, Labels, Stack, Ordered;
    NoneOfRank(block);
    if HasRank(block, 2) {
      var k :| 0 <= k < |block| && Rank(block[k]) == 2;
      OneOfRank(block, k);
    }
    if HasRank(block, 0) {
      var k :| 0 <= k < |block| && Rank(block[k]) == 0;
      OneOfRank(block, k);
    }
  }

  /** The plan's conditions belong to the backedges of its headers. */
  ghost predicate PlanCloses(plan: Plan) {
    forall s: nat :: s in plan.conditions <==> exists h :: h in plan.headers && plan.headers[h] == s
  }

  lemma {:induction false} PlanIsClosed(stmts: seq<Stmt>, headers: Headers, plan: Plan)
    requires IsPlan(stmts, headers, plan)
    ensures PlanCloses(plan)
  {
    hide DoWhileCondition;
  }

  lemma {:induction false} PrefixProjects(lines: seq<Line>, cuts: seq<nat>, stmts: seq<Stmt>, headers: Headers,
                                          sources: set<nat>, plan: Plan, n: nat)
    requires n <= |stmts| && Partial(lines, cuts, stmts, |stmts|, headers, sources, plan) && PlanCloses(plan)
    ensures cuts[n] <= |lines|
    ensures Bodies(lines[..cuts[n]]) == Kept(stmts[..n], plan) && Labels(lines[..cuts[n]]) == Labelled(stmts[..n], plan)
  {
    hide IsBlock, Bodies, Labels, Kept, Labelled, PlanCloses;
    if n == 0 {
      NothingPrinted(plan);
    } else {
      PrefixProjects(lines, cuts, stmts, headers, sources, plan, n - 1);
      assert BlockAt(lines, cuts, n - 1, stmts[n - 1], headers, sources, plan);
      var a, block := lines[..cuts[n - 1]], lines[cuts[n - 1]..cuts[n]];
      BlockProjects(a, block, stmts[n - 1], headers, sources, plan);
      assert lines[..cuts[n]] == a + block;
      AppendProjects(a, block);
      assert stmts[..n] == stmts[..n - 1] + [stmts[n - 1]];
      KeptSnoc(stmts[..n - 1], stmts[n - 1], plan);
    }
  }

  lemma {:induction false} NothingPrinted(plan: Plan)
    ensures Bodies([]) == Kept([], plan) && Labels([]) == Labelled([], plan)
  {
  }

  lemma {:induction false} KeptSnoc(stmts: seq<Stmt>, s: Stmt, plan: Plan)
    requires PlanCloses(plan)
    ensures Kept(stmts + [s], plan)
      == Kept(stmts, plan) + if !s.removed && s.va !in plan.conditions then [(s.va, s.text)] else []
    ensures Labelled(stmts + [s], plan)
      == Labelled(stmts, plan) + if s.isLabelTarget && s.va !in plan.headers then [s.va] else []
  {
    assert (stmts + [s])[..|stmts|] == stmts;
  }

  /**
   * The printed bodies are, in order and with their texts, the statements that are neither removed nor the backedge
   * of a planned do-while; the printed labels are the label targets that are not headers of one.
   */
  lemma {:induction false} LayoutPrintsKept(lines: seq<Line>, cuts: seq<nat>, stmts: seq<Stmt>, headers: Headers,
                                            sources: set<nat>, plan: Plan)
    requires IsLayout(lines, cuts, stmts, headers, sources, plan) && IsPlan(stmts, headers, plan)
    ensures Bodies(lines) == Kept(stmts, plan) && Labels(lines) == Labelled(stmts, plan)
  {
    hide Stack, NeverNegative, BlockAt, IsPlan, PlanCloses, Bodies, Labels, Kept, Labelled;
    PlanIsClosed(stmts, headers, plan);
    PrefixProjects(lines, cuts, stmts, headers, sources, plan, |stmts|);
    var a, rest := lines[..cuts[|stmts|]], lines[cuts[|stmts|]..];
    assert lines == a + rest && stmts[..|stmts|] == stmts;
    NoneOfRank(rest);
    AppendProjects(a, rest);
  }
}
