/** What composition keeps of a program's meaning, and exactly when its live expressions are true. */
module CompositionMeaning {
  import opened Common
  import opened StatementText
  import opened Expressions
  import opened StraightLine
  import Text

  // -------------------------------------------------------------------- meaning

  /** Any reading of literals and operators; memory is part of it, since the fragment never stores. */
  datatype Meaning<!V> = Meaning(
    lit: string -> V, un: (string, V) -> V, bin: (string, V, V) -> V, cond: (V, V, V) -> V)

  function Eval<V>(m: Meaning<V>, e: Expr, env: string -> V): V {
    match e
    case Reg(n) => env(n)
    case Lit(t) => m.lit(t)
    case Paren(x) => Eval(m, x, env)
    case Un(op, x) => m.un(op, Eval(m, x, env))
    case Bin(a, sep, b) => m.bin(sep, Eval(m, a, env), Eval(m, b, env))
    case Cond(c, a, b) => m.cond(Eval(m, c, env), Eval(m, a, env), Eval(m, b, env))
  }

  function Update<V>(env: string -> V, r: string, v: V): string -> V {
    s => if s == r then v else env(s)
  }

  function Do<V>(m: Meaning<V>, s: Stmt, env: string -> V): string -> V {
    match s
    case Assign(r, e) => Update(env, r, Eval(m, e, env))
    case _ => env
  }

  /** The state before statement `i`. */
  function StateAt<V>(m: Meaning<V>, prog: seq<Stmt>, removed: seq<bool>, i: nat, env: string -> V): string -> V
    requires i <= |prog| == |removed|
  {
    if i == 0 then env
    else
      var before := StateAt(m, prog, removed, i - 1, env);
      if removed[i - 1] then before else Do(m, prog[i - 1], before)
  }

  /** Run the statements that are not removed; the value is what the last one returns. */
  function Returned<V>(m: Meaning<V>, prog: seq<Stmt>, removed: seq<bool>, env: string -> V): V
    requires |prog| == |removed|
  {
    if prog != [] && prog[|prog| - 1].Return?
    then Eval(m, prog[|prog| - 1].result, StateAt(m, prog, removed, |prog| - 1, env))
    else StateAt(m, prog, removed, |prog|, env)("rax")
  }

  function NoneRemoved(n: nat): (r: seq<bool>)
    ensures |r| == n
  {
    seq(n, _ => false)
  }

  lemma {:induction false} EvalAgree<V>(m: Meaning<V>, e: Expr, env: string -> V, env': string -> V)
    requires forall r :: r in Regs(e) ==> env(r) == env'(r)
    ensures Eval(m, e, env) == Eval(m, e, env')
  {
    match e
    case Reg(_) =>
    case Lit(_) =>
    case Paren(x) => EvalAgree(m, x, env, env');
    case Un(_, x) => EvalAgree(m, x, env, env');
    case Bin(a, _, b) =>
      EvalAgree(m, a, env, env');
      EvalAgree(m, b, env, env');
    case Cond(c, a, b) =>
      EvalAgree(m, c, env, env');
      EvalAgree(m, a, env, env');
      EvalAgree(m, b, env, env');
  }

  lemma {:induction false} EvalPut<V>(m: Meaning<V>, e: Expr, r: string, x: Expr, env: string -> V)
    ensures Eval(m, Put(e, r, x), env) == Eval(m, e, Update(env, r, Eval(m, x, env)))
  {
    match e
    case Reg(_) =>
    case Lit(_) =>
    case Paren(y) => EvalPut(m, y, r, x, env);
    case Un(_, y) => EvalPut(m, y, r, x, env);
    case Bin(a, _, b) =>
      EvalPut(m, a, r, x, env);
      EvalPut(m, b, r, x, env);
    case Cond(c, a, b) =>
      EvalPut(m, c, r, x, env);
      EvalPut(m, a, r, x, env);
      EvalPut(m, b, r, x, env);
  }

  // ------------------------------------------------------------------- coherence

  /** Every live expression has, in this state, the value of its register. */
  ghost predicate True<V(!new)>(m: Meaning<V>, live: LiveExprs, now: string -> V) {
    forall k :: k in live ==> Eval(m, live[k], now) == now(k)
  }

  ghost predicate Coherent<V(!new)>(m: Meaning<V>, prog: seq<Stmt>, i: nat, env: string -> V)
    requires i <= |prog|
  {
    True(m, LiveBefore(prog, i), StateAt(m, prog, NoneRemoved(|prog|), i, env))
  }

  /** Under parentheses the expression is the register itself. */
  predicate SelfCopy(e: Expr, r: string) {
    match e
    case Reg(n) => n == r
    case Paren(x) => SelfCopy(x, r)
    case _ => false
  }

  /**
   * The assignment writes no register that its own rewritten right side or another live expression
   * mentions, unless it copies the register to itself.
   */
  ghost predicate Harmless(prog: seq<Stmt>, i: nat)
    requires i < |prog|
  {
    prog[i].Assign? ==>
      var live := LiveBefore(prog, i);
      var r, e := prog[i].reg, RewriteExpr(prog[i].rhs, LiveBefore(prog, i));
      || SelfCopy(e, r)
      || (r !in Regs(e) && forall k :: k in live && k != r ==> r !in Regs(live[k]))
  }

  ghost predicate AllHarmless(prog: seq<Stmt>, n: nat)
    requires n <= |prog|
  {
    forall i :: 0 <= i < n ==> Harmless(prog, i)
  }

  /** Rewriting by true expressions keeps the value. */
  lemma {:induction false} PutAllValue<V(!new)>(m: Meaning<V>, e: Expr, live: LiveExprs, keys: seq<string>,
                                                now: string -> V)
    requires True(m, live, now)
    ensures Eval(m, PutAll(e, live, keys), now) == Eval(m, e, now)
    decreases |keys|
  {
    hide Put, Regs;
    if keys != [] {
      var k := keys[0];
      if k in live {
        PutAllValue(m, Put(e, k, live[k]), live, keys[1..], now);
        EvalPut(m, e, k, live[k], now);
        EvalAgree(m, e, Update(now, k, Eval(m, live[k], now)), now);
      } else {
        PutAllValue(m, e, live, keys[1..], now);
      }
    }
  }

  lemma {:induction false} SelfCopyRegs(e: Expr, r: string)
    requires SelfCopy(e, r)
    ensures Regs(e) == {r}
  {
    match e
    case Reg(_) =>
    case Paren(x) => SelfCopyRegs(x, r);
  }

  lemma {:induction false} SelfCopyFacts<V>(m: Meaning<V>, e: Expr, r: string, env: string -> V)
    requires SelfCopy(e, r)
    ensures Eval(m, e, env) == env(r) && Regs(e) == {r}
  {
    match e
    case Reg(_) =>
    case Paren(x) => SelfCopyFacts(m, x, r, env);
  }

  lemma {:induction false} CoherentStep<V(!new)>(m: Meaning<V>, prog: seq<Stmt>, i: nat, env: string -> V)
    requires i < |prog| && Coherent(m, prog, i, env) && Harmless(prog, i)
    ensures Coherent(m, prog, i + 1, env)
  {
    hide PutAll, Regs, SelfCopy, RewriteExpr;
    var none := NoneRemoved(|prog|);
    var live, now := LiveBefore(prog, i), StateAt(m, prog, none, i, env);
    var next := StateAt(m, prog, none, i + 1, env);
    if prog[i].Assign? {
      var r, e := prog[i].reg, RewriteExpr(prog[i].rhs, live);
      RewriteValue(m, prog[i].rhs, live, now);
      assert next(r) == Eval(m, e, now);
      if SelfCopy(e, r) {
        SelfCopyFacts(m, e, r, now);
        SelfCopyFacts(m, e, r, next);
        forall k | k in live ensures Eval(m, live[k], next) == next(k) { EvalAgree(m, live[k], now, next); }
      } else {
        EvalAgree(m, e, now, next);
        forall k | k in live && k != r ensures Eval(m, live[k], next) == next(k) { EvalAgree(m, live[k], now, next); }
      }
    }
  }

  lemma {:induction false} RewriteValue<V(!new)>(m: Meaning<V>, e: Expr, live: LiveExprs, now: string -> V)
    requires True(m, live, now)
    ensures Eval(m, RewriteExpr(e, live), now) == Eval(m, e, now)
  {
    hide True, PutAll;
    PutAllValue(m, e, live, Text.Ordered(live.Keys), now);
  }

  /** Sufficient, for every reading of the operators and every initial state. */
  lemma {:induction false} HarmlessIsCoherent<V(!new)>(m: Meaning<V>, prog: seq<Stmt>, i: nat, env: string -> V)
    requires i <= |prog| && AllHarmless(prog, i)
    ensures Coherent(m, prog, i, env)
  {
    hide Harmless;
    if i == 0 {
      assert LiveBefore(prog, 0) == map[];
    } else {
      HarmlessIsCoherent(m, prog, i - 1, env);
      CoherentStep(m, prog, i - 1, env);
    }
  }

  // ------------------------------------------------------- registers left alone

  /** The register still holds its initial value as far as the live expressions go. */
  predicate Untouched(live: LiveExprs, s: string) { s !in live || SelfCopy(live[s], s) }

  /** Live expressions mention untouched registers only. */
  ghost predicate Settled(live: LiveExprs) {
    forall k, s :: k in live && s in Regs(live[k]) ==> Untouched(live, s)
  }

  lemma {:induction false} PutAllRegs(e: Expr, live: LiveExprs, keys: seq<string>, r: string)
    requires Settled(live) && (forall k :: k in keys ==> k in live)
    requires r in Regs(PutAll(e, live, keys)) && !Untouched(live, r)
    ensures r in Regs(e) && r !in keys
    decreases |keys|
  {
    hide Put, Untouched, Regs;
    if keys != [] {
      var k := keys[0];
      PutRegs(e, k, live[k]);
      assert forall j :: j in keys[1..] ==> j in keys;
      PutAllRegs(Put(e, k, live[k]), live, keys[1..], r);
      assert keys == [k] + keys[1..];
    }
  }

  lemma {:induction false} RewriteRegs(e: Expr, live: LiveExprs, r: string)
    requires Settled(live) && r in Regs(RewriteExpr(e, live))
    ensures Untouched(live, r)
  {
    hide PutAll, Regs, Settled, SelfCopy;
    var keys := Text.Ordered(live.Keys);
    forall k ensures k in keys <==> k in live { Text.OrderedMembers(live.Keys, k); }
    if !Untouched(live, r) { PutAllRegs(e, live, keys, r); }
  }

  lemma {:induction false} HarmlessIsSettled(prog: seq<Stmt>, i: nat)
    requires i <= |prog| && AllHarmless(prog, i)
    ensures Settled(LiveBefore(prog, i))
  {
    hide RewriteExpr, Regs, SelfCopy, Harmless;
    if i > 0 {
      HarmlessIsSettled(prog, i - 1);
      assert Harmless(prog, i - 1);
      SettledStep(prog, i - 1);
    }
  }

  lemma {:induction false} SettledStep(prog: seq<Stmt>, i: nat)
    requires i < |prog| && Settled(LiveBefore(prog, i)) && Harmless(prog, i)
    ensures Settled(LiveBefore(prog, i + 1))
  {
    hide RewriteExpr, Regs, SelfCopy;
    var live := LiveBefore(prog, i);
    if prog[i].Assign? {
      var r, e := prog[i].reg, RewriteExpr(prog[i].rhs, live);
      forall s | s in Regs(e) ensures Untouched(live, s) { RewriteRegs(prog[i].rhs, live, s); }
      if SelfCopy(e, r) { SelfCopyRegs(e, r); }
      var next := LiveBefore(prog, i + 1);
      forall k, s | k in next && s in Regs(next[k]) ensures Untouched(next, s) {
        if k != r { assert Untouched(live, s); }
      }
    }
  }

  /** Whatever is removed from the composed program, untouched registers keep their initial value. */
  lemma {:induction false} UntouchedKeeps<V(!new)>(m: Meaning<V>, prog: seq<Stmt>, removed: seq<bool>, i: nat,
                                                  env: string -> V, s: string)
    requires i <= |prog| == |removed| && AllHarmless(prog, i) && Untouched(LiveBefore(prog, i), s)
    ensures StateAt(m, ComposedProgram(prog), removed, i, env)(s) == env(s)
  {
    hide RewriteExpr, Regs, SelfCopy, Harmless, Settled, Composed;
    if i > 0 {
      HarmlessIsSettled(prog, i - 1);
      ComposedParts(prog, i - 1);
      var live := LiveBefore(prog, i - 1);
      if prog[i - 1].Assign? && prog[i - 1].reg == s {
        var e := RewriteExpr(prog[i - 1].rhs, live);
        var before := StateAt(m, ComposedProgram(prog), removed, i - 1, env);
        SelfCopyFacts(m, e, s, before);
        RewriteRegs(prog[i - 1].rhs, live, s);
      }
      UntouchedKeeps(m, prog, removed, i - 1, env, s);
    }
  }

  function ComposedProgram(prog: seq<Stmt>): (r: seq<Stmt>)
    ensures |r| == |prog|
    ensures forall i :: 0 <= i < |r| ==> r[i] == Composed(prog, i)
  {
    seq(|prog|, i requires 0 <= i < |prog| => Composed(prog, i))
  }

  /** The same of the original program. */
  lemma {:induction false} OriginalKeeps<V(!new)>(m: Meaning<V>, prog: seq<Stmt>, i: nat, env: string -> V, s: string)
    requires i <= |prog| && AllHarmless(prog, i) && Untouched(LiveBefore(prog, i), s)
    ensures StateAt(m, prog, NoneRemoved(|prog|), i, env)(s) == env(s)
  {
    hide RewriteExpr, Regs, SelfCopy, Harmless, Settled;
    if i > 0 {
      HarmlessIsSettled(prog, i - 1);
      var live := LiveBefore(prog, i - 1);
      if prog[i - 1].Assign? && prog[i - 1].reg == s {
        var e := RewriteExpr(prog[i - 1].rhs, live);
        var before := StateAt(m, prog, NoneRemoved(|prog|), i - 1, env);
        HarmlessIsCoherent(m, prog, i - 1, env);
        RewriteValue(m, prog[i - 1].rhs, live, before);
        SelfCopyFacts(m, e, s, before);
        RewriteRegs(prog[i - 1].rhs, live, s);
      }
      OriginalKeeps(m, prog, i - 1, env, s);
    }
  }

  /**
   * Composition preserves meaning: for every reading of the operators, every initial state and every
   * choice of removed lines, the surviving composed statements return what the original ones return.
   */
  lemma {:induction false} CompositionPreservesMeaning<V(!new)>(m: Meaning<V>, prog: seq<Stmt>, removed: seq<bool>,
                                                               env: string -> V)
    requires Straight(prog) && |removed| == |prog| && AllHarmless(prog, |prog|)
    ensures Returned(m, ComposedProgram(prog), removed, env) == Returned(m, prog, NoneRemoved(|prog|), env)
  {
    var n := |prog| - 1;
    assert prog[n] == Return(Reg("rax"));
    assert AllHarmless(prog, n);
    hide RewriteExpr, Regs, SelfCopy, Harmless, Settled, Composed, Straight, StateAt, AllHarmless, LiveBefore;
    ComposedParts(prog, n);
    var live, e := LiveBefore(prog, n), RewriteExpr(prog[n].result, LiveBefore(prog, n));
    var now := StateAt(m, prog, NoneRemoved(|prog|), n, env);
    var after := StateAt(m, ComposedProgram(prog), removed, n, env);
    HarmlessIsCoherent(m, prog, n, env);
    RewriteValue(m, prog[n].result, live, now);
    HarmlessIsSettled(prog, n);
    forall s | s in Regs(e) ensures now(s) == after(s) {
      RewriteRegs(prog[n].result, live, s);
      UntouchedKeeps(m, prog, removed, n, env, s);
      OriginalKeeps(m, prog, n, env, s);
    }
    EvalAgree(m, e, now, after);
  }

  // ---------------------------------------------------------- exactly when

  /** Reading every expression as the term it is, without its parentheses. */
  function Terms(): Meaning<Expr> {
    Meaning(t => Lit(t), (op, x) => Un(op, x), (sep, a, b) => Bin(a, sep, b), (c, a, b) => Cond(c, a, b))
  }

  function Self(): string -> Expr { s => Reg(s) }

  /** Terms tell apart the values of every register that is mentioned. */
  lemma {:induction false} TermsTell(e: Expr, env: string -> Expr, env': string -> Expr, r: string)
    requires Eval(Terms(), e, env) == Eval(Terms(), e, env') && r in Regs(e)
    ensures env(r) == env'(r)
  {
    match e
    case Reg(_) =>
    case Paren(x) => TermsTell(x, env, env', r);
    case Un(_, x) => TermsTell(x, env, env', r);
    case Bin(a, _, b) =>
      if r in Regs(a) { TermsTell(a, env, env', r); } else { TermsTell(b, env, env', r); }
    case Cond(c, a, b) =>
      if r in Regs(c) { TermsTell(c, env, env', r); }
      else if r in Regs(a) { TermsTell(a, env, env', r); }
      else { TermsTell(b, env, env', r); }
  }

  lemma {:induction false} OwnTerm(e: Expr, r: string)
    requires Eval(Terms(), e, Self()) == Reg(r)
    ensures SelfCopy(e, r)
  {
    match e
    case Reg(_) =>
    case Paren(x) => OwnTerm(x, r);
    case Lit(_) => assert false;
    case Un(_, _) => assert false;
    case Bin(_, _, _) => assert false;
    case Cond(_, _, _) => assert false;
  }

  /** Necessary: if a write is not harmless, the next state belies a live expression. */
  lemma {:induction false} CoherentIsHarmless(prog: seq<Stmt>, i: nat)
    requires i < |prog| && AllHarmless(prog, i) && Coherent(Terms(), prog, i + 1, Self())
    ensures Harmless(prog, i)
  {
    if prog[i].Assign? {
      var m, env, none := Terms(), Self(), NoneRemoved(|prog|);
      var live, now := LiveBefore(prog, i), StateAt(Terms(), prog, NoneRemoved(|prog|), i, Self());
      var next := StateAt(m, prog, none, i + 1, env);
      var r, e := prog[i].reg, RewriteExpr(prog[i].rhs, live);
      hide RewriteExpr, Regs, SelfCopy, Terms;
      HarmlessIsCoherent(m, prog, i, env);
      RewriteValue(m, prog[i].rhs, live, now);
      assert next(r) == Eval(m, e, now);
      if r in Regs(e) {
        TermsTell(e, now, next, r);
        Returns(prog, i, r);
      } else if k :| k in live && k != r && r in Regs(live[k]) {
        var later := LiveBefore(prog, i + 1);
        assert k in later && later[k] == live[k];
        assert Eval(m, later[k], next) == next(k) == now(k);
        assert Eval(m, live[k], now) == now(k);
        TermsTell(live[k], now, next, r);
        HarmlessIsSettled(prog, i);
        Returns(prog, i, r);
      }
    }
  }

  /** A rewritten right side that has an untouched register's value is that register. */
  lemma {:induction false} Returns(prog: seq<Stmt>, i: nat, r: string)
    requires i < |prog| && AllHarmless(prog, i) && prog[i].Assign?
    requires var live, now := LiveBefore(prog, i), StateAt(Terms(), prog, NoneRemoved(|prog|), i, Self());
      && (Untouched(live, r) || r in Regs(RewriteExpr(prog[i].rhs, live)))
      && Eval(Terms(), RewriteExpr(prog[i].rhs, live), now) == now(r)
    ensures SelfCopy(RewriteExpr(prog[i].rhs, LiveBefore(prog, i)), r)
  {
    hide RewriteExpr, Regs, SelfCopy, Terms, Harmless, Settled;
    var live, now := LiveBefore(prog, i), StateAt(Terms(), prog, NoneRemoved(|prog|), i, Self());
    var e := RewriteExpr(prog[i].rhs, live);
    HarmlessIsSettled(prog, i);
    forall s | s in Regs(e) ensures now(s) == Self()(s) {
      RewriteRegs(prog[i].rhs, live, s);
      OriginalKeeps(Terms(), prog, i, Self(), s);
    }
    EvalAgree(Terms(), e, now, Self());
    if !Untouched(live, r) { RewriteRegs(prog[i].rhs, live, r); }
    OriginalKeeps(Terms(), prog, i, Self(), r);
    OwnTerm(e, r);
  }

  /**
   * The live expressions are true at every statement, reading expressions as terms, if and only if
   * every write is harmless; and then they are true for every reading and every initial state.
   */
  lemma {:induction false} CoherentExactly(prog: seq<Stmt>, n: nat)
    requires n <= |prog|
    ensures (forall i :: 0 <= i <= n ==> Coherent(Terms(), prog, i, Self())) <==> AllHarmless(prog, n)
  {
    hide Coherent, Harmless;
    if AllHarmless(prog, n) {
      forall i: nat | i <= n
        ensures Coherent(Terms(), prog, i, Self()) { HarmlessIsCoherent(Terms(), prog, i, Self()); }
    } else {
      var i := FirstHarm(prog, n);
      if Coherent(Terms(), prog, i + 1, Self()) { CoherentIsHarmless(prog, i); }
    }
  }

  lemma {:induction false} FirstHarm(prog: seq<Stmt>, n: nat) returns (i: nat)
    requires n <= |prog| && !AllHarmless(prog, n)
    ensures i < n && AllHarmless(prog, i) && !Harmless(prog, i)
  {
    hide Harmless;
    i := 0;
    while Harmless(prog, i)
      invariant i < n && AllHarmless(prog, i)
      decreases n - i
    {
      i := i + 1;
    }
  }

  // --------------------------------------------------------- a harmful overwrite

  /** rax = r; r = 5; return rax */
  function Overwritten(r: string): seq<Stmt> {
    [Assign("rax", Reg(r)), Assign(r, Lit("5")), Return(Reg("rax"))]
  }

  lemma {:induction false} FirstIs(s: set<string>, a: string)
    requires a in s && forall x :: x in s ==> Text.LexLe(a, x)
    ensures s != {} && Text.First(s) == a
  {
    Text.FirstUnique(s);
    assert Text.IsFirst(s, a);
  }

  lemma {:induction false} OrderedTwo(a: string, b: string)
    requires a != b && Text.LexLe(a, b)
    ensures Text.Ordered({a, b}) == [a, b] && Text.Ordered({b}) == [b] && Text.Ordered({a}) == [a]
  {
    Text.LexTotal(a, a);
    Text.LexTotal(b, b);
    FirstIs({a, b}, a);
    FirstIs({a}, a);
    FirstIs({b}, b);
    assert {a, b} - {a} == {b} && {b} - {b} == {} && {a} - {a} == {};
    assert Text.Ordered({}) == [];
    hide Text.First;
  }

  lemma {:induction false} OverwrittenLive(r: string)
    requires r != "rax"
    ensures
      var p := Overwritten(r);
      && LiveBefore(p, 1) == map["rax" := Reg(r)]
      && LiveBefore(p, 2) == map["rax" := Reg(r), r := Lit("5")]
      && RewriteExpr(Lit("5"), LiveBefore(p, 1)) == Lit("5")
  {
    var p := Overwritten(r);
    var l0: LiveExprs := map[];
    var l1: LiveExprs := map["rax" := Reg(r)];
    assert LiveBefore(p, 0) == l0 && Text.Ordered(l0.Keys) == [] by { assert l0.Keys == {}; }
    hide Text.Ordered;
    assert RewriteExpr(Reg(r), l0) == Reg(r);
    assert LiveBefore(p, 1) == l1;
    LitStays("5", l1, Text.Ordered(l1.Keys));
    assert LiveBefore(p, 2) == l1[r := Lit("5")];
  }

  lemma {:induction false} LitStays(t: string, live: LiveExprs, keys: seq<string>)
    ensures PutAll(Lit(t), live, keys) == Lit(t)
    decreases |keys|
  {
    if keys != [] { LitStays(t, live, keys[1..]); }
  }

  /** In key order: the stale expression is put in before or after its register has been looked for. */
  lemma {:induction false} OverwrittenReturn(r: string)
    requires r != "rax"
    ensures
      var e := RewriteExpr(Reg("rax"), map["rax" := Reg(r), r := Lit("5")]);
      e == if Text.LexLe("rax", r) then Paren(Paren(Lit("5"))) else Paren(Reg(r))
  {
    var live: LiveExprs := map["rax" := Reg(r), r := Lit("5")];
    assert live.Keys == {"rax", r};
    Text.LexTotal("rax", r);
    if Text.LexLe("rax", r) {
      OrderedTwo("rax", r);
    } else {
      OrderedTwo(r, "rax");
      assert live.Keys == {r, "rax"};
    }
    hide Text.Ordered, Text.LexLe;
    assert ["rax", r][1..] == [r] && [r][1..] == [] && [r, "rax"][1..] == ["rax"] && ["rax"][1..] == [];
    var e := Put(Reg("rax"), "rax", Reg(r));
    assert e == Paren(Reg(r)) && Put(e, r, Lit("5")) == Paren(Paren(Lit("5")))
        && Put(Reg("rax"), r, Lit("5")) == Reg("rax");
    assert PutAll(e, live, []) == e && PutAll(Put(e, r, Lit("5")), live, []) == Put(e, r, Lit("5"));
    assert PutAll(e, live, [r]) == PutAll(Put(e, r, Lit("5")), live, []);
    assert PutAll(Reg("rax"), live, ["rax"]) == PutAll(e, live, []);
    assert PutAll(Reg("rax"), live, ["rax", r]) == PutAll(e, live, [r]);
    assert PutAll(Reg("rax"), live, [r, "rax"]) == PutAll(Reg("rax"), live, ["rax"]);
  }

  /**
   * A write that is not harmless: the original returns r. For a register after `rax` in key order the
   * composed program returns 5, whatever is removed; for one before it, it returns r exactly if the
   * line `r = 5` is removed.
   */
  lemma {:induction false} OverwriteOutcome<V(!new)>(m: Meaning<V>, r: string, removed: seq<bool>, env: string -> V)
    requires |removed| == 3 && r != "rax"
    ensures !Harmless(Overwritten(r), 1)
    ensures Returned(m, Overwritten(r), NoneRemoved(3), env) == env(r)
    ensures Returned(m, ComposedProgram(Overwritten(r)), removed, env)
         == if Text.LexLe("rax", r) || !removed[1] then m.lit("5") else env(r)
  {
    hide LiveBefore, Composed, Text.LexLe, Returned, Eval, RewriteExpr;
    var p, c := Overwritten(r), ComposedProgram(Overwritten(r));
    OverwrittenLive(r);
    assert "rax" in LiveBefore(p, 1) && r in Regs(LiveBefore(p, 1)["rax"]);
    RunOverwritten(m, Reg(r), r, Reg("rax"), NoneRemoved(3), env);
    OverwrittenComposed(r);
    RunOverwritten(m, c[0].rhs, r, c[2].result, removed, env);
  }

  lemma {:induction false} OverwrittenComposed(r: string)
    requires r != "rax"
    ensures
      var c := ComposedProgram(Overwritten(r));
      && c[0].Assign? && c[2].Return?
      && c == [Assign("rax", c[0].rhs), Assign(r, Lit("5")), Return(c[2].result)]
      && c[2].result == if Text.LexLe("rax", r) then Paren(Paren(Lit("5"))) else Paren(Reg(r))
  {
    hide RewriteExpr, LiveBefore, Composed, Text.LexLe;
    var p := Overwritten(r);
    OverwrittenLive(r);
    OverwrittenReturn(r);
    ComposedParts(p, 0);
    ComposedParts(p, 1);
    ComposedParts(p, 2);
  }

  lemma {:induction false} RunOverwritten<V>(m: Meaning<V>, e: Expr, r: string, x: Expr, removed: seq<bool>,
                                             env: string -> V)
    requires |removed| == 3 && r != "rax"
    ensures
      var value := Returned(m, [Assign("rax", e), Assign(r, Lit("5")), Return(x)], removed, env);
      && (x == Paren(Paren(Lit("5"))) ==> value == m.lit("5"))
      && (x == Paren(Reg(r)) ==> value == if removed[1] then env(r) else m.lit("5"))
      && (x == Reg("rax") && !removed[0] ==> value == Eval(m, e, env))
      && (e == Reg(r) ==> Eval(m, e, env) == env(r))
  {
    var c := [Assign("rax", e), Assign(r, Lit("5")), Return(x)];
    var s1, s2 := StateAt(m, c, removed, 1, env), StateAt(m, c, removed, 2, env);
    hide StateAt;
    StateStep(m, c, removed, 0, env, r);
    StateStep(m, c, removed, 0, env, "rax");
    StateStep(m, c, removed, 1, env, r);
    StateStep(m, c, removed, 1, env, "rax");
    assert s1(r) == env(r) && (!removed[0] ==> s1("rax") == Eval(m, e, env));
    assert Eval(m, Lit("5"), s1) == m.lit("5") && Eval(m, Paren(Lit("5")), s2) == m.lit("5");
    assert c[1].rhs == Lit("5") && s2(r) == (if removed[1] then env(r) else m.lit("5"));
    assert Eval(m, Paren(Reg(r)), s2) == s2(r) by { assert Eval(m, Reg(r), s2) == s2(r); }
  }

  lemma {:induction false} StateStep<V>(m: Meaning<V>, c: seq<Stmt>, removed: seq<bool>, i: nat, env: string -> V,
                                        s: string)
    requires i < |c| == |removed| && c[i].Assign?
    ensures
      var before := StateAt(m, c, removed, i, env);
      StateAt(m, c, removed, i + 1, env)(s)
      == if !removed[i] && s == c[i].reg then Eval(m, c[i].rhs, before) else before(s)
    ensures i == 0 ==> StateAt(m, c, removed, i, env) == env
  {
    hide Eval;
  }

  /** So `rcx` loses its value, and `r8`, whose line the pass removes at the return, keeps it. */
  lemma {:induction false} OverwriteExamples<V(!new)>(m: Meaning<V>, removed: seq<bool>, env: string -> V)
    requires |removed| == 3
    ensures Returned(m, ComposedProgram(Overwritten("rcx")), removed, env) == m.lit("5")
    ensures removed[1] ==> Returned(m, ComposedProgram(Overwritten("r8")), removed, env) == env("r8")
    ensures 1 in Gone(Overwritten("r8"), 3)
  {
    assert Text.LexLe("rax", "rcx");
    assert !Text.LexLe("rax", "r8");
    OverwriteOutcome(m, "rcx", removed, env);
    OverwriteOutcome(m, "r8", removed, env);
    LastWriteGoes("r8");
  }

  lemma {:induction false} LastWriteGoes(r: string)
    requires r != "rax" && r in CALLER_SAVED
    ensures 1 in Gone(Overwritten(r), 3)
  {
    hide ReadsOf;
    var p := Overwritten(r);
    var slots := SlotsRead(p, 2);
    assert r in SlotsBefore(p, 2) && SlotsBefore(p, 2)[r].producer == 1;
    assert r in slots && slots[r].producer == 1 && r in Members(CALLER_SAVED);
    assert 1 in NewlyGone(p[2], slots);
  }
}
