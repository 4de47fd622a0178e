/** The meaning of statement texts, read back as C, before and after the composition pass. */
module CompositionTexts {
  import opened Common
  import opened Substitution
  import opened StatementText
  import opened Expressions
  import opened StraightLine
  import opened Composition
  import opened CompositionMeaning
  import opened Reading
  import Text

  /** The statement that a text stands for. */
  function ReadStmt(text: string): Option<Stmt> {
    if "/*" <= text then Some(Comment(text))
    else
      match ParseSimpleAssign(text)
      case Some(a) => (match ReadExpr(a.rhs) case Some(e) => Some(Assign(a.lhs, e)) case None => None)
      case None =>
        if "return " <= text && |text| >= 8
        then (match ReadExpr(text[7..|text| - 1]) case Some(e) => Some(Return(e)) case None => None)
        else None
  }

  predicate ReadableStmt(s: Stmt) {
    match s
    case Assign(_, e) => Readable(e)
    case Return(e) => Readable(e)
    case Comment(_) => true
  }

  ghost predicate ReadableProgram(prog: seq<Stmt>) {
    forall i :: 0 <= i < |prog| ==> ReadableStmt(prog[i])
  }

  /** Reading undoes printing. */
  lemma {:induction false} ReadStmtText(s: Stmt)
    requires StmtOk(s) && ReadableStmt(s)
    ensures ReadStmt(StmtText(s)) == Some(s)
  {
    hide ParseSimpleAssign, ReadExpr, Readable, Render, Fragment, Full, Clean, Returnable, Sheltered;
    match s
    case Assign(r, e) =>
      FullName(r);
      RenderClean(e);
      ParseAssign(r, Render(e));
      ReadRender(e);
      assert AssignText(r, Render(e))[0] == r[0] && PlainChar(r[0]);
    case Return(e) =>
      ReturnIsReturnable(e);
      ParseReturn(Render(e));
      ReadRender(e);
      var t := ReturnText(Render(e));
      assert t[0] == 'r' && t[..7] == "return " && t[7..|t| - 1] == Render(e);
    case Comment(_) =>
  }

  // ------------------------------------------------------ composing keeps it readable

  ghost predicate LiveReadable(live: LiveExprs) {
    forall k :: k in live ==> Readable(live[k])
  }

  lemma {:induction false} PutAllReadable(e: Expr, live: LiveExprs, keys: seq<string>)
    requires Readable(e) && LiveReadable(live)
    ensures Readable(PutAll(e, live, keys))
    decreases |keys|
  {
    hide Put, Readable;
    if keys != [] {
      if keys[0] in live { PutReadable(e, keys[0], live[keys[0]]); }
      PutAllReadable(if keys[0] in live then Put(e, keys[0], live[keys[0]]) else e, live, keys[1..]);
    }
  }

  lemma {:induction false} LiveIsReadable(prog: seq<Stmt>, i: nat)
    requires i <= |prog| && ReadableProgram(prog)
    ensures LiveReadable(LiveBefore(prog, i))
  {
    hide PutAll, Readable;
    if i > 0 {
      LiveIsReadable(prog, i - 1);
      assert ReadableStmt(prog[i - 1]);
      if prog[i - 1].Assign? {
        var live := LiveBefore(prog, i - 1);
        PutAllReadable(prog[i - 1].rhs, live, Text.Ordered(live.Keys));
      }
    }
  }

  lemma {:induction false} ComposedReadable(prog: seq<Stmt>, i: nat)
    requires i < |prog| && ReadableProgram(prog)
    ensures ReadableStmt(Composed(prog, i))
  {
    hide PutAll, Readable, Composed, LiveBefore;
    LiveIsReadable(prog, i);
    ComposedParts(prog, i);
    assert ReadableStmt(prog[i]);
    var live := LiveBefore(prog, i);
    match prog[i]
    case Assign(_, e) => PutAllReadable(e, live, Text.Ordered(live.Keys));
    case Return(e) => PutAllReadable(e, live, Text.Ordered(live.Keys));
    case Comment(_) =>
  }

  // --------------------------------------------------------------- texts that run

  /** Every text stands for the statement at its place. */
  ghost predicate ReadsAs(recs: seq<StmtRec>, prog: seq<Stmt>) {
    |recs| == |prog| && forall i :: 0 <= i < |recs| ==> ReadStmt(recs[i].text) == Some(prog[i])
  }

  function Flags(recs: seq<StmtRec>): (r: seq<bool>)
    ensures |r| == |recs|
  {
    seq(|recs|, i requires 0 <= i < |recs| => recs[i].removed)
  }

  /** The surviving texts, read as C, return `v`. */
  ghost predicate TextsReturn<V>(m: Meaning<V>, recs: seq<StmtRec>, env: string -> V, v: V) {
    exists prog :: ReadsAs(recs, prog) && v == Returned(m, prog, Flags(recs), env)
  }

  /** A list of texts has one reading, and so returns one value. */
  lemma {:induction false} OneReading<V>(m: Meaning<V>, recs: seq<StmtRec>, env: string -> V, v: V, w: V)
    requires TextsReturn(m, recs, env, v) && TextsReturn(m, recs, env, w)
    ensures v == w
  {
    hide ReadStmt, Returned;
    var p :| ReadsAs(recs, p) && v == Returned(m, p, Flags(recs), env);
    var q :| ReadsAs(recs, q) && w == Returned(m, q, Flags(recs), env);
    assert p == q;
  }

  lemma {:induction false} LiftedReads(recs: seq<StmtRec>, prog: seq<Stmt>)
    requires Lifted(recs, prog) && ReadableProgram(prog)
    ensures ReadsAs(recs, prog) && Flags(recs) == NoneRemoved(|prog|)
  {
    hide ReadStmt, StmtText, StmtOk, ReadableStmt;
    forall i | 0 <= i < |recs| ensures ReadStmt(recs[i].text) == Some(prog[i]) {
      assert LiftedAt(recs[i], prog[i]) && StmtOk(prog[i]) && ReadableStmt(prog[i]);
      ReadStmtText(prog[i]);
    }
    forall i | 0 <= i < |recs| ensures !recs[i].removed { assert LiftedAt(recs[i], prog[i]); }
  }

  lemma {:induction false} ComposedReads(prog: seq<Stmt>, recs: seq<StmtRec>)
    requires Straight(prog) && ReadableProgram(prog) && PassResult(prog, recs)
    ensures ReadsAs(recs, ComposedProgram(prog))
  {
    hide ReadStmt, StmtText, StmtOk, ReadableStmt, Composed, LiveOk, LiveBefore, Gone, Flagged;
    forall i | 0 <= i < |recs| ensures ReadStmt(recs[i].text) == Some(ComposedProgram(prog)[i]) {
      LiveBeforeOk(prog, i);
      ComposedOkAt(prog, i);
      ComposedReadable(prog, i);
      ReadStmtText(Composed(prog, i));
    }
  }

  /**
   * Text to text: after the pass over the texts of a straight-line program with harmless writes, the
   * surviving texts return what the original texts return, under every reading of the operators.
   */
  lemma {:induction false} SurvivingTextsReturn<V(!new)>(m: Meaning<V>, before: seq<StmtRec>, prog: seq<Stmt>,
                                                        after: seq<StmtRec>, env: string -> V, v: V)
    requires Lifted(before, prog) && ReadableProgram(prog) && AllHarmless(prog, |prog|) && PassResult(prog, after)
    ensures TextsReturn(m, before, env, v) <==> TextsReturn(m, after, env, v)
  {
    hide ReadsAs, Returned, AllHarmless, ReadableProgram, PassResult, LiftedAt, Straight;
    LiftedReads(before, prog);
    assert Straight(prog) && |after| == |prog| by { PassLength(prog, after); }
    ComposedReads(prog, after);
    var original, composed := Returned(m, prog, Flags(before), env),
        Returned(m, ComposedProgram(prog), Flags(after), env);
    CompositionPreservesMeaning(m, prog, Flags(after), env);
    assert TextsReturn(m, before, env, original) && TextsReturn(m, after, env, composed);
    if TextsReturn(m, before, env, v) { OneReading(m, before, env, v, original); }
    if TextsReturn(m, after, env, v) { OneReading(m, after, env, v, composed); }
  }

  lemma {:induction false} PassLength(prog: seq<Stmt>, now: seq<StmtRec>)
    requires PassResult(prog, now)
    ensures |now| == |prog|
  {
  }

  // ----------------------------------------------------- what the lifter prints

  lemma {:induction false} CastInert(w: string, after: string)
    requires IsWord(w) && |w| > 4 && (after == ")" || after == " *)")
    ensures Inert("(" + w + after) && OpText("(" + w + after)
  {
    hide Inert, Level, Tokens;
    LongWordInert(w);
    var inner := if after == ")" then w else w + " *";
    if after != ")" {
      MarkTextInert(' ');
      MarkTextInert('*');
      InertConcat(" ", "*");
      assert " " + "*" == " *";
      InertConcat(w, " *");
    }
    ParenInert(inner);
    assert "(" + w + after == "(" + inner + ")";
  }

  lemma {:induction false} ParenInert(s: string)
    requires Inert(s)
    ensures Inert("(" + s + ")")
  {
    hide NoAlias, Tokens, Level;
    LevelParen(s);
    MarkIsNoAlias('(');
    MarkIsNoAlias(')');
    assert Tokens("(") == ["("] && Tokens(")") == [")"] by { OneMark('('); OneMark(')'); }
    TokensConcat("(", s);
    TokensConcat("(" + s, ")");
  }

  lemma {:induction false} OneMark(c: char)
    requires !WordChar(c)
    ensures Tokens([c]) == [[c]]
  {
    assert [c][..1] == [c] && [c][1..] == [];
  }

  /** A load through a register and a displacement. */
  function Load(base: string, offset: string): Expr {
    Un("*", Paren(Un("(uint64_t *)", Paren(Bin(Reg(base), "+", Lit(offset))))))
  }

  /** A conditional move after a comparison with zero. */
  function Select(tested: string, yes: string, no: string): Expr {
    Cond(Paren(Bin(Reg(tested), " == ", Lit("0"))), Reg(yes), Reg(no))
  }

  predicate Number(w: string) { IsWord(w) && '0' <= w[0] <= '9' }

  lemma {:induction false} NumberReadable(w: string)
    requires Number(w)
    ensures Fragment(Lit(w)) && Readable(Lit(w))
  {
    NumberInert(w);
    if Full(w) { FullName(w); }
    if w in TYPES { TypeLetters(w); }
  }

  lemma {:induction false} TypeLetters(t: string)
    requires t in TYPES
    ensures t[0] in ['u', 'i']
  {
  }

  /** The lifter's loads and conditional moves are within reach: they print, and read back, as these trees. */
  lemma {:induction false} LoadReads(base: string, offset: string)
    requires Full(base) && Number(offset)
    ensures Render(Load(base, offset)) == "*((uint64_t *)(" + base + "+" + offset + "))"
    ensures Fragment(Load(base, offset)) && Readable(Load(base, offset))
  {
    hide Fragment, Readable, Full, Number;
    LoadText(base, offset);
    LoadShape(base, offset);
  }

  lemma {:induction false} LoadText(base: string, offset: string)
    ensures Render(Load(base, offset)) == "*((uint64_t *)(" + base + "+" + offset + "))"
  {
    var sum := Bin(Reg(base), "+", Lit(offset));
    var t := base + "+" + offset;
    assert Render(sum) == t;
    var cast := Un("(uint64_t *)", Paren(sum));
    assert Render(Paren(sum)) == "(" + t + ")";
    assert Render(cast) == "(uint64_t *)" + ("(" + t + ")");
    assert Render(Paren(cast)) == "(" + ("(uint64_t *)" + ("(" + t + ")")) + ")";
    assert "*" + ("(" + ("(uint64_t *)" + ("(" + t + ")")) + ")") == "*((uint64_t *)(" + t + "))";
  }

  lemma {:induction false} LoadShape(base: string, offset: string)
    requires Full(base) && Number(offset)
    ensures Fragment(Load(base, offset)) && Readable(Load(base, offset))
  {
    hide Inert, OpText, SepText, Full, Number, SepBinding, IsPrefix, Clean, IsWord;
    NumberReadable(offset);
    LoadOps();
    PlainBindings();
    var sum := Bin(Reg(base), "+", Lit(offset));
    assert Fragment(sum) && Readable(sum);
    assert Fragment(Paren(sum)) && Readable(Paren(sum)) && LevelOf(Paren(sum)) == TIGHT;
    var cast := Un("(uint64_t *)", Paren(sum));
    assert Fragment(cast) && Readable(cast);
    assert Fragment(Paren(cast)) && Readable(Paren(cast)) && LevelOf(Paren(cast)) == TIGHT;
  }

  lemma {:induction false} LoadOps()
    ensures SepText("+") && OpText("*") && OpText("(uint64_t *)")
  {
    hide Inert;
    MarkTextInert('+');
    MarkTextInert('*');
    WordOfType();
    CastInert("uint64_t", " *)");
    assert "(" + "uint64_t" + " *)" == "(uint64_t *)";
  }

  lemma {:induction false} WordOfType()
    ensures IsWord("uint64_t")
  {
    TypeShape(TYPES[0]);
  }

  lemma {:induction false} PlainBindings()
    ensures SepBinding("+") == 9 && SepBinding(" == ") == 6 && IsPrefix("*") && IsPrefix("(uint64_t *)")
  {
    assert " == "[1..3] == "==";
    assert "(uint64_t *)" == "(" + TYPES[0] + " *)";
  }

  lemma {:induction false} SelectReads(tested: string, yes: string, no: string)
    requires Full(tested) && Full(yes) && Full(no)
    ensures Render(Select(tested, yes, no)) == "(" + tested + " == 0) ? " + yes + " : " + no
    ensures Fragment(Select(tested, yes, no)) && Readable(Select(tested, yes, no))
  {
    hide Inert, Level, Full, SepBinding, IsPrefix;
    assert Number("0") by { assert "0"[0] == '0'; }
    NumberReadable("0");
    assert SepText(" == ") by { EqualsInert(); }
    PlainBindings();
    var compare := Bin(Reg(tested), " == ", Lit("0"));
    assert Fragment(compare) && Readable(compare);
    assert Render(compare) == tested + " == 0";
    assert Render(Paren(compare)) == "(" + tested + " == 0)";
  }

  lemma {:induction false} EqualsInert()
    ensures SepText(" == ")
  {
    hide Inert;
    MarkTextInert(' ');
    MarkTextInert('=');
    assert "=" + "=" == "==" && " " + "==" == " ==" && " ==" + " " == " == ";
    InertConcat("=", "=");
    InertConcat(" ", "==");
    InertConcat(" ==", " ");
  }
}
