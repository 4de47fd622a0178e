/** The expressions that lifted statements print, and substitution in their text. */
module Expressions {
  import opened Common
  import opened Substitution
  import opened StatementText

  // -------------------------------------------------------------- expressions

  /**
   * A printed right-hand side over full-width registers. The texts between the registers are
   * arbitrary as long as they name no register: casts, operators with or without spaces, literals.
   */
  datatype Expr =
    | Reg(name: string)
    | Lit(text: string)
    | Paren(inner: Expr)
    | Un(op: string, arg: Expr)
    | Bin(left: Expr, sep: string, right: Expr)
    | Cond(test: Expr, yes: Expr, no: Expr)

  function Render(e: Expr): string {
    match e
    case Reg(n) => n
    case Lit(t) => t
    case Paren(x) => "(" + Render(x) + ")"
    case Un(op, x) => op + Render(x)
    case Bin(l, sep, r) => Render(l) + sep + Render(r)
    case Cond(c, a, b) => Render(c) + " ? " + Render(a) + " : " + Render(b)
  }

  /** A token that belongs to no register. */
  predicate NoAlias(t: string) {
    forall c :: c in FULL ==> t !in RegisterAliases(c)
  }

  /** Text that names no register and closes its own parentheses. */
  predicate Inert(t: string) {
    t != [] && Level(t) && forall i :: 0 <= i < |Tokens(t)| ==> NoAlias(Tokens(t)[i])
  }

  /** What stands before an operand: a cast, a sign, a dereference, a comment. */
  predicate OpText(op: string) { Inert(op) && !Space(op[0]) && !WordChar(op[|op| - 1]) }

  /** What stands between operands. */
  predicate SepText(sep: string) { Inert(sep) && !WordChar(sep[0]) && !WordChar(sep[|sep| - 1]) }

  /** Only full-width register names occur. */
  predicate Fragment(e: Expr) {
    match e
    case Reg(n) => Full(n)
    case Lit(t) => Inert(t) && Clean(t)
    case Paren(x) => Fragment(x)
    case Un(op, x) => OpText(op) && Fragment(x)
    case Bin(l, sep, r) => SepText(sep) && Fragment(l) && Fragment(r)
    case Cond(c, a, b) => Fragment(c) && Fragment(a) && Fragment(b)
  }

  function Regs(e: Expr): set<string> {
    match e
    case Reg(n) => {n}
    case Lit(_) => {}
    case Paren(x) => Regs(x)
    case Un(_, x) => Regs(x)
    case Bin(l, _, r) => Regs(l) + Regs(r)
    case Cond(c, a, b) => Regs(c) + Regs(a) + Regs(b)
  }

  /** Put the parenthesised `x` for register `r`. */
  function Put(e: Expr, r: string, x: Expr): Expr {
    match e
    case Reg(n) => if n == r then Paren(x) else e
    case Lit(_) => e
    case Paren(y) => Paren(Put(y, r, x))
    case Un(op, y) => Un(op, Put(y, r, x))
    case Bin(a, sep, b) => Bin(Put(a, r, x), sep, Put(b, r, x))
    case Cond(c, a, b) => Cond(Put(c, r, x), Put(a, r, x), Put(b, r, x))
  }

  lemma {:induction false} PutFragment(e: Expr, r: string, x: Expr)
    requires Fragment(e) && Fragment(x)
    ensures Fragment(Put(e, r, x))
  {
    hide Inert, OpText, SepText, Full, Clean;
    match e
    case Reg(_) =>
    case Lit(_) =>
    case Paren(y) => PutFragment(y, r, x);
    case Un(_, y) => PutFragment(y, r, x);
    case Bin(a, _, b) =>
      PutFragment(a, r, x);
      PutFragment(b, r, x);
    case Cond(c, a, b) =>
      PutFragment(c, r, x);
      PutFragment(a, r, x);
      PutFragment(b, r, x);
  }

  lemma {:induction false} PutRegs(e: Expr, r: string, x: Expr)
    ensures Regs(Put(e, r, x)) == if r in Regs(e) then Regs(e) - {r} + Regs(x) else Regs(e)
  {
    match e
    case Reg(_) =>
    case Lit(_) =>
    case Paren(y) => PutRegs(y, r, x);
    case Un(_, y) => PutRegs(y, r, x);
    case Bin(a, _, b) =>
      PutRegs(a, r, x);
      PutRegs(b, r, x);
    case Cond(c, a, b) =>
      PutRegs(c, r, x);
      PutRegs(a, r, x);
      PutRegs(b, r, x);
  }

  // -------------------------------------------------- substitution in rendered text

  function ReplaceIn(s: string, aliases: set<string>, ins: string): string {
    Replaced(Tokens(s), aliases, ins)
  }

  ghost predicate TextSeam(a: string, b: string) {
    a != [] && b != [] ==> !WordChar(a[|a| - 1]) || !WordChar(b[0])
  }

  lemma {:induction false} ReplaceSplits(a: string, b: string, aliases: set<string>, ins: string)
    requires TextSeam(a, b) && forall w :: w in aliases ==> IsWord(w)
    ensures ReplaceIn(a + b, aliases, ins) == ReplaceIn(a, aliases, ins) + ReplaceIn(b, aliases, ins)
  {
    hide Rewrite, Tokens, Replaced, IsWord;
    RewriteIsTokenwise(a + b, aliases, ins);
    RewriteIsTokenwise(a, aliases, ins);
    RewriteIsTokenwise(b, aliases, ins);
    assert Marked(a + b, false) == Marked(a, false) + Marked(b, false);
    RewriteSplits(Marked(a, false), Marked(b, false), aliases, ins);
  }

  lemma {:induction false} ReplaceNothing(tokens: seq<string>, aliases: set<string>, ins: string)
    requires forall i :: 0 <= i < |tokens| ==> tokens[i] !in aliases
    ensures Replaced(tokens, aliases, ins) == Flatten(tokens)
  {
    if tokens != [] { ReplaceNothing(tokens[1..], aliases, ins); }
  }

  function Flatten(tokens: seq<string>): string {
    if tokens == [] then [] else tokens[0] + Flatten(tokens[1..])
  }

  lemma {:induction false} TokensFlatten(s: string)
    ensures Flatten(Tokens(s)) == s
    decreases |s|
  {
    if s != [] {
      var n := if RunLength(s) == 0 then 1 else RunLength(s);
      FirstToken(s, n);
      TokensFlatten(s[n..]);
      assert s == s[..n] + s[n..];
      hide Tokens;
      assert Flatten([s[..n]] + Tokens(s[n..])) == s[..n] + Flatten(Tokens(s[n..])) by {
        assert ([s[..n]] + Tokens(s[n..]))[1..] == Tokens(s[n..]);
      }
    }
  }

  lemma {:induction false} WordTokens(s: string)
    requires IsWord(s)
    ensures Tokens(s) == [s]
  {
    WholeRun(s);
    assert s[..|s|] == s && s[|s|..] == [];
  }

  lemma {:induction false} WholeRun(s: string)
    requires forall i :: 0 <= i < |s| ==> WordChar(s[i])
    ensures RunLength(s) == |s|
  {
    if s != [] { WholeRun(s[1..]); }
  }

  function Aliases(r: string): set<string> { AliasSet(RegisterAliases(r)) }

  lemma {:induction false} AliasesAreWords(r: string)
    requires Full(r)
    ensures Words(RegisterAliases(r)) && forall w :: w in Aliases(r) ==> IsWord(w)
  {
    hide RegisterAliases, Full;
    forall k | 0 <= k < |RegisterAliases(r)| ensures IsWord(RegisterAliases(r)[k]) {
      AliasRow(r, k);
      PlainText(RegisterAliases(r)[k]);
    }
  }

  /** Text without an alias token is left alone. */
  lemma {:induction false} ReplaceInert(s: string, r: string, ins: string)
    requires Full(r) && forall i :: 0 <= i < |Tokens(s)| ==> NoAlias(Tokens(s)[i])
    ensures ReplaceIn(s, Aliases(r), ins) == s
  {
    hide Tokens, RegisterAliases;
    forall i | 0 <= i < |Tokens(s)| ensures Tokens(s)[i] !in Aliases(r) { assert NoAlias(Tokens(s)[i]); }
    ReplaceNothing(Tokens(s), Aliases(r), ins);
    TokensFlatten(s);
  }

  lemma {:induction false} MarkInert(c: char, r: string, ins: string)
    requires Full(r) && !WordChar(c)
    ensures ReplaceIn([c], Aliases(r), ins) == [c]
  {
    hide RegisterAliases, Full;
    assert Tokens([c]) == [[c]] by { assert [c][..1] == [c] && [c][1..] == []; }
    AliasesAreWords(r);
    assert [c] !in Aliases(r) by { assert [c][0] == c; }
    assert [[c]][1..] == [];
    assert Replaced([[c]], Aliases(r), ins) == [c] + Replaced([], Aliases(r), ins);
  }

  lemma {:induction false} WordReplaced(w: string, r: string, ins: string)
    requires Full(r) && IsWord(w)
    ensures ReplaceIn(w, Aliases(r), ins) == if w in Aliases(r) then ins else w
  {
    hide RegisterAliases, Full;
    WordTokens(w);
    assert [w][1..] == [];
    var piece := if w in Aliases(r) then ins else w;
    assert Replaced([w], Aliases(r), ins) == piece + Replaced([], Aliases(r), ins);
  }

  /** Replacing alias tokens in rendered text is putting the expression for the register. */
  lemma {:induction false} RenderPut(e: Expr, r: string, x: Expr)
    requires Full(r) && Fragment(e)
    ensures ReplaceIn(Render(e), Aliases(r), Wrapped(Render(x))) == Render(Put(e, r, x))
  {
    hide ReplaceIn, Full, Inert, OpText, SepText, Aliases;
    var ins := Wrapped(Render(x));
    match e
    case Reg(n) => RegReplaced(n, r, ins);
    case Lit(t) => InertReplaced(t, r, ins);
    case Paren(y) =>
      RenderPut(y, r, x);
      ParenReplaced(Render(y), r, ins);
    case Un(op, y) =>
      RenderPut(y, r, x);
      UnReplaced(op, Render(y), r, ins);
    case Bin(a, sep, b) =>
      RenderPut(a, r, x);
      RenderPut(b, r, x);
      BinReplaced(Render(a), sep, Render(b), r, ins);
    case Cond(c, a, b) =>
      RenderPut(c, r, x);
      RenderPut(a, r, x);
      RenderPut(b, r, x);
      CondReplaced(Render(c), Render(a), Render(b), r, ins);
  }

  lemma {:induction false} RegReplaced(n: string, r: string, ins: string)
    requires Full(n) && Full(r)
    ensures ReplaceIn(n, Aliases(r), ins) == if n == r then ins else n
  {
    FullName(n);
    PlainText(n);
    WordReplaced(n, r, ins);
    OwnRow(n, r);
    hide ReplaceIn, RegisterAliases;
    assert n in Aliases(r) <==> n in RegisterAliases(r);
  }

  lemma {:induction false} InertReplaced(t: string, r: string, ins: string)
    requires Inert(t) && Full(r)
    ensures ReplaceIn(t, Aliases(r), ins) == t
  {
    hide ReplaceIn, Aliases, Full, Tokens, NoAlias, Level;
    ReplaceInert(t, r, ins);
  }

  lemma {:induction false} ParenReplaced(y: string, r: string, ins: string)
    requires Full(r)
    ensures ReplaceIn("(" + y + ")", Aliases(r), ins) == "(" + ReplaceIn(y, Aliases(r), ins) + ")"
  {
    hide ReplaceIn, Aliases, Full;
    AliasesAreWords(r);
    MarkInert('(', r, ins);
    MarkInert(')', r, ins);
    ReplaceSplits("(" + y, ")", Aliases(r), ins);
    ReplaceSplits("(", y, Aliases(r), ins);
  }

  lemma {:induction false} UnReplaced(op: string, y: string, r: string, ins: string)
    requires OpText(op) && Full(r)
    ensures ReplaceIn(op + y, Aliases(r), ins) == op + ReplaceIn(y, Aliases(r), ins)
  {
    hide ReplaceIn, Aliases, Full, Inert;
    AliasesAreWords(r);
    InertReplaced(op, r, ins);
    ReplaceSplits(op, y, Aliases(r), ins);
  }

  lemma {:induction false} BinReplaced(a: string, sep: string, b: string, r: string, ins: string)
    requires SepText(sep) && Full(r)
    ensures ReplaceIn(a + sep + b, Aliases(r), ins)
        == ReplaceIn(a, Aliases(r), ins) + sep + ReplaceIn(b, Aliases(r), ins)
  {
    hide ReplaceIn, Aliases, Full, Level, Tokens, NoAlias;
    AliasesAreWords(r);
    InertReplaced(sep, r, ins);
    assert (a + sep)[|a + sep| - 1] == sep[|sep| - 1];
    ReplaceSplits(a + sep, b, Aliases(r), ins);
    ReplaceSplits(a, sep, Aliases(r), ins);
  }

  lemma {:induction false} MarksAreSeps()
    ensures SepText(" ? ") && SepText(" : ")
  {
    MarkIsSep('?');
    MarkIsSep(':');
  }

  lemma {:induction false} MarkIsSep(c: char)
    requires !WordChar(c) && c != '(' && c != ')'
    ensures SepText([' ', c, ' '])
  {
    var s := [' ', c, ' '];
    FlatLevel(s);
    assert s[..1] == [' '] && s[1..] == [c, ' '] && [c, ' '][..1] == [c] && [c, ' '][1..] == [' '];
    assert [' '][..1] == [' '] && [' '][1..] == [];
    assert Tokens([' ']) == [[' ']] && Tokens([c, ' ']) == [[c], [' ']] && Tokens(s) == [[' '], [c], [' ']];
    MarkIsNoAlias(' ');
    MarkIsNoAlias(c);
  }

  lemma {:induction false} MarkIsNoAlias(c: char)
    requires !WordChar(c)
    ensures NoAlias([c])
  {
    hide RegisterAliases;
    assert !IsWord([c]) by { assert [c][0] == c; }
    forall r | r in FULL ensures [c] !in RegisterAliases(r) {
      assert Full(r);
      AliasesAreWords(r);
      assert [c] in RegisterAliases(r) ==> [c] in Aliases(r);
    }
  }

  lemma {:induction false} CondReplaced(c: string, a: string, b: string, r: string, ins: string)
    requires Full(r)
    ensures ReplaceIn(c + " ? " + a + " : " + b, Aliases(r), ins)
      == ReplaceIn(c, Aliases(r), ins) + " ? " + ReplaceIn(a, Aliases(r), ins) + " : " + ReplaceIn(b, Aliases(r), ins)
  {
    hide ReplaceIn, Aliases, Full, SepText;
    MarksAreSeps();
    BinReplaced(c + " ? " + a, " : ", b, r, ins);
    BinReplaced(c, " ? ", a, r, ins);
  }

  // ------------------------------------------------------- reads in rendered text

  lemma {:induction false} RewriteLonger(cells: seq<Cell>, aliases: set<string>, ins: string)
    requires forall a :: a in aliases ==> |a| <= |ins|
    ensures |Rewrite(cells, aliases, ins)| >= |cells|
    decreases |cells|
  {
    hide Width;
    if cells != [] {
      var n := Width(cells);
      RewriteLonger(cells[n..], aliases, ins);
      assert |Piece(cells[..n], aliases, ins)| >= n;
    }
  }

  /** A replacement longer than every alias shows whether there was anything to replace. */
  lemma {:induction false} ReplacementShows(s: string, needles: seq<string>, expr: string)
    requires Words(needles) && forall a :: a in AliasSet(needles) ==> |a| < |Wrapped(expr)|
    ensures Occurs(s, needles) ==> |ReplaceIn(s, AliasSet(needles), Wrapped(expr))| > |s|
    ensures !Occurs(s, needles) ==> ReplaceIn(s, AliasSet(needles), Wrapped(expr)) == s
  {
    var ins, cells := Wrapped(expr), Marked(s, false);
    hide Rewrite, Tokens, Replaced;
    RewriteIsTokenwise(s, AliasSet(needles), ins);
    if Occurs(s, needles) {
      var k, i :| 0 <= k < |needles| && WordAt(s, needles[k], i);
      assert Chars(cells) == s;
      assert FreeAt(cells, needles[k], i);
      EditKeepsGoal(cells, needles[k], i, AliasSet(needles), ins);
      RewriteLonger(Edit(cells, i, |needles[k]|, ins), AliasSet(needles), ins);
    } else {
      PlainExplains(s, needles, expr);
      forall k | 0 <= k < |needles| ensures NoneFrom(cells, needles[k], |cells|) {
        assert Chars(cells) == s;
      }
      AllDone(cells, s, [], needles, ins, ReplaceIn(s, AliasSet(needles), ins));
    }
  }

  lemma {:induction false} PutLength(e: Expr, r: string, x: Expr)
    requires |r| < |Render(x)| + 2
    ensures r in Regs(e) ==> |Render(Put(e, r, x))| > |Render(e)|
    ensures r !in Regs(e) ==> Put(e, r, x) == e
  {
    match e
    case Reg(_) =>
    case Lit(_) =>
    case Paren(y) => PutLength(y, r, x);
    case Un(_, y) => PutLength(y, r, x);
    case Bin(a, _, b) =>
      PutLength(a, r, x);
      PutLength(b, r, x);
    case Cond(c, a, b) =>
      PutLength(c, r, x);
      PutLength(a, r, x);
      PutLength(b, r, x);
  }

  lemma {:induction false} LegacyShort(c: string, k: nat)
    requires k < |LegacyAliases(c)|
    ensures |LegacyAliases(c)[k]| <= 3
  {
  }

  lemma {:induction false} NumberedShort(c: string)
    requires c in NUMBERED
    ensures |c| <= 3
  {
  }

  lemma {:induction false} AliasesAreShort(c: string, a: string)
    requires Full(c) && a in Aliases(c)
    ensures |a| <= 4
  {
    hide LegacyAliases, Full;
    var k :| 0 <= k < |RegisterAliases(c)| && RegisterAliases(c)[k] == a;
    if c in NUMBERED {
      NumberedShort(c);
    } else {
      LegacyShort(c, k);
    }
  }

  /** A register's names occur in printed text exactly when the expression reads the register. */
  lemma {:induction false} OccursIsRead(e: Expr, r: string)
    requires Full(r) && Fragment(e)
    ensures Occurs(Render(e), RegisterAliases(r)) <==> r in Regs(e)
  {
    hide RegisterAliases, Fragment, ReplaceIn, Regs, Put, Occurs;
    var x := Lit(FILLER);
    assert Render(x) == FILLER;
    FillerIsLong(r);
    FullName(r);
    AliasRow(r, 0);
    assert r in Aliases(r) by { assert RegisterAliases(r)[0] == r; }
    ReplacementShows(Render(e), RegisterAliases(r), Render(x));
    RenderPut(e, r, x);
    PutLength(e, r, x);
  }

  /** A text longer, in parentheses, than every register name. */
  const FILLER: string := "________"

  lemma {:induction false} FillerIsLong(r: string)
    requires Full(r)
    ensures Words(RegisterAliases(r)) && forall a :: a in Aliases(r) ==> |a| < |Wrapped(FILLER)|
  {
    hide RegisterAliases, Full;
    AliasesAreWords(r);
    forall a | a in Aliases(r) ensures |a| <= 4 { AliasesAreShort(r, a); }
  }

  /** Occurrences do not straddle a seam. */
  lemma {:induction false} OccursSplits(a: string, b: string, r: string)
    requires Full(r) && TextSeam(a, b)
    ensures Occurs(a + b, RegisterAliases(r)) <==> Occurs(a, RegisterAliases(r)) || Occurs(b, RegisterAliases(r))
  {
    hide Occurs, RegisterAliases, Full, ReplaceIn;
    FillerIsLong(r);
    AliasesAreWords(r);
    var ins := Wrapped(FILLER);
    ReplaceSplits(a, b, Aliases(r), ins);
    ReplacementShows(a, RegisterAliases(r), FILLER);
    ReplacementShows(b, RegisterAliases(r), FILLER);
    ReplacementShows(a + b, RegisterAliases(r), FILLER);
  }

  lemma {:induction false} WordOccurs(w: string, r: string)
    requires Full(r) && IsWord(w)
    ensures Occurs(w, RegisterAliases(r)) <==> w in Aliases(r)
  {
    hide Occurs, RegisterAliases, Full, ReplaceIn, Aliases;
    FillerIsLong(r);
    WordReplaced(w, r, Wrapped(FILLER));
    AliasesIsSet(r);
    ReplacementShows(w, RegisterAliases(r), FILLER);
  }

  lemma {:induction false} AliasesIsSet(r: string)
    ensures AliasSet(RegisterAliases(r)) == Aliases(r)
  {
  }

  /** Text that starts with a mark still does after any replacement. */
  lemma {:induction false} MarkStaysFirst(s: string, r: string, ins: string)
    requires Full(r) && s != [] && !WordChar(s[0])
    ensures ReplaceIn(s, Aliases(r), ins) != [] && ReplaceIn(s, Aliases(r), ins)[0] == s[0]
  {
    hide ReplaceIn, Full, Aliases;
    AliasesAreWords(r);
    assert s == [s[0]] + s[1..];
    MarkInert(s[0], r, ins);
    ReplaceSplits([s[0]], s[1..], Aliases(r), ins);
  }

  lemma {:induction false} FirstSeam(t: string, n: nat)
    requires t != [] && n == (if RunLength(t) == 0 then 1 else RunLength(t))
    ensures n <= |t| && TextSeam(t[..n], t[n..])
    ensures RunLength(t) == 0 ==> !WordChar(t[0])
    ensures RunLength(t) > 0 ==> IsWord(t[..n]) && (t[n..] != [] ==> !WordChar(t[n]))
  {
    RunFacts(t);
  }

  lemma {:induction false} RunFacts(t: string)
    ensures forall i :: 0 <= i < RunLength(t) ==> WordChar(t[i])
    ensures RunLength(t) < |t| ==> !WordChar(t[RunLength(t)])
  {
    if t != [] && WordChar(t[0]) { RunFacts(t[1..]); }
  }

  /** Putting an expression for one register neither adds nor hides a name of another that it does not read. */
  lemma {:induction false} OccursAfterReplace(t: string, k: string, x: Expr, q: string)
    requires Full(k) && Full(q) && k != q && Fragment(x) && q !in Regs(x)
    ensures Occurs(ReplaceIn(t, Aliases(k), Wrapped(Render(x))), RegisterAliases(q)) <==> Occurs(t, RegisterAliases(q))
    decreases |t|
  {
    hide Occurs, RegisterAliases, Full, ReplaceIn, Aliases, Fragment, Regs, IsWord, RunLength, TextSeam, Render;
    var ins := Wrapped(Render(x));
    if t == [] {
      EmptyStays(k, ins);
    } else {
      var n := if RunLength(t) == 0 then 1 else RunLength(t);
      FirstSeam(t, n);
      var w, rest := t[..n], t[n..];
      assert t == w + rest;
      AliasesAreWords(k);
      ReplaceSplits(w, rest, Aliases(k), ins);
      OccursSplits(w, rest, q);
      OccursAfterReplace(rest, k, x, q);
      TokenAfterReplace(w, k, x, q);
      SeamAfterReplace(w, rest, k, ins);
      OccursSplits(ReplaceIn(w, Aliases(k), ins), ReplaceIn(rest, Aliases(k), ins), q);
    }
  }

  lemma {:induction false} SeamAfterReplace(w: string, rest: string, k: string, ins: string)
    requires Full(k) && w != [] && TextSeam(w, rest)
    requires var piece := ReplaceIn(w, Aliases(k), ins); piece == w || (piece != [] && !WordChar(piece[|piece| - 1]))
    ensures TextSeam(ReplaceIn(w, Aliases(k), ins), ReplaceIn(rest, Aliases(k), ins))
  {
    hide ReplaceIn, Full, Aliases;
    if rest == [] {
      EmptyStays(k, ins);
    } else if !WordChar(rest[0]) {
      MarkStaysFirst(rest, k, ins);
    }
  }

  lemma {:induction false} EmptyStays(k: string, ins: string)
    ensures ReplaceIn([], Aliases(k), ins) == []
  {
  }

  lemma {:induction false} TokenAfterReplace(w: string, k: string, x: Expr, q: string)
    requires Full(k) && Full(q) && k != q && Fragment(x) && q !in Regs(x)
    requires IsWord(w) || (|w| == 1 && !WordChar(w[0]))
    ensures
      var piece := ReplaceIn(w, Aliases(k), Wrapped(Render(x)));
      && (Occurs(piece, RegisterAliases(q)) <==> Occurs(w, RegisterAliases(q)))
      && piece != [] && (piece == w || !WordChar(piece[|piece| - 1]))
  {
    hide Occurs, RegisterAliases, Full, ReplaceIn, Aliases, Fragment, Regs;
    var ins := Wrapped(Render(x));
    if IsWord(w) {
      WordReplaced(w, k, ins);
      if w in Aliases(k) {
        ParenRegs(x);
        OccursIsRead(Paren(x), q);
        assert Render(Paren(x)) == ins;
        WordOccurs(w, q);
        NamesDiffer(w, k, q);
      }
    } else {
      assert w == [w[0]];
      MarkInert(w[0], k, ins);
    }
  }

  lemma {:induction false} ParenRegs(x: Expr)
    ensures Regs(Paren(x)) == Regs(x) && (Fragment(Paren(x)) <==> Fragment(x))
  {
  }

  lemma {:induction false} NamesDiffer(w: string, k: string, q: string)
    requires Full(k) && Full(q) && k != q && w in Aliases(k)
    ensures w !in Aliases(q)
  {
    hide RegisterAliases, Full;
    FamilyOf(k, w);
    if w in Aliases(q) { FamilyOf(q, w); }
  }

  // ------------------------------------------------------------- rendered bodies

  lemma {:induction false} RenderClean(e: Expr)
    requires Fragment(e)
    ensures Clean(Render(e)) && Level(Render(e))
  {
    hide Inert, Full, Level, SepText, OpText, Clean;
    match e
    case Reg(n) => NameClean(n);
    case Lit(t) => LitLevel(t);
    case Paren(x) =>
      RenderClean(x);
      ParenClean(Render(x));
      LevelParen(Render(x));
    case Un(op, x) =>
      RenderClean(x);
      OpClean(op, Render(x));
      LevelConcat(op, Render(x));
    case Bin(a, sep, b) =>
      RenderClean(a);
      RenderClean(b);
      BetweenClean(Render(a), sep, Render(b));
    case Cond(c, a, b) =>
      RenderClean(c);
      RenderClean(a);
      RenderClean(b);
      MarksAreSeps();
      BetweenClean(Render(c), " ? ", Render(a));
      BetweenClean(Render(c) + " ? " + Render(a), " : ", Render(b));
  }

  lemma {:induction false} NameClean(n: string)
    requires Full(n)
    ensures Clean(n) && Level(n)
  {
    FullName(n);
    assert PlainChar(n[0]) && PlainChar(n[|n| - 1]);
    forall i | 0 <= i < |n| ensures n[i] != '(' && n[i] != ')' { assert PlainChar(n[i]); }
    FlatLevel(n);
  }

  lemma {:induction false} LitLevel(t: string)
    requires Inert(t)
    ensures Level(t)
  {
  }

  lemma {:induction false} ParenClean(s: string)
    ensures Clean("(" + s + ")")
  {
    var t := "(" + s + ")";
    assert t[0] == '(' && t[|t| - 1] == ')';
  }

  lemma {:induction false} OpClean(op: string, s: string)
    requires OpText(op) && Clean(s)
    ensures Clean(op + s) && Level(op)
  {
    hide Level;
    var t := op + s;
    assert t[0] == op[0] && t[|t| - 1] == s[|s| - 1];
  }

  lemma {:induction false} BetweenClean(a: string, sep: string, b: string)
    requires SepText(sep) && Clean(a) && Level(a) && Clean(b) && Level(b)
    ensures Clean(a + sep + b) && Level(a + sep + b)
  {
    hide Level;
    var t := a + sep + b;
    assert t[0] == a[0] && t[|t| - 1] == b[|b| - 1];
    LevelConcat(a, sep);
    LevelConcat(a + sep, b);
  }

  // -------------------------------------------------------------- comment lines

  lemma {:induction false} ReplacedSheltered(tokens: seq<string>, aliases: set<string>, ins: string, d: nat)
    requires forall w :: w in aliases ==> IsWord(w)
    requires (forall k: nat :: Sheltered(ins, k)) && Net(ins) == 0
    requires Sheltered(Flatten(tokens), d)
    ensures Sheltered(Replaced(tokens, aliases, ins), d)
    decreases |tokens|
  {
    hide Sheltered, Net;
    if tokens != [] {
      var t, rest := tokens[0], tokens[1..];
      ShelteredConcat(t, Flatten(rest), d);
      ShelteredDepth(t, d);
      var piece := if t in aliases then ins else t;
      if t in aliases {
        forall i | 0 <= i < |t| ensures Quiet(t[i]) { assert WordChar(t[i]); }
        QuietIsSheltered(t, d);
      }
      ReplacedSheltered(rest, aliases, ins, d + Net(t));
      ShelteredConcat(piece, Replaced(rest, aliases, ins), d);
    } else {
      assert Flatten(tokens) == Replaced(tokens, aliases, ins);
    }
  }

  /** A comment stays a comment when registers in it are replaced. */
  lemma {:induction false} CommentReplaced(t: string, r: string, x: Expr)
    requires IsComment(t) && Full(r) && Fragment(x)
    ensures IsComment(ReplaceIn(t, Aliases(r), Wrapped(Render(x))))
  {
    hide Sheltered, Net, Tokens, Replaced, Fragment, Full, Aliases, Level;
    var ins := Wrapped(Render(x));
    RenderClean(x);
    ParenIsSheltered(Render(x), 0);
    forall k: nat ensures Sheltered(ins, k) { ParenIsSheltered(Render(x), k); }
    AliasesAreWords(r);
    TokensFlatten(t);
    ReplacedSheltered(Tokens(t), Aliases(r), ins, 0);
    var rest := t[2..];
    assert t == "/" + ("*" + rest);
    MarkInert('/', r, ins);
    MarkInert('*', r, ins);
    ReplaceSplits("/", "*" + rest, Aliases(r), ins);
    ReplaceSplits("*", rest, Aliases(r), ins);
  }

  // ----------------------------------------------------------------- inert texts

  lemma {:induction false} RunAtTextSeam(a: string, b: string)
    requires TextSeam(a, b) && a != []
    ensures RunLength(a + b) == RunLength(a)
  {
    assert (a + b)[1..] == a[1..] + b;
    if WordChar(a[0]) {
      if a[1..] == [] {
        assert a[1..] + b == b;
      } else {
        RunAtTextSeam(a[1..], b);
      }
    }
  }

  lemma {:induction false} TokensConcat(a: string, b: string)
    requires TextSeam(a, b)
    ensures Tokens(a + b) == Tokens(a) + Tokens(b)
    decreases |a|
  {
    hide Tokens, RunLength;
    if a == [] {
      NoTokens();
      assert a + b == b;
    } else {
      var n := if RunLength(a) == 0 then 1 else RunLength(a);
      RunAtTextSeam(a, b);
      FirstToken(a, n);
      FirstToken(a + b, n);
      assert (a + b)[..n] == a[..n] && (a + b)[n..] == a[n..] + b;
      TokensConcat(a[n..], b);
    }
  }

  lemma {:induction false} NoTokens()
    ensures Tokens([]) == []
  {
  }

  lemma {:induction false} InertConcat(a: string, b: string)
    requires Inert(a) && Inert(b) && TextSeam(a, b)
    ensures Inert(a + b)
  {
    hide NoAlias, Tokens, Level;
    TokensConcat(a, b);
    LevelConcat(a, b);
  }

  /** No register has a name this long. */
  lemma {:induction false} LongWordInert(w: string)
    requires IsWord(w) && |w| > 4
    ensures Inert(w)
  {
    hide RegisterAliases;
    WordTokens(w);
    forall i | 0 <= i < |w| ensures w[i] != '(' && w[i] != ')' { assert WordChar(w[i]); }
    FlatLevel(w);
    forall c | c in FULL ensures w !in RegisterAliases(c) {
      assert Full(c);
      if w in Aliases(c) { AliasesAreShort(c, w); }
    }
  }

  /** A number is no register name: every name holds a letter at its head. */
  lemma {:induction false} NumberInert(w: string)
    requires IsWord(w) && '0' <= w[0] <= '9'
    ensures Inert(w) && Clean(w)
  {
    hide RegisterAliases;
    WordTokens(w);
    forall i | 0 <= i < |w| ensures w[i] != '(' && w[i] != ')' { assert WordChar(w[i]); }
    FlatLevel(w);
    assert WordChar(w[|w| - 1]);
    forall c | c in FULL ensures w !in RegisterAliases(c) {
      assert Full(c);
      if k :| 0 <= k < |RegisterAliases(c)| && RegisterAliases(c)[k] == w { NamesStartWithLetters(c, k); }
    }
  }

  lemma {:induction false} MarkTextInert(c: char)
    requires !WordChar(c) && c != '(' && c != ')'
    ensures Inert([c])
  {
    FlatLevel([c]);
    assert [c][..1] == [c] && [c][1..] == [];
    assert Tokens([c]) == [[c]];
    MarkIsNoAlias(c);
  }

  lemma {:induction false} NamesStartWithLetters(c: string, k: nat)
    requires Full(c) && k < |RegisterAliases(c)|
    ensures RegisterAliases(c)[k] != [] && 'a' <= RegisterAliases(c)[k][0] <= 'z'
  {
    if c in NUMBERED {
      NumberedShape(c);
    } else {
      LegacyLetters(c, k);
    }
  }

  lemma {:induction false} LegacyLetters(c: string, k: nat)
    requires k < |LegacyAliases(c)|
    ensures LegacyAliases(c)[k] != [] && 'a' <= LegacyAliases(c)[k][0] <= 'z'
  {
  }
}
