/** Reading printed expressions back under C's operator precedence: the tree that a text stands for. */
module Reading {
  import opened Common
  import opened Substitution
  import opened StatementText
  import opened Expressions

  // ------------------------------------------------------------------- operators

  const SYMBOLS: seq<string> := ["*", "+", "-", "<<", ">>", "<", "<=", ">", ">=", "==", "!=", "&", "^", "|"]

  /** How tightly a binary operator binds; 0 for anything else. */
  function Binding(symbol: string): nat {
    if symbol == "*" then 10
    else if symbol == "+" || symbol == "-" then 9
    else if symbol == "<<" || symbol == ">>" then 8
    else if symbol == "<" || symbol == "<=" || symbol == ">" || symbol == ">=" then 7
    else if symbol == "==" || symbol == "!=" then 6
    else if symbol == "&" then 5
    else if symbol == "^" then 4
    else if symbol == "|" then 3
    else 0
  }

  /** Operands bind tighter than every operator. */
  const TIGHT: nat := 11

  /** A separator is an operator, with a space on both sides or on neither. */
  function SepBinding(sep: string): nat {
    if |sep| >= 3 && sep[0] == ' ' && sep[|sep| - 1] == ' ' then Binding(sep[1..|sep| - 1]) else Binding(sep)
  }

  const TYPES: seq<string> := ["uint64_t", "uint32_t", "uint16_t", "uint8_t", "int64_t", "int32_t", "uintptr_t"]

  /** A cast to a value or pointer type. */
  predicate IsCast(op: string) {
    exists i :: 0 <= i < |TYPES| && (op == "(" + TYPES[i] + ")" || op == "(" + TYPES[i] + " *)")
  }

  /** A comment, with a space behind it, in front of an operand. */
  predicate IsNote(op: string) {
    "/*" <= op && |op| >= 5 && FirstIndex(op, "*/ ", 2) == Some(|op| - 3)
  }

  predicate IsPrefix(op: string) { op == "~" || op == "-" || op == "*" || IsCast(op) || IsNote(op) }

  // -------------------------------------------------------------- readable trees

  function LevelOf(e: Expr): nat {
    match e
    case Cond(_, _, _) => 0
    case Bin(_, sep, _) => SepBinding(sep)
    case _ => TIGHT
  }

  /** The tree is the reading of its own text: operands bind tighter than the operator above them. */
  predicate Readable(e: Expr) {
    match e
    case Reg(n) => Full(n)
    case Lit(t) => IsWord(t) && !Full(t) && t !in TYPES
    case Paren(x) => Readable(x)
    case Un(op, x) => IsPrefix(op) && Readable(x) && LevelOf(x) == TIGHT
    case Bin(l, sep, r) =>
      Readable(l) && Readable(r) && 0 < SepBinding(sep) <= LevelOf(l) && SepBinding(sep) < LevelOf(r)
    case Cond(c, a, b) =>
      Readable(c) && Readable(a) && Readable(b) && LevelOf(c) > 0 && LevelOf(a) > 0 && LevelOf(b) > 0
  }

  /** Substitution keeps trees readable, because what it puts in stands in parentheses. */
  lemma {:induction false} PutReadable(e: Expr, r: string, x: Expr)
    requires Readable(e) && Readable(x)
    ensures Readable(Put(e, r, x)) && LevelOf(Put(e, r, x)) == LevelOf(e)
  {
    hide IsPrefix, SepBinding, Full, IsWord;
    match e
    case Reg(_) =>
    case Lit(_) =>
    case Paren(y) => PutReadable(y, r, x);
    case Un(_, y) => PutReadable(y, r, x);
    case Bin(a, _, b) =>
      PutReadable(a, r, x);
      PutReadable(b, r, x);
    case Cond(c, a, b) =>
      PutReadable(c, r, x);
      PutReadable(a, r, x);
      PutReadable(b, r, x);
  }

  // ------------------------------------------------------------------ the reader

  /** The longest operator symbol at the head of the text, or nothing. */
  function SymbolAt(s: string): string {
    if |s| >= 2 && s[..2] in SYMBOLS then s[..2]
    else if |s| >= 1 && s[..1] in SYMBOLS then s[..1]
    else []
  }

  function SepAt(s: string): (sep: string)
    ensures |sep| <= |s|
  {
    if s != [] && s[0] == ' ' then
      var symbol := SymbolAt(s[1..]);
      if symbol != [] && |symbol| + 1 < |s| && s[|symbol| + 1] == ' ' then [' '] + symbol + [' '] else []
    else SymbolAt(s)
  }

  function CastAt(s: string): (op: string)
    ensures |op| <= |s|
  {
    if s == [] || s[0] != '(' then []
    else
      var n := RunLength(s[1..]);
      if s[1..][..n] !in TYPES then []
      else if ")" <= s[1 + n..] then s[..n + 2]
      else if " *)" <= s[1 + n..] then s[..n + 4]
      else []
  }

  function NoteAt(s: string): (op: string)
    ensures |op| <= |s|
  {
    if "/*" <= s && FirstIndex(s, "*/ ", 2).Some? then s[..FirstIndex(s, "*/ ", 2).value + 3] else []
  }

  function PrefixAt(s: string): (op: string)
    ensures |op| <= |s|
  {
    if s == [] then []
    else if s[0] in ['~', '-', '*'] then s[..1]
    else if s[0] == '(' then CastAt(s)
    else NoteAt(s)
  }

  datatype Found = Found(expr: Expr, rest: string)

  function ReadOperand(s: string): (r: Option<Found>)
    ensures r.Some? ==> |r.value.rest| < |s|
    decreases |s|, 0
  {
    var op := PrefixAt(s);
    if op != [] then
      match ReadOperand(s[|op|..])
      case Some(f) => Some(Found(Un(op, f.expr), f.rest))
      case None => None
    else if s != [] && s[0] == '(' then
      match ReadCond(s[1..])
      case Some(f) => if f.rest != [] && f.rest[0] == ')' then Some(Found(Paren(f.expr), f.rest[1..])) else None
      case None => None
    else
      var n := RunLength(s);
      if n == 0 then None else Some(Found(if Full(s[..n]) then Reg(s[..n]) else Lit(s[..n]), s[n..]))
  }

  function ReadBinary(s: string, min: nat): (r: Option<Found>)
    requires min > 0
    ensures r.Some? ==> |r.value.rest| < |s|
    decreases |s|, 1
  {
    match ReadOperand(s)
    case Some(f) => ReadMore(f.expr, f.rest, min)
    case None => None
  }

  /** Left-associative: takes operators that bind at least as tightly as `min`. */
  function ReadMore(left: Expr, s: string, min: nat): (r: Option<Found>)
    requires min > 0
    ensures r.Some? ==> |r.value.rest| <= |s|
    decreases |s|, 2
  {
    var sep := SepAt(s);
    if SepBinding(sep) < min || sep == [] then Some(Found(left, s))
    else
      match ReadBinary(s[|sep|..], SepBinding(sep) + 1)
      case Some(f) => ReadMore(Bin(left, sep, f.expr), f.rest, min)
      case None => None
  }

  function ReadCond(s: string): (r: Option<Found>)
    ensures r.Some? ==> |r.value.rest| < |s|
    decreases |s|, 2
  {
    match ReadBinary(s, 1)
    case None => None
    case Some(c) =>
      if !(" ? " <= c.rest) then Some(c)
      else
        match ReadBinary(c.rest[3..], 1)
        case None => None
        case Some(a) =>
          if !(" : " <= a.rest) then None
          else
            match ReadBinary(a.rest[3..], 1)
            case None => None
            case Some(b) => Some(Found(Cond(c.expr, a.expr, b.expr), b.rest))
  }

  function ReadExpr(text: string): Option<Expr> {
    match ReadCond(text)
    case Some(f) => if f.rest == [] then Some(f.expr) else None
    case None => None
  }

  // -------------------------------------------------------------- lexical lemmas

  /** Nothing that could prolong a word. */
  predicate Stops(rest: string) { rest == [] || !WordChar(rest[0]) }

  /** How an operand can start. */
  predicate StartsOperand(s: string) { s != [] && (WordChar(s[0]) || s[0] in ['(', '~', '-', '*', '/']) }

  lemma {:induction false} RunOfWord(w: string, rest: string)
    requires (forall i :: 0 <= i < |w| ==> WordChar(w[i])) && Stops(rest)
    ensures RunLength(w + rest) == |w|
  {
    if w == [] {
      assert w + rest == rest;
    } else {
      assert (w + rest)[1..] == w[1..] + rest;
      RunOfWord(w[1..], rest);
    }
  }

  lemma {:induction false} TypeShape(t: string)
    requires t in TYPES
    ensures IsWord(t) && t[0] != 'r'
  {
  }

  lemma {:induction false} SymbolShape(symbol: string)
    requires Binding(symbol) > 0
    ensures symbol in SYMBOLS && 1 <= |symbol| <= 2 && !WordChar(symbol[0]) && symbol[0] !in [' ', '?', ':', '(', ')']
    ensures !WordChar(symbol[|symbol| - 1])
  {
  }

  lemma {:induction false} SymbolHead(symbol: string, tail: string)
    requires Binding(symbol) > 0 && (tail != [] ==> tail[0] !in ['<', '>', '='])
    ensures SymbolAt(symbol + tail) == symbol
  {
    var s := symbol + tail;
    SymbolShape(symbol);
    if |symbol| == 2 {
      assert s[..2] == symbol;
    } else {
      assert s[..1] == symbol;
      if |s| >= 2 {
        assert s[1] == tail[0] && s[..2] == [symbol[0], tail[0]];
        NoLonger(symbol[0], tail[0]);
      }
    }
  }

  lemma {:induction false} NoLonger(a: char, b: char)
    requires b !in ['<', '>', '=']
    ensures [a, b] !in SYMBOLS
  {
    assert [a, b][1] == b;
    assert forall i :: 0 <= i < |SYMBOLS| && |SYMBOLS[i]| == 2 ==> SYMBOLS[i][1] in ['<', '>', '='];
  }

  lemma {:induction false} SepShape(sep: string)
    requires SepBinding(sep) > 0
    ensures sep != [] && !WordChar(sep[0]) && SepBinding(sep) < TIGHT
  {
    if |sep| >= 3 && sep[0] == ' ' && sep[|sep| - 1] == ' ' {
      SymbolShape(sep[1..|sep| - 1]);
    } else {
      SymbolShape(sep);
    }
  }

  lemma {:induction false} SepHead(sep: string, tail: string)
    requires SepBinding(sep) > 0 && StartsOperand(tail)
    ensures SepAt(sep + tail) == sep
  {
    hide Binding, SymbolAt;
    var s := sep + tail;
    if |sep| >= 3 && sep[0] == ' ' && sep[|sep| - 1] == ' ' {
      var symbol := sep[1..|sep| - 1];
      SymbolShape(symbol);
      assert sep == [' '] + symbol + [' '];
      assert s[1..] == symbol + ([' '] + tail);
      SymbolHead(symbol, [' '] + tail);
    } else {
      SymbolShape(sep);
      SymbolHead(sep, tail);
    }
  }

  /** What can follow a whole expression: its end, a closing parenthesis, or a part of a conditional. */
  predicate EndsExpr(rest: string) { rest == [] || rest[0] == ')' || " ? " <= rest || " : " <= rest }

  lemma {:induction false} NoSep(rest: string)
    requires EndsExpr(rest)
    ensures SepBinding(SepAt(rest)) == 0 && Stops(rest)
  {
    if rest != [] {
      if rest[0] == ')' {
        NoSymbol(rest);
      } else {
        assert rest[1] in ['?', ':'];
        NoSymbol(rest[1..]);
      }
    }
  }

  lemma {:induction false} NoSymbol(s: string)
    requires s != [] && s[0] in [')', '?', ':']
    ensures SymbolAt(s) == []
  {
    assert forall i :: 0 <= i < |SYMBOLS| ==> SYMBOLS[i][0] !in [')', '?', ':'];
    assert s[..1][0] == s[0];
    if |s| >= 2 { assert s[..2][0] == s[0]; }
  }

  lemma {:induction false} CastRead(t: string, after: string, tail: string)
    requires t in TYPES && IsWord(t) && (after == ")" || after == " *)")
    ensures CastAt("(" + t + after + tail) == "(" + t + after
  {
    var op := "(" + t + after;
    var s := op + tail;
    assert s[1..] == t + (after + tail);
    RunOfWord(t, after + tail);
    assert s[1 + |t|..] == after + tail && s[1..][..|t|] == t;
    assert s[..|op|] == op;
  }

  lemma {:induction false} CastHead(op: string, tail: string)
    requires IsCast(op)
    ensures PrefixAt(op + tail) == op && op[0] == '(' && |op| > 1
  {
    hide CastAt, NoteAt, IsWord;
    var i :| 0 <= i < |TYPES| && (op == "(" + TYPES[i] + ")" || op == "(" + TYPES[i] + " *)");
    var t, after := TYPES[i], if op == "(" + TYPES[i] + ")" then ")" else " *)";
    TypeShape(t);
    CastRead(t, after, tail);
    assert (op + tail)[0] == '(';
  }

  lemma {:induction false} FirstIndexStays(s: string, t: string, i: nat, tail: string)
    requires FirstIndex(s, t, i).Some? && t != []
    ensures FirstIndex(s + tail, t, i) == FirstIndex(s, t, i)
    decreases |s| - i
  {
    assert (s + tail)[i..i + |t|] == s[i..i + |t|];
    if s[i..i + |t|] != t { FirstIndexStays(s, t, i + 1, tail); }
  }

  lemma {:induction false} NoteHead(op: string, tail: string)
    requires IsNote(op)
    ensures PrefixAt(op + tail) == op && op[0] == '/' && |op| > 1
  {
    FirstIndexStays(op, "*/ ", 2, tail);
    var s := op + tail;
    assert s[0] == op[0] == '/' && s[..2] == op[..2];
    assert s[..|op|] == op;
  }

  lemma {:induction false} PrefixHead(op: string, tail: string)
    requires IsPrefix(op)
    ensures PrefixAt(op + tail) == op && op != [] && op[0] in ['~', '-', '*', '(', '/']
  {
    hide CastAt, NoteAt;
    if IsCast(op) {
      CastHead(op, tail);
    } else if IsNote(op) {
      NoteHead(op, tail);
    } else {
      assert (op + tail)[..1] == op;
    }
  }

  lemma {:induction false} OperandStarts(e: Expr)
    requires Readable(e)
    ensures StartsOperand(Render(e))
  {
    hide IsPrefix, SepBinding, Full;
    match e
    case Reg(n) =>
      FullName(n);
      PlainText(n);
      assert WordChar(n[0]);
    case Lit(t) => assert WordChar(t[0]);
    case Paren(_) =>
    case Un(op, x) => PrefixHead(op, Render(x));
    case Bin(l, sep, r) =>
      OperandStarts(l);
      assert Render(e)[0] == Render(l)[0];
    case Cond(c, a, b) =>
      OperandStarts(c);
      assert Render(e)[0] == Render(c)[0];
  }

  /** No readable expression starts with a type name. */
  lemma {:induction false} LeadingWord(e: Expr, tail: string)
    requires Readable(e) && Stops(tail)
    ensures var s := Render(e) + tail; s[..RunLength(s)] !in TYPES
  {
    hide IsPrefix, SepBinding, Full;
    var s := Render(e) + tail;
    match e
    case Reg(n) =>
      FullName(n);
      PlainText(n);
      RunOfWord(n, tail);
      assert s[..|n|] == n;
      if n in TYPES { TypeShape(n); }
    case Lit(t) =>
      RunOfWord(t, tail);
      assert s[..|t|] == t;
    case Paren(x) => NoWord(s);
    case Un(op, x) =>
      PrefixHead(op, Render(x));
      assert s[0] == op[0];
      NoWord(s);
    case Bin(l, sep, r) =>
      SepShape(sep);
      assert s == Render(l) + (sep + Render(r) + tail);
      LeadingWord(l, sep + Render(r) + tail);
    case Cond(c, a, b) =>
      assert s == Render(c) + (" ? " + Render(a) + " : " + Render(b) + tail);
      LeadingWord(c, " ? " + Render(a) + " : " + Render(b) + tail);
  }

  lemma {:induction false} NoWord(s: string)
    requires s != [] && !WordChar(s[0])
    ensures s[..RunLength(s)] !in TYPES
  {
    assert s[..RunLength(s)] == [];
    if [] in TYPES { TypeShape([]); }
  }

  // ------------------------------------------------------------------ round trip

  lemma {:induction false} ReadsWord(w: string, rest: string)
    requires IsWord(w) && Stops(rest)
    ensures ReadOperand(w + rest) == Some(Found(if Full(w) then Reg(w) else Lit(w), rest))
  {
    hide Full;
    var s := w + rest;
    assert WordChar(w[0]) && s[0] == w[0];
    RunOfWord(w, rest);
    assert s[..|w|] == w && s[|w|..] == rest;
  }

  /** An operand is read back, and nothing behind it. */
  lemma {:induction false} ReadsOperand(e: Expr, rest: string)
    requires Readable(e) && LevelOf(e) == TIGHT && Stops(rest)
    ensures ReadOperand(Render(e) + rest) == Some(Found(e, rest))
    decreases e, 0
  {
    hide IsPrefix, Full, PrefixAt, SepBinding, ReadOperand, ReadCond, RunLength, IsWord;
    var s := Render(e) + rest;
    match e
    case Reg(n) =>
      FullName(n);
      PlainText(n);
      ReadsWord(n, rest);
    case Lit(t) => ReadsWord(t, rest);
    case Paren(x) =>
      assert s == "(" + (Render(x) + (")" + rest));
      ReadsCond(x, ")" + rest);
      LeadingWord(x, ")" + rest);
      ReadsParen(s, Render(x) + (")" + rest), x, rest);
    case Un(op, x) =>
      assert s == op + (Render(x) + rest);
      PrefixHead(op, Render(x) + rest);
      ReadsOperand(x, rest);
      ReadsPrefixed(op, Render(x) + rest, x, rest);
    case Bin(_, sep, _) => SepShape(sep);
  }

  lemma {:induction false} ReadsPrefixed(op: string, tail: string, x: Expr, rest: string)
    requires op != [] && PrefixAt(op + tail) == op && ReadOperand(tail) == Some(Found(x, rest))
    ensures ReadOperand(op + tail) == Some(Found(Un(op, x), rest))
  {
    hide PrefixAt;
    assert (op + tail)[|op|..] == tail;
  }

  lemma {:induction false} ReadsParen(s: string, inner: string, x: Expr, rest: string)
    requires s == "(" + inner && inner[..RunLength(inner)] !in TYPES
    requires ReadCond(inner) == Some(Found(x, ")" + rest))
    ensures ReadOperand(s) == Some(Found(Paren(x), rest))
  {
    hide PrefixAt, ReadCond;
    assert s[0] == '(' && s[1..] == inner;
    ParenIsNoCast(s);
    assert (")" + rest)[1..] == rest;
  }

  lemma {:induction false} ParenIsNoCast(s: string)
    requires s != [] && s[0] == '(' && s[1..][..RunLength(s[1..])] !in TYPES
    ensures PrefixAt(s) == []
  {
  }

  /** Reading an expression at the head of a text is reading on with that expression at hand. */
  lemma {:induction false} ReadsBinary(e: Expr, rest: string, min: nat)
    requires Readable(e) && 0 < min <= LevelOf(e) && Stops(rest) && SepBinding(SepAt(rest)) <= LevelOf(e)
    ensures ReadBinary(Render(e) + rest, min) == ReadMore(e, rest, min)
    decreases e, 1
  {
    hide SepAt, SepBinding, Readable, Render, Stops, ReadMore;
    if LevelOf(e) == TIGHT {
      ReadsOperand(e, rest);
    } else {
      ReadsChain(e, rest, min);
    }
  }

  lemma {:induction false} BinParts(e: Expr, rest: string)
    requires e.Bin? && Readable(e)
    ensures Readable(e.left) && Readable(e.right)
    ensures 0 < SepBinding(e.sep) <= LevelOf(e.left) && SepBinding(e.sep) < LevelOf(e.right)
    ensures
      var tail := Render(e.right) + rest;
      && e.sep != [] && Render(e) + rest == Render(e.left) + (e.sep + tail)
      && Stops(e.sep + tail) && (e.sep + tail)[|e.sep|..] == tail && SepAt(e.sep + tail) == e.sep
  {
    BinShape(e);
    hide SepAt, SepBinding, Readable, Render, LevelOf;
    var tail := Render(e.right) + rest;
    SepShape(e.sep);
    OperandStarts(e.right);
    assert tail[0] == Render(e.right)[0];
    SepHead(e.sep, tail);
    BinText(Render(e.left), e.sep, Render(e.right), rest);
  }

  lemma {:induction false} BinShape(e: Expr)
    requires e.Bin? && Readable(e)
    ensures Readable(e.left) && Readable(e.right)
    ensures 0 < SepBinding(e.sep) <= LevelOf(e.left) && SepBinding(e.sep) < LevelOf(e.right)
    ensures Render(e) == Render(e.left) + e.sep + Render(e.right)
  {
    hide SepBinding;
  }

  lemma {:induction false} BinText(l: string, sep: string, r: string, rest: string)
    requires sep != []
    ensures l + sep + r + rest == l + (sep + (r + rest)) && (sep + (r + rest))[|sep|..] == r + rest
    ensures (sep + (r + rest))[0] == sep[0]
  {
    assert l + sep + r + rest == l + sep + (r + rest);
  }

  lemma {:induction false} ReadsChain(e: Expr, rest: string, min: nat)
    requires e.Bin? && Readable(e) && 0 < min <= LevelOf(e) && Stops(rest) && SepBinding(SepAt(rest)) <= LevelOf(e)
    ensures ReadBinary(Render(e) + rest, min) == ReadMore(e, rest, min)
    decreases e, 0
  {
    hide SepAt, SepBinding, Render, Stops, Readable, ReadBinary, ReadMore;
    var l, sep, r := e.left, e.sep, e.right;
    var p, tail := SepBinding(sep), Render(r) + rest;
    BinParts(e, rest);
    ReadsBinary(l, sep + tail, min);
    ReadsBinary(r, rest, p + 1);
    MoreStops(r, rest, p + 1);
    MoreGoesOn(l, sep, tail, min, r, rest);
  }

  lemma {:induction false} MoreStops(e: Expr, rest: string, min: nat)
    requires 0 < min && SepBinding(SepAt(rest)) < min
    ensures ReadMore(e, rest, min) == Some(Found(e, rest))
  {
    hide SepAt, SepBinding;
  }

  lemma {:induction false} MoreGoesOn(l: Expr, sep: string, tail: string, min: nat, r: Expr, rest: string)
    requires sep != [] && SepAt(sep + tail) == sep && 0 < min <= SepBinding(sep) && (sep + tail)[|sep|..] == tail
    requires ReadBinary(tail, SepBinding(sep) + 1) == Some(Found(r, rest))
    ensures ReadMore(l, sep + tail, min) == ReadMore(Bin(l, sep, r), rest, min)
  {
    hide SepAt, SepBinding, ReadBinary;
  }

  /** A whole expression is read back. */
  lemma {:induction false} ReadsWhole(e: Expr, rest: string)
    requires Readable(e) && LevelOf(e) > 0 && EndsExpr(rest)
    ensures ReadBinary(Render(e) + rest, 1) == Some(Found(e, rest))
    decreases e, 2
  {
    hide SepAt, SepBinding, Render, Readable, EndsExpr, ReadBinary, ReadMore;
    NoSep(rest);
    ReadsBinary(e, rest, 1);
    MoreStops(e, rest, 1);
  }

  lemma {:induction false} CondParts(e: Expr, rest: string)
    requires e.Cond? && Readable(e)
    ensures Readable(e.test) && Readable(e.yes) && Readable(e.no)
    ensures LevelOf(e.test) > 0 && LevelOf(e.yes) > 0 && LevelOf(e.no) > 0
    ensures
      var r1 := " : " + (Render(e.no) + rest);
      var r2 := " ? " + (Render(e.yes) + r1);
      && Render(e) + rest == Render(e.test) + r2 && EndsExpr(r1) && EndsExpr(r2)
      && r2[3..] == Render(e.yes) + r1 && r1[3..] == Render(e.no) + rest && " ? " <= r2 && " : " <= r1
  {
    CondShape(e);
    hide SepBinding, EndsExpr, Readable, Render, LevelOf;
    CondText(Render(e.test), Render(e.yes), Render(e.no), rest);
  }

  lemma {:induction false} CondShape(e: Expr)
    requires e.Cond? && Readable(e)
    ensures Readable(e.test) && Readable(e.yes) && Readable(e.no)
    ensures LevelOf(e.test) > 0 && LevelOf(e.yes) > 0 && LevelOf(e.no) > 0
    ensures Render(e) == Render(e.test) + " ? " + Render(e.yes) + " : " + Render(e.no)
  {
    hide SepBinding;
  }

  lemma {:induction false} CondText(c: string, a: string, b: string, rest: string)
    ensures
      var r1 := " : " + (b + rest);
      var r2 := " ? " + (a + r1);
      && c + " ? " + a + " : " + b + rest == c + r2 && EndsExpr(r1) && EndsExpr(r2)
      && r2[3..] == a + r1 && r1[3..] == b + rest && " ? " <= r2 && " : " <= r1
  {
    var r1 := " : " + (b + rest);
    var r2 := " ? " + (a + r1);
    assert c + " ? " + a + " : " + b + rest == c + " ? " + a + (" : " + (b + rest));
    assert c + " ? " + a + r1 == c + (" ? " + (a + r1));
    assert r1[..3] == " : " && r2[..3] == " ? ";
  }

  lemma {:induction false} ReadsCond(e: Expr, rest: string)
    requires Readable(e) && (rest == [] || rest[0] == ')')
    ensures ReadCond(Render(e) + rest) == Some(Found(e, rest))
    decreases e, 3
  {
    hide Render, ReadBinary, Readable, LevelOf;
    assert EndsExpr(rest) && !(" ? " <= rest);
    if e.Cond? {
      hide EndsExpr;
      CondParts(e, rest);
      var r1 := " : " + (Render(e.no) + rest);
      var r2 := " ? " + (Render(e.yes) + r1);
      ReadsWhole(e.test, r2);
      ReadsWhole(e.yes, r1);
      ReadsWhole(e.no, rest);
      Assembled(Render(e.test) + r2, e, r1, r2, rest);
    } else {
      LevelIsPositive(e);
      ReadsWhole(e, rest);
    }
  }

  lemma {:induction false} Assembled(s: string, e: Expr, r1: string, r2: string, rest: string)
    requires e.Cond? && " ? " <= r2 && " : " <= r1
    requires ReadBinary(s, 1) == Some(Found(e.test, r2))
    requires ReadBinary(r2[3..], 1) == Some(Found(e.yes, r1)) && ReadBinary(r1[3..], 1) == Some(Found(e.no, rest))
    ensures ReadCond(s) == Some(Found(e, rest))
  {
    hide ReadBinary;
  }

  lemma {:induction false} LevelIsPositive(e: Expr)
    requires Readable(e) && !e.Cond?
    ensures LevelOf(e) > 0
  {
  }

  /** A readable tree is what its text reads as. */
  lemma {:induction false} ReadRender(e: Expr)
    requires Readable(e)
    ensures ReadExpr(Render(e)) == Some(e)
  {
    hide ReadCond, Render, Readable;
    ReadsCond(e, []);
    assert Render(e) + [] == Render(e);
  }

  /** So printing loses nothing. */
  lemma {:induction false} RenderInjective(a: Expr, b: Expr)
    requires Readable(a) && Readable(b) && Render(a) == Render(b)
    ensures a == b
  {
    hide Render, Readable, ReadExpr;
    ReadRender(a);
    ReadRender(b);
  }

  /** rax * 2 with rcx + 1 for rax: without the parentheses the text would stand for rcx + (1 * 2). */
  lemma {:induction false} ParensNeeded()
    ensures
      var sum, product := Bin(Reg("rcx"), " + ", Lit("1")), Bin(Lit("1"), " * ", Lit("2"));
      && Render(Bin(sum, " * ", Lit("2"))) == Render(Bin(Reg("rcx"), " + ", product))
      && Readable(Bin(Reg("rcx"), " + ", product)) && !Readable(Bin(sum, " * ", Lit("2")))
      && Put(Bin(Reg("rax"), " * ", Lit("2")), "rax", sum) == Bin(Paren(sum), " * ", Lit("2"))
      && Readable(Bin(Paren(sum), " * ", Lit("2")))
  {
    var sum, product := Bin(Reg("rcx"), " + ", Lit("1")), Bin(Lit("1"), " * ", Lit("2"));
    assert " + "[1..2] == "+" && " * "[1..2] == "*";
    assert SepBinding(" + ") == 9 && SepBinding(" * ") == 10;
    assert Render(sum) == "rcx + 1" && Render(product) == "1 * 2";
    assert Render(Bin(sum, " * ", Lit("2"))) == "rcx + 1 * 2" == Render(Bin(Reg("rcx"), " + ", product));
    DigitLit('1');
    DigitLit('2');
    assert FULL[2] == "rcx";
    hide SepBinding, Full, IsWord;
    assert Readable(sum) && Readable(product);
  }

  lemma {:induction false} TypeLength(t: string)
    requires t in TYPES
    ensures |t| > 1
  {
  }

  lemma {:induction false} DigitLit(d: char)
    requires '0' <= d <= '9'
    ensures Readable(Lit([d]))
  {
    if Full([d]) { FullName([d]); }
    if [d] in TYPES { TypeLength([d]); }
  }
}
