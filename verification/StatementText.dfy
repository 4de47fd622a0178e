/** Reading the text of one lifted statement: where it assigns, and which part may be rewritten. */
module StatementText {
  import opened Common
  import opened Substitution
  import Text

  // ------------------------------------------------------------- str helpers

  predicate Space(c: char) { c == ' ' || c == '\t' || c == '\n' || c == '\r' }

  function TrimStart(s: string): (r: string)
    ensures |r| <= |s|
  {
    if s != [] && Space(s[0]) then TrimStart(s[1..]) else s
  }

  function TrimEnd(s: string): (r: string)
    ensures |r| <= |s|
  {
    if s != [] && Space(s[|s| - 1]) then TrimEnd(s[..|s| - 1]) else s
  }

  function Trim(s: string): string { TrimEnd(TrimStart(s)) }

  function TrimSemicolons(s: string): string {
    if s != [] && s[|s| - 1] == ';' then TrimSemicolons(s[..|s| - 1]) else s
  }

  /** rfind of a character. */
  function LastIndex(s: string, c: char): (r: Option<nat>)
    ensures r.Some? ==> r.value < |s|
  {
    if s == [] then None
    else if s[|s| - 1] == c then Some(|s| - 1)
    else LastIndex(s[..|s| - 1], c)
  }

  /** find of a substring. */
  function FirstIndex(s: string, t: string, i: nat): (r: Option<nat>)
    ensures r.Some? ==> i <= r.value && r.value + |t| <= |s|
    decreases |s| - i
  {
    if i + |t| > |s| then None
    else if s[i..i + |t|] == t then Some(i)
    else FirstIndex(s, t, i + 1)
  }

  // ------------------------------------------------------- top-level assignment

  /** The `=` of an assignment operator: outside parentheses and not part of a comparison. */
  function AssignFrom(s: string, i: nat, depth: int): (r: Option<nat>)
    ensures r.Some? ==> i <= r.value < |s|
    decreases |s| - i
  {
    if i >= |s| then None
    else if s[i] == '(' then AssignFrom(s, i + 1, depth + 1)
    else if s[i] == ')' then AssignFrom(s, i + 1, depth - 1)
    else if s[i] == '=' && depth == 0
      && !(i + 1 < |s| && s[i + 1] == '=')
      && !(i > 0 && s[i - 1] in ['=', '!', '<', '>'])
    then Some(i)
    else AssignFrom(s, i + 1, depth)
  }

  function FindTopLevelAssign(s: string): (r: Option<nat>)
    ensures r.Some? ==> r.value < |s|
  {
    AssignFrom(s, 0, 0)
  }

  function SkipSpaces(s: string, i: nat): (r: nat)
    requires i <= |s|
    ensures i <= r <= |s|
    decreases |s| - i
  {
    if i < |s| && s[i] == ' ' then SkipSpaces(s, i + 1) else i
  }

  /** (start, end) of the rewritable body inside the text. */
  function BodyRange(text: string): (r: (nat, nat))
    ensures r.0 <= r.1 <= |text|
  {
    var assign := FindTopLevelAssign(text);
    var start := if assign.Some? then SkipSpaces(text, assign.value + 1) else 0;
    var semi := LastIndex(text[start..], ';');
    if assign.Some? && semi.Some? then (start, start + semi.value)
    else if "return " <= text && LastIndex(text[|"return "|..], ';').Some?
        then (|"return "|, |"return "| + LastIndex(text[|"return "|..], ';').value)
    else if "if (" <= text && FirstIndex(text, ") goto ", |"if ("|).Some?
        then (|"if ("|, FirstIndex(text, ") goto ", |"if ("|).value)
    else (0, |text|)
  }

  // ------------------------------------------------------------ parsed writes

  datatype Assignment = Assignment(lhs: string, op: string, rhs: string)

  predicate LhsChar(c: char) {
    WordChar(c) || c in ['*', '(', ')', '[', ']', ' ']
  }

  function ParseSimpleAssign(text: string): Option<Assignment> {
    var t := Trim(TrimSemicolons(Trim(text)));
    match FindTopLevelAssign(t)
    case None => None
    case Some(eq) =>
      var raw, rhs := Trim(t[..eq]), Trim(t[eq + 1..]);
      if raw == [] then None
      else
        var last := raw[|raw| - 1];
        var compound := last in ['+', '-', '&', '|', '^'];
        var lhs := if compound then Trim(raw[..|raw| - 1]) else raw;
        if lhs == [] || exists i :: 0 <= i < |lhs| && !LhsChar(lhs[i]) then None
        else Some(Assignment(lhs, if compound then [last, '='] else "=", rhs))
  }

  /** First `(` outside parentheses, which must follow a callable name. */
  function CallParen(s: string, i: nat, depth: int): bool
    decreases |s| - i
  {
    if i >= |s| then false
    else if s[i] == '(' && depth == 0 then i > 0 && WordChar(s[i - 1])
    else CallParen(s, i + 1, if s[i] == '(' then depth + 1 else if s[i] == ')' then depth - 1 else depth)
  }

  function CallRhs(text: string): Option<string> {
    match FindTopLevelAssign(text)
    case None => None
    case Some(eq) => Some(Trim(TrimSemicolons(text[eq + 1..])))
  }

  predicate IsCallText(text: string) {
    match CallRhs(text)
    case None => false
    case Some(rhs) => rhs != [] && rhs[|rhs| - 1] == ')' && CallParen(rhs, 0, 0)
  }

  // ---------------------------------------------------------------- registers

  const LEGACY: seq<string> := ["rax", "rbx", "rcx", "rdx", "rsi", "rdi", "rsp", "rbp"]
  const NUMBERED: seq<string> := ["r8", "r9", "r10", "r11", "r12", "r13", "r14", "r15"]
  const FULL: seq<string> := LEGACY + NUMBERED

  function LegacyAliases(canon: string): seq<string> {
    if canon == "rax" then ["rax", "eax", "ax", "al", "ah"]
    else if canon == "rbx" then ["rbx", "ebx", "bx", "bl", "bh"]
    else if canon == "rcx" then ["rcx", "ecx", "cx", "cl", "ch"]
    else if canon == "rdx" then ["rdx", "edx", "dx", "dl", "dh"]
    else if canon == "rsi" then ["rsi", "esi", "si", "sil"]
    else if canon == "rdi" then ["rdi", "edi", "di", "dil"]
    else if canon == "rsp" then ["rsp", "esp", "sp", "spl"]
    else if canon == "rbp" then ["rbp", "ebp", "bp", "bpl"]
    else []
  }

  /** The names that share a 64-bit register, led by its full name; empty for other storages. */
  function RegisterAliases(canon: string): seq<string> {
    if canon in NUMBERED then [canon, canon + "d", canon + "w", canon + "b"] else LegacyAliases(canon)
  }

  function CanonicalFrom(name: string, i: nat): Option<string>
    requires i <= |FULL|
    decreases |FULL| - i
  {
    if i == |FULL| then None
    else if name in RegisterAliases(FULL[i]) then Some(FULL[i])
    else CanonicalFrom(name, i + 1)
  }

  function CanonicalStorage(name: string): string {
    var lower := Text.Lower(Trim(name));
    match CanonicalFrom(lower, 0) case Some(c) => c case None => lower
  }

  const NARROW: seq<string> := [
    "ax", "bx", "cx", "dx", "si", "di", "sp", "bp",
    "r8w", "r9w", "r10w", "r11w", "r12w", "r13w", "r14w", "r15w",
    "al", "bl", "cl", "dl", "sil", "dil", "spl", "bpl",
    "r8b", "r9b", "r10b", "r11b", "r12b", "r13b", "r14b", "r15b",
    "ah", "bh", "ch", "dh"]

  predicate IsNarrow(name: string) { Text.Lower(Trim(name)) in NARROW }

  const CALLER_SAVED: seq<string> := ["rax", "rcx", "rdx", "r8", "r9", "r10", "r11"]

  /** What tells a full name from every narrower alias. */
  predicate FullShape(s: string) {
    s != [] && s[0] == 'r' && s[|s| - 1] !in ['d', 'w', 'b']
  }

  predicate Full(n: string) { n in FULL }

  predicate PlainChar(c: char) { 'a' <= c <= 'z' || '0' <= c <= '9' }

  predicate Plain(s: string) { s != [] && forall i :: 0 <= i < |s| ==> PlainChar(s[i]) }

  lemma {:induction false} LegacyRows(c: string)
    requires c in LEGACY
    ensures Plain(c) && FullShape(c) && c !in NUMBERED
    ensures LegacyAliases(c) != [] && LegacyAliases(c)[0] == c
  {
    hide LegacyAliases;
    LegacyRow(c);
    assert c == ['r', c[1], c[2]];
    if c in NUMBERED { NumberedShape(c); }
  }

  lemma {:induction false} NumberedNames(c: string)
    requires c in NUMBERED
    ensures Plain(c) && FullShape(c)
  {
  }

  lemma {:induction false} LegacyMinors(c: string, k: nat)
    requires c in LEGACY && 0 < k < |LegacyAliases(c)|
    ensures Plain(LegacyAliases(c)[k]) && !FullShape(LegacyAliases(c)[k])
  {
    hide Plain, FullShape;
    LegacyRow(c);
    if c[2] == 'x' { LetterMinors(c[1], k); } else { PointerMinors(c[1], c[2], k); }
  }

  /** The two kinds of rows: lettered registers, and pointers and indexes. */
  function LetterRow(a: char): seq<string> { [['r', a, 'x'], ['e', a, 'x'], [a, 'x'], [a, 'l'], [a, 'h']] }

  function PointerRow(a: char, b: char): seq<string> { [['r', a, b], ['e', a, b], [a, b], [a, b, 'l']] }

  lemma {:induction false} LegacyRow(c: string)
    requires c in LEGACY
    ensures |c| == 3 && c[0] == 'r'
    ensures c[2] == 'x' ==> c[1] in ['a', 'b', 'c', 'd'] && LegacyAliases(c) == LetterRow(c[1])
    ensures c[2] != 'x' ==> c[1] in ['s', 'd', 'b'] && c[2] in ['i', 'p'] && LegacyAliases(c) == PointerRow(c[1], c[2])
  {
  }

  lemma {:induction false} LetterMinors(a: char, k: nat)
    requires a in ['a', 'b', 'c', 'd'] && 0 < k < 5
    ensures Plain(LetterRow(a)[k]) && !FullShape(LetterRow(a)[k])
  {
  }

  lemma {:induction false} PointerMinors(a: char, b: char, k: nat)
    requires a in ['s', 'd', 'b'] && b in ['i', 'p'] && 0 < k < 4
    ensures Plain(PointerRow(a, b)[k]) && !FullShape(PointerRow(a, b)[k])
  {
  }

  lemma {:induction false} NarrowNames(n: string)
    requires n in NARROW
    ensures !FullShape(n)
  {
  }

  /** Full names lead their rows; every other alias is a plain word that is not a full name. */
  lemma {:induction false} AliasRow(c: string, k: nat)
    requires Full(c) && k < |RegisterAliases(c)|
    ensures RegisterAliases(c)[0] == c && Plain(RegisterAliases(c)[k])
    ensures k > 0 ==> !FullShape(RegisterAliases(c)[k])
  {
    hide LegacyAliases;
    if c in LEGACY {
      LegacyRows(c);
      if k > 0 { LegacyMinors(c, k); }
    } else {
      assert c in NUMBERED;
      NumberedNames(c);
    }
  }

  lemma {:induction false} FullName(c: string)
    requires Full(c)
    ensures Plain(c) && FullShape(c) && RegisterAliases(c) != []
  {
    hide LegacyAliases;
    if c in LEGACY { LegacyRows(c); } else { NumberedNames(c); }
  }

  /** A full name is in exactly its own row. */
  lemma {:induction false} OwnRow(n: string, c: string)
    requires Full(n) && Full(c)
    ensures n in RegisterAliases(c) <==> n == c
  {
    hide LegacyAliases, FullShape, Plain, Full, RegisterAliases;
    FullName(n);
    FullName(c);
    AliasRow(c, 0);
    if n in RegisterAliases(c) {
      var k :| 0 <= k < |RegisterAliases(c)| && RegisterAliases(c)[k] == n;
      AliasRow(c, k);
    }
  }

  function NumberedBase(name: string): string {
    if name != [] && name[|name| - 1] in ['d', 'w', 'b'] then name[..|name| - 1] else name
  }

  /** A legacy name without its width prefix: `ax`, `al` and `ah` of `rax`, `si` and `sil` of `rsi`. */
  function LegacyCore(name: string): string {
    if |name| == 3 && name[0] in ['r', 'e'] then name[1..] else name
  }

  /** The register that a name belongs to: a numbered one by its number, a legacy one by two letters. */
  function Family(name: string): string {
    if |name| >= 2 && name[0] == 'r' && '0' <= name[1] <= '9' then NumberedBase(name)
    else
      var core := LegacyCore(name);
      if |core| < 2 then []
      else ['r', core[0], if core[1] in ['i', 'p'] then core[1] else 'x']
  }

  lemma {:induction false} LetterFamily(a: char, k: nat)
    requires a in ['a', 'b', 'c', 'd'] && k < 5
    ensures Family(LetterRow(a)[k]) == ['r', a, 'x']
  {
  }

  lemma {:induction false} PointerFamily(a: char, b: char, k: nat)
    requires a in ['s', 'd', 'b'] && b in ['i', 'p'] && k < 4
    ensures Family(PointerRow(a, b)[k]) == ['r', a, b]
  {
  }

  lemma {:induction false} LegacyFamily(c: string, k: nat)
    requires c in LEGACY && k < |LegacyAliases(c)|
    ensures Family(LegacyAliases(c)[k]) == c
  {
    hide Family, LegacyAliases;
    LegacyRow(c);
    if c[2] == 'x' { LetterFamily(c[1], k); } else { PointerFamily(c[1], c[2], k); }
  }

  lemma {:induction false} NumberedShape(c: string)
    requires c in NUMBERED
    ensures |c| >= 2 && c[0] == 'r' && '0' <= c[1] <= '9' && '0' <= c[|c| - 1] <= '9'
  {
  }

  lemma {:induction false} NumberedFamily(c: string, k: nat)
    requires c in NUMBERED && k < 4
    ensures Family([c, c + "d", c + "w", c + "b"][k]) == c
  {
    NumberedShape(c);
    var n := [c, c + "d", c + "w", c + "b"][k];
    if k > 0 { assert n[..|n| - 1] == c; }
  }

  /** No name is shared by two registers. */
  lemma {:induction false} FamilyOf(c: string, name: string)
    requires Full(c) && name in RegisterAliases(c)
    ensures Family(name) == c
  {
    hide Family, LegacyAliases;
    var k :| 0 <= k < |RegisterAliases(c)| && RegisterAliases(c)[k] == name;
    if c in NUMBERED {
      NumberedFamily(c, k);
    } else {
      LegacyFamily(c, k);
    }
  }

  lemma {:induction false} PlainText(s: string)
    requires Plain(s)
    ensures IsWord(s) && Text.Lower(s) == s && Trim(s) == s
  {
    assert !Space(s[0]) && !Space(s[|s| - 1]);
  }

  lemma {:induction false} CanonicalFull(n: string, i: nat)
    requires i <= |FULL| && n in FULL[i..]
    ensures CanonicalFrom(n, i) == Some(n)
    decreases |FULL| - i
  {
    hide RegisterAliases;
    assert Full(n);
    assert Full(FULL[i]);
    OwnRow(n, FULL[i]);
    if n != FULL[i] {
      assert FULL[i..][1..] == FULL[i + 1..];
      CanonicalFull(n, i + 1);
    }
  }

  lemma {:induction false} FullStorage(n: string)
    requires Full(n)
    ensures CanonicalStorage(n) == n && !IsNarrow(n)
  {
    FullName(n);
    PlainText(n);
    assert FULL[0..] == FULL;
    CanonicalFull(n, 0);
    hide CanonicalFrom, FullShape;
    if n in NARROW { NarrowNames(n); }
  }

  lemma {:induction false} CanonicalAlias(name: string, c: string, i: nat)
    requires i <= |FULL| && c in FULL[i..] && name in RegisterAliases(c)
    ensures CanonicalFrom(name, i) == Some(c)
    decreases |FULL| - i
  {
    hide RegisterAliases, Family;
    assert Full(c) && Full(FULL[i]);
    FamilyOf(c, name);
    if name in RegisterAliases(FULL[i]) {
      FamilyOf(FULL[i], name);
    } else {
      assert FULL[i..][1..] == FULL[i + 1..];
      CanonicalAlias(name, c, i + 1);
    }
  }

  /** Every alias is stored under its register. */
  lemma {:induction false} AliasStorage(c: string, name: string)
    requires Full(c) && name in RegisterAliases(c)
    ensures CanonicalStorage(name) == c
  {
    hide CanonicalFrom, RegisterAliases, FullShape;
    var k :| 0 <= k < |RegisterAliases(c)| && RegisterAliases(c)[k] == name;
    AliasRow(c, k);
    PlainText(name);
    assert FULL[0..] == FULL;
    CanonicalAlias(name, c, 0);
  }

  lemma {:induction false} LegacyNarrow(j: nat)
    requires j < 8
    ensures
      var row := LegacyAliases(LEGACY[j]);
      && |row| == (if j < 4 then 5 else 4)
      && row[2] == NARROW[j] && row[3] == NARROW[16 + j] && (j < 4 ==> row[4] == NARROW[32 + j])
  {
    if j < 4 {
      assert LEGACY[j] == ["rax", "rbx", "rcx", "rdx"][j];
    } else {
      assert LEGACY[j] == ["rsi", "rdi", "rsp", "rbp"][j - 4];
    }
  }

  lemma {:induction false} NumberedNarrow(j: nat)
    requires j < 8
    ensures NUMBERED[j] + "w" == NARROW[8 + j] && NUMBERED[j] + "b" == NARROW[24 + j]
  {
  }

  /** How the narrow names look. */
  lemma {:induction false} NarrowShape(n: string)
    requires n in NARROW
    ensures (|n| == 2 && n[0] != 'r') || (|n| >= 3 && n[|n| - 1] in ['l', 'w', 'b'])
  {
  }

  lemma {:induction false} WideAliases(c: string, k: nat)
    requires Full(c) && k < 2 && k < |RegisterAliases(c)|
    ensures RegisterAliases(c)[k] !in NARROW
  {
    hide LegacyAliases;
    var n := RegisterAliases(c)[k];
    if c in NUMBERED { NumberedShape(c); } else { LegacyRow(c); }
    if n in NARROW { NarrowShape(n); }
  }

  /** The 16 and 8 bit aliases of a register are narrow, the 64 and 32 bit ones are not. */
  lemma {:induction false} NarrowExactly(c: string, k: nat)
    requires Full(c) && k < |RegisterAliases(c)|
    ensures RegisterAliases(c)[k] in NARROW <==> k >= 2
  {
    hide LegacyAliases;
    if k < 2 {
      WideAliases(c, k);
    } else if c in NUMBERED {
      var j :| 0 <= j < 8 && NUMBERED[j] == c;
      NumberedNarrow(j);
    } else {
      assert c in LEGACY;
      var j :| 0 <= j < 8 && LEGACY[j] == c;
      LegacyNarrow(j);
    }
  }

  // ------------------------------------------------ the two printed statement forms

  function AssignText(reg: string, body: string): string { reg + " = " + body + ";" }

  function ReturnText(body: string): string { "return " + body + ";" }

  /** Body text that trimming leaves alone. */
  predicate Clean(s: string) {
    s != [] && !Space(s[0]) && !Space(s[|s| - 1]) && s[|s| - 1] != ';'
  }

  predicate Quiet(c: char) { c != '(' && c != ')' && c != '=' }

  lemma {:induction false} ScanQuiet(s: string, i: nat, k: nat)
    requires i <= k <= |s| && forall j :: i <= j < k ==> Quiet(s[j])
    ensures AssignFrom(s, i, 0) == AssignFrom(s, k, 0)
    decreases k - i
  {
    if i < k { ScanQuiet(s, i + 1, k); }
  }

  // ----------------------------------------------------------------- parentheses

  function Turn(c: char): int { if c == '(' then 1 else if c == ')' then -1 else 0 }

  function Net(s: string): int { if s == [] then 0 else Turn(s[0]) + Net(s[1..]) }

  /** Read from depth `d`, the text never closes more than is open. */
  predicate Nonneg(s: string, d: int) {
    s != [] ==> d + Turn(s[0]) >= 0 && Nonneg(s[1..], d + Turn(s[0]))
  }

  /** Balanced parentheses. */
  predicate Level(s: string) { Nonneg(s, 0) && Net(s) == 0 }

  /** Read from depth `d`, every `=` stands inside parentheses. */
  predicate Sheltered(s: string, d: int) {
    s != [] ==>
      && d + Turn(s[0]) >= 0
      && (s[0] == '=' ==> d > 0)
      && Sheltered(s[1..], d + Turn(s[0]))
  }

  lemma {:induction false} NetConcat(a: string, b: string)
    ensures Net(a + b) == Net(a) + Net(b)
  {
    if a == [] {
      assert a + b == b;
    } else {
      assert (a + b)[1..] == a[1..] + b;
      NetConcat(a[1..], b);
    }
  }

  lemma {:induction false} NonnegConcat(a: string, b: string, d: int)
    requires Nonneg(a, d) && Nonneg(b, d + Net(a))
    ensures Nonneg(a + b, d)
  {
    if a == [] {
      assert a + b == b;
    } else {
      assert (a + b)[1..] == a[1..] + b;
      NonnegConcat(a[1..], b, d + Turn(a[0]));
    }
  }

  lemma {:induction false} NonnegDeeper(s: string, d: int, e: int)
    requires Nonneg(s, d) && d <= e
    ensures Nonneg(s, e)
  {
    if s != [] { NonnegDeeper(s[1..], d + Turn(s[0]), e + Turn(s[0])); }
  }

  lemma {:induction false} LevelConcat(a: string, b: string)
    requires Level(a) && Level(b)
    ensures Level(a + b)
  {
    NetConcat(a, b);
    NonnegConcat(a, b, 0);
  }

  lemma {:induction false} LevelParen(s: string)
    requires Level(s)
    ensures Level("(" + s + ")")
  {
    hide Nonneg, Net;
    var t := "(" + s;
    assert Net("(") == 1 && Net(")") == -1 && Nonneg("(", 0) && Nonneg(")", 1) by { OneParen(); }
    NetConcat("(", s);
    NetConcat(t, ")");
    NonnegDeeper(s, 0, 1);
    NonnegConcat("(", s, 0);
    NonnegConcat(t, ")", 0);
  }

  lemma {:induction false} OneParen()
    ensures Net("(") == 1 && Net(")") == -1 && Nonneg("(", 0) && Nonneg(")", 1)
  {
    assert "("[1..] == [] && ")"[1..] == [];
  }

  /** Text without parentheses. */
  lemma {:induction false} FlatLevel(s: string)
    requires forall i :: 0 <= i < |s| ==> s[i] != '(' && s[i] != ')'
    ensures Level(s)
  {
    if s != [] { FlatLevel(s[1..]); }
  }

  lemma {:induction false} ShelteredConcat(a: string, b: string, d: int)
    ensures Sheltered(a + b, d) <==> Sheltered(a, d) && Sheltered(b, d + Net(a))
  {
    if a == [] {
      assert a + b == b;
    } else {
      assert (a + b)[1..] == a[1..] + b;
      ShelteredConcat(a[1..], b, d + Turn(a[0]));
    }
  }

  lemma {:induction false} ShelteredDepth(s: string, d: int)
    requires Sheltered(s, d) && d >= 0
    ensures d + Net(s) >= 0
  {
    if s != [] { ShelteredDepth(s[1..], d + Turn(s[0])); }
  }

  /** Inside a parenthesis that the text does not close, every `=` is sheltered. */
  lemma {:induction false} DeepIsSheltered(s: string, d: int)
    requires d >= 1 && Nonneg(s, d - 1)
    ensures Sheltered(s, d)
  {
    if s != [] { DeepIsSheltered(s[1..], d + Turn(s[0])); }
  }

  lemma {:induction false} ParenIsSheltered(s: string, d: nat)
    requires Level(s)
    ensures Sheltered("(" + s + ")", d) && Net("(" + s + ")") == 0
  {
    hide Nonneg, Net, Sheltered;
    var t := "(" + s;
    OneParen();
    assert Sheltered("(", d) && Sheltered(")", d + 1) by { OneSheltered(d); }
    NetConcat("(", s);
    NetConcat(t, ")");
    NonnegDeeper(s, 0, d);
    DeepIsSheltered(s, d + 1);
    ShelteredConcat("(", s, d);
    ShelteredConcat(t, ")", d);
  }

  lemma {:induction false} OneSheltered(d: nat)
    ensures Sheltered("(", d) && Sheltered(")", d + 1)
  {
    assert "("[1..] == [] && ")"[1..] == [];
  }

  lemma {:induction false} QuietIsSheltered(s: string, d: nat)
    requires forall i :: 0 <= i < |s| ==> Quiet(s[i])
    ensures Sheltered(s, d) && Net(s) == 0
  {
    if s != [] { QuietIsSheltered(s[1..], d); }
  }

  /** Sheltered text holds no assignment. */
  lemma {:induction false} ShelteredHasNone(s: string, i: nat, d: int)
    requires i <= |s| && Sheltered(s[i..], d)
    ensures AssignFrom(s, i, d) == None
    decreases |s| - i
  {
    if i < |s| {
      assert s[i..][1..] == s[i + 1..];
      ShelteredHasNone(s, i + 1, d + Turn(s[i]));
    }
  }

  /** The assignment operator of `reg = ...` is the first one, whatever follows. */
  lemma {:induction false} AssignPosition(reg: string, rest: string)
    requires Plain(reg)
    ensures FindTopLevelAssign(reg + " = " + rest) == Some(|reg| + 1)
  {
    var s := reg + " = " + rest;
    assert forall j :: 0 <= j < |reg| ==> s[j] == reg[j] && PlainChar(reg[j]);
    assert s[|reg|] == ' ' && s[|reg| + 1] == '=' && s[|reg| + 2] == ' ';
    ScanQuiet(s, 0, |reg| + 1);
  }

  lemma {:induction false} SplitAssign(reg: string, body: string)
    requires Plain(reg) && Clean(body)
    ensures BodyRange(AssignText(reg, body)) == (|reg| + 3, |reg| + 3 + |body|)
  {
    var text := AssignText(reg, body);
    assert text == reg + " = " + (body + ";");
    AssignPosition(reg, body + ";");
    var start := |reg| + 3;
    assert text[|reg| + 2] == ' ' && text[start] == body[0];
    assert SkipSpaces(text, |reg| + 2) == start;
    assert text[start..] == body + ";";
  }

  /** A returned value: one word, or one parenthesised expression. */
  predicate Returnable(body: string) {
    IsWord(body) || (|body| >= 2 && body[0] == '(' && body[|body| - 1] == ')' && Level(body[1..|body| - 1]))
  }

  lemma {:induction false} ReturnSheltered(body: string)
    requires Returnable(body)
    ensures Sheltered("return " + body, 0) && Sheltered(ReturnText(body), 0)
  {
    hide Sheltered, Net, Level;
    var head := "return ";
    QuietIsSheltered(head, 0);
    if IsWord(body) {
      forall i | 0 <= i < |body| ensures Quiet(body[i]) { assert WordChar(body[i]); }
      QuietIsSheltered(body, 0);
    } else {
      var x := body[1..|body| - 1];
      assert body == "(" + x + ")";
      ParenIsSheltered(x, 0);
    }
    QuietIsSheltered(";", 0);
    ShelteredConcat(head, body, 0);
    NetConcat(head, body);
    ShelteredConcat(head + body, ";", 0);
  }

  lemma {:induction false} ReturnNoAssign(body: string)
    requires Returnable(body)
    ensures FindTopLevelAssign(ReturnText(body)) == None && FindTopLevelAssign("return " + body) == None
  {
    ReturnSheltered(body);
    var text, t := ReturnText(body), "return " + body;
    assert text[0..] == text && t[0..] == t;
    ShelteredHasNone(text, 0, 0);
    ShelteredHasNone(t, 0, 0);
  }

  lemma {:induction false} SplitReturn(body: string)
    requires Returnable(body)
    ensures BodyRange(ReturnText(body)) == (7, 7 + |body|)
  {
    ReturnNoAssign(body);
    hide FindTopLevelAssign;
    assert ReturnText(body)[7..] == body + ";";
  }

  lemma {:induction false} TrimSame(s: string)
    requires s != [] && !Space(s[0]) && !Space(s[|s| - 1])
    ensures Trim(s) == s
  {
  }

  lemma {:induction false} TrimPadded(s: string)
    requires s != [] && !Space(s[0]) && !Space(s[|s| - 1])
    ensures Trim(s + " ") == s && Trim(" " + s) == s
  {
    var right, left := s + " ", " " + s;
    assert right[0] == s[0] && right[|s|] == ' ' && right[..|s|] == s;
    assert TrimStart(right) == right && TrimEnd(right) == TrimEnd(s);
    assert left[0] == ' ' && left[1..] == s;
    assert TrimStart(left) == TrimStart(s);
  }

  lemma {:induction false} StatementTrim(s: string)
    requires s != [] && !Space(s[0]) && !Space(s[|s| - 1]) && s[|s| - 1] != ';'
    ensures Trim(TrimSemicolons(Trim(s + ";"))) == s
  {
    TrimSame(s + ";");
    assert (s + ";")[..|s|] == s;
    TrimSame(s);
  }

  lemma {:induction false} AssignPieces(reg: string, body: string)
    requires Plain(reg) && Clean(body)
    ensures Trim(TrimSemicolons(Trim(AssignText(reg, body)))) == reg + " = " + body
    ensures Trim((reg + " = " + body)[..|reg| + 1]) == reg && Trim((reg + " = " + body)[|reg| + 2..]) == body
  {
    var t := reg + " = " + body;
    assert t[0] == reg[0] && t[|t| - 1] == body[|body| - 1] && PlainChar(reg[0]) && PlainChar(reg[|reg| - 1]);
    assert AssignText(reg, body) == t + ";";
    assert t[..|reg| + 1] == reg + " " && t[|reg| + 2..] == " " + body;
    hide Trim, TrimSemicolons;
    StatementTrim(t);
    TrimPadded(reg);
    TrimPadded(body);
  }

  lemma {:induction false} ParseAssign(reg: string, body: string)
    requires Plain(reg) && Clean(body)
    ensures ParseSimpleAssign(AssignText(reg, body)) == Some(Assignment(reg, "=", body))
  {
    assert forall i :: 0 <= i < |reg| ==> PlainChar(reg[i]) && LhsChar(reg[i]);
    assert PlainChar(reg[|reg| - 1]) && reg[|reg| - 1] !in ['+', '-', '&', '|', '^'];
    hide Trim, TrimSemicolons, FindTopLevelAssign, AssignText, Clean, Plain, LhsChar, PlainChar;
    AssignPieces(reg, body);
    AssignPosition(reg, body);
  }

  lemma {:induction false} ParseReturn(body: string)
    requires Returnable(body)
    ensures ParseSimpleAssign(ReturnText(body)) == None && !IsCallText(ReturnText(body))
  {
    ReturnNoAssign(body);
    var t := "return " + body;
    assert t[|t| - 1] == body[|body| - 1] && (WordChar(body[|body| - 1]) || body[|body| - 1] == ')');
    assert ReturnText(body) == t + ";";
    StatementTrim(t);
    hide Trim, TrimSemicolons, FindTopLevelAssign;
  }

  // -------------------------------------------------------------------- comments

  /** A comment line: nothing in it can be taken for a statement. */
  predicate IsComment(t: string) { "/*" <= t && Sheltered(t, 0) }

  lemma {:induction false} CommentNoAssign(t: string)
    requires IsComment(t)
    ensures FindTopLevelAssign(t) == None && BodyRange(t) == (0, |t|)
  {
    assert t[0..] == t;
    ShelteredHasNone(t, 0, 0);
    hide FindTopLevelAssign;
    assert t[0] == '/';
  }

  lemma {:induction false} CommentParts(t: string, u: string)
    requires IsComment(t) && u <= t
    ensures FindTopLevelAssign(u) == None
  {
    hide FindTopLevelAssign, Sheltered, Net;
    assert t == u + t[|u|..];
    ShelteredConcat(u, t[|u|..], 0);
    assert u[0..] == u;
    ShelteredHasNone(u, 0, 0);
    assert FindTopLevelAssign(u) == AssignFrom(u, 0, 0) by { AssignFromStart(u); }
  }

  lemma {:induction false} AssignFromStart(u: string)
    ensures FindTopLevelAssign(u) == AssignFrom(u, 0, 0)
  {
  }

  lemma {:induction false} TrimEndPrefix(s: string)
    ensures TrimEnd(s) <= s
  {
    if s != [] && Space(s[|s| - 1]) { TrimEndPrefix(s[..|s| - 1]); }
  }

  lemma {:induction false} TrimSemicolonsPrefix(s: string)
    ensures TrimSemicolons(s) <= s
  {
    if s != [] && s[|s| - 1] == ';' { TrimSemicolonsPrefix(s[..|s| - 1]); }
  }

  /** Trimming text that starts with a slash only cuts at its end. */
  lemma {:induction false} TrimSlash(s: string)
    requires s != [] ==> s[0] == '/'
    ensures Trim(s) <= s && (Trim(s) != [] ==> Trim(s)[0] == '/')
  {
    TrimEndPrefix(s);
  }

  lemma {:induction false} ParseComment(t: string)
    requires IsComment(t)
    ensures ParseSimpleAssign(t) == None && !IsCallText(t)
  {
    assert t[0] == '/';
    TrimSlash(t);
    var a := Trim(t);
    TrimSemicolonsPrefix(a);
    var b := TrimSemicolons(a);
    TrimSlash(b);
    CommentParts(t, Trim(b));
    CommentParts(t, t);
    hide Trim, TrimSemicolons, FindTopLevelAssign;
  }

  // ------------------------------------------- compound assignments, conditional jumps

  function CompoundText(reg: string, op: char, body: string): string { reg + " " + [op] + "= " + body + ";" }

  predicate CompoundOp(op: char) { op == '+' || op == '-' || op == '&' || op == '|' || op == '^' }

  lemma {:induction false} CompoundPosition(reg: string, op: char, rest: string)
    requires Plain(reg) && CompoundOp(op)
    ensures FindTopLevelAssign(reg + " " + [op] + "= " + rest) == Some(|reg| + 2)
  {
    var s := reg + " " + [op] + "= " + rest;
    assert forall j :: 0 <= j < |reg| ==> s[j] == reg[j] && PlainChar(reg[j]);
    assert s[|reg|] == ' ' && s[|reg| + 1] == op && s[|reg| + 2] == '=' && s[|reg| + 3] == ' ';
    ScanQuiet(s, 0, |reg| + 2);
  }

  /** The rewritable region of a compound assignment is its right side. */
  lemma {:induction false} SplitCompound(reg: string, op: char, body: string)
    requires Plain(reg) && CompoundOp(op) && Clean(body)
    ensures BodyRange(CompoundText(reg, op, body)) == (|reg| + 4, |reg| + 4 + |body|)
  {
    var text := CompoundText(reg, op, body);
    assert text == reg + " " + [op] + "= " + (body + ";");
    CompoundPosition(reg, op, body + ";");
    var start := |reg| + 4;
    assert text[|reg| + 3] == ' ' && text[start] == body[0];
    assert SkipSpaces(text, |reg| + 3) == start;
    assert text[start..] == body + ";";
  }

  lemma {:induction false} CompoundPieces(reg: string, op: char, body: string)
    requires Plain(reg) && CompoundOp(op) && Clean(body)
    ensures
      var t := reg + " " + [op] + "= " + body;
      && Trim(TrimSemicolons(Trim(CompoundText(reg, op, body)))) == t
      && Trim(t[..|reg| + 2]) == reg + " " + [op] && Trim(t[|reg| + 3..]) == body && Trim(reg + " ") == reg
  {
    var t := reg + " " + [op] + "= " + body;
    assert t[0] == reg[0] && t[|t| - 1] == body[|body| - 1] && PlainChar(reg[0]) && PlainChar(reg[|reg| - 1]);
    assert CompoundText(reg, op, body) == t + ";";
    var raw := reg + " " + [op];
    assert t[..|reg| + 2] == raw && t[|reg| + 3..] == " " + body && raw[0] == reg[0] && raw[|raw| - 1] == op;
    hide Trim, TrimSemicolons;
    StatementTrim(t);
    TrimSame(raw);
    TrimPadded(reg);
    TrimPadded(body);
  }

  lemma {:induction false} ParseByParts(text: string, t: string, eq: nat, raw: string, reg: string, op: char,
                                        body: string)
    requires Trim(TrimSemicolons(Trim(text))) == t && FindTopLevelAssign(t) == Some(eq) && eq < |t|
    requires Trim(t[..eq]) == raw && Trim(t[eq + 1..]) == body && |raw| > 0
    requires raw[|raw| - 1] == op && CompoundOp(op) && Trim(raw[..|raw| - 1]) == reg
    requires reg != [] && forall i :: 0 <= i < |reg| ==> LhsChar(reg[i])
    ensures ParseSimpleAssign(text) == Some(Assignment(reg, [op, '='], body))
  {
    hide Trim, TrimSemicolons, FindTopLevelAssign, LhsChar;
  }

  /** Parsing undoes printing, operator included. */
  lemma {:induction false} ParseCompound(reg: string, op: char, body: string)
    requires Plain(reg) && CompoundOp(op) && Clean(body)
    ensures ParseSimpleAssign(CompoundText(reg, op, body)) == Some(Assignment(reg, [op, '='], body))
  {
    assert forall i :: 0 <= i < |reg| ==> PlainChar(reg[i]) && LhsChar(reg[i]);
    hide Trim, TrimSemicolons, FindTopLevelAssign, CompoundText, Clean, Plain, LhsChar, PlainChar, ParseSimpleAssign;
    CompoundPieces(reg, op, body);
    CompoundPosition(reg, op, body);
    var t, raw := reg + " " + [op] + "= " + body, reg + " " + [op];
    assert raw[|raw| - 1] == op && raw[..|raw| - 1] == reg + " ";
    ParseByParts(CompoundText(reg, op, body), t, |reg| + 2, raw, reg, op, body);
  }

  const THEN_GOTO: string := ") goto "

  function GotoText(cond: string, target: string): string { "if (" + cond + THEN_GOTO + target + ";" }

  ghost predicate HasAt(s: string, t: string, i: nat) { i + |t| <= |s| && s[i..i + |t|] == t }

  lemma {:induction false} FirstIndexIsFirst(s: string, t: string, i: nat, r: nat)
    ensures FirstIndex(s, t, i) == Some(r)
        <==> i <= r && HasAt(s, t, r) && forall j: nat :: i <= j < r ==> !HasAt(s, t, j)
    decreases |s| - i
  {
    if i + |t| <= |s| && !HasAt(s, t, i) { FirstIndexIsFirst(s, t, i + 1, r); }
  }

  lemma {:induction false} GotoNoAssign(cond: string, target: string)
    requires Level(cond) && forall i :: 0 <= i < |target| ==> Quiet(target[i])
    ensures FindTopLevelAssign(GotoText(cond, target)) == None
  {
    hide Sheltered, Net, Level;
    var text, head, tail := GotoText(cond, target), "if ", " goto " + target + ";";
    assert text == head + ("(" + cond + ")") + tail;
    QuietIsSheltered(head, 0);
    QuietIsSheltered(tail, 0);
    ParenIsSheltered(cond, 0);
    ShelteredConcat(head, "(" + cond + ")", 0);
    NetConcat(head, "(" + cond + ")");
    ShelteredConcat(head + ("(" + cond + ")"), tail, 0);
    assert text[0..] == text;
    ShelteredHasNone(text, 0, 0);
  }

  /** The rewritable region of a conditional jump is its condition. */
  lemma {:induction false} SplitGoto(cond: string, target: string)
    requires Level(cond) && forall i :: 0 <= i < |target| ==> Quiet(target[i])
    requires forall j: nat :: 4 <= j < 4 + |cond| ==> !HasAt(GotoText(cond, target), THEN_GOTO, j)
    ensures BodyRange(GotoText(cond, target)) == (4, 4 + |cond|)
  {
    GotoNoAssign(cond, target);
    hide FindTopLevelAssign, Level, FirstIndex;
    var text := GotoText(cond, target);
    assert text[4 + |cond|..4 + |cond| + |THEN_GOTO|] == THEN_GOTO;
    FirstIndexIsFirst(text, THEN_GOTO, 4, 4 + |cond|);
    assert text[0] == 'i' && text[..4] == "if (";
  }

  // ------------------------------------------------------------------------ calls

  predicate QuietText(s: string) { forall i :: 0 <= i < |s| ==> Quiet(s[i]) }

  lemma {:induction false} QuietPosition(lhs: string, rest: string)
    requires QuietText(lhs)
    ensures FindTopLevelAssign(lhs + " = " + rest) == Some(|lhs| + 1)
  {
    var s := lhs + " = " + rest;
    assert forall j :: 0 <= j < |lhs| ==> s[j] == lhs[j];
    assert s[|lhs|] == ' ' && s[|lhs| + 1] == '=' && s[|lhs| + 2] == ' ';
    ScanQuiet(s, 0, |lhs| + 1);
  }

  lemma {:induction false} RhsOf(lhs: string, rhs: string)
    requires QuietText(lhs) && Clean(rhs)
    ensures CallRhs(AssignText(lhs, rhs)) == Some(rhs)
  {
    var text := AssignText(lhs, rhs);
    assert text == lhs + " = " + (rhs + ";");
    QuietPosition(lhs, rhs + ";");
    var tail := " " + rhs;
    assert text[|lhs| + 2..] == tail + ";" && (tail + ";")[..|tail|] == tail && tail[|tail| - 1] == rhs[|rhs| - 1];
    hide Trim, FindTopLevelAssign;
    assert TrimSemicolons(tail + ";") == TrimSemicolons(tail) == tail;
    TrimPadded(rhs);
  }

  lemma {:induction false} CallParenAt(s: string, i: nat, k: nat)
    requires i <= k < |s| && s[k] == '(' && forall j :: i <= j < k ==> s[j] != '(' && s[j] != ')'
    ensures CallParen(s, i, 0) <==> k > 0 && WordChar(s[k - 1])
    decreases k - i
  {
    if i < k { CallParenAt(s, i + 1, k); }
  }

  /** `lhs = name(args);` is a call and its right side is what `rax` holds behind it. */
  lemma {:induction false} CallIsCall(lhs: string, name: string, args: string)
    requires QuietText(lhs) && IsWord(name)
    ensures
      var rhs := name + "(" + args + ")";
      IsCallText(AssignText(lhs, rhs)) && CallRhs(AssignText(lhs, rhs)) == Some(rhs)
  {
    var rhs := name + "(" + args + ")";
    assert rhs[0] == name[0] && rhs[|rhs| - 1] == ')' && rhs[|name|] == '(' && WordChar(name[0]);
    assert forall j :: 0 <= j < |name| ==> rhs[j] == name[j] && WordChar(name[j]);
    RhsOf(lhs, rhs);
    CallParenAt(rhs, 0, |name|);
    hide CallRhs;
  }

  /** A parenthesised right side, such as a store's or a load's, is not. */
  lemma {:induction false} ParenIsNoCall(lhs: string, x: string)
    requires QuietText(lhs)
    ensures !IsCallText(AssignText(lhs, "(" + x + ")"))
  {
    var rhs := "(" + x + ")";
    assert rhs[0] == '(' && rhs[|rhs| - 1] == ')';
    RhsOf(lhs, rhs);
    CallParenAt(rhs, 0, 0);
    hide CallRhs;
  }
}
