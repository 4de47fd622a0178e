/** The composition pass over statement texts, in place, against the composed program. */
module Composition {
  import opened Common
  import opened Substitution
  import opened StatementText
  import opened Expressions
  import opened StraightLine
  import Text

  // ---------------------------------------------------------- the text procedures

  datatype StmtRec = StmtRec(va: nat, text: string, mnemonic: string, isLabelTarget: bool, removed: bool)

  datatype LiveValue = LiveValue(expr: string, producer: nat, useCount: nat)

  type Live = map<string, LiveValue>

  const MAX_COUNT: nat := 0xFFFF_FFFF

  function Needles(canon: string): seq<string> {
    if RegisterAliases(canon) == [] then [canon] else RegisterAliases(canon)
  }

  function Bump(v: LiveValue): LiveValue {
    v.(useCount := if v.useCount < MAX_COUNT then v.useCount + 1 else MAX_COUNT)
  }

  function SlotsOf(live: Live): Slots {
    map k | k in live :: Slot(live[k].producer, live[k].useCount > 0)
  }

  /** Same keys, expressions and producers; only use counts may differ. */
  ghost predicate SameExprs(a: Live, b: Live) {
    a.Keys == b.Keys && forall k :: k in a ==> a[k].expr == b[k].expr && a[k].producer == b[k].producer
  }

  ghost predicate Substituted(text: string, canon: string, expr: string, live: Live, r: string, live': Live) {
    var (lo, hi) := BodyRange(text);
    && r == text[..lo] + ReplaceIn(text[lo..hi], AliasSet(Needles(canon)), Wrapped(expr)) + text[hi..]
    && live' == if canon in live && Occurs(text[lo..hi], Needles(canon)) then live[canon := Bump(live[canon])] else live
  }

  /** One of the storage's names stands in the body of the statement. */
  ghost predicate Names(text: string, canon: string) {
    var (lo, hi) := BodyRange(text);
    Occurs(text[lo..hi], Needles(canon))
  }

  /** The names of a register are replaced token-wise, any other storage by a plain scan. */
  ghost function NewBody(body: string, canon: string, expr: string): string {
    if Words(Needles(canon)) then ReplaceIn(body, AliasSet(Needles(canon)), Wrapped(expr))
    else Sweep(body, canon, Wrapped(expr), 0)
  }

  ghost function SubstText(text: string, canon: string, expr: string): string {
    var (lo, hi) := BodyRange(text);
    text[..lo] + NewBody(text[lo..hi], canon, expr) + text[hi..]
  }

  ghost function Counted(live: Live, canon: string, text: string): Live {
    if canon in live && Names(text, canon) then live[canon := Bump(live[canon])] else live
  }

  lemma {:induction false} NeedlesShape(canon: string)
    ensures Words(Needles(canon)) || Needles(canon) == [canon]
  {
    if RegisterAliases(canon) != [] {
      assert canon in FULL by { assert canon in LEGACY + NUMBERED; }
      AliasesAreWords(canon);
    }
  }

  /**
   * The body of the statement is replaced, the text around it is untouched, and the use count of the
   * storage grows by one exactly when one of its names occurs.
   */
  method SubstituteStorageInRhs(text: string, canon: string, expr: string, live: Live) returns (r: string, live': Live)
    ensures r == SubstText(text, canon, expr) && live' == Counted(live, canon, text)
    ensures SameExprs(live, live')
    ensures Words(Needles(canon)) ==> Substituted(text, canon, expr, live, r, live')
  {
    hide BodyRange, RegisterAliases, Replaced, Tokens, Occurs, Words, Sweep, Needles;
    var (lo, hi) := BodyRange(text);
    NeedlesShape(canon);
    var newBody, substituted := SubstituteBody(text[lo..hi], Needles(canon), expr);
    live' := if substituted && canon in live then live[canon := Bump(live[canon])] else live;
    r := text[..lo] + newBody + text[hi..];
  }

  /** Text-level live values that print the given expressions. */
  ghost predicate Prints(live: Live, exprs: LiveExprs) {
    live.Keys == exprs.Keys && forall k :: k in live ==> live[k].expr == Render(exprs[k])
  }

  /** The body of a printed assignment or return, and what surrounds it. */
  lemma {:induction false} PrintedParts(s: Stmt)
    requires StmtOk(s)
    ensures
      var text := StmtText(s);
      var (lo, hi) := BodyRange(text);
      match s
      case Assign(d, e) => text[..lo] == d + " = " && text[lo..hi] == Render(e) && text[hi..] == ";"
      case Return(e) => text[..lo] == "return " && text[lo..hi] == Render(e) && text[hi..] == ";"
      case Comment(t) => lo == 0 && hi == |t| && text == t
  {
    hide Render, Fragment, BodyRange, Full, IsComment, Returnable, Clean;
    match s
    case Assign(d, e) =>
      RenderClean(e);
      FullName(d);
      SplitAssign(d, Render(e));
    case Return(e) =>
      ReturnIsReturnable(e);
      SplitReturn(Render(e));
    case Comment(t) =>
      CommentNoAssign(t);
  }

  lemma {:induction false} ReturnIsReturnable(e: Expr)
    requires Fragment(e) && (e.Reg? || e.Paren?)
    ensures Returnable(Render(e))
  {
    match e
    case Reg(n) =>
      FullName(n);
      PlainText(n);
    case Paren(x) =>
      RenderClean(x);
      var b := Render(e);
      assert b[1..|b| - 1] == Render(x);
  }

  /** Replacing a register's names in the body of a printed statement puts the expression for it. */
  lemma {:induction false} StatementPut(s: Stmt, r: string, x: Expr)
    requires StmtOk(s) && Full(r) && Fragment(x)
    ensures
      var text := StmtText(s);
      var (lo, hi) := BodyRange(text);
      text[..lo] + ReplaceIn(text[lo..hi], Aliases(r), Wrapped(Render(x))) + text[hi..] == StmtText(PutIn(s, r, x))
  {
    PrintedParts(s);
    hide ReplaceIn, Put, Aliases, Render, Fragment, BodyRange, Full, IsComment;
    match s
    case Assign(_, e) => RenderPut(e, r, x);
    case Return(e) => RenderPut(e, r, x);
    case Comment(t) =>
      assert t[..0] == [] && t[|t|..] == [] && t[0..|t|] == t;
  }

  lemma {:induction false} NeedlesOfFull(r: string)
    requires Full(r)
    ensures Needles(r) == RegisterAliases(r) && Words(Needles(r)) && AliasSet(Needles(r)) == Aliases(r)
  {
    FullName(r);
    AliasesAreWords(r);
    hide RegisterAliases;
  }

  /** The body of a printed statement names a register exactly when the statement mentions it. */
  lemma {:induction false} StatementReads(s: Stmt, r: string)
    requires StmtOk(s) && Full(r)
    ensures
      var text := StmtText(s);
      var (lo, hi) := BodyRange(text);
      Occurs(text[lo..hi], Needles(r)) <==> Mentions(s, r)
  {
    PrintedParts(s);
    NeedlesOfFull(r);
    hide Occurs, Render, Fragment, BodyRange, Regs, Needles, Full, IsComment;
    match s
    case Assign(_, e) => OccursIsRead(e, r);
    case Return(e) => OccursIsRead(e, r);
    case Comment(t) =>
      assert t[0..|t|] == t;
  }

  lemma {:induction false} MarkNone(slots: Slots)
    ensures MarkUsed(slots, {}) == slots
  {
  }

  lemma {:induction false} BumpMarks(live: Live, now: Live, k: string, read: set<string>)
    requires SlotsOf(now) == MarkUsed(SlotsOf(live), read) && k in now
    ensures SlotsOf(now[k := Bump(now[k])]) == MarkUsed(SlotsOf(live), read + {k})
  {
    var m := MarkUsed(SlotsOf(live), read);
    assert now.Keys == SlotsOf(now).Keys == m.Keys == live.Keys;
    forall q | q in live ensures SlotsOf(now[k := Bump(now[k])])[q] == MarkUsed(SlotsOf(live), read + {k})[q] {
      assert SlotsOf(now)[q] == m[q];
    }
  }

  /** Statement `s` with the first `i` keys substituted is `t`; `read` are the keys found so far. */
  ghost predicate AtKey(s: Stmt, exprs: LiveExprs, live: Live, keys: seq<string>, i: nat,
                        t: Stmt, text: string, now: Live, read: set<string>) {
    && i <= |keys| && StmtOk(t) && text == StmtText(t)
    && PutAllIn(t, exprs, keys[i..]) == PutAllIn(s, exprs, keys)
    && SlotsOf(now) == MarkUsed(SlotsOf(live), read)
    && read + ReadKeys(t, exprs, keys[i..]) == ReadKeys(s, exprs, keys)
  }

  lemma {:induction false} FirstKey(s: Stmt, exprs: LiveExprs, live: Live, keys: seq<string>)
    requires StmtOk(s)
    ensures AtKey(s, exprs, live, keys, 0, s, StmtText(s), live, {})
  {
    hide StmtOk, StmtText, PutAllIn, ReadKeys, SlotsOf, MarkUsed;
    assert keys[0..] == keys;
    MarkNone(SlotsOf(live));
  }

  lemma {:induction false} LastKey(s: Stmt, exprs: LiveExprs, live: Live, keys: seq<string>,
                                   t: Stmt, text: string, now: Live, read: set<string>)
    requires AtKey(s, exprs, live, keys, |keys|, t, text, now, read)
    ensures text == StmtText(PutAllIn(s, exprs, keys))
    ensures SlotsOf(now) == MarkUsed(SlotsOf(live), ReadKeys(s, exprs, keys))
  {
    hide StmtOk, StmtText, SlotsOf, MarkUsed, PutIn, Mentions;
    assert keys[|keys|..] == [];
    assert ReadKeys(t, exprs, []) == {} && PutAllIn(t, exprs, []) == t;
    assert read + {} == read;
  }

  lemma {:induction false} KeyStep(s: Stmt, exprs: LiveExprs, live: Live, keys: seq<string>, i: nat,
                                   t: Stmt, text: string, now: Live, read: set<string>, text': string, now': Live)
    requires AtKey(s, exprs, live, keys, i, t, text, now, read) && i < |keys| && keys[i] in now
    requires keys[i] in exprs && Full(keys[i]) && Fragment(exprs[keys[i]])
    requires Substituted(text, keys[i], Render(exprs[keys[i]]), now, text', now')
    ensures AtKey(s, exprs, live, keys, i + 1, PutIn(t, keys[i], exprs[keys[i]]), text', now',
                  if Mentions(t, keys[i]) then read + {keys[i]} else read)
  {
    hide StmtOk, StmtText, SlotsOf, MarkUsed, BodyRange, ReplaceIn, Occurs, Render, Fragment, Full,
      Needles, AliasSet, Aliases, PutIn, Mentions;
    var k := keys[i];
    assert keys[i..][0] == k && keys[i..][1..] == keys[i + 1..];
    StatementPut(t, k, exprs[k]);
    PutInOk(t, k, exprs[k]);
    StatementReads(t, k);
    NeedlesOfFull(k);
    BumpMarks(live, now, k, read);
  }

  /** The text after the live storages have been substituted in turn. */
  ghost function ReadsText(text: string, live: Live, keys: seq<string>): string
    decreases |keys|
  {
    if keys == [] then text
    else ReadsText(if keys[0] in live then SubstText(text, keys[0], live[keys[0]].expr) else text, live, keys[1..])
  }

  /** The use counts after it. */
  ghost function ReadsLive(text: string, live: Live, now: Live, keys: seq<string>): Live
    decreases |keys|
  {
    if keys == [] then now
    else
      ReadsLive(if keys[0] in live then SubstText(text, keys[0], live[keys[0]].expr) else text, live,
                Counted(now, keys[0], text), keys[1..])
  }

  /** Phase 2a: every live storage is substituted in turn, in key order, from a snapshot. */
  method RewriteReads(text: string, live: Live, ghost s: Stmt, ghost exprs: LiveExprs, ghost tracked: bool)
    returns (r: string, live': Live)
    requires tracked ==> StmtOk(s) && text == StmtText(s) && Prints(live, exprs) && LiveOk(exprs)
    ensures r == ReadsText(text, live, Text.Ordered(live.Keys))
    ensures live' == ReadsLive(text, live, live, Text.Ordered(live.Keys))
    ensures SameExprs(live, live')
    ensures tracked ==> r == StmtText(RewriteStmt(s, exprs))
    ensures tracked ==> SlotsOf(live') == MarkUsed(SlotsOf(live), ReadKeys(s, exprs, Text.Ordered(live.Keys)))
  {
    hide AtKey, Substituted, StmtOk, StmtText, PutAllIn, ReadKeys, SlotsOf, MarkUsed, PutIn, Mentions,
      Render, Fragment, Full, Words, Needles, SubstText, Counted;
    var keys := Text.Ordered(live.Keys);
    assert keys[0..] == keys;
    r, live' := text, live;
    ghost var t, read := s, {};
    if tracked { FirstKey(s, exprs, live, keys); }
    for i := 0 to |keys|
      invariant SameExprs(live, live')
      invariant ReadsText(r, live, keys[i..]) == ReadsText(text, live, keys)
      invariant ReadsLive(r, live, live', keys[i..]) == ReadsLive(text, live, live, keys)
      invariant tracked ==> AtKey(s, exprs, live, keys, i, t, r, live', read)
    {
      var k := keys[i];
      assert keys[i..][0] == k && keys[i..][1..] == keys[i + 1..];
      Text.OrderedMembers(live.Keys, k);
      ghost var r0, live0 := r, live';
      r, live' := SubstituteStorageInRhs(r, k, live[k].expr, live');
      if tracked {
        NeedlesOfFull(k);
        KeyStep(s, exprs, live, keys, i, t, r0, live0, read, r, live');
        read := if Mentions(t, k) then read + {k} else read;
        t := PutIn(t, k, exprs[k]);
      }
    }
    if tracked { LastKey(s, exprs, live, keys, t, r, live', read); }
  }

  // ---------------------------------------------------------------- the whole pass

  /** Only `removed` flags were raised, and only below `bound`. */
  ghost predicate OnlyFlags(a: seq<StmtRec>, b: seq<StmtRec>, bound: nat) {
    && |a| == |b|
    && (forall i :: 0 <= i < |a| ==> b[i] == a[i].(removed := b[i].removed))
    && (forall i :: bound <= i < |a| ==> b[i] == a[i])
  }

  /** The statements marked for removal. */
  ghost function Flagged(stmts: seq<StmtRec>): set<nat> {
    set i | 0 <= i < |stmts| && stmts[i].removed
  }

  ghost predicate ProducersBelow(live: Live, bound: nat) {
    forall k :: k in live ==> live[k].producer < bound
  }

  lemma {:induction false} NoVictims(slots: Slots, forced: set<string>)
    ensures Victims(slots, {}, forced) == {}
  {
  }

  lemma {:induction false} VictimsStep(live: Live, done: set<string>, c: string, forced: set<string>)
    ensures Victims(SlotsOf(live), done, forced) + Victims(SlotsOf(live - done), {c}, if c in forced then {c} else {})
         == Victims(SlotsOf(live), done + {c}, forced)
  {
    var slots, left := SlotsOf(live), SlotsOf(live - done);
    forall p | p in Victims(slots, done + {c}, forced)
      ensures p in Victims(slots, done, forced) || p in Victims(left, {c}, if c in forced then {c} else {})
    {
      var k :| k in slots && k in done + {c} && (k in forced || slots[k].used) && slots[k].producer == p;
      if k !in done {
        assert left[k] == slots[k];
      }
    }
    forall p | p in Victims(left, {c}, if c in forced then {c} else {})
      ensures p in Victims(slots, done + {c}, forced) {
      assert left[c] == slots[c];
    }
  }

  /** Drop a live entry; a consumed (or, if forced, any) producer line is dead. */
  method DropEntry(live: Live, stmts: array<StmtRec>, canon: string, force: bool, ghost bound: nat)
    returns (live': Live)
    requires ProducersBelow(live, bound) && bound <= stmts.Length
    modifies stmts
    ensures live' == live - {canon}
    ensures OnlyFlags(old(stmts[..]), stmts[..], bound)
    ensures Flagged(stmts[..])
        == Flagged(old(stmts[..])) + Victims(SlotsOf(live), {canon}, if force then {canon} else {})
  {
    if canon in live && (force || live[canon].useCount > 0) && live[canon].producer < stmts.Length {
      var p := live[canon].producer;
      stmts[p] := stmts[p].(removed := true);
      assert Flagged(stmts[..]) == Flagged(old(stmts[..])) + {p};
      assert SlotsOf(live)[canon].producer in Victims(SlotsOf(live), {canon}, if force then {canon} else {});
    }
    live' := live - {canon};
  }

  method DropEntries(live: Live, stmts: array<StmtRec>, canons: seq<string>, forced: seq<string>, ghost bound: nat)
    returns (live': Live)
    requires ProducersBelow(live, bound) && bound <= stmts.Length
    modifies stmts
    ensures live' == live - Members(canons)
    ensures OnlyFlags(old(stmts[..]), stmts[..], bound)
    ensures Flagged(stmts[..]) == Flagged(old(stmts[..])) + Victims(SlotsOf(live), Members(canons), Members(forced))
  {
    hide Victims, SlotsOf, Flagged;
    live' := live;
    NoVictims(SlotsOf(live), Members(forced));
    assert Members(canons[..0]) == {};
    for n := 0 to |canons|
      invariant live' == live - Members(canons[..n])
      invariant OnlyFlags(old(stmts[..]), stmts[..], bound)
      invariant Flagged(stmts[..])
          == Flagged(old(stmts[..])) + Victims(SlotsOf(live), Members(canons[..n]), Members(forced))
    {
      var c := canons[n];
      assert Members(canons[..n + 1]) == Members(canons[..n]) + {c} by { assert canons[..n + 1] == canons[..n] + [c]; }
      VictimsStep(live, Members(canons[..n]), c, Members(forced));
      live' := DropEntry(live', stmts, c, c in forced, bound);
    }
    assert canons[..|canons|] == canons;
  }

  /** What a statement's own write does: the new live values, the entries dropped, and whether the iteration ends. */
  datatype Effect = Effect(live: Live, dropped: set<string>, skip: bool)

  /** The expression recorded for `canon` after `lhs op rhs`. */
  function NewExpr(live: Live, canon: string, op: string, rhs: string): string
    requires op != "=" ==> canon in live
  {
    if op == "=" then rhs
    else "(" + live[canon].expr + ") " + op[..if |op| > 0 then |op| - 1 else 0] + " (" + rhs + ")"
  }

  /**
   * A write to a part of a register, or `op=` to a register whose value is unknown, is not tracked;
   * any other write, and a call for `rax`, replaces the live entry.
   */
  function WriteEffect(live: Live, text: string, idx: nat): Effect {
    match ParseSimpleAssign(text)
    case Some(Assignment(lhs, op, rhs)) =>
      var canon := CanonicalStorage(lhs);
      if canon == [] then Effect(live, {}, true)
      else if IsNarrow(lhs) then Effect(live - {canon}, {canon}, true)
      else if op != "=" && canon !in live then Effect(live, {}, true)
      else Effect(live[canon := LiveValue(NewExpr(live, canon, op, rhs), idx, 0)], {canon}, false)
    case None =>
      if IsCallText(text) then
        var rhs := CallRhs(text);
        Effect(live["rax" := LiveValue(if rhs.Some? then rhs.value else text, idx, 0)], {"rax"}, false)
      else Effect(live, {}, false)
  }

  /** Phase 2c: exactly the effect, on the live values and on the removal flags. */
  method UpdateLive(live: Live, stmts: array<StmtRec>, idx: nat) returns (live': Live, skip: bool)
    requires idx < stmts.Length && ProducersBelow(live, idx)
    modifies stmts
    ensures ProducersBelow(live', idx + 1)
    ensures OnlyFlags(old(stmts[..]), stmts[..], idx)
    ensures
      var effect := WriteEffect(live, old(stmts[idx]).text, idx);
      && live' == effect.live && skip == effect.skip
      && Flagged(stmts[..]) == Flagged(old(stmts[..])) + Victims(SlotsOf(live), effect.dropped, {})
  {
    hide Flagged, Victims, SlotsOf, ParseSimpleAssign, CanonicalStorage, IsNarrow, IsCallText, CallRhs;
    live', skip := live, false;
    NoVictims(SlotsOf(live), {});
    var text := stmts[idx].text;
    var p := ParseSimpleAssign(text);
    if p.Some? {
      var canon := CanonicalStorage(p.value.lhs);
      if canon == [] { return live, true; }
      if IsNarrow(p.value.lhs) {
        live' := DropEntry(live, stmts, canon, false, idx);
        return live', true;
      }
      if p.value.op != "=" && canon !in live { return live, true; }
      var expr := NewExpr(live, canon, p.value.op, p.value.rhs);
      live' := DropEntry(live, stmts, canon, false, idx);
      live' := live'[canon := LiveValue(expr, idx, 0)];
    } else if IsCallText(text) {
      live' := DropEntry(live, stmts, "rax", false, idx);
      var rhs := CallRhs(text);
      live' := live'["rax" := LiveValue(if rhs.Some? then rhs.value else text, idx, 0)];
    }
  }

  // --------------------------------------------------------- one step, on any list

  /** What one phase does: the statement's text, the live values, and the producers that become dead. */
  datatype Outcome = Outcome(text: string, live: Live, victims: set<nat>)

  /** A label drains the live values; then the reads are rewritten, and a call drops the caller-saved ones. */
  ghost function ReadOutcome(rec: StmtRec, live: Live): Outcome {
    var here: Live := if rec.isLabelTarget then map[] else live;
    var drained := if rec.isLabelTarget then Victims(SlotsOf(live), live.Keys, {}) else {};
    var keys := Text.Ordered(here.Keys);
    var text, read := ReadsText(rec.text, here, keys), ReadsLive(rec.text, here, here, keys);
    if rec.mnemonic == "call" then
      Outcome(text, read - Members(CALLER_SAVED), drained + Victims(SlotsOf(read), Members(CALLER_SAVED), {}))
    else Outcome(text, read, drained)
  }

  ghost function RegistersOf(live: Live): set<string> { set k | k in live && RegisterAliases(k) != [] }

  /** The statement's own write, and the clean-up of register values at a `ret`. */
  ghost function WriteOutcome(mnemonic: string, text: string, live: Live, idx: nat): Outcome {
    var effect := WriteEffect(live, text, idx);
    var overwritten := Victims(SlotsOf(live), effect.dropped, {});
    if !effect.skip && mnemonic == "ret" then
      var gone := RegistersOf(effect.live);
      Outcome(text, effect.live - gone, overwritten + Victims(SlotsOf(effect.live), gone, Members(CALLER_SAVED)))
    else Outcome(text, effect.live, overwritten)
  }

  ghost function StepOutcome(rec: StmtRec, live: Live, idx: nat): Outcome {
    var read := ReadOutcome(rec, live);
    var written := WriteOutcome(rec.mnemonic, read.text, read.live, idx);
    written.(victims := read.victims + written.victims)
  }

  /** The live values before statement `n`, the composed texts, and the producers dead by then. */
  ghost function LiveAt(start: seq<StmtRec>, n: nat): Live
    requires n <= |start|
  {
    if n == 0 then map[] else StepOutcome(start[n - 1], LiveAt(start, n - 1), n - 1).live
  }

  ghost function TextAt(start: seq<StmtRec>, i: nat): string
    requires i < |start|
  {
    ReadOutcome(start[i], LiveAt(start, i)).text
  }

  ghost function DeadBy(start: seq<StmtRec>, n: nat): set<nat>
    requires n <= |start|
  {
    if n == 0 then {} else DeadBy(start, n - 1) + StepOutcome(start[n - 1], LiveAt(start, n - 1), n - 1).victims
  }

  /** Statements before `n` are composed, and the dead producers are flagged. */
  ghost predicate Reached(start: seq<StmtRec>, now: seq<StmtRec>, n: nat) {
    && |now| == |start| && n <= |start|
    && (forall i :: 0 <= i < n ==> now[i].text == TextAt(start, i))
    && (forall i :: n <= i < |start| ==> now[i] == start[i])
    && Flagged(now) == Flagged(start) + DeadBy(start, n)
  }

  lemma {:induction false} OrderedIsSet(keys: set<string>)
    ensures Members(Text.Ordered(keys)) == keys
  {
    forall k ensures k in Members(Text.Ordered(keys)) <==> k in keys { Text.OrderedMembers(keys, k); }
  }

  /** The statement list prints a straight-line program with no labels or calls. */
  ghost predicate Lifted(stmts: seq<StmtRec>, prog: seq<Stmt>) {
    && Straight(prog) && |stmts| == |prog|
    && forall i :: 0 <= i < |prog| ==> LiftedAt(stmts[i], prog[i])
  }

  ghost predicate LiftedAt(r: StmtRec, s: Stmt) {
    && r.text == StmtText(s) && !r.isLabelTarget && !r.removed
    && r.mnemonic != "call" && (r.mnemonic == "ret" <==> s.Return?)
  }

  /** Loop invariant: statements before `idx` are composed, the rest is untouched. */
  ghost predicate Progress(start: seq<StmtRec>, now: seq<StmtRec>, prog: seq<Stmt>, idx: nat) {
    && |now| == |start| == |prog| && idx <= |prog|
    && (forall i :: 0 <= i < idx ==> now[i].text == StmtText(Composed(prog, i)))
    && (forall i :: idx <= i < |prog| ==> now[i] == start[i])
    && Flagged(now) == Gone(prog, idx)
  }

  /** The live values at statement `idx` print the program's live expressions. */
  ghost predicate Ready(live: Live, prog: seq<Stmt>, idx: nat) {
    idx < |prog| ==> Prints(live, LiveBefore(prog, idx)) && SlotsOf(live) == SlotsBefore(prog, idx)
  }

  /** The same once the reads of statement `idx` have been rewritten. */
  ghost predicate ReadyToWrite(live: Live, prog: seq<Stmt>, idx: nat) {
    idx < |prog| && Prints(live, LiveBefore(prog, idx)) && SlotsOf(live) == SlotsRead(prog, idx)
  }

  lemma {:induction false} FlagsTransitive(a: seq<StmtRec>, b: seq<StmtRec>, c: seq<StmtRec>, bound: nat, larger: nat)
    requires OnlyFlags(a, b, bound) && OnlyFlags(b, c, larger) && bound <= larger
    ensures OnlyFlags(a, c, larger)
  {
  }

  lemma {:induction false} ProgressStep(start: seq<StmtRec>, before: seq<StmtRec>, after: seq<StmtRec>,
                                        prog: seq<Stmt>, idx: nat, text: string)
    requires Progress(start, before, prog, idx) && idx < |prog|
    requires text == StmtText(Composed(prog, idx))
    requires OnlyFlags(before[idx := before[idx].(text := text)], after, idx)
    requires Flagged(after) == Flagged(before) + NewlyGone(prog[idx], SlotsRead(prog, idx))
    ensures Progress(start, after, prog, idx + 1)
  {
    hide StmtText, Composed, Flagged, NewlyGone;
  }

  /** What the composed statement's own text says to the pass. */
  lemma {:induction false} WriteParses(prog: seq<Stmt>, idx: nat)
    requires Straight(prog) && idx < |prog|
    ensures
      var text := StmtText(Composed(prog, idx));
      match Composed(prog, idx)
      case Assign(r, e) =>
        && ParseSimpleAssign(text) == Some(Assignment(r, "=", Render(e)))
        && r != [] && CanonicalStorage(r) == r && !IsNarrow(r)
      case _ => ParseSimpleAssign(text) == None && !IsCallText(text)
  {
    hide ParseSimpleAssign, IsCallText, CanonicalStorage, IsNarrow, Fragment, Render, LiveBefore, LiveOk, Composed,
      Full, Clean, Returnable, IsComment;
    assert StmtOk(prog[idx]);
    LiveBeforeOk(prog, idx);
    ComposedOkAt(prog, idx);
    match Composed(prog, idx)
    case Assign(r, e) =>
      FullName(r);
      FullStorage(r);
      RenderClean(e);
      ParseAssign(r, Render(e));
    case Return(e) =>
      ReturnIsReturnable(e);
      ParseReturn(Render(e));
    case Comment(t) =>
      ParseComment(t);
  }

  lemma {:induction false} SlotsAfter(live: Live, r: string, v: LiveValue)
    ensures SlotsOf(live[r := v]) == SlotsOf(live)[r := Slot(v.producer, v.useCount > 0)]
  {
  }

  lemma {:induction false} ReadyStep(live: Live, live': Live, prog: seq<Stmt>, idx: nat)
    requires ReadyToWrite(live, prog, idx) && (prog[idx].Return? ==> idx + 1 == |prog|)
    requires match Composed(prog, idx)
      case Assign(r, e) => live' == live[r := LiveValue(Render(e), idx, 0)]
      case Comment(_) => live' == live
      case Return(_) => true
    ensures Ready(live', prog, idx + 1)
  {
    hide Render, RewriteExpr, ReadsOf, MarkUsed, SlotsOf, Composed;
    ComposedParts(prog, idx);
    if prog[idx].Assign? {
      SlotsAfter(live, prog[idx].reg, LiveValue(Render(Composed(prog, idx).rhs), idx, 0));
    }
  }

  /** In a straight-line program every live storage is a register. */
  lemma {:induction false} RegisterKeys(live: Live, prog: seq<Stmt>, idx: nat)
    requires Straight(prog) && ReadyToWrite(live, prog, idx)
    ensures Members(Text.Ordered(set k | k in live && RegisterAliases(k) != [])) == SlotsRead(prog, idx).Keys
  {
    hide RegisterAliases, SlotsRead, Full, LiveBefore, Fragment, StmtOk;
    LiveBeforeOk(prog, idx);
    var keys := set k | k in live && RegisterAliases(k) != [];
    forall k | k in live ensures k in keys { FullName(k); }
    forall k ensures k in Members(Text.Ordered(keys)) <==> k in live {
      Text.OrderedMembers(keys, k);
    }
    assert SlotsOf(live).Keys == live.Keys;
  }

  lemma {:induction false} PrintsSame(live: Live, live': Live, exprs: LiveExprs)
    requires Prints(live, exprs) && SameExprs(live, live')
    ensures Prints(live', exprs)
  {
  }

  lemma {:induction false} NoMembers()
    ensures Members([]) == {}
  {
  }

  lemma {:induction false} TextKeepsFlags(a: seq<StmtRec>, b: seq<StmtRec>, idx: nat)
    requires idx < |a| && |a| == |b| && b == a[idx := a[idx].(text := b[idx].text)]
    ensures Flagged(a) == Flagged(b)
  {
  }

  /** The first part of an iteration. */
  method ReadPhase(stmts: array<StmtRec>, live: Live, idx: nat, ghost prog: seq<Stmt>, ghost tracked: bool)
    returns (live': Live)
    requires idx < stmts.Length && ProducersBelow(live, idx)
    requires tracked ==> idx < |prog| && LiftedAt(stmts[idx], prog[idx]) && StmtOk(prog[idx])
    requires tracked ==> LiveOk(LiveBefore(prog, idx)) && Ready(live, prog, idx)
    modifies stmts
    ensures ProducersBelow(live', idx)
    ensures OnlyFlags(old(stmts[..])[idx := old(stmts[idx]).(text := stmts[idx].text)], stmts[..], idx)
    ensures
      var outcome := ReadOutcome(old(stmts[idx]), live);
      && stmts[idx].text == outcome.text && live' == outcome.live
      && Flagged(stmts[..]) == Flagged(old(stmts[..])) + outcome.victims
    ensures tracked ==> stmts[idx].text == StmtText(Composed(prog, idx)) && ReadyToWrite(live', prog, idx)
    ensures tracked ==> Flagged(stmts[..]) == Flagged(old(stmts[..]))
  {
    hide SlotsOf, MarkUsed, ReadKeys, SlotsBefore, StmtText, LiveBefore, PutAllIn, Render, LiveOk, StmtOk;
    hide ReadsText, ReadsLive, Victims, Flagged;
    live' := live;
    NoMembers();
    if stmts[idx].isLabelTarget {
      OrderedIsSet(live.Keys);
      live' := DropEntries(live', stmts, Text.Ordered(live'.Keys), [], idx);
      live' := map[];
    }
    ghost var s := if tracked then prog[idx] else Comment([]);
    ghost var exprs := if tracked then LiveBefore(prog, idx) else map[];
    var text;
    text, live' := RewriteReads(stmts[idx].text, live', s, exprs, tracked);
    if tracked { PrintsSame(live, live', exprs); }
    ghost var drained := stmts[..];
    stmts[idx] := stmts[idx].(text := text);
    TextKeepsFlags(drained, stmts[..], idx);
    if stmts[idx].mnemonic == "call" {
      live' := DropEntries(live', stmts, CALLER_SAVED, [], idx);
    }
  }

  /** The second part. */
  method WritePhase(stmts: array<StmtRec>, live: Live, idx: nat, ghost prog: seq<Stmt>, ghost tracked: bool)
    returns (live': Live)
    requires idx < stmts.Length && ProducersBelow(live, idx)
    requires tracked ==> Straight(prog) && ReadyToWrite(live, prog, idx)
    requires tracked ==> stmts[idx].text == StmtText(Composed(prog, idx))
    requires tracked
        ==> (stmts[idx].mnemonic == "ret" <==> prog[idx].Return?) && (prog[idx].Return? ==> idx + 1 == |prog|)
    modifies stmts
    ensures ProducersBelow(live', idx + 1)
    ensures OnlyFlags(old(stmts[..]), stmts[..], if tracked then idx else idx + 1)
    ensures
      var outcome := WriteOutcome(old(stmts[idx]).mnemonic, old(stmts[idx]).text, live, idx);
      && live' == outcome.live && Flagged(stmts[..]) == Flagged(old(stmts[..])) + outcome.victims
    ensures tracked ==> Ready(live', prog, idx + 1)
    ensures tracked ==> Flagged(stmts[..]) == Flagged(old(stmts[..])) + NewlyGone(prog[idx], SlotsRead(prog, idx))
  {
    hide Flagged, Victims, SlotsOf, SlotsRead, StmtText, LiveBefore, ParseSimpleAssign, IsCallText, CanonicalStorage,
      IsNarrow, Render, Straight, RegisterAliases, Prints, Ready, Composed;
    if tracked {
      WriteParses(prog, idx);
      ComposedParts(prog, idx);
      RegisterKeys(live, prog, idx);
      NoVictims(SlotsOf(live), {});
    }
    var skip;
    live', skip := UpdateLive(live, stmts, idx);
    if !skip && stmts[idx].mnemonic == "ret" {
      var keys := Text.Ordered(set k | k in live' && RegisterAliases(k) != []);
      OrderedIsSet(RegistersOf(live'));
      live' := DropEntries(live', stmts, keys, CALLER_SAVED, if tracked then idx else idx + 1);
    }
    if tracked { ReadyStep(live, live', prog, idx); }
  }

  lemma {:induction false} ReachedStep(start: seq<StmtRec>, before: seq<StmtRec>, mid: seq<StmtRec>,
                                       after: seq<StmtRec>, idx: nat)
    requires Reached(start, before, idx) && idx < |start| == |mid|
    requires OnlyFlags(before[idx := before[idx].(text := mid[idx].text)], mid, idx) && OnlyFlags(mid, after, idx + 1)
    requires
      var read := ReadOutcome(start[idx], LiveAt(start, idx));
      && mid[idx].text == read.text && Flagged(mid) == Flagged(before) + read.victims
      && Flagged(after) == Flagged(mid) + WriteOutcome(start[idx].mnemonic, read.text, read.live, idx).victims
    ensures Reached(start, after, idx + 1)
    ensures
      var read := ReadOutcome(start[idx], LiveAt(start, idx));
      LiveAt(start, idx + 1) == WriteOutcome(start[idx].mnemonic, read.text, read.live, idx).live
  {
    hide ReadOutcome, WriteOutcome, Flagged, LiveAt, DeadBy;
    StepUnfolds(start, idx);
  }

  lemma {:induction false} ReachedHere(start: seq<StmtRec>, now: seq<StmtRec>, idx: nat)
    requires Reached(start, now, idx)
    ensures |now| == |start| && (idx < |start| ==> now[idx] == start[idx])
  {
  }

  lemma {:induction false} StepUnfolds(start: seq<StmtRec>, idx: nat)
    requires idx < |start|
    ensures
      var read := ReadOutcome(start[idx], LiveAt(start, idx));
      var written := WriteOutcome(start[idx].mnemonic, read.text, read.live, idx);
      && TextAt(start, idx) == read.text && LiveAt(start, idx + 1) == written.live
      && DeadBy(start, idx + 1) == DeadBy(start, idx) + read.victims + written.victims
  {
    hide ReadOutcome, WriteOutcome;
  }

  /** One iteration of the pass. */
  method ComposeAt(stmts: array<StmtRec>, live: Live, idx: nat, ghost start: seq<StmtRec>, ghost prog: seq<Stmt>,
                   ghost tracked: bool)
    returns (live': Live)
    requires idx < stmts.Length && ProducersBelow(live, idx)
    requires Reached(start, stmts[..], idx) && live == LiveAt(start, idx)
    requires tracked ==> Lifted(start, prog) && Progress(start, stmts[..], prog, idx) && Ready(live, prog, idx)
    modifies stmts
    ensures ProducersBelow(live', idx + 1)
    ensures SameRecords(old(stmts[..]), stmts[..])
    ensures Reached(start, stmts[..], idx + 1) && live' == LiveAt(start, idx + 1)
    ensures tracked ==> Progress(start, stmts[..], prog, idx + 1) && Ready(live', prog, idx + 1)
  {
    hide StmtText, LiveBefore, Composed, LiveOk, Prints, StmtOk, ProducersBelow, Straight, Ready, ReadyToWrite;
    hide ReadOutcome, WriteOutcome, Flagged, DeadBy, LiveAt, TextAt, Reached;
    ghost var before := stmts[..];
    ReachedHere(start, before, idx);
    if tracked { AtStatement(start, before, prog, idx); LiveBeforeOk(prog, idx); }
    live' := ReadPhase(stmts, live, idx, prog, tracked);
    ghost var mid := stmts[..];
    ghost var text := stmts[idx].text;
    live' := WritePhase(stmts, live', idx, prog, tracked);
    ReachedStep(start, before, mid, stmts[..], idx);
    if tracked {
      FlagsTransitive(before[idx := before[idx].(text := text)], mid, stmts[..], idx, idx);
      ProgressStep(start, before, stmts[..], prog, idx, text);
    }
  }

  /** Texts and `removed` flags may change; the records, their order and their other fields do not. */
  ghost predicate SameRecords(a: seq<StmtRec>, b: seq<StmtRec>) {
    |a| == |b| && forall i :: 0 <= i < |a| ==> b[i] == a[i].(text := b[i].text, removed := b[i].removed)
  }

  lemma {:induction false} AtStatement(start: seq<StmtRec>, now: seq<StmtRec>, prog: seq<Stmt>, idx: nat)
    requires Lifted(start, prog) && Progress(start, now, prog, idx) && idx < |prog|
    ensures StmtOk(prog[idx]) && now[idx] == start[idx] && LiftedAt(now[idx], prog[idx])
    ensures forall k :: 0 <= k < |prog| ==> StmtOk(prog[k])
    ensures Straight(prog) && (prog[idx].Return? ==> idx + 1 == |prog|)
  {
    hide StmtText, Composed, StmtOk;
  }

  /** The texts are those of the composed program, and exactly the lines in `Gone` are flagged. */
  ghost predicate PassResult(prog: seq<Stmt>, now: seq<StmtRec>) {
    && |now| == |prog|
    && (forall i :: 0 <= i < |prog| ==> now[i].text == StmtText(Composed(prog, i)))
    && Flagged(now) == Gone(prog, |prog|)
  }
}
