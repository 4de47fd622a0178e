/** Straight-line programs, what composing their expressions makes of them, and which lines it drops. */
module StraightLine {
  import opened Common
  import opened Substitution
  import opened StatementText
  import opened Expressions
  import Text

  // ------------------------------------------------------------------- programs

  /** An assignment to a full register, the final return, or a comment line (of a comparison, a push, a nop). */
  datatype Stmt = Assign(reg: string, rhs: Expr) | Return(result: Expr) | Comment(text: string)

  function StmtText(s: Stmt): string {
    match s
    case Assign(r, e) => AssignText(r, Render(e))
    case Return(e) => ReturnText(Render(e))
    case Comment(t) => t
  }

  predicate StmtOk(s: Stmt) {
    match s
    case Assign(r, e) => Full(r) && Fragment(e)
    case Return(e) => Fragment(e) && (e.Reg? || e.Paren?)
    case Comment(t) => IsComment(t)
  }

  ghost predicate Straight(prog: seq<Stmt>) {
    && prog != [] && prog[|prog| - 1] == Return(Reg("rax"))
    && (forall i :: 0 <= i < |prog| ==> StmtOk(prog[i]))
    && (forall i :: 0 <= i < |prog| - 1 ==> !prog[i].Return?)
  }

  /** Put the parenthesised `x` for register `r`; in a comment, for each of the register's names. */
  function PutIn(s: Stmt, r: string, x: Expr): Stmt {
    match s
    case Assign(d, e) => Assign(d, Put(e, r, x))
    case Return(e) => Return(Put(e, r, x))
    case Comment(t) => Comment(ReplaceIn(t, Aliases(r), Wrapped(Render(x))))
  }

  /** The statement's text names the register where the pass may rewrite it. */
  ghost predicate Mentions(s: Stmt, r: string) {
    match s
    case Assign(_, e) => r in Regs(e)
    case Return(e) => r in Regs(e)
    case Comment(t) => Occurs(t, RegisterAliases(r))
  }

  lemma {:induction false} PutInOk(s: Stmt, r: string, x: Expr)
    requires StmtOk(s) && Full(r) && Fragment(x)
    ensures StmtOk(PutIn(s, r, x))
  {
    hide Fragment, Full, IsComment, ReplaceIn, Aliases, Render;
    match s
    case Assign(_, e) => PutFragment(e, r, x);
    case Return(e) => PutFragment(e, r, x);
    case Comment(t) => CommentReplaced(t, r, x);
  }

  // ----------------------------------------------------------- composed programs

  type LiveExprs = map<string, Expr>

  /** The reads of one expression, rewritten register by register in key order. */
  function PutAll(e: Expr, live: LiveExprs, keys: seq<string>): Expr
    decreases |keys|
  {
    if keys == [] then e
    else if keys[0] in live then PutAll(Put(e, keys[0], live[keys[0]]), live, keys[1..])
    else PutAll(e, live, keys[1..])
  }

  function PutAllIn(s: Stmt, live: LiveExprs, keys: seq<string>): Stmt
    decreases |keys|
  {
    if keys == [] then s
    else if keys[0] in live then PutAllIn(PutIn(s, keys[0], live[keys[0]]), live, keys[1..])
    else PutAllIn(s, live, keys[1..])
  }

  function RewriteExpr(e: Expr, live: LiveExprs): Expr { PutAll(e, live, Text.Ordered(live.Keys)) }

  function RewriteStmt(s: Stmt, live: LiveExprs): Stmt { PutAllIn(s, live, Text.Ordered(live.Keys)) }

  /** The live expressions when the pass reaches statement `i`. */
  function LiveBefore(prog: seq<Stmt>, i: nat): LiveExprs
    requires i <= |prog|
  {
    if i == 0 then map[]
    else
      var live := LiveBefore(prog, i - 1);
      match prog[i - 1]
      case Assign(r, e) => live[r := RewriteExpr(e, live)]
      case _ => live
  }

  function Composed(prog: seq<Stmt>, i: nat): Stmt
    requires i < |prog|
  {
    RewriteStmt(prog[i], LiveBefore(prog, i))
  }

  lemma {:induction false} PutAllInParts(s: Stmt, live: LiveExprs, keys: seq<string>)
    ensures match s
      case Assign(r, e) => PutAllIn(s, live, keys) == Assign(r, PutAll(e, live, keys))
      case Return(e) => PutAllIn(s, live, keys) == Return(PutAll(e, live, keys))
      case Comment(_) => PutAllIn(s, live, keys).Comment?
    decreases |keys|
  {
    hide Put, ReplaceIn, Aliases, Render;
    if keys != [] {
      var k := keys[0];
      PutAllInParts(if k in live then PutIn(s, k, live[k]) else s, live, keys[1..]);
    }
  }

  /** Composing keeps the kind of a statement and rewrites its expression. */
  lemma {:induction false} ComposedParts(prog: seq<Stmt>, i: nat)
    requires i < |prog|
    ensures match prog[i]
      case Assign(r, e) => Composed(prog, i) == Assign(r, RewriteExpr(e, LiveBefore(prog, i)))
      case Return(e) => Composed(prog, i) == Return(RewriteExpr(e, LiveBefore(prog, i)))
      case Comment(_) => Composed(prog, i).Comment?
  {
    hide PutAllIn, PutAll, LiveBefore;
    var live := LiveBefore(prog, i);
    PutAllInParts(prog[i], live, Text.Ordered(live.Keys));
  }

  // ------------------------------------------------------------------- producers

  /** The live registers that a statement names, each looked for when its turn comes. */
  ghost function ReadKeys(s: Stmt, live: LiveExprs, keys: seq<string>): set<string>
    decreases |keys|
  {
    if keys == [] then {}
    else if keys[0] !in live then ReadKeys(s, live, keys[1..])
    else (if Mentions(s, keys[0]) then {keys[0]} else {}) + ReadKeys(PutIn(s, keys[0], live[keys[0]]), live, keys[1..])
  }

  ghost function ReadsOf(prog: seq<Stmt>, j: nat): set<string>
    requires j < |prog|
  {
    ReadKeys(prog[j], LiveBefore(prog, j), Text.Ordered(LiveBefore(prog, j).Keys))
  }

  /** Which statement produced a live value, and whether it was consumed since. */
  datatype Slot = Slot(producer: nat, used: bool)

  type Slots = map<string, Slot>

  function MarkUsed(slots: Slots, read: set<string>): Slots {
    map k | k in slots :: Slot(slots[k].producer, slots[k].used || k in read)
  }

  /** The producers that dropping the entries `canons` removes. */
  function Victims(slots: Slots, canons: set<string>, forced: set<string>): set<nat> {
    set k | k in slots && k in canons && (k in forced || slots[k].used) :: slots[k].producer
  }

  function Members(names: seq<string>): set<string> {
    set i | 0 <= i < |names| :: names[i]
  }

  /** The slots after the reads of statement `i`. */
  ghost function SlotsRead(prog: seq<Stmt>, i: nat): Slots
    requires i < |prog|
  {
    MarkUsed(SlotsBefore(prog, i), ReadsOf(prog, i))
  }

  ghost function SlotsBefore(prog: seq<Stmt>, i: nat): Slots
    requires i <= |prog|
  {
    if i == 0 then map[]
    else
      var slots := MarkUsed(SlotsBefore(prog, i - 1), ReadsOf(prog, i - 1));
      match prog[i - 1]
      case Assign(r, _) => slots[r := Slot(i - 1, false)]
      case _ => slots
  }

  function NewlyGone(s: Stmt, slots: Slots): set<nat> {
    match s
    case Assign(r, _) => Victims(slots, {r}, {})
    case Return(_) => Victims(slots, slots.Keys, Members(CALLER_SAVED))
    case Comment(_) => {}
  }

  /** The statements removed by the time the pass reaches statement `i`. */
  ghost function Gone(prog: seq<Stmt>, i: nat): set<nat>
    requires i <= |prog|
  {
    if i == 0 then {} else Gone(prog, i - 1) + NewlyGone(prog[i - 1], SlotsRead(prog, i - 1))
  }

  // ----------------------------------------------------------- staying in the fragment

  ghost predicate LiveOk(live: LiveExprs) {
    forall k :: k in live ==> Full(k) && Fragment(live[k])
  }

  lemma {:induction false} PutAllInOk(s: Stmt, live: LiveExprs, keys: seq<string>)
    requires StmtOk(s) && LiveOk(live)
    ensures StmtOk(PutAllIn(s, live, keys))
    decreases |keys|
  {
    hide StmtOk, PutIn, Full, Fragment;
    if keys != [] {
      var k := keys[0];
      if k in live {
        PutInOk(s, k, live[k]);
        PutAllInOk(PutIn(s, k, live[k]), live, keys[1..]);
      } else {
        PutAllInOk(s, live, keys[1..]);
      }
    }
  }

  lemma {:induction false} LiveBeforeOk(prog: seq<Stmt>, i: nat)
    requires i <= |prog| && forall k :: 0 <= k < |prog| ==> StmtOk(prog[k])
    ensures LiveOk(LiveBefore(prog, i))
  {
    hide Fragment, Full, PutAll, IsComment;
    if i > 0 {
      LiveBeforeOk(prog, i - 1);
      ComposedOkAt(prog, i - 1);
      ComposedParts(prog, i - 1);
    }
  }

  lemma {:induction false} ComposedOkAt(prog: seq<Stmt>, i: nat)
    requires i < |prog| && StmtOk(prog[i]) && LiveOk(LiveBefore(prog, i))
    ensures StmtOk(Composed(prog, i))
  {
    hide StmtOk, LiveOk, PutAllIn, LiveBefore;
    var live := LiveBefore(prog, i);
    PutAllInOk(prog[i], live, Text.Ordered(live.Keys));
  }
}
