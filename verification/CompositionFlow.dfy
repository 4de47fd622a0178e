/**
 * The composition pass on any statement list, storage by storage: which write a read sees, what each text becomes,
 * and which lines are flagged. A storage is followed through the list on its own, without the map of live values.
 */
module CompositionFlow {
  import opened Common
  import opened Substitution
  import opened StatementText
  import opened StraightLine
  import opened Composition
  import Text

  // --------------------------------------------------------- values of one storage

  /** The expression a storage holds, and the statement that wrote it. */
  datatype Value = Value(producer: nat, expr: string)

  ghost predicate Lists(recs: seq<StmtRec>, texts: seq<string>) { |recs| == |texts| }

  /** What the reads of statement `i` see: nothing at a branch target. */
  ghost function AtRead(recs: seq<StmtRec>, texts: seq<string>, i: nat, k: string): Option<Value>
    requires Lists(recs, texts) && i < |recs|
    decreases i, 0
  {
    if i == 0 || recs[i].isLabelTarget then None else After(recs, texts, i - 1, k)
  }

  /** What its own write finds: a call has clobbered the caller-saved registers. */
  ghost function AtWrite(recs: seq<StmtRec>, texts: seq<string>, i: nat, k: string): Option<Value>
    requires Lists(recs, texts) && i < |recs|
    decreases i, 1
  {
    if recs[i].mnemonic == "call" && k in CALLER_SAVED then None else AtRead(recs, texts, i, k)
  }

  /** What the storage holds once the statement has written. */
  ghost function Written(recs: seq<StmtRec>, texts: seq<string>, i: nat, k: string): Option<Value>
    requires Lists(recs, texts) && i < |recs|
    decreases i, 2
  {
    var before := AtWrite(recs, texts, i, k);
    if !Touches(texts[i], k) then before
    else
      match ParseSimpleAssign(texts[i])
      case Some(Assignment(lhs, op, rhs)) =>
        if IsNarrow(lhs) then None
        else if op == "=" then Some(Value(i, rhs))
        else if before.None? then None
        else Some(Value(i, "(" + before.value.expr + ") " + op[..if |op| > 0 then |op| - 1 else 0] + " (" + rhs + ")"))
      case None =>
        var rhs := CallRhs(texts[i]);
        Some(Value(i, if rhs.Some? then rhs.value else texts[i]))
  }

  /** The statement writes the storage, or a part of it. */
  ghost predicate Touches(text: string, k: string) {
    match ParseSimpleAssign(text)
    case Some(Assignment(lhs, _, _)) => k != [] && CanonicalStorage(lhs) == k
    case None => IsCallText(text) && k == "rax"
  }

  /** A write that is not tracked ends the iteration, before the clean-up at a `ret`. */
  ghost predicate Skips(recs: seq<StmtRec>, texts: seq<string>, i: nat)
    requires Lists(recs, texts) && i < |recs|
    decreases i, 2
  {
    match ParseSimpleAssign(texts[i])
    case Some(Assignment(lhs, op, _)) =>
      var k := CanonicalStorage(lhs);
      k == [] || IsNarrow(lhs) || (op != "=" && AtWrite(recs, texts, i, k).None?)
    case None => false
  }

  ghost predicate Returns(recs: seq<StmtRec>, texts: seq<string>, i: nat)
    requires Lists(recs, texts) && i < |recs|
    decreases i, 3
  {
    recs[i].mnemonic == "ret" && !Skips(recs, texts, i)
  }

  ghost predicate IsRegister(k: string) { RegisterAliases(k) != [] }

  /** What it holds behind the statement: a `ret` forgets the registers. */
  ghost function After(recs: seq<StmtRec>, texts: seq<string>, i: nat, k: string): Option<Value>
    requires Lists(recs, texts) && i < |recs|
    decreases i, 4
  {
    if Returns(recs, texts, i) && IsRegister(k) then None else Written(recs, texts, i, k)
  }

  ghost function Before(recs: seq<StmtRec>, texts: seq<string>, n: nat, k: string): Option<Value>
    requires Lists(recs, texts) && n <= |recs|
  {
    if n == 0 then None else After(recs, texts, n - 1, k)
  }

  // ------------------------------------------------------------ the last write

  /** Statement `q` leaves what the storage holds alone. */
  ghost predicate Spares(recs: seq<StmtRec>, texts: seq<string>, q: nat, k: string)
    requires Lists(recs, texts) && q < |recs|
  {
    && !recs[q].isLabelTarget
    && !(recs[q].mnemonic == "call" && k in CALLER_SAVED)
    && !Touches(texts[q], k)
    && !(Returns(recs, texts, q) && IsRegister(k))
  }

  /** `p` is the last write before `i`: no branch target, clobbering call, other write or `ret` lies in between. */
  ghost predicate LastWrite(recs: seq<StmtRec>, texts: seq<string>, p: nat, i: nat, k: string)
    requires Lists(recs, texts) && i < |recs|
  {
    && p < i && Touches(texts[p], k) && !recs[i].isLabelTarget
    && forall q :: p < q < i ==> Spares(recs, texts, q, k)
  }

  /** A read sees a value exactly when it is what the last write left, and nothing has disturbed it since. */
  lemma {:induction false} ReadSeesLastWrite(recs: seq<StmtRec>, texts: seq<string>, i: nat, k: string, v: Value)
    requires Lists(recs, texts) && i < |recs|
    ensures AtRead(recs, texts, i, k) == Some(v)
        <==> LastWrite(recs, texts, v.producer, i, k) && After(recs, texts, v.producer, k) == Some(v)
  {
    hide Touches, Returns, ParseSimpleAssign, CallRhs, IsNarrow, RegisterAliases;
    if i > 0 && !recs[i].isLabelTarget {
      if Touches(texts[i - 1], k) {
        ProducerIsWriter(recs, texts, i - 1, k);
        assert !Spares(recs, texts, i - 1, k);
      } else {
        ReadSeesLastWrite(recs, texts, i - 1, k, v);
        AfterUntouched(recs, texts, i - 1, k);
        SparedStep(recs, texts, v.producer, i, k);
      }
    }
  }

  lemma {:induction false} ProducerIsWriter(recs: seq<StmtRec>, texts: seq<string>, i: nat, k: string)
    requires Lists(recs, texts) && i < |recs| && Touches(texts[i], k)
    ensures After(recs, texts, i, k).Some? ==> After(recs, texts, i, k).value.producer == i
  {
    hide ParseSimpleAssign, CallRhs, IsNarrow, RegisterAliases, Touches;
  }

  lemma {:induction false} AfterUntouched(recs: seq<StmtRec>, texts: seq<string>, i: nat, k: string)
    requires Lists(recs, texts) && i < |recs| && !Touches(texts[i], k)
    ensures After(recs, texts, i, k) == if Spares(recs, texts, i, k) then AtRead(recs, texts, i, k) else None
  {
    hide ParseSimpleAssign, CallRhs, IsNarrow, RegisterAliases, Touches, Returns;
    assert Written(recs, texts, i, k) == AtWrite(recs, texts, i, k);
    assert recs[i].isLabelTarget ==> AtRead(recs, texts, i, k).None?;
    assert AtWrite(recs, texts, i, k)
        == if recs[i].mnemonic == "call" && k in CALLER_SAVED then None else AtRead(recs, texts, i, k);
  }

  lemma {:induction false} SparedStep(recs: seq<StmtRec>, texts: seq<string>, p: nat, i: nat, k: string)
    requires Lists(recs, texts) && 0 < i < |recs| && !recs[i].isLabelTarget && !Touches(texts[i - 1], k)
    ensures LastWrite(recs, texts, p, i, k)
        <==> Spares(recs, texts, i - 1, k) && LastWrite(recs, texts, p, i - 1, k)
  {
    hide Touches, Returns, RegisterAliases;
  }

  lemma {:induction false} ProducerBelow(recs: seq<StmtRec>, texts: seq<string>, i: nat, k: string)
    requires Lists(recs, texts) && i < |recs| && AtRead(recs, texts, i, k).Some?
    ensures AtRead(recs, texts, i, k).value.producer < i
  {
    hide AtRead, After, Spares, Touches;
    ReadSeesLastWrite(recs, texts, i, k, AtRead(recs, texts, i, k).value);
  }

  // -------------------------------------------------------------------- the texts

  /** The storages substituted in turn. */
  ghost function SubstAll(text: string, exprs: map<string, string>, keys: seq<string>): string
    decreases |keys|
  {
    if keys == [] then text
    else SubstAll(if keys[0] in exprs then SubstText(text, keys[0], exprs[keys[0]]) else text, exprs, keys[1..])
  }

  /** The storages that statement `i` sees, with what they hold. */
  ghost predicate SeenAt(recs: seq<StmtRec>, texts: seq<string>, i: nat, exprs: map<string, string>)
    requires Lists(recs, texts) && i < |recs|
  {
    forall k ::
      && (k in exprs <==> AtRead(recs, texts, i, k).Some?)
      && (k in exprs ==> exprs[k] == AtRead(recs, texts, i, k).value.expr)
  }

  /** The text is the original one with every storage it sees substituted, in storage order. */
  ghost predicate ComposedFrom(recs: seq<StmtRec>, texts: seq<string>, i: nat)
    requires Lists(recs, texts) && i < |recs|
  {
    exists exprs ::
      SeenAt(recs, texts, i, exprs) && texts[i] == SubstAll(recs[i].text, exprs, Text.Ordered(exprs.Keys))
  }

  // -------------------------------------------------------------------- the flags

  /** The text of a statement when the storage `k` has its turn. */
  ghost function TurnText(text: string, exprs: map<string, string>, keys: seq<string>, k: string): string
    decreases |keys|
  {
    if keys == [] || keys[0] == k then text
    else TurnText(if keys[0] in exprs then SubstText(text, keys[0], exprs[keys[0]]) else text, exprs, keys[1..], k)
  }

  /** Statement `r` uses the value of `k` that `p` wrote. */
  ghost predicate Uses(recs: seq<StmtRec>, texts: seq<string>, r: nat, k: string, p: nat)
    requires Lists(recs, texts) && r < |recs|
  {
    && AtRead(recs, texts, r, k).Some? && AtRead(recs, texts, r, k).value.producer == p
    && exists exprs ::
         SeenAt(recs, texts, r, exprs) && Names(TurnText(recs[r].text, exprs, Text.Ordered(exprs.Keys), k), k)
  }

  /** Some statement before `n` uses it. */
  ghost predicate Used(recs: seq<StmtRec>, texts: seq<string>, n: nat, k: string, p: nat)
    requires Lists(recs, texts) && n <= |recs|
  {
    exists r: nat :: r < n && Uses(recs, texts, r, k, p)
  }

  ghost predicate From(v: Option<Value>, p: nat) { v.Some? && v.value.producer == p }

  /** The value of `k` from `p` is dropped at `q`: at a label, by a call, or by a write. */
  ghost predicate DroppedAt(recs: seq<StmtRec>, texts: seq<string>, q: nat, k: string, p: nat)
    requires Lists(recs, texts) && q < |recs|
  {
    || (recs[q].isLabelTarget && From(Before(recs, texts, q, k), p))
    || (recs[q].mnemonic == "call" && k in CALLER_SAVED && From(AtRead(recs, texts, q, k), p))
    || (Touches(texts[q], k) && From(AtWrite(recs, texts, q, k), p))
  }

  ghost predicate ForgottenAt(recs: seq<StmtRec>, texts: seq<string>, q: nat, k: string, p: nat)
    requires Lists(recs, texts) && q < |recs|
  {
    Returns(recs, texts, q) && IsRegister(k) && From(Written(recs, texts, q, k), p)
  }

  /** A dropped value that was used makes its producer dead; a `ret` also kills unused caller-saved registers. */
  ghost predicate KillsLine(recs: seq<StmtRec>, texts: seq<string>, q: nat, k: string, p: nat)
    requires Lists(recs, texts) && q < |recs|
  {
    || (DroppedAt(recs, texts, q, k, p) && Used(recs, texts, q + 1, k, p))
    || (ForgottenAt(recs, texts, q, k, p) && (k in CALLER_SAVED || Used(recs, texts, q + 1, k, p)))
  }

  ghost predicate DeadLine(recs: seq<StmtRec>, texts: seq<string>, n: nat, p: nat)
    requires Lists(recs, texts) && n <= |recs|
  {
    exists q: nat, k :: q < n && KillsLine(recs, texts, q, k, p)
  }

  // ------------------------------------------- the pass follows every storage so

  ghost function Texts(start: seq<StmtRec>): (r: seq<string>)
    ensures Lists(start, r) && forall i :: 0 <= i < |r| ==> r[i] == TextAt(start, i)
  {
    seq(|start|, i requires 0 <= i < |start| => TextAt(start, i))
  }

  /** What a map of live values says of one storage. */
  ghost function View(live: Live, k: string): Option<Value> {
    if k in live then Some(Value(live[k].producer, live[k].expr)) else None
  }

  lemma {:induction false} CountedKeeps(live: Live, canon: string, text: string)
    ensures SameExprs(live, Counted(live, canon, text))
  {
    hide Names;
  }

  lemma {:induction false} ReadsKeep(text: string, live: Live, now: Live, keys: seq<string>)
    ensures SameExprs(now, ReadsLive(text, live, now, keys))
    decreases |keys|
  {
    hide SubstText, Counted;
    if keys != [] {
      CountedKeeps(now, keys[0], text);
      ReadsKeep(if keys[0] in live then SubstText(text, keys[0], live[keys[0]].expr) else text, live,
                Counted(now, keys[0], text), keys[1..]);
    }
  }

  lemma {:induction false} SameView(a: Live, b: Live, k: string)
    requires SameExprs(a, b)
    ensures View(a, k) == View(b, k)
  {
  }

  /** The first part of an iteration, for one storage. */
  lemma {:induction false} ReadView(start: seq<StmtRec>, i: nat, k: string)
    requires i < |start| && View(LiveAt(start, i), k) == Before(start, Texts(start), i, k)
    ensures View(ReadOutcome(start[i], LiveAt(start, i)).live, k) == AtWrite(start, Texts(start), i, k)
  {
    hide LiveAt, ReadsText, ReadsLive, Victims, SlotsOf, After, Texts;
    var live := LiveAt(start, i);
    var here: Live := if start[i].isLabelTarget then map[] else live;
    ReadsKeep(start[i].text, here, here, Text.Ordered(here.Keys));
    SameView(here, ReadsLive(start[i].text, here, here, Text.Ordered(here.Keys)), k);
    assert View(here, k) == AtRead(start, Texts(start), i, k);
    assert k in Members(CALLER_SAVED) <==> k in CALLER_SAVED;
  }

  ghost predicate AgreeAtWrite(start: seq<StmtRec>, i: nat, live: Live)
    requires i < |start|
  {
    forall k :: View(live, k) == AtWrite(start, Texts(start), i, k)
  }

  lemma {:induction false} EffectView(start: seq<StmtRec>, i: nat, live: Live, k: string)
    requires i < |start| && AgreeAtWrite(start, i, live)
    ensures
      var effect := WriteEffect(live, TextAt(start, i), i);
      && View(effect.live, k) == Written(start, Texts(start), i, k)
      && (effect.skip <==> Skips(start, Texts(start), i))
      && (k in effect.dropped ==> Touches(TextAt(start, i), k))
      && (k in live && Touches(TextAt(start, i), k) ==> k in effect.dropped)
  {
    hide LiveAt, ReadOutcome, TextAt, ParseSimpleAssign, IsCallText, CallRhs, IsNarrow, CanonicalStorage, AtWrite;
    var text := TextAt(start, i);
    assert Texts(start)[i] == text;
    hide Texts;
    assert View(live, k) == AtWrite(start, Texts(start), i, k);
    var p := ParseSimpleAssign(text);
    if p.Some? {
      var c := CanonicalStorage(p.value.lhs);
      assert View(live, c) == AtWrite(start, Texts(start), i, c);
    }
  }

  lemma {:induction false} WriteView(start: seq<StmtRec>, i: nat, live: Live, k: string)
    requires i < |start| && AgreeAtWrite(start, i, live)
    ensures View(WriteOutcome(start[i].mnemonic, TextAt(start, i), live, i).live, k) == After(start, Texts(start), i, k)
  {
    hide LiveAt, Texts, TextAt, WriteEffect, AtWrite, Written, Skips, Victims, SlotsOf, RegisterAliases, AgreeAtWrite;
    EffectView(start, i, live, k);
  }

  /** The pass's live values are what every storage holds on its own. */
  lemma {:induction false} LiveIsFlow(start: seq<StmtRec>, n: nat, k: string)
    requires n <= |start|
    ensures View(LiveAt(start, n), k) == Before(start, Texts(start), n, k)
    decreases n, 0
  {
    hide ReadOutcome, WriteOutcome, Texts, After, AtWrite, View;
    if n == 0 {
      NothingLive(start, k);
    } else {
      AgreesAt(start, n - 1);
      StepUnfolds(start, n - 1);
      WriteView(start, n - 1, ReadOutcome(start[n - 1], LiveAt(start, n - 1)).live, k);
    }
  }

  lemma {:induction false} NothingLive(start: seq<StmtRec>, k: string)
    ensures View(LiveAt(start, 0), k) == None
  {
  }

  lemma {:induction false} AgreesAt(start: seq<StmtRec>, i: nat)
    requires i < |start|
    ensures AgreeAtWrite(start, i, ReadOutcome(start[i], LiveAt(start, i)).live)
    decreases i, 1
  {
    hide ReadOutcome, Texts, AtWrite, View, LiveAt;
    forall k ensures View(ReadOutcome(start[i], LiveAt(start, i)).live, k) == AtWrite(start, Texts(start), i, k) {
      LiveIsFlow(start, i, k);
      ReadView(start, i, k);
    }
  }

  // ------------------------------------------------------------ texts and uses

  ghost function Exprs(live: Live): map<string, string> { map k | k in live :: live[k].expr }

  lemma {:induction false} ReadsIsSubst(text: string, live: Live, keys: seq<string>)
    ensures ReadsText(text, live, keys) == SubstAll(text, Exprs(live), keys)
    decreases |keys|
  {
    hide SubstText;
    if keys != [] {
      ReadsIsSubst(if keys[0] in live then SubstText(text, keys[0], live[keys[0]].expr) else text, live, keys[1..]);
    }
  }

  /** The live values that the reads of statement `i` see. */
  ghost function Here(start: seq<StmtRec>, i: nat): Live
    requires i < |start|
  {
    if start[i].isLabelTarget then map[] else LiveAt(start, i)
  }

  lemma {:induction false} HereView(start: seq<StmtRec>, i: nat, k: string)
    requires i < |start|
    ensures View(Here(start, i), k) == AtRead(start, Texts(start), i, k)
  {
    hide LiveAt, Texts, After;
    LiveIsFlow(start, i, k);
  }

  lemma {:induction false} HereIsSeen(start: seq<StmtRec>, i: nat)
    requires i < |start|
    ensures SeenAt(start, Texts(start), i, Exprs(Here(start, i)))
    ensures forall exprs :: SeenAt(start, Texts(start), i, exprs) ==> exprs == Exprs(Here(start, i))
  {
    hide Here, Texts, AtRead;
    forall k ensures View(Here(start, i), k) == AtRead(start, Texts(start), i, k) { HereView(start, i, k); }
  }

  /** Every text is the original one with the values of the last writes substituted. */
  lemma {:induction false} TextIsComposed(start: seq<StmtRec>, i: nat)
    requires i < |start|
    ensures ComposedFrom(start, Texts(start), i)
  {
    hide LiveAt, ReadsText, ReadsLive, SubstAll, SeenAt, Victims, SlotsOf;
    var here := Here(start, i);
    HereIsSeen(start, i);
    ReadsIsSubst(start[i].text, here, Text.Ordered(here.Keys));
    assert Exprs(here).Keys == here.Keys;
    assert Texts(start)[i] == TextAt(start, i) == ReadsText(start[i].text, here, Text.Ordered(here.Keys));
  }

  ghost predicate Distinct(keys: seq<string>) {
    forall i, j :: 0 <= i < j < |keys| ==> keys[i] != keys[j]
  }

  lemma {:induction false} DistinctTail(keys: seq<string>)
    requires Distinct(keys) && keys != []
    ensures Distinct(keys[1..]) && keys[0] !in keys[1..]
    ensures forall k :: k in keys <==> k == keys[0] || k in keys[1..]
  {
    assert keys == [keys[0]] + keys[1..];
  }

  /** The rewriting counts a storage exactly when it is named at its turn. */
  lemma {:induction false} CountedAtTurn(text: string, live: Live, now: Live, keys: seq<string>, k: string)
    requires Distinct(keys) && k in now
    ensures
      var r := ReadsLive(text, live, now, keys);
      && k in r
      && (r[k].useCount > 0 <==> now[k].useCount > 0 || (k in keys && Names(TurnText(text, Exprs(live), keys, k), k)))
    decreases |keys|
  {
    hide SubstText, Names;
    if keys != [] {
      DistinctTail(keys);
      var next := if keys[0] in live then SubstText(text, keys[0], live[keys[0]].expr) else text;
      CountedAtTurn(next, live, Counted(now, keys[0], text), keys[1..], k);
    }
  }

  /** The live values once the reads of statement `i` are rewritten. */
  ghost function ReadHere(start: seq<StmtRec>, i: nat): Live
    requires i < |start|
  {
    ReadsLive(start[i].text, Here(start, i), Here(start, i), Text.Ordered(Here(start, i).Keys))
  }

  lemma {:induction false} CountIsUse(start: seq<StmtRec>, i: nat, k: string)
    requires i < |start| && k in Here(start, i)
    ensures
      var v, r := Here(start, i)[k], ReadHere(start, i);
      k in r && (r[k].useCount > 0 <==> v.useCount > 0 || Uses(start, Texts(start), i, k, v.producer))
  {
    hide Here, ReadsLive, Names, TurnText, SeenAt, AtRead, Texts;
    var here := Here(start, i);
    var keys := Text.Ordered(here.Keys);
    Text.OrderedDistinct(here.Keys);
    Text.OrderedMembers(here.Keys, k);
    CountedAtTurn(start[i].text, here, here, keys, k);
    HereView(start, i, k);
    HereIsSeen(start, i);
    assert Exprs(here).Keys == here.Keys;
  }

  lemma {:induction false} UsedStep(recs: seq<StmtRec>, texts: seq<string>, n: nat, k: string, p: nat)
    requires Lists(recs, texts) && n < |recs|
    ensures Used(recs, texts, n + 1, k, p) <==> Used(recs, texts, n, k, p) || Uses(recs, texts, n, k, p)
  {
    hide Uses;
  }

  lemma {:induction false} NotYetUsed(recs: seq<StmtRec>, texts: seq<string>, n: nat, k: string)
    requires Lists(recs, texts) && n < |recs|
    ensures !Used(recs, texts, n + 1, k, n)
  {
    hide AtRead, SeenAt, Names, TurnText;
    forall r: nat | r < n + 1 ensures !Uses(recs, texts, r, k, n) {
      if AtRead(recs, texts, r, k).Some? { ProducerBelow(recs, texts, r, k); }
    }
  }

  ghost predicate CountsAre(start: seq<StmtRec>, n: nat, live: Live)
    requires n <= |start|
  {
    forall k :: k in live ==> (live[k].useCount > 0 <==> Used(start, Texts(start), n, k, live[k].producer))
  }

  lemma {:induction false} ReadCounts(start: seq<StmtRec>, i: nat)
    requires i < |start| && CountsAre(start, i, LiveAt(start, i))
    ensures CountsAre(start, i + 1, ReadHere(start, i)) && SameExprs(Here(start, i), ReadHere(start, i))
  {
    hide ReadsLive, Used, Uses, Texts, LiveAt;
    var here, r := Here(start, i), ReadHere(start, i);
    ReadsKeep(start[i].text, here, here, Text.Ordered(here.Keys));
    forall k | k in r ensures r[k].useCount > 0 <==> Used(start, Texts(start), i + 1, k, r[k].producer) {
      CountIsUse(start, i, k);
      UsedStep(start, Texts(start), i, k, r[k].producer);
    }
  }

  lemma {:induction false} FewerCounts(start: seq<StmtRec>, n: nat, live: Live, gone: set<string>)
    requires n <= |start| && CountsAre(start, n, live)
    ensures CountsAre(start, n, live - gone)
  {
    hide Used, Texts;
  }

  lemma {:induction false} ReadOutcomeIs(start: seq<StmtRec>, i: nat)
    requires i < |start|
    ensures
      var read, outcome := ReadHere(start, i), ReadOutcome(start[i], LiveAt(start, i));
      && outcome.live == (if start[i].mnemonic == "call" then read - Members(CALLER_SAVED) else read)
      && outcome.victims
          == (if start[i].isLabelTarget then Victims(SlotsOf(LiveAt(start, i)), LiveAt(start, i).Keys, {}) else {})
             + (if start[i].mnemonic == "call" then Victims(SlotsOf(read), Members(CALLER_SAVED), {}) else {})
  {
    hide LiveAt, ReadsText, ReadsLive, Victims, SlotsOf;
  }

  lemma {:induction false} EffectCounts(start: seq<StmtRec>, i: nat, live: Live, text: string)
    requires i < |start| && CountsAre(start, i + 1, live)
    ensures CountsAre(start, i + 1, WriteEffect(live, text, i).live)
  {
    hide Used, Texts, ParseSimpleAssign, IsCallText, CallRhs, IsNarrow, CanonicalStorage, NewExpr;
    var after := i + 1;
    forall k ensures !Used(start, Texts(start), after, k, i) { NotYetUsed(start, Texts(start), i, k); }
  }

  lemma {:induction false} LiveCounts(start: seq<StmtRec>, n: nat)
    requires n <= |start|
    ensures CountsAre(start, n, LiveAt(start, n))
  {
    hide CountsAre, ReadOutcome, WriteEffect, Victims, SlotsOf, ReadHere;
    if n == 0 {
      NoCounts(start);
    } else {
      var i := n - 1;
      LiveCounts(start, i);
      ReadCounts(start, i);
      ReadOutcomeIs(start, i);
      FewerCounts(start, n, ReadHere(start, i), Members(CALLER_SAVED));
      StepUnfolds(start, i);
      var read := ReadOutcome(start[i], LiveAt(start, i));
      EffectCounts(start, i, read.live, read.text);
      var effect := WriteEffect(read.live, read.text, i);
      FewerCounts(start, n, effect.live, RegistersOf(effect.live));
    }
  }

  lemma {:induction false} NoCounts(start: seq<StmtRec>)
    ensures CountsAre(start, 0, LiveAt(start, 0))
  {
  }

  // -------------------------------------------------------------------- dead lines

  ghost predicate VictimVia(live: Live, canons: set<string>, forced: set<string>, k: string, p: nat) {
    k in live && k in canons && (k in forced || live[k].useCount > 0) && live[k].producer == p
  }

  lemma {:induction false} VictimsVia(live: Live, canons: set<string>, forced: set<string>, p: nat)
    ensures p in Victims(SlotsOf(live), canons, forced) <==> exists k :: VictimVia(live, canons, forced, k, p)
  {
    var slots := SlotsOf(live);
    if p in Victims(slots, canons, forced) {
      var k :| k in slots && k in canons && (k in forced || slots[k].used) && slots[k].producer == p;
      assert VictimVia(live, canons, forced, k, p);
    }
    if k :| VictimVia(live, canons, forced, k, p) {
      assert slots[k].producer == p;
    }
  }

  /** Which values the first part of iteration `i` drops while they are used. */
  ghost predicate KilledReading(start: seq<StmtRec>, i: nat, k: string, p: nat)
    requires i < |start|
  {
    var texts := Texts(start);
    && Used(start, texts, i + 1, k, p)
    && (|| (start[i].isLabelTarget && From(Before(start, texts, i, k), p))
        || (start[i].mnemonic == "call" && k in CALLER_SAVED && From(AtRead(start, texts, i, k), p)))
  }

  lemma {:induction false} LabelVictim(start: seq<StmtRec>, i: nat, k: string, p: nat)
    requires i < |start| && start[i].isLabelTarget
    ensures VictimVia(LiveAt(start, i), LiveAt(start, i).Keys, {}, k, p)
        <==> From(Before(start, Texts(start), i, k), p) && Used(start, Texts(start), i + 1, k, p)
  {
    hide LiveAt, Texts, Used, After;
    LiveIsFlow(start, i, k);
    LiveCounts(start, i);
    UsedStep(start, Texts(start), i, k, p);
    assert !Uses(start, Texts(start), i, k, p);
  }

  lemma {:induction false} CallVictim(start: seq<StmtRec>, i: nat, k: string, p: nat)
    requires i < |start|
    ensures VictimVia(ReadHere(start, i), Members(CALLER_SAVED), {}, k, p)
        <==> k in CALLER_SAVED && From(AtRead(start, Texts(start), i, k), p) && Used(start, Texts(start), i + 1, k, p)
  {
    hide LiveAt, Here, ReadHere, Texts, Used, AtRead;
    LiveCounts(start, i);
    ReadCounts(start, i);
    HereView(start, i, k);
    SameView(Here(start, i), ReadHere(start, i), k);
    assert k in Members(CALLER_SAVED) <==> k in CALLER_SAVED;
  }

  lemma {:induction false} ReadVictims(start: seq<StmtRec>, i: nat, p: nat)
    requires i < |start|
    ensures p in ReadOutcome(start[i], LiveAt(start, i)).victims <==> exists k :: KilledReading(start, i, k, p)
  {
    hide LiveAt, Here, ReadHere, Texts, Used, AtRead, ReadOutcome, Before, VictimVia, Victims, SlotsOf;
    ReadOutcomeIs(start, i);
    VictimsVia(LiveAt(start, i), LiveAt(start, i).Keys, {}, p);
    VictimsVia(ReadHere(start, i), Members(CALLER_SAVED), {}, p);
    forall k
      ensures start[i].isLabelTarget ==>
          (VictimVia(LiveAt(start, i), LiveAt(start, i).Keys, {}, k, p)
           <==> From(Before(start, Texts(start), i, k), p) && Used(start, Texts(start), i + 1, k, p))
      ensures VictimVia(ReadHere(start, i), Members(CALLER_SAVED), {}, k, p)
          <==> k in CALLER_SAVED && From(AtRead(start, Texts(start), i, k), p) && Used(start, Texts(start), i + 1, k, p)
    {
      if start[i].isLabelTarget { LabelVictim(start, i, k, p); }
      CallVictim(start, i, k, p);
    }
    if k :| KilledReading(start, i, k, p) {
      assert VictimVia(LiveAt(start, i), LiveAt(start, i).Keys, {}, k, p)
          || VictimVia(ReadHere(start, i), Members(CALLER_SAVED), {}, k, p);
    }
    if p in ReadOutcome(start[i], LiveAt(start, i)).victims {
      var k :| (start[i].isLabelTarget && VictimVia(LiveAt(start, i), LiveAt(start, i).Keys, {}, k, p))
          || (start[i].mnemonic == "call" && VictimVia(ReadHere(start, i), Members(CALLER_SAVED), {}, k, p));
      assert KilledReading(start, i, k, p);
    }
  }

  /** Which values the second part drops. */
  ghost predicate KilledWriting(start: seq<StmtRec>, i: nat, k: string, p: nat)
    requires i < |start|
  {
    var texts := Texts(start);
    || (Touches(texts[i], k) && From(AtWrite(start, texts, i, k), p) && Used(start, texts, i + 1, k, p))
    || (ForgottenAt(start, texts, i, k, p) && (k in CALLER_SAVED || Used(start, texts, i + 1, k, p)))
  }

  /** The facts about the live values between the two parts. */
  ghost predicate AtTheWrite(start: seq<StmtRec>, i: nat, live: Live)
    requires i < |start|
  {
    AgreeAtWrite(start, i, live) && CountsAre(start, i + 1, live)
  }

  lemma {:induction false} BetweenParts(start: seq<StmtRec>, i: nat)
    requires i < |start|
    ensures AtTheWrite(start, i, ReadOutcome(start[i], LiveAt(start, i)).live)
  {
    hide CountsAre, ReadOutcome, LiveAt, ReadHere, Victims, SlotsOf, AgreeAtWrite;
    AgreesAt(start, i);
    LiveCounts(start, i);
    ReadCounts(start, i);
    ReadOutcomeIs(start, i);
    FewerCounts(start, i + 1, ReadHere(start, i), Members(CALLER_SAVED));
  }

  lemma {:induction false} OverwriteVictim(start: seq<StmtRec>, i: nat, live: Live, k: string, p: nat)
    requires i < |start| && AtTheWrite(start, i, live)
    ensures VictimVia(live, WriteEffect(live, TextAt(start, i), i).dropped, {}, k, p)
        <==> (&& Touches(Texts(start)[i], k) && From(AtWrite(start, Texts(start), i, k), p)
              && Used(start, Texts(start), i + 1, k, p))
  {
    hide LiveAt, TextAt, WriteEffect, Written, Skips, AtWrite, Used, Touches;
    EffectView(start, i, live, k);
    assert View(live, k) == AtWrite(start, Texts(start), i, k);
  }

  lemma {:induction false} ReturnVictim(start: seq<StmtRec>, i: nat, live: Live, k: string, p: nat)
    requires i < |start| && AtTheWrite(start, i, live)
    ensures
      var effect := WriteEffect(live, TextAt(start, i), i);
      VictimVia(effect.live, RegistersOf(effect.live), Members(CALLER_SAVED), k, p)
      <==> (&& IsRegister(k) && From(Written(start, Texts(start), i, k), p)
            && (k in CALLER_SAVED || Used(start, Texts(start), i + 1, k, p)))
  {
    hide LiveAt, TextAt, WriteEffect, Written, Skips, AtWrite, Used, Touches, RegisterAliases, AgreeAtWrite, Texts;
    EffectView(start, i, live, k);
    EffectCounts(start, i, live, TextAt(start, i));
    assert k in Members(CALLER_SAVED) <==> k in CALLER_SAVED;
  }

  lemma {:induction false} WriteVictims(start: seq<StmtRec>, i: nat, live: Live, p: nat)
    requires i < |start| && AtTheWrite(start, i, live)
    ensures p in WriteOutcome(start[i].mnemonic, TextAt(start, i), live, i).victims
        <==> exists k :: KilledWriting(start, i, k, p)
  {
    hide LiveAt, TextAt, WriteEffect, Written, AtWrite, Used, Touches, RegisterAliases, AtTheWrite, Texts, VictimVia;
    hide Victims, SlotsOf, Skips, RegistersOf;
    var effect := WriteEffect(live, TextAt(start, i), i);
    SkipsAsEffect(start, i, live);
    VictimsVia(live, effect.dropped, {}, p);
    VictimsVia(effect.live, RegistersOf(effect.live), Members(CALLER_SAVED), p);
    forall k
      ensures VictimVia(live, effect.dropped, {}, k, p)
          <==> (&& Touches(Texts(start)[i], k) && From(AtWrite(start, Texts(start), i, k), p)
                && Used(start, Texts(start), i + 1, k, p))
      ensures VictimVia(effect.live, RegistersOf(effect.live), Members(CALLER_SAVED), k, p)
          <==> (&& IsRegister(k) && From(Written(start, Texts(start), i, k), p)
                && (k in CALLER_SAVED || Used(start, Texts(start), i + 1, k, p)))
    {
      OverwriteVictim(start, i, live, k, p);
      ReturnVictim(start, i, live, k, p);
    }
    if k :| KilledWriting(start, i, k, p) {
      assert VictimVia(live, effect.dropped, {}, k, p)
          || VictimVia(effect.live, RegistersOf(effect.live), Members(CALLER_SAVED), k, p);
    }
    if p in WriteOutcome(start[i].mnemonic, TextAt(start, i), live, i).victims {
      var ends := !effect.skip && start[i].mnemonic == "ret";
      var k :| VictimVia(live, effect.dropped, {}, k, p)
          || (ends && VictimVia(effect.live, RegistersOf(effect.live), Members(CALLER_SAVED), k, p));
      assert KilledWriting(start, i, k, p);
    }
  }

  lemma {:induction false} SkipsAsEffect(start: seq<StmtRec>, i: nat, live: Live)
    requires i < |start| && AtTheWrite(start, i, live)
    ensures WriteEffect(live, TextAt(start, i), i).skip <==> Skips(start, Texts(start), i)
  {
    hide WriteEffect, Skips, AgreeAtWrite, CountsAre, Written, Touches;
    EffectView(start, i, live, "");
  }

  lemma {:induction false} KillsIsEither(start: seq<StmtRec>, i: nat, k: string, p: nat)
    requires i < |start|
    ensures KillsLine(start, Texts(start), i, k, p) <==> KilledReading(start, i, k, p) || KilledWriting(start, i, k, p)
  {
    hide Texts, Used, AtRead, AtWrite, Written, Before, Touches, ForgottenAt;
  }

  /** The lines flagged by the first `n` statements are the dead ones. */
  lemma {:induction false} DeadIsFlow(start: seq<StmtRec>, n: nat, p: nat)
    requires n <= |start|
    ensures p in DeadBy(start, n) <==> DeadLine(start, Texts(start), n, p)
  {
    hide ReadOutcome, WriteOutcome, KilledReading, KilledWriting, KillsLine, LiveAt, Texts, TextAt, AtTheWrite;
    if n > 0 {
      var i := n - 1;
      DeadIsFlow(start, i, p);
      StepUnfolds(start, i);
      ReadVictims(start, i, p);
      BetweenParts(start, i);
      WriteVictims(start, i, ReadOutcome(start[i], LiveAt(start, i)).live, p);
      forall k ensures KillsLine(start, Texts(start), i, k, p)
          <==> KilledReading(start, i, k, p) || KilledWriting(start, i, k, p)
      {
        KillsIsEither(start, i, k, p);
      }
      hide DeadBy;
      assert (exists k :: KillsLine(start, Texts(start), i, k, p))
          <==> (exists k :: KilledReading(start, i, k, p)) || (exists k :: KilledWriting(start, i, k, p));
    }
  }

  // ----------------------------------------------------------------- consequences

  /** A branch target keeps its text. */
  lemma {:induction false} LabelKeepsText(recs: seq<StmtRec>, texts: seq<string>, i: nat)
    requires Lists(recs, texts) && i < |recs| && ComposedFrom(recs, texts, i) && recs[i].isLabelTarget
    ensures texts[i] == recs[i].text
  {
    var exprs :|
      SeenAt(recs, texts, i, exprs) && texts[i] == SubstAll(recs[i].text, exprs, Text.Ordered(exprs.Keys));
    forall k ensures k !in exprs { assert AtRead(recs, texts, i, k) == None; }
    assert exprs.Keys == {};
  }

  /** Where no name of the storage stands, substituting it changes nothing. */
  lemma {:induction false} UnnamedStays(text: string, canon: string, expr: string)
    requires !Names(text, canon)
    ensures SubstText(text, canon, expr) == text
  {
    hide BodyRange, Replaced, Tokens, Sweep;
    var (lo, hi) := BodyRange(text);
    var body, names := text[lo..hi], Needles(canon);
    NeedlesShape(canon);
    if Words(names) {
      NothingToReplace(body, names, Wrapped(expr));
    } else {
      assert forall i: nat :: !WordAt(body, names[0], i);
      SweepEnds(body, canon, Wrapped(expr), 0);
    }
    assert text == text[..lo] + body + text[hi..];
  }

  lemma {:induction false} ChangedIsNamed(text: string, exprs: map<string, string>, keys: seq<string>)
    returns (k: string)
    requires SubstAll(text, exprs, keys) != text && Distinct(keys)
    ensures k in keys && k in exprs && Names(TurnText(text, exprs, keys, k), k)
    decreases |keys|
  {
    hide SubstText, Names;
    var k0 := keys[0];
    DistinctTail(keys);
    if k0 in exprs && Names(text, k0) {
      k := k0;
    } else {
      if k0 in exprs { UnnamedStays(text, k0, exprs[k0]); }
      k := ChangedIsNamed(text, exprs, keys[1..]);
    }
  }

  /**
   * A text changes only where it names a storage whose last write lies before it with nothing in between that
   * could disturb the value: no branch target, no other write and, for a caller-saved register, no call.
   */
  lemma {:induction false} ChangesFollowWrites(recs: seq<StmtRec>, texts: seq<string>, i: nat)
    requires Lists(recs, texts) && i < |recs| && ComposedFrom(recs, texts, i) && texts[i] != recs[i].text
    ensures exists k, p: nat :: LastWrite(recs, texts, p, i, k) && Uses(recs, texts, i, k, p)
  {
    hide AtRead, After, SubstAll, TurnText, Names, LastWrite;
    var exprs :|
      SeenAt(recs, texts, i, exprs) && texts[i] == SubstAll(recs[i].text, exprs, Text.Ordered(exprs.Keys));
    Text.OrderedDistinct(exprs.Keys);
    var k := ChangedIsNamed(recs[i].text, exprs, Text.Ordered(exprs.Keys));
    var v := AtRead(recs, texts, i, k).value;
    ReadSeesLastWrite(recs, texts, i, k, v);
    assert LastWrite(recs, texts, v.producer, i, k) && Uses(recs, texts, i, k, v.producer);
  }
}
