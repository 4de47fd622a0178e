/** Type recovery: seeds from dataflow tags and API prototypes, then bounded propagation. */
module TypeRecovery {
  import opened Common
  import Text

  datatype Flow = Flow(from: Option<string>, to: string, tag: Option<string>)

  datatype Proto = Proto(args: seq<string>, returnType: string)

  /** The flows of one call site: its prototype, if known, and the (register, argument index) pairs. */
  datatype Call = Call(proto: Option<Proto>, arguments: seq<(string, nat)>)

  type Types = map<string, string>

  function OrInsert(types: Types, k: string, ty: string): Types {
    if k in types then types else types[k := ty]
  }

  // ------------------------------------------------------------------- seeding

  /** Nothing already typed is ever retyped. */
  ghost predicate Grows(a: Types, b: Types) {
    forall k :: k in a ==> k in b && b[k] == a[k]
  }

  /** A storage and the C type that one piece of evidence suggests for it. */
  type Hint = (string, string)

  function TagHints(dataflow: seq<Flow>, toC: string -> string): seq<Hint> {
    if dataflow == [] then []
    else
      var e := dataflow[|dataflow| - 1];
      TagHints(dataflow[..|dataflow| - 1], toC) + if e.tag.Some? then [(e.to, toC(e.tag.value))] else []
  }

  function ArgumentHints(proto: Proto, arguments: seq<(string, nat)>, toC: string -> string): seq<Hint> {
    if arguments == [] then []
    else
      var (reg, index) := arguments[|arguments| - 1];
      ArgumentHints(proto, arguments[..|arguments| - 1], toC)
      + if index < |proto.args| then [(Text.Lower(reg), toC(proto.args[index]))] else []
  }

  function CallHints(calls: seq<Call>, toC: string -> string): seq<Hint> {
    if calls == [] then []
    else
      var c := calls[|calls| - 1];
      CallHints(calls[..|calls| - 1], toC)
      + if c.proto.None? then []
          else ArgumentHints(c.proto.value, c.arguments, toC) + [("rax", toC(c.proto.value.returnType))]
  }

  /** The earliest hint for a storage wins. */
  function FirstHint(hints: seq<Hint>, k: string): Option<string> {
    if hints == [] then None
    else if hints[0].0 == k then Some(hints[0].1)
    else FirstHint(hints[1..], k)
  }

  ghost predicate Follows(types: Types, hints: seq<Hint>) {
    forall k :: FirstHint(hints, k) == if k in types then Some(types[k]) else None
  }

  lemma {:induction false} FirstHintSnoc(hints: seq<Hint>, h: Hint, k: string)
    ensures var earlier := FirstHint(hints, k);
      FirstHint(hints + [h], k) == if earlier.Some? then earlier else if h.0 == k then Some(h.1) else None
  {
    if hints != [] {
      FirstHintSnoc(hints[1..], h, k);
      assert (hints + [h])[1..] == hints[1..] + [h];
    }
  }

  lemma {:induction false} InsertFollows(types: Types, hints: seq<Hint>, k: string, ty: string)
    requires Follows(types, hints)
    ensures Follows(OrInsert(types, k, ty), hints + [(k, ty)])
  {
    hide FirstHint;
    forall q ensures FirstHint(hints + [(k, ty)], q)
        == if q in OrInsert(types, k, ty) then Some(OrInsert(types, k, ty)[q]) else None {
      FirstHintSnoc(hints, (k, ty), q);
    }
  }

  // ------------------------------------------------------- which evidence decides

  ghost predicate TagSilent(e: Flow, k: string) { e.tag.None? || e.to != k }

  /** The first tagged edge into the storage carries this type. */
  ghost predicate TaggedFirst(dataflow: seq<Flow>, toC: string -> string, k: string, ty: string) {
    exists i ::
      && 0 <= i < |dataflow| && !TagSilent(dataflow[i], k) && ty == toC(dataflow[i].tag.value)
      && forall j :: 0 <= j < i ==> TagSilent(dataflow[j], k)
  }

  ghost predicate ArgumentSilent(proto: Proto, a: (string, nat), k: string) {
    Text.Lower(a.0) != k || a.1 >= |proto.args|
  }

  /** The first argument register of that name has the type of its argument index. */
  ghost predicate ArgumentFirst(proto: Proto, arguments: seq<(string, nat)>, toC: string -> string, k: string,
                                ty: string)
  {
    exists i ::
      && 0 <= i < |arguments| && !ArgumentSilent(proto, arguments[i], k) && ty == toC(proto.args[arguments[i].1])
      && forall j :: 0 <= j < i ==> ArgumentSilent(proto, arguments[j], k)
  }

  ghost predicate NoArgument(proto: Proto, arguments: seq<(string, nat)>, k: string) {
    forall j :: 0 <= j < |arguments| ==> ArgumentSilent(proto, arguments[j], k)
  }

  ghost predicate CallSilent(c: Call, k: string) {
    c.proto.None? || (NoArgument(c.proto.value, c.arguments, k) && k != "rax")
  }

  /** An argument register has its argument's type; else `rax` has the return type. */
  ghost predicate CallSays(c: Call, toC: string -> string, k: string, ty: string) {
    && c.proto.Some?
    && (|| ArgumentFirst(c.proto.value, c.arguments, toC, k, ty)
        || (NoArgument(c.proto.value, c.arguments, k) && k == "rax" && ty == toC(c.proto.value.returnType)))
  }

  ghost predicate CalledFirst(calls: seq<Call>, toC: string -> string, k: string, ty: string) {
    exists i :: 0 <= i < |calls| && CallSays(calls[i], toC, k, ty) && forall j :: 0 <= j < i ==> CallSilent(calls[j], k)
  }

  ghost predicate AllTagsSilent(dataflow: seq<Flow>, k: string) {
    forall j :: 0 <= j < |dataflow| ==> TagSilent(dataflow[j], k)
  }

  ghost predicate AllCallsSilent(calls: seq<Call>, k: string) {
    forall j :: 0 <= j < |calls| ==> CallSilent(calls[j], k)
  }

  lemma {:induction false} FirstHintAppend(a: seq<Hint>, b: seq<Hint>, k: string)
    ensures FirstHint(a + b, k) == if FirstHint(a, k).Some? then FirstHint(a, k) else FirstHint(b, k)
  {
    if a == [] {
      assert a + b == b;
    } else {
      FirstHintAppend(a[1..], b, k);
      assert (a + b)[1..] == a[1..] + b;
    }
  }

  lemma {:induction false} OneHint(h: Hint, k: string)
    ensures FirstHint([h], k) == if h.0 == k then Some(h.1) else None
  {
  }

  lemma {:induction false} TagsDecide(dataflow: seq<Flow>, toC: string -> string, k: string, ty: string)
    ensures FirstHint(TagHints(dataflow, toC), k) == Some(ty) <==> TaggedFirst(dataflow, toC, k, ty)
    ensures FirstHint(TagHints(dataflow, toC), k) == None <==> AllTagsSilent(dataflow, k)
  {
    hide FirstHint;
    if dataflow == [] {
      NoHint(k);
    } else {
      var n := |dataflow| - 1;
      var init, e := dataflow[..n], dataflow[n];
      TagsDecide(init, toC, k, ty);
      var last := if e.tag.Some? then [(e.to, toC(e.tag.value))] else [];
      FirstHintAppend(TagHints(init, toC), last, k);
      NoHint(k);
      if e.tag.Some? { OneHint(last[0], k); }
      assert forall j :: 0 <= j < n ==> init[j] == dataflow[j];
    }
  }

  lemma {:induction false} NoHint(k: string)
    ensures FirstHint([], k) == None
  {
  }

  lemma {:induction false} ArgumentsDecide(proto: Proto, arguments: seq<(string, nat)>, toC: string -> string,
                                           k: string, ty: string)
    ensures FirstHint(ArgumentHints(proto, arguments, toC), k) == Some(ty)
        <==> ArgumentFirst(proto, arguments, toC, k, ty)
    ensures FirstHint(ArgumentHints(proto, arguments, toC), k) == None <==> NoArgument(proto, arguments, k)
  {
    hide FirstHint, Text.Lower;
    if arguments == [] {
      NoHint(k);
    } else {
      var n := |arguments| - 1;
      var init, a := arguments[..n], arguments[n];
      ArgumentsDecide(proto, init, toC, k, ty);
      var last := if a.1 < |proto.args| then [(Text.Lower(a.0), toC(proto.args[a.1]))] else [];
      FirstHintAppend(ArgumentHints(proto, init, toC), last, k);
      NoHint(k);
      if last != [] { OneHint(last[0], k); }
      assert forall j :: 0 <= j < n ==> init[j] == arguments[j];
    }
  }

  function HintsOf(c: Call, toC: string -> string): seq<Hint> {
    if c.proto.None? then []
    else ArgumentHints(c.proto.value, c.arguments, toC) + [("rax", toC(c.proto.value.returnType))]
  }

  lemma {:induction false} CallDecides(c: Call, toC: string -> string, k: string, ty: string)
    ensures FirstHint(HintsOf(c, toC), k) == Some(ty) <==> CallSays(c, toC, k, ty)
    ensures FirstHint(HintsOf(c, toC), k) == None <==> CallSilent(c, k)
  {
    hide FirstHint, ArgumentHints, ArgumentFirst, NoArgument;
    NoHint(k);
    if c.proto.Some? {
      var proto := c.proto.value;
      ArgumentsDecide(proto, c.arguments, toC, k, ty);
      OneHint(("rax", toC(proto.returnType)), k);
      FirstHintAppend(ArgumentHints(proto, c.arguments, toC), [("rax", toC(proto.returnType))], k);
      if FirstHint(ArgumentHints(proto, c.arguments, toC), k).Some? {
        ArgumentsDecide(proto, c.arguments, toC, k, FirstHint(ArgumentHints(proto, c.arguments, toC), k).value);
      }
    }
  }

  lemma {:induction false} CallsDecide(calls: seq<Call>, toC: string -> string, k: string, ty: string)
    ensures FirstHint(CallHints(calls, toC), k) == Some(ty) <==> CalledFirst(calls, toC, k, ty)
    ensures FirstHint(CallHints(calls, toC), k) == None <==> AllCallsSilent(calls, k)
  {
    hide FirstHint, CallSays, CallSilent, ArgumentHints;
    if calls == [] {
      NoHint(k);
    } else {
      var n := |calls| - 1;
      var init, c := calls[..n], calls[n];
      CallsDecide(init, toC, k, ty);
      CallDecides(c, toC, k, ty);
      FirstHintAppend(CallHints(init, toC), HintsOf(c, toC), k);
      assert forall j :: 0 <= j < n ==> init[j] == calls[j];
    }
  }

  /** The seed of a storage: the first tagged edge into it, else the first call that says anything about it. */
  ghost predicate SeededBy(dataflow: seq<Flow>, calls: seq<Call>, toC: string -> string, k: string, ty: string) {
    || TaggedFirst(dataflow, toC, k, ty)
    || (AllTagsSilent(dataflow, k) && CalledFirst(calls, toC, k, ty))
  }

  lemma {:induction false} SeedsAreFirstEvidence(dataflow: seq<Flow>, calls: seq<Call>, toC: string -> string,
                                                 types: Types, k: string, ty: string)
    requires Follows(types, TagHints(dataflow, toC) + CallHints(calls, toC))
    ensures k in types && types[k] == ty <==> SeededBy(dataflow, calls, toC, k, ty)
  {
    hide FirstHint, TagHints, CallHints, TaggedFirst, AllTagsSilent, CalledFirst;
    var tags := TagHints(dataflow, toC);
    FirstHintAppend(tags, CallHints(calls, toC), k);
    TagsDecide(dataflow, toC, k, ty);
    CallsDecide(calls, toC, k, ty);
    assert FirstHint(tags + CallHints(calls, toC), k) == if k in types then Some(types[k]) else None;
  }

  /** Phases 1 and 2: the tags of the edges, then the prototypes of the calls, first evidence first. */
  method SeedTypes(dataflow: seq<Flow>, calls: seq<Call>, toC: string -> string) returns (types: Types)
    ensures Follows(types, TagHints(dataflow, toC) + CallHints(calls, toC))
  {
    hide Follows, FirstHint;
    types := map[];
    NoHints();
    for i := 0 to |dataflow|
      invariant Follows(types, TagHints(dataflow[..i], toC))
    {
      assert dataflow[..i + 1][..i] == dataflow[..i];
      if dataflow[i].tag.Some? {
        InsertFollows(types, TagHints(dataflow[..i], toC), dataflow[i].to, toC(dataflow[i].tag.value));
        types := OrInsert(types, dataflow[i].to, toC(dataflow[i].tag.value));
      } else {
        assert TagHints(dataflow[..i + 1], toC) == TagHints(dataflow[..i], toC);
      }
    }
    assert dataflow[..|dataflow|] == dataflow;
    ghost var tags := TagHints(dataflow, toC);
    assert tags + CallHints(calls[..0], toC) == tags;
    for i := 0 to |calls|
      invariant Follows(types, tags + CallHints(calls[..i], toC))
    {
      assert calls[..i + 1][..i] == calls[..i];
      if calls[i].proto.Some? {
        ghost var sofar := tags + CallHints(calls[..i], toC);
        types := SeedCall(types, calls[i].proto.value, calls[i].arguments, toC, sofar);
        CallSnoc(tags, calls, i, toC);
      } else {
        assert CallHints(calls[..i + 1], toC) == CallHints(calls[..i], toC);
      }
    }
    assert calls[..|calls|] == calls;
  }

  lemma {:induction false} NoHints()
    ensures Follows(map[], [])
  {
  }

  lemma {:induction false} CallSnoc(tags: seq<Hint>, calls: seq<Call>, i: nat, toC: string -> string)
    requires i < |calls| && calls[i].proto.Some?
    ensures tags + CallHints(calls[..i + 1], toC)
      == tags + CallHints(calls[..i], toC) + ArgumentHints(calls[i].proto.value, calls[i].arguments, toC)
         + [("rax", toC(calls[i].proto.value.returnType))]
  {
    hide ArgumentHints;
    assert calls[..i + 1][..i] == calls[..i];
  }

  method SeedCall(before: Types, proto: Proto, arguments: seq<(string, nat)>, toC: string -> string,
                  ghost hints: seq<Hint>)
    returns (types: Types)
    requires Follows(before, hints)
    ensures Follows(types, hints + ArgumentHints(proto, arguments, toC) + [("rax", toC(proto.returnType))])
  {
    hide Follows, FirstHint, Text.Lower;
    types := before;
    assert hints + ArgumentHints(proto, arguments[..0], toC) == hints;
    for i := 0 to |arguments|
      invariant Follows(types, hints + ArgumentHints(proto, arguments[..i], toC))
    {
      assert arguments[..i + 1][..i] == arguments[..i];
      var (reg, index) := arguments[i];
      ghost var sofar := hints + ArgumentHints(proto, arguments[..i], toC);
      if index < |proto.args| {
        InsertFollows(types, sofar, Text.Lower(reg), toC(proto.args[index]));
        types := OrInsert(types, Text.Lower(reg), toC(proto.args[index]));
        assert hints + ArgumentHints(proto, arguments[..i + 1], toC)
            == sofar + [(Text.Lower(reg), toC(proto.args[index]))];
      } else {
        assert hints + ArgumentHints(proto, arguments[..i + 1], toC) == sofar;
      }
    }
    assert arguments[..|arguments|] == arguments;
    InsertFollows(types, hints + ArgumentHints(proto, arguments, toC), "rax", toC(proto.returnType));
    types := OrInsert(types, "rax", toC(proto.returnType));
  }

  // --------------------------------------------------------------- propagation

  /** An edge is settled when its typed source has a typed target. */
  predicate Settled(types: Types, e: Flow) {
    e.from.Some? && Text.Lower(e.from.value) in types ==> Text.Lower(e.to) in types
  }

  ghost predicate Closed(types: Types, dataflow: seq<Flow>) {
    forall i :: 0 <= i < |dataflow| ==> Settled(types, dataflow[i])
  }

  ghost predicate Arc(dataflow: seq<Flow>, a: string, b: string) {
    exists i ::
      0 <= i < |dataflow| && dataflow[i].from.Some? && Text.Lower(dataflow[i].from.value) == a
        && Text.Lower(dataflow[i].to) == b
  }

  /** A chain of dataflow edges. */
  ghost predicate Chain(dataflow: seq<Flow>, names: seq<string>) {
    names != [] && forall i, j :: 0 <= i < j < |names| && j == i + 1 ==> Arc(dataflow, names[i], names[j])
  }

  ghost predicate ChainFrom(seeds: Types, dataflow: seq<Flow>, names: seq<string>, k: string, ty: string) {
    Chain(dataflow, names) && names[0] in seeds && names[|names| - 1] == k && seeds[names[0]] == ty
  }

  /** The type of `k` is a seed's type, carried along a chain of edges. */
  ghost predicate Traced(seeds: Types, dataflow: seq<Flow>, k: string, ty: string) {
    exists names :: ChainFrom(seeds, dataflow, names, k, ty)
  }

  ghost predicate AllTraced(seeds: Types, dataflow: seq<Flow>, types: Types) {
    forall k :: k in types ==> Traced(seeds, dataflow, k, types[k])
  }

  function Targets(dataflow: seq<Flow>): set<string> {
    set i | 0 <= i < |dataflow| :: Text.Lower(dataflow[i].to)
  }

  lemma {:induction false} TargetCount(dataflow: seq<Flow>)
    ensures |Targets(dataflow)| <= |dataflow|
  {
    if dataflow != [] {
      var init, last := dataflow[..|dataflow| - 1], dataflow[|dataflow| - 1];
      TargetCount(init);
      assert Targets(dataflow) == Targets(init) + {Text.Lower(last.to)};
    }
  }

  lemma {:induction false} TracedStep(seeds: Types, dataflow: seq<Flow>, types: Types, i: nat)
    requires AllTraced(seeds, dataflow, types) && i < |dataflow|
    requires dataflow[i].from.Some? && Text.Lower(dataflow[i].from.value) in types
    ensures Traced(seeds, dataflow, Text.Lower(dataflow[i].to), types[Text.Lower(dataflow[i].from.value)])
  {
    var a, b := Text.Lower(dataflow[i].from.value), Text.Lower(dataflow[i].to);
    hide Text.Lower;
    var names :| ChainFrom(seeds, dataflow, names, a, types[a]);
    assert Arc(dataflow, a, b);
    assert ChainFrom(seeds, dataflow, names + [b], b, types[a]);
  }

  /** What every moment of the propagation keeps. */
  ghost predicate Sound(seeds: Types, dataflow: seq<Flow>, types: Types) {
    Grows(seeds, types) && types.Keys <= seeds.Keys + Targets(dataflow) && AllTraced(seeds, dataflow, types)
  }

  lemma {:induction false} SeedsSound(seeds: Types, dataflow: seq<Flow>)
    ensures Sound(seeds, dataflow, seeds)
  {
    forall k | k in seeds
      ensures Traced(seeds, dataflow, k, seeds[k]) { assert ChainFrom(seeds, dataflow, [k], k, seeds[k]); }
  }

  lemma {:induction false} InsertSound(seeds: Types, dataflow: seq<Flow>, types: Types, i: nat)
    requires Sound(seeds, dataflow, types) && i < |dataflow|
    requires dataflow[i].from.Some? && Text.Lower(dataflow[i].from.value) in types
        && Text.Lower(dataflow[i].to) !in types
    ensures Sound(seeds, dataflow, types[Text.Lower(dataflow[i].to) := types[Text.Lower(dataflow[i].from.value)]])
  {
    TracedStep(seeds, dataflow, types, i);
    assert Text.Lower(dataflow[i].to) in Targets(dataflow);
    hide Text.Lower, Traced, Targets;
  }

  lemma {:induction false} InsertGrows(types: Types, b: string, ty: string)
    requires b !in types
    ensures |types[b := ty].Keys| == |types.Keys| + 1
  {
    assert types[b := ty].Keys == types.Keys + {b};
  }

  /** One sweep over the edges. */
  method Sweep(seeds: Types, dataflow: seq<Flow>, before: Types) returns (types: Types, changed: bool)
    requires Sound(seeds, dataflow, before)
    ensures Sound(seeds, dataflow, types)
    ensures changed ==> |types.Keys| > |before.Keys|
    ensures !changed ==> types == before && Closed(types, dataflow)
  {
    hide Sound, Text.Lower, Grows, Targets, AllTraced;
    types, changed := before, false;
    for i := 0 to |dataflow|
      invariant Sound(seeds, dataflow, types)
      invariant changed ==> |types.Keys| > |before.Keys|
      invariant !changed ==> types == before && forall j :: 0 <= j < i ==> Settled(before, dataflow[j])
    {
      var e := dataflow[i];
      if e.from.Some? {
        var a, b := Text.Lower(e.from.value), Text.Lower(e.to);
        if b !in types && a in types {
          InsertSound(seeds, dataflow, types, i);
          InsertGrows(types, b, types[a]);
          types := types[b := types[a]];
          changed := true;
        }
      }
    }
  }

  lemma {:induction false} KeyBound(seeds: Types, dataflow: seq<Flow>, types: Types)
    requires Sound(seeds, dataflow, types)
    ensures |types.Keys| <= |seeds.Keys| + |dataflow|
  {
    TargetCount(dataflow);
    var targets := Targets(dataflow);
    hide Targets, AllTraced;
    assert types.Keys <= seeds.Keys + targets;
    SetSize(types.Keys, seeds.Keys + targets);
    assert |seeds.Keys + targets| <= |seeds.Keys| + |targets|;
  }

  /** The fixpoint: seeds kept, closed under the edges, nothing typed without a trace to a seed. */
  ghost predicate Propagated(seeds: Types, dataflow: seq<Flow>, types: Types) {
    Grows(seeds, types) && Closed(types, dataflow) && AllTraced(seeds, dataflow, types)
  }

  /**
   * The edges + 1 bound never cuts the propagation short: the result is closed under the dataflow
   * edges, keeps every seed, and types nothing that does not trace back to a seed of that type.
   */
  method Propagate(dataflow: seq<Flow>, seeds: Types) returns (types: Types)
    ensures Propagated(seeds, dataflow, types)
  {
    hide Closed, AllTraced;
    types := seeds;
    SeedsSound(seeds, dataflow);
    var maxIter := |dataflow| + 1;
    for round := 0 to maxIter
      invariant Sound(seeds, dataflow, types)
      invariant |types.Keys| >= |seeds.Keys| + round
    {
      var changed;
      types, changed := Sweep(seeds, dataflow, types);
      if !changed { return; }
    }
    KeyBound(seeds, dataflow, types);
    assert false;
  }

  ghost predicate DefaultFor(storages: seq<string>, k: string) {
    exists i :: 0 <= i < |storages| && Text.Lower(storages[i]) == k
  }

  /** Exactly the SSA storages are added, each with its default. */
  ghost predicate Filled(before: Types, storages: seq<string>, defaultFor: string -> string, types: Types) {
    && Grows(before, types)
    && (forall k :: k in types <==> k in before || DefaultFor(storages, k))
    && (forall k :: k in types && k !in before ==> types[k] == defaultFor(k))
  }

  /** Phase 4: the remaining SSA storages get their width's default; nothing else changes. */
  method FillDefaults(storages: seq<string>, before: Types, defaultFor: string -> string) returns (types: Types)
    ensures Filled(before, storages, defaultFor, types)
  {
    hide Text.Lower;
    types := before;
    for i := 0 to |storages|
      invariant Grows(before, types)
      invariant forall k :: k in types <==> k in before || DefaultFor(storages[..i], k)
      invariant forall k :: k in types && k !in before ==> types[k] == defaultFor(k)
    {
      DefaultSnoc(storages, i);
      types := OrInsert(types, Text.Lower(storages[i]), defaultFor(Text.Lower(storages[i])));
    }
    assert storages[..|storages|] == storages;
  }

  lemma {:induction false} DefaultSnoc(storages: seq<string>, n: nat)
    requires n < |storages|
    ensures forall k ::
        DefaultFor(storages[..n + 1], k) <==> DefaultFor(storages[..n], k) || k == Text.Lower(storages[n])
  {
    var a, b := storages[..n], storages[..n + 1];
    assert forall i :: 0 <= i < n ==> b[i] == a[i];
    assert b[n] == storages[n];
    forall k | DefaultFor(a, k) ensures DefaultFor(b, k) {
      var i :| 0 <= i < |a| && Text.Lower(a[i]) == k;
      assert Text.Lower(b[i]) == k;
    }
  }

  /** All four phases. */
  method RecoverTypes(storages: seq<string>, dataflow: seq<Flow>, calls: seq<Call>, toC: string -> string,
                      defaultFor: string -> string)
    returns (types: Types)
    ensures exists seeds, propagated ::
      && Follows(seeds, TagHints(dataflow, toC) + CallHints(calls, toC))
      && Propagated(seeds, dataflow, propagated)
      && Filled(propagated, storages, defaultFor, types)
  {
    hide *;
    types := SeedTypes(dataflow, calls, toC);
    ghost var seeds := types;
    types := Propagate(dataflow, types);
    ghost var propagated := types;
    types := FillDefaults(storages, types, defaultFor);
    assert Propagated(seeds, dataflow, propagated) && Filled(propagated, storages, defaultFor, types);
  }
}
