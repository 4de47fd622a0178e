/** Taking files into the folder scan's queue under its file and byte budgets. */
module FolderIntake {
  import opened Common

  datatype Options = Options(maxFiles: nat, maxBytes: nat, singleFileLimit: nat, noExtract: bool, archiveDepth: nat)

  datatype Item = Item(path: string, size: nat, extractedFrom: Option<string>, depth: nat)

  /** A directory entry or an extracted file. */
  datatype Entry = Entry(path: string, isFile: bool, size: nat)

  datatype Reason =
    | MaxFilesReached | OverSingleFileLimit | MaxBytesReached                       // while enqueueing
    | ReadFailed | ExtractionDisabledOrExhausted | NotSupported | SampleDirFailed   // a processed item's own
    | ArchiveReadFailed | ExtractDestFailed | ArchiveSkipped                        // about a handed-over archive

  datatype Skip = Skip(path: string, reason: Reason)

  // ------------------------------------------------------- sizes, paths, potential

  function TotalSize(items: seq<Item>): nat {
    if items == [] then 0 else TotalSize(items[..|items| - 1]) + items[|items| - 1].size
  }

  function PathSet(items: seq<Item>): set<string> {
    set i | 0 <= i < |items| :: items[i].path
  }

  ghost predicate DistinctPaths(items: seq<Item>) {
    forall i, j :: 0 <= i < j < |items| ==> items[i].path != items[j].path
  }

  /** Most items that an item with this remaining archive depth can ever stand for. */
  function Weight(m: nat, depth: nat): (w: nat)
    ensures w >= 1
  {
    if depth == 0 then 1 else (m + 1) * Weight(m, depth - 1)
  }

  function Potential(m: nat, items: seq<Item>): nat {
    if items == [] then 0 else Potential(m, items[..|items| - 1]) + Weight(m, items[|items| - 1].depth)
  }

  lemma {:induction false} PotentialConcat(m: nat, a: seq<Item>, b: seq<Item>)
    ensures Potential(m, a + b) == Potential(m, a) + Potential(m, b)
  {
    if b == [] {
      assert a + b == a;
    } else {
      PotentialConcat(m, a, b[..|b| - 1]);
      assert (a + b)[..|a + b| - 1] == a + b[..|b| - 1];
    }
  }

  lemma {:induction false} PotentialRemove(m: nat, items: seq<Item>, k: nat)
    requires k < |items|
    ensures Potential(m, items) == Potential(m, items[..k] + items[k + 1..]) + Weight(m, items[k].depth)
  {
    hide Weight;
    var a, b := items[..k], items[k + 1..];
    assert items == (a + [items[k]]) + b;
    PotentialConcat(m, a + [items[k]], b);
    PotentialConcat(m, a, [items[k]]);
    PotentialConcat(m, a, b);
    assert [items[k]][..0] == [];
    assert Potential(m, [items[k]]) == Potential(m, []) + Weight(m, items[k].depth);
  }

  /** Items of one depth: the potential is a multiple of its weight. */
  lemma {:induction false} PotentialUniform(m: nat, items: seq<Item>, depth: nat)
    requires forall i :: 0 <= i < |items| ==> items[i].depth == depth
    ensures Potential(m, items) == |items| * Weight(m, depth)
  {
    if items != [] {
      PotentialUniform(m, items[..|items| - 1], depth);
    }
  }

  lemma {:induction false} ProductGrows(a: nat, b: nat, w: nat)
    requires a <= b
    ensures a * w <= b * w
  {
    assert b * w == a * w + (b - a) * w;
  }

  /** Replacing an archive by at most `m` files one level down lowers the potential. */
  lemma {:induction false} ExtractionLowers(m: nat, files: seq<Item>, depth: nat)
    requires depth > 0 && |files| <= m && forall i :: 0 <= i < |files| ==> files[i].depth == depth - 1
    ensures Potential(m, files) < Weight(m, depth)
  {
    hide Potential;
    PotentialUniform(m, files, depth - 1);
    ProductGrows(|files|, m, Weight(m, depth - 1));
  }

  // -------------------------------------------------------------- skip entries

  predicate Own(r: Reason) {
    r == ReadFailed || r == ExtractionDisabledOrExhausted || r == NotSupported || r == SampleDirFailed
  }

  /** The paths of the skip entries written for processed items. */
  function OwnPaths(skipped: seq<Skip>): seq<string> {
    if skipped == [] then []
    else
      var s := skipped[|skipped| - 1];
      OwnPaths(skipped[..|skipped| - 1]) + if Own(s.reason) then [s.path] else []
  }

  function CountReason(skipped: seq<Skip>, r: Reason): nat {
    if skipped == [] then 0
    else CountReason(skipped[..|skipped| - 1], r) + if skipped[|skipped| - 1].reason == r then 1 else 0
  }

  // --------------------------------------------------------------------- intake

  /** The part of the scan that entering files changes. */
  datatype Intake = Intake(queue: seq<Item>, enqueued: set<string>, bytes: nat, skipped: seq<Skip>)

  /** Files come from the directory walk or out of the archive with this hash. */
  datatype Origin = Walk | Unpacked(sha: string)

  datatype Decision = Pass | Refuse | Halt(reason: Reason) | Enter

  function Decide(o: Options, s: Intake, e: Entry, from: Origin): Decision {
    if from.Walk? && !e.isFile then Pass
    else if |s.queue| >= o.maxFiles then Halt(MaxFilesReached)
    else if e.size > o.singleFileLimit then Refuse
    else if s.bytes + e.size > o.maxBytes then Halt(MaxBytesReached)
    else if e.path in s.enqueued then Pass
    else Enter
  }

  function NewItem(e: Entry, from: Origin, depth: nat): Item {
    Item(e.path, e.size, if from.Walk? then None else Some(from.sha), depth)
  }

  function Entered(s: Intake, e: Entry, from: Origin, depth: nat): Intake {
    Intake(s.queue + [NewItem(e, from, depth)], s.enqueued + {e.path}, s.bytes + e.size, s.skipped)
  }

  /** Takes the files in order; an exhausted budget ends the intake, which only the walk reports. */
  function Admit(o: Options, s: Intake, entries: seq<Entry>, from: Origin, depth: nat): Intake
    decreases |entries|
  {
    if entries == [] then s
    else
      match Decide(o, s, entries[0], from)
      case Pass => Admit(o, s, entries[1..], from, depth)
      case Refuse =>
        Admit(o, s.(skipped := s.skipped + [Skip(entries[0].path, OverSingleFileLimit)]), entries[1..], from, depth)
      case Halt(r) => if from.Walk? then s.(skipped := s.skipped + [Skip(entries[0].path, r)]) else s
      case Enter => Admit(o, Entered(s, entries[0], from, depth), entries[1..], from, depth)
  }

  /** The budgets, against the list of everything that ever entered the queue. */
  ghost predicate Budgeted(o: Options, s: Intake, entered: seq<Item>) {
    && |s.queue| <= o.maxFiles
    && s.bytes == TotalSize(entered) <= o.maxBytes
    && s.enqueued == PathSet(entered)
    && DistinctPaths(entered)
  }

  lemma {:induction false} EnterKeeps(o: Options, s: Intake, e: Entry, from: Origin, depth: nat, entered: seq<Item>)
    requires Budgeted(o, s, entered) && Decide(o, s, e, from) == Enter
    ensures Budgeted(o, Entered(s, e, from, depth), entered + [NewItem(e, from, depth)])
  {
    var item := NewItem(e, from, depth);
    var more := entered + [item];
    assert more[..|entered|] == entered;
    assert PathSet(more) == PathSet(entered) + {item.path} by {
      assert more[|entered|] == item;
      forall i | 0 <= i < |entered| ensures entered[i].path in PathSet(more) {
        assert more[i] == entered[i];
      }
    }
  }

  /** `after` is `before` with files of this depth appended to the queue. */
  ghost predicate Appended(before: Intake, after: Intake, depth: nat) {
    && |before.queue| <= |after.queue|
    && after.queue[..|before.queue|] == before.queue
    && (forall i :: |before.queue| <= i < |after.queue| ==> after.queue[i].depth == depth)
    && OwnPaths(after.skipped) == OwnPaths(before.skipped)
    && CountReason(after.skipped, ExtractionDisabledOrExhausted)
        == CountReason(before.skipped, ExtractionDisabledOrExhausted)
  }

  function Added(before: Intake, after: Intake): seq<Item> {
    if |before.queue| <= |after.queue| then after.queue[|before.queue|..] else []
  }

  lemma {:induction false} SkipAdds(skipped: seq<Skip>, s: Skip)
    ensures OwnPaths(skipped + [s]) == OwnPaths(skipped) + if Own(s.reason) then [s.path] else []
    ensures forall r :: CountReason(skipped + [s], r) == CountReason(skipped, r) + if s.reason == r then 1 else 0
  {
    assert (skipped + [s])[..|skipped|] == skipped;
  }

  /** Any intake keeps every budget and never enters a path twice. */
  lemma {:induction false} AdmitKeeps(o: Options, s: Intake, entries: seq<Entry>, from: Origin, depth: nat,
                                      entered: seq<Item>)
    requires Budgeted(o, s, entered)
    ensures var r := Admit(o, s, entries, from, depth);
      Budgeted(o, r, entered + Added(s, r)) && Appended(s, r, depth)
    decreases |entries|
  {
    hide TotalSize, PathSet, OwnPaths, CountReason, DistinctPaths;
    var r := Admit(o, s, entries, from, depth);
    if entries == [] {
      assert entered + Added(s, r) == entered;
    } else {
      var e := entries[0];
      match Decide(o, s, e, from) {
        case Pass =>
          AdmitKeeps(o, s, entries[1..], from, depth, entered);
        case Refuse =>
          var k := Skip(e.path, OverSingleFileLimit);
          SkipAdds(s.skipped, k);
          AdmitKeeps(o, s.(skipped := s.skipped + [k]), entries[1..], from, depth, entered);
        case Halt(reason) =>
          SkipAdds(s.skipped, Skip(e.path, reason));
          assert entered + Added(s, r) == entered;
        case Enter =>
          var next := Entered(s, e, from, depth);
          var item := NewItem(e, from, depth);
          EnterKeeps(o, s, e, from, depth, entered);
          AdmitKeeps(o, next, entries[1..], from, depth, entered + [item]);
          AppendOne(s, next, r, item, depth);
          assert entered + Added(s, r) == entered + [item] + Added(next, r);
      }
    }
  }

  lemma {:induction false} AppendOne(s: Intake, next: Intake, r: Intake, item: Item, depth: nat)
    requires next.queue == s.queue + [item] && next.skipped == s.skipped && item.depth == depth
    requires Appended(next, r, depth)
    ensures Appended(s, r, depth) && Added(s, r) == [item] + Added(next, r)
  {
    hide OwnPaths, CountReason;
    var n := |s.queue|;
    assert r.queue[..n] == r.queue[..n + 1][..n];
    assert r.queue[n] == r.queue[..n + 1][n] == item;
  }

  /** How many of the files were looked at before a budget ended the intake. */
  function Reached(o: Options, s: Intake, entries: seq<Entry>, from: Origin, depth: nat): (k: nat)
    ensures k <= |entries|
    decreases |entries|
  {
    if entries == [] then 0
    else
      match Decide(o, s, entries[0], from)
      case Pass => 1 + Reached(o, s, entries[1..], from, depth)
      case Refuse =>
        1 + Reached(o, s.(skipped := s.skipped + [Skip(entries[0].path, OverSingleFileLimit)]), entries[1..],
            from, depth)
      case Halt(_) => 0
      case Enter => 1 + Reached(o, Entered(s, entries[0], from, depth), entries[1..], from, depth)
  }

  /** The file is in, or its size is over the limit and that is on record. */
  ghost predicate Settled(o: Options, r: Intake, e: Entry, from: Origin) {
    || (from.Walk? && !e.isFile)
    || e.path in r.enqueued
    || (e.size > o.singleFileLimit && Skip(e.path, OverSingleFileLimit) in r.skipped)
  }

  /** The file does not fit a budget any more; the walk's last skip entry says so. */
  ghost predicate OutOfBudget(o: Options, r: Intake, e: Entry, from: Origin) {
    && (|r.queue| >= o.maxFiles || r.bytes + e.size > o.maxBytes)
    && (from.Walk? ==>
          && r.skipped != [] && r.skipped[|r.skipped| - 1].path == e.path
          && r.skipped[|r.skipped| - 1].reason in {MaxFilesReached, MaxBytesReached})
  }

  ghost predicate NothingLost(s: Intake, r: Intake) {
    s.enqueued <= r.enqueued && forall k :: k in s.skipped ==> k in r.skipped
  }

  /**
   * Nothing is dropped silently before the cut: every file looked at is settled, and the file at
   * which the intake stopped really exceeds a budget of the final state.
   */
  lemma {:induction false} AdmitSettles(o: Options, s: Intake, entries: seq<Entry>, from: Origin, depth: nat)
    ensures var r, k := Admit(o, s, entries, from, depth), Reached(o, s, entries, from, depth);
      && NothingLost(s, r)
      && (forall i :: 0 <= i < k ==> Settled(o, r, entries[i], from))
      && (k < |entries| ==> OutOfBudget(o, r, entries[k], from))
    decreases |entries|
  {
    if entries != [] {
      var e, rest := entries[0], entries[1..];
      match Decide(o, s, e, from) {
        case Pass =>
          AdmitSettles(o, s, rest, from, depth);
          SettledShift(o, Admit(o, s, rest, from, depth), entries, from, Reached(o, s, rest, from, depth));
        case Refuse =>
          var k := Skip(e.path, OverSingleFileLimit);
          var next := s.(skipped := s.skipped + [k]);
          AdmitSettles(o, next, rest, from, depth);
          assert k in next.skipped;
          SettledShift(o, Admit(o, next, rest, from, depth), entries, from, Reached(o, next, rest, from, depth));
        case Halt(_) =>
        case Enter =>
          var next := Entered(s, e, from, depth);
          AdmitSettles(o, next, rest, from, depth);
          SettledShift(o, Admit(o, next, rest, from, depth), entries, from, Reached(o, next, rest, from, depth));
      }
    }
  }

  lemma {:induction false} SettledShift(o: Options, r: Intake, entries: seq<Entry>, from: Origin, k: nat)
    requires entries != [] && k < |entries| && Settled(o, r, entries[0], from)
    requires forall i :: 0 <= i < k ==> Settled(o, r, entries[1..][i], from)
    ensures forall i :: 0 <= i < k + 1 ==> Settled(o, r, entries[i], from)
  {
    hide Settled;
    forall i | 0 <= i < k + 1 ensures Settled(o, r, entries[i], from) {
      if i > 0 {
        assert entries[1..][i - 1] == entries[i];
      }
    }
  }

  // ---------------------------------------------------- the intake in closed form

  ghost predicate Considered(e: Entry, from: Origin) { from.Walk? ==> e.isFile }

  ghost predicate Eligible(o: Options, e: Entry, from: Origin) { Considered(e, from) && e.size <= o.singleFileLimit }

  ghost predicate EligibleBefore(o: Options, entries: seq<Entry>, from: Origin, n: nat, path: string) {
    exists j :: 0 <= j < n && j < |entries| && entries[j].path == path && Eligible(o, entries[j], from)
  }

  /** The files among the first `n` that are within the size limit and neither known nor repeated. */
  ghost function Newcomers(o: Options, known: set<string>, entries: seq<Entry>, from: Origin, depth: nat, n: nat):
      seq<Item>
    requires n <= |entries|
  {
    if n == 0 then []
    else
      var e := entries[n - 1];
      var isNew := Eligible(o, e, from) && e.path !in known && !EligibleBefore(o, entries, from, n - 1, e.path);
      var sha := match from case Walk => None case Unpacked(h) => Some(h);
      Newcomers(o, known, entries, from, depth, n - 1) + if isNew then [Item(e.path, e.size, sha, depth)] else []
  }

  ghost function TooLarge(o: Options, entries: seq<Entry>, from: Origin, n: nat): seq<Skip>
    requires n <= |entries|
  {
    if n == 0 then []
    else
      var e := entries[n - 1];
      TooLarge(o, entries, from, n - 1)
      + if Considered(e, from) && e.size > o.singleFileLimit then [Skip(e.path, OverSingleFileLimit)] else []
  }

  /** The queue is full when the file at `n` comes up. */
  ghost predicate FullAt(o: Options, s: Intake, entries: seq<Entry>, from: Origin, depth: nat, n: nat)
    requires n < |entries|
  {
    |s.queue| + |Newcomers(o, s.enqueued, entries, from, depth, n)| >= o.maxFiles
  }

  /** The file at `n` no longer fits a budget, given what entered before it. */
  ghost predicate StopsAt(o: Options, s: Intake, entries: seq<Entry>, from: Origin, depth: nat, n: nat)
    requires n < |entries|
  {
    var e := entries[n];
    && Considered(e, from)
    && (|| FullAt(o, s, entries, from, depth, n)
        || (e.size <= o.singleFileLimit
            && s.bytes + TotalSize(Newcomers(o, s.enqueued, entries, from, depth, n)) + e.size > o.maxBytes))
  }

  /** The state after the first `n` files, when none of them ended the intake. */
  ghost predicate Midway(o: Options, s: Intake, entries: seq<Entry>, from: Origin, depth: nat, n: nat, r: Intake)
    requires n <= |entries|
  {
    var items := Newcomers(o, s.enqueued, entries, from, depth, n);
    && r.queue == s.queue + items
    && r.enqueued == s.enqueued + PathSet(items)
    && r.bytes == s.bytes + TotalSize(items)
    && r.skipped == s.skipped + TooLarge(o, entries, from, n)
  }

  ghost predicate NoneStops(o: Options, s: Intake, entries: seq<Entry>, from: Origin, depth: nat, n: nat)
    requires n <= |entries|
  {
    forall i :: 0 <= i < n ==> !StopsAt(o, s, entries, from, depth, i)
  }

  /** All files up to the first one that does not fit a budget, which only the walk puts on record. */
  ghost predicate TakesUpTo(o: Options, s: Intake, entries: seq<Entry>, from: Origin, depth: nat, k: nat, r: Intake) {
    && k <= |entries| && NoneStops(o, s, entries, from, depth, k)
    && (k < |entries| ==> StopsAt(o, s, entries, from, depth, k))
    && if k < |entries| && from.Walk? then
         var reason := if FullAt(o, s, entries, from, depth, k) then MaxFilesReached else MaxBytesReached;
         && r.skipped != [] && r.skipped[|r.skipped| - 1] == Skip(entries[k].path, reason)
         && Midway(o, s, entries, from, depth, k, r.(skipped := r.skipped[..|r.skipped| - 1]))
       else Midway(o, s, entries, from, depth, k, r)
  }

  ghost predicate Takes(o: Options, s: Intake, entries: seq<Entry>, from: Origin, depth: nat, r: Intake) {
    exists k: nat :: TakesUpTo(o, s, entries, from, depth, k, r)
  }

  lemma {:induction false} NewcomerPaths(o: Options, known: set<string>, entries: seq<Entry>, from: Origin,
                                         depth: nat, n: nat, path: string)
    requires n <= |entries|
    ensures path in known + PathSet(Newcomers(o, known, entries, from, depth, n))
        <==> path in known || EligibleBefore(o, entries, from, n, path)
  {
    hide Eligible, PathSet, EligibleBefore;
    if n == 0 {
      NoneBefore(o, entries, from, path);
      assert PathSet([]) == {} by { NoPaths(); }
    } else {
      NewcomerPaths(o, known, entries, from, depth, n - 1, path);
      var before, items := Newcomers(o, known, entries, from, depth, n - 1),
          Newcomers(o, known, entries, from, depth, n);
      if items != before {
        PathSetAdd(before, items[|items| - 1]);
        assert items == before + [items[|items| - 1]];
      }
      OneMoreBefore(o, entries, from, n - 1, path);
    }
  }

  lemma {:induction false} NoneBefore(o: Options, entries: seq<Entry>, from: Origin, path: string)
    ensures !EligibleBefore(o, entries, from, 0, path)
  {
  }

  lemma {:induction false} OneMoreBefore(o: Options, entries: seq<Entry>, from: Origin, n: nat, path: string)
    requires n < |entries|
    ensures
      var here := entries[n].path == path && Eligible(o, entries[n], from);
      EligibleBefore(o, entries, from, n + 1, path) <==> EligibleBefore(o, entries, from, n, path) || here
  {
    hide Eligible;
  }

  lemma {:induction false} NoPaths()
    ensures PathSet([]) == {}
  {
  }

  lemma {:induction false} PathSetAdd(items: seq<Item>, x: Item)
    ensures PathSet(items + [x]) == PathSet(items) + {x.path}
    ensures TotalSize(items + [x]) == TotalSize(items) + x.size
  {
    var more := items + [x];
    assert more[..|items|] == items && more[|items|] == x;
    forall i | 0 <= i < |items| ensures items[i].path in PathSet(more) {
      assert more[i] == items[i];
    }
  }

  /** What the next file does to a state midway. */
  lemma {:induction false} MidwayStep(o: Options, s: Intake, entries: seq<Entry>, from: Origin, depth: nat, n: nat,
                                      r: Intake)
    requires n < |entries| && Midway(o, s, entries, from, depth, n, r)
    ensures
      var e := entries[n];
      match Decide(o, r, e, from)
      case Pass => !StopsAt(o, s, entries, from, depth, n) && Midway(o, s, entries, from, depth, n + 1, r)
      case Refuse =>
        && !StopsAt(o, s, entries, from, depth, n)
        && Midway(o, s, entries, from, depth, n + 1, r.(skipped := r.skipped + [Skip(e.path, OverSingleFileLimit)]))
      case Enter =>
        !StopsAt(o, s, entries, from, depth, n) && Midway(o, s, entries, from, depth, n + 1, Entered(r, e, from, depth))
      case Halt(reason) =>
        && StopsAt(o, s, entries, from, depth, n)
        && reason == if FullAt(o, s, entries, from, depth, n) then MaxFilesReached else MaxBytesReached
  {
    hide PathSet, TotalSize, EligibleBefore;
    var e := entries[n];
    NewcomerPaths(o, s.enqueued, entries, from, depth, n, e.path);
    var items := Newcomers(o, s.enqueued, entries, from, depth, n);
    PathSetAdd(items, NewItem(e, from, depth));
    var large, entry := TooLarge(o, entries, from, n), Skip(e.path, OverSingleFileLimit);
    assert items + [] == items && large + [] == large;
    assert s.skipped + (large + [entry]) == r.skipped + [entry];
    assert s.queue + (items + [NewItem(e, from, depth)]) == r.queue + [NewItem(e, from, depth)];
  }

  /** Where the intake of the files from `n` on stops. */
  lemma {:induction false} AdmitRest(o: Options, s: Intake, entries: seq<Entry>, from: Origin, depth: nat, n: nat,
                                     r: Intake)
    returns (k: nat)
    requires n <= |entries| && Midway(o, s, entries, from, depth, n, r) && NoneStops(o, s, entries, from, depth, n)
    ensures TakesUpTo(o, s, entries, from, depth, k, Admit(o, r, entries[n..], from, depth))
    decreases |entries| - n
  {
    hide Midway, StopsAt, FullAt, Entered;
    if n == |entries| {
      k := n;
    } else {
      var e := entries[n];
      assert entries[n..][0] == e && entries[n..][1..] == entries[n + 1..];
      MidwayStep(o, s, entries, from, depth, n, r);
      match Decide(o, r, e, from) {
        case Pass => k := AdmitRest(o, s, entries, from, depth, n + 1, r);
        case Refuse =>
          k := AdmitRest(o, s, entries, from, depth, n + 1,
                         r.(skipped := r.skipped + [Skip(e.path, OverSingleFileLimit)]));
        case Enter => k := AdmitRest(o, s, entries, from, depth, n + 1, Entered(r, e, from, depth));
        case Halt(reason) =>
          k := n;
          if from.Walk? {
            assert (r.skipped + [Skip(e.path, reason)])[..|r.skipped|] == r.skipped;
          }
      }
    }
  }

  /** An intake takes, in order, exactly the new files within the limits up to the first that breaks a budget. */
  lemma {:induction false} AdmitTakes(o: Options, s: Intake, entries: seq<Entry>, from: Origin, depth: nat)
    ensures Takes(o, s, entries, from, depth, Admit(o, s, entries, from, depth))
  {
    hide TakesUpTo, Admit;
    NoPaths();
    assert Midway(o, s, entries, from, depth, 0, s);
    assert entries[0..] == entries;
    var k := AdmitRest(o, s, entries, from, depth, 0, s);
  }

  lemma {:induction false} LargeAreForeign(o: Options, entries: seq<Entry>, from: Origin, n: nat)
    requires n <= |entries|
    ensures forall x :: x in TooLarge(o, entries, from, n) ==> x.reason == OverSingleFileLimit
  {
    if n > 0 { LargeAreForeign(o, entries, from, n - 1); }
  }

  /** An intake only adds skip entries, and none of a processed item's own. */
  lemma {:induction false} AdmitSkips(o: Options, s: Intake, entries: seq<Entry>, from: Origin, depth: nat)
    ensures
      var r := Admit(o, s, entries, from, depth);
      NothingLost(s, r) && forall x :: x in r.skipped && Own(x.reason) ==> x in s.skipped
  {
    hide Admit, Newcomers, StopsAt, FullAt, TooLarge, NoneStops;
    var r := Admit(o, s, entries, from, depth);
    AdmitTakes(o, s, entries, from, depth);
    var k: nat :| TakesUpTo(o, s, entries, from, depth, k, r);
    LargeAreForeign(o, entries, from, k);
    var large := TooLarge(o, entries, from, k);
    if k < |entries| && from.Walk? {
      assert r.skipped == s.skipped + large + [r.skipped[|r.skipped| - 1]];
    } else {
      assert r.skipped == s.skipped + large;
    }
  }
}
