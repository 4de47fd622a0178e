/**
 * The folder-scan scheduler: a largest-first queue that feeds itself from archives
 * under file, byte and depth budgets. The file system is an arbitrary oracle.
 */
module FolderScan {
  import opened Common
  import opened FolderIntake

  /** Extraction of one archive, as the environment answers it. */
  datatype Extraction = CannotReRead | NoDestination | Refused | Extracted(sha: string, files: seq<Entry>)

  /** What reading and classifying one item yields. */
  datatype Probe = Unreadable | Archive(extraction: Extraction) | Other | Binary(sha: string, dirCreated: bool)

  /** The environment: answers may depend on the moment and on the item, without any restriction. */
  datatype World = World(interrupted: nat -> bool, probe: (nat, Item) -> Probe)

  /** How a processed item ended. */
  datatype Fate = SkippedItself | Sampled(sha: string) | HandedOver

  function PathsWith(done: seq<Item>, fates: seq<Fate>, f: Fate): seq<string>
    requires |done| == |fates|
  {
    if done == [] then []
    else
      var n := |done| - 1;
      PathsWith(done[..n], fates[..n], f) + if fates[n] == f then [done[n].path] else []
  }

  function CountSampled(fates: seq<Fate>): nat {
    if fates == [] then 0 else CountSampled(fates[..|fates| - 1]) + if fates[|fates| - 1].Sampled? then 1 else 0
  }

  /** Conservation: every processed item has exactly one of the three fates. */
  lemma {:induction false} FatesAddUp(done: seq<Item>, fates: seq<Fate>)
    requires |done| == |fates|
    ensures |done|
        == |PathsWith(done, fates, SkippedItself)| + CountSampled(fates) + |PathsWith(done, fates, HandedOver)|
  {
    if done != [] {
      var n := |done| - 1;
      FatesAddUp(done[..n], fates[..n]);
    }
  }

  // ----------------------------------------------------------------- accounting

  /** Number of paths over all samples. */
  ghost function TotalPaths(samples: map<string, seq<string>>): nat {
    if samples == map[] then 0
    else
      var h :| h in samples;
      |samples[h]| + TotalPaths(samples - {h})
  }

  lemma {:induction false} TotalPathsRemove(samples: map<string, seq<string>>, k: string)
    requires k in samples
    ensures TotalPaths(samples) == |samples[k]| + TotalPaths(samples - {k})
    decreases |samples|
  {
    var h :| h in samples && TotalPaths(samples) == |samples[h]| + TotalPaths(samples - {h});
    if h != k {
      TotalPathsRemove(samples - {h}, k);
      TotalPathsRemove(samples - {k}, h);
      assert samples - {h} - {k} == samples - {k} - {h};
    }
  }

  lemma {:induction false} TotalPathsAdd(samples: map<string, seq<string>>, k: string, path: string)
    ensures TotalPaths(samples[k := (if k in samples then samples[k] else []) + [path]]) == TotalPaths(samples) + 1
  {
    var more := samples[k := (if k in samples then samples[k] else []) + [path]];
    TotalPathsRemove(more, k);
    assert more - {k} == samples - {k};
    if k in samples {
      TotalPathsRemove(samples, k);
    } else {
      assert samples - {k} == samples;
    }
  }

  /** The results of the processed items, as the scan reports them. */
  datatype Ledger = Ledger(skipped: seq<Skip>, samples: map<string, seq<string>>, scheduled: nat, archives: nat)

  function PathsOf(samples: map<string, seq<string>>, h: string): seq<string> {
    if h in samples then samples[h] else []
  }

  ghost predicate SamplesMatch(samples: map<string, seq<string>>, done: seq<Item>, fates: seq<Fate>)
    requires |done| == |fates|
  {
    forall h :: PathsOf(samples, h) == PathsWith(done, fates, Sampled(h))
  }

  /** The reports are exactly the processed items, each once, where its fate says, in processing order. */
  ghost predicate Accounted(l: Ledger, done: seq<Item>, fates: seq<Fate>) {
    && |done| == |fates| == l.scheduled
    && OwnPaths(l.skipped) == PathsWith(done, fates, SkippedItself)
    && SamplesMatch(l.samples, done, fates)
    && TotalPaths(l.samples) == CountSampled(fates)
    && l.archives == |PathsWith(done, fates, HandedOver)| + CountReason(l.skipped, ExtractionDisabledOrExhausted)
  }

  /** Conservation, in the terms of the report: the processed count is the sum of the three outcomes. */
  lemma {:induction false} CountsBalance(l: Ledger, done: seq<Item>, fates: seq<Fate>)
    requires Accounted(l, done, fates)
    ensures l.scheduled + CountReason(l.skipped, ExtractionDisabledOrExhausted)
         == |OwnPaths(l.skipped)| + TotalPaths(l.samples) + l.archives
  {
    FatesAddUp(done, fates);
  }

  lemma {:induction false} PathsWithAdd(done: seq<Item>, fates: seq<Fate>, item: Item, f: Fate)
    requires |done| == |fates|
    ensures forall g :: PathsWith(done + [item], fates + [f], g)
                     == PathsWith(done, fates, g) + if f == g then [item.path] else []
    ensures CountSampled(fates + [f]) == CountSampled(fates) + if f.Sampled? then 1 else 0
  {
    assert (done + [item])[..|done|] == done && (fates + [f])[..|fates|] == fates;
  }

  lemma {:induction false} SkipKeeps(l: Ledger, done: seq<Item>, fates: seq<Fate>, item: Item, r: Reason)
    requires Accounted(l, done, fates) && Own(r)
    ensures var archives := l.archives + if r == ExtractionDisabledOrExhausted then 1 else 0;
      Accounted(Ledger(l.skipped + [Skip(item.path, r)], l.samples, l.scheduled + 1, archives),
                done + [item], fates + [SkippedItself])
  {
    hide OwnPaths, PathsWith, CountReason, CountSampled, TotalPaths;
    SkipAdds(l.skipped, Skip(item.path, r));
    PathsWithAdd(done, fates, item, SkippedItself);
  }

  lemma {:induction false} SampleKeeps(l: Ledger, done: seq<Item>, fates: seq<Fate>, item: Item, h: string)
    requires Accounted(l, done, fates)
    ensures var samples := l.samples[h := PathsOf(l.samples, h) + [item.path]];
      Accounted(Ledger(l.skipped, samples, l.scheduled + 1, l.archives), done + [item], fates + [Sampled(h)])
  {
    hide OwnPaths, PathsWith, CountReason, CountSampled, TotalPaths;
    PathsWithAdd(done, fates, item, Sampled(h));
    TotalPathsAdd(l.samples, h, item.path);
  }

  lemma {:induction false} HandOverKeeps(l: Ledger, done: seq<Item>, fates: seq<Fate>, item: Item, skipped: seq<Skip>)
    requires Accounted(l, done, fates) && OwnPaths(skipped) == OwnPaths(l.skipped)
    requires CountReason(skipped, ExtractionDisabledOrExhausted)
        == CountReason(l.skipped, ExtractionDisabledOrExhausted)
    ensures Accounted(Ledger(skipped, l.samples, l.scheduled + 1, l.archives + 1), done + [item], fates + [HandedOver])
  {
    hide OwnPaths, PathsWith, CountReason, CountSampled, TotalPaths;
    PathsWithAdd(done, fates, item, HandedOver);
  }

  // ------------------------------------------------------------------- the scan

  /** What extracting one archive does to the intake. */
  function Unpack(o: Options, s: Intake, item: Item, x: Extraction): Intake {
    match x
    case CannotReRead => s.(skipped := s.skipped + [Skip(item.path, ArchiveReadFailed)])
    case NoDestination => s.(skipped := s.skipped + [Skip(item.path, ExtractDestFailed)])
    case Refused => s.(skipped := s.skipped + [Skip(item.path, ArchiveSkipped)])
    case Extracted(sha, files) => Admit(o, s, files, Unpacked(sha), if item.depth == 0 then 0 else item.depth - 1)
  }

  function FateOf(o: Options, item: Item, p: Probe, samples: map<string, seq<string>>): Fate {
    match p
    case Unreadable => SkippedItself
    case Archive(_) => if o.noExtract || item.depth == 0 then SkippedItself else HandedOver
    case Other => SkippedItself
    case Binary(sha, created) => if sha in samples || created then Sampled(sha) else SkippedItself
  }

  /** The reason that a processed item's own skip entry carries. */
  function OwnReason(p: Probe): (r: Reason)
    ensures Own(r) && (r == ExtractionDisabledOrExhausted <==> p.Archive?)
  {
    match p
    case Unreadable => ReadFailed
    case Archive(_) => ExtractionDisabledOrExhausted
    case Other => NotSupported
    case Binary(_, _) => SampleDirFailed
  }

  datatype State = State(intake: Intake, samples: map<string, seq<string>>, scheduled: nat, archives: nat) {
    function Books(): Ledger { Ledger(intake.skipped, samples, scheduled, archives) }
  }

  /** The state after processing a popped item whose probing answered `p`. */
  function After(o: Options, s: State, item: Item, p: Probe): State {
    var archives := s.archives + if p.Archive? then 1 else 0;
    match FateOf(o, item, p, s.samples)
    case SkippedItself =>
      var entry := Skip(item.path, OwnReason(p));
      State(s.intake.(skipped := s.intake.skipped + [entry]), s.samples, s.scheduled + 1, archives)
    case Sampled(h) =>
      State(s.intake, s.samples[h := PathsOf(s.samples, h) + [item.path]], s.scheduled + 1, archives)
    case HandedOver =>
      var intake := if p.Archive? then Unpack(o, s.intake, item, p.extraction) else s.intake;
      State(intake, s.samples, s.scheduled + 1, archives)
  }

  predicate Largest(queue: seq<Item>, k: nat) {
    k < |queue| && forall j :: 0 <= j < |queue| ==> queue[j].size <= queue[k].size
  }

  lemma {:induction false} LargestExists(queue: seq<Item>)
    requires queue != []
    ensures exists k: nat :: Largest(queue, k)
  {
    if |queue| == 1 {
      assert Largest(queue, 0);
    } else {
      var n := |queue| - 1;
      LargestExists(queue[..n]);
      var k: nat :| Largest(queue[..n], k);
      forall j | 0 <= j < n ensures queue[j].size <= queue[k].size {
        assert queue[j] == queue[..n][j];
      }
      assert Largest(queue, if queue[k].size >= queue[n].size then k else n);
    }
  }

  class Scan {
    const o: Options
    var queue: seq<Item>
    var enqueued: set<string>
    var totalBytes: nat
    var skipped: seq<Skip>
    var samples: map<string, seq<string>>
    var scheduled: nat
    var archiveCount: nat

    constructor (options: Options)
      ensures o == options && scheduled == archiveCount == 0 && samples == map[]
      ensures TheIntake() == Intake([], {}, 0, [])
    {
      o := options;
      queue, enqueued, totalBytes, skipped := [], {}, 0, [];
      samples, scheduled, archiveCount := map[], 0, 0;
    }

    function TheIntake(): Intake reads this { Intake(queue, enqueued, totalBytes, skipped) }

    function TheState(): State reads this { State(TheIntake(), samples, scheduled, archiveCount) }

    method WalkIntoQueue(entries: seq<Entry>)
      modifies this`queue, this`enqueued, this`totalBytes, this`skipped
      ensures TheIntake() == Admit(o, old(TheIntake()), entries, Walk, o.archiveDepth)
    {
      var i := 0;
      while i < |entries|
        invariant i <= |entries|
        invariant Admit(o, TheIntake(), entries[i..], Walk, o.archiveDepth)
               == Admit(o, old(TheIntake()), entries, Walk, o.archiveDepth)
      {
        var e := entries[i];
        assert entries[i..][0] == e && entries[i..][1..] == entries[i + 1..];
        i := i + 1;
        if !e.isFile { continue; }
        if |queue| >= o.maxFiles {
          skipped := skipped + [Skip(e.path, MaxFilesReached)];
          return;
        }
        if e.size > o.singleFileLimit {
          skipped := skipped + [Skip(e.path, OverSingleFileLimit)];
          continue;
        }
        if totalBytes + e.size > o.maxBytes {
          skipped := skipped + [Skip(e.path, MaxBytesReached)];
          return;
        }
        if e.path in enqueued { continue; }
        enqueued := enqueued + {e.path};
        totalBytes := totalBytes + e.size;
        queue := queue + [Item(e.path, e.size, None, o.archiveDepth)];
      }
    }

    method HandleArchive(item: Item, x: Extraction)
      modifies this`queue, this`enqueued, this`totalBytes, this`skipped
      ensures TheIntake() == Unpack(o, old(TheIntake()), item, x)
    {
      match x {
        case CannotReRead => skipped := skipped + [Skip(item.path, ArchiveReadFailed)];
        case NoDestination => skipped := skipped + [Skip(item.path, ExtractDestFailed)];
        case Refused => skipped := skipped + [Skip(item.path, ArchiveSkipped)];
        case Extracted(sha, files) => EnqueueExtracted(sha, files, if item.depth == 0 then 0 else item.depth - 1);
      }
    }

    method EnqueueExtracted(sha: string, files: seq<Entry>, depth: nat)
      modifies this`queue, this`enqueued, this`totalBytes, this`skipped
      ensures TheIntake() == Admit(o, old(TheIntake()), files, Unpacked(sha), depth)
    {
      var i := 0;
      while i < |files|
        invariant i <= |files|
        invariant Admit(o, TheIntake(), files[i..], Unpacked(sha), depth)
               == Admit(o, old(TheIntake()), files, Unpacked(sha), depth)
      {
        var e := files[i];
        assert files[i..][0] == e && files[i..][1..] == files[i + 1..];
        i := i + 1;
        if |queue| >= o.maxFiles { return; }
        if e.size > o.singleFileLimit {
          skipped := skipped + [Skip(e.path, OverSingleFileLimit)];
          continue;
        }
        if totalBytes + e.size > o.maxBytes { return; }
        if e.path in enqueued { continue; }
        enqueued := enqueued + {e.path};
        totalBytes := totalBytes + e.size;
        queue := queue + [Item(e.path, e.size, Some(sha), depth)];
      }
    }

    /** Any largest item may come out: the heap compares sizes only. */
    method PopLargest() returns (item: Item, ghost k: nat)
      requires queue != []
      modifies this`queue
      ensures Largest(old(queue), k) && item == old(queue)[k]
      ensures queue == old(queue)[..k] + old(queue)[k + 1..]
    {
      LargestExists(queue);
      var at: nat :| Largest(queue, at);
      k := at;
      item := queue[at];
      queue := queue[..at] + queue[at + 1..];
    }

    /** One turn of the loop after the pop. */
    method Process(item: Item, p: Probe)
      modifies this
      ensures TheState() == After(o, old(TheState()), item, p)
    {
      hide Admit;
      scheduled := scheduled + 1;
      match p {
        case Unreadable =>
          skipped := skipped + [Skip(item.path, ReadFailed)];
        case Archive(x) =>
          archiveCount := archiveCount + 1;
          if o.noExtract || item.depth == 0 {
            skipped := skipped + [Skip(item.path, ExtractionDisabledOrExhausted)];
            return;
          }
          HandleArchive(item, x);
        case Other =>
          skipped := skipped + [Skip(item.path, NotSupported)];
        case Binary(sha, created) =>
          if sha in samples {
            samples := samples[sha := samples[sha] + [item.path]];
            return;
          }
          if !created {
            skipped := skipped + [Skip(item.path, SampleDirFailed)];
            return;
          }
          assert PathsOf(samples, sha) + [item.path] == [item.path];
          samples := samples[sha := [item.path]];
      }
    }
  }

  lemma {:induction false} UnpackKeeps(o: Options, s: Intake, item: Item, x: Extraction, entered: seq<Item>)
    requires Budgeted(o, s, entered) && item.depth > 0
    ensures var r := Unpack(o, s, item, x);
      Budgeted(o, r, entered + Added(s, r)) && Appended(s, r, item.depth - 1)
  {
    hide OwnPaths, CountReason, Admit, TotalSize, PathSet, DistinctPaths;
    if !x.Extracted? {
      assert entered + Added(s, Unpack(o, s, item, x)) == entered;
    }
    match x {
      case CannotReRead => SkipAdds(s.skipped, Skip(item.path, ArchiveReadFailed));
      case NoDestination => SkipAdds(s.skipped, Skip(item.path, ExtractDestFailed));
      case Refused => SkipAdds(s.skipped, Skip(item.path, ArchiveSkipped));
      case Extracted(sha, files) =>
        AdmitKeeps(o, s, files, Unpacked(sha), item.depth - 1, entered);
    }
  }

  // ----------------------------------------------------------------------- runs

  /** What entered the queue, and what was processed and how it ended, in order. */
  datatype History = History(entered: seq<Item>, done: seq<Item>, fates: seq<Fate>)

  datatype Point = Point(state: State, past: History)

  /** Pops the item at `k` and processes it. */
  function Turn(o: Options, at: Point, k: nat, p: Probe): Point {
    var s, h := at.state, at.past;
    if k >= |s.intake.queue| then at
    else
      var item := s.intake.queue[k];
      var popped := s.(intake := s.intake.(queue := s.intake.queue[..k] + s.intake.queue[k + 1..]));
      var next := After(o, popped, item, p);
      Point(next, History(h.entered + Added(popped.intake, next.intake), h.done + [item],
                          h.fates + [FateOf(o, item, p, s.samples)]))
  }

  function Start(o: Options, listing: seq<Entry>): Point {
    var s := Admit(o, Intake([], {}, 0, []), listing, Walk, o.archiveDepth);
    Point(State(s, map[], 0, 0), History(s.queue, [], []))
  }

  function ItemAt(at: Point, k: nat): Item {
    if k < |at.state.intake.queue| then at.state.intake.queue[k] else Item("", 0, None, 0)
  }

  /** The scan after one turn per pick. */
  function Run(o: Options, w: World, listing: seq<Entry>, picks: seq<nat>): Point {
    if picks == [] then Start(o, listing)
    else
      var n := |picks| - 1;
      var at := Run(o, w, listing, picks[..n]);
      Turn(o, at, picks[n], w.probe(n, ItemAt(at, picks[n])))
  }

  /** Every pick was a largest queued item at its turn. */
  ghost predicate Legal(o: Options, w: World, listing: seq<Entry>, picks: seq<nat>) {
    picks != [] ==>
      var n := |picks| - 1;
      Legal(o, w, listing, picks[..n]) && Largest(Run(o, w, listing, picks[..n]).state.intake.queue, picks[n])
  }

  /** Most turns that any scan can take. */
  function TurnBound(o: Options): nat { o.maxFiles * Weight(o.maxFiles, o.archiveDepth) }

  ghost predicate Sound(o: Options, at: Point) {
    && Budgeted(o, at.state.intake, at.past.entered)
    && Accounted(at.state.Books(), at.past.done, at.past.fates)
    && multiset(at.past.entered) == multiset(at.state.intake.queue) + multiset(at.past.done)
    && at.state.scheduled + Potential(o.maxFiles, at.state.intake.queue) <= TurnBound(o)
  }

  lemma {:induction false} StartSound(o: Options, listing: seq<Entry>)
    ensures Sound(o, Start(o, listing))
  {
    hide Admit, Weight, Potential, Budgeted, Accounted, OwnPaths, CountReason;
    var none := Intake([], {}, 0, []);
    NothingYet(o);
    AdmitKeeps(o, none, listing, Walk, o.archiveDepth, []);
    var s := Start(o, listing).state.intake;
    assert [] + Added(none, s) == s.queue;
    PotentialUniform(o.maxFiles, s.queue, o.archiveDepth);
    FitsQueue(o, s, s.queue);
    ProductGrows(|s.queue|, o.maxFiles, Weight(o.maxFiles, o.archiveDepth));
    StartAccounts(Start(o, listing).state.Books());
  }

  lemma {:induction false} FitsQueue(o: Options, s: Intake, entered: seq<Item>)
    requires Budgeted(o, s, entered)
    ensures |s.queue| <= o.maxFiles
  {
  }

  lemma {:induction false} NothingYet(o: Options)
    ensures Budgeted(o, Intake([], {}, 0, []), []) && OwnPaths([]) == []
        && CountReason([], ExtractionDisabledOrExhausted) == 0
  {
  }

  lemma {:induction false} StartAccounts(l: Ledger)
    requires OwnPaths(l.skipped) == [] && CountReason(l.skipped, ExtractionDisabledOrExhausted) == 0
    requires l.samples == map[] && l.scheduled == l.archives == 0
    ensures Accounted(l, [], [])
  {
  }

  /** The accounting survives one processed item, whatever its fate. */
  lemma {:induction false} AfterAccounts(o: Options, s: State, item: Item, p: Probe, h: History)
    requires Accounted(s.Books(), h.done, h.fates) && Budgeted(o, s.intake, h.entered)
    ensures Accounted(After(o, s, item, p).Books(), h.done + [item], h.fates + [FateOf(o, item, p, s.samples)])
  {
    hide Accounted, Admit, Budgeted, OwnPaths, CountReason;
    match FateOf(o, item, p, s.samples) {
      case SkippedItself => SkipKeeps(s.Books(), h.done, h.fates, item, OwnReason(p));
      case Sampled(sha) => SampleKeeps(s.Books(), h.done, h.fates, item, sha);
      case HandedOver =>
        UnpackKeeps(o, s.intake, item, p.extraction, h.entered);
        HandOverKeeps(s.Books(), h.done, h.fates, item, After(o, s, item, p).intake.skipped);
    }
  }

  /** The budgets survive it, and the queue's potential drops below what it was with the item. */
  lemma {:induction false} AfterBudgets(o: Options, s: State, item: Item, p: Probe, entered: seq<Item>)
    requires Budgeted(o, s.intake, entered) && |s.intake.queue| < o.maxFiles
    ensures var r := After(o, s, item, p).intake;
      && Budgeted(o, r, entered + Added(s.intake, r))
      && r.queue == s.intake.queue + Added(s.intake, r)
      && Potential(o.maxFiles, r.queue) < Potential(o.maxFiles, s.intake.queue) + Weight(o.maxFiles, item.depth)
  {
    hide Admit, Potential, Weight, TotalSize, PathSet, DistinctPaths, OwnPaths, CountReason;
    var r := After(o, s, item, p).intake;
    var added := Added(s.intake, r);
    if FateOf(o, item, p, s.samples) == HandedOver {
      UnpackKeeps(o, s.intake, item, p.extraction, entered);
      ExtractionLowers(o.maxFiles, added, item.depth);
      assert r.queue == s.intake.queue + added;
      PotentialConcat(o.maxFiles, s.intake.queue, added);
    } else {
      assert entered + added == entered;
    }
  }

  lemma {:induction false} TurnSound(o: Options, at: Point, k: nat, p: Probe)
    requires Sound(o, at) && k < |at.state.intake.queue|
    ensures Sound(o, Turn(o, at, k, p)) && Turn(o, at, k, p).state.scheduled == at.state.scheduled + 1
  {
    hide Admit, Potential, Weight, TotalSize, PathSet, DistinctPaths, Accounted, TurnBound;
    var s, h, m := at.state, at.past, o.maxFiles;
    var q, item := s.intake.queue, s.intake.queue[k];
    var popped := s.(intake := s.intake.(queue := q[..k] + q[k + 1..]));
    var r := After(o, popped, item, p);
    PotentialRemove(m, q, k);
    assert q == q[..k] + [item] + q[k + 1..];
    AfterBudgets(o, popped, item, p, h.entered);
    AfterAccounts(o, popped, item, p, h);
  }

  /** Every reachable state: budgets hold, no path entered twice, the accounts are exact, and the turns are bounded. */
  lemma {:induction false} RunSound(o: Options, w: World, listing: seq<Entry>, picks: seq<nat>)
    requires Legal(o, w, listing, picks)
    ensures Sound(o, Run(o, w, listing, picks))
    ensures Run(o, w, listing, picks).state.scheduled == |picks| 
    decreases |picks|
  {
    hide Sound, Turn, TurnBound;
    if picks == [] {
      StartSound(o, listing);
    } else {
      var n := |picks| - 1;
      RunSound(o, w, listing, picks[..n]);
      var at := Run(o, w, listing, picks[..n]);
      TurnSound(o, at, picks[n], w.probe(n, ItemAt(at, picks[n])));
    }
  }

  /** No scan can outrun the bound, whatever the extractions answer. */
  lemma {:induction false} TurnsBounded(o: Options, w: World, listing: seq<Entry>, picks: seq<nat>)
    requires Legal(o, w, listing, picks)
    ensures |picks| + |Run(o, w, listing, picks).state.intake.queue| <= TurnBound(o)
  {
    hide Run, Budgeted, Accounted, Legal;
    RunSound(o, w, listing, picks);
    PotentialCounts(o.maxFiles, Run(o, w, listing, picks).state.intake.queue);
  }

  lemma {:induction false} PotentialCounts(m: nat, items: seq<Item>)
    ensures Potential(m, items) >= |items|
  {
    hide Weight;
    if items != [] {
      PotentialCounts(m, items[..|items| - 1]);
    }
  }

  /** The report of every run balances, and a run that emptied the queue processed all that ever entered. */
  lemma {:induction false} ReportBalances(o: Options, w: World, listing: seq<Entry>, picks: seq<nat>)
    requires Legal(o, w, listing, picks)
    ensures var end := Run(o, w, listing, picks);
      && end.state.scheduled + CountReason(end.state.intake.skipped, ExtractionDisabledOrExhausted)
         == |OwnPaths(end.state.intake.skipped)| + TotalPaths(end.state.samples) + end.state.archives
      && (end.state.intake.queue == [] ==> multiset(end.past.done) == multiset(end.past.entered))
  {
    hide Run, Budgeted, Accounted, Legal, TotalPaths, OwnPaths, CountReason;
    RunSound(o, w, listing, picks);
    var end := Run(o, w, listing, picks);
    CountsBalance(end.state.Books(), end.past.done, end.past.fates);
  }

  lemma {:induction false} AtMostOnce(items: seq<Item>, x: Item)
    requires DistinctPaths(items)
    ensures multiset(items)[x] <= 1
  {
    if items != [] {
      var n := |items| - 1;
      AtMostOnce(items[..n], x);
      assert items == items[..n] + [items[n]];
    }
  }

  lemma {:induction false} TwiceCounted(items: seq<Item>, i: nat, j: nat)
    requires i < j < |items| && items[i] == items[j]
    ensures multiset(items)[items[i]] >= 2
  {
    assert items == items[..j] + [items[j]] + items[j + 1..];
    assert items[..j][i] == items[i];
  }

  lemma {:induction false} PartIsDistinct(whole: seq<Item>, queue: seq<Item>, done: seq<Item>)
    requires DistinctPaths(whole) && multiset(whole) == multiset(queue) + multiset(done)
    ensures DistinctPaths(done)
  {
    forall i: nat, j: nat | i < j < |done| ensures done[i].path != done[j].path {
      if done[i] == done[j] {
        TwiceCounted(done, i, j);
        AtMostOnce(whole, done[i]);
      } else {
        assert done[i] in multiset(whole) && done[j] in multiset(whole);
        var a :| 0 <= a < |whole| && whole[a] == done[i];
        var b :| 0 <= b < |whole| && whole[b] == done[j];
      }
    }
  }

  lemma {:induction false} FateIsTold(done: seq<Item>, fates: seq<Fate>, i: nat, f: Fate)
    requires i < |done| == |fates| && DistinctPaths(done)
    ensures done[i].path in PathsWith(done, fates, f) <==> fates[i] == f
    decreases |done|
  {
    var n := |done| - 1;
    if i < n {
      FateIsTold(done[..n], fates[..n], i, f);
    } else {
      NotAmong(done[..n], fates[..n], f, done[n].path);
    }
  }

  lemma {:induction false} NotAmong(done: seq<Item>, fates: seq<Fate>, f: Fate, path: string)
    requires |done| == |fates| && forall i :: 0 <= i < |done| ==> done[i].path != path
    ensures path !in PathsWith(done, fates, f)
  {
    if done != [] {
      var n := |done| - 1;
      NotAmong(done[..n], fates[..n], f, path);
    }
  }

  /** Each processed item is reported in exactly the place that its fate names. */
  lemma {:induction false} OneOutcome(o: Options, w: World, listing: seq<Entry>, picks: seq<nat>, i: nat)
    requires Legal(o, w, listing, picks) && i < |picks|
    ensures var end := Run(o, w, listing, picks);
      && |end.past.done| == |end.past.fates| == |picks|
      && (end.past.done[i].path in OwnPaths(end.state.intake.skipped) <==> end.past.fates[i] == SkippedItself)
      && forall h :: end.past.done[i].path in PathsOf(end.state.samples, h) <==> end.past.fates[i] == Sampled(h)
  {
    hide Run, Legal, TotalPaths, OwnPaths, CountReason, PathsWith, Potential, DistinctPaths, PathSet, TotalSize;
    RunSound(o, w, listing, picks);
    var end := Run(o, w, listing, picks);
    var done, fates := end.past.done, end.past.fates;
    PartIsDistinct(end.past.entered, end.state.intake.queue, done);
    FateIsTold(done, fates, i, SkippedItself);
    forall h ensures done[i].path in PathsOf(end.state.samples, h) <==> fates[i] == Sampled(h) {
      FateIsTold(done, fates, i, Sampled(h));
    }
  }

  // ------------------------------------------------- outcomes, from the probes alone

  /** Some turn before `n` found a binary with this hash whose sample directory could be created. */
  ghost predicate Known(w: World, done: seq<Item>, n: nat, h: string) {
    exists j :: 0 <= j < n && j < |done| && w.probe(j, done[j]) == Binary(h, true)
  }

  ghost predicate InSample(s: State, path: string, h: string) {
    h in s.samples && path in s.samples[h]
  }

  /** The only report on the item is a skip entry of its own with this reason. */
  ghost predicate SkippedFor(s: State, path: string, r: Reason) {
    && Skip(path, r) in s.intake.skipped
    && (forall q :: Own(q) && Skip(path, q) in s.intake.skipped ==> q == r)
    && forall h :: !InSample(s, path, h)
  }

  /** The only report on the item is its place in this sample. */
  ghost predicate SampledUnder(s: State, path: string, h: string) {
    && InSample(s, path, h)
    && (forall g :: InSample(s, path, g) ==> g == h)
    && forall q :: Own(q) ==> Skip(path, q) !in s.intake.skipped
  }

  /** The item was handed over: it is in no sample, and only a failed extraction is on record. */
  ghost predicate GivenUp(s: State, path: string, x: Extraction) {
    && (forall h :: !InSample(s, path, h))
    && (forall q :: Own(q) ==> Skip(path, q) !in s.intake.skipped)
    && (x == CannotReRead ==> Skip(path, ArchiveReadFailed) in s.intake.skipped)
    && (x == NoDestination ==> Skip(path, ExtractDestFailed) in s.intake.skipped)
    && (x == Refused ==> Skip(path, ArchiveSkipped) in s.intake.skipped)
  }

  /** The report on the item of turn `i`, from what probing it answered. */
  ghost predicate ToldByProbe(o: Options, w: World, s: State, done: seq<Item>, i: nat)
    requires i < |done|
  {
    var x := done[i];
    match w.probe(i, x)
    case Unreadable => SkippedFor(s, x.path, ReadFailed)
    case Other => SkippedFor(s, x.path, NotSupported)
    case Archive(extraction) =>
      if o.noExtract || x.depth == 0 then SkippedFor(s, x.path, ExtractionDisabledOrExhausted)
      else GivenUp(s, x.path, extraction)
    case Binary(h, created) =>
      if created || Known(w, done, i, h) then SampledUnder(s, x.path, h) else SkippedFor(s, x.path, SampleDirFailed)
  }

  ghost function FateDue(o: Options, w: World, done: seq<Item>, i: nat): Fate
    requires i < |done|
  {
    match w.probe(i, done[i])
    case Unreadable => SkippedItself
    case Other => SkippedItself
    case Archive(_) => if o.noExtract || done[i].depth == 0 then SkippedItself else HandedOver
    case Binary(h, created) => if created || Known(w, done, i, h) then Sampled(h) else SkippedItself
  }

  ghost function FailureDue(x: Extraction): Option<Reason> {
    match x
    case CannotReRead => Some(ArchiveReadFailed)
    case NoDestination => Some(ExtractDestFailed)
    case Refused => Some(ArchiveSkipped)
    case Extracted(_, _) => None
  }

  /** The entry that turn `i` must have left, if any. */
  ghost function EntryDue(o: Options, w: World, done: seq<Item>, i: nat): Option<Skip>
    requires i < |done|
  {
    var x, p := done[i], w.probe(i, done[i]);
    match FateDue(o, w, done, i)
    case SkippedItself => Some(Skip(x.path, OwnReason(p)))
    case Sampled(_) => None
    case HandedOver =>
      match (if p.Archive? then FailureDue(p.extraction) else None)
      case Some(r) => Some(Skip(x.path, r))
      case None => None
  }

  ghost predicate OwnEntryAt(o: Options, w: World, done: seq<Item>, i: nat, k: Skip) {
    i < |done| && FateDue(o, w, done, i) == SkippedItself && k == Skip(done[i].path, OwnReason(w.probe(i, done[i])))
  }

  ghost predicate OwnEntry(o: Options, w: World, done: seq<Item>, k: Skip) {
    exists i: nat :: OwnEntryAt(o, w, done, i, k)
  }

  ghost predicate FatesDue(o: Options, w: World, done: seq<Item>, fates: seq<Fate>) {
    |done| == |fates| && forall i :: 0 <= i < |done| ==> fates[i] == FateDue(o, w, done, i)
  }

  ghost predicate EntriesDue(o: Options, w: World, done: seq<Item>, skipped: seq<Skip>) {
    && (forall i :: 0 <= i < |done| && EntryDue(o, w, done, i).Some? ==> EntryDue(o, w, done, i).value in skipped)
    && (forall k :: k in skipped && Own(k.reason) ==> OwnEntry(o, w, done, k))
  }

  ghost predicate SamplesKnown(w: World, done: seq<Item>, samples: map<string, seq<string>>) {
    forall h :: h in samples <==> Known(w, done, |done|, h)
  }

  /** How many of the processed items were archives. */
  ghost function ArchivesIn(w: World, done: seq<Item>): nat {
    if done == [] then 0
    else
      var n := |done| - 1;
      ArchivesIn(w, done[..n]) + if w.probe(n, done[n]).Archive? then 1 else 0
  }

  ghost predicate Explained(o: Options, w: World, at: Point) {
    && at.state.archives == ArchivesIn(w, at.past.done)
    && SamplesKnown(w, at.past.done, at.state.samples)
    && FatesDue(o, w, at.past.done, at.past.fates)
    && EntriesDue(o, w, at.past.done, at.state.intake.skipped)
  }

  lemma {:induction false} DueStays(o: Options, w: World, done: seq<Item>, x: Item)
    ensures forall n: nat, h :: n <= |done| ==> (Known(w, done + [x], n, h) <==> Known(w, done, n, h))
    ensures forall i :: 0 <= i < |done| ==> FateDue(o, w, done + [x], i) == FateDue(o, w, done, i)
    ensures forall i :: 0 <= i < |done| ==> EntryDue(o, w, done + [x], i) == EntryDue(o, w, done, i)
    ensures forall h :: Known(w, done + [x], |done| + 1, h)
                   <==> Known(w, done, |done|, h) || w.probe(|done|, x) == Binary(h, true)
  {
    var more := done + [x];
    assert more[|done|] == x && forall j :: 0 <= j < |done| ==> more[j] == done[j];
    forall n: nat, h | n <= |done| ensures Known(w, more, n, h) <==> Known(w, done, n, h) {
      if Known(w, done, n, h) {
        var j :| 0 <= j < n && j < |done| && w.probe(j, done[j]) == Binary(h, true);
        assert w.probe(j, more[j]) == Binary(h, true);
      }
    }
    forall h ensures Known(w, more, |done| + 1, h)
        <==> Known(w, done, |done|, h) || w.probe(|done|, x) == Binary(h, true)
    {
      if Known(w, done, |done|, h) {
        var j :| 0 <= j < |done| && w.probe(j, done[j]) == Binary(h, true);
        assert w.probe(j, more[j]) == Binary(h, true);
      }
      if w.probe(|done|, x) == Binary(h, true) {
        assert w.probe(|done|, more[|done|]) == Binary(h, true);
      }
    }
  }

  /** What a turn does to samples and skip entries, from the probe. */
  lemma {:induction false} AfterTells(o: Options, w: World, s: State, done: seq<Item>, x: Item)
    requires SamplesKnown(w, done, s.samples)
    ensures
      var p, more := w.probe(|done|, x), done + [x];
      var r, fate := After(o, s, x, p), FateDue(o, w, more, |done|);
      && FateOf(o, x, p, s.samples) == fate
      && r.archives == s.archives + (if p.Archive? then 1 else 0)
      && (forall h :: h in r.samples <==> h in s.samples || p == Binary(h, true))
      && (forall k :: k in s.intake.skipped ==> k in r.intake.skipped)
      && (EntryDue(o, w, more, |done|).Some? ==> EntryDue(o, w, more, |done|).value in r.intake.skipped)
      && (forall k :: k in r.intake.skipped && Own(k.reason) ==>
            k in s.intake.skipped || OwnEntryAt(o, w, more, |done|, k))
  {
    hide Admit, Known;
    DueStays(o, w, done, x);
    var p := w.probe(|done|, x);
    if p.Archive? && p.extraction.Extracted? {
      AdmitSkips(o, s.intake, p.extraction.files, Unpacked(p.extraction.sha), if x.depth == 0 then 0 else x.depth - 1);
    }
  }

  lemma {:induction false} OwnEntryStays(o: Options, w: World, done: seq<Item>, x: Item, k: Skip)
    requires OwnEntry(o, w, done, k)
    ensures OwnEntry(o, w, done + [x], k)
  {
    hide FateDue;
    var i: nat :| OwnEntryAt(o, w, done, i, k);
    DueStays(o, w, done, x);
    assert OwnEntryAt(o, w, done + [x], i, k);
  }

  lemma {:induction false} TurnExplained(o: Options, w: World, at: Point, k: nat)
    requires Explained(o, w, at) && k < |at.state.intake.queue|
    ensures Explained(o, w, Turn(o, at, k, w.probe(|at.past.done|, at.state.intake.queue[k])))
  {
    hide After, FateOf, Known, FateDue, EntryDue, OwnEntryAt;
    var done, x := at.past.done, at.state.intake.queue[k];
    var q := at.state.intake.queue;
    var popped := at.state.(intake := at.state.intake.(queue := q[..k] + q[k + 1..]));
    var p, more := w.probe(|done|, x), done + [x];
    var next := After(o, popped, x, p);
    AfterTells(o, w, popped, done, x);
    DueStays(o, w, done, x);
    assert more[..|done|] == done;
    forall e | e in next.intake.skipped && Own(e.reason) ensures OwnEntry(o, w, more, e) {
      if e in popped.intake.skipped { OwnEntryStays(o, w, done, x, e); }
    }
  }

  lemma {:induction false} StartExplained(o: Options, w: World, listing: seq<Entry>)
    ensures Explained(o, w, Start(o, listing))
  {
    hide Admit;
    AdmitSkips(o, Intake([], {}, 0, []), listing, Walk, o.archiveDepth);
  }

  lemma {:induction false} RunExplained(o: Options, w: World, listing: seq<Entry>, picks: seq<nat>)
    requires Legal(o, w, listing, picks)
    ensures Explained(o, w, Run(o, w, listing, picks)) && |Run(o, w, listing, picks).past.done| == |picks|
    decreases |picks|
  {
    hide Explained, Start;
    if picks == [] {
      StartExplained(o, w, listing);
      StartHasDoneNothing(o, listing);
    } else {
      var n := |picks| - 1;
      RunExplained(o, w, listing, picks[..n]);
      TurnExplained(o, w, Run(o, w, listing, picks[..n]), picks[n]);
    }
  }

  lemma {:induction false} StartHasDoneNothing(o: Options, listing: seq<Entry>)
    ensures Start(o, listing).past.done == []
  {
  }

  lemma {:induction false} OwnPathsAre(skipped: seq<Skip>, path: string)
    ensures path in OwnPaths(skipped)
        <==> exists k :: 0 <= k < |skipped| && skipped[k].path == path && Own(skipped[k].reason)
  {
    if skipped != [] {
      var n := |skipped| - 1;
      OwnPathsAre(skipped[..n], path);
      if path in OwnPaths(skipped[..n]) {
        var k :| 0 <= k < n && skipped[..n][k].path == path && Own(skipped[..n][k].reason);
        assert skipped[k] == skipped[..n][k];
      }
      assert forall k :: 0 <= k < n ==> skipped[k] == skipped[..n][k];
    }
  }

  lemma {:induction false} OwnSkipListed(skipped: seq<Skip>, path: string, q: Reason)
    requires Own(q) && Skip(path, q) in skipped
    ensures path in OwnPaths(skipped)
  {
    OwnPathsAre(skipped, path);
  }

  lemma {:induction false} RunIsDistinct(o: Options, w: World, listing: seq<Entry>, picks: seq<nat>)
    requires Legal(o, w, listing, picks)
    ensures DistinctPaths(Run(o, w, listing, picks).past.done)
  {
    hide Run, Legal, Accounted, Potential, TotalSize, DistinctPaths, PathSet;
    RunSound(o, w, listing, picks);
    var end := Run(o, w, listing, picks);
    PartIsDistinct(end.past.entered, end.state.intake.queue, end.past.done);
  }

  /** An own entry for the item of turn `i` carries the reason of that turn. */
  lemma {:induction false} OneReason(o: Options, w: World, done: seq<Item>, skipped: seq<Skip>, i: nat, q: Reason)
    requires EntriesDue(o, w, done, skipped) && DistinctPaths(done) && i < |done|
    requires Own(q) && Skip(done[i].path, q) in skipped
    ensures q == OwnReason(w.probe(i, done[i])) && FateDue(o, w, done, i) == SkippedItself
  {
    hide OwnReason, FateDue;
    assert OwnEntry(o, w, done, Skip(done[i].path, q));
    var j: nat :| OwnEntryAt(o, w, done, j, Skip(done[i].path, q));
    assert i == j;
  }

  /** In every legal run the report on each processed item is the one that its probe calls for, and no other. */
  lemma {:induction false} OutcomeByProbe(o: Options, w: World, listing: seq<Entry>, picks: seq<nat>, i: nat)
    requires Legal(o, w, listing, picks) && i < |picks|
    ensures
      var end := Run(o, w, listing, picks);
      |end.past.done| == |picks| && ToldByProbe(o, w, end.state, end.past.done, i)
  {
    hide Run, Legal, OwnPaths, DistinctPaths, SamplesKnown, Known;
    OneOutcome(o, w, listing, picks, i);
    RunExplained(o, w, listing, picks);
    RunIsDistinct(o, w, listing, picks);
    var end := Run(o, w, listing, picks);
    var done, skipped, path := end.past.done, end.state.intake.skipped, end.past.done[i].path;
    var fate := FateDue(o, w, done, i);
    forall h ensures InSample(end.state, path, h) <==> fate == Sampled(h) {
      assert path in PathsOf(end.state.samples, h) <==> InSample(end.state, path, h);
    }
    forall q | Own(q) && Skip(path, q) in skipped
      ensures fate == SkippedItself && q == OwnReason(w.probe(i, done[i]))
    {
      OneReason(o, w, done, skipped, i, q);
    }
    hide EntriesDue;
    assert EntryDue(o, w, done, i).Some?
        ==> EntryDue(o, w, done, i).value in skipped by { EntryIsThere(o, w, done, skipped, i); }
  }

  lemma {:induction false} EntryIsThere(o: Options, w: World, done: seq<Item>, skipped: seq<Skip>, i: nat)
    requires EntriesDue(o, w, done, skipped) && i < |done|
    ensures EntryDue(o, w, done, i).Some? ==> EntryDue(o, w, done, i).value in skipped
  {
    hide EntryDue;
  }

  /** What the last turn of a run pops and takes in. */
  ghost predicate TurnTakes(o: Options, w: World, n: nat, before: Point, after: Point) {
    exists k: nat ::
      && Largest(before.state.intake.queue, k)
      && var s := before.state.intake;
         var x, rest := s.queue[k], s.(queue := s.queue[..k] + s.queue[k + 1..]);
         && after.past.done == before.past.done + [x]
         && Intakes(o, rest, x, w.probe(n, x), after.state.intake)
         && after.past.entered == before.past.entered + Added(rest, after.state.intake)
  }

  /** Files come in only from an archive that may be extracted and could be; they come in one level down. */
  ghost predicate Intakes(o: Options, s: Intake, x: Item, p: Probe, r: Intake) {
    if p.Archive? && p.extraction.Extracted? && !o.noExtract && x.depth > 0 then
      Takes(o, s, p.extraction.files, Unpacked(p.extraction.sha), x.depth - 1, r)
    else r.queue == s.queue && r.enqueued == s.enqueued && r.bytes == s.bytes
  }

  lemma {:induction false} AfterIntakes(o: Options, s: State, x: Item, p: Probe)
    ensures Intakes(o, s.intake, x, p, After(o, s, x, p).intake)
  {
    hide Admit, Takes;
    if p.Archive? && p.extraction.Extracted? && !o.noExtract && x.depth > 0 {
      AdmitTakes(o, s.intake, p.extraction.files, Unpacked(p.extraction.sha), x.depth - 1);
    }
  }

  /** Every turn pops a largest item and takes in what its probe allows; the run starts with the walk of the listing. */
  lemma {:induction false} RunTakes(o: Options, w: World, listing: seq<Entry>, picks: seq<nat>)
    requires Legal(o, w, listing, picks)
    ensures
      var end := Run(o, w, listing, picks);
      if picks == [] then
        && Takes(o, Intake([], {}, 0, []), listing, Walk, o.archiveDepth, end.state.intake)
        && end.past.entered == end.state.intake.queue && end.past.done == [] && end.state.samples == map[]
      else
        var n := |picks| - 1;
        TurnTakes(o, w, n, Run(o, w, listing, picks[..n]), end)
  {
    hide Admit, Takes, After, FateOf, Intakes;
    if picks == [] {
      AdmitTakes(o, Intake([], {}, 0, []), listing, Walk, o.archiveDepth);
    } else {
      var n := |picks| - 1;
      var at := Run(o, w, listing, picks[..n]);
      var k, s := picks[n], at.state.intake;
      var x := s.queue[k];
      AfterIntakes(o, at.state.(intake := s.(queue := s.queue[..k] + s.queue[k + 1..])), x, w.probe(n, x));
    }
  }

  datatype ScanResult = ScanResult(sampleCount: nat, archiveCount: nat, skipped: seq<Skip>,
                                   samples: map<string, seq<string>>, interrupted: bool)

  /** The report of the run with these picks, ended by an empty queue or by an interrupt right after a pop. */
  ghost predicate Reports(o: Options, w: World, listing: seq<Entry>, picks: seq<nat>, r: ScanResult) {
    var end := Run(o, w, listing, picks).state;
    && r == ScanResult(end.scheduled, end.archives, end.intake.skipped, end.samples, end.intake.queue != [])
    && (r.interrupted ==> w.interrupted(|picks|))
    && forall i :: 0 <= i < |picks| ==> !w.interrupted(i)
  }

  ghost predicate AllTold(o: Options, w: World, listing: seq<Entry>, picks: seq<nat>) {
    var end := Run(o, w, listing, picks);
    && |end.past.done| == |picks| && end.state.archives == ArchivesIn(w, end.past.done)
    && forall i :: 0 <= i < |picks| ==> ToldByProbe(o, w, end.state, end.past.done, i)
  }

  lemma {:induction false} RunAllTold(o: Options, w: World, listing: seq<Entry>, picks: seq<nat>)
    requires Legal(o, w, listing, picks)
    ensures AllTold(o, w, listing, picks)
  {
    hide Run, Legal, ToldByProbe;
    RunExplained(o, w, listing, picks);
    var end := Run(o, w, listing, picks);
    forall i | 0 <= i < |picks| ensures ToldByProbe(o, w, end.state, end.past.done, i) {
      OutcomeByProbe(o, w, listing, picks, i);
    }
  }

  /** Every scan ends; its report is that of a legal run, which is complete unless it was interrupted. */
  method ScanFolder(o: Options, w: World, listing: seq<Entry>) returns (r: ScanResult)
    ensures exists picks ::
        Legal(o, w, listing, picks) && Reports(o, w, listing, picks, r) && AllTold(o, w, listing, picks)
  {
    hide Admit, After, Weight, Sound, AllTold;
    var scan := new Scan(o);
    scan.WalkIntoQueue(listing);
    ghost var picks := [];
    var interrupted := false;
    while scan.queue != []
      invariant scan.o == o && !interrupted
      invariant Legal(o, w, listing, picks) && scan.scheduled == |picks|
      invariant scan.TheState() == Run(o, w, listing, picks).state
      invariant forall i :: 0 <= i < |picks| ==> !w.interrupted(i)
      decreases TurnBound(o) - |picks|
    {
      ghost var at := Run(o, w, listing, picks);
      ghost var before := scan.queue;
      var item, k := scan.PopLargest();
      if w.interrupted(scan.scheduled) {
        r := ScanResult(scan.scheduled, scan.archiveCount, scan.skipped, scan.samples, true);
        assert Reports(o, w, listing, picks, r);
        RunAllTold(o, w, listing, picks);
        return;
      }
      TurnsBounded(o, w, listing, picks);
      scan.Process(item, w.probe(scan.scheduled, item));
      assert (picks + [k])[..|picks|] == picks;
      picks := picks + [k];
      RunSound(o, w, listing, picks);
    }
    r := ScanResult(scan.scheduled, scan.archiveCount, scan.skipped, scan.samples, interrupted);
    assert Reports(o, w, listing, picks, r);
    RunAllTold(o, w, listing, picks);
  }
}
