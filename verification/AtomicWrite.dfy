/**
 * The temp-write-then-rename writer as a step relation over a disk that can lose
 * everything not made durable, including renames. Several writers run interleaved.
 */
module AtomicWrite {
  import opened Common

  datatype Inode = Inode(data: Bytes, durable: bool)

  type Dir = map<string, nat>

  /** `dirs` lists the directory after each change since the last crash; the last one is current. */
  datatype Disk = Disk(inodes: map<nat, Inode>, dirs: seq<Dir>) {
    function Now(): Dir { if dirs == [] then map[] else dirs[|dirs| - 1] }
    function With(d: Dir): Disk { this.(dirs := dirs + [d]) }
  }

  function Read(inodes: map<nat, Inode>, d: Dir, name: string): Option<Bytes> {
    if name in d && d[name] in inodes then Some(inodes[d[name]].data) else None
  }

  function TmpOf(target: string): string { target + ".tmp" }

  datatype Phase = Idle | Open | Flushed | Synced

  /** `pos` is the handle's file offset; `accepted` is the stream the caller has handed over. */
  datatype Writer = Writer(phase: Phase, ino: nat, pos: nat, buffer: Bytes, accepted: Bytes)

  /** What one writer does in one uninterruptible step. */
  datatype Op =
    | Create(ino: nat)        // open the temp file, truncating what is there
    | Accept(chunk: Bytes)    // the buffer takes bytes from the caller
    | Spill(count: nat)       // some of the buffer reaches the file
    | Flush | Sync | Rename   // the three stages of finalize
    | Remove                  // abort
    | Fail                    // an error, a drop or a panic; the temp file stays

  function WriteAt(data: Bytes, pos: nat, chunk: Bytes): Bytes {
    var padded := if |data| < pos then data + seq(pos - |data|, _ => 0 as Byte) else data;
    padded[..pos] + chunk + if pos + |chunk| < |padded| then padded[pos + |chunk|..] else []
  }

  predicate Enabled(d: Disk, target: string, w: Writer, op: Op) {
    match op
    case Create(ino) =>
      w.phase == Idle && if TmpOf(target) in d.Now() then ino == d.Now()[TmpOf(target)] else ino !in d.inodes
    case Accept(_) => w.phase == Open
    case Spill(k) => w.phase == Open && k <= |w.buffer| && w.ino in d.inodes
    case Flush => w.phase == Open && w.buffer == []
    case Sync => w.phase == Flushed && w.ino in d.inodes
    case Rename => w.phase == Synced && TmpOf(target) in d.Now()
    case Remove => w.phase == Open
    case Fail => w.phase != Idle
  }

  function OnDisk(d: Disk, target: string, w: Writer, op: Op): Disk
    requires Enabled(d, target, w, op)
  {
    var tmp := TmpOf(target);
    match op
    case Create(ino) =>
      var emptied := d.(inodes := d.inodes[ino := Inode([], false)]);
      if tmp in d.Now() then emptied else emptied.With(d.Now()[tmp := ino])
    case Spill(k) =>
      d.(inodes := d.inodes[w.ino := Inode(WriteAt(d.inodes[w.ino].data, w.pos, w.buffer[..k]), false)])
    case Sync => d.(inodes := d.inodes[w.ino := d.inodes[w.ino].(durable := true)])
    case Rename => d.With((d.Now() - {tmp})[target := d.Now()[tmp]])
    case Remove => if tmp in d.Now() then d.With(d.Now() - {tmp}) else d
    case _ => d
  }

  function OnWriter(w: Writer, op: Op): Writer {
    match op
    case Create(ino) => Writer(Open, ino, 0, [], [])
    case Accept(chunk) => w.(buffer := w.buffer + chunk, accepted := w.accepted + chunk)
    case Spill(k) => if k <= |w.buffer| then w.(pos := w.pos + k, buffer := w.buffer[k..]) else w
    case Flush => w.(phase := Flushed)
    case Sync => w.(phase := Synced)
    case Rename => w.(phase := Idle)
    case Remove => w.(phase := Idle)
    case Fail => w.(phase := Idle)
  }

  // ------------------------------------------------------------------ the system

  /** `versions[i]`: the content of target `i` at the start, then the complete stream of each finished writer. */
  datatype System = System(disk: Disk, targets: seq<string>, writers: seq<Writer>, versions: seq<seq<Option<Bytes>>>)

  /** A crash keeps some directory of the session; inodes that are not durable hold anything. */
  datatype Event = Act(i: nat, op: Op) | Crash(kept: nat, found: map<nat, Bytes>)

  ghost predicate Shaped(s: System) {
    |s.targets| == |s.writers| == |s.versions|
  }

  ghost predicate Possible(s: System, e: Event) {
    Shaped(s) &&
    match e
    case Act(i, op) => i < |s.writers| && Enabled(s.disk, s.targets[i], s.writers[i], op)
    case Crash(kept, _) => kept < |s.disk.dirs|
  }

  function Survivor(n: Inode, found: Bytes): Inode {
    Inode(if n.durable then n.data else found, true)
  }

  function AfterCrash(d: Disk, kept: nat, found: map<nat, Bytes>): Disk
    requires kept < |d.dirs|
  {
    Disk(map n | n in d.inodes :: Survivor(d.inodes[n], if n in found then found[n] else []), [d.dirs[kept]])
  }

  ghost function Next(s: System, e: Event): System
    requires Possible(s, e)
  {
    match e
    case Act(i, op) =>
      System(OnDisk(s.disk, s.targets[i], s.writers[i], op), s.targets, s.writers[i := OnWriter(s.writers[i], op)],
             if op == Rename then s.versions[i := s.versions[i] + [Some(s.writers[i].accepted)]] else s.versions)
    case Crash(kept, found) =>
      System(AfterCrash(s.disk, kept, found), s.targets, seq(|s.writers|, _ => Writer(Idle, 0, 0, [], [])), s.versions)
  }

  ghost predicate Runs(s: System, events: seq<Event>)
    decreases |events|
  {
    events != [] ==> Possible(s, events[0]) && Runs(Next(s, events[0]), events[1..])
  }

  ghost function End(s: System, events: seq<Event>): System
    requires Runs(s, events)
    decreases |events|
  {
    if events == [] then s else End(Next(s, events[0]), events[1..])
  }

  /** No two writers share a target, and no target is another writer's temp file. */
  ghost predicate Separate(targets: seq<string>) {
    && (forall i, j :: 0 <= i < j < |targets| ==> targets[i] != targets[j])
    && (forall i, j :: 0 <= i < |targets| && 0 <= j < |targets| ==> targets[i] != TmpOf(targets[j]))
  }

  ghost predicate Injective(d: Dir) {
    forall x, y :: x in d && y in d && x != y ==> d[x] != d[y]
  }

  /** A quiet disk without hard links, everything durable, no writer open. */
  ghost predicate Initial(s: System) {
    && Shaped(s) && |s.disk.dirs| == 1 && Injective(s.disk.Now())
    && (forall x :: x in s.disk.Now() ==> s.disk.Now()[x] in s.disk.inodes)
    && (forall n :: n in s.disk.inodes ==> s.disk.inodes[n].durable)
    && (forall i :: 0 <= i < |s.writers| ==> s.writers[i].phase == Idle)
    && (forall i :: 0 <= i < |s.targets| ==> s.versions[i] == [Read(s.disk.inodes, s.disk.Now(), s.targets[i])])
  }

  /** Target `i` reads as a whole version: its first content or a complete stream. */
  ghost predicate Whole(s: System, i: nat) {
    i < |s.targets| && i < |s.versions| && Read(s.disk.inodes, s.disk.Now(), s.targets[i]) in s.versions[i]
  }

  // --------------------------------------------------------------- the invariant

  ghost predicate DirOk(inodes: map<nat, Inode>, d: Dir) {
    Injective(d) && forall x :: x in d ==> d[x] in inodes
  }

  /** In directory `d` the target is durable and holds one of its versions. */
  ghost predicate Held(inodes: map<nat, Inode>, d: Dir, t: string, vs: seq<Option<Bytes>>) {
    (t in d ==> d[t] in inodes && inodes[d[t]].durable) && Read(inodes, d, t) in vs
  }

  ghost predicate AllHeld(inodes: map<nat, Inode>, d: Dir, targets: seq<string>, versions: seq<seq<Option<Bytes>>>)
    requires |targets| == |versions|
  {
    forall j :: 0 <= j < |targets| ==> Held(inodes, d, targets[j], versions[j])
  }

  /** No target is, or since the last crash was, this inode. */
  ghost predicate Clear(dirs: seq<Dir>, targets: seq<string>, n: nat) {
    forall k, j :: 0 <= k < |dirs| && 0 <= j < |targets| && targets[j] in dirs[k] ==> dirs[k][targets[j]] != n
  }

  ghost predicate WriterOk(inodes: map<nat, Inode>, now: Dir, target: string, w: Writer) {
    w.phase != Idle ==>
      && TmpOf(target) in now && now[TmpOf(target)] == w.ino && w.ino in inodes
      && inodes[w.ino].data + w.buffer == w.accepted && w.pos == |inodes[w.ino].data|
      && (w.phase != Open ==> w.buffer == [])
      && (w.phase == Synced ==> inodes[w.ino].durable)
  }

  ghost predicate DirsOk(s: System) requires Shaped(s) {
    forall k :: 0 <= k < |s.disk.dirs| ==>
      DirOk(s.disk.inodes, s.disk.dirs[k]) && AllHeld(s.disk.inodes, s.disk.dirs[k], s.targets, s.versions)
  }

  ghost predicate TempsPrivate(s: System) requires Shaped(s) {
    forall i :: 0 <= i < |s.targets| && TmpOf(s.targets[i]) in s.disk.Now() ==>
      Clear(s.disk.dirs, s.targets, s.disk.Now()[TmpOf(s.targets[i])])
  }

  ghost predicate WritersOk(s: System) requires Shaped(s) {
    forall i :: 0 <= i < |s.targets| ==> WriterOk(s.disk.inodes, s.disk.Now(), s.targets[i], s.writers[i])
  }

  ghost predicate Inv(s: System) {
    Shaped(s) && s.disk.dirs != [] && DirsOk(s) && TempsPrivate(s) && WritersOk(s)
  }

  lemma {:induction false} TmpInjective(a: string, b: string)
    requires a != b
    ensures TmpOf(a) != TmpOf(b)
  {
    assert TmpOf(a)[..|TmpOf(a)| - 4] == a && TmpOf(b)[..|TmpOf(b)| - 4] == b;
  }

  lemma {:induction false} InitialInv(s: System)
    requires Separate(s.targets) && Initial(s)
    ensures Inv(s)
  {
  }

  // ---- one event after another

  /** Writing the inode behind a private temp file disturbs no target and no other writer. */
  lemma {:induction false} InodeStep(s: System, r: System, i: nat, n: nat, x: Inode)
    requires Inv(s) && Separate(s.targets) && Shaped(r) && i < |s.targets|
    requires TmpOf(s.targets[i]) in s.disk.Now() && s.disk.Now()[TmpOf(s.targets[i])] == n
    requires r.targets == s.targets && r.versions == s.versions && r.disk.dirs == s.disk.dirs
    requires r.disk.inodes == s.disk.inodes[n := x]
    requires forall j :: 0 <= j < |s.writers| && j != i ==> r.writers[j] == s.writers[j]
    requires WriterOk(r.disk.inodes, r.disk.Now(), r.targets[i], r.writers[i])
    ensures Inv(r)
  {
    assert Clear(s.disk.dirs, s.targets, n);
    forall j | 0 <= j < |r.targets| ensures WriterOk(r.disk.inodes, r.disk.Now(), r.targets[j], r.writers[j]) {
      if j != i {
        TmpInjective(s.targets[i], s.targets[j]);
      }
    }
    forall k | 0 <= k < |r.disk.dirs|
      ensures DirOk(r.disk.inodes, r.disk.dirs[k]) && AllHeld(r.disk.inodes, r.disk.dirs[k], r.targets, r.versions)
    {
      assert DirOk(s.disk.inodes, s.disk.dirs[k]) && AllHeld(s.disk.inodes, s.disk.dirs[k], s.targets, s.versions);
      forall j | 0 <= j < |r.targets| ensures Held(r.disk.inodes, r.disk.dirs[k], r.targets[j], r.versions[j]) {
        assert Held(s.disk.inodes, s.disk.dirs[k], s.targets[j], s.versions[j]);
      }
    }
  }

  /** A temp file made from a new inode. */
  lemma {:induction false} NewTempStep(s: System, r: System, i: nat, n: nat)
    requires Inv(s) && Separate(s.targets) && i < |s.targets| && n !in s.disk.inodes
    requires TmpOf(s.targets[i]) !in s.disk.Now()
    requires
      var dirs := s.disk.dirs + [s.disk.Now()[TmpOf(s.targets[i]) := n]];
      r == s.(disk := Disk(s.disk.inodes[n := Inode([], false)], dirs),
              writers := s.writers[i := Writer(Open, n, 0, [], [])])
    ensures Inv(r)
  {
    var tmp, last := TmpOf(s.targets[i]), |s.disk.dirs| - 1;
    assert DirOk(s.disk.inodes, s.disk.dirs[last]) && AllHeld(s.disk.inodes, s.disk.dirs[last], s.targets, s.versions);
    forall k | 0 <= k < |r.disk.dirs|
      ensures DirOk(r.disk.inodes, r.disk.dirs[k]) && AllHeld(r.disk.inodes, r.disk.dirs[k], r.targets, r.versions)
    {
      var was := s.disk.dirs[if k <= last then k else last];
      assert DirOk(s.disk.inodes, was) && AllHeld(s.disk.inodes, was, s.targets, s.versions);
      forall j | 0 <= j < |r.targets| ensures Held(r.disk.inodes, r.disk.dirs[k], r.targets[j], r.versions[j]) {
        assert Held(s.disk.inodes, was, s.targets[j], s.versions[j]);
      }
    }
    forall j | 0 <= j < |r.targets|
      ensures WriterOk(r.disk.inodes, r.disk.Now(), r.targets[j], r.writers[j])
      ensures TmpOf(r.targets[j]) in r.disk.Now() ==> Clear(r.disk.dirs, r.targets, r.disk.Now()[TmpOf(r.targets[j])])
    {
      if j != i {
        TmpInjective(s.targets[i], s.targets[j]);
        assert WriterOk(s.disk.inodes, s.disk.Now(), s.targets[j], s.writers[j]);
      }
    }
  }

  /** Dropping a temp name, and putting its inode (if any) under the target name. */
  lemma {:induction false} UnlinkStep(s: System, r: System, i: nat)
    requires Inv(s) && Separate(s.targets) && i < |s.targets| && TmpOf(s.targets[i]) in s.disk.Now()
    requires r == s.(disk := s.disk.With(s.disk.Now() - {TmpOf(s.targets[i])}),
                     writers := s.writers[i := s.writers[i].(phase := Idle)])
    ensures Inv(r)
  {
    var tmp, last := TmpOf(s.targets[i]), |s.disk.dirs| - 1;
    assert DirOk(s.disk.inodes, s.disk.dirs[last]) && AllHeld(s.disk.inodes, s.disk.dirs[last], s.targets, s.versions);
    forall k | 0 <= k < |r.disk.dirs|
      ensures DirOk(r.disk.inodes, r.disk.dirs[k]) && AllHeld(r.disk.inodes, r.disk.dirs[k], r.targets, r.versions)
    {
      var was := s.disk.dirs[if k <= last then k else last];
      assert DirOk(s.disk.inodes, was) && AllHeld(s.disk.inodes, was, s.targets, s.versions);
      forall j | 0 <= j < |r.targets| ensures Held(r.disk.inodes, r.disk.dirs[k], r.targets[j], r.versions[j]) {
        assert Held(s.disk.inodes, was, s.targets[j], s.versions[j]);
      }
    }
    forall j | 0 <= j < |r.targets|
      ensures WriterOk(r.disk.inodes, r.disk.Now(), r.targets[j], r.writers[j])
      ensures TmpOf(r.targets[j]) in r.disk.Now() ==> Clear(r.disk.dirs, r.targets, r.disk.Now()[TmpOf(r.targets[j])])
    {
      if j != i {
        TmpInjective(s.targets[i], s.targets[j]);
        assert WriterOk(s.disk.inodes, s.disk.Now(), s.targets[j], s.writers[j]);
      }
    }
  }

  /** In the directory that a rename makes, the target holds the complete stream and the others what they held. */
  lemma {:induction false} RenamedDir(s: System, i: nat)
    requires Inv(s) && Separate(s.targets) && Possible(s, Act(i, Rename))
    ensures var r := Next(s, Act(i, Rename));
      DirOk(r.disk.inodes, r.disk.Now()) && AllHeld(r.disk.inodes, r.disk.Now(), r.targets, r.versions)
    ensures var r := Next(s, Act(i, Rename));
      Read(r.disk.inodes, r.disk.Now(), r.targets[i]) == Some(s.writers[i].accepted)
  {
    hide TempsPrivate;
    var r := Next(s, Act(i, Rename));
    var w, was := s.writers[i], s.disk.dirs[|s.disk.dirs| - 1];
    assert WriterOk(s.disk.inodes, was, s.targets[i], w);
    assert s.disk.inodes[w.ino].data + [] == s.disk.inodes[w.ino].data;
    assert DirOk(s.disk.inodes, was) && AllHeld(s.disk.inodes, was, s.targets, s.versions);
    assert r.disk.Now() == (was - {TmpOf(s.targets[i])})[s.targets[i] := w.ino];
    forall j | 0 <= j < |r.targets| ensures Held(r.disk.inodes, r.disk.Now(), r.targets[j], r.versions[j]) {
      if j != i {
        assert Held(s.disk.inodes, was, s.targets[j], s.versions[j]);
      } else {
        assert r.versions[i][|s.versions[i]|] == Some(w.accepted);
      }
    }
  }

  lemma {:induction false} RenameStep(s: System, i: nat)
    requires Inv(s) && Separate(s.targets) && Possible(s, Act(i, Rename))
    ensures Inv(Next(s, Act(i, Rename)))
  {
    hide Injective;
    var r := Next(s, Act(i, Rename));
    var last := |s.disk.dirs| - 1;
    RenamedDir(s, i);
    forall k | 0 <= k < |r.disk.dirs|
      ensures DirOk(r.disk.inodes, r.disk.dirs[k]) && AllHeld(r.disk.inodes, r.disk.dirs[k], r.targets, r.versions)
    {
      if k <= last {
        assert DirOk(s.disk.inodes, s.disk.dirs[k]) && AllHeld(s.disk.inodes, s.disk.dirs[k], s.targets, s.versions);
        forall j | 0 <= j < |r.targets| ensures Held(r.disk.inodes, r.disk.dirs[k], r.targets[j], r.versions[j]) {
          assert Held(s.disk.inodes, s.disk.dirs[k], s.targets[j], s.versions[j]);
        }
      }
    }
    RenamedTemps(s, i);
  }

  lemma {:induction false} RenamedTemps(s: System, i: nat)
    requires Inv(s) && Separate(s.targets) && Possible(s, Act(i, Rename))
    ensures TempsPrivate(Next(s, Act(i, Rename))) && WritersOk(Next(s, Act(i, Rename)))
  {
    hide AllHeld;
    var r := Next(s, Act(i, Rename));
    assert WriterOk(s.disk.inodes, s.disk.Now(), s.targets[i], s.writers[i]);
    assert DirOk(s.disk.inodes, s.disk.dirs[|s.disk.dirs| - 1]);
    forall j | 0 <= j < |r.targets|
      ensures WriterOk(r.disk.inodes, r.disk.Now(), r.targets[j], r.writers[j])
      ensures TmpOf(r.targets[j]) in r.disk.Now() ==> Clear(r.disk.dirs, r.targets, r.disk.Now()[TmpOf(r.targets[j])])
    {
      if j != i {
        TmpInjective(s.targets[i], s.targets[j]);
        assert WriterOk(s.disk.inodes, s.disk.Now(), s.targets[j], s.writers[j]);
      }
    }
  }

  lemma {:induction false} CrashStep(s: System, kept: nat, found: map<nat, Bytes>)
    requires Inv(s) && Separate(s.targets) && kept < |s.disk.dirs|
    ensures Inv(Next(s, Crash(kept, found)))
  {
    var r, d := Next(s, Crash(kept, found)), s.disk.dirs[kept];
    assert DirOk(s.disk.inodes, d) && AllHeld(s.disk.inodes, d, s.targets, s.versions);
    assert AllHeld(r.disk.inodes, d, r.targets, r.versions) by {
      forall j | 0 <= j < |r.targets| ensures Held(r.disk.inodes, d, r.targets[j], r.versions[j]) {
        assert Held(s.disk.inodes, d, s.targets[j], s.versions[j]);
      }
    }
  }

  lemma {:induction false} ActStep(s: System, i: nat, op: Op)
    requires Inv(s) && Separate(s.targets) && Possible(s, Act(i, op))
    ensures Inv(Next(s, Act(i, op)))
  {
    hide DirsOk, TempsPrivate, Separate, WriteAt, WriterOk;
    var t := s.targets[i];
    var r := Next(s, Act(i, op));
    assert WriterOk(s.disk.inodes, s.disk.Now(), t, s.writers[i]);
    match op {
      case Create(ino) =>
        if TmpOf(t) in s.disk.Now() {
          OpenedOk(s, i, ino);
          InodeStep(s, r, i, ino, Inode([], false));
        } else {
          NewTempStep(s, r, i, ino);
        }
      case Spill(k) => SpillStep(s, i, k);
      case Sync => SyncStep(s, i);
      case Rename => RenameStep(s, i);
      case Remove => RemoveStep(s, i);
      case _ => QuietStep(s, i, op);
    }
  }

  lemma {:induction false} OpenedOk(s: System, i: nat, ino: nat)
    requires Possible(s, Act(i, Create(ino))) && TmpOf(s.targets[i]) in s.disk.Now()
    ensures
      var r := Next(s, Act(i, Create(ino)));
      WriterOk(r.disk.inodes, r.disk.Now(), r.targets[i], r.writers[i])
  {
  }

  lemma {:induction false} SpillStep(s: System, i: nat, k: nat)
    requires Inv(s) && Separate(s.targets) && Possible(s, Act(i, Spill(k)))
    ensures Inv(Next(s, Act(i, Spill(k))))
  {
    hide DirsOk, TempsPrivate, Separate, WriteAt;
    var w, r := s.writers[i], Next(s, Act(i, Spill(k)));
    assert WriterOk(s.disk.inodes, s.disk.Now(), s.targets[i], w);
    WriteAtEnd(s.disk.inodes[w.ino].data, w.buffer, k);
    InodeStep(s, r, i, w.ino, r.disk.inodes[w.ino]);
  }

  lemma {:induction false} WriteAtEnd(data: Bytes, buffer: Bytes, k: nat)
    requires k <= |buffer|
    ensures WriteAt(data, |data|, buffer[..k]) == data + buffer[..k]
    ensures data + buffer[..k] + buffer[k..] == data + buffer
  {
  }

  lemma {:induction false} SyncStep(s: System, i: nat)
    requires Inv(s) && Separate(s.targets) && Possible(s, Act(i, Sync))
    ensures Inv(Next(s, Act(i, Sync)))
  {
    hide DirsOk, TempsPrivate, Separate, WriteAt;
    var w, r := s.writers[i], Next(s, Act(i, Sync));
    assert WriterOk(s.disk.inodes, s.disk.Now(), s.targets[i], w);
    InodeStep(s, r, i, w.ino, r.disk.inodes[w.ino]);
  }

  lemma {:induction false} RemoveStep(s: System, i: nat)
    requires Inv(s) && Separate(s.targets) && Possible(s, Act(i, Remove))
    ensures Inv(Next(s, Act(i, Remove)))
  {
    hide DirsOk, TempsPrivate, Separate, WriteAt;
    assert WriterOk(s.disk.inodes, s.disk.Now(), s.targets[i], s.writers[i]);
    UnlinkStep(s, Next(s, Act(i, Remove)), i);
  }

  lemma {:induction false} QuietStep(s: System, i: nat, op: Op)
    requires Inv(s) && Possible(s, Act(i, op)) && (op.Accept? || op.Flush? || op.Fail?)
    ensures Inv(Next(s, Act(i, op)))
  {
    hide DirsOk, TempsPrivate, WriteAt;
    assert WriterOk(s.disk.inodes, s.disk.Now(), s.targets[i], s.writers[i]);
    MemoryStep(s, Next(s, Act(i, op)), i);
  }

  lemma {:induction false} MemoryStep(s: System, r: System, i: nat)
    requires Inv(s) && i < |s.targets| && |r.writers| == |s.writers|
    requires r == s.(writers := s.writers[i := r.writers[i]])
    requires WriterOk(s.disk.inodes, s.disk.Now(), s.targets[i], r.writers[i])
    ensures Inv(r)
  {
  }

  // -------------------------------------------------------------------- theorems

  lemma {:induction false} EventInv(s: System, e: Event)
    requires Inv(s) && Separate(s.targets) && Possible(s, e)
    ensures Inv(Next(s, e)) && Next(s, e).targets == s.targets
  {
    hide Inv, Separate;
    match e {
      case Act(i, op) => ActStep(s, i, op);
      case Crash(kept, found) => CrashStep(s, kept, found);
    }
  }

  lemma {:induction false} RunInv(s: System, events: seq<Event>)
    requires Inv(s) && Separate(s.targets) && Runs(s, events)
    ensures Inv(End(s, events)) && End(s, events).targets == s.targets
    decreases |events|
  {
    hide Inv, Separate, Next, Possible;
    if events != [] {
      EventInv(s, events[0]);
      RunInv(Next(s, events[0]), events[1..]);
    }
  }

  lemma {:induction false} InvIsWhole(s: System, i: nat)
    requires Inv(s) && i < |s.targets|
    ensures Whole(s, i)
  {
    var now := s.disk.dirs[|s.disk.dirs| - 1];
    assert AllHeld(s.disk.inodes, now, s.targets, s.versions);
    assert Held(s.disk.inodes, now, s.targets[i], s.versions[i]);
  }

  /** Whatever happens, crashes included, every target reads as a whole version. */
  lemma {:induction false} AlwaysWhole(s: System, events: seq<Event>, i: nat)
    requires Initial(s) && Separate(s.targets) && Runs(s, events) && i < |s.targets|
    ensures Whole(End(s, events), i)
  {
    hide Whole, Separate, Initial, Inv;
    InitialInv(s);
    RunInv(s, events);
    InvIsWhole(End(s, events), i);
  }

  /** A target changes only at its own writer's rename, which publishes the complete stream and drops the temp file. */
  lemma {:induction false} OnlyRenamePublishes(s: System, j: nat, op: Op, i: nat)
    requires Inv(s) && Separate(s.targets) && Possible(s, Act(j, op)) && i < |s.targets|
    ensures var r := Next(s, Act(j, op));
      Read(r.disk.inodes, r.disk.Now(), s.targets[i])
      == if op == Rename && i == j then Some(s.writers[i].accepted) else Read(s.disk.inodes, s.disk.Now(), s.targets[i])
    ensures op == Rename || op == Remove ==> TmpOf(s.targets[j]) !in Next(s, Act(j, op)).disk.Now()
  {
    hide AllHeld;
    assert WriterOk(s.disk.inodes, s.disk.Now(), s.targets[j], s.writers[j]);
    assert DirOk(s.disk.inodes, s.disk.dirs[|s.disk.dirs| - 1]);
    if op == Rename {
      var n := s.disk.inodes[s.writers[j].ino];
      assert n.data + [] == n.data;
    }
  }

  /** One writer's steps leave every other writer's temp file and stream alone. */
  lemma {:induction false} OthersUndisturbed(s: System, j: nat, op: Op, i: nat)
    requires Inv(s) && Separate(s.targets) && Possible(s, Act(j, op)) && i < |s.targets| && i != j
    ensures var r := Next(s, Act(j, op));
      && r.writers[i] == s.writers[i]
      && Read(r.disk.inodes, r.disk.Now(), TmpOf(s.targets[i]))
          == Read(s.disk.inodes, s.disk.Now(), TmpOf(s.targets[i]))
  {
    hide AllHeld;
    TmpInjective(s.targets[i], s.targets[j]);
    assert WriterOk(s.disk.inodes, s.disk.Now(), s.targets[j], s.writers[j]);
    assert DirOk(s.disk.inodes, s.disk.dirs[|s.disk.dirs| - 1]);
  }

  ghost predicate AlwaysSafe(targets: seq<string>) {
    forall s: System, events: seq<Event>, i: nat ::
      s.targets == targets && Initial(s) && i < |targets| && Runs(s, events) ==> Whole(End(s, events), i)
  }

  ghost function Fresh(inodes: map<nat, Inode>, d: Dir, targets: seq<string>): (s: System)
    ensures Shaped(s) && s.targets == targets && s.disk == Disk(inodes, [d])
    ensures forall i ::
        0 <= i < |targets| ==> s.writers[i].phase == Idle && s.versions[i] == [Read(inodes, d, targets[i])]
  {
    System(Disk(inodes, [d]), targets, seq(|targets|, _ => Writer(Idle, 0, 0, [], [])),
           seq(|targets|, i requires 0 <= i < |targets| => [Read(inodes, d, targets[i])]))
  }

  lemma {:induction false} RunStep(s: System, e: Event, rest: seq<Event>)
    requires Possible(s, e) && Runs(Next(s, e), rest)
    ensures Runs(s, [e] + rest) && End(s, [e] + rest) == End(Next(s, e), rest)
  {
    hide Next, Possible;
    assert ([e] + rest)[1..] == rest;
  }

  /** Opening a temp file that is someone's target truncates that target. */
  lemma {:induction false} TempOverTarget(targets: seq<string>, a: nat, b: nat)
    requires a < |targets| && b < |targets| && targets[a] == TmpOf(targets[b])
    ensures !AlwaysSafe(targets)
  {
    var d := map[targets[a] := 0];
    var s := Fresh(map[0 := Inode([1], true)], d, targets);
    var e := Act(b, Create(0));
    RunStep(s, e, []);
    var r := End(s, [e] + []);
    assert Read(r.disk.inodes, r.disk.Now(), targets[a]) == Some([]);
    assert s.versions[a] == [Some([1])];
    assert !Whole(r, a);
  }

  /** Writer `a` works on inode 0 behind its temp name, while `b` is idle and nothing is published. */
  ghost predicate Stage(s: System, a: nat, b: nat, n: Inode, w: Writer) {
    && Shaped(s) && a < b < |s.targets| && s.targets[a] == s.targets[b]
    && s.disk.inodes == map[0 := n] && s.disk.Now() == map[TmpOf(s.targets[a]) := 0]
    && s.writers[a] == w && s.writers[b].phase == Idle && s.versions[a] == [None]
  }

  lemma {:induction false} StageMoves(s: System, a: nat, b: nat, n: Inode, w: Writer, op: Op, m: Inode, v: Writer)
    requires Stage(s, a, b, n, w) && !op.Create? && !op.Rename? && !op.Remove?
    requires Possible(s, Act(a, op)) && OnWriter(w, op) == v
    requires OnDisk(s.disk, s.targets[a], w, op).inodes == map[0 := m]
    ensures Stage(Next(s, Act(a, op)), a, b, m, v)
  {
  }

  /** Two writers of one target share a temp file: the second truncates what the first is about to publish. */
  lemma {:induction false} SharedTarget(targets: seq<string>, a: nat, b: nat) returns (s: System, events: seq<Event>)
    requires a < b < |targets| && targets[a] == targets[b]
    ensures s.targets == targets && Initial(s) && Runs(s, events) && !Whole(End(s, events), a)
  {
    hide Runs, End, Whole, Initial;
    s := Fresh(map[], map[], targets);
    assert Initial(s) by { InitialEmpty(targets); }
    var e1, e2, e3 := Act(a, Create(0)), Act(a, Accept([1])), Act(a, Spill(1));
    var s1 := Next(s, e1);
    assert Stage(s1, a, b, Inode([], false), Writer(Open, 0, 0, [], []));
    StageMoves(s1, a, b, Inode([], false), Writer(Open, 0, 0, [], []), Accept([1]),
               Inode([], false), Writer(Open, 0, 0, [1], [1]));
    var s2 := Next(s1, e2);
    var one: Bytes := [1];
    assert one[..1] == one && one[1..] == [] && WriteAt([], 0, one) == one;
    StageMoves(s2, a, b, Inode([], false), Writer(Open, 0, 0, [1], [1]), Spill(1),
               Inode([1], false), Writer(Open, 0, 1, [], [1]));
    var s3 := Next(s2, e3);
    var rest := PublishTruncated(s3, a, b);
    RunStep(s2, e3, rest);
    RunStep(s1, e2, [e3] + rest);
    RunStep(s, e1, [e2] + ([e3] + rest));
    events := [e1] + ([e2] + ([e3] + rest));
  }

  lemma {:induction false} InitialEmpty(targets: seq<string>)
    ensures Initial(Fresh(map[], map[], targets))
  {
  }

  lemma {:induction false} PublishTruncated(s: System, a: nat, b: nat) returns (events: seq<Event>)
    requires Stage(s, a, b, Inode([1], false), Writer(Open, 0, 1, [], [1]))
    ensures Runs(s, events) && !Whole(End(s, events), a)
  {
    hide Runs, End, Whole;
    var e1, e2 := Act(a, Flush), Act(a, Sync);
    StageMoves(s, a, b, Inode([1], false), Writer(Open, 0, 1, [], [1]), Flush,
               Inode([1], false), Writer(Flushed, 0, 1, [], [1]));
    var s1 := Next(s, e1);
    StageMoves(s1, a, b, Inode([1], false), Writer(Flushed, 0, 1, [], [1]), Sync,
               Inode([1], true), Writer(Synced, 0, 1, [], [1]));
    var s2 := Next(s1, e2);
    var rest := TruncateThenRename(s2, a, b);
    RunStep(s1, e2, rest);
    RunStep(s, e1, [e2] + rest);
    events := [e1] + ([e2] + rest);
  }

  lemma {:induction false} TruncateThenRename(s: System, a: nat, b: nat) returns (events: seq<Event>)
    requires Stage(s, a, b, Inode([1], true), Writer(Synced, 0, 1, [], [1]))
    ensures Runs(s, events) && !Whole(End(s, events), a)
  {
    hide Runs, End;
    var e1, e2 := Act(b, Create(0)), Act(a, Rename);
    var s1 := Next(s, e1);
    var s2 := Next(s1, e2);
    assert Read(s2.disk.inodes, s2.disk.Now(), s.targets[a]) == Some([]);
    assert s2.versions[a] == [None, Some([1])];
    assert !Whole(s2, a);
    assert Runs(s2, []) && End(s2, []) == s2 by { NoEvents(s2); }
    RunStep(s1, e2, []);
    RunStep(s, e1, [e2] + []);
    events := [e1] + ([e2] + []);
  }

  lemma {:induction false} NoEvents(s: System)
    ensures Runs(s, []) && End(s, []) == s
  {
  }

  /** The names condition is exactly what the protocol needs. */
  lemma {:induction false} SafeIffSeparate(targets: seq<string>)
    ensures AlwaysSafe(targets) <==> Separate(targets)
  {
    hide Runs, End, Initial, Whole;
    if Separate(targets) {
      forall s: System, events: seq<Event>, i: nat
        | s.targets == targets && Initial(s) && i < |targets| && Runs(s, events)
        ensures Whole(End(s, events), i)
      {
        AlwaysWhole(s, events, i);
      }
    } else if exists i, j :: 0 <= i < j < |targets| && targets[i] == targets[j] {
      var i: nat, j: nat :| i < j < |targets| && targets[i] == targets[j];
      var s, events := SharedTarget(targets, i, j);
    } else {
      var i: nat, j: nat :| i < |targets| && j < |targets| && targets[i] == TmpOf(targets[j]);
      TempOverTarget(targets, i, j);
    }
  }
}
