/**
 * The writer as an object over a file system, each call proved to be a chain of the protocol's
 * steps. The outcome of every system call is a parameter, so every failure is covered.
 */
module AtomicWriterObject {
  import opened Common
  import opened AtomicWrite

  /** A writer before it is created. */
  const UNUSED: Writer := Writer(Idle, 0, 0, [], [])

  /** One writer's steps in a row. */
  ghost predicate Chain(d: Disk, t: string, w: Writer, ops: seq<Op>)
    decreases |ops|
  {
    ops != [] ==> Enabled(d, t, w, ops[0]) && Chain(OnDisk(d, t, w, ops[0]), t, OnWriter(w, ops[0]), ops[1..])
  }

  ghost function ChainDisk(d: Disk, t: string, w: Writer, ops: seq<Op>): Disk
    requires Chain(d, t, w, ops)
    decreases |ops|
  {
    if ops == [] then d else ChainDisk(OnDisk(d, t, w, ops[0]), t, OnWriter(w, ops[0]), ops[1..])
  }

  ghost function ChainWriter(w: Writer, ops: seq<Op>): Writer
    decreases |ops|
  {
    if ops == [] then w else ChainWriter(OnWriter(w, ops[0]), ops[1..])
  }

  /** The call took the disk and the writer from the old to the new state by these steps. */
  ghost predicate Took(d: Disk, w: Writer, t: string, ops: seq<Op>, d': Disk, w': Writer) {
    && Chain(d, t, w, ops) && ChainDisk(d, t, w, ops) == d'
    && (if w'.phase == Idle then ChainWriter(w, ops).phase == Idle else ChainWriter(w, ops) == w')
  }

  lemma {:induction false} TookOne(d: Disk, w: Writer, t: string, op: Op, rest: seq<Op>, d': Disk, w': Writer)
    requires Enabled(d, t, w, op) && Took(OnDisk(d, t, w, op), OnWriter(w, op), t, rest, d', w')
    ensures Took(d, w, t, [op] + rest, d', w')
  {
    assert ([op] + rest)[1..] == rest;
  }

  lemma {:induction false} TookConcat(d: Disk, w: Writer, t: string, a: seq<Op>, d1: Disk, w1: Writer, b: seq<Op>,
                                      d2: Disk, w2: Writer)
    requires Took(d, w, t, a, d1, w1) && w1.phase != Idle && Took(d1, w1, t, b, d2, w2)
    ensures Took(d, w, t, a + b, d2, w2)
    decreases |a|
  {
    hide OnDisk, OnWriter, Enabled;
    if a == [] {
      assert a + b == b;
    } else {
      TookConcat(OnDisk(d, t, w, a[0]), OnWriter(w, a[0]), t, a[1..], d1, w1, b, d2, w2);
      assert (a + b)[1..] == a[1..] + b;
    }
  }

  lemma {:induction false} TookStep(d: Disk, w: Writer, t: string, op: Op, w': Writer)
    requires Enabled(d, t, w, op)
    requires w'.phase == OnWriter(w, op).phase && (w'.phase != Idle ==> w' == OnWriter(w, op))
    ensures Took(d, w, t, [op], OnDisk(d, t, w, op), w')
  {
    TookNone(OnDisk(d, t, w, op), OnWriter(w, op), t, w');
    TookOne(d, w, t, op, [], OnDisk(d, t, w, op), w');
    assert [op] + [] == [op];
  }

  lemma {:induction false} TookNone(d: Disk, w: Writer, t: string, w': Writer)
    requires w'.phase == w.phase && (w.phase != Idle ==> w == w')
    ensures Took(d, w, t, [], d, w')
  {
  }

  function Acts(i: nat, ops: seq<Op>): seq<Event> {
    seq(|ops|, k requires 0 <= k < |ops| => Act(i, ops[k]))
  }

  /** A chain of one writer's steps is a run of the whole system, so the protocol's theorems cover every call. */
  lemma {:induction false} ChainIsRun(s: System, i: nat, ops: seq<Op>)
    requires Shaped(s) && i < |s.targets| && Chain(s.disk, s.targets[i], s.writers[i], ops)
    ensures Runs(s, Acts(i, ops))
    ensures End(s, Acts(i, ops)).disk == ChainDisk(s.disk, s.targets[i], s.writers[i], ops)
    ensures Shaped(End(s, Acts(i, ops))) && End(s, Acts(i, ops)).targets == s.targets
    ensures End(s, Acts(i, ops)).writers == s.writers[i := ChainWriter(s.writers[i], ops)]
    decreases |ops|
  {
    hide OnDisk, OnWriter, Enabled;
    if ops != [] {
      var e := Act(i, ops[0]);
      ChainIsRun(Next(s, e), i, ops[1..]);
      assert Acts(i, ops)[1..] == Acts(i, ops[1..]);
    }
  }

  ghost predicate Below(used: set<nat>, n: nat) {
    forall x :: x in used ==> x < n
  }

  lemma {:induction false} BoundExists(used: set<nat>)
    ensures exists n: nat :: Below(used, n)
    decreases |used|
  {
    if used == {} {
      assert Below(used, 0);
    } else {
      var a :| a in used;
      BoundExists(used - {a});
      var n: nat :| Below(used - {a}, n);
      assert Below(used, if a < n then n else a + 1) by {
        assert forall x :: x in used ==> x == a || x in used - {a};
      }
    }
  }

  class FileSystem {
    var disk: Disk

    constructor (d: Disk) ensures disk == d { disk := d; }

    /** Opens for writing, creating or truncating. */
    method OpenTruncate(name: string) returns (ino: nat)
      requires disk.dirs != []
      modifies this
      ensures if name in old(disk.Now()) then ino == old(disk.Now())[name] else ino !in old(disk.inodes)
      ensures disk.inodes == old(disk.inodes)[ino := Inode([], false)]
      ensures disk.dirs == if name in old(disk.Now()) then old(disk.dirs)
          else old(disk.dirs) + [old(disk.Now())[name := ino]]
    {
      if name in disk.Now() {
        ino := disk.Now()[name];
        disk := disk.(inodes := disk.inodes[ino := Inode([], false)]);
      } else {
        BoundExists(disk.inodes.Keys);
        ghost var bound: nat :| Below(disk.inodes.Keys, bound);
        assert bound !in disk.inodes;
        ino :| ino !in disk.inodes;
        disk := Disk(disk.inodes[ino := Inode([], false)], disk.dirs + [disk.Now()[name := ino]]);
      }
    }

    method WriteFile(ino: nat, pos: nat, chunk: Bytes)
      requires ino in disk.inodes
      modifies this
      ensures
        var data := WriteAt(old(disk).inodes[ino].data, pos, chunk);
        disk == old(disk).(inodes := old(disk).inodes[ino := Inode(data, false)])
    {
      disk := disk.(inodes := disk.inodes[ino := Inode(WriteAt(disk.inodes[ino].data, pos, chunk), false)]);
    }
  }

  /** The standard library's default buffer size. */
  const CAPACITY: nat := 8192

  /** An open buffered file. */
  datatype Handle = Handle(ino: nat, pos: nat, buffer: Bytes)

  /** The file takes what it is given, if only bit by bit. */
  ghost predicate Writable(flushed: nat -> nat, direct: nat -> Option<nat>) {
    forall at: nat :: flushed(at) >= CAPACITY && direct(at).Some? && direct(at).value > 0
  }

  class AtomicWriter {
    const fs: FileSystem
    const target: string
    const tmp: string
    var inner: Option<Handle>
    ghost var accepted: Bytes

    ghost predicate Valid() reads this, fs {
      && tmp == TmpOf(target) && fs.disk.dirs != []
      && (inner.Some? ==> inner.value.ino in fs.disk.inodes && |inner.value.buffer| <= CAPACITY)
    }

    ghost function View(): Writer reads this {
      match inner
      case Some(h) => Writer(Open, h.ino, h.pos, h.buffer, accepted)
      case None => Writer(Idle, 0, 0, [], [])
    }

    constructor (f: FileSystem, t: string)
      requires f.disk.dirs != []
      modifies f
      ensures fs == f && target == t && Valid() && inner.Some? && accepted == []
      ensures exists ino :: Took(old(f.disk), UNUSED, t, [Op.Create(ino)], f.disk, View())
    {
      fs := f;
      target := t;
      tmp := TmpOf(t);
      var ino := f.OpenTruncate(TmpOf(t));
      inner := Some(Handle(ino, 0, []));
      accepted := [];
      new;
      assert OnDisk(old(f.disk), t, UNUSED, Op.Create(ino)) == f.disk;
      TookStep(old(f.disk), UNUSED, t, Op.Create(ino), View());
    }

    /** The first `k` buffered bytes reach the file. */
    method SpillSome(k: nat)
      requires Valid() && inner.Some? && k <= |inner.value.buffer|
      modifies fs, this`inner
      ensures fs.disk.dirs == old(fs.disk.dirs)
      ensures Valid()
          && inner == Some(Handle(old(inner.value.ino), old(inner.value.pos) + k, old(inner.value.buffer)[k..]))
      ensures Took(old(fs.disk), old(View()), target, [Spill(k)], fs.disk, View())
    {
      var h := inner.value;
      fs.WriteFile(h.ino, h.pos, h.buffer[..k]);
      inner := Some(Handle(h.ino, h.pos + k, h.buffer[k..]));
      TookStep(old(fs.disk), old(View()), target, Spill(k), View());
    }

    /** The buffer takes bytes from the caller. */
    method Fill(chunk: Bytes)
      requires Valid() && inner.Some? && |inner.value.buffer| + |chunk| <= CAPACITY
      modifies this
      ensures Valid() && inner == Some(old(inner.value).(buffer := old(inner.value.buffer) + chunk))
      ensures accepted == old(accepted) + chunk
      ensures Took(fs.disk, old(View()), target, [Accept(chunk)], fs.disk, View())
    {
      inner := Some(inner.value.(buffer := inner.value.buffer + chunk));
      accepted := accepted + chunk;
      TookStep(fs.disk, old(View()), target, Accept(chunk), View());
    }

    /** A chunk at least as large as the empty buffer goes straight to the file. */
    method PassThrough(chunk: Bytes)
      requires Valid() && inner.Some? && inner.value.buffer == []
      modifies fs, this
      ensures Valid() && inner.Some? && inner.value.buffer == [] && accepted == old(accepted) + chunk
      ensures Took(old(fs.disk), old(View()), target, [Accept(chunk), Spill(|chunk|)], fs.disk, View())
    {
      var h := inner.value;
      fs.WriteFile(h.ino, h.pos, chunk);
      inner := Some(h.(pos := h.pos + |chunk|));
      accepted := accepted + chunk;
      ghost var mid := OnWriter(old(View()), Accept(chunk));
      assert chunk[..|chunk|] == chunk && mid.buffer == chunk && chunk[|chunk|..] == [];
      TookStep(old(fs.disk), mid, target, Spill(|chunk|), View());
      TookOne(old(fs.disk), old(View()), target, Accept(chunk), [Spill(|chunk|)], fs.disk, View());
      assert [Accept(chunk)] + [Spill(|chunk|)] == [Accept(chunk), Spill(|chunk|)];
    }

    /**
     * One buffered write. `flushed` is how much of the buffer a needed flush gets out, `direct` what
     * a direct write of a large chunk reports.
     */
    method Write(chunk: Bytes, flushed: nat, direct: Option<nat>) returns (r: Option<nat>, ghost ops: seq<Op>)
      requires Valid() && inner.Some?
      modifies fs, this
      ensures Valid() && inner.Some?
      ensures Took(old(fs.disk), old(View()), target, ops, fs.disk, View()) && Rename !in ops
      ensures r.None? ==> accepted == old(accepted)
      ensures r.Some? ==> r.value <= |chunk| && accepted == old(accepted) + chunk[..r.value]
      ensures chunk != [] && flushed >= CAPACITY && direct.Some? && direct.value > 0 ==> r.Some? && r.value > 0
    {
      hide Took;
      var h := inner.value;
      ghost var before := [];
      TookNone(fs.disk, View(), target, View());
      if |chunk| > CAPACITY - |h.buffer| {
        var k := if flushed < |h.buffer| then flushed else |h.buffer|;
        SpillSome(k);
        before := [Spill(k)];
        if k < |h.buffer| {
          return None, before;
        }
      }
      assert chunk[..|chunk|] == chunk;
      if |chunk| >= CAPACITY {
        if direct.None? {
          return None, before;
        }
        var n := if direct.value < |chunk| then direct.value else |chunk|;
        ghost var d, w := fs.disk, View();
        PassThrough(chunk[..n]);
        TookConcat(old(fs.disk), old(View()), target, before, d, w, [Accept(chunk[..n]), Spill(n)], fs.disk, View());
        return Some(n), before + [Accept(chunk[..n]), Spill(n)];
      }
      ghost var w := View();
      Fill(chunk);
      TookConcat(old(fs.disk), old(View()), target, before, fs.disk, w, [Accept(chunk)], fs.disk, View());
      return Some(|chunk|), before + [Accept(chunk)];
    }

    /** Writes until all is accepted; an error, or a write that takes nothing, gives up. */
    method WriteAll(bytes: Bytes, flushed: nat -> nat, direct: nat -> Option<nat>)
      returns (ok: bool, ghost ops: seq<Op>)
      requires Valid() && inner.Some?
      modifies fs, this
      ensures Valid() && inner.Some?
      ensures Took(old(fs.disk), old(View()), target, ops, fs.disk, View()) && Rename !in ops
      ensures ok ==> accepted == old(accepted) + bytes
      ensures Writable(flushed, direct) ==> ok
    {
      hide Took;
      ops := [];
      TookNone(fs.disk, View(), target, View());
      var at := 0;
      while at < |bytes|
        invariant Valid() && inner.Some? && at <= |bytes|
        invariant Took(old(fs.disk), old(View()), target, ops, fs.disk, View()) && Rename !in ops
        invariant accepted == old(accepted) + bytes[..at]
      {
        ghost var d, w, had := fs.disk, View(), accepted;
        var r, more := Write(bytes[at..], flushed(at), direct(at));
        TookConcat(old(fs.disk), old(View()), target, ops, d, w, more, fs.disk, View());
        ops := ops + more;
        if r == None || r == Some(0) {
          return false, ops;
        }
        assert bytes[..at] + bytes[at..][..r.value] == bytes[..at + r.value];
        assert had + bytes[at..][..r.value] == old(accepted) + (bytes[..at] + bytes[at..][..r.value]);
        at := at + r.value;
      }
      assert bytes[..at] == bytes;
      ok := true;
    }

    /**
     * Flush, sync, rename. A failing flush leaves the buffer to be flushed once more as it is dropped
     * (`dropped` bytes get out then). The call succeeds exactly when all stages were taken.
     */
    method Finalize(flushed: nat, dropped: nat, syncs: bool, renames: bool) returns (ok: bool, ghost ops: seq<Op>)
      requires Valid() && inner.Some?
      modifies fs, this`inner
      ensures Valid() && inner.None?
      ensures Took(old(fs.disk), old(View()), target, ops, fs.disk, View())
      ensures flushed >= CAPACITY && syncs && renames && tmp in old(fs.disk.Now()) ==> ok
      ensures ok <==> Rename in ops
      ensures ok ==> ops == [Spill(|old(inner.value.buffer)|), Flush, Sync, Rename]
    {
      hide Took;
      var size := |inner.value.buffer|;
      var k := if flushed < size then flushed else size;
      SpillSome(k);
      if k < size {
        ghost var d, w := fs.disk, View();
        ghost var more := Drop(dropped);
        TookConcat(old(fs.disk), old(View()), target, [Spill(k)], d, w, more, fs.disk, View());
        return false, [Spill(k)] + more;
      }
      ghost var d, w := fs.disk, View();
      ghost var rest;
      ok, rest := Publish(syncs, renames);
      TookConcat(old(fs.disk), old(View()), target, [Spill(k)], d, w, rest, fs.disk, View());
      ops := [Spill(k)] + rest;
    }

    /** The stages after a complete flush. */
    method Publish(syncs: bool, renames: bool) returns (ok: bool, ghost ops: seq<Op>)
      requires Valid() && inner.Some? && inner.value.buffer == []
      modifies fs, this`inner
      ensures Valid() && inner.None?
      ensures Took(old(fs.disk), old(View()), target, ops, fs.disk, View())
      ensures syncs && renames && tmp in old(fs.disk.Now()) ==> ok
      ensures ok <==> Rename in ops
      ensures ok ==> ops == [Flush, Sync, Rename]
    {
      hide Took;
      var h := inner.value;
      ghost var open := View();
      ghost var flushed, synced := OnWriter(open, Flush), OnWriter(OnWriter(open, Flush), Sync);
      inner := None;
      if !syncs {
        TookStep(fs.disk, flushed, target, Fail, View());
        TookOne(fs.disk, open, target, Flush, [Fail], fs.disk, View());
        return false, [Flush] + [Fail];
      }
      fs.disk := fs.disk.(inodes := fs.disk.inodes[h.ino := fs.disk.inodes[h.ino].(durable := true)]);
      ghost var d := fs.disk;
      ghost var last := if renames && tmp in fs.disk.Now() then Rename else Fail;
      if renames && tmp in fs.disk.Now() {
        fs.disk := fs.disk.With((fs.disk.Now() - {tmp})[target := fs.disk.Now()[tmp]]);
        ok := true;
      } else {
        ok := false;
      }
      TookStep(d, synced, target, last, View());
      TookOne(old(fs.disk), flushed, target, Sync, [last], fs.disk, View());
      TookOne(old(fs.disk), open, target, Flush, [Sync] + [last], fs.disk, View());
      ops := [Flush] + ([Sync] + [last]);
      assert ops[2] == last;
    }

    /** Dropped without finalize: the buffer is flushed as far as it goes and the temp file stays. */
    method Drop(dropped: nat) returns (ghost ops: seq<Op>)
      requires Valid() && inner.Some?
      modifies fs, this`inner
      ensures Valid() && inner.None?
      ensures Took(old(fs.disk), old(View()), target, ops, fs.disk, View()) && Rename !in ops
      ensures fs.disk.dirs == old(fs.disk.dirs)
    {
      hide Took;
      var size := |inner.value.buffer|;
      var k := if dropped < size then dropped else size;
      SpillSome(k);
      ghost var open := View();
      inner := None;
      TookStep(fs.disk, open, target, Fail, View());
      TookConcat(old(fs.disk), old(View()), target, [Spill(k)], fs.disk, open, [Fail], fs.disk, View());
      ops := [Spill(k)] + [Fail];
    }

    /** Discards the temp file; a missing one is fine. Dropping the buffer may still write some of it. */
    method Abort(dropped: nat, removes: bool) returns (ok: bool, ghost ops: seq<Op>)
      requires Valid() && inner.Some?
      modifies fs, this`inner
      ensures Valid() && inner.None?
      ensures Took(old(fs.disk), old(View()), target, ops, fs.disk, View()) && Rename !in ops
      ensures ok ==> tmp !in fs.disk.Now()
    {
      hide Took;
      var size := |inner.value.buffer|;
      var k := if dropped < size then dropped else size;
      SpillSome(k);
      ghost var d, open := fs.disk, View();
      inner := None;
      ghost var last := Remove;
      ok := true;
      if tmp in fs.disk.Now() {
        if removes {
          fs.disk := fs.disk.With(fs.disk.Now() - {tmp});
        } else {
          ok := false;
          last := Fail;
        }
      }
      TookStep(d, open, target, last, View());
      TookConcat(old(fs.disk), old(View()), target, [Spill(k)], d, open, [last], fs.disk, View());
      ops := [Spill(k)] + [last];
    }
  }

  /** Makes the parent directory, then opens the temp file; if either fails nothing has changed. */
  method Create(f: FileSystem, t: string, hasParent: bool, opens: bool) returns (w: Option<AtomicWriter>)
    requires f.disk.dirs != []
    modifies f
    ensures w.Some? <==> hasParent && opens
    ensures w.None? ==> f.disk == old(f.disk)
    ensures w.Some? ==>
      && fresh(w.value) && w.value.fs == f && w.value.target == t && w.value.Valid()
      && w.value.inner.Some? && w.value.accepted == []
      && exists ino :: Took(old(f.disk), UNUSED, t, [Op.Create(ino)], f.disk, w.value.View())
  {
    hide Took;
    if !hasParent || !opens {
      return None;
    }
    var writer := new AtomicWriter(f, t);
    w := Some(writer);
  }

  // ------------------------------------------------------------- what a caller sees

  function Alone(d: Disk, w: Writer, t: string, vs: seq<Option<Bytes>>): System {
    System(d, [t], [w], [vs])
  }

  /** A disk on which a writer of `t` may work: one that any run of the protocol leaves. */
  ghost predicate Steady(d: Disk, t: string) {
    exists vs :: Inv(Alone(d, UNUSED, t, vs))
  }

  lemma {:induction false} AloneIsSeparate(t: string)
    ensures Separate([t])
  {
    assert |TmpOf(t)| != |t|;
  }


  /** Steps other than the rename leave the target as it was. */
  lemma {:induction false} PrefixKeeps(d: Disk, w: Writer, t: string, vs: seq<Option<Bytes>>, ops: seq<Op>)
    requires Inv(Alone(d, w, t, vs)) && Chain(d, t, w, ops) && Rename !in ops
    ensures Inv(Alone(ChainDisk(d, t, w, ops), ChainWriter(w, ops), t, vs))
    ensures var d' := ChainDisk(d, t, w, ops); Read(d'.inodes, d'.Now(), t) == Read(d.inodes, d.Now(), t)
    decreases |ops|
  {
    hide Inv, OnDisk, OnWriter, Enabled, Separate, Read;
    if ops != [] {
      var s, e := Alone(d, w, t, vs), Act(0, ops[0]);
      AloneIsSeparate(t);
      EventInv(s, e);
      OnlyRenamePublishes(s, 0, ops[0], 0);
      assert Next(s, e) == Alone(OnDisk(d, t, w, ops[0]), OnWriter(w, ops[0]), t, vs);
      PrefixKeeps(OnDisk(d, t, w, ops[0]), OnWriter(w, ops[0]), t, vs, ops[1..]);
    }
  }

  lemma {:induction false} TookPrefix(d: Disk, w: Writer, t: string, vs: seq<Option<Bytes>>, ops: seq<Op>, d': Disk,
                                      w': Writer)
    requires Inv(Alone(d, w, t, vs)) && Took(d, w, t, ops, d', w') && Rename !in ops
    ensures Inv(Alone(d', w', t, vs)) && Read(d'.inodes, d'.Now(), t) == Read(d.inodes, d.Now(), t)
  {
    PrefixKeeps(d, w, t, vs, ops);
  }

  /** A successful finalize publishes exactly what was accepted and leaves no temp file. */
  lemma {:induction false} FinalizePublishes(d: Disk, w: Writer, t: string, vs: seq<Option<Bytes>>, d': Disk,
                                             w': Writer)
    requires Inv(Alone(d, w, t, vs)) && w'.phase == Idle
    requires Took(d, w, t, [Spill(|w.buffer|), Flush, Sync, Rename], d', w')
    ensures Inv(Alone(d', w', t, vs + [Some(w.accepted)]))
    ensures Read(d'.inodes, d'.Now(), t) == Some(w.accepted) && TmpOf(t) !in d'.Now()
  {
    hide Inv, Separate, Read, OnDisk, Chain, ChainDisk, ChainWriter, Enabled;
    var spill := Spill(|w.buffer|);
    assert [spill, Flush, Sync, Rename] == [spill] + ([Flush] + ([Sync] + [Rename]));
    AloneIsSeparate(t);
    var s := Alone(d, w, t, vs);
    ChainHead(d, t, w, spill, [Flush] + ([Sync] + [Rename]));
    EventInv(s, Act(0, spill));
    var s1 := Next(s, Act(0, spill));
    ChainHead(s1.disk, t, s1.writers[0], Flush, [Sync] + [Rename]);
    EventInv(s1, Act(0, Flush));
    var s2 := Next(s1, Act(0, Flush));
    ChainHead(s2.disk, t, s2.writers[0], Sync, [Rename]);
    EventInv(s2, Act(0, Sync));
    var s3 := Next(s2, Act(0, Sync));
    assert [Rename] == [Rename] + [];
    ChainHead(s3.disk, t, s3.writers[0], Rename, []);
    EventInv(s3, Act(0, Rename));
    OnlyRenamePublishes(s3, 0, Rename, 0);
    var s4 := Next(s3, Act(0, Rename));
    assert s4 == Alone(d', s4.writers[0], t, vs + [Some(w.accepted)]);
    IdleIsIdle(d', s4.writers[0], w', t, vs + [Some(w.accepted)]);
  }

  lemma {:induction false} ChainHead(d: Disk, t: string, w: Writer, op: Op, rest: seq<Op>)
    requires Chain(d, t, w, [op] + rest)
    ensures Enabled(d, t, w, op) && Chain(OnDisk(d, t, w, op), t, OnWriter(w, op), rest)
    ensures ChainDisk(d, t, w, [op] + rest) == ChainDisk(OnDisk(d, t, w, op), t, OnWriter(w, op), rest)
    ensures rest == [] ==> ChainDisk(d, t, w, [op] + rest) == OnDisk(d, t, w, op)
  {
    assert ([op] + rest)[1..] == rest;
  }

  lemma {:induction false} IdleIsIdle(d: Disk, w: Writer, w': Writer, t: string, vs: seq<Option<Bytes>>)
    requires Inv(Alone(d, w, t, vs)) && w'.phase == Idle
    ensures Inv(Alone(d, w', t, vs))
  {
  }

  lemma {:induction false} OpenHasTemp(d: Disk, w: Writer, t: string, vs: seq<Option<Bytes>>)
    requires Inv(Alone(d, w, t, vs)) && w.phase != Idle
    ensures TmpOf(t) in d.Now()
  {
    assert WriterOk(d.inodes, d.Now(), Alone(d, w, t, vs).targets[0], Alone(d, w, t, vs).writers[0]);
  }

  /** The outcomes of the system calls that one atomic write makes. */
  datatype Luck = Luck(hasParent: bool, opens: bool, flushed: nat -> nat, direct: nat -> Option<nat>, last: nat,
                       dropped: nat, syncs: bool, renames: bool)

  /** No call fails, and the file takes what it is given. */
  ghost predicate Lucky(luck: Luck) {
    && luck.hasParent && luck.opens && luck.syncs && luck.renames
    && Writable(luck.flushed, luck.direct) && luck.last >= CAPACITY
  }

  /** The one-shot write: all of the bytes, or the target as it was. */
  method WriteAtomic(fs: FileSystem, t: string, bytes: Bytes, luck: Luck) returns (ok: bool)
    requires fs.disk.dirs != []
    modifies fs
    ensures Steady(old(fs.disk), t) ==>
      && Steady(fs.disk, t)
      && Read(fs.disk.inodes, fs.disk.Now(), t)
          == (if ok then Some(bytes) else old(Read(fs.disk.inodes, fs.disk.Now(), t)))
      && (ok ==> TmpOf(t) !in fs.disk.Now())
      && (Lucky(luck) ==> ok)
  {
    hide Took, Inv, Read;
    ghost var steady, d0 := Steady(fs.disk, t), fs.disk;
    ghost var vs := if steady then var v :| Inv(Alone(fs.disk, UNUSED, t, v)); v else [];
    var created := Create(fs, t, luck.hasParent, luck.opens);
    if created.None? {
      return false;
    }
    var w := created.value;
    ghost var ino :| Took(d0, UNUSED, t, [Op.Create(ino)], fs.disk, w.View());
    if steady {
      TookPrefix(d0, UNUSED, t, vs, [Op.Create(ino)], fs.disk, w.View());
    }
    ghost var d1, w1 := fs.disk, w.View();
    ghost var ops;
    ok, ops := w.WriteAll(bytes, luck.flushed, luck.direct);
    if steady {
      TookPrefix(d1, w1, t, vs, ops, fs.disk, w.View());
    }
    ghost var d2, w2 := fs.disk, w.View();
    assert [] + bytes == bytes;
    assert steady ==> TmpOf(t) in fs.disk.Now() by {
      if steady { OpenHasTemp(fs.disk, w.View(), t, vs); }
    }
    if ok {
      ok, ops := w.Finalize(luck.last, luck.dropped, luck.syncs, luck.renames);
      if steady && ok {
        FinalizePublishes(d2, w2, t, vs, fs.disk, w.View());
      }
    } else {
      ops := w.Drop(luck.dropped);
    }
    if steady && !ok {
      TookPrefix(d2, w2, t, vs, ops, fs.disk, w.View());
    }
  }
}
