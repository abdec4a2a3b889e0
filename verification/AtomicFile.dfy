/**
 A file's contents replaced all at once, and for good, or not at all (daemon/atomicfile/atomicfile.go), on a disk that
 may lose what was not flushed.
 */
module AtomicFile {
  import opened Bytes
  import L = Links

  type Contents = seq<byte>

  type Ino = nat

  /** A name in the destination's directory. The numbered ones are those a temporary file is given. */
  datatype Name = Named(text: string) | Temp(of: string, number: nat)

  /** An inode: what is read from it, and whether all of that has been flushed. */
  datatype File = File(bytes: Contents, flushed: bool, mode: nat)

  type Directory = map<Name, Ino>

  /**
   One directory and the files in it. past holds each state the directory has been in since it was last flushed, the
   present one last.
   */
  datatype Disk = Disk(past: seq<Directory>, files: map<Ino, File>, next: nat) {
    function Now(): Directory
      requires past != []
    {
      past[|past| - 1]
    }

    ghost predicate Valid() {
      && past != []
      && (forall i, n :: 0 <= i < |past| && n in past[i] ==> past[i][n] in files)
      && (forall i, n :: 0 <= i < |past| && n in past[i] && n.Temp? ==> n.number < next)
      && (forall f :: f in files ==> f < next)
    }
  }

  function Entry(d: Directory, n: Name): Option<Ino> {
    if n in d then Some(d[n]) else None
  }

  /** What a reader finds under a name. */
  function Read(d: Disk, n: Name): Option<Contents>
    requires d.Valid()
  {
    if n in d.Now() then Some(d.files[d.Now()[n]].bytes) else None
  }

  function ModeOf(d: Disk, n: Name): Option<nat>
    requires d.Valid()
  {
    if n in d.Now() then Some(d.files[d.Now()[n]].mode) else None
  }

  /**
   What a name may hold after a crash: the entry it had at any time since the directory was last flushed, and of that
   file the contents, when they were flushed, or anything at all.
   */
  ghost predicate MayHold(d: Disk, n: Name, c: Option<Contents>)
    requires d.Valid()
  {
    exists i :: 0 <= i < |d.past| && HeldAt(d, i, n, c)
  }

  ghost predicate HeldAt(d: Disk, i: nat, n: Name, c: Option<Contents>)
    requires d.Valid() && i < |d.past|
  {
    match Entry(d.past[i], n)
    case None => c.None?
    case Some(f) => c.Some? && (d.files[f].flushed ==> c.value == d.files[f].bytes)
  }

  // ---------- what each call does, when it works ----------

  function Created(d: Disk, of: string): Disk
    requires d.past != []
  {
    Disk(d.past + [d.Now()[Temp(of, d.next) := d.next]], d.files[d.next := File([], false, 0x180)], d.next + 1)
  }

  function WithFile(d: Disk, f: Ino, file: File): Disk {
    d.(files := d.files[f := file])
  }

  function Renamed(d: Disk, from: Name, to: Name): Disk
    requires d.past != [] && from in d.Now()
  {
    d.(past := d.past + [(d.Now() - {from})[to := d.Now()[from]]])
  }

  function Removed(d: Disk, n: Name): Disk
    requires d.past != []
  {
    d.(past := d.past + [d.Now() - {n}])
  }

  function DirectoryFlushed(d: Disk): Disk
    requires d.past != []
  {
    d.(past := [d.Now()])
  }

  /** Which calls fail: a write may stop part of the way, and every other call that fails does nothing. */
  datatype Faults = Faults(
    stat: bool, create: bool, chmod: bool, writes: Option<nat>, sync: bool, close: bool,
    rename: bool, syncDir: bool, remove: bool)

  datatype Outcome = Replaced | NoMode | Unresolved | StatFailed | ReadOnly | Failed | Abandoned | NotDurable

  /** The destination's permission when it keeps it, and the one a new file gets otherwise. */
  function ModeFor(d: Disk, n: Name, mode: nat, keep: bool): nat
    requires d.Valid()
  {
    if keep && n in d.Now() then d.files[d.Now()[n]].mode else mode
  }

  predicate OwnerMayWrite(mode: nat) {
    mode / 0x80 % 2 == 1
  }

  // ---------- what every step keeps ----------

  /** Nothing about a name has changed: not what is read, nor what a crash may leave. */
  ghost predicate Untouched(was: Disk, d: Disk, n: Name)
    requires was.Valid() && d.Valid()
  {
    && Entry(d.Now(), n) == Entry(was.Now(), n)
    && Read(d, n) == Read(was, n)
    && ModeOf(d, n) == ModeOf(was, n)
    && (forall c :: MayHold(d, n, c) ==> MayHold(was, n, c))
  }

  /** A name holds the complete old contents or the complete new ones, and so it will after a crash. */
  ghost predicate OldOrNew(was: Disk, d: Disk, n: Name, data: Contents)
    requires was.Valid() && d.Valid()
  {
    && (Read(d, n) == Read(was, n) || Read(d, n) == Some(data))
    && (forall c :: MayHold(d, n, c) ==> MayHold(was, n, c) || c == Some(data))
  }

  /** The temporary file is the writer's own: no other name has ever been an entry for it. */
  ghost predicate Own(was: Disk, d: Disk, of: string, tmp: Ino) {
    && was.Valid() && d.Valid()
    && tmp == was.next && d.next == was.next + 1
    && (forall f :: f in was.files ==> f in d.files && d.files[f] == was.files[f])
    && tmp in d.files
    && |was.past| <= |d.past|
    && d.past[..|was.past|] == was.past
    && (forall i, n :: |was.past| <= i < |d.past| && n != Temp(of, tmp) ==>
          Entry(d.past[i], n) == Entry(was.Now(), n))
  }

  lemma OwnLeavesUntouched(was: Disk, d: Disk, of: string, tmp: Ino, n: Name)
    requires Own(was, d, of, tmp) && n != Temp(of, tmp)
    ensures Untouched(was, d, n)
  {
    forall c | MayHold(d, n, c)
      ensures MayHold(was, n, c)
    {
      var i :| 0 <= i < |d.past| && HeldAt(d, i, n, c);
      if i < |was.past| {
        assert d.past[i] == d.past[..|was.past|][i] == was.past[i];
        assert HeldAt(was, i, n, c);
      } else {
        assert Entry(d.past[i], n) == Entry(was.Now(), n);
        assert HeldAt(was, |was.past| - 1, n, c) by {
          if n in was.Now() {
            assert was.past[|was.past| - 1][n] in was.files;
          }
        }
      }
    }
    assert Entry(d.Now(), n) == Entry(was.Now(), n) by {
      if |d.past| == |was.past| {
        assert d.past == was.past;
      }
    }
  }

  lemma CreatedIsOwn(was: Disk, of: string)
    requires was.Valid()
    ensures Own(was, Created(was, of), of, was.next)
    ensures Created(was, of).Now() == was.Now()[Temp(of, was.next) := was.next]
  {
    var d := Created(was, of);
    forall i, n | 0 <= i < |d.past| && n in d.past[i]
      ensures d.past[i][n] in d.files && (n.Temp? ==> n.number < d.next)
    {
      if i < |was.past| {
        assert d.past[i] == was.past[i];
      }
    }
  }

  /** The rename publishes the new contents: only once they are flushed is that safe. */
  lemma RenameIsSafe(was: Disk, d: Disk, of: string, tmp: Ino, data: Contents)
    requires Own(was, d, of, tmp)
    requires Temp(of, tmp) in d.Now() && d.Now()[Temp(of, tmp)] == tmp
    requires d.files[tmp].bytes == data && d.files[tmp].flushed
    ensures var target := Named(of);
            var r := Renamed(d, Temp(of, tmp), target);
            && r.Valid()
            && Read(r, target) == Some(data)
            && OldOrNew(was, r, target, data)
            && forall n :: n != target && n != Temp(of, tmp) ==> Untouched(was, r, n)
  {
    var target := Named(of);
    var r := Renamed(d, Temp(of, tmp), target);
    RenamedIsValid(d, Temp(of, tmp), target);
    forall n, c | n != Temp(of, tmp) && MayHold(r, n, c)
      ensures MayHold(was, n, c) || (n == target && c == Some(data))
    {
      var i :| 0 <= i < |r.past| && HeldAt(r, i, n, c);
      if i < |d.past| {
        assert r.past[i] == d.past[i];
        assert HeldAt(d, i, n, c);
        OwnLeavesUntouched(was, d, of, tmp, n);
        assert MayHold(d, n, c);
      } else if n != target {
        assert Entry(r.past[i], n) == Entry(d.Now(), n);
        assert HeldAt(d, |d.past| - 1, n, c);
        OwnLeavesUntouched(was, d, of, tmp, n);
        assert MayHold(d, n, c);
      }
    }
    forall n | n != target && n != Temp(of, tmp)
      ensures Untouched(was, r, n)
    {
      OwnLeavesUntouched(was, d, of, tmp, n);
      assert Entry(r.Now(), n) == Entry(d.Now(), n);
    }
  }

  lemma RenamedIsValid(d: Disk, from: Name, to: Name)
    requires d.Valid() && from in d.Now() && to.Named?
    ensures Renamed(d, from, to).Valid()
    ensures Renamed(d, from, to).Now() == (d.Now() - {from})[to := d.Now()[from]]
  {
    var r := Renamed(d, from, to);
    forall i, n | 0 <= i < |r.past| && n in r.past[i]
      ensures r.past[i][n] in r.files && (n.Temp? ==> n.number < r.next)
    {
      if i < |d.past| {
        assert r.past[i] == d.past[i];
      }
    }
  }

  lemma OwnFileChanged(was: Disk, d: Disk, of: string, tmp: Ino, file: File)
    requires Own(was, d, of, tmp)
    ensures Own(was, WithFile(d, tmp, file), of, tmp)
    ensures WithFile(d, tmp, file).Now() == d.Now()
  {
  }

  lemma RemovedIsOwn(was: Disk, d: Disk, of: string, tmp: Ino)
    requires Own(was, d, of, tmp)
    ensures Own(was, Removed(d, Temp(of, tmp)), of, tmp)
    ensures Removed(d, Temp(of, tmp)).Now() == d.Now() - {Temp(of, tmp)}
  {
    var r := Removed(d, Temp(of, tmp));
    forall i, n | 0 <= i < |r.past| && n in r.past[i]
      ensures r.past[i][n] in r.files && (n.Temp? ==> n.number < r.next)
    {
      if i < |d.past| {
        assert r.past[i] == d.past[i];
      }
    }
    forall i, n | |was.past| <= i < |r.past| && n != Temp(of, tmp)
      ensures Entry(r.past[i], n) == Entry(was.Now(), n)
    {
      if i < |d.past| {
        assert r.past[i] == d.past[i];
      } else {
        OwnLeavesUntouched(was, d, of, tmp, n);
      }
    }
  }

  /** Every step of a write to a name keeps this: that name is old or new, and no other name is touched at all. */
  ghost predicate Safe(was: Disk, d: Disk, of: string, data: Contents)
    requires was.Valid()
  {
    && d.Valid()
    && OldOrNew(was, d, Named(of), data)
    && forall n :: n != Named(of) && n != Temp(of, was.next) ==> Untouched(was, d, n)
  }

  lemma OwnIsSafe(was: Disk, d: Disk, of: string, tmp: Ino, data: Contents)
    requires Own(was, d, of, tmp)
    ensures Safe(was, d, of, data) && Untouched(was, d, Named(of))
  {
    hide Untouched;
    forall n | n != Temp(of, tmp)
      ensures Untouched(was, d, n)
    {
      OwnLeavesUntouched(was, d, of, tmp, n);
    }
    assert OldOrNew(was, d, Named(of), data) by {
      UntouchedIsOld(was, d, Named(of), data);
    }
  }

  lemma UntouchedIsOld(was: Disk, d: Disk, n: Name, data: Contents)
    requires was.Valid() && d.Valid() && Untouched(was, d, n)
    ensures OldOrNew(was, d, n, data)
  {
  }

  /** Flushing the directory only ever rules outcomes of a crash out. */
  lemma FlushedAllowsLess(d: Disk, n: Name, c: Option<Contents>)
    requires d.Valid()
    ensures DirectoryFlushed(d).Valid() && DirectoryFlushed(d).Now() == d.Now()
    ensures MayHold(DirectoryFlushed(d), n, c) ==> MayHold(d, n, c)
    ensures MayHold(DirectoryFlushed(d), n, c) && n in d.Now() && d.files[d.Now()[n]].flushed ==> c == Read(d, n)
  {
    var f := DirectoryFlushed(d);
    assert forall n :: n in f.past[0] ==> n in d.past[|d.past| - 1];
    if MayHold(f, n, c) {
      assert HeldAt(f, 0, n, c);
      assert HeldAt(d, |d.past| - 1, n, c);
    }
  }

  lemma FlushedIsSafe(was: Disk, d: Disk, of: string, data: Contents)
    requires was.Valid() && Safe(was, d, of, data) && Read(d, Named(of)) == Some(data)
    requires Named(of) in d.Now() && d.files[d.Now()[Named(of)]].flushed
    ensures var f := DirectoryFlushed(d);
            && Safe(was, f, of, data)
            && f.Now() == d.Now()
            && Read(f, Named(of)) == Some(data)
            && forall c :: MayHold(f, Named(of), c) ==> c == Some(data)
  {
    hide MayHold;
    var f := DirectoryFlushed(d);
    forall n, c
      ensures f.Valid() && f.Now() == d.Now()
      ensures MayHold(f, n, c) ==> MayHold(d, n, c)
      ensures MayHold(f, n, c) && n == Named(of) ==> c == Some(data)
    {
      FlushedAllowsLess(d, n, c);
    }
    forall n | n != Named(of) && n != Temp(of, was.next)
      ensures Untouched(was, f, n)
    {
      assert Untouched(was, d, n);
    }
  }

  lemma UnchangedIsSafe(was: Disk, of: string, data: Contents)
    requires was.Valid()
    ensures Safe(was, was, of, data) && Untouched(was, was, Named(of)) && Temp(of, was.next) !in was.Now()
  {
    assert was.past[|was.past| - 1] == was.Now();
  }

  lemma ValidHasNow(was: Disk, d: Disk, of: string, tmp: Ino)
    requires Own(was, d, of, tmp)
    ensures d.past != []
  {
  }

  lemma SafeHasNow(was: Disk, d: Disk, of: string, data: Contents)
    requires was.Valid() && Safe(was, d, of, data)
    ensures d.past != []
  {
  }

  class FileSystem {
    var disk: Disk
    /** Every state the disk has been in, so that a crash may come after any of them. */
    ghost var seen: seq<Disk>

    constructor (disk: Disk)
      ensures this.disk == disk && seen == [disk]
    {
      this.disk := disk;
      seen := [disk];
    }

    method CreateTemp(of: string, faults: Faults) returns (ok: bool, tmp: Ino)
      requires disk.past != []
      modifies this
      ensures ok <==> !faults.create
      ensures ok ==> tmp == old(disk).next && disk == Created(old(disk), of)
      ensures !ok ==> disk == old(disk)
      ensures seen == old(seen) + [disk]
    {
      ok, tmp := !faults.create, disk.next;
      if ok {
        disk := Created(disk, of);
      }
      seen := seen + [disk];
    }

    method Chmod(f: Ino, mode: nat, faults: Faults) returns (ok: bool)
      requires f in disk.files
      modifies this
      ensures ok <==> !faults.chmod
      ensures disk == if ok then WithFile(old(disk), f, old(disk).files[f].(mode := mode)) else old(disk)
      ensures seen == old(seen) + [disk]
    {
      ok := !faults.chmod;
      if ok {
        disk := WithFile(disk, f, disk.files[f].(mode := mode));
      }
      seen := seen + [disk];
    }

    /** Appends, and may stop part of the way. */
    method WriteBytes(f: Ino, data: Contents, faults: Faults) returns (ok: bool)
      requires f in disk.files
      modifies this
      ensures ok <==> faults.writes.None?
      ensures var file := old(disk).files[f];
              var bytes := file.bytes + (if ok then data else Take(data, faults.writes.value));
              disk == WithFile(old(disk), f, File(bytes, false, file.mode))
      ensures seen == old(seen) + [disk]
    {
      ok := faults.writes.None?;
      var file := disk.files[f];
      var part := if ok then data else Take(data, faults.writes.value);
      disk := WithFile(disk, f, File(file.bytes + part, false, file.mode));
      seen := seen + [disk];
    }

    method Sync(f: Ino, faults: Faults) returns (ok: bool)
      requires f in disk.files
      modifies this
      ensures ok <==> !faults.sync
      ensures disk == if ok then WithFile(old(disk), f, old(disk).files[f].(flushed := true)) else old(disk)
      ensures seen == old(seen) + [disk]
    {
      ok := !faults.sync;
      if ok {
        disk := WithFile(disk, f, disk.files[f].(flushed := true));
      }
      seen := seen + [disk];
    }

    method Rename(from: Name, to: Name, faults: Faults) returns (ok: bool)
      requires disk.past != [] && from in disk.Now()
      modifies this
      ensures ok <==> !faults.rename
      ensures disk == if ok then Renamed(old(disk), from, to) else old(disk)
      ensures seen == old(seen) + [disk]
    {
      ok := !faults.rename;
      if ok {
        disk := Renamed(disk, from, to);
      }
      seen := seen + [disk];
    }

    method SyncDir(faults: Faults) returns (ok: bool)
      requires disk.past != []
      modifies this
      ensures ok <==> !faults.syncDir
      ensures disk == if ok then DirectoryFlushed(old(disk)) else old(disk)
      ensures seen == old(seen) + [disk]
    {
      ok := !faults.syncDir;
      if ok {
        disk := DirectoryFlushed(disk);
      }
      seen := seen + [disk];
    }

    method Remove(n: Name, faults: Faults)
      requires disk.past != []
      modifies this
      ensures disk == if n in old(disk).Now() && !faults.remove then Removed(old(disk), n) else old(disk)
      ensures seen == old(seen) + [disk]
    {
      if n in disk.Now() && !faults.remove {
        disk := Removed(disk, n);
      }
      seen := seen + [disk];
    }

    /** The temporary file with all of the data in it and flushed, or an error. */
    method Prepare(of: string, tmp: Ino, mode: nat, data: Contents, faults: Faults, ghost was: Disk) returns (ok: bool)
      requires Own(was, disk, of, tmp)
      requires Temp(of, tmp) in disk.Now() && disk.Now()[Temp(of, tmp)] == tmp && disk.files[tmp].bytes == []
      modifies this
      ensures ok <==> !faults.chmod && faults.writes.None? && !faults.sync && !faults.close
      ensures Own(was, disk, of, tmp) && disk.Now() == old(disk).Now()
      ensures ok ==> disk.files[tmp] == File(data, true, mode)
      ensures |old(seen)| <= |seen| && seen[..|old(seen)|] == old(seen)
      ensures forall i :: |old(seen)| <= i < |seen| ==> Safe(was, seen[i], of, data)
    {
      hide Safe, Untouched;
      var file := disk.files[tmp];
      OwnFileChanged(was, disk, of, tmp, file.(mode := mode));
      ok := Chmod(tmp, mode, faults);
      OwnIsSafe(was, disk, of, tmp, data);
      if !ok {
        return;
      }
      ok := WriteData(of, tmp, data, faults, was);
      OwnIsSafe(was, disk, of, tmp, data);
      if !ok {
        return;
      }
      OwnFileChanged(was, disk, of, tmp, File(data, true, mode));
      ok := Sync(tmp, faults);
      OwnIsSafe(was, disk, of, tmp, data);
      ok := ok && !faults.close;
    }

    method WriteData(of: string, tmp: Ino, data: Contents, faults: Faults, ghost was: Disk) returns (ok: bool)
      requires Own(was, disk, of, tmp) && disk.files[tmp].bytes == []
      modifies this
      ensures ok <==> faults.writes.None?
      ensures Own(was, disk, of, tmp) && disk.Now() == old(disk).Now()
      ensures ok ==> disk.files[tmp] == File(data, false, old(disk).files[tmp].mode)
      ensures seen == old(seen) + [disk]
    {
      var file := disk.files[tmp];
      assert [] + data == data;
      OwnFileChanged(was, disk, of, tmp, File(data, false, file.mode));
      if faults.writes.Some? {
        OwnFileChanged(was, disk, of, tmp, File([] + Take(data, faults.writes.value), false, file.mode));
      }
      ok := WriteBytes(tmp, data, faults);
    }

    /** The rename that publishes a file which is ready, and the flush that makes it last. */
    method Publish(of: string, tmp: Ino, data: Contents, faults: Faults, ghost was: Disk) returns (outcome: Outcome)
      requires Own(was, disk, of, tmp)
      requires Temp(of, tmp) in disk.Now() && disk.Now()[Temp(of, tmp)] == tmp
      requires disk.files[tmp].bytes == data && disk.files[tmp].flushed
      modifies this
      ensures outcome == if faults.rename then Failed else if faults.syncDir then NotDurable else Replaced
      ensures outcome.Failed? ==> disk == old(disk)
      ensures !outcome.Failed? ==>
        && Safe(was, disk, of, data)
        && Temp(of, tmp) !in disk.Now()
        && Read(disk, Named(of)) == Some(data)
        && ModeOf(disk, Named(of)) == Some(old(disk).files[tmp].mode)
      ensures outcome.Replaced? ==> disk.Valid() && forall c :: MayHold(disk, Named(of), c) ==> c == Some(data)
      ensures |old(seen)| <= |seen| && seen[..|old(seen)|] == old(seen)
      ensures forall i :: |old(seen)| <= i < |seen| ==> Safe(was, seen[i], of, data)
    {
      hide OldOrNew, MayHold, Untouched;
      RenameIsSafe(was, disk, of, tmp, data);
      OwnIsSafe(was, disk, of, tmp, data);
      RenamedIsValid(disk, Temp(of, tmp), Named(of));
      ghost var from := disk;
      var ok := Rename(Temp(of, tmp), Named(of), faults);
      if !ok {
        return Failed;
      }
      assert Safe(was, disk, of, data) && Temp(of, tmp) !in disk.Now();
      hide Safe, Own;
      FlushedIsSafe(was, disk, of, data);
      ok := SyncDir(faults);
      return if ok then Replaced else NotDurable;
    }

    /** Takes the temporary file away, when the write did not get as far as the rename. */
    method Discard(of: string, tmp: Ino, data: Contents, faults: Faults, ghost was: Disk)
      requires Own(was, disk, of, tmp)
      modifies this
      ensures Safe(was, disk, of, data) && Untouched(was, disk, Named(of))
      ensures !faults.remove ==> Temp(of, tmp) !in disk.Now()
      ensures seen == old(seen) + [disk]
    {
      hide Own, Untouched, Safe;
      assert disk.past != [] by { ValidHasNow(was, disk, of, tmp); }
      RemovedIsOwn(was, disk, of, tmp);
      Remove(Temp(of, tmp), faults);
      OwnIsSafe(was, disk, of, tmp, data);
    }

    /** The write itself, once what the file's permission will be is settled. */
    method WriteThrough(of: string, data: Contents, mode: nat, proceeds: bool, faults: Faults)
      returns (outcome: Outcome)
      requires disk.Valid()
      modifies this
      ensures outcome ==
        if faults.create || faults.chmod || faults.writes.Some? || faults.sync || faults.close then Failed
        else if !proceeds then Abandoned
        else if faults.rename then Failed
        else if faults.syncDir then NotDurable
        else Replaced
      ensures |old(seen)| <= |seen| && seen[..|old(seen)|] == old(seen)
      ensures forall i :: |old(seen)| <= i < |seen| ==> Safe(old(disk), seen[i], of, data)
      ensures Safe(old(disk), disk, of, data)
      ensures outcome.Replaced? || outcome.NotDurable? ==>
        && Read(disk, Named(of)) == Some(data)
        && ModeOf(disk, Named(of)) == Some(mode)
        && Temp(of, old(disk).next) !in disk.Now()
      ensures outcome.Replaced? ==> forall c :: MayHold(disk, Named(of), c) ==> c == Some(data)
      ensures !outcome.Replaced? && !outcome.NotDurable? ==> Untouched(old(disk), disk, Named(of))
      ensures !faults.remove ==> Temp(of, old(disk).next) !in disk.Now()
    {
      hide MayHold, Untouched, OldOrNew;
      ghost var was := disk;
      UnchangedIsSafe(was, of, data);
      CreatedIsOwn(was, of);
      var ok, tmp := CreateTemp(of, faults);
      if !ok {
        return Failed;
      }
      OwnIsSafe(was, disk, of, tmp, data);
      hide Own, Safe;
      ok := Prepare(of, tmp, mode, data, faults, was);
      if !ok {
        Discard(of, tmp, data, faults, was);
        return Failed;
      }
      if !proceeds {
        Discard(of, tmp, data, faults, was);
        return Abandoned;
      }
      outcome := Publish(of, tmp, data, faults, was);
      if outcome.Failed? {
        Discard(of, tmp, data, faults, was);
      } else {
        assert disk.past != [] by { SafeHasNow(was, disk, of, data); }
        Remove(Temp(of, tmp), faults);
      }
    }

    /** Replaces the contents of the file named of, unless proceeds, the caller's last look at it, says not to. */
    method Write(of: string, data: Contents, mode: nat, keep: bool, proceeds: bool, faults: Faults)
      returns (outcome: Outcome)
      requires disk.Valid()
      modifies this
      ensures outcome == OutcomeOf(old(disk), of, mode, keep, proceeds, faults)
      // Every state on the way, and so what a crash at any moment may leave.
      ensures |old(seen)| <= |seen| && seen[..|old(seen)|] == old(seen)
      ensures forall i :: |old(seen)| <= i < |seen| ==> Safe(old(disk), seen[i], of, data)
      ensures Safe(old(disk), disk, of, data)
      // What the answer means.
      ensures outcome.Replaced? || outcome.NotDurable? ==>
        && Read(disk, Named(of)) == Some(data)
        && ModeOf(disk, Named(of)) ==
             (if keep && ModeOf(old(disk), Named(of)).Some? then ModeOf(old(disk), Named(of)) else Some(mode))
        && Temp(of, old(disk).next) !in disk.Now()
      ensures outcome.Replaced? ==> forall c :: MayHold(disk, Named(of), c) ==> c == Some(data)
      ensures !outcome.Replaced? && !outcome.NotDurable? ==> Untouched(old(disk), disk, Named(of))
      ensures !faults.remove ==> Temp(of, old(disk).next) !in disk.Now()
    {
      hide MayHold, Untouched, OldOrNew;
      UnchangedIsSafe(disk, of, data);
      if mode == 0 {
        return NoMode;
      }
      var kept := mode;
      if keep {
        if faults.stat {
          return StatFailed;
        }
        if Named(of) in disk.Now() {
          kept := ModeFor(disk, Named(of), mode, keep);
          if !OwnerMayWrite(kept) {
            return ReadOnly;
          }
        }
      }
      outcome := WriteThrough(of, data, kept, proceeds, faults);
    }

    /**
     Replaces the file a path leads to, when links are to be followed, and leaves the links in place; otherwise what is
     at the path itself. A path that leads nowhere touches nothing. at is what the links were when they were followed:
     it is given, not read off the disk, and the directory that is flushed is that of the file they lead to.
     */
    method WritePath(
      at: L.Path -> L.Node, path: string, follow: bool, data: Contents, mode: nat, keep: bool, proceeds: bool,
      faults: Faults)
      returns (outcome: Outcome, target: string)
      requires disk.Valid()
      modifies this
      ensures outcome.Unresolved? <==> mode != 0 && follow && forall p :: !L.LeadsTo(at, path, p)
      ensures !outcome.Unresolved? && mode != 0 ==> if follow then L.LeadsTo(at, path, target) else target == path
      ensures outcome.Unresolved? ==> disk == old(disk) && seen == old(seen)
      ensures !outcome.Unresolved? ==> outcome == OutcomeOf(old(disk), target, mode, keep, proceeds, faults)
      ensures |old(seen)| <= |seen| && seen[..|old(seen)|] == old(seen)
      ensures forall i :: |old(seen)| <= i < |seen| ==> Safe(old(disk), seen[i], target, data)
      ensures Safe(old(disk), disk, target, data)
      ensures outcome.Replaced? || outcome.NotDurable? ==> Read(disk, Named(target)) == Some(data)
      ensures outcome.Replaced? ==> forall c :: MayHold(disk, Named(target), c) ==> c == Some(data)
      ensures !outcome.Replaced? && !outcome.NotDurable? ==> Untouched(old(disk), disk, Named(target))
    {
      hide MayHold, Untouched, OldOrNew, Safe;
      target := path;
      UnchangedIsSafe(disk, path, data);
      if mode == 0 {
        return NoMode, path;
      }
      if follow {
        var resolved := L.Resolve(at, path);
        if !resolved.Found? {
          assert forall p :: L.LeadsTo(at, path, p) ==> resolved == L.Found(p);
          return Unresolved, path;
        }
        target := resolved.path;
      }
      outcome := Write(target, data, mode, keep, proceeds, faults);
    }
  }

  /** Which answer a write gives: what stands in its way first. */
  function OutcomeOf(d: Disk, of: string, mode: nat, keep: bool, proceeds: bool, faults: Faults): Outcome
    requires d.Valid()
  {
    if mode == 0 then NoMode
    else if keep && faults.stat then StatFailed
    else if keep && Named(of) in d.Now() && !OwnerMayWrite(ModeFor(d, Named(of), mode, keep)) then ReadOnly
    else if faults.create || faults.chmod || faults.writes.Some? || faults.sync || faults.close then Failed
    else if !proceeds then Abandoned
    else if faults.rename then Failed
    else if faults.syncDir then NotDurable
    else Replaced
  }

  /** The digit of a permission's owner, the third from the right in octal: 4 to read, 2 to write, 1 to execute. */
  function OwnerDigit(mode: nat): nat {
    mode / 0x40 % 8
  }

  lemma Quotient(n: nat, q: nat, r: nat)
    ensures r < 0x80 && n == 0x80 * q + r ==> n / 0x80 == q
    ensures r < 2 && n == 2 * q + r ==> n % 2 == r
  {
  }

  lemma Digits(mode: nat) returns (q: nat, r: nat)
    ensures r < 0x40 && OwnerDigit(mode) < 8 && mode == 0x200 * q + 0x40 * OwnerDigit(mode) + r
  {
    q, r := mode / 0x40 / 8, mode % 0x40;
  }

  lemma OwnerWrites(mode: nat)
    ensures OwnerMayWrite(mode) <==> OwnerDigit(mode) in {2, 3, 6, 7}
  {
    var q, r := Digits(mode);
    var u := OwnerDigit(mode);
    hide OwnerDigit;
    var high, write := if u < 4 then 0 else 1, if u in {2, 3, 6, 7} then 1 else 0;
    var above := 2 * (2 * q + high) + write;
    Quotient(mode, above, 0x40 * (u - 4 * high - 2 * write) + r);
    Quotient(above, 2 * q + high, write);
  }

  /**
   What each answer means. An existing file is refused for its permission if and only if that is to be kept and its
   owner may not write.
   */
  lemma AnswerMeans(d: Disk, of: string, mode: nat, keep: bool, proceeds: bool, faults: Faults)
    requires d.Valid()
    ensures var answer := OutcomeOf(d, of, mode, keep, proceeds, faults);
            var there := ModeOf(d, Named(of));
            && (answer.NoMode? <==> mode == 0)
            && (answer.StatFailed? <==> mode != 0 && keep && faults.stat)
            && (answer.ReadOnly? <==>
                  mode != 0 && keep && !faults.stat && there.Some? &&
                  OwnerDigit(there.value) !in {2, 3, 6, 7})
            && (answer.Replaced? ==> proceeds && !faults.rename && !faults.syncDir)
            && (answer.NotDurable? ==> proceeds && faults.syncDir)
            && (answer.Abandoned? ==> !proceeds)
            && (answer.Failed? ==>
                  || faults.create || faults.chmod || faults.writes.Some? || faults.sync || faults.close
                  || (proceeds && faults.rename))
            && !answer.Unresolved?
  {
    hide OwnerMayWrite, OwnerDigit;
    if Named(of) in d.Now() {
      OwnerWrites(d.files[d.Now()[Named(of)]].mode);
    }
  }

  // ---------- why in this order ----------

  /** Without the flush first, a crash after the rename may leave anything under the name. */
  lemma RenamedTooSoon(d: Disk, from: Name, to: Name, c: Contents)
    requires d.Valid() && to.Named? && from in d.Now() && !d.files[d.Now()[from]].flushed
    ensures Renamed(d, from, to).Valid() && MayHold(Renamed(d, from, to), to, Some(c))
  {
    var r := Renamed(d, from, to);
    RenamedIsValid(d, from, to);
    assert HeldAt(r, |r.past| - 1, to, Some(c));
  }

  /** Until the directory is flushed, a crash may take the rename back. */
  lemma RenameMayBeLost(d: Disk, from: Name, to: Name, c: Option<Contents>)
    requires d.Valid() && to.Named? && from in d.Now() && MayHold(d, to, c)
    ensures Renamed(d, from, to).Valid() && MayHold(Renamed(d, from, to), to, c)
  {
    var r := Renamed(d, from, to);
    RenamedIsValid(d, from, to);
    var i :| 0 <= i < |d.past| && HeldAt(d, i, to, c);
    assert r.past[i] == d.past[i];
    assert HeldAt(r, i, to, c);
  }
}
