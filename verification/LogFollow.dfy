/** Tail and the Follower it leaves behind (daemon/logfile/tail.go). */
module LogFollow {
  import opened Bytes
  import opened LogLines
  import opened LogSplitter
  import opened LogTail
  import opened LogTailFacts

  /** A file: its identity, which a rename keeps, and what it holds. */
  datatype LogFile = LogFile(id: nat, data: seq<byte>)

  /** What is at the log's path, and the rotated copies beside it, newest first. */
  datatype Disk = Disk(live: Option<LogFile>, backups: seq<LogFile>)

  /** The Follower's fields as a value. */
  datatype Following = Following(id: Option<nat>, offset: nat, split: State)

  const MaxLines := 10000

  function Clamp(lines: int): nat {
    if lines < 0 then 0 else if lines > MaxLines then MaxLines else lines
  }

  /** The copy among these that is the file being followed. */
  function Renamed(backups: seq<LogFile>, id: nat): Option<LogFile> {
    if backups == [] then None
    else if backups[0].id == id then Some(backups[0])
    else Renamed(backups[1..], id)
  }

  /** What is still unread of the file being followed, once it has been renamed. */
  function Unread<E>(r: Reader<E>, f: Following, backups: seq<LogFile>): seq<byte>
    requires f.id.Some?
  {
    match Renamed(backups, f.id.value)
    case None => []
    case Some(file) => Range(file.data, f.offset, Min(|file.data|, f.offset + r.maxScan))
  }

  datatype Case = Rotated | Emptied | Same

  /** What has happened to the file since the last read, as far as the Follower can tell. */
  function CaseOf(f: Following, live: LogFile): Case {
    if f.id.Some? && f.id.value != live.id then Rotated
    else if |live.data| < f.offset then Emptied
    else Same
  }

  /** Where the read of the live file goes on from, and in which state. */
  function Resumed(f: Following, live: LogFile): (nat, State) {
    if CaseOf(f, live).Same? then (f.offset, f.split) else (0, Fresh)
  }

  /** The part of the live file one call reads. */
  function Batch<E>(r: Reader<E>, f: Following, live: LogFile): seq<byte> {
    var from := Resumed(f, live).0;
    Range(live.data, from, Min(|live.data|, from + r.maxBatch))
  }

  function NextFollowing<E>(r: Reader<E>, f: Following, disk: Disk): Following {
    if disk.live.None? then f
    else
      var live := disk.live.value;
      var (from, st) := Resumed(f, live);
      var batch := Batch(r, f, live);
      Following(Some(live.id), from + |batch|, After(st, batch, r.maxLine))
  }

  /** The lines that end a file a rotation has renamed. */
  function Finish<E>(r: Reader<E>, f: Following, backups: seq<LogFile>): seq<RawLine>
    requires f.id.Some?
  {
    var rest := Unread(r, f, backups);
    Emitted(f.split, rest, r.maxLine) + Flushed(After(f.split, rest, r.maxLine))
  }

  function NextLines<E>(r: Reader<E>, f: Following, disk: Disk): seq<RawLine> {
    if disk.live.None? then []
    else
      var live := disk.live.value;
      (if CaseOf(f, live).Rotated? then Finish(r, f, disk.backups) else []) +
      Emitted(Resumed(f, live).1, Batch(r, f, live), r.maxLine)
  }

  class Follower<E> {
    const r: Reader<E>
    const split: Splitter
    var id: Option<nat>
    var offset: nat

    ghost predicate Valid()
      reads this, split
    {
      r.Valid() && split.Valid() && split.max == r.maxLine
    }

    ghost function Abs(): Following
      reads this, split
    {
      Following(id, offset, split.Abs())
    }

    /** A Follower of a log that need not be there yet: the first file it meets is read from its first byte. */
    constructor Follow(r: Reader<E>)
      requires r.Valid()
      ensures Valid() && fresh(split) && this.r == r
      ensures Abs() == Following(None, 0, Fresh)
    {
      this.r := r;
      split := new Splitter(r.maxLine);
      id, offset := None, 0;
    }

    /** Starts where a Tail stopped reading. */
    constructor At(r: Reader<E>, file: LogFile, split: Splitter)
      requires r.Valid() && split.Valid() && split.max == r.maxLine
      ensures Valid() && this.r == r && this.split == split
      ensures Abs() == Following(Some(file.id), |file.data|, split.Abs())
    {
      this.r, this.split := r, split;
      id, offset := Some(file.id), |file.data|;
    }

    /** The renamed file's unread part, as far as that is found, with its last line ended as if by a newline. */
    method FinishRenamed(backups: seq<LogFile>) returns (out: seq<RawLine>)
      requires Valid() && id.Some?
      modifies split
      ensures Valid() && split.Abs() == Fresh
      ensures out == Finish(r, old(Abs()), backups)
    {
      hide After, Emitted, Flushed;
      out := [];
      var i := 0;
      RunNothing(split.Abs(), r.maxLine);
      while i < |backups| && backups[i].id != id.value
        invariant 0 <= i <= |backups|
        invariant Renamed(backups, id.value) == Renamed(backups[i..], id.value)
      {
        i := i + 1;
      }
      if i < |backups| {
        var data := backups[i].data;
        var end := if |data| - offset > r.maxScan then offset + r.maxScan else |data|;
        assert Range(data, offset, end) == Unread(r, Abs(), backups);
        var read;
        out, read := FeedRange(data, offset, end, r.readChunk, split);
      } else {
        assert backups[i..] == [];
      }
      var last := split.Flush();
      out := out + last;
    }

    /** One poll: what has come since the one before, in the order it was written. */
    method Next(disk: Disk) returns (entries: seq<E>)
      requires Valid()
      modifies this, split
      ensures Valid()
      ensures Abs() == NextFollowing(r, old(Abs()), disk)
      ensures entries == r.Kept(NextLines(r, old(Abs()), disk))
      ensures AreWanted(r, NextLines(r, old(Abs()), disk), entries)
    {
      ghost var asked := NextLines(r, Abs(), disk);
      KeptAreWanted(r, asked);
      hide After, Emitted, Finish, Reader.Kept;
      if disk.live.None? {
        KeptNothing(r);
        assert asked == [];
        return [];
      }
      var live := disk.live.value;
      ghost var f := Abs();
      var lines: seq<RawLine> := [];
      if id.Some? && id.value != live.id {
        lines := FinishRenamed(disk.backups);
        offset := 0;
      } else if |live.data| < offset {
        split.Reset();
        offset := 0;
      }
      id := Some(live.id);
      var end := |live.data|;
      if end - offset > r.maxBatch {
        end := offset + r.maxBatch;
      }
      assert Range(live.data, offset, end) == Batch(r, f, live);
      var more, read := FeedRange(live.data, offset, end, r.readChunk, split);
      offset := offset + read;
      lines := lines + more;
      entries := KeepLines(r, lines);
      assert entries == r.Kept(asked);
    }
  }

  /** Parses lines as they are emitted and appends the ones kept. */
  method KeepLines<E>(r: Reader<E>, lines: seq<RawLine>) returns (entries: seq<E>)
    ensures entries == r.Kept(lines)
  {
    entries := [];
    for i := 0 to |lines|
      invariant entries + r.Kept(lines[i..]) == r.Kept(lines)
    {
      var e := r.parse(lines[i]);
      assert lines[i..][1..] == lines[i + 1..];
      if r.keep.None? || r.keep.value(e) {
        entries := entries + [e];
      }
    }
  }

  /** What a Tail returns: the live file's newest entries, and the newest copy's when those are all it has. */
  function Tailed<E>(r: Reader<E>, disk: Disk, n: nat, follow: bool): seq<E>
    requires disk.live.Some?
  {
    var live := disk.live.value.data;
    var own := Found(r, live, |live|, n, !follow);
    if |own| < n && StartOf(r, live, |live|, n).0 == 0 && disk.backups != [] then
      var older := disk.backups[0].data;
      Found(r, older, |older|, n - |own|, true) + own
    else own
  }

  /** The end of the log, and a Follower that goes on from there. Without a log there is neither. */
  method Tail<E>(r: Reader<E>, disk: Disk, lines: int, follow: bool)
    returns (entries: seq<E>, follower: Follower?<E>)
    requires r.Valid()
    ensures disk.live.None? ==> follower == null && entries == []
    ensures |entries| <= MaxLines && (lines >= 0 ==> |entries| <= lines) && (lines < 0 ==> entries == [])
    ensures forall e :: e in entries ==> Wants(r.keep, e)
    ensures disk.live.Some? ==>
              && follower != null && fresh(follower) && fresh(follower.split) && follower.Valid() && follower.r == r
              && entries == Tailed(r, disk, Clamp(lines), follow)
              && var file := disk.live.value;
                 follower.Abs() == Following(Some(file.id), |file.data|,
                                             LeftOver(r, file.data, |file.data|, Clamp(lines), !follow))
  {
    hide Found, LeftOver, StartOf, IsSuffix, Readable, Wants;
    entries, follower := [], null;
    if disk.live.None? {
      return;
    }
    var n := Clamp(lines);
    TailedAtMost(r, disk, n, follow);
    var file := disk.live.value;
    var split := new Splitter(r.maxLine);
    var ok, whole;
    ok, entries, whole := ReadNewest(r, file.data, |file.data|, n, split, !follow);
    follower := new Follower.At(r, file, split);
    var missing := n - |entries|;
    if missing > 0 && whole && disk.backups != [] {
      var older := disk.backups[0].data;
      var other := new Splitter(r.maxLine);
      var read, earlier, _ := ReadNewest(r, older, |older|, missing, other, true);
      entries := earlier + entries;
    }
  }

  lemma TailedAtMost<E>(r: Reader<E>, disk: Disk, n: nat, follow: bool)
    requires disk.live.Some?
    ensures |Tailed(r, disk, n, follow)| <= n
  {
    hide Found, StartOf;
    var live := disk.live.value.data;
    FoundAtMost(r, live, |live|, n, !follow);
    var own := |Found(r, live, |live|, n, !follow)|;
    if own < n && disk.backups != [] {
      FoundAtMost(r, disk.backups[0].data, |disk.backups[0].data|, n - own, true);
    }
  }

  // ---------- what a Tail returns ----------

  /** The kept lines of the newest copy followed by those of the live file. */
  function Readable<E>(r: Reader<E>, disk: Disk, follow: bool): seq<E>
    requires disk.live.Some?
  {
    (if disk.backups == [] then [] else r.KeptAll(disk.backups[0].data)) +
    KeptOf(r, disk.live.value.data, !follow)
  }

  /**
   Tail never hides a gap: whatever the bounds, what it returns is the end of the copy's kept lines followed by
   the live file's.
   */
  lemma TailHidesNoGap<E>(r: Reader<E>, disk: Disk, n: nat, follow: bool)
    requires r.Valid() && disk.live.Some?
    ensures IsSuffix(Tailed(r, disk, n, follow), Readable(r, disk, follow))
    ensures |Tailed(r, disk, n, follow)| <= n
  {
    hide Found, StartOf, KeptOf, IsSuffix, Reader.KeptAll;
    var live := disk.live.value.data;
    assert live[..|live|] == live;
    FoundIsSuffix(r, live, |live|, n, !follow);
    FoundAtMost(r, live, |live|, n, !follow);
    var own := Found(r, live, |live|, n, !follow);
    var before := if disk.backups == [] then [] else r.KeptAll(disk.backups[0].data);
    SuffixOfConcat(before, KeptOf(r, live, !follow));
    SuffixTransitive(own, KeptOf(r, live, !follow), Readable(r, disk, follow));
    if |own| < n && StartOf(r, live, |live|, n).0 == 0 && disk.backups != [] {
      var older := disk.backups[0].data;
      assert older[..|older|] == older;
      FoundIsSuffix(r, older, |older|, n - |own|, true);
      FoundAtMost(r, older, |older|, n - |own|, true);
      assert KeptOf(r, older, true) == r.KeptAll(older) by { KeptOfEnded(r, older); }
      SuffixAppend(Found(r, older, |older|, n - |own|, true), before, own);
    }
  }

  lemma KeptOfEnded<E>(r: Reader<E>, bs: seq<byte>)
    ensures KeptOf(r, bs, true) == r.KeptAll(bs)
  {
  }

  lemma FoundAtMost<E>(r: Reader<E>, data: seq<byte>, size: nat, n: nat, flush: bool)
    requires size <= |data|
    ensures |Found(r, data, size, n, flush)| <= n
  {
    hide StartOf, Emitted, After, Flushed, Reader.Kept;
  }

  /** How many entries a Tail of n returns when there are enough of them. */
  function TailWanted<E>(r: Reader<E>, disk: Disk, n: nat, follow: bool): nat
    requires disk.live.Some? && n >= 1
  {
    Wanted(r, disk.live.value.data, n, !follow)
  }

  /**
   With both files within the bound, Tail returns exactly the newest kept lines of the two files taken as one
   log: n of them, or n - 1 in the case Wanted names.
   */
  lemma TailExact<E>(r: Reader<E>, disk: Disk, n: nat, follow: bool)
    requires r.Valid() && disk.live.Some? && n >= 1
    requires |disk.live.value.data| <= r.maxScan
    requires disk.backups != [] ==> |disk.backups[0].data| <= r.maxScan
    ensures Tailed(r, disk, n, follow) == LastN(Readable(r, disk, follow), TailWanted(r, disk, n, follow))
  {
    hide Found, Reader.KeptAll, Reader.KeptComplete, IsSuffix;
    var live := disk.live.value.data;
    assert live[..|live|] == live;
    FoundExact(r, live, |live|, n, !follow);
    FoundIsSuffix(r, live, |live|, n, !follow);
    var own, kept := Found(r, live, |live|, n, !follow), KeptOf(r, live, !follow);
    var before := if disk.backups == [] then [] else r.KeptAll(disk.backups[0].data);
    var w := TailWanted(r, disk, n, follow);
    if |own| < n && StartOf(r, live, |live|, n).0 == 0 {
      assert own == kept;
      ShortMeansWhole(r, live, n, !follow);
      LastNConcat(before, kept, n);
      if disk.backups != [] {
        var older := disk.backups[0].data;
        assert older[..|older|] == older;
        FoundExact(r, older, |older|, n - |own|, true);
      }
    } else {
      EnoughOfItsOwn(r, live, n, !follow);
      LastNConcat(before, kept, w);
    }
  }

  /** Read from the first byte and still short, there was nothing the read left aside. */
  lemma ShortMeansWhole<E>(r: Reader<E>, data: seq<byte>, n: nat, flush: bool)
    requires r.Valid() && n >= 1 && |data| <= r.maxScan && StartOf(r, data, |data|, n).0 == 0
    ensures Wanted(r, data, n, flush) == n
  {
    hide Complete, Rest, NewlineFromEnd;
    assert data == data[0..|data|];
    if r.keep.None? {
      NthBeginsLastLines(data, n);
    }
  }

  /** Not read from the first byte, or not short, the live file alone has all that is wanted. */
  lemma EnoughOfItsOwn<E>(r: Reader<E>, data: seq<byte>, n: nat, flush: bool)
    requires r.Valid() && n >= 1 && |data| <= r.maxScan
    requires |Found(r, data, |data|, n, flush)| >= n || StartOf(r, data, |data|, n).0 > 0
    ensures |KeptOf(r, data, flush)| >= Wanted(r, data, n, flush)
  {
    hide Complete, Rest, NewlineFromEnd, Found, CutAll, Reader.Kept;
    assert data == data[0..|data|] == data[..|data|];
    FoundExact(r, data, |data|, n, flush);
    if r.keep.None? {
      NthBeginsLastLines(data, n);
      var start := StartOf(r, data, |data|, n).0;
      if start > 0 {
        LinesAtBoundary(data[..start], data[start..]);
        assert data[..start] + data[start..] == data;
        EndsSomeLine(data[..start]);
        KeepsEverything(r, CutAll(AllLines(data), r.maxLine));
        KeepsEverything(r, CutAll(Complete(data), r.maxLine));
      }
    }
  }
}
