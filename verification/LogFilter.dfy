/**
 What a reader's filter does to a tail and to a followed log (daemon/logfile/tail.go): an entry comes out exactly when
 its line is there and its entry is wanted.
 */
module LogFilter {
  import opened Bytes
  import opened LogLines
  import opened LogSplitter
  import opened LogTail
  import opened LogTailFacts
  import opened LogFollow
  import opened LogRuns

  /** The lines of the newest copy and of the live file, its unfinished last one unless the log is to be followed. */
  function TailLines<E>(r: Reader<E>, disk: Disk, follow: bool): seq<RawLine>
    requires disk.live.Some?
  {
    var live := disk.live.value.data;
    (if disk.backups == [] then [] else CutAll(AllLines(disk.backups[0].data), r.maxLine)) +
    CutAll(if follow then Complete(live) else AllLines(live), r.maxLine)
  }

  /**
   Within the bound, what a Tail returns: the newest of the entries that are wanted of all the lines. How many is as
   TailExact has it: what was asked for, but never more than ten thousand, or one fewer.
   */
  lemma TailIsChosen<E>(r: Reader<E>, disk: Disk, lines: int, follow: bool) returns (at: seq<nat>, all: seq<E>)
    requires r.Valid() && disk.live.Some? && lines >= 1
    requires |disk.live.value.data| <= r.maxScan && (disk.backups != [] ==> |disk.backups[0].data| <= r.maxScan)
    ensures Chosen(r, TailLines(r, disk, follow), at, all)
    ensures var n := if lines < 10000 then lines else 10000;
            Tailed(r, disk, Clamp(lines), follow) == LastN(all, TailWanted(r, disk, n, follow))
  {
    hide Tailed, TailWanted, Reader.Kept, Chosen, Complete, AllLines, CutAll;
    TailExact(r, disk, Clamp(lines), follow);
    var older := if disk.backups == [] then [] else CutAll(AllLines(disk.backups[0].data), r.maxLine);
    var live := disk.live.value.data;
    KeptConcat(r, older, CutAll(if follow then Complete(live) else AllLines(live), r.maxLine));
    all := Readable(r, disk, follow);
    ReadableIsKept(r, disk, follow);
    at := KeptAreChosen(r, TailLines(r, disk, follow));
  }

  lemma ReadableIsKept<E>(r: Reader<E>, disk: Disk, follow: bool)
    requires disk.live.Some?
    ensures Readable(r, disk, follow) == r.Kept(TailLines(r, disk, follow))
  {
    hide Complete, AllLines, CutAll, Reader.Kept;
    var older := if disk.backups == [] then [] else CutAll(AllLines(disk.backups[0].data), r.maxLine);
    var live := disk.live.value.data;
    KeptConcat(r, older, CutAll(if follow then Complete(live) else AllLines(live), r.maxLine));
    NothingKept(r);
  }

  lemma NothingKept<E>(r: Reader<E>)
    ensures r.Kept([]) == []
  {
  }

  // ---------- over runs ----------

  /** The lines of a turn that have been read, in a run that began with no log. */
  function LinesRead<E>(r: Reader<E>, w: World<E>, k: nat): seq<RawLine>
    requires k <= w.at < |w.history|
  {
    var turn := w.history[k];
    CutAll(
      if k == w.at then Complete(Take(turn.data, w.follower.offset))
      else if turn.ending.EmptiedAfter? then Complete(Take(turn.data, turn.ending.read))
      else AllLines(turn.data),
      r.maxLine)
  }

  lemma {:induction false} InFinished<E>(r: Reader<E>, turns: seq<Turn>, e: E)
    ensures e in FinishedAll(r, turns) <==> exists k :: 0 <= k < |turns| && e in Finished(r, turns[k])
    decreases |turns|
  {
    hide Finished;
    if turns != [] {
      var n := |turns| - 1;
      InFinished(r, turns[..n], e);
      if e in FinishedAll(r, turns[..n]) {
        var k :| 0 <= k < n && e in Finished(r, turns[..n][k]);
        assert turns[..n][k] == turns[k];
      }
      if k :| 0 <= k < |turns| && e in Finished(r, turns[k]) {
        assert k < n ==> turns[..n][k] == turns[k];
      }
    }
  }

  /**
   Over every run from a path with no log: what the polls have returned is exactly the entries that are wanted of the
   lines read so far, of every file since.
   */
  lemma FollowedAreChosen<E>(r: Reader<E>, es: seq<Event>, e: E)
    requires r.Valid() && Legal(r, BeforeAnyLog(), es)
    requires var w := RunAll(r, BeforeAnyLog(), es); w.at < |w.history|
    ensures var w := RunAll(r, BeforeAnyLog(), es);
            e in w.out <==>
              && Wants(r.keep, e)
              && exists k: nat, l :: k <= w.at && l in LinesRead(r, w, k) && r.parse(l) == e
  {
    hide Legal, RunAll, Finished, FinishedAll, LinesRead, Reader.KeptComplete;
    FollowedFromNothing(r, es);
    var w := RunAll(r, BeforeAnyLog(), es);
    forall k: nat | k <= w.at
      ensures e in EntriesRead(r, w, k) <==> Wants(r.keep, e) && exists l :: l in LinesRead(r, w, k) && r.parse(l) == e
    {
      TurnIsChosen(r, w, k, e);
    }
    OutIsAll(r, w, e);
  }

  /** What has come out of a turn. */
  function EntriesRead<E>(r: Reader<E>, w: World<E>, k: nat): seq<E>
    requires k <= w.at < |w.history|
  {
    if k == w.at then r.KeptComplete(Take(w.history[k].data, w.follower.offset)) else Finished(r, w.history[k])
  }

  lemma TurnIsChosen<E>(r: Reader<E>, w: World<E>, k: nat, e: E)
    requires k <= w.at < |w.history|
    ensures e in EntriesRead(r, w, k) <==> Wants(r.keep, e) && exists l :: l in LinesRead(r, w, k) && r.parse(l) == e
  {
    hide Reader.Kept, Complete, AllLines, CutAll;
    KeptIff(r, LinesRead(r, w, k), e);
  }

  lemma OutIsAll<E>(r: Reader<E>, w: World<E>, e: E)
    requires w.at < |w.history| && w.out == Promised(r, w)
    ensures e in w.out <==> exists k: nat :: k <= w.at && e in EntriesRead(r, w, k)
  {
    hide FinishedAll, Finished, Reader.KeptComplete;
    InFinished(r, w.history[..w.at], e);
    OutIsEither(r, w, e);
    if e in w.out {
      if e in FinishedAll(r, w.history[..w.at]) {
        var k :| 0 <= k < w.at && e in Finished(r, w.history[..w.at][k]);
        assert e in EntriesRead(r, w, k);
      } else {
        assert e in EntriesRead(r, w, w.at);
      }
    }
    if k: nat :| k <= w.at && e in EntriesRead(r, w, k) {
      assert k < w.at ==> w.history[..w.at][k] == w.history[k];
    }
  }

  lemma OutIsEither<E>(r: Reader<E>, w: World<E>, e: E)
    requires w.at < |w.history| && w.out == Promised(r, w)
    ensures e in w.out <==>
              || e in FinishedAll(r, w.history[..w.at])
              || e in r.KeptComplete(Take(w.history[w.at].data, w.follower.offset))
  {
  }
}
