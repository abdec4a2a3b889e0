/**
 Whole runs of a followed log: a daemon that writes, rotates and empties its log, copies that are pruned, and a
 Follower polled in between. The claim is that every line of every file comes out once, whole and in order.
 */
module LogRuns {
  import opened Bytes
  import opened LogLines
  import opened LogSplitter
  import opened LogTail
  import opened LogTailFacts
  import opened LogFollow

  /** How a file's turn at the path ended. Emptied says how much of it had been read by then. */
  datatype Ending = Open | RotatedAway | EmptiedAfter(read: nat)

  /** One file's turn at the log's path, and everything that was written to it. */
  datatype Turn = Turn(id: nat, data: seq<byte>, ending: Ending)

  datatype Event =
    | Write(bytes: seq<byte>)
    | Rotate
    | Empty
    | Prune(left: nat)
    | Poll

  /**
   The log's whole history, what is on the disk now, the Follower, which turn it is reading, and every entry its
   polls have returned. An id is given to one file only.
   */
  datatype World<E> = World(
    history: seq<Turn>,
    disk: Disk,
    nextId: nat,
    follower: Following,
    at: nat,
    out: seq<E>)

  function Last(history: seq<Turn>): Turn
    requires history != []
  {
    history[|history| - 1]
  }

  function Ended(history: seq<Turn>, ending: Ending): seq<Turn>
    requires history != []
  {
    history[|history| - 1 := Last(history).(ending := ending)]
  }

  /** Whether an event can happen now: a file that is not there cannot be rotated or emptied. */
  predicate Possible<E>(w: World<E>, e: Event) {
    match e
    case Rotate => w.disk.live.Some?
    case Empty => w.disk.live.Some?
    case Prune(left) => left <= |w.disk.backups|
    case _ => true
  }

  /** A turn nobody had begun to read that has nothing to give any more. */
  predicate Silent(t: Turn) {
    match t.ending
    case EmptiedAfter(read) => read == 0
    case _ => t.data == []
  }

  predicate AllSilent(turns: seq<Turn>) {
    forall t :: t in turns ==> Silent(t)
  }

  /** The last turn of the file whose turn this is: emptied in place, it is the same file. */
  function LastOf(history: seq<Turn>, at: nat): (j: nat)
    requires at < |history|
    ensures at <= j < |history|
    decreases |history| - at
  {
    if at + 1 < |history| && history[at].ending.EmptiedAfter? then LastOf(history, at + 1) else at
  }

  /**
   What a renamed file has left can be read: there is nothing; or the copy is still listed and it is no more than
   maxScan; or it is one byte, which can only end or lengthen a line that is longer than is kept.
   */
  predicate RestReadable<E>(r: Reader<E>, w: World<E>, turn: Turn) {
    || |turn.data| <= w.follower.offset
    || (Renamed(w.disk.backups, turn.id).Some? && |turn.data| - w.follower.offset <= r.maxScan)
    || (|turn.data| == w.follower.offset + 1 && w.follower.split.over)
  }

  /**
   What a poll may find, for the promise to be kept: the file it was reading; or that file emptied, and not yet grown
   to where the reading was; or a file that has come since, when the one it was reading has nothing left that cannot be
   read, and no file in between has anything.
   */
  predicate Followable<E>(r: Reader<E>, w: World<E>)
    requires w.disk.live.Some? ==> w.history != []
  {
    if w.disk.live.None? || w.at + 1 >= |w.history| then true
    else
      var last := |w.history| - 1;
      var j := LastOf(w.history, w.at);
      var offset := w.follower.offset;
      if w.follower.id.None? then AllSilent(w.history[w.at..last])
      else if j == last then offset == 0 || |w.disk.live.value.data| < offset
      else
        && AllSilent(w.history[j + 1..last])
        && if j == w.at || offset == 0 then RestReadable(r, w, w.history[j])
           else w.history[j].data == [] && Rest(Take(w.history[w.at].data, offset)) == []
  }

  function Do<E>(r: Reader<E>, w: World<E>, e: Event): World<E>
    requires Possible(w, e)
    requires w.disk.live.Some? ==> w.history != []
  {
    match e
    case Write(bytes) =>
      if w.disk.live.None? then
        w.(history := w.history + [Turn(w.nextId, bytes, Open)],
           disk := w.disk.(live := Some(LogFile(w.nextId, bytes))),
           nextId := w.nextId + 1)
      else
        var data := w.disk.live.value.data + bytes;
        w.(history := w.history[|w.history| - 1 := Last(w.history).(data := data)],
           disk := w.disk.(live := Some(w.disk.live.value.(data := data))))
    case Rotate =>
      w.(history := Ended(w.history, RotatedAway),
         disk := Disk(None, [w.disk.live.value] + w.disk.backups))
    case Empty =>
      var read := if w.at + 1 == |w.history| then w.follower.offset else 0;
      w.(history := Ended(w.history, EmptiedAfter(read)) + [Turn(w.disk.live.value.id, [], Open)],
         disk := w.disk.(live := Some(w.disk.live.value.(data := []))))
    case Prune(left) =>
      w.(disk := w.disk.(backups := w.disk.backups[..left]))
    case Poll =>
      w.(follower := NextFollowing(r, w.follower, w.disk),
         at := if w.disk.live.None? then w.at else |w.history| - 1,
         out := w.out + r.Kept(NextLines(r, w.follower, w.disk)))
  }

  /** A run in which every event can happen and every poll is one the promise covers. */
  predicate Legal<E>(r: Reader<E>, w: World<E>, es: seq<Event>)
    requires w.disk.live.Some? ==> w.history != []
    decreases |es|
  {
    es == [] ||
    (Possible(w, es[0]) && (es[0].Poll? ==> Followable(r, w)) && Legal(r, Do(r, w, es[0]), es[1..]))
  }

  function RunAll<E>(r: Reader<E>, w: World<E>, es: seq<Event>): World<E>
    requires w.disk.live.Some? ==> w.history != []
    requires Legal(r, w, es)
    decreases |es|
  {
    if es == [] then w else RunAll(r, Do(r, w, es[0]), es[1..])
  }

  // ---------- what is promised ----------

  /**
   The kept lines of one finished turn: all of them, an unfinished last one once, when the file was rotated
   away; those read before it was emptied otherwise.
   */
  function Finished<E>(r: Reader<E>, t: Turn): seq<E> {
    match t.ending
    case EmptiedAfter(read) => r.KeptComplete(Take(t.data, read))
    case _ => r.KeptAll(t.data)
  }

  function FinishedAll<E>(r: Reader<E>, turns: seq<Turn>): seq<E> {
    if turns == [] then []
    else FinishedAll(r, turns[..|turns| - 1]) + Finished(r, turns[|turns| - 1])
  }

  /** Everything written so far that has been read: the finished turns, and the lines read of the current one. */
  function Promised<E>(r: Reader<E>, w: World<E>): seq<E> {
    if w.at >= |w.history| then []
    else
      FinishedAll(r, w.history[..w.at]) +
      r.KeptComplete(Take(w.history[w.at].data, w.follower.offset))
  }

  // ---------- what every event keeps ----------

  ghost predicate IdsKnown<E>(w: World<E>) {
    && (forall b :: b in w.disk.backups ==> b.id < w.nextId)
    && (w.disk.live.Some? ==> w.disk.live.value.id < w.nextId)
    && (forall b :: b in w.disk.backups && w.disk.live.Some? ==> b.id != w.disk.live.value.id)
    && (w.follower.id.Some? ==> w.follower.id.value < w.nextId)
  }

  /** Every turn but the last has ended, and a file is not at the path again once it has been renamed. */
  ghost predicate InOrder(history: seq<Turn>) {
    && (forall i :: 0 <= i < |history| - 1 ==> !history[i].ending.Open?)
    && (history != [] ==> !Last(history).ending.EmptiedAfter?)
    && (forall i :: 0 <= i < |history| - 1 && history[i].ending.EmptiedAfter? ==> history[i].id == history[i + 1].id)
    && (forall i, k :: 0 <= i < k < |history| ==>
          && history[i].id <= history[k].id
          && (history[i].ending.RotatedAway? ==> history[i].id < history[k].id))
  }

  /** A renamed copy holds what its file held. */
  ghost predicate CopiesMatch(history: seq<Turn>, backups: seq<LogFile>) {
    forall b, t :: b in backups && t in history && t.ending.RotatedAway? && t.id == b.id ==> t.data == b.data
  }

  /** The disk and the history tell one story. */
  ghost predicate Consistent<E>(w: World<E>) {
    && (w.disk.live.Some? <==> w.history != [] && Last(w.history).ending.Open?)
    && (w.disk.live.Some? ==> w.disk.live.value == LogFile(Last(w.history).id, Last(w.history).data))
    && InOrder(w.history) && CopiesMatch(w.history, w.disk.backups)
    && (forall t :: t in w.history ==> t.id < w.nextId)
  }

  /** The Follower has read the current turn up to its offset, and remembers exactly that line's beginning. */
  ghost predicate Reading<E>(r: Reader<E>, w: World<E>) {
    if w.follower.id.None? then
      w.at == 0 && w.follower == Following(None, 0, Fresh)
    else
      && w.at < |w.history|
      && w.history[w.at].id == w.follower.id.value
      && w.follower.offset <= |w.history[w.at].data|
      && w.follower.split == After(Fresh, w.history[w.at].data[..w.follower.offset], r.maxLine)
  }

  /** An emptying is noted with what had been read of the file by then. */
  ghost predicate EmptiesNoted<E>(w: World<E>) {
    forall k :: w.at <= k < |w.history| && w.history[k].ending.EmptiedAfter? ==>
      w.history[k].ending.read == if k == w.at then w.follower.offset else 0
  }

  /** before is what had been read of the first turn when the run began. */
  ghost predicate Kept<E>(r: Reader<E>, w: World<E>, before: seq<E>) {
    before + w.out == Promised(r, w)
  }

  ghost predicate Inv<E>(r: Reader<E>, w: World<E>, before: seq<E>) {
    r.Valid() && IdsKnown(w) && Consistent(w) && Reading(r, w) && EmptiesNoted(w) && Kept(r, w, before)
  }

  /** What the daemon does leaves the Follower's reading as it is. */
  lemma Undisturbed<E>(r: Reader<E>, w: World<E>, v: World<E>, before: seq<E>)
    requires Reading(r, w) && Kept(r, w, before)
    requires v.follower == w.follower && v.at == w.at && v.out == w.out
    requires |w.history| <= |v.history| && (w.at >= |w.history| ==> w.follower.id.None?)
    requires w.at < |w.history| ==>
               && v.history[..w.at] == w.history[..w.at]
               && v.history[w.at].id == w.history[w.at].id
               && w.history[w.at].data <= v.history[w.at].data
    ensures Reading(r, v) && Kept(r, v, before)
  {
    hide FinishedAll, After, Reader.KeptComplete;
    if w.at < |w.history| {
      var n := w.follower.offset;
      assert w.follower.id.None? ==> n == 0;
      assert Take(v.history[w.at].data, n) == v.history[w.at].data[..n] == w.history[w.at].data[..n];
      assert Take(w.history[w.at].data, n) == w.history[w.at].data[..n];
    } else {
      NothingRead(r, v);
      NothingRead(r, w);
    }
  }

  lemma WriteConsistent<E>(r: Reader<E>, w: World<E>, bytes: seq<byte>)
    requires IdsKnown(w) && Consistent(w)
    ensures IdsKnown(Do(r, w, Write(bytes))) && Consistent(Do(r, w, Write(bytes)))
  {
    if w.disk.live.None? {
      NewFileConsistent(r, w, bytes);
    }
  }

  lemma NewFileConsistent<E>(r: Reader<E>, w: World<E>, bytes: seq<byte>)
    requires w.disk.live.None? && IdsKnown(w) && Consistent(w)
    ensures IdsKnown(Do(r, w, Write(bytes))) && Consistent(Do(r, w, Write(bytes)))
  {
  }

  lemma WriteKeeps<E>(r: Reader<E>, w: World<E>, before: seq<E>, bytes: seq<byte>)
    requires Inv(r, w, before)
    ensures Inv(r, Do(r, w, Write(bytes)), before)
  {
    hide Promised, After, Kept, IdsKnown;
    WriteConsistent(r, w, bytes);
    var v := Do(r, w, Write(bytes));
    if w.at < |w.history| {
      assert v.history[..w.at] == w.history[..w.at];
    }
    Undisturbed(r, w, v, before);
  }

  lemma NothingRead<E>(r: Reader<E>, w: World<E>)
    requires w.at == 0 && w.follower.offset == 0
    ensures Promised(r, w) == []
  {
    if w.history != [] {
      assert Take(w.history[0].data, 0) == [];
      NoNewline([]);
    }
  }

  lemma RotateKeeps<E>(r: Reader<E>, w: World<E>, before: seq<E>)
    requires Inv(r, w, before) && Possible(w, Rotate)
    ensures Inv(r, Do(r, w, Rotate), before)
  {
    hide Promised, After;
    var v := Do(r, w, Rotate);
    if w.at < |w.history| {
      assert v.history[..w.at] == w.history[..w.at];
    }
    Undisturbed(r, w, v, before);
  }

  lemma EmptyKeeps<E>(r: Reader<E>, w: World<E>, before: seq<E>)
    requires Inv(r, w, before) && Possible(w, Empty)
    ensures Inv(r, Do(r, w, Empty), before)
  {
    hide Promised, After;
    var v := Do(r, w, Empty);
    if w.at < |w.history| {
      assert v.history[..w.at] == w.history[..w.at];
    }
    Undisturbed(r, w, v, before);
  }

  lemma PruneKeeps<E>(r: Reader<E>, w: World<E>, before: seq<E>, left: nat)
    requires Inv(r, w, before) && Possible(w, Prune(left))
    ensures Inv(r, Do(r, w, Prune(left)), before)
  {
    hide Finished, After, Reader.KeptComplete, Reader.KeptAll;
  }

  // ---------- one poll ----------

  /** Reading on from what has been read: the new lines are exactly those the longer reading has. */
  lemma ReadOn<E>(r: Reader<E>, data: seq<byte>, from: nat, to: nat)
    requires r.Valid() && from <= to <= |data|
    ensures After(After(Fresh, data[..from], r.maxLine), data[from..to], r.maxLine) ==
            After(Fresh, data[..to], r.maxLine)
    ensures r.KeptComplete(data[..from]) +
            r.Kept(Emitted(After(Fresh, data[..from], r.maxLine), data[from..to], r.maxLine)) ==
            r.KeptComplete(data[..to])
  {
    hide After, Emitted, Complete, Rest, CutAll, Reader.Kept;
    assert data[..to] == data[..from] + data[from..to];
    RunConcat(Fresh, data[..from], data[from..to], r.maxLine);
    RunIsLines(data[..from], r.maxLine);
    RunIsLines(data[..to], r.maxLine);
    KeptConcat(r, CutAll(Complete(data[..from]), r.maxLine),
               Emitted(After(Fresh, data[..from], r.maxLine), data[from..to], r.maxLine));
  }

  /** Reading on to the end of a renamed file and ending its last line gives all its lines. */
  lemma ReadToEnd<E>(r: Reader<E>, data: seq<byte>, from: nat)
    requires r.Valid() && from <= |data|
    ensures var st := After(Fresh, data[..from], r.maxLine);
            r.KeptComplete(data[..from]) +
            r.Kept(Emitted(st, data[from..], r.maxLine) + Flushed(After(st, data[from..], r.maxLine))) ==
            r.KeptAll(data)
  {
    hide After, Emitted, Complete, Rest, CutAll, AllLines, Flushed, Reader.Kept;
    var st := After(Fresh, data[..from], r.maxLine);
    assert data[from..] == data[from..|data|] && data[..|data|] == data;
    ReadOn(r, data, from, |data|);
    FlushedIsLast(data, r.maxLine);
    RunIsLines(data, r.maxLine);
    var last := Flushed(After(Fresh, data, r.maxLine));
    KeptConcat(r, Emitted(st, data[from..], r.maxLine), last);
    KeptConcat(r, Emitted(Fresh, data, r.maxLine), last);
  }

  lemma FreshStart<E>(r: Reader<E>)
    ensures After(Fresh, [], r.maxLine) == Fresh && r.KeptComplete([]) == []
  {
    NoNewline([]);
  }

  /** What a poll reads of the live file, from wherever it resumes. */
  lemma BatchReads<E>(r: Reader<E>, f: Following, live: LogFile)
    requires r.Valid()
    ensures var from := Resumed(f, live).0;
            var batch := Batch(r, f, live);
            && (from <= |live.data| ==> batch == live.data[from..from + |batch|] && from + |batch| <= |live.data|)
            && (from < |live.data| ==> |batch| == Min(r.maxBatch, |live.data| - from))
  {
  }

  /** A poll of the file that was being read. */
  lemma PollSame<E>(r: Reader<E>, w: World<E>, before: seq<E>)
    requires Inv(r, w, before) && w.disk.live.Some? && w.at + 1 >= |w.history|
    ensures Inv(r, Do(r, w, Poll), before)
  {
    hide After, Emitted, FinishedAll, Reader.Kept, Reader.KeptComplete, Batch, IdsKnown, Finish;
    var live := w.disk.live.value;
    var f := w.follower;
    if f.id.None? {
      FreshStart(r);
      assert live.data[..0] == [];
      assert f.split == After(Fresh, live.data[..0], r.maxLine);
      NothingRead(r, w);
      assert FinishedAll(r, []) == [] by { NoTurns(r); }
      assert w.history[..w.at] == [];
      assert Take(live.data, 0) == [];
    }
    assert CaseOf(f, live).Same?;
    BatchReads(r, f, live);
    ReadOn(r, live.data, f.offset, f.offset + |Batch(r, f, live)|);
    PollIds(r, w);
    assert [] + Emitted(f.split, Batch(r, f, live), r.maxLine) == Emitted(f.split, Batch(r, f, live), r.maxLine);
    var v := Do(r, w, Poll);
    assert Take(live.data, f.offset) == live.data[..f.offset];
    assert Take(live.data, v.follower.offset) == live.data[..v.follower.offset];
    assert before + v.out == Promised(r, w) + r.Kept(NextLines(r, f, w.disk));
  }

  lemma NoTurns<E>(r: Reader<E>)
    ensures FinishedAll(r, []) == []
  {
  }

  lemma PollIds<E>(r: Reader<E>, w: World<E>)
    requires IdsKnown(w) && Consistent(w)
    ensures IdsKnown(Do(r, w, Poll))
  {
    hide After, Emitted, Reader.Kept, Batch, Finish;
  }

  /** What one more finished turn adds. */
  lemma OneMoreTurn<E>(r: Reader<E>, history: seq<Turn>, at: nat)
    requires at < |history|
    ensures FinishedAll(r, history[..at + 1]) == FinishedAll(r, history[..at]) + Finished(r, history[at])
  {
    assert history[..at + 1][..at] == history[..at];
  }

  /** A poll that moves on to the last turn, what it first emits being what is left of those before it. */
  lemma PollLastTurn<E>(r: Reader<E>, w: World<E>, before: seq<E>, ending: seq<RawLine>)
    requires Inv(r, w, before) && w.disk.live.Some? && w.at + 1 < |w.history|
    requires Resumed(w.follower, w.disk.live.value) == (0, Fresh)
    requires NextLines(r, w.follower, w.disk) ==
             ending + Emitted(Fresh, Batch(r, w.follower, w.disk.live.value), r.maxLine)
    requires FinishedAll(r, w.history[..|w.history| - 1]) == Promised(r, w) + r.Kept(ending)
    ensures Inv(r, Do(r, w, Poll), before)
  {
    hide After, Emitted, FinishedAll, Finished, Reader.Kept, Reader.KeptComplete, Batch, IdsKnown, NextLines, Resumed,
         Kept;
    var live := w.disk.live.value;
    var batch := Batch(r, w.follower, live);
    BatchReads(r, w.follower, live);
    FreshStart(r);
    assert live.data[..0] == [];
    ReadOn(r, live.data, 0, |batch|);
    PollIds(r, w);
    LastTurnKept(r, w, before, ending);
  }

  lemma LastTurnKept<E>(r: Reader<E>, w: World<E>, before: seq<E>, ending: seq<RawLine>)
    requires r.Valid() && Kept(r, w, before) && w.disk.live.Some? && w.history != []
    requires Last(w.history).data == w.disk.live.value.data
    requires Resumed(w.follower, w.disk.live.value) == (0, Fresh)
    requires NextLines(r, w.follower, w.disk) ==
             ending + Emitted(Fresh, Batch(r, w.follower, w.disk.live.value), r.maxLine)
    requires FinishedAll(r, w.history[..|w.history| - 1]) == Promised(r, w) + r.Kept(ending)
    ensures Kept(r, Do(r, w, Poll), before)
  {
    hide After, Emitted, FinishedAll, Finished, Reader.Kept, Reader.KeptComplete, Batch, NextLines, Resumed;
    var live := w.disk.live.value;
    var f := w.follower;
    var batch := Batch(r, f, live);
    BatchReads(r, f, live);
    FreshStart(r);
    assert live.data[..0] == [];
    ReadOn(r, live.data, 0, |batch|);
    KeptConcat(r, ending, Emitted(Fresh, batch, r.maxLine));
    SumsUp(r, w, before, ending, batch);
  }

  lemma SumsUp<E>(r: Reader<E>, w: World<E>, before: seq<E>, ending: seq<RawLine>, batch: seq<byte>)
    requires Kept(r, w, before) && w.disk.live.Some? && w.history != []
    requires batch == Batch(r, w.follower, w.disk.live.value) && Resumed(w.follower, w.disk.live.value) == (0, Fresh)
    requires |batch| <= |w.disk.live.value.data| && batch == w.disk.live.value.data[..|batch|]
    requires Last(w.history).data == w.disk.live.value.data
    requires FinishedAll(r, w.history[..|w.history| - 1]) == Promised(r, w) + r.Kept(ending)
    requires r.Kept(NextLines(r, w.follower, w.disk)) == r.Kept(ending) + r.KeptComplete(batch)
    ensures Kept(r, Do(r, w, Poll), before)
  {
    hide After, Emitted, FinishedAll, Finished, Reader.Kept, Reader.KeptComplete, Batch, NextLines, Resumed;
    var live := w.disk.live.value;
    var f := w.follower;
    var v := Do(r, w, Poll);
    assert Take(live.data, |batch|) == live.data[..|batch|];
    var gone, was, read := FinishedAll(r, w.history[..|w.history| - 1]), Promised(r, w), r.KeptComplete(batch);
    assert Promised(r, v) == gone + read;
    assert before + v.out == (before + w.out) + r.Kept(NextLines(r, f, w.disk));
    assert was + (r.Kept(ending) + read) == (was + r.Kept(ending)) + read;
  }

  /** Turns with nothing to give add nothing. */
  lemma {:induction false} SilentAdds<E>(r: Reader<E>, history: seq<Turn>, a: nat, b: nat)
    requires a <= b <= |history| && AllSilent(history[a..b])
    ensures FinishedAll(r, history[..b]) == FinishedAll(r, history[..a])
    decreases b - a
  {
    hide Reader.KeptComplete, Reader.KeptAll, FinishedAll;
    if a < b {
      assert history[a..b - 1] == history[a..b][..b - 1 - a];
      SilentAdds(r, history, a, b - 1);
      OneMoreTurn(r, history, b - 1);
      assert history[b - 1] in history[a..b];
      NothingFinished(r, history[b - 1]);
    }
  }

  lemma NothingFinished<E>(r: Reader<E>, t: Turn)
    requires Silent(t)
    ensures Finished(r, t) == []
  {
    FreshStart(r);
    assert Take(t.data, 0) == [];
    assert AllLines([]) == [] by { NoNewline([]); }
  }

  /** A file's turns: it was emptied between one and the next, with nothing of the later ones read yet. */
  lemma {:induction false} TurnsOfFile<E>(w: World<E>, at: nat)
    requires Consistent(w) && at < |w.history|
    ensures var j := LastOf(w.history, at);
            && w.history[j].id == w.history[at].id && !w.history[j].ending.EmptiedAfter?
            && forall k :: at <= k < j ==> w.history[k].ending.EmptiedAfter?
    decreases |w.history| - at
  {
    if at + 1 < |w.history| && w.history[at].ending.EmptiedAfter? {
      TurnsOfFile(w, at + 1);
    }
  }

  /** What the turns of the file being read come to, down to its last. */
  lemma FileTurns<E>(r: Reader<E>, w: World<E>, before: seq<E>)
    requires Inv(r, w, before) && w.at < |w.history|
    ensures var j := LastOf(w.history, w.at);
            && (j > w.at ==> FinishedAll(r, w.history[..j]) == Promised(r, w))
            && (j > w.at ==> FinishedAll(r, w.history[..j + 1]) == Promised(r, w) + Finished(r, w.history[j]))
            && (j == w.at ==>
                  FinishedAll(r, w.history[..j + 1]) == FinishedAll(r, w.history[..w.at]) + Finished(r, w.history[j]))
  {
    hide Reader.KeptComplete, Reader.KeptAll, FinishedAll, IdsKnown, Reading, Kept, LastOf;
    var j := LastOf(w.history, w.at);
    TurnsOfFile(w, w.at);
    OneMoreTurn(r, w.history, j);
    if j > w.at {
      OneMoreTurn(r, w.history, w.at);
      forall t | t in w.history[w.at + 1..j]
        ensures Silent(t)
      {
        var k :| 0 <= k < j - w.at - 1 && w.history[w.at + 1..j][k] == t;
        assert t == w.history[w.at + 1 + k];
      }
      SilentAdds(r, w.history, w.at + 1, j);
    }
  }

  lemma PollFirstFile<E>(r: Reader<E>, w: World<E>, before: seq<E>)
    requires Inv(r, w, before) && Followable(r, w) && w.disk.live.Some? && w.at + 1 < |w.history|
    requires w.follower.id.None?
    ensures Inv(r, Do(r, w, Poll), before)
  {
    hide After, Emitted, FinishedAll, Reader.KeptComplete, Reader.KeptAll, Batch, IdsKnown, Flushed, Promised, LastOf;
    SilentAdds(r, w.history, 0, |w.history| - 1);
    NothingRead(r, w);
    assert w.history[..0] == [];
    NoTurns(r);
    assert [] + Emitted(Fresh, Batch(r, w.follower, w.disk.live.value), r.maxLine) ==
           Emitted(Fresh, Batch(r, w.follower, w.disk.live.value), r.maxLine);
    KeptNothing(r);
    PollLastTurn(r, w, before, []);
  }

  lemma PollAfterEmptying<E>(r: Reader<E>, w: World<E>, before: seq<E>)
    requires Inv(r, w, before) && Followable(r, w) && w.disk.live.Some? && w.at + 1 < |w.history|
    requires w.follower.id.Some? && LastOf(w.history, w.at) == |w.history| - 1
    ensures Inv(r, Do(r, w, Poll), before)
  {
    hide After, Emitted, FinishedAll, Reader.KeptComplete, Reader.KeptAll, Batch, IdsKnown, Flushed, Promised, LastOf;
    TurnsOfFile(w, w.at);
    FileTurns(r, w, before);
    if w.follower.offset == 0 {
      assert w.history[w.at].data[..0] == [];
      FreshStart(r);
    }
    KeptNothing(r);
    assert [] + Emitted(Fresh, Batch(r, w.follower, w.disk.live.value), r.maxLine) ==
           Emitted(Fresh, Batch(r, w.follower, w.disk.live.value), r.maxLine);
    PollLastTurn(r, w, before, []);
  }

  lemma PollAfterRotation<E>(r: Reader<E>, w: World<E>, before: seq<E>)
    requires Inv(r, w, before) && Followable(r, w) && w.disk.live.Some? && w.at + 1 < |w.history|
    requires w.follower.id.Some? && LastOf(w.history, w.at) < |w.history| - 1
    ensures Inv(r, Do(r, w, Poll), before)
  {
    hide After, Emitted, FinishedAll, Finished, Reader.Kept, Reader.KeptComplete, Reader.KeptAll, Batch, IdsKnown,
         Flushed, Promised, Finish, LastOf, RestReadable, Rest;
    var j := LastOf(w.history, w.at);
    TurnsOfFile(w, w.at);
    FileTurns(r, w, before);
    SilentAdds(r, w.history, j + 1, |w.history| - 1);
    FinishesFile(r, w, before);
    PollLastTurn(r, w, before, Finish(r, w.follower, w.disk.backups));
  }

  /** What is left of the file that was being read, and was renamed, comes out when it can be read. */
  lemma FinishesFile<E>(r: Reader<E>, w: World<E>, before: seq<E>)
    requires Inv(r, w, before) && Followable(r, w) && w.disk.live.Some? && w.at + 1 < |w.history|
    requires w.follower.id.Some? && LastOf(w.history, w.at) < |w.history| - 1
    ensures FinishedAll(r, w.history[..LastOf(w.history, w.at) + 1]) ==
            Promised(r, w) + r.Kept(Finish(r, w.follower, w.disk.backups))
  {
    hide After, Emitted, FinishedAll, Reader.Kept, Reader.KeptComplete, Reader.KeptAll, Batch, IdsKnown, Flushed,
         Finish, LastOf, RestReadable, Rest;
    var j, f := LastOf(w.history, w.at), w.follower;
    var turn, read := w.history[j], Take(w.history[w.at].data, f.offset);
    TurnsOfFile(w, w.at);
    FileTurns(r, w, before);
    FreshStart(r);
    assert read == w.history[w.at].data[..f.offset];
    if j == w.at {
      FinishesRest(r, w, turn);
      var all := FinishedAll(r, w.history[..w.at]);
      assert Finished(r, turn) == r.KeptAll(turn.data);
      assert all + (r.KeptComplete(read) + r.Kept(Finish(r, f, w.disk.backups))) ==
             (all + r.KeptComplete(read)) + r.Kept(Finish(r, f, w.disk.backups));
    } else if f.offset == 0 {
      assert w.history[w.at].data[..0] == [] && turn.data[..0] == [] && read == [];
      FinishesRest(r, w, turn);
    } else {
      NothingToFinish(r, w, turn, read);
    }
  }

  lemma FinishesRest<E>(r: Reader<E>, w: World<E>, turn: Turn)
    requires r.Valid() && Consistent(w) && RestReadable(r, w, turn) && turn in w.history && turn.ending.RotatedAway?
    requires w.follower.id == Some(turn.id) && w.follower.offset <= |turn.data|
    requires w.follower.split == After(Fresh, turn.data[..w.follower.offset], r.maxLine)
    ensures r.KeptComplete(turn.data[..w.follower.offset]) + r.Kept(Finish(r, w.follower, w.disk.backups)) ==
            r.KeptAll(turn.data)
  {
    hide After, Emitted, Reader.Kept, Reader.KeptComplete, Reader.KeptAll, Flushed;
    var f := w.follower;
    var copy := Renamed(w.disk.backups, turn.id);
    if copy.Some? {
      RenamedIsListed(w.disk.backups, turn.id);
    }
    if |turn.data| <= f.offset || (copy.Some? && |turn.data| - f.offset <= r.maxScan) {
      assert Unread(r, f, w.disk.backups) == turn.data[f.offset..];
      ReadToEnd(r, turn.data, f.offset);
    } else {
      assert copy.None?;
      LastByteIsLost(r, turn.data, f.offset);
    }
  }

  lemma {:induction false} RenamedIsListed(backups: seq<LogFile>, id: nat)
    ensures Renamed(backups, id).Some? <==> exists b :: b in backups && b.id == id
    ensures Renamed(backups, id).Some? ==> Renamed(backups, id).value in backups && Renamed(backups, id).value.id == id
  {
    if backups != [] {
      RenamedIsListed(backups[1..], id);
    }
  }

  /** The last byte of a line that is already longer than is kept makes no difference, nor does the end of that line. */
  lemma LastByteIsLost<E>(r: Reader<E>, data: seq<byte>, from: nat)
    requires r.Valid() && |data| == from + 1 && After(Fresh, data[..from], r.maxLine).over
    ensures var st := After(Fresh, data[..from], r.maxLine);
            r.KeptComplete(data[..from]) + r.Kept(Emitted(st, [], r.maxLine) + Flushed(After(st, [], r.maxLine))) ==
            r.KeptAll(data)
  {
    hide Complete, Rest, Reader.Kept, After, Emitted;
    var a, b := data[..from], data[from..];
    var st, p := After(Fresh, a, r.maxLine), Rest(a);
    RunNothing(st, r.maxLine);
    RunIsLines(a, r.maxLine);
    assert data == a + b && b == [data[from]];
    LinesConcat(a, b);
    LineThenByte(p, data[from]);
    var lines := Complete(a);
    var last := if data[from] == LF then p else p + b;
    assert Take(last, r.maxLine) == Take(p, r.maxLine);
    assert Cut(last, r.maxLine) == Cut(p, r.maxLine);
    assert AllLines(data) == lines + [last];
    CutAllConcat(lines, [last], r.maxLine);
    assert CutAll([last], r.maxLine) == [Cut(last, r.maxLine)];
    KeptConcat(r, CutAll(lines, r.maxLine), [Cut(last, r.maxLine)]);
    assert [] + Flushed(st) == [Cut(p, r.maxLine)];
  }

  lemma LineThenByte(p: seq<byte>, c: byte)
    requires LF !in p
    ensures c == LF ==> Complete(p + [c]) == [p] && Rest(p + [c]) == []
    ensures c != LF ==> Complete(p + [c]) == [] && Rest(p + [c]) == p + [c]
  {
    var t := p + [c];
    if c == LF {
      IndexOfConcat(p, [c], LF);
      assert t[..|p|] == p && t[|p| + 1..] == [];
    } else {
      NoNewline(t);
    }
  }

  lemma NothingToFinish<E>(r: Reader<E>, w: World<E>, turn: Turn, read: seq<byte>)
    requires r.Valid() && Consistent(w) && turn in w.history && turn.ending.RotatedAway? && turn.data == []
    requires w.follower.id == Some(turn.id) && w.follower.split == After(Fresh, read, r.maxLine) && Rest(read) == []
    ensures Finished(r, turn) == [] && r.Kept(Finish(r, w.follower, w.disk.backups)) == []
  {
    hide Rest, After, Emitted;
    NothingFinished(r, turn);
    RunIsLines(read, r.maxLine);
    RenamedIsListed(w.disk.backups, turn.id);
    assert Unread(r, w.follower, w.disk.backups) == [];
    RunNothing(w.follower.split, r.maxLine);
    KeptNothing(r);
  }

  lemma PollKeeps<E>(r: Reader<E>, w: World<E>, before: seq<E>)
    requires Inv(r, w, before) && Followable(r, w)
    ensures Inv(r, Do(r, w, Poll), before)
  {
    hide After, Emitted, FinishedAll, Finished, Reader.KeptComplete, Reader.KeptAll, Batch, IdsKnown, Promised, LastOf,
         Followable;
    if w.disk.live.None? {
      PollNoFile(r, w, before);
    } else if w.at + 1 >= |w.history| {
      PollSame(r, w, before);
    } else if w.follower.id.None? {
      PollFirstFile(r, w, before);
    } else if LastOf(w.history, w.at) == |w.history| - 1 {
      PollAfterEmptying(r, w, before);
    } else {
      PollAfterRotation(r, w, before);
    }
  }

  lemma PollNoFile<E>(r: Reader<E>, w: World<E>, before: seq<E>)
    requires Inv(r, w, before) && w.disk.live.None?
    ensures Do(r, w, Poll) == w
  {
    assert w.out + [] == w.out;
  }

  // ---------- whole runs ----------

  lemma StepKeeps<E>(r: Reader<E>, w: World<E>, before: seq<E>, e: Event)
    requires Inv(r, w, before) && Possible(w, e) && (e.Poll? ==> Followable(r, w))
    ensures Inv(r, Do(r, w, e), before)
  {
    match e
    case Write(bytes) => WriteKeeps(r, w, before, bytes);
    case Rotate => RotateKeeps(r, w, before);
    case Empty => EmptyKeeps(r, w, before);
    case Prune(left) => PruneKeeps(r, w, before, left);
    case Poll => PollKeeps(r, w, before);
  }

  lemma {:induction false} RunKeeps<E>(r: Reader<E>, w: World<E>, before: seq<E>, es: seq<Event>)
    requires Inv(r, w, before) && Legal(r, w, es)
    ensures Inv(r, RunAll(r, w, es), before)
    decreases |es|
  {
    hide IdsKnown, Reading, Kept, Followable, Do;
    if es != [] {
      StepKeeps(r, w, before, es[0]);
      RunKeeps(r, Do(r, w, es[0]), before, es[1..]);
    }
  }

  /** A log as a Tail that will follow it leaves it. */
  function AfterTail<E>(r: Reader<E>, disk: Disk, nextId: nat, n: nat): World<E>
    requires disk.live.Some?
  {
    var file := disk.live.value;
    World([Turn(file.id, file.data, Open)], disk, nextId,
          Following(Some(file.id), |file.data|, LeftOver(r, file.data, |file.data|, n, false)), 0, [])
  }

  /** A path with no log at it yet, as Follow leaves it. */
  function BeforeAnyLog<E>(): World<E> {
    World([], Disk(None, []), 0, Following(None, 0, Fresh), 0, [])
  }

  /** Ids on the disk are the files' own. */
  ghost predicate IdsDistinct(disk: Disk, nextId: nat) {
    && (forall b :: b in disk.backups ==> b.id < nextId)
    && (disk.live.Some? ==> disk.live.value.id < nextId)
    && (forall b :: b in disk.backups && disk.live.Some? ==> b.id != disk.live.value.id)
  }

  lemma TailBegins<E>(r: Reader<E>, disk: Disk, nextId: nat, n: nat)
    requires r.Valid() && disk.live.Some? && IdsDistinct(disk, nextId)
    requires Faithful(r, disk.live.value.data, |disk.live.value.data|, n)
    ensures Inv(r, AfterTail(r, disk, nextId, n), r.KeptComplete(disk.live.value.data))
  {
    hide After, LeftOver, Faithful, Reader.KeptComplete;
    var data := disk.live.value.data;
    assert data[..|data|] == data;
    LeftOverFaithful(r, data, |data|, n);
    NoTurns(r);
    var w := AfterTail(r, disk, nextId, n);
    assert w.history[..0] == [];
    assert Take(data, |data|) == data;
    assert r.KeptComplete(data) + [] == r.KeptComplete(data);
  }

  /**
   Every line once, whole and in order. For every run, what Tail returned followed by what every poll returned is
   the end of one list: the kept lines of the newest copy, then of each file that has been at the path since,
   then those read of the file there now. Nothing in the list after where Tail began is missing or repeated.
   */
  lemma FollowedFromTail<E>(r: Reader<E>, disk: Disk, nextId: nat, n: nat, es: seq<Event>)
    requires r.Valid() && disk.live.Some? && IdsDistinct(disk, nextId)
    requires Faithful(r, disk.live.value.data, |disk.live.value.data|, n)
    requires Legal(r, AfterTail(r, disk, nextId, n), es)
    ensures var older := if disk.backups == [] then [] else r.KeptAll(disk.backups[0].data);
            var w := RunAll(r, AfterTail(r, disk, nextId, n), es);
            IsSuffix(Tailed(r, disk, n, true) + w.out, older + Promised(r, w))
  {
    hide LeftOver, Faithful, Reader.KeptComplete, Reader.KeptAll, Tailed, Promised, IsSuffix, Legal, RunAll, AfterTail,
         IdsKnown, Reading;
    var older := if disk.backups == [] then [] else r.KeptAll(disk.backups[0].data);
    var data := disk.live.value.data;
    TailBegins(r, disk, nextId, n);
    RunKeeps(r, AfterTail(r, disk, nextId, n), r.KeptComplete(data), es);
    var w := RunAll(r, AfterTail(r, disk, nextId, n), es);
    TailHidesNoGap(r, disk, n, true);
    SuffixAppend(Tailed(r, disk, n, true), older + r.KeptComplete(data), w.out);
    assert older + r.KeptComplete(data) + w.out == older + Promised(r, w);
  }

  /** From a path with no log, the polls return everything from the first line of the first file. */
  lemma FollowedFromNothing<E>(r: Reader<E>, es: seq<Event>)
    requires r.Valid() && Legal(r, BeforeAnyLog(), es)
    ensures var w := RunAll(r, BeforeAnyLog(), es);
            w.out == Promised(r, w)
  {
    var w: World<E> := BeforeAnyLog();
    assert [] + w.out == Promised(r, w);
    assert Inv(r, w, []);
    RunKeeps(r, w, [], es);
    var v := RunAll(r, w, es);
    assert [] + v.out == v.out;
  }

  /** How many polls of an undisturbed file are enough. */
  function PollsToCatchUp<E>(r: Reader<E>, left: nat): nat
    requires r.Valid()
  {
    if left == 0 then 0 else 1 + PollsToCatchUp(r, if left > r.maxBatch then left - r.maxBatch else 0)
  }

  function Polls(k: nat): seq<Event> {
    if k == 0 then [] else [Poll] + Polls(k - 1)
  }

  /**
   However much is read at a time, nothing is left behind: while the log is not disturbed, polling it reads it to
   its end, and every line it then holds has come out.
   */
  lemma {:induction false} PollsCatchUp<E>(r: Reader<E>, w: World<E>, before: seq<E>, k: nat)
    requires Inv(r, w, before) && w.disk.live.Some? && w.at + 1 == |w.history|
    requires k == PollsToCatchUp(r, |w.disk.live.value.data| - w.follower.offset)
    ensures Legal(r, w, Polls(k))
    ensures var v := RunAll(r, w, Polls(k));
            && v.follower.offset == |w.disk.live.value.data|
            && v.history == w.history
            && before + v.out == FinishedAll(r, w.history[..w.at]) + r.KeptComplete(w.disk.live.value.data)
    decreases k
  {
    hide After, Emitted, FinishedAll, Reader.Kept, Reader.KeptComplete, NextLines;
    var live := w.disk.live.value;
    if k == 0 {
      assert Take(live.data, w.follower.offset) == live.data;
    } else {
      BatchReads(r, w.follower, live);
      PollKeeps(r, w, before);
      var v := Do(r, w, Poll);
      assert Polls(k)[0] == Poll && Polls(k)[1..] == Polls(k - 1);
      PollsCatchUp(r, v, before, k - 1);
    }
  }
}
