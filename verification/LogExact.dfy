/**
 Exactly when a Follower can keep its promise (daemon/logfile/tail.go): where a poll is not one the runs allow, there is
 something written that it cannot have read, and whatever it returns is wrong for some of what that may be.
 */
module LogExact {
  import opened Bytes
  import opened LogLines
  import opened LogSplitter
  import opened LogTail
  import opened LogTailFacts
  import opened LogFollow
  import opened LogRuns

  // ---------- bytes that make a difference ----------

  const Letter: byte := 65

  /** A reader that keeps every line, and gives different entries for different lines. */
  ghost predicate TellsApart<E(!new)>(r: Reader<E>) {
    r.keep.None? && forall a, b :: r.parse(a) == r.parse(b) ==> a == b
  }

  lemma {:induction false} KeptApart<E(!new)>(r: Reader<E>, a: seq<RawLine>, b: seq<RawLine>)
    requires TellsApart(r) && r.Kept(a) == r.Kept(b)
    ensures a == b
    decreases |a|
  {
    KeepsEverything(r, a);
    KeepsEverything(r, b);
    if a != [] {
      assert r.Kept(a)[0] == r.parse(a[0]) && r.Kept(b)[0] == r.parse(b[0]);
      assert r.Kept(a)[1..] == r.Kept(a[1..]) && r.Kept(b)[1..] == r.Kept(b[1..]);
      KeptApart(r, a[1..], b[1..]);
    }
  }

  function Fill(n: nat, b: byte): (r: seq<byte>)
    ensures |r| == n && forall i :: 0 <= i < n ==> r[i] == b
  {
    seq(n, i => b)
  }

  lemma {:induction false} FillCount(n: nat, b: byte)
    ensures CountLF(Fill(n, b)) == if b == LF then n else 0
    decreases n
  {
    if n > 0 {
      assert Fill(n, b)[..n - 1] == Fill(n - 1, b);
      FillCount(n - 1, b);
    }
  }

  lemma FillConcat(pre: seq<byte>, n: nat, b: byte, post: seq<byte>)
    ensures CountLF(pre + Fill(n, b) + post) == CountLF(pre) + (if b == LF then n else 0) + CountLF(post)
  {
    FillCount(n, b);
    CountConcat(pre, Fill(n, b));
    CountConcat(pre + Fill(n, b), post);
  }

  /** Newlines in place of letters make other complete lines. */
  lemma CompleteDiffers<E(!new)>(r: Reader<E>, pre: seq<byte>, n: nat, post: seq<byte>)
    requires TellsApart(r) && n > 0
    ensures r.KeptComplete(pre + Fill(n, LF) + post) != r.KeptComplete(pre + Fill(n, Letter) + post)
  {
    hide CountLF, Complete, Reader.Kept;
    var x, y := pre + Fill(n, LF) + post, pre + Fill(n, Letter) + post;
    FillConcat(pre, n, LF, post);
    FillConcat(pre, n, Letter, post);
    CountIsComplete(x);
    CountIsComplete(y);
    KeepsEverything(r, CutAll(Complete(x), r.maxLine));
    KeepsEverything(r, CutAll(Complete(y), r.maxLine));
  }

  /** And other lines, unless they are the one byte at the end of a line that is already longer than is kept. */
  lemma AllDiffers<E(!new)>(r: Reader<E>, pre: seq<byte>, n: nat, post: seq<byte>)
    requires r.Valid() && TellsApart(r) && n > 0
    requires !(n == 1 && post == [] && |Rest(pre)| > r.maxLine)
    ensures r.KeptAll(pre + Fill(n, LF) + post) != r.KeptAll(pre + Fill(n, Letter) + post)
  {
    hide CountLF, Complete, Rest, Reader.Kept;
    var x, y := pre + Fill(n, LF) + post, pre + Fill(n, Letter) + post;
    FillConcat(pre, n, LF, post);
    FillConcat(pre, n, Letter, post);
    CountIsComplete(x);
    CountIsComplete(y);
    BoundaryIff(x);
    BoundaryIff(y);
    KeepsEverything(r, CutAll(AllLines(x), r.maxLine));
    KeepsEverything(r, CutAll(AllLines(y), r.maxLine));
    if n == 1 && post == [] {
      LastByteDiffers(r, pre);
      assert Fill(1, LF) == [LF] && Fill(1, Letter) == [Letter];
      assert x == pre + [LF] && y == pre + [Letter];
    }
  }

  lemma LastByteDiffers<E(!new)>(r: Reader<E>, pre: seq<byte>)
    requires r.Valid() && TellsApart(r) && |Rest(pre)| <= r.maxLine
    ensures r.KeptAll(pre + [LF]) != r.KeptAll(pre + [Letter])
  {
    hide Complete, Rest, Reader.Kept;
    var p, lines := Rest(pre), Complete(pre);
    LinesConcat(pre, [LF]);
    LinesConcat(pre, [Letter]);
    LineThenByte(p, LF);
    LineThenByte(p, Letter);
    assert AllLines(pre + [LF]) == lines + [p] && AllLines(pre + [Letter]) == lines + [p + [Letter]];
    CutAllConcat(lines, [p], r.maxLine);
    CutAllConcat(lines, [p + [Letter]], r.maxLine);
    var a, b := Cut(p, r.maxLine), Cut(p + [Letter], r.maxLine);
    assert a != b;
    assert CutAll([p], r.maxLine) == [a] && CutAll([p + [Letter]], r.maxLine) == [b];
    if r.KeptAll(pre + [LF]) == r.KeptAll(pre + [Letter]) {
      KeptApart(r, CutAll(lines, r.maxLine) + [a], CutAll(lines, r.maxLine) + [b]);
      LastOfEach(CutAll(lines, r.maxLine), a, b);
    }
  }

  lemma LastOfEach<T>(s: seq<T>, a: T, b: T)
    ensures s + [a] == s + [b] ==> a == b
  {
    assert (s + [a])[|s|] == a && (s + [b])[|s|] == b;
  }

  // ---------- what the Follower cannot tell apart ----------

  predicate SameShape(a: Turn, b: Turn) {
    a.id == b.id && a.ending == b.ending && |a.data| == |b.data|
  }

  /** Two worlds that differ only in bytes the Follower has not read. */
  ghost predicate Alike<E>(w: World<E>, v: World<E>) {
    && v.follower == w.follower && v.at == w.at && v.out == w.out && v.nextId == w.nextId
    && |v.history| == |w.history|
    && (forall i :: 0 <= i < |w.history| ==> SameShape(w.history[i], v.history[i]))
    && (w.at < |w.history| ==>
          && v.history[..w.at] == w.history[..w.at]
          && Take(v.history[w.at].data, w.follower.offset) == Take(w.history[w.at].data, w.follower.offset))
    && v.disk.live.Some? == w.disk.live.Some?
    && |v.disk.backups| == |w.disk.backups|
    && forall i :: 0 <= i < |w.disk.backups| ==> v.disk.backups[i].id == w.disk.backups[i].id
  }

  lemma {:induction false} LastOfAlike(a: seq<Turn>, b: seq<Turn>, at: nat)
    requires |a| == |b| && at < |a| && forall i :: 0 <= i < |a| ==> SameShape(a[i], b[i])
    ensures LastOf(a, at) == LastOf(b, at)
    decreases |a| - at
  {
    if at + 1 < |a| {
      LastOfAlike(a, b, at + 1);
    }
  }

  lemma SilentAlike(a: seq<Turn>, b: seq<Turn>, from: nat, to: nat)
    requires |a| == |b| && from <= to <= |a| && forall i :: 0 <= i < |a| ==> SameShape(a[i], b[i])
    ensures AllSilent(a[from..to]) ==> AllSilent(b[from..to])
  {
    forall t | t in b[from..to]
      ensures AllSilent(a[from..to]) ==> Silent(t)
    {
      var k :| 0 <= k < to - from && b[from..to][k] == t;
      assert a[from..to][k] == a[from + k] && b[from..to][k] == b[from + k];
      assert a[from..to][k] in a[from..to];
    }
  }

  lemma {:induction false} ListedAlike(a: seq<LogFile>, b: seq<LogFile>, id: nat)
    requires |a| == |b| && forall i :: 0 <= i < |a| ==> a[i].id == b[i].id
    ensures Renamed(a, id).Some? == Renamed(b, id).Some?
  {
    if a != [] {
      ListedAlike(a[1..], b[1..], id);
    }
  }

  lemma RestAlike<E>(r: Reader<E>, w: World<E>, v: World<E>, j: nat)
    requires Alike(w, v) && j < |w.history|
    ensures RestReadable(r, w, w.history[j]) == RestReadable(r, v, v.history[j])
  {
    assert SameShape(w.history[j], v.history[j]);
    ListedAlike(w.disk.backups, v.disk.backups, w.history[j].id);
  }

  /** Whether a poll is allowed depends on nothing the Follower has not read. */
  lemma FollowableAlike<E>(r: Reader<E>, w: World<E>, v: World<E>)
    requires Alike(w, v) && (w.disk.live.Some? ==> w.history != []) && Followable(r, w)
    requires w.disk.live.Some? ==> |w.disk.live.value.data| == |v.disk.live.value.data|
    ensures Followable(r, v)
  {
    hide LastOf, AllSilent, Rest, RestReadable;
    if w.disk.live.Some? && w.at + 1 < |w.history| {
      var last := |w.history| - 1;
      LastOfAlike(w.history, v.history, w.at);
      var j := LastOf(w.history, w.at);
      SilentAlike(w.history, v.history, w.at, last);
      if j < last {
        SilentAlike(w.history, v.history, j + 1, last);
      }
      RestAlike(r, w, v, j);
      assert SameShape(w.history[j], v.history[j]);
    }
  }

  lemma SameLength<E>(r: Reader<E>, w: World<E>, v: World<E>, before: seq<E>)
    requires Inv(r, w, before) && Inv(r, v, before) && Alike(w, v) && w.disk.live.Some?
    ensures w.history != [] && |w.disk.live.value.data| == |v.disk.live.value.data|
  {
    hide InOrder, CopiesMatch, Reading, Promised, IdsKnown, EmptiesNoted;
    assert SameShape(w.history[|w.history| - 1], v.history[|w.history| - 1]);
  }

  // ---------- worlds that differ in some bytes ----------

  function Refill(bs: seq<byte>, lo: nat, hi: nat, b: byte): (r: seq<byte>)
    requires lo <= hi <= |bs|
    ensures |r| == |bs|
    ensures forall i :: 0 <= i < |bs| ==> r[i] == if lo <= i < hi then b else bs[i]
  {
    bs[..lo] + Fill(hi - lo, b) + bs[hi..]
  }

  function RefillCopies(backups: seq<LogFile>, id: nat, data: seq<byte>): (r: seq<LogFile>)
    ensures |r| == |backups|
    ensures forall i :: 0 <= i < |r| ==>
              r[i] == if backups[i].id == id then LogFile(id, data) else backups[i]
  {
    seq(|backups|, i requires 0 <= i < |backups| => if backups[i].id == id then LogFile(id, data) else backups[i])
  }

  /** The world if one turn had held other bytes in some place. */
  function Refilled<E>(w: World<E>, x: nat, lo: nat, hi: nat, b: byte): World<E>
    requires x < |w.history| && lo <= hi <= |w.history[x].data|
  {
    var turn := w.history[x];
    var data := Refill(turn.data, lo, hi, b);
    w.(history := w.history[x := turn.(data := data)],
       disk := Disk(
         if w.disk.live.Some? && x == |w.history| - 1 then Some(w.disk.live.value.(data := data)) else w.disk.live,
         if turn.ending.RotatedAway? then RefillCopies(w.disk.backups, turn.id, data) else w.disk.backups))
  }

  /** A turn of which the bytes from lo on have not been read, and that is not an emptied one. */
  ghost predicate Unseen<E>(w: World<E>, x: nat, lo: nat, hi: nat) {
    && w.at <= x < |w.history| && lo <= hi <= |w.history[x].data|
    && (x == w.at ==> w.follower.offset <= lo)
    && !w.history[x].ending.EmptiedAfter?
  }

  lemma RefilledCopies(
    history: seq<Turn>, backups: seq<LogFile>, x: nat, data: seq<byte>, other: seq<Turn>, copies: seq<LogFile>)
    requires InOrder(history) && CopiesMatch(history, backups) && x < |history|
    requires other == history[x := history[x].(data := data)]
    requires copies == if history[x].ending.RotatedAway? then RefillCopies(backups, history[x].id, data) else backups
    ensures CopiesMatch(other, copies)
  {
    hide RefillCopies;
    forall c, t | c in copies && t in other && t.ending.RotatedAway? && t.id == c.id
      ensures t.data == c.data
    {
      var i :| 0 <= i < |copies| && copies[i] == c;
      var k :| 0 <= k < |other| && other[k] == t;
      assert backups[i] in backups && history[k] in history && history[x] in history;
    }
  }

  lemma RefilledConsistent<E>(r: Reader<E>, w: World<E>, x: nat, lo: nat, hi: nat, b: byte)
    requires IdsKnown(w) && Consistent(w) && Unseen(w, x, lo, hi)
    ensures IdsKnown(Refilled(w, x, lo, hi, b)) && Consistent(Refilled(w, x, lo, hi, b))
  {
    hide Refill, RefillCopies, CopiesMatch;
    var v := Refilled(w, x, lo, hi, b);
    RefilledCopies(w.history, w.disk.backups, x, v.history[x].data, v.history, v.disk.backups);
    forall c | c in v.disk.backups
      ensures c.id < v.nextId && (v.disk.live.Some? ==> c.id != v.disk.live.value.id)
    {
      var i :| 0 <= i < |v.disk.backups| && v.disk.backups[i] == c;
      assert w.disk.backups[i] in w.disk.backups;
    }
    forall t | t in v.history
      ensures t.id < v.nextId
    {
      var k :| 0 <= k < |v.history| && v.history[k] == t;
      assert w.history[k] in w.history;
    }
  }

  lemma RefilledAlike<E>(r: Reader<E>, w: World<E>, before: seq<E>, x: nat, lo: nat, hi: nat, b: byte)
    requires Inv(r, w, before) && Unseen(w, x, lo, hi)
    ensures Alike(w, Refilled(w, x, lo, hi, b)) && Inv(r, Refilled(w, x, lo, hi, b), before)
  {
    hide After, FinishedAll, Reader.KeptComplete, Refill, IdsKnown, Consistent;
    var v, n := Refilled(w, x, lo, hi, b), w.follower.offset;
    RefilledConsistent(r, w, x, lo, hi, b);
    assert v.history[..w.at] == w.history[..w.at];
    var old', new' := w.history[w.at].data, v.history[w.at].data;
    assert w.follower.id.None? ==> n == 0;
    assert n <= |old'| && old'[..n] == new'[..n];
    assert Take(old', n) == old'[..n] && Take(new', n) == new'[..n];
  }

  // ---------- what one wrong byte does ----------

  lemma {:induction false} FinishedApart<E>(r: Reader<E>, a: seq<Turn>, b: seq<Turn>, x: nat, n: nat)
    requires |a| == |b| && x < n <= |a| && forall i :: 0 <= i < |a| && i != x ==> a[i] == b[i]
    requires Finished(r, a[x]) != Finished(r, b[x])
    ensures FinishedAll(r, a[..n]) != FinishedAll(r, b[..n])
    decreases n
  {
    hide Finished, FinishedAll;
    OneMoreTurn(r, a, n - 1);
    OneMoreTurn(r, b, n - 1);
    if x < n - 1 {
      FinishedApart(r, a, b, x, n - 1);
      CancelsBehind(FinishedAll(r, a[..n - 1]), FinishedAll(r, b[..n - 1]), Finished(r, a[n - 1]));
    } else {
      assert a[..n - 1] == b[..n - 1];
      CancelsBefore(FinishedAll(r, a[..n - 1]), Finished(r, a[x]), Finished(r, b[x]));
    }
  }

  lemma CancelsBehind<T>(a: seq<T>, b: seq<T>, c: seq<T>)
    ensures a + c == b + c ==> a == b
  {
    if a + c == b + c {
      assert |a| == |b|;
      assert (a + c)[..|a|] == a && (b + c)[..|b|] == b;
    }
  }

  lemma CancelsBefore<T>(a: seq<T>, b: seq<T>, c: seq<T>)
    ensures a + b == a + c ==> b == c
  {
    assert (a + b)[|a|..] == b && (a + c)[|a|..] == c;
  }

  /** What a poll returned and what it was to return, in two worlds that are the same to it. */
  lemma OneIsWrong<E>(r: Reader<E>, u: World<E>, v: World<E>, before: seq<E>)
    requires u.disk.live.Some? && v.disk.live.Some? && u.history != [] && v.history != []
    requires Do(r, u, Poll).out == Do(r, v, Poll).out
    requires Promised(r, Do(r, u, Poll)) != Promised(r, Do(r, v, Poll))
    ensures !(Kept(r, Do(r, u, Poll), before) && Kept(r, Do(r, v, Poll), before))
  {
  }

  /** What a poll promises: every turn before the last, and what it has read of that. */
  lemma PromisedAfter<E>(r: Reader<E>, w: World<E>)
    requires w.disk.live.Some? && w.history != []
    ensures var v := Do(r, w, Poll);
            && v.history == w.history && v.at == |w.history| - 1
            && v.follower == NextFollowing(r, w.follower, w.disk)
            && Promised(r, v) ==
                 FinishedAll(r, w.history[..|w.history| - 1]) +
                 r.KeptComplete(Take(Last(w.history).data, v.follower.offset))
  {
    hide FinishedAll, Reader.KeptComplete, NextLines, Reader.Kept;
  }

  /** Two fillings of a turn before the last that the poll does not look at. */
  lemma EarlierTurnTells<E>(r: Reader<E>, w: World<E>, before: seq<E>, x: nat, lo: nat, hi: nat)
    requires Inv(r, w, before) && Unseen(w, x, lo, hi) && w.disk.live.Some? && x < |w.history| - 1
    requires var u, v := Refilled(w, x, lo, hi, LF), Refilled(w, x, lo, hi, Letter);
             && NextLines(r, u.follower, u.disk) == NextLines(r, v.follower, v.disk)
             && r.KeptAll(u.history[x].data) != r.KeptAll(v.history[x].data)
    ensures var u, v := Refilled(w, x, lo, hi, LF), Refilled(w, x, lo, hi, Letter);
            !(Kept(r, Do(r, u, Poll), before) && Kept(r, Do(r, v, Poll), before))
  {
    hide FinishedAll, Reader.KeptComplete, Reader.KeptAll, NextLines, Reader.Kept, Refill, RefillCopies, Kept, Inv;
    var u, v := Refilled(w, x, lo, hi, LF), Refilled(w, x, lo, hi, Letter);
    PromisedAfter(r, u);
    PromisedAfter(r, v);
    assert u.disk.live == v.disk.live && Last(u.history) == Last(v.history);
    assert Batch(r, u.follower, u.disk.live.value) == Batch(r, v.follower, v.disk.live.value);
    FinishedApart(r, u.history, v.history, x, |u.history| - 1);
    var rest := r.KeptComplete(Take(Last(u.history).data, Do(r, u, Poll).follower.offset));
    CancelsBehind(FinishedAll(r, u.history[..|u.history| - 1]), FinishedAll(r, v.history[..|v.history| - 1]), rest);
    OneIsWrong(r, u, v, before);
  }

  // ---------- each way it can fail ----------

  /** What is refuted: that the poll is right whatever the bytes it has not read. */
  ghost predicate AlwaysRight<E(!new)>(r: Reader<E>, w: World<E>, before: seq<E>) {
    forall v: World<E> :: Alike(w, v) && Inv(r, v, before) ==> Kept(r, Do(r, v, Poll), before)
  }

  lemma NotBoth<E(!new)>(r: Reader<E>, w: World<E>, before: seq<E>, x: nat, lo: nat, hi: nat)
    requires Inv(r, w, before) && Unseen(w, x, lo, hi) && w.disk.live.Some?
    requires var u, v := Refilled(w, x, lo, hi, LF), Refilled(w, x, lo, hi, Letter);
             u.history != [] && !(Kept(r, Do(r, u, Poll), before) && Kept(r, Do(r, v, Poll), before))
    ensures !AlwaysRight(r, w, before)
  {
    hide Inv, Kept, Refilled;
    RefilledAlike(r, w, before, x, lo, hi, LF);
    RefilledAlike(r, w, before, x, lo, hi, Letter);
  }

  /** A file rotated away that was never read. */
  lemma FileNeverRead<E(!new)>(r: Reader<E>, w: World<E>, before: seq<E>, x: nat)
    requires Inv(r, w, before) && TellsApart(r) && w.disk.live.Some? && w.at <= x < |w.history| - 1
    requires w.history[x].ending.RotatedAway? && w.history[x].data != []
    requires w.follower.id.None? || (x > w.at && w.history[x].id != w.follower.id.value)
    ensures !AlwaysRight(r, w, before)
  {
    hide Reader.KeptAll, Reader.Kept, Reader.KeptComplete, FinishedAll, Emitted, After, Flushed;
    var n := |w.history[x].data|;
    var u, v := Refilled(w, x, 0, n, LF), Refilled(w, x, 0, n, Letter);
    WholeTurn(r, w.history[x].data);
    SameLinesElsewhere(r, w, before, x, 0, n, LF);
    SameLinesElsewhere(r, w, before, x, 0, n, Letter);
    EarlierTurnTells(r, w, before, x, 0, n);
    NotBoth(r, w, before, x, 0, n);
  }

  lemma WholeTurn<E(!new)>(r: Reader<E>, data: seq<byte>)
    requires r.Valid() && TellsApart(r) && data != []
    ensures r.KeptAll(Refill(data, 0, |data|, LF)) != r.KeptAll(Refill(data, 0, |data|, Letter))
  {
    NoNewline([]);
    AllDiffers(r, [], |data|, []);
    assert data[..0] == [] && data[|data|..] == [];
  }

  /** A poll looks at no copy but that of the file it was reading. */
  lemma SameLinesElsewhere<E>(r: Reader<E>, w: World<E>, before: seq<E>, x: nat, lo: nat, hi: nat, b: byte)
    requires Inv(r, w, before) && Unseen(w, x, lo, hi) && w.disk.live.Some? && x < |w.history| - 1
    requires w.follower.id.None? || w.history[x].id != w.follower.id.value
    ensures var v := Refilled(w, x, lo, hi, b);
            NextLines(r, v.follower, v.disk) == NextLines(r, w.follower, w.disk)
  {
    hide Emitted, After, Flushed, Refill, Inv;
    if w.follower.id.Some? && w.history[x].ending.RotatedAway? {
      OtherCopiesStay(w.disk.backups, w.history[x].id, Refill(w.history[x].data, lo, hi, b), w.follower.id.value);
    }
  }

  lemma {:induction false} OtherCopiesStay(backups: seq<LogFile>, id: nat, data: seq<byte>, of: nat)
    requires id != of
    ensures Renamed(RefillCopies(backups, id, data), of) == Renamed(backups, of)
    decreases |backups|
  {
    if backups != [] {
      assert RefillCopies(backups, id, data)[1..] == RefillCopies(backups[1..], id, data);
      OtherCopiesStay(backups[1..], id, data, of);
    }
  }

  lemma {:induction false} CopyRefilled(backups: seq<LogFile>, id: nat, data: seq<byte>)
    ensures Renamed(RefillCopies(backups, id, data), id) ==
            if Renamed(backups, id).Some? then Some(LogFile(id, data)) else None
    decreases |backups|
  {
    if backups != [] {
      assert RefillCopies(backups, id, data)[1..] == RefillCopies(backups[1..], id, data);
      CopyRefilled(backups[1..], id, data);
    }
  }

  /** The file emptied in place and grown to where the reading was, or beyond: what it holds before that is not read. */
  lemma GrownBack<E(!new)>(r: Reader<E>, w: World<E>, before: seq<E>)
    requires Inv(r, w, before) && TellsApart(r) && w.disk.live.Some? && w.at < |w.history| - 1
    requires w.follower.id == Some(Last(w.history).id) && 0 < w.follower.offset <= |Last(w.history).data|
    ensures !AlwaysRight(r, w, before)
  {
    hide Reader.KeptAll, Reader.Kept, Reader.KeptComplete, FinishedAll, Emitted, After, Flushed, TellsApart,
         AlwaysRight, Promised, NextLines, NextFollowing, Refill;
    var x, n := |w.history| - 1, w.follower.offset;
    var data := w.history[x].data;
    var u, v := Refilled(w, x, 0, n, LF), Refilled(w, x, 0, n, Letter);
    GrownBackLines(r, w, LF);
    GrownBackLines(r, w, Letter);
    PromisedAfter(r, u);
    PromisedAfter(r, v);
    assert u.history[..x] == w.history[..x] == v.history[..x];
    var to := NextFollowing(r, w.follower, w.disk).offset;
    GrownBackDiffers(r, data, n, to);
    CancelsBefore(FinishedAll(r, w.history[..x]),
                  r.KeptComplete(Take(u.history[x].data, to)), r.KeptComplete(Take(v.history[x].data, to)));
    OneIsWrong(r, u, v, before);
    NotBoth(r, w, before, x, 0, n);
  }

  lemma GrownBackDiffers<E(!new)>(r: Reader<E>, data: seq<byte>, n: nat, to: nat)
    requires TellsApart(r) && 0 < n <= to <= |data|
    ensures r.KeptComplete(Take(Refill(data, 0, n, LF), to)) != r.KeptComplete(Take(Refill(data, 0, n, Letter), to))
  {
    hide Reader.KeptComplete;
    CompleteDiffers(r, [], n, data[n..to]);
    assert Take(Refill(data, 0, n, LF), to) == [] + Fill(n, LF) + data[n..to];
    assert Take(Refill(data, 0, n, Letter), to) == [] + Fill(n, Letter) + data[n..to];
  }

  lemma SameBatch<E>(r: Reader<E>, f: Following, a: LogFile, b: LogFile)
    requires f.id == Some(a.id) && a.id == b.id && |a.data| == |b.data| && f.offset <= |a.data|
    requires forall i :: f.offset <= i < |a.data| ==> a.data[i] == b.data[i]
    ensures CaseOf(f, a).Same? && CaseOf(f, b).Same?
    ensures Batch(r, f, a) == Batch(r, f, b)
    ensures f.offset + |Batch(r, f, a)| <= |a.data|
  {
    var to := Min(|a.data|, f.offset + r.maxBatch);
    assert f.offset < to ==> a.data[f.offset..to] == b.data[f.offset..to];
  }

  lemma GrownBackLines<E>(r: Reader<E>, w: World<E>, b: byte)
    requires w.history != [] && w.disk.live == Some(LogFile(Last(w.history).id, Last(w.history).data))
    requires w.follower.id == Some(Last(w.history).id) && 0 < w.follower.offset <= |Last(w.history).data|
    ensures var v := Refilled(w, |w.history| - 1, 0, w.follower.offset, b);
            && NextLines(r, v.follower, v.disk) == NextLines(r, w.follower, w.disk)
            && NextFollowing(r, v.follower, v.disk) == NextFollowing(r, w.follower, w.disk)
            && w.follower.offset <= NextFollowing(r, w.follower, w.disk).offset <= |Last(w.history).data|
  {
    hide Emitted, After, Flushed, Batch, Refill, RefillCopies;
    var f := w.follower;
    var v := Refilled(w, |w.history| - 1, 0, f.offset, b);
    SameBatch(r, f, w.disk.live.value, v.disk.live.value);
  }

  /** A rest that is not all read: the copy is gone, or there is more than maxScan of it. */
  lemma RestNotRead<E(!new)>(r: Reader<E>, w: World<E>, before: seq<E>, x: nat, lo: nat)
    requires Inv(r, w, before) && TellsApart(r) && w.disk.live.Some? && w.at <= x < |w.history| - 1
    requires w.history[x].ending.RotatedAway? && w.follower.id == Some(w.history[x].id)
    requires w.follower.offset <= lo < |w.history[x].data|
    requires Renamed(w.disk.backups, w.history[x].id).Some? ==> w.follower.offset + r.maxScan <= lo
    requires !(lo + 1 == |w.history[x].data| && |Rest(w.history[x].data[..lo])| > r.maxLine)
    ensures !AlwaysRight(r, w, before)
  {
    hide Reader.KeptAll, Reader.Kept, Reader.KeptComplete, FinishedAll, Emitted, After, Flushed, Rest, NextLines,
         AlwaysRight, RefillCopies, Consistent, IdsKnown, TellsApart;
    var data := w.history[x].data;
    var hi := |data|;
    RestLines(r, w, before, x, lo, hi, LF);
    RestLines(r, w, before, x, lo, hi, Letter);
    AllDiffers(r, data[..lo], hi - lo, []);
    assert data[hi..] == [];
    EarlierTurnTells(r, w, before, x, lo, hi);
    NotBoth(r, w, before, x, lo, hi);
  }

  /** Bytes of the copy that the finishing read does not look at: before where it starts, or behind where it stops. */
  lemma RestLines<E>(r: Reader<E>, w: World<E>, before: seq<E>, x: nat, lo: nat, hi: nat, b: byte)
    requires Inv(r, w, before) && Unseen(w, x, lo, hi) && w.disk.live.Some? && x < |w.history| - 1
    requires w.history[x].ending.RotatedAway? && w.follower.id == Some(w.history[x].id)
    requires Renamed(w.disk.backups, w.history[x].id).Some? ==>
               w.follower.offset + r.maxScan <= lo || hi <= w.follower.offset
    ensures var v := Refilled(w, x, lo, hi, b);
            NextLines(r, v.follower, v.disk) == NextLines(r, w.follower, w.disk)
  {
    hide Emitted, After, Flushed, Unread, InOrder, IdsKnown, Reading, EmptiesNoted, Kept, Refill, RefillCopies,
         Renamed;
    var turn := w.history[x];
    RenamedIsListed(w.disk.backups, turn.id);
    assert turn in w.history;
    SameUnread(r, w.follower, w.disk.backups, turn, lo, hi, b);
  }

  lemma SameUnread<E>(
    r: Reader<E>, f: Following, backups: seq<LogFile>, turn: Turn, lo: nat, hi: nat, b: byte)
    requires lo <= hi <= |turn.data| && f.id == Some(turn.id)
    requires Renamed(backups, turn.id).Some? ==>
               && Renamed(backups, turn.id).value.data == turn.data
               && (f.offset + r.maxScan <= lo || hi <= f.offset)
    ensures Unread(r, f, RefillCopies(backups, turn.id, Refill(turn.data, lo, hi, b))) == Unread(r, f, backups)
  {
    hide Renamed, RefillCopies;
    var data := Refill(turn.data, lo, hi, b);
    CopyRefilled(backups, turn.id, data);
    var to := Min(|turn.data|, f.offset + r.maxScan);
    if Renamed(backups, turn.id).Some? && f.offset < to {
      assert turn.data[f.offset..to] == data[f.offset..to];
    }
  }

  /** The same when the copy is listed: if newlines end what is read of it, the rest is lines of its own. */
  lemma TooMuchRest<E(!new)>(r: Reader<E>, w: World<E>, before: seq<E>, x: nat)
    requires Inv(r, w, before) && TellsApart(r) && w.disk.live.Some? && w.at <= x < |w.history| - 1
    requires w.history[x].ending.RotatedAway? && w.follower.id == Some(w.history[x].id)
    requires w.follower.offset + r.maxScan < |w.history[x].data|
    ensures !AlwaysRight(r, w, before)
  {
    hide Inv, AlwaysRight, Alike, Kept, Rest;
    var lo := w.follower.offset;
    var to := lo + r.maxScan;
    InvIsValid(r, w, before);
    RefilledAlike(r, w, before, x, lo, to, LF);
    var u := Refilled(w, x, lo, to, LF);
    var read := u.history[x].data[..to];
    assert read[|read| - 1] == LF;
    BoundaryIff(read);
    RestNotRead(r, u, before, x, to);
    AlikeOnward(r, w, u, before);
  }

  lemma InvIsValid<E>(r: Reader<E>, w: World<E>, before: seq<E>)
    requires Inv(r, w, before)
    ensures r.Valid()
  {
  }

  lemma AlikeOnward<E(!new)>(r: Reader<E>, w: World<E>, u: World<E>, before: seq<E>)
    requires Alike(w, u) && !AlwaysRight(r, u, before)
    ensures !AlwaysRight(r, w, before)
  {
    hide Inv, Kept;
    var v: World<E> :| Alike(u, v) && Inv(r, v, before) && !Kept(r, Do(r, v, Poll), before);
    AlikeTwice(w, u, v);
  }

  lemma AlikeTwice<E>(w: World<E>, u: World<E>, v: World<E>)
    requires Alike(w, u) && Alike(u, v)
    ensures Alike(w, v)
  {
    forall i | 0 <= i < |w.history|
      ensures SameShape(w.history[i], v.history[i])
    {
      assert SameShape(w.history[i], u.history[i]) && SameShape(u.history[i], v.history[i]);
    }
  }

  /** The file emptied, written again and then renamed: the finishing read starts where the earlier one had got to. */
  lemma FinishedTooFarOn<E(!new)>(r: Reader<E>, w: World<E>, before: seq<E>, x: nat)
    requires Inv(r, w, before) && TellsApart(r) && w.disk.live.Some? && w.at < x < |w.history| - 1
    requires w.history[x].ending.RotatedAway? && w.follower.id == Some(w.history[x].id)
    requires w.follower.offset > 0 && w.history[x].data != []
    ensures !AlwaysRight(r, w, before)
  {
    hide Reader.KeptAll, Reader.Kept, Reader.KeptComplete, FinishedAll, Emitted, After, Flushed, Rest;
    var data := w.history[x].data;
    var n := Min(w.follower.offset, |data|);
    RestLines(r, w, before, x, 0, n, LF);
    RestLines(r, w, before, x, 0, n, Letter);
    NoNewline([]);
    AllDiffers(r, [], n, data[n..]);
    assert data[..0] == [];
    EarlierTurnTells(r, w, before, x, 0, n);
    NotBoth(r, w, before, x, 0, n);
  }

  /** The file emptied and then renamed empty, in the middle of a line: the flush ends a line that nothing ends. */
  lemma LineEndedByNothing<E(!new)>(r: Reader<E>, w: World<E>, before: seq<E>)
    requires Inv(r, w, before) && TellsApart(r) && w.disk.live.Some? && w.at + 1 < |w.history| && w.follower.id.Some?
    requires var j := LastOf(w.history, w.at);
             && w.at < j < |w.history| - 1 && w.history[j].data == []
             && AllSilent(w.history[j + 1..|w.history| - 1])
    requires Rest(Take(w.history[w.at].data, w.follower.offset)) != []
    ensures !Kept(r, Do(r, w, Poll), before)
  {
    hide Reader.KeptAll, Reader.Kept, Reader.KeptComplete, FinishedAll, Emitted, After, Flushed, Rest, LastOf, Batch,
         AllSilent, IdsKnown, Finish, Promised;
    var j, f := LastOf(w.history, w.at), w.follower;
    var live := w.disk.live.value;
    TurnsOfFile(w, w.at);
    FileTurns(r, w, before);
    SilentAdds(r, w.history, j + 1, |w.history| - 1);
    NothingFinished(r, w.history[j]);
    PromisedAfter(r, w);
    OneLineFlushed(r, w, w.history[j]);
    BatchReads(r, f, live);
    assert live.data[..0] == [];
    FreshStart(r);
    ReadOn(r, live.data, 0, |Batch(r, f, live)|);
    KeptConcat(r, Finish(r, f, w.disk.backups), Emitted(Fresh, Batch(r, f, live), r.maxLine));
    assert Take(live.data, |Batch(r, f, live)|) == live.data[..|Batch(r, f, live)|];
  }

  lemma OneLineFlushed<E(!new)>(r: Reader<E>, w: World<E>, turn: Turn)
    requires r.Valid() && TellsApart(r) && Consistent(w) && Reading(r, w) && turn in w.history && turn.data == []
    requires turn.ending.RotatedAway? && w.follower.id == Some(turn.id) && w.at < |w.history|
    requires Rest(Take(w.history[w.at].data, w.follower.offset)) != []
    ensures |r.Kept(Finish(r, w.follower, w.disk.backups))| == 1
  {
    hide Rest, After, Emitted;
    var read := w.history[w.at].data[..w.follower.offset];
    assert Take(w.history[w.at].data, w.follower.offset) == read;
    RunIsLines(read, r.maxLine);
    RenamedIsListed(w.disk.backups, turn.id);
    assert Unread(r, w.follower, w.disk.backups) == [];
    RunNothing(w.follower.split, r.maxLine);
    KeepsEverything(r, Finish(r, w.follower, w.disk.backups));
  }

  // ---------- the theorem ----------

  /** Where a poll is not one the runs allow, it is wrong for some bytes it cannot have read. */
  lemma NotFollowableFails<E(!new)>(r: Reader<E>, w: World<E>, before: seq<E>)
    requires Inv(r, w, before) && TellsApart(r) && !Followable(r, w)
    ensures !AlwaysRight(r, w, before)
  {
    hide AlwaysRight, LastOf, AllSilent, Rest, IdsKnown, After, Kept, TellsApart, RestReadable;
    var last := |w.history| - 1;
    var j := LastOf(w.history, w.at);
    TurnsOfFile(w, w.at);
    if w.follower.id.None? {
      var x := LoudTurn(w.history, w.at, last);
      FileNeverRead(r, w, before, x);
    } else if j == last {
      GrownBack(r, w, before);
    } else if !AllSilent(w.history[j + 1..last]) {
      var x := LoudTurn(w.history, j + 1, last);
      FileNeverRead(r, w, before, x);
    } else if j == w.at || w.follower.offset == 0 {
      RestFails(r, w, before, j);
    } else if w.history[j].data != [] {
      FinishedTooFarOn(r, w, before, j);
    } else {
      LineEndedByNothing(r, w, before);
      ItselfAlike(w);
      WrongItself(r, w, before);
    }
  }

  lemma LoudTurn(history: seq<Turn>, from: nat, to: nat) returns (x: nat)
    requires from <= to <= |history| && !AllSilent(history[from..to])
    ensures from <= x < to && !Silent(history[x])
  {
    var t :| t in history[from..to] && !Silent(t);
    var k :| 0 <= k < to - from && history[from..to][k] == t;
    x := from + k;
  }

  lemma ItselfAlike<E>(w: World<E>)
    ensures Alike(w, w)
  {
  }

  lemma WrongItself<E(!new)>(r: Reader<E>, w: World<E>, before: seq<E>)
    requires Inv(r, w, before) && Alike(w, w) && !Kept(r, Do(r, w, Poll), before)
    ensures !AlwaysRight(r, w, before)
  {
    hide Inv, Kept;
  }

  lemma RestFails<E(!new)>(r: Reader<E>, w: World<E>, before: seq<E>, j: nat)
    requires Inv(r, w, before) && TellsApart(r) && w.disk.live.Some? && w.at <= j < |w.history| - 1
    requires w.history[j].ending.RotatedAway? && w.follower.id == Some(w.history[j].id)
    requires (j == w.at || w.follower.offset == 0) && !RestReadable(r, w, w.history[j])
    ensures !AlwaysRight(r, w, before)
  {
    hide AlwaysRight, Rest, IdsKnown, After, Kept, TellsApart;
    var data, offset := w.history[j].data, w.follower.offset;
    if Renamed(w.disk.backups, w.history[j].id).Some? {
      TooMuchRest(r, w, before, j);
    } else {
      assert w.history[w.at].data[..0] == [] && data[..0] == [];
      RunIsLines(data[..offset], r.maxLine);
      RestNotRead(r, w, before, j, offset);
    }
  }

  /**
   A poll keeps the promise whatever the bytes it has not read may be, if and only if it is one the runs allow: every
   condition of theirs is needed.
   */
  lemma FollowableIff<E(!new)>(r: Reader<E>, w: World<E>, before: seq<E>)
    requires Inv(r, w, before) && TellsApart(r)
    ensures Followable(r, w) <==> AlwaysRight(r, w, before)
  {
    hide Followable, Alike, Kept;
    if Followable(r, w) {
      forall v: World<E> | Alike(w, v) && Inv(r, v, before)
        ensures Kept(r, Do(r, v, Poll), before)
      {
        if w.disk.live.Some? {
          SameLength(r, w, v, before);
        }
        FollowableAlike(r, w, v);
        PollKeeps(r, v, before);
      }
    } else {
      NotFollowableFails(r, w, before);
    }
  }

  // ---------- what it says of some runs ----------

  /**
   A file emptied in place: the next poll is right for sure exactly until it has grown back to where the reading was.
   */
  lemma RegrownIff<E(!new)>(r: Reader<E>, w: World<E>, before: seq<E>, bytes: seq<byte>)
    requires Inv(r, w, before) && TellsApart(r) && w.disk.live.Some? && w.follower.id.Some? && w.at + 1 == |w.history|
    ensures var v := Do(r, Do(r, w, Empty), Write(bytes));
            && v.disk.live.value.data == bytes
            && (AlwaysRight(r, v, before) <==> w.follower.offset == 0 || |bytes| < w.follower.offset)
  {
    hide Inv, AlwaysRight, TellsApart;
    var u := Do(r, w, Empty);
    StepKeeps(r, w, before, Empty);
    StepKeeps(r, u, before, Write(bytes));
    FollowableIff(r, Do(r, u, Write(bytes)), before);
    assert u.disk.live.value.data == [];
    assert [] + bytes == bytes;
    EmptiedOnce(Do(r, u, Write(bytes)).history, w.at);
  }

  lemma EmptiedOnce(history: seq<Turn>, at: nat)
    requires at + 1 < |history| && history[at].ending.EmptiedAfter? && !history[at + 1].ending.EmptiedAfter?
    ensures LastOf(history, at) == at + 1
  {
  }

  /**
   Emptied in place, written again, and then renamed before the next poll: right for sure exactly when nothing was
   written in between and nothing read was in the middle of a line, or nothing had been read at all and the copy is
   within reach.
   */
  lemma EmptiedThenRotatedIff<E(!new)>(r: Reader<E>, w: World<E>, before: seq<E>, middle: seq<byte>, bytes: seq<byte>)
    requires Inv(r, w, before) && TellsApart(r) && w.disk.live.Some? && w.follower.id.Some? && w.at + 1 == |w.history|
    ensures var v := Do(r, Do(r, Do(r, Do(r, w, Empty), Write(middle)), Rotate), Write(bytes));
            AlwaysRight(r, v, before) <==>
              if w.follower.offset == 0 then |middle| <= r.maxScan
              else middle == [] && Rest(Take(Last(w.history).data, w.follower.offset)) == []
  {
    hide Inv, AlwaysRight, TellsApart;
    var u := Do(r, w, Empty);
    var x := Do(r, u, Write(middle));
    var y := Do(r, x, Rotate);
    StepKeeps(r, w, before, Empty);
    StepKeeps(r, u, before, Write(middle));
    StepKeeps(r, x, before, Rotate);
    StepKeeps(r, y, before, Write(bytes));
    var v := Do(r, y, Write(bytes));
    FollowableIff(r, v, before);
    assert u.disk.live.value.data == [];
    assert [] + middle == middle;
    EmptiedOnce(v.history, w.at);
    var turn := v.history[w.at + 1];
    assert turn.data == middle && turn.ending.RotatedAway? && |v.history| == w.at + 3;
    assert v.history[w.at + 2..w.at + 2] == [];
    assert v.disk.backups[0].id == turn.id;
    assert v.history[w.at].data == Last(w.history).data && v.follower == w.follower;
    if w.follower.offset == 0 {
      assert RestReadable(r, v, turn) <==> |middle| <= r.maxScan by { NothingIsOver(r, w, before); }
    }
  }

  lemma NothingIsOver<E>(r: Reader<E>, w: World<E>, before: seq<E>)
    requires Inv(r, w, before) && w.follower.offset == 0 && w.at < |w.history|
    ensures !w.follower.split.over
  {
    assert w.history[w.at].data[..0] == [];
  }
}
