/**
 Reading the end of a log: the backward search for a line's start, the forward feed, the window of the newest
 kept entries, and Tail, which fills a short answer from the newest rotated copy
 (daemon/logfile/tail.go).
 */
module LogTail {
  import opened Bytes
  import opened LogLines
  import opened LogSplitter

  /**
   What a read is made with: how a line becomes an entry, which entries are kept (None keeps every one), and
   the bounds, every one of them a constant of the source and a parameter here.
   */
  datatype Reader<!E> = Reader(
    parse: RawLine -> E,
    keep: Option<E -> bool>,
    maxLine: nat,
    readChunk: nat,
    maxScan: nat,
    maxBatch: nat)
  {
    ghost predicate Valid() {
      maxLine >= 1 && readChunk >= 1 && maxScan >= 1 && maxBatch >= 1
    }

    predicate Keeps(e: E) {
      keep.None? || keep.value(e)
    }

    /** The entries kept of some lines, in order. */
    function Kept(lines: seq<RawLine>): seq<E> {
      if lines == [] then []
      else
        var e := parse(lines[0]);
        (if Keeps(e) then [e] else []) + Kept(lines[1..])
    }

    /** The entries kept of some bytes' complete lines. */
    function KeptComplete(bs: seq<byte>): seq<E> {
      Kept(CutAll(Complete(bs), maxLine))
    }

    /** The same with an unfinished last line counted as a line. */
    function KeptAll(bs: seq<byte>): seq<E> {
      Kept(CutAll(AllLines(bs), maxLine))
    }
  }

  lemma {:induction false} KeptConcat<E>(r: Reader<E>, a: seq<RawLine>, b: seq<RawLine>)
    ensures r.Kept(a + b) == r.Kept(a) + r.Kept(b)
    decreases |a|
  {
    if a == [] {
      assert a + b == b;
    } else {
      assert (a + b)[1..] == a[1..] + b;
      KeptConcat(r, a[1..], b);
    }
  }

  lemma KeptCutConcat<E>(r: Reader<E>, a: seq<seq<byte>>, b: seq<seq<byte>>)
    ensures r.Kept(CutAll(a + b, r.maxLine)) == r.Kept(CutAll(a, r.maxLine)) + r.Kept(CutAll(b, r.maxLine))
  {
    CutAllConcat(a, b, r.maxLine);
    KeptConcat(r, CutAll(a, r.maxLine), CutAll(b, r.maxLine));
  }

  lemma {:induction false} KeepsEverything<E>(r: Reader<E>, lines: seq<RawLine>)
    requires r.keep.None?
    ensures |r.Kept(lines)| == |lines|
    decreases |lines|
  {
    if lines != [] {
      KeepsEverything(r, lines[1..]);
    }
  }

  // ---------- what is chosen ----------

  /** An entry that is wanted: every one, or those the caller's filter takes. */
  predicate Wants<E>(keep: Option<E -> bool>, e: E) {
    match keep
    case None => true
    case Some(takes) => takes(e)
  }

  /** The entries of some lines in their order, namely of exactly the lines whose entry is wanted; at says which. */
  ghost predicate Chosen<E>(r: Reader<E>, lines: seq<RawLine>, at: seq<nat>, entries: seq<E>) {
    && |at| == |entries|
    && (forall i, j :: 0 <= i < j < |at| ==> at[i] < at[j])
    && (forall i :: 0 <= i < |at| ==> at[i] < |lines| && entries[i] == r.parse(lines[at[i]]))
    && (forall k: nat :: k < |lines| ==> (k in at <==> Wants(r.keep, r.parse(lines[k]))))
  }

  lemma {:induction false} KeptAreChosen<E>(r: Reader<E>, lines: seq<RawLine>) returns (at: seq<nat>)
    ensures Chosen(r, lines, at, r.Kept(lines))
    decreases |lines|
  {
    if lines == [] {
      at := [];
    } else {
      var rest := KeptAreChosen(r, lines[1..]);
      at := ChosenNext(r, lines, rest);
    }
  }

  lemma KeptNext<E>(r: Reader<E>, lines: seq<RawLine>)
    requires lines != []
    ensures r.Kept(lines) ==
            (if Wants(r.keep, r.parse(lines[0])) then [r.parse(lines[0])] else []) + r.Kept(lines[1..])
  {
  }

  lemma ChosenNext<E>(r: Reader<E>, lines: seq<RawLine>, rest: seq<nat>) returns (at: seq<nat>)
    requires lines != [] && Chosen(r, lines[1..], rest, r.Kept(lines[1..]))
    ensures Chosen(r, lines, at, r.Kept(lines))
  {
    KeptNext(r, lines);
    hide Reader.Kept, Wants, Chosen;
    var later := seq(|rest|, i requires 0 <= i < |rest| => rest[i] + 1);
    forall k: nat | k < |lines|
      ensures 0 !in later
      ensures k > 0 ==> (k in later <==> Wants(r.keep, r.parse(lines[k])))
    {
      ChosenAt(r, lines, rest, later, k);
    }
    ChosenLater(r, lines, rest, later);
    at := (if Wants(r.keep, r.parse(lines[0])) then [0] else []) + later;
    ChosenAll(r, lines, later, r.Kept(lines[1..]), at, r.Kept(lines));
  }

  lemma ChosenLater<E>(r: Reader<E>, lines: seq<RawLine>, rest: seq<nat>, later: seq<nat>)
    requires lines != [] && Chosen(r, lines[1..], rest, r.Kept(lines[1..]))
    requires |later| == |rest| && forall i :: 0 <= i < |rest| ==> later[i] == rest[i] + 1
    ensures |later| == |r.Kept(lines[1..])| && forall i, j :: 0 <= i < j < |later| ==> later[i] < later[j]
    ensures forall i :: 0 <= i < |later| ==> later[i] < |lines| && r.Kept(lines[1..])[i] == r.parse(lines[later[i]])
  {
    hide Reader.Kept, Wants;
    assert forall i :: 0 <= i < |rest| ==> lines[1..][rest[i]] == lines[rest[i] + 1];
  }

  lemma ChosenAll<E>(
    r: Reader<E>, lines: seq<RawLine>, later: seq<nat>, kept: seq<E>, at: seq<nat>, all: seq<E>)
    requires lines != [] && |later| == |kept| && forall i, j :: 0 <= i < j < |later| ==> later[i] < later[j]
    requires forall i :: 0 <= i < |later| ==> 0 < later[i] < |lines| && kept[i] == r.parse(lines[later[i]])
    requires forall k: nat :: 0 < k < |lines| ==> (k in later <==> Wants(r.keep, r.parse(lines[k])))
    requires var first := Wants(r.keep, r.parse(lines[0]));
             && at == (if first then [0] else []) + later
             && all == (if first then [r.parse(lines[0])] else []) + kept
    ensures Chosen(r, lines, at, all)
  {
    hide Wants;
    assert 0 !in later;
    assert forall k: nat :: k in at <==> k in later || (k == 0 && Wants(r.keep, r.parse(lines[0])));
  }

  lemma ChosenAt<E>(r: Reader<E>, lines: seq<RawLine>, rest: seq<nat>, later: seq<nat>, k: nat)
    requires k < |lines| && Chosen(r, lines[1..], rest, r.Kept(lines[1..]))
    requires |later| == |rest| && forall i :: 0 <= i < |rest| ==> later[i] == rest[i] + 1
    ensures 0 !in later
    ensures k > 0 ==> (k in later <==> Wants(r.keep, r.parse(lines[k])))
  {
    hide Reader.Kept, Wants;
    if k > 0 {
      assert lines[k] == lines[1..][k - 1];
      if k - 1 in rest {
        var i :| 0 <= i < |rest| && rest[i] == k - 1;
        assert later[i] == k;
      }
      if k in later {
        var i :| 0 <= i < |later| && later[i] == k;
        assert rest[i] == k - 1;
      }
    }
  }

  /** An entry comes of some lines if and only if it is wanted and is the entry of one of them. */
  lemma KeptIff<E>(r: Reader<E>, lines: seq<RawLine>, e: E)
    ensures e in r.Kept(lines) <==> Wants(r.keep, e) && exists l :: l in lines && r.parse(l) == e
  {
    hide Reader.Kept;
    var at := KeptAreChosen(r, lines);
    var entries := r.Kept(lines);
    if e in entries {
      var i :| 0 <= i < |entries| && entries[i] == e;
      assert at[i] in at && lines[at[i]] in lines;
    }
    if Wants(r.keep, e) && exists l :: l in lines && r.parse(l) == e {
      var l :| l in lines && r.parse(l) == e;
      var k: nat :| k < |lines| && lines[k] == l;
      assert k in at;
      var i :| 0 <= i < |at| && at[i] == k;
      assert entries[i] == e;
    }
  }

  /** Exactly the entries that are wanted of some lines. */
  ghost predicate AreWanted<E>(r: Reader<E>, lines: seq<RawLine>, entries: seq<E>) {
    && (forall e :: e in entries ==> Wants(r.keep, e) && exists l :: l in lines && r.parse(l) == e)
    && (forall l :: l in lines && Wants(r.keep, r.parse(l)) ==> r.parse(l) in entries)
  }

  lemma KeptAreWanted<E>(r: Reader<E>, lines: seq<RawLine>)
    ensures AreWanted(r, lines, r.Kept(lines))
  {
    hide Reader.Kept, Wants;
    forall e | e in r.Kept(lines)
      ensures Wants(r.keep, e) && exists l :: l in lines && r.parse(l) == e
    {
      KeptIff(r, lines, e);
    }
    forall l | l in lines && Wants(r.keep, r.parse(l))
      ensures r.parse(l) in r.Kept(lines)
    {
      KeptIff(r, lines, r.parse(l));
    }
  }

  // ---------- the backward search ----------

  function CountLF(bs: seq<byte>): nat {
    if bs == [] then 0 else CountLF(bs[..|bs| - 1]) + if bs[|bs| - 1] == LF then 1 else 0
  }

  /** Where the nth newline from the end is, counting from 1. */
  function NewlineFromEnd(bs: seq<byte>, n: nat): (r: Option<nat>)
    requires n >= 1
    ensures r.Some? ==> r.value < |bs| && bs[r.value] == LF
  {
    if bs == [] then None
    else
      var init := bs[..|bs| - 1];
      if bs[|bs| - 1] != LF then NewlineFromEnd(init, n)
      else if n == 1 then Some(|bs| - 1)
      else NewlineFromEnd(init, n - 1)
  }

  /** The bytes less the newline that ends them: it ends the last line, and begins none. */
  function Body(bs: seq<byte>): seq<byte> {
    if |bs| > 0 && bs[|bs| - 1] == LF then bs[..|bs| - 1] else bs
  }

  lemma {:induction false} CountConcat(a: seq<byte>, b: seq<byte>)
    ensures CountLF(a + b) == CountLF(a) + CountLF(b)
    decreases |b|
  {
    if b == [] {
      assert a + b == a;
    } else {
      assert (a + b)[..|a + b| - 1] == a + b[..|b| - 1];
      CountConcat(a, b[..|b| - 1]);
    }
  }

  lemma {:induction false} CountIsComplete(bs: seq<byte>)
    ensures |Complete(bs)| == CountLF(bs)
    decreases |bs|
  {
    hide CountLF;
    var i := IndexOf(bs, LF);
    NoneCounted(bs[..i]);
    if i < |bs| {
      CountIsComplete(bs[i + 1..]);
      assert bs == bs[..i] + ([LF] + bs[i + 1..]);
      CountConcat(bs[..i], [LF] + bs[i + 1..]);
      CountConcat([LF], bs[i + 1..]);
      OneCounted();
    } else {
      assert bs[..i] == bs;
    }
  }

  lemma OneCounted()
    ensures CountLF([LF]) == 1
  {
    assert [LF][..0] == [];
  }

  lemma {:induction false} NoneCounted(bs: seq<byte>)
    requires LF !in bs
    ensures CountLF(bs) == 0
    decreases |bs|
  {
    if bs != [] {
      NoneCounted(bs[..|bs| - 1]);
    }
  }

  /** There is one line more than there are newlines between lines. */
  lemma AllLinesCount(bs: seq<byte>)
    ensures |AllLines(bs)| == if bs == [] then 0 else CountLF(Body(bs)) + 1
  {
    CountIsComplete(bs);
    BoundaryIff(bs);
  }

  lemma {:induction false} NthIsCounted(bs: seq<byte>, n: nat)
    requires n >= 1
    ensures match NewlineFromEnd(bs, n)
            case Some(i) => CountLF(bs[i + 1..]) == n - 1
            case None => CountLF(bs) < n
    decreases |bs|
  {
    if bs != [] {
      var init := bs[..|bs| - 1];
      var m := if bs[|bs| - 1] == LF then n - 1 else n;
      if m == 0 {
        assert bs[|bs|..] == [];
      } else {
        NthIsCounted(init, m);
        var r := NewlineFromEnd(init, m);
        if r.Some? {
          assert bs[r.value + 1..] == init[r.value + 1..] + [bs[|bs| - 1]];
          CountConcat(init[r.value + 1..], [bs[|bs| - 1]]);
        }
      }
    }
  }

  /**
   The newline found begins the last n lines: what precedes it is whole lines, and exactly n lines, the
   unfinished one counted, come after. None found is no more than n lines.
   */
  lemma NthBeginsLastLines(bs: seq<byte>, n: nat)
    requires n >= 1
    ensures match NewlineFromEnd(Body(bs), n)
            case Some(i) =>
              i + 1 < |bs| && Rest(bs[..i + 1]) == [] && |AllLines(bs[i + 1..])| == n
            case None => |AllLines(bs)| <= n
  {
    hide Complete, Rest, CountLF, NewlineFromEnd;
    NthIsCounted(Body(bs), n);
    match NewlineFromEnd(Body(bs), n) {
      case Some(i) =>
        BoundaryIff(bs[..i + 1]);
        AllLinesCount(bs[i + 1..]);
        assert Body(bs[i + 1..]) == Body(bs)[i + 1..];
      case None =>
        AllLinesCount(bs);
    }
  }

  /** Where a search from the end stops. */
  function Floor(size: nat, maxScan: nat): (f: nat)
    ensures f <= size
  {
    if size > maxScan then size - maxScan else 0
  }

  /** Where the last n of the first size bytes' lines begin, and whether that is inside a line. */
  function LinesFrom(data: seq<byte>, size: nat, n: nat, maxScan: nat): (r: (nat, bool))
    requires size <= |data| && n >= 1
    ensures r.0 <= size
  {
    var floor := Floor(size, maxScan);
    match NewlineFromEnd(Body(data[floor..size]), n)
    case Some(i) => (floor + i + 1, false)
    case None => (floor, floor > 0)
  }

  /**
   The backward search, a chunk at a time: where as many lines as are wanted of the first size bytes begin. It fails
   only for a file that is shorter by now than it was.
   */
  method LineStart(data: seq<byte>, size: nat, n: nat, readChunk: nat, maxScan: nat)
    returns (ok: bool, start: nat, cut: bool)
    requires n >= 1 && readChunk >= 1 && maxScan >= 1
    ensures ok <==> size <= |data|
    ensures ok ==> (start, cut) == LinesFrom(data, size, n, maxScan)
  {
    var floor := Floor(size, maxScan);
    var seen: nat := 0;
    var end := size;
    while end > floor
      invariant floor <= end <= size
      invariant end < size ==> size <= |data|
      invariant seen < n
      invariant size <= |data| ==> Searching(data, size, floor, n, end, seen)
      decreases end
    {
      var begin := if end - floor < readChunk then floor else end - readChunk;
      if end > |data| {
        return false, 0, false;
      }
      var found: bool;
      found, seen, start := ScanChunk(data, size, floor, n, begin, end, seen);
      if found {
        return true, start, false;
      }
      end := begin;
    }
    return size <= |data|, floor, floor > 0;
  }

  /** Counts one chunk's newlines backwards; found says the nth is in it. */
  method ScanChunk(data: seq<byte>, size: nat, floor: nat, n: nat, begin: nat, end: nat, before: nat)
    returns (found: bool, seen: nat, start: nat)
    requires floor <= begin <= end <= size <= |data| && before < n
    requires Searching(data, size, floor, n, end, before)
    ensures found ==> start > floor && NewlineFromEnd(Body(data[floor..size]), n) == Some(start - 1 - floor)
    ensures !found ==> seen < n && Searching(data, size, floor, n, begin, seen)
  {
    hide NewlineFromEnd, Body;
    seen, start := before, 0;
    var chunk := data[begin..end];
    var i := |chunk|;
    while i > 0
      invariant 0 <= i <= |chunk|
      invariant seen < n
      invariant Searching(data, size, floor, n, begin + i, seen)
    {
      i := i - 1;
      SearchStep(data, size, floor, n, begin + i + 1, seen);
      if chunk[i] != LF {
        continue;
      }
      if begin + i == size - 1 {
        continue;
      }
      seen := seen + 1;
      if seen == n {
        return true, seen, begin + i + 1;
      }
    }
    return false, seen, 0;
  }

  /** What is left to find, pos bytes of the file being unread and seen newlines counted behind them. */
  ghost predicate Searching(data: seq<byte>, size: nat, floor: nat, n: nat, pos: nat, seen: nat)
    requires floor <= pos <= size <= |data| && seen < n
  {
    if pos == size then seen == 0
    else NewlineFromEnd(Body(data[floor..size]), n) ==
         NewlineFromEnd(data[floor..pos], n - seen)
  }

  lemma SearchStep(data: seq<byte>, size: nat, floor: nat, n: nat, pos: nat, seen: nat)
    requires floor < pos <= size <= |data| && seen < n
    requires Searching(data, size, floor, n, pos, seen)
    ensures var counts := data[pos - 1] == LF && pos != size;
            if !counts then Searching(data, size, floor, n, pos - 1, seen)
            else if seen + 1 < n then Searching(data, size, floor, n, pos - 1, seen + 1)
            else NewlineFromEnd(Body(data[floor..size]), n) == Some(pos - 1 - floor)
  {
    var w := data[floor..pos];
    assert w[..|w| - 1] == data[floor..pos - 1];
    assert w[|w| - 1] == data[pos - 1];
  }

  // ---------- the forward feed ----------

  /** Feeds the bytes from start to end through a splitter, a chunk at a time, stopping where the file does. */
  method FeedRange(data: seq<byte>, start: nat, end: nat, readChunk: nat, split: Splitter)
    returns (out: seq<RawLine>, read: nat)
    requires readChunk >= 1 && split.Valid()
    modifies split
    ensures split.Valid()
    ensures read == |Range(data, start, end)|
    ensures split.Abs() == After(old(split.Abs()), Range(data, start, end), split.max)
    ensures out == Emitted(old(split.Abs()), Range(data, start, end), split.max)
  {
    hide After, Emitted, Range;
    out, read := [], 0;
    var at := start;
    ghost var before, whole := split.Abs(), Range(data, start, end);
    RunNothing(before, split.max);
    while at < end
      invariant split.Valid()
      invariant at == start + read && (at <= end || read == 0)
      invariant read <= |whole|
      invariant split.Abs() == After(before, whole[..read], split.max)
      invariant out == Emitted(before, whole[..read], split.max)
      decreases end - at
    {
      var want := Min(readChunk, end - at);
      var chunk := Range(data, at, at + want);
      RangeStep(data, start, end, read, want);
      RunConcat(before, whole[..read], chunk, split.max);
      var more := split.Feed(chunk);
      out := out + more;
      at := at + |chunk|;
      read := read + |chunk|;
      if |chunk| < want {
        assert whole[..read] == whole;
        return;
      }
    }
    RangeBound(data, start, end);
    assert whole[..read] == whole;
  }

  lemma RunNothing(st: State, max: nat)
    ensures After(st, [], max) == st && Emitted(st, [], max) == []
  {
  }

  lemma RangeBound(data: seq<byte>, start: nat, end: nat)
    ensures |Range(data, start, end)| <= if start <= end then end - start else 0
  {
  }

  lemma RangeStep(data: seq<byte>, start: nat, end: nat, read: nat, want: nat)
    requires read <= |Range(data, start, end)| && 0 < want && start + read + want <= end
    ensures var whole, chunk := Range(data, start, end), Range(data, start + read, start + read + want);
            && |chunk| <= want
            && read + |chunk| <= |whole|
            && whole[..read] + chunk == whole[..read + |chunk|]
            && (|chunk| < want ==> read + |chunk| == |whole|)
  {
  }

  /** What of the file lies from start to end. */
  function Range(data: seq<byte>, start: nat, end: nat): seq<byte> {
    if start >= end || start >= |data| then [] else data[start..Min(end, |data|)]
  }

  // ---------- the newest n ----------

  /** The entries a Tail gathers: the newest n of those seen, and never more than twice that. */
  class Window<E> {
    const n: nat
    var entries: seq<E>
    ghost var seen: seq<E>

    ghost predicate Valid()
      reads this
    {
      && n >= 1
      && |entries| < 2 * n
      && |entries| <= |seen|
      && entries == seen[|seen| - |entries|..]
      && (|entries| < |seen| ==> |entries| >= n)
    }

    constructor (n: nat)
      requires n >= 1
      ensures Valid() && this.n == n && seen == []
    {
      this.n := n;
      entries, seen := [], [];
    }

    method Collect(e: E)
      requires Valid()
      modifies this
      ensures Valid() && seen == old(seen) + [e]
      ensures |entries| <= |old(entries)| + 1
    {
      entries := entries + [e];
      seen := seen + [e];
      assert |entries| <= 2 * n;
      if |entries| >= 2 * n && |entries| > n {
        entries := entries[|entries| - n..];
      }
    }

    method CollectLines(r: Reader<E>, lines: seq<RawLine>)
      requires Valid()
      modifies this
      ensures Valid() && seen == old(seen) + r.Kept(lines)
    {
      for i := 0 to |lines|
        invariant Valid() && seen + r.Kept(lines[i..]) == old(seen) + r.Kept(lines)
      {
        var e := r.parse(lines[i]);
        assert lines[i..][1..] == lines[i + 1..];
        if r.keep.None? || r.keep.value(e) {
          Collect(e);
        }
      }
    }

    method Newest() returns (out: seq<E>)
      requires Valid()
      ensures out == LastN(seen, n)
    {
      LastNOfSuffix(seen, n, |seen| - |entries|);
      out := entries;
      if |out| > n {
        out := out[|out| - n..];
      }
    }
  }

  /** Where a read begins, and whether that may be inside a line. */
  function StartOf<E>(r: Reader<E>, data: seq<byte>, size: nat, n: nat): (s: (nat, bool))
    requires size <= |data|
    ensures s.0 <= size
  {
    if n == 0 then LinesFrom(data, size, 1, r.maxScan)
    else if r.keep.None? then LinesFrom(data, size, n, r.maxScan)
    else (Floor(size, r.maxScan), size > r.maxScan)
  }

  function Start(cut: bool): State {
    State([], false, cut)
  }

  /** What a read leaves in the splitter for a Follower. */
  function LeftOver<E>(r: Reader<E>, data: seq<byte>, size: nat, n: nat, flush: bool): State
    requires size <= |data|
  {
    var (start, cut) := StartOf(r, data, size, n);
    if n == 0 && size > 0 && data[size - 1] == LF then Start(cut)
    else if n > 0 && flush then Fresh
    else After(Start(cut), data[start..size], r.maxLine)
  }

  /** The entries a read finds. */
  function Found<E>(r: Reader<E>, data: seq<byte>, size: nat, n: nat, flush: bool): seq<E>
    requires size <= |data|
  {
    var (start, cut) := StartOf(r, data, size, n);
    var st := After(Start(cut), data[start..size], r.maxLine);
    LastN(r.Kept(Emitted(Start(cut), data[start..size], r.maxLine) + if flush then Flushed(st) else []), n)
  }

  lemma FoundIsWanted<E>(r: Reader<E>, data: seq<byte>, size: nat, n: nat, flush: bool)
    requires size <= |data|
    ensures forall e :: e in Found(r, data, size, n, flush) ==> Wants(r.keep, e)
  {
    hide Reader.Kept, StartOf, Emitted, After, Flushed;
    var (start, cut) := StartOf(r, data, size, n);
    var lines := Emitted(Start(cut), data[start..size], r.maxLine) +
                 (if flush then Flushed(After(Start(cut), data[start..size], r.maxLine)) else []);
    forall e | e in Found(r, data, size, n, flush)
      ensures Wants(r.keep, e)
    {
      KeptIff(r, lines, e);
    }
  }

  /** Gathers the newest n kept entries from start on. */
  method Gather<E>(r: Reader<E>, data: seq<byte>, start: nat, size: nat, n: nat, split: Splitter, flush: bool)
    returns (entries: seq<E>)
    requires r.Valid() && n >= 1 && split.Valid() && split.max == r.maxLine
    modifies split
    ensures split.Valid()
    ensures var bytes, st := Range(data, start, size), old(split.Abs());
            var end := After(st, bytes, r.maxLine);
            && split.Abs() == (if flush then Fresh else end)
            && entries == LastN(r.Kept(Emitted(st, bytes, r.maxLine) + if flush then Flushed(end) else []), n)
  {
    hide After, Emitted, Range, Flushed, LastN, Reader.Kept;
    var window := new Window<E>(n);
    var lines, _ := FeedRange(data, start, size, r.readChunk, split);
    window.CollectLines(r, lines);
    assert window.seen == r.Kept(lines);
    if flush {
      var last := split.Flush();
      window.CollectLines(r, last);
      KeptConcat(r, lines, last);
      assert window.seen == r.Kept(lines + last);
    } else {
      assert Emitted(old(split.Abs()), Range(data, start, size), r.maxLine) + [] == lines;
    }
    entries := window.Newest();
  }

  /** Passes over what is already there, keeping only the beginning of an unfinished last line. */
  method PassOver(data: seq<byte>, size: nat, readChunk: nat, maxScan: nat, split: Splitter) returns (ok: bool)
    requires readChunk >= 1 && maxScan >= 1 && split.Valid() && split.Abs() == Fresh
    modifies split
    ensures split.Valid()
    ensures ok <==> size <= |data|
    ensures ok ==>
              var (start, cut) := LinesFrom(data, size, 1, maxScan);
              split.Abs() == if size > 0 && data[size - 1] == LF then Start(cut)
                             else After(Start(cut), data[start..size], split.max)
  {
    var start, cut;
    ok, start, cut := LineStart(data, size, 1, readChunk, maxScan);
    if !ok {
      return;
    }
    split.skip := cut;
    if size > 0 && data[size - 1] == LF {
      return;
    }
    assert Range(data, start, size) == data[start..size];
    var _, _ := FeedRange(data, start, size, readChunk, split);
  }

  /**
   Reads the newest n kept entries of the first size bytes. whole says the file was read from its first
   byte; split is left holding the unfinished line they end with.
   */
  method ReadNewest<E>(r: Reader<E>, data: seq<byte>, size: nat, n: nat, split: Splitter, flush: bool)
    returns (ok: bool, entries: seq<E>, whole: bool)
    requires r.Valid() && split.Valid() && split.max == r.maxLine && split.Abs() == Fresh
    modifies split
    ensures split.Valid()
    ensures size <= |data| ==> ok
    ensures size <= |data| ==>
              && entries == Found(r, data, size, n, flush)
              && whole == (n > 0 && StartOf(r, data, size, n).0 == 0)
              && split.Abs() == LeftOver(r, data, size, n, flush)
    ensures size <= |data| ==> forall e :: e in entries ==> Wants(r.keep, e)
  {
    if size <= |data| {
      FoundIsWanted(r, data, size, n, flush);
    }
    entries, whole := [], false;
    if n == 0 {
      ok := PassOver(data, size, r.readChunk, r.maxScan, split);
      return;
    }
    ok := true;
    var start, cut := 0, false;
    if r.keep.None? {
      ok, start, cut := LineStart(data, size, n, r.readChunk, r.maxScan);
      if !ok {
        return;
      }
    } else if size > r.maxScan {
      start, cut := size - r.maxScan, true;
    }
    split.skip := cut;
    assert size <= |data| ==> Range(data, start, size) == data[start..size];
    entries := Gather(r, data, start, size, n, split, flush);
    whole := start == 0;
  }
}
