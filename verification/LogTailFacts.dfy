/** What a read of the end of a log returns, in terms of the log's lines alone. */
module LogTailFacts {
  import opened Bytes
  import opened LogLines
  import opened LogSplitter
  import opened LogTail

  ghost predicate IsSuffix<T>(a: seq<T>, b: seq<T>) {
    |a| <= |b| && b[|b| - |a|..] == a
  }

  lemma SuffixTransitive<T>(a: seq<T>, b: seq<T>, c: seq<T>)
    requires IsSuffix(a, b) && IsSuffix(b, c)
    ensures IsSuffix(a, c)
  {
    assert c[|c| - |a|..] == c[|c| - |b|..][|b| - |a|..];
  }

  lemma SuffixOfConcat<T>(a: seq<T>, b: seq<T>)
    ensures IsSuffix(b, a + b)
  {
  }

  lemma SuffixAppend<T>(a: seq<T>, b: seq<T>, c: seq<T>)
    requires IsSuffix(a, b)
    ensures IsSuffix(a + c, b + c)
  {
    assert (b + c)[|b + c| - |a + c|..] == b[|b| - |a|..] + c;
  }

  lemma LastNIsSuffix<T>(s: seq<T>, n: nat)
    ensures IsSuffix(LastN(s, n), s)
  {
  }

  /** What is read of some bytes: their complete lines, and the unfinished one when the read ends the stream. */
  function KeptOf<E>(r: Reader<E>, bs: seq<byte>, flush: bool): seq<E> {
    if flush then r.KeptAll(bs) else r.KeptComplete(bs)
  }

  /** Reading from a line's beginning reads the lines from there, and those before it are the rest. */
  lemma ReadFromBoundary<E>(r: Reader<E>, bs: seq<byte>, start: nat, flush: bool)
    requires r.Valid() && start <= |bs| && Rest(bs[..start]) == []
    ensures After(Fresh, bs[start..], r.maxLine) == After(Fresh, bs, r.maxLine)
    ensures r.Kept(Emitted(Fresh, bs[start..], r.maxLine) +
                   if flush then Flushed(After(Fresh, bs[start..], r.maxLine)) else []) ==
            KeptOf(r, bs[start..], flush)
    ensures KeptOf(r, bs, flush) == r.KeptComplete(bs[..start]) + KeptOf(r, bs[start..], flush)
  {
    hide Complete, Rest, CutAll, Emitted, After, Flushed, AllLines, Reader.Kept;
    var a, b := bs[..start], bs[start..];
    assert bs == a + b;
    LinesAtBoundary(a, b);
    RunIsLines(bs, r.maxLine);
    RunIsLines(b, r.maxLine);
    FlushedIsLast(b, r.maxLine);
    KeptCutConcat(r, Complete(a), AllLines(b));
    KeptCutConcat(r, Complete(a), Complete(b));
    assert Emitted(Fresh, b, r.maxLine) + [] == Emitted(Fresh, b, r.maxLine);
  }

  /** Reading from inside a line drops that line's end, and then reads the lines that follow. */
  lemma ReadFromInside<E>(r: Reader<E>, bs: seq<byte>, start: nat, flush: bool)
    requires r.Valid() && start <= |bs|
    ensures var b := bs[start..];
            var st := After(Start(true), b, r.maxLine);
            && IsSuffix(r.Kept(Emitted(Start(true), b, r.maxLine) + if flush then Flushed(st) else []),
                        KeptOf(r, bs, flush))
            && (LF in b ==> st == After(Fresh, bs, r.maxLine))
            && (LF !in b ==> st == Start(true))
  {
    hide Complete, Rest, CutAll, Emitted, After, AllLines, Reader.Kept, Reader.KeptComplete, Reader.KeptAll;
    var b := bs[start..];
    RunSkipping(b, r.maxLine);
    if LF in b {
      var at := start + IndexOf(b, LF) + 1;
      assert bs[at..] == b[IndexOf(b, LF) + 1..];
      BoundaryIff(bs[..at]);
      ReadFromBoundary(r, bs, at, flush);
      SuffixOfConcat(r.KeptComplete(bs[..at]), KeptOf(r, bs[at..], flush));
    } else {
      KeptNothing(r);
      assert Emitted(Start(true), b, r.maxLine) + [] == [];
    }
  }

  lemma KeptNothing<E>(r: Reader<E>)
    ensures r.Kept([]) == []
  {
  }

  /** A start that is not marked cut is a line's beginning. */
  lemma StartIsBoundary<E>(r: Reader<E>, data: seq<byte>, size: nat, n: nat)
    requires size <= |data|
    ensures var (start, cut) := StartOf(r, data, size, n);
            && (!cut ==> Rest(data[..size][..start]) == [])
            && (start == 0 ==> !cut)
  {
    hide Complete, Rest, CountLF, NewlineFromEnd, AllLines;
    var (start, cut) := StartOf(r, data, size, n);
    var floor := Floor(size, r.maxScan);
    BoundaryIff(data[..size][..start]);
    if n == 0 {
      NthBeginsLastLines(data[floor..size], 1);
    } else if r.keep.None? {
      NthBeginsLastLines(data[floor..size], n);
    }
  }

  /**
   No gap: whatever the bounds cut off, what is returned is the end of the file's kept lines, with nothing
   left out of its middle.
   */
  lemma FoundIsSuffix<E>(r: Reader<E>, data: seq<byte>, size: nat, n: nat, flush: bool)
    requires r.Valid() && size <= |data|
    ensures IsSuffix(Found(r, data, size, n, flush), KeptOf(r, data[..size], flush))
    ensures StartOf(r, data, size, n).0 == 0 ==>
              Found(r, data, size, n, flush) == LastN(KeptOf(r, data[..size], flush), n)
  {
    hide Complete, Rest, Emitted, After, Flushed, AllLines, Reader.Kept, KeptOf, LastN, StartOf, IsSuffix;
    var (start, cut) := StartOf(r, data, size, n);
    var bs := data[..size];
    assert bs[start..] == data[start..size];
    var st := After(Start(cut), bs[start..], r.maxLine);
    var kept := r.Kept(Emitted(Start(cut), bs[start..], r.maxLine) + if flush then Flushed(st) else []);
    StartIsBoundary(r, data, size, n);
    if cut {
      ReadFromInside(r, bs, start, flush);
    } else {
      ReadFromBoundary(r, bs, start, flush);
      SuffixOfConcat(r.KeptComplete(bs[..start]), KeptOf(r, bs[start..], flush));
      assert bs[0..] == bs;
    }
    LastNIsSuffix(kept, n);
    SuffixTransitive(LastN(kept, n), kept, KeptOf(r, bs, flush));
  }

  /** How many lines come back when none is chosen: an unfinished last line takes a place and gives none. */
  function Wanted<E>(r: Reader<E>, bs: seq<byte>, n: nat, flush: bool): nat
    requires n >= 1
  {
    if r.keep.None? && !flush && Rest(bs) != [] && |Complete(bs)| >= n then n - 1 else n
  }

  /**
   Within the bound, the read returns exactly the newest kept lines of the bytes, the one that counts newlines
   from the end and the one that reads them all alike. They differ in one case, which Wanted names.
   */
  lemma FoundExact<E>(r: Reader<E>, data: seq<byte>, size: nat, n: nat, flush: bool)
    requires r.Valid() && n >= 1 && size <= |data| && size <= r.maxScan
    ensures Found(r, data, size, n, flush) == LastN(KeptOf(r, data[..size], flush), Wanted(r, data[..size], n, flush))
  {
    hide Complete, Rest, Emitted, After, Flushed, AllLines, Reader.Kept, NewlineFromEnd, CountLF, CutAll, Found;
    var bs := data[..size];
    assert bs == data[0..size];
    var (start, cut) := StartOf(r, data, size, n);
    FoundIsSuffix(r, data, size, n, flush);
    if r.keep.None? {
      NthBeginsLastLines(bs, n);
      if start == 0 {
        FewLines(r, bs, n, flush);
      } else {
        LastLinesFound(r, data, size, n, flush);
      }
    }
  }

  lemma FewLines<E>(r: Reader<E>, bs: seq<byte>, n: nat, flush: bool)
    requires r.keep.None? && |AllLines(bs)| <= n && n >= 1
    ensures Wanted(r, bs, n, flush) == n
  {
  }

  lemma LastLinesFound<E>(r: Reader<E>, data: seq<byte>, size: nat, n: nat, flush: bool)
    requires r.Valid() && n >= 1 && size <= |data| && size <= r.maxScan && r.keep.None?
    requires StartOf(r, data, size, n).0 > 0
    ensures Found(r, data, size, n, flush) ==
            LastN(KeptOf(r, data[..size], flush), Wanted(r, data[..size], n, flush))
  {
    hide Complete, Rest, Emitted, After, Flushed, Reader.Kept, NewlineFromEnd, CountLF, CutAll, IndexOf;
    var bs := data[..size];
    assert bs == data[0..size];
    var (start, cut) := StartOf(r, data, size, n);
    NthBeginsLastLines(bs, n);
    assert !cut && Rest(bs[..start]) == [] && |AllLines(bs[start..])| == n;
    assert bs[start..] == data[start..size];
    ReadFromBoundary(r, bs, start, flush);
    var got := KeptOf(r, bs[start..], flush);
    KeepsEverything(r, CutAll(AllLines(bs[start..]), r.maxLine));
    KeepsEverything(r, CutAll(Complete(bs[start..]), r.maxLine));
    LinesAtBoundary(bs[..start], bs[start..]);
    assert bs[..start] + bs[start..] == bs;
    EndsSomeLine(bs[..start]);
    assert |got| == Wanted(r, bs, n, flush);
    LastNConcat(r.KeptComplete(bs[..start]), got, |got|);
    assert LastN(r.KeptComplete(bs[..start]), 0) + got == got;
  }

  lemma EndsSomeLine(bs: seq<byte>)
    requires bs != [] && Rest(bs) == []
    ensures |Complete(bs)| > 0
  {
    BoundaryIff(bs);
    CountedIfIn(bs);
    CountIsComplete(bs);
  }

  /**
   The two ways of reading agree: counting newlines backwards, with no choice of entries, returns what reading
   everything with a choice that keeps every entry does, if and only if the read ends the stream, or there is
   no unfinished line, or there are fewer whole lines than are wanted.
   */
  lemma BackwardAgreesWithForward<E>(r: Reader<E>, data: seq<byte>, n: nat, flush: bool)
    requires r.Valid() && n >= 1 && |data| <= r.maxScan && r.keep.None?
    ensures var every := r.(keep := Some((e: E) => true));
            Found(r, data, |data|, n, flush) == Found(every, data, |data|, n, flush)
            <==> flush || Rest(data) == [] || |Complete(data)| < n
  {
    hide Complete, Rest, AllLines, Found, StartOf, CutAll;
    var every := r.(keep := Some((e: E) => true));
    FoundExact(r, data, |data|, n, flush);
    FoundExact(every, data, |data|, n, flush);
    assert data[..|data|] == data;
    SameKept(r, every, CutAll(Complete(data), r.maxLine));
    SameKept(r, every, CutAll(AllLines(data), r.maxLine));
    KeepsEverything(r, CutAll(Complete(data), r.maxLine));
  }

  lemma {:induction false} SameKept<E>(r: Reader<E>, every: Reader<E>, lines: seq<RawLine>)
    requires r.keep.None? && every == r.(keep := Some((e: E) => true))
    ensures r.Kept(lines) == every.Kept(lines)
    decreases |lines|
  {
    if lines != [] {
      SameKept(r, every, lines[1..]);
    }
  }

  /** A Tail that reads no entries and whose search was cut off passes over too much. */
  predicate Faithful<E>(r: Reader<E>, data: seq<byte>, size: nat, n: nat)
    requires size <= |data|
  {
    var (start, cut) := StartOf(r, data, size, n);
    !cut || (n > 0 && LF in data[start..size])
  }

  /**
   What a followed read leaves for the Follower is what reading the file from its first byte would have left,
   if and only if the read was faithful. The other case is a last line that begins further back than the bound:
   what follows is then dropped up to its next newline.
   */
  lemma LeftOverFaithful<E>(r: Reader<E>, data: seq<byte>, size: nat, n: nat)
    requires r.Valid() && size <= |data|
    ensures LeftOver(r, data, size, n, false) == After(Fresh, data[..size], r.maxLine)
            <==> Faithful(r, data, size, n)
  {
    hide Complete, Rest, Emitted, After, Flushed, AllLines, Reader.Kept, KeptOf, LastN, StartOf, IsSuffix, CutAll;
    var (start, cut) := StartOf(r, data, size, n);
    var bs := data[..size];
    assert bs[start..] == data[start..size];
    StartIsBoundary(r, data, size, n);
    RunIsLines(bs, r.maxLine);
    BoundaryIff(bs);
    if cut {
      ReadFromInside(r, bs, start, false);
      if n == 0 {
        CutMeansNoNewline(r, data, size);
      }
    } else {
      ReadFromBoundary(r, bs, start, false);
    }
  }

  /** A search for one line is cut off only by bytes with no newline among them but the last. */
  lemma CutMeansNoNewline<E>(r: Reader<E>, data: seq<byte>, size: nat)
    requires size <= |data| && StartOf(r, data, size, 0).1
    ensures LF !in Body(data[StartOf(r, data, size, 0).0..size])
  {
    var floor := Floor(size, r.maxScan);
    NthIsCounted(Body(data[floor..size]), 1);
    CountedIfIn(Body(data[floor..size]));
  }

  lemma {:induction false} CountedIfIn(bs: seq<byte>)
    ensures LF in bs ==> CountLF(bs) > 0
    decreases |bs|
  {
    if bs != [] {
      CountedIfIn(bs[..|bs| - 1]);
    }
  }

  /**
   The unfaithful case exists: a terminated line longer than the bound, tailed with no entries wanted. The
   first line written afterwards is dropped.
   */
  lemma TailOfNothingDropsALine()
    ensures var r: Reader<RawLine> := Reader(l => l, None, 8, 4, 2, 8);
            var data: seq<byte> := [65, 65, 65, LF];
            var next: seq<byte> := [66, LF];
            && !Faithful(r, data, 4, 0)
            && r.KeptComplete(data + next) == r.KeptComplete(data) + [RawLine([66], false)]
            && r.Kept(Emitted(LeftOver(r, data, 4, 0, false), next, 8)) == []
  {
    var r: Reader<RawLine> := Reader(l => l, None, 8, 4, 2, 8);
    var data: seq<byte> := [65, 65, 65, LF];
    var next: seq<byte> := [66, LF];
    assert data[2..4] == [65, LF];
    assert Body(data[2..4]) == [65];
    assert NewlineFromEnd([65], 1) == None by {
      NthIsCounted([65], 1);
    }
    assert StartOf(r, data, 4, 0) == (2, true);
    assert LeftOver(r, data, 4, 0, false) == Start(true);
    assert IndexOf(next, LF) == 1;
    RunSkipping(next, 8);
    assert next[2..] == [];
    BoundaryIff(data);
    LinesAtBoundary(data, next);
    KeptCutConcat(r, Complete(data), Complete(next));
    assert Complete(next) == [[66]] by {
      assert next[..1] == [66];
    }
    var lines: seq<seq<byte>> := [[66]];
    assert CutAll(lines, 8) == [RawLine([66], false)];
    assert r.Kept([RawLine([66], false)]) == [RawLine([66], false)];
  }
}
