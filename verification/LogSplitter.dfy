/**
 The splitter of daemon/logfile/tail.go: a stream of bytes cut into lines of at most MaxLine bytes, holding
 at most one of them, whatever pieces the stream arrives in.
 */
module LogSplitter {
  import opened Bytes
  import opened LogLines

  /** The splitter's fields as a value. */
  datatype State = State(line: seq<byte>, over: bool, skip: bool)

  const Fresh := State([], false, false)

  /** The state that has read p, a line's beginning, and nothing else. */
  function Holding(p: seq<byte>, max: nat): State {
    State(Take(p, max), |p| > max, false)
  }

  /** What one byte does to the state. The specification: no chunks, no bulk copies. */
  function Step(st: State, b: byte, max: nat): State {
    if b == LF then Fresh
    else if st.skip then st
    else if |st.line| < max then st.(line := st.line + [b])
    else st.(over := true)
  }

  /** The line one byte ends, if it ends one. */
  function Ends(st: State, b: byte): seq<RawLine> {
    if b == LF && !st.skip then [RawLine(TrimCR(st.line), st.over)] else []
  }

  function After(st: State, bs: seq<byte>, max: nat): State
    decreases |bs|
  {
    if bs == [] then st else After(Step(st, bs[0], max), bs[1..], max)
  }

  function Emitted(st: State, bs: seq<byte>, max: nat): seq<RawLine>
    decreases |bs|
  {
    if bs == [] then [] else Ends(st, bs[0]) + Emitted(Step(st, bs[0], max), bs[1..], max)
  }

  /** The unfinished line that a stream ends with, if it ends with one. */
  function Flushed(st: State): seq<RawLine> {
    if !st.skip && |st.line| > 0 then [RawLine(TrimCR(st.line), st.over)] else []
  }

  /** Chunk independence: two pieces read one after the other are their concatenation read at once. */
  lemma {:induction false} RunConcat(st: State, a: seq<byte>, b: seq<byte>, max: nat)
    ensures After(st, a + b, max) == After(After(st, a, max), b, max)
    ensures Emitted(st, a + b, max) == Emitted(st, a, max) + Emitted(After(st, a, max), b, max)
    decreases |a|
  {
    if a == [] {
      assert a + b == b;
    } else {
      assert (a + b)[1..] == a[1..] + b;
      RunConcat(Step(st, a[0], max), a[1..], b, max);
    }
  }

  /** The state after a piece without a newline: the line grows to its bound. */
  function Grown(st: State, part: seq<byte>, max: nat): State
    requires |st.line| <= max
  {
    if st.skip then st
    else if |part| > max - |st.line| then State(st.line + part[..max - |st.line|], true, false)
    else st.(line := st.line + part)
  }

  lemma GrownStep(st: State, part: seq<byte>, max: nat)
    requires LF !in part && |st.line| <= max && part != []
    ensures |Step(st, part[0], max).line| <= max
    ensures Grown(Step(st, part[0], max), part[1..], max) == Grown(st, part, max)
  {
    if !st.skip {
      var s1 := Step(st, part[0], max);
      if |st.line| == max {
        assert s1.line + part[1..][..0] == st.line + part[..0];
        assert part[1..] == [] ==> s1.line + part[1..] == st.line + part[..0];
      } else if |part| > max - |st.line| {
        assert s1.line + part[1..][..max - |s1.line|] == st.line + part[..max - |st.line|];
      } else {
        assert s1.line + part[1..] == st.line + part;
      }
    }
  }

  /** Without a newline nothing is emitted. */
  lemma {:induction false} RunPart(st: State, part: seq<byte>, max: nat)
    requires LF !in part && |st.line| <= max
    ensures Emitted(st, part, max) == []
    ensures After(st, part, max) == Grown(st, part, max)
    decreases |part|
  {
    if part == [] {
      assert st.line + part == st.line;
    } else {
      GrownStep(st, part, max);
      RunPart(Step(st, part[0], max), part[1..], max);
    }
  }

  /** One newline ends the line and starts afresh. */
  lemma RunNewline(st: State, b: seq<byte>, max: nat)
    ensures After(st, [LF] + b, max) == After(Fresh, b, max)
    ensures Emitted(st, [LF] + b, max) == Ends(st, LF) + Emitted(Fresh, b, max)
  {
    assert ([LF] + b)[1..] == b;
  }

  /** A part without a newline, a newline, and the rest. */
  lemma RunLine(st: State, a: seq<byte>, b: seq<byte>, max: nat)
    requires LF !in a && |st.line| <= max
    ensures After(st, a + [LF] + b, max) == After(Fresh, b, max)
    ensures Emitted(st, a + [LF] + b, max) == Ends(After(st, a, max), LF) + Emitted(Fresh, b, max)
  {
    assert a + [LF] + b == a + ([LF] + b);
    RunConcat(st, a, [LF] + b, max);
    RunPart(st, a, max);
    RunNewline(After(st, a, max), b, max);
  }

  /**
   From a line's beginning, the splitter emits exactly the complete lines, each cut to its bound, and holds
   the beginning of the unfinished one.
   */
  lemma {:induction false} RunIsLines(bs: seq<byte>, max: nat)
    requires max >= 1
    ensures After(Fresh, bs, max) == Holding(Rest(bs), max)
    ensures Emitted(Fresh, bs, max) == CutAll(Complete(bs), max)
    decreases |bs|
  {
    var i := IndexOf(bs, LF);
    var a := bs[..i];
    RunPart(Fresh, a, max);
    assert [] + a == a && (|a| > max ==> [] + a[..max] == a[..max]);
    assert After(Fresh, a, max) == Holding(a, max);
    if i == |bs| {
      assert a == bs;
    } else {
      var b := bs[i + 1..];
      assert bs == a + [LF] + b;
      RunLine(Fresh, a, b, max);
      RunIsLines(b, max);
      assert Complete(bs)[1..] == Complete(b);
    }
  }

  /** A skipping splitter drops the line it is in, to its newline, and is then fresh. */
  lemma RunSkipping(bs: seq<byte>, max: nat)
    ensures LF !in bs ==>
              After(State([], false, true), bs, max) == State([], false, true) &&
              Emitted(State([], false, true), bs, max) == []
    ensures LF in bs ==>
              var b := bs[IndexOf(bs, LF) + 1..];
              After(State([], false, true), bs, max) == After(Fresh, b, max) &&
              Emitted(State([], false, true), bs, max) == Emitted(Fresh, b, max)
  {
    var sk := State([], false, true);
    var i := IndexOf(bs, LF);
    RunPart(sk, bs[..i], max);
    if i < |bs| {
      assert bs == bs[..i] + [LF] + bs[i + 1..];
      RunLine(sk, bs[..i], bs[i + 1..], max);
    } else {
      assert bs[..i] == bs;
    }
  }

  /** Flushing at the end of a stream makes its unfinished last line one more line. */
  lemma FlushedIsLast(bs: seq<byte>, max: nat)
    requires max >= 1
    ensures Emitted(Fresh, bs, max) + Flushed(After(Fresh, bs, max)) == CutAll(AllLines(bs), max)
  {
    RunIsLines(bs, max);
    if Rest(bs) == [] {
      assert Complete(bs) + [] == Complete(bs);
    } else {
      CutAllConcat(Complete(bs), [Rest(bs)], max);
      assert CutAll([Rest(bs)], max) == [Cut(Rest(bs), max)];
    }
  }

  class Splitter {
    const max: nat
    var line: seq<byte>
    var over: bool
    var skip: bool

    ghost predicate Valid()
      reads this
    {
      max >= 1 && |line| <= max && (skip ==> line == [] && !over)
    }

    ghost function Abs(): State
      reads this
    {
      State(line, over, skip)
    }

    constructor (max: nat)
      requires max >= 1
      ensures Valid() && Abs() == Fresh && this.max == max
    {
      this.max := max;
      line, over, skip := [], false, false;
    }

    method Reset()
      requires max >= 1
      modifies this
      ensures Valid() && Abs() == Fresh
    {
      line, over, skip := [], false, false;
    }

    /** Adds a piece of the current line, up to the bound. */
    method Append(part: seq<byte>)
      requires Valid() && LF !in part
      modifies this
      ensures Valid()
      ensures Abs() == After(old(Abs()), part, max)
    {
      RunPart(Abs(), part, max);
      if !skip {
        var room := max - |line|;
        if |part| > room {
          line := line + part[..room];
          over := true;
        } else {
          line := line + part;
        }
      }
    }

    /** Reads to the next newline, or all that is left when there is none. */
    method FeedLine(left: seq<byte>) returns (out: seq<RawLine>, rest: seq<byte>)
      requires Valid() && |left| > 0
      modifies this
      ensures Valid() && |rest| < |left|
      ensures After(old(Abs()), left, max) == After(Abs(), rest, max)
      ensures Emitted(old(Abs()), left, max) == out + Emitted(Abs(), rest, max)
    {
      out, rest := [], [];
      var end := IndexOf(left, LF);
      var part := left[..end];
      RunPart(Abs(), part, max);
      Append(part);
      if end == |left| {
        assert part == left;
        return;
      }
      rest := left[end + 1..];
      assert left == part + [LF] + rest;
      RunLine(old(Abs()), part, rest, max);
      if !skip {
        out := [RawLine(TrimCR(line), over)];
      }
      Reset();
    }

    /** Reads one chunk, returning the lines it ended in the order they were ended. */
    method Feed(chunk: seq<byte>) returns (out: seq<RawLine>)
      requires Valid()
      modifies this
      ensures Valid()
      ensures Abs() == After(old(Abs()), chunk, max)
      ensures out == Emitted(old(Abs()), chunk, max)
    {
      out := [];
      var left := chunk;
      while |left| > 0
        invariant Valid()
        invariant After(old(Abs()), chunk, max) == After(Abs(), left, max)
        invariant Emitted(old(Abs()), chunk, max) == out + Emitted(Abs(), left, max)
        decreases |left|
      {
        var more;
        more, left := FeedLine(left);
        out := out + more;
      }
    }

    /** Ends the stream, and with it an unfinished line. */
    method Flush() returns (out: seq<RawLine>)
      requires Valid()
      modifies this
      ensures Valid() && Abs() == Fresh
      ensures out == Flushed(old(Abs()))
    {
      out := [];
      if !skip && |line| > 0 {
        out := [RawLine(TrimCR(line), over)];
      }
      Reset();
    }
  }

  /**
   However a stream is divided, the lines are those of the whole: the real lines cut to the bound, an
   unfinished last one included once the stream is ended.
   */
  method SplitChunks(chunks: seq<seq<byte>>, max: nat) returns (out: seq<RawLine>)
    requires max >= 1
    ensures out == CutAll(AllLines(Flatten(chunks)), max)
  {
    var s := new Splitter(max);
    out := [];
    ghost var done: seq<byte> := [];
    for k := 0 to |chunks|
      invariant s.Valid() && s.max == max && fresh(s)
      invariant done + Flatten(chunks[k..]) == Flatten(chunks)
      invariant s.Abs() == After(Fresh, done, max) && out == Emitted(Fresh, done, max)
    {
      assert chunks[k..][1..] == chunks[k + 1..];
      RunConcat(Fresh, done, chunks[k], max);
      var more := s.Feed(chunks[k]);
      out := out + more;
      done := done + chunks[k];
      assert done + Flatten(chunks[k + 1..]) == Flatten(chunks);
    }
    assert chunks[|chunks|..] == [];
    assert done == Flatten(chunks);
    FlushedIsLast(done, max);
    var last := s.Flush();
    out := out + last;
  }
}
