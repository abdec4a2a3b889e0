/** What the lines of a log are: the specification the splitter, the backward search and the follower refine. */
module LogLines {
  import opened Bytes

  /** One line as it is handed on: at most MaxLine bytes of it, and whether there were more. */
  datatype RawLine = RawLine(text: seq<byte>, truncated: bool)

  /** The lines that have their newline, in order, without it. */
  function Complete(bs: seq<byte>): seq<seq<byte>> {
    var i := IndexOf(bs, LF);
    if i == |bs| then [] else [bs[..i]] + Complete(bs[i + 1..])
  }

  /** What follows the last newline: a line still being written. */
  function Rest(bs: seq<byte>): (r: seq<byte>)
    ensures LF !in r
    ensures |r| <= |bs|
  {
    var i := IndexOf(bs, LF);
    if i == |bs| then bs[..i] else Rest(bs[i + 1..])
  }

  /** Every line, an unfinished last one included. */
  function AllLines(bs: seq<byte>): seq<seq<byte>> {
    Complete(bs) + if Rest(bs) == [] then [] else [Rest(bs)]
  }

  function TrimCR(line: seq<byte>): seq<byte> {
    if |line| > 0 && line[|line| - 1] == CR then line[..|line| - 1] else line
  }

  /** A line as it is kept: its first max bytes, less a carriage return they end with. */
  function Cut(line: seq<byte>, max: nat): RawLine {
    RawLine(TrimCR(Take(line, max)), |line| > max)
  }

  /**
   What is kept of a line: all of its first max bytes, but for one carriage return where those end with it. It is cut
   short if and only if the line, with any carriage return, is longer than that.
   */
  lemma CutIs(line: seq<byte>, max: nat)
    ensures var r := Cut(line, max);
            && (r.truncated <==> |line| > max)
            && r.text <= line && |r.text| <= max
            && var n := if |line| > max then max else |line|;
               if n > 0 && line[n - 1] == 13 then |r.text| == n - 1 else |r.text| == n
  {
  }

  function CutAll(lines: seq<seq<byte>>, max: nat): (r: seq<RawLine>)
    ensures |r| == |lines|
    ensures forall i :: 0 <= i < |r| ==> r[i] == Cut(lines[i], max)
  {
    if lines == [] then [] else [Cut(lines[0], max)] + CutAll(lines[1..], max)
  }

  lemma CutAllConcat(a: seq<seq<byte>>, b: seq<seq<byte>>, max: nat)
    ensures CutAll(a + b, max) == CutAll(a, max) + CutAll(b, max)
  {
  }

  lemma NoNewline(bs: seq<byte>)
    requires LF !in bs
    ensures Complete(bs) == [] && Rest(bs) == bs
  {
  }

  /** Reading on after a part is reading on after that part's unfinished line. */
  lemma {:induction false} LinesConcat(a: seq<byte>, b: seq<byte>)
    ensures Complete(a + b) == Complete(a) + Complete(Rest(a) + b)
    ensures Rest(a + b) == Rest(Rest(a) + b)
    decreases |a|
  {
    var i := IndexOf(a, LF);
    IndexOfConcat(a, b, LF);
    if i < |a| {
      assert (a + b)[i + 1..] == a[i + 1..] + b;
      assert (a + b)[..i] == a[..i];
      assert Complete(a) == [a[..i]] + Complete(a[i + 1..]) && Rest(a) == Rest(a[i + 1..]);
      assert Complete(a + b) == [a[..i]] + Complete(a[i + 1..] + b) && Rest(a + b) == Rest(a[i + 1..] + b);
      hide Complete, Rest;
      LinesConcat(a[i + 1..], b);
    } else {
      assert a[..i] == a;
    }
  }

  /** A line boundary cuts the lines in two. */
  lemma LinesAtBoundary(a: seq<byte>, b: seq<byte>)
    requires Rest(a) == []
    ensures Complete(a + b) == Complete(a) + Complete(b)
    ensures Rest(a + b) == Rest(b)
    ensures AllLines(a + b) == Complete(a) + AllLines(b)
  {
    hide Complete, Rest;
    LinesConcat(a, b);
    assert Rest(a) + b == b;
  }

  /** Rest is empty exactly at a line boundary: the start, or just past a newline. */
  lemma {:induction false} BoundaryIff(bs: seq<byte>)
    ensures Rest(bs) == [] <==> (bs == [] || bs[|bs| - 1] == LF)
    decreases |bs|
  {
    var i := IndexOf(bs, LF);
    if i < |bs| {
      BoundaryIff(bs[i + 1..]);
    }
  }

  /** Joining the lines back gives the bytes they came from: nothing is lost, added or reordered. */
  function Joined(lines: seq<seq<byte>>): seq<byte> {
    if lines == [] then [] else lines[0] + [LF] + Joined(lines[1..])
  }

  lemma JoinedFirst(line: seq<byte>, lines: seq<seq<byte>>, rest: seq<byte>)
    ensures Joined([line] + lines) + rest == line + [LF] + (Joined(lines) + rest)
  {
    assert ([line] + lines)[1..] == lines;
  }

  lemma Rebuilt(bs: seq<byte>, i: nat)
    requires i < |bs|
    ensures bs[..i] + [bs[i]] + bs[i + 1..] == bs
  {
  }

  lemma {:induction false} LinesRejoin(bs: seq<byte>)
    ensures Joined(Complete(bs)) + Rest(bs) == bs
    ensures forall l :: l in Complete(bs) ==> LF !in l
    decreases |bs|
  {
    var i := IndexOf(bs, LF);
    if i < |bs| {
      var after := bs[i + 1..];
      LinesRejoin(after);
      assert Complete(bs) == [bs[..i]] + Complete(after) && Rest(bs) == Rest(after);
      hide Complete, Rest, Joined;
      JoinedFirst(bs[..i], Complete(after), Rest(after));
      Rebuilt(bs, i);
    }
  }
}
