/** Where a document's keys and values are, in bytes (daemon/config/edit.go), and that these are its slots. */
module ConfigScan {
  import opened Bytes
  import opened Splice
  import opened Toml
  import opened ConfigForm
  import opened ConfigText

  // ---------- lines of a text ----------

  /** The start of the line an offset is on. */
  function LineStart(data: Text, at: nat): (r: nat)
    requires at <= |data|
    ensures r <= at && (r == 0 || data[r - 1] == '\n') && '\n' !in data[r..at]
  {
    if at == 0 || data[at - 1] == '\n' then at
    else
      var r := LineStart(data, at - 1);
      assert data[r..at] == data[r..at - 1] + [data[at - 1]];
      r
  }

  /** Where the line after an offset's begins; the end of the text, if none does. */
  function LineEnd(data: Text, at: nat): (r: nat)
    requires at <= |data|
    ensures at <= r <= |data| && (r < |data| ==> r > at && data[r - 1] == '\n')
    ensures forall i :: at <= i < r - 1 ==> data[i] != '\n'
    decreases |data| - at
  {
    if at == |data| then at
    else if data[at] == '\n' then at + 1
    else LineEnd(data, at + 1)
  }

  /** The end of a line is the end of what is left of it. */
  lemma LineEndsBehind(before: Text, rest: Text, after: Text)
    requires forall i :: 0 <= i < |rest| && rest[i] == '\n' ==> i == |rest| - 1
    requires EndsLine(rest) || after == ""
    ensures LineEnd(before + rest + after, |before|) == |before| + |rest|
  {
    var data := before + rest + after;
    var r := LineEnd(data, |before|);
    assert forall i :: 0 <= i < |rest| ==> data[|before| + i] == rest[i];
    if EndsLine(rest) {
      assert data[|before| + |rest| - 1] == '\n';
    }
  }

  /** Where a value begins: past the equals sign that follows the key, and the blanks behind that. */
  method AfterEquals(data: Text, keyEnd: nat, limit: nat) returns (i: nat)
    requires keyEnd <= limit <= |data|
    ensures keyEnd <= i <= limit
    ensures forall eq, value :: data[keyEnd..limit] == eq + value && IsEquals(eq) && value != "" && !Blank(value[0]) ==>
              i == keyEnd + |eq|
  {
    i := keyEnd;
    while i < limit && data[i] != '='
      invariant keyEnd <= i <= limit
      invariant forall j :: keyEnd <= j < i ==> data[j] != '='
    {
      i := i + 1;
    }
    ghost var at := i;
    if i < limit {
      i := i + 1;
    }
    while i < limit && (data[i] == ' ' || data[i] == '\t')
      invariant at <= i <= limit
      invariant at < limit ==> at < i
      invariant forall j :: at < j < i ==> Blank(data[j])
    {
      i := i + 1;
    }
    forall eq, value | data[keyEnd..limit] == eq + value && IsEquals(eq) && value != "" && !Blank(value[0])
      ensures i == keyEnd + |eq|
    {
      EqualsEnds(data, keyEnd, limit, at, i, eq, value);
    }
  }

  lemma EqualsEnds(data: Text, keyEnd: nat, limit: nat, at: nat, i: nat, eq: Text, value: Text)
    requires keyEnd <= at <= i <= limit <= |data|
    requires forall j :: keyEnd <= j < at ==> data[j] != '='
    requires at < limit ==> data[at] == '=' && at < i
    requires forall j :: at < j < i ==> Blank(data[j])
    requires i < limit ==> !Blank(data[i])
    requires data[keyEnd..limit] == eq + value && IsEquals(eq) && value != "" && !Blank(value[0])
    ensures i == keyEnd + |eq|
  {
    var t := data[keyEnd..limit];
    var p :| 0 <= p < |eq| && eq[p] == '=' && forall j :: 0 <= j < |eq| && j != p ==> Blank(eq[j]);
    assert data[keyEnd + p] == t[p] == '=';
    assert data[keyEnd + |eq|] == t[|eq|] == value[0];
    assert forall j :: 0 <= j < |eq| ==> data[keyEnd + j] == t[j] == eq[j];
    assert at == keyEnd + p;
  }

  // ---------- offsets ----------

  function SectionStart(ss: seq<Section>, s: nat): nat
    requires s <= |ss|
  {
    |SectionsText(ss[..s])|
  }

  function LineAt(ss: seq<Section>, s: nat, k: nat): nat
    requires s < |ss| && k <= |ss[s].body|
  {
    SectionStart(ss, s) + |ss[s].lead + HeadText(ss[s].head)| + |BodyText(ss[s].body[..k])|
  }

  predicate IsKey(ss: seq<Section>, s: nat, k: nat) {
    s < |ss| && k < |ss[s].body| && ss[s].body[k].Assign?
  }

  function ExprStart(ss: seq<Section>, s: nat, k: nat): nat
    requires IsKey(ss, s, k)
  {
    LineAt(ss, s, k) + |ss[s].body[k].lead|
  }

  function ValueStart(ss: seq<Section>, s: nat, k: nat): nat
    requires IsKey(ss, s, k)
  {
    ExprStart(ss, s, k) + |ss[s].body[k].key| + |ss[s].body[k].eq|
  }

  function ExprEnd(ss: seq<Section>, s: nat, k: nat): nat
    requires IsKey(ss, s, k)
  {
    ValueStart(ss, s, k) + |ss[s].body[k].value|
  }

  /** Where lines are put behind a section's last. */
  function BodyEnd(ss: seq<Section>, s: nat): nat
    requires s < |ss|
  {
    LineAt(ss, s, |ss[s].body|)
  }

  /** A section that has a line for a key to be put behind. */
  predicate HasLine(ss: seq<Section>, s: nat) {
    s < |ss| && (if ss[s].body == [] then ss[s].head.Some? else ss[s].body[|ss[s].body| - 1].Assign?)
  }

  /** The end of the last expression of a section: its last key's value, or its header's key. */
  function LastOf(ss: seq<Section>, s: nat): nat
    requires HasLine(ss, s)
  {
    if ss[s].body != [] then ExprEnd(ss, s, |ss[s].body| - 1)
    else SectionStart(ss, s) + |ss[s].lead| + |ss[s].head.value.open| + |ss[s].head.value.key|
  }

  // ---------- the slots are at these offsets ----------

  lemma {:induction false} SectionsSplit(ss: seq<Section>, s: nat) returns (rest: seq<Piece>)
    requires s < |ss|
    ensures SectionsPieces(ss) == SectionsPieces(ss[..s]) + SectionPieces(s, ss[s]) + rest
    decreases |ss|
  {
    hide SectionPieces;
    var n := |ss| - 1;
    if s == n {
      rest := [];
    } else {
      var r := SectionsSplit(ss[..n], s);
      assert ss[..n][..s] == ss[..s];
      rest := r + SectionPieces(n, ss[n]);
    }
  }

  lemma {:induction false} BodySplit(s: nat, body: seq<Line>, k: nat) returns (rest: seq<Piece>)
    requires k < |body|
    ensures BodyPieces(s, body) == BodyPieces(s, body[..k]) + LinePieces(s, k, body[k]) + rest
    decreases |body|
  {
    hide LinePieces;
    var n := |body| - 1;
    if k == n {
      rest := [];
    } else {
      var r := BodySplit(s, body[..n], k);
      assert body[..n][..k] == body[..k];
      rest := r + LinePieces(s, n, body[n]);
    }
  }

  /** A slot is where the text before it ends. */
  lemma SlotIsAt(ps: seq<Piece>, before: seq<Piece>, spot: Spot, text: Text, after: seq<Piece>)
    requires Apart(ps) && ps == before + [Slot(spot, text)] + after
    ensures Has(ps, spot) && OffsetOf(ps, spot) == |TextOf(before)| && WidthOf(ps, spot) == |text|
  {
    var i := |before|;
    assert ps[i] == Slot(spot, text) && ps[..i] == before;
    var j := SpotIndex(ps, spot);
  }

  lemma HeadPiecesText(ss: seq<Section>, s: nat, k: nat)
    requires s < |ss| && k <= |ss[s].body|
    ensures var here := [Fixed(ss[s].lead + HeadText(ss[s].head))] + BodyPieces(s, ss[s].body[..k]);
            |TextOf(SectionsPieces(ss[..s]) + here)| == LineAt(ss, s, k)
  {
    hide TextOf, SectionsPieces, BodyPieces, SectionsText, HeadText, BodyText;
    var h, b := [Fixed(ss[s].lead + HeadText(ss[s].head))], BodyPieces(s, ss[s].body[..k]);
    SectionsPiecesText(ss[..s]);
    TextOfOne(h[0]);
    BodyPiecesText(s, ss[s].body[..k]);
    TextOfConcat(h, b);
    TextOfConcat(SectionsPieces(ss[..s]), h + b);
  }

  /** A key's value is the slot for it. */
  lemma ValueIsAt(d: Document, s: nat, k: nat)
    requires Apart(Pieces(d)) && IsKey(d.sections, s, k)
    ensures Has(Pieces(d), ValueOf(s, k))
    ensures OffsetOf(Pieces(d), ValueOf(s, k)) == ValueStart(d.sections, s, k)
    ensures WidthOf(Pieces(d), ValueOf(s, k)) == |d.sections[s].body[k].value|
  {
    hide TextOf, SectionsPieces, BodyPieces, HeadText, LineAt, Apart, Has, OffsetOf, WidthOf;
    var ss := d.sections;
    var l := ss[s].body[k];
    var r1 := SectionsSplit(ss, s);
    var r2 := BodySplit(s, ss[s].body, k);
    var a, h, b := SectionsPieces(ss[..s]), [Fixed(ss[s].lead + HeadText(ss[s].head))], BodyPieces(s, ss[s].body[..k]);
    var f := Fixed(l.lead + l.key + l.eq);
    var before := a + (h + b) + [f];
    var after := [Fixed(l.tail)] + r2 + [Slot(EndOf(s), "")] + r1 + [Fixed(d.ending)];
    assert Pieces(d) == before + [Slot(ValueOf(s, k), l.value)] + after;
    SlotIsAt(Pieces(d), before, ValueOf(s, k), l.value, after);
    HeadPiecesText(ss, s, k);
    TextOfOne(f);
    TextOfConcat(a + (h + b), [f]);
  }

  /** And the end of a section's lines is the slot for new ones. */
  lemma EndIsAt(d: Document, s: nat)
    requires Apart(Pieces(d)) && s < |d.sections|
    ensures Has(Pieces(d), EndOf(s))
    ensures OffsetOf(Pieces(d), EndOf(s)) == BodyEnd(d.sections, s)
    ensures WidthOf(Pieces(d), EndOf(s)) == 0
  {
    hide TextOf, SectionsPieces, BodyPieces, HeadText, LineAt, Apart, Has, OffsetOf, WidthOf;
    var ss := d.sections;
    var r1 := SectionsSplit(ss, s);
    var body := ss[s].body;
    assert body[..|body|] == body;
    var a, h, b := SectionsPieces(ss[..s]), [Fixed(ss[s].lead + HeadText(ss[s].head))], BodyPieces(s, body);
    var before, after := a + (h + b), r1 + [Fixed(d.ending)];
    assert Pieces(d) == before + [Slot(EndOf(s), "")] + after;
    SlotIsAt(Pieces(d), before, EndOf(s), "", after);
    HeadPiecesText(ss, s, |body|);
  }

  // ---------- the end of a section's last line ----------

  lemma {:induction false} SectionsTextSplit(ss: seq<Section>, s: nat) returns (rest: Text)
    requires s < |ss|
    ensures SectionsText(ss) == SectionsText(ss[..s]) + SectionText(ss[s]) + rest
    ensures s == |ss| - 1 ==> rest == ""
    decreases |ss|
  {
    hide SectionText;
    var n := |ss| - 1;
    if s == n {
      rest := "";
    } else {
      var r := SectionsTextSplit(ss[..n], s);
      assert ss[..n][..s] == ss[..s];
      rest := r + SectionText(ss[n]);
    }
  }

  /** A section's text, cut where its last expression ends: what is left is the rest of that line. */
  lemma SectionCut(ss: seq<Section>, s: nat) returns (before: Text, rest: Text)
    requires HasLine(ss, s) && GoodSection(ss[s])
    ensures SectionText(ss[s]) == before + rest
    ensures SectionStart(ss, s) + |before| == LastOf(ss, s)
    ensures SectionStart(ss, s) + |before| + |rest| == BodyEnd(ss, s)
    ensures forall i :: 0 <= i < |rest| && rest[i] == '\n' ==> i == |rest| - 1
    ensures SectionEnds(ss[s]) ==> EndsLine(rest)
  {
    hide SectionsText, BodyText;
    var sec := ss[s];
    var n := |sec.body|;
    assert sec.body[..n] == sec.body;
    if n > 0 {
      var l := sec.body[n - 1];
      assert GoodLine(l);
      BodyTextLast(sec.body);
      before := sec.lead + HeadText(sec.head) + BodyText(sec.body[..n - 1]) + (l.lead + l.key + l.eq + l.value);
      rest := l.tail;
      TailEnds(l);
    } else {
      var h := sec.head.value;
      assert BodyText(sec.body) == "" by { EmptyBody(); }
      before := sec.lead + (h.open + h.key);
      rest := h.close;
      assert HeadText(sec.head) == h.open + h.key + h.close;
    }
  }

  /** The line a section's last expression is on ends where new lines are put. */
  lemma LastLineEnds(d: Document, s: nat)
    requires WellFormed(d) && HasLine(d.sections, s)
    ensures LastOf(d.sections, s) <= |Render(d)|
    ensures LineEnd(Render(d), LastOf(d.sections, s)) == BodyEnd(d.sections, s)
  {
    hide SectionsText, SectionText, LastOf, BodyEnd, LineEnd, GoodSection, SectionEnds;
    var before, rest := SectionCut(d.sections, s);
    var more := SectionsTextSplit(d.sections, s);
    var a := SectionsText(d.sections[..s]);
    assert Render(d) == (a + before) + rest + (more + d.ending);
    LineEndsBehind(a + before, rest, more + d.ending);
  }
}
