/** Cutting the lines of some keys out of the bytes (daemon/config/edit.go). */
module ConfigCuts {
  import opened Bytes
  import opened Splice
  import opened Toml
  import opened ConfigPlace
  import opened ConfigEdit
  import opened ConfigForm
  import opened ConfigBatch
  import opened ConfigFold
  import opened ConfigSame
  import opened ConfigText
  import opened ConfigRender
  import opened ConfigScan
  import opened ConfigDocument
  import opened ConfigLocate
  import opened ConfigSetAll
  import opened ConfigSetter
  import opened ConfigReads
  import opened ConfigUnset
  import opened ConfigPruned

  // ---------- cutting spans out ----------

  /**
   What is written once the cuts are made, and how much of the text that used up; a span cut already is passed over.
   */
  function CutTo(text: Text, cuts: seq<Change>): (Text, nat) {
    if cuts == [] then ("", 0)
    else
      var (out, at) := CutTo(text, cuts[..|cuts| - 1]);
      var c := cuts[|cuts| - 1];
      if c.start < at || |text| < c.start then (out, at) else (out + text[at..c.start], c.end)
  }

  method Cut(text: Text, cuts: seq<Change>) returns (out: Text)
    requires forall c :: c in cuts ==> c.start <= c.end <= |text|
    ensures CutTo(text, cuts).1 <= |text|
    ensures out == CutTo(text, cuts).0 + text[CutTo(text, cuts).1..]
  {
    var at := 0;
    out := "";
    for i := 0 to |cuts|
      invariant at <= |text|
      invariant CutTo(text, cuts[..i]) == (out, at)
    {
      assert cuts[..i + 1][..i] == cuts[..i];
      var c := cuts[i];
      if c.start >= at {
        out := out + text[at..c.start];
        at := c.end;
      }
    }
    assert cuts[..|cuts|] == cuts;
    out := out + text[at..];
  }

  /** The pieces without those that something is planned for. */
  function Left(ps: seq<Piece>, cs: seq<Planned>): Text {
    if ps == [] then ""
    else
      var p := ps[|ps| - 1];
      Left(ps[..|ps| - 1], cs) + (if p.Slot? && For(cs, p.spot) != [] then "" else p.text)
  }

  predicate LeftTo(text: Text, made: (Text, nat), end: nat, left: Text)
    requires end <= |text|
  {
    made.1 <= end && made.0 + text[made.1..end] == left
  }

  lemma CutToNext(text: Text, cuts: seq<Change>, c: Change)
    ensures var (out, at) := CutTo(text, cuts);
            CutTo(text, cuts + [c]) ==
              if c.start < at || |text| < c.start then (out, at) else (out + text[at..c.start], c.end)
  {
    assert (cuts + [c])[..|cuts|] == cuts;
  }

  /** Cutting a span once is cutting it any number of times. */
  lemma {:induction false} CutAgain(text: Text, cuts: seq<Change>, start: nat, width: nat, texts: seq<Text>)
    requires start + width <= |text| && width > 0 && texts != [] && CutTo(text, cuts).1 <= start
    ensures CutTo(text, cuts + ChangesAt(start, width, texts)) ==
            (CutTo(text, cuts).0 + text[CutTo(text, cuts).1..start], start + width)
    decreases |texts|
  {
    hide CutTo;
    var n := |texts| - 1;
    var c := Change(start, start + width, texts[n]);
    var most := cuts + ChangesAt(start, width, texts[..n]);
    assert cuts + ChangesAt(start, width, texts) == most + [c];
    CutToNext(text, most, c);
    if n == 0 {
      assert texts[..0] == [] && most == cuts;
    } else {
      CutAgain(text, cuts, start, width, texts[..n]);
    }
  }

  lemma SameCutAgain(text: Text, cuts: seq<Change>, start: nat, width: nat, texts: seq<Text>, left: Text)
    requires start + width <= |text| && width > 0 && texts != [] && LeftTo(text, CutTo(text, cuts), start, left)
    ensures LeftTo(text, CutTo(text, cuts + ChangesAt(start, width, texts)), start + width, left)
  {
    hide CutTo, ChangesAt;
    CutAgain(text, cuts, start, width, texts);
    assert text[start + width..start + width] == "";
  }

  predicate SlotsHaveText(ps: seq<Piece>) {
    forall i :: 0 <= i < |ps| && ps[i].Slot? ==> ps[i].text != ""
  }

  lemma LastLeft(ps: seq<Piece>, cs: seq<Planned>)
    requires ps != []
    ensures var qs, p := ps[..|ps| - 1], ps[|ps| - 1];
            var texts := if p.Slot? then For(cs, p.spot) else [];
            && TextOf(ps) == TextOf(qs) + p.text
            && (texts == [] ==> BySlot(ps, cs) == BySlot(qs, cs) && Left(ps, cs) == Left(qs, cs) + p.text)
            && (texts != [] ==>
                  && BySlot(ps, cs) == BySlot(qs, cs) + ChangesAt(|TextOf(qs)|, |p.text|, texts)
                  && Left(ps, cs) == Left(qs, cs))
  {
    hide For;
  }

  lemma {:induction false} CutLeaves(ps: seq<Piece>, cs: seq<Planned>, text: Text)
    requires SlotsHaveText(ps) && |TextOf(ps)| <= |text| && text[..|TextOf(ps)|] == TextOf(ps)
    ensures LeftTo(text, CutTo(text, BySlot(ps, cs)), |TextOf(ps)|, Left(ps, cs))
  {
    if ps != [] {
      var qs, p := ps[..|ps| - 1], ps[|ps| - 1];
      var texts := if p.Slot? then For(cs, p.spot) else [];
      assert SlotsHaveText(qs) && (p.Slot? ==> p.text != "") by {
        assert forall i :: 0 <= i < |qs| ==> qs[i] == ps[i];
      }
      LastLeft(ps, cs);
      hide For, CutTo, ChangesAt, BySlot, Left, TextOf, SlotsHaveText, LeftTo;
      var o, e := |TextOf(qs)|, |TextOf(ps)|;
      assert text[..o] == text[..e][..o];
      assert text[o..e] == text[..e][o..];
      CutLeaves(qs, cs, text);
      if texts != [] {
        SameCutAgain(text, BySlot(qs, cs), o, |p.text|, texts, Left(qs, cs));
      } else {
        LeftGoesOn(text, CutTo(text, BySlot(qs, cs)), o, e, Left(qs, cs));
      }
    }
  }

  lemma LeftGoesOn(text: Text, made: (Text, nat), end: nat, more: nat, left: Text)
    requires end <= more <= |text| && LeftTo(text, made, end, left)
    ensures LeftTo(text, made, more, left + text[end..more])
  {
    assert text[made.1..more] == text[made.1..end] + text[end..more];
  }

  /** Cutting every planned span, in the order they stand, leaves the rest. */
  lemma CutsLeave(ps: seq<Piece>, cs: seq<Planned>)
    requires Apart(ps) && SlotsHaveText(ps) && forall c :: c in cs ==> Has(ps, c.spot)
    ensures var m := CutTo(TextOf(ps), SortStable(AtSpans(ps, cs)));
            m.1 <= |TextOf(ps)| && m.0 + TextOf(ps)[m.1..] == Left(ps, cs)
  {
    hide SortStable, AtSpans, CutTo, BySlot, TextOf, Apart, Has, SlotsHaveText;
    var text := TextOf(ps);
    SortedIsBySlot(ps, cs);
    assert text[..|text|] == text;
    CutLeaves(ps, cs, text);
    var m := CutTo(text, BySlot(ps, cs));
    assert text[m.1..|text|] == text[m.1..];
  }

  // ---------- a document's keys, a line each ----------

  function LineCut(s: nat, k: nat, l: Line): Piece {
    if l.Assign? then Slot(ValueOf(s, k), LineText(l)) else Fixed(LineText(l))
  }

  function BodyCuts(s: nat, body: seq<Line>): (r: seq<Piece>)
    ensures |r| == |body|
    ensures forall k :: 0 <= k < |body| ==> r[k] == LineCut(s, k, body[k])
  {
    seq(|body|, k requires 0 <= k < |body| => LineCut(s, k, body[k]))
  }

  function SectionCuts(s: nat, sec: Section): seq<Piece> {
    [Fixed(sec.lead + HeadText(sec.head))] + BodyCuts(s, sec.body)
  }

  function SectionsCuts(ss: seq<Section>): seq<Piece> {
    if ss == [] then []
    else SectionsCuts(ss[..|ss| - 1]) + SectionCuts(|ss| - 1, ss[|ss| - 1])
  }

  function Cuts(d: Document): seq<Piece> {
    SectionsCuts(d.sections) + [Fixed(d.ending)]
  }

  lemma {:induction false} BodyCutsText(s: nat, body: seq<Line>)
    ensures TextOf(BodyCuts(s, body)) == BodyText(body)
    decreases |body|
  {
    hide LineText;
    var ps := BodyCuts(s, body);
    if body != [] {
      var n := |body| - 1;
      BodyCutsText(s, body[..n]);
      assert ps[..n] == BodyCuts(s, body[..n]);
    }
  }

  lemma SectionCutsText(s: nat, sec: Section)
    ensures TextOf(SectionCuts(s, sec)) == SectionText(sec)
  {
    hide TextOf, BodyCuts, HeadText, BodyText;
    TextOfOne(Fixed(sec.lead + HeadText(sec.head)));
    BodyCutsText(s, sec.body);
    TextOfConcat([Fixed(sec.lead + HeadText(sec.head))], BodyCuts(s, sec.body));
  }

  lemma {:induction false} SectionsCutsText(ss: seq<Section>)
    ensures TextOf(SectionsCuts(ss)) == SectionsText(ss)
  {
    hide SectionCuts, TextOf, SectionText;
    if ss == [] {
      EmptyText();
    } else {
      SectionsCutsText(ss[..|ss| - 1]);
      SectionCutsText(|ss| - 1, ss[|ss| - 1]);
      TextOfConcat(SectionsCuts(ss[..|ss| - 1]), SectionCuts(|ss| - 1, ss[|ss| - 1]));
    }
  }

  lemma CutsText(d: Document)
    ensures TextOf(Cuts(d)) == Render(d)
  {
    hide TextOf, SectionsCuts, SectionsText;
    SectionsCutsText(d.sections);
    TextOfOne(Fixed(d.ending));
    TextOfConcat(SectionsCuts(d.sections), [Fixed(d.ending)]);
  }

  /** A piece of a document's cuts: a key's line where it is, or text. */
  lemma {:induction false} CutIs(ss: seq<Section>, i: nat)
    requires i < |SectionsCuts(ss)|
    ensures var p := SectionsCuts(ss)[i];
            p.Slot? ==>
              && p.spot.ValueOf? && IsKey(ss, p.spot.section, p.spot.line)
              && p.text == LineText(ss[p.spot.section].body[p.spot.line])
              && |TextOf(SectionsCuts(ss)[..i])| == LineAt(ss, p.spot.section, p.spot.line)
  {
    hide TextOf, LineText, LineAt, SectionText;
    var n := |ss| - 1;
    var a, b := SectionsCuts(ss[..n]), SectionCuts(n, ss[n]);
    ConcatPrefix(a, b, i);
    if i < |a| {
      CutIs(ss[..n], i);
      var p := a[i];
      if p.Slot? {
        SameLineAt(ss, n, p.spot.section, p.spot.line);
      }
    } else if i > |a| {
      var k := i - |a| - 1;
      TextOfConcat(a, b[..k + 1]);
      SectionsCutsText(ss[..n]);
      CutsBefore(ss, n, k);
    }
  }

  lemma SameLineAt(ss: seq<Section>, n: nat, s: nat, k: nat)
    requires n <= |ss| && s < n && k < |ss[s].body|
    ensures LineAt(ss[..n], s, k) == LineAt(ss, s, k)
  {
    hide BodyText, HeadText;
    assert ss[..n][..s] == ss[..s];
  }

  lemma CutsBefore(ss: seq<Section>, s: nat, k: nat)
    requires s < |ss| && k < |ss[s].body|
    ensures |SectionsText(ss[..s])| + |TextOf(SectionCuts(s, ss[s])[..k + 1])| == LineAt(ss, s, k)
  {
    hide TextOf, BodyText, HeadText, SectionsText;
    var h, b := [Fixed(ss[s].lead + HeadText(ss[s].head))], BodyCuts(s, ss[s].body);
    assert SectionCuts(s, ss[s])[..k + 1] == h + b[..k];
    assert b[..k] == BodyCuts(s, ss[s].body[..k]);
    TextOfOne(h[0]);
    BodyCutsText(s, ss[s].body[..k]);
    TextOfConcat(h, b[..k]);
  }

  lemma {:induction false} LaterLineAt(ss: seq<Section>, s: nat, k: nat, s': nat, k': nat)
    requires IsKey(ss, s, k) && IsKey(ss, s', k') && (s < s' || (s == s' && k < k'))
    requires LineText(ss[s].body[k]) != ""
    ensures LineAt(ss, s, k) < LineAt(ss, s', k')
    decreases s'
  {
    hide LineText, LineAt;
    LineAtNext(ss, s, k);
    if s == s' {
      LaterLine(ss, s, k + 1, k');
    } else {
      LaterLine(ss, s, k + 1, |ss[s].body|);
      NextSection(ss, s);
      LaterSection(ss, s + 1, s');
      LineAtStart(ss, s');
      LaterLine(ss, s', 0, k');
    }
  }

  lemma {:induction false} LaterSection(ss: seq<Section>, s: nat, s': nat)
    requires s <= s' <= |ss|
    ensures SectionStart(ss, s) <= SectionStart(ss, s')
    decreases s'
  {
    hide SectionStart, LineAt;
    if s < s' {
      LaterSection(ss, s, s' - 1);
      NextSection(ss, s' - 1);
      LineAtStart(ss, s' - 1);
      LaterLine(ss, s' - 1, 0, |ss[s' - 1].body|);
    }
  }

  lemma {:induction false} CutsInOrder(ss: seq<Section>, i: nat, j: nat)
    requires i < j < |SectionsCuts(ss)| && SectionsCuts(ss)[i].Slot? && SectionsCuts(ss)[j].Slot?
    ensures var a, b := SectionsCuts(ss)[i].spot, SectionsCuts(ss)[j].spot;
            a.ValueOf? && b.ValueOf? && (a.section < b.section || (a.section == b.section && a.line < b.line))
  {
    hide LineText;
    var n := |ss| - 1;
    var a := SectionsCuts(ss[..n]);
    if j < |a| {
      CutsInOrder(ss[..n], i, j);
    } else if i < |a| {
      CutIs(ss[..n], i);
    }
  }

  /** A cut takes up text, and the cuts behind it begin behind that. */
  lemma CutIsBefore(d: Document, i: nat, j: nat)
    requires WellFormed(d) && i < j < |SectionsCuts(d.sections)|
    requires SectionsCuts(d.sections)[i].Slot? && SectionsCuts(d.sections)[j].Slot?
    ensures SectionsCuts(d.sections)[i].spot != SectionsCuts(d.sections)[j].spot
    ensures |TextOf(SectionsCuts(d.sections)[..i])| < |TextOf(SectionsCuts(d.sections)[..j])|
  {
    hide SectionsCuts, TextOf, LineAt, LineText, WellFormed;
    var ss := SectionsCuts(d.sections);
    CutIs(d.sections, i);
    CutIs(d.sections, j);
    CutsInOrder(d.sections, i, j);
    KeyHasText(d, ss[i].spot.section, ss[i].spot.line);
    LaterLineAt(d.sections, ss[i].spot.section, ss[i].spot.line, ss[j].spot.section, ss[j].spot.line);
  }

  lemma CutsApart(d: Document)
    requires WellFormed(d)
    ensures Apart(Cuts(d)) && SlotsHaveText(Cuts(d))
  {
    hide SectionsCuts, TextOf, LineAt, LineText, WellFormed;
    var ps, ss := Cuts(d), SectionsCuts(d.sections);
    forall i | 0 <= i < |ps| && ps[i].Slot?
      ensures i < |ss| && ps[i] == ss[i] && ps[..i] == ss[..i]
      ensures ps[i].text != ""
    {
      CutIs(d.sections, i);
      KeyHasText(d, ps[i].spot.section, ps[i].spot.line);
    }
    forall i, j | 0 <= i < j < |ps| && ps[i].Slot? && ps[j].Slot?
      ensures ps[i].spot != ps[j].spot && |TextOf(ps[..i])| < |TextOf(ps[..j])|
    {
      CutIsBefore(d, i, j);
    }
  }

  lemma KeyHasText(d: Document, s: nat, k: nat)
    requires WellFormed(d) && IsKey(d.sections, s, k)
    ensures LineText(d.sections[s].body[k]) != ""
  {
    assert GoodSection(d.sections[s]);
    assert GoodLine(d.sections[s].body[k]);
  }

  /** A key's line is a cut. */
  lemma {:induction false} CutFor(ss: seq<Section>, s: nat, k: nat) returns (i: nat)
    requires IsKey(ss, s, k)
    ensures i < |SectionsCuts(ss)| && SectionsCuts(ss)[i] == Slot(ValueOf(s, k), LineText(ss[s].body[k]))
    decreases |ss|
  {
    hide LineText;
    var n := |ss| - 1;
    if s < n {
      i := CutFor(ss[..n], s, k);
    } else {
      i := |SectionsCuts(ss[..n])| + 1 + k;
    }
  }

  /** The span of a key's line is its cut. */
  lemma LineIsCut(d: Document, s: nat, k: nat)
    requires WellFormed(d) && IsKey(d.sections, s, k)
    ensures Has(Cuts(d), ValueOf(s, k))
    ensures AtSpan(Cuts(d), Planned(ValueOf(s, k), "")) ==
            Change(LineAt(d.sections, s, k), LineAt(d.sections, s, k + 1), "")
  {
    hide SectionsCuts, TextOf, LineAt, LineText, OffsetOf, WidthOf, Apart;
    CutsApart(d);
    var i := CutFor(d.sections, s, k);
    CutIs(d.sections, i);
    var ps, ss := Cuts(d), SectionsCuts(d.sections);
    assert ps[i] == ss[i] && ps[..i] == ss[..i];
    var before, after := ps[..i], ps[i + 1..];
    assert ps == before + [Slot(ValueOf(s, k), LineText(d.sections[s].body[k]))] + after;
    SlotIsAt(ps, before, ValueOf(s, k), LineText(d.sections[s].body[k]), after);
    LineAtNext(d.sections, s, k);
  }

  // ---------- what is left is the document without those keys ----------

  /** What is planned for cutting is what has one of the paths. */
  ghost predicate CutsAre(ss: seq<Section>, cs: seq<Planned>, paths: seq<Path>) {
    forall s: nat, k: nat :: IsKey(ss, s, k) ==>
      (For(cs, ValueOf(s, k)) != [] <==> BaseOf(ss[s]) + ss[s].body[k].rel in paths)
  }

  lemma {:induction false} LeftConcat(a: seq<Piece>, b: seq<Piece>, cs: seq<Planned>)
    ensures Left(a + b, cs) == Left(a, cs) + Left(b, cs)
  {
    hide For;
    if b == [] {
      assert a + b == a;
    } else {
      assert (a + b)[..|a + b| - 1] == a + b[..|b| - 1];
      LeftConcat(a, b[..|b| - 1], cs);
    }
  }

  lemma LeftFixed(t: Text, cs: seq<Planned>)
    ensures Left([Fixed(t)], cs) == t
  {
    assert [Fixed(t)][..0] == [];
  }

  lemma {:induction false} LeftBody(ss: seq<Section>, s: nat, n: nat, cs: seq<Planned>, paths: seq<Path>)
    requires s < |ss| && n <= |ss[s].body| && CutsAre(ss, cs, paths)
    ensures Left(BodyCuts(s, ss[s].body[..n]), cs) == BodyText(Keep(BaseOf(ss[s]), ss[s].body[..n], paths))
    decreases n
  {
    hide For, LineText, BaseOf;
    var body := ss[s].body[..n];
    if n > 0 {
      var ps := BodyCuts(s, body);
      LeftBody(ss, s, n - 1, cs, paths);
      assert body[..n - 1] == ss[s].body[..n - 1];
      assert ps[..n - 1] == BodyCuts(s, body[..n - 1]);
      assert body[n - 1].Assign? ==> IsKey(ss, s, n - 1);
      var kept := Keep(BaseOf(ss[s]), body, paths);
      var most := Keep(BaseOf(ss[s]), body[..n - 1], paths);
      if Gone(body[n - 1], BaseOf(ss[s]), paths) {
        assert kept == most;
      } else {
        assert kept[..|kept| - 1] == most;
      }
    }
  }

  lemma LeftSection(ss: seq<Section>, s: nat, cs: seq<Planned>, paths: seq<Path>)
    requires s < |ss| && CutsAre(ss, cs, paths)
    ensures LooseOf(ss, s, paths) + Left(SectionCuts(s, ss[s]), cs) ==
            SectionText(PrunedSection(ss, s, paths)) + LooseOf(ss, s + 1, paths)
  {
    hide For, LineText, BodyText, Keep, Left, BodyCuts, HeadText, CutsAre;
    var sec, base := ss[s], BaseOf(ss[s]);
    LeftBody(ss, s, |sec.body|, cs, paths);
    assert sec.body[..|sec.body|] == sec.body;
    LeftConcat([Fixed(sec.lead + HeadText(sec.head))], BodyCuts(s, sec.body), cs);
    LeftFixed(sec.lead + HeadText(sec.head), cs);
    var kept := Keep(base, sec.body, paths);
    var n := ToLastKey(kept);
    assert kept == kept[..n] + kept[n..];
    BodyTextConcat(kept[..n], kept[n..]);
    var a, b, c, t, l := LooseOf(ss, s, paths), sec.lead, HeadText(sec.head), BodyText(kept[..n]), BodyText(kept[n..]);
    assert a + ((b + c) + (t + l)) == ((a + b) + c + t) + l;
  }

  lemma {:induction false} LeftSections(ss: seq<Section>, n: nat, cs: seq<Planned>, paths: seq<Path>)
    requires n <= |ss| && CutsAre(ss, cs, paths)
    ensures Left(SectionsCuts(ss[..n]), cs) == SectionsText(PrunedSections(ss, paths)[..n]) + LooseOf(ss, n, paths)
    decreases n
  {
    hide For, Left, SectionCuts, PrunedSection, LooseOf, SectionText, CutsAre;
    if n == 0 {
      assert ss[..0] == [] && PrunedSections(ss, paths)[..0] == [];
      assert Left([], cs) == "" && LooseOf(ss, 0, paths) == "" by { NothingLeft(ss, cs, paths); }
    } else {
      LeftSections(ss, n - 1, cs, paths);
      LeftSection(ss, n - 1, cs, paths);
      var rs := PrunedSections(ss, paths);
      assert ss[..n][..n - 1] == ss[..n - 1] && rs[..n][..n - 1] == rs[..n - 1];
      LeftConcat(SectionsCuts(ss[..n - 1]), SectionCuts(n - 1, ss[n - 1]), cs);
      var a, b := SectionsText(rs[..n - 1]), LooseOf(ss, n - 1, paths);
      Regrouped(a, b, Left(SectionCuts(n - 1, ss[n - 1]), cs));
      Regrouped(a, SectionText(rs[n - 1]), LooseOf(ss, n, paths));
    }
  }

  lemma NothingLeft(ss: seq<Section>, cs: seq<Planned>, paths: seq<Path>)
    ensures Left([], cs) == "" && LooseOf(ss, 0, paths) == ""
  {
  }

  lemma LeftIsPruned(d: Document, cs: seq<Planned>, paths: seq<Path>)
    requires CutsAre(d.sections, cs, paths)
    ensures Left(Cuts(d), cs) == Render(Pruned(d, paths))
  {
    hide For, Left, SectionsCuts, PrunedSections, LooseOf, SectionsText, CutsAre;
    var n := |d.sections|;
    LeftSections(d.sections, n, cs, paths);
    var rs := PrunedSections(d.sections, paths);
    assert d.sections[..n] == d.sections && rs[..n] == rs;
    LeftConcat(SectionsCuts(d.sections), [Fixed(d.ending)], cs);
    LeftFixed(d.ending, cs);
    Regrouped(SectionsText(rs), LooseOf(d.sections, n, paths), d.ending);
  }

  // ---------- where the lines of keys are ----------

  /** A line starts where the line before it ended. */
  lemma LineStartsThere(d: Document, s: nat, k: nat)
    requires WellFormed(d) && IsKey(d.sections, s, k)
    ensures ExprStart(d.sections, s, k) <= |Render(d)|
    ensures LineStart(Render(d), ExprStart(d.sections, s, k)) == LineAt(d.sections, s, k)
  {
    hide SectionsText, LineText, GoodLine, BodyText, HeadText;
    var ss := d.sections;
    var sec, l := ss[s], ss[s].body[k];
    assert GoodSection(sec);
    assert GoodLine(l);
    var more := SectionsTextSplit(ss, s);
    var rest := BodyTextSplit(sec.body, k);
    var top, body := SectionsText(ss[..s]) + (sec.lead + HeadText(sec.head)), BodyText(sec.body[..k]);
    LineWithLead(l);
    var value := l.key + l.eq + l.value + l.tail;
    var after := value + (rest + (more + d.ending));
    assert Render(d) == (top + body) + l.lead + after;
    BeforeEnds(d, s, k);
    LeadIsBlank(l);
    hide Render;
    StartsBehind(top + body, l.lead, after);
  }

  lemma LineWithLead(l: Line)
    requires l.Assign?
    ensures LineText(l) == l.lead + (l.key + l.eq + l.value + l.tail)
  {
  }

  lemma LeadIsBlank(l: Line)
    requires GoodLine(l) && l.Assign?
    ensures '\n' !in l.lead
  {
    assert forall i :: 0 <= i < |l.lead| ==> Blank(l.lead[i]);
  }

  lemma StartsBehind(before: Text, lead: Text, after: Text)
    requires (before == "" || EndsLine(before)) && '\n' !in lead
    ensures LineStart(before + lead + after, |before| + |lead|) == |before|
  {
    var data, n := before + lead + after, |before| + |lead|;
    var r := LineStart(data, n);
    forall j | |before| <= j < n
      ensures data[j] != '\n'
    {
      assert data[j] == lead[j - |before|];
    }
    forall j | r <= j < n
      ensures data[j] != '\n'
    {
      assert data[j] == data[r..n][j - r];
    }
    assert before != "" ==> data[|before| - 1] == before[|before| - 1];
  }

  lemma BeforeEnds(d: Document, s: nat, k: nat)
    requires WellFormed(d) && IsKey(d.sections, s, k)
    ensures var sec := d.sections[s];
            var before := SectionsText(d.sections[..s]) + (sec.lead + HeadText(sec.head)) + BodyText(sec.body[..k]);
            before == "" || EndsLine(before)
  {
    hide SectionsText, LineText, GoodLine;
    var sec := d.sections[s];
    assert GoodSection(sec);
    var top, head, body := SectionsText(d.sections[..s]), sec.lead + HeadText(sec.head), BodyText(sec.body[..k]);
    if k > 0 {
      EndsBody(sec.body[..k]);
      EndsWith(top + head, body);
    } else {
      assert body == "" by { EmptyBody(); }
      assert top + head + body == top + head;
      if s > 0 {
        EndsWith(sec.lead + (sec.head.value.open + sec.head.value.key), sec.head.value.close);
        assert head == sec.lead + (sec.head.value.open + sec.head.value.key) + sec.head.value.close;
        EndsWith(top, head);
      } else {
        assert head == "";
        assert top == "" by { NoSections(d.sections); }
      }
    }
  }

  lemma NoSections(ss: seq<Section>)
    ensures SectionsText(ss[..0]) == ""
  {
  }

  /** And ends where the next one starts. */
  lemma LineEndsThere(d: Document, s: nat, k: nat)
    requires WellFormed(d) && IsKey(d.sections, s, k)
    ensures ExprEnd(d.sections, s, k) <= |Render(d)|
    ensures LineEnd(Render(d), ExprEnd(d.sections, s, k)) == LineAt(d.sections, s, k + 1)
  {
    hide SectionsText, LineText, GoodLine, BodyText, HeadText, Render;
    var ss := d.sections;
    var sec, l := ss[s], ss[s].body[k];
    assert GoodSection(sec);
    assert GoodLine(l);
    if k == |sec.body| - 1 {
      LastLineEnds(d, s);
    } else {
      var before, after := LineSplit(d, s, k);
      TailEnds(l);
      TailIsOneLine(l);
      LineEndsBehind(before, l.tail, after);
      LineAtNext(ss, s, k);
      LineLength(l);
    }
  }

  lemma LineLength(l: Line)
    requires l.Assign?
    ensures |LineText(l)| == |l.lead| + |l.key| + |l.eq| + |l.value| + |l.tail|
  {
  }

  lemma TailIsOneLine(l: Line)
    requires GoodLine(l) && l.Assign?
    ensures forall i :: 0 <= i < |l.tail| && l.tail[i] == '\n' ==> i == |l.tail| - 1
  {
  }

  lemma LineSplit(d: Document, s: nat, k: nat) returns (before: Text, after: Text)
    requires IsKey(d.sections, s, k)
    ensures Render(d) == before + d.sections[s].body[k].tail + after
    ensures |before| == ExprEnd(d.sections, s, k)
  {
    hide SectionsText, BodyText, HeadText, LineText;
    var ss := d.sections;
    var sec, l := ss[s], ss[s].body[k];
    var more := SectionsTextSplit(ss, s);
    var rest := BodyTextSplit(sec.body, k);
    LineFrameHere(l);
    var e := l.lead + l.key + l.eq + l.value;
    before := SectionsText(ss[..s]) + (sec.lead + HeadText(sec.head)) + BodyText(sec.body[..k]) + e;
    after := rest + more + d.ending;
    assert Render(d) == before + l.tail + after;
  }

  lemma LineFrameHere(l: Line)
    requires l.Assign?
    ensures LineText(l) == l.lead + l.key + l.eq + l.value + l.tail
  {
  }

  // ---------- all of it ----------

  /** What taking out some keys comes to. */
  ghost function UnsetAllOf(d: Document, paths: seq<Path>, lib: Library): SetResult
    requires WellFormed(d)
  {
    if !Valid(Entries(d), lib.arrays) then Fail(NotToml)
    else if exists i :: 0 <= i < |paths| && !Reachable(d, paths[i]) then Fail(InsideValue)
    else Done(Pruned(d, paths))
  }

  function PlannedCuts(es: seq<Entry>, paths: seq<Path>): seq<Planned> {
    if paths == [] then []
    else
      var x := FirstSet(es, paths[|paths| - 1]);
      PlannedCuts(es, paths[..|paths| - 1]) +
      (if x.Some? then [Planned(ValueOf(x.value.section, x.value.line), "")] else [])
  }

  lemma {:induction false} CutsFind(d: Document, paths: seq<Path>, arrays: seq<Claim> -> bool, s: nat, k: nat)
    requires Valid(Entries(d), arrays) && IsKey(d.sections, s, k)
    requires forall i :: 0 <= i < |paths| ==> !InArray(Entries(d), paths[i])
    ensures For(PlannedCuts(Entries(d), paths), ValueOf(s, k)) != [] <==>
              BaseOf(d.sections[s]) + d.sections[s].body[k].rel in paths
  {
    hide EntriesOf, InArray, Valid, BaseOf;
    var path := BaseOf(d.sections[s]) + d.sections[s].body[k].rel;
    if paths != [] {
      var n := |paths| - 1;
      CutsFind(d, paths[..n], arrays, s, k);
      var x := FirstSet(Entries(d), paths[n]);
      var cs, most := PlannedCuts(Entries(d), paths), PlannedCuts(Entries(d), paths[..n]);
      if x.Some? {
        assert cs[..|cs| - 1] == most;
        KeyIsFirst(d, arrays, s, k, paths[n]);
      } else {
        assert cs == most;
        KeyIsFirst(d, arrays, s, k, paths[n]);
      }
      assert path in paths <==> path in paths[..n] || path == paths[n];
    }
  }

  /** A key is the first, and only, one of its path; and no other path's. */
  lemma KeyIsFirst(d: Document, arrays: seq<Claim> -> bool, s: nat, k: nat, path: Path)
    requires Valid(Entries(d), arrays) && IsKey(d.sections, s, k) && !InArray(Entries(d), path)
    ensures var x := FirstSet(Entries(d), path);
            (x.Some? && x.value.section == s && x.value.line == k) <==>
              BaseOf(d.sections[s]) + d.sections[s].body[k].rel == path
  {
    hide InArray, ArrayPart;
    var own := BaseOf(d.sections[s]) + d.sections[s].body[k].rel;
    var y := Setting(s, k, BaseOf(d.sections[s]), own);
    EntriesSay(d.sections, y);
    var x := FirstSet(Entries(d), path);
    if x.Some? {
      EntriesSay(d.sections, x.value);
      PairIs(Entries(d), x.value, y);
    }
  }

  method PlanCut(d: Document, tables: seq<TableAt>, assignments: seq<AssignmentAt>, index: map<Text, AssignmentAt>,
      path: Path)
    returns (ok: bool, cut: Option<Change>)
    requires WellFormed(d) && NulFreeKeys(Entries(d)) && path != [] && NulFree(path)
    requires tables == TablesFor(d.sections, Entries(d)) && assignments == AssignmentsFor(d.sections, Entries(d))
    requires (forall a :: a in assignments ==> a.path != []) && index == Indexed(assignments)
    ensures ok <==> Reachable(d, path)
    ensures ok ==> var x := FirstSet(Entries(d), path);
              if x.None? then cut.None?
              else
                && IsKey(d.sections, x.value.section, x.value.line)
                && cut == Some(Change(LineAt(d.sections, x.value.section, x.value.line),
                                      LineAt(d.sections, x.value.section, x.value.line + 1), ""))
  {
    hide WellFormed, EntriesOf, TablesFor, AssignmentsFor, NulFree, NulFreeKeys, Id, Indexed, Reachable, LineAt,
         Render, LineStart, LineEnd, ExprStart, ExprEnd, ValueStart;
    ReachableIs(d, path);
    ok := ReachableIn(tables, assignments, path);
    cut := None;
    if !ok {
      return;
    }
    IndexFinds(d.sections, Entries(d), path);
    if Id(path) in index {
      var a := index[Id(path)];
      ghost var x := FirstSet(Entries(d), path).value;
      EntriesSay(d.sections, x);
      LineStartsThere(d, x.section, x.line);
      LineEndsThere(d, x.section, x.line);
      // Only blanks stand before the key on its line, so nothing shares it.
      cut := Some(Change(LineStart(Render(d), a.exprStart), LineEnd(Render(d), a.exprEnd), ""));
    }
  }

  /** Takes every key out, or says why not and writes nothing. */
  method UnsetAll(d: Document, paths: seq<Path>, lib: Library) returns (fault: Option<Fault>, out: Text)
    requires WellFormed(d) && NulFreeKeys(Entries(d))
    requires forall i :: 0 <= i < |paths| ==> paths[i] != [] && NulFree(paths[i])
    ensures match UnsetAllOf(d, paths, lib)
            case Done(r) => fault.None? && out == Render(r)
            case Fail(f) => fault == Some(f)
  {
    hide WellFormed, EntriesOf, TablesFor, AssignmentsFor, NulFree, NulFreeKeys, Id, Indexed, Reachable, LineAt,
         Render, Valid, Cuts, AtSpans, AtSpan, CutTo, SortStable, Has, Pruned, IsKey, PlannedCuts;
    out := "";
    if !Valid(Entries(d), lib.arrays) {
      return Some(NotToml), "";
    }
    var tables, assignments := ScanDocument(d);
    PathsAreKept(d.sections, Entries(d));
    var index := Index(assignments);
    var cuts: seq<Change> := [];
    NoSpans(d);
    for i := 0 to |paths|
      invariant forall j :: 0 <= j < i ==> Reachable(d, paths[j])
      invariant forall c :: c in PlannedCuts(Entries(d), paths[..i]) ==> Has(Cuts(d), c.spot)
      invariant cuts == AtSpans(Cuts(d), PlannedCuts(Entries(d), paths[..i]))
    {
      assert paths[..i + 1][..i] == paths[..i];
      var ok, cut := PlanCut(d, tables, assignments, index, paths[i]);
      if !ok {
        return Some(InsideValue), "";
      }
      PlannedCutsNext(Entries(d), paths[..i + 1]);
      if cut.Some? {
        NextSpan(d, PlannedCuts(Entries(d), paths[..i]), FirstSet(Entries(d), paths[i]).value);
        cuts := cuts + [cut.value];
      }
    }
    assert paths[..|paths|] == paths;
    if cuts == [] {
      CutIsPruned(d, paths, cuts, lib);
      SortedNone();
      assert Render(d)[0..] == Render(d);
      return None, Render(d);
    }
    CutIsPruned(d, paths, cuts, lib);
    out := Cut(Render(d), SortStable(cuts));
    fault := None;
  }

  lemma NoSpans(d: Document)
    ensures AtSpans(Cuts(d), []) == [] && PlannedCuts(Entries(d), []) == []
  {
  }

  lemma SortedNone()
    ensures SortStable([]) == [] && forall text :: CutTo(text, []) == ("", 0)
  {
  }

  lemma NextSpan(d: Document, most: seq<Planned>, x: Entry)
    requires WellFormed(d) && x in Entries(d) && x.Setting? && forall c :: c in most ==> Has(Cuts(d), c.spot)
    ensures IsKey(d.sections, x.section, x.line)
    ensures Has(Cuts(d), ValueOf(x.section, x.line))
    ensures AtSpans(Cuts(d), most + [Planned(ValueOf(x.section, x.line), "")]) ==
            AtSpans(Cuts(d), most) +
              [Change(LineAt(d.sections, x.section, x.line), LineAt(d.sections, x.section, x.line + 1), "")]
  {
    hide Cuts, Has, AtSpan, AtSpans, EntriesOf, LineAt, WellFormed;
    EntriesSay(d.sections, x);
    LineIsCut(d, x.section, x.line);
    SpanNext(Cuts(d), most, Planned(ValueOf(x.section, x.line), ""));
  }

  lemma PlannedCutsNext(es: seq<Entry>, paths: seq<Path>)
    requires paths != []
    ensures var most, x := PlannedCuts(es, paths[..|paths| - 1]), FirstSet(es, paths[|paths| - 1]);
            PlannedCuts(es, paths) ==
              if x.Some? then most + [Planned(ValueOf(x.value.section, x.value.line), "")] else most
  {
  }

  /** What is left by the cuts is the document without the keys. */
  lemma CutIsPruned(d: Document, paths: seq<Path>, cuts: seq<Change>, lib: Library)
    requires WellFormed(d) && Valid(Entries(d), lib.arrays)
    requires forall i :: 0 <= i < |paths| ==> Reachable(d, paths[i])
    requires forall c :: c in PlannedCuts(Entries(d), paths) ==> Has(Cuts(d), c.spot)
    requires cuts == AtSpans(Cuts(d), PlannedCuts(Entries(d), paths))
    ensures var m := CutTo(Render(d), SortStable(cuts));
            m.1 <= |Render(d)| && m.0 + Render(d)[m.1..] == Render(Pruned(d, paths))
    ensures forall c :: c in SortStable(cuts) ==> c.start <= c.end <= |Render(d)|
  {
    hide WellFormed, EntriesOf, Render, Valid, Cuts, AtSpans, CutTo, SortStable, Has, Pruned, PlannedCuts, Apart, Left,
         SlotsHaveText, InArray, For, BaseOf;
    CutsApart(d);
    CutsText(d);
    var cs := PlannedCuts(Entries(d), paths);
    CutsLeave(Cuts(d), cs);
    forall s: nat, k: nat | IsKey(d.sections, s, k)
      ensures For(cs, ValueOf(s, k)) != [] <==> BaseOf(d.sections[s]) + d.sections[s].body[k].rel in paths
    {
      CutsFind(d, paths, lib.arrays, s, k);
    }
    LeftIsPruned(d, cs, paths);
    SpansAreWithin(Cuts(d), cs);
  }
}
