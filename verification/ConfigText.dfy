/** The text a plan makes (daemon/config/edit.go): a document in pieces, and that filling its slots renders the plan. */
module ConfigText {
  import opened Bytes
  import opened Splice
  import opened Toml
  import opened TomlKeys
  import opened ConfigPlace
  import opened ConfigEdit
  import opened ConfigForm
  import opened ConfigBatch
  import opened ConfigFold
  import opened ConfigSame

  // ---------- a document in pieces ----------

  function LinePieces(s: nat, k: nat, l: Line): seq<Piece> {
    match l
    case Assign(lead, key, eq, value, tail, _, _) =>
      [Fixed(lead + key + eq), Slot(ValueOf(s, k), value), Fixed(tail)]
    case Other(text) => [Fixed(text)]
  }

  function BodyPieces(s: nat, body: seq<Line>): seq<Piece> {
    if body == [] then []
    else BodyPieces(s, body[..|body| - 1]) + LinePieces(s, |body| - 1, body[|body| - 1])
  }

  function SectionPieces(s: nat, sec: Section): seq<Piece> {
    [Fixed(sec.lead + HeadText(sec.head))] + BodyPieces(s, sec.body) + [Slot(EndOf(s), "")]
  }

  function SectionsPieces(ss: seq<Section>): seq<Piece> {
    if ss == [] then []
    else SectionsPieces(ss[..|ss| - 1]) + SectionPieces(|ss| - 1, ss[|ss| - 1])
  }

  function Pieces(d: Document): seq<Piece> {
    SectionsPieces(d.sections) + [Fixed(d.ending)]
  }

  lemma {:induction false} TextOfConcat(a: seq<Piece>, b: seq<Piece>)
    ensures TextOf(a + b) == TextOf(a) + TextOf(b)
  {
    if b == [] {
      assert a + b == a;
    } else {
      assert (a + b)[..|a + b| - 1] == a + b[..|b| - 1];
      TextOfConcat(a, b[..|b| - 1]);
    }
  }

  lemma TextOfOne(p: Piece)
    ensures TextOf([p]) == p.text
  {
    assert [p][..0] == [];
  }

  lemma LinePiecesText(s: nat, k: nat, l: Line)
    ensures TextOf(LinePieces(s, k, l)) == LineText(l)
  {
    match l
    case Assign(lead, key, eq, value, tail, _, _) =>
      var p, q, r := Fixed(lead + key + eq), Slot(ValueOf(s, k), value), Fixed(tail);
      TextOfOne(p);
      TextOfOne(q);
      TextOfOne(r);
      TextOfConcat([p], [q]);
      TextOfConcat([p] + [q], [r]);
      assert [p, q, r] == [p] + [q] + [r];
    case Other(text) =>
      TextOfOne(Fixed(text));
  }

  lemma {:induction false} BodyPiecesText(s: nat, body: seq<Line>)
    ensures TextOf(BodyPieces(s, body)) == BodyText(body)
  {
    hide LinePieces, TextOf, LineText;
    if body == [] {
      assert TextOf([]) == "" by { EmptyText(); }
    } else {
      BodyPiecesText(s, body[..|body| - 1]);
      LinePiecesText(s, |body| - 1, body[|body| - 1]);
      TextOfConcat(BodyPieces(s, body[..|body| - 1]), LinePieces(s, |body| - 1, body[|body| - 1]));
    }
  }

  lemma EmptyText()
    ensures TextOf([]) == ""
  {
  }

  lemma SectionPiecesText(s: nat, sec: Section)
    ensures TextOf(SectionPieces(s, sec)) == SectionText(sec)
  {
    hide TextOf, BodyPieces, HeadText, BodyText;
    var p, q := Fixed(sec.lead + HeadText(sec.head)), Slot(EndOf(s), "");
    TextOfOne(p);
    TextOfOne(q);
    BodyPiecesText(s, sec.body);
    TextOfConcat([p], BodyPieces(s, sec.body));
    TextOfConcat([p] + BodyPieces(s, sec.body), [q]);
  }

  lemma {:induction false} SectionsPiecesText(ss: seq<Section>)
    ensures TextOf(SectionsPieces(ss)) == SectionsText(ss)
  {
    hide SectionPieces, TextOf, SectionText;
    if ss == [] {
      EmptyText();
    } else {
      SectionsPiecesText(ss[..|ss| - 1]);
      SectionPiecesText(|ss| - 1, ss[|ss| - 1]);
      TextOfConcat(SectionsPieces(ss[..|ss| - 1]), SectionPieces(|ss| - 1, ss[|ss| - 1]));
    }
  }

  /** The pieces are the document's text. */
  lemma PiecesText(d: Document)
    ensures TextOf(Pieces(d)) == Render(d)
  {
    hide TextOf, SectionsPieces, SectionsText;
    SectionsPiecesText(d.sections);
    TextOfOne(Fixed(d.ending));
    TextOfConcat(SectionsPieces(d.sections), [Fixed(d.ending)]);
  }

  // ---------- the slots are apart ----------

  lemma {:induction false} ApartConcat(a: seq<Piece>, b: seq<Piece>)
    requires Apart(a) && Apart(b)
    requires forall i, j :: 0 <= i < |a| && 0 <= j < |b| && a[i].Slot? && b[j].Slot? ==>
               a[i].spot != b[j].spot && |TextOf(a[..i])| < |TextOf(a)| + |TextOf(b[..j])|
    ensures Apart(a + b)
  {
    var ps := a + b;
    forall i, j | 0 <= i < j < |ps| && ps[i].Slot? && ps[j].Slot?
      ensures ps[i].spot != ps[j].spot && |TextOf(ps[..i])| < |TextOf(ps[..j])|
    {
      ConcatPrefix(a, b, i);
      ConcatPrefix(a, b, j);
      if j >= |a| {
        TextOfConcat(a, b[..j - |a|]);
        if i >= |a| {
          TextOfConcat(a, b[..i - |a|]);
        }
      }
    }
  }

  lemma ConcatPrefix(a: seq<Piece>, b: seq<Piece>, i: nat)
    requires i <= |a + b|
    ensures i <= |a| ==> (a + b)[..i] == a[..i]
    ensures i >= |a| ==> (a + b)[..i] == a + b[..i - |a|]
  {
  }

  /** Within a section: every slot is a value, with text of its own. */
  ghost predicate ValueSlots(ps: seq<Piece>, s: nat, lines: nat) {
    && Apart(ps)
    && (forall i :: 0 <= i < |ps| && ps[i].Slot? ==>
         && ps[i].spot.ValueOf? && ps[i].spot.section == s && ps[i].spot.line < lines
         && |TextOf(ps[..i])| < |TextOf(ps)|)
  }

  lemma LineSlots(s: nat, k: nat, l: Line)
    requires GoodLine(l)
    ensures var ps := LinePieces(s, k, l);
            && Apart(ps)
            && forall i :: 0 <= i < |ps| && ps[i].Slot? ==>
                 ps[i].spot == ValueOf(s, k) && 0 < |TextOf(ps[..i])| < |TextOf(ps)|
  {
    if l.Assign? {
      var ps := LinePieces(s, k, l);
      assert ps[..1] == [ps[0]];
      TextOfOne(ps[0]);
      LinePiecesText(s, k, l);
    }
  }

  lemma {:induction false} BodySlots(s: nat, body: seq<Line>)
    requires forall k :: 0 <= k < |body| ==> GoodLine(body[k])
    ensures ValueSlots(BodyPieces(s, body), s, |body|)
  {
    hide LinePieces, TextOf;
    if body != [] {
      var n := |body| - 1;
      var a, b := BodyPieces(s, body[..n]), LinePieces(s, n, body[n]);
      BodySlots(s, body[..n]);
      LineSlots(s, n, body[n]);
      ApartConcat(a, b);
      TextOfConcat(a, b);
      forall i | 0 <= i < |a + b| && (a + b)[i].Slot?
        ensures |TextOf((a + b)[..i])| < |TextOf(a + b)|
      {
        ConcatPrefix(a, b, i);
        if i >= |a| {
          TextOfConcat(a, b[..i - |a|]);
        }
      }
    }
  }

  /** A section's slots: its values, and behind them the place for new lines. */
  lemma SectionSlots(s: nat, sec: Section)
    requires forall k :: 0 <= k < |sec.body| ==> GoodLine(sec.body[k])
    ensures var ps := SectionPieces(s, sec);
            && Apart(ps)
            && forall i :: 0 <= i < |ps| && ps[i].Slot? ==>
                 ps[i].spot.section == s && |TextOf(ps[..i])| >= |sec.lead + HeadText(sec.head)|
  {
    hide TextOf, BodyPieces, HeadText;
    var h, b, e := [Fixed(sec.lead + HeadText(sec.head))], BodyPieces(s, sec.body), [Slot(EndOf(s), "")];
    BodySlots(s, sec.body);
    assert Apart(h) && Apart(e);
    ApartConcat(h, b);
    TextOfConcat(h, b);
    TextOfOne(h[0]);
    var hb := h + b;
    forall i | 0 <= i < |hb| && hb[i].Slot?
      ensures hb[i].spot.ValueOf? && hb[i].spot.section == s
      ensures |TextOf(h)| <= |TextOf(hb[..i])| < |TextOf(hb)|
    {
      ConcatPrefix(h, b, i);
      TextOfConcat(h, b[..i - 1]);
    }
    assert e[..0] == [];
    EmptyText();
    ApartConcat(hb, e);
    forall i | 0 <= i < |hb + e| && (hb + e)[i].Slot?
      ensures (hb + e)[i].spot.section == s && |TextOf((hb + e)[..i])| >= |TextOf(h)|
    {
      ConcatPrefix(hb, e, i);
      if i == |hb| {
        assert hb + e[..0] == hb;
      }
    }
  }

  lemma {:induction false} SectionsSlots(ss: seq<Section>)
    requires forall s, k :: 0 <= s < |ss| && 0 <= k < |ss[s].body| ==> GoodLine(ss[s].body[k])
    requires forall s :: 0 < s < |ss| ==> ss[s].head.Some? && HeadText(ss[s].head) != ""
    ensures Apart(SectionsPieces(ss))
    ensures forall i :: 0 <= i < |SectionsPieces(ss)| && SectionsPieces(ss)[i].Slot? ==>
              SectionsPieces(ss)[i].spot.section < |ss|
  {
    hide SectionPieces, TextOf, HeadText;
    if ss != [] {
      var n := |ss| - 1;
      var a, b := SectionsPieces(ss[..n]), SectionPieces(n, ss[n]);
      SectionsSlots(ss[..n]);
      SectionSlots(n, ss[n]);
      forall i, j | 0 <= i < |a| && 0 <= j < |b| && a[i].Slot? && b[j].Slot?
        ensures a[i].spot != b[j].spot && |TextOf(a[..i])| < |TextOf(a)| + |TextOf(b[..j])|
      {
        TextOfPrefix(a, i);
      }
      ApartConcat(a, b);
    }
  }

  lemma PiecesApart(d: Document)
    requires WellFormed(d)
    ensures Apart(Pieces(d))
  {
    hide SectionsPieces, TextOf;
    forall s | 0 < s < |d.sections|
      ensures d.sections[s].head.Some? && HeadText(d.sections[s].head) != ""
    {
      assert GoodSection(d.sections[s]);
    }
    forall s, k | 0 <= s < |d.sections| && 0 <= k < |d.sections[s].body|
      ensures GoodLine(d.sections[s].body[k])
    {
      assert GoodSection(d.sections[s]);
    }
    SectionsSlots(d.sections);
    ApartConcat(SectionsPieces(d.sections), [Fixed(d.ending)]);
  }

  // ---------- what is planned for each slot ----------

  /** A new line's text, without its newline. */
  function LineFor(e: Edit, base: nat, st: Style): Text
    requires base < |e.path|
  {
    FormatPath(e.path[base..], st.removes) + " = " + e.literal
  }

  function PlannedFor(p: (Where, Edit), st: Style): Planned
    requires !p.0.NewTable? && (p.0.Into? ==> p.0.base < |p.1.path|)
  {
    match p.0
    case Replace(s, k) => Planned(ValueOf(s, k), p.1.literal)
    case Into(s, base) => Planned(EndOf(s), LineFor(p.1, base, st))
  }

  predicate Placed(puts: seq<(Where, Edit)>) {
    BasesFit(puts) && forall i :: 0 <= i < |puts| ==> !puts[i].0.NewTable?
  }

  function AllPlanned(puts: seq<(Where, Edit)>, st: Style): seq<Planned>
    requires Placed(puts)
  {
    if puts == [] then []
    else AllPlanned(puts[..|puts| - 1], st) + [PlannedFor(puts[|puts| - 1], st)]
  }

  lemma {:induction false} ValuesPlanned(puts: seq<(Where, Edit)>, s: nat, k: nat, st: Style)
    requires Placed(puts)
    ensures var texts := For(AllPlanned(puts, st), ValueOf(s, k));
            && (texts == [] <==> Replacement(puts, s, k).None?)
            && (texts != [] ==> texts[|texts| - 1] == Replacement(puts, s, k).value.literal)
  {
    hide LineFor;
    if puts != [] {
      ValuesPlanned(puts[..|puts| - 1], s, k, st);
      var ps := AllPlanned(puts, st);
      assert ps[..|ps| - 1] == AllPlanned(puts[..|puts| - 1], st);
    }
  }

  lemma {:induction false} LinesPlanned(puts: seq<(Where, Edit)>, s: nat, st: Style)
    requires Placed(puts) && GoodStyle(st)
    ensures var texts, lines := For(AllPlanned(puts, st), EndOf(s)), PutInto(puts, s, st);
            && |texts| == |lines|
            && forall i :: 0 <= i < |lines| ==> LineText(lines[i]) == texts[i] + st.nl
  {
    hide FormatPath;
    if puts != [] {
      var (w, e) := puts[|puts| - 1];
      LinesPlanned(puts[..|puts| - 1], s, st);
      var ps := AllPlanned(puts, st);
      assert ps[..|ps| - 1] == AllPlanned(puts[..|puts| - 1], st);
      if w.Into? {
        NewLineText(e, w.base, st);
      }
    }
  }

  lemma NewLineText(e: Edit, base: nat, st: Style)
    requires base < |e.path|
    ensures LineText(NewLine(e, base, st)) == LineFor(e, base, st) + st.nl
  {
    hide FormatPath;
  }

  // ---------- filling the slots renders the plan ----------

  /** No line is to go into any of these pieces. */
  predicate NoLines(ps: seq<Piece>, cs: seq<Planned>) {
    forall i :: 0 <= i < |ps| && ps[i].Slot? && ps[i].text == "" ==> For(cs, ps[i].spot) == []
  }

  lemma {:induction false} FilledConcat(a: seq<Piece>, b: seq<Piece>, cs: seq<Planned>, nl: Text)
    requires NoLines(b, cs)
    ensures Filled(a + b, cs, nl) == Filled(a, cs, nl) + Filled(b, cs, nl)
  {
    hide For;
    if b == [] {
      assert a + b == a;
    } else {
      assert (a + b)[..|a + b| - 1] == a + b[..|b| - 1];
      assert NoLines(b[..|b| - 1], cs) by {
        assert forall i :: 0 <= i < |b| - 1 ==> b[..|b| - 1][i] == b[i];
      }
      FilledConcat(a, b[..|b| - 1], cs, nl);
      assert (a + b)[|a + b| - 1] == b[|b| - 1];
    }
  }

  lemma FilledFixed(t: Text, cs: seq<Planned>, nl: Text)
    ensures Filled([Fixed(t)], cs, nl) == t
  {
    assert [Fixed(t)][..0] == [];
  }

  lemma FilledValue(s: nat, k: nat, value: Text, puts: seq<(Where, Edit)>, st: Style)
    requires Placed(puts) && value != "" && |For(AllPlanned(puts, st), ValueOf(s, k))| <= 1
    ensures Filled([Slot(ValueOf(s, k), value)], AllPlanned(puts, st), st.nl) ==
            if Replacement(puts, s, k).Some? then Replacement(puts, s, k).value.literal else value
  {
    hide AllPlanned, For;
    ValuesPlanned(puts, s, k, st);
    assert [Slot(ValueOf(s, k), value)][..0] == [];
  }

  lemma FilledLineText(s: nat, k: nat, l: Line, puts: seq<(Where, Edit)>, st: Style)
    requires Placed(puts) && GoodLine(l) && |For(AllPlanned(puts, st), ValueOf(s, k))| <= 1
    ensures Filled(LinePieces(s, k, l), AllPlanned(puts, st), st.nl) == LineText(FilledLine(s, k, l, puts))
  {
    hide Filled, For, AllPlanned, Replacement;
    var cs := AllPlanned(puts, st);
    match l
    case Assign(lead, key, eq, value, tail, _, _) =>
      var p, q, r := [Fixed(lead + key + eq)], [Slot(ValueOf(s, k), value)], [Fixed(tail)];
      FilledFixed(lead + key + eq, cs, st.nl);
      FilledFixed(tail, cs, st.nl);
      FilledValue(s, k, value, puts, st);
      FilledConcat(p, q, cs, st.nl);
      FilledConcat(p + q, r, cs, st.nl);
      assert LinePieces(s, k, l) == p + q + r;
    case Other(text) =>
      FilledFixed(text, cs, st.nl);
  }

  /** Each value of the body is replaced once at the most. */
  predicate OnceInBody(s: nat, lines: nat, cs: seq<Planned>) {
    forall k :: 0 <= k < lines ==> |For(cs, ValueOf(s, k))| <= 1
  }

  lemma LineNoLines(s: nat, k: nat, l: Line, cs: seq<Planned>)
    requires GoodLine(l)
    ensures NoLines(LinePieces(s, k, l), cs)
  {
    hide For;
  }

  lemma NoLinesConcat(a: seq<Piece>, b: seq<Piece>, cs: seq<Planned>)
    requires NoLines(a, cs) && NoLines(b, cs)
    ensures NoLines(a + b, cs)
  {
    hide For;
  }

  lemma {:induction false} FilledBodyText(s: nat, body: seq<Line>, puts: seq<(Where, Edit)>, st: Style)
    requires Placed(puts) && (forall k :: 0 <= k < |body| ==> GoodLine(body[k]))
    requires OnceInBody(s, |body|, AllPlanned(puts, st))
    ensures Filled(BodyPieces(s, body), AllPlanned(puts, st), st.nl) == BodyText(FilledBody(s, body, puts))
    ensures NoLines(BodyPieces(s, body), AllPlanned(puts, st))
  {
    hide For, AllPlanned, LinePieces, FilledLine, LineText, Filled;
    var cs := AllPlanned(puts, st);
    if body == [] {
      NothingFilled(cs, st.nl);
    } else {
      var n := |body| - 1;
      FilledBodyText(s, body[..n], puts, st);
      LineNoLines(s, n, body[n], cs);
      NoLinesConcat(BodyPieces(s, body[..n]), LinePieces(s, n, body[n]), cs);
      FilledLineText(s, n, body[n], puts, st);
      FilledConcat(BodyPieces(s, body[..n]), LinePieces(s, n, body[n]), cs, st.nl);
      assert FilledBody(s, body, puts)[..n] == FilledBody(s, body[..n], puts);
    }
  }

  lemma NothingFilled(cs: seq<Planned>, nl: Text)
    ensures Filled([], cs, nl) == ""
  {
  }

  lemma WithLinesNext(t: Text, lines: seq<Text>, nl: Text)
    requires lines != []
    ensures WithLines(t, lines, nl) ==
            Ended(WithLines(t, lines[..|lines| - 1], nl), nl) + (lines[|lines| - 1] + nl)
  {
    hide Ended;
  }

  lemma EndedConcat(a: Text, b: Text, nl: Text)
    requires b != ""
    ensures Ended(a + b, nl) == a + Ended(b, nl) && Ended(b, nl) != ""
  {
    assert (a + b)[|a + b| - 1] == b[|b| - 1];
    assert (a + b) + nl == a + (b + nl);
  }

  /** Lines are put behind whatever is there already, once that ends its line. */
  lemma {:induction false} WithLinesConcat(a: Text, b: Text, lines: seq<Text>, nl: Text)
    requires b != ""
    ensures WithLines(a + b, lines, nl) == a + WithLines(b, lines, nl) && WithLines(b, lines, nl) != ""
  {
    if lines != [] {
      WithLinesNext(a + b, lines, nl);
      WithLinesNext(b, lines, nl);
      WithLinesConcat(a, b, lines[..|lines| - 1], nl);
      hide WithLines, Ended;
      EndedConcat(a, WithLines(b, lines[..|lines| - 1], nl), nl);
    }
  }

  lemma {:induction false} BodyTextConcat(a: seq<Line>, b: seq<Line>)
    ensures BodyText(a + b) == BodyText(a) + BodyText(b)
  {
    hide LineText;
    if b == [] {
      assert a + b == a;
    } else {
      assert (a + b)[..|a + b| - 1] == a + b[..|b| - 1];
      BodyTextConcat(a, b[..|b| - 1]);
    }
  }

  lemma EndsWith(a: Text, b: Text)
    requires EndsLine(b)
    ensures EndsLine(a + b)
  {
  }

  lemma OneLineBody(l: Line)
    ensures BodyText([l]) == LineText(l)
  {
    assert [l][..0] == [];
    assert BodyText([l][..0]) == "";
  }

  lemma NoLinesWith(t: Text, nl: Text)
    ensures WithLines(t, [], nl) == t
  {
  }

  /** Lines that are some texts with a newline. */
  predicate LinesAre(texts: seq<Text>, lines: seq<Line>, nl: Text) {
    |texts| == |lines| && forall i :: 0 <= i < |lines| ==> LineText(lines[i]) == texts[i] + nl
  }

  lemma LinesAreNext(texts: seq<Text>, lines: seq<Line>, nl: Text)
    requires LinesAre(texts, lines, nl) && lines != []
    ensures |texts| == |lines| && LinesAre(texts[..|lines| - 1], lines[..|lines| - 1], nl)
    ensures LineText(lines[|lines| - 1]) == texts[|lines| - 1] + nl
  {
    hide LineText;
  }

  lemma {:induction false} WithLinesIsBody(t: Text, texts: seq<Text>, lines: seq<Line>, nl: Text)
    requires LinesAre(texts, lines, nl) && lines != [] && (nl == "\n" || nl == "\r\n")
    ensures WithLines(t, texts, nl) == Ended(t, nl) + BodyText(lines)
    ensures EndsLine(BodyText(lines))
    decreases |lines|
  {
    hide LineText, WithLines, BodyText, Ended, EndsLine, LinesAre;
    var n := |lines| - 1;
    LinesAreNext(texts, lines, nl);
    BodyEnds(lines, nl, texts[n]);
    if n == 0 {
      OnlyLine(t, texts, lines, nl);
    } else {
      WithLinesIsBody(t, texts[..n], lines[..n], nl);
      NextLine(t, texts, lines, nl);
    }
  }

  lemma BodyEnds(lines: seq<Line>, nl: Text, text: Text)
    requires lines != [] && LineText(lines[|lines| - 1]) == text + nl && (nl == "\n" || nl == "\r\n")
    ensures EndsLine(BodyText(lines))
  {
    hide LineText;
    var l := LineText(lines[|lines| - 1]);
    assert EndsLine(l);
    EndsWith(BodyText(lines[..|lines| - 1]), l);
  }

  lemma EndedIs(t: Text, nl: Text)
    requires EndsLine(t)
    ensures Ended(t, nl) == t
  {
  }

  lemma NextLine(t: Text, texts: seq<Text>, lines: seq<Line>, nl: Text)
    requires |texts| == |lines| > 1 && LineText(lines[|lines| - 1]) == texts[|lines| - 1] + nl
    requires WithLines(t, texts[..|lines| - 1], nl) == Ended(t, nl) + BodyText(lines[..|lines| - 1])
    requires EndsLine(BodyText(lines[..|lines| - 1]))
    ensures WithLines(t, texts, nl) == Ended(t, nl) + BodyText(lines)
  {
    hide LineText, WithLines, BodyText, Ended, EndsLine;
    var n := |lines| - 1;
    WithLinesNext(t, texts, nl);
    BodyTextLast(lines);
    var a, b, c := Ended(t, nl), BodyText(lines[..n]), LineText(lines[n]);
    EndsWith(a, b);
    EndedIs(a + b, nl);
    Regrouped(a, b, c);
  }

  lemma Regrouped(a: Text, b: Text, c: Text)
    ensures (a + b) + c == a + (b + c)
  {
  }

  lemma OnlyLine(t: Text, texts: seq<Text>, lines: seq<Line>, nl: Text)
    requires |texts| == 1 && |lines| == 1 && LineText(lines[0]) == texts[0] + nl
    ensures WithLines(t, texts, nl) == Ended(t, nl) + BodyText(lines)
  {
    hide LineText, Ended;
    WithLinesNext(t, texts, nl);
    NoLinesWith(t, nl);
    OneLineBody(lines[0]);
    assert texts[..0] == [] && lines == [lines[0]];
  }

  // ---------- ending a section, as text ----------

  lemma SectionTextEnds(sec: Section)
    requires GoodSection(sec) && (sec.head.Some? || sec.body != [])
    ensures SectionText(sec) != ""
    ensures EndsLine(SectionText(sec)) ==
            if sec.body != [] then EndsLine(sec.body[|sec.body| - 1].tail) else EndsLine(sec.head.value.close)
  {
    hide LineText, GoodLine, BodyText;
    var t := SectionText(sec);
    if sec.body != [] {
      var l := sec.body[|sec.body| - 1];
      assert GoodLine(l);
      TailEnds(l);
      BodyTextLast(sec.body);
      LineIsSomething(l);
      assert t[|t| - 1] == LineText(l)[|LineText(l)| - 1];
    } else {
      assert BodyText(sec.body) == "" by { EmptyBody(); }
      assert GoodHeader(sec.head.value);
      assert t[|t| - 1] == sec.head.value.close[|sec.head.value.close| - 1];
    }
  }

  lemma EmptyBody()
    ensures BodyText([]) == ""
  {
  }

  lemma BodyTextLast(body: seq<Line>)
    requires body != []
    ensures BodyText(body) == BodyText(body[..|body| - 1]) + LineText(body[|body| - 1])
  {
  }

  lemma LineIsSomething(l: Line)
    requires GoodLine(l)
    ensures LineText(l) != ""
  {
  }

  lemma EndLineText(l: Line, nl: Text)
    requires GoodLine(l) && l.Assign?
    ensures LineText(EndLine(l, nl)) == if EndsLine(l.tail) then LineText(l) else LineText(l) + nl
  {
  }

  lemma EndBodyText(sec: Section, nl: Text)
    requires GoodSection(sec) && sec.body != []
    ensures SectionText(EndSection(sec, nl)) ==
            if EndsLine(sec.body[|sec.body| - 1].tail) then SectionText(sec) else SectionText(sec) + nl
  {
    hide LineText, GoodLine, BodyText, EndLine, HeadText;
    var e, n := EndSection(sec, nl), |sec.body| - 1;
    EndLineText(sec.body[n], nl);
    BodyTextLast(sec.body);
    BodyTextLast(e.body);
    assert e.body[..n] == sec.body[..n];
    var before, last := sec.lead + HeadText(sec.head), LineText(sec.body[n]);
    assert before + (BodyText(sec.body[..n]) + (last + nl)) == before + (BodyText(sec.body[..n]) + last) + nl;
  }

  lemma EndHeadText(sec: Section, nl: Text)
    requires sec.head.Some? && sec.body == []
    ensures SectionText(EndSection(sec, nl)) ==
            if EndsLine(sec.head.value.close) then SectionText(sec) else SectionText(sec) + nl
  {
    EmptyBody();
  }

  lemma EndSectionText(sec: Section, nl: Text)
    requires GoodSection(sec) && (sec.head.Some? || sec.body != [])
    ensures SectionText(EndSection(sec, nl)) == Ended(SectionText(sec), nl)
  {
    hide SectionText, EndSection, GoodSection;
    SectionTextEnds(sec);
    if sec.body != [] {
      EndBodyText(sec, nl);
    } else {
      EndHeadText(sec, nl);
    }
  }
}
