/** The text of a plan carried out (daemon/config/edit.go): the slots filled, and behind them the new tables. */
module ConfigRender {
  import opened Bytes
  import opened Splice
  import opened Toml
  import opened TomlKeys
  import opened ConfigPlace
  import opened ConfigEdit
  import opened ConfigForm
  import opened ConfigBatch
  import opened ConfigFold
  import opened ConfigSame
  import opened ConfigText

  // ---------- what a plan made from edits is like ----------

  predicate GoodPuts(puts: seq<(Where, Edit)>) {
    forall i :: 0 <= i < |puts| ==> GoodEdit(puts[i].1)
  }

  /** A line is only put into a section that has a line. */
  predicate Grounded(ss: seq<Section>, puts: seq<(Where, Edit)>) {
    forall i :: 0 <= i < |puts| && puts[i].0.Into? ==>
      puts[i].0.section < |ss| && (ss[puts[i].0.section].head.Some? || ss[puts[i].0.section].body != [])
  }

  lemma IntoIsGrounded(d: Document, path: Path)
    requires WellFormed(d) && path != [] && Decide(Entries(d), path).Into?
    ensures var s := Decide(Entries(d), path).section;
            s < |d.sections| && (d.sections[s].head.Some? || d.sections[s].body != [])
  {
    var es := Entries(d);
    hide EntriesOf, Decide;
    DecideMeans(es, path);
    var t, y := LastTable(es, Parent(path)), LastSibling(es, Parent(path));
    if t.Some? {
      EntriesSay(d.sections, t.value);
    } else {
      EntriesSay(d.sections, y.value);
    }
  }

  lemma SetMeans(es: seq<Entry>, path: Path)
    requires path != [] && FirstSet(es, path).Some?
    ensures Decide(es, path) == Replace(FirstSet(es, path).value.section, FirstSet(es, path).value.line)
  {
  }

  lemma ReplaceMeans(d: Document, path: Path)
    requires WellFormed(d) && path != [] && Decide(Entries(d), path).Replace?
    ensures var w := Decide(Entries(d), path);
            && PlaceIn(d, w, path)
            && BaseOf(d.sections[w.section]) + d.sections[w.section].body[w.line].rel == path
  {
    var es := Entries(d);
    hide Decide, WellFormed, EntriesOf;
    DecideMeans(es, path);
    SetMeans(es, path);
    EntriesSay(d.sections, FirstSet(es, path).value);
  }

  predicate SoundPuts(ss: seq<Section>, puts: seq<(Where, Edit)>) {
    Placed(puts) && GoodPuts(puts) && Grounded(ss, puts)
  }

  lemma OneMorePut(d: Document, puts: seq<(Where, Edit)>, e: Edit)
    requires WellFormed(d) && GoodEdit(e) && SoundPuts(d.sections, puts) && !Decide(Entries(d), e.path).NewTable?
    ensures SoundPuts(d.sections, puts + [(Decide(Entries(d), e.path), e)])
  {
    hide EntriesOf, WellFormed, Decide;
    DecidedIsIn(d, e.path);
    if Decide(Entries(d), e.path).Into? {
      IntoIsGrounded(d, e.path);
    }
  }

  lemma {:induction false} PlanIsPlaced(d: Document, edits: seq<Edit>)
    requires WellFormed(d) && GoodEdits(edits)
    ensures SoundPuts(d.sections, PlanAll(Entries(d), edits).puts)
    decreases |edits|
  {
    hide EntriesOf, WellFormed, Decide, SoundPuts, GroupOf;
    if edits == [] {
      assert SoundPuts(d.sections, []) by { NoPuts(d.sections); }
    } else {
      var ds, e := edits[..|edits| - 1], edits[|edits| - 1];
      PlanIsPlaced(d, ds);
      if !Decide(Entries(d), e.path).NewTable? {
        OneMorePut(d, PlanAll(Entries(d), ds).puts, e);
      }
    }
  }

  lemma NoPuts(ss: seq<Section>)
    ensures SoundPuts(ss, [])
  {
  }

  /** A value that is replaced is one that some edit has the path of, and is replaced once. */
  ghost predicate OnceAt(ss: seq<Section>, edits: seq<Edit>, texts: seq<Text>, s: nat, k: nat) {
    && |texts| <= 1
    && (texts != [] ==>
         && s < |ss| && k < |ss[s].body| && ss[s].body[k].Assign?
         && !Unedited(edits, BaseOf(ss[s]) + ss[s].body[k].rel))
  }

  lemma OnceNext(d: Document, edits: seq<Edit>, texts: seq<Text>, s: nat, k: nat)
    requires WellFormed(d) && edits != [] && GoodEdits(edits) && Distinct(edits)
    requires OnceAt(d.sections, edits[..|edits| - 1], texts, s, k)
    ensures OnceAt(d.sections, edits, texts, s, k)
    ensures Decide(Entries(d), edits[|edits| - 1].path) == Replace(s, k) ==>
              OnceAt(d.sections, edits, texts + [edits[|edits| - 1].literal], s, k)
  {
    hide EntriesOf, WellFormed, Decide;
    var ds, e := edits[..|edits| - 1], edits[|edits| - 1];
    forall q | !Unedited(ds, q)
      ensures !Unedited(edits, q)
    {
      var i :| 0 <= i < |ds| && ds[i].path == q;
      assert edits[i].path == q;
    }
    assert Unedited(ds, e.path) && !Unedited(edits, e.path);
    if Decide(Entries(d), e.path) == Replace(s, k) {
      ReplaceMeans(d, e.path);
    }
  }

  /** Each value is replaced for the path it has, and so once. */
  lemma {:induction false} ReplacedOnce(d: Document, edits: seq<Edit>, st: Style, s: nat, k: nat)
    requires WellFormed(d) && GoodEdits(edits) && Distinct(edits)
    requires Placed(PlanAll(Entries(d), edits).puts)
    ensures OnceAt(d.sections, edits, For(AllPlanned(PlanAll(Entries(d), edits).puts, st), ValueOf(s, k)), s, k)
    decreases |edits|
  {
    hide EntriesOf, WellFormed, Decide, GroupOf, For, LineFor, OnceAt;
    if edits == [] {
      NoneFor(ValueOf(s, k));
      assert OnceAt(d.sections, [], [], s, k) by { NoneAt(d.sections, s, k); }
    } else {
      var ds, e := edits[..|edits| - 1], edits[|edits| - 1];
      PlanIsPlaced(d, ds);
      ReplacedOnce(d, ds, st, s, k);
      var was, w := PlanAll(Entries(d), ds).puts, Decide(Entries(d), e.path);
      OnceNext(d, edits, For(AllPlanned(was, st), ValueOf(s, k)), s, k);
      if !w.NewTable? {
        OneMorePut(d, was, e);
        ForLast(was, w, e, ValueOf(s, k), st);
      }
    }
  }

  lemma NoneAt(ss: seq<Section>, s: nat, k: nat)
    ensures OnceAt(ss, [], [], s, k)
  {
  }

  lemma NoneFor(s: Spot)
    ensures For([], s) == []
  {
  }

  lemma ForLast(puts: seq<(Where, Edit)>, w: Where, e: Edit, s: Spot, st: Style)
    requires Placed(puts) && Placed(puts + [(w, e)])
    ensures For(AllPlanned(puts + [(w, e)], st), s) ==
            if PlannedFor((w, e), st).spot == s then For(AllPlanned(puts, st), s) + [PlannedFor((w, e), st).text]
            else For(AllPlanned(puts, st), s)
  {
    hide LineFor;
    LastPut(puts, (w, e));
    var ps := AllPlanned(puts + [(w, e)], st);
    assert ps[..|ps| - 1] == AllPlanned(puts, st);
  }

  // ---------- sections, filled ----------

  lemma FilledIsGood(s: nat, sec: Section, puts: seq<(Where, Edit)>)
    requires GoodSection(sec) && GoodPuts(puts)
    ensures GoodSection(sec.(body := FilledBody(s, sec.body, puts)))
  {
    hide GoodLine, LineText, FilledLine;
    forall k | 0 <= k < |sec.body|
      ensures GoodLine(FilledLine(s, k, sec.body[k], puts))
      ensures EndsLine(LineText(FilledLine(s, k, sec.body[k], puts))) == EndsLine(LineText(sec.body[k]))
    {
      FilledLineIsGood(s, k, sec.body[k], puts);
    }
  }

  lemma {:induction false} ReplacementIsGood(puts: seq<(Where, Edit)>, s: nat, k: nat)
    requires GoodPuts(puts)
    ensures Replacement(puts, s, k).Some? ==> GoodEdit(Replacement(puts, s, k).value)
  {
    if puts != [] {
      ReplacementIsGood(puts[..|puts| - 1], s, k);
    }
  }

  lemma FilledLineIsGood(s: nat, k: nat, l: Line, puts: seq<(Where, Edit)>)
    requires GoodLine(l) && GoodPuts(puts)
    ensures GoodLine(FilledLine(s, k, l, puts))
    ensures EndsLine(LineText(FilledLine(s, k, l, puts))) == EndsLine(LineText(l))
  {
    hide GoodLine, LineText, SetLine;
    ReplacementIsGood(puts, s, k);
    if l.Assign? && Replacement(puts, s, k).Some? {
      SetLineIsGood(l, Replacement(puts, s, k).value);
    }
  }

  lemma PutIsGrounded(ss: seq<Section>, puts: seq<(Where, Edit)>, s: nat, st: Style)
    requires BasesFit(puts) && Grounded(ss, puts) && PutInto(puts, s, st) != []
    ensures s < |ss| && (ss[s].head.Some? || ss[s].body != [])
  {
    hide NewLine;
    if puts[|puts| - 1].0.Into? && puts[|puts| - 1].0.section == s {
    } else {
      PutIsGrounded(ss, puts[..|puts| - 1], s, st);
    }
  }

  lemma BodyWithLines(sec: Section, lines: seq<Line>)
    ensures SectionText(sec.(body := sec.body + lines)) == SectionText(sec) + BodyText(lines)
  {
    hide BodyText, HeadText;
    BodyTextConcat(sec.body, lines);
    Regrouped(sec.lead + HeadText(sec.head), BodyText(sec.body), BodyText(lines));
  }

  lemma LastSlot(ps: seq<Piece>, s: nat, cs: seq<Planned>, nl: Text)
    ensures Filled(ps + [Slot(EndOf(s), "")], cs, nl) == WithLines(Filled(ps, cs, nl), For(cs, EndOf(s)), nl)
  {
    assert (ps + [Slot(EndOf(s), "")])[..|ps|] == ps;
    hide For;
  }

  lemma HeadAndBodyText(ps: seq<Piece>, s: nat, sec: Section, puts: seq<(Where, Edit)>, st: Style)
    requires GoodSection(sec) && Placed(puts) && OnceInBody(s, |sec.body|, AllPlanned(puts, st))
    ensures var more := [Fixed(sec.lead + HeadText(sec.head))] + BodyPieces(s, sec.body);
            Filled(ps + more, AllPlanned(puts, st), st.nl) ==
            Filled(ps, AllPlanned(puts, st), st.nl) + SectionText(sec.(body := FilledBody(s, sec.body, puts)))
  {
    hide Filled, AllPlanned, BodyPieces, HeadText, BodyText, FilledBody, NoLines, LineText, GoodLine;
    var cs, h, b := AllPlanned(puts, st), [Fixed(sec.lead + HeadText(sec.head))], BodyPieces(s, sec.body);
    FilledBodyText(s, sec.body, puts, st);
    FilledFixed(sec.lead + HeadText(sec.head), cs, st.nl);
    FilledConcat(h, b, cs, st.nl);
    assert NoLines(h, cs) by { FixedNoLines(sec.lead + HeadText(sec.head), cs); }
    NoLinesConcat(h, b, cs);
    FilledConcat(ps, h + b, cs, st.nl);
  }

  lemma FixedNoLines(t: Text, cs: seq<Planned>)
    ensures NoLines([Fixed(t)], cs)
  {
  }

  lemma FilledSectionText(ps: seq<Piece>, s: nat, ss: seq<Section>, puts: seq<(Where, Edit)>, st: Style)
    requires s < |ss| && GoodSection(ss[s]) && Placed(puts) && GoodPuts(puts) && Grounded(ss, puts) && GoodStyle(st)
    requires OnceInBody(s, |ss[s].body|, AllPlanned(puts, st))
    ensures Filled(ps + SectionPieces(s, ss[s]), AllPlanned(puts, st), st.nl) ==
            Filled(ps, AllPlanned(puts, st), st.nl) + SectionText(FilledSection(s, ss[s], puts, st))
  {
    hide Filled, For, BodyPieces, HeadText, BodyText, FilledBody, LineText, GoodLine, PutInto, WithLines, SectionText,
         EndSection, Ended, GoodSection, AllPlanned;
    var sec, cs := ss[s], AllPlanned(puts, st);
    var hb := [Fixed(sec.lead + HeadText(sec.head))] + BodyPieces(s, sec.body);
    var filled := sec.(body := FilledBody(s, sec.body, puts));
    var before, text := Filled(ps, cs, st.nl), SectionText(filled);
    HeadAndBodyText(ps, s, sec, puts, st);
    assert ps + SectionPieces(s, sec) == ps + hb + [Slot(EndOf(s), "")];
    LastSlot(ps + hb, s, cs, st.nl);
    LinesPlanned(puts, s, st);
    var texts, lines := For(cs, EndOf(s)), PutInto(puts, s, st);
    if lines == [] {
      NoLinesWith(before + text, st.nl);
    } else {
      PutIsGrounded(ss, puts, s, st);
      FilledIsGood(s, sec, puts);
      SectionTextEnds(filled);
      WithLinesConcat(before, text, texts, st.nl);
      WithLinesIsBody(text, texts, lines, st.nl);
      EndSectionText(filled, st.nl);
      BodyWithLines(EndSection(filled, st.nl), lines);
    }
  }

  lemma {:induction false} FilledSectionsText(
    ss: seq<Section>, n: nat, puts: seq<(Where, Edit)>, st: Style)
    requires n <= |ss| && Placed(puts) && GoodPuts(puts) && Grounded(ss, puts) && GoodStyle(st)
    requires forall s :: 0 <= s < |ss| ==> GoodSection(ss[s])
    requires forall s: nat, k: nat :: |For(AllPlanned(puts, st), ValueOf(s, k))| <= 1
    ensures Filled(SectionsPieces(ss[..n]), AllPlanned(puts, st), st.nl) ==
            SectionsText(FilledSections(ss, puts, st)[..n])
    decreases n
  {
    hide GoodSection, SectionPieces, SectionText, FilledSection, AllPlanned, For, Filled;
    var cs := AllPlanned(puts, st);
    if n == 0 {
      NothingFilled(cs, st.nl);
      assert ss[..0] == [];
    } else {
      FilledSectionsText(ss, n - 1, puts, st);
      assert ss[..n][..n - 1] == ss[..n - 1];
      FilledSectionText(SectionsPieces(ss[..n - 1]), n - 1, ss, puts, st);
      var fs := FilledSections(ss, puts, st);
      assert fs[..n][..n - 1] == fs[..n - 1];
    }
  }

  /** Filling a document's slots with what a plan puts in them renders the document the plan leaves. */
  lemma FilledIsRendered(d: Document, edits: seq<Edit>, st: Style)
    requires WellFormed(d) && GoodEdits(edits) && Distinct(edits) && GoodStyle(st)
    ensures var puts := PlanAll(Entries(d), edits).puts;
            && Placed(puts)
            && OnceEach(Pieces(d), AllPlanned(puts, st))
            && Filled(Pieces(d), AllPlanned(puts, st), st.nl) ==
                 Render(d.(sections := FilledSections(d.sections, puts, st)))
  {
    hide PlanAll, EntriesOf, AllPlanned, For, Filled, SectionsPieces, SectionsText, FilledSections;
    PlanIsPlaced(d, edits);
    var puts := PlanAll(Entries(d), edits).puts;
    forall s: nat, k: nat
      ensures |For(AllPlanned(puts, st), ValueOf(s, k))| <= 1
    {
      ReplacedOnce(d, edits, st, s, k);
    }
    var n, cs := |d.sections|, AllPlanned(puts, st);
    FilledSectionsText(d.sections, n, puts, st);
    assert d.sections[..n] == d.sections;
    var fs := FilledSections(d.sections, puts, st);
    assert fs[..n] == fs;
    FixedNoLines(d.ending, cs);
    FilledConcat(SectionsPieces(d.sections), [Fixed(d.ending)], cs, st.nl);
    FilledFixed(d.ending, cs, st.nl);
    assert OnceEach(Pieces(d), cs) by {
      ValuesHaveText(d);
    }
  }

  /** Only a value's slot has text. */
  lemma ValuesHaveText(d: Document)
    ensures forall i :: 0 <= i < |Pieces(d)| && Pieces(d)[i].Slot? && Pieces(d)[i].text != "" ==>
            Pieces(d)[i].spot.ValueOf?
  {
    SectionsHaveText(d.sections);
  }

  lemma {:induction false} BodyHasText(s: nat, body: seq<Line>)
    ensures forall i :: 0 <= i < |BodyPieces(s, body)| && BodyPieces(s, body)[i].Slot? ==>
              BodyPieces(s, body)[i].spot.ValueOf?
  {
    if body != [] {
      BodyHasText(s, body[..|body| - 1]);
    }
  }

  lemma {:induction false} SectionsHaveText(ss: seq<Section>)
    ensures forall i ::
              0 <= i < |SectionsPieces(ss)| && SectionsPieces(ss)[i].Slot? && SectionsPieces(ss)[i].text != "" ==>
                SectionsPieces(ss)[i].spot.ValueOf?
  {
    if ss != [] {
      SectionsHaveText(ss[..|ss| - 1]);
      BodyHasText(|ss| - 1, ss[|ss| - 1].body);
    }
  }

  // ---------- new tables ----------

  function TableText(g: Group, st: Style): Text
    requires forall i :: 0 <= i < |g.edits| ==> g.edits[i].path != []
  {
    HeadText(Some(NewHeader(g.table, st))) + BodyText(GroupLines(g.edits, st))
  }

  /** Each new table behind what is there, set off by a blank line if anything is. */
  function WithTables(out: Text, groups: seq<Group>, st: Style): Text
    requires GroupsFit(groups)
  {
    if groups == [] then out
    else
      var most := WithTables(out, groups[..|groups| - 1], st);
      Ended(most, st.nl) + (if AllWhite(most) then "" else st.nl) + TableText(groups[|groups| - 1], st)
  }

  lemma LastSection(ss: seq<Section>)
    requires ss != []
    ensures SectionsText(ss) == SectionsText(ss[..|ss| - 1]) + SectionText(ss[|ss| - 1])
  {
  }

  lemma EndEndingText(d: Document, nl: Text)
    requires d.sections != [] && d.ending != ""
    ensures Render(EndDocument(d, nl)) == Ended(Render(d), nl)
  {
    hide SectionsText;
    var t := Render(d);
    assert t[|t| - 1] == d.ending[|d.ending| - 1];
    Regrouped(SectionsText(d.sections), d.ending, nl);
  }

  lemma LastRendered(d: Document)
    requires d.sections != [] && d.ending == ""
    ensures Render(d) == SectionsText(d.sections[..|d.sections| - 1]) + SectionText(d.sections[|d.sections| - 1])
  {
    LastSection(d.sections);
    hide SectionsText, SectionText;
    assert SectionsText(d.sections) + "" == SectionsText(d.sections);
  }

  lemma EndLastText(d: Document, nl: Text)
    requires d.sections != [] && d.ending == ""
    requires var sec := d.sections[|d.sections| - 1]; GoodSection(sec) && (sec.head.Some? || sec.body != [])
    ensures Render(EndDocument(d, nl)) == Ended(Render(d), nl)
  {
    hide SectionText, EndSection, SectionsText, Ended, GoodSection, Render;
    var n := |d.sections| - 1;
    var sec, e := d.sections[n], EndDocument(d, nl);
    EndSectionText(sec, nl);
    SectionTextEnds(sec);
    LastRendered(d);
    LastRendered(e);
    assert e.sections[..n] == d.sections[..n];
    EndedConcat(SectionsText(d.sections[..n]), SectionText(sec), nl);
  }

  lemma EndDocumentText(d: Document, nl: Text)
    requires WellFormed(d)
    ensures Render(EndDocument(d, nl)) == Ended(Render(d), nl)
  {
    hide SectionText, EndSection, SectionsText, GoodSection;
    var sec := d.sections[|d.sections| - 1];
    if d.ending != "" {
      EndEndingText(d, nl);
    } else if sec.head.Some? || sec.body != [] {
      EndLastText(d, nl);
    } else {
      EmptyRoot(d, nl);
    }
  }

  lemma EmptyRoot(d: Document, nl: Text)
    requires |d.sections| == 1 && d.sections[0] == Section("", None, []) && d.ending == ""
    ensures Render(d) == "" && EndDocument(d, nl) == d
  {
    assert d.sections[..0] == [];
    assert BodyText([]) == "";
    assert SectionsText(d.sections) == SectionsText(d.sections[..0]) + SectionText(d.sections[0]);
  }

  lemma AppendedText(d: Document, table: Path, lines: seq<Line>, st: Style)
    requires WellFormed(d)
    ensures Render(AppendTable(d, table, lines, st)) ==
            Ended(Render(d), st.nl) + (if AllWhite(Render(d)) then "" else st.nl) +
              (HeadText(Some(NewHeader(table, st))) + BodyText(lines))
  {
    hide AllWhite, NewHeader, HeadText, BodyText, EndDocument, WellFormed, Ended;
    WellFormedHasSections(d);
    EndDocumentText(d, st.nl);
    var ended, gap := EndDocument(d, st.nl), if AllWhite(Render(d)) then "" else st.nl;
    var r := AppendTable(d, table, lines, st);
    LastSection(r.sections);
    assert r.sections[..|r.sections| - 1] == ended.sections;
    hide SectionsText;
    var a, b, c := SectionsText(ended.sections), ended.ending, gap;
    var h, l := HeadText(Some(NewHeader(table, st))), BodyText(lines);
    assert a + ((b + c) + h + l) == (a + b) + c + (h + l);
  }

  lemma {:induction false} PutsAreGood(puts: seq<(Where, Edit)>, s: nat, st: Style)
    requires BasesFit(puts) && GoodPuts(puts) && GoodStyle(st)
    ensures forall i :: 0 <= i < |PutInto(puts, s, st)| ==>
              var l := PutInto(puts, s, st)[i]; GoodLine(l) && l.Assign? && EndsLine(LineText(l))
  {
    hide GoodLine, LineText, NewLine;
    if puts != [] {
      PutsAreGood(puts[..|puts| - 1], s, st);
      var (w, e) := puts[|puts| - 1];
      if w.Into? {
        NewLineIsGood(e, w.base, st);
        NewLineAssigns(e, w.base, st);
      }
    }
  }

  lemma FilledSectionIsGood(s: nat, sec: Section, puts: seq<(Where, Edit)>, st: Style)
    requires GoodSection(sec) && Placed(puts) && GoodPuts(puts) && GoodStyle(st)
    ensures var r := FilledSection(s, sec, puts, st);
            && GoodSection(r) && (SectionEnds(sec) ==> SectionEnds(r))
            && r.lead == sec.lead && r.head.Some? == sec.head.Some?
  {
    hide GoodLine, LineText, PutInto, FilledLine;
    FilledIsGood(s, sec, puts);
    PutsAreGood(puts, s, st);
    var filled, lines := sec.(body := FilledBody(s, sec.body, puts)), PutInto(puts, s, st);
    if lines == [] {
      if sec.body != [] {
        FilledLineIsGood(s, |sec.body| - 1, sec.body[|sec.body| - 1], puts);
      }
    } else {
      hide FilledBody;
      EndedSectionIsGood(filled, st.nl);
      EndedSectionHead(filled, st.nl);
    }
  }

  /** The document with a plan's values and lines, and no new table yet. */
  function FilledDocument(d: Document, puts: seq<(Where, Edit)>, st: Style): Document
    requires BasesFit(puts)
  {
    d.(sections := FilledSections(d.sections, puts, st))
  }

  lemma FilledDocumentIsGood(d: Document, puts: seq<(Where, Edit)>, st: Style)
    requires WellFormed(d) && Placed(puts) && GoodPuts(puts) && GoodStyle(st)
    ensures WellFormed(FilledDocument(d, puts, st))
  {
    hide GoodSection, SectionEnds, FilledSection;
    forall s | 0 <= s < |d.sections|
      ensures var r := FilledSection(s, d.sections[s], puts, st);
              && GoodSection(r) && (SectionEnds(d.sections[s]) ==> SectionEnds(r))
              && r.lead == d.sections[s].lead && r.head.Some? == d.sections[s].head.Some?
    {
      FilledSectionIsGood(s, d.sections[s], puts, st);
    }
  }

  lemma FilledSaysSame(s: nat, sec: Section, puts: seq<(Where, Edit)>, st: Style, x: Entry)
    requires BasesFit(puts) && SaysIn(sec, x)
    ensures SaysIn(FilledSection(s, sec, puts, st), x)
  {
    hide PutInto, Replacement;
    var filled := sec.(body := FilledBody(s, sec.body, puts));
    EndSectionKeys(filled, st.nl);
    if x.Setting? {
      assert FilledBody(s, sec.body, puts)[x.line].rel == sec.body[x.line].rel;
    }
  }

  /** Putting values and lines into a document changes nothing about whether it is blank. */
  lemma FilledWhite(d: Document, edits: seq<Edit>, st: Style)
    requires WellFormed(d) && GoodEdits(edits) && GoodStyle(st)
    ensures var puts := PlanAll(Entries(d), edits).puts;
            && SoundPuts(d.sections, puts)
            && WellFormed(FilledDocument(d, puts, st))
            && AllWhite(Render(FilledDocument(d, puts, st))) == AllWhite(Render(d))
  {
    hide AllWhite, Render, WellFormed, EntriesOf, FilledSection, FilledSections;
    var plan := PlanAll(Entries(d), edits);
    PlanIsPlaced(d, edits);
    FilledDocumentIsGood(d, plan.puts, st);
    var r := FilledDocument(d, plan.puts, st);
    if plan.puts != [] {
      SomethingToPutTo(d, edits, plan);
      var x :| x in Entries(d);
      SaysSomething(d, x);
      EntriesSay(d.sections, x);
      FilledSaysSame(x.section, d.sections[x.section], plan.puts, st, x);
      assert Says(r.sections, x) by { FilledSectionAt(d.sections, plan.puts, x.section, st); }
      EntriesSay(r.sections, x);
      SaysSomething(r, x);
    } else {
      assert d.sections != [] by { EntriesAreHoused(d); WellFormedHasSections(d); }
      NothingPut(d, st);
    }
  }

  lemma FilledSectionAt(ss: seq<Section>, puts: seq<(Where, Edit)>, s: nat, st: Style)
    requires BasesFit(puts) && s < |ss|
    ensures FilledSections(ss, puts, st)[s] == FilledSection(s, ss[s], puts, st)
  {
  }

  lemma WellFormedHasSections(d: Document)
    requires WellFormed(d)
    ensures d.sections != []
  {
  }

  lemma GroupLinesAreGood(edits: seq<Edit>, st: Style)
    requires GoodEdits(edits) && GoodStyle(st)
    ensures forall i :: 0 <= i < |edits| ==>
              var l := GroupLines(edits, st)[i]; GoodLine(l) && l.Assign? && EndsLine(LineText(l))
  {
    hide GoodLine, LineText, NewLine;
    forall i | 0 <= i < |edits|
      ensures var l := NewLine(edits[i], |edits[i].path| - 1, st); GoodLine(l) && l.Assign? && EndsLine(LineText(l))
    {
      NewLineIsGood(edits[i], |edits[i].path| - 1, st);
      NewLineAssigns(edits[i], |edits[i].path| - 1, st);
    }
  }

  predicate GoodGroup(g: Group) {
    g.table != [] && g.edits != [] && GoodEdits(g.edits)
  }

  predicate GoodGroups(groups: seq<Group>) {
    forall g :: 0 <= g < |groups| ==> GoodGroup(groups[g])
  }

  lemma FirstTable(d: Document, puts: seq<(Where, Edit)>, g: Group, st: Style)
    requires d.sections != [] && BasesFit(puts) && GroupFits(g)
    requires AllWhite(Render(FilledDocument(d, puts, st))) == AllWhite(Render(d))
    ensures PlannedDocument(d, Plan(puts, [g]), st) ==
            AppendTable(FilledDocument(d, puts, st), g.table, GroupLines(g.edits, st), st)
  {
    hide FilledSections, Render, NewLine, EndDocument, GroupLines, NewHeader, AllWhite;
    var ended := EndDocument(FilledDocument(d, puts, st), st.nl);
    var lead := ended.ending + (if AllWhite(Render(d)) then "" else st.nl);
    assert GroupSections([g], lead, st) == [GroupSection(g, lead, st)];
  }

  lemma NextTable(d: Document, puts: seq<(Where, Edit)>, most: seq<Group>, g: Group, st: Style)
    requires d.sections != [] && BasesFit(puts) && GroupsFit(most) && GroupFits(g) && most != [] && GoodStyle(st)
    requires !AllWhite(Render(PlannedDocument(d, Plan(puts, most), st)))
    ensures PlannedDocument(d, Plan(puts, most + [g]), st) ==
            AppendTable(PlannedDocument(d, Plan(puts, most), st), g.table, GroupLines(g.edits, st), st)
  {
    hide FilledSections, Render, NewLine, EndSection, GroupLines, NewHeader, AllWhite;
    var ended := EndDocument(FilledDocument(d, puts, st), st.nl);
    var lead := ended.ending + (if AllWhite(Render(d)) then "" else st.nl);
    var was := GroupSections(most, lead, st);
    GroupsEnd(most, lead, st);
    hide EndDocument;
    var all := ended.sections + was;
    EndedAsItIs(Document(all, ""), st.nl);
    assert GroupSections(most + [g], lead, st) == was + [GroupSection(g, st.nl, st)];
    assert "" + st.nl == st.nl;
    assert all + [GroupSection(g, st.nl, st)] == ended.sections + (was + [GroupSection(g, st.nl, st)]);
  }

  lemma EndedAsItIs(d: Document, nl: Text)
    requires d.sections != [] && d.ending == ""
    requires EndSection(d.sections[|d.sections| - 1], nl) == d.sections[|d.sections| - 1]
    ensures EndDocument(d, nl) == d
  {
    hide EndSection;
    var n := |d.sections| - 1;
    assert d.sections[n := d.sections[n]] == d.sections;
  }

  /** What a plan leaves, as text: the slots filled, and then each table it starts. */
  lemma {:induction false} PlannedText(d: Document, edits: seq<Edit>, groups: seq<Group>, st: Style)
    requires WellFormed(d) && GoodEdits(edits) && GoodStyle(st) && GoodGroups(groups)
    ensures var puts := PlanAll(Entries(d), edits).puts;
            && BasesFit(puts) && GroupsFit(groups)
            && WellFormed(PlannedDocument(d, Plan(puts, groups), st))
            && (groups != [] ==> !AllWhite(Render(PlannedDocument(d, Plan(puts, groups), st))))
            && Render(PlannedDocument(d, Plan(puts, groups), st)) ==
                 WithTables(Render(FilledDocument(d, puts, st)), groups, st)
    decreases |groups|
  {
    hide Render, WellFormed, PlannedDocument, PlanAll, FilledDocument, AllWhite, AppendTable, GroupLines, EntriesOf,
         NewHeader, HeadText, BodyText, Ended;
    var puts := PlanAll(Entries(d), edits).puts;
    FilledWhite(d, edits, st);
    WellFormedHasSections(d);
    var filled := FilledDocument(d, puts, st);
    assert PlannedDocument(d, Plan(puts, []), st) == filled by { NoTables(d, puts, st); }
    if groups != [] {
      var most, g := groups[..|groups| - 1], groups[|groups| - 1];
      PlannedText(d, edits, most, st);
      var was := PlannedDocument(d, Plan(puts, most), st);
      if most == [] {
        assert groups == [g];
        FirstTable(d, puts, g, st);
      } else {
        assert groups == most + [g];
        NextTable(d, puts, most, g, st);
      }
      TableIsAppended(was, g, st);
    }
  }

  lemma NoTables(d: Document, puts: seq<(Where, Edit)>, st: Style)
    requires d.sections != [] && BasesFit(puts)
    ensures PlannedDocument(d, Plan(puts, []), st) == FilledDocument(d, puts, st)
  {
  }

  lemma TableIsAppended(d: Document, g: Group, st: Style)
    requires WellFormed(d) && GoodStyle(st) && GoodGroup(g)
    ensures d.sections != [] && GroupFits(g)
    ensures var r := AppendTable(d, g.table, GroupLines(g.edits, st), st);
            && WellFormed(r) && !AllWhite(Render(r))
            && Render(r) == Ended(Render(d), st.nl) + (if AllWhite(Render(d)) then "" else st.nl) + TableText(g, st)
  {
    hide Render, WellFormed, AllWhite, NewHeader, HeadText, BodyText, Ended, NewLine, GoodLine, LineText, EndDocument;
    WellFormedHasSections(d);
    GroupLinesAreGood(g.edits, st);
    var lines := GroupLines(g.edits, st);
    AppendedIsGood(d, g.table, lines, st);
    AppendedText(d, g.table, lines, st);
    var r := AppendTable(d, g.table, lines, st);
    var x := Table(|r.sections| - 1, g.table, false);
    assert Says(r.sections, x) by { HeaderIs(g.table, st); }
    EntriesSay(r.sections, x);
    SaysSomething(r, x);
  }

  lemma HeaderIs(table: Path, st: Style)
    ensures NewHeader(table, st).path == table && !NewHeader(table, st).isArray
  {
  }
}
