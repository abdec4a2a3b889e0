/** An edit leaves a document that is well formed, and reads back as it was meant to (daemon/config/edit.go). */
module ConfigForm {
  import opened Bytes
  import opened Splice
  import opened Toml
  import opened TomlKeys
  import opened ConfigPlace
  import opened ConfigEdit

  lemma {:induction false} PathIsSomething(path: Path, removes: char -> bool)
    requires path != []
    ensures FormatPath(path, removes) != ""
  {
  }

  lemma EqualsIsEquals()
    ensures NoNewline(" = ") && IsEquals(" = ")
  {
    var t := " = ";
    assert t[1] == '=' && forall j :: 0 <= j < |t| && j != 1 ==> Blank(t[j]);
  }

  lemma NewLineIsGood(e: Edit, base: nat, st: Style)
    requires GoodEdit(e) && GoodStyle(st) && base < |e.path|
    ensures GoodLine(NewLine(e, base, st)) && EndsLine(LineText(NewLine(e, base, st)))
  {
    hide FormatPath;
    PathIsSomething(e.path[base..], st.removes);
    PathIsOneLine(e.path[base..], st.removes);
    EqualsIsEquals();
    var l := NewLine(e, base, st);
    var t := LineText(l);
    assert t[|t| - 1] == l.tail[|l.tail| - 1];
    assert e.literal[|e.literal| - 1] in e.literal;
  }

  /** A line's text ends it if and only if its tail does: a value does not end with a newline. */
  lemma TailEnds(l: Line)
    requires GoodLine(l) && l.Assign?
    ensures EndsLine(LineText(l)) == EndsLine(l.tail)
  {
    var t := LineText(l);
    if l.tail == "" {
      assert t[|t| - 1] == l.value[|l.value| - 1];
    } else {
      assert t[|t| - 1] == l.tail[|l.tail| - 1];
    }
  }

  lemma EndedTailIsOneLine(t: Text, nl: Text)
    requires OneLine(t) && (nl == "\n" || nl == "\r\n")
    ensures OneLine(EndTail(t, nl)) && EndsLine(EndTail(t, nl))
  {
  }

  lemma EndedLineIsGood(l: Line, nl: Text)
    requires GoodLine(l) && l.Assign? && (nl == "\n" || nl == "\r\n")
    ensures GoodLine(EndLine(l, nl)) && EndsLine(LineText(EndLine(l, nl)))
  {
    EndedTailIsOneLine(l.tail, nl);
    TailEnds(EndLine(l, nl));
  }

  lemma SetLineIsGood(l: Line, e: Edit)
    requires GoodLine(l) && l.Assign? && GoodEdit(e)
    ensures GoodLine(SetLine(l, e))
    ensures EndsLine(LineText(SetLine(l, e))) == EndsLine(LineText(l))
  {
    assert e.literal[|e.literal| - 1] in e.literal;
    TailEnds(l);
    TailEnds(SetLine(l, e));
  }

  lemma EndedSectionIsGood(s: Section, nl: Text)
    requires GoodSection(s) && (nl == "\n" || nl == "\r\n")
    ensures GoodSection(EndSection(s, nl)) && SectionEnds(EndSection(s, nl))
  {
    hide GoodLine, LineText;
    if s.body != [] {
      EndedLineIsGood(s.body[|s.body| - 1], nl);
    } else if s.head.Some? {
      EndedTailIsOneLine(s.head.value.close, nl);
    }
  }

  lemma AddedToIsGood(s: Section, l: Line, nl: Text)
    requires GoodSection(s) && (nl == "\n" || nl == "\r\n")
    requires GoodLine(l) && l.Assign? && EndsLine(LineText(l))
    ensures GoodSection(AddTo(s, l, nl)) && SectionEnds(AddTo(s, l, nl))
    ensures AddTo(s, l, nl).lead == s.lead && AddTo(s, l, nl).head.Some? == s.head.Some?
  {
    hide GoodLine, LineText;
    EndedSectionIsGood(s, nl);
  }

  lemma SetValueIsGood(s: Section, k: nat, e: Edit)
    requires GoodSection(s) && k < |s.body| && s.body[k].Assign? && GoodEdit(e)
    ensures var r := s.(body := s.body[k := SetLine(s.body[k], e)]);
            GoodSection(r) && SectionEnds(r) == SectionEnds(s)
  {
    hide GoodLine, LineText, SetLine;
    SetLineIsGood(s.body[k], e);
    assert SetLine(s.body[k], e).Assign? by { SetLineAssigns(s.body[k], e); }
  }

  lemma SetLineAssigns(l: Line, e: Edit)
    requires l.Assign?
    ensures SetLine(l, e).Assign?
  {
  }

  lemma EndedDocumentIsGood(d: Document, nl: Text)
    requires WellFormed(d) && (nl == "\n" || nl == "\r\n")
    ensures var r := EndDocument(d, nl);
            && WellFormed(r)
            && SectionEnds(r.sections[|r.sections| - 1])
            && (r.ending != "" ==> EndsLine(r.ending))
  {
    hide GoodSection, SectionEnds, EndSection;
    var last := d.sections[|d.sections| - 1];
    EndedSectionIsGood(last, nl);
    EndedSectionHead(last, nl);
  }

  lemma EndedSectionHead(s: Section, nl: Text)
    ensures EndSection(s, nl).lead == s.lead && EndSection(s, nl).head.Some? == s.head.Some?
  {
  }

  lemma NewSectionIsGood(lead: Text, table: Path, lines: seq<Line>, st: Style)
    requires GoodStyle(st) && table != [] && (lead != "" ==> EndsLine(lead))
    requires lines != [] && forall k :: 0 <= k < |lines| ==>
               GoodLine(lines[k]) && lines[k].Assign? && EndsLine(LineText(lines[k]))
    ensures var s := Section(lead, Some(NewHeader(table, st)), lines); GoodSection(s) && SectionEnds(s)
  {
    hide GoodLine, LineText, FormatPath;
    PathIsOneLine(table, st.removes);
    var h := NewHeader(table, st);
    assert GoodHeader(h) by {
      assert h.close[|h.close| - 1] == st.nl[|st.nl| - 1];
    }
  }

  lemma AppendedIsGood(d: Document, table: Path, lines: seq<Line>, st: Style)
    requires WellFormed(d) && GoodStyle(st) && table != []
    requires lines != [] && forall k :: 0 <= k < |lines| ==>
               GoodLine(lines[k]) && lines[k].Assign? && EndsLine(LineText(lines[k]))
    ensures WellFormed(AppendTable(d, table, lines, st))
  {
    hide GoodSection, SectionEnds, GoodLine, LineText, Render, EndDocument;
    var ended := EndDocument(d, st.nl);
    EndedDocumentIsGood(d, st.nl);
    var gap := if AllWhite(Render(d)) then "" else st.nl;
    NewSectionIsGood(ended.ending + gap, table, lines, st);
  }

  /** Every place an edit can be made keeps the form. */
  lemma ApplyKeepsForm(d: Document, w: Where, e: Edit, st: Style)
    requires WellFormed(d) && GoodEdit(e) && GoodStyle(st) && PlaceIn(d, w, e.path)
    ensures WellFormed(Apply(d, w, e, st))
  {
    hide GoodSection, SectionEnds, GoodLine, LineText, NewLine, AppendTable;
    match w
    case Replace(s, k) =>
      SetValueIsGood(d.sections[s], k, e);
    case Into(s, base) =>
      hide AddTo;
      NewLineIsGood(e, base, st);
      NewLineAssigns(e, base, st);
      AddedToIsGood(d.sections[s], NewLine(e, base, st), st.nl);
    case NewTable =>
      NewLineIsGood(e, |e.path| - 1, st);
      NewLineAssigns(e, |e.path| - 1, st);
      AppendedIsGood(d, Parent(e.path), [NewLine(e, |e.path| - 1, st)], st);
  }

  lemma NewLineAssigns(e: Edit, base: nat, st: Style)
    requires base < |e.path|
    ensures NewLine(e, base, st).Assign?
  {
  }

  lemma OneKeepsForm(d: Document, e: Edit, st: Style)
    requires WellFormed(d) && GoodEdit(e) && GoodStyle(st)
    ensures WellFormed(One(d, e, st))
  {
    DecidedIsIn(d, e.path);
    ApplyKeepsForm(d, Decide(Entries(d), e.path), e, st);
  }
}
