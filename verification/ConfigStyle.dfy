/** An edit keeps to the line ending a file uses (daemon/config/edit.go), unless it takes away the last trace of it. */
module ConfigStyle {
  import opened Bytes
  import opened Splice
  import opened Toml
  import opened TomlKeys
  import opened ConfigPlace
  import opened ConfigEdit
  import opened ConfigForm
  import opened ConfigBatch
  import opened ConfigFold
  import opened ConfigSame
  import opened ConfigText
  import opened ConfigRender
  import opened ConfigScan
  import opened ConfigDocument
  import opened ConfigSetAll

  // ---------- texts ----------

  predicate EndsCr(t: Text) {
    t != "" && t[|t| - 1] == '\r'
  }

  lemma CrLfConcat(a: Text, b: Text)
    ensures HasCrLf(a) || HasCrLf(b) ==> HasCrLf(a + b)
    ensures HasCrLf(a + b) && !EndsCr(a) ==> HasCrLf(a) || HasCrLf(b)
    ensures b != "" ==> EndsCr(a + b) == EndsCr(b)
    ensures b == "" ==> a + b == a
  {
    var t := a + b;
    if HasCrLf(a) {
      var i :| 0 <= i < |a| - 1 && a[i] == '\r' && a[i + 1] == '\n';
      assert t[i] == '\r' && t[i + 1] == '\n';
    }
    if HasCrLf(b) {
      var i :| 0 <= i < |b| - 1 && b[i] == '\r' && b[i + 1] == '\n';
      assert t[|a| + i] == '\r' && t[|a| + i + 1] == '\n';
    }
    if HasCrLf(t) && !EndsCr(a) {
      var i :| 0 <= i < |t| - 1 && t[i] == '\r' && t[i + 1] == '\n';
      if i + 1 < |a| {
        assert a[i] == '\r' && a[i + 1] == '\n';
      } else {
        assert b[i - |a|] == '\r' && b[i - |a| + 1] == '\n';
      }
    }
  }

  /** Text with neither in it: no newline of either kind begins or ends there. */
  predicate Clean(t: Text) {
    !HasCrLf(t) && !EndsCr(t)
  }

  lemma CleanConcat(a: Text, b: Text)
    requires Clean(a) && Clean(b)
    ensures Clean(a + b)
  {
    hide HasCrLf, EndsCr;
    CrLfConcat(a, b);
    assert !EndsCr(a + b) by {
      if b == "" {
        assert a + b == a;
      }
    }
  }

  lemma NoCrIsClean(t: Text)
    requires '\r' !in t
    ensures Clean(t)
  {
  }

  // ---------- one edit ----------

  lemma Framed(p: Text, a: Text, v: Text, b: Text, q: Text)
    ensures p + (a + v + b) + q == (p + a) + v + (b + q)
  {
  }

  lemma LineFrame(l: Line)
    requires l.Assign?
    ensures LineText(l) == (l.lead + l.key + l.eq) + l.value + l.tail
  {
  }

  lemma BodyFrame(a: seq<Line>, b: seq<Line>, k: nat) returns (before: Text, after: Text)
    requires |a| == |b| && k < |a| && forall i :: 0 <= i < |a| && i != k ==> a[i] == b[i]
    requires a[k].Assign? && b[k].Assign? && b[k] == a[k].(value := b[k].value, compound := b[k].compound)
    ensures before == BodyText(a[..k]) + (a[k].lead + a[k].key + a[k].eq)
    ensures BodyText(a) == before + a[k].value + after && BodyText(b) == before + b[k].value + after
  {
    hide BodyText, LineText;
    var rest := BodySwap(a, b, k);
    var p := a[k].lead + a[k].key + a[k].eq;
    LineFrame(a[k]);
    LineFrame(b[k]);
    Framed(BodyText(a[..k]), p, a[k].value, a[k].tail, rest);
    Framed(BodyText(a[..k]), p, b[k].value, a[k].tail, rest);
    before, after := BodyText(a[..k]) + p, a[k].tail + rest;
  }

  /** Replacing a value replaces its text, and no other. */
  lemma SetText(d: Document, s: nat, k: nat, e: Edit) returns (before: Text, after: Text)
    requires PlaceIn(d, Replace(s, k), e.path)
    ensures Render(d) == before + d.sections[s].body[k].value + after
    ensures Render(SetValue(d, s, k, e)) == before + e.literal + after
    ensures |before| == ValueStart(d.sections, s, k)
    ensures d.sections[s].body[k].eq != "" ==>
              before != "" && before[|before| - 1] == d.sections[s].body[k].eq[|d.sections[s].body[k].eq| - 1]
  {
    hide SectionsText, BodyText, HeadText, LineText;
    var sec, l := d.sections[s], d.sections[s].body[k];
    var r := SetValue(d, s, k, e);
    var more := SectionsSwap(d.sections, r.sections, s);
    var b, a := BodyFrame(sec.body, r.sections[s].body, k);
    var top, head := SectionsText(d.sections[..s]), sec.lead + HeadText(sec.head);
    forall v
      ensures top + (head + (b + v + a)) + more + d.ending == (top + (head + b)) + v + (a + (more + d.ending))
    {
      Framed(head, b, v, a, "");
      assert head + (b + v + a) + "" == head + (b + v + a) && a + "" == a;
      Framed(top, head + b, v, a, more + d.ending);
      Regrouped(top + (head + (b + v + a)), more, d.ending);
    }
    before, after := top + (head + b), a + (more + d.ending);
    assert Render(d) == top + (head + (b + l.value + a)) + more + d.ending;
    assert Render(r) == top + (head + (b + e.literal + a)) + more + d.ending;
  }

  lemma {:induction false} SectionsSwap(a: seq<Section>, b: seq<Section>, s: nat) returns (rest: Text)
    requires |a| == |b| && s < |a| && forall i :: 0 <= i < |a| && i != s ==> a[i] == b[i]
    ensures SectionsText(a) == SectionsText(a[..s]) + SectionText(a[s]) + rest
    ensures SectionsText(b) == SectionsText(a[..s]) + SectionText(b[s]) + rest
    decreases |a|
  {
    hide SectionText;
    var n := |a| - 1;
    if s == n {
      rest := "";
      assert a[..n] == b[..n];
    } else {
      var r := SectionsSwap(a[..n], b[..n], s);
      assert a[..n][..s] == a[..s];
      rest := r + SectionText(a[n]);
    }
  }

  lemma {:induction false} BodySwap(a: seq<Line>, b: seq<Line>, k: nat) returns (rest: Text)
    requires |a| == |b| && k < |a| && forall i :: 0 <= i < |a| && i != k ==> a[i] == b[i]
    ensures BodyText(a) == BodyText(a[..k]) + LineText(a[k]) + rest
    ensures BodyText(b) == BodyText(a[..k]) + LineText(b[k]) + rest
    decreases |a|
  {
    hide LineText;
    var n := |a| - 1;
    if k == n {
      rest := "";
      assert a[..n] == b[..n];
    } else {
      var r := BodySwap(a[..n], b[..n], k);
      assert a[..n][..k] == a[..k];
      rest := r + LineText(a[n]);
    }
  }

  lemma SectionsNext(ss: seq<Section>, s: nat)
    requires s < |ss|
    ensures SectionsText(ss[..s + 1]) == SectionsText(ss[..s]) + SectionText(ss[s])
  {
    LastSection(ss[..s + 1]);
    assert ss[..s + 1][..s] == ss[..s];
  }

  /** Putting a line in puts in its text, behind the end of a line. */
  lemma InsertText(d: Document, s: nat, l: Line, nl: Text) returns (before: Text, after: Text)
    requires s < |d.sections| && GoodSection(d.sections[s]) && (d.sections[s].head.Some? || d.sections[s].body != [])
    ensures Render(d) == before + after
    ensures Render(Insert(d, s, l, nl)) == Ended(before, nl) + LineText(l) + after
    ensures |before| == BodyEnd(d.sections, s) && before == SectionsText(d.sections[..s + 1])
    ensures before != "" && EndsCr(before) == EndsCr(SectionText(d.sections[s]))
  {
    hide SectionsText, SectionText, GoodSection, EndSection, LineText, BodyText, Ended;
    var sec, r := d.sections[s], Insert(d, s, l, nl);
    var more := SectionsSwap(d.sections, r.sections, s);
    EndSectionText(sec, nl);
    SectionTextEnds(sec);
    AddToText(sec, l, nl);
    before := SectionsText(d.sections[..s]) + SectionText(sec);
    after := more + d.ending;
    EndedConcat(SectionsText(d.sections[..s]), SectionText(sec), nl);
    assert Render(d) == before + after;
    var a, b, c := SectionsText(d.sections[..s]), Ended(SectionText(sec), nl), LineText(l);
    assert Render(r) == (a + (b + c) + more) + d.ending;
    assert (a + (b + c) + more) + d.ending == (a + b) + c + after;
    SectionLength(d.sections, s);
    SectionsNext(d.sections, s);
    assert before[|before| - 1] == SectionText(sec)[|SectionText(sec)| - 1];
  }

  lemma AddToText(sec: Section, l: Line, nl: Text)
    ensures SectionText(AddTo(sec, l, nl)) == SectionText(EndSection(sec, nl)) + LineText(l)
  {
    hide SectionText, EndSection, LineText, BodyText;
    BodyWithLines(EndSection(sec, nl), [l]);
    OneLineBody(l);
  }

  lemma SectionLength(ss: seq<Section>, s: nat)
    requires s < |ss|
    ensures |SectionsText(ss[..s]) + SectionText(ss[s])| == BodyEnd(ss, s)
  {
    hide SectionsText, BodyText, HeadText;
    assert ss[s].body[..|ss[s].body|] == ss[s].body;
  }

  lemma SectionEndsNoCr(sec: Section)
    requires GoodSection(sec) && (sec.head.Some? || sec.body != [])
    ensures !EndsCr(SectionText(sec))
  {
    hide BodyText;
    var t := SectionText(sec);
    if sec.body != [] {
      var l := sec.body[|sec.body| - 1];
      assert GoodLine(l);
      BodyTextLast(sec.body);
      var lt := LineText(l);
      assert t[|t| - 1] == lt[|lt| - 1];
      if l.tail == "" {
        assert lt[|lt| - 1] == l.value[|l.value| - 1];
      } else {
        assert lt[|lt| - 1] == l.tail[|l.tail| - 1];
      }
    } else {
      EmptyBody();
      assert GoodHeader(sec.head.value);
      assert t[|t| - 1] == sec.head.value.close[|sec.head.value.close| - 1];
    }
  }

  lemma DocumentEndsNoCr(d: Document)
    requires WellFormed(d)
    ensures !EndsCr(Render(d))
  {
    hide SectionText, SectionsText, GoodSection;
    var n := |d.sections| - 1;
    var sec := d.sections[n];
    if d.ending != "" {
      assert Render(d)[|Render(d)| - 1] == d.ending[|d.ending| - 1];
    } else if sec.head.Some? || sec.body != [] {
      LastRendered(d);
      SectionEndsNoCr(sec);
      SectionTextEnds(sec);
      var t := SectionText(sec);
      assert Render(d)[|Render(d)| - 1] == t[|t| - 1];
    } else {
      EmptyRoot(d, "");
    }
  }

  lemma NewLineIsClean(e: Edit, base: nat, st: Style)
    requires GoodEdit(e) && base < |e.path| && st.nl == "\n"
    ensures Clean(LineText(NewLine(e, base, st)))
  {
    hide FormatPath;
    PathIsOneLine(e.path[base..], st.removes);
    NoCrIsClean(LineText(NewLine(e, base, st)));
  }

  lemma TableIsClean(e: Edit, st: Style)
    requires GoodEdit(e) && st.nl == "\n"
    ensures Clean(HeadText(Some(NewHeader(Parent(e.path), st))) + BodyText([NewLine(e, |e.path| - 1, st)]))
  {
    hide FormatPath;
    PathIsOneLine(Parent(e.path), st.removes);
    NoCrIsClean(HeadText(Some(NewHeader(Parent(e.path), st))));
    NewLineIsClean(e, |e.path| - 1, st);
    OneLineBody(NewLine(e, |e.path| - 1, st));
    CleanConcat(HeadText(Some(NewHeader(Parent(e.path), st))), BodyText([NewLine(e, |e.path| - 1, st)]));
  }

  /** A file with plain newlines gets no other. */
  lemma StaysPlain(d: Document, e: Edit, st: Style)
    requires WellFormed(d) && GoodEdit(e) && st.nl == "\n" && !HasCrLf(Render(d))
    ensures !HasCrLf(Render(One(d, e, st)))
  {
    hide HasCrLf, EndsCr, Render, Clean, WellFormed, Decide, EntriesOf, NewLine, AppendTable, SetValue, Insert,
         HeadText, BodyText, NewHeader, AllWhite;
    OneIs(d, e, st);
    match Decide(Entries(d), e.path)
    case Replace(s, k) => PlainSet(d, s, k, e);
    case Into(s, base) => PlainInsert(d, s, e, base, st);
    case NewTable => PlainAppend(d, e, st);
  }

  lemma PlainSet(d: Document, s: nat, k: nat, e: Edit)
    requires WellFormed(d) && GoodEdit(e) && PlaceIn(d, Replace(s, k), e.path) && !HasCrLf(Render(d))
    ensures !HasCrLf(Render(SetValue(d, s, k, e)))
  {
    hide HasCrLf, Render, SetValue;
    var l := d.sections[s].body[k];
    assert GoodSection(d.sections[s]);
    assert GoodLine(l);
    var before, after := SetText(d, s, k, e);
    EqualsEndsNoCr(l.eq);
    assert !EndsCr(before);
    CrLfConcat(before + l.value, after);
    CrLfConcat(before, l.value);
    NoCrIsClean(e.literal);
    CrLfConcat(before, e.literal);
    CrLfConcat(before + e.literal, after);
  }

  lemma EqualsEndsNoCr(eq: Text)
    requires NoNewline(eq) && IsEquals(eq)
    ensures eq != "" && eq[|eq| - 1] != '\r'
  {
    assert eq[|eq| - 1] in eq;
  }

  lemma PlainInsert(d: Document, s: nat, e: Edit, base: nat, st: Style)
    requires WellFormed(d) && GoodEdit(e) && st.nl == "\n" && !HasCrLf(Render(d))
    requires Decide(Entries(d), e.path) == Into(s, base) && PlaceIn(d, Into(s, base), e.path)
    ensures !HasCrLf(Render(Insert(d, s, NewLine(e, base, st), st.nl)))
  {
    IntoIsGrounded(d, e.path);
    assert GoodSection(d.sections[s]);
    hide HasCrLf, Render, Insert, NewLine, Decide, EntriesOf, WellFormed, GoodSection, EndsCr;
    var l := NewLine(e, base, st);
    var before, after := InsertText(d, s, l, st.nl);
    SectionEndsNoCr(d.sections[s]);
    CrLfConcat(before, after);
    EndedIsClean(before);
    NewLineIsClean(e, base, st);
    CleanConcat(Ended(before, "\n"), LineText(l));
    CrLfConcat(Ended(before, "\n") + LineText(l), after);
  }

  lemma EndedIsClean(t: Text)
    requires !HasCrLf(t) && !EndsCr(t)
    ensures Clean(Ended(t, "\n"))
  {
    hide HasCrLf;
    NoCrIsClean("\n");
    CleanConcat(t, "\n");
  }

  lemma PlainAppend(d: Document, e: Edit, st: Style)
    requires WellFormed(d) && GoodEdit(e) && st.nl == "\n" && !HasCrLf(Render(d))
    ensures d.sections != [] && !HasCrLf(Render(AppendTable(d, Parent(e.path), [NewLine(e, |e.path| - 1, st)], st)))
  {
    hide HasCrLf, Render, AppendTable, NewLine, AllWhite, HeadText, BodyText, EndsCr, NewHeader, WellFormed;
    WellFormedHasSections(d);
    DocumentEndsNoCr(d);
    AppendedText(d, Parent(e.path), [NewLine(e, |e.path| - 1, st)], st);
    EndedIsClean(Render(d));
    var gap := if AllWhite(Render(d)) then "" else st.nl;
    NoCrIsClean(gap);
    TableIsClean(e, st);
    CleanConcat(Ended(Render(d), "\n"), gap);
    CleanConcat(Ended(Render(d), "\n") + gap,
                HeadText(Some(NewHeader(Parent(e.path), st))) + BodyText([NewLine(e, |e.path| - 1, st)]));
  }

  // ---------- a trace of the line ending that no edit takes away ----------

  /** A line with a carriage return outside the values of some paths. */
  predicate LineHas(l: Line, base: Path, edits: seq<Edit>) {
    match l
    case Assign(_, _, _, value, tail, rel, _) => HasCrLf(tail) || (HasCrLf(value) && Unedited(edits, base + rel))
    case Other(text) => HasCrLf(text)
  }

  predicate SectionHas(sec: Section, edits: seq<Edit>) {
    || HasCrLf(sec.lead)
    || (sec.head.Some? && HasCrLf(sec.head.value.close))
    || exists k :: 0 <= k < |sec.body| && LineHas(sec.body[k], BaseOf(sec), edits)
  }

  /** The document's line ending is somewhere else than in the values of some edits' paths. */
  predicate Witnessed(d: Document, edits: seq<Edit>) {
    HasCrLf(d.ending) || exists s :: 0 <= s < |d.sections| && SectionHas(d.sections[s], edits)
  }

  lemma CrLfWithin(a: Text, b: Text, c: Text)
    ensures HasCrLf(b) ==> HasCrLf(a + b + c)
  {
    hide HasCrLf;
    CrLfConcat(a, b);
    CrLfConcat(a + b, c);
  }

  lemma LineHasIt(l: Line, base: Path, edits: seq<Edit>)
    requires LineHas(l, base, edits)
    ensures HasCrLf(LineText(l))
  {
    hide HasCrLf;
    if l.Assign? {
      var p := l.lead + l.key + l.eq;
      CrLfWithin(p, l.value, l.tail);
      CrLfWithin(p + l.value, l.tail, "");
      assert p + l.value + l.tail + "" == LineText(l);
    }
  }

  lemma SectionHasIt(sec: Section, edits: seq<Edit>)
    requires SectionHas(sec, edits)
    ensures HasCrLf(SectionText(sec))
  {
    hide HasCrLf, BodyText, LineText, LineHas;
    if HasCrLf(sec.lead) {
      CrLfWithin("", sec.lead, HeadText(sec.head) + BodyText(sec.body));
      assert "" + sec.lead + (HeadText(sec.head) + BodyText(sec.body)) == SectionText(sec);
    } else if sec.head.Some? && HasCrLf(sec.head.value.close) {
      var h := sec.head.value;
      CrLfWithin(sec.lead + (h.open + h.key), h.close, BodyText(sec.body));
      assert sec.lead + (h.open + h.key) + h.close + BodyText(sec.body) == SectionText(sec);
    } else {
      var k :| 0 <= k < |sec.body| && LineHas(sec.body[k], BaseOf(sec), edits);
      LineHasIt(sec.body[k], BaseOf(sec), edits);
      var rest := BodyTextSplit(sec.body, k);
      CrLfWithin(sec.lead + HeadText(sec.head) + BodyText(sec.body[..k]), LineText(sec.body[k]), rest);
      var a, b, c, e := sec.lead + HeadText(sec.head), BodyText(sec.body[..k]), LineText(sec.body[k]), rest;
      assert a + b + c + e == a + (b + c + e);
    }
  }

  lemma WitnessedHasIt(d: Document, edits: seq<Edit>)
    requires Witnessed(d, edits)
    ensures HasCrLf(Render(d))
  {
    hide HasCrLf, SectionHas, SectionText, SectionsText;
    if HasCrLf(d.ending) {
      CrLfWithin(SectionsText(d.sections), d.ending, "");
      assert SectionsText(d.sections) + d.ending + "" == Render(d);
    } else {
      var s :| 0 <= s < |d.sections| && SectionHas(d.sections[s], edits);
      SectionHasIt(d.sections[s], edits);
      var rest := SectionsTextSplit(d.sections, s);
      CrLfWithin(SectionsText(d.sections[..s]), SectionText(d.sections[s]), rest + d.ending);
      var a, b, c, e := SectionsText(d.sections[..s]), SectionText(d.sections[s]), rest, d.ending;
      assert a + b + (c + e) == (a + b + c) + e;
    }
  }

  lemma LineKeepsIt(l: Line, base: Path, edits: seq<Edit>, nl: Text)
    requires LineHas(l, base, edits)
    ensures LineHas(EndLine(l, nl), base, edits)
  {
    hide HasCrLf;
    if l.Assign? {
      CrLfConcat(l.tail, nl);
    }
  }

  lemma EndedKeepsIt(sec: Section, edits: seq<Edit>, nl: Text)
    requires SectionHas(sec, edits)
    ensures SectionHas(EndSection(sec, nl), edits)
  {
    hide HasCrLf, LineHas, EndLine;
    var e := EndSection(sec, nl);
    if HasCrLf(sec.lead) {
    } else if sec.head.Some? && HasCrLf(sec.head.value.close) {
      CrLfConcat(sec.head.value.close, nl);
    } else {
      var k :| 0 <= k < |sec.body| && LineHas(sec.body[k], BaseOf(sec), edits);
      LineKeepsIt(sec.body[k], BaseOf(sec), edits, nl);
      assert LineHas(e.body[k], BaseOf(e), edits);
    }
  }

  lemma AddedKeepsIt(sec: Section, edits: seq<Edit>, l: Line, nl: Text)
    requires SectionHas(sec, edits)
    ensures SectionHas(AddTo(sec, l, nl), edits)
  {
    hide HasCrLf, LineHas, EndSection;
    EndedKeepsIt(sec, edits, nl);
    var ended := EndSection(sec, nl);
    var r := AddTo(sec, l, nl);
    if !HasCrLf(ended.lead) && !(ended.head.Some? && HasCrLf(ended.head.value.close)) {
      var k :| 0 <= k < |ended.body| && LineHas(ended.body[k], BaseOf(ended), edits);
      assert r.body[k] == ended.body[k];
      assert LineHas(r.body[k], BaseOf(r), edits);
    }
  }

  lemma SetKeepsIt(sec: Section, k: nat, e: Edit, edits: seq<Edit>)
    requires SectionHas(sec, edits) && k < |sec.body| && sec.body[k].Assign?
    requires !Unedited(edits, BaseOf(sec) + sec.body[k].rel)
    ensures SectionHas(sec.(body := sec.body[k := SetLine(sec.body[k], e)]), edits)
  {
    hide HasCrLf, Unedited;
    var r := sec.(body := sec.body[k := SetLine(sec.body[k], e)]);
    if !HasCrLf(sec.lead) && !(sec.head.Some? && HasCrLf(sec.head.value.close)) {
      var j :| 0 <= j < |sec.body| && LineHas(sec.body[j], BaseOf(sec), edits);
      assert LineHas(r.body[j], BaseOf(r), edits);
    }
  }

  lemma SectionAt(d: Document, s: nat, edits: seq<Edit>)
    requires s < |d.sections| && SectionHas(d.sections[s], edits)
    ensures Witnessed(d, edits)
  {
  }

  /** An edit of one of the paths leaves the trace. */
  lemma WitnessStays(d: Document, e: Edit, edits: seq<Edit>, st: Style)
    requires WellFormed(d) && GoodEdit(e) && !Unedited(edits, e.path) && Witnessed(d, edits)
    ensures Witnessed(One(d, e, st), edits)
  {
    hide HasCrLf, SectionHas, Unedited, WellFormed, Decide, EntriesOf, NewLine, SetLine, EndSection, AddTo, AllWhite,
         Render;
    OneIs(d, e, st);
    var r, w := One(d, e, st), Decide(Entries(d), e.path);
    if HasCrLf(d.ending) {
      EndingStays(d, w, e, edits, st);
    } else {
      var s :| 0 <= s < |d.sections| && SectionHas(d.sections[s], edits);
      match w
      case Replace(s', k') =>
        if s' == s {
          ReplaceMeans(d, e.path);
          SetKeepsIt(d.sections[s], k', e, edits);
        }
        SectionAt(r, s, edits);
      case Into(s', base) =>
        if s' == s {
          AddedKeepsIt(d.sections[s], edits, NewLine(e, base, st), st.nl);
        }
        SectionAt(r, s, edits);
      case NewTable =>
        EndedKeepsIt(d.sections[s], edits, st.nl);
        SectionAt(r, s, edits);
    }
  }

  lemma EndingStays(d: Document, w: Where, e: Edit, edits: seq<Edit>, st: Style)
    requires e.path != [] && PlaceIn(d, w, e.path) && HasCrLf(d.ending)
    ensures Witnessed(Apply(d, w, e, st), edits)
  {
    hide HasCrLf, NewLine, SetLine, EndSection, AddTo, AllWhite, Render, LineHas;
    if w.NewTable? {
      var r := Apply(d, w, e, st);
      assert d.ending != "" by { CrLfIsSomething(d.ending); }
      var gap := if AllWhite(Render(d)) then "" else st.nl;
      CrLfConcat(d.ending, st.nl);
      CrLfConcat(EndTail(d.ending, st.nl), gap);
      SectionAt(r, |r.sections| - 1, edits);
    }
  }

  lemma CrLfIsSomething(t: Text)
    requires HasCrLf(t)
    ensures t != ""
  {
  }

  /** The line ending is one that edits of these paths cannot take away. */
  predicate KeepsStyle(d: Document, edits: seq<Edit>) {
    HasCrLf(Render(d)) ==> Witnessed(d, edits)
  }

  lemma StyleStays(d: Document, e: Edit, edits: seq<Edit>, lib: Library)
    requires WellFormed(d) && GoodEdit(e) && !Unedited(edits, e.path) && KeepsStyle(d, edits)
    ensures var r := One(d, e, StyleOf(d, lib));
            && WellFormed(r) && StyleOf(r, lib) == StyleOf(d, lib) && KeepsStyle(r, edits)
  {
    hide HasCrLf, Witnessed, One, WellFormed, Render, Unedited;
    var st := StyleOf(d, lib);
    OneKeepsForm(d, e, st);
    if HasCrLf(Render(d)) {
      WitnessStays(d, e, edits, st);
      WitnessedHasIt(One(d, e, st), edits);
    } else {
      StaysPlain(d, e, st);
    }
  }
}
