/**
 What one call leaves of a file, told on its text alone (daemon/config/edit.go): every byte of it, but for the value
 that is replaced, and where a new line goes.
 */
module ConfigFrame {
  import opened Bytes
  import opened Splice
  import opened Toml
  import opened TomlKeys
  import opened ConfigPlace
  import opened ConfigEdit
  import opened ConfigForm
  import opened ConfigBatch
  import opened ConfigSame
  import opened ConfigText
  import opened ConfigRender
  import opened ConfigScan
  import opened ConfigDocument
  import opened ConfigSetAll
  import opened ConfigReads
  import opened ConfigStyle
  import opened ConfigOneByOne

  /** The line ending of a file: a carriage return and a line feed if it has that anywhere. */
  ghost predicate EndsLinesWith(t: Text, nl: Text) {
    if exists i :: 0 < i < |t| && t[i - 1] == '\r' && t[i] == '\n' then nl == "\r\n" else nl == "\n"
  }

  /** A text, with a line ending if its last line lacks one. */
  function Begun(t: Text, nl: Text): Text {
    if t == "" || t[|t| - 1] == '\n' then t else t + nl
  }

  lemma StyleIs(d: Document, lib: Library)
    ensures EndsLinesWith(Render(d), StyleOf(d, lib).nl)
  {
    hide Render;
    var t := Render(d);
    if HasCrLf(t) {
      var i :| 0 <= i < |t| - 1 && t[i] == '\r' && t[i + 1] == '\n';
      assert t[i + 1 - 1] == '\r' && t[i + 1] == '\n';
    }
    forall i | 0 < i < |t| && t[i - 1] == '\r' && t[i] == '\n'
      ensures HasCrLf(t)
    {
      assert t[i - 1 + 1] == '\n';
    }
  }

  /** A value is replaced where it is. */
  lemma ReplacedInPlace(d: Document, e: Edit, st: Style) returns (before: Text, after: Text)
    requires WellFormed(d) && e.path != [] && Get(d, e.path).Some?
    ensures Render(d) == before + Get(d, e.path).value + after
    ensures Render(One(d, e, st)) == before + e.literal + after
  {
    hide Render, WellFormed, EntriesOf, SetValue, Decide;
    var x := FirstSet(Entries(d), e.path).value;
    GetIs(d, x, e.path);
    SetMeans(Entries(d), e.path);
    OneIs(d, e, st);
    before, after := SetText(d, x.section, x.line, e);
  }

  /**
   A key of a table that is there goes behind the last key of a section. That is the section of the table's header, if
   it has one, and the key is then its last part; otherwise it is one that dotted keys define the table in.
   */
  lemma PutBehind(d: Document, e: Edit, st: Style) returns (before: Text, after: Text, s: nat, k: nat)
    requires WellFormed(d) && e.path != [] && Decide(Entries(d), e.path).Into?
    ensures s < |d.sections| && k < |e.path| && BaseOf(d.sections[s]) == e.path[..k]
    ensures before == SectionsText(d.sections[..s + 1]) && Render(d) == before + after
    ensures Render(One(d, e, st)) ==
            Begun(before, st.nl) + FormatPath(e.path[k..], st.removes) + " = " + e.literal + st.nl + after
    ensures k == |e.path| - 1 <==> exists t :: t in Entries(d) && t.Table? && t.path == Parent(e.path)
  {
    hide Render, WellFormed, EntriesOf, Insert, Decide, SectionsText, SectionText, FormatPath, NewLine;
    var es := Entries(d);
    IntoSection(d, e.path);
    IntoIsGrounded(d, e.path);
    OneIs(d, e, st);
    s, k := Decide(es, e.path).section, Decide(es, e.path).base;
    assert GoodSection(d.sections[s]) by { SectionIsGood(d, s); }
    before, after := InsertText(d, s, NewLine(e, k, st), st.nl);
    NewLineText(e, k, st);
    assert k == |e.path| - 1 <==> LastTable(es, Parent(e.path)).Some? by { TableFirst(d, e.path); }
  }

  lemma SectionIsGood(d: Document, s: nat)
    requires WellFormed(d) && s < |d.sections|
    ensures GoodSection(d.sections[s])
  {
  }

  lemma TableFirst(d: Document, path: Path)
    requires WellFormed(d) && path != [] && Decide(Entries(d), path).Into?
    ensures Decide(Entries(d), path).base == |path| - 1 <==> LastTable(Entries(d), Parent(path)).Some?
  {
    hide EntriesOf, WellFormed;
  }

  /** A key of a table that nothing defines goes behind everything, under a header of its own. */
  lemma AppendedBehind(d: Document, e: Edit, st: Style)
    requires WellFormed(d) && e.path != [] && Decide(Entries(d), e.path).NewTable?
    ensures Render(One(d, e, st)) ==
            Begun(Render(d), st.nl) + (if AllWhite(Render(d)) then "" else st.nl) +
            "[" + FormatPath(Parent(e.path), st.removes) + "]" + st.nl +
            FormatPath(e.path[|e.path| - 1..], st.removes) + " = " + e.literal + st.nl
  {
    hide Render, WellFormed, EntriesOf, AppendTable, Decide, FormatPath, NewLine, AllWhite, HeadText, BodyText,
         LineText, NewHeader;
    OneIs(d, e, st);
    var l := NewLine(e, |e.path| - 1, st);
    AppendedText(d, Parent(e.path), [l], st);
    NewLineText(e, |e.path| - 1, st);
    OneLineBody(l);
    HeaderText(Parent(e.path), st);
    var a, g := Begun(Render(d), st.nl), if AllWhite(Render(d)) then "" else st.nl;
    var table := FormatPath(Parent(e.path), st.removes);
    Grouped(a + g, "[" + table + "]", st.nl, LineFor(e, |e.path| - 1, st) + st.nl);
    Grouped(a + g, "[", table, "]");
  }

  lemma HeaderText(table: Path, st: Style)
    ensures HeadText(Some(NewHeader(table, st))) == "[" + FormatPath(table, st.removes) + "]" + st.nl
  {
    hide FormatPath;
  }

  lemma Grouped(a: Text, b: Text, c: Text, d: Text)
    ensures a + (b + c + d) == a + b + c + d
  {
  }

  /**
   One call that succeeds leaves every byte of the file where it was, but for the value it replaces. A key that was not
   set gets a line of its own, and nothing else is added but a table's header, a blank line before that, and the line
   ending of a last line that lacks it; and every line that is added ends as the file's lines do.
   */
  lemma NothingElseChanges(d: Document, e: Edit, lib: Library)
    returns (before: Text, after: Text, nl: Text, s: nat, k: nat)
    requires WellFormed(d) && SetAllOf(d, [e], lib).Done?
    ensures |e.path| >= 2 && k < |e.path| && EndsLinesWith(Render(d), nl)
    ensures Get(d, e.path).Some? ==>
      && Render(d) == before + Get(d, e.path).value + after
      && Render(SetAllOf(d, [e], lib).document) == before + e.literal + after
    ensures Get(d, e.path).None? ==>
      var line := FormatPath(e.path[k..], lib.removes) + " = " + e.literal + nl;
      && Render(d) == before + after
      && if Housing(d, e.path) then
           && s < |d.sections| && before == SectionsText(d.sections[..s + 1])
           && BaseOf(d.sections[s]) == e.path[..k]
           && (k == |e.path| - 1 <==> exists t :: t in Entries(d) && t.Table? && t.path == Parent(e.path))
           && Render(SetAllOf(d, [e], lib).document) == Begun(before, nl) + line + after
         else
           && after == "" && k == |e.path| - 1
           && Render(SetAllOf(d, [e], lib).document) ==
                Begun(before, nl) + (if AllWhite(before) then "" else nl) +
                "[" + FormatPath(Parent(e.path), lib.removes) + "]" + nl + line
  {
    hide Render, WellFormed, EntriesOf, Decide, FormatPath, AllWhite, Get, SetAllOf, StyleOf, SectionsText, One,
         EndsLinesWith, BaseOf, FaultOf;
    SetOne(d, e, lib);
    assert |e.path| >= 2 by { LongEnough(d, e, lib); }
    var st := StyleOf(d, lib);
    nl, s, k := st.nl, 0, |e.path| - 1;
    StyleIs(d, lib);
    assert st.removes == lib.removes by { RemovesIs(d, lib); }
    PlaceMeans(d, e.path);
    if Get(d, e.path).Some? {
      before, after := ReplacedInPlace(d, e, st);
    } else if Housing(d, e.path) {
      before, after, s, k := PutBehind(d, e, st);
    } else {
      before, after := Render(d), "";
      AppendedBehind(d, e, st);
    }
  }

  /** Some header declares the key's table, or dotted keys define it in a table above. */
  ghost predicate Housing(d: Document, path: Path)
    requires path != []
  {
    exists x :: x in Entries(d) && ((x.Table? && x.path == Parent(path)) || IsSibling(x, Parent(path)))
  }

  lemma LongEnough(d: Document, e: Edit, lib: Library)
    requires FaultOf(d, e, lib).None?
    ensures |e.path| >= 2
  {
  }

  lemma RemovesIs(d: Document, lib: Library)
    ensures StyleOf(d, lib).removes == lib.removes
  {
  }

  lemma PlaceMeans(d: Document, path: Path)
    requires path != []
    ensures Get(d, path).Some? <==> Decide(Entries(d), path).Replace?
    ensures Get(d, path).None? ==> (Housing(d, path) <==> Decide(Entries(d), path).Into?)
  {
    hide EntriesOf, IsSibling;
  }
}
