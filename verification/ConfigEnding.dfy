/**
 Setting all keys against one read and setting them one at a time (daemon/config/edit.go): they succeed alike, and what
 they leave differs only in line endings, when the file has lost its own before the first new line is written.
 */
module ConfigEnding {
  import opened Bytes
  import opened Splice
  import opened Toml
  import opened TomlKeys
  import opened ConfigPlace
  import opened ConfigEdit
  import opened ConfigForm
  import opened ConfigBatch
  import opened ConfigFold
  import opened ConfigSame
  import opened ConfigText
  import opened ConfigRender
  import opened ConfigScan
  import opened ConfigDocument
  import opened ConfigSetAll
  import opened ConfigReads
  import opened ConfigRepeats
  import opened ConfigStyle
  import opened ConfigOneByOne

  // ---------- the same but for line endings ----------

  predicate AlikeIn(a: Section, b: Section) {
    && SameKeys(a, b)
    && forall k :: 0 <= k < |a.body| && a.body[k].Assign? ==> a.body[k].compound == b.body[k].compound
  }

  /** Two documents with the same tables and keys in the same places. */
  predicate Alike(a: Document, b: Document) {
    |a.sections| == |b.sections| && forall s :: 0 <= s < |a.sections| ==> AlikeIn(a.sections[s], b.sections[s])
  }

  lemma AlikeSays(a: Document, b: Document)
    requires Alike(a, b)
    ensures Entries(a) == Entries(b)
    ensures forall e :: e in Entries(a) && e.Setting? ==> LineOf(a, e).compound == LineOf(b, e).compound
  {
    SameEntries(a.sections, b.sections);
    forall e | e in Entries(a) && e.Setting?
      ensures LineOf(a, e).compound == LineOf(b, e).compound
    {
      EntriesSay(a.sections, e);
      assert AlikeIn(a.sections[e.section], b.sections[e.section]);
    }
  }

  lemma AlikeReaches(a: Document, b: Document, path: Path)
    requires Alike(a, b)
    ensures Reachable(a, path) <==> Reachable(b, path)
  {
    hide EntriesOf, Alike, LineOf, InArray, IsPrefix;
    AlikeSays(a, b);
  }

  lemma EndedAlike(a: Section, b: Section, nl: Text, nl': Text)
    requires AlikeIn(a, b)
    ensures AlikeIn(EndSection(a, nl), EndSection(b, nl'))
  {
  }

  lemma AddedAlike(a: Section, b: Section, e: Edit, base: nat, st: Style, st': Style)
    requires AlikeIn(a, b) && base < |e.path|
    ensures AlikeIn(AddTo(a, NewLine(e, base, st), st.nl), AddTo(b, NewLine(e, base, st'), st'.nl))
  {
    hide FormatPath, EndSection;
    EndedAlike(a, b, st.nl, st'.nl);
  }

  lemma AppendedAlike(a: Document, b: Document, e: Edit, st: Style, st': Style)
    requires Alike(a, b) && a.sections != [] && e.path != []
    ensures Alike(AppendTable(a, Parent(e.path), [NewLine(e, |e.path| - 1, st)], st),
                  AppendTable(b, Parent(e.path), [NewLine(e, |e.path| - 1, st')], st'))
  {
    hide FormatPath, EndSection, AllWhite, Render;
    var n := |a.sections| - 1;
    EndedAlike(a.sections[n], b.sections[n], st.nl, st'.nl);
    EndedItself(a, st.nl);
    EndedItself(b, st'.nl);
  }

  lemma EndedItself(d: Document, nl: Text)
    requires d.sections != []
    ensures |EndDocument(d, nl).sections| == |d.sections|
    ensures forall s :: 0 <= s < |d.sections| ==> AlikeIn(EndDocument(d, nl).sections[s], d.sections[s])
  {
  }

  /** Whatever the line endings, an edit goes to the same place. */
  lemma OneAlike(a: Document, b: Document, e: Edit, st: Style, st': Style)
    requires WellFormed(a) && WellFormed(b) && Alike(a, b) && e.path != []
    ensures Alike(One(a, e, st), One(b, e, st'))
  {
    hide WellFormed, EntriesOf, Decide, AppendTable, AddTo, NewLine, One;
    AlikeSays(a, b);
    OneIs(a, e, st);
    OneIs(b, e, st');
    match Decide(Entries(a), e.path)
    case Replace(s, k) =>
      assert AlikeIn(a.sections[s], b.sections[s]);
    case Into(s, base) =>
      AddedAlike(a.sections[s], b.sections[s], e, base, st, st');
    case NewTable =>
      AppendedAlike(a, b, e, st, st');
  }

  lemma AlikeItself(d: Document)
    ensures Alike(d, d)
  {
  }

  lemma SameFault(d: Document, was: Document, e: Edit, lib: Library)
    requires Reachable(was, e.path) <==> Reachable(d, e.path)
    ensures FaultOf(was, e, lib) == FaultOf(d, e, lib)
  {
    hide Reachable, OneValue;
  }

  /** One at a time, each in the style of what it reads: what it comes to but for line endings, and when. */
  lemma {:induction false} SetEachIs(d: Document, edits: seq<Edit>, lib: Library)
    requires WellFormed(d) && Valid(Entries(d), lib.arrays) && Unnested(edits)
    ensures var r, st := SetEachOf(d, edits, lib), StyleOf(d, lib);
            && (r.Done? ==> FirstFault(d, edits, lib).None? && GoodEdits(edits))
            && (FirstFault(d, edits, lib).None? ==>
                  GoodEdits(edits) && (r.Done? <==> Valid(Entries(Each(d, edits, st)), lib.arrays)))
            && (r.Done? ==> Alike(r.document, Each(d, edits, st)))
    decreases |edits|
  {
    hide WellFormed, Valid, EntriesOf, StyleOf, SetAllOf, FaultOf, One, IsPrefix, InArray, OneValue, Alike;
    if edits == [] {
      AlikeItself(d);
    } else {
      var ds, e := edits[..|edits| - 1], edits[|edits| - 1];
      var st := StyleOf(d, lib);
      assert Unnested(ds) by {
        assert forall i :: 0 <= i < |ds| ==> ds[i] == edits[i];
      }
      SetEachIs(d, ds, lib);
      if FirstFault(d, ds, lib).None? {
        NoFaultIsGood(d, ds, lib);
        AllOutside(d, ds, lib);
        assert forall i :: 0 <= i < |ds| && IsPrefix(ds[i].path, e.path) ==> ds[i].path == e.path by {
          assert forall i :: 0 <= i < |ds| ==> ds[i] == edits[i];
        }
        FaultStaysSame(d, ds, e.path, st);
        NextIs(d, edits, lib);
      }
    }
  }

  lemma NextIs(d: Document, edits: seq<Edit>, lib: Library)
    requires WellFormed(d) && edits != [] && FirstFault(d, edits[..|edits| - 1], lib).None?
    requires var ds, e := edits[..|edits| - 1], edits[|edits| - 1];
             && GoodEdits(ds) && Outside(Entries(d), ds)
             && (Reachable(Each(d, ds, StyleOf(d, lib)), e.path) <==> Reachable(d, e.path))
             && (SetEachOf(d, ds, lib).Done? <==> Valid(Entries(Each(d, ds, StyleOf(d, lib))), lib.arrays))
             && (SetEachOf(d, ds, lib).Done? ==> Alike(SetEachOf(d, ds, lib).document, Each(d, ds, StyleOf(d, lib))))
    ensures var r, st := SetEachOf(d, edits, lib), StyleOf(d, lib);
            && (r.Done? ==> FirstFault(d, edits, lib).None? && GoodEdits(edits))
            && (FirstFault(d, edits, lib).None? ==>
                  GoodEdits(edits) && (r.Done? <==> Valid(Entries(Each(d, edits, st)), lib.arrays)))
            && (r.Done? ==> Alike(r.document, Each(d, edits, st)))
  {
    hide WellFormed, Valid, EntriesOf, StyleOf, SetAllOf, FaultOf, One, IsPrefix, InArray, OneValue, Alike, Reachable;
    var ds, e, st := edits[..|edits| - 1], edits[|edits| - 1], StyleOf(d, lib);
    if FaultOf(d, e, lib).None? {
      NoFaultIsGood(d, edits, lib);
      AllOutside(d, edits, lib);
      if Valid(Entries(Each(d, edits, st)), lib.arrays) {
        EarlierValid(d, edits, st, lib.arrays);
      }
      NoFaultIsGoodEdit(d, e, lib);
    }
    if SetEachOf(d, ds, lib).Done? {
      var was, each := SetEachOf(d, ds, lib).document, Each(d, ds, st);
      AlikeSays(was, each);
      AlikeReaches(was, each, e.path);
      SameFault(d, was, e, lib);
      SetOne(was, e, lib);
      if FaultOf(d, e, lib).None? {
        OneAlike(was, each, e, StyleOf(was, lib), st);
        AlikeSays(One(was, e, StyleOf(was, lib)), One(each, e, st));
      }
    }
  }

  lemma {:induction false} EachNeedsToml(d: Document, edits: seq<Edit>, lib: Library)
    requires WellFormed(d) && edits != [] && !Valid(Entries(d), lib.arrays)
    ensures SetEachOf(d, edits, lib).Fail?
    decreases |edits|
  {
    hide WellFormed, Valid, EntriesOf;
    if |edits| > 1 {
      EachNeedsToml(d, edits[..|edits| - 1], lib);
    } else {
      assert edits[..0] == [];
    }
  }

  /** Setting all keys against one read succeeds exactly when setting them one at a time does. */
  lemma SucceedAlike(d: Document, edits: seq<Edit>, lib: Library)
    requires WellFormed(d) && edits != []
    ensures SetAllOf(d, edits, lib).Done? <==> SetEachOf(d, edits, lib).Done?
    ensures SetAllOf(d, edits, lib).Done? ==>
              && GoodEdits(edits) && Valid(Entries(d), lib.arrays) && FirstFault(d, edits, lib).None?
              && SetAllOf(d, edits, lib).document == Each(d, edits, StyleOf(d, lib))
  {
    hide WellFormed, Valid, EntriesOf, SetEachOf, FirstFault, PlannedDocument, PlanAll, Each, Unique, StyleOf, Alike,
         Fits, Outside, Settable, Unnested, BasesFit, GroupsFit;
    if !Valid(Entries(d), lib.arrays) {
      EachNeedsToml(d, edits, lib);
    } else if !Unnested(edits) {
      if SetAllOf(d, edits, lib).Done? {
        NestedFails(d, edits, lib);
      }
      if SetEachOf(d, edits, lib).Done? {
        NestedFailsEach(d, edits, lib);
      }
    } else {
      SetEachIs(d, edits, lib);
      if FirstFault(d, edits, lib).None? {
        Prepared(d, edits, lib);
      }
    }
  }

  // ---------- where the first new line goes in ----------

  /** The first edit of a path that is not set. */
  function FirstNew(es: seq<Entry>, edits: seq<Edit>): (i: nat)
    ensures i <= |edits| && (i < |edits| ==> FirstSet(es, edits[i].path).None?)
    ensures forall j :: 0 <= j < i ==> FirstSet(es, edits[j].path).Some?
  {
    if edits == [] then 0
    else
      var i := FirstNew(es, edits[..|edits| - 1]);
      if i < |edits| - 1 || FirstSet(es, edits[|edits| - 1].path).None? then i else |edits|
  }

  /** When the first new line is written, the file, with the values before it replaced, still has its line ending. */
  predicate KeepsEnding(d: Document, edits: seq<Edit>)
    requires WellFormed(d) && GoodEdits(edits)
  {
    var i := FirstNew(Entries(d), edits);
    i < |edits| && HasCrLf(Render(d)) ==>
      HasCrLf(Render(Each(d, edits[..i], Style("\r\n", (c: char) => false))))
  }

  /** Replacing a value writes no line ending. */
  lemma ReplacesInAnyStyle(d: Document, e: Edit, st: Style, st': Style)
    requires WellFormed(d) && e.path != [] && FirstSet(Entries(d), e.path).Some?
    ensures One(d, e, st) == One(d, e, st')
  {
    hide WellFormed, EntriesOf;
    OneIs(d, e, st);
    OneIs(d, e, st');
  }

  lemma {:induction false} ReplaceAll(d: Document, edits: seq<Edit>, st: Style, st': Style)
    requires WellFormed(d) && GoodEdits(edits) && GoodStyle(st) && GoodStyle(st')
    requires forall i :: 0 <= i < |edits| ==> FirstSet(Entries(d), edits[i].path).Some?
    ensures Each(d, edits, st) == Each(d, edits, st')
    decreases |edits|
  {
    hide WellFormed, EntriesOf, One;
    if edits != [] {
      var ds, e := edits[..|edits| - 1], edits[|edits| - 1];
      ReplaceAll(d, ds, st, st');
      StaysSet(d, ds, st, e.path);
      ReplacesInAnyStyle(Each(d, ds, st), e, st, st');
    }
  }

  lemma StaysSet(d: Document, edits: seq<Edit>, st: Style, path: Path)
    requires WellFormed(d) && GoodEdits(edits) && GoodStyle(st) && FirstSet(Entries(d), path).Some?
    ensures FirstSet(Entries(Each(d, edits, st)), path).Some?
  {
    hide WellFormed, EntriesOf, Each, LineOf;
    EachReads(d, edits, st, path);
  }

  /** One at a time is all at once as long as values are replaced. */
  lemma {:induction false} ReplacedEach(d: Document, edits: seq<Edit>, lib: Library)
    requires WellFormed(d) && GoodEdits(edits) && SetEachOf(d, edits, lib).Done?
    requires forall i :: 0 <= i < |edits| ==> FirstSet(Entries(d), edits[i].path).Some?
    ensures SetEachOf(d, edits, lib).document == Each(d, edits, StyleOf(d, lib))
    decreases |edits|
  {
    hide WellFormed, EntriesOf, One, StyleOf, SetAllOf, Valid, FaultOf;
    if edits != [] {
      var ds, e, st := edits[..|edits| - 1], edits[|edits| - 1], StyleOf(d, lib);
      ReplacedEach(d, ds, lib);
      var was := SetEachOf(d, ds, lib).document;
      StaysSet(d, ds, st, e.path);
      SetOne(was, e, lib);
      ReplacesInAnyStyle(was, e, StyleOf(was, lib), st);
    }
  }

  lemma EachBefore(d: Document, edits: seq<Edit>, i: nat, lib: Library)
    requires WellFormed(d) && SetEachOf(d, edits, lib).Done? && i <= |edits|
    ensures SetEachOf(d, edits[..i], lib).Done?
    decreases |edits|
  {
    hide WellFormed, SetAllOf;
    if i == |edits| {
      assert edits[..i] == edits;
    } else {
      assert edits[..|edits| - 1][..i] == edits[..i];
      EachBefore(d, edits[..|edits| - 1], i, lib);
    }
  }

  /** A new line leaves a trace of its ending that no edit takes away. */
  lemma NewLineWitnessed(d: Document, e: Edit, edits: seq<Edit>, st: Style)
    requires WellFormed(d) && GoodEdit(e) && st.nl == "\r\n" && FirstSet(Entries(d), e.path).None?
    ensures Witnessed(One(d, e, st), edits)
  {
    hide WellFormed, EntriesOf, HasCrLf, AllWhite, Render, EndSection, FormatPath, SectionHas, EndDocument;
    OneIs(d, e, st);
    var r := One(d, e, st);
    CrLfHasIt();
    match Decide(Entries(d), e.path)
    case Replace(_, _) =>
    case Into(s, base) =>
      NewTailHas(r.sections[s], |r.sections[s].body| - 1, edits);
      SectionAt(r, s, edits);
    case NewTable =>
      var n := |r.sections| - 1;
      NewTailHas(r.sections[n], 0, edits);
      SectionAt(r, n, edits);
  }

  lemma CrLfHasIt()
    ensures HasCrLf("\r\n")
  {
    assert "\r\n"[0] == '\r' && "\r\n"[1] == '\n';
  }

  lemma NewTailHas(sec: Section, k: nat, edits: seq<Edit>)
    requires k < |sec.body| && sec.body[k].Assign? && HasCrLf(sec.body[k].tail)
    ensures SectionHas(sec, edits)
  {
    assert LineHas(sec.body[k], BaseOf(sec), edits);
  }

  /** From there on every edit keeps to it. */
  lemma {:induction false} SameFrom(d: Document, edits: seq<Edit>, all: seq<Edit>, i: nat, lib: Library)
    requires WellFormed(d) && GoodEdits(edits) && SetEachOf(d, edits, lib).Done? && i <= |edits|
    requires forall j :: 0 <= j < |edits| ==> !Unedited(all, edits[j].path)
    requires var r := Each(d, edits[..i], StyleOf(d, lib));
             && SetEachOf(d, edits[..i], lib) == Done(r) && StyleOf(r, lib) == StyleOf(d, lib) && KeepsStyle(r, all)
    ensures SetEachOf(d, edits, lib).document == Each(d, edits, StyleOf(d, lib))
    ensures KeepsStyle(SetEachOf(d, edits, lib).document, all)
    ensures StyleOf(SetEachOf(d, edits, lib).document, lib) == StyleOf(d, lib)
    decreases |edits|
  {
    hide WellFormed, EntriesOf, One, StyleOf, SetAllOf, Valid, FaultOf, Unedited, KeepsStyle;
    if i == |edits| {
      assert edits[..i] == edits;
    } else {
      var ds, e := edits[..|edits| - 1], edits[|edits| - 1];
      assert ds[..i] == edits[..i];
      SameFrom(d, ds, all, i, lib);
      var was := SetEachOf(d, ds, lib).document;
      SetOne(was, e, lib);
      StyleStays(was, e, all, lib);
    }
  }

  lemma {:induction false} WitnessedAll(d: Document, edits: seq<Edit>, all: seq<Edit>, i: nat, st: Style)
    requires WellFormed(d) && GoodEdits(edits) && GoodStyle(st) && i <= |edits|
    requires forall j :: 0 <= j < |edits| ==> !Unedited(all, edits[j].path)
    requires Witnessed(Each(d, edits[..i], st), all)
    ensures Witnessed(Each(d, edits, st), all)
    decreases |edits|
  {
    hide WellFormed, EntriesOf, One, Unedited, Witnessed;
    if i == |edits| {
      assert edits[..i] == edits;
    } else {
      var ds, e := edits[..|edits| - 1], edits[|edits| - 1];
      assert ds[..i] == edits[..i];
      WitnessedAll(d, ds, all, i, st);
      WitnessStays(Each(d, ds, st), e, all, st);
    }
  }

  lemma {:induction false} PlainFrom(d: Document, edits: seq<Edit>, i: nat, lib: Library)
    requires WellFormed(d) && GoodEdits(edits) && SetEachOf(d, edits, lib).Done? && i <= |edits|
    requires SetEachOf(d, edits[..i], lib).Done? && !HasCrLf(Render(SetEachOf(d, edits[..i], lib).document))
    ensures !HasCrLf(Render(SetEachOf(d, edits, lib).document))
    decreases |edits|
  {
    hide WellFormed, EntriesOf, One, SetAllOf, Valid, FaultOf, HasCrLf, Render;
    if i == |edits| {
      assert edits[..i] == edits;
    } else {
      var ds, e := edits[..|edits| - 1], edits[|edits| - 1];
      assert ds[..i] == edits[..i];
      PlainFrom(d, ds, i, lib);
      var was := SetEachOf(d, ds, lib).document;
      SetOne(was, e, lib);
      StaysPlain(was, e, StyleOf(was, lib));
    }
  }

  // ---------- the theorem ----------

  /** What stands before the first new line, both ways. */
  lemma BeforeNew(d: Document, edits: seq<Edit>, lib: Library)
    requires WellFormed(d) && GoodEdits(edits) && SetEachOf(d, edits, lib).Done?
    ensures var i := FirstNew(Entries(d), edits);
            var was := Each(d, edits[..i], StyleOf(d, lib));
            && SetEachOf(d, edits[..i], lib) == Done(was)
            && (i < |edits| ==> FirstSet(Entries(was), edits[i].path).None?)
            && (KeepsEnding(d, edits) <==> (i < |edits| && HasCrLf(Render(d)) ==> HasCrLf(Render(was))))
  {
    hide WellFormed, EntriesOf, Each, SetEachOf, HasCrLf, Render, LineOf, GoodEdit, StyleOf;
    var i := FirstNew(Entries(d), edits);
    var ds, st := edits[..i], StyleOf(d, lib);
    EachBefore(d, edits, i, lib);
    ReplacedEach(d, ds, lib);
    ReplaceAll(d, ds, st, Style("\r\n", (c: char) => false));
    if i < |edits| {
      EachReads(d, ds, st, edits[i].path);
      EditedIsSet(d, ds, edits[i].path);
    }
  }

  lemma {:induction false} EditedIsSet(d: Document, edits: seq<Edit>, path: Path)
    requires FirstSet(Entries(d), path).None?
    requires forall j :: 0 <= j < |edits| ==> FirstSet(Entries(d), edits[j].path).Some?
    ensures LastEdit(edits, path).None?
  {
    hide EntriesOf, FirstSet;
    if edits != [] {
      EditedIsSet(d, edits[..|edits| - 1], path);
    }
  }

  lemma SameIfKept(d: Document, edits: seq<Edit>, lib: Library)
    requires WellFormed(d) && GoodEdits(edits) && SetEachOf(d, edits, lib).Done? && KeepsEnding(d, edits)
    ensures SetEachOf(d, edits, lib).document == Each(d, edits, StyleOf(d, lib))
  {
    hide WellFormed, EntriesOf, Each, SetEachOf, HasCrLf, Render, KeepsEnding, One, SetAllOf, Valid, FaultOf,
         Witnessed;
    var i, st := FirstNew(Entries(d), edits), StyleOf(d, lib);
    BeforeNew(d, edits, lib);
    forall j | 0 <= j < |edits|
      ensures !Unedited(edits, edits[j].path)
    {
    }
    if i == |edits| {
      assert edits[..i] == edits;
    } else if HasCrLf(Render(d)) {
      var was, e := Each(d, edits[..i], st), edits[i];
      assert edits[..i + 1][..i] == edits[..i];
      EachBefore(d, edits, i + 1, lib);
      NextOfEach(d, edits[..i + 1], lib);
      NewLineWitnessed(was, e, edits, st);
      WitnessedHasIt(One(was, e, st), edits);
      SameFrom(d, edits, edits, i + 1, lib);
    } else {
      NoneYet(d, lib);
      assert edits[..0] == [];
      SameFrom(d, edits, edits, 0, lib);
    }
  }

  lemma NoneYet(d: Document, lib: Library)
    requires WellFormed(d)
    ensures SetEachOf(d, [], lib) == Done(d) && Each(d, [], StyleOf(d, lib)) == d
  {
  }

  lemma NextOfEach(d: Document, edits: seq<Edit>, lib: Library)
    requires WellFormed(d) && GoodEdits(edits) && edits != [] && SetEachOf(d, edits, lib).Done?
    ensures var ds, e := edits[..|edits| - 1], edits[|edits| - 1];
            && SetEachOf(d, ds, lib).Done?
            && SetEachOf(d, edits, lib).document ==
                 One(SetEachOf(d, ds, lib).document, e, StyleOf(SetEachOf(d, ds, lib).document, lib))
            && Each(d, edits, StyleOf(d, lib)) == One(Each(d, ds, StyleOf(d, lib)), e, StyleOf(d, lib))
  {
    hide WellFormed, EntriesOf, One, SetAllOf, Valid, FaultOf, StyleOf;
    SetOne(SetEachOf(d, edits[..|edits| - 1], lib).document, edits[|edits| - 1], lib);
  }

  lemma OtherIfLost(d: Document, edits: seq<Edit>, lib: Library)
    requires WellFormed(d) && GoodEdits(edits) && SetEachOf(d, edits, lib).Done? && !KeepsEnding(d, edits)
    ensures !HasCrLf(Render(SetEachOf(d, edits, lib).document))
    ensures HasCrLf(Render(Each(d, edits, StyleOf(d, lib))))
  {
    hide WellFormed, EntriesOf, Each, SetEachOf, HasCrLf, Render, KeepsEnding, One, SetAllOf, Valid, FaultOf,
         Witnessed;
    var i, st := FirstNew(Entries(d), edits), StyleOf(d, lib);
    BeforeNew(d, edits, lib);
    forall j | 0 <= j < |edits|
      ensures !Unedited(edits, edits[j].path)
    {
    }
    PlainFrom(d, edits, i, lib);
    assert edits[..i + 1][..i] == edits[..i];
    EachBefore(d, edits, i + 1, lib);
    NextOfEach(d, edits[..i + 1], lib);
    NewLineWitnessed(Each(d, edits[..i], st), edits[i], edits, st);
    WitnessedAll(d, edits, edits, i + 1, st);
    WitnessedHasIt(Each(d, edits, st), edits);
  }

  /**
   Setting all keys against one read succeeds exactly when setting them one at a time does, repeats of a path included,
   and then leaves the same bytes exactly when the file keeps its line ending up to the first new line.
   */
  lemma AllAtOnceIsOneByOne(d: Document, edits: seq<Edit>, lib: Library)
    requires WellFormed(d) && edits != []
    ensures SetAllOf(d, edits, lib).Done? <==> SetEachOf(d, edits, lib).Done?
    ensures SetAllOf(d, edits, lib).Done? ==>
              var a, b := SetAllOf(d, edits, lib).document, SetEachOf(d, edits, lib).document;
              && GoodEdits(edits)
              && (KeepsEnding(d, edits) <==> Render(a) == Render(b))
              && (KeepsEnding(d, edits) <==> a == b)
  {
    hide WellFormed, EntriesOf, Each, SetEachOf, HasCrLf, Render, KeepsEnding, SetAllOf, Valid, GoodEdit;
    SucceedAlike(d, edits, lib);
    if SetAllOf(d, edits, lib).Done? {
      if KeepsEnding(d, edits) {
        SameIfKept(d, edits, lib);
      } else {
        OtherIfLost(d, edits, lib);
      }
    }
  }
}
