/**
 Setting keys against one read does what setting them one at a time does (daemon/config/edit.go): it succeeds when that
 does, and leaves the same bytes.
 */
module ConfigOneByOne {
  import opened Bytes
  import opened Splice
  import opened Toml
  import opened ConfigPlace
  import opened ConfigEdit
  import opened ConfigForm
  import opened ConfigBatch
  import opened ConfigFold
  import opened ConfigSame
  import opened ConfigText
  import opened ConfigRender
  import opened ConfigScan
  import opened ConfigSetAll
  import opened ConfigReads
  import opened ConfigRepeats

  /** One call an edit, each reading what the one before it left. */
  ghost function SetEachOf(d: Document, edits: seq<Edit>, lib: Library): (r: SetResult)
    requires WellFormed(d)
    ensures r.Done? ==> WellFormed(r.document)
  {
    if edits == [] then Done(d)
    else
      var before := SetEachOf(d, edits[..|edits| - 1], lib);
      if before.Fail? then before
      else
        var r := SetAllOf(before.document, [edits[|edits| - 1]], lib);
        assert r.Done? ==> WellFormed(r.document) by { SetAllKeepsForm(before.document, [edits[|edits| - 1]], lib); }
        r
  }

  lemma SetAllKeepsForm(d: Document, edits: seq<Edit>, lib: Library)
    requires WellFormed(d)
    ensures SetAllOf(d, edits, lib).Done? ==> WellFormed(SetAllOf(d, edits, lib).document)
  {
    hide WellFormed, FirstFault, Valid, PlannedDocument, PlanAll, EntriesOf, Unique, SoundPuts, GoodGroups;
    if FirstFault(d, edits, lib).None? {
      PlanIsReady(d, edits, lib);
      PlannedText(d, Unique(edits), PlanAll(Entries(d), Unique(edits)).groups, StyleOf(d, lib));
    }
  }

  // ---------- one edit alone ----------

  /** A plan of one edit is that edit. */
  lemma PlanOfOne(d: Document, e: Edit, st: Style)
    requires WellFormed(d) && GoodEdit(e) && GoodStyle(st)
    ensures Unique([e]) == [e]
    ensures forall x :: x in [e] ==> x.path != []
    ensures var plan := PlanAll(Entries(d), [e]);
            && d.sections != [] && BasesFit(plan.puts) && GroupsFit(plan.groups)
            && PlannedDocument(d, plan, st) == One(d, e, st)
  {
    hide PlannedDocument, PlanNext, DecideIn, One, WellFormed, EntriesOf, Decide, AllWhite, Render, Apply;
    assert [e][..0] == [];
    NothingToDo(d, st);
    PlanNextFits(d, Plan([], []), e, st);
    DecideInNothing(Entries(d), |d.sections|, e.path);
    OneIs(d, e, st);
    assert PlanAll(Entries(d), [e]) == PlanNext(Entries(d), Plan([], []), e);
  }

  lemma DecideInNothing(es: seq<Entry>, sections: nat, path: Path)
    requires path != []
    ensures DecideIn(es, [], sections, path) == Decide(es, path)
  {
    hide Decide;
  }

  lemma SetOne(d: Document, e: Edit, lib: Library)
    requires WellFormed(d)
    ensures var r := SetAllOf(d, [e], lib);
            && (r.Done? <==>
                  (Valid(Entries(d), lib.arrays) && FaultOf(d, e, lib).None? &&
                      Valid(Entries(One'(d, e, lib)), lib.arrays)))
            && (r.Done? ==> r.document == One'(d, e, lib))
  {
    hide WellFormed, Valid, PlannedDocument, PlanAll, EntriesOf, FaultOf, One;
    assert [e][..0] == [];
    assert FirstFault(d, [e], lib) == FaultOf(d, e, lib);
    if FaultOf(d, e, lib).None? {
      NoFaultIsGoodEdit(d, e, lib);
      PlanOfOne(d, e, StyleOf(d, lib));
      assert PlanOf(d, [e], lib) == PlanAll(Entries(d), [e]);
    }
  }

  lemma NoFaultIsGoodEdit(d: Document, e: Edit, lib: Library)
    requires FaultOf(d, e, lib).None?
    ensures GoodEdit(e) && !InArray(Entries(d), e.path)
  {
  }

  /** The edit in the document's own style; of a path that cannot be edited, the document. */
  function One'(d: Document, e: Edit, lib: Library): Document
    requires WellFormed(d)
  {
    if e.path == [] then d else One(d, e, StyleOf(d, lib))
  }

  // ---------- when it succeeds ----------

  /** A path that is set, or that a key may be set at. */
  ghost predicate Settable(d: Document, path: Path) {
    FirstSet(Entries(d), path).Some? || Free(Entries(d), path)
  }

  /** No path of an edit lies inside another's. */
  predicate Unnested(edits: seq<Edit>) {
    forall i, j :: 0 <= i < |edits| && 0 <= j < |edits| && IsPrefix(edits[i].path, edits[j].path) ==>
      edits[i].path == edits[j].path
  }

  predicate ApartFrom(e: Edit, q: Path) {
    !IsPrefix(e.path, q) && !IsPrefix(q, e.path)
  }

  lemma SettableStays(d: Document, e: Edit, q: Path, st: Style)
    requires WellFormed(d) && GoodEdit(e) && GoodStyle(st) && ApartFrom(e, q) && q != []
    ensures Settable(One(d, e, st), q) <==> Settable(d, q)
  {
    hide One, WellFormed, EntriesOf, Decide, IsPrefix;
    FirstSetAfter(d, e, st, q);
    assert q != e.path by { PrefixOfItself(q); }
    var xs, ys, added := OneEntries(d, e, st);
    var es, fs, w := Entries(d), Entries(One(d, e, st)), Decide(Entries(d), e.path);
    assert forall x :: x in fs <==> x in es || x in added;
    forall x | x in added
      ensures x.Setting? ==> !IsPrefix(x.path, q) && !IsPrefix(q, x.path)
      ensures x.Table? ==> !IsPrefix(q, x.path)
    {
      AddedApart(es, e, q, |d.sections|,
                 if w.Into? && w.section < |d.sections| then |d.sections[w.section].body| else 0, x);
    }
  }

  lemma PrefixOfItself(q: Path)
    ensures IsPrefix(q, q)
  {
  }

  lemma AddedApart(es: seq<Entry>, e: Edit, q: Path, sections: nat, lines: nat, x: Entry)
    requires e.path != [] && ApartFrom(e, q) && x in Added(es, e, sections, lines)
    ensures x.Setting? ==> !IsPrefix(x.path, q) && !IsPrefix(q, x.path)
    ensures x.Table? ==> !IsPrefix(q, x.path)
  {
    hide Decide;
    AddedSettings(es, e, sections, lines);
    if x.Table? && IsPrefix(q, x.path) {
      PrefixOfPrefix(q, Parent(e.path), e.path);
    }
  }

  lemma {:induction false} SettableThrough(d: Document, edits: seq<Edit>, q: Path, st: Style)
    requires WellFormed(d) && GoodEdits(edits) && GoodStyle(st) && q != []
    requires forall i :: 0 <= i < |edits| ==> ApartFrom(edits[i], q)
    ensures Settable(Each(d, edits, st), q) <==> Settable(d, q)
    decreases |edits|
  {
    hide One, Settable, WellFormed, ApartFrom;
    if edits != [] {
      var ds, e := edits[..|edits| - 1], edits[|edits| - 1];
      SettableThrough(d, ds, q, st);
      SettableStays(Each(d, ds, st), e, q, st);
    }
  }

  /** Edits one at a time leave a valid document if and only if every one of them can be made in the first. */
  lemma {:induction false} EachValidIff(d: Document, edits: seq<Edit>, st: Style, arrays: seq<Claim> -> bool)
    requires WellFormed(d) && GoodEdits(edits) && GoodStyle(st) && Valid(Entries(d), arrays)
    requires Unnested(edits) && Outside(Entries(d), edits)
    ensures Valid(Entries(Each(d, edits, st)), arrays) <==> forall i :: 0 <= i < |edits| ==> Settable(d, edits[i].path)
    decreases |edits|
  {
    hide One, Settable, WellFormed, Valid, EntriesOf, InArray, IsPrefix;
    if edits != [] {
      var ds, e := edits[..|edits| - 1], edits[|edits| - 1];
      EachValidIff(d, ds, st, arrays);
      var was := Each(d, ds, st);
      ArraysStay(d, ds, st, e.path);
      if Valid(Entries(Each(d, edits, st)), arrays) {
        EarlierValid(d, edits, st, arrays);
      }
      if Valid(Entries(was), arrays) {
        ValidAfterIff(was, e, st, arrays);
        SettableIs(was, e.path);
        if i :| 0 <= i < |ds| && ds[i].path == e.path {
          EditedIsSet(d, ds, i, st);
          SetIsSettable(was, e.path);
        } else {
          forall i | 0 <= i < |ds|
            ensures ApartFrom(ds[i], e.path)
          {
            assert edits[i] == ds[i];
          }
          SettableThrough(d, ds, e.path, st);
        }
      }
      assert forall i :: 0 <= i < |ds| ==> edits[i] == ds[i];
    }
  }

  lemma SettableIs(d: Document, path: Path)
    requires path != []
    ensures Settable(d, path) <==> Decide(Entries(d), path).Replace? || Free(Entries(d), path)
  {
    hide Decide;
    DecideMeans(Entries(d), path);
  }

  lemma SetIsSettable(d: Document, path: Path)
    requires FirstSet(Entries(d), path).Some?
    ensures Settable(d, path)
  {
  }

  // ---------- what a plan leaves says all that was asked ----------

  /** Everything the document said, each path, and no array that was not there. */
  ghost predicate SaysAll(es: seq<Entry>, fs: seq<Entry>, edits: seq<Edit>) {
    && (forall x :: x in es ==> x in fs)
    && (forall i :: 0 <= i < |edits| ==> exists y :: y in fs && y.Setting? && y.path == edits[i].path)
    && (forall t :: t in fs && t.Table? && t.isArray ==> t in es)
  }

  lemma ApplySays(d: Document, w: Where, e: Edit, st: Style)
    requires e.path != [] && PlaceIn(d, w, e.path)
    requires w.Into? ==> BaseOf(d.sections[w.section]) == e.path[..w.base]
    requires w.Replace? ==> BaseOf(d.sections[w.section]) + d.sections[w.section].body[w.line].rel == e.path
    ensures var es, fs := Entries(d), Entries(Apply(d, w, e, st));
            && (forall x :: x in es ==> x in fs)
            && (exists y :: y in fs && y.Setting? && y.path == e.path)
            && (forall t :: t in fs && t.Table? && t.isArray ==> t in es)
  {
    hide EntriesOf, BaseOf, AddTo, AppendTable;
    match w
    case Replace(s, k) =>
      SetValueEntries(d, s, k, e);
      var y := Setting(s, k, BaseOf(d.sections[s]), e.path);
      EntriesSay(d.sections, y);
    case Into(s, base) =>
      var l := NewLine(e, base, st);
      var xs, ys := InsertEntries(d.sections, s, l, st.nl);
      PrefixPath(e.path, base);
      var y := Setting(s, |d.sections[s].body|, BaseOf(d.sections[s]), e.path);
      assert y in xs + [y] + ys;
    case NewTable =>
      AppendTableEntries(d, Parent(e.path), NewLine(e, |e.path| - 1, st), st);
      PrefixPath(e.path, |e.path| - 1);
      var y := Setting(|d.sections|, 0, Parent(e.path), e.path);
      assert y in Entries(Apply(d, NewTable, e, st));
  }

  lemma PlannedBase(d: Document, plan: Plan, s: nat, st: Style)
    requires PlanFits(d, plan) && s < |d.sections| + |plan.groups|
    ensures |PlannedDocument(d, plan, st).sections| == |d.sections| + |plan.groups|
    ensures BaseOf(PlannedDocument(d, plan, st).sections[s]) ==
            if s < |d.sections| then BaseOf(d.sections[s]) else plan.groups[s - |d.sections|].table
  {
    hide Render, AllWhite, NewLine, EndSection, PutInto, FilledBody, GroupLines;
    var filled := FilledDocument(d, plan.puts, st);
    EndedLength(filled, st.nl);
    if s < |d.sections| {
      EndSectionKeys(d.sections[s].(body := FilledBody(s, d.sections[s].body, plan.puts)), st.nl);
      EndSectionKeys(filled.sections[|filled.sections| - 1], st.nl);
    }
  }

  lemma {:induction false} FilledRel(d: Document, plan: Plan, s: nat, k: nat, st: Style)
    requires PlanFits(d, plan) && IsKey(d.sections, s, k)
    ensures s < |PlannedDocument(d, plan, st).sections|
    ensures IsKey(PlannedDocument(d, plan, st).sections, s, k)
    ensures PlannedDocument(d, plan, st).sections[s].body[k].rel == d.sections[s].body[k].rel
  {
    hide Render, AllWhite, NewLine, EndSection, PutInto, Replacement, GroupLines, NewHeader;
    var filled := FilledDocument(d, plan.puts, st);
    EndedLength(filled, st.nl);
    var sec := d.sections[s].(body := FilledBody(s, d.sections[s].body, plan.puts));
    EndSectionKeys(sec, st.nl);
    EndSectionKeys(filled.sections[s], st.nl);
  }

  lemma PlannedSays(d: Document, plan: Plan, e: Edit, edits: seq<Edit>, st: Style)
    requires WellFormed(d) && GoodStyle(st) && PlanFits(d, plan) && |e.path| >= 2
    requires AllWhite(Render(PlannedDocument(d, plan, st))) <==> plan.groups == [] && AllWhite(Render(d))
    requires SaysAll(Entries(d), Entries(PlannedDocument(d, plan, st)), edits)
    ensures PlanFits(d, PlanNext(Entries(d), plan, e))
    ensures SaysAll(Entries(d), Entries(PlannedDocument(d, PlanNext(Entries(d), plan, e), st)), edits + [e])
  {
    hide PlannedDocument, PlanNext, WellFormed, EntriesOf, Decide, AllWhite, Render, Apply, BaseOf, Fits, DecideIn;
    PlanNextFits(d, plan, e, st);
    var was, w := PlannedDocument(d, plan, st), DecideIn(Entries(d), plan.groups, |d.sections|, e.path);
    PlaceHasBase(d, plan, e, w, st);
    ApplySays(was, w, e, st);
    var es, fs, gs := Entries(d), Entries(was), Entries(Apply(was, w, e, st));
    forall i | 0 <= i < |edits + [e]|
      ensures exists y :: y in gs && y.Setting? && y.path == (edits + [e])[i].path
    {
      if i < |edits| {
        assert (edits + [e])[i] == edits[i];
        var y :| y in fs && y.Setting? && y.path == edits[i].path;
        assert y in gs;
      }
    }
  }

  lemma PlaceHasBase(d: Document, plan: Plan, e: Edit, w: Where, st: Style)
    requires WellFormed(d) && PlanFits(d, plan) && |e.path| >= 2
    requires w == DecideIn(Entries(d), plan.groups, |d.sections|, e.path)
    ensures var was := PlannedDocument(d, plan, st);
            && (w.Into? ==>
                  && w.section < |was.sections| && w.base <= |e.path|
                  && BaseOf(was.sections[w.section]) == e.path[..w.base])
            && (w.Replace? ==>
                  && IsKey(was.sections, w.section, w.line)
                  && BaseOf(was.sections[w.section]) + was.sections[w.section].body[w.line].rel == e.path)
  {
    hide PlannedDocument, WellFormed, EntriesOf, Decide, PlanFits, BaseOf;
    var v := Decide(Entries(d), e.path);
    DecidedIsIn(d, e.path);
    if v.Replace? {
      ReplaceMeans(d, e.path);
      FilledRel(d, plan, v.section, v.line, st);
      PlannedBase(d, plan, v.section, st);
    } else if v.Into? {
      IntoSection(d, e.path);
      PlannedBase(d, plan, v.section, st);
    } else if w.Into? {
      PlannedBase(d, plan, w.section, st);
    }
  }

  lemma {:induction false} PlanSaysAll(d: Document, edits: seq<Edit>, st: Style)
    requires WellFormed(d) && GoodEdits(edits) && GoodStyle(st)
    ensures PlanFits(d, PlanAll(Entries(d), edits))
    ensures SaysAll(Entries(d), Entries(PlannedDocument(d, PlanAll(Entries(d), edits), st)), edits)
    decreases |edits|
  {
    hide PlannedDocument, PlanNext, WellFormed, EntriesOf, Decide, AllWhite, Render, SaysAll, PlanFits;
    if edits == [] {
      NothingToDo(d, st);
      assert SaysAll(Entries(d), Entries(d), []) by { SaysItself(Entries(d)); }
    } else {
      var ds, e := edits[..|edits| - 1], edits[|edits| - 1];
      PlanSaysAll(d, ds, st);
      var plan := PlanAll(Entries(d), ds);
      GroupsAreGood(Entries(d), ds);
      PlannedIsWhite(d, ds, plan, st);
      PlannedSays(d, plan, e, ds, st);
      assert ds + [e] == edits;
    }
  }

  lemma SaysItself(es: seq<Entry>)
    ensures SaysAll(es, es, [])
  {
  }

  lemma PlannedIsWhite(d: Document, edits: seq<Edit>, plan: Plan, st: Style)
    requires WellFormed(d) && GoodEdits(edits) && GoodStyle(st) && plan == PlanAll(Entries(d), edits)
    requires PlanFits(d, plan) && GoodGroups(plan.groups)
    ensures AllWhite(Render(PlannedDocument(d, plan, st))) <==> plan.groups == [] && AllWhite(Render(d))
  {
    hide PlannedDocument, PlanAll, WellFormed, EntriesOf, AllWhite, Render, GoodGroups;
    PlannedText(d, edits, plan.groups, st);
    if plan.groups == [] {
      FilledWhite(d, edits, st);
      HasSectionsToo(d, plan);
      NoTables(d, plan.puts, st);
      assert plan == Plan(plan.puts, []);
    }
  }

  lemma HasSectionsToo(d: Document, plan: Plan)
    requires PlanFits(d, plan)
    ensures d.sections != []
  {
  }

  // ---------- both ways, together ----------

  /** Planned against one read, the edits leave a valid document if and only if every one of them can be made in it. */
  lemma PlannedValidIff(d: Document, edits: seq<Edit>, st: Style, arrays: seq<Claim> -> bool)
    requires WellFormed(d) && GoodEdits(edits) && GoodStyle(st) && Valid(Entries(d), arrays)
    requires Distinct(edits) && Unnested(edits) && Outside(Entries(d), edits)
    ensures PlanFits(d, PlanAll(Entries(d), edits))
    ensures Valid(Entries(PlannedDocument(d, PlanAll(Entries(d), edits), st)), arrays) <==>
            forall i :: 0 <= i < |edits| ==> Settable(d, edits[i].path)
    ensures Valid(Entries(PlannedDocument(d, PlanAll(Entries(d), edits), st)), arrays) ==>
            PlannedDocument(d, PlanAll(Entries(d), edits), st) == Each(d, edits, st)
  {
    hide PlannedDocument, PlanAll, WellFormed, EntriesOf, Settable, PlacesKnown, Outside, Unnested, Each, SaysAll,
         Distinct, Valid, Fits, BasesFit, GroupsFit;
    PlanSaysAll(d, edits, st);
    EachValidIff(d, edits, st, arrays);
    GoodPaths(edits);
    if Valid(Entries(Each(d, edits, st)), arrays) {
      EachIsPlanned(d, edits, st, arrays);
    }
    if Valid(Entries(PlannedDocument(d, PlanAll(Entries(d), edits), st)), arrays) {
      forall i | 0 <= i < |edits|
        ensures Settable(d, edits[i].path)
      {
        SaidIsSettable(d, Entries(PlannedDocument(d, PlanAll(Entries(d), edits), st)), edits, i, arrays);
      }
    }
  }

  lemma GoodPaths(edits: seq<Edit>)
    requires GoodEdits(edits)
    ensures forall e :: e in edits ==> e.path != []
  {
  }

  lemma SaidIsSettable(d: Document, fs: seq<Entry>, edits: seq<Edit>, i: nat, arrays: seq<Claim> -> bool)
    requires SaysAll(Entries(d), fs, edits) && Valid(fs, arrays) && Outside(Entries(d), edits) && i < |edits|
    ensures Settable(d, edits[i].path)
  {
    hide EntriesOf, IsPrefix, ArrayPart;
    var es, q := Entries(d), edits[i].path;
    var y :| y in fs && y.Setting? && y.path == q;
    assert !InArray(fs, q);
    if FirstSet(es, q).None? {
      forall x | x in es
        ensures x.Setting? ==> !IsPrefix(x.path, q) && !IsPrefix(q, x.path)
        ensures x.Table? ==> !IsPrefix(q, x.path)
      {
        PairIs(fs, x, y);
      }
    }
  }

  // ---------- the calls ----------

  lemma ReachableStays(d: Document, e: Edit, q: Path, st: Style)
    requires WellFormed(d) && GoodEdit(e) && GoodStyle(st) && !InArray(Entries(d), e.path)
    requires IsPrefix(e.path, q) ==> e.path == q
    ensures Reachable(One(d, e, st), q) <==> Reachable(d, q)
  {
    hide One, WellFormed, EntriesOf, Decide, InArray, Apply;
    ArraysStayOnce(d, e, st, q);
    var r := One(d, e, st);
    var xs, ys, added := OneEntries(d, e, st);
    assert forall x :: x in Entries(r) <==> x in Entries(d) || x in added;
    forall x | x in Entries(d) && x.Setting? && |x.path| < |q| && IsPrefix(x.path, q)
      ensures x in Entries(r) && LineOf(r, x).compound == LineOf(d, x).compound
    {
      OtherLineStays(d, e, x, st);
    }
    forall x | x in added && x.Setting?
      ensures x.path == e.path
    {
      var w := Decide(Entries(d), e.path);
      AddedSettings(Entries(d), e, |d.sections|,
                    if w.Into? && w.section < |d.sections| then |d.sections[w.section].body| else 0);
    }
  }

  lemma OtherLineStays(d: Document, e: Edit, x: Entry, st: Style)
    requires WellFormed(d) && e.path != [] && x in Entries(d) && x.Setting? && x.path != e.path
    requires x in Entries(One(d, e, st))
    ensures LineOf(One(d, e, st), x).compound == LineOf(d, x).compound
  {
    hide WellFormed, Decide, Apply;
    OneIs(d, e, st);
    var w := Decide(Entries(d), e.path);
    EntriesSay(d.sections, x);
    if w.Replace? {
      ReplaceMeans(d, e.path);
    }
    ApplyLeavesLines(d, w, e, st, x.section, x.line);
  }

  lemma {:induction false} FaultStaysSame(d: Document, edits: seq<Edit>, q: Path, st: Style)
    requires WellFormed(d) && GoodEdits(edits) && GoodStyle(st) && Outside(Entries(d), edits)
    requires forall i :: 0 <= i < |edits| && IsPrefix(edits[i].path, q) ==> edits[i].path == q
    ensures Reachable(Each(d, edits, st), q) <==> Reachable(d, q)
    decreases |edits|
  {
    hide One, WellFormed, EntriesOf, InArray, Reachable, IsPrefix;
    if edits != [] {
      var ds, e := edits[..|edits| - 1], edits[|edits| - 1];
      FaultStaysSame(d, ds, q, st);
      ArraysStay(d, ds, st, e.path);
      ReachableStays(Each(d, ds, st), e, q, st);
    }
  }

  lemma AllOutside(d: Document, edits: seq<Edit>, lib: Library)
    requires FirstFault(d, edits, lib).None?
    ensures Outside(Entries(d), edits)
  {
    hide InArray, EntriesOf;
    NoFaultIsGood(d, edits, lib);
  }

  lemma UniqueIsUnnested(edits: seq<Edit>)
    requires Unnested(edits)
    ensures Unnested(Unique(edits))
  {
    hide IsPrefix;
    UniqueIsGood(edits);
    var u := Unique(edits);
    forall i, j | 0 <= i < |u| && 0 <= j < |u| && IsPrefix(u[i].path, u[j].path)
      ensures u[i].path == u[j].path
    {
      assert u[i] in edits && u[j] in edits;
    }
  }

  lemma UniqueIsOutside(es: seq<Entry>, edits: seq<Edit>)
    requires Outside(es, edits)
    ensures Outside(es, Unique(edits))
  {
    hide InArray;
    UniqueIsGood(edits);
    var u := Unique(edits);
    forall i | 0 <= i < |u|
      ensures !InArray(es, u[i].path)
    {
      assert u[i] in edits;
    }
  }

  // ---------- a path inside another ----------

  /** Two paths that are both set in a valid document are not one inside the other. */
  lemma SetPathsApart(es: seq<Entry>, x: Entry, y: Entry, arrays: seq<Claim> -> bool)
    requires Valid(es, arrays) && x in es && y in es && x.Setting? && y.Setting? && !InArray(es, x.path)
    ensures IsPrefix(x.path, y.path) ==> x.path == y.path
  {
    hide InArray, ArrayPart;
    PairIs(es, x, y);
  }

  /** With one edit's path inside another's there is no way to make both. */
  lemma NestedFails(d: Document, edits: seq<Edit>, lib: Library)
    requires WellFormed(d) && SetAllOf(d, edits, lib).Done?
    ensures Unnested(edits)
  {
    hide WellFormed, Valid, EntriesOf, FirstFault, PlannedDocument, PlanAll, Unique, StyleOf, IsPrefix, InArray, Fits;
    var st, u := StyleOf(d, lib), Unique(edits);
    NoFaultIsGood(d, edits, lib);
    AllOutside(d, edits, lib);
    UniqueStaysGood(edits);
    PlanSaysAll(d, u, st);
    var fs := Entries(PlannedDocument(d, PlanAll(Entries(d), u), st));
    forall i, j | 0 <= i < |edits| && 0 <= j < |edits| && IsPrefix(edits[i].path, edits[j].path)
      ensures edits[i].path == edits[j].path
    {
      var x := Said(d, fs, edits, i);
      var y := Said(d, fs, edits, j);
      SetPathsApart(fs, x, y, lib.arrays);
    }
  }

  lemma Said(d: Document, fs: seq<Entry>, edits: seq<Edit>, i: nat) returns (x: Entry)
    requires i < |edits| && SaysAll(Entries(d), fs, Unique(edits)) && Outside(Entries(d), edits)
    ensures x in fs && x.Setting? && x.path == edits[i].path && !InArray(fs, x.path)
  {
    hide EntriesOf, IsPrefix, Unique;
    UniqueIsGood(edits);
    var q, u := edits[i].path, Unique(edits);
    assert !Unedited(edits, q);
    assert !Unedited(u, q);
    var k :| 0 <= k < |u| && u[k].path == q;
    x :| x in fs && x.Setting? && x.path == u[k].path;
  }

  /** What one call after another leaves says every path that was asked for. */
  lemma {:induction false} SetEachSays(d: Document, edits: seq<Edit>, lib: Library, i: nat)
    requires WellFormed(d) && SetEachOf(d, edits, lib).Done? && i < |edits|
    ensures var fs := Entries(SetEachOf(d, edits, lib).document);
            && Valid(fs, lib.arrays)
            && FirstSet(fs, edits[i].path).Some? && !InArray(fs, edits[i].path)
    decreases |edits|
  {
    hide WellFormed, Valid, EntriesOf, InArray, SetAllOf, FaultOf, One, StyleOf, Decide;
    var n := |edits| - 1;
    var ds, e := edits[..n], edits[n];
    var was := SetEachOf(d, ds, lib).document;
    SetOne(was, e, lib);
    NoFaultIsGoodEdit(was, e, lib);
    FirstSetAfter(was, e, StyleOf(was, lib), edits[i].path);
    DecideMeans(Entries(was), e.path);
    IntoIsIn(was, e.path);
    if i < n {
      SetEachSays(d, ds, lib, i);
    }
    ArraysStayOnce(was, e, StyleOf(was, lib), edits[i].path);
  }

  lemma NestedFailsEach(d: Document, edits: seq<Edit>, lib: Library)
    requires WellFormed(d) && SetEachOf(d, edits, lib).Done?
    ensures Unnested(edits)
  {
    hide WellFormed, Valid, EntriesOf, SetEachOf, IsPrefix, InArray;
    var fs := Entries(SetEachOf(d, edits, lib).document);
    forall i, j | 0 <= i < |edits| && 0 <= j < |edits| && IsPrefix(edits[i].path, edits[j].path)
      ensures edits[i].path == edits[j].path
    {
      SetEachSays(d, edits, lib, i);
      SetEachSays(d, edits, lib, j);
      SetPathsApart(fs, FirstSet(fs, edits[i].path).value, FirstSet(fs, edits[j].path).value, lib.arrays);
    }
  }

  // ---------- the theorems ----------

  /** What is known of edits that are not refused one by one, once for all of them. */
  lemma Prepared(d: Document, edits: seq<Edit>, lib: Library)
    requires WellFormed(d) && FirstFault(d, edits, lib).None? && Unnested(edits) && Valid(Entries(d), lib.arrays)
    ensures GoodEdits(edits) && Outside(Entries(d), edits) && GoodEdits(Unique(edits))
    ensures forall e :: e in Unique(edits) ==> e.path != []
    ensures var st, plan := StyleOf(d, lib), PlanAll(Entries(d), Unique(edits));
            && PlanFits(d, plan)
            && (Valid(Entries(PlannedDocument(d, plan, st)), lib.arrays) <==>
                  forall i :: 0 <= i < |edits| ==> Settable(d, edits[i].path))
            && (Valid(Entries(Each(d, edits, st)), lib.arrays) <==>
                  forall i :: 0 <= i < |edits| ==> Settable(d, edits[i].path))
            && (Valid(Entries(PlannedDocument(d, plan, st)), lib.arrays) ==>
                  PlannedDocument(d, plan, st) == Each(d, edits, st))
  {
    hide WellFormed, Valid, EntriesOf, FirstFault, PlannedDocument, PlanAll, Each, Unique, StyleOf, Fits, Outside,
         Settable, Unnested, BasesFit, GroupsFit;
    var st, u := StyleOf(d, lib), Unique(edits);
    NoFaultIsGood(d, edits, lib);
    AllOutside(d, edits, lib);
    UniqueStaysGood(edits);
    GoodPaths(u);
    UniqueIsGood(edits);
    UniqueIsUnnested(edits);
    UniqueIsOutside(Entries(d), edits);
    EachUnique(d, edits, st);
    PlannedValidIff(d, u, st, lib.arrays);
    EachValidIff(d, u, st, lib.arrays);
    EachValidIff(d, edits, st, lib.arrays);
  }

  /**
   When it succeeds, in terms of the file as it is: it is TOML, no edit is refused by itself, none lies inside another,
   and each path is set, or has no value on the way to it and is not a table.
   */
  lemma SucceedsIff(d: Document, edits: seq<Edit>, lib: Library)
    requires WellFormed(d)
    ensures SetAllOf(d, edits, lib).Done? <==>
            && Valid(Entries(d), lib.arrays)
            && FirstFault(d, edits, lib).None?
            && Unnested(edits)
            && forall i :: 0 <= i < |edits| ==> Settable(d, edits[i].path)
  {
    hide WellFormed, Valid, EntriesOf, FirstFault, PlannedDocument, PlanAll, Each, Unique, StyleOf, Fits, Outside,
         Settable, Unnested, BasesFit, GroupsFit;
    if SetAllOf(d, edits, lib).Done? {
      NestedFails(d, edits, lib);
    }
    if Valid(Entries(d), lib.arrays) && FirstFault(d, edits, lib).None? && Unnested(edits) {
      Prepared(d, edits, lib);
    }
  }

  /** What a success leaves: each path reads back as its last literal, and every other path, set or not, as before. */
  lemma ReadsBack(d: Document, edits: seq<Edit>, lib: Library, path: Path)
    requires WellFormed(d) && SetAllOf(d, edits, lib).Done?
    ensures Get(SetAllOf(d, edits, lib).document, path) ==
            if LastEdit(edits, path).Some? then LastEdit(edits, path) else Get(d, path)
  {
    hide WellFormed, Valid, EntriesOf, FirstFault, PlannedDocument, PlanAll, Each, Unique, StyleOf, Fits, Outside,
         Settable, Unnested, BasesFit, GroupsFit, Get;
    NestedFails(d, edits, lib);
    Prepared(d, edits, lib);
    EachReads(d, edits, StyleOf(d, lib), path);
  }
}
