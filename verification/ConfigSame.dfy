/** A plan made against one read leaves what the same edits leave one at a time (daemon/config/edit.go). */
module ConfigSame {
  import opened Bytes
  import opened Splice
  import opened Toml
  import opened ConfigPlace
  import opened ConfigEdit
  import opened ConfigForm
  import opened ConfigBatch
  import opened ConfigFold

  // ---------- a document that says something is not blank ----------

  lemma {:induction false} InBody(body: seq<Line>, k: nat, c: char)
    requires k < |body| && c in LineText(body[k])
    ensures c in BodyText(body)
    decreases |body|
  {
    hide LineText;
    if k < |body| - 1 {
      InBody(body[..|body| - 1], k, c);
    }
  }

  lemma {:induction false} InSections(ss: seq<Section>, s: nat, c: char)
    requires s < |ss| && c in SectionText(ss[s])
    ensures c in SectionsText(ss)
    decreases |ss|
  {
    hide SectionText;
    if s < |ss| - 1 {
      InSections(ss[..|ss| - 1], s, c);
    }
  }

  lemma LineHasEquals(l: Line)
    requires GoodLine(l) && l.Assign?
    ensures '=' in LineText(l)
  {
    var i :| 0 <= i < |l.eq| && l.eq[i] == '=';
    var t := LineText(l);
    assert t[|l.lead| + |l.key| + i] == '=';
  }

  lemma NotWhite(t: Text, c: char)
    requires c in t && (c == '[' || c == '=')
    ensures !AllWhite(t)
  {
    var i :| 0 <= i < |t| && t[i] == c;
  }

  lemma HeadHasBracket(s: Section)
    requires s.head.Some? && GoodHeader(s.head.value)
    ensures '[' in SectionText(s)
  {
    hide BodyText;
    assert '[' in HeadText(s.head);
  }

  lemma BodyHasEquals(s: Section, k: nat)
    requires k < |s.body| && s.body[k].Assign? && GoodLine(s.body[k])
    ensures '=' in SectionText(s)
  {
    LineHasEquals(s.body[k]);
    hide BodyText, LineText, HeadText;
    InBody(s.body, k, '=');
  }

  lemma SaysSomething(d: Document, e: Entry)
    requires WellFormed(d) && e in Entries(d)
    ensures !AllWhite(Render(d))
  {
    hide SectionText, SectionsText, AllWhite, LineText, GoodLine, GoodHeader;
    EntriesSay(d.sections, e);
    hide EntriesOf;
    var sec := d.sections[e.section];
    assert GoodSection(sec);
    if e.Table? {
      HeadHasBracket(sec);
      InSections(d.sections, e.section, '[');
      NotWhite(Render(d), '[');
    } else {
      BodyHasEquals(sec, e.line);
      InSections(d.sections, e.section, '=');
      NotWhite(Render(d), '=');
    }
  }

  // ---------- one at a time ----------

  predicate GoodEdits(edits: seq<Edit>) {
    forall i :: 0 <= i < |edits| ==> GoodEdit(edits[i])
  }

  function Each(d: Document, edits: seq<Edit>, st: Style): (r: Document)
    requires WellFormed(d) && GoodEdits(edits) && GoodStyle(st)
    ensures WellFormed(r)
  {
    if edits == [] then d
    else
      var most := Each(d, edits[..|edits| - 1], st);
      assert WellFormed(One(most, edits[|edits| - 1], st)) by { OneKeepsForm(most, edits[|edits| - 1], st); }
      One(most, edits[|edits| - 1], st)
  }

  /** None of the paths is under an array of tables. */
  ghost predicate Outside(es: seq<Entry>, edits: seq<Edit>) {
    forall i :: 0 <= i < |edits| ==> !InArray(es, edits[i].path)
  }

  lemma ArraysStayOnce(d: Document, e: Edit, st: Style, q: Path)
    requires WellFormed(d) && |e.path| >= 2 && !InArray(Entries(d), e.path)
    ensures InArray(Entries(One(d, e, st)), q) == InArray(Entries(d), q)
  {
    hide One, Decide, EntriesOf, WellFormed, InArray;
    var xs, ys, added := OneEntries(d, e, st);
    var w := Decide(Entries(d), e.path);
    AddedIsPlain(Entries(d), e, |d.sections|,
                 if w.Into? && w.section < |d.sections| then |d.sections[w.section].body| else 0);
    PlainChangesNoArray(xs, ys, added, q);
  }

  lemma {:induction false} ArraysStay(d: Document, edits: seq<Edit>, st: Style, q: Path)
    requires WellFormed(d) && GoodEdits(edits) && GoodStyle(st) && Outside(Entries(d), edits)
    ensures InArray(Entries(Each(d, edits, st)), q) == InArray(Entries(d), q)
    decreases |edits|
  {
    hide One, InArray, EntriesOf, WellFormed;
    if edits != [] {
      var ds, e := edits[..|edits| - 1], edits[|edits| - 1];
      ArraysStay(d, ds, st, q);
      ArraysStay(d, ds, st, e.path);
      ArraysStayOnce(Each(d, ds, st), e, st, q);
    }
  }

  /** What ends valid was valid all along. */
  lemma EarlierValid(d: Document, edits: seq<Edit>, st: Style, arrays: seq<Claim> -> bool)
    requires WellFormed(d) && GoodEdits(edits) && GoodStyle(st) && Outside(Entries(d), edits) && edits != []
    requires Valid(Entries(Each(d, edits, st)), arrays)
    ensures Valid(Entries(Each(d, edits[..|edits| - 1], st)), arrays)
  {
    hide One, InArray, EntriesOf, WellFormed, Valid;
    var ds, e := edits[..|edits| - 1], edits[|edits| - 1];
    ArraysStay(d, ds, st, e.path);
    ValidBefore(Each(d, ds, st), e, st, arrays);
  }

  // ---------- the same, from a plan ----------

  predicate Distinct(edits: seq<Edit>) {
    forall i, j :: 0 <= i < j < |edits| ==> edits[i].path != edits[j].path
  }

  predicate Unedited(edits: seq<Edit>, q: Path) {
    forall i :: 0 <= i < |edits| ==> edits[i].path != q
  }

  lemma {:induction false} SameGroups(a: seq<Group>, b: seq<Group>, table: Path)
    requires |a| == |b| && forall g :: 0 <= g < |a| ==> a[g].table == b[g].table
    ensures GroupOf(a, table) == GroupOf(b, table)
  {
    if a != [] {
      SameGroups(a[..|a| - 1], b[..|b| - 1], table);
    }
  }

  /** The places of the keys to come, as the plan grows. */
  lemma DecideNext(es: seq<Entry>, plan: Plan, sections: nat, e: Edit, q: Path)
    requires e.path != [] && q != []
    ensures var was := DecideIn(es, plan.groups, sections, q);
            var now := DecideIn(es, PlanNext(es, plan, e).groups, sections, q);
            var starts := was.NewTable? && DecideIn(es, plan.groups, sections, e.path).NewTable?;
            now == if starts && Parent(q) == Parent(e.path)
                   then Into(sections + |plan.groups|, |Parent(q)|) else was
  {
    hide Decide;
    var w, g := Decide(es, e.path), GroupOf(plan.groups, Parent(e.path));
    if w.NewTable? && g.Some? {
      SameGroups(plan.groups, PlanNext(es, plan, e).groups, Parent(q));
    } else if w.NewTable? {
      assert (plan.groups + [Group(Parent(e.path), [e])])[..|plan.groups|] == plan.groups;
    }
  }

  lemma PlannedLength(d: Document, plan: Plan, st: Style)
    requires PlanFits(d, plan)
    ensures |PlannedDocument(d, plan, st).sections| == |d.sections| + |plan.groups|
  {
  }

  /** What carrying out a plan leaves says nothing but white space only when there was nothing else to begin with. */
  lemma WhiteAsBefore(d: Document, edits: seq<Edit>, plan: Plan, st: Style)
    requires WellFormed(d) && GoodEdits(edits) && GoodStyle(st)
    requires plan == PlanAll(Entries(d), edits) && PlanFits(d, plan)
    requires Each(d, edits, st) == PlannedDocument(d, plan, st)
    ensures AllWhite(Render(PlannedDocument(d, plan, st))) <==> plan.groups == [] && AllWhite(Render(d))
  {
    hide AllWhite, Render, One, EntriesOf, PlannedDocument, WellFormed;
    var r := PlannedDocument(d, plan, st);
    if plan.groups != [] {
      StartedIsSaid(d, plan, st);
      SaysSomething(r, Table(|d.sections|, plan.groups[0].table, false));
    } else if plan.puts != [] {
      SomethingToPutTo(d, edits, plan);
      var x :| x in Entries(d);
      SaysSomething(d, x);
      EntriesStay(d, edits, st, x);
      SaysSomething(r, x);
    } else {
      NothingPlannedStays(d, plan, st);
    }
  }

  lemma StartedIsSaid(d: Document, plan: Plan, st: Style)
    requires PlanFits(d, plan) && plan.groups != []
    ensures Table(|d.sections|, plan.groups[0].table, false) in Entries(PlannedDocument(d, plan, st))
  {
    hide GroupSection, EndDocument, Render, AllWhite, FilledSections;
    var r := PlannedDocument(d, plan, st);
    var x := Table(|d.sections|, plan.groups[0].table, false);
    EndedLength(d.(sections := FilledSections(d.sections, plan.puts, st)), st.nl);
    GroupSays(plan.groups[0], st);
    assert Says(r.sections, x);
    EntriesSay(r.sections, x);
  }

  lemma NothingPlannedStays(d: Document, plan: Plan, st: Style)
    requires PlanFits(d, plan) && plan.groups == [] && plan.puts == []
    ensures PlannedDocument(d, plan, st) == d
  {
    NothingPut(d, st);
  }

  lemma GroupSays(g: Group, st: Style)
    requires forall i :: 0 <= i < |g.edits| ==> g.edits[i].path != []
    ensures forall lead :: GroupSection(g, lead, st).head.Some?
    ensures forall lead :: GroupSection(g, lead, st).head == Some(NewHeader(g.table, st))
  {
  }

  lemma NothingPut(d: Document, st: Style)
    requires d.sections != []
    ensures FilledSections(d.sections, [], st) == d.sections
  {
    hide EndSection;
    forall s, k | 0 <= s < |d.sections| && 0 <= k < |d.sections[s].body|
      ensures FilledLine(s, k, d.sections[s].body[k], []) == d.sections[s].body[k]
    {
    }
    forall s | 0 <= s < |d.sections|
      ensures FilledSection(s, d.sections[s], [], st) == d.sections[s]
    {
      assert FilledBody(s, d.sections[s].body, []) == d.sections[s].body;
    }
  }

  lemma NothingDecided(es: seq<Entry>, path: Path)
    requires path != []
    ensures es == [] ==> Decide(es, path).NewTable?
  {
  }

  lemma {:induction false} SomethingToPutTo(d: Document, edits: seq<Edit>, plan: Plan)
    requires GoodEdits(edits) && plan == PlanAll(Entries(d), edits) && plan.puts != []
    ensures exists x :: x in Entries(d)
    decreases |edits|
  {
    hide EntriesOf;
    var ds, e := edits[..|edits| - 1], edits[|edits| - 1];
    if PlanAll(Entries(d), ds).puts != [] {
      SomethingToPutTo(d, ds, PlanAll(Entries(d), ds));
    } else {
      NothingDecided(Entries(d), e.path);
      assert Entries(d)[0] in Entries(d);
    }
  }

  lemma {:induction false} EntriesStay(d: Document, edits: seq<Edit>, st: Style, x: Entry)
    requires WellFormed(d) && GoodEdits(edits) && GoodStyle(st) && x in Entries(d)
    ensures x in Entries(Each(d, edits, st))
    decreases |edits|
  {
    hide One, EntriesOf, WellFormed;
    if edits != [] {
      var ds, e := edits[..|edits| - 1], edits[|edits| - 1];
      EntriesStay(d, ds, st, x);
      var xs, ys, added := OneEntries(Each(d, ds, st), e, st);
    }
  }

  lemma PlanNextFits(d: Document, plan: Plan, e: Edit, st: Style)
    requires WellFormed(d) && GoodStyle(st) && PlanFits(d, plan) && |e.path| >= 2
    requires AllWhite(Render(PlannedDocument(d, plan, st))) <==> plan.groups == [] && AllWhite(Render(d))
    ensures var w := DecideIn(Entries(d), plan.groups, |d.sections|, e.path);
            var after := PlanNext(Entries(d), plan, e);
            && PlanFits(d, after)
            && PlaceIn(PlannedDocument(d, plan, st), w, e.path)
            && Apply(PlannedDocument(d, plan, st), w, e, st) == PlannedDocument(d, after, st)
  {
    hide Decide, PlannedDocument, Apply, WellFormed, AllWhite, Render, EntriesOf;
    DecidedIsIn(d, e.path);
    var w, g := Decide(Entries(d), e.path), GroupOf(plan.groups, Parent(e.path));
    if !w.NewTable? {
      PutNext(d, plan, w, e, st);
    } else if g.Some? {
      GroupNext(d, plan, g.value, e, st);
    } else {
      NewGroupNext(d, plan, e, st);
      PlannedLength(d, plan, st);
    }
  }

  /** Where each key to come goes, in a document that some edits have made of another, is where the plan says. */
  ghost predicate PlacesKnown(es: seq<Entry>, edits: seq<Edit>, groups: seq<Group>, sections: nat, now: seq<Entry>) {
    forall q :: |q| >= 2 && Unedited(edits, q) && !InArray(es, q) ==>
      Decide(now, q) == DecideIn(es, groups, sections, q)
  }

  /**
   Planning every edit against the document as it was leaves the document that making them one by one leaves, and where
   a further key would go is where the plan says.
   */
  lemma {:induction false} EachIsPlanned(d: Document, edits: seq<Edit>, st: Style, arrays: seq<Claim> -> bool)
    requires WellFormed(d) && GoodEdits(edits) && GoodStyle(st) && Distinct(edits) && Outside(Entries(d), edits)
    requires Valid(Entries(Each(d, edits, st)), arrays)
    ensures var plan := PlanAll(Entries(d), edits);
            && PlanFits(d, plan)
            && Each(d, edits, st) == PlannedDocument(d, plan, st)
            && PlacesKnown(Entries(d), edits, plan.groups, |d.sections|, Entries(Each(d, edits, st)))
    decreases |edits|
  {
    hide One, InArray, EntriesOf, WellFormed, Valid, Decide, PlannedDocument, PlanNext, DecideIn, PlacesKnown,
         PlanFits;
    if edits == [] {
      NothingToDo(d, st);
    } else {
      var ds, e := edits[..|edits| - 1], edits[|edits| - 1];
      EarlierValid(d, edits, st, arrays);
      EachIsPlanned(d, ds, st, arrays);
      NextIsPlanned(d, ds, e, st, arrays);
      assert ds + [e] == edits;
    }
  }

  lemma NothingToDo(d: Document, st: Style)
    requires WellFormed(d)
    ensures PlanFits(d, Plan([], [])) && PlannedDocument(d, Plan([], []), st) == d
    ensures PlacesKnown(Entries(d), [], [], |d.sections|, Entries(d))
  {
    hide Decide;
    NothingPlannedStays(d, Plan([], []), st);
  }

  lemma NextIsPlanned(d: Document, ds: seq<Edit>, e: Edit, st: Style, arrays: seq<Claim> -> bool)
    requires WellFormed(d) && GoodEdits(ds) && GoodEdit(e) && GoodStyle(st) && Outside(Entries(d), ds)
    requires Unedited(ds, e.path) && !InArray(Entries(d), e.path)
    requires Valid(Entries(Each(d, ds, st)), arrays) && Valid(Entries(One(Each(d, ds, st), e, st)), arrays)
    requires var plan := PlanAll(Entries(d), ds);
             && PlanFits(d, plan)
             && Each(d, ds, st) == PlannedDocument(d, plan, st)
             && PlacesKnown(Entries(d), ds, plan.groups, |d.sections|, Entries(Each(d, ds, st)))
    ensures var after := PlanNext(Entries(d), PlanAll(Entries(d), ds), e);
            && PlanFits(d, after)
            && One(Each(d, ds, st), e, st) == PlannedDocument(d, after, st)
            && PlacesKnown(Entries(d), ds + [e], after.groups, |d.sections|, Entries(One(Each(d, ds, st), e, st)))
  {
    hide One, InArray, EntriesOf, WellFormed, Valid, Decide, PlannedDocument, PlanNext, DecideIn, PlanFits;
    var es, was := Entries(d), Each(d, ds, st);
    var plan := PlanAll(es, ds);
    WhiteAsBefore(d, ds, plan, st);
    PlanNextFits(d, plan, e, st);
    OneIs(was, e, st);
    PlannedLength(d, plan, st);
    forall q | |q| >= 2 && Unedited(ds + [e], q) && !InArray(es, q)
      ensures Decide(Entries(One(was, e, st)), q) == DecideIn(es, PlanNext(es, plan, e).groups, |d.sections|, q)
    {
      assert (ds + [e])[|ds|] == e && Unedited(ds, q) by {
        assert forall i :: 0 <= i < |ds| ==> (ds + [e])[i] == ds[i];
      }
      ArraysStay(d, ds, st, q);
      ArraysStay(d, ds, st, e.path);
      NextPlace(es, was, plan, |d.sections|, e, q, st, arrays);
    }
  }

  lemma NextPlace(
    es: seq<Entry>, was: Document, plan: Plan, sections: nat, e: Edit, q: Path, st: Style, arrays: seq<Claim> -> bool)
    requires WellFormed(was) && GoodEdit(e) && GoodStyle(st) && |q| >= 2 && q != e.path
    requires !InArray(Entries(was), e.path) && !InArray(Entries(was), q)
    requires Valid(Entries(was), arrays) && Valid(Entries(One(was, e, st)), arrays)
    requires |was.sections| == sections + |plan.groups|
    requires Decide(Entries(was), q) == DecideIn(es, plan.groups, sections, q)
    requires Decide(Entries(was), e.path) == DecideIn(es, plan.groups, sections, e.path)
    ensures Decide(Entries(One(was, e, st)), q) == DecideIn(es, PlanNext(es, plan, e).groups, sections, q)
  {
    hide One, InArray, EntriesOf, WellFormed, Decide, PlanNext, DecideIn, AllPairsOk;
    PlaceStays(was, e, q, st);
    DecideNext(es, plan, sections, e, q);
  }

  lemma OneIs(d: Document, e: Edit, st: Style)
    requires WellFormed(d) && e.path != []
    ensures PlaceIn(d, Decide(Entries(d), e.path), e.path)
    ensures One(d, e, st) == Apply(d, Decide(Entries(d), e.path), e, st)
  {
    DecidedIsIn(d, e.path);
  }
}
