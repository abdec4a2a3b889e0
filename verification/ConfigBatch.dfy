/**
 Several edits planned against one read (daemon/config/edit.go), and that this comes to the same as making them one at
 a time.
 */
module ConfigBatch {
  import opened Bytes
  import opened Splice
  import opened Toml
  import opened ConfigPlace
  import opened ConfigEdit
  import opened ConfigForm

  // ---------- an edit does not move another's place ----------

  /**
   Where another key goes is the same after an edit as before it, but for one thing: the table the edit started is
   where the next key of that table goes.
   */
  lemma PlaceStays(d: Document, e: Edit, q: Path, st: Style)
    requires WellFormed(d) && GoodEdit(e) && GoodStyle(st) && |q| >= 2 && q != e.path
    requires AllPairsOk(Entries(d)) && AllPairsOk(Entries(One(d, e, st)))
    requires !InArray(Entries(d), e.path) && !InArray(Entries(d), q)
    ensures !InArray(Entries(One(d, e, st)), q)
    ensures var w := Decide(Entries(d), q);
            Decide(Entries(One(d, e, st)), q) ==
              if w.NewTable? && Decide(Entries(d), e.path).NewTable? && Parent(q) == Parent(e.path)
              then Into(|d.sections|, |Parent(q)|) else w
  {
    hide One, AllPairsOk, EntriesOf, WellFormed, Decide;
    var es, fs := Entries(d), Entries(One(d, e, st));
    var xs, ys, added := OneEntries(d, e, st);
    OneKeepsForm(d, e, st);
    EntriesAreHoused(d);
    EntriesAreHoused(One(d, e, st));
    var w := Decide(es, e.path);
    AddedIsPlain(es, e, |d.sections|, if w.Into? && w.section < |d.sections| then |d.sections[w.section].body| else 0);
    PlainChangesNoArray(xs, ys, added, q);
    assert forall x :: x in fs <==> x in es || x in added;
    var wq := Decide(es, q);
    if wq.Replace? {
      DecideMeans(es, q);
      OneSetting(es, q, FirstSet(es, q).value);
      OneSetting(fs, q, FirstSet(es, q).value);
    } else {
      OtherPlaceStays(es, fs, added, e, q, |d.sections|,
        if w.Into? && w.section < |d.sections| then |d.sections[w.section].body| else 0);
    }
  }

  /** What each decision says there is. */
  lemma DecideMeans(es: seq<Entry>, path: Path)
    requires path != []
    ensures Decide(es, path).Replace? <==> FirstSet(es, path).Some?
    ensures Decide(es, path).Into? <==>
              (FirstSet(es, path).None? && (LastTable(es, Parent(path)).Some? || LastSibling(es, Parent(path)).Some?))
    ensures Decide(es, path).Into? && LastTable(es, Parent(path)).Some? ==>
              Decide(es, path) == Into(LastTable(es, Parent(path)).value.section, |Parent(path)|)
    ensures Decide(es, path).Into? && LastTable(es, Parent(path)).None? ==>
              var y := LastSibling(es, Parent(path)).value; Decide(es, path) == Into(y.section, |y.base|)
  {
  }

  lemma OtherPlaceStays(
    es: seq<Entry>, fs: seq<Entry>, added: seq<Entry>, e: Edit, q: Path, sections: nat, lines: nat)
    requires AllPairsOk(es) && AllPairsOk(fs) && Housed(es) && Housed(fs)
    requires |e.path| >= 2 && |q| >= 2 && q != e.path
    requires !InArray(es, e.path) && !InArray(es, q) && !InArray(fs, q)
    requires forall x :: x in fs <==> x in es || x in added
    requires added == Added(es, e, sections, lines)
    requires !Decide(es, q).Replace?
    ensures Decide(fs, q) ==
              if Decide(es, q).NewTable? && Decide(es, e.path).NewTable? && Parent(q) == Parent(e.path)
              then Into(sections, |Parent(q)|) else Decide(es, q)
  {
    hide AllPairsOk, InArray, Decide, Added, IsSibling;
    DecideMeans(es, q);
    AddedSettings(es, e, sections, lines);
    var parent := Parent(q);
    var t, y := LastTable(es, parent), LastSibling(es, parent);
    assert forall x :: x in fs && x.Setting? ==> x.path != q;
    if t.Some? {
      OneTable(fs, q, t.value);
    } else if y.Some? {
      DecideMeans(es, e.path);
      assert forall x :: x in fs && x.Table? ==> x.path != parent;
      OneSiblingPlace(fs, q, y.value);
    } else {
      NeitherStays(es, fs, added, e, q, sections, lines);
    }
  }

  lemma AddedSettings(es: seq<Entry>, e: Edit, sections: nat, lines: nat)
    requires e.path != []
    ensures forall x :: x in Added(es, e, sections, lines) ==>
              if x.Setting? then x.path == e.path
              else Decide(es, e.path).NewTable? && x == Table(sections, Parent(e.path), false)
    ensures Decide(es, e.path).NewTable? ==> Table(sections, Parent(e.path), false) in Added(es, e, sections, lines)
  {
    hide Decide;
  }

  lemma NeitherStays(
    es: seq<Entry>, fs: seq<Entry>, added: seq<Entry>, e: Edit, q: Path, sections: nat, lines: nat)
    requires AllPairsOk(fs) && Housed(es) && |e.path| >= 2 && |q| >= 2 && !InArray(fs, q)
    requires forall x :: x in fs <==> x in es || x in added
    requires added == Added(es, e, sections, lines)
    requires LastTable(es, Parent(q)).None? && LastSibling(es, Parent(q)).None?
    requires forall x :: x in fs && x.Setting? ==> x.path != q
    ensures Decide(fs, q) ==
              if Decide(es, e.path).NewTable? && Parent(q) == Parent(e.path)
                  then Into(sections, |Parent(q)|) else NewTable
  {
    hide AllPairsOk, InArray, Decide, Added, IsSibling, Housed;
    AddedSettings(es, e, sections, lines);
    var parent := Parent(q);
    forall x | x in added
      ensures !IsSibling(x, parent)
    {
      NotASibling(es, e, q, sections, lines, x);
    }
    if Decide(es, e.path).NewTable? && parent == Parent(e.path) {
      OneTable(fs, q, Table(sections, parent, false));
    } else {
      DecideMeans(fs, q);
    }
  }

  /**
   A key put in is no sibling for a table that had none: it is spelled from its own table, or as its own siblings are.
   */
  lemma NotASibling(es: seq<Entry>, e: Edit, q: Path, sections: nat, lines: nat, x: Entry)
    requires Housed(es) && |e.path| >= 2 && |q| >= 2
    requires LastSibling(es, Parent(q)).None?
    requires x in Added(es, e, sections, lines)
    ensures !IsSibling(x, Parent(q))
  {
    hide Decide;
    DecideMeans(es, e.path);
    var parent, own := Parent(q), Parent(e.path);
    if Decide(es, e.path).Into? && LastTable(es, own).None? {
      IntoBase(es, e.path);
      var y := LastSibling(es, own).value;
      if |parent| <= |own| && IsPrefix(parent, e.path) {
        PrefixesNest(parent, own, e.path);
        PrefixOfPrefix(parent, own, y.path);
        assert !IsSibling(y, parent);
      }
    }
  }

  // ---------- the plan ----------

  /** The keys that go under one new header, in order. */
  datatype Group = Group(table: Path, edits: seq<Edit>)

  /** What is replaced and put in, in the order asked for, and the tables that are started. */
  datatype Plan = Plan(puts: seq<(Where, Edit)>, groups: seq<Group>)

  function GroupOf(groups: seq<Group>, table: Path): (r: Option<nat>)
    ensures r.Some? ==> r.value < |groups| && groups[r.value].table == table
    ensures r.None? ==> forall g :: 0 <= g < |groups| ==> groups[g].table != table
  {
    if groups == [] then None
    else if groups[|groups| - 1].table == table then Some(|groups| - 1)
    else GroupOf(groups[..|groups| - 1], table)
  }

  function PlanNext(es: seq<Entry>, plan: Plan, e: Edit): Plan
    requires e.path != []
  {
    var w := Decide(es, e.path);
    if !w.NewTable? then plan.(puts := plan.puts + [(w, e)])
    else
      var g := GroupOf(plan.groups, Parent(e.path));
      if g.Some? then
        var group := plan.groups[g.value];
        plan.(groups := plan.groups[g.value := group.(edits := group.edits + [e])])
      else plan.(groups := plan.groups + [Group(Parent(e.path), [e])])
  }

  function PlanAll(es: seq<Entry>, edits: seq<Edit>): Plan
    requires forall e :: e in edits ==> e.path != []
  {
    if edits == [] then Plan([], []) else PlanNext(es, PlanAll(es, edits[..|edits| - 1]), edits[|edits| - 1])
  }

  /** Where a key goes once a plan has been carried out. */
  function DecideIn(es: seq<Entry>, groups: seq<Group>, sections: nat, path: Path): Where
    requires path != []
  {
    var w, g := Decide(es, path), GroupOf(groups, Parent(path));
    if w.NewTable? && g.Some? then Into(sections + g.value, |Parent(path)|) else w
  }

  // ---------- the document a plan makes ----------

  function Replacement(puts: seq<(Where, Edit)>, s: nat, k: nat): Option<Edit> {
    if puts == [] then None
    else if puts[|puts| - 1].0 == Replace(s, k) then Some(puts[|puts| - 1].1)
    else Replacement(puts[..|puts| - 1], s, k)
  }

  predicate BasesFit(puts: seq<(Where, Edit)>) {
    forall i :: 0 <= i < |puts| && puts[i].0.Into? ==> puts[i].0.base < |puts[i].1.path|
  }

  /** The lines put into a section, in order. */
  function PutInto(puts: seq<(Where, Edit)>, s: nat, st: Style): seq<Line>
    requires BasesFit(puts)
  {
    if puts == [] then []
    else
      var (w, e) := puts[|puts| - 1];
      PutInto(puts[..|puts| - 1], s, st) + (if w.Into? && w.section == s then [NewLine(e, w.base, st)] else [])
  }

  function FilledLine(s: nat, k: nat, l: Line, puts: seq<(Where, Edit)>): (r: Line)
    ensures r.Assign? == l.Assign?
  {
    var r := Replacement(puts, s, k);
    if l.Assign? && r.Some? then SetLine(l, r.value) else l
  }

  function FilledBody(s: nat, body: seq<Line>, puts: seq<(Where, Edit)>): (r: seq<Line>)
    ensures |r| == |body|
  {
    seq(|body|, k requires 0 <= k < |body| => FilledLine(s, k, body[k], puts))
  }

  function FilledSection(s: nat, sec: Section, puts: seq<(Where, Edit)>, st: Style): Section
    requires BasesFit(puts)
  {
    var filled, lines := sec.(body := FilledBody(s, sec.body, puts)), PutInto(puts, s, st);
    if lines == [] then filled
    else
      var ended := EndSection(filled, st.nl);
      ended.(body := ended.body + lines)
  }

  function FilledSections(ss: seq<Section>, puts: seq<(Where, Edit)>, st: Style): (r: seq<Section>)
    requires BasesFit(puts)
    ensures |r| == |ss|
  {
    seq(|ss|, s requires 0 <= s < |ss| => FilledSection(s, ss[s], puts, st))
  }

  predicate GroupFits(g: Group) {
    g.edits != [] && forall i :: 0 <= i < |g.edits| ==> g.edits[i].path != []
  }

  predicate GroupsFit(groups: seq<Group>) {
    forall g :: 0 <= g < |groups| ==> GroupFits(groups[g])
  }

  function GroupLines(edits: seq<Edit>, st: Style): seq<Line>
    requires forall i :: 0 <= i < |edits| ==> edits[i].path != []
  {
    seq(|edits|, i requires 0 <= i < |edits| => NewLine(edits[i], |edits[i].path| - 1, st))
  }

  function GroupSection(g: Group, lead: Text, st: Style): Section
    requires forall i :: 0 <= i < |g.edits| ==> g.edits[i].path != []
  {
    Section(lead, Some(NewHeader(g.table, st)), GroupLines(g.edits, st))
  }

  function GroupSections(groups: seq<Group>, lead: Text, st: Style): (r: seq<Section>)
    requires GroupsFit(groups)
    ensures |r| == |groups|
  {
    seq(|groups|, g requires 0 <= g < |groups| => GroupSection(groups[g], if g == 0 then lead else st.nl, st))
  }

  /** The document as a plan against it leaves it. */
  function PlannedDocument(d: Document, plan: Plan, st: Style): Document
    requires d.sections != [] && BasesFit(plan.puts) && GroupsFit(plan.groups)
  {
    var filled := d.(sections := FilledSections(d.sections, plan.puts, st));
    if plan.groups == [] then filled
    else
      var ended, gap := EndDocument(filled, st.nl), if AllWhite(Render(d)) then "" else st.nl;
      Document(ended.sections + GroupSections(plan.groups, ended.ending + gap, st), "")
  }
}
