/**
 Carrying out a plan one edit further (daemon/config/edit.go), and from there that a batch is the edits one by one.
 */
module ConfigFold {
  import opened Bytes
  import opened Splice
  import opened Toml
  import opened ConfigPlace
  import opened ConfigEdit
  import opened ConfigForm
  import opened ConfigBatch

  // ---------- sections, one put further ----------

  predicate Fits(ss: seq<Section>, w: Where, path: Path) {
    match w
    case Replace(s, k) => s < |ss| && k < |ss[s].body| && ss[s].body[k].Assign?
    case Into(s, base) => s < |ss| && base < |path|
    case NewTable => false
  }

  function PutOne(ss: seq<Section>, w: Where, e: Edit, st: Style): seq<Section>
    requires Fits(ss, w, e.path)
  {
    match w
    case Replace(s, k) => ss[s := ss[s].(body := ss[s].body[k := SetLine(ss[s].body[k], e)])]
    case Into(s, base) => ss[s := AddTo(ss[s], NewLine(e, base, st), st.nl)]
  }

  lemma LastPut(puts: seq<(Where, Edit)>, p: (Where, Edit))
    ensures (puts + [p])[..|puts|] == puts
  {
  }

  lemma {:induction false} PutEndsItsLine(puts: seq<(Where, Edit)>, s: nat, st: Style)
    requires BasesFit(puts) && GoodStyle(st)
    ensures forall i :: 0 <= i < |PutInto(puts, s, st)| ==>
              PutInto(puts, s, st)[i].Assign? && EndsLine(PutInto(puts, s, st)[i].tail)
  {
    if puts != [] {
      PutEndsItsLine(puts[..|puts| - 1], s, st);
    }
  }

  /** A section whose last line has its newline is left as it is. */
  lemma EndedStays(s: Section, nl: Text)
    requires s.body != [] && s.body[|s.body| - 1].Assign? && EndsLine(s.body[|s.body| - 1].tail)
    ensures EndSection(s, nl) == s
  {
    assert s.body[|s.body| - 1 := s.body[|s.body| - 1]] == s.body;
  }

  lemma EndedTwice(s: Section, nl: Text)
    requires nl == "\n" || nl == "\r\n"
    ensures EndSection(EndSection(s, nl), nl) == EndSection(s, nl)
  {
    if s.body != [] {
      var t := EndSection(s, nl);
      assert t.body[|t.body| - 1 := EndLine(t.body[|t.body| - 1], nl)] == t.body;
    }
  }

  lemma FilledLineNext(s: nat, k: nat, l: Line, puts: seq<(Where, Edit)>, w: Where, e: Edit)
    ensures FilledLine(s, k, l, puts + [(w, e)]) ==
            if w == Replace(s, k) && l.Assign? then SetLine(FilledLine(s, k, l, puts), e) else FilledLine(s, k, l, puts)
  {
    LastPut(puts, (w, e));
  }

  lemma FilledBodyNext(s: nat, body: seq<Line>, puts: seq<(Where, Edit)>, w: Where, e: Edit)
    requires w.Replace? && w.section == s ==> w.line < |body| && body[w.line].Assign?
    ensures var was := FilledBody(s, body, puts);
            FilledBody(s, body, puts + [(w, e)]) ==
              if w.Replace? && w.section == s && was[w.line].Assign?
                  then was[w.line := SetLine(was[w.line], e)] else was
    ensures w.Replace? && w.section == s ==> FilledBody(s, body, puts)[w.line].Assign?
  {
    hide FilledLine;
    forall k | 0 <= k < |body|
      ensures FilledLine(s, k, body[k], puts + [(w, e)]) ==
              if w == Replace(s, k) && body[k].Assign? then SetLine(FilledLine(s, k, body[k], puts), e)
              else FilledLine(s, k, body[k], puts)
    {
      FilledLineNext(s, k, body[k], puts, w, e);
    }
  }

  lemma FilledReplaceNext(s: nat, sec: Section, puts: seq<(Where, Edit)>, k: nat, e: Edit, st: Style)
    requires BasesFit(puts) && BasesFit(puts + [(Replace(s, k), e)]) && k < |sec.body| && sec.body[k].Assign?
    ensures var was := FilledSection(s, sec, puts, st);
            && k < |was.body| && was.body[k].Assign?
            && FilledSection(s, sec, puts + [(Replace(s, k), e)], st) ==
                 was.(body := was.body[k := SetLine(was.body[k], e)])
  {
    hide FilledBody, NewLine;
    LastPut(puts, (Replace(s, k), e));
    FilledBodyNext(s, sec.body, puts, Replace(s, k), e);
    assert PutInto(puts + [(Replace(s, k), e)], s, st) == PutInto(puts, s, st);
    var b := FilledBody(s, sec.body, puts);
    var filled := sec.(body := b);
    var r := sec.(body := b[k := SetLine(b[k], e)]);
    assert EndSection(r, st.nl).body ==
           EndSection(filled, st.nl).body[k := SetLine(EndSection(filled, st.nl).body[k], e)];
  }

  lemma FilledIntoNext(s: nat, sec: Section, puts: seq<(Where, Edit)>, base: nat, e: Edit, st: Style)
    requires BasesFit(puts) && BasesFit(puts + [(Into(s, base), e)]) && base < |e.path| && GoodStyle(st)
    ensures FilledSection(s, sec, puts + [(Into(s, base), e)], st) ==
            AddTo(FilledSection(s, sec, puts, st), NewLine(e, base, st), st.nl)
  {
    hide FilledBody;
    LastPut(puts, (Into(s, base), e));
    FilledBodyNext(s, sec.body, puts, Into(s, base), e);
    PutEndsItsLine(puts, s, st);
    hide NewLine;
    var lines, l := PutInto(puts, s, st), NewLine(e, base, st);
    assert PutInto(puts + [(Into(s, base), e)], s, st) == lines + [l];
    var filled := sec.(body := FilledBody(s, sec.body, puts));
    var ended := EndSection(filled, st.nl);
    if lines != [] {
      EndedStays(ended.(body := ended.body + lines), st.nl);
      assert ended.body + (lines + [l]) == ended.body + lines + [l];
    }
  }

  lemma OtherSectionNext(s: nat, sec: Section, puts: seq<(Where, Edit)>, w: Where, e: Edit, st: Style)
    requires BasesFit(puts) && BasesFit(puts + [(w, e)]) && !w.NewTable? && w.section != s
    ensures FilledSection(s, sec, puts + [(w, e)], st) == FilledSection(s, sec, puts, st)
  {
    hide FilledBody, NewLine;
    LastPut(puts, (w, e));
    FilledBodyNext(s, sec.body, puts, w, e);
    assert PutInto(puts + [(w, e)], s, st) == PutInto(puts, s, st);
  }

  lemma FilledNext(ss: seq<Section>, puts: seq<(Where, Edit)>, w: Where, e: Edit, st: Style)
    requires BasesFit(puts) && BasesFit(puts + [(w, e)]) && Fits(ss, w, e.path) && GoodStyle(st)
    ensures Fits(FilledSections(ss, puts, st), w, e.path)
    ensures FilledSections(ss, puts + [(w, e)], st) == PutOne(FilledSections(ss, puts, st), w, e, st)
  {
    hide FilledSection, AddTo, NewLine, SetLine;
    match w {
      case Replace(s, k) => FilledReplaceNext(s, ss[s], puts, k, e, st);
      case Into(s, base) => FilledIntoNext(s, ss[s], puts, base, e, st);
    }
    forall s | 0 <= s < |ss| && s != w.section
      ensures FilledSection(s, ss[s], puts + [(w, e)], st) == FilledSection(s, ss[s], puts, st)
    {
      OtherSectionNext(s, ss[s], puts, w, e, st);
    }
  }

  /** Ending a document commutes with a put. */
  lemma EndThenPut(d: Document, w: Where, e: Edit, st: Style)
    requires d.sections != [] && Fits(d.sections, w, e.path) && GoodStyle(st)
    ensures Fits(EndDocument(d, st.nl).sections, w, e.path)
    ensures EndDocument(d.(sections := PutOne(d.sections, w, e, st)), st.nl) ==
            EndDocument(d, st.nl).(sections := PutOne(EndDocument(d, st.nl).sections, w, e, st))
  {
    var last := |d.sections| - 1;
    if d.ending == "" {
      var sec := d.sections[last];
      var ended := EndSection(sec, st.nl);
      match w
      case Replace(s, k) =>
        var r := sec.(body := if s == last then sec.body[k := SetLine(sec.body[k], e)] else sec.body);
        if s == last {
          assert EndSection(r, st.nl).body == ended.body[k := SetLine(ended.body[k], e)];
        }
        assert EndDocument(d.(sections := PutOne(d.sections, w, e, st)), st.nl).sections ==
               PutOne(EndDocument(d, st.nl).sections, w, e, st);
      case Into(s, base) =>
        hide EndSection;
        var l := NewLine(e, base, st);
        EndedTwice(sec, st.nl);
        EndedStays(AddTo(sec, l, st.nl), st.nl);
        assert AddTo(ended, l, st.nl) == AddTo(sec, l, st.nl);
        assert EndDocument(d.(sections := PutOne(d.sections, w, e, st)), st.nl).sections ==
               PutOne(EndDocument(d, st.nl).sections, w, e, st);
    }
  }

  // ---------- a plan, one edit further ----------

  /** A plan against a document: what it puts is in it, and there is something in it to put anything to. */
  predicate PlanFits(d: Document, plan: Plan) {
    && d.sections != []
    && BasesFit(plan.puts) && GroupsFit(plan.groups)
    && (forall i :: 0 <= i < |plan.puts| ==> Fits(d.sections, plan.puts[i].0, plan.puts[i].1.path))
  }

  lemma PutNext(d: Document, plan: Plan, w: Where, e: Edit, st: Style)
    requires PlanFits(d, plan) && Fits(d.sections, w, e.path) && GoodStyle(st) && e.path != []
    ensures var after := plan.(puts := plan.puts + [(w, e)]);
            && PlanFits(d, after)
            && PlaceIn(PlannedDocument(d, plan, st), w, e.path)
            && Apply(PlannedDocument(d, plan, st), w, e, st) == PlannedDocument(d, after, st)
  {
    hide EndDocument, NewLine, SetLine, AddTo, FilledSections, GroupSections, Render;
    var after := plan.(puts := plan.puts + [(w, e)]);
    FilledNext(d.sections, plan.puts, w, e, st);
    var was := d.(sections := FilledSections(d.sections, plan.puts, st));
    var now := d.(sections := FilledSections(d.sections, after.puts, st));
    if plan.groups != [] {
      EndThenPut(was, w, e, st);
      var ended, gap := EndDocument(was, st.nl), if AllWhite(Render(d)) then "" else st.nl;
      var groups := GroupSections(plan.groups, ended.ending + gap, st);
      assert PutOne(ended.sections + groups, w, e, st) == PutOne(ended.sections, w, e, st) + groups by {
        EndedLength(was, st.nl);
      }
    }
  }

  lemma EndedLength(d: Document, nl: Text)
    requires d.sections != []
    ensures |EndDocument(d, nl).sections| == |d.sections|
  {
  }

  lemma GroupLinesNext(edits: seq<Edit>, e: Edit, st: Style)
    requires e.path != [] && forall i :: 0 <= i < |edits| ==> edits[i].path != []
    ensures GroupLines(edits + [e], st) == GroupLines(edits, st) + [NewLine(e, |e.path| - 1, st)]
  {
    hide NewLine;
  }

  /** The next key of a table that the plan has started. */
  lemma GroupNext(d: Document, plan: Plan, g: nat, e: Edit, st: Style)
    requires PlanFits(d, plan) && GoodStyle(st) && e.path != [] && g < |plan.groups|
    ensures var group := plan.groups[g];
            var after := plan.(groups := plan.groups[g := group.(edits := group.edits + [e])]);
            && PlanFits(d, after)
            && PlaceIn(PlannedDocument(d, plan, st), Into(|d.sections| + g, |e.path| - 1), e.path)
            && Apply(PlannedDocument(d, plan, st), Into(|d.sections| + g, |e.path| - 1), e, st) ==
                 PlannedDocument(d, after, st)
  {
    hide EndDocument, FilledSections, Render, AddTo, NewLine, GroupSection, AllWhite;
    var group := plan.groups[g];
    var after := plan.(groups := plan.groups[g := group.(edits := group.edits + [e])]);
    var filled := d.(sections := FilledSections(d.sections, plan.puts, st));
    var ended, gap := EndDocument(filled, st.nl), if AllWhite(Render(d)) then "" else st.nl;
    EndedLength(filled, st.nl);
    var lead := if g == 0 then ended.ending + gap else st.nl;
    GroupSectionNext(group, e, lead, st);
    var was := GroupSections(plan.groups, ended.ending + gap, st);
    var now := GroupSections(after.groups, ended.ending + gap, st);
    assert now == was[g := GroupSection(after.groups[g], lead, st)];
    var n := |d.sections| + g;
    assert (ended.sections + was)[n := GroupSection(after.groups[g], lead, st)] == ended.sections + now;
  }

  lemma GroupSectionNext(group: Group, e: Edit, lead: Text, st: Style)
    requires GoodStyle(st) && e.path != [] && group.edits != []
    requires forall i :: 0 <= i < |group.edits| ==> group.edits[i].path != []
    ensures AddTo(GroupSection(group, lead, st), NewLine(e, |e.path| - 1, st), st.nl) ==
            GroupSection(group.(edits := group.edits + [e]), lead, st)
  {
    GroupLinesNext(group.edits, e, st);
    EndedStays(GroupSection(group, lead, st), st.nl);
  }

  lemma GroupsEnd(groups: seq<Group>, lead: Text, st: Style)
    requires GroupsFit(groups) && GoodStyle(st) && groups != []
    ensures var ss := GroupSections(groups, lead, st);
            EndSection(ss[|ss| - 1], st.nl) == ss[|ss| - 1]
  {
    var ss := GroupSections(groups, lead, st);
    EndedStays(ss[|ss| - 1], st.nl);
  }

  /** A table the plan has not started. white says the same of the document before and after what is put. */
  lemma NewGroupNext(d: Document, plan: Plan, e: Edit, st: Style)
    requires PlanFits(d, plan) && GoodStyle(st) && e.path != []
    requires AllWhite(Render(PlannedDocument(d, plan, st))) <==> plan.groups == [] && AllWhite(Render(d))
    ensures var after := plan.(groups := plan.groups + [Group(Parent(e.path), [e])]);
            && PlanFits(d, after)
            && Apply(PlannedDocument(d, plan, st), NewTable, e, st) == PlannedDocument(d, after, st)
  {
    hide FilledSections, Render, NewLine, EndSection, GroupSection;
    var group := Group(Parent(e.path), [e]);
    var after := plan.(groups := plan.groups + [group]);
    var l := NewLine(e, |e.path| - 1, st);
    assert GroupLines([e], st) == [l];
    var filled := d.(sections := FilledSections(d.sections, plan.puts, st));
    var ended, gap := EndDocument(filled, st.nl), if AllWhite(Render(d)) then "" else st.nl;
    if plan.groups == [] {
      assert GroupSections([group], ended.ending + gap, st) == [GroupSection(group, ended.ending + gap, st)];
      GroupIs(group, l, ended.ending + gap, st);
    } else {
      var was := GroupSections(plan.groups, ended.ending + gap, st);
      GroupsEnd(plan.groups, ended.ending + gap, st);
      GroupIs(group, l, st.nl, st);
      var all := ended.sections + was;
      assert all[|all| - 1 := all[|all| - 1]] == all;
      assert GroupSections(after.groups, ended.ending + gap, st) == was + [GroupSection(group, st.nl, st)];
      assert ended.sections + (was + [GroupSection(group, st.nl, st)]) == all + [GroupSection(group, st.nl, st)];
    }
  }

  lemma GroupIs(group: Group, l: Line, lead: Text, st: Style)
    requires forall i :: 0 <= i < |group.edits| ==> group.edits[i].path != []
    requires GroupLines(group.edits, st) == [l]
    ensures GroupSection(group, lead, st) == Section(lead, Some(NewHeader(group.table, st)), [l])
    ensures "" + lead == lead
  {
  }
}
