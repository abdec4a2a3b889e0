/** Editing a path twice is editing it once, to the value asked for last (daemon/config/edit.go). */
module ConfigRepeats {
  import opened Bytes
  import opened Splice
  import opened Toml
  import opened ConfigPlace
  import opened ConfigEdit
  import opened ConfigForm
  import opened ConfigBatch
  import opened ConfigFold
  import opened ConfigSame
  import opened ConfigScan
  import opened ConfigSetAll
  import opened ConfigReads

  // ---------- the same path twice ----------

  lemma AddThenSet(sec: Section, x: Edit, e: Edit, base: nat, st: Style)
    requires x.path == e.path && base < |e.path|
    ensures var added := AddTo(sec, NewLine(x, base, st), st.nl);
            && |added.body| == |sec.body| + 1 && added.body[|sec.body|].Assign?
            && added.(body := added.body[|sec.body| := SetLine(added.body[|sec.body|], e)]) ==
                 AddTo(sec, NewLine(e, base, st), st.nl)
  {
    EndSectionKeys(sec, st.nl);
    var ended := EndSection(sec, st.nl);
    hide EndSection;
    assert (ended.body + [NewLine(x, base, st)])[|sec.body| := NewLine(e, base, st)] ==
           ended.body + [NewLine(e, base, st)];
  }

  lemma SetTwice(d: Document, s: nat, k: nat, x: Edit, e: Edit, st: Style)
    requires x.path == e.path != [] && PlaceIn(d, Replace(s, k), e.path)
    ensures var once := Apply(d, Replace(s, k), x, st);
            && PlaceIn(once, Replace(s, k), e.path)
            && Apply(once, Replace(s, k), e, st) == Apply(d, Replace(s, k), e, st)
  {
    var sec, r := d.sections[s], SetLine(d.sections[s].body[k], e);
    assert sec.body[k := SetLine(sec.body[k], x)][k := r] == sec.body[k := r];
    var a, b := sec.(body := sec.body[k := SetLine(sec.body[k], x)]), sec.(body := sec.body[k := r]);
    assert d.sections[s := a][s := b] == d.sections[s := b];
  }

  lemma PutThenSet(d: Document, w: Where, x: Edit, e: Edit, st: Style)
    requires x.path == e.path != [] && PlaceIn(d, w, e.path) && !w.Replace?
    ensures var once := Apply(d, w, x, st);
            var s := if w.Into? then w.section else |d.sections|;
            var k := if w.Into? then |d.sections[w.section].body| else 0;
            && PlaceIn(once, Replace(s, k), e.path)
            && Apply(once, Replace(s, k), e, st) == Apply(d, w, e, st)
  {
    hide Render, AllWhite, EndSection, AddTo;
    if w.Into? {
      AddThenSet(d.sections[w.section], x, e, w.base, st);
      var s := w.section;
      var a := AddTo(d.sections[s], NewLine(x, w.base, st), st.nl);
      var b := AddTo(d.sections[s], NewLine(e, w.base, st), st.nl);
      assert d.sections[s := a][s := b] == d.sections[s := b];
    } else {
      EndedLength(d, st.nl);
      var ended := EndDocument(d, st.nl);
      hide EndDocument;
      var lead := ended.ending + (if AllWhite(Render(d)) then "" else st.nl);
      var head := Some(NewHeader(Parent(e.path), st));
      var lx, le := NewLine(x, |e.path| - 1, st), NewLine(e, |e.path| - 1, st);
      assert [lx][0 := le] == [le];
      var a, b := Section(lead, head, [lx]), Section(lead, head, [le]);
      assert (ended.sections + [a])[|d.sections| := b] == ended.sections + [b];
    }
  }

  /** Setting a path again is setting it to the later value to begin with. */
  lemma SetAgain(d: Document, x: Edit, e: Edit, st: Style)
    requires WellFormed(d) && GoodEdit(x) && GoodEdit(e) && GoodStyle(st) && x.path == e.path
    ensures WellFormed(One(d, x, st)) && One(One(d, x, st), e, st) == One(d, e, st)
  {
    hide Apply, EntriesOf, Decide, WellFormed;
    OneIs(d, x, st);
    OneIs(d, e, st);
    OneKeepsForm(d, x, st);
    var once, w := One(d, x, st), Decide(Entries(d), e.path);
    OneIs(once, e, st);
    hide One;
    FirstSetAfter(d, x, st, e.path);
    DecideMeans(Entries(d), e.path);
    SetMeansHere(Entries(once), e.path);
    if w.Replace? {
      ReplaceIs(Entries(d), e.path);
      SetTwice(d, w.section, w.line, x, e, st);
    } else {
      PutThenSet(d, w, x, e, st);
    }
  }

  lemma SetMeansHere(es: seq<Entry>, path: Path)
    requires path != [] && FirstSet(es, path).Some?
    ensures Decide(es, path) == Replace(FirstSet(es, path).value.section, FirstSet(es, path).value.line)
  {
  }

  // ---------- an edit of a key that is set, earlier or later ----------

  lemma SetsCommute(d: Document, s: nat, k: nat, e: Edit, s': nat, k': nat, x: Edit, st: Style)
    requires e.path != [] && x.path != [] && PlaceIn(d, Replace(s, k), e.path) && PlaceIn(d, Replace(s', k'), x.path)
    requires s != s' || k != k'
    ensures var a, b := Apply(d, Replace(s', k'), x, st), Apply(d, Replace(s, k), e, st);
            && PlaceIn(a, Replace(s, k), e.path) && PlaceIn(b, Replace(s', k'), x.path)
            && Apply(a, Replace(s, k), e, st) == Apply(b, Replace(s', k'), x, st)
  {
    hide SetLine;
    var a := Apply(Apply(d, Replace(s', k'), x, st), Replace(s, k), e, st);
    var b := Apply(Apply(d, Replace(s, k), e, st), Replace(s', k'), x, st);
    if s == s' {
      var body := d.sections[s].body;
      assert body[k' := SetLine(body[k'], x)][k := SetLine(body[k], e)] ==
             body[k := SetLine(body[k], e)][k' := SetLine(body[k'], x)];
    }
    assert a.sections == b.sections;
  }

  lemma AddAndSet(sec: Section, k: nat, e: Edit, l: Line, nl: Text)
    requires k < |sec.body| && sec.body[k].Assign?
    ensures var set' := sec.(body := sec.body[k := SetLine(sec.body[k], e)]);
            var added := AddTo(sec, l, nl);
            && k < |added.body| && added.body[k].Assign?
            && added.(body := added.body[k := SetLine(added.body[k], e)]) == AddTo(set', l, nl)
  {
    var set' := sec.(body := sec.body[k := SetLine(sec.body[k], e)]);
    var added := AddTo(sec, l, nl);
    assert added.body[k := SetLine(added.body[k], e)] == AddTo(set', l, nl).body;
  }

  lemma SetAndInsertCommute(d: Document, s: nat, k: nat, e: Edit, s': nat, base: nat, x: Edit, st: Style)
    requires e.path != [] && x.path != [] && PlaceIn(d, Replace(s, k), e.path) && PlaceIn(d, Into(s', base), x.path)
    ensures var a, b := Apply(d, Into(s', base), x, st), Apply(d, Replace(s, k), e, st);
            && PlaceIn(a, Replace(s, k), e.path) && PlaceIn(b, Into(s', base), x.path)
            && Apply(a, Replace(s, k), e, st) == Apply(b, Into(s', base), x, st)
  {
    hide SetLine, NewLine, AddTo;
    AddAndSet(d.sections[s], k, e, NewLine(x, base, st), st.nl);
    var a := Apply(Apply(d, Into(s', base), x, st), Replace(s, k), e, st);
    var b := Apply(Apply(d, Replace(s, k), e, st), Into(s', base), x, st);
    assert a.sections == b.sections;
  }

  lemma SetAndAppendCommute(d: Document, s: nat, k: nat, e: Edit, x: Edit, st: Style)
    requires e.path != [] && x.path != [] && PlaceIn(d, Replace(s, k), e.path) && GoodStyle(st)
    requires !AllWhite(Render(d)) && !AllWhite(Render(Apply(d, Replace(s, k), e, st)))
    ensures var a, b := Apply(d, NewTable, x, st), Apply(d, Replace(s, k), e, st);
            && PlaceIn(a, Replace(s, k), e.path) && b.sections != []
            && Apply(a, Replace(s, k), e, st) == Apply(b, NewTable, x, st)
  {
    hide SetLine, NewLine, EndDocument, Render, AllWhite;
    EndThenPut(d, Replace(s, k), e, st);
    EndedLength(d, st.nl);
    var a := Apply(Apply(d, NewTable, x, st), Replace(s, k), e, st);
    var b := Apply(Apply(d, Replace(s, k), e, st), NewTable, x, st);
    assert d.(sections := PutOne(d.sections, Replace(s, k), e, st)) == Apply(d, Replace(s, k), e, st);
    assert a.sections == b.sections;
  }

  lemma Commute(d: Document, x: Edit, e: Edit, st: Style)
    requires WellFormed(d) && GoodEdit(x) && GoodEdit(e) && GoodStyle(st) && x.path != e.path
    requires FirstSet(Entries(d), e.path).Some?
    ensures WellFormed(One(d, x, st)) && WellFormed(One(d, e, st))
    ensures One(One(d, x, st), e, st) == One(One(d, e, st), x, st)
  {
    hide Apply, EntriesOf, Decide, WellFormed, Render, AllWhite;
    OneKeepsForm(d, x, st);
    OneKeepsForm(d, e, st);
    OneIs(d, x, st);
    OneIs(d, e, st);
    OneIs(One(d, x, st), e, st);
    OneIs(One(d, e, st), x, st);
    FirstSetAfter(d, x, st, e.path);
    SetMeansHere(Entries(d), e.path);
    SetMeansHere(Entries(One(d, x, st)), e.path);
    var y := FirstSet(Entries(d), e.path).value;
    SetKeepsEntries(d, y, e, st);
    var w := Decide(Entries(d), x.path);
    match w
    case Replace(s', k') =>
      ReplaceIs(Entries(d), x.path);
      OtherKey(d, y, FirstSet(Entries(d), x.path).value);
      SetsCommute(d, y.section, y.line, e, s', k', x, st);
    case Into(s', base) =>
      SetAndInsertCommute(d, y.section, y.line, e, s', base, x, st);
    case NewTable =>
      SaysSomething(d, y);
      SaysSomething(One(d, e, st), y);
      SetAndAppendCommute(d, y.section, y.line, e, x, st);
  }

  lemma SetKeepsEntries(d: Document, y: Entry, e: Edit, st: Style)
    requires WellFormed(d) && e.path != [] && FirstSet(Entries(d), e.path) == Some(y)
    ensures Entries(One(d, e, st)) == Entries(d)
  {
    OneIs(d, e, st);
    SetMeansHere(Entries(d), e.path);
    SetValueEntries(d, y.section, y.line, e);
  }

  // ---------- any number ----------

  /** A later edit of a path that was edited may as well have been made in its place. */
  lemma {:induction false} ReplaceLater(d: Document, edits: seq<Edit>, i: nat, e: Edit, st: Style)
    requires WellFormed(d) && GoodEdits(edits) && GoodStyle(st) && Distinct(edits)
    requires i < |edits| && edits[i].path == e.path && GoodEdit(e)
    ensures GoodEdits(edits[i := e])
    ensures One(Each(d, edits, st), e, st) == Each(d, edits[i := e], st)
    decreases |edits|
  {
    hide One, WellFormed, EntriesOf;
    var n := |edits| - 1;
    var ds, x := edits[..n], edits[n];
    var fs := edits[i := e];
    if i == n {
      assert fs[..n] == ds;
      SetAgain(Each(d, ds, st), x, e, st);
    } else {
      assert fs[..n] == ds[i := e];
      ReplaceLater(d, ds, i, e, st);
      EditedIsSet(d, ds, i, st);
      Commute(Each(d, ds, st), x, e, st);
    }
  }

  lemma {:induction false} EditedIsSet(d: Document, edits: seq<Edit>, i: nat, st: Style)
    requires WellFormed(d) && GoodEdits(edits) && GoodStyle(st) && i < |edits|
    ensures FirstSet(Entries(Each(d, edits, st)), edits[i].path).Some?
    decreases |edits|
  {
    hide One, WellFormed, EntriesOf, Decide;
    var n := |edits| - 1;
    var was := Each(d, edits[..n], st);
    FirstSetAfter(was, edits[n], st, edits[i].path);
    DecideMeans(Entries(was), edits[n].path);
    IntoIsIn(was, edits[n].path);
    if edits[i].path != edits[n].path {
      EditedIsSet(d, edits[..n], i, st);
    }
  }

  lemma IntoIsIn(d: Document, path: Path)
    requires WellFormed(d) && path != []
    ensures Decide(Entries(d), path).Into? ==> Decide(Entries(d), path).section < |d.sections|
  {
    DecidedIsIn(d, path);
  }

  /** Edits one by one, repeats and all, come to one edit a path. */
  lemma {:induction false} EachUnique(d: Document, edits: seq<Edit>, st: Style)
    requires WellFormed(d) && GoodEdits(edits) && GoodStyle(st)
    ensures GoodEdits(Unique(edits)) && Each(d, edits, st) == Each(d, Unique(edits), st)
    decreases |edits|
  {
    hide One, WellFormed;
    UniqueStaysGood(edits);
    if edits != [] {
      var ds, e := edits[..|edits| - 1], edits[|edits| - 1];
      EachUnique(d, ds, st);
      UniqueIsGood(ds);
      var most := Unique(ds);
      var i := EditOf(most, e.path);
      if i.Some? {
        ReplaceLater(d, most, i.value, e, st);
      } else {
        assert (most + [e])[..|most|] == most;
      }
    }
  }
}
