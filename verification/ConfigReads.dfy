/** What an edit changes and what it leaves (daemon/config/edit.go): its own key, and nothing else. */
module ConfigReads {
  import opened Bytes
  import opened Splice
  import opened Toml
  import opened ConfigPlace
  import opened ConfigEdit
  import opened ConfigForm
  import opened ConfigBatch
  import opened ConfigFold
  import opened ConfigSame
  import opened ConfigScan
  import opened ConfigSetAll

  /** Two lines that set the same key to the same value. */
  predicate SameSetting(a: Line, b: Line) {
    a.Assign? && b.Assign? && a.rel == b.rel && a.value == b.value && a.compound == b.compound
  }

  lemma EndSectionLines(sec: Section, nl: Text, k: nat)
    requires k < |sec.body| && sec.body[k].Assign?
    ensures k < |EndSection(sec, nl).body| && SameSetting(EndSection(sec, nl).body[k], sec.body[k])
  {
  }

  /** Whatever is put anywhere, every other line sets what it set. */
  lemma ApplyLeavesLines(d: Document, w: Where, e: Edit, st: Style, s: nat, k: nat)
    requires e.path != [] && PlaceIn(d, w, e.path) && IsKey(d.sections, s, k) && w != Replace(s, k)
    ensures var r := Apply(d, w, e, st);
            && IsKey(r.sections, s, k)
            && SameSetting(r.sections[s].body[k], d.sections[s].body[k])
            && BaseOf(r.sections[s]) == BaseOf(d.sections[s])
  {
    hide EndSection, NewLine, SetLine, Render, AllWhite;
    var sec := d.sections[s];
    EndSectionLines(sec, st.nl, k);
    EndSectionKeys(sec, st.nl);
    match w
    case Replace(s', k') =>
    case Into(s', base) =>
    case NewTable =>
      assert Apply(d, w, e, st).sections[s] == EndDocument(d, st.nl).sections[s];
  }

  lemma ApplyReplaces(d: Document, s: nat, k: nat, e: Edit, st: Style)
    requires e.path != [] && PlaceIn(d, Replace(s, k), e.path)
    ensures var r := Apply(d, Replace(s, k), e, st);
            && IsKey(r.sections, s, k)
            && r.sections[s].body[k].value == e.literal && r.sections[s].body[k].compound == e.compound
  {
  }

  /** A new line is behind those its section had, and sets the literal. */
  lemma ApplyPuts(d: Document, w: Where, e: Edit, st: Style)
    requires e.path != [] && PlaceIn(d, w, e.path) && !w.Replace?
    ensures var r := Apply(d, w, e, st);
            var s := if w.Into? then w.section else |d.sections|;
            var k := if w.Into? then |d.sections[w.section].body| else 0;
            && IsKey(r.sections, s, k)
            && r.sections[s].body[k].value == e.literal && r.sections[s].body[k].compound == e.compound
  {
    hide Render, AllWhite;
    if w.Into? {
      EndSectionKeys(d.sections[w.section], st.nl);
    } else {
      EndedLength(d, st.nl);
    }
  }

  // ---------- reading back ----------

  lemma {:induction false} FirstSetConcat(a: seq<Entry>, b: seq<Entry>, path: Path)
    ensures FirstSet(a + b, path) == if FirstSet(a, path).Some? then FirstSet(a, path) else FirstSet(b, path)
    decreases |a|
  {
    if a == [] {
      assert a + b == b;
    } else {
      assert (a + b)[1..] == a[1..] + b;
      FirstSetConcat(a[1..], b, path);
    }
  }

  /** An edit sets its own path where nothing did, and no other. */
  lemma FirstSetAfter(d: Document, e: Edit, st: Style, path: Path)
    requires WellFormed(d) && e.path != []
    ensures var es, fs, w := Entries(d), Entries(One(d, e, st)), Decide(Entries(d), e.path);
            && (path != e.path || w.Replace? ==> FirstSet(fs, path) == FirstSet(es, path))
            && (path == e.path && w.Into? && w.section < |d.sections| ==>
                  FirstSet(fs, path).Some? && FirstSet(fs, path).value.section == w.section
                  && FirstSet(fs, path).value.line == |d.sections[w.section].body|)
            && (path == e.path && w.NewTable? ==>
                  FirstSet(fs, path).Some? && FirstSet(fs, path).value.section == |d.sections|
                  && FirstSet(fs, path).value.line == 0)
  {
    hide One, EntriesOf, Decide, WellFormed;
    var xs, ys, added := OneEntries(d, e, st);
    FirstSetConcat(xs + added, ys, path);
    FirstSetConcat(xs, added, path);
    FirstSetConcat(xs, ys, path);
    DecideMeans(Entries(d), e.path);
    var w := Decide(Entries(d), e.path);
    if w.Replace? {
      assert xs + added == xs;
    } else if w.Into? {
      FirstOfOne(added[0], path);
      assert added == [added[0]];
    } else {
      assert added == [added[0], added[1]];
      FirstOfTwo(added[0], added[1], path);
    }
  }

  lemma FirstOfOne(a: Entry, path: Path)
    requires a.Setting?
    ensures FirstSet([a], path) == if a.path == path then Some(a) else None
  {
    assert [a][1..] == [];
  }

  lemma FirstOfTwo(t: Entry, a: Entry, path: Path)
    requires t.Table? && a.Setting?
    ensures FirstSet([t, a], path) == if a.path == path then Some(a) else None
  {
    assert [t, a][1..] == [a];
    FirstOfOne(a, path);
  }

  lemma GetIs(d: Document, x: Entry, path: Path)
    requires FirstSet(Entries(d), path) == Some(x)
    ensures IsKey(d.sections, x.section, x.line) && Get(d, path) == Some(d.sections[x.section].body[x.line].value)
  {
    EntriesSay(d.sections, x);
  }

  /** The edited path reads back as its literal, and every other path as it did, set or not. */
  lemma OneReads(d: Document, e: Edit, st: Style, path: Path)
    requires WellFormed(d) && e.path != []
    ensures Get(One(d, e, st), path) == if path == e.path then Some(e.literal) else Get(d, path)
  {
    hide Apply, EntriesOf, Decide, WellFormed;
    var r, w := One(d, e, st), Decide(Entries(d), e.path);
    OneIs(d, e, st);
    hide One;
    FirstSetAfter(d, e, st, path);
    DecideMeans(Entries(d), e.path);
    if path == e.path {
      var x := FirstSet(Entries(r), path).value;
      GetIs(r, x, path);
      if w.Replace? {
        ReplaceIs(Entries(d), path);
        ApplyReplaces(d, w.section, w.line, e, st);
      } else {
        ApplyPuts(d, w, e, st);
      }
    } else if FirstSet(Entries(d), path).Some? {
      var x := FirstSet(Entries(d), path).value;
      GetIs(d, x, path);
      GetIs(r, x, path);
      if w.Replace? {
        ReplaceIs(Entries(d), e.path);
        OtherKey(d, x, FirstSet(Entries(d), e.path).value);
      }
      ApplyLeavesLines(d, w, e, st, x.section, x.line);
    }
  }

  lemma ReplaceIs(es: seq<Entry>, path: Path)
    requires path != [] && Decide(es, path).Replace?
    ensures FirstSet(es, path).Some?
    ensures Decide(es, path) == Replace(FirstSet(es, path).value.section, FirstSet(es, path).value.line)
  {
  }

  /** A line sets one path. */
  lemma OtherKey(d: Document, x: Entry, y: Entry)
    requires x in Entries(d) && y in Entries(d) && x.Setting? && y.Setting?
    ensures x.section == y.section && x.line == y.line ==> x == y
  {
    EntriesSay(d.sections, x);
    EntriesSay(d.sections, y);
  }

  // ---------- all of them ----------

  /** The value the last edit of a path gives it. */
  function LastEdit(edits: seq<Edit>, path: Path): Option<Text> {
    if edits == [] then None
    else if edits[|edits| - 1].path == path then Some(edits[|edits| - 1].literal)
    else LastEdit(edits[..|edits| - 1], path)
  }

  /** Any number of edits, one after another, leave each path with its last literal and all others as they were. */
  lemma {:induction false} EachReads(d: Document, edits: seq<Edit>, st: Style, path: Path)
    requires WellFormed(d) && GoodEdits(edits) && GoodStyle(st)
    ensures Get(Each(d, edits, st), path) ==
            if LastEdit(edits, path).Some? then LastEdit(edits, path) else Get(d, path)
    decreases |edits|
  {
    hide One, Get, WellFormed;
    if edits != [] {
      var ds, e := edits[..|edits| - 1], edits[|edits| - 1];
      EachReads(d, ds, st, path);
      OneReads(Each(d, ds, st), e, st, path);
    }
  }
}
