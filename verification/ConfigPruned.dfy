/** What taking keys out leaves (daemon/config/edit.go): a valid file, the other keys as they were. */
module ConfigPruned {
  import opened Bytes
  import opened Splice
  import opened Toml
  import opened ConfigPlace
  import opened ConfigEdit
  import opened ConfigForm
  import opened ConfigBatch
  import opened ConfigFold
  import opened ConfigSame
  import opened ConfigText
  import opened ConfigRender
  import opened ConfigScan
  import opened ConfigSetAll
  import opened ConfigReads
  import opened ConfigUnset

  // ---------- line by line ----------

  /** Where a kept line was. */
  function KeptFrom(base: Path, body: seq<Line>, paths: seq<Path>, k: nat): (j: nat)
    requires k < |Keep(base, body, paths)|
    ensures j < |body| && body[j] == Keep(base, body, paths)[k] && !Gone(body[j], base, paths)
  {
    var n := |body| - 1;
    if k < |Keep(base, body[..n], paths)| then KeptFrom(base, body[..n], paths, k) else n
  }

  lemma {:induction false} KeptInOrder(base: Path, body: seq<Line>, paths: seq<Path>, k: nat, k': nat)
    requires k < k' < |Keep(base, body, paths)|
    ensures KeptFrom(base, body, paths, k) < KeptFrom(base, body, paths, k')
  {
    hide Gone;
    var n := |body| - 1;
    if k' < |Keep(base, body[..n], paths)| {
      KeptInOrder(base, body[..n], paths, k, k');
    }
  }

  /** The entry of the document that an entry of what is left comes from. */
  lemma CameFrom(d: Document, paths: seq<Path>, x: Entry) returns (y: Entry)
    requires x in Entries(Pruned(d, paths))
    ensures y in Entries(d) && y.section == x.section && y.path == x.path && ClaimOf(y) == ClaimOf(x)
    ensures x.Setting? ==> y.Setting? && y.base == x.base && x.path !in paths
    ensures x.Setting? ==> x.section < |d.sections|
    ensures x.Setting? ==>
              var sec := d.sections[x.section];
              x.line < |Keep(BaseOf(sec), sec.body, paths)| && y.line == KeptFrom(BaseOf(sec), sec.body, paths, x.line)
  {
    hide Keep, Loose;
    var r := Pruned(d, paths);
    EntriesSay(r.sections, x);
    if x.Table? {
      y := x;
      EntriesSay(d.sections, y);
    } else {
      var sec := d.sections[x.section];
      y := Setting(x.section, KeptFrom(BaseOf(sec), sec.body, paths, x.line), x.base, x.path);
      EntriesSay(d.sections, y);
    }
  }

  lemma SameArrays(d: Document, paths: seq<Path>, p: Path)
    ensures InArray(Entries(Pruned(d, paths)), p) == InArray(Entries(d), p)
  {
    hide EntriesOf, Pruned;
    if InArray(Entries(d), p) {
      var t :| t in Entries(d) && t.Table? && t.isArray && IsPrefix(t.path, p);
      TablesStay(d, paths, t);
    }
    if InArray(Entries(Pruned(d, paths)), p) {
      var t :| t in Entries(Pruned(d, paths)) && t.Table? && t.isArray && IsPrefix(t.path, p);
      TablesStay(d, paths, t);
    }
  }

  lemma PrunedPairs(d: Document, paths: seq<Path>, x: Entry, x': Entry)
    requires AllPairsOk(Entries(d))
    requires x in Entries(Pruned(d, paths)) && x' in Entries(Pruned(d, paths)) && x != x'
    ensures PairOk(Entries(Pruned(d, paths)), x, x')
  {
    hide EntriesOf, Pruned, InArray, Keep, KeptFrom;
    var y := CameFrom(d, paths, x);
    var y' := CameFrom(d, paths, x');
    SameArrays(d, paths, x.path);
    SameArrays(d, paths, x'.path);
    if x.Setting? && x'.Setting? && x.section == x'.section {
      var sec := d.sections[x.section];
      if x.line < x'.line {
        KeptInOrder(BaseOf(sec), sec.body, paths, x.line, x'.line);
      } else if x'.line < x.line {
        KeptInOrder(BaseOf(sec), sec.body, paths, x'.line, x.line);
      }
      assert x.line == x'.line ==> x == x' by {
        assert x.base == y.base && x'.base == y'.base;
        OtherKey(d, y, y');
      }
    }
    PairIs(Entries(d), y, y');
    SameClaims(x, y, x', y');
  }

  /** Whether two entries stand together is only a matter of their claims. */
  lemma SameClaims(x: Entry, y: Entry, x': Entry, y': Entry)
    requires ClaimOf(x) == ClaimOf(y) && ClaimOf(x') == ClaimOf(y')
    ensures Compatible(x, x') == Compatible(y, y')
  {
  }

  // ---------- arrays of tables, untouched ----------

  lemma {:induction false} OthersSayNothing(s: nat, base: Path, body: seq<Line>, n: nat)
    requires n <= |body| && forall k :: n <= k < |body| ==> !body[k].Assign?
    ensures BodyEntries(s, base, body[..n]) == BodyEntries(s, base, body)
    decreases |body|
  {
    if n == |body| {
      assert body[..n] == body;
    } else {
      assert body[..|body| - 1][..n] == body[..n];
      OthersSayNothing(s, base, body[..|body| - 1], n);
    }
  }

  lemma {:induction false} KeepArrayPart(
    all: seq<Entry>, s: nat, base: Path, body: seq<Line>, paths: seq<Path>)
    requires forall p :: p in paths ==> !InArray(all, p)
    ensures ArrayPart(all, BodyEntries(s, base, Keep(base, body, paths))) == ArrayPart(all, BodyEntries(s, base, body))
  {
    hide InArray;
    if body != [] {
      var n := |body| - 1;
      var l := body[n];
      KeepArrayPart(all, s, base, body[..n], paths);
      var was, now := BodyEntries(s, base, body[..n]), BodyEntries(s, base, Keep(base, body[..n], paths));
      ArrayPartConcat(all, was, LineEntries(s, n, base, l));
      if Gone(l, base, paths) {
        OneArrayPart(all, Setting(s, n, base, base + l.rel));
        assert Keep(base, body, paths) == Keep(base, body[..n], paths);
      } else {
        var kept := Keep(base, body, paths);
        var m := |kept| - 1;
        assert kept[..m] == Keep(base, body[..n], paths);
        ArrayPartConcat(all, now, LineEntries(s, m, base, l));
        if l.Assign? {
          OneArrayPart(all, Setting(s, n, base, base + l.rel));
          OneArrayPart(all, Setting(s, m, base, base + l.rel));
        }
      }
    }
  }

  lemma OneArrayPart(all: seq<Entry>, e: Entry)
    ensures ArrayPart(all, [e]) == if InArray(all, e.path) then [ClaimOf(e)] else []
  {
    hide InArray;
    assert [e][..0] == [];
  }

  lemma {:induction false} SectionsArrayPart(all: seq<Entry>, ss: seq<Section>, n: nat, paths: seq<Path>)
    requires n <= |ss| && forall p :: p in paths ==> !InArray(all, p)
    ensures ArrayPart(all, EntriesOf(PrunedSections(ss, paths)[..n])) == ArrayPart(all, EntriesOf(ss[..n]))
    decreases n
  {
    hide InArray, Keep, BodyEntries, Loose, HeadEntries;
    if n > 0 {
      var rs := PrunedSections(ss, paths);
      SectionsArrayPart(all, ss, n - 1, paths);
      assert ss[..n][..n - 1] == ss[..n - 1] && rs[..n][..n - 1] == rs[..n - 1];
      var sec, r := ss[n - 1], rs[n - 1];
      var base := BaseOf(sec);
      var kept := Keep(base, sec.body, paths);
      OthersSayNothing(n - 1, base, kept, ToLastKey(kept));
      KeepArrayPart(all, n - 1, base, sec.body, paths);
      var h := HeadEntries(n - 1, sec.head);
      ArrayPartConcat(all, h, BodyEntries(n - 1, base, sec.body));
      ArrayPartConcat(all, h, BodyEntries(n - 1, base, r.body));
      ArrayPartConcat(all, EntriesOf(ss[..n - 1]), SectionEntries(n - 1, sec));
      ArrayPartConcat(all, EntriesOf(rs[..n - 1]), SectionEntries(n - 1, r));
    } else {
      assert ss[..0] == [] && PrunedSections(ss, paths)[..0] == [];
    }
  }

  /** Taking keys out, none of them under an array of tables, never leaves a file that is not valid. */
  lemma PrunedIsValid(d: Document, paths: seq<Path>, arrays: seq<Claim> -> bool)
    requires Valid(Entries(d), arrays) && forall p :: p in paths ==> !InArray(Entries(d), p)
    ensures Valid(Entries(Pruned(d, paths)), arrays)
  {
    hide InArray, EntriesOf, PairOk, PrunedSections;
    var es, fs := Entries(d), Entries(Pruned(d, paths));
    forall x, x' | x in fs && x' in fs && x != x'
      ensures PairOk(fs, x, x')
    {
      PrunedPairs(d, paths, x, x');
    }
    var n := |d.sections|;
    SectionsArrayPart(es, d.sections, n, paths);
    assert d.sections[..n] == d.sections;
    assert PrunedSections(d.sections, paths)[..n] == PrunedSections(d.sections, paths);
    forall p
      ensures InArray(es, p) == InArray(fs, p)
    {
      SameArrays(d, paths, p);
    }
    SameArrayPart(es, fs, fs);
  }

  /** And reads as before, without them. */
  lemma PrunedReads(d: Document, paths: seq<Path>, arrays: seq<Claim> -> bool, path: Path)
    requires Valid(Entries(d), arrays) && !InArray(Entries(d), path)
    ensures Get(Pruned(d, paths), path) == if path in paths then None else Get(d, path)
  {
    hide InArray, EntriesOf, Pruned, Valid, Holds;
    var r := Pruned(d, paths);
    if FirstSet(Entries(r), path).Some? {
      SetIsHeld(r, path);
      var x := FirstSet(Entries(r), path).value;
      var l := LineOf(r, x);
      PrunedHolds(d, paths, x.section, path, l);
      HeldIsSet(d, x.section, path, l);
      SetIsHeld(d, path);
      var y := FirstSet(Entries(d), path).value;
      OneLineEach(d, path, arrays, x.section, l, y.section, LineOf(d, y));
    } else if path !in paths && FirstSet(Entries(d), path).Some? {
      SetIsHeld(d, path);
      var y := FirstSet(Entries(d), path).value;
      PrunedHolds(d, paths, y.section, path, LineOf(d, y));
      HeldIsSet(r, y.section, path, LineOf(d, y));
    }
  }

  // ---------- setting a key and taking it out again ----------

  lemma {:induction false} KeepsAll(base: Path, body: seq<Line>, paths: seq<Path>)
    requires forall k :: 0 <= k < |body| ==> !Gone(body[k], base, paths)
    ensures Keep(base, body, paths) == body
  {
    hide Gone;
    if body != [] {
      KeepsAll(base, body[..|body| - 1], paths);
      assert body == body[..|body| - 1] + [body[|body| - 1]];
    }
  }

  lemma KeepsTight(base: Path, body: seq<Line>, paths: seq<Path>)
    requires forall k :: 0 <= k < |body| ==> !Gone(body[k], base, paths)
    requires body != [] ==> body[|body| - 1].Assign?
    ensures Tight(base, body, paths) == body && Loose(base, body, paths) == ""
  {
    hide Gone;
    KeepsAll(base, body, paths);
    assert body[..|body|] == body && body[|body|..] == [];
    EmptyBody();
  }

  /** A path that is not set is on no line. */
  lemma NoneGone(d: Document, path: Path, s: nat, k: nat)
    requires FirstSet(Entries(d), path).None? && s < |d.sections| && k < |d.sections[s].body|
    ensures !Gone(d.sections[s].body[k], BaseOf(d.sections[s]), [path])
  {
    if Gone(d.sections[s].body[k], BaseOf(d.sections[s]), [path]) {
      HeldIsSet(d, s, path, d.sections[s].body[k]);
    }
  }

  lemma NothingAdded()
    ensures forall t: Text :: "" + t == t
  {
  }

  lemma BodyEndsWithKey(d: Document, s: nat)
    requires WellFormed(d) && s < |d.sections|
    ensures d.sections[s].body != [] ==> d.sections[s].body[|d.sections[s].body| - 1].Assign?
  {
    assert GoodSection(d.sections[s]);
  }

  lemma NewLineGone(base: Path, body: seq<Line>, l: Line, path: Path)
    requires (forall k :: 0 <= k < |body| ==> !Gone(body[k], base, [path])) && Gone(l, base, [path])
    requires body != [] ==> body[|body| - 1].Assign?
    ensures Tight(base, body + [l], [path]) == body && Loose(base, body + [l], [path]) == ""
  {
    hide Gone;
    KeepNext(base, body, l, [path]);
    KeepsAll(base, body, [path]);
    assert body + [] == body;
    assert body[..|body|] == body && body[|body|..] == [];
    EmptyBody();
  }

  lemma EndedGone(sec: Section, base: Path, path: Path, nl: Text)
    requires forall k :: 0 <= k < |sec.body| ==> !Gone(sec.body[k], base, [path])
    requires sec.body != [] ==> sec.body[|sec.body| - 1].Assign?
    ensures var e := EndSection(sec, nl);
            && (forall k :: 0 <= k < |e.body| ==> !Gone(e.body[k], base, [path]))
            && (e.body != [] ==> e.body[|e.body| - 1].Assign?)
  {
  }

  /** A line put in and taken out again leaves the section it was put into, its last line with a newline. */
  lemma PutThenPruned(d: Document, e: Edit, s: nat, base: nat, st: Style)
    requires WellFormed(d) && GoodEdit(e) && FirstSet(Entries(d), e.path).None?
    requires s < |d.sections| && base < |e.path| && BaseOf(d.sections[s]) == e.path[..base]
    ensures Pruned(Insert(d, s, NewLine(e, base, st), st.nl), [e.path]) ==
            d.(sections := d.sections[s := EndSection(d.sections[s], st.nl)])
  {
    hide Gone, Tight, Loose, EntriesOf, GoodSection, EndSection, NewLine, WellFormed;
    var r := Insert(d, s, NewLine(e, base, st), st.nl);
    var path, ended := [e.path], EndSection(d.sections[s], st.nl);
    EndSectionKeys(d.sections[s], st.nl);
    EndedSectionHead(d.sections[s], st.nl);
    forall t | 0 <= t < |d.sections|
      ensures Tight(BaseOf(r.sections[t]), r.sections[t].body, path) ==
              if t == s then ended.body else d.sections[t].body
      ensures Loose(BaseOf(r.sections[t]), r.sections[t].body, path) == ""
    {
      BodyEndsWithKey(d, t);
      forall k | 0 <= k < |d.sections[t].body|
        ensures !Gone(d.sections[t].body[k], BaseOf(d.sections[t]), path)
      {
        NoneGone(d, e.path, t, k);
      }
      if t == s {
        EndedGone(d.sections[s], BaseOf(d.sections[s]), e.path, st.nl);
        PrefixPath(e.path, base);
        NewLineIsGone(e, base, st);
        NewLineGone(BaseOf(d.sections[s]), ended.body, NewLine(e, base, st), e.path);
      } else {
        KeepsTight(BaseOf(d.sections[t]), d.sections[t].body, path);
      }
    }
    NothingAdded();
    assert Pruned(r, path).sections == d.sections[s := ended];
  }

  lemma NewLineIsGone(e: Edit, base: nat, st: Style)
    requires base < |e.path| && e.path[..base] + e.path[base..] == e.path
    ensures Gone(NewLine(e, base, st), e.path[..base], [e.path])
  {
  }

  /** A new table stays when its key is taken out again. */
  lemma HeaderStays(d: Document, e: Edit, st: Style)
    requires WellFormed(d) && GoodEdit(e) && GoodStyle(st)
    requires Decide(Entries(d), e.path).NewTable?
    ensures |Pruned(One(d, e, st), [e.path]).sections| == |d.sections| + 1
    ensures |Render(Pruned(One(d, e, st), [e.path]))| > |Render(d)|
  {
    hide Gone, EntriesOf, GoodSection, Decide, Render, AllWhite, WellFormed, Keep;
    OneIs(d, e, st);
    DecideMeans(Entries(d), e.path);
    var lines := [NewLine(e, |e.path| - 1, st)];
    var r := One(d, e, st);
    OneKeepsForm(d, e, st);
    var p := Pruned(r, [e.path]);
    WellFormedHasSections(d);
    EndedLength(d, st.nl);
    NewTablePruned(d, e, st);
    EndDocumentText(d, st.nl);
    RenderGrows(EndDocument(d, st.nl), p);
  }

  /** Everything before the new table is as it was, ended. */
  lemma NewTablePruned(d: Document, e: Edit, st: Style)
    requires WellFormed(d) && GoodEdit(e) && GoodStyle(st) && FirstSet(Entries(d), e.path).None?
    ensures d.sections != []
    ensures var r := AppendTable(d, Parent(e.path), [NewLine(e, |e.path| - 1, st)], st);
            var ended := EndDocument(d, st.nl);
            && |r.sections| == |ended.sections| + 1
            && Pruned(r, [e.path]).sections[..|ended.sections|] == ended.sections
            && Pruned(r, [e.path]).sections[|ended.sections|].head == r.sections[|ended.sections|].head
            && Pruned(r, [e.path]).sections[|ended.sections|].head == Some(NewHeader(Parent(e.path), st))
            && Pruned(r, [e.path]).sections[|ended.sections|].lead == r.sections[|ended.sections|].lead
            && ended.ending <= r.sections[|ended.sections|].lead
  {
    hide Gone, Tight, Loose, EntriesOf, GoodSection, EndSection, Render, AllWhite, NewHeader, NewLine, WellFormed;
    WellFormedHasSections(d);
    var l := NewLine(e, |e.path| - 1, st);
    var r, ended := AppendTable(d, Parent(e.path), [l], st), EndDocument(d, st.nl);
    EndedDocumentIsGood(d, st.nl);
    EndDocumentEntries(d, st.nl);
    var n := |ended.sections|;
    assert r.sections[..n] == ended.sections;
    forall t | 0 <= t < n
      ensures Tight(BaseOf(ended.sections[t]), ended.sections[t].body, [e.path]) == ended.sections[t].body
      ensures Loose(BaseOf(ended.sections[t]), ended.sections[t].body, [e.path]) == ""
    {
      BodyEndsWithKey(ended, t);
      forall k | 0 <= k < |ended.sections[t].body|
        ensures !Gone(ended.sections[t].body[k], BaseOf(ended.sections[t]), [e.path])
      {
        NoneGone(ended, e.path, t, k);
      }
      KeepsTight(BaseOf(ended.sections[t]), ended.sections[t].body, [e.path]);
    }
    NothingAdded();
    forall t | 0 <= t < n
      ensures Pruned(r, [e.path]).sections[t] == ended.sections[t]
    {
      assert r.sections[t] == ended.sections[t];
      if t > 0 {
        assert r.sections[t - 1] == ended.sections[t - 1];
      }
    }
    assert r.sections[n - 1] == ended.sections[n - 1];
  }

  lemma RenderGrows(a: Document, b: Document)
    requires |b.sections| == |a.sections| + 1 && b.sections[..|a.sections|] == a.sections
    requires b.sections[|a.sections|].head.Some? && a.ending <= b.sections[|a.sections|].lead
    requires b.sections[|a.sections|].head.value.open != ""
    ensures |Render(b)| > |Render(a)|
  {
    hide BodyText;
    assert b.sections[..|b.sections| - 1] == a.sections;
  }

  /**
   Setting a key that was not set and taking it out again restores the file to the byte if and only if the key's table
   was there to join, and the line it was put behind has its newline.
   */
  lemma SetThenUnset(d: Document, e: Edit, st: Style)
    requires WellFormed(d) && GoodEdit(e) && GoodStyle(st) && FirstSet(Entries(d), e.path).None?
    ensures var w := Decide(Entries(d), e.path);
            Render(Pruned(One(d, e, st), [e.path])) == Render(d) <==>
              w.Into? && w.section < |d.sections| && SectionEnds(d.sections[w.section])
  {
    hide EntriesOf, Decide, Render, Pruned, WellFormed, EndSection, SectionEnds, GoodSection;
    DecideMeans(Entries(d), e.path);
    OneIs(d, e, st);
    var w := Decide(Entries(d), e.path);
    if w.NewTable? {
      HeaderStays(d, e, st);
    } else {
      IntoSection(d, e.path);
      IntoIsGrounded(d, e.path);
      PutThenPruned(d, e, w.section, w.base, st);
      EndedText(d, w.section, st.nl);
    }
  }

  /** Ending a section changes the document's text exactly when its last line has no newline. */
  lemma EndedText(d: Document, s: nat, nl: Text)
    requires WellFormed(d) && s < |d.sections| && (nl == "\n" || nl == "\r\n")
    requires d.sections[s].head.Some? || d.sections[s].body != []
    ensures Render(d.(sections := d.sections[s := EndSection(d.sections[s], nl)])) == Render(d) <==>
              SectionEnds(d.sections[s])
  {
    hide SectionText, SectionsText, LineText, GoodLine, GoodHeader, BodyText;
    var sec := d.sections[s];
    assert GoodSection(sec);
    EndSectionText(sec, nl);
    SectionTextEnds(sec);
    LastTail(sec);
    if SectionEnds(sec) {
      EndsAlready(sec, nl);
      assert d.sections[s := sec] == d.sections;
    } else {
      assert s == |d.sections| - 1 && d.ending == "";
      var r := d.(sections := d.sections[s := EndSection(sec, nl)]);
      LastRendered(d);
      LastRendered(r);
      assert r.sections[..s] == d.sections[..s];
    }
  }

  lemma LastTail(sec: Section)
    requires GoodSection(sec)
    ensures sec.body != [] ==>
              EndsLine(LineText(sec.body[|sec.body| - 1])) == EndsLine(sec.body[|sec.body| - 1].tail)
  {
    hide LineText, GoodLine;
    if sec.body != [] {
      TailEnds(sec.body[|sec.body| - 1]);
    }
  }

  lemma EndsAlready(sec: Section, nl: Text)
    requires GoodSection(sec) && SectionEnds(sec)
    ensures EndSection(sec, nl) == sec
  {
    hide LineText, GoodLine;
    LastTail(sec);
    if sec.body != [] {
      assert sec.body[|sec.body| - 1 := sec.body[|sec.body| - 1]] == sec.body;
    }
  }
}
