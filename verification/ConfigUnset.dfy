/** Taking keys out of a document (daemon/config/edit.go): the whole line of each goes, and nothing else. */
module ConfigUnset {
  import opened Bytes
  import opened Splice
  import opened Toml
  import opened ConfigPlace
  import opened ConfigEdit
  import opened ConfigForm
  import opened ConfigBatch
  import opened ConfigFold
  import opened ConfigSame
  import opened ConfigText
  import opened ConfigRender
  import opened ConfigScan
  import opened ConfigDocument
  import opened ConfigSetAll
  import opened ConfigReads

  // ---------- the document without some keys ----------

  predicate Gone(l: Line, base: Path, paths: seq<Path>) {
    l.Assign? && base + l.rel in paths
  }

  function Keep(base: Path, body: seq<Line>, paths: seq<Path>): seq<Line> {
    if body == [] then []
    else
      Keep(base, body[..|body| - 1], paths) +
      (if Gone(body[|body| - 1], base, paths) then [] else [body[|body| - 1]])
  }

  /** How many lines there are down to the last key. */
  function ToLastKey(body: seq<Line>): (n: nat)
    ensures n <= |body| && (n > 0 ==> body[n - 1].Assign?)
    ensures forall k :: n <= k < |body| ==> !body[k].Assign?
  {
    if body == [] then 0
    else if body[|body| - 1].Assign? then |body|
    else ToLastKey(body[..|body| - 1])
  }

  /** The lines a section keeps down to its last key, and the text of those behind it: it is the next section's now. */
  function Tight(base: Path, body: seq<Line>, paths: seq<Path>): seq<Line> {
    var kept := Keep(base, body, paths);
    kept[..ToLastKey(kept)]
  }

  function Loose(base: Path, body: seq<Line>, paths: seq<Path>): Text {
    var kept := Keep(base, body, paths);
    BodyText(kept[ToLastKey(kept)..])
  }

  function LooseOf(ss: seq<Section>, s: nat, paths: seq<Path>): Text
    requires s <= |ss|
  {
    if s == 0 then "" else Loose(BaseOf(ss[s - 1]), ss[s - 1].body, paths)
  }

  function PrunedSection(ss: seq<Section>, s: nat, paths: seq<Path>): Section
    requires s < |ss|
  {
    Section(LooseOf(ss, s, paths) + ss[s].lead, ss[s].head, Tight(BaseOf(ss[s]), ss[s].body, paths))
  }

  function PrunedSections(ss: seq<Section>, paths: seq<Path>): (r: seq<Section>)
    ensures |r| == |ss|
  {
    seq(|ss|, s requires 0 <= s < |ss| => PrunedSection(ss, s, paths))
  }

  function Pruned(d: Document, paths: seq<Path>): Document {
    Document(PrunedSections(d.sections, paths), LooseOf(d.sections, |d.sections|, paths) + d.ending)
  }

  // ---------- taking out twice is taking out all ----------

  lemma {:induction false} KeepTwice(base: Path, body: seq<Line>, p: seq<Path>, q: seq<Path>)
    ensures Keep(base, Keep(base, body, p), q) == Keep(base, body, p + q)
  {
    hide Gone;
    if body != [] {
      var most, l := body[..|body| - 1], body[|body| - 1];
      KeepTwice(base, most, p, q);
      GoneEither(l, base, p, q);
      if !Gone(l, base, p) {
        KeepNext(base, Keep(base, most, p), l, q);
      } else {
        assert Keep(base, body, p) == Keep(base, most, p);
      }
    }
  }

  lemma GoneEither(l: Line, base: Path, p: seq<Path>, q: seq<Path>)
    ensures Gone(l, base, p + q) <==> Gone(l, base, p) || Gone(l, base, q)
  {
  }

  lemma KeepNext(base: Path, body: seq<Line>, l: Line, q: seq<Path>)
    ensures Keep(base, body + [l], q) == Keep(base, body, q) + (if Gone(l, base, q) then [] else [l])
  {
    hide Gone;
    assert (body + [l])[..|body|] == body;
  }

  lemma {:induction false} KeepConcat(base: Path, a: seq<Line>, b: seq<Line>, q: seq<Path>)
    ensures Keep(base, a + b, q) == Keep(base, a, q) + Keep(base, b, q)
  {
    hide Gone;
    if b == [] {
      assert a + b == a;
    } else {
      assert (a + b)[..|a + b| - 1] == a + b[..|b| - 1];
      KeepConcat(base, a, b[..|b| - 1], q);
    }
  }

  lemma {:induction false} KeepOthers(base: Path, body: seq<Line>, q: seq<Path>)
    requires forall k :: 0 <= k < |body| ==> !body[k].Assign?
    ensures Keep(base, body, q) == body
  {
    if body != [] {
      KeepOthers(base, body[..|body| - 1], q);
      assert body == body[..|body| - 1] + [body[|body| - 1]];
    }
  }

  lemma {:induction false} LastKeyBefore(a: seq<Line>, b: seq<Line>)
    requires forall k :: 0 <= k < |b| ==> !b[k].Assign?
    ensures ToLastKey(a + b) == ToLastKey(a)
  {
    if b == [] {
      assert a + b == a;
    } else {
      assert (a + b)[..|a + b| - 1] == a + b[..|b| - 1];
      LastKeyBefore(a, b[..|b| - 1]);
    }
  }

  lemma TightTwice(base: Path, body: seq<Line>, p: seq<Path>, q: seq<Path>)
    ensures Tight(base, Tight(base, body, p), q) == Tight(base, body, p + q)
    ensures Loose(base, Tight(base, body, p), q) + Loose(base, body, p) == Loose(base, body, p + q)
  {
    hide Keep, ToLastKey, BodyText;
    KeepTwice(base, body, p, q);
    var kept := Keep(base, body, p);
    var n := ToLastKey(kept);
    var t, l := kept[..n], kept[n..];
    assert kept == t + l;
    KeepConcat(base, t, l, q);
    KeepOthers(base, l, q);
    var kq := Keep(base, t, q);
    LastKeyBefore(kq, l);
    var m := ToLastKey(kq);
    assert (kq + l)[..m] == kq[..m];
    assert (kq + l)[m..] == kq[m..] + l;
    BodyTextConcat(kq[m..], l);
  }

  lemma LooseTwice(d: Document, p: seq<Path>, q: seq<Path>, s: nat)
    requires s <= |d.sections|
    ensures LooseOf(Pruned(d, p).sections, s, q) + LooseOf(d.sections, s, p) == LooseOf(d.sections, s, p + q)
  {
    hide Tight, Loose;
    if s > 0 {
      TightTwice(BaseOf(d.sections[s - 1]), d.sections[s - 1].body, p, q);
    }
  }

  /** Taking out some keys and then others is taking out all of them at once. */
  lemma PrunedTwice(d: Document, p: seq<Path>, q: seq<Path>)
    ensures Pruned(Pruned(d, p), q) == Pruned(d, p + q)
  {
    hide Tight, Loose, LooseOf;
    var ss, once := d.sections, Pruned(d, p);
    forall s | 0 <= s < |ss|
      ensures PrunedSection(once.sections, s, q) == PrunedSection(ss, s, p + q)
    {
      TightTwice(BaseOf(ss[s]), ss[s].body, p, q);
      LooseTwice(d, p, q, s);
      Regrouped(LooseOf(once.sections, s, q), LooseOf(ss, s, p), ss[s].lead);
    }
    LooseTwice(d, p, q, |ss|);
    Regrouped(LooseOf(once.sections, |ss|, q), LooseOf(ss, |ss|, p), d.ending);
    assert Pruned(once, q).sections == Pruned(d, p + q).sections;
  }

  // ---------- it is well formed ----------

  lemma {:induction false} KeepIsGood(base: Path, body: seq<Line>, paths: seq<Path>)
    requires forall k :: 0 <= k < |body| ==> GoodLine(body[k])
    ensures forall k :: 0 <= k < |Keep(base, body, paths)| ==> Keep(base, body, paths)[k] in body
    ensures forall k :: 0 <= k < |Keep(base, body, paths)| ==> GoodLine(Keep(base, body, paths)[k])
  {
    hide Gone, GoodLine;
    if body != [] {
      KeepIsGood(base, body[..|body| - 1], paths);
    }
  }

  lemma {:induction false} KeepAllEnd(base: Path, body: seq<Line>, paths: seq<Path>)
    requires forall k :: 0 <= k < |body| ==> EndsLine(LineText(body[k]))
    ensures forall k :: 0 <= k < |Keep(base, body, paths)| ==> EndsLine(LineText(Keep(base, body, paths)[k]))
  {
    hide Gone, LineText, EndsLine;
    if body != [] {
      KeepAllEnd(base, body[..|body| - 1], paths);
    }
  }

  /** All lines but the last end theirs, and so do those kept before another. */
  lemma KeepEnds(base: Path, body: seq<Line>, paths: seq<Path>)
    requires forall k :: 0 <= k < |body| - 1 ==> EndsLine(LineText(body[k]))
    ensures var kept := Keep(base, body, paths);
            && (forall k :: 0 <= k < |kept| - 1 ==> EndsLine(LineText(kept[k])))
            && (body != [] && (EndsLine(LineText(body[|body| - 1])) || Gone(body[|body| - 1], base, paths)) ==>
                  forall k :: 0 <= k < |kept| ==> EndsLine(LineText(kept[k])))
  {
    hide Gone, LineText, EndsLine;
    if body != [] {
      KeepAllEnd(base, body[..|body| - 1], paths);
    }
  }

  lemma {:induction false} EndsBody(body: seq<Line>)
    requires body != [] && EndsLine(LineText(body[|body| - 1]))
    ensures EndsLine(BodyText(body))
  {
    hide LineText;
    BodyTextLast(body);
    EndsWith(BodyText(body[..|body| - 1]), LineText(body[|body| - 1]));
  }

  lemma TightIsGood(base: Path, body: seq<Line>, paths: seq<Path>)
    requires GoodBody(body)
    ensures GoodBody(Tight(base, body, paths))
    ensures Loose(base, body, paths) != "" ==>
              EndsLine(Loose(base, body, paths)) &&
              (Tight(base, body, paths) != [] ==>
                 EndsLine(LineText(Tight(base, body, paths)[|Tight(base, body, paths)| - 1])))
    ensures body != [] && EndsLine(LineText(body[|body| - 1])) && Tight(base, body, paths) != [] ==>
              EndsLine(LineText(Tight(base, body, paths)[|Tight(base, body, paths)| - 1]))
  {
    hide GoodLine, LineText, Gone, BodyText, Keep;
    var kept := Keep(base, body, paths);
    KeepIsGood(base, body, paths);
    KeepEnds(base, body, paths);
    var n := ToLastKey(kept);
    assert forall k :: 0 <= k < n ==> Tight(base, body, paths)[k] == kept[k];
    if n < |kept| {
      OtherKeptMeansGone(base, body, paths);
      EndsBody(kept[n..]);
    } else {
      assert kept[n..] == [];
      EmptyBody();
    }
  }

  /** A body ends with a key, so if something else is kept last that key is gone. */
  lemma OtherKeptMeansGone(base: Path, body: seq<Line>, paths: seq<Path>)
    requires GoodBody(body)
    ensures var kept := Keep(base, body, paths);
            kept != [] && !kept[|kept| - 1].Assign? ==> body != [] && Gone(body[|body| - 1], base, paths)
  {
    hide GoodLine, LineText, Gone;
  }

  lemma PrunedIsGood(d: Document, paths: seq<Path>)
    requires WellFormed(d)
    ensures WellFormed(Pruned(d, paths))
  {
    hide LooseOf, PrunedSection, GoodSection, SectionEnds;
    var ss, r := d.sections, Pruned(d, paths);
    forall s | 0 <= s < |ss|
      ensures GoodSection(r.sections[s])
      ensures SectionEnds(ss[s]) ==> SectionEnds(r.sections[s])
      ensures LooseOf(ss, s + 1, paths) != "" ==> SectionEnds(r.sections[s]) && EndsLine(LooseOf(ss, s + 1, paths))
    {
      SectionStaysGood(d, s, paths);
    }
    HeadsStay(d, paths);
    if r.ending != "" && d.ending != "" {
      assert r.ending[|r.ending| - 1] == d.ending[|d.ending| - 1];
    }
  }

  lemma HeadsStay(d: Document, paths: seq<Path>)
    requires WellFormed(d)
    ensures forall s :: 0 <= s < |d.sections| ==> PrunedSection(d.sections, s, paths).head == d.sections[s].head
    ensures PrunedSection(d.sections, 0, paths).lead == ""
    ensures LooseOf(d.sections, 0, paths) == ""
  {
    hide Tight, Loose, GoodSection, SectionEnds;
  }

  lemma SectionStaysGood(d: Document, s: nat, paths: seq<Path>)
    requires WellFormed(d) && s < |d.sections|
    ensures var r := PrunedSection(d.sections, s, paths);
            && GoodSection(r)
            && (SectionEnds(d.sections[s]) ==> SectionEnds(r))
            && (LooseOf(d.sections, s + 1, paths) != "" ==>
                  SectionEnds(r) && EndsLine(LooseOf(d.sections, s + 1, paths)))
  {
    hide Tight, Loose, GoodBody, LineText, GoodHeader;
    var ss := d.sections;
    assert GoodSection(ss[s]);
    TightIsGood(BaseOf(ss[s]), ss[s].body, paths);
    TightOfNone(BaseOf(ss[s]), ss[s].body, paths);
    if s > 0 {
      assert GoodSection(ss[s - 1]);
      TightIsGood(BaseOf(ss[s - 1]), ss[s - 1].body, paths);
      LeadEnds(LooseOf(ss, s, paths), ss[s].lead);
    } else {
      assert "" + ss[s].lead == ss[s].lead;
    }
  }

  lemma LeadEnds(a: Text, b: Text)
    requires (a != "" ==> EndsLine(a)) && (b != "" ==> EndsLine(b))
    ensures a + b != "" ==> EndsLine(a + b)
  {
    if b == "" {
      assert a + b == a;
    }
  }

  lemma TightOfNone(base: Path, body: seq<Line>, paths: seq<Path>)
    ensures body == [] ==> Tight(base, body, paths) == [] && Loose(base, body, paths) == ""
  {
  }

  // ---------- what it says ----------

  lemma {:induction false} KeepSays(base: Path, body: seq<Line>, paths: seq<Path>, l: Line)
    ensures l in Keep(base, body, paths) <==> l in body && !Gone(l, base, paths)
  {
    hide Gone;
    if body != [] {
      KeepSays(base, body[..|body| - 1], paths, l);
      assert l in body <==> l in body[..|body| - 1] || l == body[|body| - 1];
    }
  }

  lemma TightSays(base: Path, body: seq<Line>, paths: seq<Path>, l: Line)
    requires l.Assign?
    ensures l in Tight(base, body, paths) <==> l in body && base + l.rel !in paths
  {
    hide Keep;
    KeepSays(base, body, paths, l);
    var kept := Keep(base, body, paths);
    var n := ToLastKey(kept);
    if l in kept {
      var k :| 0 <= k < |kept| && kept[k] == l;
      assert k < n;
      assert kept[..n][k] == l;
    }
  }

  /** A key in the document, with what it sets. */
  predicate Holds(d: Document, s: nat, path: Path, l: Line) {
    s < |d.sections| && l in d.sections[s].body && l.Assign? && BaseOf(d.sections[s]) + l.rel == path
  }

  /** Exactly the other keys are left, each on the line it had. */
  lemma PrunedHolds(d: Document, paths: seq<Path>, s: nat, path: Path, l: Line)
    ensures Holds(Pruned(d, paths), s, path, l) <==> Holds(d, s, path, l) && path !in paths
  {
    hide Tight, Loose;
    if s < |d.sections| && l.Assign? {
      TightSays(BaseOf(d.sections[s]), d.sections[s].body, paths, l);
      SameBase(d.sections, s, paths);
    }
  }

  lemma SameBase(ss: seq<Section>, s: nat, paths: seq<Path>)
    requires s < |ss|
    ensures BaseOf(PrunedSection(ss, s, paths)) == BaseOf(ss[s])
  {
  }

  lemma HoldsIsEntry(d: Document, s: nat, path: Path)
    ensures (exists l :: Holds(d, s, path, l)) <==>
            (exists x :: x in Entries(d) && x.Setting? && x.section == s && x.path == path)
  {
    if l :| Holds(d, s, path, l) {
      var k :| 0 <= k < |d.sections[s].body| && d.sections[s].body[k] == l;
      var x := Setting(s, k, BaseOf(d.sections[s]), path);
      EntriesSay(d.sections, x);
    }
    if x :| x in Entries(d) && x.Setting? && x.section == s && x.path == path {
      EntriesSay(d.sections, x);
      assert Holds(d, s, path, d.sections[s].body[x.line]);
    }
  }

  lemma TablesStay(d: Document, paths: seq<Path>, x: Entry)
    requires x.Table?
    ensures x in Entries(Pruned(d, paths)) <==> x in Entries(d)
  {
    hide Tight, Loose;
    EntriesSay(d.sections, x);
    EntriesSay(Pruned(d, paths).sections, x);
  }

  lemma HeldIsSet(d: Document, s: nat, path: Path, l: Line)
    requires Holds(d, s, path, l)
    ensures FirstSet(Entries(d), path).Some?
  {
    var k :| 0 <= k < |d.sections[s].body| && d.sections[s].body[k] == l;
    var x := Setting(s, k, BaseOf(d.sections[s]), path);
    EntriesSay(d.sections, x);
  }

  lemma SetIsHeld(d: Document, path: Path)
    requires FirstSet(Entries(d), path).Some?
    ensures var x := FirstSet(Entries(d), path).value; Holds(d, x.section, path, LineOf(d, x))
  {
    EntriesSay(d.sections, FirstSet(Entries(d), path).value);
  }

  /** In a valid document a path outside arrays has one line. */
  lemma OneLineEach(d: Document, path: Path, arrays: seq<Claim> -> bool, s: nat, l: Line, s': nat, l': Line)
    requires Valid(Entries(d), arrays) && !InArray(Entries(d), path)
    requires Holds(d, s, path, l) && Holds(d, s', path, l')
    ensures s == s' && l == l'
  {
    hide ArrayPart, InArray, EntriesOf;
    var k :| 0 <= k < |d.sections[s].body| && d.sections[s].body[k] == l;
    var k' :| 0 <= k' < |d.sections[s'].body| && d.sections[s'].body[k'] == l';
    var x, y := Setting(s, k, BaseOf(d.sections[s]), path), Setting(s', k', BaseOf(d.sections[s']), path);
    EntriesSay(d.sections, x);
    EntriesSay(d.sections, y);
    PairIs(Entries(d), x, y);
  }
}
