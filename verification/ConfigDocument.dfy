/** The scan of a document, and where its arrays say a key goes (daemon/config/edit.go). */
module ConfigDocument {
  import opened Bytes
  import opened Splice
  import opened Toml
  import opened TomlKeys
  import opened ConfigPlace
  import opened ConfigEdit
  import opened ConfigForm
  import opened ConfigText
  import opened ConfigScan

  /** A table's header; last is where its last key ends, or its header when it has no key. */
  datatype TableAt = TableAt(path: Path, isArray: bool, last: nat)

  /** A key and its value; table is an index into the tables, -1 for the root. */
  datatype AssignmentAt = AssignmentAt(
    path: Path, table: int, exprStart: nat, valueStart: nat, exprEnd: nat, compound: bool)

  function TableFor(ss: seq<Section>, e: Entry): TableAt
    requires e.Table?
  {
    TableAt(e.path, e.isArray, if HasLine(ss, e.section) then LastOf(ss, e.section) else 0)
  }

  function AssignmentFor(ss: seq<Section>, e: Entry): AssignmentAt
    requires e.Setting?
  {
    if !IsKey(ss, e.section, e.line) then AssignmentAt(e.path, e.section - 1, 0, 0, 0, false)
    else
      AssignmentAt(e.path, e.section - 1, ExprStart(ss, e.section, e.line), ValueStart(ss, e.section, e.line),
                   ExprEnd(ss, e.section, e.line), ss[e.section].body[e.line].compound)
  }

  function TablesFor(ss: seq<Section>, es: seq<Entry>): seq<TableAt> {
    if es == [] then []
    else
      var e := es[|es| - 1];
      TablesFor(ss, es[..|es| - 1]) + (if e.Table? then [TableFor(ss, e)] else [])
  }

  function AssignmentsFor(ss: seq<Section>, es: seq<Entry>): seq<AssignmentAt> {
    if es == [] then []
    else
      var e := es[|es| - 1];
      AssignmentsFor(ss, es[..|es| - 1]) + (if e.Setting? then [AssignmentFor(ss, e)] else [])
  }

  // ---------- the scan ----------

  /** The entries up to a line. */
  function EntriesTo(ss: seq<Section>, s: nat, k: nat): seq<Entry>
    requires s < |ss| && k <= |ss[s].body|
  {
    EntriesOf(ss[..s]) + HeadEntries(s, ss[s].head) + BodyEntries(s, BaseOf(ss[s]), ss[s].body[..k])
  }

  lemma EntriesToNext(ss: seq<Section>, s: nat, k: nat)
    requires s < |ss| && k < |ss[s].body|
    ensures EntriesTo(ss, s, k + 1) == EntriesTo(ss, s, k) + LineEntries(s, k, BaseOf(ss[s]), ss[s].body[k])
  {
    hide LineEntries, EntriesOf;
    assert ss[s].body[..k + 1][..k] == ss[s].body[..k];
  }

  lemma EntriesToEnd(ss: seq<Section>, s: nat)
    requires s < |ss|
    ensures EntriesTo(ss, s, |ss[s].body|) == EntriesOf(ss[..s + 1])
  {
    hide BodyEntries, HeadEntries;
    assert ss[..s + 1][..s] == ss[..s];
    assert ss[s].body[..|ss[s].body|] == ss[s].body;
  }

  lemma EntriesToStart(ss: seq<Section>, s: nat)
    requires s < |ss|
    ensures EntriesTo(ss, s, 0) == EntriesOf(ss[..s]) + HeadEntries(s, ss[s].head)
  {
    assert ss[s].body[..0] == [];
  }

  lemma {:induction false} ForConcat(ss: seq<Section>, a: seq<Entry>, b: seq<Entry>)
    ensures TablesFor(ss, a + b) == TablesFor(ss, a) + TablesFor(ss, b)
    ensures AssignmentsFor(ss, a + b) == AssignmentsFor(ss, a) + AssignmentsFor(ss, b)
  {
    hide TableFor, AssignmentFor;
    if b == [] {
      assert a + b == a;
    } else {
      assert (a + b)[..|a + b| - 1] == a + b[..|b| - 1];
      ForConcat(ss, a, b[..|b| - 1]);
    }
  }

  lemma ForOne(ss: seq<Section>, e: Entry)
    ensures TablesFor(ss, [e]) == if e.Table? then [TableFor(ss, e)] else []
    ensures AssignmentsFor(ss, [e]) == if e.Setting? then [AssignmentFor(ss, e)] else []
  {
    hide TableFor, AssignmentFor;
    assert [e][..0] == [];
  }

  /** Where a section's last expression so far ends. */
  function LastTo(ss: seq<Section>, s: nat, k: nat): nat
    requires s < |ss| && k <= |ss[s].body|
  {
    if k == 0 then
      SectionStart(ss, s) + |ss[s].lead| +
        (if ss[s].head.Some? then |ss[s].head.value.open| + |ss[s].head.value.key| else 0)
    else if ss[s].body[k - 1].Assign? then ExprEnd(ss, s, k - 1)
    else LastTo(ss, s, k - 1)
  }

  lemma ExprText(d: Document, s: nat, k: nat)
    requires IsKey(d.sections, s, k)
    ensures var l := d.sections[s].body[k];
            var keyEnd := ExprStart(d.sections, s, k) + |l.key|;
            && ExprEnd(d.sections, s, k) <= |Render(d)|
            && Render(d)[keyEnd..ExprEnd(d.sections, s, k)] == l.eq + l.value
            && ExprStart(d.sections, s, k) + |l.key| <= |Render(d)|
  {
    hide SectionsText, BodyText, HeadText;
    var ss := d.sections;
    var sec, l := ss[s], ss[s].body[k];
    var more := SectionsTextSplit(ss, s);
    var tail := BodyTextSplit(sec.body, k);
    var before := SectionsText(ss[..s]) + (sec.lead + HeadText(sec.head)) + BodyText(sec.body[..k]) + (l.lead + l.key);
    assert Render(d) == before + (l.eq + l.value) + (l.tail + tail + more + d.ending);
    assert |before| == ExprStart(ss, s, k) + |l.key|;
  }

  lemma {:induction false} BodyTextSplit(body: seq<Line>, k: nat) returns (rest: Text)
    requires k < |body|
    ensures BodyText(body) == BodyText(body[..k]) + LineText(body[k]) + rest
    decreases |body|
  {
    hide LineText;
    var n := |body| - 1;
    if k == n {
      rest := "";
    } else {
      var r := BodyTextSplit(body[..n], k);
      assert body[..n][..k] == body[..k];
      rest := r + LineText(body[n]);
    }
  }

  lemma LineAtNext(ss: seq<Section>, s: nat, k: nat)
    requires s < |ss| && k < |ss[s].body|
    ensures LineAt(ss, s, k + 1) == LineAt(ss, s, k) + |LineText(ss[s].body[k])|
  {
    hide LineText;
    assert ss[s].body[..k + 1][..k] == ss[s].body[..k];
  }

  lemma NextSection(ss: seq<Section>, s: nat)
    requires s < |ss|
    ensures SectionStart(ss, s + 1) == LineAt(ss, s, |ss[s].body|)
  {
    hide BodyText, HeadText;
    assert ss[..s + 1][..s] == ss[..s];
    assert ss[s].body[..|ss[s].body|] == ss[s].body;
  }

  lemma LineAtStart(ss: seq<Section>, s: nat)
    requires s < |ss|
    ensures LineAt(ss, s, 0) == SectionStart(ss, s) + |ss[s].lead| + |HeadText(ss[s].head)|
  {
    assert ss[s].body[..0] == [];
  }

  lemma LastToEnd(ss: seq<Section>, s: nat)
    requires s < |ss| && GoodBody(ss[s].body)
    ensures HasLine(ss, s) ==> LastTo(ss, s, |ss[s].body|) == LastOf(ss, s)
  {
  }

  /** What the scan has collected by a line: everything before it, and its own table as far as it has got. */
  predicate ScannedTo(
    ss: seq<Section>, s: nat, k: nat, at: nat, tables: seq<TableAt>, assignments: seq<AssignmentAt>)
    requires s < |ss| && k <= |ss[s].body|
  {
    && at == LineAt(ss, s, k)
    && assignments == AssignmentsFor(ss, EntriesTo(ss, s, k))
    && tables == TablesFor(ss, EntriesOf(ss[..s])) +
         (if ss[s].head.Some? then [TableAt(ss[s].head.value.path, ss[s].head.value.isArray, LastTo(ss, s, k))] else [])
  }

  lemma OtherScanned(ss: seq<Section>, s: nat, k: nat, at: nat, tables: seq<TableAt>, assignments: seq<AssignmentAt>)
    requires s < |ss| && k < |ss[s].body| && !ss[s].body[k].Assign?
    requires ScannedTo(ss, s, k, at, tables, assignments)
    ensures ScannedTo(ss, s, k + 1, at + |LineText(ss[s].body[k])|, tables, assignments)
  {
    hide LineAt, EntriesTo, TablesFor, AssignmentsFor, LineText, EntriesOf, BaseOf;
    EntriesToNext(ss, s, k);
    assert EntriesTo(ss, s, k + 1) == EntriesTo(ss, s, k);
    LineAtNext(ss, s, k);
  }

  lemma AssignmentScanned(
    ss: seq<Section>, s: nat, k: nat, at: nat, tables: seq<TableAt>, assignments: seq<AssignmentAt>,
    a: AssignmentAt)
    requires IsKey(ss, s, k) && ss[s].head.Some? == (s > 0)
    requires |TablesFor(ss, EntriesOf(ss[..s]))| == (if s > 0 then s - 1 else 0)
    requires ScannedTo(ss, s, k, at, tables, assignments)
    requires a == AssignmentFor(ss, Setting(s, k, BaseOf(ss[s]), BaseOf(ss[s]) + ss[s].body[k].rel))
    ensures |tables| == s
    ensures ScannedTo(ss, s, k + 1, at + |LineText(ss[s].body[k])|,
              if s > 0 then tables[s - 1 := tables[s - 1].(last := a.exprEnd)] else tables, assignments + [a])
  {
    hide LineAt, EntriesTo, TablesFor, AssignmentsFor, LineText, EntriesOf, BaseOf, ExprStart, ValueStart;
    var e := Setting(s, k, BaseOf(ss[s]), BaseOf(ss[s]) + ss[s].body[k].rel);
    EntriesToNext(ss, s, k);
    ForConcat(ss, EntriesTo(ss, s, k), [e]);
    ForOne(ss, e);
    LineAtNext(ss, s, k);
  }

  lemma AssignmentIs(ss: seq<Section>, s: nat, k: nat, at: nat)
    requires IsKey(ss, s, k) && at == LineAt(ss, s, k)
    ensures var l := ss[s].body[k];
            var exprStart := at + |l.lead|;
            var valueStart := exprStart + |l.key| + |l.eq|;
            AssignmentFor(ss, Setting(s, k, BaseOf(ss[s]), BaseOf(ss[s]) + l.rel)) ==
              AssignmentAt(BaseOf(ss[s]) + l.rel, s - 1, exprStart, valueStart, valueStart + |l.value|, l.compound)
  {
    hide LineAt, BaseOf;
  }

  lemma EqualsIs(l: Line)
    requires GoodLine(l) && l.Assign?
    ensures IsEquals(l.eq) && l.value != "" && !Blank(l.value[0])
  {
  }

  /** The expression the scan is at, taken apart. */
  method ScanAssignment(d: Document, s: nat, k: nat, at: nat) returns (a: AssignmentAt)
    requires IsKey(d.sections, s, k) && GoodLine(d.sections[s].body[k]) && at == LineAt(d.sections, s, k)
    ensures var base := BaseOf(d.sections[s]);
            a == AssignmentFor(d.sections, Setting(s, k, base, base + d.sections[s].body[k].rel))
  {
    hide LineAt, BaseOf, Render, IsEquals, AssignmentFor, GoodLine, Blank;
    var l := d.sections[s].body[k];
    var exprStart := at + |l.lead|;
    var keyEnd := exprStart + |l.key|;
    var end := keyEnd + |l.eq| + |l.value|;
    ExprText(d, s, k);
    AssignmentIs(d.sections, s, k, at);
    EqualsIs(l);
    var valueStart := AfterEquals(Render(d), keyEnd, end);
    assert valueStart == keyEnd + |l.eq|;
    a := AssignmentAt(BaseOf(d.sections[s]) + l.rel, s - 1, exprStart, valueStart, end, l.compound);
  }

  method ScanLine(d: Document, s: nat, k: nat, at: nat, tables: seq<TableAt>, assignments: seq<AssignmentAt>)
    returns (at': nat, tables': seq<TableAt>, assignments': seq<AssignmentAt>)
    requires s < |d.sections| && k < |d.sections[s].body| && GoodLine(d.sections[s].body[k])
    requires d.sections[s].head.Some? == (s > 0)
    requires |TablesFor(d.sections, EntriesOf(d.sections[..s]))| == if s > 0 then s - 1 else 0
    requires ScannedTo(d.sections, s, k, at, tables, assignments)
    ensures ScannedTo(d.sections, s, k + 1, at', tables', assignments')
  {
    hide ScannedTo, TablesFor, EntriesOf, Render, LineAt, LineText, AssignmentFor, GoodLine, BaseOf;
    var l := d.sections[s].body[k];
    at', tables', assignments' := at + |LineText(l)|, tables, assignments;
    if l.Assign? {
      ScannedAt(d.sections, s, k, at, tables, assignments);
      var a := ScanAssignment(d, s, k, at);
      AssignmentScanned(d.sections, s, k, at, tables, assignments, a);
      assignments' := assignments + [a];
      if s > 0 {
        tables' := tables[s - 1 := tables[s - 1].(last := a.exprEnd)];
      }
    } else {
      OtherScanned(d.sections, s, k, at, tables, assignments);
    }
  }

  lemma ScannedAt(
    ss: seq<Section>, s: nat, k: nat, at: nat, tables: seq<TableAt>, assignments: seq<AssignmentAt>)
    requires s < |ss| && k <= |ss[s].body| && ScannedTo(ss, s, k, at, tables, assignments)
    ensures at == LineAt(ss, s, k)
  {
  }

  lemma NoneForNone(ss: seq<Section>)
    ensures AssignmentsFor(ss, []) == [] && TablesFor(ss, []) == []
  {
  }

  lemma GoodLineAt(d: Document, s: nat, k: nat)
    requires WellFormed(d) && s < |d.sections| && k < |d.sections[s].body|
    ensures GoodLine(d.sections[s].body[k]) && (s > 0 <==> d.sections[s].head.Some?)
  {
    assert GoodSection(d.sections[s]);
  }

  lemma SectionTables(all: seq<Section>, n: nat, sec: Section)
    ensures TablesFor(all, SectionEntries(n, sec)) ==
            if sec.head.Some? then [TableFor(all, Table(n, sec.head.value.path, sec.head.value.isArray))] else []
  {
    hide TableFor, TablesFor, BodyEntries, BaseOf;
    ForConcat(all, HeadEntries(n, sec.head), BodyEntries(n, BaseOf(sec), sec.body));
    NoTablesInBody(all, n, BaseOf(sec), sec.body);
    NoneForNone(all);
    if sec.head.Some? {
      ForOne(all, Table(n, sec.head.value.path, sec.head.value.isArray));
    }
  }

  /** One table a section, but for the root. */
  lemma {:induction false} TablesCount(all: seq<Section>, ss: seq<Section>)
    requires forall s :: 0 <= s < |ss| ==> ss[s].head.Some? == (s > 0)
    ensures |TablesFor(all, EntriesOf(ss))| == if ss == [] then 0 else |ss| - 1
    ensures forall i :: 0 <= i < |TablesFor(all, EntriesOf(ss))| ==>
              TablesFor(all, EntriesOf(ss))[i] ==
                TableFor(all, Table(i + 1, ss[i + 1].head.value.path, ss[i + 1].head.value.isArray))
  {
    hide TableFor, TablesFor, SectionEntries;
    if ss == [] {
      NoneForNone(all);
    } else {
      var n := |ss| - 1;
      TablesCount(all, ss[..n]);
      ForConcat(all, EntriesOf(ss[..n]), SectionEntries(n, ss[n]));
      SectionTables(all, n, ss[n]);
    }
  }

  lemma {:induction false} NoTablesInBody(all: seq<Section>, s: nat, base: Path, body: seq<Line>)
    ensures TablesFor(all, BodyEntries(s, base, body)) == []
  {
    if body != [] {
      NoTablesInBody(all, s, base, body[..|body| - 1]);
      var l := body[|body| - 1];
      ForConcat(all, BodyEntries(s, base, body[..|body| - 1]), LineEntries(s, |body| - 1, base, l));
      if l.Assign? {
        ForOne(all, Setting(s, |body| - 1, base, base + l.rel));
      }
    }
  }

  lemma SectionScanned(d: Document, s: nat, at: nat, tables: seq<TableAt>, assignments: seq<AssignmentAt>)
    requires WellFormed(d) && s < |d.sections|
    requires ScannedTo(d.sections, s, |d.sections[s].body|, at, tables, assignments)
    ensures at == SectionStart(d.sections, s + 1)
    ensures tables == TablesFor(d.sections, EntriesOf(d.sections[..s + 1]))
    ensures assignments == AssignmentsFor(d.sections, EntriesOf(d.sections[..s + 1]))
  {
    hide LineAt, SectionEntries, LastTo, LastOf, SectionStart, GoodBody, TablesFor, AssignmentsFor, EntriesTo, HasLine;
    var ss := d.sections;
    assert GoodSection(ss[s]);
    EntriesToEnd(ss, s);
    NextSection(ss, s);
    LastToEnd(ss, s);
    assert ss[..s + 1][..s] == ss[..s];
    ForConcat(ss, EntriesOf(ss[..s]), SectionEntries(s, ss[s]));
    SectionTables(ss, s, ss[s]);
    if s > 0 {
      HasALine(ss, s);
    }
  }

  lemma HasALine(ss: seq<Section>, s: nat)
    requires s < |ss| && ss[s].head.Some? && GoodBody(ss[s].body)
    ensures HasLine(ss, s)
  {
  }

  lemma SectionStarted(d: Document, s: nat, at: nat, tables: seq<TableAt>, assignments: seq<AssignmentAt>)
    requires WellFormed(d) && s < |d.sections| && at == SectionStart(d.sections, s)
    requires tables == TablesFor(d.sections, EntriesOf(d.sections[..s]))
    requires assignments == AssignmentsFor(d.sections, EntriesOf(d.sections[..s]))
    ensures var sec := d.sections[s];
            ScannedTo(d.sections, s, 0, at + |sec.lead| + |HeadText(sec.head)|,
              if sec.head.Some? then
                tables + [TableAt(sec.head.value.path, sec.head.value.isArray,
                                  at + |sec.lead| + |sec.head.value.open| + |sec.head.value.key|)]
              else tables, assignments)
  {
    hide SectionStart, LineAt, EntriesOf, HeadText, TablesFor, AssignmentsFor, EntriesTo, TableFor;
    var ss := d.sections;
    LineAtStart(ss, s);
    EntriesToStart(ss, s);
    ForConcat(ss, EntriesOf(ss[..s]), HeadEntries(s, ss[s].head));
    NoneForNone(ss);
    if ss[s].head.Some? {
      ForOne(ss, Table(s, ss[s].head.value.path, ss[s].head.value.isArray));
      assert AssignmentsFor(ss, HeadEntries(s, ss[s].head)) == [];
    }
  }

  /** Every table and every key of a document, with where they are. */
  method ScanDocument(d: Document) returns (tables: seq<TableAt>, assignments: seq<AssignmentAt>)
    requires WellFormed(d)
    ensures tables == TablesFor(d.sections, Entries(d))
    ensures assignments == AssignmentsFor(d.sections, Entries(d))
  {
    hide ScannedTo, TablesFor, AssignmentsFor, EntriesOf, SectionStart, GoodSection, SectionEnds;
    tables, assignments := [], [];
    var at: nat := 0;
    assert d.sections[..0] == [];
    NothingScanned(d.sections);
    for s := 0 to |d.sections|
      invariant at == SectionStart(d.sections, s)
      invariant tables == TablesFor(d.sections, EntriesOf(d.sections[..s]))
      invariant assignments == AssignmentsFor(d.sections, EntriesOf(d.sections[..s]))
    {
      var sec := d.sections[s];
      SectionStarted(d, s, at, tables, assignments);
      TablesCount(d.sections, d.sections[..s]);
      at := at + |sec.lead|;
      if sec.head.Some? {
        tables := tables +
          [TableAt(sec.head.value.path, sec.head.value.isArray, at + |sec.head.value.open| + |sec.head.value.key|)];
      }
      at := at + |HeadText(sec.head)|;
      for k := 0 to |sec.body|
        invariant ScannedTo(d.sections, s, k, at, tables, assignments)
      {
        GoodLineAt(d, s, k);
        at, tables, assignments := ScanLine(d, s, k, at, tables, assignments);
      }
      SectionScanned(d, s, at, tables, assignments);
    }
    assert d.sections[..|d.sections|] == d.sections;
  }

  lemma NothingScanned(ss: seq<Section>)
    ensures SectionStart(ss, 0) == 0 && EntriesOf([]) == []
    ensures AssignmentsFor(ss, []) == [] && TablesFor(ss, []) == []
  {
    assert ss[..0] == [];
  }
}
