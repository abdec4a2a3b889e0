/** The pass that sets keys (daemon/config/edit.go), from the scanned arrays to the bytes. */
module ConfigSetter {
  import opened Bytes
  import opened Splice
  import opened Toml
  import opened TomlKeys
  import opened ConfigPlace
  import opened ConfigEdit
  import opened ConfigForm
  import opened ConfigBatch
  import opened ConfigFold
  import opened ConfigSame
  import opened ConfigText
  import opened ConfigRender
  import opened ConfigScan
  import opened ConfigDocument
  import opened ConfigLocate
  import opened ConfigSetAll

  /** Paths that a map keyed by their parts joined can tell apart. */
  ghost predicate Tellable(d: Document, edits: seq<Edit>) {
    && NulFreeKeys(Entries(d))
    && forall i :: 0 <= i < |edits| ==> NulFree(edits[i].path)
  }

  // ---------- one edit a path ----------

  /** The map says where each path's edit is. */
  predicate SeenIs(seen: map<Text, nat>, unique: seq<Edit>) {
    && (forall i :: 0 <= i < |unique| ==> unique[i].path != [])
    && (forall i :: 0 <= i < |unique| ==> Id(unique[i].path) in seen && seen[Id(unique[i].path)] == i)
    && (forall id :: id in seen ==> seen[id] < |unique| && Id(unique[seen[id]].path) == id)
  }

  lemma {:induction false} EditIsAt(edits: seq<Edit>, i: nat)
    requires Distinct(edits) && i < |edits|
    ensures EditOf(edits, edits[i].path) == Some(i)
    decreases |edits|
  {
    if i < |edits| - 1 {
      EditIsAt(edits[..|edits| - 1], i);
    }
  }

  lemma SeenFinds(seen: map<Text, nat>, unique: seq<Edit>, path: Path)
    requires SeenIs(seen, unique) && Distinct(unique) && path != [] && NulFree(path)
    requires forall i :: 0 <= i < |unique| ==> NulFree(unique[i].path)
    ensures Id(path) in seen <==> EditOf(unique, path).Some?
    ensures Id(path) in seen ==> EditOf(unique, path) == Some(seen[Id(path)])
  {
    hide Id, NulFree;
    if Id(path) in seen {
      SameId(unique[seen[Id(path)]].path, path);
      EditIsAt(unique, seen[Id(path)]);
    }
  }

  method CheckEdit(d: Document, tables: seq<TableAt>, assignments: seq<AssignmentAt>, e: Edit, lib: Library)
    returns (fault: Option<Fault>)
    requires WellFormed(d)
    requires tables == TablesFor(d.sections, Entries(d)) && assignments == AssignmentsFor(d.sections, Entries(d))
    ensures fault == FaultOf(d, e, lib)
  {
    hide Reachable, WellFormed, EntriesOf, TablesFor, AssignmentsFor, OneValue;
    if |e.path| < 2 {
      return Some(NoSection);
    }
    if !OneValue(e.literal, lib.isValue) {
      return Some(BadValue);
    }
    ReachableIs(d, e.path);
    var ok := ReachableIn(tables, assignments, e.path);
    return if ok then None else Some(InsideValue);
  }

  method NoteEdit(seen: map<Text, nat>, unique: seq<Edit>, e: Edit) returns (seen': map<Text, nat>, unique': seq<Edit>)
    requires SeenIs(seen, unique) && Distinct(unique) && e.path != [] && NulFree(e.path)
    requires forall i :: 0 <= i < |unique| ==> NulFree(unique[i].path)
    ensures SeenIs(seen', unique') && forall i :: 0 <= i < |unique'| ==> NulFree(unique'[i].path)
    ensures var i := EditOf(unique, e.path); unique' == if i.Some? then unique[i.value := e] else unique + [e]
  {
    hide Id, NulFree, Distinct;
    seen', unique' := seen, unique;
    SeenFinds(seen, unique, e.path);
    if Id(e.path) in seen {
      unique' := unique[seen[Id(e.path)] := e];
    } else {
      seen' := seen[Id(e.path) := |unique|];
      unique' := unique + [e];
    }
  }

  /** Checks each edit, and makes those of one path one. */
  method Collect(d: Document, tables: seq<TableAt>, assignments: seq<AssignmentAt>, edits: seq<Edit>, lib: Library)
    returns (fault: Option<Fault>, unique: seq<Edit>)
    requires WellFormed(d) && Tellable(d, edits)
    requires tables == TablesFor(d.sections, Entries(d)) && assignments == AssignmentsFor(d.sections, Entries(d))
    ensures fault == FirstFault(d, edits, lib)
    ensures fault.None? ==> unique == Unique(edits)
  {
    hide WellFormed, EntriesOf, TablesFor, AssignmentsFor, NulFree, SeenIs, FaultOf, EditOf, NulFreeKeys;
    unique := [];
    var seen: map<Text, nat> := map[];
    assert SeenIs(seen, unique) by { NothingSeen(); }
    for i := 0 to |edits|
      invariant FirstFault(d, edits[..i], lib).None?
      invariant unique == Unique(edits[..i])
      invariant SeenIs(seen, unique)
      invariant forall j :: 0 <= j < |unique| ==> NulFree(unique[j].path)
    {
      var e := edits[i];
      assert edits[..i + 1][..i] == edits[..i];
      UniqueIsGood(edits[..i]);
      fault := CheckEdit(d, tables, assignments, e, lib);
      if fault.Some? {
        FaultStays(d, edits, i + 1, lib);
        return;
      }
      assert e.path != [] by { NoFaultHasPath(d, e, lib); }
      seen, unique := NoteEdit(seen, unique, e);
    }
    assert edits[..|edits|] == edits;
    fault := None;
  }

  lemma NothingSeen()
    ensures SeenIs(map[], [])
  {
  }

  lemma NoFaultHasPath(d: Document, e: Edit, lib: Library)
    requires FaultOf(d, e, lib).None?
    ensures GoodEdit(e) && e.path != []
  {
  }

  lemma {:induction false} FaultStays(d: Document, edits: seq<Edit>, i: nat, lib: Library)
    requires i <= |edits| && FirstFault(d, edits[..i], lib).Some?
    ensures FirstFault(d, edits, lib) == FirstFault(d, edits[..i], lib)
    decreases |edits|
  {
    hide FaultOf;
    if i == |edits| {
      assert edits[..i] == edits;
    } else {
      assert edits[..|edits| - 1][..i] == edits[..i];
      FaultStays(d, edits[..|edits| - 1], i, lib);
    }
  }

  // ---------- the plan, in bytes ----------

  function HeaderLine(table: Path, st: Style): Text {
    "[" + FormatPath(table, st.removes) + "]"
  }

  function LinesFor(edits: seq<Edit>, st: Style): (r: seq<Text>)
    requires forall i :: 0 <= i < |edits| ==> edits[i].path != []
    ensures |r| == |edits|
  {
    seq(|edits|, i requires 0 <= i < |edits| => LineFor(edits[i], |edits[i].path| - 1, st))
  }

  /** The tables to start, by the text of their headers, and the lines under each. */
  ghost predicate TablesAre(names: seq<Text>, lines: map<Text, seq<Text>>, groups: seq<Group>, st: Style) {
    && |names| == |groups|
    && (forall g :: 0 <= g < |groups| ==>
         && GroupFits(groups[g]) && groups[g].table != []
         && names[g] == HeaderLine(groups[g].table, st)
         && names[g] in lines && lines[names[g]] == LinesFor(groups[g].edits, st))
    && (forall h :: h in lines ==> h in names)
    && (forall g, h :: 0 <= g < h < |groups| ==> groups[g].table != groups[h].table)
  }

  lemma SameHeader(a: Path, b: Path, st: Style)
    requires a != [] && b != []
    ensures HeaderLine(a, st) == HeaderLine(b, st) <==> a == b
  {
    hide FormatPath;
    if HeaderLine(a, st) == HeaderLine(b, st) {
      var x, y := FormatPath(a, st.removes), FormatPath(b, st.removes);
      assert HeaderLine(a, st)[1..|HeaderLine(a, st)| - 1] == x;
      assert HeaderLine(b, st)[1..|HeaderLine(b, st)| - 1] == y;
      SpelledAlike(a, b, st.removes);
    }
  }

  lemma {:induction false} GroupIsAt(groups: seq<Group>, g: nat)
    requires g < |groups| && forall i, j :: 0 <= i < j < |groups| ==> groups[i].table != groups[j].table
    ensures GroupOf(groups, groups[g].table) == Some(g)
    decreases |groups|
  {
    if g < |groups| - 1 {
      GroupIsAt(groups[..|groups| - 1], g);
    }
  }

  /** A header is in the map exactly when the plan has started the table. */
  lemma StartedIs(names: seq<Text>, lines: map<Text, seq<Text>>, groups: seq<Group>, table: Path, st: Style)
    requires TablesAre(names, lines, groups, st) && table != []
    ensures HeaderLine(table, st) in lines <==> GroupOf(groups, table).Some?
  {
    hide HeaderLine, LinesFor, GroupFits;
    var h := HeaderLine(table, st);
    if h in lines {
      var g :| 0 <= g < |names| && names[g] == h;
      SameHeader(groups[g].table, table, st);
    }
  }

  method StartOrJoin(names: seq<Text>, lines: map<Text, seq<Text>>, ghost groups: seq<Group>, e: Edit, st: Style)
    returns (names': seq<Text>, lines': map<Text, seq<Text>>)
    requires TablesAre(names, lines, groups, st) && |e.path| >= 2
    ensures TablesAre(names', lines', NextGroups(groups, e), st)
  {
    hide FormatPath, FormatKey;
    names', lines' := names, lines;
    var parent := Parent(e.path);
    var header := "[" + FormatPath(parent, st.removes) + "]";
    var line := FormatKey(e.path[|e.path| - 1], st.removes) + " = " + e.literal;
    LeafSpelled(e.path, st.removes);
    StartedIs(names, lines, groups, parent, st);
    if header !in lines {
      names' := names + [header];
      lines' := lines[header := []];
    }
    lines' := lines'[header := lines'[header] + [line]];
    GroupsGrow(names, lines, groups, e, line, st);
  }

  function NextGroups(groups: seq<Group>, e: Edit): seq<Group>
    requires e.path != []
  {
    var g := GroupOf(groups, Parent(e.path));
    if g.Some? then groups[g.value := groups[g.value].(edits := groups[g.value].edits + [e])]
    else groups + [Group(Parent(e.path), [e])]
  }

  lemma LinesGrow(edits: seq<Edit>, e: Edit, st: Style)
    requires e.path != [] && forall i :: 0 <= i < |edits| ==> edits[i].path != []
    ensures LinesFor(edits + [e], st) == LinesFor(edits, st) + [LineFor(e, |e.path| - 1, st)]
  {
    hide LineFor;
  }

  lemma GroupsGrow(
    names: seq<Text>, lines: map<Text, seq<Text>>, groups: seq<Group>, e: Edit, line: Text, st: Style)
    requires TablesAre(names, lines, groups, st) && |e.path| >= 2 && line == LineFor(e, |e.path| - 1, st)
    ensures var header := HeaderLine(Parent(e.path), st);
            if header in lines then
              TablesAre(names, lines[header := lines[header] + [line]], NextGroups(groups, e), st)
            else TablesAre(names + [header], lines[header := [line]], NextGroups(groups, e), st)
  {
    hide HeaderLine, LineFor, LinesFor;
    var parent := Parent(e.path);
    var header, g := HeaderLine(parent, st), GroupOf(groups, parent);
    StartedIs(names, lines, groups, parent, st);
    forall i | 0 <= i < |groups|
      ensures names[i] == header <==> groups[i].table == parent
    {
      SameHeader(groups[i].table, parent, st);
    }
    if g.Some? {
      LinesGrow(groups[g.value].edits, e, st);
      GroupIsAt(groups, g.value);
    } else {
      LinesGrow([], e, st);
      assert [] + [e] == [e] && LinesFor([], st) + [line] == [line] by { NoLinesFor(st); }
    }
  }

  lemma NoLinesFor(st: Style)
    ensures LinesFor([], st) == []
  {
  }

  lemma SpanNext(ps: seq<Piece>, cs: seq<Planned>, c: Planned)
    requires Has(ps, c.spot) && forall x :: x in cs ==> Has(ps, x.spot)
    ensures AtSpans(ps, cs + [c]) == AtSpans(ps, cs) + [AtSpan(ps, c)]
  {
    assert (cs + [c])[..|cs|] == cs;
  }

  /** Where the plan's changes are, in bytes. */
  ghost predicate ChangesAre(d: Document, changes: seq<Change>, puts: seq<(Where, Edit)>, st: Style) {
    && Placed(puts)
    && (forall c :: c in AllPlanned(puts, st) ==> Has(Pieces(d), c.spot))
    && changes == AtSpans(Pieces(d), AllPlanned(puts, st))
  }

  lemma ChangeIsPut(
    d: Document, changes: seq<Change>, puts: seq<(Where, Edit)>, w: Where, e: Edit, c: Change, st: Style)
    requires ChangesAre(d, changes, puts, st) && PlaceIn(d, w, e.path) && !w.NewTable?
    requires Has(Pieces(d), PlannedFor((w, e), st).spot) && c == AtSpan(Pieces(d), PlannedFor((w, e), st))
    ensures ChangesAre(d, changes + [c], puts + [(w, e)], st)
  {
    hide Pieces, LineFor, Has, AtSpan;
    LastPut(puts, (w, e));
    SpanNext(Pieces(d), AllPlanned(puts, st), PlannedFor((w, e), st));
  }

  /** The change each edit makes to the text it was planned against, and the tables some of them need. */
  method MakePlan(
    d: Document, tables: seq<TableAt>, assignments: seq<AssignmentAt>, unique: seq<Edit>, st: Style)
    returns (changes: seq<Change>, names: seq<Text>, lines: map<Text, seq<Text>>)
    requires WellFormed(d) && Tellable(d, unique) && GoodEdits(unique)
    requires tables == TablesFor(d.sections, Entries(d)) && assignments == AssignmentsFor(d.sections, Entries(d))
    ensures ChangesAre(d, changes, PlanAll(Entries(d), unique).puts, st)
    ensures TablesAre(names, lines, PlanAll(Entries(d), unique).groups, st)
  {
    hide WellFormed, EntriesOf, TablesFor, AssignmentsFor, NulFree, Id, ChangesAre, TablesAre, Decide, Indexed,
         LineFor, AssignmentFor, BodyEnd, FormatPath, Pieces, Has;
    PathsAreKept(d.sections, Entries(d));
    var index := Index(assignments);
    changes, names, lines := [], [], map[];
    ghost var plan := Plan([], []);
    NothingYet(d, st);
    PiecesApart(d);
    for i := 0 to |unique|
      invariant plan == PlanAll(Entries(d), unique[..i])
      invariant ChangesAre(d, changes, plan.puts, st)
      invariant TablesAre(names, lines, plan.groups, st)
    {
      var e := unique[i];
      assert unique[..i + 1][..i] == unique[..i];
      IndexFinds(d.sections, Entries(d), e.path);
      ghost var w := Decide(Entries(d), e.path);
      DecidedIsIn(d, e.path);
      DecideMeans(Entries(d), e.path);
      if Id(e.path) in index {
        var a := index[Id(e.path)];
        ValueFound(d, e, a, st);
        ChangeIsPut(d, changes, plan.puts, w, e, Change(a.valueStart, a.exprEnd, e.literal), st);
        changes := changes + [Change(a.valueStart, a.exprEnd, e.literal)];
      } else {
        var found, at, line := Place(d, tables, assignments, e, st);
        if found {
          PlaceFound(d, e, w, at, line, st);
          ChangeIsPut(d, changes, plan.puts, w, e, Change(at, at, line), st);
          changes := changes + [Change(at, at, line)];
        } else {
          names, lines := StartOrJoin(names, lines, plan.groups, e, st);
        }
      }
      plan := PlanNext(Entries(d), plan, e);
    }
    assert unique[..|unique|] == unique;
  }

  lemma NothingYet(d: Document, st: Style)
    ensures ChangesAre(d, [], [], st) && TablesAre([], map[], [], st)
  {
  }

  lemma ValueFound(d: Document, e: Edit, a: AssignmentAt, st: Style)
    requires WellFormed(d) && Apart(Pieces(d)) && |e.path| >= 2 && FirstSet(Entries(d), e.path).Some?
    requires a == AssignmentFor(d.sections, FirstSet(Entries(d), e.path).value)
    ensures var w := Decide(Entries(d), e.path);
            && w.Replace?
            && Has(Pieces(d), PlannedFor((w, e), st).spot)
            && AtSpan(Pieces(d), PlannedFor((w, e), st)) == Change(a.valueStart, a.exprEnd, e.literal)
  {
    hide WellFormed, EntriesOf, Decide, Pieces, Has, ExprStart;
    var x := FirstSet(Entries(d), e.path).value;
    SetMeans(Entries(d), e.path);
    EntriesSay(d.sections, x);
    ValueIsAt(d, x.section, x.line);
  }

  lemma PlaceFound(d: Document, e: Edit, w: Where, at: nat, line: Text, st: Style)
    requires Apart(Pieces(d)) && w.Into? && PlaceIn(d, w, e.path)
    requires at == BodyEnd(d.sections, w.section) && line == LineFor(e, w.base, st)
    ensures Has(Pieces(d), PlannedFor((w, e), st).spot)
    ensures AtSpan(Pieces(d), PlannedFor((w, e), st)) == Change(at, at, line)
  {
    hide Pieces, Has, BodyEnd, LineFor;
    EndIsAt(d, w.section);
  }

  // ---------- new tables ----------

  lemma {:induction false} GroupText(edits: seq<Edit>, st: Style)
    requires forall i :: 0 <= i < |edits| ==> edits[i].path != []
    ensures BodyText(GroupLines(edits, st)) == Joined(LinesFor(edits, st), st.nl)
    decreases |edits|
  {
    hide LineFor, NewLine, LineText;
    if edits != [] {
      var ds, e := edits[..|edits| - 1], edits[|edits| - 1];
      assert edits == ds + [e];
      GroupText(ds, st);
      GroupLinesNext(ds, e, st);
      LinesGrow(ds, e, st);
      var lines, texts := GroupLines(edits, st), LinesFor(edits, st);
      assert lines[..|ds|] == GroupLines(ds, st) && texts[..|ds|] == LinesFor(ds, st);
      NewLineText(e, |e.path| - 1, st);
    }
  }

  /** Each text on a line of its own. */
  function Joined(texts: seq<Text>, nl: Text): Text {
    if texts == [] then "" else Joined(texts[..|texts| - 1], nl) + (texts[|texts| - 1] + nl)
  }

  method AddTable(out: Text, name: Text, texts: seq<Text>, nl: Text) returns (r: Text)
    ensures r == out + (name + nl) + Joined(texts, nl)
  {
    r := out + (name + nl);
    for i := 0 to |texts|
      invariant r == out + (name + nl) + Joined(texts[..i], nl)
    {
      assert texts[..i + 1][..i] == texts[..i];
      Regrouped(out + (name + nl), Joined(texts[..i], nl), texts[i] + nl);
      r := r + (texts[i] + nl);
    }
    assert texts[..|texts|] == texts;
  }

  method AddTables(out: Text, names: seq<Text>, lines: map<Text, seq<Text>>, ghost groups: seq<Group>, st: Style)
    returns (r: Text)
    requires TablesAre(names, lines, groups, st) && GroupsFit(groups) && GoodStyle(st)
    ensures r == WithTables(out, groups, st)
  {
    hide LinesFor, HeaderLine, AllWhite, TableText, Joined, GroupFits;
    r := out;
    for g := 0 to |names|
      invariant r == WithTables(out, groups[..g], st)
    {
      assert groups[..g + 1][..g] == groups[..g];
      ghost var was := r;
      if r != "" && r[|r| - 1] != '\n' {
        r := r + st.nl;
      }
      assert r == Ended(was, st.nl);
      WhiteEnded(was, st);
      var gap := if AllWhite(r) then "" else st.nl;
      TableTextIs(groups[g], st);
      ghost var before := r + gap;
      Regrouped(before, names[g] + st.nl, Joined(lines[names[g]], st.nl));
      r := AddTable(r + gap, names[g], lines[names[g]], st.nl);
    }
    assert groups[..|names|] == groups;
  }

  lemma WhiteEnded(t: Text, st: Style)
    ensures GoodStyle(st) ==> AllWhite(Ended(t, st.nl)) == AllWhite(t)
  {
    var e := Ended(t, st.nl);
    if GoodStyle(st) && AllWhite(e) {
      assert forall i :: 0 <= i < |t| ==> t[i] == e[i];
    }
  }

  lemma TableTextIs(g: Group, st: Style)
    requires GroupFits(g)
    ensures TableText(g, st) == (HeaderLine(g.table, st) + st.nl) + Joined(LinesFor(g.edits, st), st.nl)
  {
    hide FormatPath, GroupLines, LinesFor, BodyText;
    GroupText(g.edits, st);
    var p := FormatPath(g.table, st.removes);
    assert HeadText(Some(NewHeader(g.table, st))) == "[" + p + "]" + st.nl;
  }

  // ---------- and all of it ----------

  /** Sets every key, or says why not and writes nothing. */
  method SetAll(d: Document, edits: seq<Edit>, lib: Library) returns (fault: Option<Fault>, out: Text)
    requires WellFormed(d) && Tellable(d, edits)
    ensures match SetAllOf(d, edits, lib)
            case Done(r) => fault.None? && out == Render(r)
            case Fail(f) => fault == Some(f)
  {
    hide WellFormed, Valid, EntriesOf, TablesFor, AssignmentsFor, FirstFault, Unique, PlanAll, PlannedDocument, Render,
         NulFreeKeys, NulFree, ChangesAre, TablesAre, WithTables, GoodEdits, Made, SortStable, SoundPuts, GoodGroups;
    out := "";
    if !Valid(Entries(d), lib.arrays) {
      return Some(NotToml), "";
    }
    var tables, assignments := ScanDocument(d);
    var unique;
    fault, unique := Collect(d, tables, assignments, edits, lib);
    if fault.Some? {
      return;
    }
    PlanIsReady(d, edits, lib);
    assert Tellable(d, unique) by { UniqueIsTellable(d, edits); }
    var st := StyleOf(d, lib);
    var changes, names, lines := MakePlan(d, tables, assignments, unique, st);
    ghost var plan := PlanAll(Entries(d), unique);
    var sorted := SortStable(changes);
    assert Distinct(unique) by { UniqueIsGood(edits); }
    PassIsRendered(d, unique, changes, st);
    var ok;
    ok, out := MakeChanges(Render(d), sorted, st.nl);
    if !ok {
      return Some(Overlapping), "";
    }
    out := AddTables(out, names, lines, plan.groups, st);
    PlannedText(d, unique, plan.groups, st);
    // The library reads the result back as the document it was rendered from.
    if !Valid(Entries(PlannedDocument(d, PlanAll(Entries(d), unique), st)), lib.arrays) {
      return Some(Broken), "";
    }
    return None, out;
  }

  lemma UniqueIsTellable(d: Document, edits: seq<Edit>)
    requires Tellable(d, edits)
    ensures Tellable(d, Unique(edits))
  {
    hide NulFree, NulFreeKeys;
    UniqueIsGood(edits);
    forall i | 0 <= i < |Unique(edits)|
      ensures NulFree(Unique(edits)[i].path)
    {
      assert Unique(edits)[i] in edits;
    }
  }

  /** The changes never overlap, and making them in one pass renders what they were planned for. */
  lemma PassIsRendered(d: Document, unique: seq<Edit>, changes: seq<Change>, st: Style)
    requires WellFormed(d) && GoodEdits(unique) && Distinct(unique) && GoodStyle(st)
    requires ChangesAre(d, changes, PlanAll(Entries(d), unique).puts, st)
    ensures var m := Made(Render(d), SortStable(changes), st.nl);
            && m.Some? && m.value.1 <= |Render(d)|
            && m.value.0 + Render(d)[m.value.1..] ==
                 Render(FilledDocument(d, PlanAll(Entries(d), unique).puts, st))
    ensures forall c :: c in SortStable(changes) ==> c.start <= c.end <= |Render(d)|
  {
    hide WellFormed, EntriesOf, PlanAll, Made, SortStable, Filled, Pieces, Apart, OnceEach, AllPlanned, AtSpans,
         Render;
    PiecesApart(d);
    PiecesText(d);
    FilledIsRendered(d, unique, st);
    var puts := PlanAll(Entries(d), unique).puts;
    PassFillsSlots(Pieces(d), AllPlanned(puts, st), st.nl);
    SpansAreWithin(Pieces(d), AllPlanned(puts, st));
  }

  lemma {:induction false} SortKeeps(cs: seq<Change>)
    ensures forall c :: c in SortStable(cs) <==> c in cs
  {
    if cs != [] {
      var most, last := cs[..|cs| - 1], cs[|cs| - 1];
      SortKeeps(most);
      var before, after := SortStable(most), SortStable(cs);
      forall c
        ensures c in after <==> c in before || c == last
      {
        InsertHas(before, last, c);
      }
      assert forall c :: c in cs <==> c in most || c == last;
    }
  }

  lemma {:induction false} InsertHas(cs: seq<Change>, c: Change, x: Change)
    ensures x in InsertAfter(cs, c) <==> x in cs || x == c
  {
    if cs != [] && cs[|cs| - 1].start > c.start {
      InsertHas(cs[..|cs| - 1], c, x);
      assert cs == cs[..|cs| - 1] + [cs[|cs| - 1]];
    }
  }

  lemma SpanIsWithin(ps: seq<Piece>, c: Planned)
    requires Has(ps, c.spot)
    ensures AtSpan(ps, c).end <= |TextOf(ps)|
  {
    hide TextOf, OffsetOf, WidthOf;
    var i := SpotIndex(ps, c.spot);
    TextOfPrefix(ps, i + 1);
    assert ps[..i + 1] == ps[..i] + [ps[i]];
    TextOfConcat(ps[..i], [ps[i]]);
    TextOfOne(ps[i]);
  }

  lemma {:induction false} AllWithin(ps: seq<Piece>, cs: seq<Planned>)
    requires forall c :: c in cs ==> Has(ps, c.spot)
    ensures forall x :: x in AtSpans(ps, cs) ==> x.start <= x.end <= |TextOf(ps)|
  {
    hide Has, TextOf, AtSpan;
    if cs != [] {
      AllWithin(ps, cs[..|cs| - 1]);
      SpanIsWithin(ps, cs[|cs| - 1]);
      SpanIsForward(ps, cs[|cs| - 1]);
    }
  }

  lemma SpanIsForward(ps: seq<Piece>, c: Planned)
    requires Has(ps, c.spot)
    ensures AtSpan(ps, c).start <= AtSpan(ps, c).end
  {
    hide Has, OffsetOf, WidthOf;
  }

  lemma SpansAreWithin(ps: seq<Piece>, cs: seq<Planned>)
    requires forall c :: c in cs ==> Has(ps, c.spot)
    ensures forall x :: x in SortStable(AtSpans(ps, cs)) ==> x.start <= x.end <= |TextOf(ps)|
  {
    hide AtSpans, SortStable, TextOf, Has;
    AllWithin(ps, cs);
    SortKeeps(AtSpans(ps, cs));
  }
}
