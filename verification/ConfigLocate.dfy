/** Finding a place in a scanned document (daemon/config/edit.go), and that it is where the plan puts the key. */
module ConfigLocate {
  import opened Bytes
  import opened Splice
  import opened Toml
  import opened TomlKeys
  import opened ConfigPlace
  import opened ConfigEdit
  import opened ConfigForm
  import opened ConfigBatch
  import opened ConfigText
  import opened ConfigRender
  import opened ConfigScan
  import opened ConfigDocument

  // ---------- the searches ----------

  function LastTableIn(tables: seq<TableAt>, table: Path): (r: Option<nat>)
    ensures r.Some? ==> r.value < |tables| && tables[r.value].path == table
  {
    if tables == [] then None
    else if tables[|tables| - 1].path == table then Some(|tables| - 1)
    else LastTableIn(tables[..|tables| - 1], table)
  }

  lemma {:induction false} TableSearch(ss: seq<Section>, es: seq<Entry>, table: Path)
    ensures var i, e := LastTableIn(TablesFor(ss, es), table), LastTable(es, table);
            && (i.Some? <==> e.Some?)
            && (i.Some? ==> TablesFor(ss, es)[i.value] == TableFor(ss, e.value))
  {
    if es != [] {
      TableSearch(ss, es[..|es| - 1], table);
      var ts := TablesFor(ss, es);
      if es[|es| - 1].Table? {
        assert ts[..|ts| - 1] == TablesFor(ss, es[..|es| - 1]);
      } else {
        assert ts == TablesFor(ss, es[..|es| - 1]);
      }
    }
  }

  function BaseIn(tables: seq<TableAt>, a: AssignmentAt): Path {
    if 0 <= a.table < |tables| then tables[a.table].path else []
  }

  predicate SiblingIn(tables: seq<TableAt>, a: AssignmentAt, parent: Path) {
    |parent| < |a.path| && IsPrefix(parent, a.path) && |BaseIn(tables, a)| < |parent|
  }

  function LastSiblingIn(tables: seq<TableAt>, assignments: seq<AssignmentAt>, parent: Path): (r: Option<nat>)
    ensures r.Some? ==> r.value < |assignments| && SiblingIn(tables, assignments[r.value], parent)
  {
    if assignments == [] then None
    else if SiblingIn(tables, assignments[|assignments| - 1], parent) then Some(|assignments| - 1)
    else LastSiblingIn(tables, assignments[..|assignments| - 1], parent)
  }

  lemma {:induction false} SiblingSearch(ss: seq<Section>, tables: seq<TableAt>, es: seq<Entry>, parent: Path)
    requires forall e :: e in es && e.Setting? ==> BaseIn(tables, AssignmentFor(ss, e)) == e.base
    ensures var i, e := LastSiblingIn(tables, AssignmentsFor(ss, es), parent), LastSibling(es, parent);
            && (i.Some? <==> e.Some?)
            && (i.Some? ==> AssignmentsFor(ss, es)[i.value] == AssignmentFor(ss, e.value))
  {
    hide BaseIn, ExprStart, ValueStart, ExprEnd;
    if es != [] {
      SiblingSearch(ss, tables, es[..|es| - 1], parent);
      var as' := AssignmentsFor(ss, es);
      if es[|es| - 1].Setting? {
        assert as'[..|as'| - 1] == AssignmentsFor(ss, es[..|es| - 1]);
      } else {
        assert as' == AssignmentsFor(ss, es[..|es| - 1]);
      }
    }
  }

  /** A key's table is the one at its index. */
  lemma BasesAreTables(d: Document, e: Entry)
    requires WellFormed(d) && e in Entries(d) && e.Setting?
    ensures BaseIn(TablesFor(d.sections, Entries(d)), AssignmentFor(d.sections, e)) == e.base
  {
    hide TablesFor, TableFor, EntriesOf, ExprStart, ValueStart, ExprEnd, GoodSection;
    EntriesSay(d.sections, e);
    TablesCount(d.sections, d.sections);
    if e.section > 0 {
      TablePath(d, e.section);
    }
  }

  lemma TablePath(d: Document, s: nat)
    requires WellFormed(d) && 0 < s < |d.sections|
    ensures d.sections[s].head.Some?
    ensures TableFor(d.sections, Table(s, d.sections[s].head.value.path, d.sections[s].head.value.isArray)).path ==
            BaseOf(d.sections[s])
  {
  }

  // ---------- the root's last key ----------

  function Larger(a: nat, b: nat): nat {
    if a < b then b else a
  }

  function RootLast(assignments: seq<AssignmentAt>, last: nat): nat {
    if assignments == [] then last
    else
      var a, most := assignments[|assignments| - 1], RootLast(assignments[..|assignments| - 1], last);
      if a.table < 0 then Larger(most, a.exprEnd) else most
  }

  lemma {:induction false} RootLastBounds(ss: seq<Section>, es: seq<Entry>, last: nat, bound: nat)
    requires last <= bound
    requires forall e :: e in es && e.Setting? && e.section == 0 ==> AssignmentFor(ss, e).exprEnd <= bound
    ensures last <= RootLast(AssignmentsFor(ss, es), last) <= bound
    ensures forall e :: e in es && e.Setting? && e.section == 0 ==>
              AssignmentFor(ss, e).exprEnd <= RootLast(AssignmentsFor(ss, es), last)
  {
    hide ExprStart, ValueStart, ExprEnd;
    if es != [] {
      RootLastBounds(ss, es[..|es| - 1], last, bound);
      var as' := AssignmentsFor(ss, es);
      if es[|es| - 1].Setting? {
        assert as'[..|as'| - 1] == AssignmentsFor(ss, es[..|es| - 1]);
      } else {
        assert as' == AssignmentsFor(ss, es[..|es| - 1]);
      }
    }
  }

  lemma {:induction false} LaterLine(ss: seq<Section>, s: nat, k: nat, j: nat)
    requires s < |ss| && k <= j <= |ss[s].body|
    ensures LineAt(ss, s, k) <= LineAt(ss, s, j)
    decreases j - k
  {
    hide LineAt;
    if k < j {
      LaterLine(ss, s, k, j - 1);
      LineAtNext(ss, s, j - 1);
    }
  }

  lemma ExprWithinLine(ss: seq<Section>, s: nat, k: nat)
    requires IsKey(ss, s, k)
    ensures LineAt(ss, s, k) <= ExprEnd(ss, s, k) <= LineAt(ss, s, k + 1)
  {
    hide LineAt;
    LineAtNext(ss, s, k);
  }

  lemma RootHasLine(d: Document, e: Entry)
    requires WellFormed(d) && e in Entries(d) && e.Setting? && e.section == 0
    ensures HasLine(d.sections, 0) && e.line < |d.sections[0].body|
    ensures IsKey(d.sections, 0, |d.sections[0].body| - 1)
  {
    assert GoodSection(d.sections[0]);
    EntriesSay(d.sections, e);
  }

  lemma KeyBound(ss: seq<Section>, s: nat, k: nat, n: nat)
    requires IsKey(ss, s, k) && IsKey(ss, s, n) && k <= n
    ensures ExprEnd(ss, s, k) <= ExprEnd(ss, s, n)
  {
    hide LineAt, ExprEnd;
    if k < n {
      ExprWithinLine(ss, s, k);
      ExprWithinLine(ss, s, n);
      LaterLine(ss, s, k + 1, n);
    }
  }

  lemma RootBound(d: Document, f: Entry)
    requires WellFormed(d) && f in Entries(d) && f.Setting? && f.section == 0
    ensures HasLine(d.sections, 0) && AssignmentFor(d.sections, f).exprEnd <= LastOf(d.sections, 0)
    ensures f.line == |d.sections[0].body| - 1 ==> AssignmentFor(d.sections, f).exprEnd == LastOf(d.sections, 0)
  {
    hide LineAt, ExprEnd, EntriesOf, ExprStart, ValueStart, WellFormed;
    RootHasLine(d, f);
    assert IsKey(d.sections, 0, f.line) by { EntriesSay(d.sections, f); }
    KeyBound(d.sections, 0, f.line, |d.sections[0].body| - 1);
  }

  /** The largest end of a key of the root is the end of its last. */
  lemma RootLastIs(d: Document, e: Entry)
    requires WellFormed(d) && e in Entries(d) && e.Setting? && e.section == 0
    ensures HasLine(d.sections, 0)
    ensures RootLast(AssignmentsFor(d.sections, Entries(d)), AssignmentFor(d.sections, e).exprEnd) ==
            LastOf(d.sections, 0)
  {
    hide LineAt, ExprEnd, EntriesOf, LastOf, RootLast, AssignmentsFor, GoodSection;
    var ss := d.sections;
    RootHasLine(d, e);
    var n := |ss[0].body| - 1;
    forall f | f in Entries(d) && f.Setting? && f.section == 0
      ensures AssignmentFor(ss, f).exprEnd <= LastOf(ss, 0)
    {
      RootBound(d, f);
    }
    var last := Setting(0, n, BaseOf(ss[0]), BaseOf(ss[0]) + ss[0].body[n].rel);
    EntriesSay(ss, last);
    RootBound(d, last);
    RootLastBounds(ss, Entries(d), AssignmentFor(ss, e).exprEnd, LastOf(ss, 0));
  }

  // ---------- the place ----------

  /** The first rule: the key's table has a header, and the key goes behind its last. */
  method PlaceInTable(d: Document, tables: seq<TableAt>, parent: Path) returns (found: bool, at: nat)
    requires WellFormed(d) && tables == TablesFor(d.sections, Entries(d))
    ensures found <==> LastTable(Entries(d), parent).Some?
    ensures found ==> var t := LastTable(Entries(d), parent).value;
              t.section < |d.sections| && at == BodyEnd(d.sections, t.section)
  {
    hide TablesFor, EntriesOf, LastOf, BodyEnd, LineEnd, WellFormed, Render;
    TableSearch(d.sections, Entries(d), parent);
    var i := |tables|;
    assert tables[..i] == tables;
    while i > 0
      invariant i <= |tables|
      invariant LastTableIn(tables[..i], parent) == LastTableIn(tables, parent)
    {
      assert tables[..i][..i - 1] == tables[..i - 1];
      i := i - 1;
      if tables[i].path == parent {
        TableLast(d, LastTable(Entries(d), parent).value);
        return true, LineEnd(Render(d), tables[i].last);
      }
    }
    return false, 0;
  }

  /** The end of the last key of a key's own section. */
  method LastBeside(tables: seq<TableAt>, assignments: seq<AssignmentAt>, a: AssignmentAt) returns (last: nat)
    requires a.table < |tables|
    ensures last == if a.table >= 0 then tables[a.table].last else RootLast(assignments, a.exprEnd)
  {
    if a.table >= 0 {
      return tables[a.table].last;
    }
    last := a.exprEnd;
    for k := 0 to |assignments|
      invariant last == RootLast(assignments[..k], a.exprEnd)
    {
      assert assignments[..k + 1][..k] == assignments[..k];
      if assignments[k].table < 0 {
        last := Larger(last, assignments[k].exprEnd);
      }
    }
    assert assignments[..|assignments|] == assignments;
  }

  /** The second: its table is one that dotted keys of a shorter table define, and the key joins those. */
  method PlaceBySibling(d: Document, tables: seq<TableAt>, assignments: seq<AssignmentAt>, parent: Path)
    returns (found: bool, at: nat, base: nat)
    requires WellFormed(d)
    requires tables == TablesFor(d.sections, Entries(d)) && assignments == AssignmentsFor(d.sections, Entries(d))
    ensures found <==> LastSibling(Entries(d), parent).Some?
    ensures found ==> var y := LastSibling(Entries(d), parent).value;
              y.section < |d.sections| && at == BodyEnd(d.sections, y.section) && base == |y.base|
  {
    hide TablesFor, AssignmentsFor, EntriesOf, LastOf, BodyEnd, LineEnd, WellFormed, Render, AssignmentFor, BaseIn;
    forall x | x in Entries(d) && x.Setting?
      ensures BaseIn(tables, AssignmentFor(d.sections, x)) == x.base
    {
      BasesAreTables(d, x);
    }
    SiblingSearch(d.sections, tables, Entries(d), parent);
    hide SiblingIn;
    var j := |assignments|;
    assert assignments[..j] == assignments;
    while j > 0
      invariant j <= |assignments|
      invariant LastSiblingIn(tables, assignments[..j], parent) == LastSiblingIn(tables, assignments, parent)
    {
      assert assignments[..j][..j - 1] == assignments[..j - 1];
      j := j - 1;
      var a := assignments[j];
      if SiblingIn(tables, a, parent) {
        SiblingLast(d, LastSibling(Entries(d), parent).value, tables);
        var last := LastBeside(tables, assignments, a);
        return true, LineEnd(Render(d), last), |BaseIn(tables, a)|;
      }
    }
    return false, 0, 0;
  }

  /** The offset and the text of a new line, or that nothing of its table exists. */
  method Place(d: Document, tables: seq<TableAt>, assignments: seq<AssignmentAt>, e: Edit, st: Style)
    returns (found: bool, at: nat, line: Text)
    requires WellFormed(d) && |e.path| >= 2 && FirstSet(Entries(d), e.path).None?
    requires tables == TablesFor(d.sections, Entries(d)) && assignments == AssignmentsFor(d.sections, Entries(d))
    ensures var w := Decide(Entries(d), e.path);
            && (found <==> w.Into?)
            && (found ==>
                  && PlaceIn(d, w, e.path) && at == BodyEnd(d.sections, w.section)
                  && line == LineFor(e, w.base, st))
  {
    hide TablesFor, AssignmentsFor, EntriesOf, BodyEnd, FormatPath, FormatKey, Decide, WellFormed, Render;
    line := "";
    var parent := Parent(e.path);
    DecideMeans(Entries(d), e.path);
    DecidedIsIn(d, e.path);
    found, at := PlaceInTable(d, tables, parent);
    if found {
      LeafSpelled(e.path, st.removes);
      return true, at, FormatKey(e.path[|e.path| - 1], st.removes) + " = " + e.literal;
    }
    var base;
    found, at, base := PlaceBySibling(d, tables, assignments, parent);
    if found {
      line := FormatPath(e.path[base..], st.removes) + " = " + e.literal;
    }
  }

  lemma LeafSpelled(path: Path, removes: char -> bool)
    requires path != []
    ensures FormatPath(path[|path| - 1..], removes) == FormatKey(path[|path| - 1], removes)
  {
    assert path[|path| - 1..] == [path[|path| - 1]];
  }

  lemma TableLast(d: Document, t: Entry)
    requires WellFormed(d) && t in Entries(d) && t.Table?
    ensures t.section < |d.sections| && TableFor(d.sections, t).last <= |Render(d)|
    ensures LineEnd(Render(d), TableFor(d.sections, t).last) == BodyEnd(d.sections, t.section)
  {
    hide LastOf, BodyEnd, LineEnd, EntriesOf, Render;
    EntriesSay(d.sections, t);
    assert GoodSection(d.sections[t.section]);
    LastLineEnds(d, t.section);
  }

  lemma SiblingLast(d: Document, y: Entry, tables: seq<TableAt>)
    requires WellFormed(d) && y in Entries(d) && y.Setting? && tables == TablesFor(d.sections, Entries(d))
    ensures var a := AssignmentFor(d.sections, y);
            && y.section < |d.sections|
            && BaseIn(tables, a) == y.base
            && (a.table >= 0 <==> y.section > 0)
            && a.table < |tables|
            && var last := if a.table >= 0 then tables[a.table].last
                           else RootLast(AssignmentsFor(d.sections, Entries(d)), a.exprEnd);
               last <= |Render(d)| && LineEnd(Render(d), last) == BodyEnd(d.sections, y.section)
  {
    hide LastOf, BodyEnd, LineEnd, EntriesOf, Render, TablesFor, AssignmentsFor, ExprStart, ValueStart, ExprEnd,
         GoodSection;
    EntriesSay(d.sections, y);
    BasesAreTables(d, y);
    if y.section > 0 {
      TablesCount(d.sections, d.sections);
      var h := d.sections[y.section].head.value;
      var t := Table(y.section, h.path, h.isArray);
      EntriesSay(d.sections, t);
      TableLast(d, t);
    } else {
      RootLastIs(d, y);
      LastLineEnds(d, 0);
    }
  }
}
