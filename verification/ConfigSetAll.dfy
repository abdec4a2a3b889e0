/** Setting any number of keys against one read (daemon/config/edit.go). */
module ConfigSetAll {
  import opened Bytes
  import T = Text
  import opened Splice
  import opened Toml
  import opened TomlKeys
  import opened ConfigPlace
  import opened ConfigEdit
  import opened ConfigForm
  import opened ConfigBatch
  import opened ConfigFold
  import opened ConfigSame
  import opened ConfigText
  import opened ConfigRender
  import opened ConfigScan
  import opened ConfigDocument
  import opened ConfigLocate

  /** What the TOML library decides: the rules of arrays of tables, and what spells a value. */
  datatype Library = Library(arrays: seq<Claim> -> bool, isValue: Text -> bool, removes: char -> bool)

  datatype Fault = NotToml | NoSection | BadValue | InsideValue | Overlapping | Broken

  datatype SetResult = Done(document: Document) | Fail(fault: Fault)

  // ---------- what it comes to ----------

  predicate HasCrLf(t: Text) {
    exists i :: 0 <= i < |t| - 1 && t[i] == '\r' && t[i + 1] == '\n'
  }

  function NewlineOf(t: Text): Text {
    if HasCrLf(t) then "\r\n" else "\n"
  }

  function StyleOf(d: Document, lib: Library): (st: Style)
    ensures GoodStyle(st)
  {
    Style(NewlineOf(Render(d)), lib.removes)
  }

  ghost function FaultOf(d: Document, e: Edit, lib: Library): Option<Fault> {
    if |e.path| < 2 then Some(NoSection)
    else if !OneValue(e.literal, lib.isValue) then Some(BadValue)
    else if !Reachable(d, e.path) then Some(InsideValue)
    else None
  }

  ghost function FirstFault(d: Document, edits: seq<Edit>, lib: Library): Option<Fault> {
    if edits == [] then None
    else
      var before := FirstFault(d, edits[..|edits| - 1], lib);
      if before.Some? then before else FaultOf(d, edits[|edits| - 1], lib)
  }

  function EditOf(edits: seq<Edit>, path: Path): (r: Option<nat>)
    ensures r.Some? ==> r.value < |edits| && edits[r.value].path == path
    ensures r.None? ==> Unedited(edits, path)
  {
    if edits == [] then None
    else if edits[|edits| - 1].path == path then Some(|edits| - 1)
    else EditOf(edits[..|edits| - 1], path)
  }

  /** Two edits of one path are one edit, where the first was and with the later value. */
  function Unique(edits: seq<Edit>): seq<Edit> {
    if edits == [] then []
    else
      var most, e := Unique(edits[..|edits| - 1]), edits[|edits| - 1];
      var i := EditOf(most, e.path);
      if i.Some? then most[i.value := e] else most + [e]
  }

  lemma UneditedNext(edits: seq<Edit>, e: Edit, p: Path)
    ensures Unedited(edits + [e], p) == (Unedited(edits, p) && e.path != p)
  {
    assert (edits + [e])[|edits|] == e;
    assert forall i :: 0 <= i < |edits| ==> (edits + [e])[i] == edits[i];
  }

  lemma UneditedSwap(edits: seq<Edit>, i: nat, e: Edit, p: Path)
    requires i < |edits| && edits[i].path == e.path
    ensures Unedited(edits[i := e], p) == Unedited(edits, p)
    ensures !Unedited(edits, e.path)
  {
    var fs := edits[i := e];
    assert forall j :: 0 <= j < |edits| ==> fs[j].path == edits[j].path;
  }

  lemma {:induction false} UniqueIsGood(edits: seq<Edit>)
    ensures Distinct(Unique(edits))
    ensures forall i :: 0 <= i < |Unique(edits)| ==> Unique(edits)[i] in edits
    ensures forall p :: Unedited(edits, p) == Unedited(Unique(edits), p)
  {
    hide Unedited;
    if edits != [] {
      var ds, e := edits[..|edits| - 1], edits[|edits| - 1];
      UniqueIsGood(ds);
      var most := Unique(ds);
      var i := EditOf(most, e.path);
      assert edits == ds + [e];
      forall p
        ensures Unedited(edits, p) == Unedited(Unique(edits), p)
      {
        UneditedNext(ds, e, p);
        if i.Some? {
          UneditedSwap(most, i.value, e, p);
        } else {
          UneditedNext(most, e, p);
        }
      }
      assert Distinct(Unique(edits)) by {
        DistinctNext(most, e);
      }
    }
  }

  lemma DistinctNext(edits: seq<Edit>, e: Edit)
    requires Distinct(edits)
    ensures var i := EditOf(edits, e.path); Distinct(if i.Some? then edits[i.value := e] else edits + [e])
  {
  }

  lemma {:induction false} NoFaultIsGood(d: Document, edits: seq<Edit>, lib: Library)
    requires FirstFault(d, edits, lib).None?
    ensures GoodEdits(edits)
    ensures forall i :: 0 <= i < |edits| ==> Reachable(d, edits[i].path) && OneValue(edits[i].literal, lib.isValue)
  {
    hide Reachable;
    if edits != [] {
      NoFaultIsGood(d, edits[..|edits| - 1], lib);
    }
  }

  ghost predicate Sound(d: Document, e: Edit, lib: Library) {
    |e.path| >= 2 && OneValue(e.literal, lib.isValue) && Reachable(d, e.path)
  }

  /** What the first unsound edit, number i, is refused for. */
  ghost predicate RefusedFor(d: Document, edits: seq<Edit>, lib: Library, f: Fault, i: nat)
    requires i < |edits|
  {
    var e := edits[i];
    && (forall j :: 0 <= j < i ==> Sound(d, edits[j], lib))
    && match f
       case NoSection => |e.path| < 2
       case BadValue => |e.path| >= 2 && !OneValue(e.literal, lib.isValue)
       case InsideValue => |e.path| >= 2 && OneValue(e.literal, lib.isValue) && !Reachable(d, e.path)
       case _ => false
  }

  /**
   The first edit that is refused decides, and by its own fault: its path is no key of a section, its literal is not one
   value, or its path is inside a value or an array of tables.
   */
  lemma {:induction false} FirstFaultIs(d: Document, edits: seq<Edit>, lib: Library)
    ensures var f := FirstFault(d, edits, lib);
            && (f.None? <==> forall i :: 0 <= i < |edits| ==> Sound(d, edits[i], lib))
            && (f.Some? ==> exists i :: 0 <= i < |edits| && RefusedFor(d, edits, lib, f.value, i))
  {
    hide Reachable, OneValue;
    if edits != [] {
      var n := |edits| - 1;
      FirstFaultIs(d, edits[..n], lib);
      var f := FirstFault(d, edits[..n], lib);
      if f.Some? {
        var i :| 0 <= i < n && RefusedFor(d, edits[..n], lib, f.value, i);
        assert RefusedFor(d, edits, lib, f.value, i);
      } else {
        assert forall i :: 0 <= i < n ==> Sound(d, edits[..n][i], lib);
        var last := FaultOf(d, edits[n], lib);
        assert last.Some? ==> RefusedFor(d, edits, lib, last.value, n);
      }
    }
  }

  lemma UniqueStaysGood(edits: seq<Edit>)
    requires GoodEdits(edits)
    ensures GoodEdits(Unique(edits))
  {
    UniqueIsGood(edits);
    forall i | 0 <= i < |Unique(edits)|
      ensures GoodEdit(Unique(edits)[i])
    {
      assert Unique(edits)[i] in edits;
    }
  }

  /** Every edit planned against the document as it is read, and the result read back once. */
  ghost function SetAllOf(d: Document, edits: seq<Edit>, lib: Library): (r: SetResult)
    requires WellFormed(d)
  {
    if !Valid(Entries(d), lib.arrays) then Fail(NotToml)
    else if FirstFault(d, edits, lib).Some? then Fail(FirstFault(d, edits, lib).value)
    else
      var st, plan := StyleOf(d, lib), PlanOf(d, edits, lib);
      var r := PlannedDocument(d, plan, st);
      if Valid(Entries(r), lib.arrays) then Done(r) else Fail(Broken)
  }

  ghost function PlanOf(d: Document, edits: seq<Edit>, lib: Library): (plan: Plan)
    requires WellFormed(d) && FirstFault(d, edits, lib).None?
    ensures d.sections != [] && BasesFit(plan.puts) && GroupsFit(plan.groups)
  {
    PlanIsReady(d, edits, lib);
    PlanAll(Entries(d), Unique(edits))
  }

  lemma PlanIsReady(d: Document, edits: seq<Edit>, lib: Library)
    requires WellFormed(d) && FirstFault(d, edits, lib).None?
    ensures GoodEdits(Unique(edits)) && (forall e :: e in Unique(edits) ==> e.path != [])
    ensures var plan := PlanAll(Entries(d), Unique(edits));
            && d.sections != [] && BasesFit(plan.puts) && GroupsFit(plan.groups)
            && SoundPuts(d.sections, plan.puts) && GoodGroups(plan.groups)
  {
    hide FirstFault, EntriesOf, WellFormed, PlanAll, Unique;
    NoFaultIsGood(d, edits, lib);
    UniqueStaysGood(edits);
    PlanIsGood(d, Unique(edits));
  }

  /** The tables a plan starts, and the keys it gives them. */
  lemma {:induction false} GroupsAreGood(es: seq<Entry>, edits: seq<Edit>)
    requires GoodEdits(edits)
    ensures GoodGroups(PlanAll(es, edits).groups)
    decreases |edits|
  {
    hide Decide;
    if edits != [] {
      GroupsAreGood(es, edits[..|edits| - 1]);
    }
  }

  lemma GoodGroupsFit(groups: seq<Group>)
    requires GoodGroups(groups)
    ensures GroupsFit(groups)
  {
    forall g | 0 <= g < |groups|
      ensures GroupFits(groups[g])
    {
      assert GoodGroup(groups[g]);
    }
  }

  lemma PlanIsGood(d: Document, edits: seq<Edit>)
    requires WellFormed(d) && GoodEdits(edits)
    ensures var plan := PlanAll(Entries(d), edits);
            d.sections != [] && SoundPuts(d.sections, plan.puts) && GoodGroups(plan.groups) && GroupsFit(plan.groups)
  {
    hide PlanAll, EntriesOf;
    PlanIsPlaced(d, edits);
    GroupsAreGood(Entries(d), edits);
    GoodGroupsFit(PlanAll(Entries(d), edits).groups);
  }

  // ---------- keys of maps ----------

  /** A path as the key of a map: its parts with a character between them that no file holds as itself. */
  function Id(path: Path): Text
    requires path != []
  {
    T.Join(path, '\0')
  }

  predicate NulFree(path: Path) {
    forall p :: p in path ==> '\0' !in p
  }

  lemma SameId(a: Path, b: Path)
    requires a != [] && b != [] && NulFree(a) && NulFree(b)
    ensures Id(a) == Id(b) <==> a == b
  {
    T.SplitJoin(a, '\0');
    T.SplitJoin(b, '\0');
  }

  /** An escape can put that character into a key, and then two paths are taken for one. */
  lemma IdsCollide()
    ensures ["tui", "a\0b"] != ["tui", "a", "b"] && Id(["tui", "a\0b"]) == Id(["tui", "a", "b"])
  {
    assert ["tui", "a\0b"][1..] == ["a\0b"];
    assert ["tui", "a", "b"][1..] == ["a", "b"] && ["a", "b"][1..] == ["b"];
    assert T.Join(["a", "b"], '\0') == "a" + ['\0'] + "b" == "a\0b";
  }

  /** A path is taken for another one, of parts without that character, if and only if it has the character in it. */
  lemma TakenForAnotherIff(path: Path)
    requires path != []
    ensures NulFree(path) <==> forall b: Path :: b != [] && NulFree(b) && Id(b) == Id(path) ==> b == path
  {
    forall b: Path | NulFree(path) && b != [] && NulFree(b) && Id(b) == Id(path)
      ensures b == path
    {
      SameId(path, b);
    }
    T.JoinSplit(Id(path), '\0');
    var b := T.Split(Id(path), '\0');
    assert NulFree(b) && Id(b) == Id(path);
  }

  /** The edit of the path that a map key stands for. */
  function EditById(edits: seq<Edit>, id: Text): (r: Option<nat>)
    requires forall e :: e in edits ==> e.path != []
    ensures r.Some? ==> r.value < |edits| && Id(edits[r.value].path) == id
    ensures r.None? ==> forall i :: 0 <= i < |edits| ==> Id(edits[i].path) != id
  {
    if edits == [] then None
    else if Id(edits[|edits| - 1].path) == id then Some(|edits| - 1)
    else EditById(edits[..|edits| - 1], id)
  }

  /** One edit for each map key: a later one of the same key gives the earlier one its value. */
  function ById(edits: seq<Edit>): (r: seq<Edit>)
    requires forall e :: e in edits ==> e.path != []
    ensures forall e :: e in r ==> e.path != []
    ensures forall i, j :: 0 <= i < j < |r| ==> Id(r[i].path) != Id(r[j].path)
  {
    if edits == [] then []
    else
      var most, e := ById(edits[..|edits| - 1]), edits[|edits| - 1];
      var i := EditById(most, Id(e.path));
      if i.Some? then most[i.value := e.(path := most[i.value].path)] else most + [e]
  }

  predicate NoneTakenForAnother(edits: seq<Edit>)
    requires forall e :: e in edits ==> e.path != []
  {
    forall d, e :: d in edits && e in edits && Id(d.path) == Id(e.path) ==> d.path == e.path
  }

  /** Joined keys keep one edit for each path if and only if they take no path that is edited for another. */
  lemma ByIdIff(edits: seq<Edit>)
    requires forall e :: e in edits ==> e.path != []
    ensures ById(edits) == Unique(edits) <==> NoneTakenForAnother(edits)
  {
    hide Id, ById, Unique;
    if ById(edits) == Unique(edits) {
      forall d, e | d in edits && e in edits && Id(d.path) == Id(e.path)
        ensures d.path == e.path
      {
        var i := StaysEdited(edits, d);
        var j := StaysEdited(edits, e);
      }
    }
    if NoneTakenForAnother(edits) {
      ByIdIsUnique(edits);
    }
  }

  lemma {:induction false} ByIdIsUnique(edits: seq<Edit>)
    requires (forall e :: e in edits ==> e.path != []) && NoneTakenForAnother(edits)
    ensures ById(edits) == Unique(edits)
    decreases |edits|
  {
    hide Id;
    if edits != [] {
      var ds, e := edits[..|edits| - 1], edits[|edits| - 1];
      assert forall d :: d in ds ==> d in edits;
      ByIdIsUnique(ds);
      UniqueIsGood(ds);
      var u := Unique(ds);
      assert e in edits;
      forall k | 0 <= k < |u|
        ensures Id(u[k].path) == Id(e.path) <==> u[k].path == e.path
      {
        assert u[k] in ds;
      }
      SameEdit(u, e.path);
    }
  }

  lemma StaysEdited(edits: seq<Edit>, e: Edit) returns (i: nat)
    requires e in edits
    ensures i < |Unique(edits)| && Unique(edits)[i].path == e.path
  {
    UniqueIsGood(edits);
    var k :| 0 <= k < |edits| && edits[k] == e;
    assert !Unedited(edits, e.path);
    assert !Unedited(Unique(edits), e.path);
    i :| 0 <= i < |Unique(edits)| && Unique(edits)[i].path == e.path;
  }

  lemma {:induction false} SameEdit(edits: seq<Edit>, path: Path)
    requires path != [] && forall e :: e in edits ==> e.path != []
    requires forall k :: 0 <= k < |edits| ==> (Id(edits[k].path) == Id(path) <==> edits[k].path == path)
    ensures EditById(edits, Id(path)) == EditOf(edits, path)
    decreases |edits|
  {
    hide Id;
    if edits != [] {
      SameEdit(edits[..|edits| - 1], path);
    }
  }

  /** The document's keys by path, the first for each. */
  function Indexed(assignments: seq<AssignmentAt>): map<Text, AssignmentAt>
    requires forall a :: a in assignments ==> a.path != []
  {
    if assignments == [] then map[]
    else
      var most, a := Indexed(assignments[..|assignments| - 1]), assignments[|assignments| - 1];
      if Id(a.path) in most then most else most[Id(a.path) := a]
  }

  method Index(assignments: seq<AssignmentAt>) returns (index: map<Text, AssignmentAt>)
    requires forall a :: a in assignments ==> a.path != []
    ensures index == Indexed(assignments)
  {
    index := map[];
    for i := 0 to |assignments|
      invariant index == Indexed(assignments[..i])
    {
      assert assignments[..i + 1][..i] == assignments[..i];
      var a := assignments[i];
      if Id(a.path) !in index {
        index := index[Id(a.path) := a];
      }
    }
    assert assignments[..|assignments|] == assignments;
  }

  ghost predicate NulFreeKeys(es: seq<Entry>) {
    forall e :: e in es && e.Setting? ==> e.path != [] && NulFree(e.path)
  }

  lemma {:induction false} FirstSetNext(es: seq<Entry>, e: Entry, path: Path)
    ensures FirstSet(es + [e], path) ==
            if FirstSet(es, path).Some? then FirstSet(es, path)
            else if e.Setting? && e.path == path then Some(e) else None
  {
    if es == [] {
      assert ([] + [e])[1..] == [];
    } else {
      assert (es + [e])[1..] == es[1..] + [e];
      FirstSetNext(es[1..], e, path);
    }
  }

  lemma {:induction false} PathsAreKept(ss: seq<Section>, es: seq<Entry>)
    requires NulFreeKeys(es)
    ensures forall a :: a in AssignmentsFor(ss, es) ==> a.path != []
  {
    hide ExprStart, ValueStart, ExprEnd;
    if es != [] {
      PathsAreKept(ss, es[..|es| - 1]);
    }
  }

  lemma {:induction false} IndexFinds(ss: seq<Section>, es: seq<Entry>, path: Path)
    requires NulFreeKeys(es) && path != [] && NulFree(path)
    requires forall a :: a in AssignmentsFor(ss, es) ==> a.path != []
    ensures var index := Indexed(AssignmentsFor(ss, es));
            && (Id(path) in index <==> FirstSet(es, path).Some?)
            && (Id(path) in index ==> index[Id(path)] == AssignmentFor(ss, FirstSet(es, path).value))
  {
    hide ExprStart, ValueStart, ExprEnd, NulFree, Id;
    if es != [] {
      var most, e := es[..|es| - 1], es[|es| - 1];
      var as', bs := AssignmentsFor(ss, es), AssignmentsFor(ss, most);
      assert es == most + [e];
      FirstSetNext(most, e, path);
      if e.Setting? {
        assert as'[..|as'| - 1] == bs;
        assert forall a :: a in bs ==> a in as';
        IndexFinds(ss, most, path);
        SameId(e.path, path);
      } else {
        assert as' == bs;
        IndexFinds(ss, most, path);
      }
    }
  }

  // ---------- refusing what a splice cannot reach ----------

  method ReachableIn(tables: seq<TableAt>, assignments: seq<AssignmentAt>, path: Path) returns (ok: bool)
    ensures ok <==>
      && (forall a :: a in assignments && a.compound && IsPrefix(a.path, path) ==> |a.path| >= |path|)
      && (forall t :: t in tables && t.isArray ==> !IsPrefix(t.path, path))
  {
    for i := 0 to |assignments|
      invariant forall a :: a in assignments[..i] && a.compound && IsPrefix(a.path, path) ==> |a.path| >= |path|
    {
      var a := assignments[i];
      if a.compound && IsPrefix(a.path, path) && |a.path| < |path| {
        return false;
      }
    }
    for i := 0 to |tables|
      invariant forall t :: t in tables[..i] && t.isArray ==> !IsPrefix(t.path, path)
    {
      if tables[i].isArray && IsPrefix(tables[i].path, path) {
        return false;
      }
    }
    return true;
  }

  lemma {:induction false} ScannedTables(ss: seq<Section>, es: seq<Entry>, t: TableAt)
    ensures t in TablesFor(ss, es) <==> exists e :: e in es && e.Table? && TableFor(ss, e) == t
  {
    hide LastOf;
    if es != [] {
      ScannedTables(ss, es[..|es| - 1], t);
      assert forall e :: e in es <==> e in es[..|es| - 1] || e == es[|es| - 1];
    }
  }

  lemma {:induction false} ScannedAssignments(ss: seq<Section>, es: seq<Entry>, a: AssignmentAt)
    ensures a in AssignmentsFor(ss, es) <==> exists e :: e in es && e.Setting? && AssignmentFor(ss, e) == a
  {
    hide ExprStart, ValueStart, ExprEnd;
    if es != [] {
      ScannedAssignments(ss, es[..|es| - 1], a);
      assert forall e :: e in es <==> e in es[..|es| - 1] || e == es[|es| - 1];
    }
  }

  lemma ReachableIs(d: Document, path: Path)
    requires WellFormed(d)
    ensures Reachable(d, path) <==>
      && (forall a :: a in AssignmentsFor(d.sections, Entries(d)) && a.compound && IsPrefix(a.path, path) ==>
            |a.path| >= |path|)
      && (forall t :: t in TablesFor(d.sections, Entries(d)) && t.isArray ==> !IsPrefix(t.path, path))
  {
    hide AssignmentsFor, TablesFor, EntriesOf, LastOf, ExprStart, ValueStart, ExprEnd, IsPrefix, WellFormed;
    var ss, es := d.sections, Entries(d);
    forall e | e in es && e.Setting?
      ensures AssignmentFor(ss, e) in AssignmentsFor(ss, es)
      ensures AssignmentFor(ss, e).compound == LineOf(d, e).compound && AssignmentFor(ss, e).path == e.path
    {
      ScannedAssignments(ss, es, AssignmentFor(ss, e));
      EntriesSay(ss, e);
    }
    forall e | e in es && e.Table?
      ensures TableFor(ss, e) in TablesFor(ss, es)
      ensures TableFor(ss, e).isArray == e.isArray && TableFor(ss, e).path == e.path
    {
      ScannedTables(ss, es, TableFor(ss, e));
    }
    forall a | a in AssignmentsFor(ss, es)
      ensures exists e :: e in es && e.Setting? && AssignmentFor(ss, e) == a
    {
      ScannedAssignments(ss, es, a);
    }
    forall t | t in TablesFor(ss, es)
      ensures exists e :: e in es && e.Table? && TableFor(ss, e) == t
    {
      ScannedTables(ss, es, t);
    }
  }
}
