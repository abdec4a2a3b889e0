/** The loops of export, import and merge (daemon/config/inspect.go), against what each comes to. */
module ConfigMerger {
  import opened Bytes
  import opened Splice
  import opened Toml
  import opened TomlKeys
  import opened ConfigPlace
  import opened ConfigEdit
  import opened ConfigForm
  import opened ConfigScan
  import opened ConfigDocument
  import opened ConfigSetAll
  import opened ConfigSetter
  import opened ConfigUnset
  import opened ConfigPruned
  import opened ConfigCuts
  import opened ConfigInspect
  import opened ConfigImport
  import opened ConfigMerge

  // ---------- what a scan says of the keys ----------

  lemma {:induction false} ScanIsSettings(ss: seq<Section>, es: seq<Entry>)
    ensures |AssignmentsFor(ss, es)| == |Settings(es)|
    ensures forall i :: 0 <= i < |Settings(es)| ==> AssignmentsFor(ss, es)[i] == AssignmentFor(ss, Settings(es)[i])
    decreases |es|
  {
    hide AssignmentFor;
    if es != [] {
      ScanIsSettings(ss, es[..|es| - 1]);
    }
  }

  /** The bytes of a value, where the scan says it is. */
  lemma ValueText(d: Document, s: nat, k: nat)
    requires IsKey(d.sections, s, k)
    ensures ValueStart(d.sections, s, k) <= ExprEnd(d.sections, s, k) <= |Render(d)|
    ensures Render(d)[ValueStart(d.sections, s, k)..ExprEnd(d.sections, s, k)] == d.sections[s].body[k].value
  {
    hide SectionsText, BodyText, HeadText, LineText;
    var ss := d.sections;
    var sec, l := ss[s], ss[s].body[k];
    var more := SectionsTextSplit(ss, s);
    var rest := BodyTextSplit(sec.body, k);
    LineFrameHere(l);
    var before := SectionsText(ss[..s]) + (sec.lead + HeadText(sec.head)) + BodyText(sec.body[..k]) +
                  (l.lead + l.key + l.eq);
    var after := l.tail + rest + more + d.ending;
    assert Render(d) == before + l.value + after;
    assert |before| == ValueStart(ss, s, k);
  }

  lemma ScannedValue(d: Document, x: Entry)
    requires x in Entries(d) && x.Setting?
    ensures var a := AssignmentFor(d.sections, x);
            && a.path == x.path && a.compound == LineOf(d, x).compound
            && a.valueStart <= a.exprEnd <= |Render(d)|
            && Render(d)[a.valueStart..a.exprEnd] == LineOf(d, x).value
  {
    hide EntriesOf, Render, ValueStart, ExprStart, ExprEnd;
    EntriesSay(d.sections, x);
    ValueText(d, x.section, x.line);
  }

  /** What a document sets under a section, by path. */
  method Under(d: Document, assignments: seq<AssignmentAt>, section: string) returns (out: map<Text, Text>)
    requires NulFreeKeys(Entries(d)) && assignments == AssignmentsFor(d.sections, Entries(d))
    ensures forall path: Path :: path != [] && NulFree(path) && path[0] == section ==>
              Was(d, path) == if Id(path) in out then Some(out[Id(path)]) else None
  {
    hide EntriesOf, Render, AssignmentFor, AssignmentsFor, NulFree, Id, Settings, LineOf;
    ghost var xs := Settings(Entries(d));
    ScanIsSettings(d.sections, Entries(d));
    out := map[];
    for i := 0 to |assignments|
      invariant forall path: Path :: path != [] && NulFree(path) && path[0] == section ==>
                  match LastSet(xs[..i], path)
                  case Some(x) => Id(path) in out && out[Id(path)] == LineOf(d, x).value
                  case None => Id(path) !in out
    {
      assert xs[i] in xs && assignments[i] == AssignmentFor(d.sections, xs[i]);
      assert xs[..i + 1][..i] == xs[..i];
      var a := assignments[i];
      ScannedValue(d, xs[i]);
      if a.path[0] == section {
        IdsDiffer(a.path);
        out := out[Id(a.path) := Render(d)[a.valueStart..a.exprEnd]];
      }
    }
    assert xs[..|xs|] == xs;
  }

  lemma IdsDiffer(a: Path)
    requires a != [] && NulFree(a)
    ensures forall p: Path :: p != [] && NulFree(p) ==> (Id(p) == Id(a) <==> p == a)
  {
    hide NulFree, Id;
    forall p: Path | p != [] && NulFree(p)
      ensures Id(p) == Id(a) <==> p == a
    {
      SameId(p, a);
    }
  }

  method IsInArray(d: Document, tables: seq<TableAt>, path: Path) returns (inside: bool)
    requires tables == TablesFor(d.sections, Entries(d))
    ensures inside <==> InArray(Entries(d), path)
  {
    hide EntriesOf, TablesFor, LastOf;
    for i := 0 to |tables|
      invariant forall t :: t in tables[..i] && t.isArray ==> !IsPrefix(t.path, path)
    {
      if tables[i].isArray && IsPrefix(tables[i].path, path) {
        ScannedTables(d.sections, Entries(d), tables[i]);
        return true;
      }
    }
    if InArray(Entries(d), path) {
      ghost var e :| e in Entries(d) && e.Table? && e.isArray && IsPrefix(e.path, path);
      ScannedTables(d.sections, Entries(d), TableFor(d.sections, e));
    }
    return false;
  }

  /** What carrying the section over writes, what it cannot, and which of the section's paths the owner's file sets. */
  method CollectOwn(b: Document, o: Document, was: map<Text, Text>, section: string, lib: Library)
    returns (edits: seq<Edit>, skipped: seq<Path>, now: set<Text>)
    requires WellFormed(o) && NulFreeKeys(Entries(o))
    requires forall path: Path :: path != [] && NulFree(path) && path[0] == section ==>
               Was(b, path) == if Id(path) in was then Some(was[Id(path)]) else None
    ensures Carry(edits, skipped) == Carried'(b, o, section, lib)
    ensures forall path: Path :: path != [] && NulFree(path) && path[0] == section ==>
              (Id(path) in now <==> FirstSet(Entries(o), path).Some?)
  {
    hide EntriesOf, Render, AssignmentFor, AssignmentsFor, TablesFor, NulFree, Id, Settings, LineOf, InArray, OneValue,
         Was, WellFormed;
    var tables, assignments := ScanDocument(o);
    ghost var xs := Settings(Entries(o));
    ScanIsSettings(o.sections, Entries(o));
    edits, skipped, now := [], [], {};
    for i := 0 to |assignments|
      invariant Carry(edits, skipped) == CarryOf(b, o, xs[..i], section, lib)
      invariant forall path: Path :: path != [] && NulFree(path) && path[0] == section ==>
                  (Id(path) in now <==> LastSet(xs[..i], path).Some?)
    {
      assert xs[i] in xs && assignments[i] == AssignmentFor(o.sections, xs[i]);
      assert xs[..i + 1][..i] == xs[..i];
      var a := assignments[i];
      ScannedValue(o, xs[i]);
      if a.path[0] == section {
        IdsDiffer(a.path);
        now := now + {Id(a.path)};
        var literal := Render(o)[a.valueStart..a.exprEnd];
        var inside := IsInArray(o, tables, a.path);
        if inside || !OneValue(literal, lib.isValue) {
          skipped := skipped + [a.path];
        } else if !(Id(a.path) in was && was[Id(a.path)] == literal) {
          edits := edits + [Edit(a.path, literal, a.compound)];
        }
      }
    }
    assert xs[..|xs|] == xs;
  }

  /** What the stale copy sets that its owner's file does not. */
  method CollectStale(b: Document, o: Document, assignments: seq<AssignmentAt>, now: set<Text>, section: string)
    returns (gone: seq<Path>)
    requires NulFreeKeys(Entries(b)) && assignments == AssignmentsFor(b.sections, Entries(b))
    requires forall path: Path :: path != [] && NulFree(path) && path[0] == section ==>
               (Id(path) in now <==> FirstSet(Entries(o), path).Some?)
    ensures gone == Stale(b, o, section)
    ensures forall p :: p in gone ==> p != [] && NulFree(p)
  {
    hide EntriesOf, Render, AssignmentFor, AssignmentsFor, NulFree, Id, Settings, LineOf, FirstSet;
    ghost var xs := Settings(Entries(b));
    ScanIsSettings(b.sections, Entries(b));
    gone := [];
    for i := 0 to |assignments|
      invariant gone == StaleOf(xs[..i], Entries(o), section)
      invariant forall p :: p in gone ==> p != [] && NulFree(p)
    {
      assert xs[i] in xs && assignments[i] == AssignmentFor(b.sections, xs[i]);
      assert xs[..i + 1][..i] == xs[..i];
      var a := assignments[i];
      ScannedValue(b, xs[i]);
      if a.path[0] == section && Id(a.path) !in now {
        gone := gone + [a.path];
      }
    }
    assert xs[..|xs|] == xs;
  }

  // ---------- the merge ----------

  ghost predicate NulFreeNames(names: seq<Name>) {
    forall i :: 0 <= i < |names| ==> NulFree(PathOf(names[i]))
  }

  lemma EditsAreTellable(b: File, o: File, names: seq<Name>, section: string, lib: Library)
    requires NulFreeKeys(Entries(b.document)) && NulFreeKeys(Entries(o.document)) && NulFreeNames(names)
    ensures Tellable(Pruned(b.document, Stale(b.document, o.document, section)),
                     MergeEdits(b, o, names, section, lib))
  {
    hide EntriesOf, NulFree, Pruned, Stale, PlanOfNames, CarryOf, PathOf, Literal, InArray, OneValue, LineOf;
    var stale := Stale(b.document, o.document, section);
    var p, edits := Pruned(b.document, stale), MergeEdits(b, o, names, section, lib);
    forall x | x in Entries(p) && x.Setting?
      ensures x.path != [] && NulFree(x.path)
    {
      var y := CameFrom(b.document, stale, x);
    }
    var changes := PlanOfNames(b, o, names, false).apply;
    AppliesNames(b, o, names, false);
    forall i | 0 <= i < |edits|
      ensures NulFree(edits[i].path)
    {
      if i < |changes| {
        assert changes[i] in changes && changes[i].name in names;
        assert edits[i] == EditFor(changes[i], lib.removes);
      } else {
        var x := CarriesKeys(b.document, o.document, Settings(Entries(o.document)), section, lib, i - |changes|);
      }
    }
  }

  /** Folds the two files into one, or says why not and writes nothing. */
  method MergeClients(b: File, o: File, names: seq<Name>, section: string, lib: Library)
    returns (unread: Option<bool>, fault: Option<Fault>, out: Text, kept: seq<Carried>, skipped: seq<Path>)
    requires WellFormed(b.document) && WellFormed(o.document)
    requires NulFreeKeys(Entries(b.document)) && NulFreeKeys(Entries(o.document)) && NulFreeNames(names)
    ensures match MergeOf(b, o, names, section, lib)
            case Merged(r) => unread.None? && fault.None? && out == Render(r)
            case Unread(base) => unread == Some(base)
            case NotMerged(f) => unread.None? && fault == Some(f)
    ensures unread.None? ==>
              && kept == PlanOfNames(b, o, names, false).kept
              && skipped == Carried'(b.document, o.document, section, lib).skipped
  {
    hide WellFormed, Valid, EntriesOf, TablesFor, AssignmentsFor, NulFree, NulFreeKeys, Render, Stale, Pruned, CarryOf,
         PlanOfNames, SetAllOf, UnsetAllOf, NulFreeNames, Tellable, EditsFor, FirstLocal;
    unread, fault, out, kept, skipped := None, None, "", [], [];
    if !Valid(Entries(b.document), lib.arrays) {
      unread := Some(true);
      return;
    }
    if !Valid(Entries(o.document), lib.arrays) {
      unread := Some(false);
      return;
    }
    var planned := PlanFiles(b, o, names, false, true);
    var plan := planned.plan;
    kept := plan.kept;
    var edits := EditsFor(plan.apply, lib.removes);
    var tables, assignments := ScanDocument(b.document);
    var was := Under(b.document, assignments, section);
    var own, now;
    own, skipped, now := CollectOwn(b.document, o.document, was, section, lib);
    edits := edits + own;
    var gone := CollectStale(b.document, o.document, assignments, now, section);
    assert forall i :: 0 <= i < |gone| ==> gone[i] in gone;
    fault, out := UnsetAll(b.document, gone, lib);
    if fault.Some? {
      return;
    }
    PrunedIsGood(b.document, gone);
    EditsAreTellable(b, o, names, section, lib);
    fault, out := SetAll(Pruned(b.document, gone), edits, lib);
  }

  // ---------- import and export ----------

  /** Takes what the incoming file sets into a file, or says why not and writes nothing. */
  method ImportFile(f: File, want: File, names: seq<Name>, overwrite: bool, lib: Library)
    returns (local: Option<Name>, fault: Option<Fault>, out: Text, plan: ImportPlan)
    requires WellFormed(f.document) && NulFreeKeys(Entries(f.document)) && NulFreeNames(names)
    ensures match PlanImport(f, want, names, overwrite, false)
            case MachineLocal(n) => local == Some(n)
            case Worked(p) =>
              && local.None? && plan == p
              && match ImportInto(f, want, names, overwrite, lib)
                 case Done(r) => fault.None? && out == Render(r)
                 case Fail(e) => fault == Some(e)
  {
    hide WellFormed, EntriesOf, NulFree, NulFreeKeys, Render, PlanOfNames, SetAllOf, FirstLocal, PathOf, Literal;
    local, fault, out, plan := None, None, "", ImportPlan([], []);
    var planned := PlanFiles(f, want, names, overwrite, false);
    if planned.MachineLocal? {
      local := Some(planned.name);
      return;
    }
    plan := planned.plan;
    var edits := EditsFor(plan.apply, lib.removes);
    AppliesNames(f, want, names, overwrite);
    forall i | 0 <= i < |edits|
      ensures NulFree(edits[i].path)
    {
      assert plan.apply[i] in plan.apply && plan.apply[i].name in names;
    }
    fault, out := SetAll(f.document, edits, lib);
  }

  /** The portable settings of a file, as a file of its own. */
  method ExportFile(f: File, names: seq<Name>, lib: Library) returns (fault: Option<Fault>, out: Text)
    requires WellFormed(ExportBase()) && NulFreeNames(names)
    ensures match ExportOf(f, names, lib)
            case Done(r) => fault.None? && out == Render(r)
            case Fail(e) => fault == Some(e)
  {
    hide WellFormed, NulFree, Render, SetAllOf, PathOf, Literal, Wanted, ExportBase;
    var edits: seq<Edit> := [];
    assert EditsFor([], lib.removes) == [];
    for i := 0 to |names|
      invariant edits == EditsFor(ExportChanges(f, names[..i]), lib.removes)
      invariant forall j :: 0 <= j < |edits| ==> NulFree(edits[j].path)
    {
      assert names[..i + 1][..i] == names[..i];
      var n := names[i];
      if n.key.portable && Wanted(f, n).Some? {
        var e := EditFor(Carried(n, Wanted(f, n).value), lib.removes);
        ghost var most := ExportChanges(f, names[..i]);
        assert EditsFor(most + [Carried(n, Wanted(f, n).value)], lib.removes) == edits + [e];
        edits := edits + [e];
      } else {
        assert ExportChanges(f, names[..i + 1]) == ExportChanges(f, names[..i]);
      }
    }
    assert names[..|names|] == names;
    NothingInBase();
    fault, out := SetAll(ExportBase(), edits, lib);
  }

  lemma NothingInBase()
    ensures Entries(ExportBase()) == []
  {
    var d := ExportBase();
    assert d.sections[..0] == [];
    assert BodyEntries(0, [], []) == [];
  }
}
