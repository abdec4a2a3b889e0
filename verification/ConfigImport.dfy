/**
 Carrying settings from one file to another (daemon/config/inspect.go): an export holds what a file sets, an import
 takes from a file what another lacks.
 */
module ConfigImport {
  import opened Bytes
  import T = Text
  import opened Splice
  import opened Toml
  import opened TomlKeys
  import opened ConfigPlace
  import opened ConfigEdit
  import opened ConfigForm
  import opened ConfigBatch
  import opened ConfigFold
  import opened ConfigSame
  import opened ConfigText
  import opened ConfigRender
  import opened ConfigScan
  import opened ConfigSetAll
  import opened ConfigReads
  import opened ConfigRepeats
  import opened ConfigOneByOne
  import opened ConfigInspect

  /** A file as the library decodes it: the document, and what it makes of values that are no plain string or number. */
  datatype File = File(document: Document, other: Text -> Raw)

  function Holding(f: File, n: Name): Option<Held> {
    EntryAt(f.document, n, f.other)
  }

  // ---------- the plan of an import ----------

  /** A key an import would write. */
  datatype Carried = Carried(name: Name, to: string)

  datatype ImportPlan = ImportPlan(apply: seq<Carried>, kept: seq<Carried>)

  datatype Import = Worked(plan: ImportPlan) | MachineLocal(name: Name)

  /** What the incoming file has for a name, if that can be taken: an entry that is not a string is skipped. */
  function Wanted(want: File, n: Name): Option<string> {
    var e := Holding(want, n);
    if e.Some? && e.value.Value? && n.inner != Some("") then Some(e.value.text) else None
  }

  /**
   The names are those the incoming file sets, in the order the plan goes through them. What both set alike is left
   alone, and what both set differently is this machine's, unless the import is to overwrite.
   */
  function PlanOfNames(have: File, want: File, names: seq<Name>, overwrite: bool): ImportPlan {
    if names == [] then ImportPlan([], [])
    else
      var p, n := PlanOfNames(have, want, names[..|names| - 1], overwrite), names[|names| - 1];
      var to, now := Wanted(want, n), Holding(have, n);
      if to.None? || now == Some(Value(to.value)) then p
      else if now.Some? && !overwrite then p.(kept := p.kept + [Carried(n, to.value)])
      else p.(apply := p.apply + [Carried(n, to.value)])
  }

  /** A key that stays on its machine stops the import of a file that is not this machine's own. */
  function PlanImport(have: File, want: File, names: seq<Name>, overwrite: bool, own: bool): Import {
    if !own && FirstLocal(want, names).Some? then MachineLocal(FirstLocal(want, names).value)
    else Worked(PlanOfNames(have, want, names, overwrite))
  }

  function FirstLocal(want: File, names: seq<Name>): Option<Name> {
    if names == [] then None
    else
      var before, n := FirstLocal(want, names[..|names| - 1]), names[|names| - 1];
      if before.Some? then before else if Holding(want, n).Some? && !n.key.portable then Some(n) else None
  }

  method PlanFiles(have: File, want: File, names: seq<Name>, overwrite: bool, own: bool) returns (r: Import)
    ensures r == PlanImport(have, want, names, overwrite, own)
  {
    hide Wanted, Holding;
    var plan := ImportPlan([], []);
    for i := 0 to |names|
      invariant plan == PlanOfNames(have, want, names[..i], overwrite)
      invariant !own ==> FirstLocal(want, names[..i]).None?
    {
      assert names[..i + 1][..i] == names[..i];
      var n := names[i];
      if !own && Holding(want, n).Some? && !n.key.portable {
        LocalStays(want, names, i + 1);
        return MachineLocal(n);
      }
      var to, now := Wanted(want, n), Holding(have, n);
      if to.Some? && now != Some(Value(to.value)) {
        if now.Some? && !overwrite {
          plan := plan.(kept := plan.kept + [Carried(n, to.value)]);
        } else {
          plan := plan.(apply := plan.apply + [Carried(n, to.value)]);
        }
      }
    }
    assert names[..|names|] == names;
    return Worked(plan);
  }

  lemma {:induction false} LocalStays(want: File, names: seq<Name>, i: nat)
    requires i <= |names| && FirstLocal(want, names[..i]).Some?
    ensures FirstLocal(want, names) == FirstLocal(want, names[..i])
    decreases |names|
  {
    hide Holding;
    if i == |names| {
      assert names[..i] == names;
    } else {
      var most := names[..|names| - 1];
      assert most[..i] == names[..i];
      LocalStays(want, most, i);
    }
  }

  lemma {:induction false} AppliesNames(have: File, want: File, names: seq<Name>, overwrite: bool)
    ensures forall c :: c in PlanOfNames(have, want, names, overwrite).apply ==> c.name in names
    decreases |names|
  {
    hide Wanted, Holding;
    if names != [] {
      AppliesNames(have, want, names[..|names| - 1], overwrite);
      assert forall m :: m in names[..|names| - 1] ==> m in names;
    }
  }

  /**
   Exactly when an import is stopped, and by what: the file is not this machine's own, and this is the first of the
   names that it sets and whose key stays on its machine.
   */
  lemma StopsIff(have: File, want: File, names: seq<Name>, overwrite: bool, own: bool, n: Name)
    ensures PlanImport(have, want, names, overwrite, own) == MachineLocal(n) <==>
              && !own
              && exists i ::
                   && 0 <= i < |names| && names[i] == n
                   && Holding(want, n).Some? && n.key.portable == false
                   && forall j :: 0 <= j < i ==> Holding(want, names[j]).None? || names[j].key.portable == true
  {
    hide Holding, PlanOfNames;
    FirstLocalIs(want, names);
    var first := FirstLocal(want, names);
    if first.Some? {
      var i :| 0 <= i < |names| && LocalAt(want, names, i) && names[i] == first.value;
      forall k | 0 <= k < |names| && LocalAt(want, names, k)
        ensures k == i
      {
      }
    } else {
      forall i | 0 <= i < |names|
        ensures Holding(want, names[i]).None? || names[i].key.portable
      {
      }
    }
  }

  predicate LocalAt(want: File, names: seq<Name>, i: nat)
    requires i < |names|
  {
    && Holding(want, names[i]).Some? && !names[i].key.portable
    && forall j :: 0 <= j < i ==> Holding(want, names[j]).None? || names[j].key.portable
  }

  lemma {:induction false} FirstLocalIs(want: File, names: seq<Name>)
    ensures FirstLocal(want, names).Some? ==>
              exists i :: 0 <= i < |names| && LocalAt(want, names, i) && names[i] == FirstLocal(want, names).value
    ensures FirstLocal(want, names).None? ==>
              forall i :: 0 <= i < |names| ==> Holding(want, names[i]).None? || names[i].key.portable
    decreases |names|
  {
    hide Holding;
    if names != [] {
      var most, m := names[..|names| - 1], |names| - 1;
      FirstLocalIs(want, most);
      if FirstLocal(want, most).Some? {
        var i :| 0 <= i < |most| && LocalAt(want, most, i) && most[i] == FirstLocal(want, most).value;
        assert LocalAt(want, names, i);
      } else if Holding(want, names[m]).Some? && !names[m].key.portable {
        assert LocalAt(want, names, m);
      }
    }
  }

  /** An import of keys that may go from machine to machine, as every key does so far, is never stopped. */
  lemma PortableKeysAreImported(have: File, want: File, names: seq<Name>, overwrite: bool, own: bool)
    requires forall i :: 0 <= i < |names| ==> GoodName(names[i], Keys)
    ensures PlanImport(have, want, names, overwrite, own) == Worked(PlanOfNames(have, want, names, overwrite))
  {
    hide Holding, PlanOfNames;
    forall i | 0 <= i < |names|
      ensures names[i].key.portable
    {
      EveryKeyIsPortable(names[i].key);
    }
    FirstLocalIs(want, names);
  }

  lemma EveryKeyIsPortable(key: Key)
    requires key in Keys
    ensures key.portable
  {
    var i :| 0 <= i < |Keys| && Keys[i] == key;
    assert i < 9;
  }

  /**
   What a plan lists, both ways: to be written is what the incoming file has and this one has not, or has another value
   for and is to be overwritten; and kept is what both have, differently, when it is not.
   */
  lemma {:induction false} PlanListsIff(
    have: File, want: File, names: seq<Name>, overwrite: bool, n: Name, v: string)
    ensures var plan := PlanOfNames(have, want, names, overwrite);
            var differs := n in names && Wanted(want, n) == Some(v) && Holding(have, n) != Some(Value(v));
            && (Carried(n, v) in plan.kept <==> differs && Holding(have, n).Some? && !overwrite)
            && (Carried(n, v) in plan.apply <==> differs && (Holding(have, n).None? || overwrite))
    decreases |names|
  {
    hide Wanted, Holding;
    if names != [] {
      PlanListsIff(have, want, names[..|names| - 1], overwrite, n, v);
      assert n in names <==> n in names[..|names| - 1] || n == names[|names| - 1];
    }
  }

  // ---------- writing it ----------

  function EditFor(c: Carried, removes: char -> bool): Edit {
    var l := Literal(c.name, c.to, removes);
    Edit(PathOf(c.name), if l.Some? then l.value else "", false)
  }

  function EditsFor(changes: seq<Carried>, removes: char -> bool): (r: seq<Edit>)
    ensures |r| == |changes| && forall i :: 0 <= i < |r| ==> r[i] == EditFor(changes[i], removes)
  {
    seq(|changes|, i requires 0 <= i < |changes| => EditFor(changes[i], removes))
  }

  predicate GoodNames(names: seq<Name>, keys: seq<Key>) {
    && (forall i :: 0 <= i < |names| ==> GoodName(names[i], keys))
    && (forall i, j :: 0 <= i < j < |names| ==> names[i] != names[j])
  }

  /** Changes of some names, one each, to values they accept. */
  ghost predicate GoodChanges(changes: seq<Carried>, names: seq<Name>) {
    && (forall i :: 0 <= i < |changes| ==> changes[i].name in names && Accepts(changes[i].name, changes[i].to))
    && (forall i, j :: 0 <= i < j < |changes| ==> changes[i].name != changes[j].name)
  }

  function ChangeOf(changes: seq<Carried>, n: Name): (r: Option<string>)
    ensures r.Some? ==> exists i :: 0 <= i < |changes| && changes[i] == Carried(n, r.value)
    ensures r.None? ==> forall i :: 0 <= i < |changes| ==> changes[i].name != n
  {
    if changes == [] then None
    else if changes[|changes| - 1].name == n then Some(changes[|changes| - 1].to)
    else ChangeOf(changes[..|changes| - 1], n)
  }

  lemma WantedIsAccepted(want: File, n: Name)
    ensures Wanted(want, n).Some? ==> Accepts(n, Wanted(want, n).value)
  {
    EntryIsAccepted(want.document, n, want.other);
  }

  lemma {:induction false} ImportIsGood(have: File, want: File, names: seq<Name>, overwrite: bool, keys: seq<Key>)
    requires GoodNames(names, keys)
    ensures GoodChanges(PlanOfNames(have, want, names, overwrite).apply, names)
    ensures forall n :: n in names ==>
              var to, now := Wanted(want, n), Holding(have, n);
              ChangeOf(PlanOfNames(have, want, names, overwrite).apply, n) ==
                if to.Some? && now != Some(Value(to.value)) && (now.None? || overwrite) then to else None
    ensures forall n :: n !in names ==> ChangeOf(PlanOfNames(have, want, names, overwrite).apply, n).None?
    decreases |names|
  {
    hide Wanted, Holding, Accepts, GoodName, ChangeOf, GoodChanges;
    if names == [] {
      NoChanges(names);
    } else {
      var most, n := names[..|names| - 1], names[|names| - 1];
      ImportIsGood(have, want, most, overwrite, keys);
      var p := PlanOfNames(have, want, most, overwrite).apply;
      assert n !in most;
      assert forall m :: m in names <==> m in most || m == n;
      assert most + [n] == names;
      GoodStays(p, most, n);
      assert ChangeOf(p, n).None?;
      if Wanted(want, n).Some? {
        WantedIsAccepted(want, n);
        OneMore(p, most, n, Wanted(want, n).value);
      }
    }
  }

  lemma {:induction false} LastEditOf(
    changes: seq<Carried>, names: seq<Name>, keys: seq<Key>, n: Name, removes: char -> bool)
    requires GoodKeys(keys) && GoodNames(names, keys) && GoodChanges(changes, names) && GoodName(n, keys)
    ensures LastEdit(EditsFor(changes, removes), PathOf(n)) ==
            match ChangeOf(changes, n)
            case Some(to) => Some(EditFor(Carried(n, to), removes).literal)
            case None => None
    decreases |changes|
  {
    hide GoodName, Accepts, PathOf, Literal, GoodKeys;
    if changes != [] {
      var m := |changes| - 1;
      LastEditOf(changes[..m], names, keys, n, removes);
      var edits := EditsFor(changes, removes);
      assert edits[..m] == EditsFor(changes[..m], removes);
      assert changes[m].name in names;
      PathsDiffer(changes[m].name, n, keys);
    }
  }

  lemma PathsDiffer(a: Name, b: Name, keys: seq<Key>)
    requires GoodKeys(keys) && GoodName(a, keys) && GoodName(b, keys)
    ensures PathOf(a) == PathOf(b) <==> a == b
    ensures a != b ==> ApartFrom(Edit(PathOf(a), "", false), PathOf(b))
  {
    hide PathOf, GoodKeys, GoodName;
    PrefixOfItself(PathOf(a));
    if IsPrefix(PathOf(a), PathOf(b)) {
      NamesApart(a, b, keys);
    }
    if IsPrefix(PathOf(b), PathOf(a)) {
      NamesApart(b, a, keys);
    }
  }

  /** What a file holds after its changes are written: the new values, and the rest as it was. */
  lemma ChangesRead(
    f: File, changes: seq<Carried>, names: seq<Name>, keys: seq<Key>, lib: Library, n: Name)
    requires WellFormed(f.document) && GoodKeys(keys) && GoodNames(names, keys) && GoodChanges(changes, names)
    requires GoodName(n, keys) && SetAllOf(f.document, EditsFor(changes, lib.removes), lib).Done?
    ensures var r := SetAllOf(f.document, EditsFor(changes, lib.removes), lib).document;
            Holding(File(r, f.other), n) ==
              match ChangeOf(changes, n)
              case Some(to) => Some(Value(to))
              case None => Holding(f, n)
  {
    hide WellFormed, SetAllOf, RawAt, PathOf, GoodKeys, GoodName, Literal, ReadRaw, Seen, Accepts, LastEdit, IsPrefix;
    var edits := EditsFor(changes, lib.removes);
    RawAfter(f.document, edits, lib, PathOf(n), f.other);
    LastEditOf(changes, names, keys, n, lib.removes);
    if ChangeOf(changes, n).Some? {
      var to := ChangeOf(changes, n).value;
      LiteralReads(n, to, lib.removes, f.other);
    } else {
      forall i | 0 <= i < |edits|
        ensures ApartFrom(edits[i], PathOf(n))
      {
        assert changes[i].name in names;
        PathsDiffer(changes[i].name, n, keys);
      }
    }
  }

  // ---------- importing ----------

  /** The file an import leaves, when the plan can be written. */
  ghost function ImportInto(f: File, want: File, names: seq<Name>, overwrite: bool, lib: Library): SetResult
    requires WellFormed(f.document)
  {
    SetAllOf(f.document, EditsFor(PlanOfNames(f, want, names, overwrite).apply, lib.removes), lib)
  }

  /** An import never disturbs a setting that is there, unless it is told to; and what it takes reads as it was sent. */
  lemma ImportReads(
    f: File, want: File, names: seq<Name>, overwrite: bool, keys: seq<Key>, lib: Library, n: Name)
    requires WellFormed(f.document) && GoodKeys(keys) && GoodNames(names, keys) && GoodName(n, keys)
    requires ImportInto(f, want, names, overwrite, lib).Done?
    ensures var r := File(ImportInto(f, want, names, overwrite, lib).document, f.other);
            Holding(r, n) ==
              if n in names && Wanted(want, n).Some? && (Holding(f, n).None? || overwrite)
              then Some(Value(Wanted(want, n).value)) else Holding(f, n)
  {
    hide WellFormed, SetAllOf, GoodKeys, GoodName, GoodNames, GoodChanges, Holding, Wanted, PlanOfNames;
    ImportIsGood(f, want, names, overwrite, keys);
    ChangesRead(f, PlanOfNames(f, want, names, overwrite).apply, names, keys, lib, n);
  }

  lemma {:induction false} NothingLeft(
    have: File, want: File, names: seq<Name>, overwrite: bool)
    requires forall n :: n in names && Wanted(want, n).Some? ==>
               Holding(have, n) == Some(Value(Wanted(want, n).value)) || (Holding(have, n).Some? && !overwrite)
    ensures PlanOfNames(have, want, names, overwrite).apply == []
    decreases |names|
  {
    hide Wanted, Holding;
    if names != [] {
      NothingLeft(have, want, names[..|names| - 1], overwrite);
    }
  }

  /** Importing a file again has nothing to write, and changes no byte, overwriting or not. */
  lemma ImportTwice(f: File, want: File, names: seq<Name>, overwrite: bool, keys: seq<Key>, lib: Library)
    requires WellFormed(f.document) && GoodKeys(keys) && GoodNames(names, keys)
    requires ImportInto(f, want, names, overwrite, lib).Done?
    ensures var r := File(ImportInto(f, want, names, overwrite, lib).document, f.other);
            && WellFormed(r.document)
            && PlanOfNames(r, want, names, overwrite).apply == []
            && ImportInto(r, want, names, overwrite, lib) == Done(r.document)
  {
    hide SetAllOf, GoodKeys, GoodName, Holding, Wanted, PlanOfNames, WellFormed, EditsFor;
    var r := File(ImportInto(f, want, names, overwrite, lib).document, f.other);
    forall n | n in names
      ensures Wanted(want, n).Some? ==>
        Holding(r, n) == Some(Value(Wanted(want, n).value)) || (Holding(r, n).Some? && !overwrite)
    {
      ImportReads(f, want, names, overwrite, keys, lib, n);
    }
    NothingLeft(r, want, names, overwrite);
    SetAllKeepsForm(f.document, EditsFor(PlanOfNames(f, want, names, overwrite).apply, lib.removes), lib);
    DoneIsValid(f.document, EditsFor(PlanOfNames(f, want, names, overwrite).apply, lib.removes), lib);
    NoEdits(r.document, lib);
    assert EditsFor([], lib.removes) == [];
  }

  lemma DoneIsValid(d: Document, edits: seq<Edit>, lib: Library)
    requires WellFormed(d) && SetAllOf(d, edits, lib).Done?
    ensures Valid(Entries(SetAllOf(d, edits, lib).document), lib.arrays)
  {
    hide WellFormed, Valid, FirstFault, PlannedDocument;
  }

  /** Setting nothing leaves a valid file as it is. */
  lemma NoEdits(d: Document, lib: Library)
    requires WellFormed(d) && Valid(Entries(d), lib.arrays)
    ensures SetAllOf(d, [], lib) == Done(d)
  {
    hide Valid, WellFormed, EntriesOf, Render;
    NothingToDo(d, StyleOf(d, lib));
    assert Unique([]) == [];
    assert PlanOf(d, [], lib) == Plan([], []);
  }

  // ---------- exporting ----------

  const ExportHeader: Text :=
    "# Exported by `norite config export`. Merge it into another machine's config with\n" +
    "# `norite config import <this file>`, which shows what it would change before changing it.\n"

  function ExportBase(): Document {
    Document([Section("", None, [])], ExportHeader)
  }

  function ExportChanges(f: File, names: seq<Name>): seq<Carried> {
    if names == [] then []
    else
      var n := names[|names| - 1];
      ExportChanges(f, names[..|names| - 1]) +
      (if n.key.portable && Wanted(f, n).Some? then [Carried(n, Wanted(f, n).value)] else [])
  }

  ghost function ExportOf(f: File, names: seq<Name>, lib: Library): SetResult
    requires WellFormed(ExportBase())
  {
    SetAllOf(ExportBase(), EditsFor(ExportChanges(f, names), lib.removes), lib)
  }

  /** The library takes a string and a number for values, and a file with no arrays for what it is. */
  ghost predicate TakesValues(lib: Library) {
    && lib.arrays([])
    && (forall s :: lib.isValue(BasicString(s, lib.removes)))
    && (forall n :: lib.isValue(T.Decimal(n)))
  }

  lemma BaseIsGood(lib: Library)
    requires TakesValues(lib)
    ensures WellFormed(ExportBase()) && Entries(ExportBase()) == [] && Valid([], lib.arrays)
  {
    var d := ExportBase();
    assert GoodSection(d.sections[0]);
    assert d.sections[..0] == [];
    assert BodyEntries(0, [], []) == [];
    assert ArrayPart([], []) == [];
  }

  lemma {:induction false} ExportIsGood(f: File, names: seq<Name>, keys: seq<Key>)
    requires GoodNames(names, keys)
    ensures GoodChanges(ExportChanges(f, names), names)
    ensures forall n :: n in names ==>
              ChangeOf(ExportChanges(f, names), n) == if n.key.portable then Wanted(f, n) else None
    ensures forall n :: n !in names ==> ChangeOf(ExportChanges(f, names), n).None?
    decreases |names|
  {
    hide Wanted, Accepts, GoodName, ChangeOf, GoodChanges;
    if names == [] {
      NoChanges(names);
    } else {
      var most, n := names[..|names| - 1], names[|names| - 1];
      ExportIsGood(f, most, keys);
      var p := ExportChanges(f, most);
      assert n !in most;
      assert forall m :: m in names <==> m in most || m == n;
      assert most + [n] == names;
      GoodStays(p, most, n);
      assert ChangeOf(p, n).None?;
      assert ExportChanges(f, names) ==
             p + (if n.key.portable && Wanted(f, n).Some? then [Carried(n, Wanted(f, n).value)] else []);
      if n.key.portable && Wanted(f, n).Some? {
        WantedIsAccepted(f, n);
        OneMore(p, most, n, Wanted(f, n).value);
      } else {
        assert p + [] == p;
      }
    }
  }

  lemma NoChanges(names: seq<Name>)
    ensures GoodChanges([], names) && forall n :: ChangeOf([], n).None?
  {
  }

  lemma GoodStays(changes: seq<Carried>, most: seq<Name>, n: Name)
    requires GoodChanges(changes, most)
    ensures GoodChanges(changes, most + [n])
  {
    hide Accepts;
    assert forall m :: m in most ==> m in most + [n];
  }

  lemma OneMore(changes: seq<Carried>, most: seq<Name>, n: Name, to: string)
    requires GoodChanges(changes, most) && n !in most && Accepts(n, to)
    ensures GoodChanges(changes + [Carried(n, to)], most + [n])
    ensures forall m :: ChangeOf(changes + [Carried(n, to)], m) == if m == n then Some(to) else ChangeOf(changes, m)
  {
    hide Accepts;
    var all := changes + [Carried(n, to)];
    assert all[..|all| - 1] == changes;
    GoodStays(changes, most, n);
    assert forall i :: 0 <= i < |changes| ==> all[i] == changes[i] && changes[i].name in most;
  }

  lemma LiteralIsTaken(n: Name, v: string, lib: Library)
    requires TakesValues(lib) && Accepts(n, v)
    ensures OneValue(EditFor(Carried(n, v), lib.removes).literal, lib.isValue)
  {
    hide BasicString, ReadRaw, Seen;
    LiteralReads(n, v, lib.removes, (t: Text) => ROther);
    LiteralIsOneLine(n, v, lib.removes);
  }

  lemma PathHasParts(n: Name, keys: seq<Key>)
    requires GoodName(n, keys)
    ensures |PathOf(n)| >= 2
  {
  }

  /** Nothing stands in the way of an export: whatever the values, it is written. */
  lemma ExportSucceeds(f: File, names: seq<Name>, keys: seq<Key>, lib: Library)
    requires GoodKeys(keys) && GoodNames(names, keys) && TakesValues(lib)
    ensures WellFormed(ExportBase()) && ExportOf(f, names, lib).Done?
  {
    hide WellFormed, SetAllOf, GoodKeys, GoodName, PathOf, Literal, Accepts, IsPrefix, TakesValues, ExportBase,
         OneValue, Valid, FirstFault, EntriesOf;
    BaseIsGood(lib);
    ExportIsGood(f, names, keys);
    var d, changes := ExportBase(), ExportChanges(f, names);
    var edits := EditsFor(changes, lib.removes);
    forall i | 0 <= i < |edits|
      ensures FaultOf(d, edits[i], lib).None?
      ensures Settable(d, edits[i].path)
    {
      assert changes[i].name in names;
      LiteralIsTaken(changes[i].name, changes[i].to, lib);
      PathHasParts(changes[i].name, keys);
    }
    NoneRefused(d, edits, lib);
    forall i, j | 0 <= i < |edits| && 0 <= j < |edits| && IsPrefix(edits[i].path, edits[j].path)
      ensures edits[i].path == edits[j].path
    {
      assert changes[i].name in names && changes[j].name in names;
      NamesApart(changes[i].name, changes[j].name, keys);
    }
    SucceedsIff(d, edits, lib);
  }

  lemma {:induction false} NoneRefused(d: Document, edits: seq<Edit>, lib: Library)
    requires forall i :: 0 <= i < |edits| ==> FaultOf(d, edits[i], lib).None?
    ensures FirstFault(d, edits, lib).None?
    decreases |edits|
  {
    hide FaultOf;
    if edits != [] {
      NoneRefused(d, edits[..|edits| - 1], lib);
    }
  }

  /**
   Export and inspect: the exported file holds exactly the portable settings that were gone through, each as it was,
   and nothing else.
   */
  lemma ExportRoundTrip(f: File, names: seq<Name>, keys: seq<Key>, lib: Library, n: Name)
    requires GoodKeys(keys) && GoodNames(names, keys) && TakesValues(lib) && GoodName(n, keys)
    ensures WellFormed(ExportBase()) && ExportOf(f, names, lib).Done?
    ensures var r := File(ExportOf(f, names, lib).document, f.other);
            Holding(r, n) ==
              if n in names && n.key.portable && Wanted(f, n).Some? then Some(Value(Wanted(f, n).value)) else None
  {
    hide WellFormed, SetAllOf, GoodKeys, GoodName, PathOf, TakesValues, GoodChanges, GoodNames, Wanted, EntriesOf,
         Valid;
    BaseIsGood(lib);
    ExportSucceeds(f, names, keys, lib);
    ExportIsGood(f, names, keys);
    ChangesRead(File(ExportBase(), f.other), ExportChanges(f, names), names, keys, lib, n);
    EmptyHoldsNothing(ExportBase(), n, f.other);
  }

  lemma EmptyHoldsNothing(d: Document, n: Name, other: Text -> Raw)
    requires Entries(d) == []
    ensures EntryAt(d, n, other).None?
  {
  }
}
