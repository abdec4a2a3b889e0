/**
 Making one config file of two clients' separate ones (daemon/config/inspect.go): for a client's own section its file
 decides, also about what is no longer set, and for what both share the newer file does.
 */
module ConfigMerge {
  import opened Bytes
  import opened Splice
  import opened Toml
  import opened TomlKeys
  import opened ConfigPlace
  import opened ConfigEdit
  import opened ConfigForm
  import opened ConfigBatch
  import opened ConfigFold
  import opened ConfigSame
  import opened ConfigScan
  import opened ConfigSetAll
  import opened ConfigReads
  import opened ConfigRepeats
  import opened ConfigOneByOne
  import opened ConfigUnset
  import opened ConfigPruned
  import opened ConfigCuts
  import opened ConfigInspect
  import opened ConfigImport

  // ---------- what a merge comes to ----------

  /** A key of a section. */
  predicate Of(e: Entry, section: string) {
    e.Setting? && e.path != [] && e.path[0] == section
  }

  function Settings(es: seq<Entry>): (r: seq<Entry>)
    ensures forall e :: e in r <==> e in es && e.Setting?
  {
    if es == [] then []
    else Settings(es[..|es| - 1]) + (if es[|es| - 1].Setting? then [es[|es| - 1]] else [])
  }

  /** The last key that sets a path: under an array of tables there may be more than one. */
  function LastSet(es: seq<Entry>, path: Path): (r: Option<Entry>)
    ensures r.Some? ==> r.value in es && r.value.Setting? && r.value.path == path
    ensures r.None? ==> forall e :: e in es && e.Setting? ==> e.path != path
  {
    if es == [] then None
    else if es[|es| - 1].Setting? && es[|es| - 1].path == path then Some(es[|es| - 1])
    else LastSet(es[..|es| - 1], path)
  }

  /** What the stale copy has at a path. */
  function Was(d: Document, path: Path): Option<Text> {
    var x := LastSet(Settings(Entries(d)), path);
    if x.Some? then Some(LineOf(d, x.value).value) else None
  }

  /** What carrying a section over writes, and what of it cannot be placed in another file. */
  datatype Carry = Carry(edits: seq<Edit>, skipped: seq<Path>)

  /** Under an array of tables a path is one thing in each element, and a value on more lines than one is no literal. */
  predicate Skips(o: Document, path: Path, literal: Text, lib: Library) {
    InArray(Entries(o), path) || !OneValue(literal, lib.isValue)
  }

  /** Every key of the section, at any depth, as its own file spells it, but those the other file has already. */
  function CarryOf(b: Document, o: Document, es: seq<Entry>, section: string, lib: Library): Carry
    requires forall e :: e in es ==> e in Entries(o) && e.Setting?
  {
    if es == [] then Carry([], [])
    else
      var c, e := CarryOf(b, o, es[..|es| - 1], section, lib), es[|es| - 1];
      var l := LineOf(o, e);
      if !Of(e, section) then c
      else if Skips(o, e.path, l.value, lib) then c.(skipped := c.skipped + [e.path])
      else if Was(b, e.path) == Some(l.value) then c
      else c.(edits := c.edits + [Edit(e.path, l.value, l.compound)])
  }

  function Carried'(b: Document, o: Document, section: string, lib: Library): Carry {
    CarryOf(b, o, Settings(Entries(o)), section, lib)
  }

  /** What the stale copy of a section sets and its owner's file does not. */
  function StaleOf(es: seq<Entry>, os: seq<Entry>, section: string): (r: seq<Path>)
    ensures forall p :: p in r <==> exists e :: e in es && Of(e, section) && e.path == p && FirstSet(os, p).None?
  {
    if es == [] then []
    else
      var e := es[|es| - 1];
      assert forall x :: x in es <==> x in es[..|es| - 1] || x == e;
      StaleOf(es[..|es| - 1], os, section) +
      (if Of(e, section) && FirstSet(os, e.path).None? then [e.path] else [])
  }

  function Stale(b: Document, o: Document, section: string): seq<Path> {
    StaleOf(Settings(Entries(b)), Entries(o), section)
  }

  /** The shared keys only the older file sets, then the other client's section. */
  function MergeEdits(b: File, o: File, names: seq<Name>, section: string, lib: Library): seq<Edit> {
    EditsFor(PlanOfNames(b, o, names, false).apply, lib.removes) +
    Carried'(b.document, o.document, section, lib).edits
  }

  datatype Merge = Merged(document: Document) | Unread(base: bool) | NotMerged(fault: Fault)

  /**
   b is the newer file and o the other, section the one that o's client reads by itself, and names the shared keys that
   o sets. What its owner no longer sets goes first.
   */
  ghost function MergeOf(b: File, o: File, names: seq<Name>, section: string, lib: Library): Merge
    requires WellFormed(b.document) && WellFormed(o.document)
  {
    var stale := Stale(b.document, o.document, section);
    if !Valid(Entries(b.document), lib.arrays) then Unread(true)
    else if !Valid(Entries(o.document), lib.arrays) then Unread(false)
    else if UnsetAllOf(b.document, stale, lib).Fail? then NotMerged(UnsetAllOf(b.document, stale, lib).fault)
    else
      PrunedIsGood(b.document, stale);
      match SetAllOf(Pruned(b.document, stale), MergeEdits(b, o, names, section, lib), lib)
      case Done(d) => Merged(d)
      case Fail(f) => NotMerged(f)
  }

  /** A file that is not TOML stops a merge, and the answer says which it is: the newer one first. */
  lemma UnreadIff(b: File, o: File, names: seq<Name>, section: string, lib: Library)
    requires WellFormed(b.document) && WellFormed(o.document)
    ensures var m := MergeOf(b, o, names, section, lib);
            && (m == Unread(true) <==> !Valid(Entries(b.document), lib.arrays))
            && (m == Unread(false) <==>
                  Valid(Entries(b.document), lib.arrays) && !Valid(Entries(o.document), lib.arrays))
  {
    hide Valid, EntriesOf, WellFormed, SetAllOf, UnsetAllOf, Stale, Pruned, MergeEdits;
  }

  // ---------- what each part says of a path ----------

  /** In a valid file a path outside arrays is set at most once. */
  lemma SetOnce(d: Document, arrays: seq<Claim> -> bool, path: Path)
    requires Valid(Entries(d), arrays) && !InArray(Entries(d), path)
    ensures Was(d, path) == Get(d, path)
  {
    hide InArray, EntriesOf, ArrayPart;
    var x, y := LastSet(Settings(Entries(d)), path), FirstSet(Entries(d), path);
    if x.Some? && y.Some? {
      SamePath(Entries(d), x.value, y.value);
    }
  }

  lemma SetSomehow(d: Document, path: Path)
    ensures Was(d, path).Some? == Get(d, path).Some?
  {
    hide EntriesOf, LineOf;
  }

  lemma SamePath(es: seq<Entry>, x: Entry, y: Entry)
    requires AllPairsOk(es) && x in es && y in es && x.Setting? && y.Setting? && x.path == y.path
    requires !InArray(es, x.path)
    ensures x == y
  {
    hide InArray;
    PairIs(es, x, y);
    PrefixOfItself(x.path);
  }

  /** What the carried keys write at a path, and that what is not placed is listed. */
  lemma {:induction false} CarryWrites(
    b: Document, o: Document, es: seq<Entry>, section: string, lib: Library, path: Path)
    requires AllPairsOk(Entries(o)) && forall e :: e in es ==> e in Entries(o) && e.Setting?
    ensures var c := CarryOf(b, o, es, section, lib);
            var x := LastSet(es, path);
            && LastEdit(c.edits, path) ==
                 (if x.Some? && Of(x.value, section) && !Skips(o, path, LineOf(o, x.value).value, lib)
                       && Was(b, path) != Some(LineOf(o, x.value).value)
                  then Some(LineOf(o, x.value).value) else None)
            && (path in c.skipped <==> x.Some? && Of(x.value, section) && Skips(o, path, LineOf(o, x.value).value, lib))
    decreases |es|
  {
    hide InArray, EntriesOf, Was, Skips, LineOf;
    if es != [] {
      var most, e := es[..|es| - 1], es[|es| - 1];
      CarryWrites(b, o, most, section, lib, path);
      var c, p := CarryOf(b, o, es, section, lib), CarryOf(b, o, most, section, lib);
      if c.edits != p.edits {
        assert c.edits[..|c.edits| - 1] == p.edits;
      }
      if InArray(Entries(o), path) {
        ArraySkips(o, path, lib);
      } else if e.path == path && LastSet(most, path).Some? {
        SamePath(Entries(o), e, LastSet(most, path).value);
      }
    }
  }

  lemma ArraySkips(o: Document, path: Path, lib: Library)
    requires InArray(Entries(o), path)
    ensures forall literal :: Skips(o, path, literal, lib)
  {
  }

  /** Each carried edit is of a key of the section, that the owner's file has. */
  lemma {:induction false} CarriesKeys(b: Document, o: Document, es: seq<Entry>, section: string, lib: Library, i: nat)
    returns (x: Entry)
    requires forall e :: e in es ==> e in Entries(o) && e.Setting?
    requires i < |CarryOf(b, o, es, section, lib).edits|
    ensures x in es && Of(x, section) && !InArray(Entries(o), x.path)
    ensures var e := CarryOf(b, o, es, section, lib).edits[i];
            e == Edit(x.path, LineOf(o, x).value, LineOf(o, x).compound) && OneValue(e.literal, lib.isValue)
    decreases |es|
  {
    hide InArray, EntriesOf, Was, LineOf, OneValue;
    var most := es[..|es| - 1];
    if i < |CarryOf(b, o, most, section, lib).edits| {
      x := CarriesKeys(b, o, most, section, lib, i);
    } else {
      x := es[|es| - 1];
    }
  }

  lemma {:induction false} LastEditConcat(a: seq<Edit>, c: seq<Edit>, path: Path)
    ensures LastEdit(a + c, path) == if LastEdit(c, path).Some? then LastEdit(c, path) else LastEdit(a, path)
    decreases |c|
  {
    if c == [] {
      assert a + c == a;
    } else {
      assert (a + c)[..|a + c| - 1] == a + c[..|c| - 1];
      LastEditConcat(a, c[..|c| - 1], path);
    }
  }

  lemma {:induction false} EditedPath(edits: seq<Edit>, path: Path)
    ensures (forall i :: 0 <= i < |edits| ==> edits[i].path != path) ==> LastEdit(edits, path).None?
  {
    if edits != [] {
      EditedPath(edits[..|edits| - 1], path);
    }
  }

  /** What a merge leaves, path by path. */
  lemma MergeReads(b: File, o: File, names: seq<Name>, section: string, lib: Library, q: Path)
    requires WellFormed(b.document) && WellFormed(o.document)
    requires MergeOf(b, o, names, section, lib).Merged? && !InArray(Entries(b.document), q)
    ensures var edits := MergeEdits(b, o, names, section, lib);
            Get(MergeOf(b, o, names, section, lib).document, q) ==
              if LastEdit(edits, q).Some? then LastEdit(edits, q)
              else if q in Stale(b.document, o.document, section) then None
              else Get(b.document, q)
  {
    hide WellFormed, Valid, EntriesOf, InArray, Stale, MergeEdits, SetAllOf, Get;
    var stale := Stale(b.document, o.document, section);
    PrunedIsGood(b.document, stale);
    ReadsBack(Pruned(b.document, stale), MergeEdits(b, o, names, section, lib), lib, q);
    PrunedReads(b.document, stale, lib.arrays, q);
  }

  // ---------- whose value stays ----------

  predicate SharedNames(names: seq<Name>, section: string) {
    forall i :: 0 <= i < |names| ==> names[i].section != section
  }

  lemma SharedEditsElsewhere(b: File, o: File, names: seq<Name>, section: string, lib: Library, q: Path)
    requires SharedNames(names, section) && q != [] && q[0] == section
    ensures LastEdit(EditsFor(PlanOfNames(b, o, names, false).apply, lib.removes), q).None?
  {
    hide PlanOfNames, Literal;
    AppliesNames(b, o, names, false);
    var changes := PlanOfNames(b, o, names, false).apply;
    var edits := EditsFor(changes, lib.removes);
    forall i | 0 <= i < |edits|
      ensures edits[i].path != q
    {
      assert changes[i] in changes;
      assert changes[i].name in names;
      assert edits[i].path[0] == changes[i].name.section;
    }
    EditedPath(edits, q);
  }

  /**
   The other client's section is what its own file has, whichever is newer and removals included, but for what cannot
   be placed in another file: that is named, and stays as the newer file has it.
   */
  lemma MergeOwns(b: File, o: File, names: seq<Name>, section: string, lib: Library, q: Path)
    requires WellFormed(b.document) && WellFormed(o.document) && SharedNames(names, section)
    requires MergeOf(b, o, names, section, lib).Merged? && q != [] && q[0] == section
    requires !InArray(Entries(b.document), q)
    ensures var r := MergeOf(b, o, names, section, lib).document;
            var skipped := Carried'(b.document, o.document, section, lib).skipped;
            && Get(r, q) == (if q in skipped then Get(b.document, q) else Get(o.document, q))
            && (q in skipped <==> Get(o.document, q).Some? && Skips(o.document, q, Get(o.document, q).value, lib))
  {
    hide WellFormed, EntriesOf, InArray, MergeOf, PlanOfNames, EditsFor, CarryOf, OneValue, PairOk, ArrayPart,
         Settings, StaleOf, LineOf;
    MergeIsValid(b, o, names, section, lib);
    MergeReads(b, o, names, section, lib, q);
    SharedEditsElsewhere(b, o, names, section, lib, q);
    CarryWrites(b.document, o.document, Settings(Entries(o.document)), section, lib, q);
    LastEditConcat(EditsFor(PlanOfNames(b, o, names, false).apply, lib.removes),
                   Carried'(b.document, o.document, section, lib).edits, q);
    SetOnce(b.document, lib.arrays, q);
    if InArray(Entries(o.document), q) {
      ArraySkips(o.document, q, lib);
      SetSomehow(o.document, q);
    } else {
      SetOnce(o.document, lib.arrays, q);
    }
    StaleIs(b.document, o.document, section, q);
  }

  lemma MergeIsValid(b: File, o: File, names: seq<Name>, section: string, lib: Library)
    requires WellFormed(b.document) && WellFormed(o.document)
    requires MergeOf(b, o, names, section, lib).Merged?
    ensures Valid(Entries(b.document), lib.arrays) && Valid(Entries(o.document), lib.arrays)
  {
    hide WellFormed, Valid, EntriesOf, Stale, MergeEdits, SetAllOf;
  }

  lemma StaleIs(b: Document, o: Document, section: string, q: Path)
    requires q != [] && q[0] == section
    ensures q in Stale(b, o, section) <==> Get(b, q).Some? && Get(o, q).None?
  {
    hide EntriesOf, LineOf;
    var x := FirstSet(Entries(b), q);
    if x.Some? {
      assert x.value in Settings(Entries(b)) && Of(x.value, section);
    }
  }

  lemma StaleIsOfSection(b: Document, o: Document, section: string, q: Path)
    requires q in Stale(b, o, section)
    ensures q != [] && q[0] == section && Get(b, q).Some?
  {
    hide EntriesOf, LineOf;
  }

  /** Every section but the other client's and the shared one is the newer file's, untouched. */
  lemma MergeKeeps(b: File, o: File, names: seq<Name>, section: string, lib: Library, q: Path)
    requires WellFormed(b.document) && WellFormed(o.document)
    requires MergeOf(b, o, names, section, lib).Merged? && !InArray(Entries(b.document), q)
    requires q == [] || (q[0] != section && forall i :: 0 <= i < |names| ==> q[0] != names[i].section)
    ensures Get(MergeOf(b, o, names, section, lib).document, q) == Get(b.document, q)
  {
    hide WellFormed, EntriesOf, InArray, MergeOf, PlanOfNames, Get, CarryOf, OneValue, PairOk, ArrayPart, Stale,
         Literal;
    MergeReads(b, o, names, section, lib, q);
    var changes := PlanOfNames(b, o, names, false).apply;
    AppliesNames(b, o, names, false);
    var edits := MergeEdits(b, o, names, section, lib);
    forall i | 0 <= i < |edits|
      ensures edits[i].path != q
    {
      if i < |changes| {
        assert changes[i] in changes && changes[i].name in names;
        assert edits[i] == EditFor(changes[i], lib.removes);
        assert edits[i].path[0] == changes[i].name.section;
      } else {
        var x := CarriesKeys(b.document, o.document, Settings(Entries(o.document)), section, lib, i - |changes|);
      }
    }
    EditedPath(edits, q);
    if q in Stale(b.document, o.document, section) {
      StaleIsOfSection(b.document, o.document, section, q);
    }
  }

  // ---------- what is left of a file reads as before ----------

  predicate AllApart(paths: seq<Path>, q: Path) {
    forall p :: p in paths ==> !IsPrefix(p, q) && !IsPrefix(q, p)
  }

  lemma KeyStays(d: Document, paths: seq<Path>, s: nat, path: Path)
    ensures (exists x :: x in Entries(Pruned(d, paths)) && x.Setting? && x.section == s && x.path == path) <==>
            path !in paths && exists x :: x in Entries(d) && x.Setting? && x.section == s && x.path == path
  {
    hide EntriesOf, Pruned, Holds;
    HoldsIsEntry(d, s, path);
    HoldsIsEntry(Pruned(d, paths), s, path);
    if l :| Holds(Pruned(d, paths), s, path, l) {
      PrunedHolds(d, paths, s, path, l);
    }
    if l :| path !in paths && Holds(d, s, path, l) {
      PrunedHolds(d, paths, s, path, l);
    }
  }

  lemma EntryStays(d: Document, paths: seq<Path>, x: Entry) returns (y: Entry)
    requires x in Entries(d) && (x.Setting? ==> x.path !in paths)
    ensures y in Entries(Pruned(d, paths)) && y.path == x.path && (y.Setting? <==> x.Setting?)
  {
    hide EntriesOf, Pruned;
    if x.Setting? {
      KeyStays(d, paths, x.section, x.path);
      y :| y in Entries(Pruned(d, paths)) && y.Setting? && y.section == x.section && y.path == x.path;
    } else {
      TablesStay(d, paths, x);
      y := x;
    }
  }

  lemma InsideStays(d: Document, paths: seq<Path>, q: Path)
    requires AllApart(paths, q)
    ensures HasInside(Entries(Pruned(d, paths)), q) == HasInside(Entries(d), q)
  {
    hide EntriesOf, Pruned, IsPrefix;
    var es, fs := Entries(d), Entries(Pruned(d, paths));
    if HasInside(es, q) {
      var x :| x in es && IsPrefix(q, x.path);
      var y := EntryStays(d, paths, x);
    }
    if HasInside(fs, q) {
      var x :| x in fs && IsPrefix(q, x.path);
      var y := CameFrom(d, paths, x);
    }
  }

  /** In a valid file one key is on the way to a path outside arrays, and the value it has is the one read there. */
  lemma OnWayReads(d: Document, arrays: seq<Claim> -> bool, q: Path, x: Entry)
    requires Valid(Entries(d), arrays) && !InArray(Entries(d), q)
    requires x in Entries(d) && x.Setting? && IsPrefix(x.path, q)
    ensures FirstOnWay(Entries(d), q) == Some(x) && Get(d, x.path) == Some(LineOf(d, x).value)
  {
    hide EntriesOf, InArray, ArrayPart, LineOf;
    var es := Entries(d);
    var y, z := FirstOnWay(es, q).value, FirstSet(es, x.path).value;
    NotInArray(es, x.path, q);
    NotInArray(es, y.path, q);
    NestedIsOne(es, x, y, q);
    NestedIsOne(es, x, z, q);
  }

  lemma NestedIsOne(es: seq<Entry>, x: Entry, y: Entry, q: Path)
    requires AllPairsOk(es) && x in es && y in es && x.Setting? && y.Setting? && !InArray(es, q)
    requires IsPrefix(x.path, q) && IsPrefix(y.path, q)
    ensures x == y
  {
    hide InArray;
    NotInArray(es, x.path, q);
    PairIs(es, x, y);
    if |x.path| <= |y.path| {
      PrefixesNest(x.path, y.path, q);
    } else {
      PrefixesNest(y.path, x.path, q);
    }
  }

  /** What two files have on the way to a path. */
  lemma SameRaw(d: Document, r: Document, arrays: seq<Claim> -> bool, q: Path, other: Text -> Raw)
    requires Valid(Entries(d), arrays) && Valid(Entries(r), arrays)
    requires !InArray(Entries(d), q) && !InArray(Entries(r), q)
    requires forall p :: IsPrefix(p, q) ==> Get(r, p) == Get(d, p)
    ensures FirstOnWay(Entries(d), q).Some? <==> FirstOnWay(Entries(r), q).Some?
    ensures FirstOnWay(Entries(d), q).Some? ==> RawAt(r, q, other) == RawAt(d, q, other)
  {
    hide EntriesOf, InArray, LineOf, Valid, ReadRaw, Follow, HasInside, IsPrefix;
    var x, y := FirstOnWay(Entries(d), q), FirstOnWay(Entries(r), q);
    if x.Some? {
      OnWayReads(d, arrays, q, x.value);
      assert Get(r, x.value.path).Some?;
      OnWayReads(r, arrays, q, FirstSet(Entries(r), x.value.path).value);
    } else if y.Some? {
      OnWayReads(r, arrays, q, y.value);
      assert Get(d, y.value.path).Some?;
      OnWayReads(d, arrays, q, FirstSet(Entries(d), y.value.path).value);
    }
  }

  lemma RawPruned(d: Document, paths: seq<Path>, arrays: seq<Claim> -> bool, q: Path, other: Text -> Raw)
    requires Valid(Entries(d), arrays) && (forall p :: p in paths ==> !InArray(Entries(d), p)) && AllApart(paths, q)
    ensures RawAt(Pruned(d, paths), q, other) == RawAt(d, q, other)
  {
    hide EntriesOf, InArray, LineOf, Valid, ReadRaw, Follow, HasInside, IsPrefix, Pruned, Get;
    SameArrays(d, paths, q);
    if !InArray(Entries(d), q) {
      PrunedIsValid(d, paths, arrays);
      InsideStays(d, paths, q);
      forall p | IsPrefix(p, q)
        ensures Get(Pruned(d, paths), p) == Get(d, p)
      {
        NotInArray(Entries(d), p, q);
        PrunedReads(d, paths, arrays, p);
      }
      SameRaw(d, Pruned(d, paths), arrays, q, other);
    }
  }

  lemma StaleIsApart(b: Document, o: Document, section: string, q: Path)
    requires q != [] && q[0] != section
    ensures AllApart(Stale(b, o, section), q)
  {
    hide Stale;
    forall p | p in Stale(b, o, section)
      ensures !IsPrefix(p, q) && !IsPrefix(q, p)
    {
      StaleIsOfSection(b, o, section, p);
      OtherSection(p, q);
    }
  }

  lemma OtherSection(p: Path, q: Path)
    requires p != [] && q != [] && p[0] != q[0]
    ensures !IsPrefix(p, q) && !IsPrefix(q, p)
  {
  }

  lemma StaleIsOutside(b: File, o: File, names: seq<Name>, section: string, lib: Library)
    requires WellFormed(b.document) && WellFormed(o.document)
    requires MergeOf(b, o, names, section, lib).Merged?
    ensures forall p :: p in Stale(b.document, o.document, section) ==> !InArray(Entries(b.document), p)
  {
    hide WellFormed, Valid, EntriesOf, Stale, MergeEdits, SetAllOf, InArray;
  }

  /** A shared setting that one of the files has is in the result; of two that differ, it is the newer file's. */
  lemma MergeShares(
    b: File, o: File, names: seq<Name>, keys: seq<Key>, section: string, lib: Library, n: Name)
    requires WellFormed(b.document) && WellFormed(o.document) && MergeOf(b, o, names, section, lib).Merged?
    requires GoodKeys(keys) && GoodNames(names, keys) && SharedNames(names, section)
    requires GoodName(n, keys) && n.section != section
    ensures var r := File(MergeOf(b, o, names, section, lib).document, b.other);
            Holding(r, n) ==
              if Holding(b, n).None? && n in names && Wanted(o, n).Some? then Some(Value(Wanted(o, n).value))
              else Holding(b, n)
  {
    hide WellFormed, Valid, EntriesOf, InArray, SetAllOf, RawAt, ReadRaw, GoodKeys, GoodName, GoodNames, GoodChanges,
         Literal, Wanted, PlanOfNames, Stale, CarryOf, IsPrefix, Seen, Accepts, LastEdit, MergeOf, PathOf, AllApart;
    var q, stale := PathOf(n), Stale(b.document, o.document, section);
    var changes := PlanOfNames(b, o, names, false).apply;
    var edits := MergeEdits(b, o, names, section, lib);
    MergeIsValid(b, o, names, section, lib);
    StaleIsOutside(b, o, names, section, lib);
    PathStarts(n);
    StaleIsApart(b.document, o.document, section, q);
    RawPruned(b.document, stale, lib.arrays, q, b.other);
    MergeIsSetAll(b, o, names, section, lib);
    RawAfter(Pruned(b.document, stale), edits, lib, q, b.other);
    ImportIsGood(b, o, names, false, keys);
    SharedEditOf(b, o, names, keys, section, lib, n);
    WantedIsAccepted(o, n);
    if ChangeOf(changes, n).Some? {
      LiteralReads(n, ChangeOf(changes, n).value, lib.removes, b.other);
    }
    SameWhenSet(b, o, n);
  }

  lemma SameWhenSet(b: File, o: File, n: Name)
    ensures Wanted(o, n).Some? && Holding(b, n) == Some(Value(Wanted(o, n).value)) ==> Holding(b, n).Some?
  {
  }

  lemma PathStarts(n: Name)
    ensures PathOf(n) != [] && PathOf(n)[0] == n.section
  {
  }

  lemma MergeIsSetAll(b: File, o: File, names: seq<Name>, section: string, lib: Library)
    requires WellFormed(b.document) && WellFormed(o.document)
    requires MergeOf(b, o, names, section, lib).Merged?
    ensures var p := Pruned(b.document, Stale(b.document, o.document, section));
            && WellFormed(p)
            && SetAllOf(p, MergeEdits(b, o, names, section, lib), lib) ==
                 Done(MergeOf(b, o, names, section, lib).document)
  {
    hide WellFormed, Valid, EntriesOf, Stale, MergeEdits, SetAllOf;
    PrunedIsGood(b.document, Stale(b.document, o.document, section));
  }

  /** What a merge writes for a name of another section than the carried one. */
  lemma SharedEditOf(
    b: File, o: File, names: seq<Name>, keys: seq<Key>, section: string, lib: Library, n: Name)
    requires GoodKeys(keys) && GoodNames(names, keys) && GoodName(n, keys) && n.section != section
    ensures var changes := PlanOfNames(b, o, names, false).apply;
            var edits := MergeEdits(b, o, names, section, lib);
            && LastEdit(edits, PathOf(n)) ==
                 (match ChangeOf(changes, n)
                  case Some(to) => Some(EditFor(Carried(n, to), lib.removes).literal)
                  case None => None)
            && (ChangeOf(changes, n).None? ==> forall i :: 0 <= i < |edits| ==> ApartFrom(edits[i], PathOf(n)))
  {
    hide EntriesOf, InArray, GoodKeys, GoodName, GoodNames, GoodChanges, Literal, Wanted, PlanOfNames, CarryOf,
         IsPrefix, LastEdit, PathOf;
    var q := PathOf(n);
    var changes := PlanOfNames(b, o, names, false).apply;
    var shared, own := EditsFor(changes, lib.removes), Carried'(b.document, o.document, section, lib).edits;
    ImportIsGood(b, o, names, false, keys);
    LastEditOf(changes, names, keys, n, lib.removes);
    LastEditConcat(shared, own, q);
    forall i | 0 <= i < |own|
      ensures ApartFrom(own[i], q) && own[i].path != q
    {
      CarriedIsApart(b.document, o.document, section, lib, i, n);
    }
    EditedPath(own, q);
    if ChangeOf(changes, n).None? {
      forall i | 0 <= i < |shared|
        ensures ApartFrom(shared[i], q)
      {
        ChangesApart(changes, names, keys, n, i);
      }
    }
  }

  lemma CarriedIsApart(b: Document, o: Document, section: string, lib: Library, i: nat, n: Name)
    requires i < |Carried'(b, o, section, lib).edits| && n.section != section
    ensures var e := Carried'(b, o, section, lib).edits[i]; ApartFrom(e, PathOf(n)) && e.path != PathOf(n)
  {
    hide EntriesOf, InArray, CarryOf;
    var x := CarriesKeys(b, o, Settings(Entries(o)), section, lib, i);
    OtherSection(x.path, PathOf(n));
  }

  lemma ChangesApart(changes: seq<Carried>, names: seq<Name>, keys: seq<Key>, n: Name, i: nat)
    requires GoodKeys(keys) && GoodNames(names, keys) && GoodChanges(changes, names) && GoodName(n, keys)
    requires i < |changes| && changes[i].name != n
    ensures ApartFrom(Edit(PathOf(changes[i].name), "", false), PathOf(n))
  {
    hide GoodKeys, GoodName, Accepts, PathOf, IsPrefix;
    assert changes[i].name in names;
    PathsDiffer(changes[i].name, n, keys);
  }

  /** A setting of the other client's section is what its own file sets, as both are inspected. */
  lemma MergeOwnsValues(
    b: File, o: File, names: seq<Name>, section: string, lib: Library, n: Name, v: string)
    requires WellFormed(b.document) && WellFormed(o.document) && SharedNames(names, section)
    requires MergeOf(b, o, names, section, lib).Merged? && n.section == section && o.other == b.other
    requires !InArray(Entries(b.document), PathOf(n)) && !InArray(Entries(o.document), PathOf(n))
    requires forall p :: IsPrefix(p, PathOf(n)) && Get(o.document, p).Some? ==>
               OneValue(Get(o.document, p).value, lib.isValue)
    ensures var r := File(MergeOf(b, o, names, section, lib).document, b.other);
            Holding(r, n) == Some(Value(v)) <==> Holding(o, n) == Some(Value(v))
  {
    hide WellFormed, Valid, EntriesOf, InArray, ReadRaw, Follow, OneValue, MergeOf, Get, PathOf, IsPrefix, Carried',
         FirstOnWay, HasInside;
    var r, q := MergeOf(b, o, names, section, lib).document, PathOf(n);
    MergeIsValid(b, o, names, section, lib);
    MergeArrays(b, o, names, section, lib, q);
    PathStarts(n);
    forall p | IsPrefix(p, q)
      ensures Get(r, p) == Get(o.document, p)
    {
      NotInArray(Entries(b.document), p, q);
      NotInArray(Entries(o.document), p, q);
      if p == [] {
        NothingAtNoPath(r);
        NothingAtNoPath(o.document);
      } else {
        FirstPart(p, q);
        MergeOwns(b, o, names, section, lib, p);
      }
    }
    SameRaw(o.document, r, lib.arrays, q, b.other);
    NothingSeen(n);
  }

  lemma FirstPart(p: Path, q: Path)
    requires IsPrefix(p, q) && p != []
    ensures q != [] && p[0] == q[0]
  {
  }

  lemma NothingAtNoPath(d: Document)
    requires WellFormed(d)
    ensures Get(d, []).None?
  {
    hide WellFormed, EntriesOf;
    EntriesAreHoused(d);
  }

  /** A table is no value of any key. */
  lemma NothingSeen(n: Name)
    ensures Seen(n, RNested).None?
  {
  }

  lemma MergeArrays(b: File, o: File, names: seq<Name>, section: string, lib: Library, q: Path)
    requires WellFormed(b.document) && WellFormed(o.document)
    requires MergeOf(b, o, names, section, lib).Merged?
    ensures var r := MergeOf(b, o, names, section, lib).document;
            && WellFormed(r) && Valid(Entries(r), lib.arrays)
            && InArray(Entries(r), q) == InArray(Entries(b.document), q)
  {
    hide WellFormed, Valid, EntriesOf, InArray, SetAllOf, MergeOf, MergeEdits, Stale, Pruned, FirstFault,
         PlannedDocument, PlanAll, Each, Unique, StyleOf, Settable, Unnested;
    var p := Pruned(b.document, Stale(b.document, o.document, section));
    var edits := MergeEdits(b, o, names, section, lib);
    MergeIsSetAll(b, o, names, section, lib);
    SameArrays(b.document, Stale(b.document, o.document, section), q);
    DoneIsEach(p, edits, lib);
    ArraysStay(p, edits, StyleOf(p, lib), q);
    SetAllKeepsForm(p, edits, lib);
    DoneIsValid(p, edits, lib);
  }

  lemma DoneIsEach(d: Document, edits: seq<Edit>, lib: Library)
    requires WellFormed(d) && SetAllOf(d, edits, lib).Done?
    ensures GoodEdits(edits) && Outside(Entries(d), edits) && GoodStyle(StyleOf(d, lib))
    ensures SetAllOf(d, edits, lib).document == Each(d, edits, StyleOf(d, lib))
  {
    hide WellFormed, EntriesOf, Valid, FirstFault, PlannedDocument, PlanAll, Each, Unique, StyleOf, Fits, Settable,
         Unnested, BasesFit, GroupsFit, InArray;
    NestedFails(d, edits, lib);
    Prepared(d, edits, lib);
  }

  // ---------- a file merged with itself ----------

  lemma PrunedOfNone(d: Document)
    requires WellFormed(d)
    ensures Pruned(d, []) == d
  {
    hide Tight, Loose, EntriesOf, GoodSection;
    forall s | 0 <= s < |d.sections|
      ensures Tight(BaseOf(d.sections[s]), d.sections[s].body, []) == d.sections[s].body
      ensures Loose(BaseOf(d.sections[s]), d.sections[s].body, []) == ""
    {
      BodyEndsWithKey(d, s);
      KeepsTight(BaseOf(d.sections[s]), d.sections[s].body, []);
    }
    NothingAdded();
    assert Pruned(d, []).sections == d.sections;
  }

  lemma {:induction false} NothingToCarry(d: Document, es: seq<Entry>, section: string, lib: Library)
    requires Valid(Entries(d), lib.arrays) && forall e :: e in es ==> e in Entries(d) && e.Setting?
    ensures CarryOf(d, d, es, section, lib).edits == []
    decreases |es|
  {
    hide EntriesOf, InArray, ArrayPart, LineOf, OneValue, PairOk, IsPrefix;
    if es != [] {
      var e := es[|es| - 1];
      NothingToCarry(d, es[..|es| - 1], section, lib);
      if !InArray(Entries(d), e.path) {
        SetOnce(d, lib.arrays, e.path);
        SamePath(Entries(d), e, FirstSet(Entries(d), e.path).value);
      }
    }
  }

  /** Merging a file with itself returns it, byte for byte. */
  lemma MergeWithItself(f: File, names: seq<Name>, section: string, lib: Library)
    requires WellFormed(f.document) && Valid(Entries(f.document), lib.arrays)
    ensures MergeOf(f, f, names, section, lib) == Merged(f.document)
    ensures PlanOfNames(f, f, names, false) == ImportPlan([], [])
  {
    hide WellFormed, Valid, EntriesOf, CarryOf, SetAllOf, StaleOf, Holding, PlanOfNames, Pruned;
    var stale := Stale(f.document, f.document, section);
    FirstIsIn(stale);
    PrunedOfNone(f.document);
    NothingToCarry(f.document, Settings(Entries(f.document)), section, lib);
    NothingPlannedFor(f, names);
    assert EditsFor([], lib.removes) + [] == [];
    NoEdits(f.document, lib);
  }

  lemma FirstIsIn(paths: seq<Path>)
    ensures paths == [] || paths[0] in paths
  {
  }

  lemma {:induction false} NothingPlannedFor(f: File, names: seq<Name>)
    ensures PlanOfNames(f, f, names, false) == ImportPlan([], [])
  {
    hide Holding;
    if names != [] {
      NothingPlannedFor(f, names[..|names| - 1]);
    }
  }

  // ---------- when a merge can be written ----------

  lemma {:induction false} FaultsAreEach(d: Document, edits: seq<Edit>, lib: Library)
    ensures FirstFault(d, edits, lib).None? <==> forall i :: 0 <= i < |edits| ==> FaultOf(d, edits[i], lib).None?
    decreases |edits|
  {
    hide FaultOf;
    if edits != [] {
      FaultsAreEach(d, edits[..|edits| - 1], lib);
    }
  }

  /** A key of a valid file can be taken out unless it is under an array of tables. */
  lemma SetIsReachable(d: Document, arrays: seq<Claim> -> bool, path: Path)
    requires Valid(Entries(d), arrays) && Get(d, path).Some?
    ensures Reachable(d, path) <==> !InArray(Entries(d), path)
  {
    hide EntriesOf, InArray, ArrayPart, LineOf;
    var x := FirstSet(Entries(d), path).value;
    if !InArray(Entries(d), path) {
      forall e | e in Entries(d) && e.Setting? && |e.path| < |path|
        ensures !IsPrefix(e.path, path)
      {
        PrefixOfItself(path);
        if IsPrefix(e.path, path) {
          NestedIsOne(Entries(d), e, x, path);
        }
      }
    }
  }

  lemma UnsetsIff(b: Document, o: Document, section: string, lib: Library)
    requires WellFormed(b) && Valid(Entries(b), lib.arrays)
    ensures UnsetAllOf(b, Stale(b, o, section), lib).Done? <==>
              forall p :: p in Stale(b, o, section) ==> !InArray(Entries(b), p)
  {
    hide WellFormed, Valid, EntriesOf, Stale, InArray, Reachable;
    var stale := Stale(b, o, section);
    forall p | p in stale
      ensures Reachable(b, p) <==> !InArray(Entries(b), p)
    {
      StaleIsOfSection(b, o, section, p);
      SetIsReachable(b, lib.arrays, p);
    }
  }

  /** A path apart from everything taken out can be set when it could before. */
  lemma StillSettable(d: Document, paths: seq<Path>, q: Path)
    requires AllApart(paths, q)
    ensures Reachable(Pruned(d, paths), q) <==> Reachable(d, q)
    ensures Settable(Pruned(d, paths), q) <==> Settable(d, q)
  {
    hide EntriesOf, Pruned, IsPrefix, InArray;
    var es, fs := Entries(d), Entries(Pruned(d, paths));
    SameArrays(d, paths, q);
    PrefixOfItself(q);
    forall x | x in es && (IsPrefix(x.path, q) || IsPrefix(q, x.path))
      ensures exists y :: y in fs && SameEntryAs(d, x, Pruned(d, paths), y)
    {
      var y := SameEntry(d, paths, x);
    }
    forall y | y in fs
      ensures exists x :: x in es && SameEntryAs(d, x, Pruned(d, paths), y)
    {
      var x := SourceEntry(d, paths, y);
    }
  }

  predicate SameEntryAs(d: Document, x: Entry, r: Document, y: Entry)
    requires x in Entries(d) && y in Entries(r)
  {
    y.path == x.path && (y.Setting? <==> x.Setting?) && SameCompound(d, x, r, y)
  }

  predicate SameCompound(d: Document, x: Entry, r: Document, y: Entry)
    requires x in Entries(d) && y in Entries(r)
  {
    x.Setting? && y.Setting? ==> LineOf(d, x).compound == LineOf(r, y).compound
  }

  lemma SameEntry(d: Document, paths: seq<Path>, x: Entry) returns (y: Entry)
    requires x in Entries(d) && (x.Setting? ==> x.path !in paths)
    ensures y in Entries(Pruned(d, paths)) && y.path == x.path && (y.Setting? <==> x.Setting?)
    ensures SameCompound(d, x, Pruned(d, paths), y)
  {
    hide EntriesOf, Pruned;
    var r := Pruned(d, paths);
    if x.Setting? {
      EntriesSay(d.sections, x);
      var l := LineOf(d, x);
      PrunedHolds(d, paths, x.section, x.path, l);
      var k :| 0 <= k < |r.sections[x.section].body| && r.sections[x.section].body[k] == l;
      y := Setting(x.section, k, BaseOf(r.sections[x.section]), x.path);
      EntriesSay(r.sections, y);
    } else {
      TablesStay(d, paths, x);
      y := x;
    }
  }

  lemma SourceEntry(d: Document, paths: seq<Path>, y: Entry) returns (x: Entry)
    requires y in Entries(Pruned(d, paths))
    ensures x in Entries(d) && y.path == x.path && (y.Setting? <==> x.Setting?)
    ensures SameCompound(d, x, Pruned(d, paths), y)
  {
    hide EntriesOf, Pruned;
    var r := Pruned(d, paths);
    if y.Setting? {
      EntriesSay(r.sections, y);
      var l := LineOf(r, y);
      PrunedHolds(d, paths, y.section, y.path, l);
      var k :| 0 <= k < |d.sections[y.section].body| && d.sections[y.section].body[k] == l;
      x := Setting(y.section, k, BaseOf(d.sections[y.section]), y.path);
      EntriesSay(d.sections, x);
    } else {
      TablesStay(d, paths, y);
      x := y;
    }
  }

  /** No table is declared at a path or inside it. */
  predicate NoTableIn(es: seq<Entry>, path: Path) {
    forall t :: t in es && t.Table? ==> !IsPrefix(path, t.path)
  }

  /** What is left of the stale copy has no key on the way to a key that its owner's file has, nor inside it. */
  lemma NoKeyInTheWay(b: Document, o: Document, section: string, lib: Library, x: Entry, k: Entry)
    requires Valid(Entries(b), lib.arrays) && Valid(Entries(o), lib.arrays)
    requires x in Entries(o) && Of(x, section) && !InArray(Entries(o), x.path)
    requires k in Entries(Pruned(b, Stale(b, o, section))) && k.Setting? && k.path != []
    requires IsPrefix(k.path, x.path) || IsPrefix(x.path, k.path)
    ensures k.path == x.path
  {
    hide EntriesOf, Pruned, Stale, InArray, ArrayPart, LineOf;
    var stale := Stale(b, o, section);
    var y := CameFrom(b, stale, k);
    assert y.Setting?;
    StaleIs(b, o, section, k.path);
    var z := FirstSet(Entries(o), k.path).value;
    if IsPrefix(k.path, x.path) {
      PrefixOfItself(x.path);
      NestedIsOne(Entries(o), z, x, x.path);
    } else {
      PairIs(Entries(o), x, z);
    }
  }

  lemma NoEmptyKeys(d: Document, e: Entry)
    requires WellFormed(d) && e in Entries(d) && e.Setting?
    ensures e.path != []
  {
    hide WellFormed, EntriesOf;
    EntriesAreHoused(d);
  }

  /** A carried key can be written exactly where no array and no table stands in its way. */
  lemma CarriedFits(b: Document, o: Document, section: string, lib: Library, x: Entry)
    requires WellFormed(b) && Valid(Entries(b), lib.arrays) && Valid(Entries(o), lib.arrays)
    requires forall p :: p in Stale(b, o, section) ==> !InArray(Entries(b), p)
    requires x in Entries(o) && Of(x, section) && x.Setting? && !InArray(Entries(o), x.path)
    ensures var r := Pruned(b, Stale(b, o, section));
            && (Reachable(r, x.path) <==> !InArray(Entries(b), x.path))
            && (!InArray(Entries(b), x.path) ==>
                  (Settable(r, x.path) <==> Get(b, x.path).Some? || NoTableIn(Entries(b), x.path)))
  {
    hide EntriesOf, Pruned, Stale, InArray, LineOf, Valid, WellFormed;
    var r := Pruned(b, Stale(b, o, section));
    SameArrays(b, Stale(b, o, section), x.path);
    PrunedIsGood(b, Stale(b, o, section));
    forall k | k in Entries(r) && k.Setting?
      ensures IsPrefix(k.path, x.path) || IsPrefix(x.path, k.path) ==> k.path == x.path
    {
      NoEmptyKeys(r, k);
      if IsPrefix(k.path, x.path) || IsPrefix(x.path, k.path) {
        NoKeyInTheWay(b, o, section, lib, x, k);
      }
    }
    if !InArray(Entries(b), x.path) {
      StaleIs(b, o, section, x.path);
      assert x.path !in Stale(b, o, section);
      PrunedReads(b, Stale(b, o, section), lib.arrays, x.path);
      forall t: Entry | t.Table?
        ensures t in Entries(r) <==> t in Entries(b)
      {
        TablesStay(b, Stale(b, o, section), t);
      }
    }
  }

  /** What stands in the way of a merge: a caller can tell from the two files. */
  ghost predicate CanMerge(b: File, o: File, names: seq<Name>, section: string, lib: Library) {
    && Valid(Entries(b.document), lib.arrays) && Valid(Entries(o.document), lib.arrays)
    && (forall p :: p in Stale(b.document, o.document, section) ==> !InArray(Entries(b.document), p))
    && (forall c :: c in PlanOfNames(b, o, names, false).apply ==>
          Reachable(b.document, PathOf(c.name)) && Settable(b.document, PathOf(c.name)))
    && (forall e :: e in Carried'(b.document, o.document, section, lib).edits ==>
          && |e.path| >= 2 && !InArray(Entries(b.document), e.path)
          && (Get(b.document, e.path).Some? || NoTableIn(Entries(b.document), e.path)))
  }

  lemma MergeUnnested(b: File, o: File, names: seq<Name>, keys: seq<Key>, section: string, lib: Library)
    requires GoodKeys(keys) && GoodNames(names, keys) && SharedNames(names, section)
    requires Valid(Entries(o.document), lib.arrays)
    ensures Unnested(MergeEdits(b, o, names, section, lib))
  {
    hide EntriesOf, InArray, GoodKeys, GoodName, GoodNames, Literal, PlanOfNames, CarryOf, IsPrefix, PathOf, Valid,
         Settings, LineOf;
    var changes, edits := PlanOfNames(b, o, names, false).apply, MergeEdits(b, o, names, section, lib);
    forall i, j | 0 <= i < |edits| && 0 <= j < |edits| && IsPrefix(edits[i].path, edits[j].path)
      ensures edits[i].path == edits[j].path
    {
      if i < |changes| && j < |changes| {
        NameOfChange(b, o, names, keys, section, i);
        NameOfChange(b, o, names, keys, section, j);
        NamesApart(changes[i].name, changes[j].name, keys);
      } else if i < |changes| {
        NameOfChange(b, o, names, keys, section, i);
        assert edits[i].path == PathOf(changes[i].name);
        CarriedIsApart(b.document, o.document, section, lib, j - |changes|, changes[i].name);
      } else if j < |changes| {
        NameOfChange(b, o, names, keys, section, j);
        assert edits[j].path == PathOf(changes[j].name);
        CarriedIsApart(b.document, o.document, section, lib, i - |changes|, changes[j].name);
      } else {
        var x := CarriesKeys(b.document, o.document, Settings(Entries(o.document)), section, lib, i - |changes|);
        var y := CarriesKeys(b.document, o.document, Settings(Entries(o.document)), section, lib, j - |changes|);
        PrefixOfItself(y.path);
        SettingsAre(Entries(o.document));
        NestedIsOne'(Entries(o.document), x, y, lib.arrays);
      }
    }
  }

  lemma SettingsAre(es: seq<Entry>)
    ensures forall e :: e in Settings(es) <==> e in es && e.Setting?
  {
  }

  lemma NestedIsOne'(es: seq<Entry>, x: Entry, y: Entry, arrays: seq<Claim> -> bool)
    requires Valid(es, arrays) && x in es && y in es && x.Setting? && y.Setting? && !InArray(es, y.path)
    requires IsPrefix(x.path, y.path)
    ensures x == y
  {
    hide InArray, ArrayPart;
    PrefixOfItself(y.path);
    NestedIsOne(es, x, y, y.path);
  }

  lemma NameOfChange(b: File, o: File, names: seq<Name>, keys: seq<Key>, section: string, i: nat)
    requires GoodNames(names, keys) && SharedNames(names, section) && i < |PlanOfNames(b, o, names, false).apply|
    ensures var c := PlanOfNames(b, o, names, false).apply[i];
            GoodName(c.name, keys) && c.name.section != section && Accepts(c.name, c.to)
  {
    hide PlanOfNames, Wanted, Holding, GoodName, Accepts;
    ImportIsGood(b, o, names, false, keys);
  }

  /** A merge fails exactly when something stands in its way. */
  lemma MergesIff(b: File, o: File, names: seq<Name>, keys: seq<Key>, section: string, lib: Library)
    requires WellFormed(b.document) && WellFormed(o.document) && TakesValues(lib)
    requires GoodKeys(keys) && GoodNames(names, keys) && SharedNames(names, section)
    ensures MergeOf(b, o, names, section, lib).Merged? <==> CanMerge(b, o, names, section, lib)
  {
    hide EntriesOf, InArray, GoodKeys, GoodName, GoodNames, Literal, PlanOfNames, CarryOf, IsPrefix, PathOf, Valid,
         WellFormed, Stale, Pruned, Reachable, Settable, SetAllOf, UnsetAllOf, FirstFault, Unnested, MergeEdits,
         TakesValues, SharedNames, NoTableIn, Get;
    var p := Pruned(b.document, Stale(b.document, o.document, section));
    var edits := MergeEdits(b, o, names, section, lib);
    if Valid(Entries(b.document), lib.arrays) && Valid(Entries(o.document), lib.arrays) {
      UnsetsIff(b.document, o.document, section, lib);
      if UnsetAllOf(b.document, Stale(b.document, o.document, section), lib).Done? {
        PrunedIsGood(b.document, Stale(b.document, o.document, section));
        PrunedIsValid(b.document, Stale(b.document, o.document, section), lib.arrays);
        SucceedsIff(p, edits, lib);
        FaultsAreEach(p, edits, lib);
        MergeUnnested(b, o, names, keys, section, lib);
        EditsFit(b, o, names, keys, section, lib);
        assert UnsetAllOf(b.document, Stale(b.document, o.document, section), lib).Done?;
      }
    }
  }

  lemma EditsFit(b: File, o: File, names: seq<Name>, keys: seq<Key>, section: string, lib: Library)
    requires WellFormed(b.document) && WellFormed(o.document) && TakesValues(lib)
    requires GoodKeys(keys) && GoodNames(names, keys) && SharedNames(names, section)
    requires Valid(Entries(b.document), lib.arrays) && Valid(Entries(o.document), lib.arrays)
    requires forall q :: q in Stale(b.document, o.document, section) ==> !InArray(Entries(b.document), q)
    ensures var p := Pruned(b.document, Stale(b.document, o.document, section));
            var edits := MergeEdits(b, o, names, section, lib);
            (forall i :: 0 <= i < |edits| ==> FaultOf(p, edits[i], lib).None? && Settable(p, edits[i].path)) <==>
              CanMerge(b, o, names, section, lib)
  {
    hide EntriesOf, InArray, GoodKeys, GoodName, GoodNames, Literal, PlanOfNames, CarryOf, IsPrefix, PathOf, Valid,
         WellFormed, Stale, Pruned, Reachable, Settable, TakesValues, SharedNames, NoTableIn, Get, FaultOf, EditsFor;
    var p := Pruned(b.document, Stale(b.document, o.document, section));
    var changes, own := PlanOfNames(b, o, names, false).apply, Carried'(b.document, o.document, section, lib).edits;
    var shared, edits := EditsFor(changes, lib.removes), MergeEdits(b, o, names, section, lib);
    forall i | 0 <= i < |changes|
      ensures (FaultOf(p, shared[i], lib).None? && Settable(p, shared[i].path)) <==>
                Reachable(b.document, PathOf(changes[i].name)) && Settable(b.document, PathOf(changes[i].name))
    {
      SharedFits(b, o, names, keys, section, lib, i);
    }
    forall i | 0 <= i < |own|
      ensures (FaultOf(p, own[i], lib).None? && Settable(p, own[i].path)) <==>
                && |own[i].path| >= 2 && !InArray(Entries(b.document), own[i].path)
                && (Get(b.document, own[i].path).Some? || NoTableIn(Entries(b.document), own[i].path))
    {
      OwnFits(b, o, section, lib, i);
    }
    EachPart(shared, own, p, lib);
  }

  lemma EachPart(a: seq<Edit>, c: seq<Edit>, p: Document, lib: Library)
    ensures (forall i :: 0 <= i < |a + c| ==> FaultOf(p, (a + c)[i], lib).None? && Settable(p, (a + c)[i].path)) <==>
              && (forall i :: 0 <= i < |a| ==> FaultOf(p, a[i], lib).None? && Settable(p, a[i].path))
              && (forall i :: 0 <= i < |c| ==> FaultOf(p, c[i], lib).None? && Settable(p, c[i].path))
  {
    hide FaultOf, Settable;
    assert forall i :: 0 <= i < |a| ==> (a + c)[i] == a[i];
    assert forall i :: 0 <= i < |c| ==> (a + c)[|a| + i] == c[i];
  }

  lemma SharedFits(b: File, o: File, names: seq<Name>, keys: seq<Key>, section: string, lib: Library, i: nat)
    requires TakesValues(lib) && GoodNames(names, keys) && SharedNames(names, section)
    requires i < |PlanOfNames(b, o, names, false).apply|
    ensures var p := Pruned(b.document, Stale(b.document, o.document, section));
            var c := PlanOfNames(b, o, names, false).apply[i];
            (FaultOf(p, EditFor(c, lib.removes), lib).None? && Settable(p, EditFor(c, lib.removes).path)) <==>
              Reachable(b.document, PathOf(c.name)) && Settable(b.document, PathOf(c.name))
  {
    hide EntriesOf, Stale, Pruned, Reachable, Settable, TakesValues, PlanOfNames, GoodName, PathOf, OneValue, AllApart,
         Literal, Accepts;
    var c := PlanOfNames(b, o, names, false).apply[i];
    NameOfChange(b, o, names, keys, section, i);
    LiteralIsTaken(c.name, c.to, lib);
    PathHasParts(c.name, keys);
    PathStarts(c.name);
    StaleIsApart(b.document, o.document, section, PathOf(c.name));
    StillSettable(b.document, Stale(b.document, o.document, section), PathOf(c.name));
  }

  lemma OwnFits(b: File, o: File, section: string, lib: Library, i: nat)
    requires WellFormed(b.document) && WellFormed(o.document)
    requires Valid(Entries(b.document), lib.arrays) && Valid(Entries(o.document), lib.arrays)
    requires forall q :: q in Stale(b.document, o.document, section) ==> !InArray(Entries(b.document), q)
    requires i < |Carried'(b.document, o.document, section, lib).edits|
    ensures var p := Pruned(b.document, Stale(b.document, o.document, section));
            var e := Carried'(b.document, o.document, section, lib).edits[i];
            (FaultOf(p, e, lib).None? && Settable(p, e.path)) <==>
              && |e.path| >= 2 && !InArray(Entries(b.document), e.path)
              && (Get(b.document, e.path).Some? || NoTableIn(Entries(b.document), e.path))
  {
    hide EntriesOf, InArray, CarryOf, IsPrefix, Valid, WellFormed, Stale, Pruned, Reachable, Settable, NoTableIn, Get,
         OneValue, LineOf;
    var x := CarriesKeys(b.document, o.document, Settings(Entries(o.document)), section, lib, i);
    CarriedFits(b.document, o.document, section, lib, x);
  }
}
