/**
 The settings a file has (daemon/config/load.go, inspect.go): walking its tables finds every one, so what an export or a
 merge goes through leaves none out.
 */
module ConfigNames {
  import opened Bytes
  import opened Splice
  import opened Toml
  import opened TomlKeys
  import opened ConfigPlace
  import opened ConfigEdit
  import opened ConfigForm
  import opened ConfigSetAll
  import opened ConfigOneByOne
  import opened ConfigInspect
  import opened ConfigImport
  import opened ConfigMerge

  // ---------- what a table has in it ----------

  /** The keys of an inline table. */
  function KeysOf(raw: Option<Raw>): set<string> {
    if raw.Some? && raw.value.RInline? then raw.value.entries.Keys else {}
  }

  /** What stands directly under a path: tables and keys of the document, and the keys of a value it has there. */
  function Under(f: File, path: Path): set<string> {
    (set e | e in Entries(f.document) && |path| < |e.path| && IsPrefix(path, e.path) :: e.path[|path|]) +
    KeysOf(RawAt(f.document, path, f.other))
  }

  lemma FirstOnShorterWay(es: seq<Entry>, path: Path, next: string)
    requires FirstOnWay(es, path + [next]).Some? && |FirstOnWay(es, path + [next]).value.path| <= |path|
    ensures FirstOnWay(es, path) == FirstOnWay(es, path + [next])
  {
    hide IsPrefix;
    if es[0].Setting? && IsPrefix(es[0].path, path + [next]) {
      ShorterPrefix(es[0].path, path, next);
    } else {
      LongerPrefix(es[0].path, path, next);
      FirstOnShorterWay(es[1..], path, next);
    }
  }

  lemma ShorterPrefix(a: Path, path: Path, next: string)
    requires IsPrefix(a, path + [next]) && |a| <= |path|
    ensures IsPrefix(a, path)
  {
    assert (path + [next])[..|a|] == path[..|a|];
  }

  lemma LongerPrefix(a: Path, path: Path, next: string)
    ensures IsPrefix(a, path) ==> IsPrefix(a, path + [next])
  {
    assert |a| <= |path| ==> (path + [next])[..|a|] == path[..|a|];
  }

  lemma {:induction false} FollowsThrough(raw: Raw, rest: Path, next: string)
    requires Follow(raw, rest + [next]).Some?
    ensures next in KeysOf(Follow(raw, rest))
    decreases |rest|
  {
    if rest == [] {
      assert ([] + [next])[0] == next;
    } else {
      assert (rest + [next])[1..] == rest[1..] + [next] && (rest + [next])[0] == rest[0];
      FollowsThrough(raw.entries[rest[0]], rest[1..], next);
    }
  }

  /** A path that has a value has its last part under the rest. */
  lemma ValueIsUnder(f: File, path: Path, next: string)
    requires RawAt(f.document, path + [next], f.other).Some?
    ensures next in Under(f, path)
  {
    hide EntriesOf, ReadRaw, Follow, LineOf, FirstOnWay;
    var d, q := f.document, path + [next];
    var es, x := Entries(d), FirstOnWay(Entries(d), q);
    assert !InArray(es, path) by {
      LongerPrefix(path, path, next);
      PrefixOfItself(path);
      NotInArray(es, path, q);
    }
    if x.Some? && |x.value.path| <= |path| {
      FirstOnShorterWay(es, path, next);
      assert q[|x.value.path|..] == path[|x.value.path|..] + [next];
      FollowsThrough(ReadRaw(LineOf(d, x.value).value, f.other), path[|x.value.path|..], next);
    } else if x.Some? {
      assert x.value.path == q;
      LongerPrefix(path, path, next);
      PrefixOfItself(path);
      assert x.value.path[|path|] == next;
    } else {
      var e :| e in es && IsPrefix(q, e.path);
      EntryIsUnder(path, next, e);
    }
  }

  lemma EntryIsUnder(path: Path, next: string, e: Entry)
    requires IsPrefix(path + [next], e.path)
    ensures |path| < |e.path| && IsPrefix(path, e.path) && e.path[|path|] == next
  {
    var q := path + [next];
    assert e.path[..|q|] == q;
    assert e.path[|path|] == q[|path|];
    assert e.path[..|path|] == q[..|path|];
  }

  // ---------- every setting of a file ----------

  /** A scalar key's name, or those of a table's entries, under a section: those the file sets. */
  function NamesUnder(f: File, section: string, key: Key): set<Name> {
    if key.kind.TableOf? then
      set inner | inner in Under(f, [section] + key.parts) && Holding(f, Name(section, key, Some(inner))).Some? ::
        Name(section, key, Some(inner))
    else if Holding(f, Name(section, key, None)).Some? then {Name(section, key, None)}
    else {}
  }

  function NamesIn(f: File, sections: seq<string>, keys: seq<Key>): set<Name> {
    set section, key, n |
      section in sections && key in keys && (key.section == "shared" || key.section == section) && key.parts != [] &&
      n in NamesUnder(f, section, key) :: n
  }

  /** What the walk finds under some sections: exactly the settings the file has there. */
  lemma WalkFindsAll(f: File, sections: seq<string>, keys: seq<Key>, n: Name)
    ensures n in NamesIn(f, sections, keys) <==> GoodName(n, keys) && n.section in sections && Holding(f, n).Some?
  {
    hide RawAt, Under, Seen, EntriesOf;
    if GoodName(n, keys) && n.section in sections && Holding(f, n).Some? {
      if n.inner.Some? {
        assert PathOf(n) == ([n.section] + n.key.parts) + [n.inner.value];
        ValueIsUnder(f, [n.section] + n.key.parts, n.inner.value);
      }
      assert n in NamesUnder(f, n.section, n.key);
    }
  }

  /** The members of a set, each once. The order is any. */
  ghost function Listed(names: set<Name>): (r: seq<Name>)
    ensures forall n :: n in r <==> n in names
    ensures forall i, j :: 0 <= i < j < |r| ==> r[i] != r[j]
  {
    if names == {} then []
    else
      var n :| n in names;
      var rest := Listed(names - {n});
      rest + [n]
  }

  ghost function NamesOf(f: File, sections: seq<string>, keys: seq<Key>): seq<Name> {
    Listed(NamesIn(f, sections, keys))
  }

  lemma NamesAreGood(f: File, sections: seq<string>, keys: seq<Key>)
    ensures GoodNames(NamesOf(f, sections, keys), keys)
    ensures forall n :: n in NamesOf(f, sections, keys) <==>
                          GoodName(n, keys) && n.section in sections && Holding(f, n).Some?
  {
    hide GoodName, Holding, NamesIn;
    var names := NamesOf(f, sections, keys);
    forall n
      ensures n in names <==> GoodName(n, keys) && n.section in sections && Holding(f, n).Some?
    {
      WalkFindsAll(f, sections, keys, n);
    }
    assert forall i :: 0 <= i < |names| ==> names[i] in names;
  }

  // ---------- what that makes of an export and a merge ----------

  /**
   Exporting everything the walk finds, and inspecting that: exactly the file's portable settings of those sections,
   with the values they have, except what cannot be taken, a table entry that is no string or has no name.
   */
  lemma ExportsEverything(f: File, sections: seq<string>, keys: seq<Key>, lib: Library, n: Name)
    requires GoodKeys(keys) && TakesValues(lib) && GoodName(n, keys)
    ensures WellFormed(ExportBase()) && ExportOf(f, NamesOf(f, sections, keys), lib).Done?
    ensures var r := File(ExportOf(f, NamesOf(f, sections, keys), lib).document, f.other);
            Holding(r, n) ==
              if n.section in sections && n.key.portable && Wanted(f, n).Some? then Some(Value(Wanted(f, n).value))
              else None
  {
    hide WellFormed, ExportOf, GoodKeys, GoodName, TakesValues, Holding, NamesOf, GoodNames;
    NamesAreGood(f, sections, keys);
    ExportRoundTrip(f, NamesOf(f, sections, keys), keys, lib, n);
  }

  /** A merge that goes through all that the other file shares: whatever only one of the files sets is in the result. */
  lemma MergeSharesEverything(b: File, o: File, keys: seq<Key>, section: string, lib: Library, n: Name)
    requires WellFormed(b.document) && WellFormed(o.document) && section != "shared"
    requires MergeOf(b, o, NamesOf(o, ["shared"], keys), section, lib).Merged?
    requires GoodKeys(keys) && GoodName(n, keys) && n.section == "shared"
    ensures var r := File(MergeOf(b, o, NamesOf(o, ["shared"], keys), section, lib).document, b.other);
            Holding(r, n) ==
              if Holding(b, n).Some? then Holding(b, n)
              else if Wanted(o, n).Some? then Some(Value(Wanted(o, n).value)) else None
  {
    hide WellFormed, MergeOf, GoodKeys, GoodName, Holding, NamesOf, GoodNames;
    var names := NamesOf(o, ["shared"], keys);
    NamesAreGood(o, ["shared"], keys);
    assert forall i :: 0 <= i < |names| ==> names[i] in names;
    MergeShares(b, o, names, keys, section, lib, n);
  }
}
