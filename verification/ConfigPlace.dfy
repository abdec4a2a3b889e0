/** Where an edit goes (daemon/config/edit.go): the value it replaces, the table it joins, or a table of its own. */
module ConfigPlace {
  import opened Bytes
  import opened Splice
  import opened Toml

  /** A key to set, and its value as the file will hold it. */
  datatype Edit = Edit(path: Path, literal: Text, compound: bool)

  /**
   The value of a line; behind the last key of a section, spelled from the end of the section's own path on; or, when
   nothing of its table exists, a new table.
   */
  datatype Where = Replace(section: nat, line: nat) | Into(section: nat, base: nat) | NewTable

  function Parent(path: Path): Path
    requires path != []
  {
    path[..|path| - 1]
  }

  /** A key of the table, or of one inside it, that a shorter table than it sets with dotted keys. */
  predicate IsSibling(e: Entry, table: Path) {
    e.Setting? && |table| < |e.path| && IsPrefix(table, e.path) && |e.base| < |table|
  }

  function LastTable(es: seq<Entry>, table: Path): (r: Option<Entry>)
    ensures r.Some? ==> r.value in es && r.value.Table? && r.value.path == table
    ensures r.None? ==> forall e :: e in es && e.Table? ==> e.path != table
  {
    if es == [] then None
    else if es[|es| - 1].Table? && es[|es| - 1].path == table then Some(es[|es| - 1])
    else LastTable(es[..|es| - 1], table)
  }

  function LastSibling(es: seq<Entry>, table: Path): (r: Option<Entry>)
    ensures r.Some? ==> r.value in es && IsSibling(r.value, table)
    ensures r.None? ==> forall e :: e in es ==> !IsSibling(e, table)
  {
    if es == [] then None
    else if IsSibling(es[|es| - 1], table) then Some(es[|es| - 1])
    else LastSibling(es[..|es| - 1], table)
  }

  function Decide(es: seq<Entry>, path: Path): Where
    requires path != []
  {
    var set', table, sibling := FirstSet(es, path), LastTable(es, Parent(path)), LastSibling(es, Parent(path));
    if set'.Some? then Replace(set'.value.section, set'.value.line)
    else if table.Some? then Into(table.value.section, |Parent(path)|)
    else if sibling.Some? then Into(sibling.value.section, |sibling.value.base|)
    else NewTable
  }

  /** A path a splice can address: not inside a value, and not under an array of tables. */
  ghost predicate Reachable(d: Document, path: Path) {
    && (forall e :: e in Entries(d) && e.Setting? && |e.path| < |path| && LineOf(d, e).compound ==>
          !IsPrefix(e.path, path))
    && !InArray(Entries(d), path)
  }

  // ---------- in a valid document there is one place ----------

  /** Each key is in its table: the root, or one with a header. */
  ghost predicate Housed(es: seq<Entry>) {
    && (forall e :: e in es && e.Setting? ==>
          if e.section == 0 then e.base == []
          else exists t :: t in es && t.Table? && t.section == e.section && t.path == e.base)
    && (forall e :: e in es && e.Table? ==> e.section > 0 && e.path != [])
    && (forall e :: e in es && e.Setting? ==> IsPrefix(e.base, e.path) && |e.base| < |e.path|)
    && (forall x, y :: x in es && y in es && x.Table? && y.Table? && x.section == y.section ==> x == y)
  }

  lemma EntriesAreHoused(d: Document)
    requires WellFormed(d)
    ensures Housed(Entries(d))
  {
    var es := Entries(d);
    forall e | e in es
      ensures e.Setting? ==>
        && (if e.section == 0 then e.base == []
            else exists t :: t in es && t.Table? && t.section == e.section && t.path == e.base)
        && IsPrefix(e.base, e.path) && |e.base| < |e.path|
      ensures e.Table? ==> e.section > 0 && e.path != []
    {
      EntriesSay(d.sections, e);
      var sec := d.sections[e.section];
      assert GoodSection(sec);
      if e.Setting? {
        assert GoodLine(sec.body[e.line]);
        if e.section != 0 {
          var t := Table(e.section, sec.head.value.path, sec.head.value.isArray);
          EntriesSay(d.sections, t);
        }
      }
    }
    forall x, y | x in es && y in es && x.Table? && y.Table? && x.section == y.section
      ensures x == y
    {
      EntriesSay(d.sections, x);
      EntriesSay(d.sections, y);
    }
  }

  lemma PrefixOfPrefix(a: Path, b: Path, c: Path)
    requires IsPrefix(a, b) && IsPrefix(b, c)
    ensures IsPrefix(a, c)
  {
    assert c[..|a|] == c[..|b|][..|a|];
  }

  lemma PrefixesNest(a: Path, b: Path, c: Path)
    requires IsPrefix(a, c) && IsPrefix(b, c) && |a| <= |b|
    ensures IsPrefix(a, b)
  {
    assert c[..|a|] == c[..|b|][..|a|];
  }

  /** Nothing on the way to a reachable path is under an array of tables. */
  lemma NotInArray(es: seq<Entry>, a: Path, path: Path)
    requires !InArray(es, path) && IsPrefix(a, path)
    ensures !InArray(es, a)
  {
    if InArray(es, a) {
      var t :| t in es && t.Table? && t.isArray && IsPrefix(t.path, a);
      PrefixOfPrefix(t.path, a, path);
    }
  }

  lemma PairIs(es: seq<Entry>, x: Entry, y: Entry)
    requires AllPairsOk(es) && x in es && y in es
    ensures x == y || PairOk(es, x, y)
  {
  }

  lemma BaseIs(es: seq<Entry>, x: Entry) returns (t: Option<Entry>)
    requires Housed(es) && x in es && x.Setting?
    ensures x.section == 0 <==> x.base == []
    ensures x.section != 0 <==> t.Some?
    ensures t.Some? ==> t.value in es && t.value.Table? && t.value.section == x.section && t.value.path == x.base
  {
    t := None;
    if x.section != 0 {
      var u :| u in es && u.Table? && u.section == x.section && u.path == x.base;
      t := Some(u);
    }
  }

  lemma OneSetting(es: seq<Entry>, path: Path, x: Entry)
    requires AllPairsOk(es) && path != [] && !InArray(es, path) && x in es && x.Setting? && x.path == path
    ensures Decide(es, path) == Replace(x.section, x.line)
  {
    PairIs(es, x, FirstSet(es, path).value);
  }

  lemma OneTable(es: seq<Entry>, path: Path, t: Entry)
    requires AllPairsOk(es) && path != [] && !InArray(es, path)
    requires t in es && t.Table? && t.path == Parent(path)
    requires forall e :: e in es && e.Setting? ==> e.path != path
    ensures Decide(es, path) == Into(t.section, |Parent(path)|)
  {
    NotInArray(es, Parent(path), path);
    PairIs(es, t, LastTable(es, Parent(path)).value);
  }

  /** Siblings are all in one section: with two, the header of one would define a table the other's keys define. */
  lemma SiblingsTogether(es: seq<Entry>, path: Path, x: Entry, y: Entry)
    requires AllPairsOk(es) && Housed(es) && path != [] && !InArray(es, path) && x in es && y in es
    requires IsSibling(x, Parent(path)) && IsSibling(y, Parent(path)) && |x.base| <= |y.base|
    ensures x.section == y.section && x.base == y.base
  {
    var parent := Parent(path);
    PrefixesNest(y.base, parent, y.path);
    PrefixesNest(x.base, parent, x.path);
    PrefixesNest(x.base, y.base, parent);
    var t := BaseIs(es, x);
    var u := BaseIs(es, y);
    if u.Some? {
      assert IsPrefix(parent, path);
      PrefixOfPrefix(y.base, parent, x.path);
      PrefixOfPrefix(y.base, parent, path);
      NotInArray(es, y.base, path);
      PairIs(es, u.value, x);
      if t.Some? {
        PairIs(es, t.value, u.value);
      }
    }
  }

  lemma OneSiblingPlace(es: seq<Entry>, path: Path, x: Entry)
    requires AllPairsOk(es) && Housed(es) && path != [] && !InArray(es, path)
    requires x in es && IsSibling(x, Parent(path))
    requires forall e :: e in es && e.Setting? ==> e.path != path
    requires forall e :: e in es && e.Table? ==> e.path != Parent(path)
    ensures Decide(es, path) == Into(x.section, |x.base|)
  {
    var y := LastSibling(es, Parent(path)).value;
    if |x.base| <= |y.base| {
      SiblingsTogether(es, path, x, y);
    } else {
      SiblingsTogether(es, path, y, x);
    }
  }

  // ---------- when an edit keeps a document valid ----------

  /** Nothing has a value on the way to the path, and the path is not a table. */
  ghost predicate Free(es: seq<Entry>, path: Path) {
    && (forall e :: e in es && e.Setting? ==> !IsPrefix(e.path, path) && !IsPrefix(path, e.path))
    && (forall e :: e in es && e.Table? ==> !IsPrefix(path, e.path))
  }

  /** The entries an edit adds, when the path is not set. */
  function Added(es: seq<Entry>, e: Edit, sections: nat, lines: nat): seq<Entry>
    requires e.path != []
  {
    match Decide(es, e.path)
    case Replace(_, _) => []
    case Into(s, base) => [Setting(s, lines, e.path[..Min(base, |e.path|)], e.path)]
    case NewTable =>
      [Table(sections, Parent(e.path), false),
       Setting(sections, 0, Parent(e.path), e.path)]
  }

  /** The base is shorter than the path's table, or is the table. */
  lemma IntoBase(es: seq<Entry>, path: Path)
    requires Housed(es) && path != [] && Decide(es, path).Into?
    ensures Decide(es, path).base < |path|
    ensures LastTable(es, Parent(path)).None? ==>
      var y := LastSibling(es, Parent(path)).value;
      path[..Decide(es, path).base] == y.base && Decide(es, path).section == y.section
  {
    if LastTable(es, Parent(path)).None? {
      var y := LastSibling(es, Parent(path)).value;
      PrefixesNest(y.base, Parent(path), y.path);
      assert path[..|y.base|] == Parent(path)[..|y.base|];
    }
  }

  /**
   What is added stands with everything else if and only if the path was free. Where the planner puts a key never
   makes a document invalid by itself: a table is not given a second header, nor dotted keys define one that has its
   own.
   */
  lemma FitsIffFree(es: seq<Entry>, e: Edit, sections: nat, lines: nat)
    requires AllPairsOk(es) && Housed(es) && |e.path| >= 2 && !InArray(es, e.path)
    requires !Decide(es, e.path).Replace?
    ensures Free(es, e.path) <==>
            forall x, a :: x in es && a in Added(es, e, sections, lines) ==> Compatible(x, a)
  {
    var added := Added(es, e, sections, lines);
    var s := added[|added| - 1];
    assert s in added;
    if Free(es, e.path) {
      forall x, a | x in es && a in added
        ensures Compatible(x, a)
      {
        FreeFits(es, e, sections, lines, x, a);
      }
    } else if forall x, a :: x in es && a in added ==> Compatible(x, a) {
      forall x | x in es
        ensures Compatible(x, s)
      {
      }
    }
  }

  lemma FreeFits(es: seq<Entry>, e: Edit, sections: nat, lines: nat, x: Entry, a: Entry)
    requires AllPairsOk(es) && Housed(es) && |e.path| >= 2 && !InArray(es, e.path)
    requires !Decide(es, e.path).Replace? && Free(es, e.path)
    requires x in es && a in Added(es, e, sections, lines)
    ensures Compatible(x, a)
  {
    var parent := Parent(e.path);
    assert IsPrefix(parent, e.path);
    if a.Table? {
      if x.Setting? {
        ValueInTheWay(x, parent, e.path);
        assert |x.path| == |parent| && IsPrefix(parent, x.path) ==> x.path == parent;
        assert !IsSibling(x, parent);
      }
    } else if x.Table? && IsPrefix(x.path, e.path) {
      TableOnTheWay(es, e, x, a.base);
    }
  }

  lemma ValueInTheWay(x: Entry, parent: Path, path: Path)
    requires IsPrefix(parent, path)
    ensures IsPrefix(x.path, parent) ==> IsPrefix(x.path, path)
  {
    if IsPrefix(x.path, parent) {
      PrefixOfPrefix(x.path, parent, path);
    }
  }

  /** No header stands between the table a key is spelled from and the key. */
  lemma TableOnTheWay(es: seq<Entry>, e: Edit, x: Entry, base: Path)
    requires AllPairsOk(es) && Housed(es) && |e.path| >= 2 && !InArray(es, e.path)
    requires Free(es, e.path) && x in es && x.Table? && IsPrefix(x.path, e.path)
    requires match Decide(es, e.path)
             case Into(_, n) => n < |e.path| && base == e.path[..n]
             case NewTable => base == Parent(e.path)
             case Replace(_, _) => false
    ensures |x.path| <= |base|
  {
    var parent := Parent(e.path);
    assert IsPrefix(parent, e.path);
    assert |x.path| == |e.path| ==> x.path == e.path;
    assert |x.path| <= |parent|;
    PrefixesNest(x.path, parent, e.path);
    if Decide(es, e.path).Into? && LastTable(es, parent).None? {
      IntoBase(es, e.path);
      var y := LastSibling(es, parent).value;
      PrefixOfPrefix(x.path, parent, y.path);
      NotInArray(es, x.path, e.path);
      PairIs(es, x, y);
    }
  }
}
