/** One edit of a document (daemon/config/edit.go): what it leaves, and when what it leaves is still valid. */
module ConfigEdit {
  import opened Bytes
  import opened Splice
  import opened Toml
  import opened TomlKeys
  import opened ConfigPlace

  /** The line ending a file already uses, and which characters a key is not to hold raw. */
  datatype Style = Style(nl: Text, removes: char -> bool)

  predicate GoodStyle(st: Style) {
    st.nl == "\n" || st.nl == "\r\n"
  }

  /** A value spelled on one line. Which spellings are a value, the TOML library says. */
  predicate OneValue(literal: Text, isValue: Text -> bool) {
    NoNewline(literal) && literal != "" && !Blank(literal[0]) && isValue(literal)
  }

  predicate GoodEdit(e: Edit) {
    && |e.path| >= 2
    && NoNewline(e.literal) && e.literal != "" && !Blank(e.literal[0])
  }

  // ---------- the changes a document can have ----------

  function SetLine(l: Line, e: Edit): Line
    requires l.Assign?
  {
    l.(value := e.literal, compound := e.compound)
  }

  function SetValue(d: Document, s: nat, k: nat, e: Edit): Document
    requires s < |d.sections| && k < |d.sections[s].body| && d.sections[s].body[k].Assign?
  {
    var sec := d.sections[s];
    d.(sections := d.sections[s := sec.(body := sec.body[k := SetLine(sec.body[k], e)])])
  }

  /** The line of a new key, spelled from its table on. */
  function NewLine(e: Edit, base: nat, st: Style): Line
    requires base < |e.path|
  {
    Assign("", FormatPath(e.path[base..], st.removes), " = ", e.literal, st.nl, e.path[base..], e.compound)
  }

  function EndTail(t: Text, nl: Text): Text {
    if EndsLine(t) then t else t + nl
  }

  function EndLine(l: Line, nl: Text): Line {
    if l.Assign? then l.(tail := EndTail(l.tail, nl)) else l
  }

  /** The section, its last line with a newline. */
  function EndSection(s: Section, nl: Text): Section {
    if s.body != [] then s.(body := s.body[|s.body| - 1 := EndLine(s.body[|s.body| - 1], nl)])
    else if s.head.Some? then s.(head := Some(s.head.value.(close := EndTail(s.head.value.close, nl))))
    else s
  }

  function AddTo(s: Section, l: Line, nl: Text): Section {
    var ended := EndSection(s, nl);
    ended.(body := ended.body + [l])
  }

  function Insert(d: Document, s: nat, l: Line, nl: Text): Document
    requires s < |d.sections|
  {
    d.(sections := d.sections[s := AddTo(d.sections[s], l, nl)])
  }

  function EndDocument(d: Document, nl: Text): Document
    requires d.sections != []
  {
    if d.ending != "" then d.(ending := EndTail(d.ending, nl))
    else
      var last := |d.sections| - 1;
      d.(sections := d.sections[last := EndSection(d.sections[last], nl)])
  }

  predicate White(c: char) {
    c == ' ' || '\t' <= c <= '\r'
  }

  predicate AllWhite(t: Text) {
    forall i :: 0 <= i < |t| ==> White(t[i])
  }

  function NewHeader(table: Path, st: Style): Header {
    Header("[", FormatPath(table, st.removes), "]" + st.nl, table, false)
  }

  /** A new table behind everything else, set off by a blank line. */
  function AppendTable(d: Document, table: Path, lines: seq<Line>, st: Style): Document
    requires d.sections != []
  {
    var ended := EndDocument(d, st.nl);
    var gap := if AllWhite(Render(d)) then "" else st.nl;
    Document(ended.sections + [Section(ended.ending + gap, Some(NewHeader(table, st)), lines)], "")
  }

  /** A place that is in the document. */
  predicate PlaceIn(d: Document, w: Where, path: Path) {
    match w
    case Replace(s, k) => s < |d.sections| && k < |d.sections[s].body| && d.sections[s].body[k].Assign?
    case Into(s, base) => s < |d.sections| && base < |path|
    case NewTable => d.sections != []
  }

  function Apply(d: Document, w: Where, e: Edit, st: Style): Document
    requires e.path != [] && PlaceIn(d, w, e.path)
  {
    match w
    case Replace(s, k) => SetValue(d, s, k, e)
    case Into(s, base) => Insert(d, s, NewLine(e, base, st), st.nl)
    case NewTable => AppendTable(d, Parent(e.path), [NewLine(e, |e.path| - 1, st)], st)
  }

  lemma DecidedIsIn(d: Document, path: Path)
    requires WellFormed(d) && path != []
    ensures PlaceIn(d, Decide(Entries(d), path), path)
  {
    EntriesAreHoused(d);
    var es := Entries(d);
    var x, t, y := FirstSet(es, path), LastTable(es, Parent(path)), LastSibling(es, Parent(path));
    if x.Some? {
      EntriesSay(d.sections, x.value);
    }
    if t.Some? {
      EntriesSay(d.sections, t.value);
    }
    if y.Some? {
      EntriesSay(d.sections, y.value);
    }
  }

  /** One edit, placed where the planner puts it. */
  function One(d: Document, e: Edit, st: Style): Document
    requires WellFormed(d) && e.path != []
  {
    DecidedIsIn(d, e.path);
    Apply(d, Decide(Entries(d), e.path), e, st)
  }

  // ---------- what it says afterwards ----------

  lemma {:induction false} SameBodyEntries(s: nat, base: Path, a: seq<Line>, b: seq<Line>)
    requires |a| == |b|
    requires forall k :: 0 <= k < |a| ==> a[k].Assign? == b[k].Assign? && (a[k].Assign? ==> a[k].rel == b[k].rel)
    ensures BodyEntries(s, base, a) == BodyEntries(s, base, b)
  {
    if a != [] {
      SameBodyEntries(s, base, a[..|a| - 1], b[..|b| - 1]);
    }
  }

  predicate SameHead(a: Section, b: Section) {
    && a.head.Some? == b.head.Some?
    && (a.head.Some? ==> a.head.value.path == b.head.value.path && a.head.value.isArray == b.head.value.isArray)
  }

  predicate SameKeys(a: Section, b: Section) {
    && SameHead(a, b)
    && |a.body| == |b.body|
    && (forall k :: 0 <= k < |a.body| ==>
         a.body[k].Assign? == b.body[k].Assign? && (a.body[k].Assign? ==> a.body[k].rel == b.body[k].rel))
  }

  lemma {:induction false} SameEntries(a: seq<Section>, b: seq<Section>)
    requires |a| == |b| && forall s :: 0 <= s < |a| ==> SameKeys(a[s], b[s])
    ensures EntriesOf(a) == EntriesOf(b)
  {
    if a != [] {
      var n := |a| - 1;
      SameEntries(a[..n], b[..n]);
      assert SameKeys(a[n], b[n]);
      SameBodyEntries(n, BaseOf(a[n]), a[n].body, b[n].body);
    }
  }

  /** Replacing a value changes no key. */
  lemma SetValueEntries(d: Document, s: nat, k: nat, e: Edit)
    requires PlaceIn(d, Replace(s, k), e.path)
    ensures Entries(SetValue(d, s, k, e)) == Entries(d)
  {
    SameEntries(SetValue(d, s, k, e).sections, d.sections);
  }

  lemma EndSectionKeys(s: Section, nl: Text)
    ensures SameKeys(EndSection(s, nl), s)
  {
  }

  lemma EndDocumentEntries(d: Document, nl: Text)
    requires d.sections != []
    ensures Entries(EndDocument(d, nl)) == Entries(d)
  {
    EndSectionKeys(d.sections[|d.sections| - 1], nl);
    SameEntries(EndDocument(d, nl).sections, d.sections);
  }

  lemma AddToEntries(s: nat, sec: Section, l: Line, nl: Text)
    requires l.Assign?
    ensures SectionEntries(s, AddTo(sec, l, nl)) ==
            SectionEntries(s, sec) + [Setting(s, |sec.body|, BaseOf(sec), BaseOf(sec) + l.rel)]
  {
    EndSectionKeys(sec, nl);
    var ended := EndSection(sec, nl);
    hide EndSection;
    SameBodyEntries(s, BaseOf(sec), ended.body, sec.body);
    assert (ended.body + [l])[..|ended.body|] == ended.body;
  }

  /** A line put in adds its key, between what was before it and what was behind. */
  lemma {:induction false} InsertEntries(ss: seq<Section>, s: nat, l: Line, nl: Text)
    returns (xs: seq<Entry>, ys: seq<Entry>)
    requires s < |ss| && l.Assign?
    ensures var added := Setting(s, |ss[s].body|, BaseOf(ss[s]), BaseOf(ss[s]) + l.rel);
            EntriesOf(ss) == xs + ys && EntriesOf(ss[s := AddTo(ss[s], l, nl)]) == xs + [added] + ys
    decreases |ss|
  {
    hide SectionEntries, AddTo, BaseOf;
    var n := |ss| - 1;
    var tt := ss[s := AddTo(ss[s], l, nl)];
    if s == n {
      xs, ys := EntriesOf(ss), [];
      AddToEntries(n, ss[n], l, nl);
      assert tt[..n] == ss[..n];
    } else {
      assert tt[..n] == ss[..n][s := AddTo(ss[s], l, nl)];
      var xs', ys' := InsertEntries(ss[..n], s, l, nl);
      xs, ys := xs', ys' + SectionEntries(n, ss[n]);
    }
  }

  lemma AppendTableEntries(d: Document, table: Path, l: Line, st: Style)
    requires d.sections != [] && l.Assign?
    ensures Entries(AppendTable(d, table, [l], st)) ==
            Entries(d) + [Table(|d.sections|, table, false), Setting(|d.sections|, 0, table, table + l.rel)]
  {
    var ended := EndDocument(d, st.nl);
    EndDocumentEntries(d, st.nl);
    var r := AppendTable(d, table, [l], st);
    var n := |r.sections| - 1;
    assert r.sections[..n] == ended.sections;
    var sec := r.sections[n];
    assert sec.body[..0] == [];
    assert BodyEntries(n, table, [l]) == [Setting(n, 0, table, table + l.rel)] by {
      assert [l][..0] == [];
      assert BodyEntries(n, table, [l][..0]) == [];
    }
    assert SectionEntries(n, sec) == [Table(n, table, false), Setting(n, 0, table, table + l.rel)];
  }

  // ---------- and whether it is still valid ----------

  lemma PrefixPath(path: Path, base: nat)
    requires base <= |path|
    ensures path[..base] + path[base..] == path
  {
  }

  /** The entries after an edit are those before it, with those it adds between them. */
  lemma OneEntries(d: Document, e: Edit, st: Style) returns (xs: seq<Entry>, ys: seq<Entry>, added: seq<Entry>)
    requires WellFormed(d) && e.path != []
    ensures Entries(d) == xs + ys && Entries(One(d, e, st)) == xs + added + ys
    ensures Decide(Entries(d), e.path).Replace? ==> added == []
    ensures Decide(Entries(d), e.path).Into? ==>
      var s := Decide(Entries(d), e.path).section;
      s < |d.sections| && added == Added(Entries(d), e, |d.sections|, |d.sections[s].body|)
    ensures Decide(Entries(d), e.path).NewTable? ==> added == Added(Entries(d), e, |d.sections|, 0)
  {
    hide Decide, FormatPath, AppendTable, EntriesOf, BaseOf, WellFormed, AddTo;
    DecidedIsIn(d, e.path);
    var es := Entries(d);
    match Decide(es, e.path)
    case Replace(s, k) =>
      SetValueEntries(d, s, k, e);
      xs, ys, added := es, [], [];
    case Into(s, base) =>
      var l := NewLine(e, base, st);
      xs, ys := InsertEntries(d.sections, s, l, st.nl);
      IntoSection(d, e.path);
      PrefixPath(e.path, base);
      added := [Setting(s, |d.sections[s].body|, BaseOf(d.sections[s]), BaseOf(d.sections[s]) + l.rel)];
    case NewTable =>
      var l := NewLine(e, |e.path| - 1, st);
      AppendTableEntries(d, Parent(e.path), l, st);
      PrefixPath(e.path, |e.path| - 1);
      xs, ys := es, [];
      added := [Table(|d.sections|, Parent(e.path), false),
                Setting(|d.sections|, 0, Parent(e.path), Parent(e.path) + l.rel)];
  }

  /** A key joins a section whose own path is the first part of the key's. */
  lemma IntoSection(d: Document, path: Path)
    requires WellFormed(d) && path != [] && Decide(Entries(d), path).Into?
    ensures var w := Decide(Entries(d), path);
            w.section < |d.sections| && w.base < |path| && BaseOf(d.sections[w.section]) == path[..w.base]
  {
    var es := Entries(d);
    EntriesAreHoused(d);
    var t, y := LastTable(es, Parent(path)), LastSibling(es, Parent(path));
    IntoBase(es, path);
    if t.Some? {
      EntriesSay(d.sections, t.value);
    } else {
      EntriesSay(d.sections, y.value);
    }
  }

  lemma {:induction false} ArrayPartConcat(all: seq<Entry>, a: seq<Entry>, b: seq<Entry>)
    ensures ArrayPart(all, a + b) == ArrayPart(all, a) + ArrayPart(all, b)
  {
    if b == [] {
      assert a + b == a;
    } else {
      assert (a + b)[..|a + b| - 1] == a + b[..|b| - 1];
      ArrayPartConcat(all, a, b[..|b| - 1]);
    }
  }

  lemma {:induction false} SameArrayPart(all: seq<Entry>, more: seq<Entry>, es: seq<Entry>)
    requires forall p :: InArray(all, p) == InArray(more, p)
    ensures ArrayPart(all, es) == ArrayPart(more, es)
  {
    if es != [] {
      SameArrayPart(all, more, es[..|es| - 1]);
    }
  }

  lemma {:induction false} NoArrayPart(all: seq<Entry>, es: seq<Entry>)
    requires forall e :: e in es ==> !InArray(all, e.path)
    ensures ArrayPart(all, es) == []
  {
    if es != [] {
      NoArrayPart(all, es[..|es| - 1]);
    }
  }

  /** Entries that are not arrays, nor under one. */
  ghost predicate Plain(all: seq<Entry>, added: seq<Entry>) {
    forall a :: a in added ==> !InArray(all, a.path) && (a.Table? ==> !a.isArray)
  }

  lemma PlainChangesNoArray(xs: seq<Entry>, ys: seq<Entry>, added: seq<Entry>, p: Path)
    requires Plain(xs + ys, added)
    ensures InArray(xs + added + ys, p) == InArray(xs + ys, p)
  {
    if InArray(xs + ys, p) {
      var t :| t in xs + ys && t.Table? && t.isArray && IsPrefix(t.path, p);
      assert t in xs + added + ys;
    }
    if InArray(xs + added + ys, p) {
      var t :| t in xs + added + ys && t.Table? && t.isArray && IsPrefix(t.path, p);
      assert t in xs + ys;
    }
  }

  lemma PlainArrayPart(xs: seq<Entry>, ys: seq<Entry>, added: seq<Entry>)
    requires Plain(xs + ys, added)
    ensures ArrayPart(xs + added + ys, xs + added + ys) == ArrayPart(xs + ys, xs + ys)
  {
    var es, fs := xs + ys, xs + added + ys;
    forall p
      ensures InArray(fs, p) == InArray(es, p)
    {
      PlainChangesNoArray(xs, ys, added, p);
    }
    SameArrayPart(fs, es, fs);
    hide InArray;
    ArrayPartConcat(es, xs, ys);
    ArrayPartConcat(es, xs + added, ys);
    ArrayPartConcat(es, xs, added);
    NoArrayPart(es, added);
  }

  /** Adding plain entries keeps every pair right if and only if they stand with each other and with what was there. */
  lemma PairsWithAdded(xs: seq<Entry>, ys: seq<Entry>, added: seq<Entry>)
    requires Plain(xs + ys, added)
    requires forall x :: x in xs + ys ==> x !in added
    ensures AllPairsOk(xs + added + ys) <==>
            && AllPairsOk(xs + ys)
            && (forall x, a :: x in xs + ys && a in added ==> Compatible(x, a))
            && (forall a, b :: a in added && b in added && a != b ==> Compatible(a, b))
  {
    var es, fs := xs + ys, xs + added + ys;
    forall x, y
      ensures PairOk(fs, x, y) == PairOk(es, x, y)
      ensures Compatible(x, y) == Compatible(y, x)
    {
      PlainChangesNoArray(xs, ys, added, x.path);
      PlainChangesNoArray(xs, ys, added, y.path);
    }
    hide Compatible, InArray;
    assert forall x :: x in fs <==> x in es || x in added;
    if AllPairsOk(fs) {
      forall x, a | x in es && a in added
        ensures Compatible(x, a)
      {
        assert x != a;
        assert PairOk(fs, x, a);
      }
      forall a, b | a in added && b in added && a != b
        ensures Compatible(a, b)
      {
        assert PairOk(fs, a, b);
      }
      forall x, y | x in es && y in es && x != y
        ensures PairOk(es, x, y)
      {
        assert PairOk(fs, x, y);
      }
    }
  }

  lemma AddedIsPlain(es: seq<Entry>, e: Edit, sections: nat, lines: nat)
    requires |e.path| >= 2 && !InArray(es, e.path)
    ensures Plain(es, Added(es, e, sections, lines))
    ensures var added := Added(es, e, sections, lines);
            forall a, b :: a in added && b in added && a != b ==> Compatible(a, b)
  {
    hide Decide;
    NotInArray(es, Parent(e.path), e.path);
  }

  /** Nothing was there before at the section and line of what is added. */
  lemma AddedIsNew(d: Document, e: Edit, x: Entry)
    requires WellFormed(d) && |e.path| >= 2 && x in Entries(d)
    ensures var w := Decide(Entries(d), e.path);
            && (w.Into? && w.section < |d.sections| ==>
                  x !in Added(Entries(d), e, |d.sections|, |d.sections[w.section].body|))
            && (w.NewTable? ==> x !in Added(Entries(d), e, |d.sections|, 0))
  {
    hide Decide;
    EntriesSay(d.sections, x);
  }

  /**
   An edit leaves a valid document if and only if the path was set, or free: no value on the way to it, and no table
   where it is. That is all the check of the result can ever refuse.
   */
  lemma ValidAfterIff(d: Document, e: Edit, st: Style, arrays: seq<Claim> -> bool)
    requires WellFormed(d) && |e.path| >= 2 && Valid(Entries(d), arrays) && !InArray(Entries(d), e.path)
    ensures Valid(Entries(One(d, e, st)), arrays) <==>
            Decide(Entries(d), e.path).Replace? || Free(Entries(d), e.path)
  {
    hide One, AllPairsOk, ArrayPart, Free, WellFormed, EntriesOf;
    var es := Entries(d);
    EntriesAreHoused(d);
    var xs, ys, added := OneEntries(d, e, st);
    var w := Decide(es, e.path);
    hide Decide;
    if !w.Replace? {
      var lines := if w.Into? then |d.sections[w.section].body| else 0;
      AddedIsPlain(es, e, |d.sections|, lines);
      forall x | x in es
        ensures x !in added
      {
        AddedIsNew(d, e, x);
      }
      PlainArrayPart(xs, ys, added);
      PairsWithAdded(xs, ys, added);
      FitsIffFree(es, e, |d.sections|, lines);
    } else {
      assert xs + added + ys == es;
    }
  }

  /** And what an edit leaves valid was valid before: no edit repairs one that does not stand. */
  lemma ValidBefore(d: Document, e: Edit, st: Style, arrays: seq<Claim> -> bool)
    requires WellFormed(d) && |e.path| >= 2 && !InArray(Entries(d), e.path)
    requires Valid(Entries(One(d, e, st)), arrays)
    ensures Valid(Entries(d), arrays)
  {
    hide One, AllPairsOk, ArrayPart, WellFormed, EntriesOf;
    var es := Entries(d);
    var xs, ys, added := OneEntries(d, e, st);
    var w := Decide(es, e.path);
    hide Decide;
    if !w.Replace? {
      var lines := if w.Into? then |d.sections[w.section].body| else 0;
      AddedIsPlain(es, e, |d.sections|, lines);
      forall x | x in es
        ensures x !in added
      {
        AddedIsNew(d, e, x);
      }
      PlainArrayPart(xs, ys, added);
      PairsWithAdded(xs, ys, added);
    } else {
      assert xs + added + ys == es;
    }
  }
}
