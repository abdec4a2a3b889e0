/**
 A TOML document as the editor sees it: the lines it is made of, each with the text it was written as, and what they
 set. Which documents are valid follows the sections "Keys" and "Table" of TOML v1.0.0.
 */
module Toml {
  import opened Bytes
  import opened Splice

  type Path = seq<string>

  predicate IsPrefix(a: Path, b: Path) {
    |a| <= |b| && b[..|a|] == a
  }

  // ---------- lines ----------

  /** A table's line: its brackets, its key as written, and the rest of the line. */
  datatype Header = Header(open: Text, key: Text, close: Text, path: Path, isArray: bool)

  /**
   A key and its value, each as written, with what surrounds them: rel is the path the key spells, from its table on,
   and compound says that something may be set inside the value. Any other line is blank or a comment.
   */
  datatype Line =
    | Assign(lead: Text, key: Text, eq: Text, value: Text, tail: Text, rel: Path, compound: bool)
    | Other(text: Text)

  /**
   A table's lines, down to its last key; lead is what stands between the last key of the table before and its header.
   The first section is the root, which has no header.
   */
  datatype Section = Section(lead: Text, head: Option<Header>, body: seq<Line>)

  /** ending is what follows the last key of the last section. */
  datatype Document = Document(sections: seq<Section>, ending: Text)

  function LineText(l: Line): Text {
    match l
    case Assign(lead, key, eq, value, tail, _, _) => lead + key + eq + value + tail
    case Other(text) => text
  }

  function HeadText(h: Option<Header>): Text {
    if h.None? then "" else h.value.open + h.value.key + h.value.close
  }

  function BodyText(body: seq<Line>): Text {
    if body == [] then "" else BodyText(body[..|body| - 1]) + LineText(body[|body| - 1])
  }

  function SectionText(s: Section): Text {
    s.lead + HeadText(s.head) + BodyText(s.body)
  }

  function SectionsText(ss: seq<Section>): Text {
    if ss == [] then "" else SectionsText(ss[..|ss| - 1]) + SectionText(ss[|ss| - 1])
  }

  function Render(d: Document): Text {
    SectionsText(d.sections) + d.ending
  }

  // ---------- well-formed documents ----------

  predicate Blank(c: char) {
    c == ' ' || c == '\t'
  }

  /** No newline but at the end, and no carriage return but before a newline. */
  predicate OneLine(t: Text) {
    && (forall i :: 0 <= i < |t| && t[i] == '\n' ==> i == |t| - 1)
    && (t != "" ==> t[|t| - 1] != '\r')
  }

  predicate NoNewline(t: Text) {
    '\n' !in t && '\r' !in t
  }

  /** An equals sign with blanks around it. */
  predicate IsEquals(t: Text) {
    exists i :: 0 <= i < |t| && t[i] == '=' && forall j :: 0 <= j < |t| && j != i ==> Blank(t[j])
  }

  predicate GoodLine(l: Line) {
    match l
    case Assign(lead, key, eq, value, tail, rel, _) =>
      && (forall i :: 0 <= i < |lead| ==> Blank(lead[i]))
      && NoNewline(key) && key != ""
      && NoNewline(eq) && IsEquals(eq)
      && value != "" && !Blank(value[0]) && value[|value| - 1] != '\n' && value[|value| - 1] != '\r'
      && OneLine(tail)
      && rel != []
    case Other(text) => text != "" && OneLine(text)
  }

  predicate GoodHeader(h: Header) {
    && '[' in h.open && NoNewline(h.open) && NoNewline(h.key)
    && h.close != "" && h.close[0] != '\n' && OneLine(h.close)
    && h.path != []
  }

  predicate GoodBody(body: seq<Line>) {
    && (forall k :: 0 <= k < |body| ==> GoodLine(body[k]))
    && (body != [] ==> body[|body| - 1].Assign?)
    && (forall k :: 0 <= k < |body| - 1 ==> EndsLine(LineText(body[k])))
  }

  predicate GoodSection(s: Section) {
    && (s.lead != "" ==> EndsLine(s.lead))
    && (s.head.Some? ==> GoodHeader(s.head.value))
    && (s.head.Some? && s.body != [] ==> EndsLine(s.head.value.close))
    && GoodBody(s.body)
  }

  /** What a scan of a valid file yields. Only the very last line may be without its newline. */
  predicate WellFormed(d: Document) {
    && d.sections != []
    && d.sections[0].head.None? && d.sections[0].lead == ""
    && (forall s :: 0 < s < |d.sections| ==> d.sections[s].head.Some?)
    && (forall s :: 0 <= s < |d.sections| ==> GoodSection(d.sections[s]))
    && (forall s :: 0 <= s < |d.sections| - 1 ==> SectionEnds(d.sections[s]))
    && (d.ending != "" ==> SectionEnds(d.sections[|d.sections| - 1]) && d.ending[|d.ending| - 1] != '\r')
  }

  /** A section whose last line has its newline, or that has no line. */
  predicate SectionEnds(s: Section) {
    if s.body != [] then EndsLine(LineText(s.body[|s.body| - 1]))
    else s.head.Some? ==> EndsLine(s.head.value.close)
  }

  // ---------- what a document says ----------

  /** A table it declares, or a key it sets; section and line are where. */
  datatype Entry =
    | Table(section: nat, path: Path, isArray: bool)
    | Setting(section: nat, line: nat, base: Path, path: Path)

  function BaseOf(s: Section): Path {
    if s.head.Some? then s.head.value.path else []
  }

  function LineEntries(s: nat, k: nat, base: Path, l: Line): seq<Entry> {
    if l.Assign? then [Setting(s, k, base, base + l.rel)] else []
  }

  function BodyEntries(s: nat, base: Path, body: seq<Line>): seq<Entry> {
    if body == [] then []
    else BodyEntries(s, base, body[..|body| - 1]) + LineEntries(s, |body| - 1, base, body[|body| - 1])
  }

  function HeadEntries(s: nat, h: Option<Header>): seq<Entry> {
    if h.Some? then [Table(s, h.value.path, h.value.isArray)] else []
  }

  function SectionEntries(s: nat, sec: Section): seq<Entry> {
    HeadEntries(s, sec.head) + BodyEntries(s, BaseOf(sec), sec.body)
  }

  function EntriesOf(ss: seq<Section>): seq<Entry> {
    if ss == [] then []
    else EntriesOf(ss[..|ss| - 1]) + SectionEntries(|ss| - 1, ss[|ss| - 1])
  }

  function Entries(d: Document): seq<Entry> {
    EntriesOf(d.sections)
  }

  /** The table or the key that an entry is, in its section. */
  predicate SaysIn(sec: Section, e: Entry) {
    match e
    case Table(_, path, isArray) =>
      sec.head.Some? && sec.head.value.path == path && sec.head.value.isArray == isArray
    case Setting(_, k, base, path) =>
      k < |sec.body| && sec.body[k].Assign? && base == BaseOf(sec) && path == base + sec.body[k].rel
  }

  predicate Says(ss: seq<Section>, e: Entry) {
    e.section < |ss| && SaysIn(ss[e.section], e)
  }

  lemma {:induction false} BodyEntriesSay(s: nat, base: Path, body: seq<Line>, e: Entry)
    ensures e in BodyEntries(s, base, body) <==>
            && e.Setting? && e.section == s && e.line < |body| && body[e.line].Assign?
            && e.base == base && e.path == base + body[e.line].rel
  {
    if body != [] {
      BodyEntriesSay(s, base, body[..|body| - 1], e);
    }
  }

  lemma SectionEntriesSay(s: nat, sec: Section, e: Entry)
    ensures e in SectionEntries(s, sec) <==> e.section == s && SaysIn(sec, e)
  {
    BodyEntriesSay(s, BaseOf(sec), sec.body, e);
    hide BodyEntries;
  }

  /** An entry is listed if and only if the document says it. */
  lemma {:induction false} EntriesSay(ss: seq<Section>, e: Entry)
    ensures e in EntriesOf(ss) <==> Says(ss, e)
  {
    hide SectionEntries, SaysIn;
    if ss != [] {
      EntriesSay(ss[..|ss| - 1], e);
      SectionEntriesSay(|ss| - 1, ss[|ss| - 1], e);
    }
  }

  // ---------- valid documents ----------

  /**
   Two entries that may stand in one document: no key twice and none inside a value, no table twice, no table where
   there is a value, and no table with a header that dotted keys of another table define.
   */
  predicate Compatible(x: Entry, y: Entry) {
    match (x, y)
    case (Table(_, p, _), Table(_, q, _)) => p != q
    case (Table(_, p, _), Setting(_, _, base, q)) =>
      !IsPrefix(q, p) && !(IsPrefix(p, q) && |base| < |p|)
    case (Setting(_, _, base, q), Table(_, p, _)) =>
      !IsPrefix(q, p) && !(IsPrefix(p, q) && |base| < |p|)
    case (Setting(_, _, _, p), Setting(_, _, _, q)) => !IsPrefix(p, q) && !IsPrefix(q, p)
  }

  /** The rules at the examples of TOML v1.0.0, sections "Keys", "Table" and "Inline Table". */
  lemma AsInTheStandard(i: nat, j: nat, k: nat)
    // A key, twice.
    ensures !Compatible(Setting(0, i, [], ["name"]), Setting(0, j, [], ["name"]))
    // fruit.apple = 1, then fruit.apple.smooth = true.
    ensures !Compatible(Setting(0, i, [], ["fruit", "apple"]), Setting(0, j, [], ["fruit", "apple", "smooth"]))
    // fruit.apple.smooth = true, then fruit.orange = 2.
    ensures Compatible(Setting(0, i, [], ["fruit", "apple", "smooth"]), Setting(0, j, [], ["fruit", "orange"]))
    // A table, twice.
    ensures !Compatible(Table(i, ["fruit"], false), Table(j, ["fruit"], false))
    // apple = "red" in [fruit], then [fruit.apple].
    ensures !Compatible(Setting(i, k, ["fruit"], ["fruit", "apple"]), Table(j, ["fruit", "apple"], false))
    // [x.y.z.w], then [x].
    ensures Compatible(Table(i, ["x", "y", "z", "w"], false), Table(j, ["x"], false))
    // apple.taste.sweet = true in [fruit], then [fruit.apple], [fruit.apple.taste] and [fruit.apple.texture].
    ensures var sweet := Setting(i, k, ["fruit"], ["fruit", "apple", "taste", "sweet"]);
            && !Compatible(sweet, Table(j, ["fruit", "apple"], false))
            && !Compatible(sweet, Table(j, ["fruit", "apple", "taste"], false))
            && Compatible(sweet, Table(j, ["fruit", "apple", "texture"], false))
    // A key in [x.y], then [x].
    ensures Compatible(Setting(i, k, ["x", "y"], ["x", "y", "key"]), Table(j, ["x"], false))
    // In whichever order.
    ensures forall x, y :: Compatible(x, y) <==> Compatible(y, x)
  {
    assert ["fruit", "apple", "smooth"][..2] == ["fruit", "apple"];
    assert ["fruit", "apple", "taste", "sweet"][..2] == ["fruit", "apple"];
    assert ["fruit", "apple", "taste", "sweet"][..3] == ["fruit", "apple", "taste"];
    assert ["fruit", "apple", "taste", "sweet"][..3][2] != ["fruit", "apple", "texture"][2];
    assert ["fruit", "apple"] == ["fruit", "apple"][..2];
    assert ["fruit", "apple", "smooth"][..2][1] != ["fruit", "orange"][1];
    assert ["name"] == ["name"][..1];
  }

  /** Under an array of tables, where a path names one thing in each of its elements. */
  predicate InArray(es: seq<Entry>, path: Path) {
    exists t :: t in es && t.Table? && t.isArray && IsPrefix(t.path, path)
  }

  /** An entry without where it is. */
  datatype Claim = Declares(path: Path, isArray: bool) | Sets(base: Path, path: Path)

  function ClaimOf(e: Entry): Claim {
    if e.Table? then Declares(e.path, e.isArray) else Sets(e.base, e.path)
  }

  /** What is declared and set under arrays of tables, whose own rules arrays decides. */
  function ArrayPart(all: seq<Entry>, es: seq<Entry>): seq<Claim> {
    if es == [] then []
    else ArrayPart(all, es[..|es| - 1]) + (if InArray(all, es[|es| - 1].path) then [ClaimOf(es[|es| - 1])] else [])
  }

  predicate PairOk(es: seq<Entry>, x: Entry, y: Entry) {
    (InArray(es, x.path) && InArray(es, y.path)) || Compatible(x, y)
  }

  predicate AllPairsOk(es: seq<Entry>) {
    forall x, y :: x in es && y in es && x != y ==> PairOk(es, x, y)
  }

  predicate Valid(es: seq<Entry>, arrays: seq<Claim> -> bool) {
    AllPairsOk(es) && arrays(ArrayPart(es, es))
  }

  // ---------- reading ----------

  /** The first entry that sets a path. */
  function FirstSet(es: seq<Entry>, path: Path): (r: Option<Entry>)
    ensures r.Some? ==> r.value in es && r.value.Setting? && r.value.path == path
    ensures r.None? ==> forall e :: e in es && e.Setting? ==> e.path != path
  {
    if es == [] then None
    else if es[0].Setting? && es[0].path == path then Some(es[0])
    else FirstSet(es[1..], path)
  }

  /** The line of a key. */
  function LineOf(d: Document, e: Entry): (l: Line)
    requires e in Entries(d) && e.Setting?
    ensures l.Assign? && e.path == e.base + l.rel
  {
    EntriesSay(d.sections, e);
    d.sections[e.section].body[e.line]
  }

  /** The value a path has. */
  function Get(d: Document, path: Path): Option<Text> {
    var e := FirstSet(Entries(d), path);
    if e.Some? then Some(LineOf(d, e.value).value) else None
  }
}
