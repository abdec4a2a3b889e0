/** Small files that show where the editor and the merge (daemon/config/edit.go, inspect.go) fall short. */
module ConfigSamples {
  import opened Bytes
  import T = Text
  import opened Splice
  import opened Toml
  import opened TomlKeys
  import opened ConfigPlace
  import opened ConfigEdit
  import opened ConfigForm
  import opened ConfigSame
  import opened ConfigText
  import opened ConfigSetAll
  import opened ConfigReads
  import opened ConfigOneByOne
  import opened ConfigEnding
  import opened ConfigInspect
  import opened ConfigImport
  import opened ConfigMerge

  /** A file of one table with one key. */
  function OneTable(head: Header, key: Text, value: Text, compound: bool): Document {
    var line := Assign("", key, " = ", value, "\n", [key], compound);
    Document([Section("", None, []), Section("", Some(head), [line])], "")
  }

  /** A file that sets the key "a" of a table, and its owner's, which has a value in place of the table. */
  function TableAtKeys(): Document {
    OneTable(Header("[", "tui.keys", "]\n", ["tui", "keys"], false), "a", "1", false)
  }

  function ValueAtKeys(): Document {
    OneTable(Header("[", "tui", "]\n", ["tui"], false), "keys", "2", false)
  }

  lemma {:induction false} OneTableSays(head: Header, key: Text, value: Text, compound: bool)
    ensures Entries(OneTable(head, key, value, compound)) ==
            [Table(1, head.path, head.isArray), Setting(1, 0, head.path, head.path + [key])]
    ensures Settings(Entries(OneTable(head, key, value, compound))) == [Setting(1, 0, head.path, head.path + [key])]
  {
    var d := OneTable(head, key, value, compound);
    var body := d.sections[1].body;
    assert d.sections[..1] == [d.sections[0]] && [d.sections[0]][..0] == [];
    assert EntriesOf([d.sections[0]]) == [];
    assert body[..0] == [] && BodyEntries(1, head.path, body) == [Setting(1, 0, head.path, head.path + [key])];
    var t, x := Table(1, head.path, head.isArray), Setting(1, 0, head.path, head.path + [key]);
    assert [t, x][..1] == [t] && [t][..0] == [];
    assert Settings([t]) == [];
  }

  lemma OneTableIsGood(head: Header, key: Text, value: Text, compound: bool, lib: Library)
    requires TakesValues(lib) && GoodHeader(head) && !head.isArray && EndsLine(head.close)
    requires NoNewline(key) && key != "" && value != "" && !Blank(value[0]) && value[|value| - 1] != '\n' &&
             value[|value| - 1] != '\r'
    ensures var d := OneTable(head, key, value, compound); WellFormed(d) && Valid(Entries(d), lib.arrays)
  {
    hide GoodHeader, EntriesOf, Valid, GoodSection, LineText, IsEquals;
    var d := OneTable(head, key, value, compound);
    EqualsSign();
    OneTableSays(head, key, value, compound);
    TableAndKey(Table(1, head.path, head.isArray), Setting(1, 0, head.path, head.path + [key]), lib);
    LineEndsWith(d.sections[1].body[0], key + " = " + value, "\n");
    KeySectionIsGood(d.sections[1], d.sections[0]);
  }

  lemma LineEndsWith(l: Line, before: Text, tail: Text)
    requires l.Assign? && l.lead == "" && before == l.key + l.eq + l.value && l.tail == tail == "\n"
    ensures EndsLine(LineText(l))
  {
    var t := LineText(l);
    assert t == l.lead + l.key + l.eq + l.value + "\n";
    assert t[|t| - 1] == '\n';
  }

  lemma EqualsSign()
    ensures IsEquals(" = ") && NoNewline(" = ")
  {
    assert " = "[1] == '=';
  }

  lemma KeySectionIsGood(sec: Section, root: Section)
    requires sec.lead == "" && sec.head.Some? && GoodHeader(sec.head.value) && EndsLine(sec.head.value.close)
    requires |sec.body| == 1 && GoodLine(sec.body[0]) && sec.body[0].Assign?
    requires root == Section("", None, [])
    ensures GoodSection(sec) && GoodSection(root)
  {
    hide GoodHeader, GoodLine;
  }

  lemma TableAndKey(t: Entry, x: Entry, lib: Library)
    requires TakesValues(lib) && t.Table? && !t.isArray && x.Setting? && x.base == t.path && |t.path| < |x.path|
    ensures Valid([t, x], lib.arrays)
  {
    var es := [t, x];
    assert es[..1] == [t] && [t][..0] == [];
    assert forall p :: !InArray(es, p);
    assert ArrayPart(es, []) == [] && ArrayPart(es, [t]) == [];
    assert ArrayPart(es, es) == [];
  }

  /**
   Taking the stale keys out leaves their table's header, and a header is in the way of a key of its name: a client that
   gives up a table for a value leaves two files that cannot be merged.
   */
  lemma HeaderInTheWay(lib: Library, other: Text -> Raw)
    requires TakesValues(lib)
    ensures var b, o := TableAtKeys(), ValueAtKeys();
            && WellFormed(b) && WellFormed(o) && Valid(Entries(b), lib.arrays) && Valid(Entries(o), lib.arrays)
            && MergeOf(File(b, other), File(o, other), [], "tui", lib).NotMerged?
  {
    hide EntriesOf, MergeOf, TakesValues, CarryOf, ArrayPart, WellFormed, Valid, OneTable, CanMerge;
    OneTableIsGood(Header("[", "tui.keys", "]\n", ["tui", "keys"], false), "a", "1", false, lib);
    OneTableIsGood(Header("[", "tui", "]\n", ["tui"], false), "keys", "2", false, lib);
    var b, o := File(TableAtKeys(), other), File(ValueAtKeys(), other);
    HeaderStands(b, o, lib);
    MergesIff(b, o, [], [], "tui", lib);
    MergeFaults(b, o, [], "tui", lib);
  }

  lemma MergeFaults(b: File, o: File, names: seq<Name>, section: string, lib: Library)
    requires WellFormed(b.document) && WellFormed(o.document)
    requires Valid(Entries(b.document), lib.arrays) && Valid(Entries(o.document), lib.arrays)
    ensures !MergeOf(b, o, names, section, lib).Unread?
  {
    hide Valid, WellFormed, EntriesOf;
  }

  lemma HeaderStands(b: File, o: File, lib: Library)
    requires TakesValues(lib) && b.document == TableAtKeys() && o.document == ValueAtKeys()
    ensures !CanMerge(b, o, [], "tui", lib)
  {
    hide EntriesOf, Valid, TakesValues, OneTable, OneValue, Was, LineOf, Get, InArray, StaleOf;
    OneTableSays(Header("[", "tui.keys", "]\n", ["tui", "keys"], false), "a", "1", false);
    OneTableSays(Header("[", "tui", "]\n", ["tui"], false), "keys", "2", false);
    var x, t := Setting(1, 0, ["tui"], ["tui", "keys"]), Table(1, ["tui", "keys"], false);
    assert ["tui"] + ["keys"] == x.path && ["tui", "keys"] + ["a"] == ["tui", "keys", "a"];
    assert Entries(b.document) == [t, Setting(1, 0, ["tui", "keys"], ["tui", "keys", "a"])];
    assert Entries(o.document) == [Table(1, ["tui"], false), x];
    assert t in Entries(b.document) && IsPrefix(x.path, t.path);
    OnlyKey(o.document, x, lib);
    NotThere(b.document, Setting(1, 0, ["tui", "keys"], ["tui", "keys", "a"]), t, x.path);
    assert [x][..0] == [];
    var l := LineOf(o.document, x);
    assert Settings(Entries(o.document)) == [x] && [x][..|[x]| - 1] == [];
    assert CarryOf(b.document, o.document, [], "tui", lib) == Carry([], []);
    assert Of(x, "tui") && !Skips(o.document, x.path, l.value, lib) && Was(b.document, x.path).None?;
    assert CarryOf(b.document, o.document, [x], "tui", lib) == Carry([Edit(x.path, l.value, l.compound)], []);
    assert Carried'(b.document, o.document, "tui", lib).edits == [Edit(x.path, l.value, l.compound)];
    assert Edit(x.path, l.value, l.compound) in Carried'(b.document, o.document, "tui", lib).edits;
  }

  lemma OnlyKey(o: Document, x: Entry, lib: Library)
    requires TakesValues(lib) && o == ValueAtKeys() && x == Setting(1, 0, ["tui"], ["tui", "keys"])
    requires Entries(o) == [Table(1, ["tui"], false), x]
    ensures LineOf(o, x).value == "2" && OneValue("2", lib.isValue) && !InArray(Entries(o), x.path)
  {
    hide EntriesOf, TakesValues, OneValue;
    assert x in Entries(o);
    TwoIsTaken(lib);
  }

  lemma NotThere(b: Document, y: Entry, t: Entry, path: Path)
    requires Entries(b) == [t, y] && Settings(Entries(b)) == [y] && t.Table? && y.Setting? && y.path != path
    ensures Was(b, path).None? && Get(b, path).None?
  {
    hide EntriesOf, Settings, LineOf;
  }

  lemma TwoIsTaken(lib: Library)
    requires TakesValues(lib)
    ensures OneValue("2", lib.isValue)
  {
    assert T.Decimal(2) == "2";
    assert lib.isValue(T.Decimal(2));
  }

  lemma ThreeIsTaken(lib: Library)
    requires TakesValues(lib)
    ensures OneValue("3", lib.isValue)
  {
    assert T.Decimal(3) == "3";
    assert lib.isValue(T.Decimal(3));
  }

  // ---------- a line ending that an edit takes away ----------

  /** A file whose only carriage return is inside a value, and edits that replace that value and then add a key. */
  function EndingInValue(): Document {
    OneTable(Header("[", "tui", "]\n", ["tui"], false), "x", "[\r\n1]", true)
  }

  const ValueThenKey: seq<Edit> := [Edit(["tui", "x"], "2", false), Edit(["tui", "y"], "3", false)]

  lemma EndingText()
    ensures HasCrLf(Render(EndingInValue()))
    ensures !HasCrLf(Render(OneTable(Header("[", "tui", "]\n", ["tui"], false), "x", "2", false)))
  {
    hide HasCrLf, Render, OneTable;
    OneTableText(Header("[", "tui", "]\n", ["tui"], false), "x", "[\r\n1]", true);
    OneTableText(Header("[", "tui", "]\n", ["tui"], false), "x", "2", false);
    Spelled();
    Lettered();
  }

  lemma Spelled()
    ensures "[" + "tui" + "]\n" == "[tui]\n"
    ensures "x" + " = " + "[\r\n1]" + "\n" == "x = [\r\n1]\n"
    ensures "x" + " = " + "2" + "\n" == "x = 2\n"
  {
  }

  lemma Lettered()
    ensures HasCrLf("[tui]\n" + "x = [\r\n1]\n") && !HasCrLf("[tui]\n" + "x = 2\n")
  {
    var t := "[tui]\n" + "x = [\r\n1]\n";
    assert t[11] == '\r' && t[12] == '\n';
    assert forall c :: c in "[tui]\n" + "x = 2\n" ==> c != '\r';
  }

  lemma OneTableText(head: Header, key: Text, value: Text, compound: bool)
    ensures Render(OneTable(head, key, value, compound)) ==
            (head.open + head.key + head.close) + (key + " = " + value + "\n")
  {
    hide LineText, BodyText, SectionsText, SectionText;
    var d := OneTable(head, key, value, compound);
    var root, sec := d.sections[0], d.sections[1];
    assert d.sections[..1] == [root] && [root][..0] == [];
    RootText(root);
    OneLineText(sec.body[0], key, value);
    KeyTableText(sec, head, key + " = " + value + "\n");
    LastSectionText(d.sections);
    assert Render(d) == "" + SectionText(sec) + "";
  }

  lemma LastSectionText(ss: seq<Section>)
    requires |ss| == 2
    ensures SectionsText(ss) == SectionsText([ss[0]]) + SectionText(ss[1])
  {
    hide SectionText;
    assert ss[..1] == [ss[0]];
  }

  lemma RootText(root: Section)
    requires root == Section("", None, [])
    ensures SectionsText([root]) == ""
  {
    assert [root][..0] == [];
    assert SectionsText([]) == "";
  }

  lemma OneLineText(l: Line, key: Text, value: Text)
    requires l.Assign? && l.lead == "" && l.key == key && l.eq == " = " && l.value == value && l.tail == "\n"
    ensures LineText(l) == key + " = " + value + "\n"
  {
    assert "" + key == key;
  }

  lemma KeyTableText(sec: Section, head: Header, line: Text)
    requires sec.lead == "" && sec.head == Some(head) && |sec.body| == 1 && LineText(sec.body[0]) == line
    ensures SectionText(sec) == (head.open + head.key + head.close) + line
  {
    hide LineText;
    OneLineBody(sec.body[0]);
    assert [sec.body[0]] == sec.body;
    assert "" + HeadText(sec.head) == HeadText(sec.head);
  }

  /**
   Both ways succeed, and leave other bytes: set one at a time, the second edit finds no carriage return left and writes
   a plain newline.
   */
  lemma EndingIsLost(lib: Library)
    requires TakesValues(lib)
    ensures var d, edits := EndingInValue(), ValueThenKey;
            && WellFormed(d) && SetAllOf(d, edits, lib).Done? && SetEachOf(d, edits, lib).Done?
            && Render(SetAllOf(d, edits, lib).document) != Render(SetEachOf(d, edits, lib).document)
  {
    hide HasCrLf, Render, EntriesOf, OneTable, WellFormed, Valid, TakesValues, SetAllOf, SetEachOf, KeepsEnding,
         Settable, Unnested, FirstFault, FaultOf;
    EndingIsNotKept(lib);
    EndingSucceeds(lib);
    AllAtOnceIsOneByOne(EndingInValue(), ValueThenKey, lib);
  }

  lemma EndingEntries(lib: Library)
    requires TakesValues(lib)
    ensures var d := EndingInValue();
            && WellFormed(d) && Valid(Entries(d), lib.arrays)
            && Entries(d) == [Table(1, ["tui"], false), Setting(1, 0, ["tui"], ["tui", "x"])]
  {
    hide EntriesOf, WellFormed, Valid, TakesValues, OneTable;
    var h := Header("[", "tui", "]\n", ["tui"], false);
    OneTableIsGood(h, "x", "[\r\n1]", true, lib);
    OneTableSays(h, "x", "[\r\n1]", true);
    assert ["tui"] + ["x"] == ["tui", "x"];
  }

  lemma EndingIsNotKept(lib: Library)
    requires TakesValues(lib)
    ensures WellFormed(EndingInValue()) && GoodEdits(ValueThenKey) && !KeepsEnding(EndingInValue(), ValueThenKey)
  {
    hide HasCrLf, Render, EntriesOf, OneTable, WellFormed, Valid, TakesValues;
    EndingEntries(lib);
    assert GoodEdits(ValueThenKey);
    EndingText();
    OnlyFirstIsSet(Entries(EndingInValue()), Setting(1, 0, ["tui"], ["tui", "x"]));
    assert ValueThenKey[..1] == [ValueThenKey[0]];
    ValueReplaced(Style("\r\n", (c: char) => false));
  }

  lemma EndingSucceeds(lib: Library)
    requires TakesValues(lib) && WellFormed(EndingInValue())
    ensures SetAllOf(EndingInValue(), ValueThenKey, lib).Done?
  {
    hide EntriesOf, OneTable, WellFormed, Valid, TakesValues, SetAllOf, FirstFault;
    EndingEntries(lib);
    var d, edits := EndingInValue(), ValueThenKey;
    var t, x := Table(1, ["tui"], false), Setting(1, 0, ["tui"], ["tui", "x"]);
    OnlyFirstIsSet(Entries(d), x);
    TwoIsTaken(lib);
    ThreeIsTaken(lib);
    assert ["tui", "x"][1] != ["tui", "y"][1];
    forall i | 0 <= i < |edits|
      ensures FaultOf(d, edits[i], lib).None? && Settable(d, edits[i].path)
    {
      ApartInTable(d, t, x, edits[i].path);
    }
    FaultsAreEach(d, edits, lib);
    SucceedsIff(d, edits, lib);
  }

  lemma ApartInTable(d: Document, t: Entry, x: Entry, path: Path)
    requires Entries(d) == [t, x] && t == Table(1, ["tui"], false) && x == Setting(1, 0, ["tui"], ["tui", "x"])
    requires path == ["tui", "x"] || path == ["tui", "y"]
    ensures Reachable(d, path) && Settable(d, path)
  {
    hide EntriesOf;
    assert ["tui", "x"][1] != ["tui", "y"][1];
    assert x in Entries(d);
  }

  lemma OnlyFirstIsSet(es: seq<Entry>, x: Entry)
    requires es == [Table(1, ["tui"], false), x] && x == Setting(1, 0, ["tui"], ["tui", "x"])
    ensures FirstSet(es, ["tui", "x"]) == Some(x) && FirstNew(es, ValueThenKey) == 1
  {
    assert es[1..] == [x] && [x][1..] == [];
    var edits := ValueThenKey;
    assert edits[..1] == [edits[0]] && [edits[0]][..0] == [];
    assert ["tui", "x"][1] != ["tui", "y"][1];
    assert FirstSet(es, ["tui", "y"]).None?;
    assert FirstNew(es, [edits[0]]) == 1;
  }

  lemma ValueReplaced(st: Style)
    requires GoodStyle(st) && WellFormed(EndingInValue()) && GoodEdits(ValueThenKey[..1])
    requires Entries(EndingInValue()) == [Table(1, ["tui"], false), Setting(1, 0, ["tui"], ["tui", "x"])]
    ensures Each(EndingInValue(), ValueThenKey[..1], st) ==
            OneTable(Header("[", "tui", "]\n", ["tui"], false), "x", "2", false)
  {
    hide EntriesOf, WellFormed;
    var d, x := EndingInValue(), Setting(1, 0, ["tui"], ["tui", "x"]);
    OnlyFirstIsSet(Entries(d), x);
    var edits := ValueThenKey[..1];
    assert edits[..0] == [];
    OneIs(d, edits[0], st);
    assert Decide(Entries(d), ["tui", "x"]) == Replace(1, 0);
    assert Each(d, [], st) == d;
    var r, o := SetValue(d, 1, 0, edits[0]), OneTable(Header("[", "tui", "]\n", ["tui"], false), "x", "2", false);
    assert r.sections[1].body == o.sections[1].body;
    assert r.sections == o.sections;
  }

  // ---------- an edit that is taken for another ----------

  const OneKeyTwoPaths: seq<Edit> := [Edit(["tui", "a\0b"], "1", false), Edit(["tui", "a", "b"], "2", false)]

  /**
   Two settings of a new file, kept by their joined keys: the second is lost, and its value is given to the first. Kept
   by their paths each has its own.
   */
  lemma ValueOfAnother(lib: Library)
    requires TakesValues(lib)
    ensures WellFormed(ExportBase())
    ensures var p, q := OneKeyTwoPaths[0].path, OneKeyTwoPaths[1].path;
            var joined := SetAllOf(ExportBase(), ById(OneKeyTwoPaths), lib);
            var own := SetAllOf(ExportBase(), OneKeyTwoPaths, lib);
            && joined.Done? && Get(joined.document, p) == Some("2") && Get(joined.document, q) == None
            && own.Done? && Get(own.document, p) == Some("1") && Get(own.document, q) == Some("2")
  {
    hide EntriesOf, WellFormed, Valid, TakesValues, SetAllOf, ExportBase, Get, OneValue;
    var edits := OneKeyTwoPaths;
    var p, q := edits[0].path, edits[1].path;
    JoinedEdits();
    BaseIsGood(lib);
    OneIsTaken(lib);
    TwoIsTaken(lib);
    assert p[1] != q[1] by { assert |"a\0b"| == 3 && |"a"| == 1; }
    NewFileTakes(edits, lib);
    NewFileTakes([Edit(p, "2", false)], lib);
    ReadsBack(ExportBase(), edits, lib, p);
    ReadsBack(ExportBase(), edits, lib, q);
    ReadsBack(ExportBase(), [Edit(p, "2", false)], lib, p);
    ReadsBack(ExportBase(), [Edit(p, "2", false)], lib, q);
    assert edits[..1] == [edits[0]] && [edits[0]][..0] == [] && [Edit(p, "2", false)][..0] == [];
    NothingIsSet(ExportBase(), q);
  }

  lemma NothingIsSet(d: Document, path: Path)
    requires Entries(d) == []
    ensures Get(d, path).None?
  {
  }

  lemma OneIsTaken(lib: Library)
    requires TakesValues(lib)
    ensures OneValue("1", lib.isValue)
  {
    assert T.Decimal(1) == "1";
    assert lib.isValue(T.Decimal(1));
  }

  lemma JoinedEdits()
    ensures ById(OneKeyTwoPaths) == [Edit(["tui", "a\0b"], "2", false)]
  {
    hide Id;
    IdsCollide();
    var edits := OneKeyTwoPaths;
    assert edits[..1] == [edits[0]] && [edits[0]][..0] == [];
    assert ById([edits[0]]) == [edits[0]];
  }

  lemma NewFileTakes(edits: seq<Edit>, lib: Library)
    requires TakesValues(lib) && WellFormed(ExportBase()) && Unnested(edits)
    requires forall i :: 0 <= i < |edits| ==> |edits[i].path| >= 2 && OneValue(edits[i].literal, lib.isValue)
    ensures SetAllOf(ExportBase(), edits, lib).Done?
  {
    hide EntriesOf, WellFormed, Valid, TakesValues, SetAllOf, ExportBase, OneValue, FirstFault;
    BaseIsGood(lib);
    forall i | 0 <= i < |edits|
      ensures FaultOf(ExportBase(), edits[i], lib).None? && Settable(ExportBase(), edits[i].path)
    {
    }
    FaultsAreEach(ExportBase(), edits, lib);
    SucceedsIff(ExportBase(), edits, lib);
  }
}
