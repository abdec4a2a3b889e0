/**
 What a config file sets, by key (daemon/config/load.go, keys.go): values as the TOML library decodes them, checked
 against what each key accepts.
 */
module ConfigInspect {
  import opened Bytes
  import T = Text
  import opened Splice
  import opened Toml
  import opened TomlKeys
  import opened ConfigPlace
  import opened ConfigEdit
  import opened ConfigForm
  import opened ConfigBatch
  import opened ConfigFold
  import opened ConfigSame
  import opened ConfigScan
  import opened ConfigSetAll
  import opened ConfigReads
  import opened ConfigRepeats
  import opened ConfigOneByOne

  // ---------- values ----------

  /** A decoded value: what of it the keys distinguish. */
  datatype Raw = RString(text: string) | RInteger(n: int) | RInline(entries: map<string, Raw>) | RNested | ROther

  /** A value's text, decoded: a basic string and a plain number here, anything else as the library has it. */
  function ReadRaw(t: Text, other: Text -> Raw): Raw {
    if t != "" && t[0] == '"' && ReadBasic(t[1..]).Some? && ReadBasic(t[1..]).value.1 == "" then
      RString(ReadBasic(t[1..]).value.0)
    else if t != "" && T.AllDigits(t) && (t == "0" || t[0] != '0') then RInteger(T.Value(t))
    else other(t)
  }

  lemma StringReads(s: string, removes: char -> bool, other: Text -> Raw)
    ensures ReadRaw(BasicString(s, removes), other) == RString(s)
  {
    BasicStringReads(s, removes, "");
    var t := BasicString(s, removes);
    assert t[1..] == EscapeAll(s, removes) + "\"" + "";
  }

  lemma NumberReads(n: nat, other: Text -> Raw)
    ensures ReadRaw(T.Decimal(n), other) == RInteger(n)
  {
    T.DecimalIsNumeral(n);
    var t := T.Decimal(n);
    assert T.IsDigit(t[0]);
  }

  // ---------- keys ----------

  datatype Kind = Enum(values: seq<string>) | Color | AnyText | TableOf

  /** A setting: the parts of its name, the section it belongs to, and what it accepts. */
  datatype Key = Key(parts: seq<string>, section: string, kind: Kind, portable: bool)

  const Keys: seq<Key> := [
    Key(["clock"], "shared", Enum(["24h", "12h"]), true),
    Key(["colors", "accent"], "tui", Color, true),
    Key(["colors", "warn"], "tui", Color, true),
    Key(["colors", "danger"], "tui", Color, true),
    Key(["colors", "dim"], "tui", Color, true),
    Key(["colors", "bright"], "tui", Color, true),
    Key(["theme"], "tui", AnyText, true),
    Key(["keys"], "tui", TableOf, true),
    Key(["layout"], "tui", TableOf, true)]

  /** A key under a section, or an entry of a key that is a table. */
  datatype Name = Name(section: string, key: Key, inner: Option<string>)

  predicate GoodName(n: Name, keys: seq<Key>) {
    && n.key in keys && n.key.parts != []
    && (n.key.section == "shared" || n.key.section == n.section)
    && (n.inner.Some? <==> n.key.kind.TableOf?)
  }

  function PathOf(n: Name): Path {
    [n.section] + n.key.parts + (if n.inner.Some? then [n.inner.value] else [])
  }

  /** No key's name lies inside another's. */
  predicate GoodKeys(keys: seq<Key>) {
    forall i, j :: 0 <= i < |keys| && 0 <= j < |keys| && IsPrefix(keys[i].parts, keys[j].parts) ==> i == j
  }

  lemma KeysAreGood()
    ensures GoodKeys(Keys)
  {
    forall i, j | 0 <= i < |Keys| && 0 <= j < |Keys| && IsPrefix(Keys[i].parts, Keys[j].parts)
      ensures i == j
    {
      var a, b := Keys[i].parts, Keys[j].parts;
      assert a[0] == b[..|a|][0];
      assert |a| == |b|;
      assert a == b[..|a|] == b;
      assert |a| == 2 ==> a[1] == b[1];
    }
  }

  lemma PartsNest(a: Name, b: Name)
    requires IsPrefix(PathOf(a), PathOf(b))
    ensures a.section == b.section
    ensures IsPrefix(a.key.parts, b.key.parts) || IsPrefix(b.key.parts, a.key.parts)
    ensures a.key.parts == b.key.parts && a.inner.Some? && b.inner.Some? ==> a.inner == b.inner
  {
    var p, q := PathOf(a), PathOf(b);
    var m, n := |a.key.parts|, |b.key.parts|;
    assert forall i :: 0 <= i < |p| ==> p[i] == q[..|p|][i] == q[i];
    assert a.section == p[0] == q[0] == b.section;
    assert forall i :: 0 <= i < m ==> a.key.parts[i] == p[i + 1];
    assert forall i :: 0 <= i < n ==> b.key.parts[i] == q[i + 1];
    if m <= n {
      assert b.key.parts[..m] == a.key.parts;
    } else {
      assert a.key.parts[..n] == b.key.parts;
    }
    assert a.inner.Some? ==> p[m + 1] == a.inner.value;
    assert b.inner.Some? ==> q[n + 1] == b.inner.value;
  }

  /** Two names that differ are paths apart. */
  lemma NamesApart(a: Name, b: Name, keys: seq<Key>)
    requires GoodKeys(keys) && GoodName(a, keys) && GoodName(b, keys) && IsPrefix(PathOf(a), PathOf(b))
    ensures a == b
  {
    hide IsPrefix;
    PartsNest(a, b);
    var i :| 0 <= i < |keys| && keys[i] == a.key;
    var j :| 0 <= j < |keys| && keys[j] == b.key;
  }

  predicate HexDigitChar(c: char) {
    '0' <= c <= '9' || 'a' <= c <= 'f' || 'A' <= c <= 'F'
  }

  predicate IsHexColor(s: string) {
    |s| == 7 && s[0] == '#' && forall i :: 1 <= i < 7 ==> HexDigitChar(s[i])
  }

  function LowerChar(c: char): char {
    if 'A' <= c <= 'Z' then c + 32 as char else c
  }

  function Lower(s: string): string {
    seq(|s|, i requires 0 <= i < |s| => LowerChar(s[i]))
  }

  /** The value a key keeps of what a file gives it. */
  function Checked(kind: Kind, raw: Raw): Option<string> {
    match kind
    case Enum(values) => if raw.RString? && raw.text in values then Some(raw.text) else None
    case Color =>
      if raw.RInteger? && 0 <= raw.n <= 255 then Some(T.Decimal(raw.n))
      else if raw.RString? && IsHexColor(raw.text) then Some(Lower(raw.text))
      else None
    case AnyText => if raw.RString? then Some(raw.text) else None
    case TableOf => None
  }

  predicate SignedDigits(s: string) {
    s != "" && (T.AllDigits(s) || ((s[0] == '+' || s[0] == '-') && |s| > 1 && T.AllDigits(s[1..])))
  }

  function SignedValue(s: string): int
    requires SignedDigits(s)
  {
    var n: int := if T.AllDigits(s) then T.Value(s) else T.Value(s[1..]);
    if s[0] == '-' then 0 - n else n
  }

  /** What somebody typed for a key, as the file will spell it. */
  function Literal(n: Name, input: string, removes: char -> bool): Option<Text> {
    match n.key.kind
    case Enum(values) => if input in values then Some(BasicString(input, removes)) else None
    case Color =>
      if SignedDigits(input) then
        if 0 <= SignedValue(input) <= 255 then Some(T.Decimal(SignedValue(input))) else None
      else if IsHexColor(input) then Some(BasicString(Lower(input), removes))
      else None
    case AnyText => Some(BasicString(input, removes))
    case TableOf => Some(BasicString(input, removes))
  }

  /** A value that a file can hold for a name. */
  ghost predicate Accepts(n: Name, v: string) {
    n.key.kind.TableOf? || exists raw :: Checked(n.key.kind, raw) == Some(v)
  }

  /** What reading a name back gives, of a value's text. */
  function Seen(n: Name, raw: Raw): Option<string> {
    if n.key.kind.TableOf? then (if raw.RString? then Some(raw.text) else None) else Checked(n.key.kind, raw)
  }

  lemma LowerTwice(s: string)
    requires IsHexColor(s)
    ensures IsHexColor(Lower(s)) && Lower(Lower(s)) == Lower(s) && !SignedDigits(Lower(s))
  {
    assert forall i :: 1 <= i < 7 ==> HexDigitChar(LowerChar(s[i]));
    assert Lower(Lower(s)) == Lower(s);
    assert Lower(s)[0] == '#' && !T.IsDigit('#');
  }

  lemma DecimalIsSigned(n: nat)
    ensures SignedDigits(T.Decimal(n)) && SignedValue(T.Decimal(n)) == n
  {
    T.DecimalIsNumeral(n);
  }

  /** A value that was read is written in a spelling that reads as the same value. */
  lemma LiteralReads(n: Name, v: string, removes: char -> bool, other: Text -> Raw)
    requires Accepts(n, v)
    ensures var l := Literal(n, v, removes);
            l.Some? && Seen(n, ReadRaw(l.value, other)) == Some(v) && Accepts(n, v)
  {
    StringReads(v, removes, other);
    if n.key.kind.Color? {
      var raw :| Checked(n.key.kind, raw) == Some(v);
      if raw.RInteger? && 0 <= raw.n <= 255 {
        DecimalIsSigned(raw.n);
        NumberReads(raw.n, other);
      } else {
        LowerTwice(raw.text);
        StringReads(Lower(v), removes, other);
      }
    }
  }

  predicate IsPaletteNumber(v: string) {
    T.AllDigits(v) && v != "" && (v == "0" || v[0] != '0') && T.Value(v) <= 255
  }

  predicate IsColorCode(v: string) {
    |v| == 7 && v[0] == '#' && forall i :: 1 <= i < 7 ==> v[i] in "0123456789abcdef"
  }

  /**
   What a file can hold for a name: one of an enumeration's values, a palette number or a color in lower case, or any
   text.
   */
  lemma AcceptsIff(n: Name, v: string)
    ensures Accepts(n, v) <==>
              match n.key.kind
              case Enum(values) => v in values
              case Color => IsPaletteNumber(v) || IsColorCode(v)
              case AnyText => true
              case TableOf => true
  {
    match n.key.kind
    case Enum(values) =>
      assert Checked(n.key.kind, RString(v)) == if v in values then Some(v) else None;
    case Color =>
      hide Checked, IsPaletteNumber, IsColorCode;
      if Accepts(n, v) {
        var raw :| Checked(n.key.kind, raw) == Some(v);
        ColorIsRead(raw, v);
      }
      if IsPaletteNumber(v) || IsColorCode(v) {
        var raw := ColorReads(v);
      }
    case AnyText =>
      assert Checked(n.key.kind, RString(v)) == Some(v);
    case TableOf =>
  }

  lemma ColorIsRead(raw: Raw, v: string)
    requires Checked(Color, raw) == Some(v)
    ensures IsPaletteNumber(v) || IsColorCode(v)
  {
    hide T.Decimal, T.Value, Lower;
    if raw.RInteger? {
      T.DecimalIsNumeral(raw.n);
    } else {
      LowerIsCode(raw.text);
    }
  }

  lemma ColorReads(v: string) returns (raw: Raw)
    requires IsPaletteNumber(v) || IsColorCode(v)
    ensures Checked(Color, raw) == Some(v)
  {
    hide T.Decimal, T.Value, Lower;
    if IsPaletteNumber(v) {
      T.NumeralIsDecimal(v);
      raw := RInteger(T.Value(v));
    } else {
      CodeIsLower(v);
      raw := RString(v);
    }
  }

  lemma LowerIsCode(s: string)
    requires IsHexColor(s)
    ensures IsColorCode(Lower(s))
  {
    forall i | 1 <= i < 7
      ensures Lower(s)[i] in "0123456789abcdef"
    {
      assert HexDigitChar(s[i]);
    }
  }

  lemma CodeIsLower(v: string)
    requires IsColorCode(v)
    ensures IsHexColor(v) && Lower(v) == v
  {
    forall i | 1 <= i < 7
      ensures HexDigitChar(v[i]) && LowerChar(v[i]) == v[i]
    {
      assert v[i] in "0123456789abcdef";
    }
  }

  /**
   What somebody types is refused if and only if it is none of an enumeration's values, or neither a number up to 255
   nor a color in either case; and what is written for it reads back as accepted, and as what was typed but for a
   number's spelling and a color's case.
   */
  lemma TypedReads(n: Name, input: string, removes: char -> bool, other: Text -> Raw)
    ensures var l := Literal(n, input, removes);
            && (l.None? <==>
                  || (n.key.kind.Enum? && input !in n.key.kind.values)
                  || (n.key.kind.Color? && !(SignedDigits(input) && 0 <= SignedValue(input) <= 255) &&
                      !IsColorCode(Lower(input))))
            && (l.Some? ==>
                  var seen := Seen(n, ReadRaw(l.value, other));
                  && seen.Some? && Accepts(n, seen.value)
                  && (!n.key.kind.Color? ==> seen.value == input)
                  && (n.key.kind.Color? && !SignedDigits(input) ==> seen.value == Lower(input))
                  && (n.key.kind.Color? && SignedDigits(input) ==>
                        IsPaletteNumber(seen.value) && T.Value(seen.value) == SignedValue(input)))
  {
    hide ReadRaw, BasicString, T.Decimal, T.Value, T.AllDigits;
    var kind := n.key.kind;
    if kind.Color? {
      if SignedDigits(input) {
        NotACode(input);
        if 0 <= SignedValue(input) <= 255 {
          NumberReads(SignedValue(input), other);
          T.DecimalIsNumeral(SignedValue(input));
        }
      } else {
        HexEitherWay(input);
        if IsHexColor(input) {
          LowerTwice(input);
          StringReads(Lower(input), removes, other);
        }
      }
    } else {
      StringReads(input, removes, other);
    }
    if Literal(n, input, removes).Some? {
      EntryAccepted(n, ReadRaw(Literal(n, input, removes).value, other));
    }
  }

  lemma EntryAccepted(n: Name, raw: Raw)
    ensures Seen(n, raw).Some? ==> Accepts(n, Seen(n, raw).value)
  {
  }

  lemma NotACode(input: string)
    requires SignedDigits(input)
    ensures !IsColorCode(Lower(input))
  {
    assert T.AllDigits(input) ==> T.IsDigit(input[0]);
  }

  lemma HexEitherWay(input: string)
    ensures IsHexColor(input) <==> IsColorCode(Lower(input))
  {
    if IsHexColor(input) {
      LowerIsCode(input);
    }
    if IsColorCode(Lower(input)) {
      forall i | 1 <= i < 7
        ensures HexDigitChar(input[i])
      {
        assert Lower(input)[i] in "0123456789abcdef";
      }
      assert LowerChar(input[0]) == '#';
    }
  }

  /** And it is one value on one line. */
  lemma LiteralIsOneLine(n: Name, v: string, removes: char -> bool)
    ensures Literal(n, v, removes).Some? ==>
              var l := Literal(n, v, removes).value; NoNewline(l) && l != "" && !Blank(l[0])
  {
    hide EscapeAll;
    EscapedIsOneLine(v, removes);
    if n.key.kind.Color? {
      if SignedDigits(v) && 0 <= SignedValue(v) <= 255 {
        T.DecimalIsNumeral(SignedValue(v));
        var t := T.Decimal(SignedValue(v));
        assert T.IsDigit(t[0]) && forall c :: c in t ==> T.IsDigit(c);
      } else if IsHexColor(v) {
        EscapedIsOneLine(Lower(v), removes);
      }
    }
  }

  // ---------- what a document holds at a path ----------

  /** The first key on the way to a path, the path itself included. */
  function FirstOnWay(es: seq<Entry>, path: Path): (r: Option<Entry>)
    ensures r.Some? ==> r.value in es && r.value.Setting? && IsPrefix(r.value.path, path)
    ensures r.None? ==> forall e :: e in es && e.Setting? ==> !IsPrefix(e.path, path)
  {
    if es == [] then None
    else if es[0].Setting? && IsPrefix(es[0].path, path) then Some(es[0])
    else FirstOnWay(es[1..], path)
  }

  /** What an inline value holds at the rest of a path. */
  function Follow(raw: Raw, rest: Path): Option<Raw> {
    if rest == [] then Some(raw)
    else if raw.RInline? && rest[0] in raw.entries then Follow(raw.entries[rest[0]], rest[1..])
    else None
  }

  predicate HasInside(es: seq<Entry>, path: Path) {
    exists e :: e in es && IsPrefix(path, e.path)
  }

  /** The value at a path, as the library decodes the document: nothing under an array of tables has one. */
  function RawAt(d: Document, path: Path, other: Text -> Raw): Option<Raw> {
    var x := FirstOnWay(Entries(d), path);
    if InArray(Entries(d), path) then None
    else if x.Some? then Follow(ReadRaw(LineOf(d, x.value).value, other), path[|x.value.path|..])
    else if HasInside(Entries(d), path) then Some(RNested)
    else None
  }

  /** What a file sets for a name. Odd is an entry of a table that is not a string. */
  datatype Held = Value(text: string) | Odd

  function EntryAt(d: Document, n: Name, other: Text -> Raw): Option<Held> {
    var raw := RawAt(d, PathOf(n), other);
    if raw.None? then None
    else if Seen(n, raw.value).Some? then Some(Value(Seen(n, raw.value).value))
    else if n.key.kind.TableOf? then Some(Odd)
    else None
  }

  lemma EntryIsAccepted(d: Document, n: Name, other: Text -> Raw)
    ensures EntryAt(d, n, other).Some? && EntryAt(d, n, other).value.Value? ==>
              Accepts(n, EntryAt(d, n, other).value.text)
  {
  }

  // ---------- after an edit ----------

  lemma {:induction false} OnWayConcat(a: seq<Entry>, b: seq<Entry>, path: Path)
    ensures FirstOnWay(a + b, path) == if FirstOnWay(a, path).Some? then FirstOnWay(a, path) else FirstOnWay(b, path)
    decreases |a|
  {
    hide IsPrefix;
    if a == [] {
      assert a + b == b;
    } else {
      assert (a + b)[1..] == a[1..] + b;
      OnWayConcat(a[1..], b, path);
    }
  }

  lemma NotOnWay(es: seq<Entry>, path: Path)
    requires forall e :: e in es && e.Setting? ==> !IsPrefix(e.path, path)
    ensures FirstOnWay(es, path).None?
  {
    hide IsPrefix;
  }

  lemma AddedIsApart(d: Document, e: Edit, q: Path, x: Entry, lines: nat)
    requires e.path != [] && ApartFrom(e, q) && x in Added(Entries(d), e, |d.sections|, lines)
    ensures x.Setting? ==> !IsPrefix(x.path, q)
    ensures !IsPrefix(q, x.path)
  {
    hide Decide, EntriesOf;
    AddedApart(Entries(d), e, q, |d.sections|, lines, x);
  }

  lemma RawStays(d: Document, e: Edit, q: Path, st: Style, other: Text -> Raw)
    requires WellFormed(d) && GoodEdit(e) && GoodStyle(st) && ApartFrom(e, q) && !InArray(Entries(d), e.path)
    ensures RawAt(One(d, e, st), q, other) == RawAt(d, q, other)
  {
    hide One, WellFormed, EntriesOf, Decide, IsPrefix, InArray, ReadRaw, Follow;
    var r := One(d, e, st);
    ArraysStayOnce(d, e, st, q);
    var xs, ys, added := OneEntries(d, e, st);
    var es, fs, w := Entries(d), Entries(r), Decide(Entries(d), e.path);
    assert forall x :: x in fs <==> x in es || x in added;
    forall x | x in added
      ensures x.Setting? ==> !IsPrefix(x.path, q)
      ensures !IsPrefix(q, x.path)
    {
      AddedIsApart(d, e, q, x, if w.Into? && w.section < |d.sections| then |d.sections[w.section].body| else 0);
    }
    NotOnWay(added, q);
    OnWayConcat(xs + added, ys, q);
    OnWayConcat(xs, added, q);
    OnWayConcat(xs, ys, q);
    var x := FirstOnWay(es, q);
    if x.Some? {
      assert x.value.path != e.path;
      OtherLineReads(d, e, x.value, st);
    }
  }

  lemma OtherLineReads(d: Document, e: Edit, x: Entry, st: Style)
    requires WellFormed(d) && e.path != [] && x in Entries(d) && x.Setting? && x.path != e.path
    requires x in Entries(One(d, e, st))
    ensures LineOf(One(d, e, st), x).value == LineOf(d, x).value
  {
    hide WellFormed, Decide, Apply;
    OneIs(d, e, st);
    var w := Decide(Entries(d), e.path);
    EntriesSay(d.sections, x);
    if w.Replace? {
      ReplaceIs(Entries(d), e.path);
      OtherKey(d, x, FirstSet(Entries(d), e.path).value);
    }
    ApplyLeavesLines(d, w, e, st, x.section, x.line);
  }

  lemma {:induction false} RawStaysThrough(d: Document, edits: seq<Edit>, q: Path, st: Style, other: Text -> Raw)
    requires WellFormed(d) && GoodEdits(edits) && GoodStyle(st) && Outside(Entries(d), edits)
    requires forall i :: 0 <= i < |edits| ==> ApartFrom(edits[i], q)
    ensures RawAt(Each(d, edits, st), q, other) == RawAt(d, q, other)
    decreases |edits|
  {
    hide One, WellFormed, EntriesOf, ApartFrom, InArray, RawAt;
    if edits != [] {
      var ds, e := edits[..|edits| - 1], edits[|edits| - 1];
      RawStaysThrough(d, ds, q, st, other);
      ArraysStay(d, ds, st, e.path);
      RawStays(Each(d, ds, st), e, q, st, other);
    }
  }

  /** In a valid document the value a path has is what is read at it. */
  lemma GetIsRaw(d: Document, path: Path, arrays: seq<Claim> -> bool, other: Text -> Raw)
    requires Valid(Entries(d), arrays) && !InArray(Entries(d), path) && Get(d, path).Some?
    ensures RawAt(d, path, other) == Some(ReadRaw(Get(d, path).value, other))
  {
    hide InArray, EntriesOf, ReadRaw, ArrayPart, IsPrefix;
    var es := Entries(d);
    var x, y := FirstSet(es, path).value, FirstOnWay(es, path);
    assert IsPrefix(path, path) by { PrefixOfItself(path); }
    assert y.Some?;
    PairIs(es, x, y.value);
    OnWayIsIt(es, x, y.value, path);
    assert path[|path|..] == [];
  }

  lemma OnWayIsIt(es: seq<Entry>, x: Entry, y: Entry, path: Path)
    requires x.Setting? && y.Setting? && x.path == path && IsPrefix(y.path, path) && !InArray(es, path)
    requires x == y || PairOk(es, x, y)
    ensures x == y
  {
  }

  /** After keys are set, an edited path reads as its last literal, and one apart from them all as before. */
  lemma RawAfter(d: Document, edits: seq<Edit>, lib: Library, q: Path, other: Text -> Raw)
    requires WellFormed(d) && SetAllOf(d, edits, lib).Done?
    ensures var r := SetAllOf(d, edits, lib).document;
            && (LastEdit(edits, q).Some? ==> RawAt(r, q, other) == Some(ReadRaw(LastEdit(edits, q).value, other)))
            && ((forall i :: 0 <= i < |edits| ==> ApartFrom(edits[i], q)) ==> RawAt(r, q, other) == RawAt(d, q, other))
  {
    hide WellFormed, EntriesOf, Valid, FirstFault, PlannedDocument, PlanAll, Each, Unique, StyleOf, Fits, Settable,
         Unnested, BasesFit, GroupsFit, InArray, RawAt, Get, ReadRaw, ApartFrom;
    var r := SetAllOf(d, edits, lib).document;
    NestedFails(d, edits, lib);
    Prepared(d, edits, lib);
    if LastEdit(edits, q).Some? {
      ReadsBack(d, edits, lib, q);
      var i := EditedAt(edits, q);
      ArraysStay(d, edits, StyleOf(d, lib), q);
      GetIsRaw(r, q, lib.arrays, other);
    }
    if forall i :: 0 <= i < |edits| ==> ApartFrom(edits[i], q) {
      RawStaysThrough(d, edits, q, StyleOf(d, lib), other);
    }
  }

  lemma {:induction false} EditedAt(edits: seq<Edit>, q: Path) returns (i: nat)
    requires LastEdit(edits, q).Some?
    ensures i < |edits| && edits[i].path == q
  {
    if edits[|edits| - 1].path == q {
      i := |edits| - 1;
    } else {
      i := EditedAt(edits[..|edits| - 1], q);
    }
  }
}
