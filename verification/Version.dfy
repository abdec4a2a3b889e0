/** Release versions and their precedence (backend/gatewayproto/version.go; Semantic Versioning 2.0.0). */
module Version {
  import opened Bytes
  import opened Text

  const MaxUint64 := 0xFFFF_FFFF_FFFF_FFFF

  /** A version's three numbers, and its pre-release identifiers joined by dots: none for a release. */
  datatype Version = Version(major: nat, minor: nat, patch: nat, pre: string)

  // ---------- what a version may look like ----------

  predicate IsIdentifierChar(c: char) {
    IsDigit(c) || 'a' <= c <= 'z' || 'A' <= c <= 'Z' || c == '-'
  }

  /** The characters of section 9's identifiers, each of them written out. */
  lemma IdentifierCharsAre(c: char)
    ensures IsIdentifierChar(c) <==>
              || c in "-0123456789"
              || c in "ABCDEFGHIJKLMNOPQRSTUVWXYZ"
              || c in "abcdefghijklmnopqrstuvwxyz"
  {
  }

  predicate IsIdentifier(s: string) {
    s != "" && forall c :: c in s ==> IsIdentifierChar(c)
  }

  /** An identifier of a pre-release: one that is all digits is a numeral. */
  predicate IsPreIdentifier(s: string) {
    IsIdentifier(s) && (AllDigits(s) ==> IsNumeral(s))
  }

  predicate IsPre(s: string) {
    forall p :: p in Split(s, '.') ==> IsPreIdentifier(p)
  }

  predicate IsBuild(s: string) {
    forall p :: p in Split(s, '.') ==> IsIdentifier(p)
  }

  /** What ParseVersion can return. */
  predicate Parsed(v: Version) {
    && v.major <= MaxUint64 && v.minor <= MaxUint64 && v.patch <= MaxUint64
    && (v.pre == "" || IsPre(v.pre))
  }

  function ParseUint64(s: string): (r: Option<nat>)
    requires AllDigits(s)
  {
    if Value(s) <= MaxUint64 then Some(Value(s)) else None
  }

  /** major.minor.patch, each a numeral that fits. */
  function ParseCore(s: string): Option<(nat, nat, nat)> {
    var parts := Split(s, '.');
    if |parts| != 3 || !IsNumeral(parts[0]) || !IsNumeral(parts[1]) || !IsNumeral(parts[2]) then None
    else
      match (ParseUint64(parts[0]), ParseUint64(parts[1]), ParseUint64(parts[2]))
      case (Some(a), Some(b), Some(c)) => Some((a, b, c))
      case _ => None
  }

  /** Parses a strict three-component version: an optional "v", a pre-release, and build metadata it discards. */
  function ParseVersion(s: string): Option<Version> {
    var body := if s != "" && s[0] == 'v' then s[1..] else s;
    var (version, build, hasBuild) := CutAt(body, '+');
    var (core, pre, hasPre) := CutAt(version, '-');
    if (hasBuild && !IsBuild(build)) || (hasPre && !IsPre(pre)) then None
    else
      match ParseCore(core)
      case None => None
      case Some(n) => Some(Version(n.0, n.1, n.2, pre))
  }

  function CoreString(v: Version): string {
    Join([Decimal(v.major), Decimal(v.minor), Decimal(v.patch)], '.')
  }

  function ToString(v: Version): string {
    if v.pre == "" then CoreString(v) else CoreString(v) + "-" + v.pre
  }

  // ---------- parsing and printing ----------

  predicate CoreChars(s: string) {
    forall c :: c in s ==> IsDigit(c) || c == '.'
  }

  lemma CoreStringParses(v: Version)
    requires v.major <= MaxUint64 && v.minor <= MaxUint64 && v.patch <= MaxUint64
    ensures ParseCore(CoreString(v)) == Some((v.major, v.minor, v.patch))
    ensures CoreChars(CoreString(v)) && CoreString(v) != "" && IsDigit(CoreString(v)[0])
  {
    hide Decimal, Value, Split;
    var a, b, c := Decimal(v.major), Decimal(v.minor), Decimal(v.patch);
    DecimalIsNumeral(v.major);
    DecimalIsNumeral(v.minor);
    DecimalIsNumeral(v.patch);
    SplitJoin([a, b, c], '.');
    ThreeParts(a, b, c);
  }

  lemma ThreeParts(a: string, b: string, c: string)
    ensures Join([a, b, c], '.') == a + "." + b + "." + c
  {
    assert [a, b, c][1..] == [b, c];
    assert [b, c][1..] == [c];
    assert Join([c], '.') == c;
    assert Join([b, c], '.') == b + ['.'] + c;
    assert a + ['.'] + (b + ['.'] + c) == a + "." + b + "." + c;
  }

  lemma CoreParsesBack(s: string)
    requires ParseCore(s).Some?
    ensures var n := ParseCore(s).value;
            && n.0 <= MaxUint64 && n.1 <= MaxUint64 && n.2 <= MaxUint64
            && CoreString(Version(n.0, n.1, n.2, "")) == s
  {
    hide Decimal, Value;
    var parts := Split(s, '.');
    NumeralIsDecimal(parts[0]);
    NumeralIsDecimal(parts[1]);
    NumeralIsDecimal(parts[2]);
    JoinSplit(s, '.');
    assert parts == [parts[0], parts[1], parts[2]];
  }

  lemma PreHasNoPlus(s: string)
    requires IsPre(s)
    ensures '+' !in s && s != ""
  {
    InSplit(s, '.', '+');
    NothingHasAnEmptyPart();
  }

  lemma NothingHasAnEmptyPart()
    ensures "" in Split("", '.')
  {
    assert Split("", '.')[0] == "";
  }

  /** Text in a version's form: an optional "v", the version printed, and build metadata or none. */
  ghost predicate Spells(s: string, v: Version, prefix: string, suffix: string) {
    && (prefix == "" || prefix == "v")
    && (suffix == "" || (suffix[0] == '+' && IsBuild(suffix[1..])))
    && s == prefix + ToString(v) + suffix
  }

  lemma SpelledParses(s: string, v: Version, prefix: string, suffix: string)
    requires Parsed(v) && Spells(s, v, prefix, suffix)
    ensures ParseVersion(s) == Some(v)
  {
    hide Split, Join, Decimal, Value, ParseCore, IsPre, IsBuild, CutAt;
    CoreStringParses(v);
    var core, text := CoreString(v), ToString(v);
    assert text != "" && text[0] == core[0];
    assert '-' !in core && '+' !in core;
    if v.pre != "" {
      PreHasNoPlus(v.pre);
      assert text == core + ['-'] + v.pre;
      CutAtFirst(core, v.pre, '-');
    } else {
      CutAtNone(core, '-');
    }
    var body := text + suffix;
    assert (if s != "" && s[0] == 'v' then s[1..] else s) == body by {
      if prefix == "" {
        assert s == body;
      } else {
        assert s[1..] == body;
      }
    }
    assert '+' !in text;
    if suffix == "" {
      assert body == text;
      CutAtNone(text, '+');
    } else {
      assert body == text + ['+'] + suffix[1..];
      CutAtFirst(text, suffix[1..], '+');
    }
  }

  /** The parts of text that parses, as Spells names them. */
  function PrefixOf(s: string): string {
    if s != "" && s[0] == 'v' then "v" else ""
  }

  function SuffixOf(s: string): string {
    var (_, build, hasBuild) := CutAt(s[|PrefixOf(s)|..], '+');
    if hasBuild then ['+'] + build else ""
  }

  /** What precedes the build metadata is the version printed. */
  lemma ParsedText(s: string, v: Version)
    requires ParseVersion(s) == Some(v)
    ensures Parsed(v)
    ensures CutAt(s[|PrefixOf(s)|..], '+').0 == ToString(v)
  {
    hide Split, Join, Decimal, Value, IsPre, IsBuild, CutAt, ParseCore, CoreString, ToString;
    var version := CutAt(s[|PrefixOf(s)|..], '+').0;
    var (core, pre, hasPre) := CutAt(version, '-');
    CoreParsesBack(core);
    SameCore(v);
    VersionText(v, core);
    if hasPre {
      PreHasNoPlus(pre);
    }
  }

  lemma ParsedBuild(s: string)
    requires ParseVersion(s).Some?
    ensures SuffixOf(s) == "" || (SuffixOf(s)[0] == '+' && IsBuild(SuffixOf(s)[1..]))
  {
    hide Split, Join, Decimal, Value, IsPre, IsBuild, CutAt, ParseCore, CoreString, ToString;
    var (_, build, hasBuild) := CutAt(s[|PrefixOf(s)|..], '+');
    if hasBuild {
      assert (['+'] + build)[1..] == build;
    }
  }

  lemma BuildLast(s: string)
    ensures PrefixOf(s) <= s
    ensures s[|PrefixOf(s)|..] == CutAt(s[|PrefixOf(s)|..], '+').0 + SuffixOf(s)
  {
    hide CutAt;
  }

  lemma Reassembled(s: string, a: string, b: string, c: string)
    requires a <= s && s[|a|..] == b + c
    ensures s == a + b + c
  {
    assert s == a + s[|a|..];
  }

  lemma ParsedIsSpelled(s: string, v: Version)
    requires ParseVersion(s) == Some(v)
    ensures Parsed(v) && Spells(s, v, PrefixOf(s), SuffixOf(s))
  {
    hide ParseVersion, Parsed, ToString, IsBuild, CutAt, SuffixOf;
    ParsedText(s, v);
    ParsedBuild(s);
    BuildLast(s);
    Reassembled(s, PrefixOf(s), ToString(v), SuffixOf(s));
  }

  lemma VersionText(v: Version, core: string)
    requires CoreString(v) == core
    ensures ToString(v) == if v.pre == "" then core else core + ['-'] + v.pre
  {
  }

  lemma SameCore(v: Version)
    ensures CoreString(v) == CoreString(v.(pre := ""))
  {
  }

  /**
   The parser accepts exactly the grammar, and returns what the text spells: a version parses if and only if it is
   an optional "v", that version printed, and build metadata or none.
   */
  lemma ParseIsGrammar(s: string, v: Version)
    ensures ParseVersion(s) == Some(v) <==> Parsed(v) && exists prefix, suffix :: Spells(s, v, prefix, suffix)
  {
    hide Spells, Parsed, ParseVersion;
    if Parsed(v) && exists prefix, suffix :: Spells(s, v, prefix, suffix) {
      var prefix, suffix :| Spells(s, v, prefix, suffix);
      SpelledParses(s, v, prefix, suffix);
    }
    if ParseVersion(s) == Some(v) {
      ParsedIsSpelled(s, v);
    }
  }

  /** Printing then parsing gives the version back, with or without the "v". */
  lemma RoundTrip(v: Version)
    requires Parsed(v)
    ensures ParseVersion(ToString(v)) == Some(v)
    ensures ParseVersion("v" + ToString(v)) == Some(v)
  {
    assert Spells(ToString(v), v, "", "") by {
      assert "" + ToString(v) + "" == ToString(v);
    }
    assert Spells("v" + ToString(v), v, "v", "") by {
      assert "v" + ToString(v) + "" == "v" + ToString(v);
    }
    SpelledParses(ToString(v), v, "", "");
    SpelledParses("v" + ToString(v), v, "v", "");
  }

  // ---------- precedence ----------

  predicate PreNumber(s: string) {
    s != "" && AllDigits(s)
  }

  function ComparePreIdentifier(a: string, b: string): int {
    if PreNumber(a) && PreNumber(b) then
      if |a| != |b| then |a| - |b| else CompareText(a, b)
    else if PreNumber(a) then -1
    else if PreNumber(b) then 1
    else CompareText(a, b)
  }

  /** The first identifiers that differ decide, from position i on; then the longer list is the later. */
  function CompareIdentifiers(a: seq<string>, b: seq<string>, i: nat): int
    requires i <= |a| && i <= |b|
    decreases |a| - i
  {
    if i < |a| && i < |b| then
      var c := ComparePreIdentifier(a[i], b[i]);
      if c != 0 then c else CompareIdentifiers(a, b, i + 1)
    else |a| - |b|
  }

  function CompareNumbers(a: nat, b: nat): int {
    if a == b then 0 else if a < b then -1 else 1
  }

  function ComparePre(a: string, b: string): int {
    if a == b then 0
    else if a == "" then 1
    else if b == "" then -1
    else CompareIdentifiers(Split(a, '.'), Split(b, '.'), 0)
  }

  function Compare(v: Version, w: Version): int {
    if v.major != w.major then CompareNumbers(v.major, w.major)
    else if v.minor != w.minor then CompareNumbers(v.minor, w.minor)
    else if v.patch != w.patch then CompareNumbers(v.patch, w.patch)
    else ComparePre(v.pre, w.pre)
  }

  lemma IdentifierOrder(a: string, b: string)
    ensures ComparePreIdentifier(a, b) == 0 <==> a == b
    ensures ComparePreIdentifier(a, b) == -ComparePreIdentifier(b, a)
  {
    CompareTextZero(a, b);
    CompareTextAntisymmetric(a, b);
  }

  lemma IdentifierTransitive(a: string, b: string, c: string)
    requires ComparePreIdentifier(a, b) <= 0 && ComparePreIdentifier(b, c) <= 0
    ensures ComparePreIdentifier(a, c) <= 0
    ensures ComparePreIdentifier(a, b) < 0 || ComparePreIdentifier(b, c) < 0 ==> ComparePreIdentifier(a, c) < 0
  {
    hide CompareText;
    CompareTextZero(a, b);
    CompareTextZero(b, c);
    if CompareText(a, b) <= 0 && CompareText(b, c) <= 0 {
      CompareTextTransitive(a, b, c);
    }
  }

  lemma {:induction false} IdentifiersOrder(a: seq<string>, b: seq<string>, i: nat)
    requires i <= |a| && i <= |b|
    ensures CompareIdentifiers(a, b, i) == 0 <==> a[i..] == b[i..]
    ensures CompareIdentifiers(a, b, i) == -CompareIdentifiers(b, a, i)
    decreases |a| - i
  {
    hide ComparePreIdentifier;
    if i < |a| && i < |b| {
      IdentifierOrder(a[i], b[i]);
      IdentifiersOrder(a, b, i + 1);
      assert a[i..] == [a[i]] + a[i + 1..] && b[i..] == [b[i]] + b[i + 1..];
    } else if |a| == |b| {
      assert a[i..] == [] == b[i..];
    }
  }

  lemma {:induction false} IdentifiersTransitive(a: seq<string>, b: seq<string>, c: seq<string>, i: nat)
    requires i <= |a| && i <= |b| && i <= |c|
    requires CompareIdentifiers(a, b, i) <= 0 && CompareIdentifiers(b, c, i) <= 0
    ensures CompareIdentifiers(a, c, i) <= 0
    decreases |a| - i
  {
    hide ComparePreIdentifier;
    if i < |a| && i < |b| && i < |c| {
      IdentifierTransitive(a[i], b[i], c[i]);
      IdentifierOrder(a[i], b[i]);
      IdentifierOrder(b[i], c[i]);
      IdentifierOrder(a[i], c[i]);
      if a[i] == b[i] == c[i] {
        IdentifiersTransitive(a, b, c, i + 1);
      }
    }
  }

  /** Compare is zero exactly for the same version, and swapping the two negates it. */
  lemma CompareIsAntisymmetric(v: Version, w: Version)
    ensures Compare(v, w) == 0 <==> v == w
    ensures Compare(v, w) == -Compare(w, v)
  {
    hide CompareIdentifiers, Split;
    var a, b := Split(v.pre, '.'), Split(w.pre, '.');
    IdentifiersOrder(a, b, 0);
    assert a[0..] == a && b[0..] == b;
    JoinSplit(v.pre, '.');
    JoinSplit(w.pre, '.');
  }

  /** Compare is a total order on versions, so "newer" can be asked along any chain of them. */
  lemma CompareIsTransitive(u: Version, v: Version, w: Version)
    requires Compare(u, v) <= 0 && Compare(v, w) <= 0
    ensures Compare(u, w) <= 0
  {
    hide CompareIdentifiers, Split;
    var a, b, c := Split(u.pre, '.'), Split(v.pre, '.'), Split(w.pre, '.');
    if CompareIdentifiers(a, b, 0) <= 0 && CompareIdentifiers(b, c, 0) <= 0 {
      IdentifiersTransitive(a, b, c, 0);
    }
  }

  // ---------- section 11 of Semantic Versioning 2.0.0 ----------

  /** Numbers by value, whatever their length; text by its characters; a number below any text. */
  ghost predicate IdentifierBelow(a: string, b: string) {
    if PreNumber(a) && PreNumber(b) then Value(a) < Value(b)
    else if PreNumber(a) || PreNumber(b) then PreNumber(a)
    else TextBelow(a, b)
  }

  /** Equal up to position k, where the lower identifier is, or where the shorter list ends. */
  ghost predicate IdentifiersBelowAt(a: seq<string>, b: seq<string>, k: nat) {
    && k <= |a| && k < |b| && a[..k] == b[..k]
    && (k == |a| || IdentifierBelow(a[k], b[k]))
  }

  ghost predicate PreBelow(a: string, b: string) {
    a != "" && (b == "" || exists k: nat :: IdentifiersBelowAt(Split(a, '.'), Split(b, '.'), k))
  }

  /** Precedence as section 11 states it. */
  ghost predicate Precedes(v: Version, w: Version) {
    || v.major < w.major
    || (v.major == w.major && v.minor < w.minor)
    || (v.major == w.major && v.minor == w.minor && v.patch < w.patch)
    || (v.major == w.major && v.minor == w.minor && v.patch == w.patch && PreBelow(v.pre, w.pre))
  }

  /** Comparing numerals by length and then as text is comparing their values, at any length. */
  lemma NumeralsCompareByValue(a: string, b: string)
    requires IsNumeral(a) && IsNumeral(b)
    ensures ComparePreIdentifier(a, b) < 0 <==> Value(a) < Value(b)
    ensures ComparePreIdentifier(a, b) == 0 <==> Value(a) == Value(b)
  {
    hide Value, CompareText, Pow10;
    CompareTextZero(a, b);
    if |a| == |b| {
      SameLengthCompare(a, b);
    } else if |a| < |b| {
      LongerIsLarger(a, b);
    } else {
      LongerIsLarger(b, a);
    }
  }

  lemma LongerIsLarger(a: string, b: string)
    requires IsNumeral(a) && IsNumeral(b) && |a| < |b|
    ensures Value(a) < Value(b)
  {
    ValueBounds(a);
    ValueBounds(b);
    Pow10Grows(|a|, |b| - 1);
  }

  lemma IdentifierBelowIff(a: string, b: string)
    requires IsPreIdentifier(a) && IsPreIdentifier(b)
    ensures ComparePreIdentifier(a, b) < 0 <==> IdentifierBelow(a, b)
  {
    hide Value, CompareText, TextBelow;
    if PreNumber(a) && PreNumber(b) {
      NumeralsCompareByValue(a, b);
    } else {
      CompareTextIsOrder(a, b);
    }
  }

  ghost predicate BelowFrom(a: seq<string>, b: seq<string>, i: nat) {
    exists k: nat :: k >= i && IdentifiersBelowAt(a, b, k)
  }

  lemma {:induction false} IdentifiersBelowIff(a: seq<string>, b: seq<string>, i: nat)
    requires forall p :: p in a || p in b ==> IsPreIdentifier(p)
    requires i <= |a| && i <= |b| && a[..i] == b[..i]
    ensures CompareIdentifiers(a, b, i) < 0 <==> BelowFrom(a, b, i)
    decreases |a| - i
  {
    hide ComparePreIdentifier, IdentifierBelow, IsPreIdentifier;
    if i < |a| && i < |b| {
      IdentifierBelowIff(a[i], b[i]);
      IdentifierOrder(a[i], b[i]);
      if a[i] == b[i] {
        assert a[..i + 1] == a[..i] + [a[i]] && b[..i + 1] == b[..i] + [b[i]];
        IdentifiersBelowIff(a, b, i + 1);
        assert !IdentifiersBelowAt(a, b, i);
        if BelowFrom(a, b, i + 1) {
          var k: nat :| k >= i + 1 && IdentifiersBelowAt(a, b, k);
          assert BelowFrom(a, b, i);
        }
      } else {
        forall k: nat | k > i ensures !IdentifiersBelowAt(a, b, k) {
          if k <= |a| && k <= |b| {
            assert a[..k][i] == a[i] && b[..k][i] == b[i];
          }
        }
        assert IdentifiersBelowAt(a, b, i) <==> IdentifierBelow(a[i], b[i]);
      }
    } else {
      assert i == |a| && i < |b| ==> IdentifiersBelowAt(a, b, i);
    }
  }

  /** Compare is the precedence of section 11, for every pair of versions that can be parsed. */
  lemma CompareIsPrecedence(v: Version, w: Version)
    requires Parsed(v) && Parsed(w)
    ensures Compare(v, w) < 0 <==> Precedes(v, w)
  {
    hide CompareIdentifiers, Split, IsPreIdentifier, IdentifiersBelowAt;
    if v.pre != "" && w.pre != "" {
      var a, b := Split(v.pre, '.'), Split(w.pre, '.');
      IdentifiersBelowIff(a, b, 0);
      IdentifiersOrder(a, b, 0);
      assert (exists k: nat :: IdentifiersBelowAt(a, b, k)) <==> BelowFrom(a, b, 0);
      if v.pre == w.pre {
        assert a[0..] == b[0..];
      }
    }
  }
}
