/** How the editor spells strings and keys (daemon/config/edit.go), and that TOML reads them back as they were. */
module TomlKeys {
  import opened Bytes

  // ---------- hexadecimal escapes ----------

  function HexDigit(n: nat): char
    requires n < 16
  {
    if n < 10 then '0' + n as char else 'A' + (n - 10) as char
  }

  function Hex(n: nat, width: nat): string {
    if width == 0 then "" else Hex(n / 16, width - 1) + [HexDigit(n % 16)]
  }

  function HexValue(c: char): Option<nat> {
    if '0' <= c <= '9' then Some((c - '0') as nat)
    else if 'A' <= c <= 'F' then Some((c - 'A') as nat + 10)
    else if 'a' <= c <= 'f' then Some((c - 'a') as nat + 10)
    else None
  }

  function ReadHex(t: string): Option<nat> {
    if t == "" then Some(0)
    else
      var high, low := ReadHex(t[..|t| - 1]), HexValue(t[|t| - 1]);
      if high.Some? && low.Some? then Some(high.value * 16 + low.value) else None
  }

  function Power16(width: nat): nat {
    if width == 0 then 1 else 16 * Power16(width - 1)
  }

  lemma {:induction false} ReadsHex(n: nat, width: nat)
    requires n < Power16(width)
    ensures |Hex(n, width)| == width && ReadHex(Hex(n, width)) == Some(n)
  {
    if width > 0 {
      ReadsHex(n / 16, width - 1);
      var t := Hex(n, width);
      assert t[..width - 1] == Hex(n / 16, width - 1);
      assert HexValue(t[width - 1]) == Some(n % 16);
    }
  }

  // ---------- basic strings ----------

  predicate Control(c: char) {
    c as int < 0x20 || c as int == 0x7F
  }

  /** One character as a basic string spells it. What a terminal should not be given raw is escaped as well. */
  function Escape(c: char, removes: char -> bool): string {
    if c == '"' then "\\\""
    else if c == '\\' then "\\\\"
    else if c == '\n' then "\\n"
    else if c == '\t' then "\\t"
    else if c == '\r' then "\\r"
    else if c as int == 8 then "\\b"
    else if c as int == 12 then "\\f"
    else if Control(c) || removes(c) then
      if c as int > 0xFFFF then "\\U" + Hex(c as int, 8) else "\\u" + Hex(c as int, 4)
    else [c]
  }

  function EscapeAll(s: string, removes: char -> bool): string {
    if s == "" then "" else Escape(s[0], removes) + EscapeAll(s[1..], removes)
  }

  function BasicString(s: string, removes: char -> bool): string {
    "\"" + EscapeAll(s, removes) + "\""
  }

  method WriteBasicString(s: string, removes: char -> bool) returns (t: string)
    ensures t == BasicString(s, removes)
  {
    hide Escape;
    t := "\"";
    for i := 0 to |s|
      invariant t == "\"" + EscapeAll(s[..i], removes)
    {
      EscapeNext(s[..i], s[i], removes);
      assert s[..i + 1] == s[..i] + [s[i]];
      t := t + Escape(s[i], removes);
    }
    assert s[..|s|] == s;
    t := t + "\"";
  }

  lemma {:induction false} EscapeNext(s: string, c: char, removes: char -> bool)
    ensures EscapeAll(s + [c], removes) == EscapeAll(s, removes) + Escape(c, removes)
  {
    hide Escape;
    if s == "" {
      assert (s + [c])[1..] == "";
    } else {
      assert (s + [c])[1..] == s[1..] + [c];
      EscapeNext(s[1..], c, removes);
    }
  }

  /** A code point that is a character. */
  function CharOf(n: nat): Option<char> {
    if n < 0xD800 || 0xE000 <= n < 0x11_0000 then Some(n as char) else None
  }

  /** What an escape after its backslash stands for, and how long it is: section "String" of TOML v1.0.0. */
  function ReadEscape(t: string): Option<(char, nat)> {
    if t == "" then None
    else if t[0] == 'b' then Some((8 as char, 1))
    else if t[0] == 't' then Some(('\t', 1))
    else if t[0] == 'n' then Some(('\n', 1))
    else if t[0] == 'f' then Some((12 as char, 1))
    else if t[0] == 'r' then Some(('\r', 1))
    else if t[0] == '"' then Some(('"', 1))
    else if t[0] == '\\' then Some(('\\', 1))
    else if t[0] == 'u' && |t| >= 5 then ReadCodePoint(t[1..5])
    else if t[0] == 'U' && |t| >= 9 then ReadCodePoint(t[1..9])
    else None
  }

  function ReadCodePoint(digits: string): (r: Option<(char, nat)>)
    ensures r.Some? ==> r.value.1 == |digits| + 1
  {
    var n := ReadHex(digits);
    if n.None? || CharOf(n.value).None? then None else Some((CharOf(n.value).value, |digits| + 1))
  }

  /** Reads a basic string past its opening quote, and gives what follows its closing one. */
  function ReadBasic(t: string): Option<(string, string)>
    decreases |t|
  {
    if t == "" then None
    else if t[0] == '"' then Some(("", t[1..]))
    else if t[0] == '\\' then
      var e := ReadEscape(t[1..]);
      if e.None? || |t| < 1 + e.value.1 then None
      else
        var rest := ReadBasic(t[1 + e.value.1..]);
        if rest.None? then None else Some(([e.value.0] + rest.value.0, rest.value.1))
    else if Control(t[0]) && t[0] != '\t' then None
    else
      var rest := ReadBasic(t[1..]);
      if rest.None? then None else Some(([t[0]] + rest.value.0, rest.value.1))
  }

  lemma CodePointReads(c: char, width: nat, rest: string)
    requires c as nat < Power16(width)
    ensures var t := Hex(c as nat, width) + rest;
            |t| >= width && ReadCodePoint(t[..width]) == Some((c, width + 1)) && t[width..] == rest
  {
    ReadsHex(c as nat, width);
    var t := Hex(c as nat, width) + rest;
    assert t[..width] == Hex(c as nat, width);
  }

  /** The letter an escape of one letter has. */
  function Letter(c: char): Option<char> {
    if c == '"' || c == '\\' then Some(c)
    else if c == '\n' then Some('n')
    else if c == '\t' then Some('t')
    else if c == '\r' then Some('r')
    else if c as int == 8 then Some('b')
    else if c as int == 12 then Some('f')
    else None
  }

  lemma LetterReads(c: char, removes: char -> bool, rest: string)
    requires Letter(c).Some?
    ensures Escape(c, removes) == ['\\', Letter(c).value]
    ensures ReadEscape([Letter(c).value] + rest) == Some((c, 1))
  {
  }

  lemma DigitsRead(c: char, rest: string)
    ensures c as int <= 0xFFFF ==> ReadEscape("u" + Hex(c as nat, 4) + rest) == Some((c, 5))
    ensures ReadEscape("U" + Hex(c as nat, 8) + rest) == Some((c, 9))
    ensures |Hex(c as nat, 4)| == 4 && |Hex(c as nat, 8)| == 8
  {
    hide Hex, HexDigit, ReadHex, ReadCodePoint;
    assert Power16(4) == 0x1_0000 && Power16(8) == 0x1_0000_0000;
    var t, u := "u" + Hex(c as nat, 4) + rest, "U" + Hex(c as nat, 8) + rest;
    if c as int <= 0xFFFF {
      CodePointReads(c, 4, rest);
      assert t[1..] == Hex(c as nat, 4) + rest;
      assert t[1..5] == t[1..][..4];
    }
    HexWidth(c as nat, 4);
    HexWidth(c as nat, 8);
    CodePointReads(c, 8, rest);
    assert u[1..] == Hex(c as nat, 8) + rest;
    assert u[1..9] == u[1..][..8];
  }

  lemma {:induction false} HexWidth(n: nat, width: nat)
    ensures |Hex(n, width)| == width
  {
    if width > 0 {
      HexWidth(n / 16, width - 1);
    }
  }

  lemma EscapeReads(c: char, removes: char -> bool, rest: string)
    requires Escape(c, removes) != [c]
    ensures var t := Escape(c, removes) + rest;
            && t[0] == '\\'
            && ReadEscape(t[1..]) == Some((c, |Escape(c, removes)| - 1))
            && t[|Escape(c, removes)|..] == rest
  {
    hide ReadEscape, Hex;
    var t := Escape(c, removes) + rest;
    if Letter(c).Some? {
      LetterReads(c, removes, rest);
      assert t[1..] == [Letter(c).value] + rest;
    } else {
      DigitsRead(c, rest);
      if c as int > 0xFFFF {
        assert t[1..] == "U" + Hex(c as nat, 8) + rest;
      } else {
        assert t[1..] == "u" + Hex(c as nat, 4) + rest;
      }
    }
  }

  /** A basic string reads back as the string it spells, whatever follows it. */
  lemma {:induction false} BasicStringReads(s: string, removes: char -> bool, rest: string)
    ensures ReadBasic(EscapeAll(s, removes) + "\"" + rest) == Some((s, rest))
  {
    var t := EscapeAll(s, removes) + "\"" + rest;
    if s == "" {
      assert t[1..] == rest;
    } else {
      BasicStringReads(s[1..], removes, rest);
      var after := EscapeAll(s[1..], removes) + "\"" + rest;
      var e := Escape(s[0], removes);
      assert t == e + after;
      if e == [s[0]] {
        assert t[1..] == after;
      } else {
        EscapeReads(s[0], removes, after);
        assert t[1 + (|e| - 1)..] == after;
      }
      assert [s[0]] + s[1..] == s;
    }
  }

  // ---------- keys ----------

  predicate Bare(c: char) {
    'A' <= c <= 'Z' || 'a' <= c <= 'z' || '0' <= c <= '9' || c == '_' || c == '-'
  }

  predicate AllBare(s: string) {
    forall i :: 0 <= i < |s| ==> Bare(s[i])
  }

  function FormatKey(part: string, removes: char -> bool): string {
    if part != "" && AllBare(part) then part else BasicString(part, removes)
  }

  function FormatPath(path: seq<string>, removes: char -> bool): string {
    if path == [] then ""
    else if |path| == 1 then FormatKey(path[0], removes)
    else FormatKey(path[0], removes) + "." + FormatPath(path[1..], removes)
  }

  function BareRun(t: string): (n: nat)
    ensures n <= |t| && AllBare(t[..n]) && (n == |t| || !Bare(t[n]))
  {
    if t == "" || !Bare(t[0]) then 0
    else
      var n := BareRun(t[1..]);
      assert t[..n + 1] == [t[0]] + t[1..][..n];
      n + 1
  }

  /** Reads one key, bare or quoted: section "Keys" of TOML v1.0.0. */
  function ReadKey(t: string): (r: Option<(string, string)>)
  {
    if t != "" && t[0] == '"' then ReadBasic(t[1..])
    else if BareRun(t) == 0 then None
    else Some((t[..BareRun(t)], t[BareRun(t)..]))
  }

  /** Reads a key that may be dotted, of at most n parts. */
  function ReadPath(t: string, n: nat): Option<(seq<string>, string)>
    decreases n
  {
    if n == 0 then None
    else
      var first := ReadKey(t);
      if first.None? then None
      else if first.value.1 != "" && first.value.1[0] == '.' then
        var rest := ReadPath(first.value.1[1..], n - 1);
        if rest.None? then None else Some(([first.value.0] + rest.value.0, rest.value.1))
      else Some(([first.value.0], first.value.1))
  }

  lemma {:induction false} BareRunStops(s: string, rest: string)
    requires AllBare(s) && (rest == "" || !Bare(rest[0]))
    ensures BareRun(s + rest) == |s|
  {
    var t := s + rest;
    if s == "" {
      assert t == rest;
    } else {
      assert t[1..] == s[1..] + rest;
      BareRunStops(s[1..], rest);
    }
  }

  lemma KeyReads(part: string, removes: char -> bool, rest: string)
    requires rest == "" || !Bare(rest[0])
    ensures ReadKey(FormatKey(part, removes) + rest) == Some((part, rest))
  {
    hide EscapeAll, ReadBasic, BareRun;
    if part != "" && AllBare(part) {
      BareRunStops(part, rest);
      var t := part + rest;
      assert t[0] == part[0] && Bare(t[0]);
      assert t[..|part|] == part && t[|part|..] == rest;
    } else {
      BasicStringReads(part, removes, rest);
      assert (BasicString(part, removes) + rest)[1..] == EscapeAll(part, removes) + "\"" + rest;
    }
  }

  /** A path reads back as the path it spells, whatever follows it that is not part of a key. */
  lemma {:induction false} PathReads(path: seq<string>, removes: char -> bool, rest: string, n: nat)
    requires path != [] && |path| <= n && (rest == "" || (!Bare(rest[0]) && rest[0] != '.'))
    ensures ReadPath(FormatPath(path, removes) + rest, n) == Some((path, rest))
    decreases |path|
  {
    hide ReadKey, FormatKey;
    if |path| == 1 {
      KeyReads(path[0], removes, rest);
      assert path == [path[0]];
    } else {
      var tail := FormatPath(path[1..], removes) + rest;
      PathReads(path[1..], removes, rest, n - 1);
      KeyReads(path[0], removes, "." + tail);
      assert FormatPath(path, removes) + rest == FormatKey(path[0], removes) + ("." + tail);
      assert ("." + tail)[1..] == tail;
      assert [path[0]] + path[1..] == path;
    }
  }

  /** Two paths are never spelled alike, so a header's text names one table. */
  lemma SpelledAlike(a: seq<string>, b: seq<string>, removes: char -> bool)
    requires a != [] && b != [] && FormatPath(a, removes) == FormatPath(b, removes)
    ensures a == b
  {
    var n := Max(|a|, |b|);
    PathReads(a, removes, "", n);
    PathReads(b, removes, "", n);
  }

  /** Nothing is left raw that is a control character, or that is to be removed and is not printable ASCII. */
  lemma {:induction false} NothingRemovedIsRaw(s: string, removes: char -> bool)
    ensures forall c :: c in EscapeAll(s, removes) ==>
              0x20 <= c as int != 0x7F && (removes(c) ==> 0x20 <= c as int < 0x7F)
  {
    hide Escape;
    if s != "" {
      NothingRemovedIsRaw(s[1..], removes);
      EscapeIsPlain(s[0], removes);
    }
  }

  lemma EscapeIsPlain(c: char, removes: char -> bool)
    ensures forall e :: e in Escape(c, removes) ==>
              0x20 <= e as int != 0x7F && (removes(e) ==> 0x20 <= e as int < 0x7F)
  {
    hide Hex;
    HexIsPlain(c as nat, 4);
    HexIsPlain(c as nat, 8);
  }

  lemma {:induction false} HexIsPlain(n: nat, width: nat)
    ensures forall e :: e in Hex(n, width) ==> 0x20 <= e as int < 0x7F
  {
    if width > 0 {
      HexIsPlain(n / 16, width - 1);
    }
  }

  /** And nothing else is escaped: printable text with no quote and no backslash in it is spelled as it is. */
  lemma {:induction false} PlainIsItself(s: string, removes: char -> bool)
    requires forall i :: 0 <= i < |s| ==>
               0x20 <= s[i] as int != 0x7F && s[i] != '"' && s[i] != '\\' && !removes(s[i])
    ensures BasicString(s, removes) == "\"" + s + "\""
  {
    if s != "" {
      PlainIsItself(s[1..], removes);
      assert BasicString(s[1..], removes)[1..] == EscapeAll(s[1..], removes) + "\"";
      assert ("\"" + s[1..] + "\"")[1..] == s[1..] + "\"";
      assert (EscapeAll(s[1..], removes) + "\"")[..|s| - 1] == s[1..];
      assert EscapeAll(s, removes) == [s[0]] + s[1..] == s;
    }
  }

  /** What is written stays on its line, and no newline of either kind is in it. */
  lemma EscapedIsOneLine(s: string, removes: char -> bool)
    ensures '\n' !in EscapeAll(s, removes) && '\r' !in EscapeAll(s, removes)
  {
    NothingRemovedIsRaw(s, removes);
  }

  lemma {:induction false} PathIsOneLine(path: seq<string>, removes: char -> bool)
    ensures '\n' !in FormatPath(path, removes) && '\r' !in FormatPath(path, removes)
  {
    hide EscapeAll;
    if path != [] {
      EscapedIsOneLine(path[0], removes);
      PathIsOneLine(path[1..], removes);
    }
  }
}
