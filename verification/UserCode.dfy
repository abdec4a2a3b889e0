/** The code a person reads off one screen and types into another (backend/internal/auth/device.go). */
module UserCode {
  import opened Bytes

  const Alphabet := "BCDFGHJKMNPQRSTVWXYZ"
  const CodeLength: nat := 8
  const CodeGroup: nat := 4

  /** Random bytes from here up are thrown away: 240 is the largest whole number of alphabets in a byte. */
  const Limit: nat := 256 - 256 % |Alphabet|

  predicate InAlphabet(s: string) {
    forall c :: c in s ==> c in Alphabet
  }

  predicate IsSeparator(c: char) {
    c == '-' || c == ' ' || c == '\t'
  }

  /**
   Upper case, as far as it can matter here: two characters outside ASCII become ASCII letters, and every other one
   stays outside the alphabet.
   */
  function Upper(c: char): char {
    if 'a' <= c <= 'z' then (c as int - 'a' as int + 'A' as int) as char
    else if c == '\U{017F}' then 'S'
    else if c == '\U{0131}' then 'I'
    else c
  }

  /** What somebody typed, less what carries no meaning. */
  function Typed(raw: string): string {
    if raw == "" then ""
    else
      var c := Upper(raw[0]);
      (if IsSeparator(c) then "" else [c]) + Typed(raw[1..])
  }

  /** What a typed code stands for, when it can be a code at all. */
  function Normalized(raw: string, want: nat): Option<string> {
    if InAlphabet(Typed(raw)) && |Typed(raw)| == want then Some(Typed(raw)) else None
  }

  lemma {:induction false} TypedConcat(a: string, b: string)
    ensures Typed(a + b) == Typed(a) + Typed(b)
    decreases |a|
  {
    if a == "" {
      assert a + b == b;
    } else {
      assert (a + b)[1..] == a[1..] + b;
      TypedConcat(a[1..], b);
    }
  }

  /** The code that some typing means, in its stored form, or None as soon as a character rules that out. */
  method NormalizeTypedCode(raw: string, want: nat) returns (code: Option<string>)
    ensures code == Normalized(raw, want)
  {
    var b := "";
    for i := 0 to |raw|
      invariant b == Typed(raw[..i]) && InAlphabet(b) && |b| <= want
    {
      var c := Upper(raw[i]);
      TypedConcat(raw[..i], [raw[i]]);
      assert raw[..i] + [raw[i]] == raw[..i + 1];
      assert [raw[i]][1..] == "";
      TypedConcat(raw[..i + 1], raw[i + 1..]);
      assert raw[..i + 1] + raw[i + 1..] == raw;
      if IsSeparator(c) {
        continue;
      }
      assert Typed(raw[..i + 1]) == b + [c];
      assert c == Typed(raw)[|b|];
      if c !in Alphabet {
        return None;
      }
      b := b + [c];
      if |b| > want {
        return None;
      }
    }
    assert raw[..|raw|] == raw;
    return if |b| == want then Some(b) else None;
  }

  function ParseUserCode(raw: string): Option<string> {
    Normalized(raw, CodeLength)
  }

  function FormatUserCode(code: string): string {
    if |code| != CodeLength then code else code[..CodeGroup] + "-" + code[CodeGroup..]
  }

  /** A code is drawn from twenty capital letters, all different and none of AEIOU and L, and shown as XXXX-XXXX. */
  lemma CodesAreReadable(code: string)
    requires |code| == 8
    ensures |Alphabet| == 20
    ensures forall i :: 0 <= i < 20 ==> 'A' <= Alphabet[i] <= 'Z' && Alphabet[i] !in "AEIOUL"
    ensures forall i, j :: 0 <= i < j < 20 ==> Alphabet[i] < Alphabet[j]
    ensures var shown := FormatUserCode(code);
            && |shown| == 9 && shown[4] == '-'
            && shown[..4] == code[..4] && shown[5..] == code[4..]
  {
  }

  lemma {:induction false} TypedAlphabet(s: string)
    requires InAlphabet(s)
    ensures Typed(s) == s
    decreases |s|
  {
    if s != "" {
      LetterIsUpper(s[0]);
      assert Typed(s) == [s[0]] + Typed(s[1..]);
      hide Typed;
      TypedAlphabet(s[1..]);
      assert s == [s[0]] + s[1..];
    }
  }

  lemma LetterIsUpper(c: char)
    requires c in Alphabet
    ensures 'A' <= c <= 'Z' && Upper(c) == c && !IsSeparator(c)
  {
    var i :| 0 <= i < |Alphabet| && Alphabet[i] == c;
  }

  /** A code shown and then typed back as shown is the code. */
  lemma FormatParses(code: string)
    requires |code| == CodeLength && InAlphabet(code)
    ensures ParseUserCode(FormatUserCode(code)) == Some(code)
  {
    var a, b := code[..CodeGroup], code[CodeGroup..];
    TypedConcat(a + "-", b);
    TypedConcat(a, "-");
    TypedAlphabet(a);
    TypedAlphabet(b);
    assert "-"[1..] == "";
    assert Typed("-") == "";
    assert a + b == code;
    assert Typed(a) + "" + Typed(b) == code;
  }

  /** How it is typed makes no difference: separators anywhere and either case give the same code. */
  lemma PresentationIgnored(a: string, b: string, c: char, want: nat)
    ensures IsSeparator(c) ==> Normalized(a + [c] + b, want) == Normalized(a + b, want)
    ensures 'A' <= c <= 'Z' ==>
              Normalized(a + [(c as int - 'A' as int + 'a' as int) as char] + b, want) == Normalized(a + [c] + b, want)
  {
    TypedConcat(a + [c], b);
    TypedConcat(a, [c]);
    TypedConcat(a, b);
    assert [c][1..] == "";
    if IsSeparator(c) {
      assert Typed([c]) == "";
      assert Typed(a) + "" == Typed(a);
    }
    if 'A' <= c <= 'Z' {
      var l := (c as int - 'A' as int + 'a' as int) as char;
      TypedConcat(a + [l], b);
      TypedConcat(a, [l]);
      assert [l][1..] == "";
      assert Upper(l) == c;
    }
  }

  /** What the parser gives back is stored form: parsing it again changes nothing. */
  lemma ParseIsStable(raw: string)
    requires ParseUserCode(raw).Some?
    ensures ParseUserCode(ParseUserCode(raw).value) == ParseUserCode(raw)
  {
    TypedAlphabet(Typed(raw));
  }

  // ---------- drawing a code ----------

  function Drawn(b: byte): char
    requires b as nat < Limit
  {
    Alphabet[b as nat % |Alphabet|]
  }

  /** The characters random bytes draw, the rejected ones drawing none. */
  function Draws(bytes: seq<byte>): string {
    if bytes == [] then ""
    else (if bytes[0] as nat >= Limit then "" else [Drawn(bytes[0])]) + Draws(bytes[1..])
  }

  lemma {:induction false} DrawsConcat(a: seq<byte>, b: seq<byte>)
    ensures Draws(a + b) == Draws(a) + Draws(b)
    decreases |a|
  {
    hide Drawn;
    if a == [] {
      assert a + b == b;
    } else {
      assert (a + b)[1..] == a[1..] + b;
      DrawsConcat(a[1..], b);
    }
  }

  lemma {:induction false} DrawsFromPrefix(a: seq<byte>, b: seq<byte>, length: nat)
    requires |Draws(a)| >= length
    ensures |Draws(a + b)| >= length
    ensures Draws(a + b)[..length] == Draws(a)[..length]
  {
    DrawsConcat(a, b);
  }

  /** Draws are of the alphabet. */
  lemma {:induction false} DrawsInAlphabet(bytes: seq<byte>)
    ensures InAlphabet(Draws(bytes))
    decreases |bytes|
  {
    if bytes != [] {
      DrawsInAlphabet(bytes[1..]);
    }
  }

  /**
   Draws a code from a source of random bytes, read a buffer at a time; None when the source gives out. What it
   returns is the first length characters the bytes draw, whatever buffers they come in.
   */
  method RandomCode(source: seq<seq<byte>>, length: nat) returns (code: Option<string>)
    ensures code.Some? <==> |Draws(Flatten(source))| >= length
    ensures code.Some? ==> code.value == Draws(Flatten(source))[..length] && InAlphabet(code.value)
  {
    var out := "";
    var k := 0;
    ghost var read: seq<byte> := [];
    while |out| < length && k < |source|
      invariant 0 <= k <= |source| && |out| <= length
      invariant read + Flatten(source[k..]) == Flatten(source)
      invariant out == Draws(read)
      decreases |source| - k
    {
      var buf := source[k];
      assert source[k..][1..] == source[k + 1..];
      var more := DrawFrom(buf, length - |out|);
      DrawsConcat(read, buf);
      if |more| == length - |out| {
        DrawsInAlphabet(read + buf);
        DrawsFromPrefix(read + buf, Flatten(source[k + 1..]), length);
        assert read + buf + Flatten(source[k + 1..]) == Flatten(source);
        DrawsConcat(read + buf, Flatten(source[k + 1..]));
        return Some(out + more);
      }
      out := out + more;
      read := read + buf;
      assert read + Flatten(source[k + 1..]) == Flatten(source);
      k := k + 1;
    }
    assert |out| < length ==> source[k..] == [];
    assert |out| < length ==> read == Flatten(source);
    if |out| < length {
      return None;
    }
    DrawsInAlphabet(read);
    DrawsFromPrefix(read, Flatten(source[k..]), length);
    DrawsConcat(read, Flatten(source[k..]));
    return Some(out);
  }

  /** The characters one buffer draws, no more than are wanted. */
  method DrawFrom(buf: seq<byte>, want: nat) returns (out: string)
    requires want > 0
    ensures out == Take(Draws(buf), want)
  {
    out := "";
    for i := 0 to |buf|
      invariant out == Draws(buf[..i]) && |out| < want
    {
      assert buf[..i + 1] == buf[..i] + [buf[i]];
      DrawsConcat(buf[..i], [buf[i]]);
      assert [buf[i]][1..] == [];
      if buf[i] as nat >= Limit {
        continue;
      }
      out := out + [Drawn(buf[i])];
      assert out == Draws(buf[..i + 1]);
      if |out| == want {
        DrawsConcat(buf[..i + 1], buf[i + 1..]);
        assert buf[..i + 1] + buf[i + 1..] == buf;
        return;
      }
    }
    assert buf[..|buf|] == buf;
  }

  /** The first n bytes that are j modulo the alphabet's length. */
  function Congruent(j: nat, n: nat): set<nat> {
    if n == 0 then {} else Congruent(j, n - 1) + {j + 20 * (n - 1)}
  }

  lemma {:induction false} CongruentCount(j: nat, n: nat)
    requires j < 20
    ensures |Congruent(j, n)| == n
    ensures forall x: nat :: x in Congruent(j, n) <==> x < 20 * n && x % 20 == j
    decreases n
  {
    if n > 0 {
      CongruentCount(j, n - 1);
      forall x: nat ensures x in Congruent(j, n) <==> x < 20 * n && x % 20 == j {
        NextCongruent(x, j, n - 1);
      }
    }
  }

  lemma NextCongruent(x: nat, j: nat, m: nat)
    requires j < 20
    ensures 20 * m <= x < 20 * m + 20 && x % 20 == j <==> x == j + 20 * m
  {
    var q := x / 20;
    assert x == 20 * q + x % 20;
    if x == j + 20 * m {
      assert q == m;
    }
  }

  predicate DrawsLetter(x: nat, j: nat)
    requires j < |Alphabet|
  {
    x < Limit && Drawn(x as byte) == Alphabet[j]
  }

  /** Every letter is drawn by twelve bytes, the same as every other: the draw is not biased. */
  lemma NoLetterIsFavoured(j: nat)
    requires j < |Alphabet|
    ensures |set x: nat | x < 256 && DrawsLetter(x, j)| == 12
  {
    hide DrawsLetter;
    var drawing := set x: nat | x < 256 && DrawsLetter(x, j);
    AlphabetDistinct();
    CongruentCount(j, 12);
    forall x: nat ensures x in drawing <==> x in Congruent(j, 12) {
      DrawnIs(x, j);
    }
    assert drawing == Congruent(j, 12);
  }

  lemma DrawnIs(x: nat, j: nat)
    requires j < |Alphabet|
    ensures DrawsLetter(x, j) <==> x < 240 && x % 20 == j
  {
    AlphabetDistinct();
    assert Limit == 240;
    var i := x % |Alphabet|;
    assert i < j || i == j || j < i;
  }

  lemma AlphabetDistinct()
    ensures |Alphabet| == 20
    ensures forall i, j :: 0 <= i < j < |Alphabet| ==> Alphabet[i] != Alphabet[j]
  {
  }
}
