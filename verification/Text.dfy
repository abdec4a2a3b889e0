/** The few operations on text that versions and typed codes need. */
module Text {
  /** What precedes the first c, what follows it, and whether there is one. */
  function CutAt(s: string, c: char): (r: (string, string, bool))
    ensures c !in r.0
    ensures r.2 ==> s == r.0 + [c] + r.1
    ensures !r.2 ==> s == r.0 && r.1 == "" && c !in s
  {
    if s == "" then ("", "", false)
    else if s[0] == c then ("", s[1..], true)
    else
      var (a, b, found) := CutAt(s[1..], c);
      ([s[0]] + a, b, found)
  }

  lemma {:induction false} CutAtFirst(a: string, b: string, c: char)
    requires c !in a
    ensures CutAt(a + [c] + b, c) == (a, b, true)
    decreases |a|
  {
    var s := a + [c] + b;
    if a == "" {
      assert s[1..] == b;
    } else {
      assert s[1..] == a[1..] + [c] + b;
      CutAtFirst(a[1..], b, c);
      assert [a[0]] + a[1..] == a;
    }
  }

  lemma {:induction false} CutAtNone(a: string, c: char)
    requires c !in a
    ensures CutAt(a, c) == (a, "", false)
    decreases |a|
  {
    if a != "" {
      CutAtNone(a[1..], c);
      assert [a[0]] + a[1..] == a;
    }
  }

  /** The parts between separators; text with no separator is one part. */
  function Split(s: string, c: char): (parts: seq<string>)
    ensures |parts| >= 1
    ensures forall p :: p in parts ==> c !in p
    decreases |s|
  {
    var (a, b, found) := CutAt(s, c);
    if found then [a] + Split(b, c) else [a]
  }

  function Join(parts: seq<string>, c: char): string
    requires parts != []
  {
    if |parts| == 1 then parts[0] else parts[0] + [c] + Join(parts[1..], c)
  }

  lemma {:induction false} JoinSplit(s: string, c: char)
    ensures Join(Split(s, c), c) == s
    decreases |s|
  {
    var (a, b, found) := CutAt(s, c);
    if found {
      JoinSplit(b, c);
      assert Split(s, c)[1..] == Split(b, c);
    }
  }

  lemma {:induction false} SplitJoin(parts: seq<string>, c: char)
    requires parts != [] && forall p :: p in parts ==> c !in p
    ensures Split(Join(parts, c), c) == parts
    decreases |parts|
  {
    if |parts| == 1 {
      CutAtNone(parts[0], c);
    } else {
      CutAtFirst(parts[0], Join(parts[1..], c), c);
      SplitJoin(parts[1..], c);
      assert [parts[0]] + parts[1..] == parts;
    }
  }

  /** A character is in the text when it is in a part of it, or is what separates them. */
  lemma {:induction false} InSplit(s: string, c: char, x: char)
    requires x != c
    ensures x in s <==> exists p :: p in Split(s, c) && x in p
    decreases |s|
  {
    var (a, b, found) := CutAt(s, c);
    if found {
      InSplit(b, c, x);
      assert forall p :: p in Split(s, c) <==> p == a || p in Split(b, c);
    }
  }

  predicate IsDigit(c: char) {
    '0' <= c <= '9'
  }

  predicate AllDigits(s: string) {
    forall c :: c in s ==> IsDigit(c)
  }

  /** A number as it is written: digits, with no zero before the others. */
  predicate IsNumeral(s: string) {
    s != "" && AllDigits(s) && (s[0] == '0' ==> |s| == 1)
  }

  function Digit(c: char): (d: nat)
    requires IsDigit(c)
    ensures d < 10
  {
    c as nat - '0' as nat
  }

  function DigitChar(d: nat): (c: char)
    requires d < 10
    ensures IsDigit(c) && Digit(c) == d
  {
    ('0' as nat + d) as char
  }

  /** The number some digits spell. */
  function Value(s: string): nat
    requires AllDigits(s)
  {
    if s == "" then 0 else 10 * Value(s[..|s| - 1]) + Digit(s[|s| - 1])
  }

  function Decimal(n: nat): string {
    if n < 10 then [DigitChar(n)] else Decimal(n / 10) + [DigitChar(n % 10)]
  }

  lemma {:induction false} DecimalIsNumeral(n: nat)
    ensures IsNumeral(Decimal(n)) && Value(Decimal(n)) == n
    ensures n > 0 ==> Decimal(n)[0] != '0'
    decreases n
  {
    if n < 10 {
      assert Decimal(n)[..0] == "";
    } else {
      DecimalIsNumeral(n / 10);
      assert Decimal(n)[..|Decimal(n)| - 1] == Decimal(n / 10);
    }
  }

  lemma {:induction false} NumeralIsDecimal(s: string)
    requires IsNumeral(s)
    ensures Decimal(Value(s)) == s
    ensures |s| > 1 ==> Value(s) >= 10
    ensures s[0] != '0' ==> Value(s) > 0
    decreases |s|
  {
    var init := s[..|s| - 1];
    if |s| > 1 {
      assert init[0] == s[0];
      NumeralIsDecimal(init);
      assert s == init + [s[|s| - 1]];
    } else {
      assert init == "";
      assert s == [s[0]];
    }
  }

  // ---------- order ----------

  /** Text order, as a library compares: the first difference decides, and a beginning comes before the whole. */
  function CompareText(a: string, b: string): (c: int)
    ensures c == -1 || c == 0 || c == 1
  {
    if a == "" then if b == "" then 0 else -1
    else if b == "" then 1
    else if a[0] < b[0] then -1
    else if a[0] > b[0] then 1
    else CompareText(a[1..], b[1..])
  }

  lemma {:induction false} CompareTextZero(a: string, b: string)
    ensures CompareText(a, b) == 0 <==> a == b
    decreases |a|
  {
    if a != "" && b != "" {
      CompareTextZero(a[1..], b[1..]);
      assert a == [a[0]] + a[1..] && b == [b[0]] + b[1..];
    }
  }

  lemma {:induction false} CompareTextAntisymmetric(a: string, b: string)
    ensures CompareText(a, b) == -CompareText(b, a)
    decreases |a|
  {
    if a != "" && b != "" {
      CompareTextAntisymmetric(a[1..], b[1..]);
    }
  }

  lemma {:induction false} CompareTextTransitive(a: string, b: string, c: string)
    requires CompareText(a, b) <= 0 && CompareText(b, c) <= 0
    ensures CompareText(a, c) <= 0
    ensures CompareText(a, b) < 0 || CompareText(b, c) < 0 ==> CompareText(a, c) < 0
    decreases |a|
  {
    if a != "" && b != "" && c != "" && a[0] == b[0] == c[0] {
      CompareTextTransitive(a[1..], b[1..], c[1..]);
    }
  }

  /** Where text comes first in order: at the first difference, or by being the beginning of the other. */
  ghost predicate TextBelow(a: string, b: string) {
    exists k: nat :: TextBelowAt(a, b, k)
  }

  ghost predicate TextBelowAt(a: string, b: string, k: nat) {
    && k <= |a| && k < |b| && a[..k] == b[..k]
    && (k == |a| || a[k] < b[k])
  }

  lemma {:induction false} CompareTextIsOrder(a: string, b: string)
    ensures CompareText(a, b) < 0 <==> TextBelow(a, b)
    decreases |a|
  {
    if b == "" {
    } else if a == "" || a[0] < b[0] {
      assert TextBelowAt(a, b, 0);
    } else if a[0] > b[0] {
      forall k: nat ensures !TextBelowAt(a, b, k) {
        if 0 < k <= |a| && k < |b| {
          assert a[..k][0] == a[0] && b[..k][0] == b[0];
        }
      }
    } else {
      CompareTextIsOrder(a[1..], b[1..]);
      if TextBelow(a[1..], b[1..]) {
        var k: nat :| TextBelowAt(a[1..], b[1..], k);
        assert a[..k + 1] == [a[0]] + a[1..][..k] && b[..k + 1] == [b[0]] + b[1..][..k];
        assert TextBelowAt(a, b, k + 1);
      }
      if TextBelow(a, b) {
        var k: nat :| TextBelowAt(a, b, k);
        assert k > 0;
        assert a[1..][..k - 1] == a[..k][1..] && b[1..][..k - 1] == b[..k][1..];
        assert TextBelowAt(a[1..], b[1..], k - 1);
      }
    }
  }

  // ---------- digit strings ----------

  function Pow10(n: nat): nat {
    if n == 0 then 1 else 10 * Pow10(n - 1)
  }

  lemma {:induction false} ValueBounds(s: string)
    requires AllDigits(s)
    ensures Value(s) < Pow10(|s|)
    ensures s != "" && s[0] != '0' ==> Value(s) >= Pow10(|s| - 1)
    decreases |s|
  {
    if s != "" {
      var init := s[..|s| - 1];
      ValueBounds(init);
      if |s| > 1 {
        assert init[0] == s[0];
      }
    }
  }

  lemma {:induction false} Pow10Grows(a: nat, b: nat)
    requires a <= b
    ensures 1 <= Pow10(a) <= Pow10(b)
    decreases b
  {
    if a < b {
      Pow10Grows(a, b - 1);
    } else if a > 0 {
      Pow10Grows(a - 1, b - 1);
    }
  }

  lemma TenTimes(d: nat, p: nat, v: nat)
    ensures 10 * (d * p + v) == d * (10 * p) + 10 * v
  {
  }

  /** The first digit counts for as much as there are digits after it. */
  lemma {:induction false} ValueFromFront(s: string)
    requires AllDigits(s) && s != ""
    ensures Value(s) == Digit(s[0]) * Pow10(|s| - 1) + Value(s[1..])
    decreases |s|
  {
    var init := s[..|s| - 1];
    if |s| == 1 {
      assert init == "" && s[1..] == "";
    } else {
      ValueFromFront(init);
      assert s[1..][..|s| - 2] == init[1..];
      assert s[1..][|s| - 2] == s[|s| - 1];
      TenTimes(Digit(s[0]), Pow10(|s| - 2), Value(init[1..]));
    }
  }

  /** Digits of one length compare as text the way they compare as numbers. */
  lemma {:induction false} SameLengthCompare(a: string, b: string)
    requires AllDigits(a) && AllDigits(b) && |a| == |b|
    ensures CompareText(a, b) < 0 <==> Value(a) < Value(b)
    ensures CompareText(a, b) > 0 <==> Value(a) > Value(b)
    decreases |a|
  {
    hide Value, Pow10;
    if a == "" {
      assert b == "" && a == b;
    } else {
      ValueFromFront(a);
      ValueFromFront(b);
      ValueBounds(a[1..]);
      ValueBounds(b[1..]);
      SameLengthCompare(a[1..], b[1..]);
      FirstDigitDecides(Digit(a[0]), Digit(b[0]), Pow10(|a| - 1), Value(a[1..]), Value(b[1..]));
    }
  }

  lemma FirstDigitDecides(da: nat, db: nat, p: nat, va: nat, vb: nat)
    requires va < p && vb < p
    ensures da < db ==> da * p + va < db * p + vb
    ensures da > db ==> da * p + va > db * p + vb
  {
    if da < db {
      assert da * p + p == (da + 1) * p <= db * p;
    } else if da > db {
      assert db * p + p == (db + 1) * p <= da * p;
    }
  }
}
