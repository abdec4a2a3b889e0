/**
 Changing text in one pass (daemon/config/edit.go): every change is planned against the text as it is, the plan is
 sorted by where it starts, and what lies between is copied.
 */
module Splice {
  import opened Bytes

  type Text = string

  /** A replacement of the span from start to end, or a line put in where they are the same. */
  datatype Change = Change(start: nat, end: nat, text: Text)

  predicate EndsLine(t: Text) {
    t != "" && t[|t| - 1] == '\n'
  }

  /** A text to put something behind: its own last line may lack a newline. */
  function Ended(t: Text, nl: Text): Text {
    if t == "" || EndsLine(t) then t else t + nl
  }

  // ---------- a stable sort ----------

  /** Puts a change behind every one that starts no later. */
  function InsertAfter(cs: seq<Change>, c: Change): seq<Change> {
    if cs == [] then [c]
    else if cs[|cs| - 1].start <= c.start then cs + [c]
    else InsertAfter(cs[..|cs| - 1], c) + [cs[|cs| - 1]]
  }

  function SortStable(cs: seq<Change>): seq<Change> {
    if cs == [] then [] else InsertAfter(SortStable(cs[..|cs| - 1]), cs[|cs| - 1])
  }

  predicate InOrder(cs: seq<Change>) {
    forall i, j :: 0 <= i < j < |cs| ==> cs[i].start <= cs[j].start
  }

  /** The changes that start at an offset, in the order they have. */
  function StartingAt(cs: seq<Change>, at: nat): seq<Change> {
    if cs == [] then []
    else StartingAt(cs[..|cs| - 1], at) + (if cs[|cs| - 1].start == at then [cs[|cs| - 1]] else [])
  }

  lemma {:induction false} InsertKeepsOrder(cs: seq<Change>, c: Change)
    requires InOrder(cs)
    ensures InOrder(InsertAfter(cs, c))
    ensures forall i :: 0 <= i < |InsertAfter(cs, c)| ==> InsertAfter(cs, c)[i] in cs || InsertAfter(cs, c)[i] == c
  {
    if cs != [] {
      var most, last := cs[..|cs| - 1], cs[|cs| - 1];
      if last.start > c.start {
        InsertKeepsOrder(most, c);
        var r := InsertAfter(most, c);
        forall i | 0 <= i < |r|
          ensures r[i].start <= last.start && (r[i] in cs || r[i] == c)
        {
        }
      }
    }
  }

  lemma {:induction false} InsertKeepsEquals(cs: seq<Change>, c: Change, at: nat)
    requires InOrder(cs)
    ensures StartingAt(InsertAfter(cs, c), at) == StartingAt(cs, at) + (if c.start == at then [c] else [])
  {
    if cs == [] {
      assert [c][..0] == [];
    } else {
      var most, last := cs[..|cs| - 1], cs[|cs| - 1];
      if last.start <= c.start {
        assert (cs + [c])[..|cs|] == cs;
      } else {
        InsertKeepsEquals(most, c, at);
        var r := InsertAfter(most, c);
        assert (r + [last])[..|r|] == r;
        if c.start == at {
          assert last.start != at;
        }
      }
    }
  }

  /** The sort is one, and leaves changes that start together in the order they were asked for. */
  lemma {:induction false} SortsStably(cs: seq<Change>, at: nat)
    ensures InOrder(SortStable(cs))
    ensures StartingAt(SortStable(cs), at) == StartingAt(cs, at)
  {
    if cs != [] {
      SortsStably(cs[..|cs| - 1], at);
      InsertKeepsOrder(SortStable(cs[..|cs| - 1]), cs[|cs| - 1]);
      InsertKeepsEquals(SortStable(cs[..|cs| - 1]), cs[|cs| - 1], at);
    }
  }

  // ---------- one pass ----------

  /** What has been written once the changes are made, and how much of the text that used up. None: two overlap. */
  function Made(text: Text, cs: seq<Change>, nl: Text): (r: Option<(Text, nat)>)
  {
    if cs == [] then Some(("", 0))
    else
      var done, c := Made(text, cs[..|cs| - 1], nl), cs[|cs| - 1];
      if done.None? || c.start < done.value.1 || c.end < c.start || |text| < c.end || |text| < done.value.1 then None
      else
        var out := done.value.0 + text[done.value.1..c.start];
        Some((if c.start == c.end then Ended(out, nl) + c.text + nl else out + c.text, c.end))
  }

  /** The pass itself. A plan that overlaps is refused. */
  method MakeChanges(text: Text, cs: seq<Change>, nl: Text) returns (ok: bool, out: Text)
    requires forall c :: c in cs ==> c.start <= c.end <= |text|
    ensures ok <==> Made(text, cs, nl).Some?
    ensures ok ==> Made(text, cs, nl).value.1 <= |text|
    ensures ok ==> out == Made(text, cs, nl).value.0 + text[Made(text, cs, nl).value.1..]
  {
    var at := 0;
    out := "";
    for i := 0 to |cs|
      invariant at <= |text|
      invariant Made(text, cs[..i], nl) == Some((out, at))
    {
      var c := cs[i];
      assert cs[..i + 1][..i] == cs[..i];
      if c.start < at {
        NoneStays(text, cs, i + 1, nl);
        return false, "";
      }
      out := out + text[at..c.start];
      if c.start == c.end {
        if out != "" && out[|out| - 1] != '\n' {
          out := out + nl;
        }
        out := out + c.text + nl;
      } else {
        out := out + c.text;
      }
      at := c.end;
    }
    assert cs[..|cs|] == cs;
    return true, out + text[at..];
  }

  lemma {:induction false} NoneStays(text: Text, cs: seq<Change>, i: nat, nl: Text)
    requires i <= |cs| && Made(text, cs[..i], nl).None?
    ensures Made(text, cs, nl).None?
    decreases |cs|
  {
    if i == |cs| {
      assert cs[..i] == cs;
    } else {
      assert cs[..|cs| - 1][..i] == cs[..i];
      NoneStays(text, cs[..|cs| - 1], i, nl);
    }
  }

  // ---------- text in pieces ----------

  /** A place in a document: the value of a line of a section, or behind the last line a section has. */
  datatype Spot = ValueOf(section: nat, line: nat) | EndOf(section: nat)

  /** Text that stays, or a slot: a value that may be replaced, or an empty place where lines may be put in. */
  datatype Piece = Fixed(text: Text) | Slot(spot: Spot, text: Text)

  datatype Planned = Planned(spot: Spot, text: Text)

  function TextOf(ps: seq<Piece>): Text {
    if ps == [] then "" else TextOf(ps[..|ps| - 1]) + ps[|ps| - 1].text
  }

  predicate Has(ps: seq<Piece>, s: Spot) {
    exists i :: 0 <= i < |ps| && ps[i].Slot? && ps[i].spot == s
  }

  /** No spot twice, and some text between any slot and a later one. */
  predicate Apart(ps: seq<Piece>) {
    && (forall i, j :: 0 <= i < j < |ps| && ps[i].Slot? && ps[j].Slot? ==>
          ps[i].spot != ps[j].spot && |TextOf(ps[..i])| < |TextOf(ps[..j])|)
  }

  function OffsetOf(ps: seq<Piece>, s: Spot): nat
    requires Has(ps, s)
  {
    var p := ps[|ps| - 1];
    if p.Slot? && p.spot == s then |TextOf(ps[..|ps| - 1])|
    else
      assert Has(ps[..|ps| - 1], s) by { HasEarlier(ps, s); }
      OffsetOf(ps[..|ps| - 1], s)
  }

  function WidthOf(ps: seq<Piece>, s: Spot): nat
    requires Has(ps, s)
  {
    var p := ps[|ps| - 1];
    if p.Slot? && p.spot == s then |p.text|
    else
      assert Has(ps[..|ps| - 1], s) by { HasEarlier(ps, s); }
      WidthOf(ps[..|ps| - 1], s)
  }

  lemma HasEarlier(ps: seq<Piece>, s: Spot)
    requires Has(ps, s) && !(ps[|ps| - 1].Slot? && ps[|ps| - 1].spot == s)
    ensures Has(ps[..|ps| - 1], s)
  {
    var i :| 0 <= i < |ps| && ps[i].Slot? && ps[i].spot == s;
    assert ps[..|ps| - 1][i] == ps[i];
  }

  function AtSpan(ps: seq<Piece>, c: Planned): Change
    requires Has(ps, c.spot)
  {
    var o := OffsetOf(ps, c.spot);
    Change(o, o + WidthOf(ps, c.spot), c.text)
  }

  function AtSpans(ps: seq<Piece>, cs: seq<Planned>): seq<Change>
    requires forall c :: c in cs ==> Has(ps, c.spot)
  {
    if cs == [] then []
    else AtSpans(ps, cs[..|cs| - 1]) + [AtSpan(ps, cs[|cs| - 1])]
  }

  /** The texts planned for a spot, in order. */
  function For(cs: seq<Planned>, s: Spot): seq<Text> {
    if cs == [] then []
    else For(cs[..|cs| - 1], s) + (if cs[|cs| - 1].spot == s then [cs[|cs| - 1].text] else [])
  }

  function WithLines(out: Text, lines: seq<Text>, nl: Text): Text {
    if lines == [] then out
    else Ended(WithLines(out, lines[..|lines| - 1], nl), nl) + lines[|lines| - 1] + nl
  }

  /** The text once each slot has what is planned for it. */
  function Filled(ps: seq<Piece>, cs: seq<Planned>, nl: Text): Text {
    if ps == [] then ""
    else
      var out, p := Filled(ps[..|ps| - 1], cs, nl), ps[|ps| - 1];
      if p.Fixed? || For(cs, p.spot) == [] then out + p.text
      else if p.text == "" then WithLines(out, For(cs, p.spot), nl)
      else out + For(cs, p.spot)[0]
  }

  /** A value is replaced once at the most. */
  predicate OnceEach(ps: seq<Piece>, cs: seq<Planned>) {
    forall i :: 0 <= i < |ps| && ps[i].Slot? && ps[i].text != "" ==> |For(cs, ps[i].spot)| <= 1
  }

  // ---------- the sorted plan is the plan slot by slot ----------

  function ChangesAt(start: nat, width: nat, texts: seq<Text>): seq<Change> {
    if texts == [] then []
    else ChangesAt(start, width, texts[..|texts| - 1]) + [Change(start, start + width, texts[|texts| - 1])]
  }

  function BySlot(ps: seq<Piece>, cs: seq<Planned>): seq<Change> {
    if ps == [] then []
    else
      var p := ps[|ps| - 1];
      BySlot(ps[..|ps| - 1], cs) +
      (if p.Slot? then ChangesAt(|TextOf(ps[..|ps| - 1])|, |p.text|, For(cs, p.spot)) else [])
  }

  lemma {:induction false} ChangesAtStart(start: nat, width: nat, texts: seq<Text>)
    ensures |ChangesAt(start, width, texts)| == |texts|
    ensures forall i :: 0 <= i < |texts| ==> ChangesAt(start, width, texts)[i] == Change(start, start + width, texts[i])
  {
    if texts != [] {
      ChangesAtStart(start, width, texts[..|texts| - 1]);
    }
  }

  lemma {:induction false} InsertBefore(a: seq<Change>, b: seq<Change>, c: Change)
    requires forall i :: 0 <= i < |b| ==> c.start < b[i].start
    ensures InsertAfter(a + b, c) == InsertAfter(a, c) + b
    decreases |b|
  {
    if b == [] {
      assert a + b == a;
    } else {
      assert (a + b)[..|a + b| - 1] == a + b[..|b| - 1];
      InsertBefore(a, b[..|b| - 1], c);
      assert b == b[..|b| - 1] + [b[|b| - 1]];
    }
  }

  lemma {:induction false} BySlotStarts(ps: seq<Piece>, cs: seq<Planned>)
    requires Apart(ps)
    ensures forall i :: 0 <= i < |BySlot(ps, cs)| ==> BySlot(ps, cs)[i].start <= |TextOf(ps)|
  {
    if ps != [] {
      var qs, p := ps[..|ps| - 1], ps[|ps| - 1];
      PrefixApart(ps);
      BySlotStarts(qs, cs);
      if p.Slot? {
        ChangesAtStart(|TextOf(qs)|, |p.text|, For(cs, p.spot));
      }
    }
  }

  lemma PrefixApart(ps: seq<Piece>)
    requires Apart(ps) && ps != []
    ensures Apart(ps[..|ps| - 1])
  {
    var qs := ps[..|ps| - 1];
    forall i, j | 0 <= i < j < |qs| && qs[i].Slot? && qs[j].Slot?
      ensures qs[i].spot != qs[j].spot && |TextOf(qs[..i])| < |TextOf(qs[..j])|
    {
      assert qs[..i] == ps[..i] && qs[..j] == ps[..j];
      assert qs[i] == ps[i] && qs[j] == ps[j];
    }
  }

  /** Where a spot is, in the pieces. */
  lemma {:induction false} SpotIndex(ps: seq<Piece>, s: Spot) returns (i: nat)
    requires Has(ps, s)
    ensures i < |ps| && ps[i].Slot? && ps[i].spot == s && OffsetOf(ps, s) == |TextOf(ps[..i])|
    ensures WidthOf(ps, s) == |ps[i].text|
  {
    var p := ps[|ps| - 1];
    if p.Slot? && p.spot == s {
      i := |ps| - 1;
    } else {
      HasEarlier(ps, s);
      i := SpotIndex(ps[..|ps| - 1], s);
      assert ps[..|ps| - 1][..i] == ps[..i];
    }
  }

  lemma ForNext(cs: seq<Planned>, c: Planned, s: Spot)
    ensures For(cs + [c], s) == if c.spot == s then For(cs, s) + [c.text] else For(cs, s)
  {
    assert (cs + [c])[..|cs|] == cs;
  }

  lemma HasLater(ps: seq<Piece>, s: Spot)
    requires ps != [] && Has(ps[..|ps| - 1], s)
    ensures Has(ps, s)
  {
    var i :| 0 <= i < |ps| - 1 && ps[..|ps| - 1][i].Slot? && ps[..|ps| - 1][i].spot == s;
    assert ps[i].Slot? && ps[i].spot == s;
  }

  lemma {:induction false} AbsentAddsNothing(ps: seq<Piece>, cs: seq<Planned>, c: Planned)
    requires !Has(ps, c.spot)
    ensures BySlot(ps, cs + [c]) == BySlot(ps, cs)
  {
    hide Has, For, ChangesAt;
    if ps != [] {
      var qs, p := ps[..|ps| - 1], ps[|ps| - 1];
      if Has(qs, c.spot) {
        HasLater(ps, c.spot);
      }
      assert !(p.Slot? && p.spot == c.spot) by {
        LastIsHad(ps);
      }
      AbsentAddsNothing(qs, cs, c);
      if p.Slot? {
        ForNext(cs, c, p.spot);
      }
    }
  }

  lemma LastIsHad(ps: seq<Piece>)
    requires ps != []
    ensures ps[|ps| - 1].Slot? ==> Has(ps, ps[|ps| - 1].spot)
  {
  }

  lemma LastIsNew(ps: seq<Piece>)
    requires Apart(ps) && ps != [] && ps[|ps| - 1].Slot?
    ensures !Has(ps[..|ps| - 1], ps[|ps| - 1].spot)
  {
    var qs := ps[..|ps| - 1];
    forall i | 0 <= i < |qs| && qs[i].Slot?
      ensures qs[i].spot != ps[|ps| - 1].spot
    {
      assert qs[i] == ps[i];
    }
  }

  lemma Nearer(ps: seq<Piece>, s: Spot)
    requires Apart(ps) && ps != [] && ps[|ps| - 1].Slot? && Has(ps[..|ps| - 1], s)
    ensures OffsetOf(ps[..|ps| - 1], s) < |TextOf(ps[..|ps| - 1])|
  {
    var qs := ps[..|ps| - 1];
    var i := SpotIndex(qs, s);
    assert ps[i] == qs[i] && ps[..i] == qs[..i];
  }

  lemma {:induction false} OneMore(ps: seq<Piece>, cs: seq<Planned>, c: Planned)
    requires Apart(ps) && Has(ps, c.spot)
    ensures BySlot(ps, cs + [c]) == InsertAfter(BySlot(ps, cs), AtSpan(ps, c))
  {
    hide Has, For, ChangesAt, Apart, TextOf, InsertAfter;
    HasSome(ps, c.spot);
    var qs, p := ps[..|ps| - 1], ps[|ps| - 1];
    PrefixApart(ps);
    var o := |TextOf(qs)|;
    if p.Slot? && p.spot == c.spot {
      LastIsNew(ps);
      AbsentAddsNothing(qs, cs, c);
      ForNext(cs, c, p.spot);
      BySlotStarts(qs, cs);
      ChangesAtStart(o, |p.text|, For(cs, c.spot));
      ChangesAtNext(o, |p.text|, For(cs, c.spot), c.text);
      LastStarts(BySlot(ps, cs), AtSpan(ps, c));
    } else {
      HasEarlier(ps, c.spot);
      OneMore(qs, cs, c);
      if p.Slot? {
        ForNext(cs, c, p.spot);
        Nearer(ps, c.spot);
        ChangesAtStart(o, |p.text|, For(cs, p.spot));
        InsertBefore(BySlot(qs, cs), ChangesAt(o, |p.text|, For(cs, p.spot)), AtSpan(ps, c));
      } else {
        assert BySlot(ps, cs) == BySlot(qs, cs);
      }
    }
  }

  lemma HasSome(ps: seq<Piece>, s: Spot)
    requires Has(ps, s)
    ensures ps != []
  {
  }

  lemma ChangesAtNext(start: nat, width: nat, texts: seq<Text>, text: Text)
    ensures ChangesAt(start, width, texts + [text]) ==
            ChangesAt(start, width, texts) + [Change(start, start + width, text)]
  {
    assert (texts + [text])[..|texts|] == texts;
  }

  lemma LastStarts(cs: seq<Change>, c: Change)
    requires forall i :: 0 <= i < |cs| ==> cs[i].start <= c.start
    ensures InsertAfter(cs, c) == cs + [c]
  {
  }

  lemma {:induction false} NothingPlanned(ps: seq<Piece>)
    ensures BySlot(ps, []) == []
  {
    if ps != [] {
      NothingPlanned(ps[..|ps| - 1]);
    }
  }

  lemma {:induction false} SortedIsBySlot(ps: seq<Piece>, cs: seq<Planned>)
    requires Apart(ps) && forall c :: c in cs ==> Has(ps, c.spot)
    ensures SortStable(AtSpans(ps, cs)) == BySlot(ps, cs)
  {
    if cs == [] {
      NothingPlanned(ps);
    } else {
      var ds, c := cs[..|cs| - 1], cs[|cs| - 1];
      assert cs == ds + [c];
      SortedIsBySlot(ps, ds);
      OneMore(ps, ds, c);
      var as' := AtSpans(ps, cs);
      assert as'[..|as'| - 1] == AtSpans(ps, ds);
    }
  }

  // ---------- and so the pass fills the slots ----------

  lemma MadeStep(text: Text, cs: seq<Change>, c: Change, nl: Text)
    requires Made(text, cs, nl).Some? && Made(text, cs, nl).value.1 <= c.start <= c.end <= |text|
    ensures var (out, at) := Made(text, cs, nl).value;
            var copied := out + text[at..c.start];
            Made(text, cs + [c], nl) ==
              Some((if c.start == c.end then Ended(copied, nl) + c.text + nl else copied + c.text, c.end))
  {
    assert (cs + [c])[..|cs|] == cs;
  }

  lemma {:induction false} LinesAreMade(text: Text, cs: seq<Change>, start: nat, lines: seq<Text>, nl: Text)
    requires lines != [] && start <= |text| && Made(text, cs, nl).Some? && Made(text, cs, nl).value.1 <= start
    ensures var (out, at) := Made(text, cs, nl).value;
            Made(text, cs + ChangesAt(start, 0, lines), nl) ==
              Some((WithLines(out + text[at..start], lines, nl), start))
  {
    var c := Change(start, start, lines[|lines| - 1]);
    var most := lines[..|lines| - 1];
    assert cs + ChangesAt(start, 0, lines) == (cs + ChangesAt(start, 0, most)) + [c];
    var (out, at) := Made(text, cs, nl).value;
    if most == [] {
      assert cs + ChangesAt(start, 0, most) == cs;
      MadeStep(text, cs, c, nl);
    } else {
      LinesAreMade(text, cs, start, most, nl);
      MadeStep(text, cs + ChangesAt(start, 0, most), c, nl);
      var w := WithLines(out + text[at..start], most, nl);
      assert w + text[start..start] == w;
    }
  }

  lemma {:induction false} TextOfPrefix(ps: seq<Piece>, j: nat)
    requires j <= |ps|
    ensures |TextOf(ps[..j])| <= |TextOf(ps)|
    ensures TextOf(ps)[..|TextOf(ps[..j])|] == TextOf(ps[..j])
    decreases |ps|
  {
    if j == |ps| {
      assert ps[..j] == ps;
    } else {
      TextOfPrefix(ps[..|ps| - 1], j);
      assert ps[..|ps| - 1][..j] == ps[..j];
    }
  }

  /** What the pass has written by the end of some pieces, with what it has still to copy of them, is those filled. */
  predicate FilledTo(text: Text, made: Option<(Text, nat)>, end: nat, filled: Text)
    requires end <= |text|
  {
    && made.Some?
    && made.value.1 <= end
    && made.value.0 + text[made.value.1..end] == filled
  }

  lemma CopiesOn(text: Text, made: Option<(Text, nat)>, end: nat, more: nat, filled: Text)
    requires end <= more <= |text| && FilledTo(text, made, end, filled)
    ensures FilledTo(text, made, more, filled + text[end..more])
  {
    assert text[made.value.1..more] == text[made.value.1..end] + text[end..more];
  }

  lemma LinesFill(text: Text, cs: seq<Change>, end: nat, lines: seq<Text>, nl: Text, filled: Text)
    requires end <= |text| && lines != [] && FilledTo(text, Made(text, cs, nl), end, filled)
    ensures FilledTo(text, Made(text, cs + ChangesAt(end, 0, lines), nl), end, WithLines(filled, lines, nl))
  {
    hide Made, WithLines, ChangesAt;
    LinesAreMade(text, cs, end, lines, nl);
    assert text[end..end] == "";
  }

  lemma ValueFills(text: Text, cs: seq<Change>, end: nat, more: nat, value: Text, nl: Text, filled: Text)
    requires end < more <= |text| && FilledTo(text, Made(text, cs, nl), end, filled)
    ensures FilledTo(text, Made(text, cs + ChangesAt(end, more - end, [value]), nl), more, filled + value)
  {
    hide Made;
    assert ChangesAt(end, more - end, [value]) == [Change(end, more, value)];
    MadeStep(text, cs, Change(end, more, value), nl);
    assert text[more..more] == "";
  }

  lemma LastPiece(ps: seq<Piece>, cs: seq<Planned>, nl: Text)
    requires ps != []
    ensures var qs, p := ps[..|ps| - 1], ps[|ps| - 1];
            var lines, out := if p.Slot? then For(cs, p.spot) else [], Filled(qs, cs, nl);
            && TextOf(ps) == TextOf(qs) + p.text
            && (lines == [] ==> BySlot(ps, cs) == BySlot(qs, cs) && Filled(ps, cs, nl) == out + p.text)
            && (lines != [] ==>
                  && BySlot(ps, cs) == BySlot(qs, cs) + ChangesAt(|TextOf(qs)|, |p.text|, lines)
                  && Filled(ps, cs, nl) == if p.text == "" then WithLines(out, lines, nl) else out + lines[0])
  {
    hide For, WithLines;
  }

  lemma Slices(text: Text, o: nat, e: nat)
    requires o <= e <= |text|
    ensures text[..o] == text[..e][..o] && text[o..e] == text[..e][o..]
  {
  }

  lemma LastOnce(ps: seq<Piece>, cs: seq<Planned>)
    requires OnceEach(ps, cs) && ps != []
    ensures OnceEach(ps[..|ps| - 1], cs)
    ensures var p := ps[|ps| - 1]; p.Slot? && p.text != "" ==> |For(cs, p.spot)| <= 1
  {
    hide For;
  }

  lemma {:induction false} MadeIsFilled(ps: seq<Piece>, cs: seq<Planned>, text: Text, nl: Text)
    requires OnceEach(ps, cs) && |TextOf(ps)| <= |text| && text[..|TextOf(ps)|] == TextOf(ps)
    ensures FilledTo(text, Made(text, BySlot(ps, cs), nl), |TextOf(ps)|, Filled(ps, cs, nl))
  {
    if ps != [] {
      var qs, p := ps[..|ps| - 1], ps[|ps| - 1];
      var lines := if p.Slot? then For(cs, p.spot) else [];
      LastOnce(ps, cs);
      LastPiece(ps, cs, nl);
      hide OnceEach, Made, For, FilledTo, WithLines, BySlot, Filled, TextOf, ChangesAt;
      var o, e := |TextOf(qs)|, |TextOf(ps)|;
      Slices(text, o, e);
      MadeIsFilled(qs, cs, text, nl);
      if lines == [] {
        CopiesOn(text, Made(text, BySlot(qs, cs), nl), o, e, Filled(qs, cs, nl));
      } else if p.text == "" {
        LinesFill(text, BySlot(qs, cs), o, lines, nl, Filled(qs, cs, nl));
      } else {
        assert lines == [lines[0]];
        ValueFills(text, BySlot(qs, cs), o, e, lines[0], nl, Filled(qs, cs, nl));
      }
    }
  }

  /**
   Planning every change against one read is the same as filling each slot where it stands: the changes never
   overlap, and every character outside a replaced value comes through, in order.
   */
  lemma PassFillsSlots(ps: seq<Piece>, cs: seq<Planned>, nl: Text)
    requires Apart(ps) && OnceEach(ps, cs) && forall c :: c in cs ==> Has(ps, c.spot)
    ensures var m := Made(TextOf(ps), SortStable(AtSpans(ps, cs)), nl);
            && m.Some?
            && m.value.1 <= |TextOf(ps)|
            && m.value.0 + TextOf(ps)[m.value.1..] == Filled(ps, cs, nl)
  {
    var text := TextOf(ps);
    SortedIsBySlot(ps, cs);
    assert text[..|text|] == text;
    MadeIsFilled(ps, cs, text, nl);
    var m := Made(text, BySlot(ps, cs), nl).value;
    assert text[m.1..|text|] == text[m.1..];
  }
}
