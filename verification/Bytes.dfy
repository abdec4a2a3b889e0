/** Bytes, and the few sequence operations every module needs. */
module Bytes {

  newtype byte = x: int | 0 <= x < 0x100

  const LF: byte := 10
  const CR: byte := 13

  datatype Option<+T> = None | Some(value: T)

  function Min(a: nat, b: nat): nat {
    if a < b then a else b
  }

  function Max(a: nat, b: nat): nat {
    if a < b then b else a
  }

  /** The first n elements, or all of them when there are fewer. */
  function Take<T>(s: seq<T>, n: nat): seq<T> {
    if |s| <= n then s else s[..n]
  }

  /** The last n elements, or all of them when there are fewer. */
  function LastN<T>(s: seq<T>, n: nat): seq<T> {
    if |s| <= n then s else s[|s| - n..]
  }

  /** Pieces put together. */
  function Flatten<T>(pieces: seq<seq<T>>): seq<T> {
    if pieces == [] then [] else pieces[0] + Flatten(pieces[1..])
  }

  function TrimLeft<T>(s: seq<T>, drop: T -> bool): seq<T> {
    if s != [] && drop(s[0]) then TrimLeft(s[1..], drop) else s
  }

  function TrimRight<T>(s: seq<T>, drop: T -> bool): seq<T> {
    if s != [] && drop(s[|s| - 1]) then TrimRight(s[..|s| - 1], drop) else s
  }

  function Trim<T>(s: seq<T>, drop: T -> bool): seq<T> {
    TrimRight(TrimLeft(s, drop), drop)
  }

  predicate All<T>(s: seq<T>, drop: T -> bool) {
    forall i :: 0 <= i < |s| ==> drop(s[i])
  }

  predicate Bare<T>(s: seq<T>, drop: T -> bool) {
    s != [] && !drop(s[0]) && !drop(s[|s| - 1])
  }

  lemma {:induction false} TrimLeftDrops<T>(space: seq<T>, rest: seq<T>, drop: T -> bool)
    requires All(space, drop) && (rest == [] || !drop(rest[0]))
    ensures TrimLeft(space + rest, drop) == rest
  {
    if space == [] {
      assert space + rest == rest;
    } else {
      assert (space + rest)[1..] == space[1..] + rest;
      TrimLeftDrops(space[1..], rest, drop);
    }
  }

  lemma {:induction false} TrimRightDrops<T>(rest: seq<T>, space: seq<T>, drop: T -> bool)
    requires All(space, drop) && (rest == [] || !drop(rest[|rest| - 1]))
    ensures TrimRight(rest + space, drop) == rest
    decreases |space|
  {
    if space == [] {
      assert rest + space == rest;
    } else {
      var t := rest + space;
      assert t[..|t| - 1] == rest + space[..|space| - 1];
      assert t[|t| - 1] == space[|space| - 1];
      TrimRightDrops(rest, space[..|space| - 1], drop);
    }
  }

  lemma {:induction false} TrimLeftLeaves<T>(t: seq<T>, drop: T -> bool)
    ensures var r := TrimLeft(t, drop);
            |r| <= |t| && t[|t| - |r|..] == r && All(t[..|t| - |r|], drop) && (r == [] || !drop(r[0]))
  {
    if t != [] && drop(t[0]) {
      TrimLeftLeaves(t[1..], drop);
      var r := TrimLeft(t, drop);
      var n := |t| - |r|;
      assert t[n..] == t[1..][n - 1..];
      forall i | 0 <= i < n
        ensures drop(t[..n][i])
      {
        if i > 0 {
          assert t[1..][..n - 1][i - 1] == t[i];
        }
      }
    }
  }

  lemma {:induction false} TrimRightLeaves<T>(t: seq<T>, drop: T -> bool)
    ensures var r := TrimRight(t, drop);
            |r| <= |t| && t[..|r|] == r && All(t[|r|..], drop) && (r == [] || !drop(r[|r| - 1]))
    decreases |t|
  {
    if t != [] && drop(t[|t| - 1]) {
      var u := t[..|t| - 1];
      TrimRightLeaves(u, drop);
      var r := TrimRight(t, drop);
      assert t[..|r|] == u[..|r|];
      forall i | 0 <= i < |t| - |r|
        ensures drop(t[|r|..][i])
      {
        if i < |u| - |r| {
          assert u[|r|..][i] == t[|r| + i];
        }
      }
    }
  }

  /** Trimming finds what stands between: something whose ends are not to go, with nothing around it but what is. */
  lemma TrimIff<T>(s: seq<T>, core: seq<T>, drop: T -> bool)
    requires core != []
    ensures Trim(s, drop) == core <==>
              && Bare(core, drop)
              && exists before, after :: All(before, drop) && All(after, drop) && s == before + core + after
  {
    hide TrimLeft, TrimRight;
    if Trim(s, drop) == core {
      TrimLeaves(s, drop);
    }
    if Bare(core, drop) {
      forall before, after | All(before, drop) && All(after, drop) && s == before + core + after
        ensures Trim(s, drop) == core
      {
        assert s == before + (core + after);
        TrimLeftDrops(before, core + after, drop);
        TrimRightDrops(core, after, drop);
      }
    }
  }

  lemma TrimLeaves<T>(s: seq<T>, drop: T -> bool)
    requires Trim(s, drop) != []
    ensures var core := Trim(s, drop);
            && Bare(core, drop)
            && exists before, after :: All(before, drop) && All(after, drop) && s == before + core + after
  {
    hide TrimLeft, TrimRight, All;
    var left, core := TrimLeft(s, drop), Trim(s, drop);
    TrimLeftLeaves(s, drop);
    TrimRightLeaves(left, drop);
    var before, after := s[..|s| - |left|], left[|core|..];
    assert left == core + after;
    assert left[0] == core[0];
    assert s == before + left == before + core + after;
  }

  /** The offset of the first b, or the length when there is none. */
  function IndexOf(bs: seq<byte>, b: byte): (i: nat)
    ensures i <= |bs|
    ensures i < |bs| ==> bs[i] == b
    ensures b !in bs[..i]
  {
    if bs == [] then 0
    else if bs[0] == b then 0
    else
      var j := IndexOf(bs[1..], b);
      assert bs[..j + 1] == [bs[0]] + bs[1..][..j];
      j + 1
  }

  lemma IndexOfConcat(a: seq<byte>, c: seq<byte>, b: byte)
    ensures b in a ==> IndexOf(a + c, b) == IndexOf(a, b) < |a|
    ensures b !in a ==> IndexOf(a + c, b) == |a| + IndexOf(c, b)
  {
    if a == [] {
      assert a + c == c;
    } else {
      assert (a + c)[1..] == a[1..] + c;
      IndexOfConcat(a[1..], c, b);
    }
  }

  /** Keeping the last n of a part that already holds the last n changes nothing. */
  lemma LastNOfSuffix<T>(all: seq<T>, n: nat, cut: nat)
    requires cut <= |all| && (cut == 0 || n <= |all| - cut)
    ensures LastN(all[cut..], n) == LastN(all, n)
  {
  }

  lemma LastNConcat<T>(a: seq<T>, b: seq<T>, n: nat)
    ensures |b| <= n ==> LastN(a + b, n) == LastN(a, n - |b|) + b
    ensures |b| >= n ==> LastN(a + b, n) == LastN(b, n)
  {
  }
}
