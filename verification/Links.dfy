/** Following a path through symbolic links to the file a write replaces (daemon/atomicfile/atomicfile.go). */
module Links {
  type Path = string

  /** What is at a path: a link and where it leads, something else, nothing, or something that cannot be looked at. */
  datatype Node = Link(to: Path) | Plain | Nothing | Unreadable

  datatype Resolution = Found(path: Path) | LookupFailed | TooMany

  const MaxLinks := 40

  /** Following k links from a path leads to another. */
  predicate Reaches(at: Path -> Node, from: Path, k: nat, to: Path)
    decreases k
  {
    if k == 0 then from == to else at(from).Link? && Reaches(at, at(from).to, k - 1, to)
  }

  lemma {:induction false} OneMore(at: Path -> Node, from: Path, k: nat, to: Path)
    requires Reaches(at, from, k, to) && at(to).Link?
    ensures Reaches(at, from, k + 1, at(to).to)
    decreases k
  {
    if k > 0 {
      OneMore(at, at(from).to, k - 1, to);
    }
  }

  /** There is one place to get to. */
  lemma {:induction false} OnePath(at: Path -> Node, from: Path, k: nat, a: Path, b: Path)
    requires Reaches(at, from, k, a) && Reaches(at, from, k, b)
    ensures a == b
    decreases k
  {
    if k > 0 {
      OnePath(at, at(from).to, k - 1, a, b);
    }
  }

  lemma {:induction false} LinksOnTheWay(at: Path -> Node, from: Path, j: nat, k: nat, to: Path, mid: Path)
    requires j < k && Reaches(at, from, k, to) && Reaches(at, from, j, mid)
    ensures at(mid).Link?
    decreases j
  {
    if j > 0 {
      LinksOnTheWay(at, at(from).to, j - 1, k - 1, to, mid);
    }
  }

  /** Within the bound the links lead to something that is no link, or to where nothing is yet. */
  ghost predicate LeadsTo(at: Path -> Node, path: Path, p: Path) {
    (at(p).Plain? || at(p).Nothing?) && exists k: nat :: k < MaxLinks && Reaches(at, path, k, p)
  }

  /** The file a write through the path replaces. */
  method Resolve(at: Path -> Node, path: Path) returns (r: Resolution)
    ensures forall p :: r == Found(p) <==> LeadsTo(at, path, p)
    ensures r.TooMany? <==> exists p :: Reaches(at, path, MaxLinks, p)
    ensures r.LookupFailed? <==> exists k: nat, p :: k < MaxLinks && Reaches(at, path, k, p) && at(p).Unreadable?
  {
    var current := path;
    assert Reaches(at, path, 0, path);
    hide Reaches;
    for i := 0 to MaxLinks
      invariant Reaches(at, path, i, current)
    {
      if !at(current).Link? {
        EndsThere(at, path, i, current);
        assert Reaches(at, path, i, current);
        return if at(current).Unreadable? then LookupFailed else Found(current);
      }
      OneMore(at, path, i, current);
      current := at(current).to;
    }
    assert Reaches(at, path, MaxLinks, current);
    forall k: nat, p | k < MaxLinks && Reaches(at, path, k, p)
      ensures at(p).Link?
    {
      LinksOnTheWay(at, path, k, MaxLinks, current, p);
    }
    return TooMany;
  }

  /** A path that gets to something other than a link gets to nothing else that is not one, and no further. */
  lemma EndsThere(at: Path -> Node, path: Path, i: nat, end: Path)
    requires i < MaxLinks && Reaches(at, path, i, end) && !at(end).Link?
    ensures forall k: nat, p :: k < MaxLinks && Reaches(at, path, k, p) && !at(p).Link? ==> p == end
    ensures forall p :: !Reaches(at, path, MaxLinks, p)
  {
    forall k: nat, p | k < MaxLinks && Reaches(at, path, k, p) && !at(p).Link?
      ensures p == end
    {
      if k < i {
        LinksOnTheWay(at, path, k, i, end, p);
      } else if i < k {
        LinksOnTheWay(at, path, i, k, p, end);
      } else {
        OnePath(at, path, i, p, end);
      }
    }
    forall p
      ensures !Reaches(at, path, MaxLinks, p)
    {
      if Reaches(at, path, MaxLinks, p) {
        LinksOnTheWay(at, path, i, MaxLinks, p, end);
      }
    }
  }

  lemma {:induction false} Onward(at: Path -> Node, from: Path, j: nat, mid: Path, k: nat, to: Path)
    requires Reaches(at, from, j, mid) && Reaches(at, mid, k, to)
    ensures Reaches(at, from, j + k, to)
    decreases j
  {
    if j > 0 {
      Onward(at, at(from).to, j - 1, mid, k, to);
    }
  }

  lemma {:induction false} Halfway(at: Path -> Node, from: Path, j: nat, k: nat, to: Path) returns (mid: Path)
    requires Reaches(at, from, j + k, to)
    ensures Reaches(at, from, j, mid) && Reaches(at, mid, k, to)
    decreases j
  {
    if j == 0 {
      mid := from;
    } else {
      mid := Halfway(at, at(from).to, j - 1, k, to);
    }
  }

  /** Links in a loop can be followed any number of times, so resolving one ends with an error and not never. */
  lemma {:induction false} LoopIsTooMany(at: Path -> Node, path: Path, k: nat, n: nat)
    requires k > 0 && Reaches(at, path, k, path)
    ensures exists p :: Reaches(at, path, n, p)
    decreases n
  {
    if n <= k {
      var mid := Halfway(at, path, n, k - n, path);
      assert Reaches(at, path, n, mid);
    } else {
      LoopIsTooMany(at, path, k, n - k);
      var p :| Reaches(at, path, n - k, p);
      Onward(at, path, k, path, n - k, p);
      assert Reaches(at, path, n, p);
    }
  }
}
