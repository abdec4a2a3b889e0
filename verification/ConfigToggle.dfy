/**
 Rewriting whichever config file a client reads right now, while the toggle that decides which may be flipped
 (daemon/config/file.go). Whoever flips it holds the lock of the files it makes unread.
 */
module ConfigToggle {
  import opened Bytes
  import opened ConfigUpdate

  /** A file and every change there has been of it. */
  datatype Side = Side(file: FileState, log: seq<Change>)

  /** The shared file, the client's own one, and the toggle: split when the client reads its own. */
  datatype World = World(split: bool, shared: Side, own: Side) {
    function At(split: bool): Side {
      if split then own else shared
    }

    function With(split: bool, side: Side): World {
      if split then this.(own := side) else this.(shared := side)
    }
  }

  /**
   One attempt: what others do to the toggle and the files until the lock is had, and what an editor does to the file
   while it is held.
   */
  datatype Round = Round(split: bool, shared: seq<FileState>, own: seq<FileState>, turns: nat -> Turn)

  function SideAfter(s: Side, saves: seq<FileState>): Side {
    Side(Saved(s.file, saves), s.log + SaveLog(s.file, saves))
  }

  function Found(w: World, r: Round): World {
    World(r.split, SideAfter(w.shared, r.shared), SideAfter(w.own, r.own))
  }

  /** What fn is asked of a file: refused, when that is no longer the file the client reads. */
  function Asked(found: World, path: bool, fn: (bool, Contents) -> FnResult): Contents -> FnResult {
    (c: Contents) => if found.split != path then Refused else fn(path, c)
  }

  /** Which file was chosen, how it ended, and what is left. */
  datatype Answer = Answer(path: bool, outcome: Outcome, world: World)

  function Tried(w: World, max: nat, fn: (bool, Contents) -> FnResult, r: Round): Answer {
    var path := w.split;
    var found := Found(w, r);
    var a := Attempts(found.At(path).file, max, Asked(found, path, fn), r.turns, 0);
    Answer(
      path,
      if a.outcome.Some? then a.outcome.value else KeepsChanging,
      found.With(path, Side(a.file, found.At(path).log + a.log)))
  }

  predicate Moved(w: World, max: nat, fn: (bool, Contents) -> FnResult, r: Round) {
    r.split != w.split && Tried(w, max, fn, r).outcome.FnRefused?
  }

  function For(w: World, path: bool, max: nat, fn: (bool, Contents) -> FnResult, rounds: nat -> Round, k: nat): Answer
    decreases MaxAttempts - k
  {
    if k >= MaxAttempts then Answer(path, KeepsChanging, w)
    else
      var a := Tried(w, max, fn, rounds(k));
      if Moved(w, max, fn, rounds(k)) then For(a.world, a.path, max, fn, rounds, k + 1) else a
  }

  class Client {
    const shared: ConfigFile
    const own: ConfigFile
    var split: bool

    constructor (shared: ConfigFile, own: ConfigFile, split: bool)
      requires shared != own
      ensures this.shared == shared && this.own == own && this.split == split
    {
      this.shared, this.own, this.split := shared, own, split;
    }

    ghost function Abs(): World
      reads this, shared, own
    {
      World(split, Side(shared.file, shared.log), Side(own.file, own.log))
    }

    /** Others' doing, until the lock is had. */
    method Meanwhile(r: Round)
      requires shared != own
      modifies this, shared, own
      ensures Abs() == Found(old(Abs()), r)
    {
      shared.EditorSaves(r.shared);
      own.EditorSaves(r.own);
      split := r.split;
    }

    method UpdateOnce(max: nat, fn: (bool, Contents) -> FnResult, r: Round) returns (path: bool, outcome: Outcome)
      requires shared != own
      modifies this, shared, own
      ensures Answer(path, outcome, Abs()) == Tried(old(Abs()), max, fn, r)
    {
      hide Attempts;
      path := split;
      Meanwhile(r);
      ghost var found := Abs();
      var now := split;
      var asked := (c: Contents) => if now != path then Refused else fn(path, c);
      assert Abs().At(path).file == if path then own.file else shared.file;
      SameQuestion((if path then own else shared).file, max, asked, Asked(found, path, fn), r.turns, 0);
      if path {
        outcome := own.Update(max, asked, r.turns);
      } else {
        outcome := shared.Update(max, asked, r.turns);
      }
    }

    method UpdateFor(max: nat, fn: (bool, Contents) -> FnResult, rounds: nat -> Round)
      returns (path: bool, outcome: Outcome)
      requires shared != own
      modifies this, shared, own
      ensures Answer(path, outcome, Abs()) == For(old(Abs()), old(split), max, fn, rounds, 0)
    {
      hide Tried;
      path := split;
      ghost var first, initial := Abs(), split;
      for k := 0 to MaxAttempts
        invariant For(first, initial, max, fn, rounds, 0) == For(Abs(), path, max, fn, rounds, k)
      {
        var was := split;
        path, outcome := UpdateOnce(max, fn, rounds(k));
        if !(rounds(k).split != was && outcome.FnRefused?) {
          return;
        }
      }
      outcome := KeepsChanging;
    }
  }

  /** Functions that answer alike are alike to Update. */
  lemma {:induction false} SameQuestion(
    f: FileState, max: nat, fn: Contents -> FnResult, gn: Contents -> FnResult, turns: nat -> Turn, k: nat)
    requires forall c :: fn(c) == gn(c)
    ensures Attempts(f, max, fn, turns, k) == Attempts(f, max, gn, turns, k)
    decreases MaxAttempts - k
  {
    if k < MaxAttempts {
      var a := Attempt(f, max, fn, turns(k));
      assert a == Attempt(f, max, gn, turns(k));
      hide Attempt;
      if a.outcome.None? {
        SameQuestion(a.file, max, fn, gn, turns, k + 1);
      }
    }
  }

  // ---------- what is proved ----------

  /** Between two worlds a file was changed by others, and then by one write if wrote. */
  ghost predicate Extends(was: Side, s: Side, wrote: bool) {
    exists since: seq<Change> :: s.log == was.log + since && OnlyTheLast(since, wrote)
  }

  lemma ExtendsThen(a: Side, b: Side, c: Side, wrote: bool)
    requires Extends(a, b, false) && Extends(b, c, wrote)
    ensures Extends(a, c, wrote)
  {
    var x :| b.log == a.log + x && OnlyTheLast(x, false);
    var y :| c.log == b.log + y && OnlyTheLast(y, wrote);
    assert c.log == a.log + (x + y);
    if wrote {
      assert (x + y)[..|x + y| - 1] == x + y[..|y| - 1];
    }
  }

  lemma OthersExtend(s: Side, saves: seq<FileState>)
    ensures Extends(s, SideAfter(s, saves), false)
  {
    SaveLogEnds(s.file, saves);
  }

  lemma Same(s: Side)
    ensures Extends(s, s, false)
  {
    assert s.log == s.log + [];
  }

  /** What the last write to a file made of what was there. */
  predicate LastIsFresh(s: Side, max: nat, path: bool, fn: (bool, Contents) -> FnResult) {
    NothingLost(Attempted(s.file, s.log, Some(Updated)), max, (c: Contents) => fn(path, c))
  }

  /**
   How a try ends: where it wrote, if it did, is what the client reads, and what it wrote is made of what was there.
   */
  lemma TriedWritesWhatIsRead(w: World, max: nat, fn: (bool, Contents) -> FnResult, r: Round)
    ensures var a := Tried(w, max, fn, r);
            var wrote := a.outcome == Updated;
            && a.path == w.split && a.world.split == r.split
            && Extends(w.At(!a.path), a.world.At(!a.path), false)
            && Extends(w.At(a.path), a.world.At(a.path), wrote)
            && (wrote ==> a.world.split == a.path)
            && (wrote && NoGap(r.turns) ==> LastIsFresh(a.world.At(a.path), max, a.path, fn))
  {
    hide Attempts, OnlyTheLast, NothingLost, Extends;
    var path := w.split;
    var found := Found(w, r);
    OthersExtend(w.shared, r.shared);
    OthersExtend(w.own, r.own);
    var a := Attempts(found.At(path).file, max, Asked(found, path, fn), r.turns, 0);
    WritesOnceOrNever(found.At(path).file, max, Asked(found, path, fn), r.turns, 0);
    var after := Side(a.file, found.At(path).log + a.log);
    assert Extends(found.At(path), after, a.outcome == Some(Updated)) by {
      WroteAfter(found.At(path), after, a.log, a.outcome == Some(Updated));
    }
    ExtendsThen(w.At(path), found.At(path), after, a.outcome == Some(Updated));
    if a.outcome == Some(Updated) {
      RefusedNeverWrites(found.At(path).file, max, Asked(found, path, fn), r.turns, 0);
      if NoGap(r.turns) {
        NoLostEdit(found.At(path).file, max, Asked(found, path, fn), r.turns, 0);
        Whole(found.At(path), a, max, path, fn, Asked(found, path, fn));
      }
    }
  }

  lemma WroteAfter(was: Side, s: Side, log: seq<Change>, wrote: bool)
    requires s.log == was.log + log && OnlyTheLast(log, wrote)
    ensures Extends(was, s, wrote)
  {
  }

  lemma Whole(
    was: Side, a: Attempted, max: nat, path: bool, fn: (bool, Contents) -> FnResult, asked: Contents -> FnResult)
    requires NothingLost(a, max, asked) && forall c :: asked(c) == fn(path, c)
    ensures LastIsFresh(Side(a.file, was.log + a.log), max, path, fn)
  {
  }

  lemma {:induction false} RefusedNeverWrites(
    f: FileState, max: nat, fn: Contents -> FnResult, turns: nat -> Turn, k: nat)
    ensures (forall c :: fn(c).Refused?) ==> Attempts(f, max, fn, turns, k).outcome != Some(Updated)
    decreases MaxAttempts - k
  {
    if k < MaxAttempts {
      var a := Attempt(f, max, fn, turns(k));
      assert (forall c :: fn(c).Refused?) ==> a.outcome.Some? && a.outcome != Some(Updated);
    }
  }

  /** When the config is split the one write is to the client's own file, and otherwise to the shared one. */
  lemma OwnFileIffSplit(
    w: World, path: bool, max: nat, fn: (bool, Contents) -> FnResult, rounds: nat -> Round, k: nat)
    requires For(w, path, max, fn, rounds, k).outcome == Updated
    ensures var v := For(w, path, max, fn, rounds, k).world;
            if v.split then Extends(w.own, v.own, true) && Extends(w.shared, v.shared, false)
            else Extends(w.shared, v.shared, true) && Extends(w.own, v.own, false)
  {
    hide Extends, For;
    WritesWhatIsRead(w, path, max, fn, rounds, k);
  }

  /** The toggle is flipped between round j's choice of a file and the lock. */
  predicate Flipped(w: World, rounds: nat -> Round, k: nat, j: nat)
    requires k <= j
  {
    rounds(j).split != if j == k then w.split else rounds(j - 1).split
  }

  /** How a round that is not tried again ends. */
  lemma TriedMeans(w: World, max: nat, fn: (bool, Contents) -> FnResult, r: Round)
    requires !Moved(w, max, fn, r)
    ensures var a := Tried(w, max, fn, r);
            var there := Held(a.world.At(a.path).file);
            && (a.outcome.FnRefused? ==> a.world.split == a.path && fn(a.path, there).Refused?)
            && (a.outcome.Unchanged? ==> a.world.split == a.path && fn(a.path, there) == Next(there))
            && (a.outcome.TooLarge? ==>
                  || |there| > max
                  || (a.world.split == a.path && fn(a.path, there).Next? && |fn(a.path, there).contents| > max))
            && (a.outcome.ReadFailed? ==>
                  exists i: nat :: i < MaxAttempts && (!r.turns(i).readable || !r.turns(i).readsAgain))
            && (a.outcome.WriteFailed? ==>
                  exists i: nat :: i < MaxAttempts && (!r.turns(i).prepares || !r.turns(i).renames))
            && (a.outcome.KeepsChanging? ==> forall i: nat :: i < MaxAttempts ==> r.turns(i).thinking != [])
  {
    hide Attempts;
    var found := Found(w, r);
    AnswerMeans(found.At(w.split).file, max, Asked(found, w.split, fn), r.turns, 0);
    WritesOnceOrNever(found.At(w.split).file, max, Asked(found, w.split, fn), r.turns, 0);
  }

  /**
   A write whose file moved is tried again: no answer is ever about the file the client no longer reads. A refusal is
   fn's own of the file the client reads, as it is left; and giving up means that the toggle was flipped in every
   round, or that an editor saved the file during every attempt of one.
   */
  lemma {:induction false} FlipsAreTriedAgain(
    w: World, path: bool, max: nat, fn: (bool, Contents) -> FnResult, rounds: nat -> Round, k: nat)
    requires k < MaxAttempts
    ensures var a := For(w, path, max, fn, rounds, k);
            var there := Held(a.world.At(a.path).file);
            && (a.outcome.FnRefused? ==> a.world.split == a.path && fn(a.path, there).Refused?)
            && (a.outcome.Unchanged? ==> a.world.split == a.path && fn(a.path, there) == Next(there))
            && (a.outcome.TooLarge? ==>
                  || |there| > max
                  || (a.world.split == a.path && fn(a.path, there).Next? && |fn(a.path, there).contents| > max))
            && (a.outcome.KeepsChanging? ==>
                  || (forall j: nat :: k <= j < MaxAttempts ==> Flipped(w, rounds, k, j))
                  || exists j: nat :: k <= j < MaxAttempts && SavedThroughout(rounds(j)))
    decreases MaxAttempts - k
  {
    hide Tried;
    var r := rounds(k);
    var b := Tried(w, max, fn, r);
    TriedWritesWhatIsRead(w, max, fn, r);
    if !Moved(w, max, fn, r) {
      TriedMeans(w, max, fn, r);
      assert b.outcome.KeepsChanging? ==> SavedThroughout(r);
    } else {
      if k + 1 < MaxAttempts {
        FlipsAreTriedAgain(b.world, b.path, max, fn, rounds, k + 1);
        assert forall j: nat :: k + 1 <= j < MaxAttempts ==>
          (Flipped(b.world, rounds, k + 1, j) <==> Flipped(w, rounds, k, j));
      }
    }
  }

  predicate SavedThroughout(r: Round) {
    forall i: nat :: i < MaxAttempts ==> r.turns(i).thinking != []
  }

  /**
   However the toggle is flipped while a write waits, a write lands only in the file the client reads by then, and
   only once; the other file, and either of them when nothing was written, has no changes but others'. With no save in
   the gap, it is made of all that was there.
   */
  lemma {:induction false} WritesWhatIsRead(
    w: World, path: bool, max: nat, fn: (bool, Contents) -> FnResult, rounds: nat -> Round, k: nat)
    ensures var a := For(w, path, max, fn, rounds, k);
            var wrote := a.outcome == Updated;
            && Extends(w.At(!a.path), a.world.At(!a.path), false)
            && Extends(w.At(a.path), a.world.At(a.path), wrote)
            && (wrote ==> a.world.split == a.path)
            && (wrote && (forall j :: k <= j < MaxAttempts ==> NoGap(rounds(j).turns)) ==>
                  LastIsFresh(a.world.At(a.path), max, a.path, fn))
    decreases MaxAttempts - k
  {
    hide Tried, Extends, NoGap, LastIsFresh;
    if k >= MaxAttempts {
      Same(w.shared);
      Same(w.own);
    } else {
      TriedWritesWhatIsRead(w, max, fn, rounds(k));
      var b := Tried(w, max, fn, rounds(k));
      if Moved(w, max, fn, rounds(k)) {
        WritesWhatIsRead(b.world, b.path, max, fn, rounds, k + 1);
        var a := For(w, path, max, fn, rounds, k);
        var wrote := a.outcome == Updated;
        ExtendsThen(w.At(a.path), b.world.At(a.path), a.world.At(a.path), wrote);
        ExtendsThen(w.At(!a.path), b.world.At(!a.path), a.world.At(!a.path), false);
      }
    }
  }
}
